/** The vote ledger: the Vote collection with its duplicate check
    (`VoteService.submitVote`), `hasVoted` and `getVoteCount`. */
module VoteService {
  import opened Wrappers
  import opened Seqs
  import opened Models

  const AlreadyVotedMessage := "You have already voted on this poll"
  const InvalidVoteMessage := "Vote validation failed"

  datatype VoteError = AlreadyVoted | InvalidVote {
    /** The `message` of the error the service throws. */
    function Message(): string {
      match this
      case AlreadyVoted => AlreadyVotedMessage
      case InvalidVote => InvalidVoteMessage
    }
  }

  /** `Vote.findOne({pollId, studentSessionId})`: the first matching vote. */
  function FindVote(votes: seq<Vote>, pollId: PollId, sessionId: SessionId): (r: Option<nat>)
    ensures r.Some? ==>
      r.value < |votes| && votes[r.value].pollId == pollId && votes[r.value].studentSessionId == sessionId
    ensures r.Some? ==>
      forall j :: 0 <= j < r.value ==> !(votes[j].pollId == pollId && votes[j].studentSessionId == sessionId)
    ensures r.None? ==> forall v :: v in votes ==> !(v.pollId == pollId && v.studentSessionId == sessionId)
  {
    if votes == [] then None
    else if votes[0].pollId == pollId && votes[0].studentSessionId == sessionId then Some(0)
    else
      match FindVote(votes[1..], pollId, sessionId)
      case None => None
      case Some(i) => Some(i + 1)
  }

  /** `hasVoted`: some vote matches both the poll and the session. */
  function HasVoted(votes: seq<Vote>, pollId: PollId, sessionId: SessionId): (b: bool)
    ensures b <==> exists v :: v in votes && v.pollId == pollId && v.studentSessionId == sessionId
  {
    FindVote(votes, pollId, sessionId).Some?
  }

  /** `Vote.find({pollId})`: the votes on a poll, in stored order. */
  function VotesOn(votes: seq<Vote>, pollId: PollId): seq<Vote> {
    Filter(votes, (v: Vote) => v.pollId == pollId)
  }

  /** `getVoteCount`, `countDocuments({pollId})`. */
  function VoteCount(votes: seq<Vote>, pollId: PollId): (n: nat)
    ensures n <= |votes|
    ensures n == 0 <==> forall v :: v in votes ==> v.pollId != pollId
  {
    var on := VotesOn(votes, pollId);
    assert on != [] ==> on[0] in on;
    |on|
  }

  /** The vote `submitVote` builds from its arguments. */
  function Ballot(pollId: PollId, sessionId: SessionId, name: string, optionId: string, now: int): (v: Vote)
    ensures v.pollId == pollId && v.studentSessionId == sessionId
    ensures v.studentName == name && v.optionId == optionId && v.votedAt == now
  {
    Vote(pollId, name, sessionId, optionId, now)
  }

  /** Appending a vote raises the count of its own poll by one and leaves
      every other poll's count alone. */
  lemma {:induction false} VoteCountAfterAppend(votes: seq<Vote>, v: Vote, p: PollId)
    ensures VoteCount(votes + [v], p) == VoteCount(votes, p) + (if v.pollId == p then 1 else 0)
  {
    FilterAppend(votes, [v], (w: Vote) => w.pollId == p);
  }

  /** Appending a vote for a pair that has none keeps the unique index. */
  lemma {:induction false} UniqueAfterAppend(votes: seq<Vote>, v: Vote)
    requires UniqueBallots(votes)
    requires !HasVoted(votes, v.pollId, v.studentSessionId)
    ensures UniqueBallots(votes + [v])
  {
    var s := votes + [v];
    forall i, j | 0 <= i < j < |s|
      ensures !SameBallot(s[i], s[j])
    {
      if j == |votes| {
        assert s[i] in votes;
      }
    }
  }

  /** Under the unique index at most one vote exists per (pollId, sessionId). */
  lemma {:induction false} AtMostOneBallot(votes: seq<Vote>, pollId: PollId, sessionId: SessionId)
    requires UniqueBallots(votes)
    ensures Count(votes, (v: Vote) => v.pollId == pollId && v.studentSessionId == sessionId) <= 1
  {
    CountAtMostOne(votes, (v: Vote) => v.pollId == pollId && v.studentSessionId == sessionId);
  }

  /** The persisted votes. */
  class VoteLedger {
    var votes: seq<Vote>

    ghost predicate Valid()
      reads this
    {
      UniqueBallots(votes) && forall v :: v in votes ==> ValidVote(v)
    }

    constructor ()
      ensures Valid() && votes == []
    {
      votes := [];
    }

    /** `submitVote`: refuses a second vote for the same poll and session,
        otherwise saves exactly one new vote (or fails schema validation and
        saves nothing). */
    method SubmitVote(pollId: PollId, sessionId: SessionId, name: string, optionId: string, now: int)
      returns (r: Result<Vote, VoteError>)
      requires Valid()
      modifies this
      ensures Valid()
      ensures old(HasVoted(votes, pollId, sessionId)) ==> r == Failure(AlreadyVoted) && votes == old(votes)
      ensures !old(HasVoted(votes, pollId, sessionId)) && !ValidVote(Ballot(pollId, sessionId, name, optionId, now)) ==>
        r == Failure(InvalidVote) && votes == old(votes)
      ensures r.Success? <==>
        !old(HasVoted(votes, pollId, sessionId)) && ValidVote(Ballot(pollId, sessionId, name, optionId, now))
      ensures r.Success? ==>
        r.value == Ballot(pollId, sessionId, name, optionId, now) && votes == old(votes) + [r.value]
    {
      if HasVoted(votes, pollId, sessionId) {
        return Failure(AlreadyVoted);
      }
      var v := Ballot(pollId, sessionId, name, optionId, now);
      if !ValidVote(v) {
        return Failure(InvalidVote);
      }
      UniqueAfterAppend(votes, v);
      votes := votes + [v];
      r := Success(v);
    }
  }

  /** After a successful submit the pair has voted, so a second submit for it
      is refused. */
  lemma {:induction false} VotedAfterSubmit(votes: seq<Vote>, v: Vote)
    ensures HasVoted(votes + [v], v.pollId, v.studentSessionId)
  {
    assert (votes + [v])[|votes|] == v;
  }
}
