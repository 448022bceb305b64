/** The client's poll-list state of `usePollState`: the current poll, the
    list of polls seen (newest first) and whether this client has voted. */
module PollStateHook {
  import opened Wrappers
  import opened Models

  /** A `Partial<Poll>`: each field is either absent or the new value.
      `startedAt` and `endedAt` are optional in a poll, so an update may also
      clear them. */
  datatype PollPatch = PollPatch(
    id: Option<PollId>,
    question: Option<string>,
    options: Option<seq<PollOption>>,
    duration: Option<int>,
    startedAt: Option<Option<int>>,
    endedAt: Option<Option<int>>,
    isActive: Option<bool>,
    questionNumber: Option<int>,
    createdAt: Option<int>)

  const NoChanges := PollPatch(None, None, None, None, None, None, None, None, None)

  /** `{ ...poll, ...updates }`: every field the patch carries overrides the
      poll's. */
  function Merge(p: Poll, u: PollPatch): (q: Poll)
    ensures u == NoChanges ==> q == p
  {
    Poll(u.id.GetOr(p.id), u.question.GetOr(p.question), u.options.GetOr(p.options),
         u.duration.GetOr(p.duration), u.startedAt.GetOr(p.startedAt), u.endedAt.GetOr(p.endedAt),
         u.isActive.GetOr(p.isActive), u.questionNumber.GetOr(p.questionNumber), u.createdAt.GetOr(p.createdAt))
  }

  /** An empty patch changes nothing, a field the patch leaves out keeps its
      value, a field it carries takes the patch's value, and applying the
      same patch twice is the same as once. */
  lemma {:induction false} MergeLaws(p: Poll, u: PollPatch)
    ensures Merge(p, NoChanges) == p
    ensures Merge(Merge(p, u), u) == Merge(p, u)
    ensures u.id.None? ==> Merge(p, u).id == p.id
    ensures u.id.Some? ==> Merge(p, u).id == u.id.value
    ensures u.question.None? ==> Merge(p, u).question == p.question
    ensures u.question.Some? ==> Merge(p, u).question == u.question.value
    ensures u.options.None? ==> Merge(p, u).options == p.options
    ensures u.options.Some? ==> Merge(p, u).options == u.options.value
    ensures u.duration.None? ==> Merge(p, u).duration == p.duration
    ensures u.duration.Some? ==> Merge(p, u).duration == u.duration.value
    ensures u.startedAt.None? ==> Merge(p, u).startedAt == p.startedAt
    ensures u.startedAt.Some? ==> Merge(p, u).startedAt == u.startedAt.value
    ensures u.endedAt.None? ==> Merge(p, u).endedAt == p.endedAt
    ensures u.endedAt.Some? ==> Merge(p, u).endedAt == u.endedAt.value
    ensures u.isActive.None? ==> Merge(p, u).isActive == p.isActive
    ensures u.isActive.Some? ==> Merge(p, u).isActive == u.isActive.value
    ensures u.questionNumber.None? ==> Merge(p, u).questionNumber == p.questionNumber
    ensures u.questionNumber.Some? ==> Merge(p, u).questionNumber == u.questionNumber.value
    ensures u.createdAt.None? ==> Merge(p, u).createdAt == p.createdAt
    ensures u.createdAt.Some? ==> Merge(p, u).createdAt == u.createdAt.value
  {
  }

  /** `prev.map(poll => poll._id === pollId ? { ...poll, ...updates } : poll)`. */
  function UpdateAll(polls: seq<Poll>, pollId: PollId, u: PollPatch): (r: seq<Poll>)
    ensures |r| == |polls|
    ensures forall i :: 0 <= i < |polls| && polls[i].id != pollId ==> r[i] == polls[i]
    ensures forall i :: 0 <= i < |polls| && polls[i].id == pollId ==> r[i] == Merge(polls[i], u)
  {
    seq(|polls|, i requires 0 <= i < |polls| => if polls[i].id == pollId then Merge(polls[i], u) else polls[i])
  }

  /** Updating with an empty patch leaves the list as it was, and repeating
      an update that keeps the poll's id changes nothing more. */
  lemma {:induction false} UpdateAllLaws(polls: seq<Poll>, pollId: PollId, u: PollPatch)
    requires u.id.None? || u.id == Some(pollId)
    ensures UpdateAll(polls, pollId, NoChanges) == polls
    ensures UpdateAll(UpdateAll(polls, pollId, u), pollId, u) == UpdateAll(polls, pollId, u)
  {
    var once := UpdateAll(polls, pollId, u);
    forall i | 0 <= i < |polls| ensures UpdateAll(once, pollId, u)[i] == once[i] {
      MergeLaws(polls[i], u);
    }
    forall i | 0 <= i < |polls| ensures UpdateAll(polls, pollId, NoChanges)[i] == polls[i] {
      MergeLaws(polls[i], u);
    }
  }

  class PollListState {
    var currentPoll: Option<Poll>
    var polls: seq<Poll>
    var hasVoted: bool

    /** The initial state: no current poll, no polls, not voted. */
    constructor ()
      ensures currentPoll.None? && polls == [] && !hasVoted
    {
      currentPoll := None;
      polls := [];
      hasVoted := false;
    }

    /** `addPoll`: the poll goes to the front and becomes current, and the
        vote flag is cleared. */
    method AddPoll(p: Poll)
      modifies this
      ensures polls == [p] + old(polls)
      ensures currentPoll == Some(p)
      ensures !hasVoted
    {
      polls := [p] + polls;
      currentPoll := Some(p);
      hasVoted := false;
    }

    /** `updatePoll`: merges the update into every poll with that id, and
        into the current poll only when it has that id. */
    method UpdatePoll(pollId: PollId, u: PollPatch)
      modifies this
      ensures polls == UpdateAll(old(polls), pollId, u)
      ensures old(currentPoll).Some? && old(currentPoll).value.id == pollId ==>
        currentPoll == Some(Merge(old(currentPoll).value, u))
      ensures !(old(currentPoll).Some? && old(currentPoll).value.id == pollId) ==> currentPoll == old(currentPoll)
      ensures hasVoted == old(hasVoted)
    {
      polls := UpdateAll(polls, pollId, u);
      if currentPoll.Some? && currentPoll.value.id == pollId {
        currentPoll := Some(Merge(currentPoll.value, u));
      }
    }

    /** `setUserVoted`. */
    method SetUserVoted()
      modifies this
      ensures hasVoted
      ensures polls == old(polls) && currentPoll == old(currentPoll)
    {
      hasVoted := true;
    }

    /** `resetVoteStatus`. */
    method ResetVoteStatus()
      modifies this
      ensures !hasVoted
      ensures polls == old(polls) && currentPoll == old(currentPoll)
    {
      hasVoted := false;
    }

    /** The exposed `setCurrentPoll`. */
    method SetCurrentPoll(p: Option<Poll>)
      modifies this
      ensures currentPoll == p
      ensures polls == old(polls) && hasVoted == old(hasVoted)
    {
      currentPoll := p;
    }
  }
}
