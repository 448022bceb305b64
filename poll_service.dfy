/** The poll store and the lifecycle queries of `PollService`: sequential
    question numbering, start and end, the active-poll lookup, per-option
    results, history and the admission rule for a new poll. */
module PollService {
  import opened Wrappers
  import opened Seqs
  import opened Models
  import opened VoteService

  // ------------------------------------------------------------ lookups

  /** `Poll.findById(id)`: the position of the poll with that id. */
  function FindPoll(polls: seq<Poll>, id: PollId): (r: Option<nat>)
    ensures r.Some? ==> r.value < |polls| && polls[r.value].id == id
    ensures r.Some? ==> forall j :: 0 <= j < r.value ==> polls[j].id != id
    ensures r.None? <==> forall p :: p in polls ==> p.id != id
  {
    if polls == [] then None
    else if polls[0].id == id then Some(0)
    else
      match FindPoll(polls[1..], id)
      case None => None
      case Some(i) => Some(i + 1)
  }

  /** The store's own invariant: a poll's id is its position. */
  ghost predicate IdsAreIndexes(polls: seq<Poll>) {
    forall i :: 0 <= i < |polls| ==> polls[i].id == i
  }

  ghost predicate StoreInvariant(polls: seq<Poll>) {
    IdsAreIndexes(polls) && forall p :: p in polls ==> ValidPoll(p)
  }

  lemma {:induction false} FindPollAt(polls: seq<Poll>, id: PollId)
    requires IdsAreIndexes(polls)
    ensures FindPoll(polls, id) == if 0 <= id < |polls| then Some(id) else None
  {
    if 0 <= id < |polls| {
      assert polls[id] in polls;
    }
  }

  /** `findOne().sort({questionNumber: -1})`, then `+ 1`, or 1 when there is
      no poll: the new number is one more than the largest existing one. */
  function NextQuestionNumber(polls: seq<Poll>): (n: int)
    ensures polls == [] ==> n == 1
    ensures forall p :: p in polls ==> p.questionNumber < n
    ensures polls != [] ==> exists p :: p in polls && p.questionNumber == n - 1
  {
    if polls == [] then 1
    else
      var rest := NextQuestionNumber(polls[1..]);
      assert polls == [polls[0]] + polls[1..];
      if polls[1..] == [] || polls[0].questionNumber + 1 >= rest then polls[0].questionNumber + 1 else rest
  }

  /** `Poll.findOne({isActive: true})`: the first active poll in stored order. */
  function FirstActive(polls: seq<Poll>): (r: Option<nat>)
    ensures r.Some? ==> r.value < |polls| && polls[r.value].isActive
    ensures r.Some? ==> forall j :: 0 <= j < r.value ==> !polls[j].isActive
    ensures r.None? <==> forall p :: p in polls ==> !p.isActive
  {
    if polls == [] then None
    else if polls[0].isActive then Some(0)
    else
      match FirstActive(polls[1..])
      case None => None
      case Some(i) => Some(i + 1)
  }

  /** `getActivePoll`. */
  function GetActivePoll(polls: seq<Poll>): (r: Option<Poll>)
    ensures r.None? <==> forall p :: p in polls ==> !p.isActive
    ensures r.Some? ==> r.value in polls && r.value.isActive
  {
    match FirstActive(polls)
    case None => None
    case Some(i) => Some(polls[i])
  }

  // --------------------------------------------------------- transitions

  /** The update of `startPoll`: active, started now, nothing else changed. */
  function Started(p: Poll, now: int): (q: Poll)
    ensures q.isActive && q.startedAt == Some(now)
    ensures q.(isActive := p.isActive, startedAt := p.startedAt) == p
  {
    p.(isActive := true, startedAt := Some(now))
  }

  /** The update of `endPoll`: inactive, ended now, nothing else changed. */
  function Ended(p: Poll, now: int): (q: Poll)
    ensures !q.isActive && q.endedAt == Some(now)
    ensures q.(isActive := p.isActive, endedAt := p.endedAt) == p
  {
    p.(isActive := false, endedAt := Some(now))
  }

  /** The poll `createPoll` builds: the next question number, inactive, and
      a duration of 60 seconds when none is given. */
  function Draft(polls: seq<Poll>, question: string, options: seq<OptionInput>,
                 duration: Option<int>, now: int): (p: Poll)
    ensures p.id == |polls| && !p.isActive && p.startedAt.None? && p.endedAt.None?
    ensures p.questionNumber == NextQuestionNumber(polls) && p.createdAt == now
    ensures duration.None? ==> p.duration == DefaultDuration
    ensures duration.Some? ==> p.duration == duration.value
  {
    NewPoll(|polls|, question, options, duration.GetOr(DefaultDuration), NextQuestionNumber(polls), now)
  }

  /** A draft passes the schema exactly when its question and every
      option's id and text are non-empty. */
  lemma {:induction false} DraftValid(polls: seq<Poll>, question: string, options: seq<OptionInput>, duration: Option<int>, now: int)
    ensures ValidPoll(Draft(polls, question, options, duration, now)) <==>
      question != [] && forall o :: o in options ==> o.id != [] && o.text != []
  {
    var p := Draft(polls, question, options, duration, now);
    if forall o :: o in options ==> o.id != [] && o.text != [] {
      forall o | o in p.options ensures ValidOption(o) {
        var i :| 0 <= i < |p.options| && p.options[i] == o;
        assert options[i] in options;
      }
    }
    if forall o :: o in p.options ==> ValidOption(o) {
      forall o | o in options ensures o.id != [] && o.text != [] {
        var i :| 0 <= i < |options| && options[i] == o;
        assert p.options[i] in p.options;
      }
    }
  }

  /** The poll collection after `findByIdAndUpdate(id, update)`. */
  function UpdateById(polls: seq<Poll>, id: PollId, f: Poll -> Poll): (r: seq<Poll>)
    ensures |r| == |polls|
    ensures FindPoll(polls, id).None? ==> r == polls
    ensures FindPoll(polls, id).Some? ==>
      var i := FindPoll(polls, id).value;
      r == polls[i := f(polls[i])]
  {
    match FindPoll(polls, id)
    case None => polls
    case Some(i) => polls[i := f(polls[i])]
  }

  lemma {:induction false} UpdateKeepsInvariant(polls: seq<Poll>, id: PollId, now: int, start: bool)
    requires StoreInvariant(polls)
    ensures StoreInvariant(UpdateById(polls, id, (p: Poll) => if start then Started(p, now) else Ended(p, now)))
  {
    var r := UpdateById(polls, id, (p: Poll) => if start then Started(p, now) else Ended(p, now));
    forall q | q in r ensures ValidPoll(q) {
      var k :| 0 <= k < |r| && r[k] == q;
      assert polls[k] in polls;
    }
  }

  // ------------------------------------------------------------ results

  datatype OptionTally = OptionTally(optionId: string, optionText: string, count: nat, percentage: nat)
  datatype Voter = Voter(name: string, votedAt: int)
  datatype PollResults = PollResults(poll: Poll, results: seq<OptionTally>, totalVotes: nat, voters: seq<Voter>)

  /** `Math.round(count / total * 100)` in exact integer arithmetic, 0 when
      there are no votes: the whole percentage nearest to `count / total`,
      halves rounded up. */
  function RoundedPercent(count: nat, total: nat): (r: nat)
    ensures total == 0 ==> r == 0
    ensures total > 0 ==> 2 * total * r <= 200 * count + total < 2 * total * (r + 1)
    ensures count <= total ==> r <= 100
  {
    if total > 0 then
      var r := (200 * count + total) / (2 * total);
      DivBounds(200 * count + total, 2 * total);
      assert count <= total ==> r <= 100 by {
        if count <= total {
          assert 2 * total * 101 == 202 * total;
          CancelStrict(2 * total, r, 101);
        }
      }
      r
    else 0
  }

  lemma {:induction false} DivBounds(n: nat, d: nat)
    requires d > 0
    ensures d * (n / d) <= n < d * (n / d + 1)
  {
    var q, m := n / d, n % d;
    assert n == d * q + m && 0 <= m < d;
    assert d * (q + 1) == d * q + d;
  }

  /** The votes choosing an option: `votes.filter(v => v.optionId === id).length`. */
  function CountChoosing(vs: seq<Vote>, optionId: string): nat {
    Count(vs, (v: Vote) => v.optionId == optionId)
  }

  /** One entry per option, in option order. */
  function Tally(options: seq<PollOption>, vs: seq<Vote>): (r: seq<OptionTally>)
    ensures |r| == |options|
    ensures forall i :: 0 <= i < |options| ==>
      && r[i].optionId == options[i].id
      && r[i].optionText == options[i].text
      && r[i].count == CountChoosing(vs, options[i].id)
      && r[i].count <= |vs|
      && r[i].percentage == RoundedPercent(r[i].count, |vs|)
      && r[i].percentage <= 100
  {
    if options == [] then []
    else
      var c := CountChoosing(vs, options[0].id);
      [OptionTally(options[0].id, options[0].text, c, RoundedPercent(c, |vs|))] + Tally(options[1..], vs)
  }

  function Voters(vs: seq<Vote>): (r: seq<Voter>)
    ensures |r| == |vs|
    ensures forall i :: 0 <= i < |vs| ==> r[i] == Voter(vs[i].studentName, vs[i].votedAt)
  {
    if vs == [] then [] else [Voter(vs[0].studentName, vs[0].votedAt)] + Voters(vs[1..])
  }

  /** `getPollResults`: null for an unknown poll; otherwise the poll, one
      tally per option, the number of votes on the poll and one voter per
      vote. */
  function GetPollResults(polls: seq<Poll>, votes: seq<Vote>, pollId: PollId): (r: Option<PollResults>)
    ensures r.None? <==> FindPoll(polls, pollId).None?
    ensures r.Some? ==>
      && r.value.poll == polls[FindPoll(polls, pollId).value]
      && r.value.poll.id == pollId
      && r.value.totalVotes == VoteCount(votes, pollId)
      && |r.value.voters| == r.value.totalVotes
      && r.value.voters == Voters(VotesOn(votes, pollId))
      && r.value.results == Tally(r.value.poll.options, VotesOn(votes, pollId))
  {
    match FindPoll(polls, pollId)
    case None => None
    case Some(i) =>
      var onPoll := VotesOn(votes, pollId);
      Some(PollResults(polls[i], Tally(polls[i].options, onPoll), |onPoll|, Voters(onPoll)))
  }

  // --------------------------------------------------------- tally sums

  function SumCounts(rows: seq<OptionTally>): nat {
    if rows == [] then 0 else rows[0].count + SumCounts(rows[1..])
  }

  function SumPercentages(rows: seq<OptionTally>): nat {
    if rows == [] then 0 else rows[0].percentage + SumPercentages(rows[1..])
  }

  /** How many options carry the id `optionId`. */
  function OptionsWithId(options: seq<PollOption>, optionId: string): nat {
    if options == [] then 0
    else (if options[0].id == optionId then 1 else 0) + OptionsWithId(options[1..], optionId)
  }

  lemma {:induction false} OptionsWithIdBounds(options: seq<PollOption>, optionId: string)
    requires DistinctOptionIds(options)
    ensures OptionsWithId(options, optionId) <= 1
    ensures (exists o :: o in options && o.id == optionId) ==> OptionsWithId(options, optionId) == 1
  {
    if options != [] {
      var rest := options[1..];
      assert DistinctOptionIds(rest) by {
        forall i, j | 0 <= i < j < |rest| ensures rest[i].id != rest[j].id {
          assert rest[i] == options[i + 1] && rest[j] == options[j + 1];
        }
      }
      OptionsWithIdBounds(rest, optionId);
      if options[0].id == optionId {
        forall o | o in rest ensures o.id != optionId {
          var k :| 0 <= k < |rest| && rest[k] == o;
          assert options[k + 1] == o;
        }
        OptionsWithIdNone(rest, optionId);
      } else if exists o :: o in options && o.id == optionId {
        var o :| o in options && o.id == optionId;
        assert o in rest by { assert options == [options[0]] + rest; }
      }
    }
  }

  lemma {:induction false} OptionsWithIdNone(options: seq<PollOption>, optionId: string)
    requires forall o :: o in options ==> o.id != optionId
    ensures OptionsWithId(options, optionId) == 0
  {
    if options != [] {
      OptionsWithIdNone(options[1..], optionId);
    }
  }

  predicate DistinctOptionIds(options: seq<PollOption>) {
    forall i, j :: 0 <= i < j < |options| ==> options[i].id != options[j].id
  }

  function SumChoosing(options: seq<PollOption>, vs: seq<Vote>): nat {
    if options == [] then 0 else CountChoosing(vs, options[0].id) + SumChoosing(options[1..], vs)
  }

  lemma {:induction false} SumCountsOfTally(options: seq<PollOption>, vs: seq<Vote>)
    ensures SumCounts(Tally(options, vs)) == SumChoosing(options, vs)
  {
    if options != [] {
      SumCountsOfTally(options[1..], vs);
      assert Tally(options, vs)[1..] == Tally(options[1..], vs);
    }
  }

  /** Peeling one vote off: it is counted once for every option bearing its id. */
  lemma {:induction false} SumChoosingCons(options: seq<PollOption>, v: Vote, rest: seq<Vote>)
    ensures SumChoosing(options, [v] + rest) == OptionsWithId(options, v.optionId) + SumChoosing(options, rest)
  {
    assert ([v] + rest)[0] == v && ([v] + rest)[1..] == rest;
    if options != [] {
      SumChoosingCons(options[1..], v, rest);
    }
  }

  /** With distinct option ids the per-option counts add up to at most the
      number of votes, and to exactly that number when every vote names one
      of the options. */
  lemma {:induction false} TallyCountsBound(options: seq<PollOption>, vs: seq<Vote>)
    requires DistinctOptionIds(options)
    ensures SumCounts(Tally(options, vs)) <= |vs|
    ensures (forall v :: v in vs ==> exists o :: o in options && o.id == v.optionId) ==>
      SumCounts(Tally(options, vs)) == |vs|
  {
    SumCountsOfTally(options, vs);
    SumChoosingExact(options, vs);
  }

  lemma {:induction false} SumChoosingExact(options: seq<PollOption>, vs: seq<Vote>)
    requires DistinctOptionIds(options)
    ensures SumChoosing(options, vs) <= |vs|
    ensures (forall v :: v in vs ==> exists o :: o in options && o.id == v.optionId) ==>
      SumChoosing(options, vs) == |vs|
  {
    if vs != [] {
      var v, rest := vs[0], vs[1..];
      assert vs == [v] + rest;
      SumChoosingCons(options, v, rest);
      SumChoosingExact(options, rest);
      OptionsWithIdBounds(options, v.optionId);
    } else {
      SumChoosingNoVotes(options);
    }
  }

  lemma {:induction false} SumChoosingNoVotes(options: seq<PollOption>)
    ensures SumChoosing(options, []) == 0
  {
    if options != [] {
      SumChoosingNoVotes(options[1..]);
    }
  }

  /** Each percentage is within half a point of the exact share, so when the
      counts add up to the number of votes the percentages add up to 100
      give or take half a point per option. */
  lemma {:induction false} PercentagesNear100(options: seq<PollOption>, vs: seq<Vote>)
    requires |vs| > 0
    requires SumCounts(Tally(options, vs)) == |vs|
    ensures 200 - |options| <= 2 * SumPercentages(Tally(options, vs)) <= 200 + |options|
  {
    var rows := Tally(options, vs);
    RowsWithinHalf(rows, |vs|);
    Cancel(|vs|, SumPercentages(rows), |rows|);
  }

  lemma {:induction false} Cancel(t: int, s: int, k: int)
    requires t > 0
    requires 2 * t * s <= 200 * t + k * t
    requires 2 * t * s >= 200 * t - k * t
    ensures 200 - k <= 2 * s <= 200 + k
  {
    var a := 2 * s;
    assert 2 * t * s == t * a;
    assert 200 * t + k * t == t * (200 + k);
    assert 200 * t - k * t == t * (200 - k);
    CancelFactor(t, a, 200 + k);
    CancelFactor(t, 200 - k, a);
  }

  /** A positive factor can be cancelled from both sides of `<`. */
  lemma {:induction false} CancelStrict(t: int, x: int, y: int)
    requires t > 0 && t * x < t * y
    ensures x < y
  {
  }

  /** A positive factor can be cancelled from both sides of `<=`. */
  lemma {:induction false} CancelFactor(t: int, x: int, y: int)
    requires t > 0 && t * x <= t * y
    ensures x <= y
  {
  }

  lemma {:induction false} RowsWithinHalf(rows: seq<OptionTally>, t: nat)
    requires t > 0
    requires forall i :: 0 <= i < |rows| ==> rows[i].percentage == RoundedPercent(rows[i].count, t)
    ensures 2 * t * SumPercentages(rows) <= 200 * SumCounts(rows) + |rows| * t
    ensures 2 * t * SumPercentages(rows) >= 200 * SumCounts(rows) - |rows| * t
  {
    if rows != [] {
      var tail := rows[1..];
      RowsWithinHalf(tail, t);
      var p, c := rows[0].percentage, rows[0].count;
      var s, cs, n := SumPercentages(tail), SumCounts(tail), |tail|;
      assert 2 * t * p <= 200 * c + t < 2 * t * (p + 1);
      AddRow(t, p, c, s, cs, n);
    }
  }

  lemma {:induction false} AddRow(t: int, p: int, c: int, s: int, cs: int, n: int)
    requires 2 * t * p <= 200 * c + t < 2 * t * (p + 1)
    requires 2 * t * s <= 200 * cs + n * t
    requires 2 * t * s >= 200 * cs - n * t
    ensures 2 * t * (p + s) <= 200 * (c + cs) + (n + 1) * t
    ensures 2 * t * (p + s) >= 200 * (c + cs) - (n + 1) * t
  {
    assert 2 * t * (p + s) == 2 * t * p + 2 * t * s;
    assert (n + 1) * t == n * t + t;
    assert 2 * t * (p + 1) == 2 * t * p + 2 * t;
  }

  // ------------------------------------------------------------ history

  const HistoryLimit := 50

  /** The history filter `{isActive: false, endedAt: {$exists: true}}`. */
  predicate IsEnded(p: Poll) {
    !p.isActive && p.endedAt.Some?
  }

  function EndedPolls(polls: seq<Poll>): seq<Poll> {
    Filter(polls, IsEnded)
  }

  /** `find(filter).sort({createdAt: -1}).limit(50)`: the ended polls, newest
      first, at most 50 of them, none older than a poll left out. */
  function HistoryPolls(polls: seq<Poll>): (r: seq<Poll>)
    ensures |r| == Min(HistoryLimit, |EndedPolls(polls)|)
    ensures multiset(r) <= multiset(polls)
    ensures forall p :: p in r ==> p in polls && IsEnded(p)
    ensures forall i, j :: 0 <= i < j < |r| ==> r[i].createdAt >= r[j].createdAt
    ensures forall p, q :: p in polls && IsEnded(p) && p !in r && q in r ==> p.createdAt <= q.createdAt
  {
    var ended := EndedPolls(polls);
    FilterCounts(polls, IsEnded);
    assert multiset(ended) <= multiset(polls);
    var key := (p: Poll) => p.createdAt;
    var r := TopK(ended, key, HistoryLimit);
    forall i, j | 0 <= i < j < |r| ensures r[i].createdAt >= r[j].createdAt {
      assert key(r[i]) >= key(r[j]);
    }
    forall p, q | p in polls && IsEnded(p) && p !in r && q in r ensures p.createdAt <= q.createdAt {
      assert p in ended;
      assert key(p) <= key(q);
    }
    r
  }

  /** `polls.map(getPollResults)` followed by `filter(item => item !== null)`.
      When every poll has results, nothing is dropped and the entries are
      those results in order. */
  function ResultsOf(ps: seq<Poll>, polls: seq<Poll>, votes: seq<Vote>): (r: seq<PollResults>)
    ensures |r| <= |ps|
    ensures (forall i :: 0 <= i < |ps| ==> GetPollResults(polls, votes, ps[i].id).Some?) ==>
      |r| == |ps| && forall i :: 0 <= i < |ps| ==> GetPollResults(polls, votes, ps[i].id) == Some(r[i])
  {
    var f := (p: Poll) => GetPollResults(polls, votes, p.id);
    assert (forall i :: 0 <= i < |ps| ==> f(ps[i]).Some?) ==>
      |FilterMap(ps, f)| == |ps| && forall i :: 0 <= i < |ps| ==> FilterMap(ps, f)[i] == f(ps[i]).value
    by {
      if forall i :: 0 <= i < |ps| ==> f(ps[i]).Some? {
        FilterMapAllSome(ps, f);
      }
    }
    FilterMap(ps, f)
  }

  lemma {:induction false} ResultsOfStoredPoll(polls: seq<Poll>, votes: seq<Vote>, p: Poll)
    requires IdsAreIndexes(polls) && p in polls
    ensures GetPollResults(polls, votes, p.id).Some?
    ensures GetPollResults(polls, votes, p.id).value.poll == p
  {
    var k :| 0 <= k < |polls| && polls[k] == p;
    FindPollAt(polls, p.id);
  }

  /** `getPollHistory`: one result per history poll, in history order. No
      entry is dropped, because every history poll is in the store. */
  function PollHistory(polls: seq<Poll>, votes: seq<Vote>): (r: seq<PollResults>)
    ensures |r| == |HistoryPolls(polls)|
    ensures forall i :: 0 <= i < |r| ==> GetPollResults(polls, votes, HistoryPolls(polls)[i].id) == Some(r[i])
    ensures forall i :: 0 <= i < |r| ==>
      r[i].poll.id == HistoryPolls(polls)[i].id && r[i].totalVotes == VoteCount(votes, r[i].poll.id)
    ensures IdsAreIndexes(polls) ==> forall i :: 0 <= i < |r| ==> r[i].poll == HistoryPolls(polls)[i]
  {
    var hs := HistoryPolls(polls);
    HistoryResults(hs, polls, votes);
    ResultsOf(hs, polls, votes)
  }

  lemma {:induction false} HistoryResults(hs: seq<Poll>, polls: seq<Poll>, votes: seq<Vote>)
    requires forall p :: p in hs ==> p in polls
    ensures |ResultsOf(hs, polls, votes)| == |hs|
    ensures forall i :: 0 <= i < |hs| ==> GetPollResults(polls, votes, hs[i].id) == Some(ResultsOf(hs, polls, votes)[i])
    ensures forall i :: 0 <= i < |hs| ==>
      ResultsOf(hs, polls, votes)[i].poll.id == hs[i].id &&
      ResultsOf(hs, polls, votes)[i].totalVotes == VoteCount(votes, hs[i].id)
    ensures IdsAreIndexes(polls) ==> forall i :: 0 <= i < |hs| ==> ResultsOf(hs, polls, votes)[i].poll == hs[i]
  {
    var f := (p: Poll) => GetPollResults(polls, votes, p.id);
    forall i | 0 <= i < |hs| ensures f(hs[i]).Some? {
      assert hs[i] in polls;
    }
    FilterMapAllSome(hs, f);
    if IdsAreIndexes(polls) {
      forall i | 0 <= i < |hs| ensures ResultsOf(hs, polls, votes)[i].poll == hs[i] {
        assert hs[i] in polls;
        ResultsOfStoredPoll(polls, votes, hs[i]);
      }
    }
  }

  // ---------------------------------------------------------- admission

  const NotAllAnswered := "Not all students have answered the current question"

  datatype Admission = Admission(canCreate: bool, reason: Option<string>)

  /** `canCreateNewPoll`: a new poll may start when no poll is active, or when
      the active poll already has at least as many votes as there are
      connected students. It does not ask for the active poll to be over. */
  function CanCreateNewPoll(polls: seq<Poll>, votes: seq<Vote>, connectedStudents: int): (r: Admission)
    ensures r.canCreate <==>
      GetActivePoll(polls).None? || VoteCount(votes, GetActivePoll(polls).value.id) >= connectedStudents
    ensures r.canCreate ==> r.reason.None?
    ensures !r.canCreate ==> r.reason == Some(NotAllAnswered) && GetActivePoll(polls).Some?
  {
    match GetActivePoll(polls)
    case None => Admission(true, None)
    case Some(active) =>
      if VoteCount(votes, active.id) >= connectedStudents then Admission(true, None)
      else Admission(false, Some(NotAllAnswered))
  }

  /** What the code does rather than "one active poll at a time": when the
      active poll has enough votes the admission rule lets a new poll in, and
      starting it leaves the old poll active, so two polls are then active. */
  lemma {:induction false} AdmissionLeavesTwoActive(polls: seq<Poll>, votes: seq<Vote>, students: int,
                                 question: string, options: seq<OptionInput>, duration: Option<int>, now: int)
    requires IdsAreIndexes(polls)
    requires GetActivePoll(polls).Some?
    requires VoteCount(votes, GetActivePoll(polls).value.id) >= students
    ensures CanCreateNewPoll(polls, votes, students).canCreate
    ensures
      var created := polls + [Draft(polls, question, options, duration, now)];
      var after := UpdateById(created, |polls|, (p: Poll) => Started(p, now));
      after[FirstActive(polls).value].isActive && after[|polls|].isActive
  {
    var a := FirstActive(polls).value;
    var d := Draft(polls, question, options, duration, now);
    FindAppended(polls, d);
    UpdateAppended(polls, d, (p: Poll) => Started(p, now));
    assert polls[a].isActive;
  }

  /** A poll appended with the next position as its id is found at the end. */
  lemma {:induction false} FindAppended(polls: seq<Poll>, d: Poll)
    requires IdsAreIndexes(polls) && d.id == |polls|
    ensures FindPoll(polls + [d], |polls|) == Some(|polls|)
  {
    var created := polls + [d];
    assert IdsAreIndexes(created) by {
      forall i | 0 <= i < |created| ensures created[i].id == i {
        if i < |polls| { assert created[i] == polls[i]; }
      }
    }
    FindPollAt(created, |polls|);
  }

  /** Updating a just-appended poll changes that poll alone. */
  lemma {:induction false} UpdateAppended(polls: seq<Poll>, d: Poll, f: Poll -> Poll)
    requires FindPoll(polls + [d], |polls|) == Some(|polls|)
    ensures UpdateById(polls + [d], |polls|, f) == polls + [f(d)]
  {
    var c := polls + [d];
    var u := c[|polls| := f(d)];
    assert c[|polls|] == d;
    assert UpdateById(c, |polls|, f) == u;
    assert u == polls + [f(d)] by {
      forall i | 0 <= i < |u| ensures u[i] == (polls + [f(d)])[i] {
        if i < |polls| { assert u[i] == c[i] == polls[i]; }
      }
    }
  }

  // -------------------------------------------------------------- store

  /** The Poll collection. */
  class PollStore {
    var polls: seq<Poll>

    ghost predicate Valid()
      reads this
    {
      StoreInvariant(polls)
    }

    constructor ()
      ensures Valid() && polls == []
    {
      polls := [];
    }

    /** `createPoll`: saves the draft when it meets the schema. */
    method CreatePoll(question: string, options: seq<OptionInput>, duration: Option<int>, now: int)
      returns (r: Result<Poll, DbError>)
      requires Valid()
      modifies this
      ensures Valid()
      ensures r.Success? <==> ValidPoll(Draft(old(polls), question, options, duration, now))
      ensures r.Success? ==>
        r.value == Draft(old(polls), question, options, duration, now) && polls == old(polls) + [r.value]
      ensures r.Failure? ==> polls == old(polls)
    {
      var p := Draft(polls, question, options, duration, now);
      if !ValidPoll(p) {
        return Failure(ValidationError);
      }
      polls := polls + [p];
      r := Success(p);
    }

    /** `startPoll`: null for an unknown id; otherwise that poll alone becomes
        active with `startedAt = now`. */
    method StartPoll(id: PollId, now: int) returns (r: Option<Poll>)
      requires Valid()
      modifies this
      ensures Valid()
      ensures polls == UpdateById(old(polls), id, (p: Poll) => Started(p, now))
      ensures r.None? <==> FindPoll(old(polls), id).None?
      ensures r.Some? ==> r.value == polls[FindPoll(old(polls), id).value] && r.value.id == id
    {
      UpdateKeepsInvariant(polls, id, now, true);
      var i := FindPoll(polls, id);
      polls := UpdateById(polls, id, (p: Poll) => Started(p, now));
      r := if i.Some? then Some(polls[i.value]) else None;
    }

    /** `endPoll`: null for an unknown id; otherwise that poll alone becomes
        inactive with `endedAt = now`. */
    method EndPoll(id: PollId, now: int) returns (r: Option<Poll>)
      requires Valid()
      modifies this
      ensures Valid()
      ensures polls == UpdateById(old(polls), id, (p: Poll) => Ended(p, now))
      ensures r.None? <==> FindPoll(old(polls), id).None?
      ensures r.Some? ==> r.value == polls[FindPoll(old(polls), id).value] && r.value.id == id
    {
      UpdateKeepsInvariant(polls, id, now, false);
      var i := FindPoll(polls, id);
      polls := UpdateById(polls, id, (p: Poll) => Ended(p, now));
      r := if i.Some? then Some(polls[i.value]) else None;
    }
  }
}
