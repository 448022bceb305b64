/** The merge in the `PollResults` component: the rows it shows are the
    poll's options in order, each with the count and percentage of the first
    server row for that option, or zeros when there is none. */
module PollResultsView {
  import opened Wrappers
  import opened Models
  import opened PollService

  /** `results.find(r => r.optionId === optionId)`. */
  function FindResult(results: seq<OptionTally>, optionId: string): (r: Option<OptionTally>)
    ensures r.None? <==> forall t :: t in results ==> t.optionId != optionId
    ensures r.Some? ==> exists i :: FirstResult(results, i, optionId) && results[i] == r.value
  {
    if results == [] then None
    else if results[0].optionId == optionId then
      assert FirstResult(results, 0, optionId);
      Some(results[0])
    else
      var r := FindResult(results[1..], optionId);
      assert r.Some? ==> exists i :: FirstResult(results, i, optionId) && results[i] == r.value by {
        if r.Some? {
          var i :| FirstResult(results[1..], i, optionId) && results[1..][i] == r.value;
          assert FirstResult(results, i + 1, optionId);
        }
      }
      r
  }

  /** Row `i` is the first one for `optionId`. */
  ghost predicate FirstResult(results: seq<OptionTally>, i: int, optionId: string) {
    0 <= i < |results| && results[i].optionId == optionId &&
    forall k :: 0 <= k < i ==> results[k].optionId != optionId
  }

  /** The row shown for one option. */
  function RowFor(o: PollOption, results: seq<OptionTally>): (t: OptionTally)
    ensures t.optionId == o.id && t.optionText == o.text
    ensures FindResult(results, o.id).None? ==> t.count == 0 && t.percentage == 0
    ensures FindResult(results, o.id).Some? ==>
      t.count == FindResult(results, o.id).value.count && t.percentage == FindResult(results, o.id).value.percentage
  {
    match FindResult(results, o.id)
    case None => OptionTally(o.id, o.text, 0, 0)
    case Some(r) => OptionTally(o.id, o.text, r.count, r.percentage)
  }

  /** `allResults`: one row per option, in option order. */
  function MergeResults(options: seq<PollOption>, results: seq<OptionTally>): (r: seq<OptionTally>)
    ensures |r| == |options|
    ensures forall i :: 0 <= i < |options| ==> r[i] == RowFor(options[i], results)
  {
    seq(|options|, i requires 0 <= i < |options| => RowFor(options[i], results))
  }

  /** `allResults.reduce((sum, r) => sum + r.count, 0)`. */
  function TotalVotes(options: seq<PollOption>, results: seq<OptionTally>): (t: nat)
    ensures results == [] ==> t == 0
  {
    var rows := MergeResults(options, results);
    assert results == [] ==> SumCounts(rows) == 0 by {
      if results == [] {
        ZeroRowsSum(rows);
      }
    }
    SumCounts(rows)
  }

  /** A server row whose option id names none of the poll's options is never
      shown: taking it out, wherever it stands, changes nothing. */
  lemma {:induction false} StrayRowDropped(options: seq<PollOption>, before: seq<OptionTally>,
                                           stray: OptionTally, after: seq<OptionTally>)
    requires forall o :: o in options ==> o.id != stray.optionId
    ensures MergeResults(options, before + [stray] + after) == MergeResults(options, before + after)
  {
    forall i | 0 <= i < |options|
      ensures RowFor(options[i], before + [stray] + after) == RowFor(options[i], before + after)
    {
      assert options[i] in options;
      FindSkipsStray(before, stray, after, options[i].id);
    }
  }

  /** `find` for another id passes over the stray row. */
  lemma {:induction false} FindSkipsStray(before: seq<OptionTally>, stray: OptionTally,
                                          after: seq<OptionTally>, optionId: string)
    requires stray.optionId != optionId
    ensures FindResult(before + [stray] + after, optionId) == FindResult(before + after, optionId)
  {
    if before == [] {
      assert before + [stray] + after == [stray] + after;
      assert ([stray] + after)[1..] == after;
      assert before + after == after;
    } else {
      assert (before + [stray] + after)[0] == before[0];
      assert (before + [stray] + after)[1..] == before[1..] + [stray] + after;
      assert (before + after)[0] == before[0];
      assert (before + after)[1..] == before[1..] + after;
      FindSkipsStray(before[1..], stray, after, optionId);
    }
  }

  /** Merging the server's own tally for the same options, when their ids are
      distinct, shows exactly the server's rows; so the displayed total is
      the tally's sum, which is at most the number of votes. */
  lemma {:induction false} MergeOwnTally(options: seq<PollOption>, vs: seq<Vote>)
    requires DistinctOptionIds(options)
    ensures MergeResults(options, Tally(options, vs)) == Tally(options, vs)
    ensures TotalVotes(options, Tally(options, vs)) <= |vs|
  {
    var tally := Tally(options, vs);
    forall i | 0 <= i < |options| ensures MergeResults(options, tally)[i] == tally[i] {
      assert FirstResult(tally, i, options[i].id);
      RowForFirst(options[i], tally, i);
    }
    TallyCountsBound(options, vs);
  }

  /** The row shown for an option is the first server row for its id. */
  lemma {:induction false} RowForFirst(o: PollOption, results: seq<OptionTally>, i: int)
    requires FirstResult(results, i, o.id) && results[i].optionText == o.text
    ensures RowFor(o, results) == results[i]
  {
    FirstIsUnique(results, o.id);
  }

  lemma {:induction false} FirstIsUnique(results: seq<OptionTally>, optionId: string)
    ensures forall i, j :: FirstResult(results, i, optionId) && FirstResult(results, j, optionId) ==> i == j
  {
  }

  /** With no server rows every option shows zero votes. */
  lemma {:induction false} MergeNoResults(options: seq<PollOption>)
    ensures forall i :: 0 <= i < |options| ==>
      MergeResults(options, [])[i] == OptionTally(options[i].id, options[i].text, 0, 0)
    ensures TotalVotes(options, []) == 0
  {
    ZeroRowsSum(MergeResults(options, []));
  }

  lemma {:induction false} ZeroRowsSum(rows: seq<OptionTally>)
    requires forall t :: t in rows ==> t.count == 0
    ensures SumCounts(rows) == 0
  {
    if rows != [] {
      assert rows[0] in rows;
      ZeroRowsSum(rows[1..]);
    }
  }
}
