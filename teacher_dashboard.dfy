/** The poll form of the teacher dashboard: the option list it edits, the
    validation and option building of `handleCreatePoll`, and the zero
    results it shows when a poll is created. */
module TeacherDashboard {
  import opened Wrappers
  import opened Seqs
  import opened Text
  import opened Models
  import opened PollService

  /** An option row of the form. */
  datatype DraftOption = DraftOption(text: string, isCorrect: bool)

  const BlankOption := DraftOption("", false)
  const MinOptions := 2
  const MaxOptions := 6
  const FormDuration := 60
  const OptionIdPrefix := "option_"
  const BlankQuestionMessage := "Please enter a question"
  const TooFewOptionsMessage := "Please provide at least 2 options"

  datatype FormError = BlankQuestion | TooFewOptions {
    /** The alert shown for the error. */
    function Message(): string {
      match this
      case BlankQuestion => BlankQuestionMessage
      case TooFewOptions => TooFewOptionsMessage
    }
  }

  /** The payload of `teacher:create-poll`. */
  datatype CreateRequest = CreateRequest(question: string, options: seq<OptionInput>, duration: int)

  /** `options.filter(opt => opt.text.trim())`: the rows with some
      non-blank text, in their order and each as often as it occurs. */
  function FilledOptions(options: seq<DraftOption>): (r: seq<DraftOption>)
    ensures forall o :: o in r <==> o in options && !IsBlank(o.text)
    ensures forall o :: multiset(r)[o] == if IsBlank(o.text) then 0 else multiset(options)[o]
    ensures IsSubseq(r, options)
  {
    var filled := (o: DraftOption) => !IsBlank(o.text);
    FilterCounts(options, filled);
    FilterIsSubseq(options, filled);
    Filter(options, filled)
  }

  /** `option_${idx}`. */
  function OptionId(idx: nat): (id: string)
    ensures |id| > |OptionIdPrefix| && id[..|OptionIdPrefix|] == OptionIdPrefix
    ensures AllDigits(id[|OptionIdPrefix|..]) && ParseDigits(id[|OptionIdPrefix|..]) == idx
  {
    ParseNatToString(idx);
    assert (OptionIdPrefix + NatToString(idx))[|OptionIdPrefix|..] == NatToString(idx);
    OptionIdPrefix + NatToString(idx)
  }

  /** Different positions get different ids. */
  lemma {:induction false} OptionIdInjective(i: nat, j: nat)
    requires i != j
    ensures OptionId(i) != OptionId(j)
  {
    NatToStringInjective(i, j);
    assert OptionId(i)[|OptionIdPrefix|..] == NatToString(i);
    assert OptionId(j)[|OptionIdPrefix|..] == NatToString(j);
  }

  /** `validOptions.map((opt, idx) => ({id: option_idx, text: opt.text.trim(), isCorrect}))`. */
  function BuildOptions(filled: seq<DraftOption>): (r: seq<OptionInput>)
    ensures |r| == |filled|
    ensures forall i :: 0 <= i < |filled| ==>
      r[i] == OptionInput(OptionId(i), Trim(filled[i].text), Some(filled[i].isCorrect))
  {
    seq(|filled|, i requires 0 <= i < |filled| => OptionInput(OptionId(i), Trim(filled[i].text), Some(filled[i].isCorrect)))
  }

  /** `handleCreatePoll`: a blank question is refused first, then a form with
      fewer than two filled options; otherwise the request carries the
      trimmed question, the filled options in order with trimmed text,
      their flag and positional ids, and the form's duration. */
  function HandleCreatePoll(question: string, options: seq<DraftOption>, duration: int): (r: Result<CreateRequest, FormError>)
    ensures IsBlank(question) ==> r == Failure(BlankQuestion)
    ensures !IsBlank(question) && |FilledOptions(options)| < MinOptions ==> r == Failure(TooFewOptions)
    ensures r.Success? <==> !IsBlank(question) && |FilledOptions(options)| >= MinOptions
    ensures r.Success? ==>
      && r.value.question == Trim(question)
      && r.value.duration == duration
      && r.value.options == BuildOptions(FilledOptions(options))
  {
    var filled := FilledOptions(options);
    if IsBlank(question) then Failure(BlankQuestion)
    else if |filled| < MinOptions then Failure(TooFewOptions)
    else Success(CreateRequest(Trim(question), BuildOptions(filled), duration))
  }

  /** Options built from filled rows have non-blank, trimmed texts,
      non-empty ids and pairwise distinct ids. */
  lemma {:induction false} BuiltOptionsWellFormed(filled: seq<DraftOption>)
    requires forall o :: o in filled ==> !IsBlank(o.text)
    ensures forall o :: o in BuildOptions(filled) ==> o.text != [] && Trim(o.text) == o.text && o.id != []
    ensures forall i, j :: 0 <= i < j < |filled| ==> BuildOptions(filled)[i].id != BuildOptions(filled)[j].id
  {
    var built := BuildOptions(filled);
    forall o | o in built ensures o.text != [] && Trim(o.text) == o.text && o.id != [] {
      var i :| 0 <= i < |built| && built[i] == o;
      assert filled[i] in filled;
      TrimIdempotent(filled[i].text);
    }
    forall i, j | 0 <= i < j < |filled| ensures built[i].id != built[j].id {
      OptionIdInjective(i, j);
    }
  }

  /** What the form sends is well formed: at least two options, every text
      non-blank and already trimmed, ids pairwise distinct, a non-blank
      trimmed question. */
  lemma {:induction false} RequestWellFormed(question: string, options: seq<DraftOption>, duration: int)
    requires HandleCreatePoll(question, options, duration).Success?
    ensures var req := HandleCreatePoll(question, options, duration).value;
      && |req.options| >= MinOptions
      && req.question != [] && Trim(req.question) == req.question
      && (forall o :: o in req.options ==> o.text != [] && Trim(o.text) == o.text && o.id != [])
      && (forall i, j :: 0 <= i < j < |req.options| ==> req.options[i].id != req.options[j].id)
  {
    TrimIdempotent(question);
    BuiltOptionsWellFormed(FilledOptions(options));
  }

  /** A request the form sends is stored by the server: its draft passes the
      schema, and its options have distinct ids (so the per-option counts of
      its results add up to at most the number of votes). */
  lemma {:induction false} RequestAccepted(question: string, options: seq<DraftOption>, duration: int, polls: seq<Poll>, now: int)
    requires HandleCreatePoll(question, options, duration).Success?
    ensures var req := HandleCreatePoll(question, options, duration).value;
      var draft := Draft(polls, req.question, req.options, Some(req.duration), now);
      ValidPoll(draft) && DistinctOptionIds(draft.options)
  {
    var req := HandleCreatePoll(question, options, duration).value;
    RequestWellFormed(question, options, duration);
    DraftValid(polls, req.question, req.options, Some(req.duration), now);
    var draft := Draft(polls, req.question, req.options, Some(req.duration), now);
    forall i, j | 0 <= i < j < |draft.options| ensures draft.options[i].id != draft.options[j].id {
      assert draft.options[i].id == req.options[i].id && draft.options[j].id == req.options[j].id;
    }
  }

  /** The results shown when `poll:created` arrives: every option with zero
      votes and zero percent, in option order. */
  function InitialResults(options: seq<PollOption>): (r: seq<OptionTally>)
    ensures |r| == |options|
    ensures forall i :: 0 <= i < |options| ==>
      r[i].optionId == options[i].id && r[i].optionText == options[i].text && r[i].count == 0 && r[i].percentage == 0
  {
    seq(|options|, i requires 0 <= i < |options| => OptionTally(options[i].id, options[i].text, 0, 0))
  }

  /** The initial results are what the server reports for a poll without
      votes. */
  lemma {:induction false} InitialResultsMatchServer(options: seq<PollOption>)
    ensures InitialResults(options) == Tally(options, [])
  {
    forall i | 0 <= i < |options| ensures Tally(options, [])[i].percentage == 0 {
    }
  }

  /** The form's option rows. */
  class PollForm {
    var options: seq<DraftOption>

    ghost predicate Valid()
      reads this
    {
      MinOptions <= |options| <= MaxOptions
    }

    /** Two blank rows. */
    constructor ()
      ensures Valid() && options == [BlankOption, BlankOption]
    {
      options := [BlankOption, BlankOption];
    }

    /** `handleAddOption`: one more blank row, while there are fewer than
        six. */
    method AddOption()
      requires Valid()
      modifies this
      ensures Valid()
      ensures old(|options|) < MaxOptions ==> options == old(options) + [BlankOption]
      ensures old(|options|) >= MaxOptions ==> options == old(options)
    {
      if |options| < MaxOptions {
        options := options + [BlankOption];
      }
    }

    /** `handleCorrectAnswerChange`: sets the flag of one row, nothing else. */
    method SetCorrect(index: nat, isCorrect: bool)
      requires Valid() && index < |options|
      modifies this
      ensures Valid()
      ensures options == old(options)[index := old(options)[index].(isCorrect := isCorrect)]
    {
      options := options[index := options[index].(isCorrect := isCorrect)];
    }
  }
}
