/** What a whole submission of answers does to each dimension, to the ambiguity meter and to the status. */
module AnswerVerdicts {
  import opened Prelude
  import Sequences
  import opened Text
  import opened Clarification

  // ----- what an answer says -----

  predicate IsNote(a: Answer) {
    "$note:" <= a.0
  }

  predicate IsAction(a: Answer) {
    a.0 == "$action"
  }

  predicate SaysNothing(answer: string) {
    answer == "" || EqualFold(answer, "not sure")
  }

  predicate Delegates(answer: string) {
    EqualFold(answer, "use your best judgment") || EqualFold(answer, "best judgment")
  }

  /** The dimension that an id names: that of the pending question with the id, or what precedes its first hyphen. */
  function NamedDimension(pending: Option<Batch>, id: string): string {
    var question := if pending.Some? then FindQuestion(pending.value.questions, id) else None;
    if question.Some? then question.value.dimension else FirstPart(id)
  }

  /** The answer goes to the i-th dimension, the first one with the name, and says something. */
  predicate Settles(dimensions: seq<Dimension>, pending: Option<Batch>, i: nat, a: Answer) {
    && !IsNote(a) && !IsAction(a) && !SaysNothing(Trim(a.1))
    && i < |dimensions| && DimensionIndex(dimensions, NamedDimension(pending, a.0)) == i
  }

  /** The last answer that settles the i-th dimension. */
  function LastSettling(dimensions: seq<Dimension>, pending: Option<Batch>, i: nat, answers: seq<Answer>): Option<Answer> {
    if answers == [] then None
    else
      LastSettling(dimensions, pending, i, answers[1..])
      .Or(if Settles(dimensions, pending, i, answers[0]) then Some(answers[0]) else None)
  }

  predicate IsJudgment(a: Answer) {
    IsAction(a) && Trim(a.1) == "use_best_judgment"
  }

  predicate AsksForJudgment(answers: seq<Answer>) {
    exists k :: 0 <= k < |answers| && IsJudgment(answers[k])
  }

  /** The words of the option that was chosen, or the first 2000 characters of the answer. */
  function ChosenDetail(question: Option<Question>, answer: string): string {
    var choice := if question.Some? then FindOption(question.value.options, answer) else None;
    if choice.Some? then choice.value.caption + ": " + choice.value.description else answer[..Min(|answer|, 2000)]
  }

  const LEFT_TO_MINHA := "Delegated to Minha; use the safest repository-supported assumption."

  /** The dimension as an answer settles it. */
  function Settled(d: Dimension, pending: Option<Batch>, a: Answer): Dimension {
    if Delegates(Trim(a.1)) then Dimension(d.id, d.weight, Delegated, LEFT_TO_MINHA)
    else
      var question := if pending.Some? then FindQuestion(pending.value.questions, a.0) else None;
      Dimension(d.id, d.weight, Confirmed, ChosenDetail(question, Trim(a.1)))
  }

  /** What becomes of a dimension: the last answer to it decides; without one, asking for best judgment
      delegates it if it was unresolved. */
  function Verdict(d: Dimension, pending: Option<Batch>, last: Option<Answer>, judged: bool): Dimension {
    if last.Some? then Settled(d, pending, last.value)
    else if judged && (d.status == Unknown || d.status == Partial) then
      Dimension(d.id, d.weight, Delegated, if d.detail == "" then "Delegated to Minha." else d.detail)
    else d
  }

  /** What a note on the i-th dimension adds to its detail. */
  function NoteOn(dimensions: seq<Dimension>, i: nat, a: Answer): string {
    var note := Trim(a.1);
    if IsNote(a) && note != "" && i < |dimensions| && DimensionIndex(dimensions, FirstPart(a.0[6..])) == i
    then " Note: " + note[..Min(|note|, 2000)] else ""
  }

  function NotesOn(dimensions: seq<Dimension>, i: nat, answers: seq<Answer>): string {
    if answers == [] then "" else NoteOn(dimensions, i, answers[0]) + NotesOn(dimensions, i, answers[1..])
  }

  /** The dimensions that the answers lead to, each judged by itself, without the notes. */
  function Verdicts(dimensions: seq<Dimension>, pending: Option<Batch>, answers: seq<Answer>): seq<Dimension> {
    seq(|dimensions|, i requires 0 <= i < |dimensions| =>
      Verdict(dimensions[i], pending, LastSettling(dimensions, pending, i, answers), AsksForJudgment(answers)))
  }

  // ----- one answer -----

  /** The same dimensions, but for their status and detail. */
  ghost predicate Alike(dimensions: seq<Dimension>, before: seq<Dimension>) {
    && |dimensions| == |before|
    && forall i | 0 <= i < |before| :: dimensions[i].id == before[i].id && dimensions[i].weight == before[i].weight
  }

  lemma SameDimension(dimensions: seq<Dimension>, before: seq<Dimension>, id: string)
    requires Alike(dimensions, before)
    ensures DimensionIndex(dimensions, id) == DimensionIndex(before, id)
  {
    var i, j := DimensionIndex(dimensions, id), DimensionIndex(before, id);
    assert i < |before| ==> dimensions[i].id == before[i].id;
    assert j < |before| ==> dimensions[j].id == before[j].id;
  }

  lemma ActionVerdict(view: View, action: string, i: nat)
    requires i < |view.dimensions|
    ensures Alike(AfterAction(view, action).dimensions, view.dimensions)
    ensures AfterAction(view, action).pending == view.pending
    ensures AfterAction(view, action).dimensions[i] ==
      Verdict(view.dimensions[i], view.pending, None, action == "use_best_judgment")
  {
    MappedAt(DelegatedByAction, view.dimensions);
  }

  lemma AnsweredIsSettledBy(d: Dimension, pending: Option<Batch>, a: Answer)
    ensures Answered(d, Asked(pending, a.0), Trim(a.1)) == Settled(d, pending, a)
  {
    DelegationIs(Trim(a.1));
  }

  lemma DirectVerdict(view: View, before: seq<Dimension>, a: Answer, i: nat)
    requires Alike(view.dimensions, before) && i < |before| && !IsNote(a) && !IsAction(a)
    ensures Alike(AfterDirectAnswer(view.dimensions, view.pending, a.0, Trim(a.1)), before)
    ensures AfterDirectAnswer(view.dimensions, view.pending, a.0, Trim(a.1))[i] ==
      Verdict(view.dimensions[i], view.pending, if Settles(before, view.pending, i, a) then Some(a) else None, false)
  {
    var target := TargetOf(view.pending, a.0);
    SameDimension(view.dimensions, before, target);
    NoAnswerIs(Trim(a.1));
    var j := DimensionIndex(view.dimensions, target);
    if j < |before| {
      AnsweredIsSettledBy(view.dimensions[j], view.pending, a);
    }
  }

  lemma OneVerdict(view: View, before: seq<Dimension>, a: Answer, i: nat)
    requires Alike(view.dimensions, before) && i < |before|
    ensures Alike(AfterAnswer(view, a).dimensions, before) && AfterAnswer(view, a).pending == view.pending
    ensures AfterAnswer(view, a).dimensions[i] ==
      Verdict(view.dimensions[i], view.pending, if Settles(before, view.pending, i, a) then Some(a) else None, IsJudgment(a))
  {
    assert "$note:"[1] == 'n' && "$action"[1] == 'a';
    if IsNote(a) {
    } else if IsAction(a) {
      ActionVerdict(view, Trim(a.1), i);
    } else {
      DirectVerdict(view, before, a, i);
    }
  }

  /** A verdict on a verdict: a settled or delegated dimension is not unresolved again. */
  lemma VerdictTwice(
    d: Dimension, pending: Option<Batch>, first: Option<Answer>, judged: bool, last: Option<Answer>, judgedLater: bool)
    ensures Verdict(Verdict(d, pending, first, judged), pending, last, judgedLater) ==
      Verdict(d, pending, last.Or(first), judged || judgedLater)
  {
  }

  lemma JudgmentInTurn(answers: seq<Answer>)
    requires answers != []
    ensures AsksForJudgment(answers) <==> IsJudgment(answers[0]) || AsksForJudgment(answers[1..])
  {
    if k :| 0 <= k < |answers[1..]| && IsJudgment(answers[1..][k]) {
      assert IsJudgment(answers[k + 1]);
    }
    if k :| 0 < k < |answers| && IsJudgment(answers[k]) {
      assert IsJudgment(answers[1..][k - 1]);
    }
  }

  /** Each dimension after the answers is decided by the last answer to it alone, or by whether best
      judgment was asked for. */
  lemma {:induction false} AnswersGiveVerdict(view: View, before: seq<Dimension>, answers: seq<Answer>, i: nat)
    requires Alike(view.dimensions, before) && i < |before|
    ensures Alike(AfterAnswers(view, answers).dimensions, before)
    ensures AfterAnswers(view, answers).dimensions[i] == Verdict(
      view.dimensions[i], view.pending, LastSettling(before, view.pending, i, answers), AsksForJudgment(answers))
    decreases |answers|
  {
    if answers != [] {
      var a, next := answers[0], AfterAnswer(view, answers[0]);
      OneVerdict(view, before, a, i);
      AnswersGiveVerdict(next, before, answers[1..], i);
      JudgmentInTurn(answers);
      VerdictTwice(
        view.dimensions[i], view.pending, if Settles(before, view.pending, i, a) then Some(a) else None, IsJudgment(a),
        LastSettling(before, view.pending, i, answers[1..]), AsksForJudgment(answers[1..]));
    }
  }

  lemma {:induction false} NothingToAnswer(view: View, answers: seq<Answer>)
    requires view.dimensions == []
    ensures AfterAnswers(view, answers).dimensions == []
    decreases |answers|
  {
    if answers != [] {
      NothingToAnswer(AfterAnswer(view, answers[0]), answers[1..]);
    }
  }

  // ----- notes -----

  lemma OneNote(dimensions: seq<Dimension>, before: seq<Dimension>, a: Answer, i: nat)
    requires Alike(dimensions, before) && i < |before|
    ensures Alike(AfterNote(dimensions, a), before)
    ensures AfterNote(dimensions, a)[i] == dimensions[i].(detail := dimensions[i].detail + NoteOn(before, i, a))
  {
    assert dimensions[i].detail + "" == dimensions[i].detail;
    if IsNote(a) {
      assert |NOTE| == 6;
      SameDimension(dimensions, before, FirstPart(a.0[6..]));
    }
  }

  lemma {:induction false} NotesAreAdded(dimensions: seq<Dimension>, before: seq<Dimension>, answers: seq<Answer>, i: nat)
    requires Alike(dimensions, before) && i < |before|
    ensures Alike(AfterNotes(dimensions, answers), before)
    ensures AfterNotes(dimensions, answers)[i] ==
      dimensions[i].(detail := dimensions[i].detail + NotesOn(before, i, answers))
    decreases |answers|
  {
    if answers != [] {
      var a := answers[0];
      OneNote(dimensions, before, a, i);
      NotesAreAdded(AfterNote(dimensions, a), before, answers[1..], i);
      Sequences.Assoc(dimensions[i].detail, NoteOn(before, i, a), NotesOn(before, i, answers[1..]));
    } else {
      assert dimensions[i].detail + "" == dimensions[i].detail;
    }
  }

  /** After a submission each dimension is its verdict, with the notes on it added to its detail. */
  lemma DimensionAfter(view: View, answers: seq<Answer>, i: nat)
    requires i < |view.dimensions|
    ensures |Applied(view, answers).dimensions| == |view.dimensions|
    ensures var verdict := Verdicts(view.dimensions, view.pending, answers)[i];
      Applied(view, answers).dimensions[i] ==
      Dimension(verdict.id, verdict.weight, verdict.status, verdict.detail + NotesOn(view.dimensions, i, answers))
  {
    AnswersGiveVerdict(view, view.dimensions, answers, i);
    NotesAreAdded(AfterAnswers(view, answers).dimensions, view.dimensions, answers, i);
  }

  lemma SameCount(view: View, answers: seq<Answer>)
    ensures |Applied(view, answers).dimensions| == |view.dimensions|
  {
    if view.dimensions != [] {
      DimensionAfter(view, answers, 0);
    } else {
      NothingToAnswer(view, answers);
      NoDimensionToNote(answers);
    }
  }

  lemma {:induction false} NoDimensionToNote(answers: seq<Answer>)
    ensures AfterNotes([], answers) == []
  {
    if answers != [] {
      NoDimensionToNote(answers[1..]);
    }
  }

  // ----- the meter -----

  ghost predicate SameStanding(dimensions: seq<Dimension>, others: seq<Dimension>) {
    && |dimensions| == |others|
    && forall i | 0 <= i < |others| ::
         dimensions[i].weight == others[i].weight && dimensions[i].status == others[i].status
  }

  lemma {:induction false} SameSums(dimensions: seq<Dimension>, others: seq<Dimension>)
    requires SameStanding(dimensions, others)
    ensures Possible(dimensions) == Possible(others) && Uncertain(dimensions) == Uncertain(others)
    decreases |others|
  {
    if others != [] {
      SameSums(dimensions[1..], others[1..]);
    }
  }

  lemma AppliedIsVerdicts(view: View, answers: seq<Answer>)
    ensures SameStanding(Applied(view, answers).dimensions, Verdicts(view.dimensions, view.pending, answers))
  {
    SameCount(view, answers);
    forall i | 0 <= i < |view.dimensions|
      ensures Applied(view, answers).dimensions[i].weight == Verdicts(view.dimensions, view.pending, answers)[i].weight
      ensures Applied(view, answers).dimensions[i].status == Verdicts(view.dimensions, view.pending, answers)[i].status
    {
      DimensionAfter(view, answers, i);
    }
  }

  /** Exactly when a list of answers raises the meter: when the uncertain sum of the verdicts, scaled as in
      the source, exceeds the old reading of their possible sum. */
  lemma AnswersRaiseMeterIff(view: View, answers: seq<Answer>)
    ensures var after := Verdicts(view.dimensions, view.pending, answers);
      Applied(view, answers).overall > Meter(view.dimensions) <==>
      Min(Uncertain(after) * 100, U32_MAX) > Meter(view.dimensions) * Possible(after)
  {
    var after := Verdicts(view.dimensions, view.pending, answers);
    AppliedIsVerdicts(view, answers);
    SameSums(Applied(view, answers).dimensions, after);
    UncertainAtMostPossible(after);
    OverallExceedsIff(Possible(after), Uncertain(after), Meter(view.dimensions));
  }

  // ----- the status -----

  /** The status that an action names. */
  function NamedStatus(action: string): Option<ClarificationStatus> {
    if action == "cancel" then Some(Cancelled)
    else if action == "confirm" then Some(ConfirmedBrief)
    else if action == "summarize" then Some(Reviewing)
    else if action == "keep_clarifying" then Some(Collecting)
    else None
  }

  /** The status that the last such action names. */
  function LastNamed(answers: seq<Answer>): Option<ClarificationStatus> {
    if answers == [] then None
    else LastNamed(answers[1..]).Or(if IsAction(answers[0]) then NamedStatus(Trim(answers[0].1)) else None)
  }

  lemma ActionStatus(view: View, action: string)
    ensures AfterAction(view, action).status == NamedStatus(action).GetOr(view.status)
    ensures AfterAction(view, action).hasBrief == view.hasBrief
  {
  }

  lemma AnswerStatus(view: View, a: Answer)
    ensures AfterAnswer(view, a).status == (if IsAction(a) then NamedStatus(Trim(a.1)) else None).GetOr(view.status)
    ensures AfterAnswer(view, a).hasBrief == view.hasBrief
  {
    assert "$note:"[1] == 'n' && "$action"[1] == 'a';
    if IsAction(a) {
      ActionStatus(view, Trim(a.1));
    }
  }

  lemma {:induction false} AnswersStatus(view: View, answers: seq<Answer>)
    ensures AfterAnswers(view, answers).status == LastNamed(answers).GetOr(view.status)
    ensures AfterAnswers(view, answers).hasBrief == view.hasBrief
    decreases |answers|
  {
    if answers != [] {
      AnswerStatus(view, answers[0]);
      AnswersStatus(AfterAnswer(view, answers[0]), answers[1..]);
    }
  }

  /** After a submission the status is the one that its last action names, or the old one; but collecting
      becomes reviewing exactly when the meter is at most 25 and nothing is unknown. */
  lemma StatusAfter(view: View, answers: seq<Answer>)
    ensures var after, status := Applied(view, answers), LastNamed(answers).GetOr(view.status);
      && (after.status == if status == Collecting && after.overall <= 25 &&
            (forall d | d in Verdicts(view.dimensions, view.pending, answers) :: d.status != Unknown)
          then Reviewing else status)
      && after.overall == Meter(Verdicts(view.dimensions, view.pending, answers))
      && after.pending == None && after.hasBrief == view.hasBrief
  {
    AnswersStatus(view, answers);
    AppliedIsVerdicts(view, answers);
    var after, verdicts := Applied(view, answers).dimensions, Verdicts(view.dimensions, view.pending, answers);
    SameSums(after, verdicts);
    assert (forall i | 0 <= i < |after| :: after[i].status != Unknown) <==> forall d | d in verdicts :: d.status != Unknown by {
      assert forall i | 0 <= i < |after| :: after[i].status == verdicts[i].status;
    }
  }
}
