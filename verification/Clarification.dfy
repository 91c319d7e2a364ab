/** The ambiguity meter of an issue: how answers, actions and reopening move it. */
module Clarification {
  import opened Prelude
  import opened Ordering
  import Text

  const READY_THRESHOLD: nat := 25
  const U32_MAX: nat := 0xFFFF_FFFF
  const MAX_DETAIL: nat := 2000
  const GOAL := "goal"
  const SUCCESS := "success"
  const NOTE := "$note:"
  const ACTION := "$action"
  const NOT_SURE := "not sure"
  const BEST_JUDGMENT := "best judgment"
  const YOUR_BEST_JUDGMENT := "use your best judgment"
  const USE_BEST_JUDGMENT := "use_best_judgment"
  const DELEGATED_DETAIL := "Delegated to Minha; use the safest repository-supported assumption."
  const EXHAUSTED_DETAIL :=
    "Clarification rounds exhausted; Minha used the safest repository-supported assumption."

  datatype ClarificationStatus = Collecting | Reviewing | ConfirmedBrief | Cancelled

  datatype DimensionStatus = Unknown | Partial | Inferred | Delegated | Confirmed | NotApplicable

  datatype Dimension = Dimension(id: string, weight: nat, status: DimensionStatus, detail: string)

  datatype Choice = Choice(value: string, caption: string, description: string)
  datatype Question = Question(id: string, dimension: string, options: seq<Choice>)
  datatype Batch = Batch(questions: seq<Question>)

  /** What the program keeps about an issue; the text of a prepared brief is not modelled. */
  datatype View = View(
    status: ClarificationStatus, overall: nat, dimensions: seq<Dimension>, pending: Option<Batch>, hasBrief: bool)

  /** A question id, or `$action`, or a note's id; and the answer. */
  type Answer = (string, string)

  // ----- the meter -----

  function Factor(status: DimensionStatus): nat {
    match status
    case Unknown => 4
    case Partial => 2
    case Inferred => 1
    case Delegated => 1
    case Confirmed => 0
    case NotApplicable => 0
  }

  function Possible(dimensions: seq<Dimension>): nat {
    if dimensions == [] then 0
    else (if dimensions[0].status == NotApplicable then 0 else dimensions[0].weight * 4) + Possible(dimensions[1..])
  }

  function Uncertain(dimensions: seq<Dimension>): nat {
    if dimensions == [] then 0
    else dimensions[0].weight * Factor(dimensions[0].status) + Uncertain(dimensions[1..])
  }

  function CeilDiv(a: nat, b: nat): nat
    requires b > 0
  {
    (a + b - 1) / b
  }

  function Overall(possible: nat, uncertain: nat): nat {
    if possible == 0 then 0 else Min(CeilDiv(Min(uncertain * 100, U32_MAX), possible), 100)
  }

  function Meter(dimensions: seq<Dimension>): nat {
    Overall(Possible(dimensions), Uncertain(dimensions))
  }

  /** The loop of the source adds up both sums at once. */
  method Score(dimensions: seq<Dimension>) returns (overall: nat)
    ensures overall == Meter(dimensions)
  {
    var possible, uncertain := 0, 0;
    for i := 0 to |dimensions|
      invariant Possible(dimensions) == possible + Possible(dimensions[i..])
      invariant Uncertain(dimensions) == uncertain + Uncertain(dimensions[i..])
    {
      assert dimensions[i..][1..] == dimensions[i + 1..];
      var d := dimensions[i];
      if d.status == NotApplicable {
        continue;
      }
      possible := possible + d.weight * 4;
      uncertain := uncertain + d.weight * Factor(d.status);
    }
    overall := Overall(possible, uncertain);
  }

  // ----- answers -----

  function FirstPart(id: string): string {
    if id == "" || id[0] == '-' then "" else [id[0]] + FirstPart(id[1..])
  }

  function FindQuestion(questions: seq<Question>, id: string): Option<Question> {
    if questions == [] then None
    else if questions[0].id == id then Some(questions[0])
    else FindQuestion(questions[1..], id)
  }

  function FindOption(options: seq<Choice>, answer: string): Option<Choice> {
    if options == [] then None
    else if Text.Lowercase(options[0].value) == Text.Lowercase(answer) then Some(options[0])
    else FindOption(options[1..], answer)
  }

  /** The position of the first dimension with the given id, or the length. */
  function DimensionIndex(dimensions: seq<Dimension>, id: string): (i: nat)
    ensures i <= |dimensions|
    ensures i < |dimensions| ==> dimensions[i].id == id
    ensures forall k | 0 <= k < i :: dimensions[k].id != id
  {
    if dimensions == [] || dimensions[0].id == id then 0 else 1 + DimensionIndex(dimensions[1..], id)
  }

  function Asked(pending: Option<Batch>, id: string): Option<Question> {
    if pending.Some? then FindQuestion(pending.value.questions, id) else None
  }

  function TargetOf(pending: Option<Batch>, id: string): string {
    var question := Asked(pending, id);
    if question.Some? then question.value.dimension else FirstPart(id)
  }

  function Clipped(s: string): string {
    s[..Min(|s|, MAX_DETAIL)]
  }

  predicate IsNoAnswer(answer: string) {
    Text.Lowercase(answer) == NOT_SURE || answer == ""
  }

  predicate IsDelegation(answer: string) {
    Text.Lowercase(answer) == YOUR_BEST_JUDGMENT || Text.Lowercase(answer) == BEST_JUDGMENT
  }

  function DetailOf(question: Option<Question>, answer: string): string {
    var choice := if question.Some? then FindOption(question.value.options, answer) else None;
    if choice.Some? then choice.value.caption + ": " + choice.value.description else Clipped(answer)
  }

  /** The dimension after an answer that is not "not sure". */
  function Answered(d: Dimension, question: Option<Question>, answer: string): Dimension {
    if IsDelegation(answer) then
      d.(status := Delegated, detail := DELEGATED_DETAIL)
    else d.(status := Confirmed, detail := DetailOf(question, answer))
  }

  function DelegatedByAction(d: Dimension): Dimension {
    if d.status == Unknown || d.status == Partial
    then d.(status := Delegated, detail := if d.detail == "" then "Delegated to Minha." else d.detail)
    else d
  }

  function MapDimensions(f: Dimension -> Dimension, dimensions: seq<Dimension>): seq<Dimension> {
    seq(|dimensions|, i requires 0 <= i < |dimensions| => f(dimensions[i]))
  }

  function AfterAction(view: View, action: string): View {
    if action == USE_BEST_JUDGMENT then view.(dimensions := MapDimensions(DelegatedByAction, view.dimensions))
    else if action == "summarize" then view.(status := Reviewing)
    else if action == "cancel" then view.(status := Cancelled)
    else if action == "confirm" then view.(status := ConfirmedBrief)
    else if action == "keep_clarifying" then view.(status := Collecting)
    else view
  }

  /** An answer to a question: it goes to the question's dimension, if there is one. */
  function AfterDirectAnswer(dimensions: seq<Dimension>, pending: Option<Batch>, id: string, answer: string)
    : seq<Dimension>
  {
    var i := DimensionIndex(dimensions, TargetOf(pending, id));
    if i == |dimensions| || IsNoAnswer(answer) then dimensions
    else dimensions[i := Answered(dimensions[i], Asked(pending, id), answer)]
  }

  function AfterAnswer(view: View, a: Answer): View {
    var (id, answer) := (a.0, Text.Trim(a.1));
    if NOTE <= id then view
    else if id == ACTION then AfterAction(view, answer)
    else
      view.(dimensions := AfterDirectAnswer(view.dimensions, view.pending, id, answer))
  }

  function AfterAnswers(view: View, answers: seq<Answer>): View
    decreases |answers|
  {
    if answers == [] then view else AfterAnswers(AfterAnswer(view, answers[0]), answers[1..])
  }

  function AfterNote(dimensions: seq<Dimension>, a: Answer): seq<Dimension> {
    if !(NOTE <= a.0) || Text.Trim(a.1) == "" then dimensions
    else
      var i := DimensionIndex(dimensions, FirstPart(a.0[|NOTE|..]));
      if i == |dimensions| then dimensions
      else dimensions[i := dimensions[i].(detail := dimensions[i].detail + " Note: " + Clipped(Text.Trim(a.1)))]
  }

  function AfterNotes(dimensions: seq<Dimension>, answers: seq<Answer>): seq<Dimension>
    decreases |answers|
  {
    if answers == [] then dimensions else AfterNotes(AfterNote(dimensions, answers[0]), answers[1..])
  }

  predicate IsUnresolved(d: Dimension) {
    d.status == Unknown || d.status == Partial
  }

  predicate ReadyForReview(view: View) {
    view.overall <= READY_THRESHOLD && forall i | 0 <= i < |view.dimensions| :: view.dimensions[i].status != Unknown
  }

  function Rescored(view: View): View {
    view.(overall := Meter(view.dimensions))
  }

  function Applied(view: View, answers: seq<Answer>): View {
    var answered := AfterAnswers(view, answers);
    var scored := Rescored(answered.(dimensions := AfterNotes(answered.dimensions, answers), pending := None));
    if scored.status == Collecting && ReadyForReview(scored) then scored.(status := Reviewing) else scored
  }

  // ----- reopening and giving up -----

  function FirstAssumed(dimensions: seq<Dimension>): (i: nat)
    ensures i <= |dimensions|
    ensures i < |dimensions| ==> dimensions[i].status == Inferred || dimensions[i].status == Delegated
    ensures forall k | 0 <= k < i :: dimensions[k].status != Inferred && dimensions[k].status != Delegated
  {
    if dimensions == [] || dimensions[0].status == Inferred || dimensions[0].status == Delegated then 0
    else 1 + FirstAssumed(dimensions[1..])
  }

  /** A note that is not blank. */
  predicate HasNote(note: Option<string>) {
    note.Some? && Text.Trim(note.value) != ""
  }

  /** The dimension a reopening puts in question: the goal if there is a note, otherwise the first
      assumed dimension, otherwise the success criteria. */
  function ReopenTarget(dimensions: seq<Dimension>, note: Option<string>): nat {
    if HasNote(note) then DimensionIndex(dimensions, GOAL)
    else if FirstAssumed(dimensions) < |dimensions| then FirstAssumed(dimensions)
    else DimensionIndex(dimensions, SUCCESS)
  }

  function ReopenedDimension(d: Dimension, note: Option<string>): Dimension {
    d.(status := Partial, detail := if HasNote(note) then Clipped(Text.Trim(note.value)) else d.detail)
  }

  function Reopened(view: View, note: Option<string>): View {
    var i := ReopenTarget(view.dimensions, note);
    var dimensions :=
      if i < |view.dimensions| then view.dimensions[i := ReopenedDimension(view.dimensions[i], note)]
      else view.dimensions;
    Rescored(view.(status := Collecting, hasBrief := false, pending := None, dimensions := dimensions))
  }

  function DelegatedIfUnknown(d: Dimension): Dimension {
    if d.status == Unknown
    then d.(status := Delegated, detail := EXHAUSTED_DETAIL)
    else d
  }

  function Exhausted(view: View): View {
    Rescored(view.(dimensions := MapDimensions(DelegatedIfUnknown, view.dimensions)))
      .(status := Reviewing, pending := None, hasBrief := true)
  }

  // ----- what the lookups find -----

  /** The part before the first hyphen, or everything if there is none. */
  lemma {:induction false} FirstPartIs(id: string)
    ensures FirstPart(id) <= id && '-' !in FirstPart(id)
    ensures FirstPart(id) == id || id[|FirstPart(id)|] == '-'
  {
    if id != "" && id[0] != '-' {
      FirstPartIs(id[1..]);
      assert id == [id[0]] + id[1..];
    }
  }

  /** The question found is the first one with the id. */
  lemma {:induction false} FindQuestionIs(questions: seq<Question>, id: string)
    ensures match FindQuestion(questions, id)
      case None => forall q | q in questions :: q.id != id
      case Some(found) => exists k ::
        0 <= k < |questions| && questions[k] == found && found.id == id && forall j | 0 <= j < k :: questions[j].id != id
  {
    if questions != [] {
      assert questions == [questions[0]] + questions[1..];
      if questions[0].id != id {
        FindQuestionIs(questions[1..], id);
        if FindQuestion(questions[1..], id).Some? {
          var found := FindQuestion(questions[1..], id).value;
          var k :| 0 <= k < |questions[1..]| && questions[1..][k] == found && forall j | 0 <= j < k :: questions[1..][j].id != id;
          assert questions[k + 1] == found && forall j | 0 < j < k + 1 :: questions[j] == questions[1..][j - 1];
        }
      }
    }
  }

  /** The option found is the first one with the value, whatever the case of its letters. */
  lemma {:induction false} FindOptionIs(options: seq<Choice>, answer: string)
    ensures match FindOption(options, answer)
      case None => forall o | o in options :: !Text.EqualFold(o.value, answer)
      case Some(found) => exists k ::
        0 <= k < |options| && options[k] == found && Text.EqualFold(found.value, answer) &&
        forall j | 0 <= j < k :: !Text.EqualFold(options[j].value, answer)
  {
    if options != [] {
      assert options == [options[0]] + options[1..];
      Text.LowercaseIff(options[0].value, answer);
      if Text.EqualFold(options[0].value, answer) {
        assert options[0] == FindOption(options, answer).value;
      } else {
        FindOptionIs(options[1..], answer);
        if FindOption(options[1..], answer).Some? {
          var found := FindOption(options[1..], answer).value;
          var k :| 0 <= k < |options[1..]| && options[1..][k] == found &&
            forall j | 0 <= j < k :: !Text.EqualFold(options[1..][j].value, answer);
          assert options[k + 1] == found && forall j | 0 < j < k + 1 :: options[j] == options[1..][j - 1];
        }
      }
    }
  }

  lemma NoAnswerIs(answer: string)
    ensures IsNoAnswer(answer) <==> answer == "" || Text.EqualFold(answer, "not sure")
  {
    Text.LowercaseIff(answer, "not sure");
    assert Text.Lowercase("not sure") == "not sure";
  }

  lemma DelegationIs(answer: string)
    ensures IsDelegation(answer) <==>
      Text.EqualFold(answer, "use your best judgment") || Text.EqualFold(answer, "best judgment")
  {
    Text.LowercaseIff(answer, "use your best judgment");
    Text.LowercaseIff(answer, "best judgment");
    assert Text.Lowercase("use your best judgment") == "use your best judgment";
    assert Text.Lowercase("best judgment") == "best judgment";
  }

  // ----- the mutable view -----

  class IssueClarification {
    var view: View

    constructor (view: View)
      ensures this.view == view
    {
      this.view := view;
    }

    method ApplyAnswers(answers: seq<Answer>)
      modifies this
      ensures view == Applied(old(view), answers)
    {
      for i := 0 to |answers|
        invariant AfterAnswers(old(view), answers) == AfterAnswers(view, answers[i..])
      {
        assert answers[i..][1..] == answers[i + 1..];
        view := AfterAnswer(view, answers[i]);
      }
      ghost var answered := view;
      for i := 0 to |answers|
        invariant view == answered.(dimensions := view.dimensions)
        invariant AfterNotes(answered.dimensions, answers) == AfterNotes(view.dimensions, answers[i..])
      {
        assert answers[i..][1..] == answers[i + 1..];
        view := view.(dimensions := AfterNote(view.dimensions, answers[i]));
      }
      var overall := Score(view.dimensions);
      view := view.(overall := overall, pending := None);
      if view.status == Collecting && ReadyForReview(view) {
        view := view.(status := Reviewing);
      }
    }

    method Reopen(note: Option<string>)
      modifies this
      ensures view == Reopened(old(view), note)
    {
      view := view.(status := Collecting, hasBrief := false, pending := None);
      var i := ReopenTarget(view.dimensions, note);
      if i < |view.dimensions| {
        view := view.(dimensions := view.dimensions[i := ReopenedDimension(view.dimensions[i], note)]);
      }
      var overall := Score(view.dimensions);
      view := view.(overall := overall);
    }

    method ExhaustRounds()
      modifies this
      ensures view == Exhausted(old(view))
    {
      var dimensions := view.dimensions;
      for i := 0 to |dimensions|
        invariant |dimensions| == |view.dimensions|
        invariant forall k | 0 <= k < i :: dimensions[k] == DelegatedIfUnknown(view.dimensions[k])
        invariant forall k | i <= k < |dimensions| :: dimensions[k] == view.dimensions[k]
      {
        dimensions := dimensions[i := DelegatedIfUnknown(dimensions[i])];
      }
      assert dimensions == MapDimensions(DelegatedIfUnknown, view.dimensions);
      var overall := Score(dimensions);
      view := view.(dimensions := dimensions, overall := overall, status := Reviewing, pending := None, hasBrief := true);
    }
  }

  // ----- the meter is sound -----

  lemma {:induction false} UncertainAtMostPossible(dimensions: seq<Dimension>)
    ensures Uncertain(dimensions) <= Possible(dimensions)
  {
    if dimensions != [] {
      UncertainAtMostPossible(dimensions[1..]);
    }
  }

  lemma ProductMonotone(x: nat, y: nat, p: nat)
    requires x <= y
    ensures x * p <= y * p
  {
  }

  lemma CeilDivMonotone(a: nat, b: nat, p: nat)
    requires p > 0 && a <= b
    ensures CeilDiv(a, p) <= CeilDiv(b, p)
  {
    var q, r := CeilDiv(a, p), CeilDiv(b, p);
    assert q * p <= a + p - 1 <= b + p - 1 < (r + 1) * p;
    if r < q {
      ProductMonotone(r + 1, q, p);
    }
  }

  lemma CeilDivOfMultiple(k: nat, p: nat)
    requires p > 0
    ensures CeilDiv(k * p, p) == k
  {
    var q := CeilDiv(k * p, p);
    assert q * p <= k * p + p - 1 < (q + 1) * p;
    if q < k {
      ProductMonotone(q + 1, k, p);
    } else if k < q {
      ProductMonotone(k + 1, q, p);
    }
  }

  /** A share of at most `k` hundredths shows as at most `k`. */
  lemma OverallAtMost(possible: nat, uncertain: nat, k: nat)
    requires uncertain * 100 <= k * possible
    ensures Overall(possible, uncertain) <= k
  {
    if possible > 0 {
      CeilDivMonotone(Min(uncertain * 100, U32_MAX), k * possible, possible);
      CeilDivOfMultiple(k, possible);
    }
  }

  lemma OverallMonotone(possible: nat, less: nat, more: nat)
    requires less <= more
    ensures Overall(possible, less) <= Overall(possible, more)
  {
    if possible > 0 {
      CeilDivMonotone(Min(less * 100, U32_MAX), Min(more * 100, U32_MAX), possible);
    }
  }

  /** The meter is a percentage, without its clamp ever acting: the uncertain share is at most the possible one. */
  lemma MeterIsPercentage(dimensions: seq<Dimension>)
    ensures Meter(dimensions) <= 100
    ensures Possible(dimensions) > 0 ==> CeilDiv(Uncertain(dimensions) * 100, Possible(dimensions)) <= 100
  {
    UncertainAtMostPossible(dimensions);
    if Possible(dimensions) > 0 {
      CeilDivMonotone(Uncertain(dimensions) * 100, 100 * Possible(dimensions), Possible(dimensions));
      CeilDivOfMultiple(100, Possible(dimensions));
    }
  }

  ghost predicate Positive(dimensions: seq<Dimension>) {
    forall d | d in dimensions :: d.weight > 0
  }

  lemma {:induction false} UncertainZero(dimensions: seq<Dimension>)
    requires Positive(dimensions)
    ensures Uncertain(dimensions) == 0 <==> forall d | d in dimensions :: Factor(d.status) == 0
    ensures Uncertain(dimensions) > 0 ==> Possible(dimensions) > 0
  {
    if dimensions != [] {
      assert dimensions[0] in dimensions && forall d | d in dimensions[1..] :: d in dimensions;
      UncertainZero(dimensions[1..]);
      assert forall d | d in dimensions :: d == dimensions[0] || d in dimensions[1..];
      UncertainAtMostPossible(dimensions);
      WeightTimesFactor(dimensions[0]);
    }
  }

  lemma WeightTimesFactor(d: Dimension)
    requires d.weight > 0
    ensures d.weight * Factor(d.status) == 0 <==> Factor(d.status) == 0
  {
  }

  /** The meter reads zero exactly when every dimension is confirmed or does not apply. */
  lemma MeterZeroIff(dimensions: seq<Dimension>)
    requires Positive(dimensions)
    ensures Meter(dimensions) == 0 <==> forall d | d in dimensions :: d.status == Confirmed || d.status == NotApplicable
  {
    UncertainZero(dimensions);
    var p, u := Possible(dimensions), Uncertain(dimensions);
    if u > 0 {
      CeilDivMonotone(1, Min(u * 100, U32_MAX), p);
      assert CeilDiv(1, p) == p / p == 1;
    } else if p > 0 {
      CeilDivOfMultiple(0, p);
    }
  }

  // ----- answers never raise the meter -----

  /** The same dimension, no more uncertain than before, and applicable as before. */
  ghost predicate NoWorse(d: Dimension, before: Dimension) {
    && d.id == before.id && d.weight == before.weight
    && Factor(d.status) <= Factor(before.status)
    && (d.status == NotApplicable <==> before.status == NotApplicable)
  }

  ghost predicate AllNoWorse(dimensions: seq<Dimension>, before: seq<Dimension>) {
    |dimensions| == |before| && forall i | 0 <= i < |before| :: NoWorse(dimensions[i], before[i])
  }

  lemma {:induction false} NoWorseSums(dimensions: seq<Dimension>, before: seq<Dimension>)
    requires AllNoWorse(dimensions, before)
    ensures Possible(dimensions) == Possible(before) && Uncertain(dimensions) <= Uncertain(before)
    decreases |before|
  {
    if before != [] {
      NoWorseSums(dimensions[1..], before[1..]);
      WeightMonotone(before[0].weight, Factor(dimensions[0].status), Factor(before[0].status));
    }
  }

  lemma WeightMonotone(w: nat, a: nat, b: nat)
    requires a <= b
    ensures w * a <= w * b
  {
  }

  lemma NoWorseMeter(dimensions: seq<Dimension>, before: seq<Dimension>)
    requires AllNoWorse(dimensions, before)
    ensures Meter(dimensions) <= Meter(before)
  {
    NoWorseSums(dimensions, before);
    OverallMonotone(Possible(before), Uncertain(dimensions), Uncertain(before));
  }

  lemma SameIndex(dimensions: seq<Dimension>, before: seq<Dimension>, id: string)
    requires AllNoWorse(dimensions, before)
    ensures DimensionIndex(dimensions, id) == DimensionIndex(before, id)
  {
    var i, j := DimensionIndex(dimensions, id), DimensionIndex(before, id);
    assert i < |before| ==> NoWorse(dimensions[i], before[i]);
    assert j < |before| ==> NoWorse(dimensions[j], before[j]);
  }

  /** The answer is an action or a note, or it goes to a dimension that was neither confirmed nor inapplicable. */
  ghost predicate GoesToUncertain(before: seq<Dimension>, pending: Option<Batch>, a: Answer) {
    || NOTE <= a.0 || a.0 == ACTION
    || var i := DimensionIndex(before, TargetOf(pending, a.0)); i == |before| || Factor(before[i].status) > 0
  }

  lemma MappedNoWorse(f: Dimension -> Dimension, dimensions: seq<Dimension>, before: seq<Dimension>)
    requires AllNoWorse(dimensions, before) && forall d :: NoWorse(f(d), d)
    ensures AllNoWorse(MapDimensions(f, dimensions), before)
  {
    forall k | 0 <= k < |before|
      ensures NoWorse(MapDimensions(f, dimensions)[k], before[k])
    {
      assert NoWorse(dimensions[k], before[k]) && NoWorse(f(dimensions[k]), dimensions[k]);
    }
  }

  lemma ActionIsNoWorse(view: View, action: string, before: seq<Dimension>)
    requires AllNoWorse(view.dimensions, before)
    ensures AllNoWorse(AfterAction(view, action).dimensions, before)
  {
    MappedNoWorse(DelegatedByAction, view.dimensions, before);
  }

  lemma ReplacedNoWorse(dimensions: seq<Dimension>, before: seq<Dimension>, i: nat, d: Dimension)
    requires AllNoWorse(dimensions, before) && i < |before| && NoWorse(d, before[i])
    ensures AllNoWorse(dimensions[i := d], before)
  {
  }

  lemma AnsweredIsSettled(d: Dimension, question: Option<Question>, answer: string)
    ensures var after := Answered(d, question, answer);
      after.id == d.id && after.weight == d.weight && (after.status == Delegated || after.status == Confirmed)
  {
  }

  lemma DirectAnswerIsNoWorse(
    dimensions: seq<Dimension>, pending: Option<Batch>, id: string, answer: string, before: seq<Dimension>)
    requires AllNoWorse(dimensions, before)
    requires var i := DimensionIndex(before, TargetOf(pending, id)); i == |before| || Factor(before[i].status) > 0
    ensures AllNoWorse(AfterDirectAnswer(dimensions, pending, id, answer), before)
  {
    SameIndex(dimensions, before, TargetOf(pending, id));
    var i := DimensionIndex(dimensions, TargetOf(pending, id));
    if i == |dimensions| || IsNoAnswer(answer) {
      assert AfterDirectAnswer(dimensions, pending, id, answer) == dimensions;
    } else {
      var d := Answered(dimensions[i], Asked(pending, id), answer);
      AnsweredIsSettled(dimensions[i], Asked(pending, id), answer);
      assert NoWorse(dimensions[i], before[i]);
      SettledIsNoWorse(d, dimensions[i], before[i]);
      ReplacedNoWorse(dimensions, before, i, d);
      assert AfterDirectAnswer(dimensions, pending, id, answer) == dimensions[i := d];
    }
  }

  lemma SettledIsNoWorse(d: Dimension, middle: Dimension, before: Dimension)
    requires d.id == middle.id && d.weight == middle.weight && (d.status == Delegated || d.status == Confirmed)
    requires NoWorse(middle, before) && Factor(before.status) > 0
    ensures NoWorse(d, before)
  {
  }

  lemma AnswerIsNoWorse(view: View, a: Answer, before: seq<Dimension>)
    requires AllNoWorse(view.dimensions, before) && GoesToUncertain(before, view.pending, a)
    ensures AllNoWorse(AfterAnswer(view, a).dimensions, before) && AfterAnswer(view, a).pending == view.pending
  {
    if NOTE <= a.0 {
    } else if a.0 == ACTION {
      ActionIsNoWorse(view, Text.Trim(a.1), before);
    } else {
      DirectAnswerIsNoWorse(view.dimensions, view.pending, a.0, Text.Trim(a.1), before);
    }
  }

  lemma {:induction false} AnswersAreNoWorse(view: View, answers: seq<Answer>, before: seq<Dimension>)
    requires AllNoWorse(view.dimensions, before)
    requires forall a | a in answers :: GoesToUncertain(before, view.pending, a)
    ensures AllNoWorse(AfterAnswers(view, answers).dimensions, before)
    decreases |answers|
  {
    if answers != [] {
      var a := answers[0];
      assert a in answers && forall x | x in answers[1..] :: x in answers;
      AnswerIsNoWorse(view, a, before);
      AnswersAreNoWorse(AfterAnswer(view, a), answers[1..], before);
    }
  }

  lemma {:induction false} NotesAreNoWorse(dimensions: seq<Dimension>, answers: seq<Answer>, before: seq<Dimension>)
    requires AllNoWorse(dimensions, before)
    ensures AllNoWorse(AfterNotes(dimensions, answers), before)
    decreases |answers|
  {
    if answers != [] {
      NotesAreNoWorse(AfterNote(dimensions, answers[0]), answers[1..], before);
    }
  }

  /** Answers to dimensions that still were uncertain, together with any actions and notes, never raise the meter. */
  lemma AnswersNeverRaise(view: View, answers: seq<Answer>)
    requires forall a | a in answers :: GoesToUncertain(view.dimensions, view.pending, a)
    ensures Applied(view, answers).overall <= Meter(view.dimensions)
    ensures Possible(Applied(view, answers).dimensions) == Possible(view.dimensions)
  {
    AnswersAreNoWorse(view, answers, view.dimensions);
    var answered := AfterAnswers(view, answers).dimensions;
    NotesAreNoWorse(answered, answers, view.dimensions);
    NoWorseMeter(AfterNotes(answered, answers), view.dimensions);
    NoWorseSums(AfterNotes(answered, answers), view.dimensions);
  }

  lemma CeilDivExceeds(a: nat, p: nat, m: nat)
    requires p > 0
    ensures CeilDiv(a, p) > m <==> a > m * p
  {
    var q := CeilDiv(a, p);
    assert q * p <= a + p - 1 < (q + 1) * p;
    if q > m {
      ProductMonotone(m + 1, q, p);
    } else {
      ProductMonotone(q, m, p);
    }
  }

  /** The meter exceeds a percentage exactly when the uncertain sum, scaled as in the source, exceeds
      that part of the possible sum. */
  lemma OverallExceedsIff(possible: nat, uncertain: nat, m: nat)
    requires uncertain <= possible
    ensures Overall(possible, uncertain) > m <==> Min(uncertain * 100, U32_MAX) > m * possible
  {
    if possible > 0 {
      CeilDivExceeds(Min(uncertain * 100, U32_MAX), possible, m);
      if m >= 100 {
        ProductMonotone(100, m, possible);
      }
    }
  }

  /** What a delegated dimension adds to the two sums, if it was confirmed or did not apply before. */
  function Added(d: Dimension): (nat, nat) {
    (if d.status == NotApplicable then 4 * d.weight else 0, d.weight)
  }

  lemma {:induction false} SumsAfter(dimensions: seq<Dimension>, i: nat, d: Dimension)
    requires i < |dimensions| && d.weight == dimensions[i].weight
    ensures Uncertain(dimensions[i := d]) == Uncertain(dimensions)
      - d.weight * Factor(dimensions[i].status) + d.weight * Factor(d.status)
    ensures Possible(dimensions[i := d]) == Possible(dimensions)
      - (if dimensions[i].status == NotApplicable then 0 else d.weight * 4)
      + (if d.status == NotApplicable then 0 else d.weight * 4)
  {
    var after := dimensions[i := d];
    if i == 0 {
      assert after[1..] == dimensions[1..];
    } else {
      SumsAfter(dimensions[1..], i - 1, d);
      assert after[1..] == dimensions[1..][i - 1 := d];
    }
  }

  /** Confirming a dimension that did not apply makes more possible and nothing uncertain. */
  lemma OverallAntitone(less: nat, more: nat, uncertain: nat)
    requires uncertain <= less <= more
    ensures Overall(more, uncertain) <= Overall(less, uncertain)
  {
    UncertainAtMostScale(less, uncertain);
    OverallExceedsIff(more, uncertain, Overall(less, uncertain));
    ProductMonotone(less, more, Overall(less, uncertain));
  }

  lemma UncertainAtMostScale(possible: nat, uncertain: nat)
    requires uncertain <= possible
    ensures Min(uncertain * 100, U32_MAX) <= Overall(possible, uncertain) * possible
  {
    OverallExceedsIff(possible, uncertain, Overall(possible, uncertain));
  }

  /** The dimension that an answer to a question goes to, if it delegates one without uncertainty. */
  ghost predicate DelegatesCertain(view: View, a: Answer) {
    var i := DimensionIndex(view.dimensions, TargetOf(view.pending, a.0));
    && !(NOTE <= a.0) && a.0 != ACTION && IsDelegation(Text.Trim(a.1))
    && i < |view.dimensions| && Factor(view.dimensions[i].status) == 0
  }

  /** The reading that the sums have once dimension `i` is delegated is above the current one. */
  ghost predicate ReadsHigher(dimensions: seq<Dimension>, i: nat)
    requires i < |dimensions|
  {
    var (possible, uncertain) := Added(dimensions[i]);
    Min(100 * (Uncertain(dimensions) + uncertain), U32_MAX) > Meter(dimensions) * (Possible(dimensions) + possible)
  }

  /** Exactly when one answer raises the meter: it delegates a dimension that was confirmed or did not
      apply, and the weight this adds outgrows what it adds to the possible sum. */
  lemma AnswerRaisesMeterIff(view: View, a: Answer)
    ensures Applied(view, [a]).overall > Meter(view.dimensions) <==>
      DelegatesCertain(view, a) &&
      ReadsHigher(view.dimensions, DimensionIndex(view.dimensions, TargetOf(view.pending, a.0)))
  {
    var i := DimensionIndex(view.dimensions, TargetOf(view.pending, a.0));
    if GoesToUncertain(view.dimensions, view.pending, a) {
      AnswersNeverRaise(view, [a]);
    } else if !IsDelegation(Text.Trim(a.1)) {
      ConfirmingNeverRaises(view, a);
    } else {
      DelegationRaisesIff(view, a);
    }
  }

  /** The sums after dimension `i` was settled by an answer. */
  lemma SettledReads(dimensions: seq<Dimension>, i: nat, d: Dimension)
    requires i < |dimensions| && d.weight == dimensions[i].weight && Factor(dimensions[i].status) == 0
    ensures d.status == Confirmed ==> Meter(dimensions[i := d]) <= Meter(dimensions)
    ensures d.status == Delegated ==> (Meter(dimensions[i := d]) > Meter(dimensions) <==> ReadsHigher(dimensions, i))
  {
    var after := dimensions[i := d];
    SumsAfter(dimensions, i, d);
    if d.status == Confirmed {
      UncertainAtMostPossible(dimensions);
      OverallAntitone(Possible(dimensions), Possible(after), Uncertain(dimensions));
    } else if d.status == Delegated {
      UncertainAtMostPossible(after);
      OverallExceedsIff(Possible(after), Uncertain(after), Meter(dimensions));
    }
  }

  /** An answer to a question settles its dimension or does nothing. */
  lemma AnswerSettles(view: View, a: Answer)
    requires !GoesToUncertain(view.dimensions, view.pending, a)
    ensures var i, answer := DimensionIndex(view.dimensions, TargetOf(view.pending, a.0)), Text.Trim(a.1);
      var d := Answered(view.dimensions[i], Asked(view.pending, a.0), answer);
      && d.weight == view.dimensions[i].weight && d.status == (if IsDelegation(answer) then Delegated else Confirmed)
      && Applied(view, [a]).overall ==
         Meter(if IsNoAnswer(answer) then view.dimensions else view.dimensions[i := d])
  {
    OneAnswer(view, a);
  }

  lemma ConfirmingNeverRaises(view: View, a: Answer)
    requires !GoesToUncertain(view.dimensions, view.pending, a) && !IsDelegation(Text.Trim(a.1))
    ensures Applied(view, [a]).overall <= Meter(view.dimensions)
  {
    var i, answer := DimensionIndex(view.dimensions, TargetOf(view.pending, a.0)), Text.Trim(a.1);
    AnswerSettles(view, a);
    SettledReads(view.dimensions, i, Answered(view.dimensions[i], Asked(view.pending, a.0), answer));
  }

  lemma DelegationRaisesIff(view: View, a: Answer)
    requires !GoesToUncertain(view.dimensions, view.pending, a) && IsDelegation(Text.Trim(a.1))
    ensures Applied(view, [a]).overall > Meter(view.dimensions) <==>
      ReadsHigher(view.dimensions, DimensionIndex(view.dimensions, TargetOf(view.pending, a.0)))
  {
    var i, answer := DimensionIndex(view.dimensions, TargetOf(view.pending, a.0)), Text.Trim(a.1);
    DelegationIsAnswer(answer);
    AnswerSettles(view, a);
    SettledReads(view.dimensions, i, Answered(view.dimensions[i], Asked(view.pending, a.0), answer));
  }

  /** In particular, delegating any dimension raises a meter that had come down to zero. */
  lemma DelegatingConfirmedRaises(view: View, a: Answer)
    requires Positive(view.dimensions) && Meter(view.dimensions) == 0
    requires !(NOTE <= a.0) && a.0 != ACTION && IsDelegation(Text.Trim(a.1))
    requires DimensionIndex(view.dimensions, TargetOf(view.pending, a.0)) < |view.dimensions|
    ensures Applied(view, [a]).overall > 0
  {
    var i := DimensionIndex(view.dimensions, TargetOf(view.pending, a.0));
    assert view.dimensions[i] in view.dimensions;
    MeterZeroIff(view.dimensions);
    AnswerRaisesMeterIff(view, a);
  }

  /** A delegation may also lower the meter, because it makes more possible than uncertain: here the
      sums go from 100 of 100 to 125 of 200. */
  lemma DelegatingMayLower(detail: string)
    ensures var before := [Dimension(GOAL, 25, Unknown, detail), Dimension(SUCCESS, 25, NotApplicable, detail)];
      Meter(before) == 100 && Meter(before[1 := before[1].(status := Delegated)]) == 63
  {
    var before := [Dimension(GOAL, 25, Unknown, detail), Dimension(SUCCESS, 25, NotApplicable, detail)];
    var d := before[1].(status := Delegated);
    SumsAfter(before, 1, d);
    assert before[1..] == [before[1]] && before[1..][1..] == [];
    assert Possible([before[1]]) == 0 && Uncertain([before[1]]) == 0;
    assert Possible(before) == 100 && Uncertain(before) == 100;
    assert CeilDiv(12500, 200) == 63;
  }

  lemma DelegationIsAnswer(answer: string)
    requires IsDelegation(answer)
    ensures !IsNoAnswer(answer)
  {
    assert |Text.Lowercase(answer)| == |answer|;
    assert |NOT_SURE| == 8 && |BEST_JUDGMENT| == 13 && |YOUR_BEST_JUDGMENT| == 22;
  }

  /** A single answer that is no note. */
  lemma OneAnswer(view: View, a: Answer)
    requires !(NOTE <= a.0)
    ensures Applied(view, [a]).dimensions == AfterAnswer(view, a).dimensions
    ensures Applied(view, [a]).overall == Meter(AfterAnswer(view, a).dimensions)
    ensures AfterAnswers(view, [a]) == AfterAnswer(view, a)
  {
    var answered := AfterAnswer(view, a);
    assert AfterAnswers(answered, []) == answered;
    assert AfterNotes(answered.dimensions, [a]) == AfterNotes(answered.dimensions, []);
  }

  // ----- one judgment settles everything -----

  lemma {:induction false} AssumedIsQuarter(dimensions: seq<Dimension>)
    requires forall d | d in dimensions :: !IsUnresolved(d)
    ensures Uncertain(dimensions) * 4 <= Possible(dimensions)
  {
    if dimensions != [] {
      assert dimensions[0] in dimensions && forall d | d in dimensions[1..] :: d in dimensions;
      AssumedIsQuarter(dimensions[1..]);
    }
  }

  ghost predicate AllResolved(dimensions: seq<Dimension>) {
    forall i | 0 <= i < |dimensions| :: !IsUnresolved(dimensions[i])
  }

  /** The action that delegates everything unresolved. */
  predicate IsBestJudgment(a: Answer) {
    a.0 == ACTION && Text.Trim(a.1) == USE_BEST_JUDGMENT
  }

  /** An action that closes the issue. */
  predicate Closes(a: Answer) {
    a.0 == ACTION && (Text.Trim(a.1) == "cancel" || Text.Trim(a.1) == "confirm")
  }

  predicate IsOpen(status: ClarificationStatus) {
    status == Collecting || status == Reviewing
  }

  lemma MappedAt(f: Dimension -> Dimension, dimensions: seq<Dimension>)
    ensures |MapDimensions(f, dimensions)| == |dimensions|
    ensures forall i | 0 <= i < |dimensions| :: MapDimensions(f, dimensions)[i] == f(dimensions[i])
  {
  }

  lemma ActionKeepsResolved(view: View, action: string)
    requires AllResolved(view.dimensions)
    ensures AllResolved(AfterAction(view, action).dimensions)
  {
    MappedAt(DelegatedByAction, view.dimensions);
  }

  lemma DirectAnswerKeepsResolved(dimensions: seq<Dimension>, pending: Option<Batch>, id: string, answer: string)
    requires AllResolved(dimensions)
    ensures AllResolved(AfterDirectAnswer(dimensions, pending, id, answer))
  {
    var i := DimensionIndex(dimensions, TargetOf(pending, id));
    if i < |dimensions| {
      AnsweredIsSettled(dimensions[i], Asked(pending, id), answer);
    }
  }

  lemma AnswerKeepsResolved(view: View, a: Answer)
    requires AllResolved(view.dimensions)
    ensures AllResolved(AfterAnswer(view, a).dimensions)
  {
    if NOTE <= a.0 {
    } else if a.0 == ACTION {
      ActionKeepsResolved(view, Text.Trim(a.1));
    } else {
      DirectAnswerKeepsResolved(view.dimensions, view.pending, a.0, Text.Trim(a.1));
    }
  }

  lemma BestJudgmentResolves(view: View, a: Answer)
    requires IsBestJudgment(a)
    ensures AllResolved(AfterAnswer(view, a).dimensions)
  {
    assert NOTE[1] == 'n' && ACTION[1] == 'a';
    MappedAt(DelegatedByAction, view.dimensions);
  }

  lemma ActionKeepsOpen(view: View, action: string)
    requires IsOpen(view.status) && action != "cancel" && action != "confirm"
    ensures IsOpen(AfterAction(view, action).status)
  {
  }

  lemma AnswerKeepsOpen(view: View, a: Answer)
    requires IsOpen(view.status) && !Closes(a)
    ensures IsOpen(AfterAnswer(view, a).status)
  {
    if !(NOTE <= a.0) && a.0 == ACTION {
      ActionKeepsOpen(view, Text.Trim(a.1));
    }
  }

  lemma {:induction false} AnswersResolve(view: View, answers: seq<Answer>)
    requires IsOpen(view.status) && forall a | a in answers :: !Closes(a)
    requires AllResolved(view.dimensions) || exists a :: a in answers && IsBestJudgment(a)
    ensures AllResolved(AfterAnswers(view, answers).dimensions) && IsOpen(AfterAnswers(view, answers).status)
    decreases |answers|
  {
    if answers != [] {
      var a, rest := answers[0], answers[1..];
      assert a in answers && forall x | x in rest :: x in answers;
      AnswerKeepsOpen(view, a);
      if AllResolved(view.dimensions) {
        AnswerKeepsResolved(view, a);
      } else if IsBestJudgment(a) {
        BestJudgmentResolves(view, a);
      } else {
        var b :| b in answers && IsBestJudgment(b);
        assert b in rest;
      }
      AnswersResolve(AfterAnswer(view, a), rest);
    }
  }

  lemma {:induction false} NotesKeepResolved(dimensions: seq<Dimension>, answers: seq<Answer>)
    requires AllResolved(dimensions)
    ensures AllResolved(AfterNotes(dimensions, answers))
    decreases |answers|
  {
    if answers != [] {
      NotesKeepResolved(AfterNote(dimensions, answers[0]), answers[1..]);
    }
  }

  lemma ResolvedIsReady(view: View)
    requires AllResolved(view.dimensions)
    ensures ReadyForReview(Rescored(view)) && Meter(view.dimensions) <= READY_THRESHOLD
  {
    AssumedIsQuarter(view.dimensions);
    OverallAtMost(Possible(view.dimensions), Uncertain(view.dimensions), READY_THRESHOLD);
  }

  /** A submission with "use best judgment" somewhere in it, whatever else it answers, notes or asks for
      short of closing the issue, leads from collecting to the review, with the meter at most 25 and
      nothing unresolved. */
  lemma BestJudgmentReviews(view: View, answers: seq<Answer>)
    requires view.status == Collecting && forall a | a in answers :: !Closes(a)
    requires exists a :: a in answers && IsBestJudgment(a)
    ensures var after := Applied(view, answers);
      after.status == Reviewing && after.overall <= READY_THRESHOLD && AllResolved(after.dimensions)
  {
    AnswersResolve(view, answers);
    var answered := AfterAnswers(view, answers);
    NotesKeepResolved(answered.dimensions, answers);
    ResolvedIsReady(answered.(dimensions := AfterNotes(answered.dimensions, answers), pending := None));
  }

  /** Giving up after too many rounds leaves nothing unknown and never raises the meter. */
  lemma ExhaustingSettlesUnknowns(view: View)
    ensures var after := Exhausted(view);
      && after.status == Reviewing && after.hasBrief && after.pending == None
      && after.overall <= Meter(view.dimensions)
      && forall d | d in after.dimensions :: d.status != Unknown
  {
    MappedNoWorse(DelegatedIfUnknown, view.dimensions, view.dimensions);
    NoWorseMeter(MapDimensions(DelegatedIfUnknown, view.dimensions), view.dimensions);
    NothingUnknown(view.dimensions);
  }

  lemma NothingUnknown(dimensions: seq<Dimension>)
    ensures forall d | d in MapDimensions(DelegatedIfUnknown, dimensions) :: d.status != Unknown
  {
    var after := MapDimensions(DelegatedIfUnknown, dimensions);
    forall i | 0 <= i < |after|
      ensures after[i].status != Unknown
    {
      assert after[i] == DelegatedIfUnknown(dimensions[i]);
    }
  }

  // ----- reopening -----

  function Unresolved(dimensions: seq<Dimension>): seq<Dimension> {
    if dimensions == [] then []
    else (if IsUnresolved(dimensions[0]) then [dimensions[0]] else []) + Unresolved(dimensions[1..])
  }

  predicate HeavierFirst(a: Dimension, b: Dimension) {
    a.weight >= b.weight
  }

  /** The dimensions to ask about: the unresolved ones, heaviest first. */
  function UnresolvedDimensions(view: View): seq<Dimension> {
    Sort(HeavierFirst, Unresolved(view.dimensions))
  }

  lemma {:induction false} UnresolvedIsFilter(dimensions: seq<Dimension>, d: Dimension)
    ensures d in Unresolved(dimensions) <==> d in dimensions && IsUnresolved(d)
  {
    if dimensions != [] {
      UnresolvedIsFilter(dimensions[1..], d);
    }
  }

  /** The questions to ask are exactly the unresolved dimensions, in descending order of weight. */
  lemma UnresolvedDimensionsListing(view: View)
    ensures Sorted(HeavierFirst, UnresolvedDimensions(view))
    ensures forall d :: d in UnresolvedDimensions(view) <==> d in view.dimensions && IsUnresolved(d)
  {
    assert TotalPreorder(HeavierFirst);
    SortIsSorted(HeavierFirst, Unresolved(view.dimensions));
    SameMembers(UnresolvedDimensions(view), Unresolved(view.dimensions));
    forall d
      ensures d in Unresolved(view.dimensions) <==> d in view.dimensions && IsUnresolved(d)
    {
      UnresolvedIsFilter(view.dimensions, d);
    }
  }

  /** After reopening there is something to ask about, exactly when something was unresolved already
      or the reopening has a dimension to put in question. */
  lemma ReopenAsksIff(view: View, note: Option<string>)
    ensures UnresolvedDimensions(Reopened(view, note)) != [] <==>
      ReopenTarget(view.dimensions, note) < |view.dimensions| || UnresolvedDimensions(view) != []
  {
    var i, after := ReopenTarget(view.dimensions, note), Reopened(view, note);
    UnresolvedDimensionsListing(after);
    UnresolvedDimensionsListing(view);
    if i < |view.dimensions| {
      assert after.dimensions[i] in after.dimensions && IsUnresolved(after.dimensions[i]);
    } else {
      assert after.dimensions == view.dimensions;
      if UnresolvedDimensions(view) != [] {
        assert UnresolvedDimensions(view)[0] in UnresolvedDimensions(view);
        assert UnresolvedDimensions(view)[0] in UnresolvedDimensions(after);
      }
      if UnresolvedDimensions(after) != [] {
        assert UnresolvedDimensions(after)[0] in UnresolvedDimensions(after);
        assert UnresolvedDimensions(after)[0] in UnresolvedDimensions(view);
      }
    }
  }

  /** An input on which there is not: a note, and no goal dimension for it. */
  lemma ReopenMayAskNothing()
    ensures var view := View(Reviewing, 0, [Dimension(SUCCESS, 1, Confirmed, "")], None, true);
      UnresolvedDimensions(view) == [] && UnresolvedDimensions(Reopened(view, Some("wrong"))) == []
  {
    var view := View(Reviewing, 0, [Dimension(SUCCESS, 1, Confirmed, "")], None, true);
    assert view.dimensions[1..] == [];
    assert Unresolved(view.dimensions) == [];
    assert Text.Trim("wrong") == "wrong";
    assert GOAL[0] == 'g' && SUCCESS[0] == 's';
    assert DimensionIndex(view.dimensions, GOAL) == 1 + DimensionIndex([], GOAL) == 1;
    ReopenAsksIff(view, Some("wrong"));
  }

  /** With a goal and a success dimension, as every analysis has, reopening always asks something. */
  lemma ReopenAlwaysAsks(view: View, note: Option<string>)
    requires exists d :: d in view.dimensions && d.id == GOAL
    requires exists d :: d in view.dimensions && d.id == SUCCESS
    ensures Reopened(view, note).status == Collecting
    ensures UnresolvedDimensions(Reopened(view, note)) != []
  {
    ReopenAsksIff(view, note);
  }

  /** The first dimension with the property, if there is one. */
  ghost predicate IsFirst(dimensions: seq<Dimension>, p: Dimension -> bool, i: nat) {
    i < |dimensions| && p(dimensions[i]) && forall k | 0 <= k < i :: !p(dimensions[k])
  }

  ghost predicate HasNone(dimensions: seq<Dimension>, p: Dimension -> bool) {
    forall k | 0 <= k < |dimensions| :: !p(dimensions[k])
  }

  function IsGoal(): Dimension -> bool { (d: Dimension) => d.id == "goal" }
  function IsSuccess(): Dimension -> bool { (d: Dimension) => d.id == "success" }
  function IsAssumed(): Dimension -> bool { (d: Dimension) => d.status == Inferred || d.status == Delegated }

  /** Reopening puts one dimension in question: with a note that is not blank the first goal, and otherwise
      the first that was assumed or, if none was, the first for success. */
  ghost predicate IsReopened(dimensions: seq<Dimension>, note: Option<string>, i: nat) {
    if note.Some? && Text.Trim(note.value) != "" then IsFirst(dimensions, IsGoal(), i)
    else if !HasNone(dimensions, IsAssumed()) then IsFirst(dimensions, IsAssumed(), i)
    else IsFirst(dimensions, IsSuccess(), i)
  }

  /** Reopening sets that dimension to partial, with the note as its detail if there is one, leaves the
      others alone, and takes the issue back to collecting without a brief or questions. */
  lemma ReopenedIs(view: View, note: Option<string>)
    ensures var after := Reopened(view, note);
      && after.status == Collecting && !after.hasBrief && after.pending == None && after.overall == Meter(after.dimensions)
      && |after.dimensions| == |view.dimensions|
      && forall i | 0 <= i < |view.dimensions| ::
           var d := view.dimensions[i];
           after.dimensions[i] == if IsReopened(view.dimensions, note, i) then
             Dimension(d.id, d.weight, Partial,
               if note.Some? && Text.Trim(note.value) != "" then Text.Trim(note.value)[..Min(|Text.Trim(note.value)|, 2000)]
               else d.detail)
           else d
  {
    var target := ReopenTarget(view.dimensions, note);
    assert GOAL == "goal" && SUCCESS == "success";
    forall i | 0 <= i < |view.dimensions|
      ensures IsReopened(view.dimensions, note, i) <==> i == target
    {
      ReopenedIsTarget(view.dimensions, note, i);
    }
  }

  lemma ReopenedIsTarget(dimensions: seq<Dimension>, note: Option<string>, i: nat)
    requires i < |dimensions|
    ensures IsReopened(dimensions, note, i) <==> i == ReopenTarget(dimensions, note)
  {
    var k := FirstAssumed(dimensions);
    assert k < |dimensions| ==> IsAssumed()(dimensions[k]);
    var goal, success := DimensionIndex(dimensions, GOAL), DimensionIndex(dimensions, SUCCESS);
    assert goal < |dimensions| ==> IsGoal()(dimensions[goal]);
    assert success < |dimensions| ==> IsSuccess()(dimensions[success]);
  }

  /** Giving up delegates exactly what is unknown and leaves the other dimensions alone. */
  lemma ExhaustedIs(view: View)
    ensures var after := Exhausted(view);
      && after.status == Reviewing && after.hasBrief && after.pending == None && after.overall == Meter(after.dimensions)
      && |after.dimensions| == |view.dimensions|
      && forall i | 0 <= i < |view.dimensions| ::
           var d := view.dimensions[i];
           after.dimensions[i] == if d.status == Unknown then
             Dimension(d.id, d.weight, Delegated,
               "Clarification rounds exhausted; Minha used the safest repository-supported assumption.")
           else d
  {
    MappedAt(DelegatedIfUnknown, view.dimensions);
  }

  // ----- readings -----

  /** Every dimension that applies has the given status. */
  ghost predicate AllAre(dimensions: seq<Dimension>, status: DimensionStatus) {
    forall d | d in dimensions :: d.status == status || d.status == NotApplicable
  }

  lemma {:induction false} UniformSums(dimensions: seq<Dimension>, status: DimensionStatus)
    requires AllAre(dimensions, status) && status != NotApplicable
    ensures Uncertain(dimensions) * 4 == Possible(dimensions) * Factor(status)
  {
    if dimensions != [] {
      assert dimensions[0] in dimensions && forall d | d in dimensions[1..] :: d in dimensions;
      UniformSums(dimensions[1..], status);
      var w := dimensions[0].weight;
      assert dimensions[0].status == status ==> w * Factor(status) * 4 == w * 4 * Factor(status);
    }
  }

  /** The meter reads 100 when everything that applies is unknown, 50 when it is partial, 25 when it was
      inferred or delegated, and 0 when it is confirmed. */
  lemma UniformReading(dimensions: seq<Dimension>, status: DimensionStatus)
    requires AllAre(dimensions, status) && status != NotApplicable
    requires 0 < Possible(dimensions) && Possible(dimensions) * 100 <= U32_MAX
    ensures Meter(dimensions) == match status
      case Unknown => 100
      case Partial => 50
      case Inferred => 25
      case Delegated => 25
      case Confirmed => 0
  {
    UniformSums(dimensions, status);
    var k := 25 * Factor(status);
    assert Uncertain(dimensions) * 100 == k * Possible(dimensions);
    UncertainAtMostPossible(dimensions);
    CeilDivOfMultiple(k, Possible(dimensions));
  }

  /** Dimensions of equal weight are asked about in the order in which they are listed. */
  lemma UnresolvedKeepTies(view: View, d: Dimension)
    ensures Ties(HeavierFirst, d, UnresolvedDimensions(view)) == Ties(HeavierFirst, d, Unresolved(view.dimensions))
  {
    SortKeepsTies(HeavierFirst, d, Unresolved(view.dimensions));
  }
}
