/** The token ledger: reservations against limits, in saturating 64-bit arithmetic. */
module UsageLedger {
  import opened Prelude
  import opened Sequences

  datatype TokenUsage = TokenUsage(
    input: U64, output: U64, cachedInput: U64, cacheWrite: U64, reasoningOutput: U64)
  {
    function Total(): U64 {
      SaturatingAdd(input, output)
    }
  }

  const NO_USAGE := TokenUsage(0, 0, 0, 0, 0)

  datatype UsageLimit = UsageLimit(input: U64, output: U64, total: U64)

  datatype UsageSnapshot = UsageSnapshot(used: TokenUsage, reserved: TokenUsage, limit: UsageLimit) {
    function Remaining(): TokenUsage {
      TokenUsage(
        SaturatingSub(SaturatingSub(limit.input, used.input), reserved.input),
        SaturatingSub(SaturatingSub(limit.output, used.output), reserved.output),
        0, 0, 0)
    }
  }

  datatype ReserveDecision = Allowed(remaining: TokenUsage) | Denied(remaining: TokenUsage)

  // ----- the three operations -----

  predicate MayReserve(s: UsageSnapshot, estimate: TokenUsage) {
    && estimate.input <= s.Remaining().input
    && estimate.output <= s.Remaining().output
    && estimate.Total() <= SaturatingSub(SaturatingSub(s.limit.total, s.used.Total()), s.reserved.Total())
  }

  /** An allowed reservation never overflows the unchecked additions, in any state. */
  lemma ReserveNeverOverflows(s: UsageSnapshot, estimate: TokenUsage)
    requires MayReserve(s, estimate)
    ensures s.reserved.input + estimate.input <= U64_MAX
    ensures s.reserved.output + estimate.output <= U64_MAX
  {
  }

  function Reserved(s: UsageSnapshot, estimate: TokenUsage): UsageSnapshot
    requires MayReserve(s, estimate)
  {
    s.(reserved := s.reserved.(input := s.reserved.input + estimate.input, output := s.reserved.output + estimate.output))
  }

  function Released(s: UsageSnapshot, reserved: TokenUsage): UsageSnapshot {
    s.(reserved := s.reserved.(
         input := SaturatingSub(s.reserved.input, reserved.input),
         output := SaturatingSub(s.reserved.output, reserved.output)))
  }

  function Spent(used: TokenUsage, actual: TokenUsage): TokenUsage {
    TokenUsage(
      SaturatingAdd(used.input, actual.input), SaturatingAdd(used.output, actual.output),
      SaturatingAdd(used.cachedInput, actual.cachedInput), SaturatingAdd(used.cacheWrite, actual.cacheWrite),
      SaturatingAdd(used.reasoningOutput, actual.reasoningOutput))
  }

  function Committed(s: UsageSnapshot, reserved: TokenUsage, actual: TokenUsage): UsageSnapshot {
    Released(s, reserved).(used := Spent(s.used, actual))
  }

  class UsageLedger {
    var snapshot: UsageSnapshot

    constructor (limit: UsageLimit)
      ensures snapshot == UsageSnapshot(NO_USAGE, NO_USAGE, limit)
    {
      snapshot := UsageSnapshot(NO_USAGE, NO_USAGE, limit);
    }

    method Reserve(estimate: TokenUsage) returns (decision: ReserveDecision)
      modifies this
      ensures MayReserve(old(snapshot), estimate) ==>
        snapshot == Reserved(old(snapshot), estimate) && decision == Allowed(snapshot.Remaining())
      ensures !MayReserve(old(snapshot), estimate) ==>
        snapshot == old(snapshot) && decision == Denied(snapshot.Remaining())
    {
      var remaining := snapshot.Remaining();
      if estimate.input <= remaining.input && estimate.output <= remaining.output
         && estimate.Total() <=
            SaturatingSub(SaturatingSub(snapshot.limit.total, snapshot.used.Total()), snapshot.reserved.Total())
      {
        ReserveNeverOverflows(snapshot, estimate);
        var reserved := snapshot.reserved;
        snapshot := snapshot.(reserved := reserved.(input := reserved.input + estimate.input,
                                                    output := reserved.output + estimate.output));
        return Allowed(snapshot.Remaining());
      }
      return Denied(remaining);
    }

    method Commit(reserved: TokenUsage, actual: TokenUsage)
      modifies this
      ensures snapshot == Committed(old(snapshot), reserved, actual)
    {
      Release(reserved);
      snapshot := snapshot.(used := Spent(snapshot.used, actual));
    }

    method Release(reserved: TokenUsage)
      modifies this
      ensures snapshot == Released(old(snapshot), reserved)
    {
      var left := snapshot.reserved;
      snapshot := snapshot.(reserved := left.(input := SaturatingSub(left.input, reserved.input),
                                              output := SaturatingSub(left.output, reserved.output)));
    }
  }

  // ----- runs in which every reservation is returned at most once -----

  datatype Op =
    | OpReserve(estimate: TokenUsage)
    | OpCommit(index: nat, actual: TokenUsage)
    | OpRelease(index: nat)

  /** The ledger and the reservations that have been granted but not yet returned. */
  datatype State = State(snapshot: UsageSnapshot, outstanding: seq<TokenUsage>)

  function Start(limit: UsageLimit): State {
    State(UsageSnapshot(NO_USAGE, NO_USAGE, limit), [])
  }

  /** A commit or release returns an outstanding reservation, and actual use stays within it. */
  predicate Disciplined(s: State, op: Op) {
    match op
    case OpReserve(_) => true
    case OpCommit(i, actual) =>
      i < |s.outstanding| && actual.input <= s.outstanding[i].input && actual.output <= s.outstanding[i].output
    case OpRelease(i) => i < |s.outstanding|
  }

  function Step(s: State, op: Op): State
    requires Disciplined(s, op)
  {
    match op
    case OpReserve(estimate) =>
      if MayReserve(s.snapshot, estimate) then State(Reserved(s.snapshot, estimate), s.outstanding + [estimate]) else s
    case OpCommit(i, actual) =>
      State(Committed(s.snapshot, s.outstanding[i], actual), RemoveAt(s.outstanding, i))
    case OpRelease(i) =>
      State(Released(s.snapshot, s.outstanding[i]), RemoveAt(s.outstanding, i))
  }

  predicate DisciplinedRun(s: State, ops: seq<Op>)
    decreases |ops|
  {
    ops == [] || (Disciplined(s, ops[0]) && DisciplinedRun(Step(s, ops[0]), ops[1..]))
  }

  function Run(s: State, ops: seq<Op>): State
    requires DisciplinedRun(s, ops)
    decreases |ops|
  {
    if ops == [] then s else Run(Step(s, ops[0]), ops[1..])
  }

  function SumInput(outstanding: seq<TokenUsage>): nat {
    if outstanding == [] then 0 else outstanding[0].input + SumInput(outstanding[1..])
  }

  function SumOutput(outstanding: seq<TokenUsage>): nat {
    if outstanding == [] then 0 else outstanding[0].output + SumOutput(outstanding[1..])
  }

  /** What is used and reserved together, without saturation. */
  function Held(s: UsageSnapshot): nat {
    s.used.input + s.used.output + s.reserved.input + s.reserved.output
  }

  ghost predicate Inv(s: State) {
    && s.snapshot.reserved.input == SumInput(s.outstanding)
    && s.snapshot.reserved.output == SumOutput(s.outstanding)
    && s.snapshot.used.input + s.snapshot.reserved.input <= s.snapshot.limit.input
    && s.snapshot.used.output + s.snapshot.reserved.output <= s.snapshot.limit.output
  }

  ghost predicate WithinTotal(s: UsageSnapshot) {
    Held(s) <= s.limit.total
  }

  /** The limits under which the saturating check of the total is exact: the total is below the
      64-bit maximum, or the two other limits already bound it. */
  predicate TotalIsChecked(limit: UsageLimit) {
    limit.total < U64_MAX || limit.input + limit.output <= U64_MAX
  }

  lemma {:induction false} SumAppend(outstanding: seq<TokenUsage>, e: TokenUsage)
    ensures SumInput(outstanding + [e]) == SumInput(outstanding) + e.input
    ensures SumOutput(outstanding + [e]) == SumOutput(outstanding) + e.output
  {
    if outstanding == [] {
      assert outstanding + [e] == [e];
    } else {
      SumAppend(outstanding[1..], e);
      assert (outstanding + [e])[1..] == outstanding[1..] + [e];
    }
  }

  lemma {:induction false} SumReturned(outstanding: seq<TokenUsage>, i: nat)
    requires i < |outstanding|
    ensures SumInput(RemoveAt(outstanding, i)) == SumInput(outstanding) - outstanding[i].input
    ensures SumOutput(RemoveAt(outstanding, i)) == SumOutput(outstanding) - outstanding[i].output
  {
    if i == 0 {
      RemovedHead(outstanding);
    } else {
      SumReturned(outstanding[1..], i - 1);
      RemovedBehindHead(outstanding, i);
    }
  }

  lemma StepKeepsInv(s: State, op: Op)
    requires Inv(s) && Disciplined(s, op)
    ensures Inv(Step(s, op)) && Step(s, op).snapshot.limit == s.snapshot.limit
    ensures TotalIsChecked(s.snapshot.limit) && WithinTotal(s.snapshot) ==> WithinTotal(Step(s, op).snapshot)
  {
    match op
    case OpReserve(estimate) => SumAppend(s.outstanding, estimate);
    case OpCommit(i, _) => SumReturned(s.outstanding, i);
    case OpRelease(i) => SumReturned(s.outstanding, i);
  }

  lemma {:induction false} RunKeepsInv(s: State, ops: seq<Op>)
    requires Inv(s) && DisciplinedRun(s, ops)
    ensures Inv(Run(s, ops)) && Run(s, ops).snapshot.limit == s.snapshot.limit
    ensures TotalIsChecked(s.snapshot.limit) && WithinTotal(s.snapshot) ==> WithinTotal(Run(s, ops).snapshot)
    decreases |ops|
  {
    if ops != [] {
      StepKeepsInv(s, ops[0]);
      RunKeepsInv(Step(s, ops[0]), ops[1..]);
    }
  }

  /** Over every disciplined run, what is reserved is the sum of the outstanding reservations, and
      use plus reservations stay within the input and output limits. */
  lemma ReservationsAddUp(limit: UsageLimit, ops: seq<Op>)
    requires DisciplinedRun(Start(limit), ops)
    ensures Inv(Run(Start(limit), ops))
  {
    RunKeepsInv(Start(limit), ops);
  }

  /** The total limit is kept over all disciplined runs exactly when its check does not saturate away. */
  lemma TotalLimitIsKeptIff(limit: UsageLimit)
    ensures TotalIsChecked(limit) <==>
      forall ops | DisciplinedRun(Start(limit), ops) :: WithinTotal(Run(Start(limit), ops).snapshot)
  {
    if TotalIsChecked(limit) {
      forall ops | DisciplinedRun(Start(limit), ops)
        ensures WithinTotal(Run(Start(limit), ops).snapshot)
      {
        RunKeepsInv(Start(limit), ops);
      }
    } else {
      var all := OpReserve(TokenUsage(limit.input, limit.output, 0, 0, 0));
      assert DisciplinedRun(Step(Start(limit), all), []);
      assert DisciplinedRun(Start(limit), [all]);
      assert Run(Start(limit), [all]) == Run(Step(Start(limit), all), []);
      assert !WithinTotal(Run(Start(limit), [all]).snapshot);
    }
  }

  // ----- what was spent -----

  /** The actual amounts of the commits of a run, in order. */
  function ActualAmounts(ops: seq<Op>): seq<TokenUsage> {
    if ops == [] then []
    else (if ops[0].OpCommit? then [ops[0].actual] else []) + ActualAmounts(ops[1..])
  }

  function SumBy(count: TokenUsage -> nat, amounts: seq<TokenUsage>): nat {
    if amounts == [] then 0 else count(amounts[0]) + SumBy(count, amounts[1..])
  }

  const CACHED: TokenUsage -> nat := (u: TokenUsage) => u.cachedInput
  const WRITTEN: TokenUsage -> nat := (u: TokenUsage) => u.cacheWrite
  const REASONING: TokenUsage -> nat := (u: TokenUsage) => u.reasoningOutput

  /** Input and output counts are the sums of the amounts; the other counts are their sums as far as 64 bits go. */
  ghost predicate Records(used: TokenUsage, amounts: seq<TokenUsage>) {
    && used.input == SumInput(amounts) && used.output == SumOutput(amounts)
    && used.cachedInput == Min(SumBy(CACHED, amounts), U64_MAX)
    && used.cacheWrite == Min(SumBy(WRITTEN, amounts), U64_MAX)
    && used.reasoningOutput == Min(SumBy(REASONING, amounts), U64_MAX)
  }

  lemma {:induction false} SumByAppend(count: TokenUsage -> nat, amounts: seq<TokenUsage>, e: TokenUsage)
    ensures SumBy(count, amounts + [e]) == SumBy(count, amounts) + count(e)
  {
    if amounts == [] {
      assert amounts + [e] == [e];
    } else {
      SumByAppend(count, amounts[1..], e);
      assert (amounts + [e])[1..] == amounts[1..] + [e];
    }
  }

  lemma {:induction false} MemberAtMostSum(outstanding: seq<TokenUsage>, i: nat)
    requires i < |outstanding|
    ensures outstanding[i].input <= SumInput(outstanding) && outstanding[i].output <= SumOutput(outstanding)
  {
    if i > 0 {
      MemberAtMostSum(outstanding[1..], i - 1);
    }
  }

  lemma StepRecords(s: State, op: Op, amounts: seq<TokenUsage>)
    requires Inv(s) && Disciplined(s, op) && Records(s.snapshot.used, amounts)
    ensures Records(Step(s, op).snapshot.used, amounts + if op.OpCommit? then [op.actual] else [])
  {
    if op.OpCommit? {
      MemberAtMostSum(s.outstanding, op.index);
      SumAppend(amounts, op.actual);
      SumByAppend(CACHED, amounts, op.actual);
      SumByAppend(WRITTEN, amounts, op.actual);
      SumByAppend(REASONING, amounts, op.actual);
    } else {
      assert amounts + [] == amounts;
    }
  }

  lemma {:induction false} RunRecords(s: State, ops: seq<Op>, amounts: seq<TokenUsage>)
    requires Inv(s) && DisciplinedRun(s, ops) && Records(s.snapshot.used, amounts)
    ensures Records(Run(s, ops).snapshot.used, amounts + ActualAmounts(ops))
    decreases |ops|
  {
    if ops == [] {
      assert amounts + [] == amounts;
    } else {
      var own := if ops[0].OpCommit? then [ops[0].actual] else [];
      StepKeepsInv(s, ops[0]);
      StepRecords(s, ops[0], amounts);
      RunRecords(Step(s, ops[0]), ops[1..], amounts + own);
      assert amounts + own + ActualAmounts(ops[1..]) == amounts + (own + ActualAmounts(ops[1..]));
    }
  }

  /** Over every disciplined run, what counts as used is what the commits say was used. */
  lemma UseIsRecorded(limit: UsageLimit, ops: seq<Op>)
    requires DisciplinedRun(Start(limit), ops)
    ensures Records(Run(Start(limit), ops).snapshot.used, ActualAmounts(ops))
  {
    RunRecords(Start(limit), ops, []);
    assert [] + ActualAmounts(ops) == ActualAmounts(ops);
  }

  /** What is reported to remain is the limit less what was used and what is outstanding. */
  lemma RemainingIsLeft(limit: UsageLimit, ops: seq<Op>)
    requires DisciplinedRun(Start(limit), ops)
    ensures var s, spent := Run(Start(limit), ops), ActualAmounts(ops);
      && s.snapshot.Remaining().input == limit.input - SumInput(spent) - SumInput(s.outstanding)
      && s.snapshot.Remaining().output == limit.output - SumOutput(spent) - SumOutput(s.outstanding)
      && s.snapshot.Remaining().cachedInput == s.snapshot.Remaining().cacheWrite == s.snapshot.Remaining().reasoningOutput == 0
  {
    RunKeepsInv(Start(limit), ops);
    UseIsRecorded(limit, ops);
  }

  /** In every state of such a run, a reservation is allowed exactly when, together with what was used and
      what is outstanding, it fits under all three limits. */
  lemma AllowedIffItFits(limit: UsageLimit, ops: seq<Op>, estimate: TokenUsage)
    requires TotalIsChecked(limit) && DisciplinedRun(Start(limit), ops)
    ensures var s, spent := Run(Start(limit), ops), ActualAmounts(ops);
      var input := SumInput(spent) + SumInput(s.outstanding) + estimate.input;
      var output := SumOutput(spent) + SumOutput(s.outstanding) + estimate.output;
      MayReserve(s.snapshot, estimate) <==> input <= limit.input && output <= limit.output && input + output <= limit.total
  {
    RunKeepsInv(Start(limit), ops);
    UseIsRecorded(limit, ops);
    FitsInState(Run(Start(limit), ops).snapshot, estimate);
  }

  lemma FitsInState(s: UsageSnapshot, estimate: TokenUsage)
    requires TotalIsChecked(s.limit) && WithinTotal(s)
    requires s.used.input + s.reserved.input <= s.limit.input && s.used.output + s.reserved.output <= s.limit.output
    ensures MayReserve(s, estimate) <==>
      && s.used.input + s.reserved.input + estimate.input <= s.limit.input
      && s.used.output + s.reserved.output + estimate.output <= s.limit.output
      && Held(s) + estimate.input + estimate.output <= s.limit.total
  {
  }
}
