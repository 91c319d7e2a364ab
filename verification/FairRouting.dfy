/** Equal-weight deficit round robin: which route is chosen, and how fair any run of choices is. */
module FairRouting {
  import opened Prelude
  import opened Ordering

  const I64_MAX: int := 0x7FFF_FFFF_FFFF_FFFF
  const I64_MIN: int := -0x8000_0000_0000_0000

  type I64 = i: int | I64_MIN <= i <= I64_MAX

  function Clamped(i: int): I64 {
    if i > I64_MAX then I64_MAX else if i < I64_MIN then I64_MIN else i
  }

  /** Credit given to every eligible route in every round. */
  const QUANTUM: U64 := 100_000

  datatype Candidate = Candidate(provider: string, model: string)

  datatype Ranked = Ranked(candidate: Candidate, deficitBefore: I64, credited: I64)

  datatype Selection = Selection(
    workspace: string, role: string, candidate: Candidate,
    quantum: U64, estimatedWork: U64, deficitBefore: I64, deficitAfter: I64)

  function Credited(deficit: I64): I64 {
    Clamped(deficit + Min(QUANTUM, I64_MAX))
  }

  function Rank(candidates: seq<(Candidate, I64)>): seq<Ranked> {
    seq(|candidates|, i requires 0 <= i < |candidates| =>
      Ranked(candidates[i].0, candidates[i].1, Credited(candidates[i].1)))
  }

  predicate CandidateLeq(a: Candidate, b: Candidate) {
    StringLeq(a.provider, b.provider) && (a.provider == b.provider ==> StringLeq(a.model, b.model))
  }

  /** Larger credit first, then provider and model in lexical order. */
  predicate RankLeq(a: Ranked, b: Ranked) {
    a.credited > b.credited || (a.credited == b.credited && CandidateLeq(a.candidate, b.candidate))
  }

  lemma RankOrder()
    ensures TotalPreorder(RankLeq)
    ensures forall a, b | RankLeq(a, b) && RankLeq(b, a) :: a.credited == b.credited && a.candidate == b.candidate
  {
    StringOrder();
  }

  function Choose(workspace: string, role: string, candidates: seq<(Candidate, I64)>, estimatedWork: U64)
    : Option<Selection>
  {
    var ranked := Sort(RankLeq, Rank(candidates));
    if ranked == [] then None
    else
      var selected, work := ranked[0], Min(estimatedWork, I64_MAX);
      Some(Selection(
        workspace, role, selected.candidate, QUANTUM, work,
        selected.deficitBefore, Clamped(selected.credited - work)))
  }

  /** The candidates are pairwise distinct, as the caller's deduplication makes them. */
  ghost predicate DistinctCandidates(candidates: seq<(Candidate, I64)>) {
    forall i, j | 0 <= i < j < |candidates| :: candidates[i].0 != candidates[j].0
  }

  lemma SortedHead(ranked: seq<Ranked>)
    requires ranked != []
    ensures Sort(RankLeq, ranked) != [] && Sort(RankLeq, ranked)[0] in ranked
    ensures forall r | r in ranked :: RankLeq(Sort(RankLeq, ranked)[0], r)
  {
    RankOrder();
    SortIsSorted(RankLeq, ranked);
    var sorted := Sort(RankLeq, ranked);
    SameMembers(sorted, ranked);
    assert sorted[0] in sorted;
    forall r | r in ranked
      ensures RankLeq(sorted[0], r)
    {
      var k :| 0 <= k < |sorted| && sorted[k] == r;
    }
  }

  /** Signed 64-bit arithmetic that stops at its ends; the quantum is a hundred thousand. */
  lemma SaturationIs(i: int, deficit: I64)
    ensures Clamped(i) == Max(-0x8000_0000_0000_0000, Min(i, 0x7FFF_FFFF_FFFF_FFFF))
    ensures Credited(deficit) == Min(deficit + 100_000, 0x7FFF_FFFF_FFFF_FFFF)
  {
  }

  /** By provider, and by model among those of the same provider. */
  predicate ComesFirst(a: Candidate, b: Candidate) {
    if a.provider != b.provider then StringLeq(a.provider, b.provider) else StringLeq(a.model, b.model)
  }

  /** The position of the chosen candidate: it has the largest credit, and among those of equal
      credit it comes first by provider and model. */
  lemma ChoiceIsBest(workspace: string, role: string, candidates: seq<(Candidate, I64)>, work: U64) returns (k: nat)
    requires candidates != []
    ensures k < |candidates|
    ensures Choose(workspace, role, candidates, work) == Some(Selection(
      workspace, role, candidates[k].0, 100_000, Min(work, I64_MAX),
      candidates[k].1, Clamped(Credited(candidates[k].1) - Min(work, I64_MAX))))
    ensures forall i | 0 <= i < |candidates| ::
      || Credited(candidates[i].1) < Credited(candidates[k].1)
      || (Credited(candidates[i].1) == Credited(candidates[k].1) && ComesFirst(candidates[k].0, candidates[i].0))
  {
    var ranked := Rank(candidates);
    SortedHead(ranked);
    var best := Sort(RankLeq, ranked)[0];
    k :| 0 <= k < |ranked| && ranked[k] == best;
    forall i | 0 <= i < |candidates|
      ensures
        || Credited(candidates[i].1) < Credited(candidates[k].1)
        || (Credited(candidates[i].1) == Credited(candidates[k].1) && ComesFirst(candidates[k].0, candidates[i].0))
    {
      assert ranked[i] in ranked;
      assert RankLeq(best, ranked[i]);
    }
  }

  /** The choice does not depend on the order in which distinct candidates are listed. */
  lemma ChoiceIgnoresOrder(
    workspace: string, role: string, a: seq<(Candidate, I64)>, b: seq<(Candidate, I64)>, work: U64)
    requires DistinctCandidates(a) && multiset(a) == multiset(b)
    ensures Choose(workspace, role, a, work) == Choose(workspace, role, b, work)
  {
    SameMembers(a, b);
    if a != [] {
      var i := ChoiceIsBest(workspace, role, a, work);
      var j := ChoiceIsBest(workspace, role, b, work);
      assert b[j] in b && b[j] in a;
      assert a[i] in a && a[i] in b;
      var i' :| 0 <= i' < |a| && a[i'] == b[j];
      var j' :| 0 <= j' < |b| && b[j'] == a[i];
      StringOrder();
      assert a[i].0 == b[j].0;
    }
  }

  // ----- waiting after failures -----

  const INITIAL_COOLDOWN: nat := 15
  const MAX_COOLDOWN: nat := 5 * 60

  function PowerOfTwo(n: nat): nat {
    if n == 0 then 1 else 2 * PowerOfTwo(n - 1)
  }

  /** Seconds to wait after a number of consecutive failures. */
  function CooldownSeconds(failures: nat): nat {
    Min(INITIAL_COOLDOWN * PowerOfTwo(Min(Max(failures - 1, 0), 5)), MAX_COOLDOWN)
  }

  /** The first failure waits for 15 seconds, and each further one twice as long as the one before,
      up to five minutes: capping the exponent never cuts the doubling short. */
  lemma CooldownDoubles(failures: nat)
    ensures failures <= 1 ==> CooldownSeconds(failures) == 15
    ensures failures >= 1 ==> CooldownSeconds(failures + 1) == Min(2 * CooldownSeconds(failures), 300)
  {
    assert PowerOfTwo(5) == 32 && PowerOfTwo(4) == 16;
    if failures == 4 || failures == 3 {
      assert PowerOfTwo(3) == 8 && PowerOfTwo(2) == 4;
    }
  }

  // ----- runs over a fixed set of routes -----

  /** A route with its deficit and the work it has been given so far. */
  datatype Route = Route(candidate: Candidate, deficit: I64, served: nat)

  function Candidates(routes: seq<Route>): seq<(Candidate, I64)> {
    seq(|routes|, i requires 0 <= i < |routes| => (routes[i].candidate, routes[i].deficit))
  }

  ghost predicate DistinctRoutes(routes: seq<Route>) {
    forall i, j | 0 <= i < j < |routes| :: routes[i].candidate != routes[j].candidate
  }

  /** The caller's round: credit every route, and store the selected route's debit. */
  function Round(routes: seq<Route>, work: U64): seq<Route> {
    var choice := Choose("", "", Candidates(routes), work);
    if choice.None? then routes
    else
      seq(|routes|, i requires 0 <= i < |routes| =>
        var r := routes[i];
        if r.candidate == choice.value.candidate
        then Route(r.candidate, choice.value.deficitAfter, r.served + choice.value.estimatedWork)
        else r.(deficit := Credited(r.deficit)))
  }

  function Run(routes: seq<Route>, works: seq<U64>): seq<Route>
    decreases |works|
  {
    if works == [] then routes else Run(Round(routes, works[0]), works[1..])
  }

  ghost predicate IsLargest(routes: seq<Route>, k: nat) {
    k < |routes| && forall i | 0 <= i < |routes| :: routes[i].deficit <= routes[k].deficit
  }

  /** The round saturates nothing: the work is a 64-bit signed number, every deficit has room for the
      quantum, and the largest one, which is debited, has room for the debit. */
  ghost predicate Unsaturated(routes: seq<Route>, work: U64) {
    && work <= I64_MAX
    && (forall i | 0 <= i < |routes| :: routes[i].deficit + QUANTUM <= I64_MAX)
    && (forall k: nat | IsLargest(routes, k) :: routes[k].deficit + QUANTUM - work >= I64_MIN)
  }

  ghost predicate UnsaturatedRun(routes: seq<Route>, works: seq<U64>)
    decreases |works|
  {
    works == [] || (Unsaturated(routes, works[0]) && UnsaturatedRun(Round(routes, works[0]), works[1..]))
  }

  /** No two deficits are further apart than `gap`. */
  ghost predicate GapWithin(routes: seq<Route>, gap: int) {
    forall i, j | 0 <= i < |routes| && 0 <= j < |routes| :: routes[i].deficit - routes[j].deficit <= gap
  }

  /** A round credits every route and debits one of largest credit, with saturating arithmetic. */
  lemma RoundDebitsBest(routes: seq<Route>, work: U64) returns (k: nat)
    requires routes != [] && DistinctRoutes(routes)
    ensures k < |routes| && forall i | 0 <= i < |routes| :: Credited(routes[i].deficit) <= Credited(routes[k].deficit)
    ensures |Round(routes, work)| == |routes|
    ensures forall i | 0 <= i < |routes| :: Round(routes, work)[i] == Route(
      routes[i].candidate,
      if i == k then Clamped(Credited(routes[i].deficit) - Min(work, I64_MAX)) else Credited(routes[i].deficit),
      routes[i].served + if i == k then Min(work, I64_MAX) else 0)
  {
    k := ChoiceIsBest("", "", Candidates(routes), work);
    forall i | 0 <= i < |routes|
      ensures Credited(routes[i].deficit) <= Credited(routes[k].deficit)
    {
      assert Candidates(routes)[i].1 == routes[i].deficit;
    }
  }

  /** One unsaturated round gives every route the quantum and takes the work from a route of largest deficit. */
  lemma RoundServesLargest(routes: seq<Route>, work: U64) returns (k: nat)
    requires routes != [] && DistinctRoutes(routes) && Unsaturated(routes, work)
    ensures IsLargest(routes, k)
    ensures |Round(routes, work)| == |routes|
    ensures forall i | 0 <= i < |routes| :: Round(routes, work)[i] == Route(
      routes[i].candidate,
      routes[i].deficit + QUANTUM - if i == k then work else 0,
      routes[i].served + if i == k then work else 0)
  {
    k := RoundDebitsBest(routes, work);
  }

  lemma CreditedGap(a: I64, b: I64, gap: int)
    requires a - b <= gap && 0 <= gap
    ensures Credited(a) - Credited(b) <= gap
  {
  }

  /** The bound holds even where a credit or the debit saturates. */
  lemma RoundKeepsGap(routes: seq<Route>, work: U64, gap: int)
    requires DistinctRoutes(routes) && GapWithin(routes, gap) && work <= gap
    ensures GapWithin(Round(routes, work), gap) && DistinctRoutes(Round(routes, work))
  {
    if routes != [] {
      var k := RoundDebitsBest(routes, work);
      var after := Round(routes, work);
      forall i, j | 0 <= i < |after| && 0 <= j < |after|
        ensures after[i].deficit - after[j].deficit <= gap
      {
        CreditedGap(routes[i].deficit, routes[j].deficit, gap);
      }
    }
  }

  /** Bounded unfairness: over any run, no gap between two deficits exceeds the larger of the initial gap
      and the largest estimate. */
  lemma {:induction false} GapStaysBounded(routes: seq<Route>, works: seq<U64>, gap: int)
    requires DistinctRoutes(routes)
    requires GapWithin(routes, gap) && forall w | w in works :: w <= gap
    ensures GapWithin(Run(routes, works), gap) && DistinctRoutes(Run(routes, works))
    decreases |works|
  {
    if works != [] {
      assert works[0] in works && forall w | w in works[1..] :: w in works;
      RoundKeepsGap(routes, works[0], gap);
      GapStaysBounded(Round(routes, works[0]), works[1..], gap);
    }
  }

  function Total(works: seq<U64>): nat {
    if works == [] then 0 else works[0] + Total(works[1..])
  }

  ghost predicate DeficitsWithin(routes: seq<Route>, bound: nat) {
    forall i | 0 <= i < |routes| :: 0 <= routes[i].deficit + bound && routes[i].deficit <= bound
  }

  /** A bound that can be checked before the run: deficits that leave room for every quantum and all
      the work together are never saturated. */
  lemma {:induction false} RoomyRunIsUnsaturated(routes: seq<Route>, works: seq<U64>, bound: nat)
    requires DistinctRoutes(routes) && DeficitsWithin(routes, bound)
    requires bound + |works| * QUANTUM + Total(works) <= I64_MAX
    ensures UnsaturatedRun(routes, works)
    decreases |works|
  {
    if works != [] {
      var work, rest := works[0], works[1..];
      assert |works| * QUANTUM == QUANTUM + |rest| * QUANTUM;
      assert Unsaturated(routes, work);
      var next := Round(routes, work);
      if routes != [] {
        var k := RoundServesLargest(routes, work);
      }
      RoomyRunIsUnsaturated(next, rest, bound + QUANTUM + work);
    }
  }

  function Served(routes: seq<Route>): nat {
    if routes == [] then 0 else routes[0].served + Served(routes[1..])
  }

  lemma {:induction false} ServedChange(before: seq<Route>, after: seq<Route>, k: nat, work: nat)
    requires |before| == |after|
    requires forall i | 0 <= i < |before| :: after[i].served == before[i].served + if i == k then work else 0
    ensures Served(after) == Served(before) + if k < |before| then work else 0
    decreases |before|
  {
    if before != [] {
      ServedChange(before[1..], after[1..], if k == 0 then |before| else k - 1, work);
    }
  }

  /** Deficits account for the work: each equals its start plus one quantum a round, less what the
      route was served; and all the work was served. */
  lemma {:induction false} DeficitsAccount(routes: seq<Route>, works: seq<U64>)
    requires routes != [] && DistinctRoutes(routes) && UnsaturatedRun(routes, works)
    ensures |Run(routes, works)| == |routes|
    ensures forall i | 0 <= i < |routes| ::
      Run(routes, works)[i].deficit + Run(routes, works)[i].served ==
      routes[i].deficit + routes[i].served + |works| * QUANTUM
    ensures Served(Run(routes, works)) == Served(routes) + Total(works)
    decreases |works|
  {
    if works != [] {
      var k := RoundServesLargest(routes, works[0]);
      var next := Round(routes, works[0]);
      ServedChange(routes, next, k, works[0]);
      DeficitsAccount(next, works[1..]);
    }
  }

  lemma {:induction false} ServedAtMost(routes: seq<Route>, bound: nat)
    requires forall i | 0 <= i < |routes| :: routes[i].served <= bound
    ensures Served(routes) <= |routes| * bound
  {
    if routes != [] {
      ServedAtMost(routes[1..], bound);
    }
  }

  /** Routes that start level have been served amounts that differ by at most the largest estimate. */
  lemma LevelService(routes: seq<Route>, works: seq<U64>, largest: nat, i: nat, j: nat)
    requires DistinctRoutes(routes) && UnsaturatedRun(routes, works) && i < |routes| && j < |routes|
    requires GapWithin(routes, 0) && routes[i].served == routes[j].served == 0
    requires forall w | w in works :: w <= largest
    ensures |Run(routes, works)| == |routes|
    ensures Run(routes, works)[i].served - Run(routes, works)[j].served <= largest
  {
    GapStaysBounded(routes, works, largest);
    DeficitsAccount(routes, works);
    var after := Run(routes, works);
    assert routes[i].deficit - routes[j].deficit <= 0 && routes[j].deficit - routes[i].deficit <= 0;
    assert after[j].deficit - after[i].deficit <= largest;
  }

  /** No route was served more than the i-th by more than this. */
  ghost predicate IsServedMost(routes: seq<Route>, i: nat, margin: nat)
    requires i < |routes|
  {
    forall j | 0 <= j < |routes| :: routes[j].served <= routes[i].served + margin
  }

  lemma NobodyServedMore(routes: seq<Route>, works: seq<U64>, largest: nat, i: nat)
    requires DistinctRoutes(routes) && UnsaturatedRun(routes, works) && i < |routes|
    requires GapWithin(routes, 0) && (forall j | 0 <= j < |routes| :: routes[j].served == 0)
    requires forall w | w in works :: w <= largest
    ensures |Run(routes, works)| == |routes| && IsServedMost(Run(routes, works), i, largest)
  {
    LevelService(routes, works, largest, i, i);
    forall j | 0 <= j < |routes|
      ensures Run(routes, works)[j].served <= Run(routes, works)[i].served + largest
    {
      LevelService(routes, works, largest, j, i);
    }
  }

  lemma AllIsServed(routes: seq<Route>, works: seq<U64>)
    requires routes != [] && DistinctRoutes(routes) && UnsaturatedRun(routes, works)
    requires forall j | 0 <= j < |routes| :: routes[j].served == 0
    ensures Served(Run(routes, works)) == Total(works)
  {
    DeficitsAccount(routes, works);
    ServedAtMost(routes, 0);
    assert |routes| * 0 == 0;
  }

  lemma ServedEvenly(routes: seq<Route>, works: seq<U64>, largest: nat, i: nat)
    returns (after: seq<Route>, part: nat)
    requires DistinctRoutes(routes) && UnsaturatedRun(routes, works) && i < |routes|
    requires GapWithin(routes, 0) && (forall j | 0 <= j < |routes| :: routes[j].served == 0)
    requires forall w | w in works :: w <= largest
    ensures after == Run(routes, works) && |after| == |routes| && Served(after) == Total(works)
    ensures part == after[i].served + largest && forall j | 0 <= j < |after| :: after[j].served <= part
  {
    after := Run(routes, works);
    NobodyServedMore(routes, works, largest, i);
    part := after[i].served + largest;
    AllIsServed(routes, works);
  }

  /** Each of `n` such routes has at least the n-th part of all the work, less the largest estimate. */
  lemma EqualShares(routes: seq<Route>, works: seq<U64>, largest: nat, i: nat)
    requires DistinctRoutes(routes) && UnsaturatedRun(routes, works) && i < |routes|
    requires GapWithin(routes, 0) && (forall j | 0 <= j < |routes| :: routes[j].served == 0)
    requires forall w | w in works :: w <= largest
    ensures |Run(routes, works)| == |routes|
    ensures Total(works) <= |routes| * (Run(routes, works)[i].served + largest)
  {
    var after, part := ServedEvenly(routes, works, largest, i);
    ServedAtMost(after, part);
  }
}
