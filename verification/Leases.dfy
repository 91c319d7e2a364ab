/** The lease table: exclusive, expiring, generation-fenced tenures on nodes. */
module Leases {
  import opened Prelude
  import opened TaskGraph

  /** A point in time; only the order of instants matters here. */
  type Instant = int

  datatype Lease = Lease(id: string, node: NodeId, holder: AgentId, generation: nat, expiresAt: Instant)

  datatype LeaseError = NotFound | Expired | Fenced

  predicate IsExpired(lease: Lease, now: Instant) {
    lease.expiresAt <= now
  }

  // ----- specification on values -----

  function Validated(leases: map<NodeId, Lease>, node: NodeId, holder: AgentId, generation: nat, now: Instant)
    : Result<Lease, LeaseError>
  {
    if node !in leases then Err(NotFound)
    else if IsExpired(leases[node], now) then Err(Expired)
    else if leases[node].holder != holder || leases[node].generation != generation then Err(Fenced)
    else Ok(leases[node])
  }

  predicate Grantable(leases: map<NodeId, Lease>, lease: Lease, now: Instant) {
    lease.node in leases ==> IsExpired(leases[lease.node], now)
  }

  class LeaseTable {
    var leases: map<NodeId, Lease>

    constructor ()
      ensures leases == map[]
    {
      leases := map[];
    }

    method Acquire(lease: Lease, now: Instant) returns (r: Result<(), LeaseError>)
      modifies this
      ensures Grantable(old(leases), lease, now) ==> r == Ok(()) && leases == old(leases)[lease.node := lease]
      ensures !Grantable(old(leases), lease, now) ==> r == Err(Fenced) && leases == old(leases)
    {
      if lease.node in leases && !IsExpired(leases[lease.node], now) {
        return Err(Fenced);
      }
      leases := leases[lease.node := lease];
      return Ok(());
    }

    method Validate(node: NodeId, holder: AgentId, generation: nat, now: Instant) returns (r: Result<Lease, LeaseError>)
      ensures r == Validated(leases, node, holder, generation, now)
    {
      if node !in leases {
        return Err(NotFound);
      }
      var lease := leases[node];
      if IsExpired(lease, now) {
        return Err(Expired);
      }
      if lease.holder != holder || lease.generation != generation {
        return Err(Fenced);
      }
      return Ok(lease);
    }

    method Release(node: NodeId, holder: AgentId, generation: nat, now: Instant) returns (r: Result<Lease, LeaseError>)
      modifies this
      ensures r == Validated(old(leases), node, holder, generation, now)
      ensures leases == if r.Ok? then old(leases) - {node} else old(leases)
    {
      r := Validate(node, holder, generation, now);
      if r.Ok? {
        leases := leases - {node};
      }
    }
  }

  // ----- runs, with the tenures they grant -----

  datatype Event =
    | EvAcquire(lease: Lease, at: Instant)
    | EvRelease(node: NodeId, holder: AgentId, generation: nat, at: Instant)

  /** One granted lease: when it was acquired and when, if ever, it was released. */
  datatype Tenure = Tenure(lease: Lease, start: Instant, released: Option<Instant>) {
    /** A tenure lasts from `start` to the earlier of its release and its expiry. */
    function End(): Instant {
      if released.Some? then Min(released.value, lease.expiresAt) else lease.expiresAt
    }

    predicate Covers(now: Instant) {
      start <= now < End()
    }
  }

  /** The table, and for every node the tenures granted on it, oldest first. */
  datatype State = State(leases: map<NodeId, Lease>, tenures: map<NodeId, seq<Tenure>>)

  function TenuresOf(s: State, node: NodeId): seq<Tenure> {
    if node in s.tenures then s.tenures[node] else []
  }

  function EndLast(h: seq<Tenure>, now: Instant): seq<Tenure> {
    if h == [] then [] else h[|h| - 1 := h[|h| - 1].(released := Some(now))]
  }

  function Step(s: State, e: Event): State {
    match e
    case EvAcquire(lease, at) =>
      if Grantable(s.leases, lease, at) then
        State(s.leases[lease.node := lease],
              s.tenures[lease.node := TenuresOf(s, lease.node) + [Tenure(lease, at, None)]])
      else s
    case EvRelease(node, holder, generation, at) =>
      if Validated(s.leases, node, holder, generation, at).Ok? then
        State(s.leases - {node}, s.tenures[node := EndLast(TenuresOf(s, node), at)])
      else s
  }

  function Run(s: State, events: seq<Event>): State
    decreases |events|
  {
    if events == [] then s else Run(Step(s, events[0]), events[1..])
  }

  const EMPTY: State := State(map[], map[])

  /** Event times never decrease, starting from `clock`. */
  ghost predicate Timed(clock: Instant, events: seq<Event>)
    decreases |events|
  {
    events == [] || (clock <= events[0].at && Timed(events[0].at, events[1..]))
  }

  function ClockAfter(clock: Instant, events: seq<Event>): Instant {
    if events == [] then clock else events[|events| - 1].at
  }

  ghost predicate Disjoint(h: seq<Tenure>) {
    forall i, j | 0 <= i < j < |h| :: h[i].End() <= h[j].start
  }

  /** What the run keeps on each node: the tenures are disjoint and have begun, the entry of the
      table is the last one if it was not released, and every other tenure is over. */
  ghost predicate NodeInv(s: State, node: NodeId, clock: Instant) {
    var h := TenuresOf(s, node);
    && Disjoint(h)
    && (forall k | 0 <= k < |h| :: h[k].start <= clock && h[k].lease.node == node)
    && (forall k | 0 <= k < |h| - 1 :: h[k].End() <= clock)
    && (node in s.leases ==> h != [] && h[|h| - 1].lease == s.leases[node] && h[|h| - 1].released == None)
    && (node !in s.leases && h != [] ==> h[|h| - 1].released.Some? && h[|h| - 1].End() <= clock)
  }

  ghost predicate Inv(s: State, clock: Instant) {
    forall node :: NodeInv(s, node, clock)
  }

  lemma AcquireKeepsInv(s: State, lease: Lease, at: Instant, clock: Instant)
    requires NodeInv(s, lease.node, clock) && clock <= at && Grantable(s.leases, lease, at)
    ensures NodeInv(Step(s, EvAcquire(lease, at)), lease.node, at)
  {
    var h := TenuresOf(s, lease.node);
    var h' := h + [Tenure(lease, at, None)];
    assert TenuresOf(Step(s, EvAcquire(lease, at)), lease.node) == h';
    assert forall k | 0 <= k < |h| :: h'[k] == h[k] && h[k].End() <= at;
  }

  lemma ReleaseKeepsInv(s: State, e: Event, clock: Instant)
    requires e.EvRelease? && NodeInv(s, e.node, clock) && clock <= e.at
    requires Validated(s.leases, e.node, e.holder, e.generation, e.at).Ok?
    ensures NodeInv(Step(s, e), e.node, e.at)
  {
    var h := TenuresOf(s, e.node);
    var h' := EndLast(h, e.at);
    assert TenuresOf(Step(s, e), e.node) == h';
    assert forall k | 0 <= k < |h| - 1 :: h'[k] == h[k];
    assert h'[|h| - 1].start == h[|h| - 1].start && h'[|h| - 1].End() <= e.at;
  }

  lemma StepKeepsInv(s: State, e: Event, clock: Instant)
    requires Inv(s, clock) && clock <= e.at
    ensures Inv(Step(s, e), e.at)
  {
    forall node
      ensures NodeInv(Step(s, e), node, e.at)
    {
      assert NodeInv(s, node, clock);
      match e
      case EvAcquire(lease, at) =>
        if Grantable(s.leases, lease, at) && node == lease.node {
          AcquireKeepsInv(s, lease, at, clock);
        } else {
          UntouchedKeepsInv(s, Step(s, e), node, clock, at);
        }
      case EvRelease(n, holder, generation, at) =>
        if Validated(s.leases, n, holder, generation, at).Ok? && node == n {
          ReleaseKeepsInv(s, e, clock);
        } else {
          UntouchedKeepsInv(s, Step(s, e), node, clock, at);
        }
    }
  }

  lemma UntouchedKeepsInv(s: State, s': State, node: NodeId, clock: Instant, at: Instant)
    requires NodeInv(s, node, clock) && clock <= at
    requires TenuresOf(s', node) == TenuresOf(s, node)
    requires (node in s'.leases <==> node in s.leases) && (node in s.leases ==> s'.leases[node] == s.leases[node])
    ensures NodeInv(s', node, at)
  {
  }

  lemma {:induction false} RunKeepsInv(s: State, events: seq<Event>, clock: Instant)
    requires Inv(s, clock) && Timed(clock, events)
    ensures Inv(Run(s, events), ClockAfter(clock, events))
    decreases |events|
  {
    if events != [] {
      StepKeepsInv(s, events[0], clock);
      RunKeepsInv(Step(s, events[0]), events[1..], events[0].at);
    }
  }

  /** Over any run with nondecreasing times, the tenures granted on one node never overlap. */
  lemma TenuresNeverOverlap(clock: Instant, events: seq<Event>, node: NodeId)
    requires Timed(clock, events)
    ensures Disjoint(TenuresOf(Run(EMPTY, events), node))
    ensures forall now, i, j |
      0 <= i < |TenuresOf(Run(EMPTY, events), node)| && 0 <= j < |TenuresOf(Run(EMPTY, events), node)| &&
      TenuresOf(Run(EMPTY, events), node)[i].Covers(now) && TenuresOf(Run(EMPTY, events), node)[j].Covers(now) :: i == j
  {
    RunKeepsInv(EMPTY, events, clock);
    assert NodeInv(Run(EMPTY, events), node, ClockAfter(clock, events));
  }

  /** The tenure that covers a moment from the clock on, if any, is that of the unexpired table entry. */
  lemma CoveringIsEntry(s: State, node: NodeId, clock: Instant, now: Instant)
    requires NodeInv(s, node, clock) && clock <= now
    ensures forall t | t in TenuresOf(s, node) && t.Covers(now) :: node in s.leases && t.lease == s.leases[node]
    ensures node in s.leases && !IsExpired(s.leases[node], now) ==>
      exists t :: t in TenuresOf(s, node) && t.Covers(now) && t.lease == s.leases[node]
    ensures node in s.leases && IsExpired(s.leases[node], now) ==> forall t | t in TenuresOf(s, node) :: !t.Covers(now)
  {
    var h := TenuresOf(s, node);
    forall t | t in h && t.Covers(now)
      ensures node in s.leases && t.lease == s.leases[node]
    {
      var k :| 0 <= k < |h| && h[k] == t;
      assert k == |h| - 1;
    }
    if node in s.leases && !IsExpired(s.leases[node], now) {
      var last := h[|h| - 1];
      assert last in h && last.Covers(now);
    }
  }

  /** At any time from the last event on, validation succeeds exactly for the holder and
      generation of the tenure that covers that time. */
  lemma ValidateIffCurrentTenure(
    clock: Instant, events: seq<Event>, node: NodeId, holder: AgentId, generation: nat, now: Instant)
    requires Timed(clock, events) && ClockAfter(clock, events) <= now
    ensures Validated(Run(EMPTY, events).leases, node, holder, generation, now).Ok? <==>
      exists t | t in TenuresOf(Run(EMPTY, events), node) ::
        t.Covers(now) && t.lease.holder == holder && t.lease.generation == generation
  {
    RunKeepsInv(EMPTY, events, clock);
    CoveringIsEntry(Run(EMPTY, events), node, ClockAfter(clock, events), now);
  }

  /** Why validation fails: the last tenure, if any, was released; it expired; or it is another holder's. */
  lemma ValidationErrors(
    clock: Instant, events: seq<Event>, node: NodeId, holder: AgentId, generation: nat, now: Instant)
    requires Timed(clock, events) && ClockAfter(clock, events) <= now
    ensures var r, h := Validated(Run(EMPTY, events).leases, node, holder, generation, now), TenuresOf(Run(EMPTY, events), node);
      if h == [] || h[|h| - 1].released.Some? then r == Err(NotFound)
      else if h[|h| - 1].lease.expiresAt <= now then r == Err(Expired)
      else if h[|h| - 1].lease.holder != holder || h[|h| - 1].lease.generation != generation then r == Err(Fenced)
      else r == Ok(h[|h| - 1].lease)
  {
    RunKeepsInv(EMPTY, events, clock);
    assert NodeInv(Run(EMPTY, events), node, ClockAfter(clock, events));
  }

  /** A node can be leased anew exactly when no tenure on it covers the moment. */
  lemma AcquireIffFree(clock: Instant, events: seq<Event>, lease: Lease, now: Instant)
    requires Timed(clock, events) && ClockAfter(clock, events) <= now
    ensures Grantable(Run(EMPTY, events).leases, lease, now) <==>
      forall t | t in TenuresOf(Run(EMPTY, events), lease.node) :: !t.Covers(now)
  {
    RunKeepsInv(EMPTY, events, clock);
    CoveringIsEntry(Run(EMPTY, events), lease.node, ClockAfter(clock, events), now);
  }

  lemma {:induction false} RunAppend(s: State, events: seq<Event>, e: Event)
    ensures Run(s, events + [e]) == Step(Run(s, events), e)
    decreases |events|
  {
    if events == [] {
      assert events + [e] == [e] && [e][1..] == [];
    } else {
      assert (events + [e])[0] == events[0] && (events + [e])[1..] == events[1..] + [e];
      RunAppend(Step(s, events[0]), events[1..], e);
    }
  }

  ghost predicate IsCovered(h: seq<Tenure>, now: Instant) {
    exists t | t in h :: t.Covers(now)
  }

  ghost predicate IsCoveredFor(h: seq<Tenure>, now: Instant, holder: AgentId, generation: nat) {
    exists t | t in h :: t.Covers(now) && t.lease.holder == holder && t.lease.generation == generation
  }

  /** What an event does to the tenures of its node: an acquisition starts one unless the moment is covered, a release
      by the holder of the one that covers the moment ends it there, and anything else changes nothing. */
  ghost predicate IsTenureAfter(h: seq<Tenure>, e: Event, h': seq<Tenure>) {
    match e
    case EvAcquire(lease, at) => h' == if IsCovered(h, at) then h else h + [Tenure(lease, at, None)]
    case EvRelease(_, holder, generation, at) =>
      if IsCoveredFor(h, at, holder, generation) && h != [] then
        var last := h[|h| - 1];
        h' == h[..|h| - 1] + [Tenure(last.lease, last.start, Some(at))]
      else h' == h
  }

  function NodeOf(e: Event): NodeId {
    match e
    case EvAcquire(lease, _) => lease.node
    case EvRelease(node, _, _, _) => node
  }

  lemma StepOnTenures(s: State, e: Event)
    requires e.EvAcquire? ==> (Grantable(s.leases, e.lease, e.at) <==> !IsCovered(TenuresOf(s, e.lease.node), e.at))
    requires e.EvRelease? ==>
      (Validated(s.leases, e.node, e.holder, e.generation, e.at).Ok? <==>
       IsCoveredFor(TenuresOf(s, e.node), e.at, e.holder, e.generation))
    ensures IsTenureAfter(TenuresOf(s, NodeOf(e)), e, TenuresOf(Step(s, e), NodeOf(e)))
    ensures forall node | node != NodeOf(e) :: TenuresOf(Step(s, e), node) == TenuresOf(s, node)
  {
    var h := TenuresOf(s, NodeOf(e));
    if e.EvRelease? && h != [] {
      var last := h[|h| - 1];
      assert h[|h| - 1 := last.(released := Some(e.at))] == h[..|h| - 1] + [Tenure(last.lease, last.start, Some(e.at))];
    }
  }

  /** Over any run, each event does to the tenures what it should. */
  lemma RunsAreTenures(clock: Instant, events: seq<Event>, e: Event)
    requires Timed(clock, events) && ClockAfter(clock, events) <= e.at
    ensures TenuresOf(Run(EMPTY, []), NodeOf(e)) == []
    ensures var s, s' := Run(EMPTY, events), Run(EMPTY, events + [e]);
      && IsTenureAfter(TenuresOf(s, NodeOf(e)), e, TenuresOf(s', NodeOf(e)))
      && forall node | node != NodeOf(e) :: TenuresOf(s', node) == TenuresOf(s, node)
  {
    RunAppend(EMPTY, events, e);
    match e {
      case EvAcquire(lease, at) =>
        AcquireIffFree(clock, events, lease, at);
      case EvRelease(node, holder, generation, at) =>
        ValidateIffCurrentTenure(clock, events, node, holder, generation, at);
    }
    StepOnTenures(Run(EMPTY, events), e);
  }

  // ----- stale holders -----

  predicate SamePair(a: Lease, b: Lease) {
    a.holder == b.holder && a.generation == b.generation
  }

  function ReleaseBy(lease: Lease, now: Instant): Event {
    EvRelease(lease.node, lease.holder, lease.generation, now)
  }

  /** A stale holder, whose tenure has ended, has its pair of holder and generation in common with the
      tenure that covers the moment. */
  ghost predicate PairIsReused(h: seq<Tenure>, k: nat, now: Instant)
    requires k < |h|
  {
    exists t :: t in h && t.Covers(now) && SamePair(t.lease, h[k].lease)
  }

  /** A stale holder can release a newer lease exactly when its pair was granted again with that lease:
      acquiring compares no generations, so fencing rests on callers that never repeat a pair. */
  lemma StaleReleasesIff(clock: Instant, events: seq<Event>, node: NodeId, k: nat, now: Instant)
    requires Timed(clock, events) && ClockAfter(clock, events) <= now
    requires k < |TenuresOf(Run(EMPTY, events), node)| && TenuresOf(Run(EMPTY, events), node)[k].End() <= now
    ensures var s := Run(EMPTY, events);
      var h := TenuresOf(s, node);
      Step(s, ReleaseBy(h[k].lease, now)) != s <==> PairIsReused(h, k, now)
  {
    RunKeepsInv(EMPTY, events, clock);
    var s := Run(EMPTY, events);
    var h := TenuresOf(s, node);
    assert NodeInv(s, node, ClockAfter(clock, events));
    var lease := h[k].lease;
    ValidateIffCurrentTenure(clock, events, node, lease.holder, lease.generation, now);
    if Validated(s.leases, node, lease.holder, lease.generation, now).Ok? {
      assert node !in Step(s, ReleaseBy(lease, now)).leases;
    }
  }

  /** With pairs that are granted only once on the node, no stale holder releases anything. */
  lemma StaleCannotRelease(clock: Instant, events: seq<Event>, node: NodeId, k: nat, now: Instant)
    requires Timed(clock, events) && ClockAfter(clock, events) <= now
    requires var h := TenuresOf(Run(EMPTY, events), node);
      && (forall i, j | 0 <= i < j < |h| :: !SamePair(h[i].lease, h[j].lease))
      && k < |h| && h[k].End() <= now
    ensures var s := Run(EMPTY, events); Step(s, ReleaseBy(TenuresOf(s, node)[k].lease, now)) == s
  {
    StaleReleasesIff(clock, events, node, k, now);
  }

  /** An input on which fencing fails: a lease expires, the same holder takes the node again with the
      same generation, and the release meant for the first lease ends the second. */
  lemma ReusedPairReleases(id: string, id': string, node: NodeId, holder: AgentId)
    ensures var first, second := Lease(id, node, holder, 1, 10), Lease(id', node, holder, 1, 30);
      var s := Run(EMPTY, [EvAcquire(first, 0), EvAcquire(second, 20)]);
      && |TenuresOf(s, node)| == 2 && TenuresOf(s, node)[0].lease == first && TenuresOf(s, node)[0].End() <= 20
      && s.leases == map[node := second]
      && Step(s, ReleaseBy(first, 20)).leases == map[]
  {
    var first, second := Lease(id, node, holder, 1, 10), Lease(id', node, holder, 1, 30);
    var events := [EvAcquire(first, 0), EvAcquire(second, 20)];
    var one := Step(EMPTY, events[0]);
    var two := Step(one, events[1]);
    assert events[1..][0] == events[1] && events[1..][1..] == [];
    assert Run(EMPTY, events) == Run(one, events[1..]) == Run(two, []) == two;
    assert TenuresOf(one, node) == [Tenure(first, 0, None)];
  }
}
