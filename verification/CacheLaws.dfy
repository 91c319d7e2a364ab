/** What the operations of the hot cache do to its list of entries, spelled out entry by entry. */
module CacheLaws {
  import opened Prelude
  import opened Sequences
  import opened Ordering
  import opened LruCache
  import opened LruRuns
  import CachePruning

  // ----- freshness -----

  /** Exact entries are always fresh and others never, but for those with a time to live, which counts from when
      they were stored, however often they are used; a time beyond the clock's range does not come. */
  predicate FreshAt(entry: CacheEntry, now: Instant, policy: CachePolicy) {
    || entry.kind == Exact
    || (entry.kind == Ttl && (now < entry.storedAt + policy.ttl || entry.storedAt + policy.ttl > 0x7FFF_FFFF_FFFF_FFFF))
  }

  lemma FreshIff(entry: CacheEntry, now: Instant, policy: CachePolicy)
    ensures entry.IsFresh(now, policy) <==> FreshAt(entry, now, policy)
  {
  }

  /** The byte count of a list is that of its entries. */
  lemma BytesAddUp(items: Recency, entry: CacheEntry)
    ensures Sum([]) == 0 && Sum(items + [entry]) == Sum(items) + |entry.bytes|
  {
    SumAppend(items, entry);
  }

  // ----- the list after each operation -----

  ghost predicate OneAt(items: Recency, key: string, i: nat) {
    i < |items| && items[i].key == key
  }

  /** The list without the entry under this key, if there is one. */
  ghost predicate IsWithout(items: Recency, key: string, others: Recency) {
    if Holds(items, key) then exists i: nat :: OneAt(items, key, i) && others == items[..i] + items[i + 1..]
    else others == items
  }

  lemma WithoutIs(items: Recency, key: string)
    ensures IsWithout(items, key, Without(items, key))
    ensures !Holds(items, key) ==> Without(items, key) == items
  {
    var i := IndexOf(KeysOf(items), key);
    HoldsIffLookup(items, key);
    if i < |items| {
      assert OneAt(items, key, i);
    }
  }

  /** The lookup finds the entry, fresh if it must be. */
  ghost predicate Finds(items: Recency, key: string, now: Instant, policy: CachePolicy, mode: LookupMode, i: nat) {
    OneAt(items, key, i) && mode != Bypass && (mode == FreshOnly ==> FreshAt(items[i], now, policy))
  }

  lemma OnlyOne(items: Recency, key: string, i: nat)
    requires Distinct(KeysOf(items)) && OneAt(items, key, i)
    ensures IndexOf(KeysOf(items), key) == i
  {
    var j := IndexOf(KeysOf(items), key);
    assert KeysOf(items)[i] == key;
    assert key in KeysOf(items) && KeysOf(items)[j] == key;
  }

  lemma HitIff(items: Recency, key: string, now: Instant, policy: CachePolicy, mode: LookupMode)
    requires Distinct(KeysOf(items))
    ensures IsHit(items, key, now, policy, mode) <==> exists i: nat :: Finds(items, key, now, policy, mode, i)
  {
    if i: nat :| Finds(items, key, now, policy, mode, i) {
      OnlyOne(items, key, i);
    }
    if IsHit(items, key, now, policy, mode) {
      var i := IndexOf(KeysOf(items), key);
      assert items[i].key == KeysOf(items)[i];
      assert Finds(items, key, now, policy, mode, i);
    }
  }

  ghost predicate IsMoved(items: Recency, i: nat, now: Instant, after: Recency) {
    i < |items| && after == items[..i] + items[i + 1..] + [items[i].(hits := items[i].hits + 1, lastUsedAt := now)]
  }

  /** A hit moves the entry to the end, used once more and now; anything else leaves the list as it is. */
  ghost predicate IsAfterGet(items: Recency, key: string, now: Instant, policy: CachePolicy, mode: LookupMode, after: Recency) {
    if exists i: nat :: Finds(items, key, now, policy, mode, i) then
      exists i: nat :: Finds(items, key, now, policy, mode, i) && IsMoved(items, i, now, after)
    else after == items
  }

  /** Exactly the oldest unpinned entries are dropped, as few as meet both limits, or all if none do. */
  ghost predicate IsEvicted(items: Recency, maxBytes: nat, maxEntries: nat, after: Recency) {
    exists k: nat :: IsLeastDrop(items, maxBytes, maxEntries, k) && after == DropUnpinned(items, k)
  }

  /** An entry that may be cached and is not too big takes the place of any under its key, at the end and
      unused, before the limits are enforced; any other is refused. */
  ghost predicate IsAfterInsert(items: Recency, entry: CacheEntry, maxBytes: nat, maxEntries: nat, after: Recency) {
    if entry.kind == Never || |entry.bytes| > maxBytes || maxEntries == 0 then after == items
    else
      exists others :: IsWithout(items, entry.key, others) &&
        IsEvicted(others + [entry.(hits := 0)], maxBytes, maxEntries, after)
  }

  ghost predicate IsAfter(items: Recency, op: Op, maxBytes: nat, maxEntries: nat, after: Recency) {
    match op
    case OpGet(key, now, policy, mode) => IsAfterGet(items, key, now, policy, mode, after)
    case OpInsert(entry) => IsAfterInsert(items, entry, maxBytes, maxEntries, after)
    case OpRemove(key) => IsWithout(items, key, after)
    case OpEvictTo(target) => IsEvicted(items, target, maxEntries, after)
  }

  lemma EvictedIs(items: Recency, maxBytes: nat, maxEntries: nat)
    ensures IsEvicted(items, maxBytes, maxEntries, Evicted(items, maxBytes, maxEntries))
  {
    var k := EvictionIsMinimal(items, maxBytes, maxEntries);
  }

  lemma AfterInsertIs(items: Recency, entry: CacheEntry, maxBytes: nat, maxEntries: nat)
    requires Accepts(entry, maxBytes, maxEntries)
    ensures IsAfterInsert(items, entry, maxBytes, maxEntries, AfterInsert(items, entry, maxBytes, maxEntries))
  {
    WithoutIs(items, entry.key);
    EvictedIs(Without(items, entry.key) + [entry.(hits := 0)], maxBytes, maxEntries);
  }

  lemma AfterHitIs(items: Recency, key: string, now: Instant, policy: CachePolicy, mode: LookupMode)
    requires Distinct(KeysOf(items)) && IsHit(items, key, now, policy, mode)
    ensures IsAfterGet(items, key, now, policy, mode, AfterHit(items, key, now))
  {
    HitIff(items, key, now, policy, mode);
    var i: nat :| Finds(items, key, now, policy, mode, i);
    MovedAt(items, key, now, i);
  }

  lemma MovedAt(items: Recency, key: string, now: Instant, i: nat)
    requires Distinct(KeysOf(items)) && OneAt(items, key, i)
    ensures Lookup(items, key).Some? && IsMoved(items, i, now, AfterHit(items, key, now))
  {
    OnlyOne(items, key, i);
  }

  /** Every operation leaves the list it should. */
  lemma StepIs(s: State, op: Op, maxBytes: nat, maxEntries: nat)
    requires Distinct(KeysOf(s.items))
    ensures IsAfter(s.items, op, maxBytes, maxEntries, Step(s, op, maxBytes, maxEntries).items)
  {
    match op
    case OpGet(key, now, policy, mode) =>
      HitIff(s.items, key, now, policy, mode);
      if IsHit(s.items, key, now, policy, mode) {
        AfterHitIs(s.items, key, now, policy, mode);
      }
    case OpInsert(entry) =>
      if Accepts(entry, maxBytes, maxEntries) {
        AfterInsertIs(s.items, entry, maxBytes, maxEntries);
      }
    case OpRemove(key) =>
      WithoutIs(s.items, key);
    case OpEvictTo(target) =>
      EvictedIs(s.items, target, maxEntries);
  }

  /** Lookups that find something count as hits, the others as misses unless they bypass the cache. */
  lemma LookupsCount(s: State, key: string, now: Instant, policy: CachePolicy, mode: LookupMode, maxBytes: nat, maxEntries: nat)
    requires Distinct(KeysOf(s.items))
    ensures var after := Step(s, OpGet(key, now, policy, mode), maxBytes, maxEntries);
      && (after.hits == s.hits + 1 <==> exists i: nat :: Finds(s.items, key, now, policy, mode, i))
      && after.hits + after.misses == s.hits + s.misses + (if mode == Bypass then 0 else 1)
      && s.hits <= after.hits && s.misses <= after.misses
  {
    HitIff(s.items, key, now, policy, mode);
  }

  lemma {:induction false} RunAppend(s: State, ops: seq<Op>, op: Op, maxBytes: nat, maxEntries: nat)
    ensures Run(s, ops + [op], maxBytes, maxEntries) == Step(Run(s, ops, maxBytes, maxEntries), op, maxBytes, maxEntries)
    decreases |ops|
  {
    if ops == [] {
      assert ops + [op] == [op] && [op][1..] == [];
    } else {
      assert (ops + [op])[0] == ops[0] && (ops + [op])[1..] == ops[1..] + [op];
      RunAppend(Step(s, ops[0], maxBytes, maxEntries), ops[1..], op, maxBytes, maxEntries);
    }
  }

  /** In every run, from the empty cache, each operation does to the list what it should. */
  lemma RunsAreSteps(ops: seq<Op>, op: Op, maxBytes: nat, maxEntries: nat)
    ensures Run(EMPTY, [], maxBytes, maxEntries).items == []
    ensures IsAfter(Run(EMPTY, ops, maxBytes, maxEntries).items, op, maxBytes, maxEntries,
                    Run(EMPTY, ops + [op], maxBytes, maxEntries).items)
  {
    EveryRunIsConsistent(ops, maxBytes, maxEntries);
    RunAppend(EMPTY, ops, op, maxBytes, maxEntries);
    StepIs(Run(EMPTY, ops, maxBytes, maxEntries), op, maxBytes, maxEntries);
  }

  // ----- the order of pruning -----

  /** Fresh before stale, then by last use, then by key. */
  predicate PrunedBefore(a: CacheEntry, b: CacheEntry, now: Instant, policy: CachePolicy) {
    || (FreshAt(a, now, policy) && !FreshAt(b, now, policy))
    || (&& (FreshAt(a, now, policy) <==> FreshAt(b, now, policy))
        && (a.lastUsedAt < b.lastUsedAt || (a.lastUsedAt == b.lastUsedAt && StringLeq(a.key, b.key))))
  }

  /** The candidates for pruning are the unpinned entries in this order. */
  lemma CandidatesAre(items: Recency, now: Instant, policy: CachePolicy)
    ensures var candidates := CachePruning.Candidates(items, now, policy);
      && (forall i, j | 0 <= i < j < |candidates| :: PrunedBefore(candidates[i], candidates[j], now, policy))
      && (forall e :: e in candidates <==> e in items && !e.pinned)
  {
    var candidates := CachePruning.Candidates(items, now, policy);
    CachePruning.PruneOrderIsTotal(now, policy);
    SortIsSorted(CachePruning.PruneOrder(now, policy), Unpinned(items));
    SameMembers(candidates, Unpinned(items));
    forall e
      ensures e in candidates <==> e in items && !e.pinned
    {
      UnpinnedIsSelection(items, e);
    }
    forall i, j | 0 <= i < j < |candidates|
      ensures PrunedBefore(candidates[i], candidates[j], now, policy)
    {
      FreshIff(candidates[i], now, policy);
      FreshIff(candidates[j], now, policy);
      assert CachePruning.PruneOrder(now, policy)(candidates[i], candidates[j]);
    }
  }
}
