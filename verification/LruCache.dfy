/** The in-memory hot cache: a map, a recency queue and running counters that
    together behave as one least-recently-used list with pinned entries. */
module LruCache {
  import opened Prelude
  import opened Sequences

  type Instant = int

  /** The last representable second of the system clock. */
  const TIME_MAX: Instant := 0x7FFF_FFFF_FFFF_FFFF

  datatype CacheClass = Exact | Ttl | Never

  datatype CachePolicy = CachePolicy(maxBytes: nat, ttl: nat)

  datatype LookupMode = AllowStale | FreshOnly | Bypass

  datatype CacheEntry = CacheEntry(
    key: string, kind: CacheClass, bytes: seq<Byte>,
    storedAt: Instant, lastUsedAt: Instant, hits: nat, pinned: bool)
  {
    function Size(): nat {
      |bytes|
    }

    function ExpiresAt(policy: CachePolicy): Option<Instant> {
      match kind
      case Exact => None
      case Ttl => if storedAt + policy.ttl > TIME_MAX then None else Some(storedAt + policy.ttl)
      case Never => Some(storedAt)
    }

    predicate IsFresh(now: Instant, policy: CachePolicy) {
      kind != Never && (ExpiresAt(policy).Some? ==> now < ExpiresAt(policy).value)
    }
  }

  datatype CacheMetrics = CacheMetrics(entries: nat, bytes: nat, hits: nat, misses: nat, evictions: nat)

  // ----- sequences addressed by key -----

  function IndexOf(order: seq<string>, key: string): (i: nat)
    ensures i <= |order|
    ensures i < |order| ==> order[i] == key
    ensures key !in order[..i]
    ensures i < |order| <==> key in order
  {
    if order == [] || order[0] == key then 0
    else
      var i := 1 + IndexOf(order[1..], key);
      assert order[..i] == [order[0]] + order[1..][..i - 1];
      i
  }

  function RemoveKey(order: seq<string>, key: string): seq<string> {
    RemoveAt(order, IndexOf(order, key))
  }

  // ----- the plain list that the cache refines -----

  /** Entries from least to most recently used. */
  type Recency = seq<CacheEntry>

  function KeysOf(items: Recency): seq<string> {
    seq(|items|, i requires 0 <= i < |items| => items[i].key)
  }

  function Sum(items: Recency): nat {
    if items == [] then 0 else items[0].Size() + Sum(items[1..])
  }

  predicate Fits(items: Recency, maxBytes: nat, maxEntries: nat) {
    Sum(items) <= maxBytes && |items| <= maxEntries
  }

  /** The position of the least recently used entry that is not pinned. */
  function FirstUnpinned(items: Recency): (i: nat)
    ensures i <= |items|
    ensures i < |items| ==> !items[i].pinned
    ensures forall k | 0 <= k < i :: items[k].pinned
  {
    if items == [] || !items[0].pinned then 0 else 1 + FirstUnpinned(items[1..])
  }

  /** Evict unpinned entries, oldest first, until both limits hold or only pinned entries are left. */
  function Evicted(items: Recency, maxBytes: nat, maxEntries: nat): Recency
    decreases |items|
  {
    if Fits(items, maxBytes, maxEntries) || FirstUnpinned(items) == |items| then items
    else Evicted(RemoveAt(items, FirstUnpinned(items)), maxBytes, maxEntries)
  }

  function Without(items: Recency, key: string): Recency {
    RemoveAt(items, IndexOf(KeysOf(items), key))
  }

  function Lookup(items: Recency, key: string): Option<CacheEntry> {
    var i := IndexOf(KeysOf(items), key);
    if i < |items| then Some(items[i]) else None
  }

  predicate IsHit(items: Recency, key: string, now: Instant, policy: CachePolicy, mode: LookupMode) {
    mode != Bypass && Lookup(items, key).Some? && (mode == FreshOnly ==> Lookup(items, key).value.IsFresh(now, policy))
  }

  function Used(entry: CacheEntry, now: Instant): CacheEntry {
    entry.(hits := entry.hits + 1, lastUsedAt := now)
  }

  /** The list after `key` was hit at time `now`. */
  function AfterHit(items: Recency, key: string, now: Instant): Recency
    requires Lookup(items, key).Some?
  {
    Without(items, key) + [Used(Lookup(items, key).value, now)]
  }

  predicate Accepts(entry: CacheEntry, maxBytes: nat, maxEntries: nat) {
    entry.kind != Never && entry.Size() <= maxBytes && maxEntries != 0
  }

  /** The list after `entry` was accepted. */
  function AfterInsert(items: Recency, entry: CacheEntry, maxBytes: nat, maxEntries: nat): Recency {
    Evicted(Without(items, entry.key) + [entry.(hits := 0)], maxBytes, maxEntries)
  }

  // ----- the class -----

  /** The queue lists every key of the map once, and entries are filed under their own keys. */
  ghost predicate InStep(entries: map<string, CacheEntry>, order: seq<string>) {
    && Distinct(order)
    && (forall k :: k in order <==> k in entries)
    && (forall k | k in entries :: entries[k].key == k)
  }

  function Items(entries: map<string, CacheEntry>, order: seq<string>): Recency
    requires forall k | k in order :: k in entries
  {
    seq(|order|, i requires 0 <= i < |order| => entries[order[i]])
  }

  class HotCache {
    var entries: map<string, CacheEntry>
    var order: seq<string>
    var bytes: nat
    var metrics: CacheMetrics
    const maxEntries: nat
    const capacity: nat

    /** Everything but the two synchronised counters is consistent. */
    ghost predicate Consistent()
      reads this
    {
      && InStep(entries, order)
      && bytes == Sum(Items(entries, order))
    }

    ghost predicate Valid()
      reads this
    {
      Consistent() && metrics.entries == |entries| && metrics.bytes == bytes
    }

    ghost function Contents(): Recency
      requires Consistent()
      reads this
    {
      Items(entries, order)
    }

    constructor (maxEntries: nat, maxBytes: nat)
      ensures Valid() && Contents() == []
      ensures this.maxEntries == maxEntries && capacity == maxBytes
      ensures metrics == CacheMetrics(0, 0, 0, 0, 0)
    {
      this.maxEntries, capacity := maxEntries, maxBytes;
      entries, order, bytes, metrics := map[], [], 0, CacheMetrics(0, 0, 0, 0, 0);
    }

    method Get(key: string, now: Instant, policy: CachePolicy, mode: LookupMode) returns (r: Option<seq<Byte>>)
      requires Valid()
      modifies this
      ensures Valid()
      ensures IsHit(old(Contents()), key, now, policy, mode) ==>
        && Contents() == AfterHit(old(Contents()), key, now)
        && r == Some(Lookup(old(Contents()), key).value.bytes)
        && metrics == old(metrics).(hits := old(metrics.hits) + 1)
      ensures !IsHit(old(Contents()), key, now, policy, mode) ==>
        && Contents() == old(Contents())
        && r == None
        && metrics == old(metrics).(misses := old(metrics.misses) + if mode == Bypass then 0 else 1)
    {
      if mode == Bypass {
        return None;
      }
      ghost var items := Contents();
      assert Lookup(items, key) == if key in entries then Some(entries[key]) else None by {
        LookupIsEntry(entries, order, key);
      }
      if key !in entries {
        metrics := metrics.(misses := metrics.misses + 1);
        return None;
      }
      var entry := entries[key];
      if !entry.IsFresh(now, policy) && mode == FreshOnly {
        metrics := metrics.(misses := metrics.misses + 1);
        return None;
      }
      assert IsHit(items, key, now, policy, mode);
      metrics := metrics.(hits := metrics.hits + 1);
      entry := Used(entry, now);
      TouchItems(entries, order, key, entry);
      entries := entries[key := entry];
      order := RemoveKey(order, key) + [key];
      return Some(entry.bytes);
    }

    method Insert(entry: CacheEntry) returns (accepted: bool)
      requires Valid()
      modifies this
      ensures Valid()
      ensures accepted <==> Accepts(entry, capacity, maxEntries)
      ensures Contents() ==
        if accepted then AfterInsert(old(Contents()), entry, capacity, maxEntries) else old(Contents())
      ensures metrics.hits == old(metrics.hits) && metrics.misses == old(metrics.misses)
      ensures metrics.evictions == old(metrics.evictions) +
        if accepted then |Without(old(Contents()), entry.key)| + 1 - |Contents()| else 0
    {
      if entry.kind == Never || entry.Size() > capacity || maxEntries == 0 {
        return false;
      }
      if entry.key in entries {
        TakeOut(entry.key);
      } else {
        UnknownKey(entries, order, entry.key);
      }
      AppendNew(entry.(hits := 0));
      EvictTo(capacity);
      return true;
    }

    /** The end of an insertion: file the entry and put it at the back of the queue. */
    method AppendNew(entry: CacheEntry)
      requires Consistent() && entry.key !in entries
      modifies this
      ensures Consistent() && Contents() == old(Contents()) + [entry]
      ensures metrics == old(metrics)
    {
      AppendItems(entries, order, entry);
      bytes := bytes + entry.Size();
      order := order + [entry.key];
      entries := entries[entry.key := entry];
    }

    method Remove(key: string) returns (r: Option<CacheEntry>)
      requires Valid()
      modifies this
      ensures Valid()
      ensures r == Lookup(old(Contents()), key)
      ensures Contents() == Without(old(Contents()), key)
      ensures metrics.hits == old(metrics.hits) && metrics.misses == old(metrics.misses)
      ensures metrics.evictions == old(metrics.evictions)
    {
      LookupIsEntry(entries, order, key);
      if key !in entries {
        UnknownKey(entries, order, key);
        return None;
      }
      r := Some(entries[key]);
      TakeOut(key);
      SyncMetrics();
    }

    /** The start of a removal or replacement: take the entry out of the map and the queue. */
    method TakeOut(key: string)
      requires Consistent() && key in entries
      modifies this
      ensures Consistent() && Contents() == Without(old(Contents()), key) && key !in entries
      ensures metrics == old(metrics)
    {
      WithoutItems(entries, order, key);
      bytes := bytes - entries[key].Size();
      entries := entries - {key};
      order := RemoveKey(order, key);
    }

    method EvictTo(target: nat)
      requires Consistent()
      modifies this
      ensures Valid()
      ensures Contents() == Evicted(old(Contents()), target, maxEntries)
      ensures metrics.hits == old(metrics.hits) && metrics.misses == old(metrics.misses)
      ensures metrics.evictions == old(metrics.evictions) + |old(Contents())| - |Contents()|
    {
      EntryCount(entries, order);
      while bytes > target || |entries| > maxEntries
        invariant Consistent() && |entries| == |Contents()|
        invariant Evicted(Contents(), target, maxEntries) == Evicted(old(Contents()), target, maxEntries)
        invariant metrics.hits == old(metrics.hits) && metrics.misses == old(metrics.misses)
        invariant metrics.evictions == old(metrics.evictions) + |old(Contents())| - |Contents()|
        decreases |order|
      {
        var evicted := EvictOneLru();
        EntryCount(entries, order);
        if !evicted {
          break;
        }
      }
      SyncMetrics();
    }

    method EvictOneLru() returns (evicted: bool)
      requires Consistent()
      modifies this
      ensures Consistent()
      ensures evicted <==> FirstUnpinned(old(Contents())) < |old(Contents())|
      ensures Contents() == RemoveAt(old(Contents()), FirstUnpinned(old(Contents())))
      ensures |order| == |old(order)| - if evicted then 1 else 0
      ensures metrics == old(metrics).(evictions := old(metrics.evictions) + if evicted then 1 else 0)
    {
      var position := FirstUnpinned(Items(entries, order));
      if position == |order| {
        return false;
      }
      var key := order[position];
      RemoveAtItems(entries, order, position);
      bytes := bytes - entries[key].Size();
      order := RemoveAt(order, position);
      entries := entries - {key};
      metrics := metrics.(evictions := metrics.evictions + 1);
      return true;
    }

    /** The published counters become the true ones of the contents; nothing else changes. */
    method SyncMetrics()
      requires Consistent()
      modifies this`metrics
      ensures Valid() && Contents() == old(Contents())
      ensures metrics == old(metrics).(entries := |Contents()|, bytes := Sum(Contents()))
    {
      EntryCount(entries, order);
      metrics := metrics.(entries := |entries|, bytes := bytes);
    }
  }

  // ----- the map and the queue stay in step -----

  lemma KeysOfItems(entries: map<string, CacheEntry>, order: seq<string>)
    requires InStep(entries, order)
    ensures KeysOf(Items(entries, order)) == order
  {
    forall i | 0 <= i < |order|
      ensures KeysOf(Items(entries, order))[i] == order[i]
    {
      assert order[i] in order;
    }
  }

  lemma LookupIsEntry(entries: map<string, CacheEntry>, order: seq<string>, key: string)
    requires InStep(entries, order)
    ensures Lookup(Items(entries, order), key) == if key in entries then Some(entries[key]) else None
  {
    KeysOfItems(entries, order);
  }

  lemma EntryCount(entries: map<string, CacheEntry>, order: seq<string>)
    requires InStep(entries, order)
    ensures |entries| == |order|
  {
    DistinctCount(order);
    assert entries.Keys == Members(order);
  }

  lemma {:induction false} SumRemoveAt(items: Recency, i: nat)
    requires i < |items|
    ensures Sum(RemoveAt(items, i)) == Sum(items) - items[i].Size()
  {
    if i == 0 {
      RemovedHead(items);
    } else {
      SumRemoveAt(items[1..], i - 1);
      RemovedBehindHead(items, i);
    }
  }

  lemma {:induction false} SumAppend(items: Recency, entry: CacheEntry)
    ensures Sum(items + [entry]) == Sum(items) + entry.Size()
  {
    if items == [] {
      assert items + [entry] == [entry];
    } else {
      SumAppend(items[1..], entry);
      assert (items + [entry])[1..] == items[1..] + [entry];
    }
  }

  lemma RemoveAtInStep(entries: map<string, CacheEntry>, order: seq<string>, i: nat)
    requires InStep(entries, order) && i < |order|
    ensures InStep(entries - {order[i]}, RemoveAt(order, i))
  {
    var entries', order' := entries - {order[i]}, RemoveAt(order, i);
    forall k | k in entries'
      ensures k in order'
    {
      var j :| 0 <= j < |order| && order[j] == k;
      assert order'[if j < i then j else j - 1] == k;
    }
    forall k | k in order'
      ensures k in entries'
    {
      var j :| 0 <= j < |order'| && order'[j] == k;
      assert k == order[if j < i then j else j + 1];
      assert k in order;
    }
  }

  lemma RemoveAtItems(entries: map<string, CacheEntry>, order: seq<string>, i: nat)
    requires InStep(entries, order) && i < |order|
    ensures var entries', order' := entries - {order[i]}, RemoveAt(order, i);
      && InStep(entries', order')
      && Items(entries', order') == RemoveAt(Items(entries, order), i)
      && Sum(Items(entries', order')) == Sum(Items(entries, order)) - entries[order[i]].Size()
  {
    RemoveAtInStep(entries, order, i);
    ItemsOfFewer(entries, order[i], RemoveAt(order, i));
    ItemsRemoveAt(entries, order, i);
    SumRemoveAt(Items(entries, order), i);
  }

  lemma ItemsOfFewer(entries: map<string, CacheEntry>, key: string, order: seq<string>)
    requires forall k | k in order :: k in entries && k != key
    ensures Items(entries - {key}, order) == Items(entries, order)
  {
    var fewer := Items(entries - {key}, order);
    forall j | 0 <= j < |order|
      ensures fewer[j] == Items(entries, order)[j]
    {
      assert order[j] in order;
    }
  }

  lemma ItemsRemoveAt(entries: map<string, CacheEntry>, order: seq<string>, i: nat)
    requires i < |order| && forall k | k in order :: k in entries
    ensures forall k | k in RemoveAt(order, i) :: k in entries
    ensures Items(entries, RemoveAt(order, i)) == RemoveAt(Items(entries, order), i)
  {
    forall j | 0 <= j < |RemoveAt(order, i)|
      ensures RemoveAt(order, i)[j] == order[if j < i then j else j + 1]
      ensures RemoveAt(order, i)[j] in entries
    {
      assert order[if j < i then j else j + 1] in order;
    }
  }

  lemma WithoutItems(entries: map<string, CacheEntry>, order: seq<string>, key: string)
    requires InStep(entries, order)
    ensures var entries', order' := entries - {key}, RemoveKey(order, key);
      && InStep(entries', order')
      && Items(entries', order') == Without(Items(entries, order), key)
      && Sum(Items(entries', order')) ==
         Sum(Items(entries, order)) - if key in entries then entries[key].Size() else 0
  {
    KeysOfItems(entries, order);
    if key in entries {
      RemoveAtItems(entries, order, IndexOf(order, key));
    } else {
      assert entries - {key} == entries;
    }
  }

  lemma UnknownKey(entries: map<string, CacheEntry>, order: seq<string>, key: string)
    requires InStep(entries, order) && key !in entries
    ensures entries - {key} == entries && RemoveKey(order, key) == order
    ensures Without(Items(entries, order), key) == Items(entries, order)
  {
    KeysOfItems(entries, order);
  }

  lemma AppendItems(entries: map<string, CacheEntry>, order: seq<string>, entry: CacheEntry)
    requires InStep(entries, order) && entry.key !in entries
    ensures var entries', order' := entries[entry.key := entry], order + [entry.key];
      && InStep(entries', order')
      && Items(entries', order') == Items(entries, order) + [entry]
      && Sum(Items(entries', order')) == Sum(Items(entries, order)) + entry.Size()
  {
    var entries', order' := entries[entry.key := entry], order + [entry.key];
    assert forall i | 0 <= i < |order| :: order[i] in order && order'[i] == order[i];
    assert Items(entries', order') == Items(entries, order) + [entry];
    SumAppend(Items(entries, order), entry);
  }

  lemma TouchItems(entries: map<string, CacheEntry>, order: seq<string>, key: string, entry: CacheEntry)
    requires InStep(entries, order) && key in entries && entry.key == key && entry.bytes == entries[key].bytes
    ensures var entries', order' := entries[key := entry], RemoveKey(order, key) + [key];
      && InStep(entries', order')
      && Items(entries', order') == Without(Items(entries, order), key) + [entry]
      && Sum(Items(entries', order')) == Sum(Items(entries, order))
      && |entries'| == |entries|
  {
    WithoutItems(entries, order, key);
    AppendItems(entries - {key}, RemoveKey(order, key), entry);
    assert (entries - {key})[key := entry] == entries[key := entry];
    assert entries[key := entry].Keys == entries.Keys;
  }
}
