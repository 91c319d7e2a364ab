/** What eviction keeps, when an insertion stays resident, and what every run of the hot cache preserves. */
module LruRuns {
  import opened Prelude
  import opened Sequences
  import opened LruCache

  // ----- eviction removes the shortest sufficient prefix of the unpinned entries -----

  function Unpinned(items: Recency): Recency {
    if items == [] then [] else (if items[0].pinned then [] else [items[0]]) + Unpinned(items[1..])
  }

  function Pinned(items: Recency): Recency {
    if items == [] then [] else (if items[0].pinned then [items[0]] else []) + Pinned(items[1..])
  }

  /** `items` without its `k` oldest unpinned entries. */
  function DropUnpinned(items: Recency, k: nat): Recency {
    if k == 0 || items == [] then items
    else if items[0].pinned then [items[0]] + DropUnpinned(items[1..], k)
    else DropUnpinned(items[1..], k - 1)
  }

  lemma DropBehindPinned(items: Recency, k: nat)
    requires items != [] && items[0].pinned
    ensures DropUnpinned(items, k) == [items[0]] + DropUnpinned(items[1..], k)
  {
  }

  lemma {:induction false} DropOneMore(items: Recency, j: nat)
    requires FirstUnpinned(items) < |items|
    ensures DropUnpinned(items, j + 1) == DropUnpinned(RemoveAt(items, FirstUnpinned(items)), j)
    decreases |items|
  {
    if items[0].pinned {
      var i := FirstUnpinned(items);
      DropOneMore(items[1..], j);
      RemovedBehindHead(items, i);
      DropBehindPinned(items, j + 1);
      DropBehindPinned(RemoveAt(items, i), j);
    } else {
      RemovedHead(items);
    }
  }

  lemma {:induction false} OneFewerUnpinned(items: Recency)
    requires FirstUnpinned(items) < |items|
    ensures |Unpinned(items)| == |Unpinned(RemoveAt(items, FirstUnpinned(items)))| + 1
  {
    var i := FirstUnpinned(items);
    if items[0].pinned {
      OneFewerUnpinned(items[1..]);
      RemovedBehindHead(items, i);
    } else {
      assert RemoveAt(items, i) == items[1..];
    }
  }

  lemma {:induction false} NothingUnpinned(items: Recency)
    ensures FirstUnpinned(items) == |items| <==> Unpinned(items) == []
  {
    if items != [] {
      NothingUnpinned(items[1..]);
    }
  }

  /** `k` is the least number of unpinned entries to drop that meets both limits, or all if none does. */
  ghost predicate IsLeastDrop(items: Recency, maxBytes: nat, maxEntries: nat, k: nat) {
    && k <= |Unpinned(items)|
    && (k < |Unpinned(items)| ==> Fits(DropUnpinned(items, k), maxBytes, maxEntries))
    && (forall j | 0 <= j < k :: !Fits(DropUnpinned(items, j), maxBytes, maxEntries))
  }

  lemma OneMoreIsLeast(items: Recency, maxBytes: nat, maxEntries: nat, k: nat)
    requires FirstUnpinned(items) < |items| && !Fits(items, maxBytes, maxEntries)
    requires IsLeastDrop(RemoveAt(items, FirstUnpinned(items)), maxBytes, maxEntries, k)
    ensures IsLeastDrop(items, maxBytes, maxEntries, k + 1)
  {
    OneFewerUnpinned(items);
    DropOneMore(items, k);
    forall j | 0 <= j < k + 1
      ensures !Fits(DropUnpinned(items, j), maxBytes, maxEntries)
    {
      if j > 0 {
        DropOneMore(items, j - 1);
      }
    }
  }

  /** An eviction pass drops the least number of unpinned entries, oldest first, that meets both
      limits; if no number does, it drops them all. */
  lemma {:induction false} EvictionIsMinimal(items: Recency, maxBytes: nat, maxEntries: nat) returns (k: nat)
    ensures IsLeastDrop(items, maxBytes, maxEntries, k)
    ensures Evicted(items, maxBytes, maxEntries) == DropUnpinned(items, k)
    decreases |items|
  {
    NothingUnpinned(items);
    if Fits(items, maxBytes, maxEntries) || FirstUnpinned(items) == |items| {
      k := 0;
    } else {
      var k' := EvictionIsMinimal(RemoveAt(items, FirstUnpinned(items)), maxBytes, maxEntries);
      k := k' + 1;
      OneMoreIsLeast(items, maxBytes, maxEntries, k');
      DropOneMore(items, k');
    }
  }

  lemma {:induction false} DropKeepsPinned(items: Recency, k: nat)
    ensures Pinned(DropUnpinned(items, k)) == Pinned(items)
  {
    if k != 0 && items != [] {
      if items[0].pinned {
        DropKeepsPinned(items[1..], k);
        SplitHead(items[0], DropUnpinned(items[1..], k));
      } else {
        DropKeepsPinned(items[1..], k - 1);
      }
    }
  }

  lemma {:induction false} DropKeepsUnpinned(items: Recency, k: nat)
    requires k <= |Unpinned(items)|
    ensures Unpinned(DropUnpinned(items, k)) == Unpinned(items)[k..]
  {
    if k != 0 && items != [] {
      if items[0].pinned {
        DropKeepsUnpinned(items[1..], k);
        SplitHead(items[0], DropUnpinned(items[1..], k));
        assert Unpinned(items) == Unpinned(items[1..]);
      } else {
        DropKeepsUnpinned(items[1..], k - 1);
        ShiftedSuffix(items[0], Unpinned(items[1..]), k);
      }
    }
  }

  /** Dropping keeps every pinned entry, and the unpinned entries from the k-th on, all in their order. */
  lemma DropKeeps(items: Recency, k: nat)
    requires k <= |Unpinned(items)|
    ensures Pinned(DropUnpinned(items, k)) == Pinned(items)
    ensures Unpinned(DropUnpinned(items, k)) == Unpinned(items)[k..]
  {
    DropKeepsPinned(items, k);
    DropKeepsUnpinned(items, k);
  }

  lemma ShiftedSuffix(head: CacheEntry, tail: Recency, k: nat)
    requires 0 < k <= |tail| + 1
    ensures ([head] + tail)[k..] == tail[k - 1..]
  {
  }

  lemma SplitHead(head: CacheEntry, tail: Recency)
    ensures Pinned([head] + tail) == (if head.pinned then [head] else []) + Pinned(tail)
    ensures Unpinned([head] + tail) == (if head.pinned then [] else [head]) + Unpinned(tail)
  {
    assert ([head] + tail)[1..] == tail;
  }

  lemma {:induction false} DropIsMonotone(items: Recency, j: nat, k: nat)
    requires j <= k
    ensures Sum(DropUnpinned(items, k)) <= Sum(DropUnpinned(items, j))
    ensures |DropUnpinned(items, k)| <= |DropUnpinned(items, j)|
  {
    if items != [] {
      var tail := items[1..];
      if items[0].pinned {
        DropIsMonotone(tail, j, k);
        assert k > 0 ==> DropUnpinned(items, k)[1..] == DropUnpinned(tail, k);
        assert j > 0 ==> DropUnpinned(items, j)[1..] == DropUnpinned(tail, j);
      } else if j > 0 {
        DropIsMonotone(tail, j - 1, k - 1);
      } else if k > 0 {
        DropIsMonotone(tail, 0, k - 1);
      }
    }
  }

  /** Dropping all unpinned entries leaves the pinned ones. */
  lemma {:induction false} DropAll(items: Recency)
    ensures DropUnpinned(items, |Unpinned(items)|) == Pinned(items)
  {
    if items != [] {
      DropAll(items[1..]);
      assert items == [items[0]] + items[1..];
    }
  }

  lemma {:induction false} DropBefore(items: Recency, last: CacheEntry, k: nat)
    requires k <= |Unpinned(items)|
    ensures DropUnpinned(items + [last], k) == DropUnpinned(items, k) + [last]
  {
    if k != 0 && items != [] {
      var all := items + [last];
      assert all[0] == items[0] && all[1..] == items[1..] + [last];
      DropBefore(items[1..], last, if items[0].pinned then k else k - 1);
    }
  }

  lemma {:induction false} UnpinnedLast(items: Recency, last: CacheEntry)
    requires !last.pinned
    ensures Unpinned(items + [last]) == Unpinned(items) + [last]
    ensures Pinned(items + [last]) == Pinned(items)
  {
    if items == [] {
      assert items + [last] == [last];
    } else {
      var all := items + [last];
      assert all[0] == items[0] && all[1..] == items[1..] + [last];
      UnpinnedLast(items[1..], last);
    }
  }

  /** Dropping all unpinned entries but the last one leaves the pinned entries and that one. */
  lemma DropAllButLast(items: Recency, last: CacheEntry)
    requires !last.pinned
    ensures Unpinned(items + [last]) == Unpinned(items) + [last]
    ensures DropUnpinned(items + [last], |Unpinned(items)|) == Pinned(items) + [last]
    ensures DropUnpinned(items + [last], |Unpinned(items)| + 1) == Pinned(items)
  {
    UnpinnedLast(items, last);
    DropBefore(items, last, |Unpinned(items)|);
    DropAll(items);
    DropAll(items + [last]);
  }

  /** `key` is the key of an entry of the list. */
  ghost predicate Holds(items: Recency, key: string) {
    exists i :: 0 <= i < |items| && items[i].key == key
  }

  lemma HoldsIffLookup(items: Recency, key: string)
    ensures Holds(items, key) <==> Lookup(items, key).Some?
  {
    if i :| 0 <= i < |items| && items[i].key == key {
      assert KeysOf(items)[i] == key;
    }
  }

  lemma {:induction false} UnpinnedIsSelection(items: Recency, e: CacheEntry)
    ensures e in Unpinned(items) <==> e in items && !e.pinned
    ensures e in Pinned(items) <==> e in items && e.pinned
  {
    if items != [] {
      UnpinnedIsSelection(items[1..], e);
    }
  }

  lemma PinnedStays(others: Recency, last: CacheEntry, maxBytes: nat, maxEntries: nat)
    requires last.pinned
    ensures Holds(Evicted(others + [last], maxBytes, maxEntries), last.key)
  {
    var all := others + [last];
    var k := EvictionIsMinimal(all, maxBytes, maxEntries);
    DropKeepsPinned(all, k);
    UnpinnedIsSelection(all, last);
    UnpinnedIsSelection(DropUnpinned(all, k), last);
    MemberIsHeld(DropUnpinned(all, k), last);
  }

  lemma UnpinnedStaysIff(others: Recency, last: CacheEntry, maxBytes: nat, maxEntries: nat)
    requires !last.pinned && forall e | e in others :: e.key != last.key
    ensures Holds(Evicted(others + [last], maxBytes, maxEntries), last.key) <==>
      Fits(Pinned(others) + [last], maxBytes, maxEntries)
  {
    var all := others + [last];
    var k := EvictionIsMinimal(all, maxBytes, maxEntries);
    DropAllButLast(others, last);
    if k == |Unpinned(others)| + 1 {
      PinnedOthersForget(others, last.key);
      assert !Fits(DropUnpinned(all, k - 1), maxBytes, maxEntries);
    } else {
      DropIsMonotone(all, k, |Unpinned(others)|);
      SurvivesDropping(others, last, k);
    }
  }

  ghost predicate FitsBesidePinned(others: Recency, entry: CacheEntry, maxBytes: nat, maxEntries: nat) {
    Fits(Pinned(others) + [entry], maxBytes, maxEntries)
  }

  lemma SurvivesDropping(others: Recency, last: CacheEntry, k: nat)
    requires !last.pinned && k <= |Unpinned(others)|
    ensures Holds(DropUnpinned(others + [last], k), last.key)
  {
    UnpinnedLast(others, last);
    DropKeepsUnpinned(others + [last], k);
    LastSurvives(Unpinned(others), last, k);
    UnpinnedIsSelection(DropUnpinned(others + [last], k), last);
    MemberIsHeld(DropUnpinned(others + [last], k), last);
  }

  /** An accepted entry is resident afterwards exactly when it is pinned, or it fits beside the
      entries that are pinned. `insert` reports success in both cases. */
  lemma InsertedStaysIff(items: Recency, entry: CacheEntry, maxBytes: nat, maxEntries: nat)
    requires Distinct(KeysOf(items)) && Accepts(entry, maxBytes, maxEntries)
    ensures Lookup(AfterInsert(items, entry, maxBytes, maxEntries), entry.key).Some? <==>
      entry.pinned || FitsBesidePinned(Without(items, entry.key), entry, maxBytes, maxEntries)
  {
    var others, last := Without(items, entry.key), entry.(hits := 0);
    HoldsIffLookup(Evicted(others + [last], maxBytes, maxEntries), entry.key);
    if entry.pinned {
      PinnedStays(others, last, maxBytes, maxEntries);
    } else {
      WithoutForgets(items, entry.key);
      UnpinnedStaysIff(others, last, maxBytes, maxEntries);
      SameSize(Pinned(others), last, entry);
    }
  }

  /** An input on which an accepted entry is not resident: the only place is taken by a pinned one. */
  lemma InsertedIsEvicted()
    ensures var kept, entry := CacheEntry("a", Exact, [], 0, 0, 0, true), CacheEntry("b", Exact, [], 0, 0, 0, false);
      Accepts(entry, 0, 1) && AfterInsert([kept], entry, 0, 1) == [kept]
  {
    var kept, entry := CacheEntry("a", Exact, [], 0, 0, 0, true), CacheEntry("b", Exact, [], 0, 0, 0, false);
    assert KeysOf([kept]) == ["a"] && IndexOf(["a"], "b") == 1;
    assert Without([kept], "b") == [kept];
    var all := [kept] + [entry];
    assert all[0] == kept && all[1..] == [entry];
    assert FirstUnpinned([entry]) == 0 && FirstUnpinned(all) == 1;
    assert RemoveAt(all, 1) == [kept];
    assert [kept][1..] == [] && FirstUnpinned([kept]) == 1;
    assert Evicted([kept], 0, 1) == [kept];
    assert !Fits(all, 0, 1) && Evicted(all, 0, 1) == Evicted(RemoveAt(all, 1), 0, 1);
    assert entry.(hits := 0) == entry && AfterInsert([kept], entry, 0, 1) == Evicted(all, 0, 1);
  }

  lemma MemberIsHeld(items: Recency, e: CacheEntry)
    requires e in items
    ensures Holds(items, e.key)
  {
  }

  lemma LastSurvives(items: Recency, last: CacheEntry, k: nat)
    requires k <= |items|
    ensures last in (items + [last])[k..]
  {
    assert (items + [last])[k..][|items| - k] == last;
  }

  lemma PinnedOthersForget(others: Recency, key: string)
    requires forall e | e in others :: e.key != key
    ensures !Holds(Pinned(others), key)
  {
    forall i | 0 <= i < |Pinned(others)|
      ensures Pinned(others)[i].key != key
    {
      assert Pinned(others)[i] in Pinned(others);
      UnpinnedIsSelection(others, Pinned(others)[i]);
    }
  }

  lemma SameSize(items: Recency, a: CacheEntry, b: CacheEntry)
    requires a.bytes == b.bytes
    ensures Sum(items + [a]) == Sum(items + [b])
  {
    SumAppend(items, a);
    SumAppend(items, b);
  }

  lemma WithoutForgets(items: Recency, key: string)
    requires Distinct(KeysOf(items))
    ensures forall e | e in Without(items, key) :: e.key != key && e in items
  {
    var i := IndexOf(KeysOf(items), key);
    forall j | 0 <= j < |items| && j != i
      ensures items[j].key != key
    {
      assert KeysOf(items)[j] == items[j].key;
      assert i < |items| ==> KeysOf(items)[i] == key;
      assert items[j].key in KeysOf(items);
    }
  }

  // ----- runs -----

  datatype Op =
    | OpGet(key: string, now: Instant, policy: CachePolicy, mode: LookupMode)
    | OpInsert(entry: CacheEntry)
    | OpRemove(key: string)
    | OpEvictTo(target: nat)

  /** The cached list, the metrics, and for the record: the keys in the order in which they were hit
      or inserted, and how many entries were inserted, replaced and removed. */
  datatype State = State(
    items: Recency, hits: nat, misses: nat, evictions: nat,
    touches: seq<string>, lookups: nat, inserted: nat, replaced: nat, removed: nat)

  const EMPTY := State([], 0, 0, 0, [], 0, 0, 0, 0)

  function Step(s: State, op: Op, maxBytes: nat, maxEntries: nat): State {
    match op
    case OpGet(key, now, policy, mode) =>
      var s' := s.(lookups := s.lookups + if mode == Bypass then 0 else 1);
      if IsHit(s.items, key, now, policy, mode) then
        s'.(items := AfterHit(s.items, key, now), hits := s.hits + 1, touches := s.touches + [key])
      else
        s'.(misses := s.misses + if mode == Bypass then 0 else 1)
    case OpInsert(entry) =>
      if Accepts(entry, maxBytes, maxEntries) then
        var items' := AfterInsert(s.items, entry, maxBytes, maxEntries);
        var others := Without(s.items, entry.key);
        EvictedIsShorter(others + [entry.(hits := 0)], maxBytes, maxEntries);
        s.(items := items', touches := s.touches + [entry.key],
           evictions := s.evictions + (|others| + 1 - |items'|),
           inserted := s.inserted + 1, replaced := s.replaced + (|s.items| - |others|))
      else s
    case OpRemove(key) =>
      s.(items := Without(s.items, key), removed := s.removed + (|s.items| - |Without(s.items, key)|))
    case OpEvictTo(target) =>
      EvictedIsShorter(s.items, target, maxEntries);
      var items' := Evicted(s.items, target, maxEntries);
      s.(items := items', evictions := s.evictions + (|s.items| - |items'|))
  }

  lemma {:induction false} EvictedIsShorter(items: Recency, maxBytes: nat, maxEntries: nat)
    ensures |Evicted(items, maxBytes, maxEntries)| <= |items|
    decreases |items|
  {
    if !Fits(items, maxBytes, maxEntries) && FirstUnpinned(items) < |items| {
      EvictedIsShorter(RemoveAt(items, FirstUnpinned(items)), maxBytes, maxEntries);
    }
  }

  function Run(s: State, ops: seq<Op>, maxBytes: nat, maxEntries: nat): State
    decreases |ops|
  {
    if ops == [] then s else Run(Step(s, ops[0], maxBytes, maxEntries), ops[1..], maxBytes, maxEntries)
  }

  /** The last position of `key` among the touches, or -1. */
  function LastTouch(touches: seq<string>, key: string): int {
    if touches == [] then -1
    else if touches[|touches| - 1] == key then |touches| - 1
    else LastTouch(touches[..|touches| - 1], key)
  }

  /** The list holds touched keys only, in the order in which each was last hit or inserted. */
  ghost predicate ByLastTouch(items: Recency, touches: seq<string>) {
    && (forall i | 0 <= i < |items| :: LastTouch(touches, items[i].key) >= 0)
    && (forall i, j | 0 <= i < j < |items| :: LastTouch(touches, items[i].key) < LastTouch(touches, items[j].key))
  }

  ghost predicate RunInv(s: State, maxBytes: nat, maxEntries: nat) {
    && ByLastTouch(s.items, s.touches)
    && (Fits(s.items, maxBytes, maxEntries) || Unpinned(s.items) == [])
    && s.hits + s.misses == s.lookups
    && |s.items| + s.evictions + s.removed + s.replaced == s.inserted
  }

  lemma ByLastTouchRemove(items: Recency, touches: seq<string>, i: nat)
    requires ByLastTouch(items, touches)
    ensures ByLastTouch(RemoveAt(items, i), touches)
  {
    var rest := RemoveAt(items, i);
    forall j, k | 0 <= j < k < |rest|
      ensures LastTouch(touches, rest[j].key) < LastTouch(touches, rest[k].key)
    {
      assert rest[j] == items[if j < i then j else j + 1] && rest[k] == items[if k < i then k else k + 1];
    }
    forall j | 0 <= j < |rest|
      ensures LastTouch(touches, rest[j].key) >= 0
    {
      assert rest[j] == items[if j < i then j else j + 1];
    }
  }

  lemma {:induction false} ByLastTouchEvicted(items: Recency, touches: seq<string>, maxBytes: nat, maxEntries: nat)
    requires ByLastTouch(items, touches)
    ensures ByLastTouch(Evicted(items, maxBytes, maxEntries), touches)
    decreases |items|
  {
    if !Fits(items, maxBytes, maxEntries) && FirstUnpinned(items) < |items| {
      ByLastTouchRemove(items, touches, FirstUnpinned(items));
      ByLastTouchEvicted(RemoveAt(items, FirstUnpinned(items)), touches, maxBytes, maxEntries);
    }
  }

  lemma {:induction false} LastTouchBound(touches: seq<string>, key: string)
    ensures -1 <= LastTouch(touches, key) < |touches|
  {
    if touches != [] && touches[|touches| - 1] != key {
      LastTouchBound(touches[..|touches| - 1], key);
    }
  }

  lemma ByLastTouchDistinct(items: Recency, touches: seq<string>)
    requires ByLastTouch(items, touches)
    ensures Distinct(KeysOf(items))
  {
  }

  lemma ByLastTouchMoved(items: Recency, touches: seq<string>, entry: CacheEntry)
    requires ByLastTouch(items, touches)
    ensures ByLastTouch(Without(items, entry.key) + [entry], touches + [entry.key])
  {
    var others, touches' := Without(items, entry.key), touches + [entry.key];
    ByLastTouchRemove(items, touches, IndexOf(KeysOf(items), entry.key));
    ByLastTouchDistinct(items, touches);
    WithoutForgets(items, entry.key);
    assert touches'[..|touches'| - 1] == touches;
    forall i | 0 <= i < |others|
      ensures LastTouch(touches', others[i].key) == LastTouch(touches, others[i].key) < |touches|
    {
      assert others[i] in others;
      LastTouchBound(touches, others[i].key);
    }
  }

  lemma FewerFit(items: Recency, i: nat, maxBytes: nat, maxEntries: nat)
    requires Fits(items, maxBytes, maxEntries) || Unpinned(items) == []
    ensures Fits(RemoveAt(items, i), maxBytes, maxEntries) || Unpinned(RemoveAt(items, i)) == []
  {
    if i < |items| {
      SumRemoveAt(items, i);
      if Unpinned(items) == [] {
        var e := RemoveAt(items, i);
        if Unpinned(e) != [] {
          UnpinnedIsSelection(e, Unpinned(e)[0]);
          UnpinnedIsSelection(items, Unpinned(e)[0]);
        }
      }
    }
  }

  lemma {:induction false} EvictedFits(items: Recency, target: nat, maxBytes: nat, maxEntries: nat)
    requires target == maxBytes || Fits(items, maxBytes, maxEntries) || Unpinned(items) == []
    ensures Fits(Evicted(items, target, maxEntries), maxBytes, maxEntries) || Unpinned(Evicted(items, target, maxEntries)) == []
    decreases |items|
  {
    NothingUnpinned(items);
    if !Fits(items, target, maxEntries) && FirstUnpinned(items) < |items| {
      if target != maxBytes {
        FewerFit(items, FirstUnpinned(items), maxBytes, maxEntries);
      }
      EvictedFits(RemoveAt(items, FirstUnpinned(items)), target, maxBytes, maxEntries);
    }
  }

  lemma UsedFits(items: Recency, key: string, now: Instant, maxBytes: nat, maxEntries: nat)
    requires Lookup(items, key).Some?
    requires Fits(items, maxBytes, maxEntries) || Unpinned(items) == []
    ensures Fits(AfterHit(items, key, now), maxBytes, maxEntries) || Unpinned(AfterHit(items, key, now)) == []
  {
    var i := IndexOf(KeysOf(items), key);
    var used := Used(items[i], now);
    SumRemoveAt(items, i);
    SumAppend(RemoveAt(items, i), used);
    var e := AfterHit(items, key, now);
    if Unpinned(items) == [] && Unpinned(e) != [] {
      var bad := Unpinned(e)[0];
      UnpinnedIsSelection(e, bad);
      UnpinnedIsSelection(items, if bad == used then items[i] else bad);
    }
  }

  lemma StepKeepsInv(s: State, op: Op, maxBytes: nat, maxEntries: nat)
    requires RunInv(s, maxBytes, maxEntries)
    ensures RunInv(Step(s, op, maxBytes, maxEntries), maxBytes, maxEntries)
  {
    match op
    case OpGet(key, now, policy, mode) =>
      if IsHit(s.items, key, now, policy, mode) {
        ByLastTouchMoved(s.items, s.touches, Used(Lookup(s.items, key).value, now));
        UsedFits(s.items, key, now, maxBytes, maxEntries);
      }
    case OpInsert(entry) =>
      if Accepts(entry, maxBytes, maxEntries) {
        var all := Without(s.items, entry.key) + [entry.(hits := 0)];
        ByLastTouchMoved(s.items, s.touches, entry.(hits := 0));
        ByLastTouchEvicted(all, s.touches + [entry.key], maxBytes, maxEntries);
        EvictedFits(all, maxBytes, maxBytes, maxEntries);
        EvictedIsShorter(all, maxBytes, maxEntries);
      }
    case OpRemove(key) =>
      ByLastTouchRemove(s.items, s.touches, IndexOf(KeysOf(s.items), key));
      FewerFit(s.items, IndexOf(KeysOf(s.items), key), maxBytes, maxEntries);
    case OpEvictTo(target) =>
      ByLastTouchEvicted(s.items, s.touches, target, maxEntries);
      EvictedFits(s.items, target, maxBytes, maxEntries);
      EvictedIsShorter(s.items, target, maxEntries);
  }

  /** Over every run: the list is ordered by last hit or insertion without duplicates, both limits hold
      or only pinned entries are left, lookups are hits or misses, and every entry ever inserted is
      resident, evicted, removed or replaced. */
  lemma {:induction false} RunKeepsInv(s: State, ops: seq<Op>, maxBytes: nat, maxEntries: nat)
    requires RunInv(s, maxBytes, maxEntries)
    ensures RunInv(Run(s, ops, maxBytes, maxEntries), maxBytes, maxEntries)
    ensures Distinct(KeysOf(Run(s, ops, maxBytes, maxEntries).items))
    decreases |ops|
  {
    ByLastTouchDistinct(s.items, s.touches);
    if ops != [] {
      StepKeepsInv(s, ops[0], maxBytes, maxEntries);
      RunKeepsInv(Step(s, ops[0], maxBytes, maxEntries), ops[1..], maxBytes, maxEntries);
    }
  }

  lemma EveryRunIsConsistent(ops: seq<Op>, maxBytes: nat, maxEntries: nat)
    ensures RunInv(Run(EMPTY, ops, maxBytes, maxEntries), maxBytes, maxEntries)
    ensures Distinct(KeysOf(Run(EMPTY, ops, maxBytes, maxEntries).items))
  {
    RunKeepsInv(EMPTY, ops, maxBytes, maxEntries);
  }
}
