/** Choosing entries of the hot cache to prune. */
module CachePruning {
  import Sequences
  import opened Ordering
  import opened LruCache
  import opened LruRuns

  /** Fresh entries sort before stale ones, then by last use, then by key. */
  predicate PruneLeq(now: Instant, policy: CachePolicy, a: CacheEntry, b: CacheEntry) {
    var freshA, freshB := a.IsFresh(now, policy), b.IsFresh(now, policy);
    if freshA != freshB then freshA
    else if a.lastUsedAt != b.lastUsedAt then a.lastUsedAt < b.lastUsedAt
    else StringLeq(a.key, b.key)
  }

  function PruneOrder(now: Instant, policy: CachePolicy): (CacheEntry, CacheEntry) -> bool {
    (a, b) => PruneLeq(now, policy, a, b)
  }

  function SizesOf(entries: Recency, n: nat): nat
    requires n <= |entries|
  {
    Sum(entries[..n])
  }

  /** Entries off the front while the bytes exceed the target. */
  function TakeWhileOver(candidates: Recency, bytes: nat, target: nat): Recency
    requires Sum(candidates) <= bytes
  {
    if candidates == [] || bytes <= target then []
    else [candidates[0]] + TakeWhileOver(candidates[1..], bytes - candidates[0].Size(), target)
  }

  function Candidates(items: Recency, now: Instant, policy: CachePolicy): Recency {
    Sort(PruneOrder(now, policy), Unpinned(items))
  }

  /** The entries selected for pruning from a cache with the given entries, listed in any order.
      The running byte count never goes below zero. */
  function PruneSelection(items: Recency, now: Instant, policy: CachePolicy, target: nat): Recency {
    CandidatesFit(items, now, policy);
    TakeWhileOver(Candidates(items, now, policy), Sum(items), target)
  }

  lemma CandidatesFit(items: Recency, now: Instant, policy: CachePolicy)
    ensures Sum(Candidates(items, now, policy)) <= Sum(items)
  {
    PruneOrderIsTotal(now, policy);
    SortIsSorted(PruneOrder(now, policy), Unpinned(items));
    SameSum(Candidates(items, now, policy), Unpinned(items));
    UnpinnedPart(items);
  }

  lemma PruneOrderIsTotal(now: Instant, policy: CachePolicy)
    ensures TotalPreorder(PruneOrder(now, policy))
    ensures forall a, b | PruneOrder(now, policy)(a, b) && PruneOrder(now, policy)(b, a) :: a.key == b.key
  {
    StringOrder();
  }

  lemma {:induction false} TakesShortestPrefix(candidates: Recency, bytes: nat, target: nat) returns (k: nat)
    requires Sum(candidates) <= bytes
    ensures k <= |candidates| && TakeWhileOver(candidates, bytes, target) == candidates[..k]
    ensures k < |candidates| ==> bytes - SizesOf(candidates, k) <= target
    ensures forall j | 0 <= j < k :: bytes - SizesOf(candidates, j) > target
  {
    if candidates == [] || bytes <= target {
      assert candidates[..0] == [];
      k := 0;
    } else {
      var rest := candidates[1..];
      var k' := TakesShortestPrefix(rest, bytes - candidates[0].Size(), target);
      k := k' + 1;
      forall j | 0 < j <= k
        ensures SizesOf(candidates, j) == candidates[0].Size() + SizesOf(rest, j - 1)
      {
        assert candidates[..j][1..] == rest[..j - 1];
      }
      assert candidates[..k] == [candidates[0]] + rest[..k'];
    }
  }

  lemma {:induction false} UnpinnedPart(items: Recency)
    ensures Sum(Unpinned(items)) <= Sum(items)
  {
    if items != [] {
      UnpinnedPart(items[1..]);
      assert !items[0].pinned ==> Unpinned(items)[1..] == Unpinned(items[1..]);
      assert items[0].pinned ==> Unpinned(items) == Unpinned(items[1..]);
    }
  }

  lemma RemovedAt(b: Recency, i: nat)
    requires i < |b|
    ensures multiset(Sequences.RemoveAt(b, i)) == multiset(b) - multiset{b[i]}
  {
    assert b == b[..i] + [b[i]] + b[i + 1..];
  }

  lemma {:induction false} SameSum(a: Recency, b: Recency)
    requires multiset(a) == multiset(b)
    ensures Sum(a) == Sum(b)
    decreases |a|
  {
    SameMembers(a, b);
    if a != [] {
      assert a[0] in a && a[0] in b;
      var i :| 0 <= i < |b| && b[i] == a[0];
      TailMembers(a);
      RemovedAt(b, i);
      SameSum(a[1..], Sequences.RemoveAt(b, i));
      SumRemoveAt(b, i);
    }
  }

  /** The selection is the shortest prefix, in pruning order, of the unpinned entries that brings the
      rest down to the target, or all of them if none does. */
  lemma SelectionIsShortestPrefix(items: Recency, now: Instant, policy: CachePolicy, target: nat) returns (k: nat)
    ensures var candidates := Candidates(items, now, policy);
      && Sorted(PruneOrder(now, policy), candidates) && multiset(candidates) == multiset(Unpinned(items))
      && k <= |candidates| && PruneSelection(items, now, policy, target) == candidates[..k]
      && (k < |candidates| ==> Sum(items) - SizesOf(candidates, k) <= target)
      && (forall j | 0 <= j < k :: Sum(items) - SizesOf(candidates, j) > target)
    ensures forall e | e in PruneSelection(items, now, policy, target) :: e in items && !e.pinned
  {
    var candidates := Candidates(items, now, policy);
    PruneOrderIsTotal(now, policy);
    SortIsSorted(PruneOrder(now, policy), Unpinned(items));
    CandidatesFit(items, now, policy);
    k := TakesShortestPrefix(candidates, Sum(items), target);
    SameMembers(candidates, Unpinned(items));
    forall e | e in candidates[..k]
      ensures e in items && !e.pinned
    {
      assert e in candidates && e in Unpinned(items);
      UnpinnedIsSelection(items, e);
    }
  }

  /** The selection does not depend on the order in which the map yields its entries. */
  lemma SelectionIgnoresOrder(a: Recency, b: Recency, now: Instant, policy: CachePolicy, target: nat)
    requires Sequences.Distinct(KeysOf(a)) && multiset(a) == multiset(b)
    ensures PruneSelection(a, now, policy, target) == PruneSelection(b, now, policy, target)
  {
    SameSum(a, b);
    SameCandidates(a, b, now, policy);
  }

  lemma SameCandidates(a: Recency, b: Recency, now: Instant, policy: CachePolicy)
    requires Sequences.Distinct(KeysOf(a)) && multiset(a) == multiset(b)
    ensures Candidates(a, now, policy) == Candidates(b, now, policy)
  {
    PruneOrderIsTotal(now, policy);
    SameUnpinned(a, b);
    forall x, y | x in Unpinned(a) && y in Unpinned(a) && x.key == y.key
      ensures x == y
    {
      KeyDecides(a, x, y);
    }
    SameSort(PruneOrder(now, policy), Unpinned(a), Unpinned(b));
  }

  lemma KeyDecides(items: Recency, x: CacheEntry, y: CacheEntry)
    requires Sequences.Distinct(KeysOf(items)) && x in Unpinned(items) && y in Unpinned(items) && x.key == y.key
    ensures x == y
  {
    UnpinnedIsSelection(items, x);
    UnpinnedIsSelection(items, y);
    var i :| 0 <= i < |items| && items[i] == x;
    var j :| 0 <= j < |items| && items[j] == y;
    assert KeysOf(items)[i] == x.key && KeysOf(items)[j] == y.key;
  }

  lemma {:induction false} UnpinnedCount(items: Recency, e: CacheEntry)
    ensures multiset(Unpinned(items))[e] == if e.pinned then 0 else multiset(items)[e]
  {
    if items != [] {
      UnpinnedCount(items[1..], e);
      assert items == [items[0]] + items[1..];
      assert multiset(items)[e] == multiset(items[1..])[e] + if items[0] == e then 1 else 0;
    }
  }

  lemma SameUnpinned(a: Recency, b: Recency)
    requires multiset(a) == multiset(b)
    ensures multiset(Unpinned(a)) == multiset(Unpinned(b))
  {
    forall e
      ensures multiset(Unpinned(a))[e] == multiset(Unpinned(b))[e]
    {
      UnpinnedCount(a, e);
      UnpinnedCount(b, e);
    }
  }

  /** Fresh entries go first: a stale entry is selected only after every unpinned fresh one. */
  lemma FreshGoFirst(
    items: Recency, now: Instant, policy: CachePolicy, target: nat, stale: CacheEntry, live: CacheEntry)
    requires stale in PruneSelection(items, now, policy, target) && !stale.IsFresh(now, policy)
    requires live in items && !live.pinned && live.IsFresh(now, policy)
    ensures live in PruneSelection(items, now, policy, target)
  {
    var k := SelectionIsShortestPrefix(items, now, policy, target);
    var candidates := Candidates(items, now, policy);
    UnpinnedIsSelection(items, live);
    SameMembers(candidates, Unpinned(items));
    var i :| 0 <= i < k && candidates[i] == stale;
    var j :| 0 <= j < |candidates| && candidates[j] == live;
    assert !PruneOrder(now, policy)(candidates[i], candidates[j]);
    assert j <= i;
    assert candidates[..k][j] == live;
  }

  // ----- stale entries are not preferred -----

  /** Where a fresh entry is selected, every stale one that could be is selected too. */
  ghost predicate PrefersStale(items: Recency, now: Instant, policy: CachePolicy, target: nat) {
    forall live, stale |
      && live in PruneSelection(items, now, policy, target) && live.IsFresh(now, policy)
      && stale in items && !stale.pinned && !stale.IsFresh(now, policy)
      :: stale in PruneSelection(items, now, policy, target)
  }

  ghost predicate HasUnpinned(items: Recency, now: Instant, policy: CachePolicy, isFresh: bool) {
    exists e :: e in items && !e.pinned && e.IsFresh(now, policy) == isFresh
  }

  /** Even without the last candidate, the bytes exceed the target, so that everything unpinned is selected. */
  ghost predicate NeedsAll(items: Recency, now: Instant, policy: CachePolicy, target: nat) {
    var candidates := Candidates(items, now, policy);
    candidates != [] && Sum(items) - SizesOf(candidates, |candidates| - 1) > target
  }

  lemma CandidatesAreUnpinned(items: Recency, now: Instant, policy: CachePolicy, e: CacheEntry)
    ensures e in Candidates(items, now, policy) <==> e in items && !e.pinned
  {
    PruneOrderIsTotal(now, policy);
    SortIsSorted(PruneOrder(now, policy), Unpinned(items));
    SameMembers(Candidates(items, now, policy), Unpinned(items));
    UnpinnedIsSelection(items, e);
  }

  lemma {:induction false} SumOfPrefix(entries: Recency, n: nat)
    requires n <= |entries|
    ensures Sum(entries[..n]) <= Sum(entries)
  {
    if n > 0 {
      SumOfPrefix(entries[1..], n - 1);
      assert entries[..n][1..] == entries[1..][..n - 1];
    }
  }

  lemma SizesGrow(entries: Recency, j: nat, k: nat)
    requires k <= |entries|
    ensures j <= k ==> SizesOf(entries, j) <= SizesOf(entries, k)
  {
    if j <= k {
      SumOfPrefix(entries[..k], j);
      assert entries[..k][..j] == entries[..j];
    }
  }

  lemma TakesFirst(candidates: Recency, bytes: nat, target: nat)
    requires Sum(candidates) <= bytes
    ensures var taken := TakeWhileOver(candidates, bytes, target);
      if bytes <= target || candidates == [] then taken == [] else taken != [] && taken[0] == candidates[0]
  {
  }

  lemma TakesLastIff(candidates: Recency, bytes: nat, target: nat)
    requires Sum(candidates) <= bytes && candidates != []
    ensures var taken, n := TakeWhileOver(candidates, bytes, target), |candidates| - 1;
      if bytes - SizesOf(candidates, n) > target then taken == candidates
      else |taken| <= n && taken == candidates[..|taken|]
  {
    var k := TakesShortestPrefix(candidates, bytes, target);
    assert candidates[..|candidates|] == candidates;
    SizesGrow(candidates, k, |candidates| - 1);
  }

  /** If anything is selected the first candidate is, and if not everything is, the last one is not. */
  lemma SelectionEnds(items: Recency, now: Instant, policy: CachePolicy, target: nat)
    ensures var candidates, selection := Candidates(items, now, policy), PruneSelection(items, now, policy, target);
      && (Sum(items) <= target || candidates == [] ==> selection == [])
      && (NeedsAll(items, now, policy, target) ==> selection == candidates)
      && (Sum(items) > target && candidates != [] ==> selection != [] && selection[0] == candidates[0])
      && (!NeedsAll(items, now, policy, target) && candidates != [] ==>
            |selection| < |candidates| && selection == candidates[..|selection|])
  {
    CandidatesFit(items, now, policy);
    var candidates := Candidates(items, now, policy);
    TakesFirst(candidates, Sum(items), target);
    if candidates != [] {
      TakesLastIff(candidates, Sum(items), target);
    }
  }

  lemma CandidatesSorted(items: Recency, now: Instant, policy: CachePolicy)
    ensures Sorted(PruneOrder(now, policy), Candidates(items, now, policy))
  {
    PruneOrderIsTotal(now, policy);
    SortIsSorted(PruneOrder(now, policy), Unpinned(items));
  }

  lemma FreshnessFollows(now: Instant, policy: CachePolicy, a: CacheEntry, b: CacheEntry)
    requires a == b || PruneOrder(now, policy)(a, b)
    ensures b.IsFresh(now, policy) ==> a.IsFresh(now, policy)
  {
  }

  /** The candidates, if there are both kinds, begin with a fresh entry and end with a stale one. */
  lemma FreshFirstStaleLast(items: Recency, now: Instant, policy: CachePolicy)
    requires HasUnpinned(items, now, policy, true) && HasUnpinned(items, now, policy, false)
    ensures var candidates := Candidates(items, now, policy);
      candidates != [] && candidates[0].IsFresh(now, policy) && !candidates[|candidates| - 1].IsFresh(now, policy)
  {
    var live :| live in items && !live.pinned && live.IsFresh(now, policy);
    var stale :| stale in items && !stale.pinned && !stale.IsFresh(now, policy);
    var candidates := Candidates(items, now, policy);
    CandidatesAreUnpinned(items, now, policy, live);
    CandidatesAreUnpinned(items, now, policy, stale);
    CandidatesSorted(items, now, policy);
    SortedEnds(PruneOrder(now, policy), candidates, live);
    SortedEnds(PruneOrder(now, policy), candidates, stale);
    FreshnessFollows(now, policy, candidates[0], live);
    FreshnessFollows(now, policy, stale, candidates[|candidates| - 1]);
  }

  /** The last candidate is selected only if everything is. */
  lemma LastIsSelectedIff(items: Recency, now: Instant, policy: CachePolicy, target: nat)
    requires Sequences.Distinct(KeysOf(items)) && Candidates(items, now, policy) != []
    ensures var candidates := Candidates(items, now, policy);
      candidates[|candidates| - 1] in PruneSelection(items, now, policy, target) <==> NeedsAll(items, now, policy, target)
  {
    var candidates, selection := Candidates(items, now, policy), PruneSelection(items, now, policy, target);
    SelectionEnds(items, now, policy, target);
    CandidatesDiffer(items, now, policy);
  }

  lemma DistinctTail(items: Recency)
    requires items != [] && Sequences.Distinct(KeysOf(items))
    ensures Sequences.Distinct(KeysOf(items[1..])) && items[0] !in items[1..]
  {
    forall k | 0 <= k < |items[1..]|
      ensures KeysOf(items[1..])[k] == KeysOf(items)[k + 1] && items[1..][k] != items[0]
    {
      assert KeysOf(items)[k + 1] == items[k + 1].key && KeysOf(items)[0] == items[0].key;
    }
  }

  lemma {:induction false} UnpinnedDistinct(items: Recency)
    requires Sequences.Distinct(KeysOf(items))
    ensures Sequences.Distinct(Unpinned(items))
  {
    if items != [] {
      DistinctTail(items);
      UnpinnedDistinct(items[1..]);
      UnpinnedIsSelection(items[1..], items[0]);
    }
  }

  lemma CandidatesDiffer(items: Recency, now: Instant, policy: CachePolicy)
    requires Sequences.Distinct(KeysOf(items))
    ensures Sequences.Distinct(Candidates(items, now, policy))
  {
    PruneOrderIsTotal(now, policy);
    SortIsSorted(PruneOrder(now, policy), Unpinned(items));
    UnpinnedDistinct(items);
    RearrangedDistinct(Unpinned(items), Candidates(items, now, policy));
  }

  /** Exactly when pruning prefers stale entries: when it selects nothing, has only one kind to select
      from, or selects everything it can. */
  lemma PrefersStaleIff(items: Recency, now: Instant, policy: CachePolicy, target: nat)
    requires Sequences.Distinct(KeysOf(items))
    ensures PrefersStale(items, now, policy, target) <==>
      || Sum(items) <= target
      || !HasUnpinned(items, now, policy, true)
      || !HasUnpinned(items, now, policy, false)
      || NeedsAll(items, now, policy, target)
  {
    var candidates, selection := Candidates(items, now, policy), PruneSelection(items, now, policy, target);
    SelectionEnds(items, now, policy, target);
    forall e
      ensures e in candidates <==> e in items && !e.pinned
      ensures e in selection ==> e in candidates
    {
      CandidatesAreUnpinned(items, now, policy, e);
      SelectedIsCandidate(items, now, policy, target, e);
    }
    if HasUnpinned(items, now, policy, true) && HasUnpinned(items, now, policy, false) && Sum(items) > target {
      FreshFirstStaleLast(items, now, policy);
      LastIsSelectedIff(items, now, policy, target);
      var last := candidates[|candidates| - 1];
      assert candidates[0] in selection && last in candidates;
    }
  }

  lemma SelectedIsCandidate(items: Recency, now: Instant, policy: CachePolicy, target: nat, e: CacheEntry)
    ensures e in PruneSelection(items, now, policy, target) ==> e in Candidates(items, now, policy)
  {
    var k := SelectionIsShortestPrefix(items, now, policy, target);
  }

  /** An input on which it does not: of two entries of four bytes, with room for one, the fresh one goes. */
  lemma FreshIsPruned()
    ensures var live := CacheEntry("a", Exact, [0, 0, 0, 0], 0, 0, 0, false);
      var stale := CacheEntry("b", Ttl, [0, 0, 0, 0], 0, 0, 0, false);
      PruneSelection([live, stale], 10, CachePolicy(8, 5), 4) == [live]
  {
    var live := CacheEntry("a", Exact, [0, 0, 0, 0], 0, 0, 0, false);
    var stale := CacheEntry("b", Ttl, [0, 0, 0, 0], 0, 0, 0, false);
    var now, policy, items := 10, CachePolicy(8, 5), [live, stale];
    assert live.IsFresh(now, policy) && !stale.IsFresh(now, policy);
    assert items[1..] == [stale] && [stale][1..] == [];
    assert live.Size() == stale.Size() == 4;
    assert Unpinned([stale]) == [stale] + Unpinned([]) == [stale];
    assert Unpinned(items) == [live] + Unpinned([stale]) == items;
    assert Sum([stale]) == 4 + Sum([]) == 4;
    assert Sum(items) == 4 + Sum([stale]) == 8;
    assert Sorted(PruneOrder(now, policy), items);
    SortOfSorted(PruneOrder(now, policy), items);
    assert Candidates(items, now, policy) == items;
    assert TakeWhileOver([stale], 4, 4) == [];
  }
}
