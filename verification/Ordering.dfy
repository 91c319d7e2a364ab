/** Orders and the two ways the program uses them: ordered listings of the keys
    of a tree map, and stable sorting. */
module Ordering {
  import Sequences

  /** `leq` is a total order on the elements of `s`. */
  ghost predicate TotalOrderOn<T>(leq: (T, T) -> bool, s: set<T>) {
    && (forall x, y | x in s && y in s :: leq(x, y) || leq(y, x))
    && (forall x, y | x in s && y in s && leq(x, y) && leq(y, x) :: x == y)
    && (forall x, y, z | x in s && y in s && z in s && leq(x, y) && leq(y, z) :: leq(x, z))
  }

  ghost predicate TotalPreorder<T(!new)>(leq: (T, T) -> bool) {
    && (forall x, y :: leq(x, y) || leq(y, x))
    && (forall x, y, z | leq(x, y) && leq(y, z) :: leq(x, z))
  }

  ghost predicate Antisymmetric<T(!new)>(leq: (T, T) -> bool) {
    forall x, y | leq(x, y) && leq(y, x) :: x == y
  }

  // ----- listing a finite set in ascending order -----

  ghost predicate IsLeast<T>(leq: (T, T) -> bool, x: T, s: set<T>) {
    x in s && forall y | y in s :: leq(x, y)
  }

  lemma {:induction false} LeastExists<T>(leq: (T, T) -> bool, s: set<T>)
    requires s != {} && TotalOrderOn(leq, s)
    ensures exists x :: IsLeast(leq, x, s)
    decreases |s|
  {
    var x :| x in s;
    var rest := s - {x};
    if rest == {} {
      assert s == {x};
      assert IsLeast(leq, x, s);
    } else {
      LeastExists(leq, rest);
      var y :| IsLeast(leq, y, rest);
      assert IsLeast(leq, if leq(x, y) then x else y, s);
    }
  }

  /** The elements of `s` in ascending order, as a tree map iterates over its keys. */
  function Ascending<T(==)>(leq: (T, T) -> bool, s: set<T>): seq<T>
    requires TotalOrderOn(leq, s)
    decreases |s|
  {
    if s == {} then []
    else
      LeastExists(leq, s);
      assert forall x, y | x in s && y in s && IsLeast(leq, x, s) && IsLeast(leq, y, s) :: x == y;
      var x :| x in s && forall y | y in s :: leq(x, y);
      [x] + Ascending(leq, s - {x})
  }

  ghost predicate StrictlyAscending<T>(leq: (T, T) -> bool, xs: seq<T>) {
    forall i, j | 0 <= i < j < |xs| :: leq(xs[i], xs[j]) && xs[i] != xs[j]
  }

  lemma PrependAscending<T>(leq: (T, T) -> bool, x: T, tail: seq<T>)
    requires StrictlyAscending(leq, tail) && forall y | y in tail :: leq(x, y) && x != y
    ensures StrictlyAscending(leq, [x] + tail)
  {
    assert forall k | 0 <= k < |tail| :: tail[k] in tail;
  }

  /** `Ascending` lists exactly the elements of the set, each once, in strictly ascending order. */
  lemma {:induction false} AscendingIsListing<T(!new)>(leq: (T, T) -> bool, s: set<T>)
    requires TotalOrderOn(leq, s)
    ensures forall x :: x in Ascending(leq, s) <==> x in s
    ensures StrictlyAscending(leq, Ascending(leq, s))
    ensures |Ascending(leq, s)| == |s|
    decreases |s|
  {
    if s != {} {
      var x := Ascending(leq, s)[0];
      var tail := Ascending(leq, s - {x});
      assert Ascending(leq, s) == [x] + tail;
      assert forall y | y in s :: leq(x, y);
      AscendingIsListing(leq, s - {x});
      PrependAscending(leq, x, tail);
    }
  }

  // ----- stable sorting -----

  /** Insert `x` before every element it is not above, so that equal elements keep their order. */
  function Insert<T>(leq: (T, T) -> bool, x: T, xs: seq<T>): seq<T> {
    if xs == [] || leq(x, xs[0]) then [x] + xs else [xs[0]] + Insert(leq, x, xs[1..])
  }

  /** The stable sort of `xs`. */
  function Sort<T>(leq: (T, T) -> bool, xs: seq<T>): seq<T> {
    if xs == [] then [] else Insert(leq, xs[0], Sort(leq, xs[1..]))
  }

  ghost predicate Sorted<T>(leq: (T, T) -> bool, xs: seq<T>) {
    forall i, j | 0 <= i < j < |xs| :: leq(xs[i], xs[j])
  }

  lemma SortedEnds<T>(leq: (T, T) -> bool, xs: seq<T>, x: T)
    requires Sorted(leq, xs) && x in xs
    ensures xs[0] == x || leq(xs[0], x)
    ensures xs[|xs| - 1] == x || leq(x, xs[|xs| - 1])
  {
    var i :| 0 <= i < |xs| && xs[i] == x;
  }

  lemma {:induction false} InsertMembers<T>(leq: (T, T) -> bool, x: T, xs: seq<T>)
    ensures multiset(Insert(leq, x, xs)) == multiset(xs) + multiset{x}
  {
    if xs != [] && !leq(x, xs[0]) {
      InsertMembers(leq, x, xs[1..]);
      assert xs == [xs[0]] + xs[1..];
    }
  }

  lemma {:induction false} InsertKeepsSorted<T(!new)>(leq: (T, T) -> bool, x: T, xs: seq<T>)
    requires TotalPreorder(leq) && Sorted(leq, xs)
    ensures Sorted(leq, Insert(leq, x, xs))
  {
    if xs != [] && !leq(x, xs[0]) {
      var rest := xs[1..];
      InsertKeepsSorted(leq, x, rest);
      InsertMembers(leq, x, rest);
      var tail := Insert(leq, x, rest);
      forall k | 0 <= k < |tail|
        ensures leq(xs[0], tail[k])
      {
        assert tail[k] in multiset(tail);
        assert tail[k] == x || tail[k] in rest;
      }
    }
  }

  /** Sorting yields an ascending rearrangement of its input. */
  lemma {:induction false} SortIsSorted<T(!new)>(leq: (T, T) -> bool, xs: seq<T>)
    requires TotalPreorder(leq)
    ensures Sorted(leq, Sort(leq, xs))
    ensures multiset(Sort(leq, xs)) == multiset(xs)
  {
    if xs != [] {
      SortIsSorted(leq, xs[1..]);
      InsertKeepsSorted(leq, xs[0], Sort(leq, xs[1..]));
      InsertMembers(leq, xs[0], Sort(leq, xs[1..]));
      assert xs == [xs[0]] + xs[1..];
    }
  }

  /** What is already ascending stays as it is. */
  lemma {:induction false} SortOfSorted<T>(leq: (T, T) -> bool, xs: seq<T>)
    requires Sorted(leq, xs)
    ensures Sort(leq, xs) == xs
  {
    if xs != [] {
      SortOfSorted(leq, xs[1..]);
      assert xs == [xs[0]] + xs[1..];
    }
  }

  /** The elements that neither precede nor follow `x`, in their order. */
  function Ties<T>(leq: (T, T) -> bool, x: T, xs: seq<T>): seq<T> {
    if xs == [] then []
    else (if leq(x, xs[0]) && leq(xs[0], x) then [xs[0]] else []) + Ties(leq, x, xs[1..])
  }

  lemma {:induction false} InsertKeepsTies<T(!new)>(leq: (T, T) -> bool, x: T, y: T, xs: seq<T>)
    requires TotalPreorder(leq) && Sorted(leq, xs)
    ensures Ties(leq, x, Insert(leq, y, xs)) == Ties(leq, x, [y] + xs)
  {
    assert ([y] + xs)[1..] == xs;
    if xs != [] && !leq(y, xs[0]) {
      InsertKeepsTies(leq, x, y, xs[1..]);
      assert ([y] + xs[1..])[1..] == xs[1..];
      var rest := Insert(leq, y, xs[1..]);
      assert ([xs[0]] + rest)[1..] == rest;
    }
  }

  /** Sorting is stable: elements that tie keep their order. */
  lemma {:induction false} SortKeepsTies<T(!new)>(leq: (T, T) -> bool, x: T, xs: seq<T>)
    requires TotalPreorder(leq)
    ensures Ties(leq, x, Sort(leq, xs)) == Ties(leq, x, xs)
  {
    if xs != [] {
      SortKeepsTies(leq, x, xs[1..]);
      SortIsSorted(leq, xs[1..]);
      InsertKeepsTies(leq, x, xs[0], Sort(leq, xs[1..]));
      var sorted := Sort(leq, xs[1..]);
      assert ([xs[0]] + sorted)[1..] == sorted;
    }
  }

  lemma SameMembers<T>(xs: seq<T>, ys: seq<T>)
    requires multiset(xs) == multiset(ys)
    ensures |xs| == |ys|
    ensures forall x :: x in xs <==> x in ys
  {
    assert |xs| == |multiset(xs)| && |ys| == |multiset(ys)|;
    assert forall x :: x in xs <==> x in multiset(xs);
    assert forall x :: x in ys <==> x in multiset(ys);
  }

  lemma TwiceCounts<T>(xs: seq<T>, i: nat, j: nat)
    requires i < j < |xs| && xs[i] == xs[j]
    ensures multiset(xs)[xs[i]] >= 2
  {
    assert xs == xs[..j] + [xs[j]] + xs[j + 1..];
    assert xs[..j][i] == xs[i];
    assert xs[i] in multiset(xs[..j]);
  }

  lemma {:induction false} CountsOnce<T>(xs: seq<T>, x: T)
    requires Sequences.Distinct(xs)
    ensures multiset(xs)[x] <= 1
  {
    if xs != [] {
      CountsOnce(xs[1..], x);
      assert xs == [xs[0]] + xs[1..];
      if xs[0] == x {
        assert forall k | 0 <= k < |xs[1..]| :: xs[1..][k] == xs[k + 1];
        assert x !in xs[1..];
      }
    }
  }

  /** A rearrangement of distinct elements is distinct. */
  lemma RearrangedDistinct<T>(xs: seq<T>, ys: seq<T>)
    requires Sequences.Distinct(xs) && multiset(xs) == multiset(ys)
    ensures Sequences.Distinct(ys)
  {
    forall i, j | 0 <= i < j < |ys|
      ensures ys[i] != ys[j]
    {
      CountsOnce(xs, ys[i]);
      if ys[i] == ys[j] {
        TwiceCounts(ys, i, j);
      }
    }
  }

  lemma TakeOut<T>(xs: seq<T>, x: T) returns (rest: seq<T>)
    requires x in multiset(xs)
    ensures multiset(rest) == multiset(xs) - multiset{x}
  {
    var i :| 0 <= i < |xs| && xs[i] == x;
    rest := xs[..i] + xs[i + 1..];
    assert xs == xs[..i] + [x] + xs[i + 1..];
  }

  lemma PutBack<T>(all: multiset<T>, x: T, y: T)
    requires x in all && y in all && x != y
    ensures all - multiset{x} - multiset{y} + multiset{x, y} == all
  {
  }

  lemma PairMembers<T>(x: T, y: T, rest: seq<T>)
    ensures multiset([x, y] + rest) == multiset(rest) + multiset{x, y}
  {
  }

  /** Two distinct members can be brought to the front in either order. */
  lemma Rearranged<T>(xs: seq<T>, x: T, y: T) returns (rest: seq<T>)
    requires x in multiset(xs) && y in multiset(xs) && x != y
    ensures multiset([x, y] + rest) == multiset(xs) == multiset([y, x] + rest)
  {
    var others := TakeOut(xs, x);
    rest := TakeOut(others, y);
    PutBack(multiset(xs), x, y);
    PutBack(multiset(xs), y, x);
    PairMembers(x, y, rest);
    PairMembers(y, x, rest);
  }

  lemma TailMembers<T>(xs: seq<T>)
    requires xs != []
    ensures multiset(xs[1..]) == multiset(xs) - multiset{xs[0]}
  {
    assert xs == [xs[0]] + xs[1..];
  }

  lemma SameHead<T>(leq: (T, T) -> bool, xs: seq<T>, ys: seq<T>)
    requires xs != [] && Sorted(leq, xs) && Sorted(leq, ys) && multiset(xs) == multiset(ys)
    requires forall x, y | x in xs && y in xs && leq(x, y) && leq(y, x) :: x == y
    ensures ys != [] && xs[0] == ys[0]
  {
    SameMembers(xs, ys);
    assert xs[0] in ys && ys[0] in xs;
    var i :| 0 <= i < |ys| && ys[i] == xs[0];
    var j :| 0 <= j < |xs| && xs[j] == ys[0];
    assert i == 0 || leq(ys[0], xs[0]);
    assert j == 0 || leq(xs[0], ys[0]);
  }

  /** Ascending rearrangements of one another are equal when ties are equalities. */
  lemma {:induction false} SortedUnique<T>(leq: (T, T) -> bool, xs: seq<T>, ys: seq<T>)
    requires Sorted(leq, xs) && Sorted(leq, ys) && multiset(xs) == multiset(ys)
    requires forall x, y | x in xs && y in xs && leq(x, y) && leq(y, x) :: x == y
    ensures xs == ys
    decreases |xs|
  {
    SameMembers(xs, ys);
    if xs != [] {
      SameHead(leq, xs, ys);
      TailMembers(xs);
      TailMembers(ys);
      SortedUnique(leq, xs[1..], ys[1..]);
    }
  }

  lemma SameSort<T(!new)>(leq: (T, T) -> bool, xs: seq<T>, ys: seq<T>)
    requires TotalPreorder(leq) && multiset(xs) == multiset(ys)
    requires forall x, y | x in xs && y in xs && leq(x, y) && leq(y, x) :: x == y
    ensures Sort(leq, xs) == Sort(leq, ys)
  {
    SortIsSorted(leq, xs);
    SortIsSorted(leq, ys);
    SameMembers(Sort(leq, xs), xs);
    SortedUnique(leq, Sort(leq, xs), Sort(leq, ys));
  }

  // ----- lexicographic order -----

  /** Lexicographic order of sequences whose elements are compared by rank. */
  predicate LexLeq<T>(rank: T -> int, a: seq<T>, b: seq<T>) {
    a == [] || (b != [] && (rank(a[0]) < rank(b[0]) || (rank(a[0]) == rank(b[0]) && LexLeq(rank, a[1..], b[1..]))))
  }

  ghost predicate Injective<T(!new)>(rank: T -> int) {
    forall x, y | rank(x) == rank(y) :: x == y
  }

  lemma {:induction false} LexTotal<T>(rank: T -> int, a: seq<T>, b: seq<T>)
    ensures LexLeq(rank, a, b) || LexLeq(rank, b, a)
  {
    if a != [] && b != [] && rank(a[0]) == rank(b[0]) {
      LexTotal(rank, a[1..], b[1..]);
    }
  }

  lemma {:induction false} LexAntisymmetric<T(!new)>(rank: T -> int, a: seq<T>, b: seq<T>)
    requires Injective(rank) && LexLeq(rank, a, b) && LexLeq(rank, b, a)
    ensures a == b
  {
    if a != [] && b != [] {
      LexAntisymmetric(rank, a[1..], b[1..]);
      assert a == [a[0]] + a[1..] && b == [b[0]] + b[1..];
    }
  }

  lemma {:induction false} LexTransitive<T>(rank: T -> int, a: seq<T>, b: seq<T>, c: seq<T>)
    requires LexLeq(rank, a, b) && LexLeq(rank, b, c)
    ensures LexLeq(rank, a, c)
  {
    if a != [] && rank(a[0]) == rank(b[0]) == rank(c[0]) {
      LexTransitive(rank, a[1..], b[1..], c[1..]);
    }
  }

  /** `a` agrees with `b` up to position `k`, where it is lower. */
  ghost predicate LowerFrom<T>(rank: T -> int, a: seq<T>, b: seq<T>, k: nat) {
    && k < |a| && k < |b| && rank(a[k]) < rank(b[k])
    && forall i | 0 <= i < k :: rank(a[i]) == rank(b[i])
  }

  ghost predicate AgreesWithPrefix<T>(rank: T -> int, a: seq<T>, b: seq<T>) {
    |a| <= |b| && forall i | 0 <= i < |a| :: rank(a[i]) == rank(b[i])
  }

  /** The first difference decides; without one, the shorter sequence comes first. */
  lemma {:induction false} LexLeqIff<T>(rank: T -> int, a: seq<T>, b: seq<T>)
    ensures LexLeq(rank, a, b) <==> AgreesWithPrefix(rank, a, b) || exists k: nat :: LowerFrom(rank, a, b, k)
  {
    if a != [] && b != [] {
      if rank(a[0]) == rank(b[0]) {
        LexLeqIff(rank, a[1..], b[1..]);
        if k: nat :| LowerFrom(rank, a[1..], b[1..], k) {
          assert LowerFrom(rank, a, b, k + 1);
        }
        if k: nat :| LowerFrom(rank, a, b, k) {
          assert LowerFrom(rank, a[1..], b[1..], k - 1);
        }
      } else if rank(a[0]) < rank(b[0]) {
        assert LowerFrom(rank, a, b, 0);
      }
    }
  }

  lemma LexOrder<T(!new)>(rank: T -> int)
    requires Injective(rank)
    ensures forall a, b :: LexLeq(rank, a, b) || LexLeq(rank, b, a)
    ensures forall a, b | LexLeq(rank, a, b) && LexLeq(rank, b, a) :: a == b
    ensures forall a, b, c | LexLeq(rank, a, b) && LexLeq(rank, b, c) :: LexLeq(rank, a, c)
  {
    forall a, b
      ensures LexLeq(rank, a, b) || LexLeq(rank, b, a)
      ensures LexLeq(rank, a, b) && LexLeq(rank, b, a) ==> a == b
    {
      LexTotal(rank, a, b);
      if LexLeq(rank, a, b) && LexLeq(rank, b, a) {
        LexAntisymmetric(rank, a, b);
      }
    }
    forall a, b, c | LexLeq(rank, a, b) && LexLeq(rank, b, c)
      ensures LexLeq(rank, a, c)
    {
      LexTransitive(rank, a, b, c);
    }
  }

  function CharRank(c: char): int {
    c as int
  }

  /** Order of strings by code points, which is also the order of their UTF-8 encodings. */
  predicate StringLeq(a: string, b: string) {
    LexLeq(CharRank, a, b)
  }

  /** The order of strings: a prefix comes first, and otherwise the first differing character decides. */
  lemma StringLeqIff(a: string, b: string)
    ensures StringLeq(a, b) <==>
      a <= b || exists k: nat :: k < |a| && k < |b| && a[..k] == b[..k] && a[k] < b[k]
  {
    LexLeqIff(CharRank, a, b);
    if AgreesWithPrefix(CharRank, a, b) {
      assert a == b[..|a|];
    }
    if k: nat :| LowerFrom(CharRank, a, b, k) {
      assert a[..k] == b[..k];
    }
    if k: nat :| k < |a| && k < |b| && a[..k] == b[..k] && a[k] < b[k] {
      assert forall i | 0 <= i < k :: a[i] == a[..k][i] == b[..k][i] == b[i];
      assert LowerFrom(CharRank, a, b, k);
    }
  }

  lemma StringOrder()
    ensures TotalPreorder(StringLeq) && Antisymmetric(StringLeq)
  {
    LexOrder(CharRank);
  }

  /** The keys of a string-keyed tree map, in iteration order. */
  function SortedStrings(s: set<string>): seq<string> {
    StringOrder();
    Ascending(StringLeq, s)
  }

  lemma SortedStringsListing(s: set<string>)
    ensures forall x :: x in SortedStrings(s) <==> x in s
    ensures StrictlyAscending(StringLeq, SortedStrings(s))
    ensures |SortedStrings(s)| == |s|
  {
    StringOrder();
    AscendingIsListing(StringLeq, s);
  }

  predicate NatLeq(a: nat, b: nat) {
    a <= b
  }

  /** The keys of an integer-keyed tree map, in iteration order. */
  function SortedNats(s: set<nat>): seq<nat> {
    Ascending(NatLeq, s)
  }

  lemma SortedNatsListing(s: set<nat>)
    ensures forall x :: x in SortedNats(s) <==> x in s
    ensures StrictlyAscending(NatLeq, SortedNats(s))
    ensures |SortedNats(s)| == |s|
  {
    AscendingIsListing(NatLeq, s);
  }
}
