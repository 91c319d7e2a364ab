/** The edit distance behind the "did you mean" hint: the two-row loop computes
    the recursive Levenshtein distance, which is the least number of
    single-character edits and a metric. */
module EditDistance {
  import opened Prelude

  function Cost(x: char, y: char): nat {
    if x == y then 0 else 1
  }

  function Init(s: string): string
    requires s != ""
  {
    s[..|s| - 1]
  }

  function Last(s: string): char
    requires s != ""
  {
    s[|s| - 1]
  }

  /** Levenshtein distance by recursion on the last characters. */
  function Lev(a: string, b: string): nat
    decreases |a| + |b|
  {
    if a == "" then |b|
    else if b == "" then |a|
    else Min(Lev(Init(a), Init(b)) + Cost(Last(a), Last(b)), Min(Lev(Init(a), b), Lev(a, Init(b))) + 1)
  }

  // ----- the two-row loop -----

  /** One cell of the table, from the three cells beside it. */
  lemma Cell(left: string, right: string, i: nat, j: nat)
    requires i < |left| && j < |right|
    ensures Lev(left[..i + 1], right[..j + 1]) == Min(
      Lev(left[..i], right[..j]) + Cost(left[i], right[j]),
      Min(Lev(left[..i], right[..j + 1]), Lev(left[..i + 1], right[..j])) + 1)
  {
    var here, there := left[..i + 1], right[..j + 1];
    assert Init(here) == left[..i] && Last(here) == left[i];
    assert Init(there) == right[..j] && Last(there) == right[j];
  }

  function Row(left: string, right: string): seq<nat> {
    seq(|right| + 1, j requires 0 <= j <= |right| => Lev(left, right[..j]))
  }

  /** `here` is the row below `above` for one more character. */
  predicate NextRow(c: char, right: string, above: seq<nat>, here: seq<nat>)
    requires |above| == |here| == |right| + 1
  {
    && here[0] == above[0] + 1
    && forall j | 0 <= j < |right| ::
         here[j + 1] == Min(Min(above[j] + Cost(c, right[j]), above[j + 1] + 1), here[j] + 1)
  }

  lemma RowCell(left: string, right: string, j: nat)
    requires j <= |right|
    ensures Row(left, right)[j] == Lev(left, right[..j])
  {
  }

  lemma RowsFollow(left: string, right: string, i: nat)
    requires i < |left|
    ensures NextRow(left[i], right, Row(left[..i], right), Row(left[..i + 1], right))
  {
    var above, here := Row(left[..i], right), Row(left[..i + 1], right);
    RowStart(left[..i], right);
    RowStart(left[..i + 1], right);
    forall j | 0 <= j < |right|
      ensures here[j + 1] == Min(Min(above[j] + Cost(left[i], right[j]), above[j + 1] + 1), here[j] + 1)
    {
      CellOfRows(left, right, i, j);
    }
  }

  lemma CellOfRows(left: string, right: string, i: nat, j: nat)
    requires i < |left| && j < |right|
    ensures var above, here := Row(left[..i], right), Row(left[..i + 1], right);
      here[j + 1] == Min(Min(above[j] + Cost(left[i], right[j]), above[j + 1] + 1), here[j] + 1)
  {
    Cell(left, right, i, j);
    RowCell(left[..i], right, j);
    RowCell(left[..i], right, j + 1);
    RowCell(left[..i + 1], right, j);
    RowCell(left[..i + 1], right, j + 1);
  }

  lemma RowStart(left: string, right: string)
    ensures Row(left, right)[0] == |left|
  {
    assert Row(left, right)[0] == Lev(left, right[..0]);
  }

  /** All rows of the dynamic-programming table. */
  lemma Table(left: string, right: string) returns (rows: seq<seq<nat>>)
    ensures |rows| == |left| + 1 && forall i | 0 <= i <= |left| :: |rows[i]| == |right| + 1 && rows[i][0] == i
    ensures forall j | 0 <= j <= |right| :: rows[0][j] == j
    ensures forall i | 0 <= i < |left| :: NextRow(left[i], right, rows[i], rows[i + 1])
    ensures rows[|left|][|right|] == Lev(left, right)
  {
    rows := seq(|left| + 1, i requires 0 <= i <= |left| => Row(left[..i], right));
    forall i | 0 <= i < |left|
      ensures NextRow(left[i], right, rows[i], rows[i + 1])
    {
      RowsFollow(left, right, i);
    }
    assert left[..|left|] == left && right[..|right|] == right;
    assert forall i | 0 <= i <= |left| :: rows[i][0] == Lev(left[..i], right[..0]);
  }

  /** The loop of the source: one row is kept, the next is overwritten in place, and the two are swapped. */
  method Compute(left: string, right: string) returns (distance: nat)
    ensures distance == Lev(left, right)
  {
    ghost var rows := Table(left, right);
    var previous := new nat[|right| + 1](j => j);
    var current := new nat[|right| + 1](_ => 0);
    for i := 0 to |left|
      invariant previous.Length == current.Length == |right| + 1 && previous != current
      invariant fresh(previous) && fresh(current)
      invariant forall k | 0 <= k <= |right| :: previous[k] == rows[i][k]
    {
      ghost var above, here := rows[i], rows[i + 1];
      assert NextRow(left[i], right, above, here);
      current[0] := i + 1;
      for j := 0 to |right|
        invariant forall k | 0 <= k <= |right| :: previous[k] == above[k]
        invariant forall k | 0 <= k <= j :: current[k] == here[k]
      {
        assert here[j + 1] == Min(Min(above[j] + Cost(left[i], right[j]), above[j + 1] + 1), here[j] + 1);
        var substitution := previous[j] + if left[i] != right[j] then 1 else 0;
        current[j + 1] := Min(Min(substitution, previous[j + 1] + 1), current[j] + 1);
      }
      previous, current := current, previous;
    }
    distance := previous[|right|];
  }

  // ----- the metric laws -----

  lemma {:induction false} LevSelf(a: string)
    ensures Lev(a, a) == 0
  {
    if a != "" {
      LevSelf(Init(a));
    }
  }

  lemma {:induction false} LevZero(a: string, b: string)
    requires Lev(a, b) == 0
    ensures a == b
    decreases |a|
  {
    if a != "" && b != "" {
      assert Lev(Init(a), Init(b)) == 0 && Last(a) == Last(b);
      LevZero(Init(a), Init(b));
      assert a == Init(a) + [Last(a)] && b == Init(b) + [Last(b)];
    }
  }

  /** The distance is zero exactly on equal strings. */
  lemma ZeroIffEqual(a: string, b: string)
    ensures Lev(a, b) == 0 <==> a == b
  {
    LevSelf(a);
    if Lev(a, b) == 0 {
      LevZero(a, b);
    }
  }

  lemma {:induction false} Symmetric(a: string, b: string)
    ensures Lev(a, b) == Lev(b, a)
    decreases |a| + |b|
  {
    if a != "" && b != "" {
      Symmetric(Init(a), Init(b));
      Symmetric(Init(a), b);
      Symmetric(a, Init(b));
    }
  }

  lemma {:induction false} LengthBound(a: string, b: string)
    ensures Lev(a, b) >= |a| - |b| && Lev(a, b) >= |b| - |a|
    decreases |a| + |b|
  {
    if a != "" && b != "" {
      LengthBound(Init(a), Init(b));
      LengthBound(Init(a), b);
      LengthBound(a, Init(b));
    }
  }

  lemma {:induction false} Triangle(a: string, b: string, c: string)
    ensures Lev(a, c) <= Lev(a, b) + Lev(b, c)
    decreases |a| + |b| + |c|
  {
    if a == "" || b == "" || c == "" {
      LengthBound(a, b);
      LengthBound(b, c);
      if b == "" && a != "" && c != "" {
        TriangleThroughEmpty(a, c);
      }
    } else if Lev(a, b) == Lev(Init(a), b) + 1 {
      Triangle(Init(a), b, c);
    } else if Lev(b, c) == Lev(b, Init(c)) + 1 {
      Triangle(a, b, Init(c));
    } else {
      Triangle(a, Init(b), c);
      Triangle(Init(a), Init(b), c);
      Triangle(a, Init(b), Init(c));
      Triangle(Init(a), Init(b), Init(c));
    }
  }

  lemma {:induction false} TriangleThroughEmpty(a: string, c: string)
    ensures Lev(a, c) <= |a| + |c|
    decreases |a|
  {
    if a != "" && c != "" {
      TriangleThroughEmpty(Init(a), c);
    }
  }

  // ----- the least number of edits -----

  /** `b` is `a` with one character inserted, deleted or replaced. */
  ghost predicate OneEdit(a: string, b: string) {
    exists i :: 0 <= i <= |a| && EditAt(a, b, i)
  }

  ghost predicate EditAt(a: string, b: string, i: int)
    requires 0 <= i <= |a|
  {
    || (exists x: char :: b == a[..i] + [x] + a[i..])
    || (i < |a| && b == a[..i] + a[i + 1..])
    || (i < |a| && exists x: char :: b == a[..i] + [x] + a[i + 1..])
  }

  /** A chain of strings, each one edit away from the one before it. */
  ghost predicate EditChain(chain: seq<string>) {
    chain != [] && forall k :: 0 <= k < |chain| - 1 ==> OneEdit(chain[k], chain[k + 1])
  }

  /** A chain of edits leading from `a` to `b`. */
  ghost predicate Transforms(chain: seq<string>, a: string, b: string) {
    EditChain(chain) && chain[0] == a && chain[|chain| - 1] == b
  }

  lemma SameLast(a: string, b: string)
    requires a != "" && b != "" && Last(a) == Last(b)
    ensures Lev(a, b) <= Lev(Init(a), Init(b))
  {
  }

  lemma EndsAlike(u: string, s: string)
    requires s != ""
    ensures u + s != "" && Init(u + s) == u + Init(s) && Last(u + s) == Last(s)
  {
  }

  lemma {:induction false} CommonSuffix(u: string, v: string, s: string)
    ensures Lev(u + s, v + s) <= Lev(u, v)
    decreases |s|
  {
    if s == "" {
      assert u + s == u && v + s == v;
    } else {
      CommonSuffix(u, v, Init(s));
      EndsAlike(u, s);
      EndsAlike(v, s);
      SameLast(u + s, v + s);
    }
  }

  /** Removing the last character costs at most one. */
  lemma RemovalCostsAtMostOne(head: string, c: char)
    ensures Lev(head + [c], head) <= 1
  {
    assert Init(head + [c]) == head;
    LevSelf(head);
  }

  lemma InsertionCostsAtMostOne(head: string, c: char)
    ensures Lev(head, head + [c]) <= 1
  {
    RemovalCostsAtMostOne(head, c);
    Symmetric(head, head + [c]);
  }

  lemma ReplacementCostsAtMostOne(head: string, c: char, d: char)
    ensures Lev(head + [c], head + [d]) <= 1
  {
    assert Init(head + [c]) == Init(head + [d]) == head;
    LevSelf(head);
  }

  lemma SplitAround(a: string, i: nat)
    requires i <= |a|
    ensures a == a[..i] + a[i..]
    ensures i < |a| ==> a == a[..i] + [a[i]] + a[i + 1..]
  {
  }

  lemma OneEditCostsAtMostOne(a: string, b: string)
    requires OneEdit(a, b)
    ensures Lev(a, b) <= 1
  {
    var i: nat :| i <= |a| && EditAt(a, b, i);
    SplitAround(a, i);
    if x: char :| b == a[..i] + [x] + a[i..] {
      InsertionCostsAtMostOne(a[..i], x);
      CommonSuffix(a[..i], a[..i] + [x], a[i..]);
    } else if b == a[..i] + a[i + 1..] {
      RemovalCostsAtMostOne(a[..i], a[i]);
      CommonSuffix(a[..i] + [a[i]], a[..i], a[i + 1..]);
    } else {
      var x: char :| b == a[..i] + [x] + a[i + 1..];
      ReplacementCostsAtMostOne(a[..i], a[i], x);
      CommonSuffix(a[..i] + [a[i]], a[..i] + [x], a[i + 1..]);
    }
  }

  lemma {:induction false} ChainIsLongEnough(chain: seq<string>, a: string, b: string)
    requires Transforms(chain, a, b)
    ensures Lev(a, b) <= |chain| - 1
    decreases |chain|
  {
    if |chain| == 1 {
      LevSelf(a);
    } else {
      assert forall k :: 0 <= k < |chain[1..]| ==> chain[1..][k] == chain[k + 1];
      ChainIsLongEnough(chain[1..], chain[1], b);
      OneEditCostsAtMostOne(a, chain[1]);
      Triangle(a, chain[1], b);
    }
  }

  lemma EditBeforeCharacter(u: string, v: string, c: char)
    requires OneEdit(u, v)
    ensures OneEdit(u + [c], v + [c])
  {
    var i :| 0 <= i <= |u| && EditAt(u, v, i);
    var u', v' := u + [c], v + [c];
    assert u'[..i] == u[..i] && u'[i..] == u[i..] + [c];
    if x: char :| v == u[..i] + [x] + u[i..] {
      assert v' == u'[..i] + [x] + u'[i..];
    } else {
      assert u'[i + 1..] == u[i + 1..] + [c];
      if v == u[..i] + u[i + 1..] {
        assert v' == u'[..i] + u'[i + 1..];
      } else {
        var x: char :| v == u[..i] + [x] + u[i + 1..];
        assert v' == u'[..i] + [x] + u'[i + 1..];
      }
    }
    assert EditAt(u', v', i);
  }

  lemma AppendIsOneEdit(a: string, c: char)
    ensures OneEdit(a, a + [c]) && OneEdit(a + [c], a)
  {
    assert a[..|a|] == a && a[|a|..] == "";
    assert a + [c] == a[..|a|] + [c] + a[|a|..];
    assert EditAt(a, a + [c], |a|);
    assert a == (a + [c])[..|a|] + (a + [c])[|a| + 1..];
    assert EditAt(a + [c], a, |a|);
  }

  lemma ReplaceLastIsOneEdit(a: string, x: char, y: char)
    ensures OneEdit(a + [x], a + [y])
  {
    assert a + [y] == (a + [x])[..|a|] + [y] + (a + [x])[|a| + 1..];
    assert EditAt(a + [x], a + [y], |a|);
  }

  lemma ExtendChain(chain: seq<string>, a: string, b: string, b': string)
    requires Transforms(chain, a, b) && OneEdit(b, b')
    ensures Transforms(chain + [b'], a, b')
  {
    var longer := chain + [b'];
    forall k | 0 <= k < |longer| - 1
      ensures OneEdit(longer[k], longer[k + 1])
    {
      assert k < |chain| - 1 ==> OneEdit(chain[k], chain[k + 1]);
    }
  }

  lemma PrependChain(a: string, chain: seq<string>, a': string, b: string)
    requires Transforms(chain, a', b) && OneEdit(a, a')
    ensures Transforms([a] + chain, a, b)
  {
    var longer := [a] + chain;
    forall k | 0 <= k < |longer| - 1
      ensures OneEdit(longer[k], longer[k + 1])
    {
      assert k > 0 ==> OneEdit(chain[k - 1], chain[k]);
    }
  }

  lemma ChainBeforeCharacter(short: seq<string>, a: string, b: string, c: char) returns (chain: seq<string>)
    requires Transforms(short, a, b)
    ensures Transforms(chain, a + [c], b + [c]) && |chain| == |short|
  {
    chain := seq(|short|, k requires 0 <= k < |short| => short[k] + [c]);
    forall k | 0 <= k < |chain| - 1
      ensures OneEdit(chain[k], chain[k + 1])
    {
      EditBeforeCharacter(short[k], short[k + 1], c);
    }
  }

  lemma ChainByInsertion(short: seq<string>, a: string, b: string) returns (chain: seq<string>)
    requires b != "" && Transforms(short, a, Init(b))
    ensures Transforms(chain, a, b) && |chain| == |short| + 1
  {
    AppendIsOneEdit(Init(b), Last(b));
    assert Init(b) + [Last(b)] == b;
    ExtendChain(short, a, Init(b), b);
    chain := short + [b];
  }

  lemma ChainByDeletion(short: seq<string>, a: string, b: string) returns (chain: seq<string>)
    requires a != "" && Transforms(short, Init(a), b)
    ensures Transforms(chain, a, b) && |chain| == |short| + 1
  {
    AppendIsOneEdit(Init(a), Last(a));
    assert Init(a) + [Last(a)] == a;
    PrependChain(a, short, Init(a), b);
    chain := [a] + short;
  }

  lemma ChainByReplacement(short: seq<string>, a: string, b: string) returns (chain: seq<string>)
    requires a != "" && b != "" && Transforms(short, Init(a), Init(b))
    ensures Transforms(chain, a, b) && |chain| == |short| + Cost(Last(a), Last(b))
  {
    chain := ChainBeforeCharacter(short, Init(a), Init(b), Last(a));
    assert Init(a) + [Last(a)] == a && Init(b) + [Last(b)] == b;
    if Last(a) != Last(b) {
      ReplaceLastIsOneEdit(Init(b), Last(a), Last(b));
      ExtendChain(chain, a, Init(b) + [Last(a)], b);
      chain := chain + [b];
    }
  }

  /** A chain of exactly `Lev(a, b)` edits from `a` to `b`. */
  lemma {:induction false} ShortestChain(a: string, b: string) returns (chain: seq<string>)
    ensures Transforms(chain, a, b) && |chain| == Lev(a, b) + 1
    decreases |a| + |b|
  {
    var short;
    if a == "" && b == "" {
      chain := [a];
    } else if a == "" || (b != "" && Lev(a, b) == Lev(a, Init(b)) + 1) {
      short := ShortestChain(a, Init(b));
      chain := ChainByInsertion(short, a, b);
    } else if b == "" || Lev(a, b) == Lev(Init(a), b) + 1 {
      short := ShortestChain(Init(a), b);
      chain := ChainByDeletion(short, a, b);
    } else {
      short := ShortestChain(Init(a), Init(b));
      chain := ChainByReplacement(short, a, b);
    }
  }

  /** The distance is the least number of single-character edits that turn `a` into `b`. */
  lemma LeastNumberOfEdits(a: string, b: string)
    ensures exists chain :: Transforms(chain, a, b) && |chain| - 1 == Lev(a, b)
    ensures forall chain :: Transforms(chain, a, b) ==> Lev(a, b) <= |chain| - 1
  {
    var shortest := ShortestChain(a, b);
    forall chain | Transforms(chain, a, b)
      ensures Lev(a, b) <= |chain| - 1
    {
      ChainIsLongEnough(chain, a, b);
    }
  }
}
