/** Cutting a JSON tree to a word budget: the words that remain are a flat prefix of the words there were. */
module TreeTruncation {
  import opened Prelude
  import Sequences
  import opened Text
  import opened Json

  // ----- the words of a tree, in traversal order -----

  function WordsOf(v: Json): seq<string>
    decreases v, 1
  {
    match v
    case Str(text) => Words(text)
    case Arr(items) => WordsOfItems(items)
    case Obj(fields) => WordsOfFields(fields)
    case _ => []
  }

  function WordsOfItems(items: seq<Json>): seq<string>
    decreases items, 0
  {
    if items == [] then [] else WordsOf(items[0]) + WordsOfItems(items[1..])
  }

  function WordsOfFields(fields: seq<Field>): seq<string>
    decreases fields, 0
  {
    if fields == [] then [] else WordsOf(fields[0].value) + WordsOfFields(fields[1..])
  }

  /** The source's counter, which adds up the counts of the parts. */
  function TokenCount(v: Json): nat
    decreases v, 1
  {
    match v
    case Str(text) => |Words(text)|
    case Arr(items) => TokenCountItems(items)
    case Obj(fields) => TokenCountFields(fields)
    case _ => 0
  }

  function TokenCountItems(items: seq<Json>): nat
    decreases items, 0
  {
    if items == [] then 0 else TokenCount(items[0]) + TokenCountItems(items[1..])
  }

  function TokenCountFields(fields: seq<Field>): nat
    decreases fields, 0
  {
    if fields == [] then 0 else TokenCount(fields[0].value) + TokenCountFields(fields[1..])
  }

  // ----- truncation -----

  function TruncatedText(text: string, remaining: nat): (string, nat) {
    var words := Words(text);
    if |words| > remaining then (Join(words[..remaining]), 0) else (text, remaining - |words|)
  }

  /** The tree cut to `remaining` words, and the budget left over. */
  function Truncated(v: Json, remaining: nat): (Json, nat)
    decreases v, 1
  {
    match v
    case Str(text) => var (t, left) := TruncatedText(text, remaining); (Str(t), left)
    case Arr(items) => var (kept, left) := TruncatedItems(items, remaining); (Arr(kept), left)
    case Obj(fields) => var (kept, left) := TruncatedFields(fields, remaining); (Obj(kept), left)
    case _ => (v, remaining)
  }

  function TruncatedItems(items: seq<Json>, remaining: nat): (seq<Json>, nat)
    decreases items, 0
  {
    if items == [] || remaining == 0 then ([], remaining)
    else
      var (head, left) := Truncated(items[0], remaining);
      var (tail, left') := TruncatedItems(items[1..], left);
      ([head] + tail, left')
  }

  function TruncatedFields(fields: seq<Field>, remaining: nat): (seq<Field>, nat)
    decreases fields, 0
  {
    if fields == [] || remaining == 0 then ([], remaining)
    else
      var (head, left) := Truncated(fields[0].value, remaining);
      var (tail, left') := TruncatedFields(fields[1..], left);
      ([Field(fields[0].key, head)] + tail, left')
  }

  /** The loops of the source: the value is rewritten in place and the budget counts down. */
  method TruncateValue(v: Json, remaining: nat) returns (v': Json, left: nat)
    ensures (v', left) == Truncated(v, remaining)
    decreases v, 1
  {
    v', left := v, remaining;
    match v
    case Str(text) =>
      var words := Words(text);
      if |words| > left {
        var truncated := FirstWords(text, left);
        v', left := Str(truncated), 0;
      } else {
        left := left - |words|;
      }
    case Arr(items) =>
      var kept;
      kept, left := TruncateItems(items, left);
      v' := Arr(kept);
    case Obj(fields) =>
      var kept;
      kept, left := TruncateFields(fields, left);
      v' := Obj(kept);
    case _ =>
  }

  lemma JoinNext(words: seq<string>, i: nat)
    requires i < |words|
    ensures Join(words[..i + 1]) == if i == 0 then words[0] else Join(words[..i]) + " " + words[i]
  {
    assert words[..i + 1] == words[..i] + [words[i]];
    JoinAppend(words[..i], words[i]);
  }

  method FirstWords(text: string, n: nat) returns (truncated: string)
    requires n <= |Words(text)|
    ensures truncated == Join(Words(text)[..n])
  {
    var words := Words(text);
    WordsFromAreWords("", text);
    truncated := "";
    for i := 0 to n
      invariant truncated == Join(words[..i]) && (i > 0 ==> truncated != "")
    {
      assert words[i] in words;
      JoinNext(words, i);
      if truncated != "" {
        truncated := truncated + " ";
      }
      truncated := truncated + words[i];
    }
  }

  lemma NextItem(items: seq<Json>, k: nat, left: nat)
    requires k < |items| && left != 0
    ensures var (head, left') := Truncated(items[k], left);
      var (tail, left'') := TruncatedItems(items[k + 1..], left');
      TruncatedItems(items[k..], left) == ([head] + tail, left'')
  {
    assert items[k..][1..] == items[k + 1..];
  }

  lemma NextField(fields: seq<Field>, k: nat, left: nat)
    requires k < |fields| && left != 0
    ensures var (head, left') := Truncated(fields[k].value, left);
      var (tail, left'') := TruncatedFields(fields[k + 1..], left');
      TruncatedFields(fields[k..], left) == ([Field(fields[k].key, head)] + tail, left'')
  {
    assert fields[k..][1..] == fields[k + 1..];
  }

  method TruncateItems(items: seq<Json>, remaining: nat) returns (kept: seq<Json>, left: nat)
    ensures (kept, left) == TruncatedItems(items, remaining)
    decreases items, 0
  {
    kept, left := [], remaining;
    while |kept| < |items| && left != 0
      invariant |kept| <= |items|
      invariant TruncatedItems(items, remaining).0 == kept + TruncatedItems(items[|kept|..], left).0
      invariant TruncatedItems(items, remaining).1 == TruncatedItems(items[|kept|..], left).1
    {
      var item', left' := TruncateValue(items[|kept|], left);
      NextItem(items, |kept|, left);
      Sequences.Assoc(kept, [item'], TruncatedItems(items[|kept| + 1..], left').0);
      kept, left := kept + [item'], left';
    }
    assert kept + [] == kept;
  }

  /** The members of an object in key order; those not reached are removed. */
  method TruncateFields(fields: seq<Field>, remaining: nat) returns (kept: seq<Field>, left: nat)
    ensures (kept, left) == TruncatedFields(fields, remaining)
    decreases fields, 0
  {
    kept, left := [], remaining;
    while |kept| < |fields| && left != 0
      invariant |kept| <= |fields|
      invariant TruncatedFields(fields, remaining).0 == kept + TruncatedFields(fields[|kept|..], left).0
      invariant TruncatedFields(fields, remaining).1 == TruncatedFields(fields[|kept|..], left).1
    {
      var field := fields[|kept|];
      var value', left' := TruncateValue(field.value, left);
      NextField(fields, |kept|, left);
      Sequences.Assoc(kept, [Field(field.key, value')], TruncatedFields(fields[|kept| + 1..], left').0);
      kept, left := kept + [Field(field.key, value')], left';
    }
    assert kept + [] == kept;
  }

  lemma {:induction false} JoinAppend(words: seq<string>, w: string)
    ensures Join(words + [w]) == if words == [] then w else Join(words) + " " + w
  {
    if words == [] {
      assert words + [w] == [w];
    } else {
      assert (words + [w])[0] == words[0] && (words + [w])[1..] == words[1..] + [w];
      JoinAppend(words[1..], w);
    }
  }

  // ----- truncation is a flat take -----

  lemma {:induction false} CountIsLength(v: Json)
    ensures TokenCount(v) == |WordsOf(v)|
    decreases v, 1
  {
    match v
    case Arr(items) => CountIsLengthItems(items);
    case Obj(fields) => CountIsLengthFields(fields);
    case _ =>
  }

  lemma {:induction false} CountIsLengthItems(items: seq<Json>)
    ensures TokenCountItems(items) == |WordsOfItems(items)|
    decreases items, 0
  {
    if items != [] {
      CountIsLength(items[0]);
      CountIsLengthItems(items[1..]);
    }
  }

  lemma {:induction false} CountIsLengthFields(fields: seq<Field>)
    ensures TokenCountFields(fields) == |WordsOfFields(fields)|
    decreases fields, 0
  {
    if fields != [] {
      CountIsLength(fields[0].value);
      CountIsLengthFields(fields[1..]);
    }
  }

  function Taken(words: seq<string>, n: nat): seq<string> {
    words[..Min(n, |words|)]
  }

  lemma TakenConcat(a: seq<string>, b: seq<string>, n: nat)
    ensures Taken(a + b, n) == Taken(a, n) + Taken(b, n - Min(n, |a|))
  {
  }

  lemma TextIsTaken(text: string, n: nat)
    ensures Words(TruncatedText(text, n).0) == Taken(Words(text), n)
    ensures TruncatedText(text, n).1 == n - Min(n, |Words(text)|)
  {
    WordsFromAreWords("", text);
    if |Words(text)| > n {
      WordsOfJoin(Words(text)[..n]);
    }
  }

  /** Read in traversal order, the truncated tree holds the first `n` words of the original,
      and the leftover budget is what those words did not use. */
  lemma {:induction false} TruncationIsTaken(v: Json, n: nat)
    ensures WordsOf(Truncated(v, n).0) == Taken(WordsOf(v), n)
    ensures Truncated(v, n).1 == n - Min(n, |WordsOf(v)|)
    decreases v, 1
  {
    match v
    case Str(text) => TextIsTaken(text, n);
    case Arr(items) => ItemsAreTaken(items, n);
    case Obj(fields) => FieldsAreTaken(fields, n);
    case _ =>
  }

  lemma {:induction false} ItemsAreTaken(items: seq<Json>, n: nat)
    ensures WordsOfItems(TruncatedItems(items, n).0) == Taken(WordsOfItems(items), n)
    ensures TruncatedItems(items, n).1 == n - Min(n, |WordsOfItems(items)|)
    decreases items, 0
  {
    if items != [] && n != 0 {
      var (head, left) := Truncated(items[0], n);
      TruncationIsTaken(items[0], n);
      ItemsAreTaken(items[1..], left);
      TakenConcat(WordsOf(items[0]), WordsOfItems(items[1..]), n);
      var tail := TruncatedItems(items[1..], left).0;
      assert ([head] + tail)[1..] == tail;
    }
  }

  lemma {:induction false} FieldsAreTaken(fields: seq<Field>, n: nat)
    ensures WordsOfFields(TruncatedFields(fields, n).0) == Taken(WordsOfFields(fields), n)
    ensures TruncatedFields(fields, n).1 == n - Min(n, |WordsOfFields(fields)|)
    decreases fields, 0
  {
    if fields != [] && n != 0 {
      var (head, left) := Truncated(fields[0].value, n);
      TruncationIsTaken(fields[0].value, n);
      FieldsAreTaken(fields[1..], left);
      TakenConcat(WordsOf(fields[0].value), WordsOfFields(fields[1..]), n);
      var tail := TruncatedFields(fields[1..], left).0;
      assert ([Field(fields[0].key, head)] + tail)[1..] == tail;
    }
  }

  // ----- what truncation leaves alone -----

  /** A tree with words to spare comes back unchanged. */
  lemma {:induction false} SpareBudgetKeepsTree(v: Json, n: nat)
    requires |WordsOf(v)| < n
    ensures Truncated(v, n).0 == v
    decreases v, 1
  {
    TruncationIsTaken(v, n);
    match v
    case Arr(items) => SpareBudgetKeepsItems(items, n);
    case Obj(fields) => SpareBudgetKeepsFields(fields, n);
    case _ =>
  }

  lemma {:induction false} SpareBudgetKeepsItems(items: seq<Json>, n: nat)
    requires |WordsOfItems(items)| < n
    ensures TruncatedItems(items, n).0 == items
    decreases items, 0
  {
    if items != [] {
      SpareBudgetKeepsTree(items[0], n);
      TruncationIsTaken(items[0], n);
      SpareBudgetKeepsItems(items[1..], n - |WordsOf(items[0])|);
    }
  }

  lemma {:induction false} SpareBudgetKeepsFields(fields: seq<Field>, n: nat)
    requires |WordsOfFields(fields)| < n
    ensures TruncatedFields(fields, n).0 == fields
    decreases fields, 0
  {
    if fields != [] {
      SpareBudgetKeepsTree(fields[0].value, n);
      TruncationIsTaken(fields[0].value, n);
      SpareBudgetKeepsFields(fields[1..], n - |WordsOf(fields[0].value)|);
    }
  }

  /** `v'` is `v` with array and object tails cut off and strings replaced; every other value,
      every position and every key is kept. */
  ghost predicate IsPruning(v': Json, v: Json)
    decreases v, 1
  {
    match v
    case Str(_) => v'.Str?
    case Arr(items) => v'.Arr? && IsPruningItems(v'.items, items)
    case Obj(fields) => v'.Obj? && IsPruningFields(v'.fields, fields)
    case _ => v' == v
  }

  ghost predicate IsPruningItems(items': seq<Json>, items: seq<Json>)
    decreases items, 0
  {
    items' == [] || (items != [] && IsPruning(items'[0], items[0]) && IsPruningItems(items'[1..], items[1..]))
  }

  ghost predicate IsPruningFields(fields': seq<Field>, fields: seq<Field>)
    decreases fields, 0
  {
    || fields' == []
    || (&& fields != [] && fields'[0].key == fields[0].key
        && IsPruning(fields'[0].value, fields[0].value) && IsPruningFields(fields'[1..], fields[1..]))
  }

  lemma {:induction false} TruncationPrunes(v: Json, n: nat)
    ensures IsPruning(Truncated(v, n).0, v)
    decreases v, 1
  {
    match v
    case Arr(items) => TruncationPrunesItems(items, n);
    case Obj(fields) => TruncationPrunesFields(fields, n);
    case _ =>
  }

  lemma {:induction false} TruncationPrunesItems(items: seq<Json>, n: nat)
    ensures IsPruningItems(TruncatedItems(items, n).0, items)
    decreases items, 0
  {
    if items != [] && n != 0 {
      var (head, left) := Truncated(items[0], n);
      TruncationPrunes(items[0], n);
      TruncationPrunesItems(items[1..], left);
      assert TruncatedItems(items, n).0[1..] == TruncatedItems(items[1..], left).0;
    }
  }

  lemma {:induction false} TruncationPrunesFields(fields: seq<Field>, n: nat)
    ensures IsPruningFields(TruncatedFields(fields, n).0, fields)
    decreases fields, 0
  {
    if fields != [] && n != 0 {
      var (head, left) := Truncated(fields[0].value, n);
      TruncationPrunes(fields[0].value, n);
      TruncationPrunesFields(fields[1..], left);
      assert TruncatedFields(fields, n).0[1..] == TruncatedFields(fields[1..], left).0;
    }
  }

  /** Truncating again with the same budget changes nothing more. */
  lemma {:induction false} TruncationIsIdempotent(v: Json, n: nat)
    ensures Truncated(Truncated(v, n).0, n) == Truncated(v, n)
    decreases v, 1
  {
    match v
    case Str(text) => TextIsTaken(text, n);
    case Arr(items) => ItemsIdempotent(items, n);
    case Obj(fields) => FieldsIdempotent(fields, n);
    case _ =>
  }

  lemma {:induction false} ItemsIdempotent(items: seq<Json>, n: nat)
    ensures TruncatedItems(TruncatedItems(items, n).0, n) == TruncatedItems(items, n)
    decreases items, 0
  {
    if items != [] && n != 0 {
      var (head, left) := Truncated(items[0], n);
      TruncationIsIdempotent(items[0], n);
      ItemsIdempotent(items[1..], left);
      var again := TruncatedItems(items, n).0;
      assert again[0] == head && again[1..] == TruncatedItems(items[1..], left).0;
    }
  }

  lemma {:induction false} FieldsIdempotent(fields: seq<Field>, n: nat)
    ensures TruncatedFields(TruncatedFields(fields, n).0, n) == TruncatedFields(fields, n)
    decreases fields, 0
  {
    if fields != [] && n != 0 {
      var (head, left) := Truncated(fields[0].value, n);
      TruncationIsIdempotent(fields[0].value, n);
      FieldsIdempotent(fields[1..], left);
      var again := TruncatedFields(fields, n).0;
      assert again[0] == Field(fields[0].key, head) && again[1..] == TruncatedFields(fields[1..], left).0;
    }
  }

  // ----- the reading view -----

  datatype ContentView = ContentView(content: Json, contentTokens: nat, truncated: bool)

  /** The truncation step of a book read. */
  method ReadContent(content: Json, maxTokens: nat) returns (view: ContentView)
    ensures view.truncated <==> |WordsOf(content)| > maxTokens
    ensures WordsOf(view.content) == Taken(WordsOf(content), maxTokens)
    ensures view.contentTokens == Min(|WordsOf(content)|, maxTokens)
    ensures !view.truncated ==> view.content == content
    ensures IsPruning(view.content, content)
  {
    var originalTokens := TokenCount(content);
    CountIsLength(content);
    var truncated := originalTokens > maxTokens;
    var content' := content;
    if truncated {
      var left;
      content', left := TruncateValue(content, maxTokens);
      TruncationIsTaken(content, maxTokens);
      TruncationPrunes(content, maxTokens);
    } else {
      SelfPruning(content);
    }
    CountIsLength(content');
    view := ContentView(content', TokenCount(content'), truncated);
  }

  lemma {:induction false} SelfPruning(v: Json)
    ensures IsPruning(v, v)
    decreases v, 1
  {
    match v
    case Arr(items) => SelfPruningItems(items);
    case Obj(fields) => SelfPruningFields(fields);
    case _ =>
  }

  lemma {:induction false} SelfPruningItems(items: seq<Json>)
    ensures IsPruningItems(items, items)
    decreases items, 0
  {
    if items != [] {
      SelfPruning(items[0]);
      SelfPruningItems(items[1..]);
    }
  }

  lemma {:induction false} SelfPruningFields(fields: seq<Field>)
    ensures IsPruningFields(fields, fields)
    decreases fields, 0
  {
    if fields != [] {
      SelfPruning(fields[0].value);
      SelfPruningFields(fields[1..]);
    }
  }
}
