/** Cache keys: sorted manifests of observed inputs and their length-prefixed canonical encoding. */
module CacheKeys {
  import opened Prelude
  import opened Ordering

  /** Bytes whose length fits the 64-bit length prefix, as every buffer in memory does. Names and
      digests are represented by their UTF-8 bytes. */
  type Field = b: seq<Byte> | |b| <= U64_MAX

  datatype ObservedInput = ObservedInput(name: Field, digest: Field, size: U64)

  // ----- manifests -----

  function ByteRank(b: Byte): int {
    b
  }

  predicate BytesLeq(a: seq<Byte>, b: seq<Byte>) {
    LexLeq(ByteRank, a, b)
  }

  /** By name, then by digest. */
  predicate InputLeq(a: ObservedInput, b: ObservedInput) {
    BytesLeq(a.name, b.name) && (a.name == b.name ==> BytesLeq(a.digest, b.digest))
  }

  lemma InputOrder()
    ensures TotalPreorder(InputLeq)
    ensures forall a, b | InputLeq(a, b) && InputLeq(b, a) :: a.name == b.name && a.digest == b.digest
  {
    LexOrder(ByteRank);
  }

  /** The inputs of a new manifest, stably sorted. */
  function NewManifest(inputs: seq<ObservedInput>): seq<ObservedInput> {
    Sort(InputLeq, inputs)
  }

  /** The order of byte strings: a prefix comes first, and otherwise the first differing byte decides. */
  ghost predicate BytesInOrder(a: seq<Byte>, b: seq<Byte>) {
    a <= b || exists k: nat :: k < |a| && k < |b| && a[..k] == b[..k] && a[k] < b[k]
  }

  lemma BytesLeqIff(a: seq<Byte>, b: seq<Byte>)
    ensures BytesLeq(a, b) <==> BytesInOrder(a, b)
  {
    LexLeqIff(ByteRank, a, b);
    if AgreesWithPrefix(ByteRank, a, b) {
      assert a == b[..|a|];
    }
    if k: nat :| LowerFrom(ByteRank, a, b, k) {
      assert a[..k] == b[..k];
    }
    if k: nat :| k < |a| && k < |b| && a[..k] == b[..k] && a[k] < b[k] {
      assert forall i | 0 <= i < k :: a[i] == a[..k][i] == b[..k][i] == b[i];
      assert LowerFrom(ByteRank, a, b, k);
    }
  }

  /** A manifest is its inputs by name, and by digest among those of the same name. */
  lemma ManifestIsSorted(inputs: seq<ObservedInput>)
    ensures var manifest := NewManifest(inputs);
      && multiset(manifest) == multiset(inputs)
      && forall i, j | 0 <= i < j < |manifest| ::
           if manifest[i].name == manifest[j].name then BytesInOrder(manifest[i].digest, manifest[j].digest)
           else BytesInOrder(manifest[i].name, manifest[j].name)
  {
    var manifest := NewManifest(inputs);
    InputOrder();
    SortIsSorted(InputLeq, inputs);
    forall i, j | 0 <= i < j < |manifest|
      ensures if manifest[i].name == manifest[j].name then BytesInOrder(manifest[i].digest, manifest[j].digest)
              else BytesInOrder(manifest[i].name, manifest[j].name)
    {
      assert InputLeq(manifest[i], manifest[j]);
      BytesLeqIff(manifest[i].name, manifest[j].name);
      BytesLeqIff(manifest[i].digest, manifest[j].digest);
    }
  }

  /** Inputs with the same name and digest have the same size. */
  ghost predicate DigestFixesSize(inputs: seq<ObservedInput>) {
    forall x, y | x in inputs && y in inputs && x.name == y.name && x.digest == y.digest :: x.size == y.size
  }

  lemma {:induction false} TiesKeepTheirOrder(x: ObservedInput, y: ObservedInput, sorted: seq<ObservedInput>)
    requires InputLeq(x, y) && InputLeq(y, x) && x != y
    ensures Insert(InputLeq, x, Insert(InputLeq, y, sorted)) != Insert(InputLeq, y, Insert(InputLeq, x, sorted))
  {
    InputOrder();
    var xy := Insert(InputLeq, x, Insert(InputLeq, y, sorted));
    var yx := Insert(InputLeq, y, Insert(InputLeq, x, sorted));
    if sorted == [] || InputLeq(y, sorted[0]) {
      assert sorted == [] || InputLeq(x, sorted[0]);
      assert xy[0] == x && yx[0] == y;
    } else {
      assert !InputLeq(x, sorted[0]);
      TiesKeepTheirOrder(x, y, sorted[1..]);
      assert xy[1..] != yx[1..];
    }
  }

  /** Two inputs that tie in name and digest but differ in size sort into different manifests when swapped. */
  lemma SwappedTies(x: ObservedInput, y: ObservedInput, rest: seq<ObservedInput>)
    requires x.name == y.name && x.digest == y.digest && x.size != y.size
    ensures NewManifest([x, y] + rest) != NewManifest([y, x] + rest)
  {
    SameNameAndDigestTie(x, y);
    SortTwo(x, y, rest);
    SortTwo(y, x, rest);
    TiesKeepTheirOrder(x, y, Sort(InputLeq, rest));
  }

  lemma SameNameAndDigestTie(x: ObservedInput, y: ObservedInput)
    requires x.name == y.name && x.digest == y.digest
    ensures InputLeq(x, y) && InputLeq(y, x)
  {
    LexTotal(ByteRank, x.name, x.name);
    LexTotal(ByteRank, x.digest, x.digest);
  }

  lemma OrderMatters(inputs: seq<ObservedInput>, x: ObservedInput, y: ObservedInput)
    requires x in inputs && y in inputs && x.name == y.name && x.digest == y.digest && x.size != y.size
    ensures exists other :: multiset(other) == multiset(inputs) && NewManifest(other) != NewManifest(inputs)
  {
    var rest := Rearranged(inputs, x, y);
    SwappedTies(x, y, rest);
  }

  /** The manifest does not depend on the order in which the inputs were observed, exactly when a
      digest determines its size. */
  lemma OrderIndependentIff(inputs: seq<ObservedInput>)
    ensures DigestFixesSize(inputs) <==>
      forall other | multiset(other) == multiset(inputs) :: NewManifest(other) == NewManifest(inputs)
  {
    if DigestFixesSize(inputs) {
      InputOrder();
      forall other | multiset(other) == multiset(inputs)
        ensures NewManifest(other) == NewManifest(inputs)
      {
        SameSort(InputLeq, inputs, other);
      }
    } else {
      var x, y :| x in inputs && y in inputs && x.name == y.name && x.digest == y.digest && x.size != y.size;
      OrderMatters(inputs, x, y);
    }
  }

  lemma SortTwo(x: ObservedInput, y: ObservedInput, rest: seq<ObservedInput>)
    ensures NewManifest([x, y] + rest) == Insert(InputLeq, x, Insert(InputLeq, y, Sort(InputLeq, rest)))
  {
    var two, one := [x, y] + rest, [y] + rest;
    assert two[1..] == one && one[1..] == rest;
    assert Sort(InputLeq, one) == Insert(InputLeq, y, Sort(InputLeq, rest));
  }

  // ----- the encoding -----

  /** The `k` low bytes of `n`, least significant first. */
  function LittleEndian(n: nat, k: nat): seq<Byte> {
    if k == 0 then [] else [n % 256] + LittleEndian(n / 256, k - 1)
  }

  function WriteU64(n: U64): seq<Byte> {
    LittleEndian(n, 8)
  }

  function WriteField(value: Field): seq<Byte> {
    WriteU64(|value|) + value
  }

  function WriteInput(input: ObservedInput): seq<Byte> {
    WriteField(input.name) + WriteField(input.digest) + WriteU64(input.size)
  }

  function Canonical(inputs: seq<ObservedInput>): seq<Byte> {
    if inputs == [] then [] else WriteInput(inputs[0]) + Canonical(inputs[1..])
  }

  lemma AppendInput(out: seq<Byte>, input: ObservedInput, rest: seq<Byte>)
    ensures out + (WriteInput(input) + rest) ==
      out + WriteField(input.name) + WriteField(input.digest) + WriteU64(input.size) + rest
  {
  }

  /** The loop of the source appends field after field to one buffer. */
  method CanonicalBytes(inputs: seq<ObservedInput>) returns (out: seq<Byte>)
    ensures out == Canonical(inputs)
  {
    out := [];
    for i := 0 to |inputs|
      invariant Canonical(inputs) == out + Canonical(inputs[i..])
    {
      var input := inputs[i];
      AppendInput(out, input, Canonical(inputs[i + 1..]));
      assert inputs[i..][1..] == inputs[i + 1..];
      out := out + WriteField(input.name);
      out := out + WriteField(input.digest);
      out := out + WriteU64(input.size);
    }
    assert out + [] == out;
  }

  // ----- decoding -----

  function Value(bytes: seq<Byte>): nat {
    if bytes == [] then 0 else bytes[0] + 256 * Value(bytes[1..])
  }

  function Pow256(k: nat): nat {
    if k == 0 then 1 else 256 * Pow256(k - 1)
  }

  lemma {:induction false} LittleEndianRoundTrip(n: nat, k: nat)
    requires n < Pow256(k)
    ensures |LittleEndian(n, k)| == k && Value(LittleEndian(n, k)) == n
  {
    if k > 0 {
      LittleEndianRoundTrip(n / 256, k - 1);
      assert LittleEndian(n, k)[1..] == LittleEndian(n / 256, k - 1);
    }
  }

  lemma U64RoundTrip(n: U64)
    ensures |WriteU64(n)| == 8 && Value(WriteU64(n)) == n
  {
    assert Pow256(4) == 0x1_0000_0000;
    assert Pow256(8) == 256 * (256 * (256 * (256 * Pow256(4))));
    LittleEndianRoundTrip(n, 8);
  }

  /** A field and what follows it, or nothing if the bytes are too few. */
  function ReadField(bytes: seq<Byte>): (r: Option<(Field, seq<Byte>)>)
    ensures r.Some? ==> |r.value.1| < |bytes|
  {
    if |bytes| < 8 || Value(bytes[..8]) > Min(|bytes| - 8, U64_MAX) then None
    else
      var end := 8 + Value(bytes[..8]);
      Some((bytes[8..end], bytes[end..]))
  }

  function ReadInput(bytes: seq<Byte>): (r: Option<(ObservedInput, seq<Byte>)>)
    ensures r.Some? ==> |r.value.1| < |bytes|
  {
    var name := ReadField(bytes);
    if name.None? then None
    else
      var digest := ReadField(name.value.1);
      if digest.None? || |digest.value.1| < 8 || Value(digest.value.1[..8]) > U64_MAX then None
      else
        Some((ObservedInput(name.value.0, digest.value.0, Value(digest.value.1[..8])), digest.value.1[8..]))
  }

  function Decode(bytes: seq<Byte>): Option<seq<ObservedInput>>
    decreases |bytes|
  {
    if bytes == [] then Some([])
    else
      var first := ReadInput(bytes);
      if first.None? then None
      else
        var rest := Decode(first.value.1);
        if rest.None? then None else Some([first.value.0] + rest.value)
  }

  lemma FieldRoundTrip(value: Field, rest: seq<Byte>)
    ensures ReadField(WriteField(value) + rest) == Some((value, rest))
  {
    U64RoundTrip(|value|);
    var bytes := WriteField(value) + rest;
    assert bytes[..8] == WriteU64(|value|);
    assert bytes[8..8 + |value|] == value;
    assert bytes[8 + |value|..] == rest;
  }

  lemma InputRoundTrip(input: ObservedInput, rest: seq<Byte>)
    ensures ReadInput(WriteInput(input) + rest) == Some((input, rest))
  {
    var afterDigest := WriteU64(input.size) + rest;
    var afterName := WriteField(input.digest) + afterDigest;
    assert WriteInput(input) + rest == WriteField(input.name) + afterName;
    FieldRoundTrip(input.name, afterName);
    FieldRoundTrip(input.digest, afterDigest);
    U64RoundTrip(input.size);
    assert afterDigest[..8] == WriteU64(input.size) && afterDigest[8..] == rest;
  }

  /** Decoding inverts the canonical encoding. */
  lemma {:induction false} CanonicalRoundTrip(inputs: seq<ObservedInput>)
    ensures Decode(Canonical(inputs)) == Some(inputs)
  {
    if inputs != [] {
      CanonicalRoundTrip(inputs[1..]);
      InputRoundTrip(inputs[0], Canonical(inputs[1..]));
      U64RoundTrip(inputs[0].size);
      assert [inputs[0]] + inputs[1..] == inputs;
    }
  }

  /** Equal canonical bytes come from equal manifests. */
  lemma CanonicalInjective(a: seq<ObservedInput>, b: seq<ObservedInput>)
    ensures Canonical(a) == Canonical(b) <==> a == b
  {
    CanonicalRoundTrip(a);
    CanonicalRoundTrip(b);
  }

  // ----- keys -----

  /** The bytes that are hashed into a cache key. */
  function Preimage(namespace: Field, request: Field, inputs: seq<ObservedInput>): seq<Byte>
    requires |Canonical(inputs)| <= U64_MAX
  {
    WriteField(namespace) + WriteField(request) + WriteField(Canonical(inputs))
  }

  function CacheKey(hash: seq<Byte> -> string, namespace: Field, request: Field, inputs: seq<ObservedInput>): string
    requires |Canonical(inputs)| <= U64_MAX
  {
    hash(Preimage(namespace, request, inputs))
  }

  predicate Collides(hash: seq<Byte> -> string, x: seq<Byte>, y: seq<Byte>) {
    x != y && hash(x) == hash(y)
  }

  lemma PreimageInjective(
    n1: Field, r1: Field, m1: seq<ObservedInput>, n2: Field, r2: Field, m2: seq<ObservedInput>)
    requires |Canonical(m1)| <= U64_MAX && |Canonical(m2)| <= U64_MAX
    ensures Preimage(n1, r1, m1) == Preimage(n2, r2, m2) <==> n1 == n2 && r1 == r2 && m1 == m2
  {
    if Preimage(n1, r1, m1) == Preimage(n2, r2, m2) {
      SplitPreimage(n1, r1, m1);
      SplitPreimage(n2, r2, m2);
      CanonicalInjective(m1, m2);
    }
  }

  lemma SplitPreimage(n: Field, r: Field, m: seq<ObservedInput>)
    requires |Canonical(m)| <= U64_MAX
    ensures ReadField(Preimage(n, r, m)) == Some((n, WriteField(r) + WriteField(Canonical(m))))
    ensures ReadField(WriteField(r) + WriteField(Canonical(m))) == Some((r, WriteField(Canonical(m))))
    ensures ReadField(WriteField(Canonical(m))) == Some((Canonical(m), []))
  {
    assert Preimage(n, r, m) == WriteField(n) + (WriteField(r) + WriteField(Canonical(m)));
    FieldRoundTrip(n, WriteField(r) + WriteField(Canonical(m)));
    FieldRoundTrip(r, WriteField(Canonical(m)));
    FieldRoundTrip(Canonical(m), []);
    assert WriteField(Canonical(m)) + [] == WriteField(Canonical(m));
  }

  /** Two lookups share a key exactly when they agree on the namespace, the request and the manifest,
      unless the hash happens to collide on their two preimages. */
  lemma SameKeyIff(
    hash: seq<Byte> -> string,
    n1: Field, r1: Field, m1: seq<ObservedInput>, n2: Field, r2: Field, m2: seq<ObservedInput>)
    requires |Canonical(m1)| <= U64_MAX && |Canonical(m2)| <= U64_MAX
    ensures CacheKey(hash, n1, r1, m1) == CacheKey(hash, n2, r2, m2) <==>
      (n1 == n2 && r1 == r2 && m1 == m2) || Collides(hash, Preimage(n1, r1, m1), Preimage(n2, r2, m2))
  {
    PreimageInjective(n1, r1, m1, n2, r2, m2);
  }
}
