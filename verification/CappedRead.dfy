/** Reading a stream into memory up to a cap. */
module CappedRead {
  import opened Prelude
  import Framing

  /** What a read gives: some bytes, none at the end of the stream, or a failure. */
  datatype Read<+E> = Got(bytes: seq<Byte>) | Failed(error: E)

  /** The pieces that successive reads give before the end of the stream, or the failure that comes before it. */
  function Pieces<E>(outcomes: seq<Read<E>>): Result<seq<seq<Byte>>, E> {
    if outcomes == [] then Ok([])
    else
      match outcomes[0]
      case Failed(error) => Err(error)
      case Got(bytes) => if bytes == [] then Ok([]) else Behind([bytes], Pieces(outcomes[1..]))
  }

  /** The pieces behind some others, unless reading them fails. */
  function Behind<E>(first: seq<seq<Byte>>, more: Result<seq<seq<Byte>>, E>): Result<seq<seq<Byte>>, E> {
    if more.Ok? then Ok(first + more.value) else more
  }

  /** Each of the first `n` reads gives some bytes. */
  ghost predicate GiveBytes<E>(outcomes: seq<Read<E>>, n: nat) {
    n <= |outcomes| && forall i | 0 <= i < n :: outcomes[i].Got? && outcomes[i].bytes != []
  }

  /** The pieces are the bytes of the reads up to the first that gives none or fails, in order. */
  lemma {:induction false} PiecesAre<E>(outcomes: seq<Read<E>>) returns (n: nat)
    ensures GiveBytes(outcomes, n) && (n < |outcomes| ==> outcomes[n].Failed? || outcomes[n].bytes == [])
    ensures n < |outcomes| && outcomes[n].Failed? ==> Pieces(outcomes) == Err(outcomes[n].error)
    ensures n == |outcomes| || outcomes[n].Got? ==>
      && Pieces(outcomes).Ok? && |Pieces(outcomes).value| == n
      && forall i | 0 <= i < n :: Pieces(outcomes).value[i] == outcomes[i].bytes
  {
    n := 0;
    if outcomes != [] && outcomes[0].Got? && outcomes[0].bytes != [] {
      var m := PiecesAre(outcomes[1..]);
      n := m + 1;
      assert forall i | 0 < i < n :: outcomes[i] == outcomes[1..][i - 1];
    }
  }

  /** The first `cap` bytes of the pieces together. */
  function Capped(pieces: seq<seq<Byte>>, cap: nat): seq<Byte> {
    Framing.Concat(pieces)[..Min(cap, |Framing.Concat(pieces)|)]
  }

  lemma {:induction false} ConcatAppend(pieces: seq<seq<Byte>>, more: seq<Byte>)
    ensures Framing.Concat(pieces + [more]) == Framing.Concat(pieces) + more
  {
    if pieces == [] {
      assert pieces + [more] == [more];
    } else {
      assert (pieces + [more])[0] == pieces[0] && (pieces + [more])[1..] == pieces[1..] + [more];
      ConcatAppend(pieces[1..], more);
    }
  }

  lemma StartOfRead<E>(outcomes: seq<Read<E>>)
    ensures Behind([], Pieces(outcomes[0..])) == Pieces(outcomes)
  {
    assert outcomes[0..] == outcomes;
    if Pieces(outcomes).Ok? {
      assert [] + Pieces(outcomes).value == Pieces(outcomes).value;
    }
  }

  lemma NextPiece<E>(outcomes: seq<Read<E>>, i: nat, done: seq<seq<Byte>>)
    requires i < |outcomes| && outcomes[i].Got? && outcomes[i].bytes != []
    ensures Behind(done, Pieces(outcomes[i..])) == Behind(done + [outcomes[i].bytes], Pieces(outcomes[i + 1..]))
  {
    assert outcomes[i..][1..] == outcomes[i + 1..];
    var more := Pieces(outcomes[i + 1..]);
    if more.Ok? {
      assert done + ([outcomes[i].bytes] + more.value) == done + [outcomes[i].bytes] + more.value;
    }
  }

  /** The outcome is the first `cap` bytes, however they arrive, and whether there were more; or the
      first failure, if one comes before the end of the stream. */
  method ReadCappedStream<E>(outcomes: seq<Read<E>>, cap: nat) returns (r: Result<(seq<Byte>, bool), E>)
    ensures Pieces(outcomes).Ok? ==> r == Ok((Capped(Pieces(outcomes).value, cap), |Framing.Concat(Pieces(outcomes).value)| > cap))
    ensures Pieces(outcomes).Err? ==> r == Err(Pieces(outcomes).error)
  {
    var output, truncated, i := [], false, 0;
    ghost var done: seq<seq<Byte>> := [];
    StartOfRead(outcomes);
    while i < |outcomes|
      invariant 0 <= i <= |outcomes|
      invariant Pieces(outcomes) == Behind(done, Pieces(outcomes[i..]))
      invariant output == Capped(done, cap) && (truncated <==> |Framing.Concat(done)| > cap)
    {
      match outcomes[i]
      case Failed(error) =>
        return Err(error);
      case Got(bytes) =>
        if bytes == [] {
          break;
        }
        NextPiece(outcomes, i, done);
        ConcatAppend(done, bytes);
        var remaining := cap - |output|;
        output := output + bytes[..Min(|bytes|, remaining)];
        truncated := truncated || |bytes| > remaining;
        done := done + [bytes];
        i := i + 1;
    }
    assert done + [] == done;
    r := Ok((output, truncated));
  }
}
