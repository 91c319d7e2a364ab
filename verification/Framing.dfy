/** Cutting a byte stream into frames, and why the cut does not depend on how the bytes arrive. */
module Framing {
  import opened Prelude
  import Sequences

  const LF: Byte := 10
  const CR: Byte := 13

  /** The first position at which `window` occurs. */
  function Position(buffer: seq<Byte>, window: seq<Byte>): Option<nat>
    decreases |buffer|
  {
    if |buffer| < |window| then None
    else if buffer[..|window|] == window then Some(0)
    else if buffer == [] then None
    else
      var later := Position(buffer[1..], window);
      if later.Some? then Some(later.value + 1) else None
  }

  function EndOf(position: Option<nat>, length: nat): Option<nat> {
    if position.Some? then Some(position.value + length) else None
  }

  /** The end of the first frame: just behind the first blank line, written with LF or with CRLF. */
  function FrameEnd(buffer: seq<Byte>): Option<nat> {
    var crlf := EndOf(Position(buffer, [CR, LF, CR, LF]), 4);
    var lf := EndOf(Position(buffer, [LF, LF]), 2);
    if crlf.Some? && lf.Some? then Some(Min(crlf.value, lf.value))
    else if crlf.Some? then crlf
    else lf
  }

  ghost predicate WindowEndsAt(buffer: seq<Byte>, window: seq<Byte>, e: nat) {
    |window| <= e <= |buffer| && buffer[e - |window|..e] == window
  }

  /** A blank line ends at position `e`. */
  ghost predicate BlankLineEndsAt(buffer: seq<Byte>, e: nat) {
    WindowEndsAt(buffer, [10, 10], e) || WindowEndsAt(buffer, [13, 10, 13, 10], e)
  }

  lemma {:induction false} PositionIsFirst(buffer: seq<Byte>, window: seq<Byte>)
    requires window != []
    ensures Position(buffer, window).Some? ==> WindowEndsAt(buffer, window, Position(buffer, window).value + |window|)
    ensures forall e | WindowEndsAt(buffer, window, e) ::
      Position(buffer, window).Some? && Position(buffer, window).value + |window| <= e
    decreases |buffer|
  {
    if |buffer| >= |window| && buffer[..|window|] != window {
      PositionIsFirst(buffer[1..], window);
      var later := Position(buffer[1..], window);
      if later.Some? {
        var i := later.value;
        assert buffer[1..][i..i + |window|] == buffer[i + 1..i + 1 + |window|];
      }
      forall e: nat | WindowEndsAt(buffer, window, e)
        ensures later.Some? && later.value + 1 + |window| <= e
      {
        assert e != |window|;
        assert buffer[1..][e - 1 - |window|..e - 1] == buffer[e - |window|..e];
        assert WindowEndsAt(buffer[1..], window, e - 1);
      }
    }
  }

  /** The frame end is the least position behind a blank line. */
  lemma FrameEndIsFirstBlankLine(buffer: seq<Byte>)
    ensures FrameEnd(buffer).Some? ==> 2 <= FrameEnd(buffer).value && BlankLineEndsAt(buffer, FrameEnd(buffer).value)
    ensures forall e | BlankLineEndsAt(buffer, e) :: FrameEnd(buffer).Some? && FrameEnd(buffer).value <= e
  {
    PositionIsFirst(buffer, [LF, LF]);
    PositionIsFirst(buffer, [CR, LF, CR, LF]);
  }

  lemma FrameEndUnique(buffer: seq<Byte>, e: nat)
    requires BlankLineEndsAt(buffer, e) && forall e' | BlankLineEndsAt(buffer, e') :: e <= e'
    ensures FrameEnd(buffer) == Some(e)
  {
    FrameEndIsFirstBlankLine(buffer);
  }

  lemma FrameEndBounds(buffer: seq<Byte>)
    ensures FrameEnd(buffer).Some? ==> 2 <= FrameEnd(buffer).value <= |buffer|
  {
    FrameEndIsFirstBlankLine(buffer);
  }

  lemma SameWindow(a: seq<Byte>, b: seq<Byte>, window: seq<Byte>, e: nat)
    requires e <= |a|
    ensures WindowEndsAt(a + b, window, e) <==> WindowEndsAt(a, window, e)
  {
    if |window| <= e {
      assert (a + b)[e - |window|..e] == a[e - |window|..e];
    }
  }

  lemma SameBlankLines(a: seq<Byte>, b: seq<Byte>)
    ensures forall e: nat | e <= |a| :: BlankLineEndsAt(a + b, e) <==> BlankLineEndsAt(a, e)
  {
    forall e: nat | e <= |a|
      ensures BlankLineEndsAt(a + b, e) <==> BlankLineEndsAt(a, e)
    {
      SameWindow(a, b, [LF, LF], e);
      SameWindow(a, b, [CR, LF, CR, LF], e);
    }
  }

  /** A frame end found in a prefix stays the frame end when bytes are appended. */
  lemma FrameEndIsStable(a: seq<Byte>, b: seq<Byte>)
    requires FrameEnd(a).Some?
    ensures FrameEnd(a + b) == FrameEnd(a)
  {
    FrameEndIsFirstBlankLine(a);
    SameBlankLines(a, b);
    FrameEndUnique(a + b, FrameEnd(a).value);
  }

  /** Conversely, the bytes up to the first frame end are a frame of their own. */
  lemma FrameEndOfPrefix(a: seq<Byte>, b: seq<Byte>)
    requires FrameEnd(a + b) == Some(|a|)
    ensures IsFrame(a)
  {
    FrameEndIsFirstBlankLine(a + b);
    SameBlankLines(a, b);
    FrameEndUnique(a, |a|);
  }

  /** A frame ends with a blank line and holds no earlier one. */
  ghost predicate IsFrame(frame: seq<Byte>) {
    FrameEnd(frame) == Some(|frame|)
  }

  // ----- all frames of a buffer -----

  datatype Split = Split(frames: seq<seq<Byte>>, rest: seq<Byte>)

  /** The complete frames of the buffer and the bytes that follow them. */
  function Cut(buffer: seq<Byte>): Split
    decreases |buffer|
  {
    FrameEndBounds(buffer);
    if FrameEnd(buffer).None? then Split([], buffer)
    else
      var e := FrameEnd(buffer).value;
      var more := Cut(buffer[e..]);
      Split([buffer[..e]] + more.frames, more.rest)
  }

  function Concat(chunks: seq<seq<Byte>>): seq<Byte> {
    if chunks == [] then [] else chunks[0] + Concat(chunks[1..])
  }

  /** Cutting loses nothing: the frames and the rest make up the buffer. */
  lemma {:induction false} CutKeepsBytes(buffer: seq<Byte>)
    ensures Concat(Cut(buffer).frames) + Cut(buffer).rest == buffer
    decreases |buffer|
  {
    FrameEndBounds(buffer);
    if FrameEnd(buffer).None? {
      assert Concat([]) + buffer == buffer;
    } else {
      var first, others := buffer[..FrameEnd(buffer).value], buffer[FrameEnd(buffer).value..];
      CutKeepsBytes(others);
      PrependFrame(first, Cut(others));
      SplitAt(buffer, FrameEnd(buffer).value);
    }
  }

  lemma SplitAt(buffer: seq<Byte>, e: nat)
    requires e <= |buffer|
    ensures buffer[..e] + buffer[e..] == buffer
  {
  }

  lemma PrependFrame(first: seq<Byte>, more: Split)
    ensures Concat([first] + more.frames) + more.rest == first + (Concat(more.frames) + more.rest)
  {
    assert ([first] + more.frames)[1..] == more.frames;
  }

  /** The rest holds no complete frame. */
  lemma {:induction false} RestIsIncomplete(buffer: seq<Byte>)
    ensures FrameEnd(Cut(buffer).rest).None?
    decreases |buffer|
  {
    FrameEndBounds(buffer);
    if FrameEnd(buffer).Some? {
      RestIsIncomplete(buffer[FrameEnd(buffer).value..]);
    }
  }

  /** Every piece that is cut off is a frame. */
  lemma {:induction false} CutYieldsFrames(buffer: seq<Byte>)
    ensures forall f | f in Cut(buffer).frames :: IsFrame(f)
    decreases |buffer|
  {
    FrameEndBounds(buffer);
    if FrameEnd(buffer).Some? {
      var first, others := buffer[..FrameEnd(buffer).value], buffer[FrameEnd(buffer).value..];
      assert buffer == first + others;
      FrameEndOfPrefix(first, others);
      CutYieldsFrames(others);
    }
  }

  lemma ConcatBefore(frames: seq<seq<Byte>>, rest: seq<Byte>)
    requires frames != []
    ensures Concat(frames) + rest == frames[0] + (Concat(frames[1..]) + rest)
    ensures [frames[0]] + frames[1..] == frames
    ensures frames[0] in frames && forall f | f in frames[1..] :: f in frames
  {
    Sequences.Assoc(frames[0], Concat(frames[1..]), rest);
  }

  lemma CutOfRest(rest: seq<Byte>)
    requires FrameEnd(rest).None?
    ensures Cut(Concat([]) + rest) == Split([], rest)
  {
    assert Concat([]) + rest == rest;
  }

  /** There is only one way to read a buffer as frames followed by an incomplete rest. */
  lemma {:induction false} CutIsUnique(frames: seq<seq<Byte>>, rest: seq<Byte>)
    requires forall f | f in frames :: IsFrame(f)
    requires FrameEnd(rest).None?
    ensures Cut(Concat(frames) + rest) == Split(frames, rest)
  {
    if frames == [] {
      CutOfRest(rest);
    } else {
      ConcatBefore(frames, rest);
      CutIsUnique(frames[1..], rest);
      FirstIsCut(frames[0], Concat(frames[1..]) + rest);
    }
  }

  lemma FirstIsCut(f: seq<Byte>, tail: seq<Byte>)
    requires IsFrame(f)
    ensures Cut(f + tail) == Split([f] + Cut(tail).frames, Cut(tail).rest)
  {
    FrameEndIsStable(f, tail);
    FrameEndBounds(f + tail);
    assert (f + tail)[..|f|] == f && (f + tail)[|f|..] == tail;
  }

  /** One step of cutting. */
  lemma CutOne(buffer: seq<Byte>, e: nat)
    requires FrameEnd(buffer) == Some(e)
    ensures e <= |buffer|
    ensures Cut(buffer) == Split([buffer[..e]] + Cut(buffer[e..]).frames, Cut(buffer[e..]).rest)
  {
    FrameEndBounds(buffer);
  }

  lemma SplitConcat(a: seq<Byte>, b: seq<Byte>, e: nat)
    requires e <= |a|
    ensures (a + b)[..e] == a[..e] && (a + b)[e..] == a[e..] + b
  {
  }

  /** Cutting a longer buffer continues where the shorter one left off. */
  lemma {:induction false} CutContinues(a: seq<Byte>, b: seq<Byte>)
    ensures Cut(a + b).frames == Cut(a).frames + Cut(Cut(a).rest + b).frames
    ensures Cut(a + b).rest == Cut(Cut(a).rest + b).rest
    decreases |a|
  {
    FrameEndBounds(a);
    if FrameEnd(a).Some? {
      var e := FrameEnd(a).value;
      CutOne(a, e);
      FrameEndIsStable(a, b);
      CutOne(a + b, e);
      SplitConcat(a, b, e);
      CutContinues(a[e..], b);
      Sequences.Assoc([a[..e]], Cut(a[e..]).frames, Cut(Cut(a).rest + b).frames);
    }
  }
}
