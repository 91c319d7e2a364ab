/** Feeding a frame parser chunk by chunk: the outcome depends on the bytes alone. */
module Streaming {
  import opened Prelude
  import Sequences
  import opened Framing

  /** The parser state after some frames, the events they produced, and the error that stopped it, if any. */
  datatype Parsed<+C, +E, +X> = Parsed(core: C, events: seq<E>, error: Option<X>)

  /** One frame's effect on the parser state. */
  type FrameStep<!C, +E, +X> = (C, seq<Byte>) -> Parsed<C, E, X>

  /** Frame after frame, up to and including the first that fails. */
  function Consumed<C, E, X>(step: FrameStep<C, E, X>, core: C, frames: seq<seq<Byte>>): Parsed<C, E, X> {
    if frames == [] then Parsed(core, [], None)
    else
      var first := step(core, frames[0]);
      if first.error.Some? then first
      else
        var more := Consumed(step, first.core, frames[1..]);
        Parsed(more.core, first.events + more.events, more.error)
  }

  /** The frames behind the one that failed. */
  function Unread<C, E, X>(step: FrameStep<C, E, X>, core: C, frames: seq<seq<Byte>>): seq<seq<Byte>> {
    if frames == [] then []
    else
      var first := step(core, frames[0]);
      if first.error.Some? then frames[1..] else Unread(step, first.core, frames[1..])
  }

  lemma {:induction false} NothingUnread<C, E, X>(step: FrameStep<C, E, X>, core: C, frames: seq<seq<Byte>>)
    requires Consumed(step, core, frames).error.None?
    ensures Unread(step, core, frames) == []
  {
    if frames != [] {
      NothingUnread(step, step(core, frames[0]).core, frames[1..]);
    }
  }

  lemma {:induction false} ConsumedConcat<C, E, X>(
    step: FrameStep<C, E, X>, core: C, a: seq<seq<Byte>>, b: seq<seq<Byte>>)
    ensures var first, all := Consumed(step, core, a), Consumed(step, core, a + b);
      if first.error.Some? then all == first
      else
        var more := Consumed(step, first.core, b);
        all == Parsed(more.core, first.events + more.events, more.error)
  {
    if a == [] {
      assert a + b == b;
    } else {
      assert (a + b)[0] == a[0] && (a + b)[1..] == a[1..] + b;
      ConsumedConcat(step, step(core, a[0]).core, a[1..], b);
    }
  }

  lemma ConsumedOne<C, E, X>(step: FrameStep<C, E, X>, core: C, frame: seq<Byte>)
    ensures Consumed(step, core, [frame]) == step(core, frame)
  {
    var first := step(core, frame);
    assert [frame][1..] == [] && first.events + [] == first.events;
  }

  /** What a caller has after pushing some chunks: the buffered bytes, and the parser's outcome. */
  datatype Fed<+C, +E, +X> = Fed(buffer: seq<Byte>, parsed: Parsed<C, E, X>)

  /** Consume the complete frames of a buffer. */
  function Drained<C, E, X>(step: FrameStep<C, E, X>, buffer: seq<Byte>, core: C): Fed<C, E, X> {
    var split := Cut(buffer);
    Fed(Concat(Unread(step, core, split.frames)) + split.rest, Consumed(step, core, split.frames))
  }

  /** Push a chunk: append it to the buffer, then consume the complete frames. */
  function Pushed<C, E, X>(step: FrameStep<C, E, X>, buffer: seq<Byte>, core: C, chunk: seq<Byte>): Fed<C, E, X> {
    Drained(step, buffer + chunk, core)
  }

  function After<C, E, X>(events: seq<E>, fed: Fed<C, E, X>): Fed<C, E, X> {
    fed.(parsed := fed.parsed.(events := events + fed.parsed.events))
  }

  lemma AfterBoth<C, E, X>(events: seq<E>, more: seq<E>, fed: Fed<C, E, X>)
    ensures After(events, After(more, fed)) == After(events + more, fed)
  {
    Sequences.Assoc(events, more, fed.parsed.events);
  }

  /** Draining takes one frame at a time off the front of the buffer, and stops at the first error. */
  lemma DrainOne<C, E, X>(step: FrameStep<C, E, X>, buffer: seq<Byte>, core: C)
    requires FrameEnd(buffer).Some?
    ensures FrameEnd(buffer).value <= |buffer|
    ensures var e := FrameEnd(buffer).value;
      var first := step(core, buffer[..e]);
      Drained(step, buffer, core) ==
      if first.error.Some? then Fed(buffer[e..], first) else After(first.events, Drained(step, buffer[e..], first.core))
  {
    FrameEndBounds(buffer);
    var e := FrameEnd(buffer).value;
    CutKeepsBytes(buffer[e..]);
    var frames := Cut(buffer).frames;
    assert frames[0] == buffer[..e] && frames[1..] == Cut(buffer[e..]).frames;
  }

  lemma DrainNone<C, E, X>(step: FrameStep<C, E, X>, buffer: seq<Byte>, core: C)
    requires FrameEnd(buffer).None?
    ensures Drained(step, buffer, core) == Fed(buffer, Parsed(core, [], None))
  {
    assert Concat([]) + buffer == buffer;
  }

  /** Push chunk after chunk, stopping at the first error as the callers do. */
  function FedChunks<C, E, X>(step: FrameStep<C, E, X>, buffer: seq<Byte>, core: C, chunks: seq<seq<Byte>>)
    : Fed<C, E, X>
    decreases |chunks|
  {
    if chunks == [] then Fed(buffer, Parsed(core, [], None))
    else
      var first := Pushed(step, buffer, core, chunks[0]);
      if first.parsed.error.Some? then first
      else
        var more := FedChunks(step, first.buffer, first.parsed.core, chunks[1..]);
        Fed(more.buffer, more.parsed.(events := first.parsed.events + more.parsed.events))
  }

  /** The same error in the same parser state, or no error and the same buffered bytes, state and events.
      What a caller did with events before an error is the subject of `Delivery`. */
  ghost predicate SameOutcome<C, E, X>(a: Fed<C, E, X>, b: Fed<C, E, X>) {
    && a.parsed.error == b.parsed.error
    && a.parsed.core == b.parsed.core
    && (a.parsed.error.None? ==> a == b)
  }

  lemma CleanPush<C, E, X>(step: FrameStep<C, E, X>, buffer: seq<Byte>, core: C, chunk: seq<Byte>)
    requires Pushed(step, buffer, core, chunk).parsed.error.None?
    ensures Pushed(step, buffer, core, chunk).buffer == Cut(buffer + chunk).rest
  {
    NothingUnread(step, core, Cut(buffer + chunk).frames);
  }

  lemma {:induction false} FedAsOne<C, E, X>(
    step: FrameStep<C, E, X>, buffer: seq<Byte>, core: C, chunks: seq<seq<Byte>>)
    requires FrameEnd(buffer).None?
    ensures SameOutcome(FedChunks(step, buffer, core, chunks), Pushed(step, buffer, core, Concat(chunks)))
    decreases |chunks|
  {
    if chunks == [] {
      assert buffer + Concat(chunks) == buffer;
    } else {
      PushedTwice(step, buffer, core, chunks[0], Concat(chunks[1..]));
      var first := Pushed(step, buffer, core, chunks[0]);
      if first.parsed.error.None? {
        RestIsIncomplete(buffer + chunks[0]);
        CleanPush(step, buffer, core, chunks[0]);
        FedAsOne(step, first.buffer, first.parsed.core, chunks[1..]);
      }
    }
  }

  /** Pushing two chunks has the outcome of pushing them as one. */
  lemma PushedTwice<C, E, X>(
    step: FrameStep<C, E, X>, buffer: seq<Byte>, core: C, a: seq<Byte>, b: seq<Byte>)
    ensures var first, one := Pushed(step, buffer, core, a), Pushed(step, buffer, core, a + b);
      if first.parsed.error.Some? then SameOutcome(one, first)
      else
        var second := Pushed(step, first.buffer, first.parsed.core, b);
        SameOutcome(one, Fed(second.buffer, second.parsed.(events := first.parsed.events + second.parsed.events)))
  {
    var all := buffer + a;
    assert buffer + (a + b) == all + b;
    CutContinues(all, b);
    ConsumedConcat(step, core, Cut(all).frames, Cut(Cut(all).rest + b).frames);
    var first, one := Pushed(step, buffer, core, a), Pushed(step, buffer, core, a + b);
    if first.parsed.error.None? {
      CleanPush(step, buffer, core, a);
      if one.parsed.error.None? {
        CleanPush(step, buffer, core, a + b);
        CleanPush(step, first.buffer, first.parsed.core, b);
      }
    }
  }

  /** However a byte stream is split into chunks, feeding the chunks has the same outcome. */
  lemma ChunkingIsIrrelevant<C, E, X>(
    step: FrameStep<C, E, X>, core: C, chunks: seq<seq<Byte>>, chunks': seq<seq<Byte>>)
    requires Concat(chunks) == Concat(chunks')
    ensures SameOutcome(FedChunks(step, [], core, chunks), FedChunks(step, [], core, chunks'))
  {
    FedAsOne(step, [], core, chunks);
    FedAsOne(step, [], core, chunks');
  }

  // ----- frames without effect -----

  function Kept(skip: seq<Byte> -> bool, frames: seq<seq<Byte>>): seq<seq<Byte>> {
    if frames == [] then []
    else (if skip(frames[0]) then [] else [frames[0]]) + Kept(skip, frames[1..])
  }

  /** While the budget lasts, a skipped frame costs one unit of it and leaves the state the same. */
  ghost predicate SkippedFree<C, E, X>(
    step: FrameStep<C, E, X>, same: (C, C) -> bool, budget: C -> int, c: C, f: seq<Byte>)
  {
    budget(c) > 0 ==>
      var after := step(c, f);
      after.events == [] && after.error == None && same(after.core, c) && budget(after.core) == budget(c) - 1
  }

  /** A frame works alike on states that are the same, and costs nothing. */
  ghost predicate KeptAlike<C, E, X>(
    step: FrameStep<C, E, X>, same: (C, C) -> bool, budget: C -> int, c: C, d: C, f: seq<Byte>)
  {
    same(c, d) ==>
      var a, b := step(c, f), step(d, f);
      a.events == b.events && a.error == b.error && same(a.core, b.core) && budget(a.core) == budget(c)
  }

  /** Skipped frames are free, other frames work alike, and being the same is transitive. */
  ghost predicate Skips<C(!new), E, X>(
    step: FrameStep<C, E, X>, skip: seq<Byte> -> bool, same: (C, C) -> bool, budget: C -> int)
  {
    && (forall c, d, e | same(c, d) && same(d, e) :: same(c, e))
    && (forall c, f | skip(f) :: SkippedFree(step, same, budget, c, f))
    && (forall c, d, f | !skip(f) :: KeptAlike(step, same, budget, c, d, f))
  }

  /** Leaving out the skipped frames changes neither the events nor the error, and leaves the state the same. */
  lemma {:induction false} SkippedFrames<C(!new), E, X>(
    step: FrameStep<C, E, X>, skip: seq<Byte> -> bool, same: (C, C) -> bool, budget: C -> int,
    c: C, d: C, frames: seq<seq<Byte>>)
    requires Skips(step, skip, same, budget) && same(c, d)
    requires |frames| - |Kept(skip, frames)| <= budget(c)
    ensures var all, kept := Consumed(step, c, frames), Consumed(step, d, Kept(skip, frames));
      all.events == kept.events && all.error == kept.error && same(all.core, kept.core)
    decreases |frames|
  {
    if frames != [] {
      var f, rest := frames[0], frames[1..];
      KeptIsShorter(skip, rest);
      var c' := step(c, f).core;
      if skip(f) {
        assert SkippedFree(step, same, budget, c, f);
        assert same(c', c) && same(c', d);
        SkippedFrames(step, skip, same, budget, c', d, rest);
        assert [] + Kept(skip, rest) == Kept(skip, rest);
        assert [] + Consumed(step, c', rest).events == Consumed(step, c', rest).events;
      } else {
        assert KeptAlike(step, same, budget, c, d, f);
        SkippedFrames(step, skip, same, budget, c', step(d, f).core, rest);
        assert Kept(skip, frames)[1..] == Kept(skip, rest);
      }
    }
  }

  lemma {:induction false} KeptIsShorter(skip: seq<Byte> -> bool, frames: seq<seq<Byte>>)
    ensures |Kept(skip, frames)| <= |frames|
  {
    if frames != [] {
      KeptIsShorter(skip, frames[1..]);
    }
  }

  lemma {:induction false} KeptConcat(skip: seq<Byte> -> bool, a: seq<seq<Byte>>, b: seq<seq<Byte>>)
    ensures Kept(skip, a + b) == Kept(skip, a) + Kept(skip, b)
  {
    if a == [] {
      assert a + b == b;
    } else {
      assert (a + b)[0] == a[0] && (a + b)[1..] == a[1..] + b;
      KeptConcat(skip, a[1..], b);
      Sequences.Assoc(if skip(a[0]) then [] else [a[0]], Kept(skip, a[1..]), Kept(skip, b));
    }
  }

  lemma {:induction false} KeptTwice(skip: seq<Byte> -> bool, frames: seq<seq<Byte>>)
    ensures Kept(skip, Kept(skip, frames)) == Kept(skip, frames)
    ensures forall f | f in Kept(skip, frames) :: f in frames
  {
    if frames != [] {
      KeptTwice(skip, frames[1..]);
      if !skip(frames[0]) {
        assert Kept(skip, frames) == [frames[0]] + Kept(skip, frames[1..]);
        assert Kept(skip, frames)[1..] == Kept(skip, frames[1..]);
      } else {
        assert Kept(skip, frames) == Kept(skip, frames[1..]);
      }
    }
  }

  function SkippedCount(skip: seq<Byte> -> bool, frames: seq<seq<Byte>>): nat {
    KeptIsShorter(skip, frames);
    |frames| - |Kept(skip, frames)|
  }

  // ----- whole streams -----

  /** After the chunks were pushed, either a frame has failed or the incomplete rest is buffered. */
  lemma FedOutcome<C, E, X>(step: FrameStep<C, E, X>, core: C, chunks: seq<seq<Byte>>)
    ensures var fed, split := FedChunks(step, [], core, chunks), Cut(Concat(chunks));
      var frames := Consumed(step, core, split.frames);
      if frames.error.None? then fed == Fed(split.rest, frames)
      else fed.parsed.error == frames.error && fed.parsed.core == frames.core
  {
    assert [] + Concat(chunks) == Concat(chunks);
    FedAsOne(step, [], core, chunks);
    if Consumed(step, core, Cut(Concat(chunks)).frames).error.None? {
      CleanPush(step, [], core, Concat(chunks));
    }
  }

  /** The leftover bytes as frames: one, unless they are nothing to read. */
  function LastFrame(nothing: seq<Byte> -> bool, rest: seq<Byte>): seq<seq<Byte>> {
    if nothing(rest) then [] else [rest]
  }

  /** The frames of a whole stream, its leftover bytes being the last one. */
  function AllFrames(nothing: seq<Byte> -> bool, bytes: seq<Byte>): seq<seq<Byte>> {
    Cut(bytes).frames + LastFrame(nothing, Cut(bytes).rest)
  }

  /** The stream without the frames that are skipped. */
  function WithoutSkipped(skip: seq<Byte> -> bool, bytes: seq<Byte>): seq<Byte> {
    Concat(Kept(skip, Cut(bytes).frames)) + Cut(bytes).rest
  }

  lemma CutWithoutSkipped(skip: seq<Byte> -> bool, bytes: seq<Byte>)
    ensures Cut(WithoutSkipped(skip, bytes)) == Split(Kept(skip, Cut(bytes).frames), Cut(bytes).rest)
  {
    KeptTwice(skip, Cut(bytes).frames);
    CutYieldsFrames(bytes);
    RestIsIncomplete(bytes);
    CutIsUnique(Kept(skip, Cut(bytes).frames), Cut(bytes).rest);
  }

  lemma SameKept(nothing: seq<Byte> -> bool, skip: seq<Byte> -> bool, bytes: seq<Byte>)
    ensures Kept(skip, AllFrames(nothing, WithoutSkipped(skip, bytes))) == Kept(skip, AllFrames(nothing, bytes))
    ensures SkippedCount(skip, AllFrames(nothing, WithoutSkipped(skip, bytes))) <=
      SkippedCount(skip, AllFrames(nothing, bytes))
  {
    var frames, last := Cut(bytes).frames, LastFrame(nothing, Cut(bytes).rest);
    CutWithoutSkipped(skip, bytes);
    KeptTwice(skip, frames);
    KeptConcat(skip, frames, last);
    KeptConcat(skip, Kept(skip, frames), last);
    KeptIsShorter(skip, frames);
  }

  // ----- running out of budget -----

  /** A skipped frame takes one unit of the budget, or fails with `spent` if there is none left. */
  ghost predicate TakesUnit<C, E, X>(step: FrameStep<C, E, X>, budget: C -> int, spent: X, c: C, f: seq<Byte>) {
    if budget(c) > 0 then step(c, f).error == None && budget(step(c, f).core) == budget(c) - 1
    else step(c, f).error == Some(spent)
  }

  /** Any other frame leaves the budget alone and does not fail that way. */
  ghost predicate TakesNothing<C, E, X>(step: FrameStep<C, E, X>, budget: C -> int, spent: X, c: C, f: seq<Byte>) {
    step(c, f).error != Some(spent) && budget(step(c, f).core) == budget(c)
  }

  ghost predicate Metered<C(!new), E, X>(
    step: FrameStep<C, E, X>, skip: seq<Byte> -> bool, budget: C -> int, spent: X)
  {
    && (forall c, f | skip(f) :: TakesUnit(step, budget, spent, c, f))
    && (forall c, f | !skip(f) :: TakesNothing(step, budget, spent, c, f))
  }

  lemma {:induction false} BudgetLeft<C(!new), E, X>(
    step: FrameStep<C, E, X>, skip: seq<Byte> -> bool, budget: C -> int, spent: X, c: C, frames: seq<seq<Byte>>)
    requires Metered(step, skip, budget, spent) && Consumed(step, c, frames).error.None?
    ensures budget(Consumed(step, c, frames).core) == budget(c) - SkippedCount(skip, frames)
    decreases |frames|
  {
    if frames != [] {
      var f := frames[0];
      assert if skip(f) then TakesUnit(step, budget, spent, c, f) else TakesNothing(step, budget, spent, c, f);
      BudgetLeft(step, skip, budget, spent, step(c, f).core, frames[1..]);
    }
  }

  /** The k-th frame finds the budget spent: it is skipped, as many skipped frames as the budget allows
      come before it, and the others before it do not fail. */
  ghost predicate RunsOutAt<C, E, X>(
    step: FrameStep<C, E, X>, skip: seq<Byte> -> bool, budget: C -> int, c: C, frames: seq<seq<Byte>>, k: nat)
  {
    && k < |frames| && skip(frames[k])
    && SkippedCount(skip, frames[..k]) == budget(c)
    && Consumed(step, c, Kept(skip, frames[..k])).error.None?
  }

  lemma RunsOut<C(!new), E, X>(
    step: FrameStep<C, E, X>, skip: seq<Byte> -> bool, budget: C -> int, spent: X, c: C,
    frames: seq<seq<Byte>>, k: nat)
    requires Metered(step, skip, budget, spent) && k < |frames| && skip(frames[k])
    requires SkippedCount(skip, frames[..k]) == budget(c) && Consumed(step, c, frames[..k]).error.None?
    ensures Consumed(step, c, frames).error == Some(spent)
  {
    var before := Consumed(step, c, frames[..k]);
    BudgetLeft(step, skip, budget, spent, c, frames[..k]);
    assert TakesUnit(step, budget, spent, before.core, frames[k]);
    assert frames == frames[..k] + frames[k..] && frames[k..][0] == frames[k];
    ConsumedConcat(step, c, frames[..k], frames[k..]);
  }

  lemma {:induction false} FindSpent<C(!new), E, X>(
    step: FrameStep<C, E, X>, skip: seq<Byte> -> bool, budget: C -> int, spent: X, c: C, frames: seq<seq<Byte>>)
    returns (k: nat)
    requires Metered(step, skip, budget, spent) && budget(c) >= 0
    requires Consumed(step, c, frames).error == Some(spent)
    ensures k < |frames| && skip(frames[k])
    ensures SkippedCount(skip, frames[..k]) == budget(c) && Consumed(step, c, frames[..k]).error.None?
    decreases |frames|
  {
    var f, rest := frames[0], frames[1..];
    assert if skip(f) then TakesUnit(step, budget, spent, c, f) else TakesNothing(step, budget, spent, c, f);
    if skip(f) && budget(c) == 0 {
      k := 0;
    } else {
      var k' := FindSpent(step, skip, budget, spent, step(c, f).core, rest);
      k := k' + 1;
      assert frames[..k][0] == f && frames[..k][1..] == rest[..k'];
    }
  }

  /** Consuming fails for want of budget exactly when some skipped frame comes after as many others as
      the budget allows, and no other frame fails before it. */
  lemma SpentIff<C(!new), E, X>(
    step: FrameStep<C, E, X>, skip: seq<Byte> -> bool, same: (C, C) -> bool, budget: C -> int, spent: X,
    c: C, frames: seq<seq<Byte>>)
    requires Metered(step, skip, budget, spent) && Skips(step, skip, same, budget)
    requires same(c, c) && budget(c) >= 0
    ensures Consumed(step, c, frames).error == Some(spent) <==>
      exists k :: RunsOutAt(step, skip, budget, c, frames, k)
  {
    if Consumed(step, c, frames).error == Some(spent) {
      var k := FindSpent(step, skip, budget, spent, c, frames);
      SkippedFrames(step, skip, same, budget, c, c, frames[..k]);
      assert RunsOutAt(step, skip, budget, c, frames, k);
    }
    if k: nat :| RunsOutAt(step, skip, budget, c, frames, k) {
      SkippedFrames(step, skip, same, budget, c, c, frames[..k]);
      RunsOut(step, skip, budget, spent, c, frames, k);
    }
  }
}
