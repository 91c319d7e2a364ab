/** Which events a caller hands on before a stream fails, and how that depends on the chunking. */
module Delivery {
  import opened Prelude
  import Sequences
  import opened Framing
  import opened Streaming

  /** The events of all pushes that succeed; those of the failing push are lost. */
  function Delivered<C, E, X>(step: FrameStep<C, E, X>, buffer: seq<Byte>, core: C, chunks: seq<seq<Byte>>): seq<E>
    decreases |chunks|
  {
    if chunks == [] then []
    else
      var first := Pushed(step, buffer, core, chunks[0]);
      if first.parsed.error.Some? then []
      else first.parsed.events + Delivered(step, first.buffer, first.parsed.core, chunks[1..])
  }

  /** The events of all frames before the one that fails. */
  function EventsBeforeError<C, E, X>(step: FrameStep<C, E, X>, core: C, frames: seq<seq<Byte>>): seq<E> {
    if frames == [] then []
    else
      var first := step(core, frames[0]);
      if first.error.Some? then [] else first.events + EventsBeforeError(step, first.core, frames[1..])
  }

  lemma {:induction false} DeliveredClean<C, E, X>(
    step: FrameStep<C, E, X>, buffer: seq<Byte>, core: C, chunks: seq<seq<Byte>>)
    requires FedChunks(step, buffer, core, chunks).parsed.error.None?
    ensures Delivered(step, buffer, core, chunks) == FedChunks(step, buffer, core, chunks).parsed.events
    decreases |chunks|
  {
    if chunks != [] {
      var first := Pushed(step, buffer, core, chunks[0]);
      DeliveredClean(step, first.buffer, first.parsed.core, chunks[1..]);
    }
  }

  lemma {:induction false} EventsBeforeConcat<C, E, X>(
    step: FrameStep<C, E, X>, core: C, a: seq<seq<Byte>>, b: seq<seq<Byte>>)
    requires Consumed(step, core, a).error.None?
    ensures EventsBeforeError(step, core, a + b) ==
      Consumed(step, core, a).events + EventsBeforeError(step, Consumed(step, core, a).core, b)
  {
    if a == [] {
      assert a + b == b;
    } else {
      var first := step(core, a[0]);
      assert (a + b)[0] == a[0] && (a + b)[1..] == a[1..] + b;
      EventsBeforeConcat(step, first.core, a[1..], b);
      Sequences.Assoc(first.events, Consumed(step, first.core, a[1..]).events,
            EventsBeforeError(step, Consumed(step, core, a).core, b));
    }
  }

  /** Whatever the chunking, only events of frames before the failing one are handed on. */
  lemma {:induction false} DeliveredIsPrefix<C, E, X>(
    step: FrameStep<C, E, X>, buffer: seq<Byte>, core: C, chunks: seq<seq<Byte>>)
    ensures Delivered(step, buffer, core, chunks) <= EventsBeforeError(step, core, Cut(buffer + Concat(chunks)).frames)
    decreases |chunks|
  {
    if chunks != [] {
      var first, others := Pushed(step, buffer, core, chunks[0]), Concat(chunks[1..]);
      if first.parsed.error.None? {
        CleanPush(step, buffer, core, chunks[0]);
        DeliveredIsPrefix(step, first.buffer, first.parsed.core, chunks[1..]);
        CutContinues(buffer + chunks[0], others);
        Sequences.Assoc(buffer, chunks[0], others);
        EventsBeforeConcat(step, core, Cut(buffer + chunks[0]).frames, Cut(first.buffer + others).frames);
      }
    }
  }

  /** The frames before the failing one. */
  lemma {:induction false} FindFailing<C, E, X>(step: FrameStep<C, E, X>, core: C, frames: seq<seq<Byte>>)
    returns (k: nat)
    requires Consumed(step, core, frames).error.Some?
    ensures k < |frames| && Consumed(step, core, frames[..k]).error.None?
    ensures Consumed(step, core, frames[..k]).events == EventsBeforeError(step, core, frames)
    ensures Consumed(step, Consumed(step, core, frames[..k]).core, frames[k..]).error.Some?
    decreases |frames|
  {
    var first := step(core, frames[0]);
    if first.error.Some? {
      k := 0;
      assert frames[0..] == frames && frames[..0] == [];
    } else {
      var k' := FindFailing(step, first.core, frames[1..]);
      k := k' + 1;
      assert frames[..k][0] == frames[0] && frames[..k][1..] == frames[1..][..k'];
      assert frames[k..] == frames[1..][k'..];
    }
  }

  lemma {:induction false} ConcatSplit(frames: seq<seq<Byte>>, k: nat)
    requires k <= |frames|
    ensures Concat(frames[..k]) + Concat(frames[k..]) == Concat(frames)
  {
    if k > 0 {
      ConcatSplit(frames[1..], k - 1);
      assert frames[..k][0] == frames[0] && frames[..k][1..] == frames[1..][..k - 1] && frames[k..] == frames[1..][k - 1..];
      Sequences.Assoc(frames[0], Concat(frames[1..][..k - 1]), Concat(frames[1..][k - 1..]));
    } else {
      assert frames[0..] == frames;
    }
  }

  /** The stream cut in two between its k-th frame and what is before it. */
  lemma CutInTwo(bytes: seq<Byte>, k: nat) returns (head: seq<Byte>, tail: seq<Byte>)
    requires k <= |Cut(bytes).frames|
    ensures head + tail == bytes
    ensures Cut(head) == Split(Cut(bytes).frames[..k], []) && Cut(tail).frames == Cut(bytes).frames[k..]
  {
    var frames, rest := Cut(bytes).frames, Cut(bytes).rest;
    head, tail := Concat(frames[..k]), Concat(frames[k..]) + rest;
    CutKeepsBytes(bytes);
    ConcatSplit(frames, k);
    Sequences.Assoc(head, Concat(frames[k..]), rest);
    CutYieldsFrames(bytes);
    RestIsIncomplete(bytes);
    CutIsUnique(frames[..k], []);
    assert head + [] == head;
    CutIsUnique(frames[k..], rest);
  }

  lemma TwoPushes<C, E, X>(step: FrameStep<C, E, X>, core: C, head: seq<Byte>, tail: seq<Byte>)
    requires Cut(head).rest == [] && Consumed(step, core, Cut(head).frames).error.None?
    requires Consumed(step, Consumed(step, core, Cut(head).frames).core, Cut(tail).frames).error.Some?
    ensures Concat([head, tail]) == head + tail
    ensures Delivered(step, [], core, [head, tail]) == Consumed(step, core, Cut(head).frames).events
  {
    assert [head, tail][1..] == [tail] && [tail][1..] == [] && tail + Concat([]) == tail;
    assert [] + head == head && [] + tail == tail;
    CleanPush(step, [], core, head);
  }

  /** Some chunking delivers every event before the failing frame. */
  lemma DeliversAll<C, E, X>(step: FrameStep<C, E, X>, core: C, bytes: seq<Byte>) returns (chunks: seq<seq<Byte>>)
    requires Consumed(step, core, Cut(bytes).frames).error.Some?
    ensures Concat(chunks) == bytes
    ensures Delivered(step, [], core, chunks) == EventsBeforeError(step, core, Cut(bytes).frames)
  {
    var k := FindFailing(step, core, Cut(bytes).frames);
    var head, tail := CutInTwo(bytes, k);
    TwoPushes(step, core, head, tail);
    chunks := [head, tail];
  }

  /** Pushed at once, a stream with a failing frame delivers nothing. */
  lemma DeliversNothing<C, E, X>(step: FrameStep<C, E, X>, core: C, bytes: seq<Byte>)
    requires Consumed(step, core, Cut(bytes).frames).error.Some?
    ensures Concat([bytes]) == bytes && Delivered(step, [], core, [bytes]) == []
  {
    assert [bytes][1..] == [] && bytes + Concat([]) == bytes && [] + bytes == bytes;
  }

  lemma CutFrame(frame: seq<Byte>)
    requires IsFrame(frame)
    ensures Cut(frame) == Split([frame], [])
  {
    assert frame + [] == frame;
    FirstIsCut(frame, []);
    assert FrameEnd([]).None? && [frame] + [] == [frame];
  }

  /** Streams on which it shows: a frame with events and one that fails, pushed one by one or together. */
  lemma ChunkingShows<C, E, X>(step: FrameStep<C, E, X>, core: C, good: seq<Byte>, bad: seq<Byte>)
    requires IsFrame(good) && IsFrame(bad)
    requires step(core, good).error.None? && step(step(core, good).core, bad).error.Some?
    ensures Concat([good, bad]) == Concat([good + bad])
    ensures Delivered(step, [], core, [good, bad]) == step(core, good).events
    ensures Delivered(step, [], core, [good + bad]) == []
  {
    CutFrame(good);
    CutFrame(bad);
    ConsumedOne(step, core, good);
    ConsumedOne(step, step(core, good).core, bad);
    TwoPushes(step, core, good, bad);
    FirstIsCut(good, bad);
    ConsumedConcat(step, core, [good], [bad]);
    DeliversNothing(step, core, good + bad);
  }

  /** All chunkings of the stream deliver the same events. */
  ghost predicate DeliveryIgnoresChunking<C, E, X>(step: FrameStep<C, E, X>, core: C, bytes: seq<Byte>) {
    forall a, b | Concat(a) == bytes && Concat(b) == bytes :: Delivered(step, [], core, a) == Delivered(step, [], core, b)
  }

  lemma SameDelivery<C, E, X>(step: FrameStep<C, E, X>, core: C, chunks: seq<seq<Byte>>)
    requires var frames := Cut(Concat(chunks)).frames;
      Consumed(step, core, frames).error.None? || EventsBeforeError(step, core, frames) == []
    ensures var all := Consumed(step, core, Cut(Concat(chunks)).frames);
      Delivered(step, [], core, chunks) == if all.error.None? then all.events else []
  {
    assert [] + Concat(chunks) == Concat(chunks);
    if Consumed(step, core, Cut(Concat(chunks)).frames).error.None? {
      FedOutcome(step, core, chunks);
      DeliveredClean(step, [], core, chunks);
    } else {
      DeliveredIsPrefix(step, [], core, chunks);
    }
  }

  /** What is handed on depends on the chunking exactly when a frame fails and one before it has events. */
  lemma DeliveryIgnoresChunkingIff<C, E, X>(step: FrameStep<C, E, X>, core: C, bytes: seq<Byte>)
    ensures DeliveryIgnoresChunking(step, core, bytes) <==>
      Consumed(step, core, Cut(bytes).frames).error.None? || EventsBeforeError(step, core, Cut(bytes).frames) == []
  {
    if Consumed(step, core, Cut(bytes).frames).error.None? || EventsBeforeError(step, core, Cut(bytes).frames) == [] {
      forall chunks | Concat(chunks) == bytes
        ensures Delivered(step, [], core, chunks) ==
          if Consumed(step, core, Cut(bytes).frames).error.None? then Consumed(step, core, Cut(bytes).frames).events else []
      {
        SameDelivery(step, core, chunks);
      }
    } else {
      var chunks := DeliversAll(step, core, bytes);
      DeliversNothing(step, core, bytes);
    }
  }

  // ----- with the events of the last frame -----

  /** All events that a caller hands on: those delivered and, if no push fails, those of the end of the stream. */
  function HandedOn<C, E, X>(
    step: FrameStep<C, E, X>, last: (seq<Byte>, C) -> seq<E>, core: C, chunks: seq<seq<Byte>>): seq<E>
  {
    var fed := FedChunks(step, [], core, chunks);
    Delivered(step, [], core, chunks) + if fed.parsed.error.Some? then [] else last(fed.buffer, fed.parsed.core)
  }

  ghost predicate HandingOnIgnoresChunking<C, E, X>(
    step: FrameStep<C, E, X>, last: (seq<Byte>, C) -> seq<E>, core: C, bytes: seq<Byte>)
  {
    forall a, b | Concat(a) == bytes && Concat(b) == bytes :: HandedOn(step, last, core, a) == HandedOn(step, last, core, b)
  }

  lemma HandedOnIs<C, E, X>(step: FrameStep<C, E, X>, last: (seq<Byte>, C) -> seq<E>, core: C, chunks: seq<seq<Byte>>)
    ensures var split := Cut(Concat(chunks));
      var all := Consumed(step, core, split.frames);
      HandedOn(step, last, core, chunks) ==
      if all.error.Some? then Delivered(step, [], core, chunks) else all.events + last(split.rest, all.core)
  {
    FedOutcome(step, core, chunks);
    if FedChunks(step, [], core, chunks).parsed.error.None? {
      DeliveredClean(step, [], core, chunks);
    } else {
      assert Delivered(step, [], core, chunks) + [] == Delivered(step, [], core, chunks);
    }
  }

  /** What is handed on depends on the chunking exactly when a complete frame fails and one before it has events. */
  lemma HandingOnIgnoresChunkingIff<C, E, X>(
    step: FrameStep<C, E, X>, last: (seq<Byte>, C) -> seq<E>, core: C, bytes: seq<Byte>)
    ensures HandingOnIgnoresChunking(step, last, core, bytes) <==>
      Consumed(step, core, Cut(bytes).frames).error.None? || EventsBeforeError(step, core, Cut(bytes).frames) == []
  {
    DeliveryIgnoresChunkingIff(step, core, bytes);
    forall chunks | Concat(chunks) == bytes
      ensures HandedOn(step, last, core, chunks) ==
        if Consumed(step, core, Cut(bytes).frames).error.Some? then Delivered(step, [], core, chunks)
        else Consumed(step, core, Cut(bytes).frames).events + last(Cut(bytes).rest, Consumed(step, core, Cut(bytes).frames).core)
    {
      HandedOnIs(step, last, core, chunks);
    }
    if Consumed(step, core, Cut(bytes).frames).error.Some? && HandingOnIgnoresChunking(step, last, core, bytes) {
      forall a, b | Concat(a) == bytes && Concat(b) == bytes
        ensures Delivered(step, [], core, a) == Delivered(step, [], core, b)
      {
        assert HandedOn(step, last, core, a) == HandedOn(step, last, core, b);
      }
    }
  }
}
