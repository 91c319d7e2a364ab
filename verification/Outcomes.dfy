/** Why consuming frames fails, given the reasons for which a frame fails behind those before it. */
module Outcomes {
  import opened Prelude
  import opened Streaming

  type Frames = seq<seq<Byte>>

  /** Whether a frame fails with an error, judged by the frames before it. */
  type Reason<!X> = (Frames, seq<Byte>, X) -> bool

  ghost predicate NoneFails<X(!new)>(reason: Reason<X>, frames: Frames, n: nat)
    requires n <= |frames|
  {
    forall k, error | 0 <= k < n :: !reason(frames[..k], frames[k], error)
  }

  /** The k-th frame is the first that fails. */
  ghost predicate FirstFailure<X(!new)>(reason: Reason<X>, frames: Frames, k: nat, error: X) {
    k < |frames| && reason(frames[..k], frames[k], error) && NoneFails(reason, frames, k)
  }

  /** Some frame fails, and the first that does fails with this error. */
  ghost predicate Fails<X(!new)>(reason: Reason<X>, frames: Frames, error: X) {
    exists k: nat :: FirstFailure(reason, frames, k, error)
  }

  /** In a state that some frames leave, the next fails for these reasons only, or leaves such a state. */
  ghost predicate Explains<C, E, X(!new)>(
    step: FrameStep<C, E, X>, state: (Frames, C, seq<E>) -> bool, reason: Reason<X>,
    before: Frames, c: C, events: seq<E>, f: seq<Byte>)
  {
    state(before, c, events) ==>
      var after := step(c, f);
      && (forall error :: after.error == Some(error) <==> reason(before, f, error))
      && (after.error.None? ==> state(before + [f], after.core, events + after.events))
  }

  ghost predicate Explained<C(!new), E(!new), X(!new)>(
    step: FrameStep<C, E, X>, start: C, state: (Frames, C, seq<E>) -> bool, reason: Reason<X>)
  {
    && state([], start, [])
    && forall before, c, events, f :: Explains(step, state, reason, before, c, events, f)
  }

  /** Either the frames before the n-th were consumed and left such a state, or the first that fails stopped it. */
  ghost predicate Settled<C, E, X(!new)>(
    step: FrameStep<C, E, X>, start: C, state: (Frames, C, seq<E>) -> bool, reason: Reason<X>, frames: Frames, n: nat)
    requires n <= |frames|
  {
    var all := Consumed(step, start, frames[..n]);
    if all.error.None? then NoneFails(reason, frames, n) && state(frames[..n], all.core, all.events)
    else exists k: nat :: k < n && FirstFailure(reason, frames, k, all.error.value)
  }

  lemma ConsumedMore<C, E, X>(step: FrameStep<C, E, X>, start: C, frames: Frames, n: nat)
    requires n < |frames|
    ensures var before, all := Consumed(step, start, frames[..n]), Consumed(step, start, frames[..n + 1]);
      if before.error.Some? then all == before
      else
        var next := step(before.core, frames[n]);
        all == Parsed(next.core, before.events + next.events, next.error)
  {
    assert frames[..n + 1] == frames[..n] + [frames[n]];
    ConsumedConcat(step, start, frames[..n], [frames[n]]);
    ConsumedOne(step, Consumed(step, start, frames[..n]).core, frames[n]);
  }

  lemma {:induction false} PrefixSettled<C(!new), E(!new), X(!new)>(
    step: FrameStep<C, E, X>, start: C, state: (Frames, C, seq<E>) -> bool, reason: Reason<X>, frames: Frames, n: nat)
    requires Explained(step, start, state, reason) && n <= |frames|
    ensures Settled(step, start, state, reason, frames, n)
  {
    if n == 0 {
      assert frames[..0] == [];
    } else {
      PrefixSettled(step, start, state, reason, frames, n - 1);
      var before := Consumed(step, start, frames[..n - 1]);
      ConsumedMore(step, start, frames, n - 1);
      if before.error.None? {
        assert frames[..n] == frames[..n - 1] + [frames[n - 1]];
        assert Explains(step, state, reason, frames[..n - 1], before.core, before.events, frames[n - 1]);
        var all := Consumed(step, start, frames[..n]);
        if all.error.Some? {
          assert FirstFailure(reason, frames, n - 1, all.error.value);
        }
      }
    }
  }

  lemma FirstFailureStops<C(!new), E(!new), X(!new)>(
    step: FrameStep<C, E, X>, start: C, state: (Frames, C, seq<E>) -> bool, reason: Reason<X>,
    frames: Frames, k: nat, error: X)
    requires Explained(step, start, state, reason) && FirstFailure(reason, frames, k, error)
    ensures Consumed(step, start, frames).error == Some(error)
  {
    PrefixSettled(step, start, state, reason, frames, k);
    var before := Consumed(step, start, frames[..k]);
    ConsumedMore(step, start, frames, k);
    assert Explains(step, state, reason, frames[..k], before.core, before.events, frames[k]);
    assert frames == frames[..k + 1] + frames[k + 1..];
    ConsumedConcat(step, start, frames[..k + 1], frames[k + 1..]);
  }

  lemma FailsIff<C(!new), E(!new), X(!new)>(
    step: FrameStep<C, E, X>, start: C, state: (Frames, C, seq<E>) -> bool, reason: Reason<X>,
    frames: Frames, error: X)
    requires Explained(step, start, state, reason)
    ensures Consumed(step, start, frames).error == Some(error) <==> Fails(reason, frames, error)
  {
    PrefixSettled(step, start, state, reason, frames, |frames|);
    assert frames[..|frames|] == frames;
    if k: nat :| FirstFailure(reason, frames, k, error) {
      FirstFailureStops(step, start, state, reason, frames, k, error);
    }
  }

  /** Consuming succeeds exactly when no frame fails, and leaves a state as it should. */
  lemma SucceedsIff<C(!new), E(!new), X(!new)>(
    step: FrameStep<C, E, X>, start: C, state: (Frames, C, seq<E>) -> bool, reason: Reason<X>, frames: Frames)
    requires Explained(step, start, state, reason)
    ensures var all := Consumed(step, start, frames);
      && (all.error.None? <==> NoneFails(reason, frames, |frames|))
      && (all.error.None? ==> state(frames, all.core, all.events))
  {
    PrefixSettled(step, start, state, reason, frames, |frames|);
    assert frames[..|frames|] == frames;
    var all := Consumed(step, start, frames);
    if all.error.Some? {
      var k: nat :| k < |frames| && FirstFailure(reason, frames, k, all.error.value);
      assert reason(frames[..k], frames[k], all.error.value);
    }
  }
}
