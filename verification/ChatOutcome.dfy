/** When a chat-completions turn succeeds, how it fails otherwise, and which events it has. */
module ChatOutcome {
  import opened Prelude
  import Sequences
  import Framing
  import opened Streaming
  import opened Outcomes
  import opened Json
  import opened ToolCalls
  import opened ProviderTypes
  import opened ChatStream
  import opened ChatTurn

  // ----- the frames of a stream, each by what it carries -----

  /** The frames of a turn: those that end, and the leftover bytes if there are any. */
  lemma LastFrameIs(bytes: seq<Byte>)
    ensures var split := Framing.Cut(bytes);
      TurnFrames(bytes) == split.frames + if split.rest == [] then [] else [split.rest]
  {
  }

  predicate IsEndMarker(codec: Codec, frame: seq<Byte>) {
    Payload(codec, frame) == "[DONE]"
  }

  ghost predicate HasEndMarker(codec: Codec, frames: Frames) {
    exists f :: f in frames && IsEndMarker(codec, f)
  }

  /** The calls assembled from all fragments that the frames carry. */
  function CallsIn(codec: Codec, frames: Frames): Calls {
    AppliedAll(map[], FragmentsIn(ChoicesOf(ValuesOf(Reader(codec), frames))))
  }

  ghost predicate LeastInvalid(codec: Codec, calls: Calls, i: nat) {
    HasInvalidArguments(codec, calls, i) && forall j | HasInvalidArguments(codec, calls, j) :: i <= j
  }

  /** A frame fails if it carries neither nothing nor the end marker nor a JSON value, and eight frames before
      it are like that; or if it is the end marker and the calls so far have arguments that are not JSON. */
  ghost predicate FailsWith(codec: Codec, before: Frames, frame: seq<Byte>, error: ProviderError) {
    || (error == MalformedFrames && IsMalformed(codec, frame) && SkippedCount(Malformed(codec), before) >= 8)
    || (IsEndMarker(codec, frame) && error.InvalidArguments? && LeastInvalid(codec, CallsIn(codec, before), error.index))
  }

  ghost function ChatReason(codec: Codec): Reason<ProviderError> {
    (before, frame, error) => FailsWith(codec, before, frame, error)
  }

  // ----- the events of a stream -----

  /** The string that a choice adds under a key, empty if it adds none. */
  function Said(choice: Json, key: string): string {
    AsStr(GetIn(Get(choice, "delta"), key)).GetOr("")
  }

  function OwnEvents(choice: Json): seq<StreamEvent> {
    var reasoning, text := Said(choice, "reasoning_content"), Said(choice, "content");
    (if reasoning != "" then [ReasoningDelta(reasoning)] else []) + if text != "" then [TextDelta(text)] else []
  }

  function EventsOfChoices(choices: seq<Json>): seq<StreamEvent> {
    if choices == [] then [] else OwnEvents(choices[0]) + EventsOfChoices(choices[1..])
  }

  /** The end marker completes the turn; a value has the deltas of its choices in order, reasoning before text. */
  function FrameEvents(codec: Codec, frame: seq<Byte>): seq<StreamEvent> {
    if IsEndMarker(codec, frame) then [Completed]
    else if ValueOf(codec, frame).Some? then EventsOfChoices(Elements(Get(ValueOf(codec, frame).value, "choices")))
    else []
  }

  function EventsIn(codec: Codec, frames: Frames): seq<StreamEvent> {
    if frames == [] then [] else FrameEvents(codec, frames[0]) + EventsIn(codec, frames[1..])
  }

  lemma {:induction false} EventsInAppend(codec: Codec, frames: Frames, frame: seq<Byte>)
    ensures EventsIn(codec, frames + [frame]) == EventsIn(codec, frames) + FrameEvents(codec, frame)
  {
    if frames == [] {
      assert frames + [frame] == [frame] && [frame][1..] == [];
    } else {
      assert (frames + [frame])[0] == frames[0] && (frames + [frame])[1..] == frames[1..] + [frame];
      EventsInAppend(codec, frames[1..], frame);
      Sequences.Assoc(FrameEvents(codec, frames[0]), EventsIn(codec, frames[1..]), FrameEvents(codec, frame));
    }
  }

  lemma {:induction false} ChoicesHaveEvents(core: Core, choices: seq<Json>)
    ensures AfterChoices(core, choices).1 == EventsOfChoices(choices)
    decreases |choices|
  {
    if choices != [] {
      ChoicesHaveEvents(AfterChoice(core, choices[0]), choices[1..]);
    }
  }

  lemma FrameHasEvents(codec: Codec, core: Core, frame: seq<Byte>)
    requires AfterFrame(codec, core, frame).error.None?
    ensures AfterFrame(codec, core, frame).events == FrameEvents(codec, frame)
  {
    if ValueOf(codec, frame).Some? {
      var value := ValueOf(codec, frame).value;
      ChoicesHaveEvents(core.(result := WithHeader(core.result, value)), Elements(Get(value, "choices")));
    }
  }

  // ----- the state after frames that do not fail -----

  ghost predicate StateIs(codec: Codec, frames: Frames, core: Core, events: seq<StreamEvent>) {
    && (core.completed <==> HasEndMarker(codec, frames))
    && core.malformed == SkippedCount(Malformed(codec), frames) <= 8
    && core.calls == CallsIn(codec, frames)
    && events == EventsIn(codec, frames)
  }

  ghost function ChatState(codec: Codec): (Frames, Core, seq<StreamEvent>) -> bool {
    (frames, core, events) => StateIs(codec, frames, core, events)
  }

  lemma FrameCompletes(codec: Codec, core: Core, frame: seq<Byte>)
    ensures AfterFrame(codec, core, frame).core.completed <==> core.completed || IsEndMarker(codec, frame)
  {
    if ValueOf(codec, frame).Some? {
      var value := ValueOf(codec, frame).value;
      SpeakingFrame(codec, core, frame);
      ChoicesKeepCompleted(core.(result := WithHeader(core.result, value)), Elements(Get(value, "choices")));
    }
  }

  lemma {:induction false} ChoicesKeepCompleted(core: Core, choices: seq<Json>)
    ensures AfterChoices(core, choices).0.completed == core.completed
    decreases |choices|
  {
    if choices != [] {
      ChoicesKeepCompleted(AfterChoice(core, choices[0]), choices[1..]);
    }
  }

  lemma FrameAddsCalls(codec: Codec, before: Frames, core: Core, frame: seq<Byte>)
    requires core.calls == CallsIn(codec, before)
    ensures AfterFrame(codec, core, frame).core.calls == CallsIn(codec, before + [frame])
  {
    var value := OneValue(ValueOf(codec, frame));
    FrameFollows(codec, core, frame);
    ValuesOfAppend(Reader(codec), before, frame);
    ChoicesOfConcat(ValuesOf(Reader(codec), before), value);
    FragmentsInConcat(ChoicesOf(ValuesOf(Reader(codec), before)), ChoicesOf(value));
    AppliedAllConcat(map[], FragmentsIn(ChoicesOf(ValuesOf(Reader(codec), before))), FragmentsIn(ChoicesOf(value)));
  }

  lemma FrameCounts(codec: Codec, before: Frames, core: Core, frame: seq<Byte>)
    requires core.malformed == SkippedCount(Malformed(codec), before) <= 8
    ensures var after := AfterFrame(codec, core, frame);
      && after.core.malformed == SkippedCount(Malformed(codec), before + [frame])
      && (after.error.None? ==> after.core.malformed <= 8)
  {
    KeptConcat(Malformed(codec), before, [frame]);
    assert Kept(Malformed(codec), [frame]) == if IsMalformed(codec, frame) then [] else [frame];
    if !IsMalformed(codec, frame) {
      HealthyTakesNothing(codec, core, frame);
    }
  }

  lemma NextState(codec: Codec, before: Frames, core: Core, events: seq<StreamEvent>, frame: seq<Byte>)
    requires StateIs(codec, before, core, events) && AfterFrame(codec, core, frame).error.None?
    ensures var after := AfterFrame(codec, core, frame);
      StateIs(codec, before + [frame], after.core, events + after.events)
  {
    FrameCompletes(codec, core, frame);
    FrameAddsCalls(codec, before, core, frame);
    FrameCounts(codec, before, core, frame);
    FrameHasEvents(codec, core, frame);
    EventsInAppend(codec, before, frame);
    assert forall f :: f in before + [frame] <==> f in before || f == frame;
  }

  lemma FrameFailsIff(codec: Codec, before: Frames, core: Core, frame: seq<Byte>)
    requires core.malformed == SkippedCount(Malformed(codec), before) <= 8 && core.calls == CallsIn(codec, before)
    ensures forall error :: AfterFrame(codec, core, frame).error == Some(error) <==> FailsWith(codec, before, frame, error)
  {
    if IsEndMarker(codec, frame) {
      EndMarkerFailsIff(codec, core, frame);
    } else if IsMalformed(codec, frame) {
      MalformedTakesUnit(codec, core, frame);
    } else {
      NothingToFail(codec, core, frame);
    }
  }

  lemma EndMarkerFailsIff(codec: Codec, core: Core, frame: seq<Byte>)
    requires IsEndMarker(codec, frame)
    ensures forall error :: AfterFrame(codec, core, frame).error == Some(error) <==>
      error.InvalidArguments? && LeastInvalid(codec, core.calls, error.index)
  {
    DoneChecksArguments(codec, core, frame);
  }

  lemma NothingToFail(codec: Codec, core: Core, frame: seq<Byte>)
    requires !IsEndMarker(codec, frame) && !IsMalformed(codec, frame)
    ensures AfterFrame(codec, core, frame).error.None?
  {
  }

  lemma FramesExplained(codec: Codec)
    ensures Explained(ChatStep(codec), START, ChatState(codec), ChatReason(codec))
  {
    forall before: Frames, c: Core, events, f
      ensures Explains(ChatStep(codec), ChatState(codec), ChatReason(codec), before, c, events, f)
    {
      if StateIs(codec, before, c, events) {
        FrameFailsIff(codec, before, c, f);
        if AfterFrame(codec, c, f).error.None? {
          NextState(codec, before, c, events, f);
        }
      }
    }
  }

  // ----- whole turns -----

  lemma NotIncompleteSoFar(codec: Codec, frames: Frames)
    ensures Consumed(ChatStep(codec), START, frames).error != Some(IncompleteStream)
  {
    FramesExplained(codec);
    FailsIff(ChatStep(codec), START, ChatState(codec), ChatReason(codec), frames, IncompleteStream);
  }

  /** A turn succeeds exactly when no frame fails and one is the end marker, and it is incomplete exactly when
      none fails and none is. */
  lemma TurnSucceedsIff(codec: Codec, chunks: seq<seq<Byte>>)
    ensures var frames := TurnFrames(Framing.Concat(chunks));
      && (RunTurn(codec, chunks).Ok? <==> NoneFails(ChatReason(codec), frames, |frames|) && HasEndMarker(codec, frames))
      && (RunTurn(codec, chunks) == Err(IncompleteStream) <==>
            NoneFails(ChatReason(codec), frames, |frames|) && !HasEndMarker(codec, frames))
  {
    var frames := TurnFrames(Framing.Concat(chunks));
    TurnIsFold(codec, chunks);
    FramesExplained(codec);
    SucceedsIff(ChatStep(codec), START, ChatState(codec), ChatReason(codec), frames);
    NotIncompleteSoFar(codec, frames);
  }

  /** Any other error is that of the first frame that fails. */
  lemma TurnFailsIff(codec: Codec, chunks: seq<seq<Byte>>, error: ProviderError)
    requires error != IncompleteStream
    ensures RunTurn(codec, chunks) == Err(error) <==> Fails(ChatReason(codec), TurnFrames(Framing.Concat(chunks)), error)
  {
    TurnIsFold(codec, chunks);
    FramesExplained(codec);
    FailsIff(ChatStep(codec), START, ChatState(codec), ChatReason(codec), TurnFrames(Framing.Concat(chunks)), error);
  }

  /** The events of a successful turn, in order. */
  lemma TurnEventsAre(codec: Codec, chunks: seq<seq<Byte>>)
    requires RunTurn(codec, chunks).Ok?
    ensures RunTurn(codec, chunks).value.events == EventsIn(codec, TurnFrames(Framing.Concat(chunks)))
  {
    TurnIsFold(codec, chunks);
    FramesExplained(codec);
    SucceedsIff(ChatStep(codec), START, ChatState(codec), ChatReason(codec), TurnFrames(Framing.Concat(chunks)));
  }
}
