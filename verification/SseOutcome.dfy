/** When a responses turn succeeds, how it fails otherwise, and which events it has. */
module SseOutcome {
  import opened Prelude
  import Sequences
  import Framing
  import opened Streaming
  import opened Outcomes
  import Text
  import opened Json
  import opened ProviderTypes
  import opened SseStream
  import opened SseTurn

  // ----- the frames of a stream, each by what it carries -----

  predicate IsBlankByte(b: Byte) {
    b == 9 || b == 10 || b == 12 || b == 13 || b == 32
  }

  /** The frames of a turn: those that end, and the leftover bytes unless they are all tabs, line feeds, form feeds,
      carriage returns and spaces. */
  lemma LastFrameIs(bytes: seq<Byte>)
    ensures var split := Framing.Cut(bytes);
      TurnFrames(bytes) == split.frames + if forall b | b in split.rest :: IsBlankByte(b) then [] else [split.rest]
  {
    var rest := Framing.Cut(bytes).rest;
    if AllBlank(rest) {
      assert forall b | b in rest :: IsAsciiWhitespace(b);
    } else {
      var i :| 0 <= i < |rest| && !IsAsciiWhitespace(rest[i]);
      assert rest[i] in rest;
    }
  }

  /** The frame is the end marker, or its value says that the response is complete. */
  predicate Finishes(codec: Codec, frame: seq<Byte>) {
    || (Payload(codec, frame).Some? && Text.Trim(Payload(codec, frame).value) == "[DONE]")
    || (&& ValueOf(codec, frame).Some?
        && (|| HasType(ValueOf(codec, frame).value, "response.completed")
            || HasType(ValueOf(codec, frame).value, "response.done")))
  }

  ghost predicate HasFinish(codec: Codec, frames: Frames) {
    exists f :: f in frames && Finishes(codec, f)
  }

  /** Where the message of an error may be; the first place that has anything counts. */
  function MessageIn(value: Json): Option<Json> {
    var ownError, nested := Get(value, "error"), GetIn(Get(value, "response"), "error");
    if GetIn(ownError, "message").Some? then GetIn(ownError, "message")
    else if GetIn(nested, "message").Some? then GetIn(nested, "message")
    else Get(value, "message")
  }

  /** The error reports this message, redacted, or that there is none if it is missing or no string. */
  predicate Reports(codec: Codec, value: Json, detail: string) {
    var message := MessageIn(value);
    if message.Some? && message.value.Str? then detail == codec.redact(message.value.text)
    else detail == "provider returned an unspecified stream error"
  }

  /** A frame fails if it has a payload that is neither the end marker nor a JSON value, and eight frames before
      it are like that; or if its value is an error. */
  ghost predicate FailsWith(codec: Codec, before: Frames, frame: seq<Byte>, error: ProviderError) {
    || (error == MalformedFrames && IsMalformed(codec, frame) && SkippedCount(Malformed(codec), before) >= 8)
    || (&& ValueOf(codec, frame).Some? && IsFailure(ValueOf(codec, frame).value)
        && error.RemoteError? && Reports(codec, ValueOf(codec, frame).value, error.detail))
  }

  ghost function SseReason(codec: Codec): Reason<ProviderError> {
    (before, frame, error) => FailsWith(codec, before, frame, error)
  }

  // ----- the events of a stream -----

  function EventsOfValue(value: Json): seq<StreamEvent> {
    if HasType(value, "response.output_text.delta") && AsStr(Get(value, "delta")).Some?
    then [TextDelta(AsStr(Get(value, "delta")).value)]
    else if HasType(value, "response.output_item.done") && Get(value, "item").Some?
    then [OutputItem(Get(value, "item").value)]
    else if HasType(value, "response.completed") || HasType(value, "response.done") then [Completed]
    else []
  }

  /** Text deltas, streamed items and the completion are events; the end marker is none. */
  function FrameEvents(codec: Codec, frame: seq<Byte>): seq<StreamEvent> {
    if ValueOf(codec, frame).Some? then EventsOfValue(ValueOf(codec, frame).value) else []
  }

  function EventsIn(codec: Codec, frames: Frames): seq<StreamEvent> {
    if frames == [] then [] else FrameEvents(codec, frames[0]) + EventsIn(codec, frames[1..])
  }

  lemma {:induction false} EventsInAppend(codec: Codec, frames: Frames, frame: seq<Byte>)
    ensures EventsIn(codec, frames + [frame]) == EventsIn(codec, frames) + FrameEvents(codec, frame)
  {
    if frames == [] {
      assert frames + [frame] == [frame] && [frame][1..] == [];
    } else {
      assert (frames + [frame])[0] == frames[0] && (frames + [frame])[1..] == frames[1..] + [frame];
      EventsInAppend(codec, frames[1..], frame);
      Sequences.Assoc(FrameEvents(codec, frames[0]), EventsIn(codec, frames[1..]), FrameEvents(codec, frame));
    }
  }

  lemma FrameHasEvents(codec: Codec, core: Core, frame: seq<Byte>)
    requires AfterFrame(codec, core, frame).error.None?
    ensures AfterFrame(codec, core, frame).events == FrameEvents(codec, frame)
  {
    if ValueOf(codec, frame).Some? {
      SpeakingFrame(codec, core, frame);
      ValueHasEvents(codec, core, ValueOf(codec, frame).value);
    }
  }

  lemma ValueHasEvents(codec: Codec, core: Core, value: Json)
    requires !IsFailure(value)
    ensures AfterValue(codec, core, value).events == EventsOfValue(value)
  {
    KindIs(value);
  }

  // ----- the state after frames that do not fail -----

  ghost predicate StateIs(codec: Codec, frames: Frames, core: Core, events: seq<StreamEvent>) {
    && (core.completed <==> HasFinish(codec, frames))
    && core.malformed == SkippedCount(Malformed(codec), frames) <= 8
    && events == EventsIn(codec, frames)
  }

  ghost function SseState(codec: Codec): (Frames, Core, seq<StreamEvent>) -> bool {
    (frames, core, events) => StateIs(codec, frames, core, events)
  }

  lemma FrameCompletes(codec: Codec, core: Core, frame: seq<Byte>)
    ensures AfterFrame(codec, core, frame).core.completed <==> core.completed || Finishes(codec, frame)
  {
    if ValueOf(codec, frame).Some? {
      SpeakingFrame(codec, core, frame);
      KindIs(ValueOf(codec, frame).value);
    }
  }

  lemma FrameCounts(codec: Codec, before: Frames, core: Core, frame: seq<Byte>)
    requires core.malformed == SkippedCount(Malformed(codec), before) <= 8
    ensures var after := AfterFrame(codec, core, frame);
      && after.core.malformed == SkippedCount(Malformed(codec), before + [frame])
      && (after.error.None? ==> after.core.malformed <= 8)
  {
    KeptConcat(Malformed(codec), before, [frame]);
    assert Kept(Malformed(codec), [frame]) == if IsMalformed(codec, frame) then [] else [frame];
    if !IsMalformed(codec, frame) {
      HealthyTakesNothing(codec, core, frame);
    }
  }

  lemma NextState(codec: Codec, before: Frames, core: Core, events: seq<StreamEvent>, frame: seq<Byte>)
    requires StateIs(codec, before, core, events) && AfterFrame(codec, core, frame).error.None?
    ensures var after := AfterFrame(codec, core, frame);
      StateIs(codec, before + [frame], after.core, events + after.events)
  {
    FrameCompletes(codec, core, frame);
    FrameCounts(codec, before, core, frame);
    FrameHasEvents(codec, core, frame);
    EventsInAppend(codec, before, frame);
    assert forall f :: f in before + [frame] <==> f in before || f == frame;
  }

  lemma FrameFailsIff(codec: Codec, before: Frames, core: Core, frame: seq<Byte>)
    requires core.malformed == SkippedCount(Malformed(codec), before) <= 8
    ensures forall error :: AfterFrame(codec, core, frame).error == Some(error) <==> FailsWith(codec, before, frame, error)
  {
    if IsMalformed(codec, frame) {
      MalformedTakesUnit(codec, core, frame);
    } else if ValueOf(codec, frame).Some? {
      SpeakingFrame(codec, core, frame);
      ValueFailsIff(codec, core, ValueOf(codec, frame).value);
    } else {
      NothingToFail(codec, core, frame);
    }
  }

  lemma ValueFailsIff(codec: Codec, core: Core, value: Json)
    ensures forall error :: AfterValue(codec, core, value).error == Some(error) <==>
      IsFailure(value) && error.RemoteError? && Reports(codec, value, error.detail)
  {
    KindIs(value);
  }

  lemma NothingToFail(codec: Codec, core: Core, frame: seq<Byte>)
    requires !IsMalformed(codec, frame) && ValueOf(codec, frame).None?
    ensures AfterFrame(codec, core, frame).error.None?
  {
  }

  lemma FramesExplained(codec: Codec, headerModel: Option<string>)
    ensures Explained(SseStep(codec), StartCore(headerModel), SseState(codec), SseReason(codec))
  {
    forall before: Frames, c: Core, events, f
      ensures Explains(SseStep(codec), SseState(codec), SseReason(codec), before, c, events, f)
    {
      if StateIs(codec, before, c, events) {
        FrameFailsIff(codec, before, c, f);
        if AfterFrame(codec, c, f).error.None? {
          NextState(codec, before, c, events, f);
        }
      }
    }
  }

  // ----- whole turns -----

  lemma NotIncompleteSoFar(codec: Codec, headerModel: Option<string>, frames: Frames)
    ensures Consumed(SseStep(codec), StartCore(headerModel), frames).error != Some(IncompleteStream)
  {
    FramesExplained(codec, headerModel);
    FailsIff(SseStep(codec), StartCore(headerModel), SseState(codec), SseReason(codec), frames, IncompleteStream);
  }

  /** A turn succeeds exactly when no frame fails and one finishes it, and it is incomplete exactly when none
      fails and none does. */
  lemma TurnSucceedsIff(codec: Codec, headerModel: Option<string>, chunks: seq<seq<Byte>>)
    ensures var frames, turn := TurnFrames(Framing.Concat(chunks)), RunTurn(codec, headerModel, chunks);
      && (turn.Ok? <==> NoneFails(SseReason(codec), frames, |frames|) && HasFinish(codec, frames))
      && (turn == Err(IncompleteStream) <==> NoneFails(SseReason(codec), frames, |frames|) && !HasFinish(codec, frames))
  {
    var frames := TurnFrames(Framing.Concat(chunks));
    TurnIsFold(codec, headerModel, chunks);
    FramesExplained(codec, headerModel);
    SucceedsIff(SseStep(codec), StartCore(headerModel), SseState(codec), SseReason(codec), frames);
    NotIncompleteSoFar(codec, headerModel, frames);
  }

  /** Any other error is that of the first frame that fails. */
  lemma TurnFailsIff(codec: Codec, headerModel: Option<string>, chunks: seq<seq<Byte>>, error: ProviderError)
    requires error != IncompleteStream
    ensures RunTurn(codec, headerModel, chunks) == Err(error) <==>
      Fails(SseReason(codec), TurnFrames(Framing.Concat(chunks)), error)
  {
    var frames := TurnFrames(Framing.Concat(chunks));
    TurnIsFold(codec, headerModel, chunks);
    FramesExplained(codec, headerModel);
    FailsIff(SseStep(codec), StartCore(headerModel), SseState(codec), SseReason(codec), frames, error);
  }

  /** The events of a successful turn, in order. */
  lemma TurnEventsAre(codec: Codec, headerModel: Option<string>, chunks: seq<seq<Byte>>)
    requires RunTurn(codec, headerModel, chunks).Ok?
    ensures RunTurn(codec, headerModel, chunks).value.events == EventsIn(codec, TurnFrames(Framing.Concat(chunks)))
  {
    TurnIsFold(codec, headerModel, chunks);
    FramesExplained(codec, headerModel);
    SucceedsIff(SseStep(codec), StartCore(headerModel), SseState(codec), SseReason(codec), TurnFrames(Framing.Concat(chunks)));
  }
}
