/** The result of a responses turn, read off the whole stream at once. */
module SseTurn {
  import opened Prelude
  import Sequences
  import opened Framing
  import opened Streaming
  import opened Delivery
  import Text
  import opened Json
  import UsageLedger
  import opened ProviderTypes
  import opened SseStream

  function TurnFrames(bytes: seq<Byte>): seq<seq<Byte>> {
    AllFrames(AllBlank, bytes)
  }

  function ValueOf(codec: Codec, frame: seq<Byte>): Option<Json> {
    var data := Payload(codec, frame);
    if data.None? || Text.Trim(data.value) == "[DONE]" then None else codec.parse(data.value)
  }

  function Reader(codec: Codec): seq<Byte> -> Option<Json> {
    frame => ValueOf(codec, frame)
  }

  /** The event carries a snapshot of the response. */
  predicate HasSnapshot(v: Json) {
    || HasType(v, "response.created") || HasType(v, "response.in_progress")
    || HasType(v, "response.completed") || HasType(v, "response.done")
  }

  predicate HasType(v: Json, name: string) {
    AsStr(Get(v, "type")) == Some(name)
  }

  predicate IsFailure(v: Json) {
    HasType(v, "error") || HasType(v, "response.error") || HasType(v, "response.failed")
  }

  lemma KindOfIs(name: string)
    ensures KindOf(name).TextPart? <==> name == "response.output_text.delta"
    ensures KindOf(name).ItemDone? <==> name == "response.output_item.done"
    ensures KindOf(name).Underway? <==> name == "response.created" || name == "response.in_progress"
    ensures KindOf(name).Done? <==> name == "response.completed" || name == "response.done"
    ensures KindOf(name).Failure? <==> name == "error" || name == "response.error" || name == "response.failed"
  {
  }

  /** The kinds of events, by the strings in their type. */
  lemma KindIs(v: Json)
    ensures Kind(v).TextPart? <==> HasType(v, "response.output_text.delta")
    ensures Kind(v).ItemDone? <==> HasType(v, "response.output_item.done")
    ensures Kind(v).Underway? || Kind(v).Done? <==> HasSnapshot(v)
    ensures Kind(v).Done? <==> HasType(v, "response.completed") || HasType(v, "response.done")
    ensures Kind(v).Failure? <==> IsFailure(v)
  {
    KindOfIs(AsStr(Get(v, "type")).GetOr(""));
  }

  function SnapshotOf(v: Json): Json {
    Get(v, "response").GetOr(v)
  }

  function Snapshots(values: seq<Json>): seq<Json> {
    if values == [] then []
    else OwnSnapshot(values[0]) + Snapshots(values[1..])
  }

  function DeltaText(v: Json): string {
    if HasType(v, "response.output_text.delta") then AsStr(Get(v, "delta")).GetOr("") else ""
  }

  function DeltaTexts(values: seq<Json>): string {
    if values == [] then "" else DeltaText(values[0]) + DeltaTexts(values[1..])
  }

  function Usage(v: Json): Json {
    Get(v, "usage").GetOr(Null)
  }

  function UsageCount(key: string): Json -> Option<U64> {
    v => AsU64(Get(Usage(v), key))
  }

  function UsageDetail(details: string, key: string): Json -> Option<U64> {
    v => AsU64(GetIn(Get(Usage(v), details), key))
  }

  const CACHED := UsageDetail("input_tokens_details", "cached_tokens")
  const REASONING := UsageDetail("output_tokens_details", "reasoning_tokens")

  /** Cache writes are reported at either of two places, the first having precedence. */
  function CacheWrites(v: Json): Option<U64> {
    AsU64(Get(Usage(v), "cache_write_tokens").Or(GetIn(Get(Usage(v), "input_tokens_details"), "cache_write_tokens")))
  }

  /** Each count is the last one that any snapshot reports. */
  function LastUsage(before: UsageLedger.TokenUsage, snapshots: seq<Json>): UsageLedger.TokenUsage {
    UsageLedger.TokenUsage(
      LastCount(UsageCount("input_tokens"), snapshots, before.input),
      LastCount(UsageCount("output_tokens"), snapshots, before.output),
      LastCount(CACHED, snapshots, before.cachedInput),
      LastCount(CacheWrites, snapshots, before.cacheWrite),
      LastCount(REASONING, snapshots, before.reasoningOutput))
  }

  /** Counts, response id and model are the last ones that any snapshot reports. */
  function LastHeader(before: Header, snapshots: seq<Json>): Header {
    Header(
      LastUsage(before.usage, snapshots),
      LastOf(Member("id"), snapshots).Or(before.responseId),
      LastOf(Member("model"), snapshots).Or(before.serverModel))
  }

  /** The result after some frames is what the values they carry report, taken together. */
  ghost predicate Follows(before: TurnResult, values: seq<Json>, after: TurnResult) {
    && HeaderOf(after) == LastHeader(HeaderOf(before), Snapshots(values))
    && after.outputText == before.outputText + DeltaTexts(values)
  }

  lemma LastHeaderConcat(before: Header, x: seq<Json>, y: seq<Json>)
    ensures LastHeader(before, x + y) == LastHeader(LastHeader(before, x), y)
  {
    LastCountConcat(UsageCount("input_tokens"), x, y, before.usage.input);
    LastCountConcat(UsageCount("output_tokens"), x, y, before.usage.output);
    LastCountConcat(CACHED, x, y, before.usage.cachedInput);
    LastCountConcat(CacheWrites, x, y, before.usage.cacheWrite);
    LastCountConcat(REASONING, x, y, before.usage.reasoningOutput);
    LastOfConcat(Member("id"), x, y);
    LastOfConcat(Member("model"), x, y);
  }

  function OwnSnapshot(value: Json): seq<Json> {
    if HasSnapshot(value) then [SnapshotOf(value)] else []
  }

  lemma {:induction false} SnapshotsConcat(x: seq<Json>, y: seq<Json>)
    ensures Snapshots(x + y) == Snapshots(x) + Snapshots(y)
  {
    if x == [] {
      assert x + y == y;
    } else {
      assert (x + y)[0] == x[0] && (x + y)[1..] == x[1..] + y;
      SnapshotsConcat(x[1..], y);
      Sequences.Assoc(OwnSnapshot(x[0]), Snapshots(x[1..]), Snapshots(y));
    }
  }

  lemma {:induction false} DeltaTextsConcat(x: seq<Json>, y: seq<Json>)
    ensures DeltaTexts(x + y) == DeltaTexts(x) + DeltaTexts(y)
  {
    if x == [] {
      assert x + y == y;
    } else {
      assert (x + y)[0] == x[0] && (x + y)[1..] == x[1..] + y;
      DeltaTextsConcat(x[1..], y);
      Sequences.Assoc(DeltaText(x[0]), DeltaTexts(x[1..]), DeltaTexts(y));
    }
  }

  lemma FollowsConcat(a: TurnResult, x: seq<Json>, b: TurnResult, y: seq<Json>, c: TurnResult)
    requires Follows(a, x, b) && Follows(b, y, c)
    ensures Follows(a, x + y, c)
  {
    SnapshotsConcat(x, y);
    LastHeaderConcat(HeaderOf(a), Snapshots(x), Snapshots(y));
    DeltaTextsConcat(x, y);
    Sequences.Assoc(a.outputText, DeltaTexts(x), DeltaTexts(y));
  }

  lemma {:induction false} ItemsKeepHeader(result: TurnResult, items: seq<Json>)
    ensures HeaderOf(WithItems(result, items)) == HeaderOf(result)
    decreases |items|
  {
    if items != [] {
      ItemsKeepHeader(WithItem(result, items[0]), items[1..]);
    }
  }

  lemma OneSnapshotCounts(result: TurnResult, response: Json)
    ensures WithHeader(result, response).usage == LastUsage(result.usage, [response])
  {
    LastOfOne(UsageCount("input_tokens"), response);
    LastOfOne(UsageCount("output_tokens"), response);
    LastOfOne(CACHED, response);
    LastOfOne(CacheWrites, response);
    LastOfOne(REASONING, response);
  }

  lemma CaptureFollows(event: Json, result: TurnResult)
    ensures HeaderOf(Captured(event, result)) == LastHeader(HeaderOf(result), [SnapshotOf(event)])
  {
    var response := SnapshotOf(event);
    ItemsKeepHeader(WithHeader(result, response), Elements(Get(response, "output")));
    OneSnapshotCounts(result, response);
    LastOfOne(Member("id"), response);
    LastOfOne(Member("model"), response);
  }

  lemma OneValueFollows(before: TurnResult, value: Json, after: TurnResult)
    requires HeaderOf(after) == LastHeader(HeaderOf(before), OwnSnapshot(value))
    requires after.outputText == before.outputText + DeltaText(value)
    ensures Follows(before, [value], after)
  {
    assert Snapshots([]) == [] && DeltaTexts([]) == "";
    assert Snapshots([value]) == OwnSnapshot(value) && DeltaTexts([value]) == DeltaText(value);
  }

  lemma SnapshotEvent(codec: Codec, core: Core, value: Json)
    requires HasSnapshot(value)
    ensures AfterValue(codec, core, value).core.result == Captured(value, core.result) && DeltaText(value) == ""
  {
  }

  lemma OtherEvent(codec: Codec, core: Core, value: Json)
    requires !HasSnapshot(value) && AfterValue(codec, core, value).error.None?
    ensures var after := AfterValue(codec, core, value).core.result;
      HeaderOf(after) == HeaderOf(core.result) && after.outputText == core.result.outputText + DeltaText(value)
  {
  }

  lemma ValueFollows(codec: Codec, core: Core, value: Json)
    requires AfterValue(codec, core, value).error.None?
    ensures Follows(core.result, [value], AfterValue(codec, core, value).core.result)
  {
    if HasSnapshot(value) {
      SnapshotEvent(codec, core, value);
      CaptureFollows(value, core.result);
      CaptureKeepsTexts(value, core.result);
    } else {
      OtherEvent(codec, core, value);
    }
    OneValueFollows(core.result, value, AfterValue(codec, core, value).core.result);
  }

  lemma SilentFrame(codec: Codec, core: Core, frame: seq<Byte>)
    requires ValueOf(codec, frame).None?
    ensures AfterFrame(codec, core, frame).core.result == core.result
  {
  }

  lemma SpeakingFrame(codec: Codec, core: Core, frame: seq<Byte>)
    requires ValueOf(codec, frame).Some?
    ensures AfterFrame(codec, core, frame) == AfterValue(codec, core, ValueOf(codec, frame).value)
  {
  }

  lemma FrameFollows(codec: Codec, core: Core, frame: seq<Byte>)
    requires AfterFrame(codec, core, frame).error.None?
    ensures Follows(core.result, OneValue(ValueOf(codec, frame)), AfterFrame(codec, core, frame).core.result)
  {
    var value := ValueOf(codec, frame);
    if value.Some? {
      SpeakingFrame(codec, core, frame);
      ValueFollows(codec, core, value.value);
    } else {
      SilentFrame(codec, core, frame);
    }
  }

  lemma {:induction false} FramesFollow(codec: Codec, core: Core, frames: seq<seq<Byte>>)
    requires Consumed(SseStep(codec), core, frames).error.None?
    ensures Follows(core.result, ValuesOf(Reader(codec), frames), Consumed(SseStep(codec), core, frames).core.result)
    decreases |frames|
  {
    if frames != [] {
      var next := AfterFrame(codec, core, frames[0]).core;
      FrameFollows(codec, core, frames[0]);
      FramesFollow(codec, next, frames[1..]);
      FollowsConcat(core.result, OneValue(ValueOf(codec, frames[0])), next.result, ValuesOf(Reader(codec), frames[1..]),
                    Consumed(SseStep(codec), next, frames[1..]).core.result);
    }
  }

  /** The text of a turn: the streamed deltas, or that of the message items if nothing was streamed. */
  function FinalText(result: TurnResult): string {
    if result.outputText == "" then OutputTextOfItems(result.outputItems) else result.outputText
  }

  /** What a turn amounts to once all its frames were consumed. */
  function TurnOf(all: SseParsed): Result<Turn, ProviderError> {
    if all.error.Some? then Err(all.error.value)
    else if !all.core.completed then Err(IncompleteStream)
    else Ok(Turn(all.core.result.(outputText := FinalText(all.core.result)), all.events))
  }

  /** The leftover bytes are consumed like one more frame. */
  lemma FinishedIsConsumed(codec: Codec, rest: seq<Byte>, core: Core)
    ensures var all := Consumed(SseStep(codec), core, LastFrame(AllBlank, rest));
      Finished(codec, rest, core) == (all.core, Outcome(all))
  {
    if !AllBlank(rest) {
      ConsumedOne(SseStep(codec), core, rest);
    }
  }

  /** A turn is what consuming the frames of its whole stream amounts to, with its events or its error. */
  lemma TurnIsFold(codec: Codec, headerModel: Option<string>, chunks: seq<seq<Byte>>)
    ensures RunTurn(codec, headerModel, chunks) ==
      TurnOf(Consumed(SseStep(codec), StartCore(headerModel), TurnFrames(Concat(chunks))))
  {
    var split, start := Cut(Concat(chunks)), StartCore(headerModel);
    FedOutcome(SseStep(codec), start, chunks);
    ConsumedConcat(SseStep(codec), start, split.frames, LastFrame(AllBlank, split.rest));
    FinishedIsConsumed(codec, split.rest, Consumed(SseStep(codec), start, split.frames).core);
  }

  /** The result of a successful turn, read off the values of the whole stream: every count and id is
      the last one that a snapshot of the response reports, the model is that or the one named by the
      response headers, and the text is all deltas in order, or that of the items if there are none. */
  lemma TurnResultIsSummary(codec: Codec, headerModel: Option<string>, chunks: seq<seq<Byte>>)
    requires RunTurn(codec, headerModel, chunks).Ok?
    ensures var values, result := ValuesOf(Reader(codec), TurnFrames(Concat(chunks))), RunTurn(codec, headerModel, chunks).value.result;
      && HeaderOf(result) == LastHeader(Header(UsageLedger.TokenUsage(0, 0, 0, 0, 0), None, headerModel), Snapshots(values))
      && result.outputText == (if DeltaTexts(values) != "" then DeltaTexts(values) else OutputTextOfItems(result.outputItems))
  {
    TurnIsFold(codec, headerModel, chunks);
    FramesFollow(codec, StartCore(headerModel), TurnFrames(Concat(chunks)));
  }

  // ----- events handed on before an error -----

  /** The events of the end of the stream, which are lost if it fails. */
  function LastEvents(codec: Codec): (seq<Byte>, Core) -> seq<StreamEvent> {
    (rest, core) => var last := Finished(codec, rest, core).1; if last.Ok? then last.value else []
  }

  /** The events that the turn hands to its caller, whether it then fails or not. */
  function TurnEvents(codec: Codec, headerModel: Option<string>, chunks: seq<seq<Byte>>): seq<StreamEvent> {
    HandedOn(SseStep(codec), LastEvents(codec), StartCore(headerModel), chunks)
  }

  /** A successful turn hands on the events of its outcome. */
  lemma SuccessHandsOnAll(codec: Codec, headerModel: Option<string>, chunks: seq<seq<Byte>>)
    requires RunTurn(codec, headerModel, chunks).Ok?
    ensures TurnEvents(codec, headerModel, chunks) == RunTurn(codec, headerModel, chunks).value.events
  {
    DeliveredClean(SseStep(codec), [], StartCore(headerModel), chunks);
  }

  ghost predicate EventsIgnoreChunking(codec: Codec, headerModel: Option<string>, bytes: seq<Byte>) {
    HandingOnIgnoresChunking(SseStep(codec), LastEvents(codec), StartCore(headerModel), bytes)
  }

  /** All chunkings of the bytes hand on the same events exactly when no complete frame fails or no frame
      before the failing one has events. */
  lemma EventsIgnoreChunkingIff(codec: Codec, headerModel: Option<string>, bytes: seq<Byte>)
    ensures EventsIgnoreChunking(codec, headerModel, bytes) <==>
      || Consumed(SseStep(codec), StartCore(headerModel), Cut(bytes).frames).error.None?
      || EventsBeforeError(SseStep(codec), StartCore(headerModel), Cut(bytes).frames) == []
  {
    HandingOnIgnoresChunkingIff(SseStep(codec), LastEvents(codec), StartCore(headerModel), bytes);
  }

  // ----- malformed frames in a turn -----

  lemma MalformedFramesMeter(codec: Codec)
    ensures Metered(SseStep(codec), Malformed(codec), MalformedLeft, MalformedFrames)
  {
    forall c, f | Malformed(codec)(f)
      ensures TakesUnit(SseStep(codec), MalformedLeft, MalformedFrames, c, f)
    {
      MalformedTakesUnit(codec, c, f);
    }
    forall c, f | !Malformed(codec)(f)
      ensures TakesNothing(SseStep(codec), MalformedLeft, MalformedFrames, c, f)
    {
      HealthyTakesNothing(codec, c, f);
    }
  }

  lemma MalformedTakesUnit(codec: Codec, c: Core, frame: seq<Byte>)
    requires IsMalformed(codec, frame)
    ensures TakesUnit(SseStep(codec), MalformedLeft, MalformedFrames, c, frame)
  {
  }

  lemma HealthyTakesNothing(codec: Codec, c: Core, frame: seq<Byte>)
    requires !IsMalformed(codec, frame)
    ensures TakesNothing(SseStep(codec), MalformedLeft, MalformedFrames, c, frame)
  {
    HealthyIsAlike(codec, c, c, frame);
  }

  /** The k-th frame of the stream is the ninth malformed one, and no other frame before it fails. */
  ghost predicate NinthMalformedAt(codec: Codec, headerModel: Option<string>, frames: seq<seq<Byte>>, k: nat) {
    && k < |frames| && IsMalformed(codec, frames[k])
    && SkippedCount(Malformed(codec), frames[..k]) == MAX_MALFORMED_FRAMES
    && Consumed(SseStep(codec), StartCore(headerModel), Kept(Malformed(codec), frames[..k])).error.None?
  }

  /** A turn fails for its malformed frames exactly when a ninth one comes before any other error. */
  lemma MalformedFailsIff(codec: Codec, headerModel: Option<string>, chunks: seq<seq<Byte>>)
    ensures RunTurn(codec, headerModel, chunks) == Err(MalformedFrames) <==>
      exists k :: NinthMalformedAt(codec, headerModel, TurnFrames(Concat(chunks)), k)
  {
    var frames := TurnFrames(Concat(chunks));
    TurnIsFold(codec, headerModel, chunks);
    MalformedFramesSkip(codec);
    MalformedFramesMeter(codec);
    SpentIff(SseStep(codec), Malformed(codec), SameButCount, MalformedLeft, MalformedFrames, StartCore(headerModel), frames);
    forall k: nat
      ensures NinthMalformedAt(codec, headerModel, frames, k) <==>
        RunsOutAt(SseStep(codec), Malformed(codec), MalformedLeft, StartCore(headerModel), frames, k)
    {
    }
  }

  /** Up to eight malformed frames have no effect on a turn: without them, and however the bytes arrive,
      it has the same result, the same events and the same error, if any. */
  lemma MalformedFramesAreSkipped(codec: Codec, headerModel: Option<string>, chunks: seq<seq<Byte>>, chunks': seq<seq<Byte>>)
    requires SkippedCount(Malformed(codec), TurnFrames(Concat(chunks))) <= MAX_MALFORMED_FRAMES
    requires Concat(chunks') == WithoutSkipped(Malformed(codec), Concat(chunks))
    ensures RunTurn(codec, headerModel, chunks') == RunTurn(codec, headerModel, chunks)
  {
    TurnIsFold(codec, headerModel, chunks);
    TurnIsFold(codec, headerModel, chunks');
    SameKept(AllBlank, Malformed(codec), Concat(chunks));
    FramesWithoutMalformed(codec, headerModel, TurnFrames(Concat(chunks)));
    FramesWithoutMalformed(codec, headerModel, TurnFrames(Concat(chunks')));
  }
}
