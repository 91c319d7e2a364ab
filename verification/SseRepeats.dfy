/** When a responses turn ends up with an output item or a tool call twice. */
module SseRepeats {
  import opened Prelude
  import Framing
  import Streaming
  import opened Json
  import opened ToolCalls
  import opened ProviderTypes
  import opened SseStream
  import opened SseTurn
  import opened SseItems

  /** No output item is taken for the same as an earlier one. */
  ghost predicate ItemsDiffer(items: seq<Json>) {
    forall i, j | 0 <= i < j < |items| :: !TakenForSame(items[j], items[i])
  }

  /** No two calls have the same id. */
  ghost predicate CallsDiffer(calls: seq<ToolCall>) {
    forall i, j | 0 <= i < j < |calls| :: calls[i].callId != calls[j].callId
  }

  lemma AppendedItem(result: TurnResult, item: Json)
    ensures ItemsDiffer(result.outputItems + [item]) <==> ItemsDiffer(result.outputItems) && !Known(result, item)
  {
    var before, after := result.outputItems, result.outputItems + [item];
    assert forall i | 0 <= i < |before| :: after[i] == before[i];
    if Known(result, item) {
      var i :| 0 <= i < |before| && SameItem(item, before[i]);
      assert TakenForSame(after[|before|], after[i]);
    }
    if !ItemsDiffer(before) {
      var i, j :| 0 <= i < j < |before| && TakenForSame(before[j], before[i]);
      assert TakenForSame(after[j], after[i]);
    }
  }

  lemma AppendedCall(result: TurnResult, call: ToolCall)
    ensures CallsDiffer(result.toolCalls + [call]) <==> CallsDiffer(result.toolCalls) && !KnownCall(result, call.callId)
  {
    var before, after := result.toolCalls, result.toolCalls + [call];
    assert forall i | 0 <= i < |before| :: after[i] == before[i];
    if KnownCall(result, call.callId) {
      var i :| 0 <= i < |before| && before[i].callId == call.callId;
      assert after[i].callId == after[|before|].callId;
    }
    if !CallsDiffer(before) {
      var i, j :| 0 <= i < j < |before| && before[i].callId == before[j].callId;
      assert after[i].callId == after[j].callId;
    }
  }

  // ----- snapshots repeat nothing -----

  lemma WithItemDiffers(result: TurnResult, item: Json)
    ensures ItemsDiffer(WithItem(result, item).outputItems) <==> ItemsDiffer(result.outputItems)
    ensures CallsDiffer(WithItem(result, item).toolCalls) <==> CallsDiffer(result.toolCalls)
  {
    AppendedItem(result, item);
    AppendedCall(result, CallOf(item));
  }

  lemma {:induction false} WithItemsDiffer(result: TurnResult, items: seq<Json>)
    ensures ItemsDiffer(WithItems(result, items).outputItems) <==> ItemsDiffer(result.outputItems)
    ensures CallsDiffer(WithItems(result, items).toolCalls) <==> CallsDiffer(result.toolCalls)
    decreases |items|
  {
    if items != [] {
      WithItemDiffers(result, items[0]);
      WithItemsDiffer(WithItem(result, items[0]), items[1..]);
    }
  }

  // ----- streamed items may -----

  /** The value streams an item that the result already knows. */
  predicate StreamsKnownItem(before: TurnResult, v: Json) {
    StreamedItem(v).Some? && Known(before, StreamedItem(v).value)
  }

  /** The value streams a call whose id the result already knows. */
  predicate StreamsKnownCall(before: TurnResult, v: Json) {
    && StreamedItem(v).Some? && HasType(StreamedItem(v).value, "function_call")
    && KnownCall(before, StringAt(StreamedItem(v).value, "call_id"))
  }

  lemma StreamedDiffers(codec: Codec, core: Core, value: Json)
    requires StreamedItem(value).Some?
    ensures var after := AfterValue(codec, core, value).core.result;
      && (ItemsDiffer(after.outputItems) <==> ItemsDiffer(core.result.outputItems) && !StreamsKnownItem(core.result, value))
      && (CallsDiffer(after.toolCalls) <==> CallsDiffer(core.result.toolCalls) && !StreamsKnownCall(core.result, value))
  {
    StreamingAppends(codec, core, value);
    AppendedItem(core.result, StreamedItem(value).value);
    AppendedCall(core.result, CallOf(StreamedItem(value).value));
    assert core.result.toolCalls + [] == core.result.toolCalls;
  }

  lemma SnapshotDiffers(codec: Codec, core: Core, value: Json)
    requires HasSnapshot(value)
    ensures var after := AfterValue(codec, core, value).core.result;
      && (ItemsDiffer(after.outputItems) <==> ItemsDiffer(core.result.outputItems))
      && (CallsDiffer(after.toolCalls) <==> CallsDiffer(core.result.toolCalls))
  {
    SnapshotEvent(codec, core, value);
    WithItemsDiffer(WithHeader(core.result, SnapshotOf(value)), SnapshotItems(value));
  }

  lemma ValueDiffers(codec: Codec, core: Core, value: Json)
    requires AfterValue(codec, core, value).error.None?
    ensures var after := AfterValue(codec, core, value).core.result;
      && (ItemsDiffer(after.outputItems) <==> ItemsDiffer(core.result.outputItems) && !StreamsKnownItem(core.result, value))
      && (CallsDiffer(after.toolCalls) <==> CallsDiffer(core.result.toolCalls) && !StreamsKnownCall(core.result, value))
  {
    if HasSnapshot(value) {
      BringsSnapshot(value);
      SnapshotDiffers(codec, core, value);
    } else if StreamedItem(value).Some? {
      StreamedDiffers(codec, core, value);
    } else {
      OtherKeeps(codec, core, value);
    }
  }

  // ----- whole streams -----

  /** The k-th frame streams an item that the result of the frames before it already knows. */
  ghost predicate RestreamsItemAt(codec: Codec, core: Core, frames: seq<seq<Byte>>, k: nat) {
    && k < |frames| && ValueOf(codec, frames[k]).Some?
    && StreamsKnownItem(Streaming.Consumed(SseStep(codec), core, frames[..k]).core.result, ValueOf(codec, frames[k]).value)
  }

  /** The k-th frame streams a call whose id the result of the frames before it already knows. */
  ghost predicate RestreamsCallAt(codec: Codec, core: Core, frames: seq<seq<Byte>>, k: nat) {
    && k < |frames| && ValueOf(codec, frames[k]).Some?
    && StreamsKnownCall(Streaming.Consumed(SseStep(codec), core, frames[..k]).core.result, ValueOf(codec, frames[k]).value)
  }

  lemma FirstFrameDiffers(codec: Codec, core: Core, frames: seq<seq<Byte>>)
    requires frames != [] && AfterFrame(codec, core, frames[0]).error.None?
    ensures var after := AfterFrame(codec, core, frames[0]).core.result;
      && (ItemsDiffer(after.outputItems) <==>
            ItemsDiffer(core.result.outputItems) && !RestreamsItemAt(codec, core, frames, 0))
      && (CallsDiffer(after.toolCalls) <==>
            CallsDiffer(core.result.toolCalls) && !RestreamsCallAt(codec, core, frames, 0))
  {
    assert frames[..0] == [];
    if ValueOf(codec, frames[0]).Some? {
      SpeakingFrame(codec, core, frames[0]);
      ValueDiffers(codec, core, ValueOf(codec, frames[0]).value);
    } else {
      SilentFrame(codec, core, frames[0]);
    }
  }

  /** No frame streams an item that is known before it. */
  ghost predicate StreamsNewItems(codec: Codec, core: Core, frames: seq<seq<Byte>>) {
    forall k: nat | k < |frames| :: !RestreamsItemAt(codec, core, frames, k)
  }

  /** No frame streams a call whose id is known before it. */
  ghost predicate StreamsNewCalls(codec: Codec, core: Core, frames: seq<seq<Byte>>) {
    forall k: nat | k < |frames| :: !RestreamsCallAt(codec, core, frames, k)
  }

  lemma LaterFrame(codec: Codec, core: Core, frames: seq<seq<Byte>>, k: nat)
    requires frames != [] && AfterFrame(codec, core, frames[0]).error.None? && 0 < k
    ensures var next := AfterFrame(codec, core, frames[0]).core;
      && (RestreamsItemAt(codec, core, frames, k) <==> RestreamsItemAt(codec, next, frames[1..], k - 1))
      && (RestreamsCallAt(codec, core, frames, k) <==> RestreamsCallAt(codec, next, frames[1..], k - 1))
  {
    if k < |frames| {
      assert frames[..k][0] == frames[0] && frames[..k][1..] == frames[1..][..k - 1];
      assert frames[1..][k - 1] == frames[k];
    }
  }

  lemma NewItemsInTurn(codec: Codec, core: Core, frames: seq<seq<Byte>>)
    requires frames != [] && AfterFrame(codec, core, frames[0]).error.None?
    ensures StreamsNewItems(codec, core, frames) <==>
      !RestreamsItemAt(codec, core, frames, 0) && StreamsNewItems(codec, AfterFrame(codec, core, frames[0]).core, frames[1..])
  {
    var next, rest := AfterFrame(codec, core, frames[0]).core, frames[1..];
    if StreamsNewItems(codec, core, frames) {
      forall k: nat | k < |rest|
        ensures !RestreamsItemAt(codec, next, rest, k)
      {
        LaterFrame(codec, core, frames, k + 1);
      }
    }
    if !RestreamsItemAt(codec, core, frames, 0) && StreamsNewItems(codec, next, rest) {
      forall k: nat | k < |frames|
        ensures !RestreamsItemAt(codec, core, frames, k)
      {
        if k > 0 {
          LaterFrame(codec, core, frames, k);
        }
      }
    }
  }

  lemma NewCallsInTurn(codec: Codec, core: Core, frames: seq<seq<Byte>>)
    requires frames != [] && AfterFrame(codec, core, frames[0]).error.None?
    ensures StreamsNewCalls(codec, core, frames) <==>
      !RestreamsCallAt(codec, core, frames, 0) && StreamsNewCalls(codec, AfterFrame(codec, core, frames[0]).core, frames[1..])
  {
    var next, rest := AfterFrame(codec, core, frames[0]).core, frames[1..];
    if StreamsNewCalls(codec, core, frames) {
      forall k: nat | k < |rest|
        ensures !RestreamsCallAt(codec, next, rest, k)
      {
        LaterFrame(codec, core, frames, k + 1);
      }
    }
    if !RestreamsCallAt(codec, core, frames, 0) && StreamsNewCalls(codec, next, rest) {
      forall k: nat | k < |frames|
        ensures !RestreamsCallAt(codec, core, frames, k)
      {
        if k > 0 {
          LaterFrame(codec, core, frames, k);
        }
      }
    }
  }

  /** Frames without an error leave an item in the result twice exactly when one of them streams an item
      that is known before it. */
  lemma {:induction false} FramesRepeatItemsIff(codec: Codec, core: Core, frames: seq<seq<Byte>>)
    requires Streaming.Consumed(SseStep(codec), core, frames).error.None?
    ensures ItemsDiffer(Streaming.Consumed(SseStep(codec), core, frames).core.result.outputItems) <==>
      ItemsDiffer(core.result.outputItems) && StreamsNewItems(codec, core, frames)
    decreases |frames|
  {
    if frames != [] {
      FirstFrameDiffers(codec, core, frames);
      NewItemsInTurn(codec, core, frames);
      FramesRepeatItemsIff(codec, AfterFrame(codec, core, frames[0]).core, frames[1..]);
    }
  }

  /** They leave a call there twice exactly when one of them streams a call whose id is known before it. */
  lemma {:induction false} FramesRepeatCallsIff(codec: Codec, core: Core, frames: seq<seq<Byte>>)
    requires Streaming.Consumed(SseStep(codec), core, frames).error.None?
    ensures CallsDiffer(Streaming.Consumed(SseStep(codec), core, frames).core.result.toolCalls) <==>
      CallsDiffer(core.result.toolCalls) && StreamsNewCalls(codec, core, frames)
    decreases |frames|
  {
    if frames != [] {
      FirstFrameDiffers(codec, core, frames);
      NewCallsInTurn(codec, core, frames);
      FramesRepeatCallsIff(codec, AfterFrame(codec, core, frames[0]).core, frames[1..]);
    }
  }

  /** A successful turn holds no item twice exactly when no frame streams one that is known before it, and
      no call twice exactly when no frame streams one whose id is. */
  lemma TurnRepeatsNothingIff(codec: Codec, headerModel: Option<string>, chunks: seq<seq<Byte>>)
    requires RunTurn(codec, headerModel, chunks).Ok?
    ensures var result, frames := RunTurn(codec, headerModel, chunks).value.result, TurnFrames(Framing.Concat(chunks));
      && (ItemsDiffer(result.outputItems) <==> StreamsNewItems(codec, StartCore(headerModel), frames))
      && (CallsDiffer(result.toolCalls) <==> StreamsNewCalls(codec, StartCore(headerModel), frames))
  {
    TurnIsFold(codec, headerModel, chunks);
    FramesRepeatItemsIff(codec, StartCore(headerModel), TurnFrames(Framing.Concat(chunks)));
    FramesRepeatCallsIff(codec, StartCore(headerModel), TurnFrames(Framing.Concat(chunks)));
  }

  // ----- an input on which it happens -----

  /** A function call, the progress event whose snapshot brings it, and the event that streams it. */
  function CallItem(call: ToolCall): Json {
    Obj([Field("arguments", Str(call.arguments)), Field("call_id", Str(call.callId)),
         Field("name", Str(call.name)), Field("type", Str("function_call"))])
  }

  function ProgressEvent(item: Json): Json {
    Obj([Field("response", Obj([Field("output", Arr([item]))])), Field("type", Str("response.in_progress"))])
  }

  function StreamingEvent(item: Json): Json {
    Obj([Field("item", item), Field("type", Str("response.output_item.done"))])
  }

  lemma SecondField(first: Field, second: Field)
    requires first.key != second.key
    ensures GetField([first, second], first.key) == Some(first.value)
    ensures GetField([first, second], second.key) == Some(second.value)
  {
    assert [first, second][1..] == [second] && [second][1..] == [];
  }

  lemma CallItemFields(call: ToolCall)
    ensures AsStr(Get(CallItem(call), "call_id")) == Some(call.callId)
    ensures IsFunctionCall(CallItem(call)) && CallOf(CallItem(call)) == call
  {
    var fields := CallItem(call).fields;
    assert DistinctKeys(fields);
    GetFieldIs(fields, "arguments");
    GetFieldIs(fields, "call_id");
    GetFieldIs(fields, "name");
    GetFieldIs(fields, "type");
    assert fields[0] in fields && fields[1] in fields && fields[2] in fields && fields[3] in fields;
  }

  lemma ProgressFields(item: Json)
    ensures Kind(ProgressEvent(item)).Underway? && SnapshotItems(ProgressEvent(item)) == [item]
  {
    var response := Obj([Field("output", Arr([item]))]);
    SecondField(Field("response", response), Field("type", Str("response.in_progress")));
    assert GetField([Field("output", Arr([item]))], "output") == Some(Arr([item]));
  }

  lemma StreamingFields(item: Json)
    ensures StreamedItem(StreamingEvent(item)) == Some(item)
  {
    SecondField(Field("item", item), Field("type", Str("response.output_item.done")));
  }

  /** A snapshot that brings a call, and then the event that streams it, leave the call there twice. */
  lemma SnapshotThenStreamRepeats(codec: Codec, headerModel: Option<string>, call: ToolCall)
    ensures var item := CallItem(call);
      var first := AfterValue(codec, StartCore(headerModel), ProgressEvent(item));
      var second := AfterValue(codec, first.core, StreamingEvent(item));
      && first.error == None && second.error == None
      && second.core.result.outputItems == [item, item]
      && second.core.result.toolCalls == [call, call]
  {
    var item, start := CallItem(call), StartCore(headerModel);
    CallItemFields(call);
    ProgressFields(item);
    StreamingFields(item);
    SnapshotEvent(codec, start, ProgressEvent(item));
    OneItem(WithHeader(start.result, SnapshotOf(ProgressEvent(item))), item);
    var first := AfterValue(codec, start, ProgressEvent(item));
    StreamingAppends(codec, first.core, StreamingEvent(item));
  }

  lemma OneItem(result: TurnResult, item: Json)
    requires result.outputItems == [] && result.toolCalls == [] && IsFunctionCall(item)
    requires AsStr(Get(item, "call_id")).Some?
    ensures WithItems(result, [item]).outputItems == [item] && WithItems(result, [item]).toolCalls == [CallOf(item)]
  {
    var one := WithItem(result, item);
    assert [item][1..] == [] && WithItems(one, []) == one;
    assert [] + [item] == [item];
    assert [] + [CallOf(item)] == [CallOf(item)];
  }
}
