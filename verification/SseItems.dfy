/** The output items and tool calls of a responses turn: nothing is lost and nothing invented. */
module SseItems {
  import opened Prelude
  import Sequences
  import Framing
  import Streaming
  import opened Json
  import opened ToolCalls
  import opened ProviderTypes
  import opened SseStream
  import opened SseTurn

  /** The item that an event streams, if it does. */
  function StreamedItem(v: Json): Option<Json> {
    if HasType(v, "response.output_item.done") then Get(v, "item") else None
  }

  /** The items of the snapshot that an event carries, if it does. */
  function SnapshotItems(v: Json): seq<Json> {
    if HasSnapshot(v) then Elements(Get(SnapshotOf(v), "output")) else []
  }

  /** The event brings the item, streamed or in a snapshot. */
  predicate Brings(v: Json, item: Json) {
    StreamedItem(v) == Some(item) || item in SnapshotItems(v)
  }

  // ----- what the result holds of an item -----

  /** The string under a key, empty if it is missing. */
  function StringAt(v: Json, key: string): string {
    AsStr(Get(v, key)).GetOr("")
  }

  /** The call that a function-call item stands for. */
  function CallRead(item: Json): ToolCall {
    ToolCall(StringAt(item, "call_id"), StringAt(item, "name"), StringAt(item, "arguments"))
  }

  /** Both have the same id, or both have the same call id and are of the same type. */
  predicate TakenForSame(item: Json, other: Json) {
    || (Get(item, "id").Some? && Get(other, "id") == Get(item, "id"))
    || (&& Get(item, "call_id").Some? && Get(other, "call_id") == Get(item, "call_id")
        && Get(other, "type") == Get(item, "type"))
  }

  /** The item itself is there, or one that is taken for the same. */
  predicate HoldsItem(result: TurnResult, item: Json) {
    item in result.outputItems || exists i :: 0 <= i < |result.outputItems| && TakenForSame(item, result.outputItems[i])
  }

  /** If the item is a call with an id, there is a call with that id. */
  predicate HoldsCall(result: TurnResult, item: Json) {
    var callId := AsStr(Get(item, "call_id"));
    HasType(item, "function_call") && callId.Some? ==>
      exists i :: 0 <= i < |result.toolCalls| && result.toolCalls[i].callId == callId.value
  }

  ghost predicate Holds(result: TurnResult, item: Json) {
    HoldsItem(result, item) && HoldsCall(result, item)
  }

  /** A streamed item is there as it came, and so is its call. */
  ghost predicate HoldsStreamed(result: TurnResult, item: Json) {
    item in result.outputItems && (HasType(item, "function_call") ==> CallRead(item) in result.toolCalls)
  }

  lemma HoldsStays(before: TurnResult, after: TurnResult, item: Json)
    requires Extends(before, after)
    ensures Holds(before, item) ==> Holds(after, item)
    ensures HoldsStreamed(before, item) ==> HoldsStreamed(after, item)
  {
    KeptMembers(before.outputItems, after.outputItems);
    KeptMembers(before.toolCalls, after.toolCalls);
    if i :| 0 <= i < |before.outputItems| && TakenForSame(item, before.outputItems[i]) {
      assert after.outputItems[i] == before.outputItems[i];
    }
    var callId := AsStr(Get(item, "call_id"));
    if callId.Some? && KnownCall(before, callId.value) {
      var j :| 0 <= j < |before.toolCalls| && before.toolCalls[j].callId == callId.value;
      assert after.toolCalls[j] == before.toolCalls[j];
    }
  }

  lemma KeptMembers<T>(before: seq<T>, after: seq<T>)
    requires before <= after
    ensures forall x | x in before :: x in after
  {
  }

  // ----- one item of a snapshot -----

  /** Everything that one result has more than another comes from the given items. */
  ghost predicate GainsFrom(before: TurnResult, items: seq<Json>, after: TurnResult) {
    && (forall x | x in after.outputItems :: x in before.outputItems || x in items)
    && (forall c | c in after.toolCalls ::
          c in before.toolCalls || exists item :: item in items && HasType(item, "function_call") && CallRead(item) == c)
  }

  predicate HasCall(result: TurnResult, callId: string) {
    exists i :: 0 <= i < |result.toolCalls| && result.toolCalls[i].callId == callId
  }

  predicate HasSame(result: TurnResult, item: Json) {
    exists i :: 0 <= i < |result.outputItems| && TakenForSame(item, result.outputItems[i])
  }

  /** One more item of a snapshot appends itself unless one is there that is taken for the same, and appends its
      call if it is one with an id that no call has. */
  ghost predicate AddsItem(before: TurnResult, item: Json, after: TurnResult) {
    var callId := AsStr(Get(item, "call_id"));
    && after.outputItems == before.outputItems + (if HasSame(before, item) then [] else [item])
    && after.toolCalls == before.toolCalls +
       (if HasType(item, "function_call") && callId.Some? && !HasCall(before, callId.value) then [CallRead(item)] else [])
  }

  lemma SameKnown(result: TurnResult, item: Json)
    ensures Known(result, item) <==> HasSame(result, item)
  {
    if i :| 0 <= i < |result.outputItems| && TakenForSame(item, result.outputItems[i]) {
      assert SameItem(item, result.outputItems[i]);
    }
    if i :| 0 <= i < |result.outputItems| && SameItem(item, result.outputItems[i]) {
      assert TakenForSame(item, result.outputItems[i]);
    }
  }

  lemma {:induction false} SnapshotAddsInTurn(result: TurnResult, items: seq<Json>, item: Json)
    ensures AddsItem(WithItems(result, items), item, WithItems(result, items + [item]))
    decreases |items|
  {
    if items == [] {
      assert items + [item] == [item] && [item][1..] == [];
      SameKnown(result, item);
    } else {
      assert (items + [item])[0] == items[0] && (items + [item])[1..] == items[1..] + [item];
      SnapshotAddsInTurn(WithItem(result, items[0]), items[1..], item);
    }
  }

  lemma WithItemHolds(result: TurnResult, item: Json)
    ensures Extends(result, WithItem(result, item)) && Holds(WithItem(result, item), item)
  {
    var after := WithItem(result, item);
    if Known(result, item) {
      var i :| 0 <= i < |result.outputItems| && SameItem(item, result.outputItems[i]);
      assert after.outputItems[i] == result.outputItems[i];
    }
    var callId := AsStr(Get(item, "call_id"));
    if IsFunctionCall(item) && callId.Some? {
      if KnownCall(result, callId.value) {
        var j :| 0 <= j < |result.toolCalls| && result.toolCalls[j].callId == callId.value;
        assert after.toolCalls[j] == result.toolCalls[j];
      } else {
        assert after.toolCalls[|after.toolCalls| - 1].callId == callId.value;
      }
    }
  }

  lemma {:induction false} WithItemsHolds(result: TurnResult, items: seq<Json>)
    ensures Extends(result, WithItems(result, items))
    ensures forall item | item in items :: Holds(WithItems(result, items), item)
    decreases |items|
  {
    if items != [] {
      var next := WithItem(result, items[0]);
      WithItemHolds(result, items[0]);
      WithItemsHolds(next, items[1..]);
      HoldsStays(next, WithItems(next, items[1..]), items[0]);
      assert forall item | item in items :: item == items[0] || item in items[1..];
    }
  }

  lemma {:induction false} WithItemsGains(result: TurnResult, items: seq<Json>)
    ensures GainsFrom(result, items, WithItems(result, items))
    decreases |items|
  {
    if items != [] {
      var next := WithItem(result, items[0]);
      assert items[0] in items && forall item | item in items[1..] :: item in items;
      WithItemGains(result, items[0]);
      WithItemsGains(next, items[1..]);
    }
  }

  lemma WithItemGains(result: TurnResult, item: Json)
    ensures forall x | x in WithItem(result, item).outputItems :: x in result.outputItems || x == item
    ensures forall c | c in WithItem(result, item).toolCalls ::
      c in result.toolCalls || (HasType(item, "function_call") && c == CallRead(item))
  {
  }

  // ----- whole streams -----

  /** The values only add to the result, and it holds every item they bring. */
  ghost predicate Keeps(before: TurnResult, values: seq<Json>, after: TurnResult) {
    && Extends(before, after)
    && (forall v, item | v in values && Brings(v, item) :: Holds(after, item))
    && (forall v | v in values && StreamedItem(v).Some? :: HoldsStreamed(after, StreamedItem(v).value))
  }

  /** Every item was there or was brought by some value, and every call was there or is that of such an item. */
  ghost predicate InventsNothing(before: TurnResult, values: seq<Json>, after: TurnResult) {
    && (forall x | x in after.outputItems :: x in before.outputItems || exists v :: v in values && Brings(v, x))
    && (forall c | c in after.toolCalls :: c in before.toolCalls || IsBroughtCall(values, c))
  }

  ghost predicate IsBroughtCall(values: seq<Json>, c: ToolCall) {
    exists v, item :: v in values && Brings(v, item) && HasType(item, "function_call") && CallRead(item) == c
  }

  lemma ExtendsThrough(a: TurnResult, b: TurnResult, c: TurnResult)
    requires Extends(a, b) && Extends(b, c)
    ensures Extends(a, c)
  {
  }

  lemma KeepsConcat(a: TurnResult, x: seq<Json>, b: TurnResult, y: seq<Json>, c: TurnResult)
    requires Keeps(a, x, b) && Keeps(b, y, c)
    ensures Keeps(a, x + y, c)
  {
    ExtendsThrough(a, b, c);
    forall item
      ensures Holds(b, item) ==> Holds(c, item)
      ensures HoldsStreamed(b, item) ==> HoldsStreamed(c, item)
    {
      HoldsStays(b, c, item);
    }
    assert forall v | v in x + y :: v in x || v in y;
  }

  lemma InventsConcat(a: TurnResult, x: seq<Json>, b: TurnResult, y: seq<Json>, c: TurnResult)
    requires InventsNothing(a, x, b) && InventsNothing(b, y, c)
    ensures InventsNothing(a, x + y, c)
  {
    assert forall v | v in x || v in y :: v in x + y;
    forall call
      ensures IsBroughtCall(x, call) || IsBroughtCall(y, call) ==> IsBroughtCall(x + y, call)
    {
    }
  }

  lemma SnapshotKeeps(codec: Codec, core: Core, value: Json)
    requires HasSnapshot(value)
    ensures Keeps(core.result, [value], AfterValue(codec, core, value).core.result)
    ensures InventsNothing(core.result, [value], AfterValue(codec, core, value).core.result)
  {
    var headed, items := WithHeader(core.result, SnapshotOf(value)), SnapshotItems(value);
    SnapshotEvent(codec, core, value);
    WithItemsHolds(headed, items);
    WithItemsGains(headed, items);
    OnlyMember(value);
    BringsSnapshot(value);
  }

  lemma OnlyMember(value: Json)
    ensures forall v :: v in [value] <==> v == value
  {
  }

  lemma BringsSnapshot(value: Json)
    requires HasSnapshot(value)
    ensures StreamedItem(value) == None && forall item :: Brings(value, item) <==> item in SnapshotItems(value)
  {
  }

  /** A streamed item is appended, and so is its call, whatever is there already. */
  lemma StreamingAppends(codec: Codec, core: Core, value: Json)
    requires StreamedItem(value).Some?
    ensures var item, after := StreamedItem(value).value, AfterValue(codec, core, value).core.result;
      && after.outputItems == core.result.outputItems + [item]
      && after.toolCalls == core.result.toolCalls + if HasType(item, "function_call") then [CallRead(item)] else []
  {
  }

  lemma StreamedKeeps(codec: Codec, core: Core, value: Json)
    requires StreamedItem(value).Some?
    ensures Keeps(core.result, [value], AfterValue(codec, core, value).core.result)
    ensures InventsNothing(core.result, [value], AfterValue(codec, core, value).core.result)
  {
    var item, after := StreamedItem(value).value, AfterValue(codec, core, value).core.result;
    StreamingAppends(codec, core, value);
    OnlyMember(value);
    assert value in [value] && Brings(value, item);
    assert after.outputItems[|core.result.outputItems|] == item;
    if HasType(item, "function_call") {
      assert after.toolCalls[|core.result.toolCalls|] == CallRead(item);
    }
  }

  lemma OtherKeeps(codec: Codec, core: Core, value: Json)
    requires !HasSnapshot(value) && StreamedItem(value).None? && AfterValue(codec, core, value).error.None?
    ensures var after := AfterValue(codec, core, value).core.result;
      after.outputItems == core.result.outputItems && after.toolCalls == core.result.toolCalls
  {
  }

  lemma ValueKeeps(codec: Codec, core: Core, value: Json)
    requires AfterValue(codec, core, value).error.None?
    ensures Keeps(core.result, [value], AfterValue(codec, core, value).core.result)
    ensures InventsNothing(core.result, [value], AfterValue(codec, core, value).core.result)
  {
    if HasSnapshot(value) {
      SnapshotKeeps(codec, core, value);
    } else if StreamedItem(value).Some? {
      StreamedKeeps(codec, core, value);
    } else {
      OtherKeeps(codec, core, value);
      OnlyMember(value);
    }
  }

  lemma FrameKeeps(codec: Codec, core: Core, frame: seq<Byte>)
    requires AfterFrame(codec, core, frame).error.None?
    ensures Keeps(core.result, OneValue(ValueOf(codec, frame)), AfterFrame(codec, core, frame).core.result)
    ensures InventsNothing(core.result, OneValue(ValueOf(codec, frame)), AfterFrame(codec, core, frame).core.result)
  {
    if ValueOf(codec, frame).Some? {
      SpeakingFrame(codec, core, frame);
      ValueKeeps(codec, core, ValueOf(codec, frame).value);
    } else {
      SilentFrame(codec, core, frame);
    }
  }

  lemma {:induction false} FramesKeep(codec: Codec, core: Core, frames: seq<seq<Byte>>)
    requires Streaming.Consumed(SseStep(codec), core, frames).error.None?
    ensures var after := Streaming.Consumed(SseStep(codec), core, frames).core.result;
      && Keeps(core.result, ValuesOf(Reader(codec), frames), after)
      && InventsNothing(core.result, ValuesOf(Reader(codec), frames), after)
    decreases |frames|
  {
    if frames != [] {
      var next := AfterFrame(codec, core, frames[0]).core;
      var first, rest := OneValue(ValueOf(codec, frames[0])), ValuesOf(Reader(codec), frames[1..]);
      var after := Streaming.Consumed(SseStep(codec), next, frames[1..]).core.result;
      FrameKeeps(codec, core, frames[0]);
      FramesKeep(codec, next, frames[1..]);
      KeepsConcat(core.result, first, next.result, rest, after);
      InventsConcat(core.result, first, next.result, rest, after);
    }
  }

  /** The items and calls of a successful turn: every item that was streamed is there with its call, every
      item of a snapshot is there or known by its id, and so is its call; and nothing else is there. */
  lemma TurnHoldsItems(codec: Codec, headerModel: Option<string>, chunks: seq<seq<Byte>>)
    requires RunTurn(codec, headerModel, chunks).Ok?
    ensures var values := ValuesOf(Reader(codec), TurnFrames(Framing.Concat(chunks)));
      var result := RunTurn(codec, headerModel, chunks).value.result;
      && (forall v, item | v in values && Brings(v, item) :: Holds(result, item))
      && (forall v | v in values && StreamedItem(v).Some? :: HoldsStreamed(result, StreamedItem(v).value))
      && (forall x | x in result.outputItems :: exists v :: v in values && Brings(v, x))
      && (forall c | c in result.toolCalls :: IsBroughtCall(values, c))
  {
    TurnIsFold(codec, headerModel, chunks);
    var all := Streaming.Consumed(SseStep(codec), StartCore(headerModel), TurnFrames(Framing.Concat(chunks))).core.result;
    FramesKeep(codec, StartCore(headerModel), TurnFrames(Framing.Concat(chunks)));
    forall item
      ensures Holds(all, item) ==> Holds(RunTurn(codec, headerModel, chunks).value.result, item)
    {
      HoldsStays(all, RunTurn(codec, headerModel, chunks).value.result, item);
    }
  }

  // ----- the text of the items -----

  lemma {:induction false} PartsTextGrows(parts: seq<Json>, part: Json)
    ensures OutputTextOfParts([]) == ""
    ensures OutputTextOfParts(parts + [part]) ==
      OutputTextOfParts(parts) + if HasType(part, "output_text") then StringAt(part, "text") else ""
  {
    if parts == [] {
      assert parts + [part] == [part] && [part][1..] == [];
    } else {
      assert (parts + [part])[0] == parts[0] && (parts + [part])[1..] == parts[1..] + [part];
      PartsTextGrows(parts[1..], part);
      Sequences.Assoc(OutputTextOfPart(parts[0]), OutputTextOfParts(parts[1..]), OutputTextOfPart(part));
    }
  }

  /** The text of the items is that of the messages among them, in order. */
  lemma {:induction false} ItemsTextGrows(items: seq<Json>, item: Json)
    ensures OutputTextOfItems([]) == ""
    ensures OutputTextOfItems(items + [item]) ==
      OutputTextOfItems(items) + if HasType(item, "message") then OutputTextOfParts(Elements(Get(item, "content"))) else ""
  {
    if items == [] {
      assert items + [item] == [item] && [item][1..] == [];
    } else {
      assert (items + [item])[0] == items[0] && (items + [item])[1..] == items[1..] + [item];
      ItemsTextGrows(items[1..], item);
      Sequences.Assoc(OutputTextOfItem(items[0]), OutputTextOfItems(items[1..]), OutputTextOfItem(item));
    }
  }

  // ----- an item that comes again -----

  lemma IdentifiedIsKnown(result: TurnResult, item: Json)
    requires Identified(item) && HoldsItem(result, item)
    ensures Known(result, item)
  {
    if item in result.outputItems {
      var i :| 0 <= i < |result.outputItems| && result.outputItems[i] == item;
      assert SameItem(item, result.outputItems[i]);
    }
  }

  /** However it came, an item with an id or a call id adds nothing when a later snapshot repeats it,
      alone or among others of its kind. */
  lemma RepeatedItemsAddNothing(codec: Codec, core: Core, frames: seq<seq<Byte>>, items: seq<Json>)
    requires Streaming.Consumed(SseStep(codec), core, frames).error.None?
    requires forall item | item in items ::
      Identified(item) && exists v :: v in ValuesOf(Reader(codec), frames) && Brings(v, item)
    ensures WithItems(Streaming.Consumed(SseStep(codec), core, frames).core.result, items) ==
      Streaming.Consumed(SseStep(codec), core, frames).core.result
  {
    var result := Streaming.Consumed(SseStep(codec), core, frames).core.result;
    FramesKeep(codec, core, frames);
    forall item | item in items
      ensures Settled(result, item)
    {
      IdentifiedIsKnown(result, item);
    }
    SettledItemsAddNothing(result, items);
  }
}
