/** The responses stream parser. */
module SseStream {
  import opened Prelude
  import opened Framing
  import opened Streaming
  import Text
  import opened Json
  import opened ToolCalls
  import UsageLedger
  import opened ProviderTypes

  /** What the frames have built so far. */
  datatype Core = Core(completed: bool, malformed: nat, result: TurnResult)

  type SseParsed = Parsed<Core, StreamEvent, ProviderError>

  // ----- the meaning of one frame -----

  /** What an event is about, by its type. */
  datatype EventKind = TextPart | ItemDone | Underway | Done | Failure | Unrelated

  function KindOf(name: string): EventKind {
    if name == "response.output_text.delta" then TextPart
    else if name == "response.output_item.done" then ItemDone
    else if name == "response.created" || name == "response.in_progress" then Underway
    else if name == "response.completed" || name == "response.done" then Done
    else if name == "error" || name == "response.error" || name == "response.failed" then Failure
    else Unrelated
  }

  function Kind(v: Json): EventKind {
    KindOf(AsStr(Get(v, "type")).GetOr(""))
  }

  function IsFunctionCall(item: Json): bool {
    AsStr(Get(item, "type")) == Some("function_call")
  }

  function CallOf(item: Json): ToolCall {
    ToolCall(
      AsStr(Get(item, "call_id")).GetOr(""), AsStr(Get(item, "name")).GetOr(""), AsStr(Get(item, "arguments")).GetOr(""))
  }

  /** Both items have the same id, or the same call id and type. */
  predicate SameItem(item: Json, existing: Json) {
    || (Get(item, "id").Some? && Get(item, "id") == Get(existing, "id"))
    || (&& Get(item, "call_id").Some? && Get(item, "call_id") == Get(existing, "call_id")
        && Get(item, "type") == Get(existing, "type"))
  }

  predicate Known(result: TurnResult, item: Json) {
    exists i :: 0 <= i < |result.outputItems| && SameItem(item, result.outputItems[i])
  }

  predicate KnownCall(result: TurnResult, callId: string) {
    exists i :: 0 <= i < |result.toolCalls| && result.toolCalls[i].callId == callId
  }

  /** An item of a captured response: recorded unless it is known, and its call likewise. */
  function WithItem(result: TurnResult, item: Json): TurnResult {
    var recorded := if Known(result, item) then result else result.(outputItems := result.outputItems + [item]);
    var callId := AsStr(Get(item, "call_id"));
    if IsFunctionCall(item) && callId.Some? && !KnownCall(result, callId.value)
    then recorded.(toolCalls := recorded.toolCalls + [CallOf(item)])
    else recorded
  }

  function WithItems(result: TurnResult, items: seq<Json>): TurnResult
    decreases |items|
  {
    if items == [] then result else WithItems(WithItem(result, items[0]), items[1..])
  }

  function MergedUsage(usage: UsageLedger.TokenUsage, v: Json): UsageLedger.TokenUsage {
    var inputDetails := Get(v, "input_tokens_details");
    UsageLedger.TokenUsage(
      Count(Get(v, "input_tokens"), usage.input),
      Count(Get(v, "output_tokens"), usage.output),
      Count(GetIn(inputDetails, "cached_tokens"), usage.cachedInput),
      Count(Get(v, "cache_write_tokens").Or(GetIn(inputDetails, "cache_write_tokens")), usage.cacheWrite),
      Count(GetIn(Get(v, "output_tokens_details"), "reasoning_tokens"), usage.reasoningOutput))
  }

  function WithHeader(result: TurnResult, response: Json): TurnResult {
    result.(
      responseId := Latest(Get(response, "id"), result.responseId),
      serverModel := Latest(Get(response, "model"), result.serverModel),
      usage :=
        if Get(response, "usage").Some? then MergedUsage(result.usage, Get(response, "usage").value) else result.usage)
  }

  /** Identity, usage and output of the response an event carries, or of the event itself. */
  function Captured(event: Json, result: TurnResult): TurnResult {
    var response := Get(event, "response").GetOr(event);
    WithItems(WithHeader(result, response), Elements(Get(response, "output")))
  }

  function ErrorDetail(codec: Codec, value: Json): string {
    var nested := GetIn(GetIn(Get(value, "response"), "error"), "message");
    var detail := AsStr(GetIn(Get(value, "error"), "message").Or(nested).Or(Get(value, "message")));
    if detail.Some? then codec.redact(detail.value) else "provider returned an unspecified stream error"
  }

  function AfterEvent(codec: Codec, core: Core, data: string): SseParsed {
    if Text.Trim(data) == "[DONE]" then Parsed(core.(completed := true), [], None)
    else
      match codec.parse(data)
      case None =>
        var counted := core.(malformed := Counted(core.malformed));
        Parsed(counted, [], if counted.malformed > MAX_MALFORMED_FRAMES then Some(MalformedFrames) else None)
      case Some(value) => AfterValue(codec, core, value)
  }

  function AfterValue(codec: Codec, core: Core, value: Json): SseParsed {
    AfterKind(codec, core, Kind(value), value)
  }

  function AfterKind(codec: Codec, core: Core, kind: EventKind, value: Json): SseParsed {
    var result := core.result;
    match kind
    case TextPart =>
      var delta := AsStr(Get(value, "delta"));
      if delta.None? then Parsed(core, [], None)
      else
        Parsed(core.(result := result.(outputText := result.outputText + delta.value)), [TextDelta(delta.value)], None)
    case ItemDone =>
      var item := Get(value, "item");
      if item.None? then Parsed(core, [], None)
      else
        var calls := if IsFunctionCall(item.value) then [CallOf(item.value)] else [];
        Parsed(core.(result := result.(outputItems := result.outputItems + [item.value],
                                       toolCalls := result.toolCalls + calls)),
               [OutputItem(item.value)], None)
    case Underway => Parsed(core.(result := Captured(value, result)), [], None)
    case Done => Parsed(core.(result := Captured(value, result), completed := true), [Completed], None)
    case Failure => Parsed(core.(result := Captured(value, result)), [], Some(RemoteError(ErrorDetail(codec, value))))
    case Unrelated => Parsed(core, [], None)
  }

  /** The payload of a frame: its data lines, each without one leading space. */
  function Payload(codec: Codec, frame: seq<Byte>): Option<string> {
    var lines := DataLines(Lines(codec.decode(frame)));
    if lines == [] then None else Some(JoinLines(WithoutSpaces(lines)))
  }

  function AfterFrame(codec: Codec, core: Core, frame: seq<Byte>): SseParsed {
    var data := Payload(codec, frame);
    if data.None? then Parsed(core, [], None) else AfterEvent(codec, core, data.value)
  }

  function SseStep(codec: Codec): FrameStep<Core, StreamEvent, ProviderError> {
    (core, frame) => AfterFrame(codec, core, frame)
  }

  function Outcome(p: SseParsed): Result<seq<StreamEvent>, ProviderError> {
    if p.error.Some? then Err(p.error.value) else Ok(p.events)
  }

  predicate IsAsciiWhitespace(b: Byte) {
    b == 9 || b == 10 || b == 12 || b == 13 || b == 32
  }

  predicate AllBlank(bytes: seq<Byte>) {
    forall i | 0 <= i < |bytes| :: IsAsciiWhitespace(bytes[i])
  }

  // ----- the parser -----

  class SseParser {
    const codec: Codec
    var buffer: seq<Byte>
    var completed: bool
    var malformedFrames: nat

    constructor (codec: Codec)
      ensures this.codec == codec && buffer == []
      ensures forall result :: CoreWith(result) == Core(false, 0, result)
    {
      this.codec := codec;
      buffer, completed, malformedFrames := [], false, 0;
    }

    ghost function CoreWith(result: TurnResult): Core
      reads this
    {
      Core(completed, malformedFrames, result)
    }

    method Push(bytes: seq<Byte>, result: TurnResult)
      returns (result': TurnResult, r: Result<seq<StreamEvent>, ProviderError>)
      modifies this
      ensures var fed := Pushed(SseStep(codec), old(buffer), old(CoreWith(result)), bytes);
        buffer == fed.buffer && CoreWith(result') == fed.parsed.core && r == Outcome(fed.parsed)
    {
      buffer := buffer + bytes;
      ghost var step, fed := SseStep(codec), Drained(SseStep(codec), buffer, CoreWith(result));
      result' := result;
      var events := [];
      while FrameEnd(buffer).Some?
        invariant fed == After(events, Drained(step, buffer, CoreWith(result')))
        decreases |buffer|
      {
        DrainOne(step, buffer, CoreWith(result'));
        FrameEndBounds(buffer);
        var end := FrameEnd(buffer).value;
        var frame := buffer[..end];
        buffer := buffer[end..];
        var more, error;
        result', more, error := Frame(frame, result');
        AfterBoth(events, more, Drained(step, buffer, CoreWith(result')));
        events := events + more;
        if error.Some? {
          r := Err(error.value);
          return;
        }
      }
      DrainNone(step, buffer, CoreWith(result'));
      assert events + [] == events;
      r := Ok(events);
    }

    /** The leftover bytes are read as a last frame unless they are blank. */
    method Finish(result: TurnResult) returns (result': TurnResult, r: Result<seq<StreamEvent>, ProviderError>)
      modifies this
      ensures buffer == old(buffer)
      ensures (CoreWith(result'), r) == Finished(codec, old(buffer), old(CoreWith(result)))
    {
      result' := result;
      var events := [];
      if !AllBlank(buffer) {
        var error;
        result', events, error := Frame(buffer, result);
        if error.Some? {
          r := Err(error.value);
          return;
        }
      }
      r := Ok(events);
    }

    method Frame(frame: seq<Byte>, result: TurnResult)
      returns (result': TurnResult, events: seq<StreamEvent>, error: Option<ProviderError>)
      modifies this`completed, this`malformedFrames
      ensures Parsed(CoreWith(result'), events, error) == SseStep(codec)(old(CoreWith(result)), frame)
    {
      result', events, error := result, [], None;
      var data := Payload(codec, frame);
      if data.Some? {
        result', events, error := Event(data.value, result);
      }
    }

    method Event(data: string, result: TurnResult)
      returns (result': TurnResult, events: seq<StreamEvent>, error: Option<ProviderError>)
      modifies this`completed, this`malformedFrames
      ensures Parsed(CoreWith(result'), events, error) == AfterEvent(codec, old(CoreWith(result)), data)
    {
      result', events, error := result, [], None;
      assert result.toolCalls + [] == result.toolCalls;
      if Text.Trim(data) == "[DONE]" {
        completed := true;
        return;
      }
      var parsed := codec.parse(data);
      if parsed.None? {
        malformedFrames := Counted(malformedFrames);
        if malformedFrames > MAX_MALFORMED_FRAMES {
          error := Some(MalformedFrames);
        }
        return;
      }
      var value := parsed.value;
      match Kind(value)
      case TextPart =>
        var delta := AsStr(Get(value, "delta"));
        if delta.Some? {
          result' := result.(outputText := result.outputText + delta.value);
          events := [TextDelta(delta.value)];
        }
      case ItemDone =>
        var item := Get(value, "item");
        if item.Some? {
          result' := result.(outputItems := result.outputItems + [item.value]);
          if IsFunctionCall(item.value) {
            result' := result'.(toolCalls := result'.toolCalls + [CallOf(item.value)]);
          }
          events := [OutputItem(item.value)];
        }
      case Underway =>
        result' := CaptureResponse(value, result);
      case Done =>
        result' := CaptureResponse(value, result);
        completed := true;
        events := [Completed];
      case Failure =>
        result' := CaptureResponse(value, result);
        error := Some(RemoteError(ErrorDetail(codec, value)));
      case Unrelated =>
    }

    method CaptureResponse(event: Json, result: TurnResult) returns (result': TurnResult)
      ensures result' == Captured(event, result)
    {
      var response := Get(event, "response").GetOr(event);
      result' := WithHeader(result, response);
      ghost var start := result';
      var items := Elements(Get(response, "output"));
      for i := 0 to |items|
        invariant WithItems(start, items) == WithItems(result', items[i..])
      {
        assert items[i..][1..] == items[i + 1..];
        var item := items[i];
        var callId := AsStr(Get(item, "call_id"));
        var isNewCall := IsFunctionCall(item) && callId.Some? && !KnownCall(result', callId.value);
        if !Known(result', item) {
          result' := result'.(outputItems := result'.outputItems + [item]);
        }
        if isNewCall {
          result' := result'.(toolCalls := result'.toolCalls + [CallOf(item)]);
        }
      }
    }
  }

  // ----- whole turns -----

  function Finished(codec: Codec, buffer: seq<Byte>, core: Core): (Core, Result<seq<StreamEvent>, ProviderError>) {
    var last := if AllBlank(buffer) then Parsed(core, [], None) else AfterFrame(codec, core, buffer);
    (last.core, Outcome(last))
  }

  function OutputTextOfPart(part: Json): string {
    if AsStr(Get(part, "type")) == Some("output_text") then AsStr(Get(part, "text")).GetOr("") else ""
  }

  function OutputTextOfParts(parts: seq<Json>): string {
    if parts == [] then "" else OutputTextOfPart(parts[0]) + OutputTextOfParts(parts[1..])
  }

  function OutputTextOfItem(item: Json): string {
    if AsStr(Get(item, "type")) == Some("message") then OutputTextOfParts(Elements(Get(item, "content"))) else ""
  }

  /** The text of the message items, used when no text was streamed. */
  function OutputTextOfItems(items: seq<Json>): string {
    if items == [] then "" else OutputTextOfItem(items[0]) + OutputTextOfItems(items[1..])
  }

  /** `headerModel` is the model named by the response headers, if any. */
  function StartCore(headerModel: Option<string>): Core {
    Core(false, 0, TurnResult("", "", [], [], UsageLedger.NO_USAGE, None, headerModel, None))
  }

  datatype Turn = Turn(result: TurnResult, events: seq<StreamEvent>)

  function RunTurn(codec: Codec, headerModel: Option<string>, chunks: seq<seq<Byte>>): Result<Turn, ProviderError> {
    var fed := FedChunks(SseStep(codec), [], StartCore(headerModel), chunks);
    if fed.parsed.error.Some? then Err(fed.parsed.error.value)
    else
      var (core, last) := Finished(codec, fed.buffer, fed.parsed.core);
      if last.Err? then Err(last.error)
      else if !core.completed then Err(IncompleteStream)
      else
        var text := if core.result.outputText == "" then OutputTextOfItems(core.result.outputItems) else core.result.outputText;
        Ok(Turn(core.result.(outputText := text), fed.parsed.events + last.value))
  }

  /** A turn's outcome, result, events or error, depends on the streamed bytes and not on their chunking. */
  lemma TurnIgnoresChunking(codec: Codec, headerModel: Option<string>, chunks: seq<seq<Byte>>, chunks': seq<seq<Byte>>)
    requires Concat(chunks) == Concat(chunks')
    ensures RunTurn(codec, headerModel, chunks) == RunTurn(codec, headerModel, chunks')
  {
    ChunkingIsIrrelevant(SseStep(codec), StartCore(headerModel), chunks, chunks');
  }

  // ----- what the caller sees is what the result holds -----

  lemma {:induction false} ItemsKeepTexts(result: TurnResult, items: seq<Json>)
    ensures WithItems(result, items).outputText == result.outputText
    ensures WithItems(result, items).reasoningText == result.reasoningText
    decreases |items|
  {
    if items != [] {
      ItemsKeepTexts(WithItem(result, items[0]), items[1..]);
    }
  }

  lemma CaptureKeepsTexts(event: Json, result: TurnResult)
    ensures Captured(event, result).outputText == result.outputText
    ensures Captured(event, result).reasoningText == result.reasoningText
  {
    var response := Get(event, "response").GetOr(event);
    ItemsKeepTexts(WithHeader(result, response), Elements(Get(response, "output")));
  }

  lemma EventAccounts(codec: Codec, core: Core, kind: EventKind, value: Json)
    ensures Accounts(core.result, AfterKind(codec, core, kind, value).events, AfterKind(codec, core, kind, value).core.result)
  {
    if kind.TextPart? {
      OneText(AsStr(Get(value, "delta")).GetOr(""));
    } else {
      CaptureKeepsTexts(value, core.result);
      NoText(AfterKind(codec, core, kind, value).events);
    }
  }

  lemma OneText(text: string)
    ensures TextOf([TextDelta(text)]) == text && ReasoningOf([TextDelta(text)]) == ""
  {
  }

  lemma NoText(events: seq<StreamEvent>)
    requires |events| <= 1 && (events != [] ==> !events[0].TextDelta? && !events[0].ReasoningDelta?)
    ensures TextOf(events) == ReasoningOf(events) == ""
  {
  }

  lemma FrameAccounts(codec: Codec, core: Core, frame: seq<Byte>)
    ensures Accounts(core.result, AfterFrame(codec, core, frame).events, AfterFrame(codec, core, frame).core.result)
  {
    var data := Payload(codec, frame);
    if data.Some? && codec.parse(data.value).Some? {
      EventAccounts(codec, core, Kind(codec.parse(data.value).value), codec.parse(data.value).value);
    }
  }

  lemma {:induction false} FramesAccount(codec: Codec, core: Core, frames: seq<seq<Byte>>)
    ensures Accounts(
      core.result, Consumed(SseStep(codec), core, frames).events, Consumed(SseStep(codec), core, frames).core.result)
    decreases |frames|
  {
    if frames != [] {
      var first := AfterFrame(codec, core, frames[0]);
      FrameAccounts(codec, core, frames[0]);
      if first.error.None? {
        FramesAccount(codec, first.core, frames[1..]);
        var more := Consumed(SseStep(codec), first.core, frames[1..]);
        AccountsConcat(core.result, first.events, first.core.result, more.events, more.core.result);
      }
    }
  }

  /** In a successful turn that streamed any text, the text deltas concatenate to the output text;
      in one that did not, the output text is that of the message items. */
  lemma DeltasMakeUpTheText(codec: Codec, headerModel: Option<string>, chunks: seq<seq<Byte>>)
    requires RunTurn(codec, headerModel, chunks).Ok?
    ensures var turn := RunTurn(codec, headerModel, chunks).value;
      turn.result.outputText ==
      if TextOf(turn.events) != "" then TextOf(turn.events) else OutputTextOfItems(turn.result.outputItems)
  {
    var start := StartCore(headerModel);
    var fed := FedChunks(SseStep(codec), [], start, chunks);
    FedAsOne(SseStep(codec), [], start, chunks);
    FramesAccount(codec, start, Cut([] + Concat(chunks)).frames);
    FrameAccounts(codec, fed.parsed.core, fed.buffer);
    var (core, last) := Finished(codec, fed.buffer, fed.parsed.core);
    AccountsConcat(start.result, fed.parsed.events, fed.parsed.core.result, last.value, core.result);
  }

  // ----- malformed frames -----

  predicate IsMalformed(codec: Codec, frame: seq<Byte>) {
    var data := Payload(codec, frame);
    data.Some? && Text.Trim(data.value) != "[DONE]" && codec.parse(data.value).None?
  }

  function Malformed(codec: Codec): seq<Byte> -> bool {
    frame => IsMalformed(codec, frame)
  }

  /** The same state but for the count of malformed frames. */
  predicate SameButCount(a: Core, b: Core) {
    a == b.(malformed := a.malformed)
  }

  function MalformedLeft(core: Core): int {
    MAX_MALFORMED_FRAMES - core.malformed
  }

  lemma MalformedIsFree(codec: Codec, c: Core, frame: seq<Byte>)
    requires IsMalformed(codec, frame)
    ensures SkippedFree(SseStep(codec), SameButCount, MalformedLeft, c, frame)
  {
  }

  lemma EventIsAlike(codec: Codec, c: Core, d: Core, kind: EventKind, value: Json)
    requires SameButCount(c, d)
    ensures var a, b := AfterKind(codec, c, kind, value), AfterKind(codec, d, kind, value);
      a.events == b.events && a.error == b.error && SameButCount(a.core, b.core) && a.core.malformed == c.malformed
  {
  }

  lemma HealthyIsAlike(codec: Codec, c: Core, d: Core, frame: seq<Byte>)
    requires !IsMalformed(codec, frame)
    ensures KeptAlike(SseStep(codec), SameButCount, MalformedLeft, c, d, frame)
  {
    var data := Payload(codec, frame);
    if SameButCount(c, d) && data.Some? && codec.parse(data.value).Some? {
      var value := codec.parse(data.value).value;
      EventIsAlike(codec, c, d, Kind(value), value);
    }
  }

  lemma MalformedFramesSkip(codec: Codec)
    ensures Skips(SseStep(codec), Malformed(codec), SameButCount, MalformedLeft)
  {
    forall c, f | Malformed(codec)(f)
      ensures SkippedFree(SseStep(codec), SameButCount, MalformedLeft, c, f)
    {
      MalformedIsFree(codec, c, f);
    }
    forall c, d, f | !Malformed(codec)(f)
      ensures KeptAlike(SseStep(codec), SameButCount, MalformedLeft, c, d, f)
    {
      HealthyIsAlike(codec, c, d, f);
    }
  }

  /** Within the budget of eight, malformed frames have no effect: leaving them out gives the same events,
      the same error if any, and the same state. */
  lemma FramesWithoutMalformed(codec: Codec, headerModel: Option<string>, frames: seq<seq<Byte>>)
    requires |frames| - |Kept(Malformed(codec), frames)| <= MAX_MALFORMED_FRAMES
    ensures var all := Consumed(SseStep(codec), StartCore(headerModel), frames);
      var kept := Consumed(SseStep(codec), StartCore(headerModel), Kept(Malformed(codec), frames));
      all.events == kept.events && all.error == kept.error && SameButCount(all.core, kept.core)
  {
    var start := StartCore(headerModel);
    MalformedFramesSkip(codec);
    SkippedFrames(SseStep(codec), Malformed(codec), SameButCount, MalformedLeft, start, start, frames);
  }

  // ----- capturing a response again -----

  /** The item can be recognised when it comes again. */
  predicate Identified(item: Json) {
    Get(item, "id").Some? || Get(item, "call_id").Some?
  }

  ghost predicate Extends(before: TurnResult, after: TurnResult) {
    before.outputItems <= after.outputItems && before.toolCalls <= after.toolCalls
  }

  lemma {:induction false} WithItemsExtends(result: TurnResult, items: seq<Json>)
    ensures Extends(result, WithItems(result, items))
    decreases |items|
  {
    if items != [] {
      WithItemsExtends(WithItem(result, items[0]), items[1..]);
    }
  }

  /** The item would add neither an output item nor a call. */
  ghost predicate Settled(result: TurnResult, item: Json) {
    && Known(result, item)
    && (IsFunctionCall(item) && AsStr(Get(item, "call_id")).Some? ==>
          KnownCall(result, AsStr(Get(item, "call_id")).value))
  }

  lemma SettledStays(before: TurnResult, after: TurnResult, item: Json)
    requires Extends(before, after) && Settled(before, item)
    ensures Settled(after, item)
  {
    var i :| 0 <= i < |before.outputItems| && SameItem(item, before.outputItems[i]);
    assert after.outputItems[i] == before.outputItems[i];
    var callId := AsStr(Get(item, "call_id"));
    if IsFunctionCall(item) && callId.Some? {
      var j :| 0 <= j < |before.toolCalls| && before.toolCalls[j].callId == callId.value;
      assert after.toolCalls[j] == before.toolCalls[j];
    }
  }

  lemma WithItemSettles(result: TurnResult, item: Json)
    requires Identified(item)
    ensures Settled(WithItem(result, item), item)
  {
    var after := WithItem(result, item);
    if Known(result, item) {
      var i :| 0 <= i < |result.outputItems| && SameItem(item, result.outputItems[i]);
      assert SameItem(item, after.outputItems[i]);
    } else {
      assert SameItem(item, after.outputItems[|after.outputItems| - 1]);
    }
    var callId := AsStr(Get(item, "call_id"));
    if IsFunctionCall(item) && callId.Some? {
      if KnownCall(result, callId.value) {
        var j :| 0 <= j < |result.toolCalls| && result.toolCalls[j].callId == callId.value;
        assert after.toolCalls[j].callId == callId.value;
      } else {
        assert after.toolCalls[|after.toolCalls| - 1].callId == callId.value;
      }
    }
  }

  lemma {:induction false} WithItemsSettles(result: TurnResult, items: seq<Json>)
    requires forall item | item in items :: Identified(item)
    ensures forall item | item in items :: Settled(WithItems(result, items), item)
    decreases |items|
  {
    if items != [] {
      var next := WithItem(result, items[0]);
      assert items[0] in items;
      WithItemSettles(result, items[0]);
      WithItemsExtends(next, items[1..]);
      SettledStays(next, WithItems(next, items[1..]), items[0]);
      WithItemsSettles(next, items[1..]);
    }
  }

  lemma {:induction false} SettledItemsAddNothing(result: TurnResult, items: seq<Json>)
    requires forall item | item in items :: Settled(result, item)
    ensures WithItems(result, items) == result
    decreases |items|
  {
    if items != [] {
      assert items[0] in items;
      SettledItemsAddNothing(result, items[1..]);
    }
  }

  lemma {:induction false} UnidentifiedIsAdded(result: TurnResult, items: seq<Json>, item: Json)
    requires item in items && !Identified(item)
    ensures |WithItems(result, items).outputItems| > |result.outputItems|
    decreases |items|
  {
    var next := WithItem(result, items[0]);
    WithItemsExtends(next, items[1..]);
    if items[0] != item {
      UnidentifiedIsAdded(next, items[1..], item);
    }
  }

  /** Capturing the same output a second time changes nothing, exactly when every item carries an id or a call id. */
  lemma RecaptureAddsNothingIff(result: TurnResult, items: seq<Json>)
    ensures WithItems(WithItems(result, items), items) == WithItems(result, items) <==>
      forall item | item in items :: Identified(item)
  {
    var once := WithItems(result, items);
    if forall item | item in items :: Identified(item) {
      WithItemsSettles(result, items);
      SettledItemsAddNothing(once, items);
    } else {
      var item :| item in items && !Identified(item);
      UnidentifiedIsAdded(once, items, item);
    }
  }
}
