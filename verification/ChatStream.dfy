/** The chat-completions stream parser. */
module ChatStream {
  import opened Prelude
  import Sequences
  import Ordering
  import opened Framing
  import opened Streaming
  import opened Json
  import opened ToolCalls
  import UsageLedger
  import opened ProviderTypes

  /** What the frames have built so far. */
  datatype Core = Core(completed: bool, calls: Calls, malformed: nat, result: TurnResult)

  type ChatParsed = Parsed<Core, StreamEvent, ProviderError>

  // ----- the meaning of one frame -----

  function FragmentOf(call: Json): Fragment {
    Fragment(
      AsU64(Get(call, "index")), AsStr(Get(call, "id")),
      AsStr(GetIn(Get(call, "function"), "name")), AsStr(GetIn(Get(call, "function"), "arguments")))
  }

  function FragmentsOf(calls: seq<Json>): seq<Fragment> {
    seq(|calls|, i requires 0 <= i < |calls| => FragmentOf(calls[i]))
  }

  function Delta(choice: Json): Json {
    Get(choice, "delta").GetOr(Null)
  }

  /** A nonempty string member. */
  function TextAt(v: Json, key: string): string {
    AsStr(Get(v, key)).GetOr("")
  }

  function ChoiceEvents(choice: Json): seq<StreamEvent> {
    DeltaEvents(TextAt(Delta(choice), "reasoning_content"), TextAt(Delta(choice), "content"))
  }

  function DeltaEvents(reasoning: string, text: string): seq<StreamEvent> {
    (if reasoning == "" then [] else [ReasoningDelta(reasoning)]) + (if text == "" then [] else [TextDelta(text)])
  }

  function AfterChoice(core: Core, choice: Json): Core {
    var result := core.result.(
      finishReason := Latest(Get(choice, "finish_reason"), core.result.finishReason),
      reasoningText := core.result.reasoningText + TextAt(Delta(choice), "reasoning_content"),
      outputText := core.result.outputText + TextAt(Delta(choice), "content"));
    core.(result := result, calls := AppliedAll(core.calls, FragmentsOf(Elements(Get(Delta(choice), "tool_calls")))))
  }

  function AfterChoices(core: Core, choices: seq<Json>): (Core, seq<StreamEvent>)
    decreases |choices|
  {
    if choices == [] then (core, [])
    else
      var (core', events) := AfterChoices(AfterChoice(core, choices[0]), choices[1..]);
      (core', ChoiceEvents(choices[0]) + events)
  }

  lemma OneChoice(core: Core, choices: seq<Json>, i: nat)
    requires i < |choices|
    ensures var (core', events) := AfterChoices(AfterChoice(core, choices[i]), choices[i + 1..]);
      AfterChoices(core, choices[i..]) == (core', ChoiceEvents(choices[i]) + events)
  {
    assert choices[i..][0] == choices[i] && choices[i..][1..] == choices[i + 1..];
  }

  function MergedUsage(usage: UsageLedger.TokenUsage, v: Json): UsageLedger.TokenUsage {
    usage.(
      input := Count(Get(v, "prompt_tokens"), usage.input),
      output := Count(Get(v, "completion_tokens"), usage.output),
      cachedInput := Count(Get(v, "prompt_cache_hit_tokens"), usage.cachedInput),
      reasoningOutput := Count(Get(v, "reasoning_tokens"), usage.reasoningOutput))
  }

  function WithHeader(result: TurnResult, value: Json): TurnResult {
    result.(
      responseId := Latest(Get(value, "id"), result.responseId),
      serverModel := Latest(Get(value, "model"), result.serverModel),
      usage := if Get(value, "usage").Some? then MergedUsage(result.usage, Get(value, "usage").value) else result.usage)
  }

  function CallsInOrder(calls: Calls, keys: seq<nat>): seq<ToolCall> {
    if keys == [] then [] else [CallAt(calls, keys[0])] + CallsInOrder(calls, keys[1..])
  }

  /** The assembled calls by ascending index. */
  function CallList(calls: Calls): seq<ToolCall> {
    CallsInOrder(calls, Ordering.SortedNats(calls.Keys))
  }

  function FirstInvalid(codec: Codec, calls: Calls, keys: seq<nat>): Option<nat> {
    if keys == [] then None
    else if codec.parse(CallAt(calls, keys[0]).arguments).None? then Some(keys[0])
    else FirstInvalid(codec, calls, keys[1..])
  }

  /** The payload of a frame: its trimmed data lines. */
  function Payload(codec: Codec, frame: seq<Byte>): string {
    JoinLines(Trimmed(DataLines(Lines(codec.decode(frame)))))
  }

  function AfterFrame(codec: Codec, core: Core, frame: seq<Byte>): ChatParsed {
    var data := Payload(codec, frame);
    if data == "" then Parsed(core, [], None)
    else if data == "[DONE]" then
      var done := core.(completed := true);
      var invalid := FirstInvalid(codec, core.calls, Ordering.SortedNats(core.calls.Keys));
      if invalid.Some? then Parsed(done, [], Some(InvalidArguments(invalid.value)))
      else Parsed(done.(result := core.result.(toolCalls := CallList(core.calls))), [Completed], None)
    else
      match codec.parse(data)
      case None =>
        var counted := core.(malformed := Counted(core.malformed));
        Parsed(counted, [], if counted.malformed > MAX_MALFORMED_FRAMES then Some(MalformedFrames) else None)
      case Some(value) =>
        var (core', events) := AfterChoices(
          core.(result := WithHeader(core.result, value)), Elements(Get(value, "choices")));
        Parsed(core', events, None)
  }

  function ChatStep(codec: Codec): FrameStep<Core, StreamEvent, ProviderError> {
    (core, frame) => AfterFrame(codec, core, frame)
  }

  function Outcome(p: ChatParsed): Result<seq<StreamEvent>, ProviderError> {
    if p.error.Some? then Err(p.error.value) else Ok(p.events)
  }

  // ----- the parser -----

  class ChatStreamParser {
    const codec: Codec
    var buffer: seq<Byte>
    var completed: bool
    var calls: Calls
    var malformedFrames: nat

    constructor (codec: Codec)
      ensures this.codec == codec && buffer == []
      ensures forall result :: CoreWith(result) == Core(false, map[], 0, result)
    {
      this.codec := codec;
      buffer, completed, calls, malformedFrames := [], false, map[], 0;
    }

    ghost function CoreWith(result: TurnResult): Core
      reads this
    {
      Core(completed, calls, malformedFrames, result)
    }

    method Push(chunk: seq<Byte>, result: TurnResult)
      returns (result': TurnResult, r: Result<seq<StreamEvent>, ProviderError>)
      modifies this
      ensures var fed := Pushed(ChatStep(codec), old(buffer), old(CoreWith(result)), chunk);
        buffer == fed.buffer && CoreWith(result') == fed.parsed.core && r == Outcome(fed.parsed)
    {
      buffer := buffer + chunk;
      ghost var step, fed := ChatStep(codec), Drained(ChatStep(codec), buffer, CoreWith(result));
      result' := result;
      var events := [];
      while FrameEnd(buffer).Some?
        invariant fed == After(events, Drained(step, buffer, CoreWith(result')))
        decreases |buffer|
      {
        DrainOne(step, buffer, CoreWith(result'));
        FrameEndBounds(buffer);
        var end := FrameEnd(buffer).value;
        var frame := buffer[..end];
        buffer := buffer[end..];
        var more, error;
        result', more, error := ParseFrame(frame, result');
        AfterBoth(events, more, Drained(step, buffer, CoreWith(result')));
        events := events + more;
        if error.Some? {
          r := Err(error.value);
          return;
        }
      }
      DrainNone(step, buffer, CoreWith(result'));
      assert events + [] == events;
      r := Ok(events);
    }

    /** The leftover bytes are parsed as a last frame, and the assembled calls are reported. */
    method Finish(result: TurnResult) returns (result': TurnResult, r: Result<seq<StreamEvent>, ProviderError>)
      modifies this
      ensures buffer == [] && (CoreWith(result'), r) == Finished(codec, old(buffer), old(CoreWith(result)))
    {
      result' := result;
      var events := [];
      if buffer != [] {
        var frame := buffer;
        buffer := [];
        var error;
        result', events, error := ParseFrame(frame, result);
        if error.Some? {
          r := Err(error.value);
          return;
        }
      }
      result' := result'.(toolCalls := CallList(calls));
      r := Ok(events);
    }

    method ParseFrame(frame: seq<Byte>, result: TurnResult)
      returns (result': TurnResult, events: seq<StreamEvent>, error: Option<ProviderError>)
      modifies this`completed, this`calls, this`malformedFrames
      ensures Parsed(CoreWith(result'), events, error) == AfterFrame(codec, old(CoreWith(result)), frame)
    {
      result', events, error := result, [], None;
      var data := Payload(codec, frame);
      if data == "" {
        return;
      }
      if data == "[DONE]" {
        completed := true;
        var invalid := FirstInvalid(codec, calls, Ordering.SortedNats(calls.Keys));
        if invalid.Some? {
          error := Some(InvalidArguments(invalid.value));
          return;
        }
        result' := result'.(toolCalls := CallList(calls));
        events := [Completed];
        return;
      }
      var value := codec.parse(data);
      if value.None? {
        malformedFrames := Counted(malformedFrames);
        if malformedFrames > MAX_MALFORMED_FRAMES {
          error := Some(MalformedFrames);
        }
        return;
      }
      result', events := ApplyChoices(Elements(Get(value.value, "choices")), WithHeader(result, value.value));
    }

    method ApplyChoices(choices: seq<Json>, result: TurnResult) returns (result': TurnResult, events: seq<StreamEvent>)
      modifies this`calls
      ensures (CoreWith(result'), events) == AfterChoices(old(CoreWith(result)), choices)
    {
      result', events := result, [];
      ghost var start := CoreWith(result);
      for i := 0 to |choices|
        invariant completed == start.completed && malformedFrames == start.malformed
        invariant AfterChoices(start, choices).0 == AfterChoices(CoreWith(result'), choices[i..]).0
        invariant AfterChoices(start, choices).1 == events + AfterChoices(CoreWith(result'), choices[i..]).1
      {
        OneChoice(CoreWith(result'), choices, i);
        Sequences.Assoc(events, ChoiceEvents(choices[i]),
              AfterChoices(AfterChoice(CoreWith(result'), choices[i]), choices[i + 1..]).1);
        events := events + ChoiceEvents(choices[i]);
        result' := ApplyChoice(choices[i], result');
      }
      assert events + [] == events;
    }

    method ApplyChoice(choice: Json, result: TurnResult) returns (result': TurnResult)
      modifies this`calls
      ensures CoreWith(result') == AfterChoice(old(CoreWith(result)), choice)
    {
      var delta := Delta(choice);
      result' := result.(
        finishReason := Latest(Get(choice, "finish_reason"), result.finishReason),
        reasoningText := result.reasoningText + TextAt(delta, "reasoning_content"),
        outputText := result.outputText + TextAt(delta, "content"));
      var fragments := FragmentsOf(Elements(Get(delta, "tool_calls")));
      for i := 0 to |fragments|
        invariant AppliedAll(old(calls), fragments) == AppliedAll(calls, fragments[i..])
      {
        assert fragments[i..][1..] == fragments[i + 1..];
        calls := Applied(calls, fragments[i]);
      }
    }
  }

  // ----- whole turns -----

  function Finished(codec: Codec, buffer: seq<Byte>, core: Core): (Core, Result<seq<StreamEvent>, ProviderError>) {
    var last := if buffer == [] then Parsed(core, [], None) else AfterFrame(codec, core, buffer);
    if last.error.Some? then (last.core, Err(last.error.value))
    else (last.core.(result := last.core.result.(toolCalls := CallList(last.core.calls))), Ok(last.events))
  }

  const EMPTY_RESULT := TurnResult("", "", [], [], UsageLedger.NO_USAGE, None, None, None)
  const START := Core(false, map[], 0, EMPTY_RESULT)

  /** A successful turn: the result, and all events in the order in which they were emitted. */
  datatype Turn = Turn(result: TurnResult, events: seq<StreamEvent>)

  /** Push every chunk, finish, and require that the stream completed. */
  function RunTurn(codec: Codec, chunks: seq<seq<Byte>>): Result<Turn, ProviderError> {
    var fed := FedChunks(ChatStep(codec), [], START, chunks);
    if fed.parsed.error.Some? then Err(fed.parsed.error.value)
    else
      var (core, last) := Finished(codec, fed.buffer, fed.parsed.core);
      if last.Err? then Err(last.error)
      else if !core.completed then Err(IncompleteStream)
      else Ok(Turn(core.result, fed.parsed.events + last.value))
  }

  /** A turn's outcome, result, events or error, depends on the streamed bytes and not on their chunking. */
  lemma TurnIgnoresChunking(codec: Codec, chunks: seq<seq<Byte>>, chunks': seq<seq<Byte>>)
    requires Concat(chunks) == Concat(chunks')
    ensures RunTurn(codec, chunks) == RunTurn(codec, chunks')
  {
    ChunkingIsIrrelevant(ChatStep(codec), START, chunks, chunks');
  }

  // ----- what the caller sees is what the result holds -----

  lemma OneDelta(reasoning: string, text: string)
    ensures TextOf([TextDelta(text)]) == text && ReasoningOf([TextDelta(text)]) == ""
    ensures TextOf([ReasoningDelta(reasoning)]) == "" && ReasoningOf([ReasoningDelta(reasoning)]) == reasoning
  {
  }

  lemma EventsCarryTexts(reasoning: string, text: string)
    ensures TextOf(DeltaEvents(reasoning, text)) == text
    ensures ReasoningOf(DeltaEvents(reasoning, text)) == reasoning
  {
    OneDelta(reasoning, text);
    TextOfConcat(if reasoning == "" then [] else [ReasoningDelta(reasoning)], if text == "" then [] else [TextDelta(text)]);
    ReasoningOfConcat(if reasoning == "" then [] else [ReasoningDelta(reasoning)], if text == "" then [] else [TextDelta(text)]);
  }

  lemma ChoiceAccounts(core: Core, choice: Json)
    ensures Accounts(core.result, ChoiceEvents(choice), AfterChoice(core, choice).result)
  {
    EventsCarryTexts(TextAt(Delta(choice), "reasoning_content"), TextAt(Delta(choice), "content"));
  }

  lemma {:induction false} ChoicesAccount(core: Core, choices: seq<Json>)
    ensures Accounts(core.result, AfterChoices(core, choices).1, AfterChoices(core, choices).0.result)
    decreases |choices|
  {
    if choices != [] {
      var middle := AfterChoice(core, choices[0]);
      ChoiceAccounts(core, choices[0]);
      ChoicesAccount(middle, choices[1..]);
      var (after, events) := AfterChoices(middle, choices[1..]);
      AccountsConcat(core.result, ChoiceEvents(choices[0]), middle.result, events, after.result);
    }
  }

  lemma FrameAccounts(codec: Codec, core: Core, frame: seq<Byte>)
    ensures Accounts(core.result, AfterFrame(codec, core, frame).events, AfterFrame(codec, core, frame).core.result)
  {
    var data := Payload(codec, frame);
    if data != "" && data != "[DONE]" && codec.parse(data).Some? {
      var value := codec.parse(data).value;
      var headed := core.(result := WithHeader(core.result, value));
      ChoicesAccount(headed, Elements(Get(value, "choices")));
    }
  }

  lemma {:induction false} FramesAccount(codec: Codec, core: Core, frames: seq<seq<Byte>>)
    ensures Accounts(
      core.result, Consumed(ChatStep(codec), core, frames).events, Consumed(ChatStep(codec), core, frames).core.result)
    decreases |frames|
  {
    if frames != [] {
      var first := AfterFrame(codec, core, frames[0]);
      FrameAccounts(codec, core, frames[0]);
      if first.error.None? {
        FramesAccount(codec, first.core, frames[1..]);
        var more := Consumed(ChatStep(codec), first.core, frames[1..]);
        AccountsConcat(core.result, first.events, first.core.result, more.events, more.core.result);
      }
    }
  }

  /** In a successful turn, the text deltas concatenate to the output text and the reasoning deltas
      to the reasoning text. */
  lemma DeltasMakeUpTheTexts(codec: Codec, chunks: seq<seq<Byte>>)
    requires RunTurn(codec, chunks).Ok?
    ensures var turn := RunTurn(codec, chunks).value;
      turn.result.outputText == TextOf(turn.events) && turn.result.reasoningText == ReasoningOf(turn.events)
  {
    var fed := FedChunks(ChatStep(codec), [], START, chunks);
    FedAsOne(ChatStep(codec), [], START, chunks);
    FramesAccount(codec, START, Cut([] + Concat(chunks)).frames);
    FrameAccounts(codec, fed.parsed.core, fed.buffer);
    var (core, last) := Finished(codec, fed.buffer, fed.parsed.core);
    AccountsConcat(START.result, fed.parsed.events, fed.parsed.core.result, last.value, core.result);
  }

  // ----- malformed frames -----

  predicate IsMalformed(codec: Codec, frame: seq<Byte>) {
    var data := Payload(codec, frame);
    data != "" && data != "[DONE]" && codec.parse(data).None?
  }

  function Malformed(codec: Codec): seq<Byte> -> bool {
    frame => IsMalformed(codec, frame)
  }

  /** The same state but for the count of malformed frames. */
  predicate SameButCount(a: Core, b: Core) {
    a == b.(malformed := a.malformed)
  }

  function MalformedLeft(core: Core): int {
    MAX_MALFORMED_FRAMES - core.malformed
  }

  lemma {:induction false} ChoicesIgnoreCount(core: Core, m: nat, choices: seq<Json>)
    ensures AfterChoices(core.(malformed := m), choices).1 == AfterChoices(core, choices).1
    ensures AfterChoices(core.(malformed := m), choices).0 == AfterChoices(core, choices).0.(malformed := m)
    decreases |choices|
  {
    if choices != [] {
      ChoicesIgnoreCount(AfterChoice(core, choices[0]), m, choices[1..]);
    }
  }

  lemma MalformedIsFree(codec: Codec, c: Core, frame: seq<Byte>)
    requires IsMalformed(codec, frame)
    ensures SkippedFree(ChatStep(codec), SameButCount, MalformedLeft, c, frame)
  {
  }

  lemma HealthyIsAlike(codec: Codec, c: Core, d: Core, frame: seq<Byte>)
    requires !IsMalformed(codec, frame)
    ensures KeptAlike(ChatStep(codec), SameButCount, MalformedLeft, c, d, frame)
  {
    var data := Payload(codec, frame);
    if SameButCount(c, d) && data != "" && data != "[DONE]" {
      var value := codec.parse(data).value;
      var headed := d.(result := WithHeader(d.result, value));
      ChoicesIgnoreCount(headed, c.malformed, Elements(Get(value, "choices")));
      ChoicesKeepCount(c.(result := headed.result), Elements(Get(value, "choices")));
    }
  }

  lemma {:induction false} ChoicesKeepCount(core: Core, choices: seq<Json>)
    ensures AfterChoices(core, choices).0.malformed == core.malformed
    decreases |choices|
  {
    if choices != [] {
      ChoicesKeepCount(AfterChoice(core, choices[0]), choices[1..]);
    }
  }

  lemma MalformedFramesSkip(codec: Codec)
    ensures Skips(ChatStep(codec), Malformed(codec), SameButCount, MalformedLeft)
  {
    forall c, f | Malformed(codec)(f)
      ensures SkippedFree(ChatStep(codec), SameButCount, MalformedLeft, c, f)
    {
      MalformedIsFree(codec, c, f);
    }
    forall c, d, f | !Malformed(codec)(f)
      ensures KeptAlike(ChatStep(codec), SameButCount, MalformedLeft, c, d, f)
    {
      HealthyIsAlike(codec, c, d, f);
    }
  }

  /** Within the budget of eight, malformed frames have no effect: leaving them out gives the same events,
      the same error if any, and the same state. */
  lemma FramesWithoutMalformed(codec: Codec, frames: seq<seq<Byte>>)
    requires |frames| - |Kept(Malformed(codec), frames)| <= MAX_MALFORMED_FRAMES
    ensures var all := Consumed(ChatStep(codec), START, frames);
      var kept := Consumed(ChatStep(codec), START, Kept(Malformed(codec), frames));
      all.events == kept.events && all.error == kept.error && SameButCount(all.core, kept.core)
  {
    MalformedFramesSkip(codec);
    SkippedFrames(ChatStep(codec), Malformed(codec), SameButCount, MalformedLeft, START, START, frames);
  }
}
