/** The result of a chat-completions turn, read off the whole stream at once. */
module ChatTurn {
  import opened Prelude
  import Sequences
  import opened Ordering
  import opened Framing
  import opened Streaming
  import opened Delivery
  import opened Json
  import opened ToolCalls
  import UsageLedger
  import opened ProviderTypes
  import opened ChatStream

  function TurnFrames(bytes: seq<Byte>): seq<seq<Byte>> {
    AllFrames(IsNothing, bytes)
  }

  predicate IsNothing(rest: seq<Byte>) {
    rest == []
  }

  function ValueOf(codec: Codec, frame: seq<Byte>): Option<Json> {
    var data := Payload(codec, frame);
    if data == "" || data == "[DONE]" then None else codec.parse(data)
  }

  function Reader(codec: Codec): seq<Byte> -> Option<Json> {
    frame => ValueOf(codec, frame)
  }

  function ChoicesOf(values: seq<Json>): seq<Json> {
    if values == [] then [] else Elements(Get(values[0], "choices")) + ChoicesOf(values[1..])
  }

  function FragmentsIn(choices: seq<Json>): seq<Fragment> {
    if choices == [] then []
    else FragmentsOf(Elements(Get(Delta(choices[0]), "tool_calls"))) + FragmentsIn(choices[1..])
  }

  function TextsIn(choices: seq<Json>, key: string): string {
    if choices == [] then "" else TextAt(Delta(choices[0]), key) + TextsIn(choices[1..], key)
  }

  function UsageCount(key: string): Json -> Option<U64> {
    v => AsU64(GetIn(Get(v, "usage"), key))
  }

  /** Each count is the last one that any of the values reports. */
  function LastUsage(before: UsageLedger.TokenUsage, values: seq<Json>): UsageLedger.TokenUsage {
    UsageLedger.TokenUsage(
      LastCount(UsageCount("prompt_tokens"), values, before.input),
      LastCount(UsageCount("completion_tokens"), values, before.output),
      LastCount(UsageCount("prompt_cache_hit_tokens"), values, before.cachedInput),
      before.cacheWrite,
      LastCount(UsageCount("reasoning_tokens"), values, before.reasoningOutput))
  }

  /** Counts, response id and model are the last ones that any of the values reports. */
  function LastHeader(before: Header, values: seq<Json>): Header {
    Header(
      LastUsage(before.usage, values),
      LastOf(Member("id"), values).Or(before.responseId),
      LastOf(Member("model"), values).Or(before.serverModel))
  }

  /** What choices contribute to. */
  datatype Progress = Progress(finishReason: Option<string>, reasoningText: string, outputText: string, calls: Calls)

  function ProgressOf(core: Core): Progress {
    Progress(core.result.finishReason, core.result.reasoningText, core.result.outputText, core.calls)
  }

  /** The choices, taken together, contribute their last finish reason and, in order, texts and fragments. */
  function Progressed(before: Progress, choices: seq<Json>): Progress {
    Progress(
      LastOf(Member("finish_reason"), choices).Or(before.finishReason),
      before.reasoningText + TextsIn(choices, "reasoning_content"),
      before.outputText + TextsIn(choices, "content"),
      AppliedAll(before.calls, FragmentsIn(choices)))
  }

  lemma LastHeaderConcat(before: Header, x: seq<Json>, y: seq<Json>)
    ensures LastHeader(before, x + y) == LastHeader(LastHeader(before, x), y)
  {
    LastCountConcat(UsageCount("prompt_tokens"), x, y, before.usage.input);
    LastCountConcat(UsageCount("completion_tokens"), x, y, before.usage.output);
    LastCountConcat(UsageCount("prompt_cache_hit_tokens"), x, y, before.usage.cachedInput);
    LastCountConcat(UsageCount("reasoning_tokens"), x, y, before.usage.reasoningOutput);
    LastOfConcat(Member("id"), x, y);
    LastOfConcat(Member("model"), x, y);
  }

  lemma {:induction false} TextsInConcat(x: seq<Json>, y: seq<Json>, key: string)
    ensures TextsIn(x + y, key) == TextsIn(x, key) + TextsIn(y, key)
  {
    if x == [] {
      assert x + y == y;
    } else {
      assert (x + y)[0] == x[0] && (x + y)[1..] == x[1..] + y;
      TextsInConcat(x[1..], y, key);
      assert TextsIn(x + y, key) == TextAt(Delta(x[0]), key) + (TextsIn(x[1..], key) + TextsIn(y, key));
      Sequences.Assoc(TextAt(Delta(x[0]), key), TextsIn(x[1..], key), TextsIn(y, key));
    }
  }

  lemma {:induction false} FragmentsInConcat(x: seq<Json>, y: seq<Json>)
    ensures FragmentsIn(x + y) == FragmentsIn(x) + FragmentsIn(y)
  {
    if x == [] {
      assert x + y == y;
    } else {
      assert (x + y)[0] == x[0] && (x + y)[1..] == x[1..] + y;
      FragmentsInConcat(x[1..], y);
      Sequences.Assoc(FragmentsOf(Elements(Get(Delta(x[0]), "tool_calls"))), FragmentsIn(x[1..]), FragmentsIn(y));
    }
  }

  lemma ProgressedConcat(before: Progress, x: seq<Json>, y: seq<Json>)
    ensures Progressed(before, x + y) == Progressed(Progressed(before, x), y)
  {
    LastOfConcat(Member("finish_reason"), x, y);
    TextsInConcat(x, y, "reasoning_content");
    TextsInConcat(x, y, "content");
    Sequences.Assoc(before.reasoningText, TextsIn(x, "reasoning_content"), TextsIn(y, "reasoning_content"));
    Sequences.Assoc(before.outputText, TextsIn(x, "content"), TextsIn(y, "content"));
    FragmentsInConcat(x, y);
    AppliedAllConcat(before.calls, FragmentsIn(x), FragmentsIn(y));
  }

  lemma OneChoiceFollows(core: Core, choice: Json)
    ensures ProgressOf(AfterChoice(core, choice)) == Progressed(ProgressOf(core), [choice])
  {
    var fragments := FragmentsOf(Elements(Get(Delta(choice), "tool_calls")));
    assert [choice][1..] == [] && FragmentsIn([]) == [] && TextsIn([], "content") == TextsIn([], "reasoning_content") == "";
    assert FragmentsIn([choice]) == fragments;
    LastOfOne(Member("finish_reason"), choice);
  }

  lemma {:induction false} AllChoicesFollow(core: Core, choices: seq<Json>)
    ensures ProgressOf(AfterChoices(core, choices).0) == Progressed(ProgressOf(core), choices)
    ensures HeaderOf(AfterChoices(core, choices).0.result) == HeaderOf(core.result)
    decreases |choices|
  {
    if choices != [] {
      OneChoiceFollows(core, choices[0]);
      AllChoicesFollow(AfterChoice(core, choices[0]), choices[1..]);
      ProgressedConcat(ProgressOf(core), [choices[0]], choices[1..]);
      assert [choices[0]] + choices[1..] == choices;
    }
  }

  lemma OneValueFollows(result: TurnResult, value: Json)
    ensures HeaderOf(WithHeader(result, value)) == LastHeader(HeaderOf(result), [value])
  {
    LastOfOne(UsageCount("prompt_tokens"), value);
    LastOfOne(UsageCount("completion_tokens"), value);
    LastOfOne(UsageCount("prompt_cache_hit_tokens"), value);
    LastOfOne(UsageCount("reasoning_tokens"), value);
    LastOfOne(Member("id"), value);
    LastOfOne(Member("model"), value);
  }

  /** The state after some frames is what the values they carry report, taken together. */
  ghost predicate Follows(before: Core, values: seq<Json>, after: Core) {
    && HeaderOf(after.result) == LastHeader(HeaderOf(before.result), values)
    && ProgressOf(after) == Progressed(ProgressOf(before), ChoicesOf(values))
  }

  lemma {:induction false} ChoicesOfConcat(x: seq<Json>, y: seq<Json>)
    ensures ChoicesOf(x + y) == ChoicesOf(x) + ChoicesOf(y)
  {
    if x == [] {
      assert x + y == y;
    } else {
      assert (x + y)[0] == x[0] && (x + y)[1..] == x[1..] + y;
      ChoicesOfConcat(x[1..], y);
    }
  }

  lemma FollowsConcat(a: Core, x: seq<Json>, b: Core, y: seq<Json>, c: Core)
    requires Follows(a, x, b) && Follows(b, y, c)
    ensures Follows(a, x + y, c)
  {
    LastHeaderConcat(HeaderOf(a.result), x, y);
    ChoicesOfConcat(x, y);
    ProgressedConcat(ProgressOf(a), ChoicesOf(x), ChoicesOf(y));
  }

  lemma ValueFollows(core: Core, value: Json)
    ensures var headed := core.(result := WithHeader(core.result, value));
      Follows(core, [value], AfterChoices(headed, Elements(Get(value, "choices"))).0)
  {
    var headed := core.(result := WithHeader(core.result, value));
    var choices := Elements(Get(value, "choices"));
    OneValueFollows(core.result, value);
    AllChoicesFollow(headed, choices);
    assert ChoicesOf([]) == [];
    assert ChoicesOf([value]) == choices;
  }

  /** A frame without a value may complete the turn or count as malformed, and nothing else. */
  lemma SilentFrame(codec: Codec, core: Core, frame: seq<Byte>)
    requires ValueOf(codec, frame).None?
    ensures var after := AfterFrame(codec, core, frame).core;
      after.calls == core.calls && after.result == core.result.(toolCalls := after.result.toolCalls)
  {
  }

  lemma NothingFollows(core: Core, after: Core)
    requires after.calls == core.calls && after.result == core.result.(toolCalls := after.result.toolCalls)
    ensures Follows(core, [], after)
  {
  }

  lemma SpeakingFrame(codec: Codec, core: Core, frame: seq<Byte>)
    requires ValueOf(codec, frame).Some?
    ensures var value := ValueOf(codec, frame).value;
      AfterFrame(codec, core, frame).core ==
      AfterChoices(core.(result := WithHeader(core.result, value)), Elements(Get(value, "choices"))).0
  {
  }

  lemma FrameFollows(codec: Codec, core: Core, frame: seq<Byte>)
    ensures Follows(core, OneValue(ValueOf(codec, frame)), AfterFrame(codec, core, frame).core)
  {
    var value := ValueOf(codec, frame);
    if value.Some? {
      SpeakingFrame(codec, core, frame);
      ValueFollows(core, value.value);
    } else {
      SilentFrame(codec, core, frame);
      NothingFollows(core, AfterFrame(codec, core, frame).core);
    }
  }

  lemma {:induction false} FramesFollow(codec: Codec, core: Core, frames: seq<seq<Byte>>)
    requires Consumed(ChatStep(codec), core, frames).error.None?
    ensures Follows(core, ValuesOf(Reader(codec), frames), Consumed(ChatStep(codec), core, frames).core)
    decreases |frames|
  {
    if frames != [] {
      var next := AfterFrame(codec, core, frames[0]).core;
      FrameFollows(codec, core, frames[0]);
      FramesFollow(codec, next, frames[1..]);
      FollowsConcat(core, OneValue(ValueOf(codec, frames[0])), next, ValuesOf(Reader(codec), frames[1..]),
                    Consumed(ChatStep(codec), next, frames[1..]).core);
    }
  }

  /** What a turn amounts to once all its frames were consumed. */
  function TurnOf(all: ChatParsed): Result<Turn, ProviderError> {
    if all.error.Some? then Err(all.error.value)
    else if !all.core.completed then Err(IncompleteStream)
    else Ok(Turn(all.core.result.(toolCalls := CallList(all.core.calls)), all.events))
  }

  /** The leftover bytes are consumed like one more frame. */
  lemma FinishedIsConsumed(codec: Codec, rest: seq<Byte>, core: Core)
    ensures var all := Consumed(ChatStep(codec), core, LastFrame(IsNothing, rest));
      Finished(codec, rest, core) == if all.error.Some? then (all.core, Err(all.error.value))
      else (all.core.(result := all.core.result.(toolCalls := CallList(all.core.calls))), Ok(all.events))
  {
    if rest != [] {
      ConsumedOne(ChatStep(codec), core, rest);
    }
  }

  /** A turn is what consuming the frames of its whole stream amounts to, with its events or its error. */
  lemma TurnIsFold(codec: Codec, chunks: seq<seq<Byte>>)
    ensures RunTurn(codec, chunks) == TurnOf(Consumed(ChatStep(codec), START, TurnFrames(Concat(chunks))))
  {
    var split := Cut(Concat(chunks));
    FedOutcome(ChatStep(codec), START, chunks);
    ConsumedConcat(ChatStep(codec), START, split.frames, LastFrame(IsNothing, split.rest));
    FinishedIsConsumed(codec, split.rest, Consumed(ChatStep(codec), START, split.frames).core);
  }

  /** The result of a successful turn, read off the values of the whole stream: every count, id and
      finish reason is the last one reported, the texts are all deltas in order, and the calls are
      assembled from all fragments in order. */
  lemma TurnResultIsSummary(codec: Codec, chunks: seq<seq<Byte>>)
    requires RunTurn(codec, chunks).Ok?
    ensures var values, result := ValuesOf(Reader(codec), TurnFrames(Concat(chunks))), RunTurn(codec, chunks).value.result;
      var progress := Progressed(Progress(None, "", "", map[]), ChoicesOf(values));
      && HeaderOf(result) == LastHeader(Header(UsageLedger.TokenUsage(0, 0, 0, 0, 0), None, None), values)
      && Progress(result.finishReason, result.reasoningText, result.outputText, progress.calls) == progress
      && result.toolCalls == CallList(progress.calls)
  {
    TurnIsFold(codec, chunks);
    FramesFollow(codec, START, TurnFrames(Concat(chunks)));
  }

  // ----- the calls in the result -----

  lemma {:induction false} CallsInOrderAt(calls: Calls, keys: seq<nat>, k: nat)
    requires k < |keys|
    ensures |CallsInOrder(calls, keys)| == |keys| && CallsInOrder(calls, keys)[k] == CallAt(calls, keys[k])
  {
    if |keys| > 1 {
      CallsInOrderAt(calls, keys[1..], if k == 0 then 0 else k - 1);
    }
  }

  /** The reported calls are all the assembled ones, by ascending index. */
  lemma CallListByIndex(calls: Calls)
    ensures var keys := SortedNats(calls.Keys);
      && StrictlyAscending(NatLeq, keys) && |CallList(calls)| == |keys| == |calls|
      && forall k | 0 <= k < |keys| :: keys[k] in calls && CallList(calls)[k] == calls[keys[k]]
  {
    var keys := SortedNats(calls.Keys);
    SortedNatsListing(calls.Keys);
    forall k | 0 <= k < |keys|
      ensures keys[k] in calls && |CallList(calls)| == |keys| && CallList(calls)[k] == calls[keys[k]]
    {
      assert keys[k] in keys;
      CallsInOrderAt(calls, keys, k);
    }
  }

  predicate HasInvalidArguments(codec: Codec, calls: Calls, i: nat) {
    i in calls && codec.parse(calls[i].arguments).None?
  }

  lemma {:induction false} FirstInvalidAmong(codec: Codec, calls: Calls, keys: seq<nat>)
    requires StrictlyAscending(NatLeq, keys) && forall i | i in keys :: i in calls
    ensures forall i | i in keys && HasInvalidArguments(codec, calls, i) ::
      FirstInvalid(codec, calls, keys).Some? && FirstInvalid(codec, calls, keys).value <= i
    ensures FirstInvalid(codec, calls, keys).Some? ==>
      FirstInvalid(codec, calls, keys).value in keys && HasInvalidArguments(codec, calls, FirstInvalid(codec, calls, keys).value)
  {
    if keys != [] {
      assert keys[0] in keys && forall i | i in keys[1..] :: i in keys;
      FirstInvalidAmong(codec, calls, keys[1..]);
      forall i | i in keys
        ensures keys[0] <= i
      {
        var k :| 0 <= k < |keys| && keys[k] == i;
      }
    }
  }

  /** The end marker fails exactly when some call has arguments that do not parse, and then names the least such index. */
  lemma DoneChecksArguments(codec: Codec, core: Core, frame: seq<Byte>)
    requires Payload(codec, frame) == "[DONE]"
    ensures var error := AfterFrame(codec, core, frame).error;
      && (error.None? <==> forall i :: !HasInvalidArguments(codec, core.calls, i))
      && (error.Some? ==>
           && error.value.InvalidArguments? && HasInvalidArguments(codec, core.calls, error.value.index)
           && forall i | HasInvalidArguments(codec, core.calls, i) :: error.value.index <= i)
  {
    SortedNatsListing(core.calls.Keys);
    FirstInvalidAmong(codec, core.calls, SortedNats(core.calls.Keys));
  }

  // ----- events handed on before an error -----

  /** The events of the end of the stream, which are lost if it fails. */
  function LastEvents(codec: Codec): (seq<Byte>, Core) -> seq<StreamEvent> {
    (rest, core) => var last := Finished(codec, rest, core).1; if last.Ok? then last.value else []
  }

  /** The events that the turn hands to its caller, whether it then fails or not. */
  function TurnEvents(codec: Codec, chunks: seq<seq<Byte>>): seq<StreamEvent> {
    HandedOn(ChatStep(codec), LastEvents(codec), START, chunks)
  }

  /** A successful turn hands on the events of its outcome. */
  lemma SuccessHandsOnAll(codec: Codec, chunks: seq<seq<Byte>>)
    requires RunTurn(codec, chunks).Ok?
    ensures TurnEvents(codec, chunks) == RunTurn(codec, chunks).value.events
  {
    DeliveredClean(ChatStep(codec), [], START, chunks);
  }

  ghost predicate EventsIgnoreChunking(codec: Codec, bytes: seq<Byte>) {
    HandingOnIgnoresChunking(ChatStep(codec), LastEvents(codec), START, bytes)
  }

  /** All chunkings of the bytes hand on the same events exactly when no complete frame fails or no frame
      before the failing one has events. */
  lemma EventsIgnoreChunkingIff(codec: Codec, bytes: seq<Byte>)
    ensures EventsIgnoreChunking(codec, bytes) <==>
      || Consumed(ChatStep(codec), START, Cut(bytes).frames).error.None?
      || EventsBeforeError(ChatStep(codec), START, Cut(bytes).frames) == []
  {
    HandingOnIgnoresChunkingIff(ChatStep(codec), LastEvents(codec), START, bytes);
  }

  // ----- malformed frames in a turn -----

  lemma MalformedFramesMeter(codec: Codec)
    ensures Metered(ChatStep(codec), Malformed(codec), MalformedLeft, MalformedFrames)
  {
    forall c, f | Malformed(codec)(f)
      ensures TakesUnit(ChatStep(codec), MalformedLeft, MalformedFrames, c, f)
    {
      MalformedTakesUnit(codec, c, f);
    }
    forall c, f | !Malformed(codec)(f)
      ensures TakesNothing(ChatStep(codec), MalformedLeft, MalformedFrames, c, f)
    {
      HealthyTakesNothing(codec, c, f);
    }
  }

  lemma MalformedTakesUnit(codec: Codec, c: Core, frame: seq<Byte>)
    requires IsMalformed(codec, frame)
    ensures TakesUnit(ChatStep(codec), MalformedLeft, MalformedFrames, c, frame)
  {
  }

  lemma HealthyTakesNothing(codec: Codec, c: Core, frame: seq<Byte>)
    requires !IsMalformed(codec, frame)
    ensures TakesNothing(ChatStep(codec), MalformedLeft, MalformedFrames, c, frame)
  {
    HealthyIsAlike(codec, c, c, frame);
  }

  /** The k-th frame of the stream is the ninth malformed one, and no other frame before it fails. */
  ghost predicate NinthMalformedAt(codec: Codec, frames: seq<seq<Byte>>, k: nat) {
    && k < |frames| && IsMalformed(codec, frames[k])
    && SkippedCount(Malformed(codec), frames[..k]) == MAX_MALFORMED_FRAMES
    && Consumed(ChatStep(codec), START, Kept(Malformed(codec), frames[..k])).error.None?
  }

  /** A turn fails for its malformed frames exactly when a ninth one comes before any other error. */
  lemma MalformedFailsIff(codec: Codec, chunks: seq<seq<Byte>>)
    ensures RunTurn(codec, chunks) == Err(MalformedFrames) <==>
      exists k :: NinthMalformedAt(codec, TurnFrames(Concat(chunks)), k)
  {
    var frames := TurnFrames(Concat(chunks));
    TurnIsFold(codec, chunks);
    MalformedFramesSkip(codec);
    MalformedFramesMeter(codec);
    SpentIff(ChatStep(codec), Malformed(codec), SameButCount, MalformedLeft, MalformedFrames, START, frames);
    forall k: nat
      ensures NinthMalformedAt(codec, frames, k) <==>
        RunsOutAt(ChatStep(codec), Malformed(codec), MalformedLeft, START, frames, k)
    {
    }
  }

  /** Up to eight malformed frames have no effect on a turn: without them, and however the bytes arrive,
      it has the same result, the same events and the same error, if any. */
  lemma MalformedFramesAreSkipped(codec: Codec, chunks: seq<seq<Byte>>, chunks': seq<seq<Byte>>)
    requires SkippedCount(Malformed(codec), TurnFrames(Concat(chunks))) <= MAX_MALFORMED_FRAMES
    requires Concat(chunks') == WithoutSkipped(Malformed(codec), Concat(chunks))
    ensures RunTurn(codec, chunks') == RunTurn(codec, chunks)
  {
    TurnIsFold(codec, chunks);
    TurnIsFold(codec, chunks');
    SameKept(IsNothing, Malformed(codec), Concat(chunks));
    FramesWithoutMalformed(codec, TurnFrames(Concat(chunks)));
    FramesWithoutMalformed(codec, TurnFrames(Concat(chunks')));
  }
}
