/** What both stream parsers share: results, events, errors, and reading the data lines of a frame. */
module ProviderTypes {
  import opened Prelude
  import Sequences
  import Text
  import opened Json
  import opened ToolCalls
  import UsageLedger

  datatype TurnResult = TurnResult(
    outputText: string, reasoningText: string, outputItems: seq<Json>, toolCalls: seq<ToolCall>,
    usage: UsageLedger.TokenUsage, responseId: Option<string>, serverModel: Option<string>, finishReason: Option<string>)

  datatype StreamEvent =
    | TextDelta(text: string)
    | ReasoningDelta(text: string)
    | OutputItem(item: Json)
    | Completed

  datatype ProviderError =
    | InvalidArguments(index: nat)
    | MalformedFrames
    | RemoteError(detail: string)
    | IncompleteStream

  /** Malformed frames tolerated before a turn fails. */
  const MAX_MALFORMED_FRAMES: nat := 8

  /** The functions the parsers call but do not define: lossy UTF-8 decoding, JSON parsing, and the
      redaction of a provider's error text. */
  datatype Codec = Codec(
    decode: seq<Byte> -> string, parse: string -> Option<Json>, redact: string -> string)

  /** An 8-bit counter that saturates. */
  function Counted(malformed: nat): nat {
    if malformed >= 255 then 255 else malformed + 1
  }

  /** A 64-bit count, or what was there before. */
  function Count(v: Option<Json>, before: U64): U64 {
    AsU64(v).GetOr(before)
  }

  /** The given string, or what was there before. */
  function Latest(v: Option<Json>, before: Option<string>): Option<string> {
    AsStr(v).Or(before)
  }

  function TextOf(events: seq<StreamEvent>): string {
    if events == [] then "" else (if events[0].TextDelta? then events[0].text else "") + TextOf(events[1..])
  }

  function ReasoningOf(events: seq<StreamEvent>): string {
    if events == [] then "" else (if events[0].ReasoningDelta? then events[0].text else "") + ReasoningOf(events[1..])
  }

  lemma {:induction false} TextOfConcat(a: seq<StreamEvent>, b: seq<StreamEvent>)
    ensures TextOf(a + b) == TextOf(a) + TextOf(b)
  {
    if a == [] {
      assert a + b == b;
    } else {
      assert (a + b)[0] == a[0] && (a + b)[1..] == a[1..] + b;
      TextOfConcat(a[1..], b);
    }
  }

  lemma {:induction false} ReasoningOfConcat(a: seq<StreamEvent>, b: seq<StreamEvent>)
    ensures ReasoningOf(a + b) == ReasoningOf(a) + ReasoningOf(b)
  {
    if a == [] {
      assert a + b == b;
    } else {
      assert (a + b)[0] == a[0] && (a + b)[1..] == a[1..] + b;
      ReasoningOfConcat(a[1..], b);
    }
  }

  /** The events account for exactly the text that was appended to the result. */
  ghost predicate Accounts(before: TurnResult, events: seq<StreamEvent>, after: TurnResult) {
    && after.outputText == before.outputText + TextOf(events)
    && after.reasoningText == before.reasoningText + ReasoningOf(events)
  }

  lemma AccountsConcat(a: TurnResult, e: seq<StreamEvent>, b: TurnResult, f: seq<StreamEvent>, c: TurnResult)
    requires Accounts(a, e, b) && Accounts(b, f, c)
    ensures Accounts(a, e + f, c)
  {
    TextOfConcat(e, f);
    ReasoningOfConcat(e, f);
  }

  // ----- the values in a stream -----

  function OneValue(value: Option<Json>): seq<Json> {
    if value.Some? then [value.value] else []
  }

  /** The JSON values that the frames carry, as `read` finds them. */
  function ValuesOf(read: seq<Byte> -> Option<Json>, frames: seq<seq<Byte>>): seq<Json> {
    if frames == [] then [] else OneValue(read(frames[0])) + ValuesOf(read, frames[1..])
  }

  lemma {:induction false} ValuesOfAppend(read: seq<Byte> -> Option<Json>, frames: seq<seq<Byte>>, frame: seq<Byte>)
    ensures ValuesOf(read, frames + [frame]) == ValuesOf(read, frames) + OneValue(read(frame))
  {
    if frames == [] {
      assert frames + [frame] == [frame] && [frame][1..] == [];
    } else {
      assert (frames + [frame])[0] == frames[0] && (frames + [frame])[1..] == frames[1..] + [frame];
      ValuesOfAppend(read, frames[1..], frame);
      Sequences.Assoc(OneValue(read(frames[0])), ValuesOf(read, frames[1..]), OneValue(read(frame)));
    }
  }

  /** What a response says about itself, apart from its output. */
  datatype Header = Header(usage: UsageLedger.TokenUsage, responseId: Option<string>, serverModel: Option<string>)

  function HeaderOf(result: TurnResult): Header {
    Header(result.usage, result.responseId, result.serverModel)
  }

  // ----- the last of several reports -----

  /** What the last value that reports something reports. */
  function LastOf<T>(read: Json -> Option<T>, values: seq<Json>): Option<T> {
    if values == [] then None else LastOf(read, values[1..]).Or(read(values[0]))
  }

  lemma LastOfOne<T>(read: Json -> Option<T>, value: Json)
    ensures LastOf(read, [value]) == read(value)
  {
    assert LastOf(read, []) == None;
  }

  lemma {:induction false} LastOfConcat<T>(read: Json -> Option<T>, a: seq<Json>, b: seq<Json>)
    ensures LastOf(read, a + b) == LastOf(read, b).Or(LastOf(read, a))
  {
    if a == [] {
      assert a + b == b;
    } else {
      assert (a + b)[0] == a[0] && (a + b)[1..] == a[1..] + b;
      LastOfConcat(read, a[1..], b);
    }
  }

  /** The last count reported, or the one there was before. */
  function LastCount(read: Json -> Option<U64>, values: seq<Json>, before: U64): U64 {
    LastOf(read, values).GetOr(before)
  }

  lemma LastCountConcat(read: Json -> Option<U64>, a: seq<Json>, b: seq<Json>, before: U64)
    ensures LastCount(read, a + b, before) == LastCount(read, b, LastCount(read, a, before))
  {
    LastOfConcat(read, a, b);
  }

  /** The string member with the given name. */
  function Member(key: string): Json -> Option<string> {
    v => AsStr(Get(v, key))
  }

  // ----- data lines -----

  function LineBreak(s: string): (i: nat)
    ensures i <= |s|
    ensures i < |s| ==> s[i] == '\n'
    ensures '\n' !in s[..i]
  {
    if s == "" || s[0] == '\n' then 0
    else
      var i := 1 + LineBreak(s[1..]);
      assert s[..i] == [s[0]] + s[1..][..i - 1];
      i
  }

  /** The lines of a text, without their LF or CRLF. */
  function Lines(s: string): seq<string> {
    var i := LineBreak(s);
    if s == "" then []
    else if i == |s| then [s]
    else [if i > 0 && s[i - 1] == '\r' then s[..i - 1] else s[..i]] + Lines(s[i + 1..])
  }

  const DATA := "data:"

  /** What follows `data:` on the lines that start with it. */
  function DataLines(lines: seq<string>): seq<string> {
    if lines == [] then []
    else (if DATA <= lines[0] then [lines[0][|DATA|..]] else []) + DataLines(lines[1..])
  }

  function JoinLines(lines: seq<string>): string {
    if lines == [] then ""
    else if |lines| == 1 then lines[0]
    else lines[0] + "\n" + JoinLines(lines[1..])
  }

  function Trimmed(lines: seq<string>): seq<string> {
    if lines == [] then [] else [Text.Trim(lines[0])] + Trimmed(lines[1..])
  }

  function WithoutSpace(line: string): string {
    if line != "" && line[0] == ' ' then line[1..] else line
  }

  function WithoutSpaces(lines: seq<string>): seq<string> {
    if lines == [] then [] else [WithoutSpace(lines[0])] + WithoutSpaces(lines[1..])
  }
}
