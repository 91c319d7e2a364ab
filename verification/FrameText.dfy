/** What a frame's text carries: its data lines, whatever other lines and line ends are among them. */
module FrameText {
  import opened Prelude
  import opened Text
  import opened ProviderTypes
  import ChatStream
  import SseStream

  /** A line of a frame, ended by LF or CRLF: one that carries data, with or without a space behind the
      colon, or any other. */
  datatype Line = Data(text: string, spaced: bool, crlf: bool) | Other(text: string, crlf: bool)

  function Content(line: Line): string {
    match line
    case Data(text, spaced, _) => "data:" + (if spaced then " " else "") + text
    case Other(text, _) => text
  }

  function LineEnd(crlf: bool): string {
    if crlf then "\r\n" else "\n"
  }

  /** The line is one line, and read as it is meant. */
  predicate IsLine(line: Line) {
    && '\n' !in Content(line)
    && (!line.crlf && Content(line) != "" ==> Content(line)[|Content(line)| - 1] != '\r')
    && (line.Other? ==> !("data:" <= line.text))
    && (line.Data? && !line.spaced ==> line.text == "" || line.text[0] != ' ')
  }

  function Rendered(lines: seq<Line>): string {
    if lines == [] then "" else Content(lines[0]) + LineEnd(lines[0].crlf) + Rendered(lines[1..])
  }

  function Contents(lines: seq<Line>): seq<string> {
    if lines == [] then [] else [Content(lines[0])] + Contents(lines[1..])
  }

  /** The texts of the data lines, in order. */
  function DataTexts(lines: seq<Line>): seq<string> {
    if lines == [] then []
    else (if lines[0].Data? then [lines[0].text] else []) + DataTexts(lines[1..])
  }

  lemma {:induction false} LineBreakAt(head: string, tail: string)
    requires '\n' !in head
    ensures LineBreak(head + "\n" + tail) == |head|
  {
    var all := head + "\n" + tail;
    if head != "" {
      assert all[0] == head[0] && all[1..] == head[1..] + "\n" + tail;
      LineBreakAt(head[1..], tail);
    }
  }

  /** What is before a line feed is a line, less a carriage return at its end. */
  lemma LineBefore(head: string, rest: string)
    requires '\n' !in head
    ensures Lines(head + "\n" + rest) ==
      [if head != "" && head[|head| - 1] == '\r' then head[..|head| - 1] else head] + Lines(rest)
  {
    var all := head + "\n" + rest;
    LineBreakAt(head, rest);
    assert all != "" && all[..|head|] == head && all[|head| + 1..] == rest;
    if head != "" {
      assert all[|head| - 1] == head[|head| - 1] && all[..|head| - 1] == head[..|head| - 1];
    }
  }

  lemma FirstLine(line: Line, rest: string)
    requires IsLine(line)
    ensures Lines(Content(line) + LineEnd(line.crlf) + rest) == [Content(line)] + Lines(rest)
  {
    WithLineEnd(Content(line), line.crlf, rest);
  }

  lemma WithLineEnd(content: string, crlf: bool, rest: string)
    requires '\n' !in content && (!crlf && content != "" ==> content[|content| - 1] != '\r')
    ensures Lines(content + LineEnd(crlf) + rest) == [content] + Lines(rest)
  {
    if crlf {
      var head := content + "\r";
      assert content + LineEnd(crlf) + rest == head + "\n" + rest;
      assert head[..|head| - 1] == content;
      LineBefore(head, rest);
    } else {
      LineBefore(content, rest);
    }
  }

  /** Splitting into lines inverts rendering. */
  lemma {:induction false} LinesOfRendered(lines: seq<Line>)
    requires forall line | line in lines :: IsLine(line)
    ensures Lines(Rendered(lines)) == Contents(lines)
  {
    if lines != [] {
      assert lines[0] in lines && forall line | line in lines[1..] :: line in lines;
      LinesOfRendered(lines[1..]);
      FirstLine(lines[0], Rendered(lines[1..]));
    }
  }

  /** What follows the colon on a data line; nothing for other lines. */
  function OwnField(line: Line): seq<string> {
    if line.Data? then [(if line.spaced then " " else "") + line.text] else []
  }

  function Fields(lines: seq<Line>): seq<string> {
    if lines == [] then [] else OwnField(lines[0]) + Fields(lines[1..])
  }

  lemma OwnFieldIs(line: Line)
    requires IsLine(line)
    ensures (if DATA <= Content(line) then [Content(line)[|DATA|..]] else []) == OwnField(line)
  {
    if line.Data? {
      var field := (if line.spaced then " " else "") + line.text;
      assert Content(line) == "data:" + field;
      assert Content(line)[5..] == field;
    }
  }

  lemma {:induction false} DataLinesAre(lines: seq<Line>)
    requires forall line | line in lines :: IsLine(line)
    ensures DataLines(Contents(lines)) == Fields(lines)
  {
    if lines != [] {
      assert lines[0] in lines && forall line | line in lines[1..] :: line in lines;
      DataLinesAre(lines[1..]);
      OwnFieldIs(lines[0]);
      assert ([Content(lines[0])] + Contents(lines[1..]))[1..] == Contents(lines[1..]);
    }
  }

  lemma OwnSpaceDropped(line: Line, rest: seq<string>)
    requires IsLine(line)
    ensures WithoutSpaces(OwnField(line) + rest) == (if line.Data? then [line.text] else []) + WithoutSpaces(rest)
  {
    if line.Data? {
      var field := (if line.spaced then " " else "") + line.text;
      assert line.spaced ==> field[1..] == line.text;
      assert !line.spaced ==> field == line.text;
      assert WithoutSpace(field) == line.text;
      assert ([field] + rest)[1..] == rest;
    } else {
      assert [] + rest == rest && [] + WithoutSpaces(rest) == WithoutSpaces(rest);
    }
  }

  lemma {:induction false} SpacesDropped(lines: seq<Line>)
    requires forall line | line in lines :: IsLine(line)
    ensures WithoutSpaces(Fields(lines)) == DataTexts(lines)
    ensures Fields(lines) == [] <==> DataTexts(lines) == []
  {
    if lines != [] {
      assert lines[0] in lines && forall line | line in lines[1..] :: line in lines;
      SpacesDropped(lines[1..]);
      OwnSpaceDropped(lines[0], Fields(lines[1..]));
    }
  }

  lemma {:induction false} TrimmedFields(lines: seq<Line>)
    ensures Trimmed(Fields(lines)) == Trimmed(DataTexts(lines))
  {
    if lines != [] {
      TrimmedFields(lines[1..]);
      if lines[0].Data? {
        var field := (if lines[0].spaced then " " else "") + lines[0].text;
        assert ([field] + Fields(lines[1..]))[1..] == Fields(lines[1..]);
        assert ([lines[0].text] + DataTexts(lines[1..]))[1..] == DataTexts(lines[1..]);
        SpaceIsTrimmed(lines[0].text);
        assert "" + lines[0].text == lines[0].text;
      } else {
        assert [] + Fields(lines[1..]) == Fields(lines[1..]);
        assert [] + DataTexts(lines[1..]) == DataTexts(lines[1..]);
      }
    }
  }

  lemma SpaceIsTrimmed(text: string)
    ensures Trim(" " + text) == Trim(text)
  {
    assert (" " + text)[1..] == text;
  }

  /** The texts joined by line feeds. */
  lemma JoinLinesIs(first: string, others: seq<string>)
    ensures JoinLines([]) == "" && JoinLines([first]) == first
    ensures others != [] ==> JoinLines([first] + others) == first + "\n" + JoinLines(others)
  {
    assert ([first] + others)[1..] == others;
  }

  lemma {:induction false} TrimmedIs(lines: seq<string>, k: nat)
    requires k < |lines|
    ensures |Trimmed(lines)| == |lines| && Trimmed(lines)[k] == Trim(lines[k])
  {
    if |lines| > 1 {
      TrimmedIs(lines[1..], if k == 0 then 0 else k - 1);
    }
  }

  /** In a responses stream a frame carries the texts of its data lines, each without the one space behind
      the colon, joined by line feeds; other lines do not matter. */
  lemma SsePayloadIs(codec: Codec, frame: seq<Byte>, lines: seq<Line>)
    requires codec.decode(frame) == Rendered(lines) && forall line | line in lines :: IsLine(line)
    ensures SseStream.Payload(codec, frame) ==
      if DataTexts(lines) == [] then None else Some(JoinLines(DataTexts(lines)))
  {
    LinesOfRendered(lines);
    DataLinesAre(lines);
    SpacesDropped(lines);
  }

  /** In a chat stream it carries these texts trimmed. */
  lemma ChatPayloadIs(codec: Codec, frame: seq<Byte>, lines: seq<Line>)
    requires codec.decode(frame) == Rendered(lines) && forall line | line in lines :: IsLine(line)
    ensures ChatStream.Payload(codec, frame) == JoinLines(Trimmed(DataTexts(lines)))
  {
    LinesOfRendered(lines);
    DataLinesAre(lines);
    TrimmedFields(lines);
  }
}
