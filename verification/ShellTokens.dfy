/** Splitting a report into shell-like tokens, which inverts escaping and quoting. */
module ShellTokens {
  import opened Prelude
  import Sequences
  import opened Text

  predicate IsQuote(c: char) {
    c == '\'' || c == '"'
  }

  /** A character that a backslash in front of it makes literal. */
  predicate IsEscapable(c: char) {
    IsWhitespace(c) || c == '\\' || IsQuote(c)
  }

  function Flushed(token: string): seq<string> {
    if token == "" then [] else [token]
  }

  /** The tokens of the rest of a text, given the token begun and the quote that is open. */
  function TokensFrom(text: string, token: string, quote: Option<char>): seq<string>
    decreases |text|
  {
    if text == "" then Flushed(token)
    else if quote.Some? then
      if text[0] == quote.value then TokensFrom(text[1..], token, None)
      else TokensFrom(text[1..], token + [text[0]], quote)
    else if IsQuote(text[0]) then TokensFrom(text[1..], token, Some(text[0]))
    else if text[0] == '\\' && |text| > 1 && IsEscapable(text[1]) then TokensFrom(text[2..], token + [text[1]], None)
    else if IsWhitespace(text[0]) then Flushed(token) + TokensFrom(text[1..], "", None)
    else TokensFrom(text[1..], token + [text[0]], None)
  }

  function Tokens(text: string): seq<string> {
    TokensFrom(text, "", None)
  }

  /** The loop of the source, reading one or two characters a round. */
  method ShellishTokens(text: string) returns (tokens: seq<string>)
    ensures tokens == Tokens(text)
  {
    tokens := [];
    var token, quote: Option<char>, i := "", None, 0;
    while i < |text|
      invariant i <= |text|
      invariant Tokens(text) == tokens + TokensFrom(text[i..], token, quote)
    {
      var c := text[i];
      assert text[i..][1..] == text[i + 1..];
      assert i + 1 < |text| ==> text[i..][2..] == text[i + 2..];
      i := i + 1;
      if quote.Some? {
        if c == quote.value {
          quote := None;
        } else {
          token := token + [c];
        }
      } else if IsQuote(c) {
        quote := Some(c);
      } else if c == '\\' && i < |text| && IsEscapable(text[i]) {
        token := token + [text[i]];
        i := i + 1;
      } else if IsWhitespace(c) {
        if token != "" {
          tokens := tokens + [token];
          token := "";
        }
      } else {
        token := token + [c];
      }
    }
    if token != "" {
      tokens := tokens + [token];
    }
  }

  // ----- escaping and quoting -----

  function EscapedCharacter(c: char): string {
    if IsEscapable(c) then ['\\', c] else [c]
  }

  /** A backslash in front of every character that needs one. */
  function Escaped(word: string): string {
    if word == "" then "" else EscapedCharacter(word[0]) + Escaped(word[1..])
  }

  function EscapedAll(words: seq<string>): seq<string> {
    if words == [] then [] else [Escaped(words[0])] + EscapedAll(words[1..])
  }

  function Quoted(word: string, quote: char): string {
    [quote] + word + [quote]
  }

  function QuotedAll(words: seq<string>, quote: char): seq<string> {
    if words == [] then [] else [Quoted(words[0], quote)] + QuotedAll(words[1..], quote)
  }

  /** One escaped character is read as that character. */
  lemma EscapedCharacterIsRead(c: char, tail: string, token: string)
    ensures TokensFrom(EscapedCharacter(c) + tail, token, None) == TokensFrom(tail, token + [c], None)
  {
    var text := EscapedCharacter(c) + tail;
    if IsEscapable(c) {
      assert text == ['\\', c] + tail;
      assert text[0] == '\\' && text[1] == c && text[2..] == tail;
    } else {
      assert text == [c] + tail;
      assert text[0] == c && text[1..] == tail;
    }
  }

  lemma EscapedHead(word: string, rest: string)
    requires word != ""
    ensures Escaped(word) + rest == EscapedCharacter(word[0]) + (Escaped(word[1..]) + rest)
  {
    Sequences.Assoc(EscapedCharacter(word[0]), Escaped(word[1..]), rest);
  }

  lemma Regroup(token: string, word: string)
    requires word != ""
    ensures token + [word[0]] + word[1..] == token + word
  {
  }

  lemma {:induction false} EscapedIsRead(word: string, rest: string, token: string)
    ensures TokensFrom(Escaped(word) + rest, token, None) == TokensFrom(rest, token + word, None)
    decreases |word|
  {
    if word == "" {
      assert Escaped(word) + rest == rest && token + word == token;
    } else {
      var c, tail := word[0], Escaped(word[1..]) + rest;
      EscapedHead(word, rest);
      EscapedCharacterIsRead(c, tail, token);
      EscapedIsRead(word[1..], rest, token + [c]);
      Regroup(token, word);
    }
  }

  lemma {:induction false} QuotedIsRead(word: string, quote: char, rest: string, token: string)
    requires quote !in word
    ensures TokensFrom(word + [quote] + rest, token, Some(quote)) == TokensFrom(rest, token + word, None)
    decreases |word|
  {
    var text := word + [quote] + rest;
    if word == "" {
      assert text[0] == quote && text[1..] == rest && token + word == token;
    } else {
      assert text[0] == word[0] && text[1..] == word[1..] + [quote] + rest;
      QuotedIsRead(word[1..], quote, rest, token + [word[0]]);
      assert token + [word[0]] + word[1..] == token + word;
    }
  }

  /** What follows the first part of a joined text: nothing, or a space and the other parts. */
  function AfterFirst(parts: seq<string>): string
    requires parts != []
  {
    if |parts| == 1 then "" else " " + Join(parts[1..])
  }

  lemma SplitJoin(parts: seq<string>)
    requires parts != []
    ensures Join(parts) == parts[0] + AfterFirst(parts)
  {
  }

  lemma OpenQuote(word: string, quote: char, rest: string)
    requires IsQuote(quote)
    ensures TokensFrom(Quoted(word, quote) + rest, "", None) == TokensFrom(word + [quote] + rest, "", Some(quote))
  {
    var text := Quoted(word, quote) + rest;
    assert text[0] == quote && text[1..] == word + [quote] + rest;
  }

  lemma NextToken(token: string, rest: string)
    requires token != ""
    ensures TokensFrom("", token, None) == [token]
    ensures TokensFrom(" " + rest, token, None) == [token] + Tokens(rest)
  {
    assert (" " + rest)[1..] == rest;
  }

  /** Tokenizing inverts escaping: any list of nonempty words, escaped and joined by spaces, is read back. */
  lemma {:induction false} EscapeRoundTrip(words: seq<string>)
    requires forall w | w in words :: w != ""
    ensures Tokens(Join(EscapedAll(words))) == words
    decreases |words|
  {
    if words != [] {
      var w, after := words[0], AfterFirst(EscapedAll(words));
      assert w in words && forall x | x in words[1..] :: x in words;
      EscapeRoundTrip(words[1..]);
      SplitJoin(EscapedAll(words));
      EscapedIsRead(w, after, "");
      assert "" + w == w;
      NextToken(w, Join(EscapedAll(words[1..])));
    }
  }

  /** Tokenizing inverts quoting, for nonempty words that do not contain the quote. */
  lemma {:induction false} QuoteRoundTrip(words: seq<string>, quote: char)
    requires IsQuote(quote) && forall w | w in words :: w != "" && quote !in w
    ensures Tokens(Join(QuotedAll(words, quote))) == words
    decreases |words|
  {
    if words != [] {
      var w, after := words[0], AfterFirst(QuotedAll(words, quote));
      assert w in words && forall x | x in words[1..] :: x in words;
      QuoteRoundTrip(words[1..], quote);
      SplitJoin(QuotedAll(words, quote));
      OpenQuote(w, quote, after);
      QuotedIsRead(w, quote, after, "");
      assert "" + w == w;
      NextToken(w, Join(QuotedAll(words[1..], quote)));
    }
  }

  // ----- what any text means -----

  /** A piece of a text: white space, a character that stands for itself, a backslash with a character behind it,
      or a quoted part. */
  datatype Piece = Space(c: char) | Plain(c: char) | Escape(c: char) | Quotation(text: string, quote: char)

  function Spelled(piece: Piece): string {
    match piece
    case Space(c) => [c]
    case Plain(c) => [c]
    case Escape(c) => ['\\', c]
    case Quotation(text, quote) => [quote] + text + [quote]
  }

  function SpelledAll(pieces: seq<Piece>): string {
    if pieces == [] then "" else Spelled(pieces[0]) + SpelledAll(pieces[1..])
  }

  /** A quotation that is not closed reaches to the end of the text. */
  function SpelledOpen(open: Option<Piece>): string {
    if open.Some? && open.value.Quotation? then [open.value.quote] + open.value.text else ""
  }

  predicate IsOpen(open: Option<Piece>) {
    open.Some? ==> open.value.Quotation? && IsQuote(open.value.quote) && open.value.quote !in open.value.text
  }

  /** The piece is read as meant in front of the given text. */
  predicate IsPiece(piece: Piece, rest: string) {
    match piece
    case Space(c) => IsWhitespace(c)
    case Plain(c) => !IsWhitespace(c) && !IsQuote(c) && (c == '\\' && rest != "" ==> !IsEscapable(rest[0]))
    case Escape(c) => IsWhitespace(c) || c == '\\' || c == '\'' || c == '"'
    case Quotation(text, quote) => (quote == '\'' || quote == '"') && quote !in text
  }

  predicate ArePieces(pieces: seq<Piece>, rest: string) {
    pieces == [] || (IsPiece(pieces[0], SpelledAll(pieces[1..]) + rest) && ArePieces(pieces[1..], rest))
  }

  /** What a piece adds to the token it belongs to. */
  function Meaning(piece: Piece): string {
    match piece
    case Space(_) => ""
    case Plain(c) => [c]
    case Escape(c) => [c]
    case Quotation(text, _) => text
  }

  /** White space separates tokens, and an empty token is none. */
  function MeaningAll(token: string, pieces: seq<Piece>, open: Option<Piece>): seq<string>
    decreases |pieces|
  {
    if pieces == [] then
      var last := if open.Some? then token + Meaning(open.value) else token;
      if last == "" then [] else [last]
    else if pieces[0].Space? then (if token == "" then [] else [token]) + MeaningAll("", pieces[1..], open)
    else MeaningAll(token + Meaning(pieces[0]), pieces[1..], open)
  }

  lemma {:induction false} OpenIsRead(text: string, quote: char, token: string)
    requires quote !in text
    ensures TokensFrom(text, token, Some(quote)) == Flushed(token + text)
    decreases |text|
  {
    if text == "" {
      assert token + text == token;
    } else {
      OpenIsRead(text[1..], quote, token + [text[0]]);
      Regroup(token, text);
    }
  }

  lemma EndIsRead(token: string, open: Option<Piece>)
    requires IsOpen(open)
    ensures TokensFrom(SpelledOpen(open), token, None) == MeaningAll(token, [], open)
  {
    if open.Some? {
      assert SpelledOpen(open)[1..] == open.value.text;
      OpenIsRead(open.value.text, open.value.quote, token);
    }
  }

  lemma PieceIsRead(piece: Piece, rest: string, token: string)
    requires IsPiece(piece, rest)
    ensures TokensFrom(Spelled(piece) + rest, token, None) ==
      if piece.Space? then Flushed(token) + TokensFrom(rest, "", None)
      else TokensFrom(rest, token + Meaning(piece), None)
  {
    var text := Spelled(piece) + rest;
    match piece {
      case Space(c) =>
        assert text[0] == c && text[1..] == rest;
      case Plain(c) =>
        assert text[0] == c && text[1..] == rest;
        assert rest != "" ==> text[1] == rest[0];
      case Escape(c) =>
        assert text[0] == '\\' && text[1] == c && text[2..] == rest;
      case Quotation(inner, quote) =>
        assert text[0] == quote && text[1..] == inner + [quote] + rest;
        QuotedIsRead(inner, quote, rest, token);
    }
  }

  lemma {:induction false} PiecesAreRead(pieces: seq<Piece>, open: Option<Piece>, token: string)
    requires IsOpen(open) && ArePieces(pieces, SpelledOpen(open))
    ensures TokensFrom(SpelledAll(pieces) + SpelledOpen(open), token, None) == MeaningAll(token, pieces, open)
    decreases |pieces|
  {
    if pieces == [] {
      assert "" + SpelledOpen(open) == SpelledOpen(open);
      EndIsRead(token, open);
    } else {
      var rest := SpelledAll(pieces[1..]) + SpelledOpen(open);
      Sequences.Assoc(Spelled(pieces[0]), SpelledAll(pieces[1..]), SpelledOpen(open));
      PieceIsRead(pieces[0], rest, token);
      PiecesAreRead(pieces[1..], open, if pieces[0].Space? then "" else token + Meaning(pieces[0]));
    }
  }

  /** The position of the character, or the end of the text. */
  lemma {:induction false} FindQuote(text: string, quote: char) returns (i: nat)
    ensures i <= |text| && quote !in text[..i] && (i < |text| ==> text[i] == quote)
  {
    if text == "" || text[0] == quote {
      i := 0;
    } else {
      var j := FindQuote(text[1..], quote);
      i := j + 1;
      assert text[..i] == [text[0]] + text[1..][..j];
    }
  }

  /** The first piece of a text and what is behind it, unless it is a quotation that is not closed. */
  lemma FirstPiece(text: string) returns (piece: Piece, rest: string, closed: bool)
    requires text != ""
    ensures closed ==> text == Spelled(piece) + rest && IsPiece(piece, rest) && |rest| < |text|
    ensures !closed ==> IsOpen(Some(piece)) && text == SpelledOpen(Some(piece))
  {
    var c := text[0];
    piece, rest, closed := Plain(c), text[1..], true;
    if IsQuote(c) {
      var i := FindQuote(text[1..], c);
      piece := Quotation(text[1..][..i], c);
      closed := i < |text| - 1;
      if closed {
        rest := text[i + 2..];
        assert text == [c] + text[1..][..i] + [text[i + 1]] + text[i + 2..];
      } else {
        assert text[1..][..i] == text[1..];
      }
    } else if c == '\\' && |text| > 1 && IsEscapable(text[1]) {
      piece, rest := Escape(text[1]), text[2..];
      assert text == [c, text[1]] + text[2..];
    } else if IsWhitespace(c) {
      piece := Space(c);
    }
  }

  /** Every text has pieces, and its tokens are what they mean. */
  lemma {:induction false} TokensAre(text: string) returns (pieces: seq<Piece>, open: Option<Piece>)
    ensures IsOpen(open) && ArePieces(pieces, SpelledOpen(open))
    ensures text == SpelledAll(pieces) + SpelledOpen(open)
    ensures Tokens(text) == MeaningAll("", pieces, open)
    decreases |text|
  {
    pieces, open := [], None;
    if text != "" {
      var first, rest, closed := FirstPiece(text);
      if closed {
        var others;
        others, open := TokensAre(rest);
        pieces := [first] + others;
        assert pieces[1..] == others;
        Sequences.Assoc(Spelled(first), SpelledAll(others), SpelledOpen(open));
      } else {
        open := Some(first);
        assert "" + SpelledOpen(open) == SpelledOpen(open);
      }
    }
    PiecesAreRead(pieces, open, "");
  }
}
