/** Characters and words, as the standard string functions treat them. */
module Text {
  /** The characters with the Unicode White_Space property. */
  predicate IsWhitespace(c: char) {
    var n := c as int;
    || 0x09 <= n <= 0x0D || n == 0x20 || n == 0x85 || n == 0xA0 || n == 0x1680
    || 0x2000 <= n <= 0x200A || n == 0x2028 || n == 0x2029 || n == 0x202F || n == 0x205F || n == 0x3000
  }

  function ToLower(c: char): char {
    if 'A' <= c <= 'Z' then (c as int + 32) as char else c
  }

  /** ASCII lower case. */
  function Lowercase(s: string): string {
    seq(|s|, i requires 0 <= i < |s| => ToLower(s[i]))
  }

  function TrimStart(s: string): string {
    if s != "" && IsWhitespace(s[0]) then TrimStart(s[1..]) else s
  }

  function TrimEnd(s: string): string {
    if s != "" && IsWhitespace(s[|s| - 1]) then TrimEnd(s[..|s| - 1]) else s
  }

  function Trim(s: string): string {
    TrimEnd(TrimStart(s))
  }

  /** The words of `word + s`, where `word` is a word read so far. */
  function WordsFrom(word: string, s: string): seq<string>
    decreases |s|
  {
    var done := if word == "" then [] else [word];
    if s == "" then done
    else if IsWhitespace(s[0]) then done + WordsFrom("", s[1..])
    else WordsFrom(word + [s[0]], s[1..])
  }

  /** The maximal runs of characters other than white space. */
  function Words(s: string): seq<string> {
    WordsFrom("", s)
  }

  /** A nonempty string without white space. */
  predicate IsWord(w: string) {
    w != "" && NoWhitespace(w)
  }

  predicate NoWhitespace(w: string) {
    forall i | 0 <= i < |w| :: !IsWhitespace(w[i])
  }

  /** The words joined by single spaces. */
  function Join(words: seq<string>): string {
    if words == [] then ""
    else if |words| == 1 then words[0]
    else words[0] + " " + Join(words[1..])
  }

  lemma {:induction false} WordsFromAreWords(word: string, s: string)
    requires NoWhitespace(word)
    ensures forall w | w in WordsFrom(word, s) :: IsWord(w)
    decreases |s|
  {
    if s != "" {
      WordsFromAreWords("", s[1..]);
      if !IsWhitespace(s[0]) {
        WordsFromAreWords(word + [s[0]], s[1..]);
      }
    }
  }

  lemma {:induction false} WordsFromPrefix(word: string, w: string, s: string)
    requires NoWhitespace(w)
    ensures WordsFrom(word, w + s) == WordsFrom(word + w, s)
    decreases |w|
  {
    if w == "" {
      assert w + s == s && word + w == word;
    } else {
      assert (w + s)[0] == w[0] && (w + s)[1..] == w[1..] + s;
      WordsFromPrefix(word + [w[0]], w[1..], s);
      assert word + [w[0]] + w[1..] == word + w;
    }
  }

  /** Splitting inverts joining. */
  lemma {:induction false} WordsOfJoin(words: seq<string>)
    requires forall w | w in words :: IsWord(w)
    ensures Words(Join(words)) == words
    decreases |words|
  {
    if words != [] {
      var w := words[0];
      assert w in words;
      if |words| == 1 {
        WordsFromPrefix("", w, "");
        assert w + "" == w && "" + w == w;
        assert WordsFrom(w, "") == [w];
      } else {
        var rest := Join(words[1..]);
        WordsFromPrefix("", w, " " + rest);
        assert w + (" " + rest) == Join(words) && "" + w == w;
        assert (" " + rest)[0] == ' ' && (" " + rest)[1..] == rest;
        WordsOfJoin(words[1..]);
        assert WordsFrom(w, " " + rest) == [w] + words[1..];
      }
    }
  }

  // ----- what trimming and splitting mean -----

  /** The White_Space characters of Unicode, one by one. */
  const WHITESPACE: seq<int> := [
    9, 10, 11, 12, 13, 32, 0x85, 0xA0, 0x1680, 0x2000, 0x2001, 0x2002, 0x2003, 0x2004, 0x2005, 0x2006, 0x2007,
    0x2008, 0x2009, 0x200A, 0x2028, 0x2029, 0x202F, 0x205F, 0x3000]

  lemma WhitespaceIsListed(c: char)
    ensures IsWhitespace(c) <==> c as int in WHITESPACE
  {
    var n := c as int;
    if 0x2000 <= n <= 0x200A {
      assert WHITESPACE[9 + n - 0x2000] == n;
    } else if 9 <= n <= 13 {
      assert WHITESPACE[n - 9] == n;
    } else if IsWhitespace(c) {
      assert n == WHITESPACE[5] || n == WHITESPACE[6] || n == WHITESPACE[7] || n == WHITESPACE[8] || n == WHITESPACE[20]
        || n == WHITESPACE[21] || n == WHITESPACE[22] || n == WHITESPACE[23] || n == WHITESPACE[24];
    }
  }

  ghost predicate AllWhitespace(s: string) {
    forall i | 0 <= i < |s| :: IsWhitespace(s[i])
  }

  /** Neither begins nor ends with white space. */
  ghost predicate IsTight(s: string) {
    s != "" ==> !IsWhitespace(s[0]) && !IsWhitespace(s[|s| - 1])
  }

  lemma {:induction false} TrimStartSplits(s: string) returns (lead: string)
    ensures s == lead + TrimStart(s) && AllWhitespace(lead)
    ensures TrimStart(s) != "" ==> !IsWhitespace(TrimStart(s)[0])
  {
    if s != "" && IsWhitespace(s[0]) {
      var rest := TrimStartSplits(s[1..]);
      lead := [s[0]] + rest;
      assert s == [s[0]] + s[1..];
    } else {
      lead := "";
    }
  }

  lemma {:induction false} TrimEndSplits(s: string) returns (trail: string)
    ensures s == TrimEnd(s) + trail && AllWhitespace(trail)
    ensures TrimEnd(s) != "" ==> !IsWhitespace(TrimEnd(s)[|TrimEnd(s)| - 1])
    decreases |s|
  {
    if s != "" && IsWhitespace(s[|s| - 1]) {
      var rest := TrimEndSplits(s[..|s| - 1]);
      trail := rest + [s[|s| - 1]];
      assert s == s[..|s| - 1] + [s[|s| - 1]];
    } else {
      trail := "";
    }
  }

  lemma {:induction false} TrimStartOf(lead: string, s: string)
    requires AllWhitespace(lead) && (s != "" ==> !IsWhitespace(s[0]))
    ensures TrimStart(lead + s) == s
  {
    if lead == "" {
      assert lead + s == s;
    } else {
      assert (lead + s)[0] == lead[0] && (lead + s)[1..] == lead[1..] + s;
      TrimStartOf(lead[1..], s);
    }
  }

  lemma {:induction false} TrimEndOf(s: string, trail: string)
    requires AllWhitespace(trail) && (s != "" ==> !IsWhitespace(s[|s| - 1]))
    ensures TrimEnd(s + trail) == s
    decreases |trail|
  {
    if trail == "" {
      assert s + trail == s;
    } else {
      var all := s + trail;
      assert all[|all| - 1] == trail[|trail| - 1] && all[..|all| - 1] == s + trail[..|trail| - 1];
      TrimEndOf(s, trail[..|trail| - 1]);
    }
  }

  /** Trimming takes off exactly the white space around a text. */
  lemma TrimOf(lead: string, s: string, trail: string)
    requires AllWhitespace(lead) && AllWhitespace(trail) && IsTight(s)
    ensures Trim(lead + s + trail) == s
  {
    assert lead + s + trail == lead + (s + trail);
    if s == "" {
      assert AllWhitespace(lead + (s + trail)) && lead + (s + trail) + "" == lead + (s + trail);
      TrimStartOf(lead + (s + trail), "");
    } else {
      TrimStartOf(lead, s + trail);
      TrimEndOf(s, trail);
    }
  }

  lemma TrimSplits(s: string) returns (lead: string, trail: string)
    ensures s == lead + Trim(s) + trail && AllWhitespace(lead) && AllWhitespace(trail) && IsTight(Trim(s))
  {
    lead := TrimStartSplits(s);
    trail := TrimEndSplits(TrimStart(s));
    assert TrimStart(s) == Trim(s) + trail;
    assert Trim(s) != "" ==> Trim(s)[0] == TrimStart(s)[0];
    assert lead + (Trim(s) + trail) == lead + Trim(s) + trail;
  }

  function WithoutWhitespace(s: string): string {
    if s == "" then "" else (if IsWhitespace(s[0]) then "" else [s[0]]) + WithoutWhitespace(s[1..])
  }

  function Characters(words: seq<string>): string {
    if words == [] then "" else words[0] + Characters(words[1..])
  }

  lemma {:induction false} WordsFromKeepCharacters(word: string, s: string)
    ensures Characters(WordsFrom(word, s)) == word + WithoutWhitespace(s)
    decreases |s|
  {
    if s == "" {
      assert word != "" ==> [word][1..] == [] && Characters([word]) == word;
      assert word + "" == word;
    } else if IsWhitespace(s[0]) {
      WordsFromKeepCharacters("", s[1..]);
      var rest := WordsFrom("", s[1..]);
      assert word != "" ==> ([word] + rest)[1..] == rest;
      assert [] + rest == rest;
      assert "" + WithoutWhitespace(s[1..]) == WithoutWhitespace(s[1..]) == WithoutWhitespace(s);
    } else {
      WordsFromKeepCharacters(word + [s[0]], s[1..]);
      assert word + [s[0]] + WithoutWhitespace(s[1..]) == word + ([s[0]] + WithoutWhitespace(s[1..]));
    }
  }

  /** Splitting into words loses exactly the white space. */
  lemma WordsKeepCharacters(s: string)
    ensures Characters(Words(s)) == WithoutWhitespace(s)
    ensures forall w | w in Words(s) :: IsWord(w)
  {
    WordsFromKeepCharacters("", s);
    WordsFromAreWords("", s);
    assert "" + WithoutWhitespace(s) == WithoutWhitespace(s);
  }

  /** White space anywhere separates words. */
  lemma {:induction false} WhitespaceSeparates(word: string, a: string, c: char, b: string)
    requires IsWhitespace(c)
    ensures WordsFrom(word, a + [c] + b) == WordsFrom(word, a) + Words(b)
    decreases |a|
  {
    var all := a + [c] + b;
    if a == "" {
      assert all[0] == c && all[1..] == b;
    } else {
      assert all[0] == a[0] && all[1..] == a[1..] + [c] + b;
      if IsWhitespace(a[0]) {
        WhitespaceSeparates("", a[1..], c, b);
        var done := if word == "" then [] else [word];
        assert done + (WordsFrom("", a[1..]) + Words(b)) == done + WordsFrom("", a[1..]) + Words(b);
      } else {
        WhitespaceSeparates(word + [a[0]], a[1..], c, b);
      }
    }
  }

  /** A text without white space is one word, and white space splits a text into the words of both sides. */
  lemma WordsOfParts(a: string, c: char, b: string)
    ensures IsWord(a) ==> Words(a) == [a]
    ensures IsWhitespace(c) ==> Words(a + [c] + b) == Words(a) + Words(b)
  {
    if IsWord(a) {
      WordsFromPrefix("", a, "");
      assert a + "" == a && "" + a == a;
    }
    if IsWhitespace(c) {
      WhitespaceSeparates("", a, c, b);
    }
  }

  /** The strings are equal but for the case of ASCII letters. */
  predicate EqualFold(a: string, b: string) {
    |a| == |b| && forall i | 0 <= i < |a| :: SameLetter(a[i], b[i])
  }

  predicate SameLetter(c: char, d: char) {
    || c == d
    || ('A' <= c <= 'Z' && d as int == c as int + 32)
    || ('A' <= d <= 'Z' && c as int == d as int + 32)
  }

  /** Lower case tells strings apart exactly up to the case of ASCII letters. */
  lemma LowercaseIff(a: string, b: string)
    ensures Lowercase(a) == Lowercase(b) <==> EqualFold(a, b)
  {
    if Lowercase(a) == Lowercase(b) {
      forall i | 0 <= i < |a|
        ensures SameLetter(a[i], b[i])
      {
        assert Lowercase(a)[i] == Lowercase(b)[i];
      }
    }
  }

  /** Lower case has no capital letters and differs in nothing else. */
  lemma LowercaseIs(s: string)
    ensures EqualFold(s, Lowercase(s)) && forall c | c in Lowercase(s) :: !('A' <= c <= 'Z')
  {
  }
}
