/** Release versions: parsing, printing, and the precedence of section 11 of Semantic Versioning 2.0.0. */
module Versions {
  import opened Prelude
  import opened Ordering
  import opened Text

  datatype Identifier = Numeric(n: U64) | Alphanumeric(text: string)

  /** A parsed version; a release has no pre-release identifiers. Build metadata is not kept. */
  datatype Version = Version(core: seq<U64>, pre: seq<Identifier>)

  // ----- parsing -----

  function TrimV(s: string): string {
    if s != "" && s[0] == 'v' then TrimV(s[1..]) else s
  }

  /** The part before the first `c`, and the part after it if there is one. */
  function SplitOnce(s: string, c: char): (string, Option<string>) {
    if s == "" then ("", None)
    else if s[0] == c then ("", Some(s[1..]))
    else
      var (head, tail) := SplitOnce(s[1..], c);
      ([s[0]] + head, tail)
  }

  /** All parts between occurrences of `c`; at least one. */
  function SplitOn(s: string, c: char): (parts: seq<string>)
    ensures parts != []
  {
    if s == "" then [""]
    else if s[0] == c then [""] + SplitOn(s[1..], c)
    else
      var parts := SplitOn(s[1..], c);
      [[s[0]] + parts[0]] + parts[1..]
  }

  predicate IsDigit(c: char) {
    '0' <= c <= '9'
  }

  predicate IsAlphanumeric(c: char) {
    IsDigit(c) || 'a' <= c <= 'z' || 'A' <= c <= 'Z'
  }

  predicate IsPreChar(c: char) {
    IsAlphanumeric(c) || c == '-'
  }

  /** The characters of identifiers, by their ASCII codes: digits, capital and small letters, and the hyphen. */
  lemma CharactersAre(c: char)
    ensures IsDigit(c) <==> 48 <= c as int <= 57
    ensures IsPreChar(c) <==> 48 <= c as int <= 57 || 65 <= c as int <= 90 || 97 <= c as int <= 122 || c as int == 45
  {
  }

  predicate IsPreText(p: string) {
    p != "" && forall i | 0 <= i < |p| :: IsPreChar(p[i])
  }

  predicate AllDigits(s: string) {
    forall i | 0 <= i < |s| :: IsDigit(s[i])
  }

  function DigitsValue(s: string): nat
    requires AllDigits(s)
  {
    if s == "" then 0 else 10 * DigitsValue(s[..|s| - 1]) + (s[|s| - 1] as int - '0' as int)
  }

  /** A decimal 64-bit number; the parts it is applied to contain no sign. */
  function ParseU64(s: string): Option<U64> {
    if s != "" && AllDigits(s) && DigitsValue(s) <= U64_MAX then Some(DigitsValue(s)) else None
  }

  predicate HasLeadingZero(s: string) {
    |s| > 1 && s[0] == '0'
  }

  function ParseCorePart(part: string): Option<U64> {
    if part == "" || HasLeadingZero(part) then None else ParseU64(part)
  }

  function ParsePrePart(part: string): Option<Identifier> {
    if part == "" then None
    else if AllDigits(part) then
      if HasLeadingZero(part) then None
      else
        var n := ParseU64(part);
        if n.Some? then Some(Numeric(n.value)) else None
    else if IsPreText(part) then Some(Alphanumeric(part))
    else None
  }

  /** Every part parsed, or nothing if one of them fails. */
  function ParseAll<T>(parse: string -> Option<T>, parts: seq<string>): Option<seq<T>> {
    if parts == [] then Some([])
    else
      var first, rest := parse(parts[0]), ParseAll(parse, parts[1..]);
      if first.Some? && rest.Some? then Some([first.value] + rest.value) else None
  }

  /** The error carries the trimmed text, which the message quotes. */
  function Parse(value: string): Result<Version, string> {
    ParseTrimmed(TrimV(Trim(value)))
  }

  function ParseTrimmed(value: string): Result<Version, string> {
    var (core, pre) := SplitOnce(SplitOnce(value, '+').0, '-');
    var numbers := ParseAll(ParseCorePart, SplitOn(core, '.'));
    if numbers.None? || |numbers.value| != 3 then Err(value)
    else if pre.GetOr("") == "" then Ok(Version(numbers.value, []))
    else
      var identifiers := ParseAll(ParsePrePart, SplitOn(pre.value, '.'));
      if identifiers.None? then Err(value) else Ok(Version(numbers.value, identifiers.value))
  }

  // ----- printing -----

  function Digit(n: nat): char
    requires n < 10
  {
    ('0' as int + n) as char
  }

  function Decimal(n: nat): string {
    if n < 10 then [Digit(n)] else Decimal(n / 10) + [Digit(n % 10)]
  }

  function PrintIdentifier(id: Identifier): string {
    match id
    case Numeric(n) => Decimal(n)
    case Alphanumeric(text) => text
  }

  function PrintAll<T>(print_: T -> string, xs: seq<T>): seq<string> {
    if xs == [] then [] else [print_(xs[0])] + PrintAll(print_, xs[1..])
  }

  function Dotted(parts: seq<string>): string {
    if parts == [] then ""
    else if |parts| == 1 then parts[0]
    else parts[0] + "." + Dotted(parts[1..])
  }

  function DecimalOf(n: U64): string {
    Decimal(n)
  }

  function Print(v: Version): string {
    Dotted(PrintAll(DecimalOf, v.core)) +
    if v.pre == [] then "" else "-" + Dotted(PrintAll(PrintIdentifier, v.pre))
  }

  predicate ValidIdentifier(id: Identifier) {
    match id
    case Numeric(_) => true
    case Alphanumeric(text) =>
      IsPreText(text) && !AllDigits(text)
  }

  predicate Valid(v: Version) {
    |v.core| == 3 && forall id | id in v.pre :: ValidIdentifier(id)
  }

  // ----- parsing inverts printing -----

  lemma {:induction false} DecimalRoundTrip(n: nat)
    ensures AllDigits(Decimal(n)) && DigitsValue(Decimal(n)) == n
    ensures Decimal(n) != "" && (Decimal(n)[0] == '0' ==> n == 0) && (n == 0 ==> Decimal(n) == "0")
  {
    if n >= 10 {
      DecimalRoundTrip(n / 10);
      var s := Decimal(n);
      assert s[..|s| - 1] == Decimal(n / 10);
    }
  }

  lemma CorePartRoundTrip(n: U64)
    ensures ParseCorePart(DecimalOf(n)) == Some(n)
    ensures forall i | 0 <= i < |DecimalOf(n)| :: IsDigit(DecimalOf(n)[i])
  {
    DecimalRoundTrip(n);
  }

  lemma PrePartRoundTrip(id: Identifier)
    requires ValidIdentifier(id)
    ensures ParsePrePart(PrintIdentifier(id)) == Some(id)
    ensures IsPreText(PrintIdentifier(id))
  {
    if id.Numeric? {
      DecimalRoundTrip(id.n);
    }
  }

  lemma {:induction false} SplitOnFirst(head: string, c: char, tail: string)
    requires c !in head
    ensures SplitOn(head, c) == [head]
    ensures SplitOn(head + [c] + tail, c) == [head] + SplitOn(tail, c)
  {
    if head == "" {
      assert head + [c] + tail == [c] + tail;
    } else {
      assert c !in head[1..] by {
        assert forall x | x in head[1..] :: x in head;
      }
      SplitOnFirst(head[1..], c, tail);
      var s := head + [c] + tail;
      assert s[0] == head[0] && s[1..] == head[1..] + [c] + tail;
      assert [head[0]] + head[1..] == head;
    }
  }

  lemma {:induction false} SplitDotted(parts: seq<string>)
    requires parts != [] && forall p | p in parts :: '.' !in p
    ensures SplitOn(Dotted(parts), '.') == parts
  {
    assert parts[0] in parts;
    if |parts| == 1 {
      SplitOnFirst(parts[0], '.', "");
    } else {
      SplitDotted(parts[1..]);
      SplitOnFirst(parts[0], '.', Dotted(parts[1..]));
    }
  }

  lemma {:induction false} SplitOnceFirst(head: string, c: char, tail: string)
    requires c !in head
    ensures SplitOnce(head, c) == (head, None)
    ensures SplitOnce(head + [c] + tail, c) == (head, Some(tail))
  {
    if head == "" {
      assert head + [c] + tail == [c] + tail;
    } else {
      assert c !in head[1..] by {
        assert forall x | x in head[1..] :: x in head;
      }
      SplitOnceFirst(head[1..], c, tail);
      var s := head + [c] + tail;
      assert s[0] == head[0] && s[1..] == head[1..] + [c] + tail;
      assert [head[0]] + head[1..] == head;
    }
  }

  lemma {:induction false} CoreRoundTrip(core: seq<U64>)
    ensures ParseAll(ParseCorePart, PrintAll(DecimalOf, core)) == Some(core)
    ensures |PrintAll(DecimalOf, core)| == |core|
    ensures forall p | p in PrintAll(DecimalOf, core) :: p != "" && AllDigits(p)
  {
    if core != [] {
      CorePartRoundTrip(core[0]);
      DecimalRoundTrip(core[0]);
      CoreRoundTrip(core[1..]);
      assert PrintAll(DecimalOf, core)[1..] == PrintAll(DecimalOf, core[1..]);
      assert [core[0]] + core[1..] == core;
    }
  }

  lemma {:induction false} PreRoundTrip(pre: seq<Identifier>)
    requires forall id | id in pre :: ValidIdentifier(id)
    ensures ParseAll(ParsePrePart, PrintAll(PrintIdentifier, pre)) == Some(pre)
    ensures |PrintAll(PrintIdentifier, pre)| == |pre|
    ensures forall p | p in PrintAll(PrintIdentifier, pre) :: IsPreText(p)
  {
    if pre != [] {
      assert pre[0] in pre;
      PrePartRoundTrip(pre[0]);
      PreRoundTrip(pre[1..]);
      assert PrintAll(PrintIdentifier, pre)[1..] == PrintAll(PrintIdentifier, pre[1..]);
      assert [pre[0]] + pre[1..] == pre;
    }
  }

  lemma {:induction false} DottedChars(parts: seq<string>)
    requires forall p | p in parts :: IsPreText(p)
    ensures forall c | c in Dotted(parts) :: IsPreChar(c) || c == '.'
    ensures parts != [] ==> Dotted(parts) != ""
  {
    if parts != [] {
      assert parts[0] in parts && forall p | p in parts[1..] :: p in parts;
      DottedChars(parts[1..]);
    }
  }

  lemma {:induction false} DottedDigits(parts: seq<string>)
    requires forall p | p in parts :: p != "" && AllDigits(p)
    ensures forall c | c in Dotted(parts) :: IsDigit(c) || c == '.'
    ensures parts != [] ==> Dotted(parts) != "" && IsDigit(Dotted(parts)[0])
  {
    if parts != [] {
      assert parts[0] in parts && forall p | p in parts[1..] :: p in parts;
      DottedDigits(parts[1..]);
    }
  }

  /** The characters of a printed version, of which the first is a digit. */
  lemma PrintedChars(v: Version)
    requires Valid(v)
    ensures forall c | c in Print(v) :: IsPreChar(c) || c == '.'
    ensures Print(v) != "" && IsDigit(Print(v)[0])
  {
    CoreRoundTrip(v.core);
    DottedDigits(PrintAll(DecimalOf, v.core));
    PreRoundTrip(v.pre);
    DottedChars(PrintAll(PrintIdentifier, v.pre));
  }

  /** Splitting a printed version at its first hyphen and at its dots gives back its parts. */
  lemma ParsePrinted(v: Version)
    requires Valid(v)
    ensures var (core, pre) := SplitOnce(Print(v), '-');
      && ParseAll(ParseCorePart, SplitOn(core, '.')) == Some(v.core)
      && (v.pre == [] ==> pre == None)
      && (v.pre != [] ==> pre.Some? && pre.value != "" && ParseAll(ParsePrePart, SplitOn(pre.value, '.')) == Some(v.pre))
  {
    var core, pre := PrintAll(DecimalOf, v.core), PrintAll(PrintIdentifier, v.pre);
    CoreRoundTrip(v.core);
    PreRoundTrip(v.pre);
    DottedDigits(core);
    DottedChars(pre);
    assert '-' !in Dotted(core);
    SplitOnceFirst(Dotted(core), '-', Dotted(pre));
    assert v.pre == [] ==> Print(v) == Dotted(core);
    assert v.pre != [] ==> Print(v) == Dotted(core) + ['-'] + Dotted(pre);
    assert forall p | p in core :: '.' !in p;
    SplitDotted(core);
    if v.pre != [] {
      assert forall p | p in pre :: '.' !in p;
      SplitDotted(pre);
    }
  }

  lemma TrimKeeps(s: string)
    requires s != "" && !IsWhitespace(s[0]) && !IsWhitespace(s[|s| - 1]) && s[0] != 'v'
    ensures TrimV(Trim(s)) == s
  {
  }

  lemma {:induction false} TrimEndPlus(s: string, build: string)
    ensures TrimEnd(s + "+" + build) == s + "+" + TrimEnd(build)
    decreases |build|
  {
    var all := s + "+" + build;
    if build == "" {
      assert all[|all| - 1] == '+';
    } else {
      assert all[|all| - 1] == build[|build| - 1];
      assert all[..|all| - 1] == s + "+" + build[..|build| - 1];
      TrimEndPlus(s, build[..|build| - 1]);
    }
  }

  // ----- the accepted texts -----

  /** A version in print, then possibly a bare hyphen if it is a release, then possibly build metadata. */
  predicate IsForm(text: string, v: Version, hyphen: string, build: string) {
    && text == Print(v) + hyphen + build
    && (hyphen == "" || (hyphen == "-" && v.pre == []))
    && (build == "" || build[0] == '+')
  }

  /** White space, any number of `v`s, the text, and white space again. */
  ghost predicate IsAround(s: string, lead: string, vs: string, text: string, trail: string) {
    && s == lead + (vs + text) + trail
    && AllWhitespace(lead) && AllWhitespace(trail) && IsTight(vs + text)
    && (forall c | c in vs :: c == 'v') && (text != "" ==> text[0] != 'v')
  }

  /** What is left of `s` without the white space around it and without leading `v`s. */
  ghost predicate IsStripped(s: string, text: string) {
    exists lead, vs, trail :: IsAround(s, lead, vs, text, trail)
  }

  lemma {:induction false} TrimVOf(vs: string, text: string)
    requires (forall c | c in vs :: c == 'v') && (text != "" ==> text[0] != 'v')
    ensures TrimV(vs + text) == text
  {
    if vs == "" {
      assert vs + text == text;
    } else {
      assert (vs + text)[0] == vs[0] && vs[0] in vs && (vs + text)[1..] == vs[1..] + text;
      assert forall c | c in vs[1..] :: c in vs;
      TrimVOf(vs[1..], text);
    }
  }

  lemma {:induction false} TrimVSplits(s: string) returns (vs: string)
    ensures s == vs + TrimV(s) && forall c | c in vs :: c == 'v'
    ensures TrimV(s) != "" ==> TrimV(s)[0] != 'v'
  {
    if s != "" && s[0] == 'v' {
      var rest := TrimVSplits(s[1..]);
      vs := [s[0]] + rest;
      assert s == [s[0]] + s[1..];
    } else {
      vs := "";
    }
  }

  lemma StrippedIff(s: string, text: string)
    ensures IsStripped(s, text) <==> text == TrimV(Trim(s))
  {
    if lead, vs, trail :| IsAround(s, lead, vs, text, trail) {
      TrimOf(lead, vs + text, trail);
      TrimVOf(vs, text);
    }
    if text == TrimV(Trim(s)) {
      var lead, trail := TrimSplits(s);
      var vs := TrimVSplits(Trim(s));
      assert IsAround(s, lead, vs, text, trail);
    }
  }

  /** What is left of the text without white space and leading `v`s has such a form. */
  ghost predicate Denotes(s: string, v: Version) {
    Valid(v) && exists text, hyphen, build :: IsStripped(s, text) && IsForm(text, v, hyphen, build)
  }

  /** Parsing the main part of a text, before any build metadata. */
  lemma MainPartDecides(main: string, build: string)
    requires '+' !in main && (build == "" || build[0] == '+')
    ensures SplitOnce(main + build, '+') == (main, if build == "" then None else Some(build[1..]))
  {
    if build == "" {
      SplitOnceFirst(main, '+', "");
      assert main + build == main;
    } else {
      SplitOnceFirst(main, '+', build[1..]);
      assert main + build == main + ['+'] + build[1..];
    }
  }

  lemma FormIsParsed(text: string, v: Version, hyphen: string, build: string)
    requires Valid(v) && IsForm(text, v, hyphen, build)
    ensures ParseTrimmed(text) == Ok(v)
    ensures SplitOnce(text, '+') == (Print(v) + hyphen, if build == "" then None else Some(build[1..]))
    ensures SplitOnce(Print(v) + hyphen, '-').1 == Some("") <==> hyphen == "-"
  {
    PrintedChars(v);
    MainPartDecides(Print(v) + hyphen, build);
    ParsePrinted(v);
    if hyphen == "-" {
      SplitOnceJoins(Print(v), '-');
      SplitOnceFirst(Print(v), '-', "");
      assert Print(v) + ['-'] + "" == Print(v) + hyphen;
    } else {
      assert Print(v) + hyphen == Print(v);
    }
  }

  lemma {:induction false} SplitOnceJoins(s: string, c: char)
    ensures var (head, tail) := SplitOnce(s, c);
      c !in head && s == head + if tail.Some? then [c] + tail.value else ""
  {
    if s != "" && s[0] != c {
      SplitOnceJoins(s[1..], c);
      assert s == [s[0]] + s[1..];
    }
  }

  lemma {:induction false} SplitOnJoins(s: string)
    ensures Dotted(SplitOn(s, '.')) == s
  {
    if s != "" {
      SplitOnJoins(s[1..]);
      assert s == [s[0]] + s[1..];
      var parts := SplitOn(s[1..], '.');
      if s[0] == '.' {
        assert ([""] + parts)[1..] == parts;
      } else {
        PrependToFirst(s[0], parts);
      }
    }
  }

  lemma PrependToFirst(c: char, parts: seq<string>)
    requires parts != []
    ensures Dotted([[c] + parts[0]] + parts[1..]) == [c] + Dotted(parts)
  {
    var longer := [[c] + parts[0]] + parts[1..];
    assert longer[1..] == parts[1..];
  }

  /** Digits without a leading zero are the decimal form of a number. */
  lemma {:induction false} DigitsAreDecimal(s: string) returns (n: nat)
    requires s != "" && AllDigits(s) && !HasLeadingZero(s)
    ensures s == Decimal(n)
    decreases |s|
  {
    if |s| == 1 {
      n := s[0] as int - '0' as int;
      assert s == [s[0]];
    } else {
      var init, last := s[..|s| - 1], s[|s| - 1];
      var n' := DigitsAreDecimal(init);
      DecimalRoundTrip(n');
      DecimalAppend(n', last);
      n := 10 * n' + (last as int - '0' as int);
      assert s == init + [last];
    }
  }

  lemma DecimalAppend(n: nat, c: char)
    requires n > 0 && IsDigit(c)
    ensures Decimal(10 * n + (c as int - '0' as int)) == Decimal(n) + [c]
  {
    var d := c as int - '0' as int;
    assert (10 * n + d) / 10 == n && (10 * n + d) % 10 == d;
  }

  lemma DigitsRoundTrip(s: string)
    requires s != "" && AllDigits(s) && !HasLeadingZero(s)
    ensures Decimal(DigitsValue(s)) == s
  {
    var n := DigitsAreDecimal(s);
    DecimalRoundTrip(n);
  }

  lemma CorePartPrints(part: string)
    ensures ParseCorePart(part).Some? ==> DecimalOf(ParseCorePart(part).value) == part
  {
    if ParseCorePart(part).Some? {
      DigitsRoundTrip(part);
    }
  }

  lemma PrePartPrints(part: string)
    ensures ParsePrePart(part).Some? ==> PrintIdentifier(ParsePrePart(part).value) == part
  {
    if ParsePrePart(part).Some? && AllDigits(part) {
      DigitsRoundTrip(part);
    }
  }

  lemma {:induction false} ParseAllPrints<T>(parse: string -> Option<T>, print_: T -> string, parts: seq<string>)
    requires forall part | part in parts && parse(part).Some? :: print_(parse(part).value) == part
    requires ParseAll(parse, parts).Some?
    ensures PrintAll(print_, ParseAll(parse, parts).value) == parts
    ensures |ParseAll(parse, parts).value| == |parts|
  {
    if parts != [] {
      assert parts[0] in parts && forall part | part in parts[1..] :: part in parts;
      ParseAllPrints(parse, print_, parts[1..]);
      var first, rest := parse(parts[0]).value, ParseAll(parse, parts[1..]).value;
      assert ([first] + rest)[1..] == rest;
      assert [parts[0]] + parts[1..] == parts;
    }
  }

  lemma CorePrints(core: string)
    requires ParseAll(ParseCorePart, SplitOn(core, '.')).Some?
    ensures Dotted(PrintAll(DecimalOf, ParseAll(ParseCorePart, SplitOn(core, '.')).value)) == core
  {
    SplitOnJoins(core);
    forall part | part in SplitOn(core, '.') && ParseCorePart(part).Some?
      ensures DecimalOf(ParseCorePart(part).value) == part
    {
      CorePartPrints(part);
    }
    ParseAllPrints(ParseCorePart, DecimalOf, SplitOn(core, '.'));
  }

  lemma PrePrints(pre: string)
    requires ParseAll(ParsePrePart, SplitOn(pre, '.')).Some?
    ensures Dotted(PrintAll(PrintIdentifier, ParseAll(ParsePrePart, SplitOn(pre, '.')).value)) == pre
    ensures ParseAll(ParsePrePart, SplitOn(pre, '.')).value != []
  {
    SplitOnJoins(pre);
    forall part | part in SplitOn(pre, '.') && ParsePrePart(part).Some?
      ensures PrintIdentifier(ParsePrePart(part).value) == part
    {
      PrePartPrints(part);
    }
    ParseAllPrints(ParsePrePart, PrintIdentifier, SplitOn(pre, '.'));
  }

  /** What is parsed is the printed version, followed by the bare hyphen and the build metadata that parsing ignores. */
  lemma ParsedHasForm(text: string)
    requires ParseTrimmed(text).Ok?
    ensures var (main, build) := SplitOnce(text, '+');
      IsForm(text, ParseTrimmed(text).value,
             if SplitOnce(main, '-').1 == Some("") then "-" else "",
             if build.Some? then "+" + build.value else "")
  {
    var (main, build) := SplitOnce(text, '+');
    var (core, pre) := SplitOnce(main, '-');
    SplitOnceJoins(text, '+');
    SplitOnceJoins(main, '-');
    CorePrints(core);
    if pre.GetOr("") != "" {
      PrePrints(pre.value);
    }
  }

  lemma ParsedTrimmedIsValid(text: string)
    requires ParseTrimmed(text).Ok?
    ensures Valid(ParseTrimmed(text).value)
  {
    var (core, pre) := SplitOnce(SplitOnce(text, '+').0, '-');
    if pre.GetOr("") != "" {
      ParsedPreIsValid(SplitOn(pre.value, '.'));
    }
  }

  /** The parser accepts exactly the texts that denote a version, and reads that version; an error quotes
      what is left of the others. */
  lemma ParseIff(s: string, v: Version)
    ensures Parse(s) == Ok(v) <==> Denotes(s, v)
    ensures Parse(s).Err? ==> IsStripped(s, Parse(s).error)
  {
    var text := TrimV(Trim(s));
    StrippedIff(s, text);
    if Parse(s) == Ok(v) {
      ParsedHasForm(text);
      ParsedTrimmedIsValid(text);
    }
    if Denotes(s, v) {
      var text', hyphen, build :| IsStripped(s, text') && IsForm(text', v, hyphen, build);
      StrippedIff(s, text');
      FormIsParsed(text, v, hyphen, build);
    }
  }

  // ----- where the parser departs from the standard -----

  /** Nonempty identifiers separated by dots, as section 10 of the standard requires of build metadata. */
  predicate IsBuild(build: Option<string>) {
    build.Some? ==> forall part | part in SplitOn(build.value, '.') :: IsPreText(part)
  }

  /** Digits without a leading zero. */
  predicate IsNumber(part: string) {
    part != "" && AllDigits(part) && !HasLeadingZero(part)
  }

  predicate IsCore(core: string) {
    |SplitOn(core, '.')| == 3 && forall part | part in SplitOn(core, '.') :: IsNumber(part)
  }

  predicate IsPrePart(part: string) {
    IsPreText(part) && (AllDigits(part) ==> !HasLeadingZero(part))
  }

  predicate IsPre(pre: Option<string>) {
    pre.Some? ==> forall part | part in SplitOn(pre.value, '.') :: IsPrePart(part)
  }

  function Suffix(mark: char, part: Option<string>): string {
    if part.Some? then [mark] + part.value else ""
  }

  predicate IsVersionText(text: string, core: string, pre: Option<string>, build: Option<string>) {
    text == core + Suffix('-', pre) + Suffix('+', build) && IsCore(core) && IsPre(pre) && IsBuild(build)
  }

  /** The grammar of the standard: three numbers, and possibly pre-release identifiers and build metadata. */
  ghost predicate Conforms(text: string) {
    exists core, pre, build :: IsVersionText(text, core, pre, build)
  }

  predicate AllFit(parts: seq<string>) {
    forall part | part in parts && AllDigits(part) :: DigitsValue(part) <= U64_MAX
  }

  /** The numbers in the text have 64 bits; the standard sets no limit. */
  predicate NumbersFit(text: string) {
    var (core, pre) := SplitOnce(SplitOnce(text, '+').0, '-');
    AllFit(SplitOn(core, '.')) && (pre.Some? ==> AllFit(SplitOn(pre.value, '.')))
  }

  /** The part before any build metadata ends in its first hyphen. */
  predicate EndsInBareHyphen(text: string) {
    SplitOnce(SplitOnce(text, '+').0, '-').1 == Some("")
  }

  lemma SplitAtMark(head: string, mark: char, part: Option<string>)
    requires mark !in head
    ensures SplitOnce(head + Suffix(mark, part), mark) == (head, part)
  {
    if part.Some? {
      SplitOnceFirst(head, mark, part.value);
      assert head + Suffix(mark, part) == head + [mark] + part.value;
    } else {
      SplitOnceFirst(head, mark, "");
      assert head + "" == head;
    }
  }

  lemma CoreChars(core: string)
    requires IsCore(core)
    ensures forall c | c in core :: IsDigit(c) || c == '.'
  {
    SplitOnJoins(core);
    DottedDigits(SplitOn(core, '.'));
  }

  lemma PreChars(pre: string)
    requires IsPre(Some(pre))
    ensures pre != "" && forall c | c in pre :: IsPreChar(c) || c == '.'
  {
    SplitOnJoins(pre);
    DottedChars(SplitOn(pre, '.'));
  }

  /** Splitting a conforming text gives back the parts of the grammar. */
  lemma ConformingSplits(text: string, core: string, pre: Option<string>, build: Option<string>)
    requires IsVersionText(text, core, pre, build)
    ensures SplitOnce(text, '+') == (core + Suffix('-', pre), build)
    ensures SplitOnce(core + Suffix('-', pre), '-') == (core, pre)
    ensures pre != Some("")
  {
    CoreChars(core);
    if pre.Some? {
      PreChars(pre.value);
    }
    SplitAtMark(core, '-', pre);
    SplitAtMark(core + Suffix('-', pre), '+', build);
  }

  lemma {:induction false} ParseAllIff<T>(parse: string -> Option<T>, parts: seq<string>)
    ensures ParseAll(parse, parts).Some? <==> forall part | part in parts :: parse(part).Some?
    ensures ParseAll(parse, parts).Some? ==> |ParseAll(parse, parts).value| == |parts|
  {
    if parts != [] {
      ParseAllIff(parse, parts[1..]);
      assert forall part | part in parts :: part == parts[0] || part in parts[1..];
    }
  }

  lemma CoreIff(core: string)
    ensures var numbers := ParseAll(ParseCorePart, SplitOn(core, '.'));
      numbers.Some? && |numbers.value| == 3 <==> IsCore(core) && AllFit(SplitOn(core, '.'))
  {
    ParseAllIff(ParseCorePart, SplitOn(core, '.'));
    assert forall part :: ParseCorePart(part).Some? <==> IsNumber(part) && DigitsValue(part) <= U64_MAX;
  }

  lemma PrePartIff(part: string)
    ensures ParsePrePart(part).Some? <==> IsPrePart(part) && (AllDigits(part) ==> DigitsValue(part) <= U64_MAX)
  {
  }

  lemma PreIff(pre: string)
    ensures ParseAll(ParsePrePart, SplitOn(pre, '.')).Some? <==> IsPre(Some(pre)) && AllFit(SplitOn(pre, '.'))
  {
    ParseAllIff(ParsePrePart, SplitOn(pre, '.'));
    forall part | part in SplitOn(pre, '.')
      ensures ParsePrePart(part).Some? <==> IsPrePart(part) && (AllDigits(part) ==> DigitsValue(part) <= U64_MAX)
    {
      PrePartIff(part);
    }
  }

  /** The parser accepts a text exactly when its parts, as it splits them, follow the grammar and fit;
      an empty pre-release part counts as none. */
  lemma AcceptedIffParts(text: string)
    ensures var (core, pre) := SplitOnce(SplitOnce(text, '+').0, '-');
      ParseTrimmed(text).Ok? <==>
        && IsCore(core) && AllFit(SplitOn(core, '.'))
        && (pre.GetOr("") != "" ==> IsPre(pre) && AllFit(SplitOn(pre.value, '.')))
  {
    var (core, pre) := SplitOnce(SplitOnce(text, '+').0, '-');
    CoreIff(core);
    if pre.GetOr("") != "" {
      PreIff(pre.value);
    }
  }

  lemma ConformingIsAcceptedIff(text: string, core: string, pre: Option<string>, build: Option<string>)
    requires IsVersionText(text, core, pre, build)
    ensures ParseTrimmed(text).Ok? <==> NumbersFit(text)
    ensures !EndsInBareHyphen(text) && IsBuild(SplitOnce(text, '+').1)
  {
    ConformingSplits(text, core, pre, build);
    AcceptedIffParts(text);
  }

  lemma AcceptedConforms(text: string)
    requires ParseTrimmed(text).Ok? && !EndsInBareHyphen(text) && IsBuild(SplitOnce(text, '+').1)
    ensures Conforms(text) && NumbersFit(text)
  {
    var (main, build) := SplitOnce(text, '+');
    var (core, pre) := SplitOnce(main, '-');
    SplitOnceJoins(text, '+');
    SplitOnceJoins(main, '-');
    AcceptedIffParts(text);
    assert IsVersionText(text, core, pre, build);
  }

  /** A text, once trimmed, is a version of the standard with 64-bit numbers exactly when the parser accepts
      it, it has no bare hyphen, and its build metadata is well formed: the parser checks neither of these two. */
  lemma ConformsIff(s: string, text: string)
    requires IsStripped(s, text)
    ensures Conforms(text) && NumbersFit(text) <==>
        Parse(s).Ok? && !EndsInBareHyphen(text) && IsBuild(SplitOnce(text, '+').1)
  {
    StrippedIff(s, text);
    if core, pre, build :| IsVersionText(text, core, pre, build) {
      ConformingIsAcceptedIff(text, core, pre, build);
    }
    if Parse(s).Ok? && !EndsInBareHyphen(text) && IsBuild(SplitOnce(text, '+').1) {
      AcceptedConforms(text);
    }
  }

  /** An input that is rejected: a release with too big a number. */
  lemma TooBigIsRejected(n: nat)
    requires n > U64_MAX
    ensures Conforms(Decimal(n) + ".0.0") && ParseTrimmed(Decimal(n) + ".0.0").Err?
  {
    var parts, text := [Decimal(n), "0", "0"], Decimal(n) + ".0.0";
    DecimalRoundTrip(n);
    assert parts[1..] == ["0", "0"] && parts[1..][1..] == ["0"];
    assert Dotted(["0"]) == "0" && Dotted(["0", "0"]) == "0" + "." + "0";
    assert Dotted(parts) == text;
    SplitDotted(parts);
    assert Decimal(n) in parts;
    assert text == text + Suffix('-', None) + Suffix('+', None);
    assert IsVersionText(text, text, None, None);
    ConformingSplits(text, text, None, None);
    ConformingIsAcceptedIff(text, text, None, None);
  }

  /** A version of the standard is rejected exactly when one of its numbers needs more than 64 bits. */
  lemma ConformingIsRejectedIff(s: string, text: string)
    requires IsStripped(s, text) && Conforms(text)
    ensures Parse(s).Err? <==> !NumbersFit(text)
  {
    StrippedIff(s, text);
    var core, pre, build :| IsVersionText(text, core, pre, build);
    ConformingIsAcceptedIff(text, core, pre, build);
  }

  /** A release followed by a bare hyphen is accepted, with or without build metadata, although section 9
      requires pre-release identifiers not to be empty. */
  lemma BareHyphenIsRelease(core: seq<U64>, build: string)
    requires |core| == 3 && (build == "" || build[0] == '+')
    ensures var text := Print(Version(core, [])) + "-" + build;
      ParseTrimmed(text) == Ok(Version(core, [])) && EndsInBareHyphen(text)
  {
    var v := Version(core, []);
    FormIsParsed(Print(v) + "-" + build, v, "-", build);
  }

  /** Parsing a printed version returns it unchanged. */
  lemma ParsePrintRoundTrip(v: Version)
    requires Valid(v)
    ensures Parse(Print(v)) == Ok(v)
  {
    PrintedChars(v);
    assert Print(v)[|Print(v)| - 1] in Print(v);
    TrimKeeps(Print(v));
    assert Print(v) + "" + "" == Print(v);
    FormIsParsed(Print(v), v, "", "");
  }

  lemma {:induction false} TrimStartPlus(s: string, build: string)
    requires s == "" || !IsWhitespace(s[|s| - 1])
    ensures TrimStart(s + "+" + build) == TrimStart(s) + "+" + build
    ensures TrimEnd(TrimStart(s)) == TrimStart(s)
  {
    if s != "" {
      var all := s + "+" + build;
      assert all[0] == s[0] && all[1..] == s[1..] + "+" + build;
      if IsWhitespace(s[0]) {
        TrimStartPlus(s[1..], build);
      }
    }
  }

  lemma {:induction false} TrimVPlus(s: string, build: string)
    ensures TrimV(s + "+" + build) == TrimV(s) + "+" + build
  {
    if s != "" && s[0] == 'v' {
      var all := s + "+" + build;
      assert all[0] == s[0] && all[1..] == s[1..] + "+" + build;
      TrimVPlus(s[1..], build);
    }
  }

  lemma {:induction false} SplitAtFirstPlus(s: string, build: string)
    ensures SplitOnce(s + "+" + build, '+').0 == SplitOnce(s, '+').0
  {
    if s != "" && s[0] != '+' {
      var all := s + "+" + build;
      assert all[0] == s[0] && all[1..] == s[1..] + "+" + build;
      SplitAtFirstPlus(s[1..], build);
    }
  }

  /** Build metadata, whatever it is, changes neither whether a text is accepted nor what it denotes. */
  lemma BuildIsIgnored(s: string, build: string)
    requires s == "" || !IsWhitespace(s[|s| - 1])
    ensures Parse(s + "+" + build).Ok? <==> Parse(s).Ok?
    ensures Parse(s).Ok? ==> Parse(s + "+" + build).value == Parse(s).value
  {
    TrimStartPlus(s, build);
    TrimEndPlus(TrimStart(s), build);
    TrimVPlus(TrimStart(s), TrimEnd(build));
    SplitAtFirstPlus(TrimV(TrimStart(s)), TrimEnd(build));
  }

  lemma {:induction false} ParsedPreIsValid(parts: seq<string>)
    requires ParseAll(ParsePrePart, parts).Some?
    ensures forall id | id in ParseAll(ParsePrePart, parts).value :: ValidIdentifier(id)
  {
    if parts != [] {
      ParsedPreIsValid(parts[1..]);
    }
  }

  /** Whatever parses is a valid version, so printing and parsing it again changes nothing. */
  lemma ParsedIsValid(value: string)
    requires Parse(value).Ok?
    ensures Valid(Parse(value).value)
    ensures Parse(Print(Parse(value).value)) == Parse(value)
  {
    ParsedTrimmedIsValid(TrimV(Trim(value)));
    ParsePrintRoundTrip(Parse(value).value);
  }

  // ----- comparison -----

  datatype Comparison = Less | Equal | Greater {
    function Flipped(): Comparison {
      match this
      case Less => Greater
      case Equal => Equal
      case Greater => Less
    }
  }

  function CompareInt(a: int, b: int): Comparison {
    if a < b then Less else if a == b then Equal else Greater
  }

  function CompareText(a: string, b: string): Comparison {
    if a == b then Equal else if StringLeq(a, b) then Less else Greater
  }

  function CompareU64(a: U64, b: U64): Comparison {
    CompareInt(a, b)
  }

  function CompareIdentifier(a: Identifier, b: Identifier): Comparison {
    match (a, b)
    case (Numeric(m), Numeric(n)) => CompareInt(m, n)
    case (Numeric(_), Alphanumeric(_)) => Less
    case (Alphanumeric(_), Numeric(_)) => Greater
    case (Alphanumeric(s), Alphanumeric(t)) => CompareText(s, t)
  }

  /** The first difference decides; without one, the shorter sequence comes first. */
  function CompareSeq<T>(compare: (T, T) -> Comparison, a: seq<T>, b: seq<T>): Comparison {
    if a == [] || b == [] then CompareInt(|a|, |b|)
    else if compare(a[0], b[0]) != Equal then compare(a[0], b[0])
    else CompareSeq(compare, a[1..], b[1..])
  }

  /** The loop of the source over the identifiers of both versions. */
  method ComparePre(left: seq<Identifier>, right: seq<Identifier>) returns (ordering: Comparison)
    ensures ordering == CompareSeq(CompareIdentifier, left, right)
  {
    for i := 0 to Min(|left|, |right|)
      invariant CompareSeq(CompareIdentifier, left, right) == CompareSeq(CompareIdentifier, left[i..], right[i..])
    {
      assert left[i..][1..] == left[i + 1..] && right[i..][1..] == right[i + 1..];
      ordering := CompareIdentifier(left[i], right[i]);
      if ordering != Equal {
        return;
      }
    }
    ordering := CompareInt(|left|, |right|);
  }

  function Compare(left: Version, right: Version): Comparison {
    var core := CompareSeq(CompareU64, left.core, right.core);
    if core != Equal then core
    else if left.pre == [] && right.pre == [] then Equal
    else if left.pre == [] then Greater
    else if right.pre == [] then Less
    else CompareSeq(CompareIdentifier, left.pre, right.pre)
  }

  function CompareVersions(left: string, right: string): Result<Comparison, string> {
    var l, r := Parse(left), Parse(right);
    if l.Err? then Err(l.error) else if r.Err? then Err(r.error) else Ok(Compare(l.value, r.value))
  }

  // ----- precedence as the standard states it -----

  /** Numeric identifiers rank below alphanumeric ones; each kind has its own order. */
  predicate LowerIdentifier(a: Identifier, b: Identifier) {
    match (a, b)
    case (Numeric(m), Numeric(n)) => m < n
    case (Numeric(_), Alphanumeric(_)) => true
    case (Alphanumeric(_), Numeric(_)) => false
    case (Alphanumeric(s), Alphanumeric(t)) => StringLeq(s, t) && s != t
  }

  predicate LowerNumber(a: U64, b: U64) {
    a < b
  }

  /** `a` and `b` agree up to position `k`, where `a` is lower or has run out first. */
  ghost predicate LowerAt<T(!new)>(lower: (T, T) -> bool, a: seq<T>, b: seq<T>, k: nat) {
    k < |b| && k <= |a| && a[..k] == b[..k] && (k == |a| || lower(a[k], b[k]))
  }

  /** Some difference puts `a` first. */
  ghost predicate LowerSeq<T(!new)>(lower: (T, T) -> bool, a: seq<T>, b: seq<T>) {
    exists k :: LowerAt(lower, a, b, k)
  }

  ghost predicate Precedes(a: Version, b: Version) {
    || LowerSeq(LowerNumber, a.core, b.core)
    || (a.core == b.core && a.pre != [] && (b.pre == [] || LowerSeq(LowerIdentifier, a.pre, b.pre)))
  }

  /** A comparison that decides a strict total order. */
  ghost predicate Decides<T(!new)>(compare: (T, T) -> Comparison, lower: (T, T) -> bool) {
    && (forall x, y :: compare(x, y) == Equal <==> x == y)
    && (forall x, y :: compare(x, y) == Less <==> lower(x, y))
    && (forall x, y :: compare(x, y) == Greater <==> lower(y, x))
    && (forall x, y, z | lower(x, y) && lower(y, z) :: lower(x, z))
  }

  lemma NumbersDecide()
    ensures Decides(CompareU64, LowerNumber)
  {
  }

  lemma IdentifiersDecide()
    ensures Decides(CompareIdentifier, LowerIdentifier)
  {
    StringOrder();
  }

  lemma {:induction false} CompareSeqDecides<T(!new)>(
    compare: (T, T) -> Comparison, lower: (T, T) -> bool, a: seq<T>, b: seq<T>)
    requires Decides(compare, lower)
    ensures CompareSeq(compare, a, b) == Equal <==> a == b
    ensures CompareSeq(compare, a, b) == Less <==> LowerSeq(lower, a, b)
    ensures CompareSeq(compare, b, a) == CompareSeq(compare, a, b).Flipped()
  {
    if a == [] || b == [] {
      assert a == [] && b != [] ==> LowerAt(lower, a, b, 0);
      assert b == [] ==> forall k :: !LowerAt(lower, a, b, k);
    } else {
      var x, y := a[0], b[0];
      if x == y {
        CompareSeqDecides(compare, lower, a[1..], b[1..]);
        assert a == [x] + a[1..] && b == [x] + b[1..];
        LowerTails(lower, a, b);
      } else {
        assert lower(x, y) ==> LowerAt(lower, a, b, 0);
        forall k: nat | 0 < k <= |a| && k <= |b|
          ensures a[..k] != b[..k]
        {
          assert a[..k][0] != b[..k][0];
        }
      }
    }
  }

  lemma LowerTails<T(!new)>(lower: (T, T) -> bool, a: seq<T>, b: seq<T>)
    requires a != [] && b != [] && a[0] == b[0] && !lower(a[0], b[0])
    ensures LowerSeq(lower, a, b) <==> LowerSeq(lower, a[1..], b[1..])
  {
    if k: nat :| LowerAt(lower, a, b, k) {
      assert k > 0 && a[..k][1..] == a[1..][..k - 1] && b[..k][1..] == b[1..][..k - 1];
      assert LowerAt(lower, a[1..], b[1..], k - 1);
    }
    if k: nat :| LowerAt(lower, a[1..], b[1..], k) {
      assert a[..k + 1] == [a[0]] + a[1..][..k] && b[..k + 1] == [b[0]] + b[1..][..k];
      assert LowerAt(lower, a, b, k + 1);
    }
  }

  /** The comparison is the precedence of the standard. */
  lemma CompareIsPrecedence(a: Version, b: Version)
    ensures Compare(a, b) == Less <==> Precedes(a, b)
    ensures Compare(a, b) == Greater <==> Precedes(b, a)
    ensures Compare(a, b) == Equal <==> a == b
  {
    NumbersDecide();
    IdentifiersDecide();
    CompareSeqDecides(CompareU64, LowerNumber, a.core, b.core);
    CompareSeqDecides(CompareU64, LowerNumber, b.core, a.core);
    CompareSeqDecides(CompareIdentifier, LowerIdentifier, a.pre, b.pre);
    CompareSeqDecides(CompareIdentifier, LowerIdentifier, b.pre, a.pre);
  }

  lemma {:induction false} CompareSeqTransitive<T(!new)>(
    compare: (T, T) -> Comparison, lower: (T, T) -> bool, a: seq<T>, b: seq<T>, c: seq<T>)
    requires Decides(compare, lower)
    requires CompareSeq(compare, a, b) != Greater && CompareSeq(compare, b, c) != Greater
    ensures CompareSeq(compare, a, c) != Greater
    ensures CompareSeq(compare, a, b) == Less || CompareSeq(compare, b, c) == Less ==> CompareSeq(compare, a, c) == Less
  {
    if a != [] && b != [] && c != [] && a[0] == b[0] == c[0] {
      CompareSeqTransitive(compare, lower, a[1..], b[1..], c[1..]);
    }
  }

  /** Precedence is transitive, so versions are totally ordered. */
  lemma CompareTransitive(a: Version, b: Version, c: Version)
    requires Compare(a, b) != Greater && Compare(b, c) != Greater
    ensures Compare(a, c) != Greater
  {
    NumbersDecide();
    IdentifiersDecide();
    CompareSeqDecides(CompareU64, LowerNumber, a.core, b.core);
    CompareSeqDecides(CompareU64, LowerNumber, b.core, c.core);
    CompareSeqTransitive(CompareU64, LowerNumber, a.core, b.core, c.core);
    if a.core == b.core == c.core && a.pre != [] && b.pre != [] && c.pre != [] {
      CompareSeqTransitive(CompareIdentifier, LowerIdentifier, a.pre, b.pre, c.pre);
    }
  }

  lemma AcceptedIff(s: string)
    ensures Parse(s).Ok? <==> exists v :: Denotes(s, v)
  {
    if Parse(s).Ok? {
      ParseIff(s, Parse(s).value);
    }
    if v :| Denotes(s, v) {
      ParseIff(s, v);
    }
  }

  /** An update check succeeds exactly on two texts that denote versions, with or without `v`, white
      space and build metadata. */
  lemma CompareSucceedsIff(left: string, right: string)
    ensures CompareVersions(left, right).Ok? <==> (exists v :: Denotes(left, v)) && (exists w :: Denotes(right, w))
  {
    AcceptedIff(left);
    AcceptedIff(right);
  }

  /** On such texts it compares by precedence what they denote. */
  lemma ReleasesCompareByPrecedence(left: string, right: string, v: Version, w: Version)
    requires Denotes(left, v) && Denotes(right, w)
    ensures CompareVersions(left, right).Ok?
    ensures CompareVersions(left, right).value == Less <==> Precedes(v, w)
    ensures CompareVersions(left, right).value == Greater <==> Precedes(w, v)
    ensures CompareVersions(left, right).value == Equal <==> v == w
  {
    ParseIff(left, v);
    ParseIff(right, w);
    CompareIsPrecedence(v, w);
  }
}
