/** Matching a typed query against the command registry, and the "did you mean" suggestion. */
module CommandRanking {
  import opened Prelude
  import Sequences
  import opened Ordering
  import Text
  import EditDistance

  datatype CommandSpec = CommandSpec(name: string, aliases: seq<string>, description: string, needsRun: bool)

  /** Match quality, best first. */
  datatype Rank = Exact | Prefix | AliasPrefix | Substring | Fuzzy | Description {
    function Position(): nat {
      match this
      case Exact => 0
      case Prefix => 1
      case AliasPrefix => 2
      case Substring => 3
      case Fuzzy => 4
      case Description => 5
    }
  }

  /** `available` is false when the command needs an active session and there is none. */
  datatype CommandMatch = CommandMatch(spec: CommandSpec, rank: Rank, available: bool)

  predicate IsSubsequence(query: string, candidate: string) {
    if query == "" then true
    else if candidate == "" then false
    else if candidate[0] == query[0] then IsSubsequence(query[1..], candidate[1..])
    else IsSubsequence(query, candidate[1..])
  }

  predicate OccursAt(s: string, part: string, i: nat) {
    i + |part| <= |s| && s[i..i + |part|] == part
  }

  predicate Contains(s: string, part: string) {
    exists i | 0 <= i <= |s| :: OccursAt(s, part, i)
  }

  predicate AnyAliasStarts(aliases: seq<string>, query: string) {
    exists i :: 0 <= i < |aliases| && query <= Text.Lowercase(aliases[i])
  }

  function RankOf(spec: CommandSpec, query: string): Option<Rank> {
    if query == "" then Some(Prefix)
    else
      var query, name := Text.Lowercase(query), Text.Lowercase(spec.name);
      if name == query then Some(Exact)
      else if query <= name then Some(Prefix)
      else if AnyAliasStarts(spec.aliases, query) then Some(AliasPrefix)
      else if Contains(name, query) then Some(Substring)
      else if IsSubsequence(query, name) then Some(Fuzzy)
      else if Contains(Text.Lowercase(spec.description), query) then Some(Description)
      else None
  }

  function TrimSlashes(query: string): string {
    if query != "" && query[0] == '/' then TrimSlashes(query[1..]) else query
  }

  /** A match with its position in the registry. */
  type Entry = (nat, CommandMatch)

  function Found(registry: seq<CommandSpec>, query: string, activeRun: bool, from: nat): seq<Entry>
    requires from <= |registry|
    decreases |registry| - from
  {
    if from == |registry| then []
    else
      var spec := registry[from];
      var rank := RankOf(spec, query);
      (if rank.Some? then [(from, CommandMatch(spec, rank.value, activeRun || !spec.needsRun))] else [])
      + Found(registry, query, activeRun, from + 1)
  }

  /** By rank, then by registry position. */
  predicate EntryLeq(a: Entry, b: Entry) {
    var ra, rb := a.1.rank.Position(), b.1.rank.Position();
    ra < rb || (ra == rb && a.0 <= b.0)
  }

  /** The matching commands, best first, with their registry positions. */
  function MatchEntries(registry: seq<CommandSpec>, query: string, activeRun: bool): seq<Entry> {
    Sort(EntryLeq, Found(registry, TrimSlashes(query), activeRun, 0))
  }

  // ----- subsequences -----

  /** Positions in `candidate`, in increasing order, at which the characters of `query` occur. */
  ghost predicate Embeds(query: string, candidate: string, at: seq<nat>) {
    && |at| == |query|
    && (forall i | 0 <= i < |at| :: at[i] < |candidate| && candidate[at[i]] == query[i])
    && (forall i, j | 0 <= i < j < |at| :: at[i] < at[j])
  }

  /** Positions of a candidate's tail, as positions of the candidate. */
  function Raised(at: seq<nat>): seq<nat> {
    seq(|at|, i requires 0 <= i < |at| => at[i] + 1)
  }

  lemma EmbedsRaised(query: string, candidate: string, at: seq<nat>)
    requires candidate != "" && Embeds(query, candidate[1..], at)
    ensures Embeds(query, candidate, Raised(at))
  {
    forall i | 0 <= i < |at|
      ensures Raised(at)[i] < |candidate| && candidate[Raised(at)[i]] == query[i]
    {
      assert candidate[1..][at[i]] == query[i];
    }
  }

  lemma EmbedsWithFirst(query: string, candidate: string, at: seq<nat>)
    requires query != "" && candidate != "" && query[0] == candidate[0] && Embeds(query[1..], candidate, at)
    requires forall i | 0 <= i < |at| :: at[i] > 0
    ensures Embeds(query, candidate, [0] + at)
  {
    var longer := [0] + at;
    forall i | 0 <= i < |longer|
      ensures longer[i] < |candidate| && candidate[longer[i]] == query[i]
    {
      if i > 0 {
        assert longer[i] == at[i - 1] && query[1..][i - 1] == query[i];
      }
    }
  }

  lemma {:induction false} SubsequenceEmbeds(query: string, candidate: string) returns (at: seq<nat>)
    requires IsSubsequence(query, candidate)
    ensures Embeds(query, candidate, at)
    decreases |candidate|
  {
    if query == "" {
      at := [];
    } else if candidate[0] == query[0] {
      var rest := SubsequenceEmbeds(query[1..], candidate[1..]);
      EmbedsRaised(query[1..], candidate, rest);
      EmbedsWithFirst(query, candidate, Raised(rest));
      at := [0] + Raised(rest);
    } else {
      var rest := SubsequenceEmbeds(query, candidate[1..]);
      EmbedsRaised(query, candidate, rest);
      at := Raised(rest);
    }
  }

  /** Positions in the candidate without its first character. */
  function Shifted(at: seq<nat>): seq<nat>
    requires forall i | 0 <= i < |at| :: at[i] >= 1
  {
    seq(|at|, i requires 0 <= i < |at| => at[i] - 1)
  }

  lemma EmbedsInRest(query: string, candidate: string, at: seq<nat>)
    requires query != "" && Embeds(query, candidate, at)
    ensures candidate != ""
    ensures var skip := if candidate[0] == query[0] then 1 else 0;
      && (forall i | 0 <= i < |at[skip..]| :: at[skip..][i] >= 1)
      && Embeds(query[skip..], candidate[1..], Shifted(at[skip..]))
  {
    assert at[0] < |candidate|;
    var skip := if candidate[0] == query[0] then 1 else 0;
    var rest := at[skip..];
    forall i | 0 <= i < |rest|
      ensures rest[i] >= 1 && rest[i] < |candidate| && candidate[rest[i]] == query[skip..][i]
    {
      assert rest[i] == at[i + skip] && query[skip..][i] == query[i + skip];
      assert i + skip > 0 ==> at[0] < at[i + skip];
    }
  }

  lemma {:induction false} EmbeddingIsSubsequence(query: string, candidate: string, at: seq<nat>)
    requires Embeds(query, candidate, at)
    ensures IsSubsequence(query, candidate)
    decreases |candidate|
  {
    if query != "" {
      EmbedsInRest(query, candidate, at);
      var skip := if candidate[0] == query[0] then 1 else 0;
      EmbeddingIsSubsequence(query[skip..], candidate[1..], Shifted(at[skip..]));
    }
  }

  /** The greedy scan succeeds exactly when some increasing embedding exists. */
  lemma SubsequenceIff(query: string, candidate: string)
    ensures IsSubsequence(query, candidate) <==> exists at :: Embeds(query, candidate, at)
  {
    if IsSubsequence(query, candidate) {
      var at := SubsequenceEmbeds(query, candidate);
    }
    if at :| Embeds(query, candidate, at) {
      EmbeddingIsSubsequence(query, candidate, at);
    }
  }

  // ----- what the ranks mean -----

  /** The part occurs there, but for the case of its letters. */
  ghost predicate FoldedAt(s: string, part: string, i: nat) {
    i + |part| <= |s| && Text.EqualFold(s[i..i + |part|], part)
  }

  ghost predicate OccursFolded(s: string, part: string) {
    exists i: nat :: FoldedAt(s, part, i)
  }

  /** The letters occur at these positions, in increasing order. */
  ghost predicate EmbedsFolded(query: string, candidate: string, at: seq<nat>) {
    && |at| == |query|
    && (forall i | 0 <= i < |at| :: at[i] < |candidate| && Text.SameLetter(candidate[at[i]], query[i]))
    && (forall i, j | 0 <= i < j < |at| :: at[i] < at[j])
  }

  /** What each rank says of a command. */
  ghost predicate Fits(spec: CommandSpec, query: string, rank: Rank) {
    match rank
    case Exact => Text.EqualFold(spec.name, query)
    case Prefix => FoldedAt(spec.name, query, 0)
    case AliasPrefix => exists i :: 0 <= i < |spec.aliases| && FoldedAt(spec.aliases[i], query, 0)
    case Substring => OccursFolded(spec.name, query)
    case Fuzzy => exists at :: EmbedsFolded(query, spec.name, at)
    case Description => OccursFolded(spec.description, query)
  }

  lemma FoldedIff(s: string, part: string, i: nat)
    ensures OccursAt(Text.Lowercase(s), Text.Lowercase(part), i) <==> FoldedAt(s, part, i)
  {
    if i + |part| <= |s| {
      assert Text.Lowercase(s)[i..i + |part|] == Text.Lowercase(s[i..i + |part|]);
      Text.LowercaseIff(s[i..i + |part|], part);
    }
  }

  lemma StartsIff(s: string, part: string)
    ensures Text.Lowercase(part) <= Text.Lowercase(s) <==> FoldedAt(s, part, 0)
  {
    FoldedIff(s, part, 0);
  }

  lemma OccursFoldedIff(s: string, part: string)
    ensures Contains(Text.Lowercase(s), Text.Lowercase(part)) <==> OccursFolded(s, part)
  {
    forall i: nat
      ensures OccursAt(Text.Lowercase(s), Text.Lowercase(part), i) <==> FoldedAt(s, part, i)
    {
      FoldedIff(s, part, i);
    }
  }

  lemma AliasIff(aliases: seq<string>, query: string)
    ensures AnyAliasStarts(aliases, Text.Lowercase(query)) <==>
      exists i :: 0 <= i < |aliases| && FoldedAt(aliases[i], query, 0)
  {
    forall i | 0 <= i < |aliases|
      ensures Text.Lowercase(query) <= Text.Lowercase(aliases[i]) <==> FoldedAt(aliases[i], query, 0)
    {
      StartsIff(aliases[i], query);
    }
  }

  lemma EmbedsIff(query: string, candidate: string, at: seq<nat>)
    ensures Embeds(Text.Lowercase(query), Text.Lowercase(candidate), at) <==> EmbedsFolded(query, candidate, at)
  {
    forall c, d
      ensures Text.ToLower(c) == Text.ToLower(d) <==> Text.SameLetter(c, d)
    {
    }
  }

  lemma FuzzyIff(query: string, candidate: string)
    ensures IsSubsequence(Text.Lowercase(query), Text.Lowercase(candidate)) <==>
      exists at :: EmbedsFolded(query, candidate, at)
  {
    SubsequenceIff(Text.Lowercase(query), Text.Lowercase(candidate));
    forall at
      ensures Embeds(Text.Lowercase(query), Text.Lowercase(candidate), at) <==> EmbedsFolded(query, candidate, at)
    {
      EmbedsIff(query, candidate, at);
    }
  }

  lemma BestFits(spec: CommandSpec, query: string)
    requires query != ""
    ensures RankOf(spec, query) == BestFit(spec, query)
  {
    Text.LowercaseIff(spec.name, query);
    StartsIff(spec.name, query);
    AliasIff(spec.aliases, query);
    OccursFoldedIff(spec.name, query);
    FuzzyIff(query, spec.name);
    OccursFoldedIff(spec.description, query);
  }

  ghost function BestFit(spec: CommandSpec, query: string): Option<Rank> {
    if Fits(spec, query, Exact) then Some(Exact)
    else if Fits(spec, query, Prefix) then Some(Prefix)
    else if Fits(spec, query, AliasPrefix) then Some(AliasPrefix)
    else if Fits(spec, query, Substring) then Some(Substring)
    else if Fits(spec, query, Fuzzy) then Some(Fuzzy)
    else if Fits(spec, query, Description) then Some(Description)
    else None
  }

  /** The rank of a command is the best that fits it, and it has none exactly when none does; the empty query
      ranks every command as a prefix. */
  lemma RankIff(spec: CommandSpec, query: string, rank: Rank)
    ensures query != "" ==> (RankOf(spec, query) == Some(rank) <==>
      Fits(spec, query, rank) && forall better | Fits(spec, query, better) :: rank.Position() <= better.Position())
    ensures query != "" ==> (RankOf(spec, query) == None <==> forall any :: !Fits(spec, query, any))
    ensures query == "" ==> RankOf(spec, query) == Some(Prefix)
  {
    if query != "" {
      BestFits(spec, query);
    }
  }

  // ----- typing narrows -----

  lemma SubsequenceOfShorter(query: string, c: char, candidate: string)
    requires IsSubsequence(query + [c], candidate)
    ensures IsSubsequence(query, candidate)
  {
    var at := SubsequenceEmbeds(query + [c], candidate);
    assert Embeds(query, candidate, at[..|query|]);
    EmbeddingIsSubsequence(query, candidate, at[..|query|]);
  }

  lemma ContainsShorter(s: string, query: string, c: char)
    requires Contains(s, query + [c])
    ensures Contains(s, query)
  {
    var i :| 0 <= i <= |s| && OccursAt(s, query + [c], i);
    assert s[i..i + |query|] == s[i..i + |query| + 1][..|query|] == query;
    assert OccursAt(s, query, i);
  }

  lemma AliasStartsShorter(aliases: seq<string>, query: string, c: char)
    requires AnyAliasStarts(aliases, query + [c])
    ensures AnyAliasStarts(aliases, query)
  {
    var i :| 0 <= i < |aliases| && query + [c] <= Text.Lowercase(aliases[i]);
    assert query <= Text.Lowercase(aliases[i]);
  }

  /** A longer query ranks no better than the shorter one, unless it now is the whole name. */
  ghost predicate Narrows(before: Option<Rank>, after: Option<Rank>) {
    after.Some? ==> before.Some? && (after.value == Exact || before.value.Position() <= after.value.Position())
  }

  lemma RankNarrows(spec: CommandSpec, query: string, c: char)
    ensures Narrows(RankOf(spec, query), RankOf(spec, query + [c]))
  {
    var q, l := Text.Lowercase(query), Text.ToLower(c);
    assert Text.Lowercase(query + [c]) == q + [l];
    var name := Text.Lowercase(spec.name);
    if q + [l] <= name {
      assert q <= name;
    }
    if AnyAliasStarts(spec.aliases, q + [l]) {
      AliasStartsShorter(spec.aliases, q, l);
    }
    if Contains(name, q + [l]) {
      ContainsShorter(name, q, l);
    }
    if IsSubsequence(q + [l], name) {
      SubsequenceOfShorter(q, l, name);
    }
    if Contains(Text.Lowercase(spec.description), q + [l]) {
      ContainsShorter(Text.Lowercase(spec.description), q, l);
    }
  }

  lemma {:induction false} TrimSlashesAppend(query: string, c: char)
    ensures TrimSlashes(query) == "" ==> TrimSlashes(query + [c]) == "" || TrimSlashes(query + [c]) == [c]
    ensures TrimSlashes(query) != "" ==> TrimSlashes(query + [c]) == TrimSlashes(query) + [c]
  {
    if query == "" {
      assert query + [c] == [c];
      assert [c][1..] == "";
    } else if query[0] == '/' {
      assert (query + [c])[1..] == query[1..] + [c];
      TrimSlashesAppend(query[1..], c);
    }
  }

  /** Leading slashes are ignored. */
  lemma {:induction false} SlashesAreIgnored(slashes: string, query: string)
    requires (forall c | c in slashes :: c == '/') && (query != "" ==> query[0] != '/')
    ensures TrimSlashes(slashes + query) == query
  {
    if slashes == "" {
      assert slashes + query == query;
    } else {
      assert (slashes + query)[0] == slashes[0] && slashes[0] in slashes && (slashes + query)[1..] == slashes[1..] + query;
      assert forall c | c in slashes[1..] :: c in slashes;
      SlashesAreIgnored(slashes[1..], query);
    }
  }

  /** The same for queries as they are typed, with any number of leading slashes. */
  lemma TypedRankNarrows(spec: CommandSpec, query: string, c: char)
    ensures Narrows(RankOf(spec, TrimSlashes(query)), RankOf(spec, TrimSlashes(query + [c])))
  {
    TrimSlashesAppend(query, c);
    var q := TrimSlashes(query);
    RankNarrows(spec, q, c);
    assert q == "" ==> q + [c] == [c];
  }

  // ----- the list of matches -----

  lemma {:induction false} FoundEntries(registry: seq<CommandSpec>, query: string, activeRun: bool, from: nat)
    requires from <= |registry|
    ensures forall e | e in Found(registry, query, activeRun, from) ::
      from <= e.0 < |registry| && RankOf(registry[e.0], query).Some? &&
      e == EntryFor(registry, e.0, RankOf(registry[e.0], query).value, activeRun)
    ensures forall i | from <= i < |registry| && RankOf(registry[i], query).Some? ::
      EntryFor(registry, i, RankOf(registry[i], query).value, activeRun) in Found(registry, query, activeRun, from)
    decreases |registry| - from
  {
    if from < |registry| {
      FoundEntries(registry, query, activeRun, from + 1);
    }
  }

  lemma EntryOrder()
    ensures TotalPreorder(EntryLeq)
  {
  }

  /** The list has an entry for the i-th command of the registry. */
  ghost predicate Lists(entries: seq<Entry>, i: nat) {
    exists k :: 0 <= k < |entries| && entries[k].0 == i
  }

  function EntryFor(registry: seq<CommandSpec>, i: nat, rank: Rank, activeRun: bool): Entry
    requires i < |registry|
  {
    (i, CommandMatch(registry[i], rank, activeRun || !registry[i].needsRun))
  }

  /** The list holds exactly the entries of the ranked commands. */
  ghost predicate IsRankedList(registry: seq<CommandSpec>, query: string, activeRun: bool, entries: seq<Entry>) {
    && (forall e | e in entries ::
          e.0 < |registry| && RankOf(registry[e.0], query).Some? &&
          e == EntryFor(registry, e.0, RankOf(registry[e.0], query).value, activeRun))
    && (forall i | 0 <= i < |registry| && RankOf(registry[i], query).Some? ::
          EntryFor(registry, i, RankOf(registry[i], query).value, activeRun) in entries)
  }

  lemma FoundIsRanked(registry: seq<CommandSpec>, query: string, activeRun: bool)
    ensures IsRankedList(registry, query, activeRun, Found(registry, query, activeRun, 0))
  {
    FoundEntries(registry, query, activeRun, 0);
  }

  /** The matches are exactly the ranked commands, sorted by rank and then by registry position. */
  lemma MatchesAreTheRanked(registry: seq<CommandSpec>, query: string, activeRun: bool)
    ensures Sorted(EntryLeq, MatchEntries(registry, query, activeRun))
    ensures IsRankedList(registry, TrimSlashes(query), activeRun, MatchEntries(registry, query, activeRun))
    ensures |MatchEntries(registry, query, activeRun)| == |Found(registry, TrimSlashes(query), activeRun, 0)|
  {
    EntryOrder();
    var found := Found(registry, TrimSlashes(query), activeRun, 0);
    FoundIsRanked(registry, TrimSlashes(query), activeRun);
    SortIsSorted(EntryLeq, found);
    SameMembers(Sort(EntryLeq, found), found);
  }

  lemma FoundFrom(registry: seq<CommandSpec>, query: string, activeRun: bool, from: nat, k: nat)
    requires from <= |registry| && k < |Found(registry, query, activeRun, from)|
    ensures from <= Found(registry, query, activeRun, from)[k].0
  {
    FoundEntries(registry, query, activeRun, from);
    assert Found(registry, query, activeRun, from)[k] in Found(registry, query, activeRun, from);
  }

  lemma {:induction false} FoundInOrder(registry: seq<CommandSpec>, query: string, activeRun: bool, from: nat, i: nat, j: nat)
    requires from <= |registry| && i < j < |Found(registry, query, activeRun, from)|
    ensures Found(registry, query, activeRun, from)[i].0 < Found(registry, query, activeRun, from)[j].0
    decreases |registry| - from
  {
    var skip := if RankOf(registry[from], query).Some? then 1 else 0;
    if i < skip {
      FoundFrom(registry, query, activeRun, from + 1, j - skip);
    } else {
      FoundInOrder(registry, query, activeRun, from + 1, i - skip, j - skip);
    }
  }

  lemma FoundDistinct(registry: seq<CommandSpec>, query: string, activeRun: bool)
    ensures Sequences.Distinct(Found(registry, query, activeRun, 0))
  {
    var found := Found(registry, query, activeRun, 0);
    forall i, j | 0 <= i < j < |found|
      ensures found[i] != found[j]
    {
      FoundInOrder(registry, query, activeRun, 0, i, j);
    }
  }

  lemma SamePositionSameEntry(registry: seq<CommandSpec>, query: string, activeRun: bool, entries: seq<Entry>, i: nat, j: nat)
    requires IsRankedList(registry, query, activeRun, entries)
    requires i < |entries| && j < |entries| && entries[i].0 == entries[j].0
    ensures entries[i] == entries[j]
  {
    assert entries[i] in entries && entries[j] in entries;
  }

  /** No command is listed twice. */
  lemma EachListedOnce(registry: seq<CommandSpec>, query: string, activeRun: bool, i: nat, j: nat)
    requires i < j < |MatchEntries(registry, query, activeRun)|
    ensures MatchEntries(registry, query, activeRun)[i].0 != MatchEntries(registry, query, activeRun)[j].0
  {
    var found, entries := Found(registry, TrimSlashes(query), activeRun, 0), MatchEntries(registry, query, activeRun);
    MatchesAreTheRanked(registry, query, activeRun);
    MatchesAreFound(registry, query, activeRun);
    FoundDistinct(registry, TrimSlashes(query), activeRun);
    RearrangedDistinct(found, entries);
    if entries[i].0 == entries[j].0 {
      SamePositionSameEntry(registry, TrimSlashes(query), activeRun, entries, i, j);
    }
  }

  lemma MatchesAreFound(registry: seq<CommandSpec>, query: string, activeRun: bool)
    ensures multiset(MatchEntries(registry, query, activeRun)) == multiset(Found(registry, TrimSlashes(query), activeRun, 0))
  {
    EntryOrder();
    SortIsSorted(EntryLeq, Found(registry, TrimSlashes(query), activeRun, 0));
  }

  /** The entry is the command at its position with its rank, available unless it needs a run that there is not. */
  ghost predicate IsEntry(registry: seq<CommandSpec>, query: string, activeRun: bool, e: Entry) {
    && e.0 < |registry| && e.1.spec == registry[e.0] && RankOf(registry[e.0], query) == Some(e.1.rank)
    && (e.1.available <==> activeRun || !registry[e.0].needsRun)
  }

  /** A better rank comes first, and among equals the earlier command. */
  predicate IsBefore(a: Entry, b: Entry) {
    a.1.rank.Position() < b.1.rank.Position() || (a.1.rank == b.1.rank && a.0 < b.0)
  }

  lemma BeforeIff(a: Entry, b: Entry)
    requires EntryLeq(a, b) && a.0 != b.0
    ensures IsBefore(a, b)
  {
  }

  lemma EntriesAre(registry: seq<CommandSpec>, query: string, activeRun: bool)
    ensures forall e | e in MatchEntries(registry, query, activeRun) :: IsEntry(registry, TrimSlashes(query), activeRun, e)
  {
    MatchesAreTheRanked(registry, query, activeRun);
  }

  /** Every entry is its command, and each two are in order. */
  lemma BestComesFirst(registry: seq<CommandSpec>, query: string, activeRun: bool)
    ensures var entries := MatchEntries(registry, query, activeRun);
      && (forall e | e in entries :: IsEntry(registry, TrimSlashes(query), activeRun, e))
      && forall j, k | 0 <= j < k < |entries| :: IsBefore(entries[j], entries[k])
  {
    var entries := MatchEntries(registry, query, activeRun);
    EntriesAre(registry, query, activeRun);
    MatchesAreTheRanked(registry, query, activeRun);
    forall j, k | 0 <= j < k < |entries|
      ensures IsBefore(entries[j], entries[k])
    {
      EachListedOnce(registry, query, activeRun, j, k);
      BeforeIff(entries[j], entries[k]);
    }
  }

  lemma ListsIffRanked(registry: seq<CommandSpec>, query: string, activeRun: bool, i: nat)
    requires i < |registry|
    ensures Lists(MatchEntries(registry, query, activeRun), i) <==> RankOf(registry[i], TrimSlashes(query)).Some?
  {
    MatchesAreTheRanked(registry, query, activeRun);
    var entries, rank := MatchEntries(registry, query, activeRun), RankOf(registry[i], TrimSlashes(query));
    if k :| 0 <= k < |entries| && entries[k].0 == i {
      assert entries[k] in entries;
    }
    if rank.Some? {
      assert EntryFor(registry, i, rank.value, activeRun) in entries;
    }
  }

  /** Typing one more character never lists a command that was not listed before. */
  lemma TypingNeverAdds(registry: seq<CommandSpec>, query: string, c: char, activeRun: bool, i: nat)
    requires i < |registry| && Lists(MatchEntries(registry, query + [c], activeRun), i)
    ensures Lists(MatchEntries(registry, query, activeRun), i)
  {
    ListsIffRanked(registry, query, activeRun, i);
    ListsIffRanked(registry, query + [c], activeRun, i);
    TypedRankNarrows(registry[i], query, c);
  }

  /** The empty query lists the whole registry in its own order. */
  lemma EmptyQueryListsRegistry(registry: seq<CommandSpec>, activeRun: bool)
    ensures |MatchEntries(registry, "", activeRun)| == |registry|
    ensures forall i | 0 <= i < |registry| :: MatchEntries(registry, "", activeRun)[i].1.spec == registry[i]
  {
    EmptyFindsAll(registry, activeRun, 0);
    SortOfSorted(EntryLeq, Found(registry, "", activeRun, 0));
  }

  lemma {:induction false} EmptyFindsAll(registry: seq<CommandSpec>, activeRun: bool, from: nat)
    requires from <= |registry|
    ensures |Found(registry, "", activeRun, from)| == |registry| - from
    ensures forall i | 0 <= i < |registry| - from ::
      Found(registry, "", activeRun, from)[i] ==
      (from + i, CommandMatch(registry[from + i], Prefix, activeRun || !registry[from + i].needsRun))
    decreases |registry| - from
  {
    if from < |registry| {
      EmptyFindsAll(registry, activeRun, from + 1);
    }
  }

  // ----- the suggestion -----

  /** Edits tolerated in a mistyped name. */
  function Budget(name: string): nat {
    Max(1, Min(3, |name| / 3))
  }

  /** The first command whose name has the least distance within the budget, starting from a best so far. */
  function Nearest(registry: seq<CommandSpec>, name: string, budget: nat, from: nat, best: Option<nat>): Option<nat>
    requires from <= |registry| && (best.Some? ==> best.value < |registry|)
    decreases |registry| - from
  {
    if from == |registry| then best
    else
      var distance := EditDistance.Lev(name, registry[from].name);
      var better := distance <= budget &&
        (best.None? || distance < EditDistance.Lev(name, registry[best.value].name));
      Nearest(registry, name, budget, from + 1, if better then Some(from) else best)
  }

  /** The registry position of the suggested command. */
  function Suggestion(registry: seq<CommandSpec>, name: string): Option<nat> {
    var entries := MatchEntries(registry, name, false);
    if name == "" then None
    else if entries != [] then Some(entries[0].0)
    else Nearest(registry, Text.Lowercase(name), Budget(Text.Lowercase(name)), 0, None)
  }

  /** `best` is the first of the least distances within the budget among the first `n` commands. */
  ghost predicate IsNearest(registry: seq<CommandSpec>, name: string, budget: nat, n: nat, best: Option<nat>)
    requires n <= |registry|
  {
    match best
    case None => forall i | 0 <= i < n :: EditDistance.Lev(name, registry[i].name) > budget
    case Some(b) =>
      && b < n && EditDistance.Lev(name, registry[b].name) <= budget
      && (forall i | 0 <= i < n :: EditDistance.Lev(name, registry[b].name) <= EditDistance.Lev(name, registry[i].name))
      && (forall i | 0 <= i < b :: EditDistance.Lev(name, registry[b].name) < EditDistance.Lev(name, registry[i].name))
  }

  lemma {:induction false} NearestIsNearest(
    registry: seq<CommandSpec>, name: string, budget: nat, from: nat, best: Option<nat>)
    requires from <= |registry| && IsNearest(registry, name, budget, from, best)
    ensures IsNearest(registry, name, budget, |registry|, Nearest(registry, name, budget, from, best))
    decreases |registry| - from
  {
    if from < |registry| {
      var distance := EditDistance.Lev(name, registry[from].name);
      var better := distance <= budget &&
        (best.None? || distance < EditDistance.Lev(name, registry[best.value].name));
      NearestIsNearest(registry, name, budget, from + 1, if better then Some(from) else best);
    }
  }

  /** A third of the length, but at least one and at most three. */
  lemma BudgetIs(name: string)
    ensures Budget(name) == if |name| < 6 then 1 else if |name| < 9 then 2 else 3
  {
  }

  /** For a name that some command matches, the suggestion is the earliest command of the best rank. */
  lemma SuggestionIsBestMatch(registry: seq<CommandSpec>, name: string, i: nat)
    requires name != "" && i < |registry| && RankOf(registry[i], TrimSlashes(name)).Some?
    ensures Suggestion(registry, "") == None && Suggestion(registry, name).Some?
    ensures var best := Suggestion(registry, name).value;
      && best < |registry| && RankOf(registry[best], TrimSlashes(name)).Some?
      && var r, s := RankOf(registry[best], TrimSlashes(name)).value, RankOf(registry[i], TrimSlashes(name)).value;
      r.Position() < s.Position() || (r == s && best <= i)
  {
    var entries := MatchEntries(registry, name, false);
    BestComesFirst(registry, name, false);
    ListsIffRanked(registry, name, false, i);
    var k :| 0 <= k < |entries| && entries[k].0 == i;
    assert entries[0] in entries && entries[k] in entries;
    assert k > 0 ==> IsBefore(entries[0], entries[k]);
  }

  lemma BestMatchIsRanked(registry: seq<CommandSpec>, query: string)
    ensures var entries := MatchEntries(registry, query, false);
      entries != [] ==> entries[0].0 < |registry| && RankOf(registry[entries[0].0], TrimSlashes(query)).Some?
  {
    MatchesAreTheRanked(registry, query, false);
    var entries := MatchEntries(registry, query, false);
    assert entries != [] ==> entries[0] in entries;
  }

  /** For a name that no command matches, the suggestion is the earliest command at the least edit
      distance from it, and there is none exactly when every command is beyond the budget. */
  lemma SuggestionIsNearest(registry: seq<CommandSpec>, name: string)
    requires name != "" && forall i | 0 <= i < |registry| :: RankOf(registry[i], TrimSlashes(name)).None?
    ensures IsNearest(registry, Text.Lowercase(name), Budget(Text.Lowercase(name)), |registry|, Suggestion(registry, name))
  {
    BestMatchIsRanked(registry, name);
    NearestIsNearest(registry, Text.Lowercase(name), Budget(Text.Lowercase(name)), 0, None);
  }
}
