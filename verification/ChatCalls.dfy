/** The tool calls of a chat-completions turn, read off the entries that the stream carries for them. */
module ChatCalls {
  import opened Prelude
  import Sequences
  import opened Ordering
  import Framing
  import opened Json
  import opened ToolCalls
  import opened ProviderTypes
  import opened ChatStream
  import opened ChatTurn

  // ----- one entry -----

  function IndexOf(entry: Json): Option<nat> {
    AsU64(Get(entry, "index"))
  }

  function IdOf(entry: Json): Option<string> {
    AsStr(Get(entry, "id"))
  }

  function NameOf(entry: Json): Option<string> {
    AsStr(GetIn(Get(entry, "function"), "name"))
  }

  function ArgumentsOf(entry: Json): string {
    AsStr(GetIn(Get(entry, "function"), "arguments")).GetOr("")
  }

  // ----- the entries of one call -----

  ghost function Indices(entries: seq<Json>): set<nat> {
    set k | 0 <= k < |entries| && IndexOf(entries[k]).Some? :: IndexOf(entries[k]).value
  }

  /** An entry belongs to the call at its index; without one, to the only call there is, if there is just one. */
  ghost predicate Belongs(before: seq<Json>, entry: Json, i: nat) {
    if IndexOf(entry).Some? then IndexOf(entry).value == i else Indices(before) == {i}
  }

  ghost function Own(entries: seq<Json>, i: nat): seq<Json> {
    if entries == [] then []
    else
      var before, last := entries[..|entries| - 1], entries[|entries| - 1];
      Own(before, i) + if Belongs(before, last, i) then [last] else []
  }

  // ----- what they make up -----

  /** The last id given. */
  ghost function IdAfter(own: seq<Json>): string {
    if own == [] then "" else IdOf(own[|own| - 1]).GetOr(IdAfter(own[..|own| - 1]))
  }

  ghost predicate ChangesId(before: seq<Json>, entry: Json) {
    IdOf(entry).Some? && IdAfter(before) != "" && IdOf(entry).value != IdAfter(before)
  }

  /** The last name given under the last id. */
  ghost function NameAfter(own: seq<Json>): string {
    if own == [] then ""
    else
      var before, last := own[..|own| - 1], own[|own| - 1];
      NameOf(last).GetOr(if ChangesId(before, last) then "" else NameAfter(before))
  }

  /** Another id, or a name for a call that has one, starts the call over. */
  ghost predicate StartsOver(before: seq<Json>, entry: Json) {
    ChangesId(before, entry) || (NameOf(entry).Some? && NameAfter(before) != "")
  }

  function Joined(entries: seq<Json>): string {
    if entries == [] then "" else ArgumentsOf(entries[0]) + Joined(entries[1..])
  }

  /** The k-th entry is the last that starts the call over, or the first if none does. */
  ghost predicate StartsAt(own: seq<Json>, k: nat) {
    && k <= |own|
    && (k > 0 ==> k < |own| && StartsOver(own[..k], own[k]))
    && forall j | k < j < |own| :: !StartsOver(own[..j], own[j])
  }

  /** The call has the last id, the last name under it, and the arguments given since it was last started over. */
  ghost predicate IsMadeUpOf(call: ToolCall, own: seq<Json>) {
    && call.callId == IdAfter(own)
    && call.name == NameAfter(own)
    && exists k: nat :: StartsAt(own, k) && call.arguments == Joined(own[k..])
  }

  // ----- the parser assembles this -----

  lemma {:induction false} JoinedAppend(entries: seq<Json>, entry: Json)
    ensures Joined(entries + [entry]) == Joined(entries) + ArgumentsOf(entry)
  {
    if entries == [] {
      assert entries + [entry] == [entry] && [entry][1..] == [];
    } else {
      assert (entries + [entry])[0] == entries[0] && (entries + [entry])[1..] == entries[1..] + [entry];
      JoinedAppend(entries[1..], entry);
    }
  }

  lemma StartsAtAppend(own: seq<Json>, k: nat, entry: Json)
    requires StartsAt(own, k) && !StartsOver(own, entry)
    ensures StartsAt(own + [entry], k)
  {
    var all := own + [entry];
    assert own == [] ==> k == 0;
    assert all[..|own|] == own;
    assert forall j | 0 <= j < |own| :: all[..j] == own[..j] && all[j] == own[j];
  }

  lemma LatestGrow(own: seq<Json>, entry: Json)
    ensures IdAfter(own + [entry]) == IdOf(entry).GetOr(IdAfter(own))
    ensures NameAfter(own + [entry]) == NameOf(entry).GetOr(if ChangesId(own, entry) then "" else NameAfter(own))
  {
    var all := own + [entry];
    assert all[..|all| - 1] == own && all[|all| - 1] == entry;
  }

  lemma ExtendedIdentity(call: ToolCall, f: Fragment)
    ensures Extended(call, f).callId == f.id.GetOr(call.callId)
    ensures Extended(call, f).name == f.name.GetOr(if RestartsById(call, f) then "" else call.name)
  {
  }

  lemma IdentityGrows(call: ToolCall, own: seq<Json>, entry: Json)
    requires call.callId == IdAfter(own) && call.name == NameAfter(own)
    ensures var call' := Extended(call, FragmentOf(entry));
      call'.callId == IdAfter(own + [entry]) && call'.name == NameAfter(own + [entry])
    ensures Restarts(call, FragmentOf(entry)) <==> StartsOver(own, entry)
  {
    LatestGrow(own, entry);
    ExtendedIdentity(call, FragmentOf(entry));
  }

  lemma ArgumentsStartOver(own: seq<Json>, entry: Json)
    requires StartsOver(own, entry)
    ensures StartsAt(own + [entry], |own|) && Joined((own + [entry])[|own|..]) == ArgumentsOf(entry)
  {
    var all := own + [entry];
    assert all[..|own|] == own && all[|own|..] == [entry] && [entry] == [] + [entry];
    JoinedAppend([], entry);
  }

  lemma ArgumentsGoOn(own: seq<Json>, k: nat, entry: Json)
    requires StartsAt(own, k) && !StartsOver(own, entry)
    ensures StartsAt(own + [entry], k) && Joined((own + [entry])[k..]) == Joined(own[k..]) + ArgumentsOf(entry)
  {
    StartsAtAppend(own, k, entry);
    assert (own + [entry])[k..] == own[k..] + [entry];
    JoinedAppend(own[k..], entry);
  }

  /** One more entry. */
  lemma CallGrows(call: ToolCall, own: seq<Json>, entry: Json)
    requires IsMadeUpOf(call, own)
    ensures IsMadeUpOf(Extended(call, FragmentOf(entry)), own + [entry])
  {
    var k: nat :| StartsAt(own, k) && call.arguments == Joined(own[k..]);
    var call' := Extended(call, FragmentOf(entry));
    IdentityGrows(call, own, entry);
    assert call'.arguments == (if StartsOver(own, entry) then "" else call.arguments) + ArgumentsOf(entry) by {
      ExtendedArguments(call, FragmentOf(entry));
    }
    if StartsOver(own, entry) {
      ArgumentsStartOver(own, entry);
    } else {
      ArgumentsGoOn(own, k, entry);
    }
  }

  ghost predicate AreMadeUpOf(calls: Calls, entries: seq<Json>) {
    calls.Keys == Indices(entries) && forall i: nat :: IsMadeUpOf(CallAt(calls, i), Own(entries, i))
  }

  lemma IndicesGrow(entries: seq<Json>, entry: Json)
    ensures Indices(entries + [entry]) == Indices(entries) + if IndexOf(entry).Some? then {IndexOf(entry).value} else {}
  {
    var all := entries + [entry];
    assert all[|entries|] == entry && forall k | 0 <= k < |entries| :: all[k] == entries[k];
    forall i | i in Indices(entries)
      ensures i in Indices(all)
    {
      var k :| 0 <= k < |entries| && IndexOf(entries[k]) == Some(i);
      assert IndexOf(all[k]) == Some(i);
    }
  }

  lemma OwnGrows(entries: seq<Json>, entry: Json, i: nat)
    ensures Own(entries + [entry], i) == Own(entries, i) + if Belongs(entries, entry, i) then [entry] else []
  {
    var all := entries + [entry];
    assert all[..|all| - 1] == entries && all[|all| - 1] == entry;
  }

  lemma TargetIs(calls: Calls, entries: seq<Json>, entry: Json, i: nat)
    requires calls.Keys == Indices(entries)
    ensures Target(calls, FragmentOf(entry)) == Some(i) <==> Belongs(entries, entry, i)
  {
    if IndexOf(entry).None? {
      assert |calls| == |calls.Keys|;
      if |calls| == 1 {
        OnlyKey(calls);
      }
    }
  }

  lemma CallsGrow(calls: Calls, entries: seq<Json>, entry: Json)
    requires AreMadeUpOf(calls, entries)
    ensures AreMadeUpOf(Applied(calls, FragmentOf(entry)), entries + [entry])
  {
    var after := Applied(calls, FragmentOf(entry));
    IndicesGrow(entries, entry);
    forall i: nat
      ensures IsMadeUpOf(CallAt(after, i), Own(entries + [entry], i))
    {
      TargetIs(calls, entries, entry, i);
      OwnGrows(entries, entry, i);
      if Belongs(entries, entry, i) {
        CallGrows(CallAt(calls, i), Own(entries, i), entry);
      } else {
        assert Own(entries, i) + [] == Own(entries, i);
      }
    }
    KeysGrow(calls, entries, entry);
  }

  lemma KeysGrow(calls: Calls, entries: seq<Json>, entry: Json)
    requires calls.Keys == Indices(entries)
    ensures Applied(calls, FragmentOf(entry)).Keys == Indices(entries + [entry])
  {
    IndicesGrow(entries, entry);
    if IndexOf(entry).None? {
      UnindexedCreatesNothing(calls, FragmentOf(entry));
    }
  }

  /** The calls assembled from any entries: one at each index that an entry names, made up of those that belong to it. */
  lemma {:induction false} AssembledCallsAre(entries: seq<Json>)
    ensures AreMadeUpOf(AppliedAll(map[], FragmentsOf(entries)), entries)
  {
    if entries == [] {
      assert FragmentsOf([]) == [];
      assert StartsAt([], 0) && BLANK.arguments == Joined([][0..]);
    } else {
      var before, last := entries[..|entries| - 1], entries[|entries| - 1];
      AssembledCallsAre(before);
      CallsGrow(AppliedAll(map[], FragmentsOf(before)), before, last);
      assert entries == before + [last] && FragmentsOf(entries) == FragmentsOf(before) + [FragmentOf(last)];
      AppliedAllConcat(map[], FragmentsOf(before), [FragmentOf(last)]);
      AppliedAllOne(AppliedAll(map[], FragmentsOf(before)), FragmentOf(last));
    }
  }

  lemma AppliedAllOne(calls: Calls, f: Fragment)
    ensures AppliedAll(calls, [f]) == Applied(calls, f)
  {
    assert [f][1..] == [];
  }

  // ----- whole turns -----

  /** The entries for calls that some values carry, in order. */
  function EntriesOf(choices: seq<Json>): seq<Json> {
    if choices == [] then [] else Elements(GetIn(Get(choices[0], "delta"), "tool_calls")) + EntriesOf(choices[1..])
  }

  function EntriesIn(values: seq<Json>): seq<Json> {
    if values == [] then [] else EntriesOf(Elements(Get(values[0], "choices"))) + EntriesIn(values[1..])
  }

  lemma {:induction false} EntriesAreFragments(choices: seq<Json>)
    ensures FragmentsIn(choices) == FragmentsOf(EntriesOf(choices))
  {
    if choices != [] {
      EntriesAreFragments(choices[1..]);
      var own := Elements(Get(Delta(choices[0]), "tool_calls"));
      assert own == Elements(GetIn(Get(choices[0], "delta"), "tool_calls"));
      assert FragmentsOf(own + EntriesOf(choices[1..])) == FragmentsOf(own) + FragmentsOf(EntriesOf(choices[1..]));
    }
  }

  lemma {:induction false} EntriesOfConcat(x: seq<Json>, y: seq<Json>)
    ensures EntriesOf(x + y) == EntriesOf(x) + EntriesOf(y)
  {
    if x == [] {
      assert x + y == y;
    } else {
      assert (x + y)[0] == x[0] && (x + y)[1..] == x[1..] + y;
      EntriesOfConcat(x[1..], y);
      Sequences.Assoc(Elements(GetIn(Get(x[0], "delta"), "tool_calls")), EntriesOf(x[1..]), EntriesOf(y));
    }
  }

  lemma {:induction false} EntriesInAreOf(values: seq<Json>)
    ensures EntriesIn(values) == EntriesOf(ChoicesOf(values))
  {
    if values != [] {
      EntriesInAreOf(values[1..]);
      EntriesOfConcat(Elements(Get(values[0], "choices")), ChoicesOf(values[1..]));
    }
  }

  /** The calls of a successful turn, by ascending index: one for each index that an entry of the stream names. */
  lemma TurnCallsAre(codec: Codec, chunks: seq<seq<Byte>>)
    requires RunTurn(codec, chunks).Ok?
    ensures var entries := EntriesIn(ValuesOf(Reader(codec), TurnFrames(Framing.Concat(chunks))));
      var keys, calls := SortedNats(Indices(entries)), RunTurn(codec, chunks).value.result.toolCalls;
      && StrictlyAscending(NatLeq, keys) && (forall i :: i in keys <==> i in Indices(entries)) && |calls| == |keys|
      && forall k | 0 <= k < |keys| :: IsMadeUpOf(calls[k], Own(entries, keys[k]))
  {
    var values := ValuesOf(Reader(codec), TurnFrames(Framing.Concat(chunks)));
    var entries := EntriesIn(values);
    var calls := AppliedAll(map[], FragmentsOf(entries));
    TurnResultIsSummary(codec, chunks);
    EntriesInAreOf(values);
    EntriesAreFragments(ChoicesOf(values));
    AssembledCallsAre(entries);
    CallListByIndex(calls);
    SortedNatsListing(Indices(entries));
    forall k | 0 <= k < |SortedNats(Indices(entries))|
      ensures IsMadeUpOf(CallList(calls)[k], Own(entries, SortedNats(Indices(entries))[k]))
    {
      assert IsMadeUpOf(CallAt(calls, SortedNats(Indices(entries))[k]), Own(entries, SortedNats(Indices(entries))[k]));
    }
  }
}
