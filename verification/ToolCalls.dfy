/** Assembling tool calls from streamed fragments. */
module ToolCalls {
  import opened Prelude

  datatype ToolCall = ToolCall(callId: string, name: string, arguments: string)

  /** One entry of a `tool_calls` delta; every part may be missing. */
  datatype Fragment = Fragment(
    index: Option<nat>, id: Option<string>, name: Option<string>, arguments: Option<string>)

  type Calls = map<nat, ToolCall>

  const BLANK := ToolCall("", "", "")

  /** The call a fragment belongs to: the one it names, or the only one in flight. */
  function Target(calls: Calls, f: Fragment): Option<nat> {
    if f.index.Some? then f.index
    else if |calls| == 1 then
      OnlyKey(calls);
      var only :| only in calls && calls.Keys == {only};
      Some(only)
    else None
  }

  function CallAt(calls: Calls, i: nat): ToolCall {
    if i in calls then calls[i] else BLANK
  }

  /** A different id marks a restarted call. */
  predicate RestartsById(call: ToolCall, f: Fragment) {
    f.id.Some? && call.callId != "" && call.callId != f.id.value
  }

  /** A name on an already named call marks a restarted call. */
  predicate RestartsByName(call: ToolCall, f: Fragment) {
    f.name.Some? && call.name != ""
  }

  predicate Restarts(call: ToolCall, f: Fragment) {
    RestartsById(call, f) || RestartsByName(call, f)
  }

  function WithId(call: ToolCall, f: Fragment): ToolCall {
    if f.id.None? then call
    else if call.callId == "" then call.(callId := f.id.value)
    else if call.callId != f.id.value then ToolCall(f.id.value, "", "")
    else call
  }

  function WithName(call: ToolCall, f: Fragment): ToolCall {
    if f.name.None? then call
    else
      var base := if call.name != "" then ToolCall(call.callId, "", "") else call;
      base.(name := base.name + f.name.value)
  }

  /** The call after a fragment: id, then name, then arguments. */
  function Extended(call: ToolCall, f: Fragment): ToolCall {
    var named := WithName(WithId(call, f), f);
    if f.arguments.None? then named else named.(arguments := named.arguments + f.arguments.value)
  }

  function Applied(calls: Calls, f: Fragment): Calls {
    var target := Target(calls, f);
    if target.None? then calls else calls[target.value := Extended(CallAt(calls, target.value), f)]
  }

  function AppliedAll(calls: Calls, fragments: seq<Fragment>): Calls
    decreases |fragments|
  {
    if fragments == [] then calls else AppliedAll(Applied(calls, fragments[0]), fragments[1..])
  }

  // ----- calls do not interfere -----

  ghost predicate Indexed(fragments: seq<Fragment>) {
    forall f | f in fragments :: f.index.Some?
  }

  function Only(fragments: seq<Fragment>, i: nat): seq<Fragment> {
    if fragments == [] then []
    else (if fragments[0].index == Some(i) then [fragments[0]] else []) + Only(fragments[1..], i)
  }

  function ExtendedAll(call: ToolCall, fragments: seq<Fragment>): ToolCall
    decreases |fragments|
  {
    if fragments == [] then call else ExtendedAll(Extended(call, fragments[0]), fragments[1..])
  }

  /** With explicit indices, the call at an index is built from that index's fragments alone, and it
      exists exactly when there are any. */
  lemma {:induction false} CallsDoNotInterfere(calls: Calls, fragments: seq<Fragment>, i: nat)
    requires Indexed(fragments)
    ensures CallAt(AppliedAll(calls, fragments), i) == ExtendedAll(CallAt(calls, i), Only(fragments, i))
    ensures i in AppliedAll(calls, fragments) <==> i in calls || Only(fragments, i) != []
    decreases |fragments|
  {
    if fragments != [] {
      var f := fragments[0];
      assert f in fragments;
      CallsDoNotInterfere(Applied(calls, f), fragments[1..], i);
      if f.index == Some(i) {
        var own := Only(fragments, i);
        assert own == [f] + Only(fragments[1..], i);
        assert own[0] == f && own[1..] == Only(fragments[1..], i);
        assert CallAt(Applied(calls, f), i) == Extended(CallAt(calls, i), f);
      } else {
        assert CallAt(Applied(calls, f), i) == CallAt(calls, i);
        assert Only(fragments, i) == Only(fragments[1..], i);
      }
    }
  }

  /** A fragment without an index creates no call; it extends the only call in flight, if there is exactly one. */
  lemma UnindexedCreatesNothing(calls: Calls, f: Fragment)
    requires f.index.None?
    ensures Applied(calls, f).Keys == calls.Keys
    ensures |calls| != 1 ==> Applied(calls, f) == calls
    ensures forall i | calls.Keys == {i} :: Applied(calls, f) == map[i := Extended(calls[i], f)]
  {
    if |calls| == 1 {
      OnlyKey(calls);
    }
  }

  lemma OnlyKey(calls: Calls)
    requires |calls| == 1
    ensures exists k :: k in calls && calls.Keys == {k}
  {
    var k :| k in calls;
    assert |calls.Keys - {k}| == 0;
    assert calls.Keys == {k};
  }

  // ----- arguments are concatenated since the last restart -----

  /** The position of the last fragment that restarts the call, or 0. */
  ghost function LastRestart(call: ToolCall, fragments: seq<Fragment>): nat
    decreases |fragments|
  {
    if fragments == [] then 0
    else
      var n := |fragments| - 1;
      if Restarts(ExtendedAll(call, fragments[..n]), fragments[n]) then n else LastRestart(call, fragments[..n])
  }

  function Arguments(fragments: seq<Fragment>): string {
    if fragments == [] then "" else fragments[0].arguments.GetOr("") + Arguments(fragments[1..])
  }

  lemma {:induction false} ExtendedAllAppend(call: ToolCall, fragments: seq<Fragment>, f: Fragment)
    ensures ExtendedAll(call, fragments + [f]) == Extended(ExtendedAll(call, fragments), f)
    decreases |fragments|
  {
    if fragments == [] {
      assert fragments + [f] == [f];
    } else {
      assert (fragments + [f])[0] == fragments[0] && (fragments + [f])[1..] == fragments[1..] + [f];
      ExtendedAllAppend(Extended(call, fragments[0]), fragments[1..], f);
    }
  }

  lemma {:induction false} AppliedAllConcat(calls: Calls, a: seq<Fragment>, b: seq<Fragment>)
    ensures AppliedAll(calls, a + b) == AppliedAll(AppliedAll(calls, a), b)
    decreases |a|
  {
    if a == [] {
      assert a + b == b;
    } else {
      assert (a + b)[0] == a[0] && (a + b)[1..] == a[1..] + b;
      AppliedAllConcat(Applied(calls, a[0]), a[1..], b);
    }
  }

  lemma {:induction false} ArgumentsAppend(fragments: seq<Fragment>, f: Fragment)
    ensures Arguments(fragments + [f]) == Arguments(fragments) + f.arguments.GetOr("")
  {
    if fragments == [] {
      assert fragments + [f] == [f];
    } else {
      assert (fragments + [f])[0] == fragments[0] && (fragments + [f])[1..] == fragments[1..] + [f];
      ArgumentsAppend(fragments[1..], f);
    }
  }

  /** A restart forgets the arguments; any other fragment keeps them. */
  lemma ExtendedArguments(call: ToolCall, f: Fragment)
    ensures Extended(call, f).arguments ==
      (if Restarts(call, f) then "" else call.arguments) + f.arguments.GetOr("")
  {
  }

  /** No fragment after the last restart restarts the call. */
  lemma {:induction false} NoRestartAfterLast(call: ToolCall, fragments: seq<Fragment>, k: nat)
    requires LastRestart(call, fragments) < k < |fragments|
    ensures !Restarts(ExtendedAll(call, fragments[..k]), fragments[k])
    decreases |fragments|
  {
    var n := |fragments| - 1;
    if k < n {
      NoRestartAfterLast(call, fragments[..n], k);
      assert fragments[..n][..k] == fragments[..k];
    }
  }

  /** From a blank call, the arguments are the concatenation of the pieces since the last restart. */
  lemma {:induction false} ArgumentsSinceRestart(fragments: seq<Fragment>)
    ensures LastRestart(BLANK, fragments) <= |fragments|
    ensures ExtendedAll(BLANK, fragments).arguments == Arguments(fragments[LastRestart(BLANK, fragments)..])
    decreases |fragments|
  {
    if fragments != [] {
      var n := |fragments| - 1;
      var before, f := fragments[..n], fragments[n];
      assert fragments == before + [f];
      ExtendedAllAppend(BLANK, before, f);
      ExtendedArguments(ExtendedAll(BLANK, before), f);
      ArgumentsSinceRestart(before);
      var k := LastRestart(BLANK, fragments);
      if Restarts(ExtendedAll(BLANK, before), f) {
        assert fragments[k..] == [f];
        ArgumentsAppend([], f);
        assert [] + [f] == [f];
      } else {
        assert fragments[k..] == before[k..] + [f];
        ArgumentsAppend(before[k..], f);
      }
    }
  }

  // ----- identity and name -----

  /** The last id among the fragments, or the empty string. */
  function LastId(fragments: seq<Fragment>): string {
    if fragments == [] then ""
    else fragments[|fragments| - 1].id.GetOr(LastId(fragments[..|fragments| - 1]))
  }

  /** The last name given since the id last changed, or the empty string. */
  function LastName(fragments: seq<Fragment>): string {
    if fragments == [] then ""
    else
      var before, f := fragments[..|fragments| - 1], fragments[|fragments| - 1];
      var changed := f.id.Some? && LastId(before) != "" && f.id.value != LastId(before);
      f.name.GetOr(if changed then "" else LastName(before))
  }

  /** From a blank call: the id is the last one seen, and the name the last one seen under that id. */
  lemma {:induction false} IdentityIsLatest(fragments: seq<Fragment>)
    ensures ExtendedAll(BLANK, fragments).callId == LastId(fragments)
    ensures ExtendedAll(BLANK, fragments).name == LastName(fragments)
    decreases |fragments|
  {
    if fragments != [] {
      var before, f := fragments[..|fragments| - 1], fragments[|fragments| - 1];
      assert fragments == before + [f];
      IdentityIsLatest(before);
      ExtendedAllAppend(BLANK, before, f);
    }
  }

  /** The final call at an index: its id and name are the latest its own fragments gave, and its
      arguments are those of its own fragments since its last restart. */
  lemma FinalCall(fragments: seq<Fragment>, i: nat)
    requires Indexed(fragments)
    ensures var own, call := Only(fragments, i), CallAt(AppliedAll(map[], fragments), i);
      && call.callId == LastId(own) && call.name == LastName(own)
      && LastRestart(BLANK, own) <= |own|
      && call.arguments == Arguments(own[LastRestart(BLANK, own)..])
  {
    CallsDoNotInterfere(map[], fragments, i);
    ArgumentsSinceRestart(Only(fragments, i));
    IdentityIsLatest(Only(fragments, i));
  }
}
