/** The message-driven scheduler: offers of ready nodes to idle agents, and leases on acceptance. */
module Scheduler {
  import opened Prelude
  import Sequences
  import opened Ordering
  import opened TaskGraph
  import opened Leases

  datatype AgentStatus = Idle | Busy | Waiting | Offline

  datatype Agent = Agent(id: AgentId, status: AgentStatus, capacity: nat, generation: nat)

  /** An offer of a node, or any other message between agents, which the scheduler only passes on. */
  datatype Message =
    | TaskOffer(from: AgentId, to: AgentId, node: NodeId, graphVersion: nat)
    | Other(payload: string)

  datatype SchedulerMessage =
    | Tick(at: Instant)
    | Register(agent: Agent)
    | Unregister(id: AgentId)
    | Deliver(message: Message)
    | LeaseExpired(node: NodeId, generation: nat)

  datatype SchedulerError = UnknownAgent(id: AgentId) | AtCapacity | LeaseFailed(cause: LeaseError)

  type Agents = map<AgentId, Agent>

  const SCHEDULER_ID := "scheduler"

  /** Lifetime of an accepted lease, in seconds. */
  const LEASE_TTL: Instant := 10 * 60

  predicate Available(agent: Agent) {
    agent.status == Idle && agent.capacity > 0
  }

  ghost predicate Keyed(agents: Agents) {
    forall a | a in agents :: agents[a].id == a
  }

  function AvailableAmong(agents: Agents, keys: seq<AgentId>): seq<AgentId> {
    if keys == [] then []
    else (if keys[0] in agents && Available(agents[keys[0]]) then [keys[0]] else []) + AvailableAmong(agents, keys[1..])
  }

  /** The idle agents that have capacity, in key order. */
  function AvailableAgents(agents: Agents): seq<AgentId> {
    AvailableAmong(agents, SortedStrings(agents.Keys))
  }

  function FirstAvailable(agents: Agents, keys: seq<AgentId>): (r: Option<AgentId>)
    ensures r.Some? ==> r.value in keys && r.value in agents && Available(agents[r.value])
  {
    if keys == [] then None
    else if keys[0] in agents && Available(agents[keys[0]]) then Some(keys[0])
    else FirstAvailable(agents, keys[1..])
  }

  /** The first idle agent with capacity, in key order. */
  function NextAgent(agents: Agents): (r: Option<AgentId>)
    ensures r.Some? ==> r.value in agents && Available(agents[r.value])
  {
    FirstAvailable(agents, SortedStrings(agents.Keys))
  }

  function Engaged(agent: Agent): Agent
    requires agent.capacity > 0
  {
    agent.(status := Busy, capacity := agent.capacity - 1)
  }

  /** The agents after one tick with the given ready nodes. */
  function Assigned(agents: Agents, ready: seq<GraphNode>): Agents
    decreases |ready|
  {
    var first := NextAgent(agents);
    if ready == [] || first.None? then agents
    else Assigned(agents[first.value := Engaged(agents[first.value])], ready[1..])
  }

  /** The offers of one tick with the given ready nodes. */
  function Offers(agents: Agents, ready: seq<GraphNode>, version: nat): seq<Message>
    decreases |ready|
  {
    var first := NextAgent(agents);
    if ready == [] || first.None? then []
    else
      [TaskOffer(SCHEDULER_ID, agents[first.value].id, ready[0].id, version)]
      + Offers(agents[first.value := Engaged(agents[first.value])], ready[1..], version)
  }

  lemma OneOffer(agents: Agents, ready: seq<GraphNode>, version: nat, k: nat)
    requires k < |ready| && NextAgent(agents).Some?
    ensures var a := NextAgent(agents).value;
      var agents' := agents[a := Engaged(agents[a])];
      && Assigned(agents, ready[k..]) == Assigned(agents', ready[k + 1..])
      && Offers(agents, ready[k..], version) ==
         [TaskOffer(SCHEDULER_ID, agents[a].id, ready[k].id, version)] + Offers(agents', ready[k + 1..], version)
  {
    assert ready[k..][0] == ready[k] && ready[k..][1..] == ready[k + 1..];
  }

  function AfterMessage(agents: Agents, message: SchedulerMessage, graph: GraphVersion): Agents {
    match message
    case Tick(_) => Assigned(agents, ReadyNodes(graph))
    case Register(agent) => agents[agent.id := agent]
    case Unregister(id) => agents - {id}
    case Deliver(_) => agents
    case LeaseExpired(_, _) => agents
  }

  function OffersOf(agents: Agents, message: SchedulerMessage, graph: GraphVersion): seq<Message> {
    if message.Tick? then Offers(agents, ReadyNodes(graph), graph.version) else []
  }

  class Scheduler {
    var agents: Agents
    const leases: LeaseTable
    var outbox: seq<Message>

    constructor ()
      ensures agents == map[] && outbox == [] && fresh(leases) && leases.leases == map[]
    {
      agents := map[];
      leases := new LeaseTable();
      outbox := [];
    }

    method Handle(message: SchedulerMessage, graph: GraphVersion) returns (offers: seq<Message>)
      modifies this, leases
      ensures agents == AfterMessage(old(agents), message, graph)
      ensures offers == OffersOf(old(agents), message, graph)
      ensures outbox == old(outbox) + if message.Deliver? then [message.message] else []
      ensures leases.leases == old(leases.leases) - if message.LeaseExpired? then {message.node} else {}
    {
      offers := [];
      match message
      case Register(agent) =>
        agents := agents[agent.id := agent];
      case Unregister(id) =>
        agents := agents - {id};
      case Tick(_) =>
        offers := Schedule(graph);
      case Deliver(m) =>
        outbox := outbox + [m];
      case LeaseExpired(node, _) =>
        leases.leases := leases.leases - {node};
    }

    method Schedule(graph: GraphVersion) returns (offers: seq<Message>)
      modifies this`agents
      ensures agents == Assigned(old(agents), ReadyNodes(graph))
      ensures offers == Offers(old(agents), ReadyNodes(graph), graph.version)
    {
      offers := [];
      var ready := ReadyNodes(graph);
      var k := 0;
      while k < |ready|
        invariant 0 <= k <= |ready|
        invariant Assigned(old(agents), ready) == Assigned(agents, ready[k..])
        invariant Offers(old(agents), ready, graph.version) == offers + Offers(agents, ready[k..], graph.version)
      {
        var first := NextAgent(agents);
        if first.None? {
          break;
        }
        var agent := agents[first.value];
        var offer := TaskOffer(SCHEDULER_ID, agent.id, ready[k].id, graph.version);
        OneOffer(agents, ready, graph.version, k);
        Sequences.Assoc(offers, [offer], Offers(agents[first.value := Engaged(agent)], ready[k + 1..], graph.version));
        agents := agents[first.value := Engaged(agent)];
        offers := offers + [offer];
        k := k + 1;
      }
    }

    /** `leaseId` and `wallClock` stand for the generated identifier and the clock read inside the source. */
    method Accept(agent: AgentId, node: NodeId, generation: nat, now: Instant, leaseId: string, wallClock: Instant)
      returns (r: Result<Lease, SchedulerError>)
      modifies leases
      ensures agent !in agents ==> r == Err(UnknownAgent(agent))
      ensures agent in agents && agents[agent].status != Busy ==> r == Err(AtCapacity)
      ensures agent in agents && agents[agent].status == Busy ==>
        var lease := Lease(leaseId, node, agent, generation, wallClock + 600);
        r == if Grantable(old(leases.leases), lease, now) then Ok(lease) else Err(LeaseFailed(Fenced))
      ensures leases.leases == if r.Ok? then old(leases.leases)[node := r.value] else old(leases.leases)
    {
      if agent !in agents {
        return Err(UnknownAgent(agent));
      }
      if agents[agent].status != Busy {
        return Err(AtCapacity);
      }
      var lease := Lease(leaseId, node, agent, generation, wallClock + LEASE_TTL);
      var granted := leases.Acquire(lease, now);
      if granted.Err? {
        return Err(LeaseFailed(granted.error));
      }
      return Ok(lease);
    }
  }

  // ----- what one tick does -----

  lemma {:induction false} AvailableAmongIsFilter(agents: Agents, keys: seq<AgentId>)
    requires StrictlyAscending(StringLeq, keys)
    ensures forall a :: a in AvailableAmong(agents, keys) <==> a in keys && a in agents && Available(agents[a])
    ensures StrictlyAscending(StringLeq, AvailableAmong(agents, keys))
    ensures FirstAvailable(agents, keys) ==
      if AvailableAmong(agents, keys) == [] then None else Some(AvailableAmong(agents, keys)[0])
  {
    if keys != [] {
      var rest := AvailableAmong(agents, keys[1..]);
      AvailableAmongIsFilter(agents, keys[1..]);
      forall k | 0 <= k < |rest|
        ensures StringLeq(keys[0], rest[k]) && keys[0] != rest[k]
      {
        assert rest[k] in rest;
        assert rest[k] in keys[1..];
      }
    }
  }

  lemma {:induction false} SameAvailable(agents: Agents, a: AgentId, agent: Agent, keys: seq<AgentId>)
    requires a !in keys
    ensures AvailableAmong(agents[a := agent], keys) == AvailableAmong(agents, keys)
  {
    if keys != [] {
      SameAvailable(agents, a, agent, keys[1..]);
    }
  }

  lemma {:induction false} EngageFirstAmong(agents: Agents, keys: seq<AgentId>)
    requires StrictlyAscending(StringLeq, keys) && AvailableAmong(agents, keys) != []
    ensures var a := AvailableAmong(agents, keys)[0];
      a in agents && Available(agents[a]) &&
      AvailableAmong(agents[a := Engaged(agents[a])], keys) == AvailableAmong(agents, keys)[1..]
  {
    var a := AvailableAmong(agents, keys)[0];
    AvailableAmongIsFilter(agents, keys);
    assert a in AvailableAmong(agents, keys);
    if keys[0] == a {
      assert forall k | 0 <= k < |keys[1..]| :: keys[1..][k] != a;
      SameAvailable(agents, a, Engaged(agents[a]), keys[1..]);
    } else {
      EngageFirstAmong(agents, keys[1..]);
    }
  }

  /** The next agent is the first available one, and once it is engaged the others follow in order. */
  lemma NextIsFirst(agents: Agents)
    ensures NextAgent(agents).None? <==> AvailableAgents(agents) == []
    ensures NextAgent(agents).Some? ==>
      var a := NextAgent(agents).value;
      AvailableAgents(agents) == [a] + AvailableAgents(agents[a := Engaged(agents[a])])
  {
    var keys := SortedStrings(agents.Keys);
    assert StrictlyAscending(StringLeq, keys) by {
      SortedStringsListing(agents.Keys);
    }
    var all := AvailableAmong(agents, keys);
    assert NextAgent(agents) == if all == [] then None else Some(all[0]) by {
      AvailableAmongIsFilter(agents, keys);
    }
    if all != [] {
      EngageFirstAmong(agents, keys);
      var agents' := agents[all[0] := Engaged(agents[all[0]])];
      assert agents'.Keys == agents.Keys;
      assert all == [all[0]] + AvailableAgents(agents');
    }
  }

  /** `AvailableAgents` lists exactly the idle agents with capacity, each once. */
  lemma AvailableAgentsListing(agents: Agents)
    ensures forall a :: a in AvailableAgents(agents) <==>
      a in agents && agents[a].status == Idle && agents[a].capacity > 0
    ensures StrictlyAscending(StringLeq, AvailableAgents(agents))
  {
    SortedStringsListing(agents.Keys);
    AvailableAmongIsFilter(agents, SortedStrings(agents.Keys));
  }

  /** The number of offers a tick makes. */
  function OfferCount(agents: Agents, ready: seq<GraphNode>): nat {
    Min(|ready|, |AvailableAgents(agents)|)
  }

  /** A tick offers the k-th ready node to the k-th available agent, until either list is exhausted. */
  lemma {:induction false} TickPairsInOrder(agents: Agents, ready: seq<GraphNode>, version: nat)
    requires Keyed(agents)
    ensures |Offers(agents, ready, version)| == OfferCount(agents, ready)
    ensures forall k | 0 <= k < OfferCount(agents, ready) ::
      Offers(agents, ready, version)[k] == TaskOffer("scheduler", AvailableAgents(agents)[k], ready[k].id, version)
    decreases |ready|
  {
    NextIsFirst(agents);
    if ready != [] && NextAgent(agents).Some? {
      var a := NextAgent(agents).value;
      var agents' := agents[a := Engaged(agents[a])];
      TickPairsInOrder(agents', ready[1..], version);
      var rest := Offers(agents', ready[1..], version);
      forall k | 1 <= k < OfferCount(agents, ready)
        ensures rest[k - 1] == TaskOffer("scheduler", AvailableAgents(agents)[k], ready[k].id, version)
      {
        assert AvailableAgents(agents)[k] == AvailableAgents(agents')[k - 1];
      }
    }
  }

  /** The agents that a tick makes an offer to. */
  function Offered(agents: Agents, ready: seq<GraphNode>): seq<AgentId> {
    AvailableAgents(agents)[..OfferCount(agents, ready)]
  }

  lemma OfferedInTurn(agents: Agents, ready: seq<GraphNode>)
    requires ready != [] && NextAgent(agents).Some?
    ensures var a := NextAgent(agents).value;
      Offered(agents, ready) == [a] + Offered(agents[a := Engaged(agents[a])], ready[1..])
  {
    NextIsFirst(agents);
    var a := NextAgent(agents).value;
    var agents' := agents[a := Engaged(agents[a])];
    var n := OfferCount(agents, ready);
    assert AvailableAgents(agents)[..n] == [a] + AvailableAgents(agents')[..n - 1];
  }

  lemma {:induction false} TickOn(agents: Agents, ready: seq<GraphNode>, a: AgentId)
    requires a in agents && Keyed(agents)
    ensures a in Assigned(agents, ready)
    ensures a in Offered(agents, ready) ==>
      Available(agents[a]) && Assigned(agents, ready)[a] == Engaged(agents[a])
    ensures a !in Offered(agents, ready) ==> Assigned(agents, ready)[a] == agents[a]
    decreases |ready|
  {
    if ready == [] || NextAgent(agents).None? {
      NextIsFirst(agents);
    } else {
      var first := NextAgent(agents).value;
      var agents' := agents[first := Engaged(agents[first])];
      OfferedInTurn(agents, ready);
      TickOn(agents', ready[1..], a);
    }
  }

  lemma {:induction false} TickKeepsKeys(agents: Agents, ready: seq<GraphNode>)
    requires Keyed(agents)
    ensures Assigned(agents, ready).Keys == agents.Keys && Keyed(Assigned(agents, ready))
    decreases |ready|
  {
    if ready != [] && NextAgent(agents).Some? {
      var first := NextAgent(agents).value;
      TickKeepsKeys(agents[first := Engaged(agents[first])], ready[1..]);
    }
  }

  /** A tick makes busy exactly the agents it makes an offer to, at the cost of one unit of capacity, and
      leaves every other agent alone. */
  lemma TickEngagesOffered(agents: Agents, ready: seq<GraphNode>)
    requires Keyed(agents)
    ensures Assigned(agents, ready).Keys == agents.Keys && Keyed(Assigned(agents, ready))
    ensures forall a | a in agents && a in Offered(agents, ready) ::
      && agents[a].status == Idle && agents[a].capacity > 0
      && Assigned(agents, ready)[a] == Agent(a, Busy, agents[a].capacity - 1, agents[a].generation)
    ensures forall a | a in agents && a !in Offered(agents, ready) :: Assigned(agents, ready)[a] == agents[a]
  {
    TickKeepsKeys(agents, ready);
    forall a | a in agents
      ensures a in Offered(agents, ready) ==>
        Available(agents[a]) && Assigned(agents, ready)[a] == Engaged(agents[a])
      ensures a !in Offered(agents, ready) ==> Assigned(agents, ready)[a] == agents[a]
    {
      TickOn(agents, ready, a);
    }
  }

  /** A tick on a graph offers only nodes that are pending or ready and whose prerequisites all succeeded. */
  lemma TickOffersOnlyReady(agents: Agents, g: GraphVersion, at: Instant, k: nat)
    requires Keyed(agents) && WellFormed(g) && k < |OffersOf(agents, Tick(at), g)|
    ensures var offer := OffersOf(agents, Tick(at), g)[k];
      && offer.TaskOffer? && offer.graphVersion == g.version && offer.node in g.nodes
      && (g.nodes[offer.node].state == Pending || g.nodes[offer.node].state == Ready)
      && (forall e | e in g.dependencies && e.1 == offer.node :: g.nodes[e.0].state == Succeeded)
  {
    TickPairsInOrder(agents, ReadyNodes(g), g.version);
    ReadyNodesAreTheReadyOnes(g);
    var node := ReadyNodes(g)[k];
    assert node in ReadyNodes(g);
  }

  function CapacityOf(agents: Agents, keys: seq<AgentId>): nat {
    if keys == [] then 0 else (if keys[0] in agents then agents[keys[0]].capacity else 0) + CapacityOf(agents, keys[1..])
  }

  function TotalCapacity(agents: Agents): nat {
    CapacityOf(agents, SortedStrings(agents.Keys))
  }

  lemma {:induction false} CapacityAfterEngaging(agents: Agents, keys: seq<AgentId>, a: AgentId)
    requires a in agents && agents[a].capacity > 0 && StrictlyAscending(StringLeq, keys)
    ensures CapacityOf(agents[a := Engaged(agents[a])], keys) == CapacityOf(agents, keys) - if a in keys then 1 else 0
  {
    if keys != [] {
      CapacityAfterEngaging(agents, keys[1..], a);
      assert keys == [keys[0]] + keys[1..];
      if keys[0] == a {
        assert forall k | 0 <= k < |keys[1..]| :: keys[1..][k] != a;
      }
    }
  }

  /** A tick lowers the total capacity by exactly the number of offers it makes. */
  lemma {:induction false} TickSpendsCapacity(agents: Agents, ready: seq<GraphNode>, version: nat)
    ensures TotalCapacity(Assigned(agents, ready)) + |Offers(agents, ready, version)| == TotalCapacity(agents)
    decreases |ready|
  {
    var first := NextAgent(agents);
    if ready != [] && first.Some? {
      var agents' := agents[first.value := Engaged(agents[first.value])];
      assert agents'.Keys == agents.Keys;
      SortedStringsListing(agents.Keys);
      CapacityAfterEngaging(agents, SortedStrings(agents.Keys), first.value);
      TickSpendsCapacity(agents', ready[1..], version);
    }
  }

  // ----- what a run of messages does -----

  type Delivery = (SchedulerMessage, GraphVersion)

  function RunAgents(agents: Agents, run: seq<Delivery>): Agents
    decreases |run|
  {
    if run == [] then agents else RunAgents(AfterMessage(agents, run[0].0, run[0].1), run[1..])
  }

  function RunOffers(agents: Agents, run: seq<Delivery>): seq<Message>
    decreases |run|
  {
    if run == [] then []
    else OffersOf(agents, run[0].0, run[0].1) + RunOffers(AfterMessage(agents, run[0].0, run[0].1), run[1..])
  }

  function OffersTo(offers: seq<Message>, a: AgentId): nat {
    if offers == [] then 0
    else (if offers[0].TaskOffer? && offers[0].to == a then 1 else 0) + OffersTo(offers[1..], a)
  }

  function Registrations(run: seq<Delivery>, a: AgentId): nat {
    if run == [] then 0
    else (if run[0].0.Register? && run[0].0.agent.id == a then 1 else 0) + Registrations(run[1..], a)
  }

  /** The offers of a run are those of its messages in order. */
  lemma {:induction false} RunOffersAppend(agents: Agents, run: seq<Delivery>, d: Delivery)
    ensures RunOffers(agents, []) == []
    ensures RunOffers(agents, run + [d]) == RunOffers(agents, run) + OffersOf(RunAgents(agents, run), d.0, d.1)
    decreases |run|
  {
    if run == [] {
      assert run + [d] == [d] && [d][1..] == [];
    } else {
      var next := AfterMessage(agents, run[0].0, run[0].1);
      assert (run + [d])[0] == run[0] && (run + [d])[1..] == run[1..] + [d];
      RunOffersAppend(next, run[1..], d);
      Sequences.Assoc(OffersOf(agents, run[0].0, run[0].1), RunOffers(next, run[1..]), OffersOf(RunAgents(next, run[1..]), d.0, d.1));
    }
  }

  /** One when `a` could still be offered a node without registering again. */
  function Chance(agents: Agents, a: AgentId): nat {
    if a in agents && Available(agents[a]) then 1 else 0
  }

  lemma {:induction false} OffersToConcat(x: seq<Message>, y: seq<Message>, a: AgentId)
    ensures OffersTo(x + y, a) == OffersTo(x, a) + OffersTo(y, a)
  {
    if x == [] {
      assert x + y == y;
    } else {
      OffersToConcat(x[1..], y, a);
      assert (x + y)[1..] == x[1..] + y;
    }
  }

  lemma {:induction false} TickUsesChance(agents: Agents, ready: seq<GraphNode>, version: nat, a: AgentId)
    requires Keyed(agents)
    ensures OffersTo(Offers(agents, ready, version), a) + Chance(Assigned(agents, ready), a) <= Chance(agents, a)
    decreases |ready|
  {
    var first := NextAgent(agents);
    if ready != [] && first.Some? {
      var agents' := agents[first.value := Engaged(agents[first.value])];
      TickUsesChance(agents', ready[1..], version, a);
    }
  }

  lemma {:induction false} OffersNeedRegistrations(agents: Agents, run: seq<Delivery>, a: AgentId)
    requires Keyed(agents)
    ensures OffersTo(RunOffers(agents, run), a) <= Registrations(run, a) + Chance(agents, a)
    decreases |run|
  {
    if run != [] {
      var (message, graph) := run[0];
      var agents' := AfterMessage(agents, message, graph);
      if message.Tick? {
        TickUsesChance(agents, ReadyNodes(graph), graph.version, a);
        TickEngagesOffered(agents, ReadyNodes(graph));
      }
      OffersNeedRegistrations(agents', run[1..], a);
      OffersToConcat(OffersOf(agents, message, graph), RunOffers(agents', run[1..]), a);
    }
  }

  /** From an empty scheduler, an agent is offered at most as many nodes as it registered times. */
  lemma AtMostOneOfferPerRegistration(run: seq<Delivery>, a: AgentId)
    ensures OffersTo(RunOffers(map[], run), a) <= Registrations(run, a)
  {
    OffersNeedRegistrations(map[], run, a);
  }

  /** Unless it registers again, an agent that unregisters is offered nothing any more. */
  lemma UnregisteredGetsNothing(agents: Agents, graph: GraphVersion, run: seq<Delivery>, a: AgentId)
    requires Keyed(agents) && Registrations(run, a) == 0
    ensures OffersTo(RunOffers(agents, [(Unregister(a), graph)] + run), a) == 0
  {
    var all := [(Unregister(a), graph)] + run;
    var next := AfterMessage(agents, Unregister(a), graph);
    assert all[1..] == run;
    OffersNeedRegistrations(next, run, a);
    assert RunOffers(agents, all) == [] + RunOffers(next, run);
    assert [] + RunOffers(next, run) == RunOffers(next, run);
  }

  /** What the agent last registered as, unless it unregistered since. */
  function LastRegistered(run: seq<Delivery>, a: AgentId): Option<Agent>
    decreases |run|
  {
    if run == [] then None
    else
      match run[|run| - 1].0
      case Register(agent) => if agent.id == a then Some(agent) else LastRegistered(run[..|run| - 1], a)
      case Unregister(id) => if id == a then None else LastRegistered(run[..|run| - 1], a)
      case _ => LastRegistered(run[..|run| - 1], a)
  }

  lemma {:induction false} RunAgentsAppend(agents: Agents, run: seq<Delivery>, d: Delivery)
    ensures RunAgents(agents, run + [d]) == AfterMessage(RunAgents(agents, run), d.0, d.1)
    decreases |run|
  {
    if run == [] {
      assert run + [d] == [d] && [d][1..] == [];
    } else {
      assert (run + [d])[0] == run[0] && (run + [d])[1..] == run[1..] + [d];
      RunAgentsAppend(AfterMessage(agents, run[0].0, run[0].1), run[1..], d);
    }
  }

  lemma MessageKeepsKeyed(agents: Agents, d: Delivery)
    requires Keyed(agents)
    ensures Keyed(AfterMessage(agents, d.0, d.1))
  {
    if d.0.Tick? {
      TickKeepsKeys(agents, ReadyNodes(d.1));
    }
  }

  /** The registered agent as it is, or as one offer leaves it. */
  predicate IsOrWasOffered(agent: Agent, registered: Agent) {
    || agent == registered
    || (&& registered.status == Idle && registered.capacity > 0
        && agent == Agent(registered.id, Busy, registered.capacity - 1, registered.generation))
  }

  lemma MessageOn(agents: Agents, d: Delivery, a: AgentId, registered: Option<Agent>)
    requires Keyed(agents) && (a in agents <==> registered.Some?)
    requires a in agents ==> IsOrWasOffered(agents[a], registered.value)
    ensures var after := AfterMessage(agents, d.0, d.1);
      var now := match d.0
        case Register(agent) => if agent.id == a then Some(agent) else registered
        case Unregister(id) => if id == a then None else registered
        case _ => registered;
      (a in after <==> now.Some?) && (a in after ==> IsOrWasOffered(after[a], now.value))
  {
    if d.0.Tick? {
      TickEngagesOffered(agents, ReadyNodes(d.1));
    }
  }

  /** Over any run from the start, the scheduler knows exactly the agents that registered and did not
      unregister since, each as it last registered or as one offer leaves it. */
  lemma {:induction false} RunKnowsRegistered(run: seq<Delivery>, a: AgentId)
    ensures Keyed(RunAgents(map[], run))
    ensures a in RunAgents(map[], run) <==> LastRegistered(run, a).Some?
    ensures a in RunAgents(map[], run) ==> IsOrWasOffered(RunAgents(map[], run)[a], LastRegistered(run, a).value)
    decreases |run|
  {
    if run != [] {
      var before, d := run[..|run| - 1], run[|run| - 1];
      assert run == before + [d];
      RunKnowsRegistered(before, a);
      RunAgentsAppend(map[], before, d);
      MessageKeepsKeyed(RunAgents(map[], before), d);
      MessageOn(RunAgents(map[], before), d, a, LastRegistered(before, a));
    }
  }
}
