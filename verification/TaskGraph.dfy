/** The versioned task graph: cycle rejection, the ready set, and progress. */
module TaskGraph {
  import opened Prelude
  import opened Sequences
  import opened Ordering

  type NodeId = string
  type AgentId = string
  type Edge = (NodeId, NodeId)

  datatype NodeState = Pending | Ready | Running | Succeeded | Failed | Blocked

  datatype GraphNode = GraphNode(id: NodeId, caption: string, state: NodeState, assignedTo: Option<AgentId>)

  datatype GraphError = DuplicateNode(id: NodeId) | UnknownNode(id: NodeId) | Cycle

  /** An edge `(p, d)` says that `p` must succeed before `d` may start. */
  datatype GraphVersion = GraphVersion(version: nat, nodes: map<NodeId, GraphNode>, dependencies: set<Edge>)

  function New(): GraphVersion {
    GraphVersion(0, map[], {})
  }

  function AddNode(g: GraphVersion, node: GraphNode): Result<GraphVersion, GraphError> {
    if node.id in g.nodes then Err(DuplicateNode(node.id))
    else Ok(g.(nodes := g.nodes[node.id := node], version := g.version + 1))
  }

  function UpdateState(g: GraphVersion, id: NodeId, state: NodeState): Result<GraphVersion, GraphError> {
    if id !in g.nodes then Err(UnknownNode(id))
    else Ok(g.(nodes := g.nodes[id := g.nodes[id].(state := state)], version := g.version + 1))
  }

  // ----- reachability -----

  /** Consecutive elements of `p` are edges. */
  ghost predicate Walk(deps: set<Edge>, p: seq<NodeId>) {
    forall k | 0 <= k < |p| - 1 :: (p[k], p[k + 1]) in deps
  }

  ghost predicate WalkBetween(deps: set<Edge>, p: seq<NodeId>, a: NodeId, b: NodeId) {
    p != [] && Walk(deps, p) && p[0] == a && p[|p| - 1] == b
  }

  ghost predicate Reaches(deps: set<Edge>, a: NodeId, b: NodeId) {
    exists p :: WalkBetween(deps, p, a, b)
  }

  ghost predicate Acyclic(deps: set<Edge>) {
    forall p | |p| >= 2 && Walk(deps, p) :: p[0] != p[|p| - 1]
  }

  lemma ReachesItself(deps: set<Edge>, a: NodeId)
    ensures Reaches(deps, a, a)
  {
    assert WalkBetween(deps, [a], a, a);
  }

  lemma ReachesFurther(deps: set<Edge>, a: NodeId, b: NodeId, c: NodeId)
    requires Reaches(deps, a, b) && (b, c) in deps
    ensures Reaches(deps, a, c)
  {
    var p :| WalkBetween(deps, p, a, b);
    assert WalkBetween(deps, p + [c], a, c);
  }

  /** A set closed under edges contains every node reachable from its members. */
  lemma {:induction false} ClosedContainsWalk(deps: set<Edge>, closed: set<NodeId>, p: seq<NodeId>)
    requires p != [] && Walk(deps, p) && p[0] in closed
    requires forall e | e in deps && e.0 in closed :: e.1 in closed
    ensures p[|p| - 1] in closed
    decreases |p|
  {
    if |p| > 1 {
      assert (p[0], p[1]) in deps;
      assert Walk(deps, p[1..]) by {
        forall k | 0 <= k < |p| - 2
          ensures (p[1..][k], p[1..][k + 1]) in deps
        {
          assert (p[k + 1], p[k + 2]) in deps;
        }
      }
      ClosedContainsWalk(deps, closed, p[1..]);
    }
  }

  function Successors(deps: set<Edge>, current: NodeId): seq<NodeId> {
    SortedStrings(set e | e in deps && e.0 == current :: e.1)
  }

  /** Every node that a search from `from` can ever put in its queue. */
  ghost function SearchSpace(deps: set<Edge>, from: NodeId): set<NodeId> {
    {from} + set e | e in deps :: e.1
  }

  /** The breadth-first search answers whether a path exists. It always ends: each round either
      marks a new node of the finite search space or shortens the queue. */
  method Reachable(deps: set<Edge>, from: NodeId, target: NodeId) returns (found: bool)
    ensures found <==> Reaches(deps, from, target)
  {
    var seen: set<NodeId> := {};
    var queue := [from];
    ghost var space := SearchSpace(deps, from);
    ReachesItself(deps, from);
    while queue != []
      invariant seen <= space && forall n | n in queue :: n in space && Reaches(deps, from, n)
      invariant from in seen || from in queue
      invariant target !in seen
      invariant forall e | e in deps && e.0 in seen :: e.1 in seen || e.1 in queue
      decreases |space - seen|, |queue|
    {
      var current := queue[0];
      ghost var before := queue;
      queue := queue[1..];
      assert forall n | n in before :: n == current || n in queue;
      if current == target {
        return true;
      }
      if current in seen {
        continue;
      }
      assert space - (seen + {current}) == (space - seen) - {current};
      seen := seen + {current};
      var next := Successors(deps, current);
      SortedStringsListing(set e | e in deps && e.0 == current :: e.1);
      forall n | n in next
        ensures n in space && Reaches(deps, from, n)
      {
        assert (current, n) in deps;
        ReachesFurther(deps, from, current, n);
      }
      queue := queue + next;
    }
    if Reaches(deps, from, target) {
      var p :| WalkBetween(deps, p, from, target);
      ClosedContainsWalk(deps, seen, p);
    }
    return false;
  }

  /** The outcome that `AddDependency` computes with the search. */
  ghost function AddDependencySpec(g: GraphVersion, prerequisite: NodeId, dependent: NodeId)
    : Result<GraphVersion, GraphError>
  {
    if prerequisite !in g.nodes then Err(UnknownNode(prerequisite))
    else if dependent !in g.nodes then Err(UnknownNode(dependent))
    else if prerequisite == dependent || Reaches(g.dependencies, dependent, prerequisite) then Err(Cycle)
    else Ok(g.(dependencies := g.dependencies + {(prerequisite, dependent)}, version := g.version + 1))
  }

  method AddDependency(g: GraphVersion, prerequisite: NodeId, dependent: NodeId)
    returns (r: Result<GraphVersion, GraphError>)
    ensures r == AddDependencySpec(g, prerequisite, dependent)
  {
    if prerequisite !in g.nodes {
      return Err(UnknownNode(prerequisite));
    }
    if dependent !in g.nodes {
      return Err(UnknownNode(dependent));
    }
    var closesCycle := prerequisite == dependent;
    if !closesCycle {
      closesCycle := Reachable(g.dependencies, dependent, prerequisite);
    }
    if closesCycle {
      return Err(Cycle);
    }
    r := Ok(g.(dependencies := g.dependencies + {(prerequisite, dependent)}, version := g.version + 1));
  }

  // ----- cycle rejection is exact -----

  /** A walk that uses the new edge can be cut to one that does not. */
  lemma {:induction false} WalkWithoutNewEdge(deps: set<Edge>, p: NodeId, d: NodeId, w: seq<NodeId>)
    requires WalkBetween(deps + {(p, d)}, w, d, p)
    ensures Reaches(deps, d, p)
    decreases |w|
  {
    if k :| 0 <= k < |w| - 1 && (w[k], w[k + 1]) !in deps {
      assert (w[k], w[k + 1]) in deps + {(p, d)};
      assert WalkBetween(deps + {(p, d)}, w[..k + 1], d, p);
      WalkWithoutNewEdge(deps, p, d, w[..k + 1]);
    } else {
      assert WalkBetween(deps, w, d, p);
    }
  }

  /** An edge that closes no path keeps the graph acyclic, and any other edge breaks it. */
  lemma EdgeKeepsAcyclic(deps: set<Edge>, p: NodeId, d: NodeId)
    requires Acyclic(deps)
    ensures Acyclic(deps + {(p, d)}) <==> p != d && !Reaches(deps, d, p)
  {
    var more := deps + {(p, d)};
    if p == d {
      assert Walk(more, [p, p]);
    } else if Reaches(deps, d, p) {
      var w :| WalkBetween(deps, w, d, p);
      var c := [p] + w;
      assert Walk(more, c) by {
        forall k | 0 <= k < |c| - 1
          ensures (c[k], c[k + 1]) in more
        {
          assert k > 0 ==> (w[k - 1], w[k]) in deps;
        }
      }
      assert c[0] == c[|c| - 1];
    } else {
      forall c | |c| >= 2 && Walk(more, c)
        ensures c[0] != c[|c| - 1]
      {
        if c[0] == c[|c| - 1] {
          CycleUsesNewEdge(deps, p, d, c);
        }
      }
    }
  }

  /** The cycle `c`, entered behind its k-th edge. */
  function Rotated(c: seq<NodeId>, k: nat): seq<NodeId>
    requires k + 1 < |c|
  {
    c[k + 1..] + c[1..k + 1]
  }

  lemma RotatedIsWalk(deps: set<Edge>, c: seq<NodeId>, k: nat)
    requires k + 1 < |c| && Walk(deps, c) && c[0] == c[|c| - 1]
    ensures WalkBetween(deps, Rotated(c, k), c[k + 1], c[k])
  {
    var w := Rotated(c, k);
    forall i | 0 <= i < |w| - 1
      ensures (w[i], w[i + 1]) in deps
    {
      var j := if i < |c| - k - 2 then k + 1 + i else i - (|c| - k - 2);
      assert w[i] == c[j] && w[i + 1] == c[j + 1];
    }
  }

  lemma CycleUsesNewEdge(deps: set<Edge>, p: NodeId, d: NodeId, c: seq<NodeId>)
    requires Acyclic(deps) && |c| >= 2 && Walk(deps + {(p, d)}, c) && c[0] == c[|c| - 1]
    ensures Reaches(deps, d, p)
  {
    var more := deps + {(p, d)};
    if k :| 0 <= k < |c| - 1 && (c[k], c[k + 1]) !in deps {
      assert (c[k], c[k + 1]) in more;
      RotatedIsWalk(more, c, k);
      WalkWithoutNewEdge(deps, p, d, Rotated(c, k));
    } else {
      assert Walk(deps, c);
      assert false;
    }
  }

  /** Every edge joins two nodes of the graph, node keys are node ids, and there is no cycle. */
  ghost predicate WellFormed(g: GraphVersion) {
    && (forall id | id in g.nodes :: g.nodes[id].id == id)
    && (forall e | e in g.dependencies :: e.0 in g.nodes && e.1 in g.nodes)
    && Acyclic(g.dependencies)
  }

  /** `AddDependency` succeeds exactly on existing endpoints whose edge keeps the graph acyclic. */
  lemma AddDependencySucceedsIff(g: GraphVersion, p: NodeId, d: NodeId)
    requires WellFormed(g)
    ensures AddDependencySpec(g, p, d) == Err(UnknownNode(p)) <==> p !in g.nodes
    ensures p in g.nodes ==> (AddDependencySpec(g, p, d) == Err(UnknownNode(d)) <==> d !in g.nodes)
    ensures AddDependencySpec(g, p, d).Ok? ==>
      AddDependencySpec(g, p, d).value == GraphVersion(g.version + 1, g.nodes, g.dependencies + {(p, d)})
    ensures AddDependencySpec(g, p, d).Ok? <==>
      p in g.nodes && d in g.nodes && Acyclic(g.dependencies + {(p, d)})
    ensures AddDependencySpec(g, p, d) == Err(Cycle) <==>
      p in g.nodes && d in g.nodes && !Acyclic(g.dependencies + {(p, d)})
  {
    EdgeKeepsAcyclic(g.dependencies, p, d);
  }

  // ----- runs -----

  datatype Op = OpAddNode(node: GraphNode) | OpAddDependency(p: NodeId, d: NodeId) | OpUpdate(id: NodeId, state: NodeState)

  ghost function Attempt(g: GraphVersion, op: Op): Result<GraphVersion, GraphError> {
    match op
    case OpAddNode(node) => AddNode(g, node)
    case OpAddDependency(p, d) => AddDependencySpec(g, p, d)
    case OpUpdate(id, state) => UpdateState(g, id, state)
  }

  /** A failed operation leaves the caller with the version it had. */
  ghost function Step(g: GraphVersion, op: Op): GraphVersion {
    match Attempt(g, op)
    case Ok(next) => next
    case Err(_) => g
  }

  ghost function Run(g: GraphVersion, ops: seq<Op>): GraphVersion
    decreases |ops|
  {
    if ops == [] then g else Run(Step(g, ops[0]), ops[1..])
  }

  ghost function Successes(g: GraphVersion, ops: seq<Op>): nat
    decreases |ops|
  {
    if ops == [] then 0 else (if Attempt(g, ops[0]).Ok? then 1 else 0) + Successes(Step(g, ops[0]), ops[1..])
  }

  lemma StepKeepsWellFormed(g: GraphVersion, op: Op)
    requires WellFormed(g)
    ensures WellFormed(Step(g, op))
    ensures g.nodes.Keys <= Step(g, op).nodes.Keys && g.dependencies <= Step(g, op).dependencies
  {
    if op.OpAddDependency? {
      EdgeKeepsAcyclic(g.dependencies, op.p, op.d);
    }
  }

  lemma {:induction false} RunFrom(g: GraphVersion, ops: seq<Op>)
    requires WellFormed(g)
    ensures WellFormed(Run(g, ops))
    ensures Run(g, ops).version == g.version + Successes(g, ops)
    ensures g.nodes.Keys <= Run(g, ops).nodes.Keys && g.dependencies <= Run(g, ops).dependencies
    decreases |ops|
  {
    if ops != [] {
      StepKeepsWellFormed(g, ops[0]);
      RunFrom(Step(g, ops[0]), ops[1..]);
    }
  }

  /** Every graph reachable from `New` is well formed, and its version counts the successful operations. */
  lemma RunIsWellFormed(ops: seq<Op>)
    ensures WellFormed(Run(New(), ops))
    ensures Run(New(), ops).version == Successes(New(), ops)
  {
    var none := New().dependencies;
    forall p: seq<NodeId> | |p| >= 2
      ensures !Walk(none, p)
    {
      assert (p[0], p[0 + 1]) !in none;
    }
    RunFrom(New(), ops);
  }

  lemma {:induction false} RunAppend(g: GraphVersion, ops: seq<Op>, op: Op)
    ensures Run(g, ops + [op]) == Step(Run(g, ops), op)
    decreases |ops|
  {
    if ops == [] {
      assert ops + [op] == [op] && [op][1..] == [];
    } else {
      assert (ops + [op])[0] == ops[0] && (ops + [op])[1..] == ops[1..] + [op];
      RunAppend(Step(g, ops[0]), ops[1..], op);
    }
  }

  /** The node with the given id after some operations: as it was first added, in the state it was last moved to. */
  ghost function NodeAfter(ops: seq<Op>, id: NodeId): Option<GraphNode>
    decreases |ops|
  {
    if ops == [] then None
    else
      var before := NodeAfter(ops[..|ops| - 1], id);
      match ops[|ops| - 1]
      case OpAddNode(node) => if node.id == id && before.None? then Some(node) else before
      case OpAddDependency(_, _) => before
      case OpUpdate(other, state) =>
        if other == id && before.Some?
        then Some(GraphNode(id, before.value.caption, state, before.value.assignedTo)) else before
  }

  lemma StepNodes(g: GraphVersion, op: Op, id: NodeId)
    requires WellFormed(g)
    ensures id in g.nodes ==> id in Step(g, op).nodes
    ensures id !in g.nodes && id in Step(g, op).nodes ==> op.OpAddNode? && op.node.id == id && Step(g, op).nodes[id] == op.node
    ensures op.OpAddNode? && op.node.id == id ==> id in Step(g, op).nodes
    ensures id in g.nodes && op.OpUpdate? && op.id == id ==>
      Step(g, op).nodes[id] == GraphNode(id, g.nodes[id].caption, op.state, g.nodes[id].assignedTo)
    ensures id in g.nodes && !(op.OpUpdate? && op.id == id) ==> Step(g, op).nodes[id] == g.nodes[id]
  {
  }

  /** A run holds exactly the nodes that its operations added, as they were added and last updated. */
  lemma {:induction false} RunNodes(ops: seq<Op>, id: NodeId)
    ensures id in Run(New(), ops).nodes <==> NodeAfter(ops, id).Some?
    ensures id in Run(New(), ops).nodes ==> NodeAfter(ops, id) == Some(Run(New(), ops).nodes[id])
    decreases |ops|
  {
    if ops != [] {
      var before, op := ops[..|ops| - 1], ops[|ops| - 1];
      assert ops == before + [op];
      RunNodes(before, id);
      RunAppend(New(), before, op);
      RunIsWellFormed(before);
      StepNodes(Run(New(), before), op, id);
    }
  }

  /** Only adding a dependency changes the edges, by exactly that edge, and only if its endpoints are
      there and it closes no cycle. */
  lemma StepEdges(g: GraphVersion, op: Op)
    requires WellFormed(g)
    ensures Step(g, op).dependencies == g.dependencies +
      if op.OpAddDependency? && op.p in g.nodes && op.d in g.nodes && Acyclic(g.dependencies + {(op.p, op.d)})
      then {(op.p, op.d)} else {}
  {
    if op.OpAddDependency? {
      AddDependencySucceedsIff(g, op.p, op.d);
    }
  }

  // ----- the ready set -----

  predicate Unblocked(g: GraphVersion, id: NodeId) {
    forall e | e in g.dependencies && e.1 == id :: e.0 in g.nodes && g.nodes[e.0].state == Succeeded
  }

  predicate IsReady(g: GraphVersion, id: NodeId) {
    id in g.nodes && (g.nodes[id].state == Pending || g.nodes[id].state == Ready) && Unblocked(g, id)
  }

  function ReadyAmong(g: GraphVersion, keys: seq<NodeId>): seq<GraphNode> {
    if keys == [] then []
    else (if IsReady(g, keys[0]) then [g.nodes[keys[0]]] else []) + ReadyAmong(g, keys[1..])
  }

  /** The ready nodes, in key order. */
  function ReadyNodes(g: GraphVersion): seq<GraphNode> {
    ReadyAmong(g, SortedStrings(g.nodes.Keys))
  }

  lemma {:induction false} ReadyAmongIsFilter(g: GraphVersion, keys: seq<NodeId>)
    requires WellFormed(g) && StrictlyAscending(StringLeq, keys)
    ensures forall n :: n in ReadyAmong(g, keys) <==> n.id in keys && IsReady(g, n.id) && g.nodes[n.id] == n
    ensures forall i, j | 0 <= i < j < |ReadyAmong(g, keys)| ::
      StringLeq(ReadyAmong(g, keys)[i].id, ReadyAmong(g, keys)[j].id) && ReadyAmong(g, keys)[i].id != ReadyAmong(g, keys)[j].id
  {
    if keys != [] {
      var rest := ReadyAmong(g, keys[1..]);
      ReadyAmongIsFilter(g, keys[1..]);
      forall k | 0 <= k < |rest|
        ensures StringLeq(keys[0], rest[k].id) && keys[0] != rest[k].id
      {
        assert rest[k] in rest;
        assert rest[k].id in keys[1..];
      }
    }
  }

  /** `ReadyNodes` lists exactly the pending and ready nodes whose prerequisites all succeeded, each once,
      in ascending order of id. */
  lemma ReadyNodesAreTheReadyOnes(g: GraphVersion)
    requires WellFormed(g)
    ensures forall id | id in g.nodes :: g.nodes[id] in ReadyNodes(g) <==>
      && (g.nodes[id].state == Pending || g.nodes[id].state == Ready)
      && (forall e | e in g.dependencies && e.1 == id :: g.nodes[e.0].state == Succeeded)
    ensures forall n | n in ReadyNodes(g) :: n.id in g.nodes && g.nodes[n.id] == n
    ensures forall i, j | 0 <= i < j < |ReadyNodes(g)| ::
      StringLeq(ReadyNodes(g)[i].id, ReadyNodes(g)[j].id) && ReadyNodes(g)[i].id != ReadyNodes(g)[j].id
  {
    SortedStringsListing(g.nodes.Keys);
    ReadyAmongIsFilter(g, SortedStrings(g.nodes.Keys));
  }

  // ----- no deadlock -----

  /** Nothing is running, failed or blocked. */
  ghost predicate Drainable(g: GraphVersion) {
    WellFormed(g) && forall id | id in g.nodes :: g.nodes[id].state in {Pending, Ready, Succeeded}
  }

  ghost function Unfinished(g: GraphVersion): set<NodeId> {
    set id | id in g.nodes && g.nodes[id].state != Succeeded
  }

  lemma PrependedCycle(deps: set<Edge>, q: NodeId, p: seq<NodeId>, k: nat)
    requires k < |p| && Walk(deps, p) && (q, p[0]) in deps && p[k] == q
    ensures !Acyclic(deps)
  {
    var c := [q] + p[..k + 1];
    forall i | 0 <= i < |c| - 1
      ensures (c[i], c[i + 1]) in deps
    {
      assert i > 0 ==> (p[i - 1], p[i]) in deps;
    }
    assert Walk(deps, c) && c[0] == c[|c| - 1];
  }

  /** Follow unfinished prerequisites backwards: without cycles this must reach a ready node. */
  lemma {:induction false} FindReady(g: GraphVersion, p: seq<NodeId>) returns (id: NodeId)
    requires Drainable(g) && p != [] && Walk(g.dependencies, p) && Distinct(p)
    requires forall n | n in p :: n in Unfinished(g)
    ensures IsReady(g, id)
    decreases |Unfinished(g)| - |p|
  {
    if IsReady(g, p[0]) {
      return p[0];
    }
    assert p[0] in Unfinished(g);
    var e :| e in g.dependencies && e.1 == p[0] && g.nodes[e.0].state != Succeeded;
    var longer := [e.0] + p;
    assert Walk(g.dependencies, longer) by {
      forall k | 0 <= k < |longer| - 1
        ensures (longer[k], longer[k + 1]) in g.dependencies
      {
        assert k > 0 ==> (p[k - 1], p[k]) in g.dependencies;
      }
    }
    if k :| 0 <= k < |p| && p[k] == e.0 {
      PrependedCycle(g.dependencies, e.0, p, k);
      assert false;
    }
    DistinctFits(longer, Unfinished(g));
    id := FindReady(g, longer);
  }

  /** No deadlock: while something is unfinished, something is ready. */
  lemma NoDeadlock(g: GraphVersion)
    requires Drainable(g)
    ensures ReadyNodes(g) == [] <==> Unfinished(g) == {}
  {
    ReadyNodesAreTheReadyOnes(g);
    if Unfinished(g) != {} {
      var n :| n in Unfinished(g);
      var id := FindReady(g, [n]);
      assert g.nodes[id] in ReadyNodes(g);
    }
    if ReadyNodes(g) != [] {
      var n := ReadyNodes(g)[0];
      assert n in ReadyNodes(g);
      assert n.id in Unfinished(g);
    }
  }

  ghost function Finish(g: GraphVersion, id: NodeId): GraphVersion
    requires id in g.nodes
  {
    UpdateState(g, id, Succeeded).value
  }

  /** The nodes of `ids` can be marked Succeeded one after another, each ready when its turn comes. */
  ghost predicate Schedule(g: GraphVersion, ids: seq<NodeId>)
    decreases |ids|
  {
    ids == [] || (IsReady(g, ids[0]) && Schedule(Finish(g, ids[0]), ids[1..]))
  }

  ghost function After(g: GraphVersion, ids: seq<NodeId>): GraphVersion
    requires Schedule(g, ids)
    decreases |ids|
  {
    if ids == [] then g else After(Finish(g, ids[0]), ids[1..])
  }

  lemma FinishOne(g: GraphVersion, id: NodeId)
    requires Drainable(g) && IsReady(g, id)
    ensures Drainable(Finish(g, id)) && id in Unfinished(g)
    ensures Unfinished(Finish(g, id)) == Unfinished(g) - {id}
  {
  }

  lemma FirstMember(ids: seq<NodeId>, s: set<NodeId>)
    requires ids != []
    ensures s - {ids[0]} - Members(ids[1..]) == s - Members(ids)
  {
  }

  /** Each step of a schedule finishes exactly one more node, and no node is finished twice. */
  lemma {:induction false} ScheduleCounts(g: GraphVersion, ids: seq<NodeId>)
    requires Drainable(g) && Schedule(g, ids)
    ensures Drainable(After(g, ids)) && After(g, ids).dependencies == g.dependencies
    ensures Unfinished(After(g, ids)) == Unfinished(g) - Members(ids)
    ensures |Unfinished(After(g, ids))| == |Unfinished(g)| - |ids|
    decreases |ids|
  {
    if ids != [] {
      FinishOne(g, ids[0]);
      ScheduleCounts(Finish(g, ids[0]), ids[1..]);
      FirstMember(ids, Unfinished(g));
    }
  }

  lemma ReadyHasNoUnfinished(g: GraphVersion, id: NodeId, p: NodeId)
    requires IsReady(g, id) && (p, id) in g.dependencies
    ensures p !in Unfinished(g)
  {
    assert Unblocked(g, id);
  }

  lemma FirstStep(g: GraphVersion, ids: seq<NodeId>)
    requires Drainable(g) && ids != [] && Schedule(g, ids)
    ensures IsReady(g, ids[0])
    ensures var next := Finish(g, ids[0]);
      && Drainable(next) && Schedule(next, ids[1..]) && next.dependencies == g.dependencies
      && Unfinished(next) == Unfinished(g) - {ids[0]}
  {
    FinishOne(g, ids[0]);
  }

  lemma InPrefix(ids: seq<NodeId>, k: nat, p: NodeId)
    requires 0 < k <= |ids|
    ensures p == ids[0] || p in ids[1..][..k - 1] ==> p in ids[..k]
  {
    assert ids[..k] == [ids[0]] + ids[1..][..k - 1];
  }

  /** Every node of a schedule comes after all of its unfinished prerequisites. */
  lemma {:induction false} PrerequisitesFirst(g: GraphVersion, ids: seq<NodeId>, k: nat, p: NodeId)
    requires Drainable(g) && Schedule(g, ids) && k < |ids| && (p, ids[k]) in g.dependencies
    ensures p in Unfinished(g) ==> p in ids[..k]
    decreases k
  {
    FirstStep(g, ids);
    if k == 0 {
      ReadyHasNoUnfinished(g, ids[0], p);
    } else {
      var next := Finish(g, ids[0]);
      assert ids[1..][k - 1] == ids[k];
      PrerequisitesFirst(next, ids[1..], k - 1, p);
      InPrefix(ids, k, p);
    }
  }

  lemma {:induction false} ScheduleAll(g: GraphVersion) returns (ids: seq<NodeId>)
    requires Drainable(g)
    ensures Schedule(g, ids) && |ids| == |Unfinished(g)|
    decreases |Unfinished(g)|
  {
    if Unfinished(g) == {} {
      return [];
    }
    var n :| n in Unfinished(g);
    var id := FindReady(g, [n]);
    FinishOne(g, id);
    var tail := ScheduleAll(Finish(g, id));
    ids := [id] + tail;
  }

  lemma {:induction false} ScheduleConcat(g: GraphVersion, ids: seq<NodeId>, more: seq<NodeId>)
    requires Schedule(g, ids) && Schedule(After(g, ids), more)
    ensures Schedule(g, ids + more)
    decreases |ids|
  {
    if ids == [] {
      assert ids + more == more;
    } else {
      ScheduleConcat(Finish(g, ids[0]), ids[1..], more);
      assert (ids + more)[1..] == ids[1..] + more;
    }
  }

  /** However finishing has begun, it can be completed, in exactly as many steps as nodes were unfinished. */
  lemma ScheduleCompletes(g: GraphVersion, ids: seq<NodeId>) returns (rest: seq<NodeId>)
    requires Drainable(g) && Schedule(g, ids)
    ensures Schedule(g, ids + rest) && |ids + rest| == |Unfinished(g)|
    ensures Unfinished(After(g, ids + rest)) == {}
  {
    ScheduleCounts(g, ids);
    rest := ScheduleAll(After(g, ids));
    ScheduleConcat(g, ids, rest);
    ScheduleCounts(g, ids + rest);
  }
}
