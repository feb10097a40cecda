/** Stackfile graph values, the invariant every snapshot must meet, and its check. */
module StackGraphs {
  import opened Outcomes
  import opened Ordering
  import opened DirectedGraphs

  datatype InstanceState = Proposed | Contracted | Provisioned | Deploying | Active | Degraded | Retiring | Cancelled

  datatype NodeType =
    | Organization | BusinessGoal | Jtbd | Workflow | Capability | Team | Role | PersonRef | Product | ProductVersion
    | ProductInstance | ImplementationProject | Offer | Contract | Entitlement | Integration | DataAsset | Policy
    | Budget | Vendor | Decision | Outcome | Risk

  datatype EdgeType =
    | Fulfills | FulfilledBy | Provides | RequiresCapability | DeployedFor | Requires | IntegratesWith | SendsDataTo
    | Replaces | OverlapsWith | Blocks | ConstrainedBy | OwnedBy | UsedBy | PaidBy | ProvisionedBy | GovernedBy
    | MeasuredBy | RenewedBy

  datatype NodeFields = NodeFields(
    id: string, alias: string, nodeType: NodeType, attributes: string, state: Option<InstanceState>)

  /** A node, as its constructor admits it: exactly product instances have a lifecycle state. */
  type Node = n: NodeFields | n.nodeType == ProductInstance <==> n.state.Some?
    witness NodeFields("n", "n", Team, "", None)

  datatype EdgeFields = EdgeFields(
    id: string, source: string, target: string, edgeType: EdgeType, criticality: nat, hard: bool,
    evidenceRef: Option<string>, confidence: string)

  /** An edge, as its constructor admits it: never from a node to itself. */
  type Edge = e: EdgeFields | e.source != e.target
    witness EdgeFields("e", "a", "b", Requires, 0, false, None, "confirmed")

  datatype Snapshot = Snapshot(schema: string, organization: string, version: nat, nodes: seq<Node>, edges: seq<Edge>)

  datatype GraphError =
    | DuplicateNodeId | DuplicateAlias | DuplicateEdgeId | DanglingEdge | InactiveFulfillment | HardCycle

  // ---------- the invariant ----------

  predicate UniqueNodes(nodes: seq<Node>) {
    forall i, j :: 0 <= i < j < |nodes| ==> nodes[i].id != nodes[j].id
  }

  predicate UniqueAliases(nodes: seq<Node>) {
    forall i, j :: 0 <= i < j < |nodes| ==> nodes[i].alias != nodes[j].alias
  }

  predicate UniqueEdges(edges: seq<Edge>) {
    forall i, j :: 0 <= i < j < |edges| ==> edges[i].id != edges[j].id
  }

  predicate HasNode(nodes: seq<Node>, id: string) {
    exists n :: n in nodes && n.id == id
  }

  predicate Attached(nodes: seq<Node>, e: Edge) {
    HasNode(nodes, e.source) && HasNode(nodes, e.target)
  }

  /** The end of an edge that fulfils a job: the source of FULFILLS, the target of FULFILLED_BY. */
  function Fulfiller(e: Edge): Option<string> {
    if e.edgeType == Fulfills then Some(e.source) else if e.edgeType == FulfilledBy then Some(e.target) else None
  }

  /** Only an active product instance fulfils. */
  predicate FulfilledByActive(nodes: seq<Node>, e: Edge) {
    Fulfiller(e).Some? ==>
      forall n :: n in nodes && n.id == Fulfiller(e).value && n.nodeType == ProductInstance ==> n.state == Some(Active)
  }

  predicate IsHardDependency(e: Edge) {
    e.hard && (e.edgeType == Requires || e.edgeType == RequiresCapability)
  }

  /** The targets of the hard dependencies of a node, in edge order. */
  function HardTargets(edges: seq<Edge>, id: string): (r: seq<string>)
    ensures forall t :: t in r <==> exists e :: e in edges && IsHardDependency(e) && e.source == id && e.target == t
  {
    if edges == [] then []
    else
      assert forall e :: e in edges <==> e == edges[0] || e in edges[1..];
      (if IsHardDependency(edges[0]) && edges[0].source == id then [edges[0].target] else []) + HardTargets(edges[1..], id)
  }

  function Ids(nodes: seq<Node>): (r: set<string>)
    ensures forall id :: id in r <==> HasNode(nodes, id)
  {
    set n | n in nodes :: n.id
  }

  function HardGraph(nodes: seq<Node>, edges: seq<Edge>): Graph {
    map id | id in Ids(nodes) :: HardTargets(edges, id)
  }

  /** The whole invariant of a snapshot. */
  ghost predicate GraphOk(nodes: seq<Node>, edges: seq<Edge>) {
    && UniqueNodes(nodes) && UniqueAliases(nodes) && UniqueEdges(edges)
    && (forall e :: e in edges ==> Attached(nodes, e) && FulfilledByActive(nodes, e))
    && !Cyclic(HardGraph(nodes, edges))
  }

  /** The error of the first edge that does not fit. */
  function EdgeError(nodes: seq<Node>, edges: seq<Edge>): (r: Option<GraphError>)
    ensures r.None? <==> forall e :: e in edges ==> Attached(nodes, e) && FulfilledByActive(nodes, e)
    ensures r.Some? ==> r.value == DanglingEdge || r.value == InactiveFulfillment
    ensures r == Some(DanglingEdge) ==> exists e :: e in edges && !Attached(nodes, e)
    ensures r == Some(InactiveFulfillment) ==> exists e :: e in edges && !FulfilledByActive(nodes, e)
  {
    if edges == [] then None
    else
      assert forall e :: e in edges <==> e == edges[0] || e in edges[1..];
      if !Attached(nodes, edges[0]) then Some(DanglingEdge)
      else if !FulfilledByActive(nodes, edges[0]) then Some(InactiveFulfillment)
      else EdgeError(nodes, edges[1..])
  }

  ghost function GraphErrorOf(nodes: seq<Node>, edges: seq<Edge>): (r: Option<GraphError>)
    ensures r.None? <==> GraphOk(nodes, edges)
  {
    if !UniqueNodes(nodes) then Some(DuplicateNodeId)
    else if !UniqueAliases(nodes) then Some(DuplicateAlias)
    else if !UniqueEdges(edges) then Some(DuplicateEdgeId)
    else if EdgeError(nodes, edges).Some? then EdgeError(nodes, edges)
    else if Cyclic(HardGraph(nodes, edges)) then Some(HardCycle)
    else None
  }

  // ---------- the cycle check ----------

  /** The depth-first search over hard dependencies. */
  class CycleSearch {
    const graph: Graph
    var visiting: set<string>
    var visited: set<string>
    ghost var finished: seq<string>

    ghost predicate Valid()
      reads this
    {
      && visiting !! visited && visiting <= graph.Keys && visited <= graph.Keys
      && Nodes(finished) == visited && Distinct(finished) && SuccessorsFirst(graph, finished)
    }

    constructor (graph: Graph)
      ensures this.graph == graph && Valid() && visiting == {} && visited == {}
    {
      this.graph := graph;
      visiting, visited, finished := {}, {}, [];
    }

    /** Visits a node below the nodes on the stack; a node met again on the stack closes a cycle. */
    method Visit(id: string, ghost stack: seq<string>) returns (acyclic: bool)
      requires Valid() && Closed(graph) && id in graph
      requires IsPath(graph, stack + [id]) && Nodes(stack) == visiting
      modifies this
      ensures acyclic ==> Valid() && visiting == old(visiting) && old(visited) <= visited && id in visited
      ensures !acyclic ==> Cyclic(graph)
      decreases graph.Keys - visiting
    {
      if id in visiting {
        ReturningPathClosesCycle(graph, stack, id);
        return false;
      }
      if id in visited { return true; }
      visiting := visiting + {id};
      assert Nodes(stack + [id]) == visiting;
      for i := 0 to |graph[id]|
        invariant Valid() && visiting == old(visiting) + {id} && old(visited) <= visited
        invariant forall j :: 0 <= j < i ==> graph[id][j] in visited
      {
        PathGrows(graph, stack + [id], graph[id][i]);
        var below := Visit(graph[id][i], stack + [id]);
        if !below { return false; }
      }
      assert Distinct(finished + [id]) && Nodes(finished + [id]) == visited + {id} by {
        assert id !in Nodes(finished);
      }
      OrderGrows(graph, finished, id) by {
        forall m | m in graph[id] ensures m in finished { assert m in Nodes(finished); }
      }
      visiting := visiting - {id};
      visited := visited + {id};
      finished := finished + [id];
      return true;
    }
  }

  method BuildHardGraph(nodes: seq<Node>, edges: seq<Edge>) returns (graph: Graph)
    requires forall e :: e in edges ==> Attached(nodes, e)
    ensures graph == HardGraph(nodes, edges)
  {
    hide HardTargets, HasNode;
    graph := map id | id in Ids(nodes) :: [];
    NoTargets();
    for i := 0 to |edges|
      invariant graph.Keys == Ids(nodes)
      invariant forall id :: id in graph ==> graph[id] == HardTargets(edges[..i], id)
    {
      var e := edges[i];
      assert e in edges && Attached(nodes, e);
      assert edges[..i + 1] == edges[..i] + [e];
      if IsHardDependency(e) {
        graph := graph[e.source := graph[e.source] + [e.target]];
      }
      forall id | id in graph ensures graph[id] == HardTargets(edges[..i + 1], id) {
        TargetsOfOneMore(edges[..i], e, id);
      }
    }
    assert edges[..|edges|] == edges;
  }

  lemma NoTargets()
    ensures forall id :: HardTargets([], id) == []
  {}

  lemma {:induction false} TargetsOfOneMore(edges: seq<Edge>, e: Edge, id: string)
    ensures HardTargets(edges + [e], id)
         == HardTargets(edges, id) + (if IsHardDependency(e) && e.source == id then [e.target] else [])
  {
    if edges != [] {
      TargetsOfOneMore(edges[1..], e, id);
      assert (edges + [e])[1..] == edges[1..] + [e];
    }
  }

  lemma HardGraphIsClosed(nodes: seq<Node>, edges: seq<Edge>)
    requires forall e :: e in edges ==> Attached(nodes, e)
    ensures Closed(HardGraph(nodes, edges))
  {}

  lemma OneNodePath(g: Graph, id: string)
    requires id in g
    ensures IsPath(g, [] + [id]) && Nodes([]) == {}
  {}

  /** The check accepts exactly the graphs without a directed cycle of hard dependencies. */
  method HasNoHardCycle(nodes: seq<Node>, edges: seq<Edge>) returns (acyclic: bool)
    requires forall e :: e in edges ==> Attached(nodes, e)
    ensures acyclic <==> !Cyclic(HardGraph(nodes, edges))
  {
    hide SuccessorsFirst, Distinct, Cyclic, HardGraph, Attached, IsPath;
    var graph := BuildHardGraph(nodes, edges);
    HardGraphIsClosed(nodes, edges);
    var search := new CycleSearch(graph);
    var order := SortedSet(graph.Keys);
    for i := 0 to |order|
      invariant search.Valid() && search.visiting == {} && search.graph == graph
      invariant forall j :: 0 <= j < i ==> order[j] in Nodes(search.finished)
    {
      assert order[i] in order;
      OneNodePath(graph, order[i]);
      acyclic := search.Visit(order[i], []);
      if !acyclic { return; }
    }
    AllFinished(graph, order, search.finished);
    return true;
  }

  lemma AllFinished(graph: Graph, order: seq<string>, finished: seq<string>)
    requires (forall n :: n in graph ==> n in order) && forall j :: 0 <= j < |order| ==> order[j] in finished
    requires SuccessorsFirst(graph, finished) && Distinct(finished)
    ensures !Cyclic(graph)
  {
    hide SuccessorsFirst, Distinct;
    forall n ensures !OnCycle(graph, n) {
      if n in graph {
        assert n in order;
        OrderedNodesAreOnNoCycle(graph, finished, n);
      }
    }
  }

  /** Validation of a snapshot under construction names the first violation it meets. */
  method ValidateGraph(nodes: seq<Node>, edges: seq<Edge>) returns (error: Option<GraphError>)
    ensures error == GraphErrorOf(nodes, edges)
    ensures error == None <==> GraphOk(nodes, edges)
  {
    if !UniqueNodes(nodes) { return Some(DuplicateNodeId); }
    if !UniqueAliases(nodes) { return Some(DuplicateAlias); }
    if !UniqueEdges(edges) { return Some(DuplicateEdgeId); }
    assert edges[0..] == edges;
    for i := 0 to |edges|
      invariant EdgeError(nodes, edges) == EdgeError(nodes, edges[i..])
    {
      assert edges[i..][1..] == edges[i + 1..];
      if !Attached(nodes, edges[i]) { return Some(DanglingEdge); }
      if !FulfilledByActive(nodes, edges[i]) { return Some(InactiveFulfillment); }
    }
    var acyclic := HasNoHardCycle(nodes, edges);
    return if acyclic then None else Some(HardCycle);
  }
}
