/** Version-bound patches of a Stackfile: simulation, application and runs of applied patches.
    The content hash of a snapshot is the snapshot itself. */
module StackPatches {
  import opened Outcomes
  import opened Ordering
  import opened DirectedGraphs
  import opened StackGraphs

  datatype OperationFields =
    | AddNode(operationId: string, node: Node)
    | AddEdge(operationId: string, edge: Edge)
    | Transition(operationId: string, nodeId: string, fromState: InstanceState, toState: InstanceState, deploymentValidated: bool)
    | RemoveEdge(operationId: string, edgeId: string)
    | RemoveNode(operationId: string, nodeId: string)

  /** An operation, as its constructor admits it: no product is added already active. */
  type Operation = o: OperationFields | o.AddNode? ==> o.node.state != Some(Active)
    witness RemoveNode("o", "n")

  datatype PatchStatus =
    | Draft | Validated | AwaitingApproval | Approved | Applying | Applied | Conflict | Failed | CompensatingPatch

  datatype PatchFields = PatchFields(
    schema: string, id: string, organization: string, baseVersion: nat, baseHash: Snapshot,
    operations: seq<Operation>, status: PatchStatus)

  predicate DistinctOperations(operations: seq<Operation>) {
    forall i, j :: 0 <= i < j < |operations| ==> operations[i].operationId != operations[j].operationId
  }

  /** A patch, as its constructor admits it: at least one operation, with distinct identifiers. */
  type Patch = p: PatchFields | p.operations != [] && DistinctOperations(p.operations)
    witness PatchFields("s", "p", "o", 1, Snapshot("s", "o", 1, [], []), [RemoveNode("o", "n")], Draft)

  datatype Code =
    | TenantMismatch | StaleBase | DuplicateNode | DuplicateNodeAlias | DuplicateEdge | MissingEndpoint
    | NotProductInstance | StaleInstanceState | InvalidInstanceTransition | DeploymentNotValidated
    | MissingEdge | MissingNode | InstanceHistoryRequired | DependenciesRemain | GraphInvalid(error: GraphError)

  datatype Issue = Issue(code: Code, operation: Option<string>)

  datatype Validation = Validation(issues: seq<Issue>, simulated: Option<Snapshot>)

  function NextStates(s: InstanceState): set<InstanceState> {
    match s
    case Proposed => {Contracted}
    case Contracted => {Provisioned, Retiring}
    case Provisioned => {Deploying, Retiring}
    case Deploying => {Active, Degraded, Retiring}
    case Active => {Degraded, Retiring}
    case Degraded => {Active, Retiring}
    case Retiring => {Cancelled}
    case Cancelled => {}
  }

  // ---------- the operation loop ----------

  datatype Working = Working(nodes: map<string, Node>, edges: map<string, Edge>)

  /** The code that refuses an operation, or none. */
  function Refusal(w: Working, o: Operation): Option<Code> {
    match o
    case AddNode(_, node) =>
      if node.id in w.nodes then Some(DuplicateNode)
      else if exists id :: id in w.nodes && w.nodes[id].alias == node.alias then Some(DuplicateNodeAlias)
      else None
    case AddEdge(_, edge) =>
      if edge.id in w.edges then Some(DuplicateEdge)
      else if edge.source !in w.nodes || edge.target !in w.nodes then Some(MissingEndpoint)
      else None
    case Transition(_, id, fromState, toState, validated) =>
      if id !in w.nodes || w.nodes[id].nodeType != ProductInstance then Some(NotProductInstance)
      else if w.nodes[id].state != Some(fromState) then Some(StaleInstanceState)
      else if toState !in NextStates(fromState) then Some(InvalidInstanceTransition)
      else if toState == Active && !validated then Some(DeploymentNotValidated)
      else None
    case RemoveEdge(_, id) => if id !in w.edges then Some(MissingEdge) else None
    case RemoveNode(_, id) =>
      if id !in w.nodes then Some(MissingNode)
      else if w.nodes[id].nodeType == ProductInstance then Some(InstanceHistoryRequired)
      else if exists e :: e in w.edges && (w.edges[e].source == id || w.edges[e].target == id) then Some(DependenciesRemain)
      else None
  }

  function Effect(w: Working, o: Operation): Working
    requires Refusal(w, o).None?
  {
    match o
    case AddNode(_, node) => w.(nodes := w.nodes[node.id := node])
    case AddEdge(_, edge) => w.(edges := w.edges[edge.id := edge])
    case Transition(_, id, _, toState, _) => w.(nodes := w.nodes[id := w.nodes[id].(state := Some(toState))])
    case RemoveEdge(_, id) => w.(edges := w.edges - {id})
    case RemoveNode(_, id) => w.(nodes := w.nodes - {id})
  }

  /** A refused operation is reported and skipped. */
  function StepTo(w: Working, o: Operation): Working {
    if Refusal(w, o).None? then Effect(w, o) else w
  }

  function AfterAll(w: Working, operations: seq<Operation>): Working
    decreases |operations|
  {
    if operations == [] then w
    else StepTo(AfterAll(w, operations[..|operations| - 1]), operations[|operations| - 1])
  }

  function IssuesOf(w: Working, operations: seq<Operation>): seq<Issue>
    decreases |operations|
  {
    if operations == [] then []
    else
      var earlier, last := operations[..|operations| - 1], operations[|operations| - 1];
      var refusal := Refusal(AfterAll(w, earlier), last);
      IssuesOf(w, earlier) + if refusal.None? then [] else [Issue(refusal.value, Some(last.operationId))]
  }

  function OpenNodes(nodes: seq<Node>): (r: map<string, Node>)
    ensures forall id :: id in r <==> HasNode(nodes, id)
    ensures forall id :: id in r ==> r[id] in nodes && r[id].id == id
  {
    map n | n in nodes :: n.id := LastNode(nodes, n.id)
  }

  function OpenEdges(edges: seq<Edge>): (r: map<string, Edge>)
    ensures forall id :: id in r <==> HasEdge(edges, id)
    ensures forall id :: id in r ==> r[id] in edges && r[id].id == id
  {
    map e | e in edges :: e.id := LastEdge(edges, e.id)
  }

  /** The two dictionaries of a snapshot. */
  function Open(base: Snapshot): Working {
    Working(OpenNodes(base.nodes), OpenEdges(base.edges))
  }

  function LastNode(nodes: seq<Node>, id: string): (r: Node)
    requires HasNode(nodes, id)
    ensures r in nodes && r.id == id
  {
    var n := nodes[|nodes| - 1];
    if n.id == id then n else LastNode(nodes[..|nodes| - 1], id)
  }

  predicate HasEdge(edges: seq<Edge>, id: string) {
    exists e :: e in edges && e.id == id
  }

  function LastEdge(edges: seq<Edge>, id: string): (r: Edge)
    requires HasEdge(edges, id)
    ensures r in edges && r.id == id
  {
    var e := edges[|edges| - 1];
    if e.id == id then e else LastEdge(edges[..|edges| - 1], id)
  }

  function NodesInOrder(nodes: map<string, Node>): (r: seq<Node>)
    ensures |r| == |SortedSet(nodes.Keys)|
  {
    var ids := SortedSet(nodes.Keys);
    seq(|ids|, i requires 0 <= i < |ids| => assert ids[i] in ids; nodes[ids[i]])
  }

  function EdgesInOrder(edges: map<string, Edge>): (r: seq<Edge>)
    ensures |r| == |SortedSet(edges.Keys)|
  {
    var ids := SortedSet(edges.Keys);
    seq(|ids|, i requires 0 <= i < |ids| => assert ids[i] in ids; edges[ids[i]])
  }

  function Close(base: Snapshot, w: Working): Snapshot {
    Snapshot(base.schema, base.organization, base.version + 1, NodesInOrder(w.nodes), EdgesInOrder(w.edges))
  }

  function BindingIssues(base: Snapshot, p: Patch): seq<Issue> {
    (if p.organization != base.organization then [Issue(TenantMismatch, None)] else [])
    + (if p.baseVersion != base.version || p.baseHash != base then [Issue(StaleBase, None)] else [])
  }

  /** The verdict on a patch. */
  ghost function ValidationOf(base: Snapshot, p: Patch): Validation {
    if BindingIssues(base, p) != [] then Validation(BindingIssues(base, p), None)
    else if IssuesOf(Open(base), p.operations) != [] then Validation(IssuesOf(Open(base), p.operations), None)
    else
      var simulated := Close(base, AfterAll(Open(base), p.operations));
      match GraphErrorOf(simulated.nodes, simulated.edges)
      case Some(error) => Validation([Issue(GraphInvalid(error), None)], None)
      case None => Validation([], Some(simulated))
  }

  /** Validation with the two dictionaries updated in place, operation by operation. */
  method ValidatePatch(base: Snapshot, p: Patch) returns (v: Validation)
    ensures v == ValidationOf(base, p)
  {
    hide BindingIssues, IssuesOf, AfterAll, OpenNodes, OpenEdges, NodesInOrder, EdgesInOrder, GraphErrorOf;
    var issues := CheckBinding(base, p);
    if issues != [] { return Validation(issues, None); }
    var nodes := NodeTable(base.nodes);
    var edges := EdgeTable(base.edges);
    var end, found := PerformAll(Working(nodes, edges), p.operations);
    if found != [] { return Validation(found, None); }
    v := CloseSnapshot(base, end);
  }

  method CheckBinding(base: Snapshot, p: Patch) returns (issues: seq<Issue>)
    ensures issues == BindingIssues(base, p)
  {
    issues := [];
    if p.organization != base.organization { issues := issues + [Issue(TenantMismatch, None)]; }
    if p.baseVersion != base.version || p.baseHash != base { issues := issues + [Issue(StaleBase, None)]; }
  }

  /** Builds the snapshot after the loop; a violation found there is the only issue. */
  method CloseSnapshot(base: Snapshot, end: Working) returns (v: Validation)
    ensures var s := Close(base, end);
      var error := GraphErrorOf(s.nodes, s.edges);
      v == if error.Some? then Validation([Issue(GraphInvalid(error.value), None)], None) else Validation([], Some(s))
  {
    hide NodesInOrder, EdgesInOrder, GraphErrorOf, GraphOk;
    var s := Close(base, end);
    var error := ValidateGraph(s.nodes, s.edges);
    if error.Some? { return Validation([Issue(GraphInvalid(error.value), None)], None); }
    return Validation([], Some(s));
  }

  /** The loop over the operations, updating both dictionaries in place. */
  method PerformAll(start: Working, operations: seq<Operation>) returns (end: Working, issues: seq<Issue>)
    ensures end == AfterAll(start, operations) && issues == IssuesOf(start, operations)
  {
    hide Refusal, StepTo;
    var nodes, edges := start.nodes, start.edges;
    issues := [];
    for i := 0 to |operations|
      invariant Working(nodes, edges) == AfterAll(start, operations[..i])
      invariant issues == IssuesOf(start, operations[..i])
    {
      assert operations[..i + 1][..|operations[..i + 1]| - 1] == operations[..i];
      nodes, edges, issues := Perform(nodes, edges, issues, operations[i]);
    }
    assert operations[..|operations|] == operations;
    end := Working(nodes, edges);
  }

  method NodeTable(list: seq<Node>) returns (nodes: map<string, Node>)
    ensures nodes == OpenNodes(list)
  {
    nodes := map[];
    for i := 0 to |list|
      invariant forall id :: id in nodes <==> HasNode(list[..i], id)
      invariant forall id :: id in nodes ==> nodes[id] == LastNode(list[..i], id)
    {
      assert list[..i + 1][..|list[..i + 1]| - 1] == list[..i];
      assert list[..i + 1] == list[..i] + [list[i]];
      nodes := nodes[list[i].id := list[i]];
    }
    assert list[..|list|] == list;
  }

  method EdgeTable(list: seq<Edge>) returns (edges: map<string, Edge>)
    ensures edges == OpenEdges(list)
  {
    edges := map[];
    for i := 0 to |list|
      invariant forall id :: id in edges <==> HasEdge(list[..i], id)
      invariant forall id :: id in edges ==> edges[id] == LastEdge(list[..i], id)
    {
      assert list[..i + 1][..|list[..i + 1]| - 1] == list[..i];
      assert list[..i + 1] == list[..i] + [list[i]];
      edges := edges[list[i].id := list[i]];
    }
    assert list[..|list|] == list;
  }

  /** One turn of the loop. */
  method Perform(nodes0: map<string, Node>, edges0: map<string, Edge>, issues0: seq<Issue>, o: Operation)
    returns (nodes: map<string, Node>, edges: map<string, Edge>, issues: seq<Issue>)
    ensures var w := Working(nodes0, edges0);
      && Working(nodes, edges) == StepTo(w, o)
      && issues == issues0 + if Refusal(w, o).None? then [] else [Issue(Refusal(w, o).value, Some(o.operationId))]
  {
    nodes, edges, issues := nodes0, edges0, issues0;
    match o {
      case AddNode(op, node) =>
        if node.id in nodes {
          issues := issues + [Issue(DuplicateNode, Some(op))];
        } else if exists id :: id in nodes && nodes[id].alias == node.alias {
          issues := issues + [Issue(DuplicateNodeAlias, Some(op))];
        } else {
          nodes := nodes[node.id := node];
        }
      case AddEdge(op, edge) =>
        if edge.id in edges {
          issues := issues + [Issue(DuplicateEdge, Some(op))];
        } else if edge.source !in nodes || edge.target !in nodes {
          issues := issues + [Issue(MissingEndpoint, Some(op))];
        } else {
          edges := edges[edge.id := edge];
        }
      case Transition(op, id, fromState, toState, validated) =>
        if id !in nodes || nodes[id].nodeType != ProductInstance {
          issues := issues + [Issue(NotProductInstance, Some(op))];
        } else if nodes[id].state != Some(fromState) {
          issues := issues + [Issue(StaleInstanceState, Some(op))];
        } else if toState !in NextStates(fromState) {
          issues := issues + [Issue(InvalidInstanceTransition, Some(op))];
        } else if toState == Active && !validated {
          issues := issues + [Issue(DeploymentNotValidated, Some(op))];
        } else {
          nodes := nodes[id := nodes[id].(state := Some(toState))];
        }
      case RemoveEdge(op, id) =>
        if id !in edges {
          issues := issues + [Issue(MissingEdge, Some(op))];
        } else {
          edges := edges - {id};
        }
      case RemoveNode(op, id) =>
        if id !in nodes {
          issues := issues + [Issue(MissingNode, Some(op))];
        } else if nodes[id].nodeType == ProductInstance {
          issues := issues + [Issue(InstanceHistoryRequired, Some(op))];
        } else if exists e :: e in edges && (edges[e].source == id || edges[e].target == id) {
          issues := issues + [Issue(DependenciesRemain, Some(op))];
        } else {
          nodes := nodes - {id};
        }
    }
  }
}
