/** What patches preserve: the graph invariant, the history of every product instance, and the version. */
module StackHistories {
  import opened Outcomes
  import opened Ordering
  import opened DirectedGraphs
  import opened StackGraphs
  import opened StackPatches

  // ---------- during the operation loop ----------

  predicate KeyedById(w: Working) {
    (forall id :: id in w.nodes ==> w.nodes[id].id == id) && (forall id :: id in w.edges ==> w.edges[id].id == id)
  }

  predicate AliasesDiffer(nodes: map<string, Node>) {
    forall a, b :: a in nodes && b in nodes && a != b ==> nodes[a].alias != nodes[b].alias
  }

  predicate NothingDangles(w: Working) {
    forall e :: e in w.edges ==> w.edges[e].source in w.nodes && w.edges[e].target in w.nodes
  }

  predicate WorkingOk(w: Working) {
    KeyedById(w) && AliasesDiffer(w.nodes) && NothingDangles(w)
  }

  lemma StepKeepsAliases(w: Working, o: Operation)
    requires KeyedById(w) && AliasesDiffer(w.nodes)
    ensures AliasesDiffer(StepTo(w, o).nodes)
  {}

  lemma StepKeepsAttachments(w: Working, o: Operation)
    requires NothingDangles(w)
    ensures NothingDangles(StepTo(w, o))
  {}

  lemma StepKeepsWorkingOk(w: Working, o: Operation)
    requires WorkingOk(w)
    ensures WorkingOk(StepTo(w, o))
  {
    hide AliasesDiffer, NothingDangles;
    StepKeepsAliases(w, o);
    StepKeepsAttachments(w, o);
  }

  /** At every point of the loop identifiers and aliases are unique and no edge dangles. */
  lemma {:induction false} LoopKeepsWorkingOk(w: Working, operations: seq<Operation>)
    requires WorkingOk(w)
    ensures WorkingOk(AfterAll(w, operations))
    decreases |operations|
  {
    if operations != [] {
      LoopKeepsWorkingOk(w, operations[..|operations| - 1]);
      StepKeepsWorkingOk(AfterAll(w, operations[..|operations| - 1]), operations[|operations| - 1]);
    }
  }

  lemma OpenedAliasesDiffer(nodes: seq<Node>)
    requires UniqueAliases(nodes)
    ensures AliasesDiffer(OpenNodes(nodes))
  {
    hide OpenNodes, HasNode;
    var m := OpenNodes(nodes);
    forall a, b | a in m && b in m && a != b ensures m[a].alias != m[b].alias {
      var i :| 0 <= i < |nodes| && nodes[i] == m[a];
      var j :| 0 <= j < |nodes| && nodes[j] == m[b];
    }
  }

  lemma OpenIsWorkingOk(base: Snapshot)
    requires GraphOk(base.nodes, base.edges)
    ensures WorkingOk(Open(base))
  {
    hide OpenNodes, OpenEdges, HasNode, HasEdge, UniqueNodes, UniqueAliases, UniqueEdges, AliasesDiffer, Cyclic, HardGraph, FulfilledByActive;
    var w := Open(base);
    OpenedAliasesDiffer(base.nodes);
    forall e | e in w.edges ensures w.edges[e].source in w.nodes && w.edges[e].target in w.nodes {
      assert Attached(base.nodes, w.edges[e]);
    }
  }

  lemma NodesAreListed(nodes: map<string, Node>)
    ensures forall n :: n in NodesInOrder(nodes) <==> exists id :: id in nodes && nodes[id] == n
    ensures forall i :: 0 <= i < |NodesInOrder(nodes)| ==>
      SortedSet(nodes.Keys)[i] in nodes && NodesInOrder(nodes)[i] == nodes[SortedSet(nodes.Keys)[i]]
  {
    var ids, listed := SortedSet(nodes.Keys), NodesInOrder(nodes);
    forall n ensures n in listed <==> exists id :: id in nodes && nodes[id] == n {
      if n in listed {
        var i :| 0 <= i < |listed| && listed[i] == n;
        assert ids[i] in ids && nodes[ids[i]] == n;
      }
      if id :| id in nodes && nodes[id] == n {
        var i :| 0 <= i < |ids| && ids[i] == id;
        assert listed[i] == n;
      }
    }
    forall i | 0 <= i < |listed| ensures ids[i] in nodes { assert ids[i] in ids; }
  }

  lemma EdgesAreListed(edges: map<string, Edge>)
    ensures forall e :: e in EdgesInOrder(edges) <==> exists id :: id in edges && edges[id] == e
    ensures forall i :: 0 <= i < |EdgesInOrder(edges)| ==>
      SortedSet(edges.Keys)[i] in edges && EdgesInOrder(edges)[i] == edges[SortedSet(edges.Keys)[i]]
  {
    var ids, listed := SortedSet(edges.Keys), EdgesInOrder(edges);
    forall e ensures e in listed <==> exists id :: id in edges && edges[id] == e {
      if e in listed {
        var i :| 0 <= i < |listed| && listed[i] == e;
        assert ids[i] in ids && edges[ids[i]] == e;
      }
      if id :| id in edges && edges[id] == e {
        var i :| 0 <= i < |ids| && ids[i] == id;
        assert listed[i] == e;
      }
    }
    forall i | 0 <= i < |listed| ensures ids[i] in edges { assert ids[i] in ids; }
  }

  /** The lists built after the loop break none of the uniqueness and attachment rules. */
  lemma ListsAreWellFormed(w: Working)
    requires WorkingOk(w)
    ensures var nodes, edges := NodesInOrder(w.nodes), EdgesInOrder(w.edges);
      && UniqueNodes(nodes) && UniqueAliases(nodes) && UniqueEdges(edges)
      && forall e :: e in edges ==> Attached(nodes, e)
  {
    var nodes, edges := NodesInOrder(w.nodes), EdgesInOrder(w.edges);
    NodesAreListed(w.nodes);
    EdgesAreListed(w.edges);
    SortedSetIsOrdered(w.nodes.Keys);
    SortedSetIsOrdered(w.edges.Keys);
    forall e | e in edges ensures Attached(nodes, e) {
      assert w.nodes[e.source] in nodes && w.nodes[e.target] in nodes;
    }
  }

  // ---------- the verdict ----------

  /** After the loop, only a fulfilment by an inactive instance or a hard cycle can break the graph. */
  lemma GraphErrorAfterLoop(w: Working)
    requires WorkingOk(w)
    ensures var nodes, edges := NodesInOrder(w.nodes), EdgesInOrder(w.edges);
      var error := GraphErrorOf(nodes, edges);
      && (error == Some(InactiveFulfillment) <==> exists e :: e in edges && !FulfilledByActive(nodes, e))
      && (error == Some(HardCycle) ==> Cyclic(HardGraph(nodes, edges)))
      && (error == None || error == Some(InactiveFulfillment) || error == Some(HardCycle))
  {
    hide WorkingOk, NodesInOrder, EdgesInOrder, FulfilledByActive, HardGraph, Cyclic, Attached;
    ListsAreWellFormed(w);
  }

  /** GRAPH_INVALID can only come from a fulfilment by an inactive instance or from a hard cycle. */
  lemma GraphInvalidExactly(base: Snapshot, p: Patch, error: GraphError)
    requires GraphOk(base.nodes, base.edges)
    requires Issue(GraphInvalid(error), None) in ValidationOf(base, p).issues
    ensures var s := Close(base, AfterAll(Open(base), p.operations));
      && error == (if exists e :: e in s.edges && !FulfilledByActive(s.nodes, e) then InactiveFulfillment else HardCycle)
      && (error == HardCycle ==> Cyclic(HardGraph(s.nodes, s.edges)))
  {
    hide GraphOk, Cyclic, HardGraph, FulfilledByActive, AfterAll, WorkingOk, GraphErrorOf, Open, ValidationOf;
    OpenIsWorkingOk(base);
    LoopKeepsWorkingOk(Open(base), p.operations);
    GraphErrorAfterLoop(AfterAll(Open(base), p.operations));
    GraphIssueComesFromGraph(base, p, error);
  }

  lemma GraphIssueComesFromGraph(base: Snapshot, p: Patch, error: GraphError)
    requires Issue(GraphInvalid(error), None) in ValidationOf(base, p).issues
    ensures var s := Close(base, AfterAll(Open(base), p.operations)); GraphErrorOf(s.nodes, s.edges) == Some(error)
  {
    hide AfterAll, GraphErrorOf, Open, BindingIssues, IssuesOf, NodesInOrder, EdgesInOrder;
    BindingIssuesAreNotGraphErrors(base, p);
    OperationIssuesAreNotGraphErrors(Open(base), p.operations);
  }

  lemma BindingIssuesAreNotGraphErrors(base: Snapshot, p: Patch)
    ensures forall x :: x in BindingIssues(base, p) ==> !x.code.GraphInvalid?
  {}

  lemma {:induction false} OperationIssuesAreNotGraphErrors(w: Working, operations: seq<Operation>)
    ensures forall x :: x in IssuesOf(w, operations) ==> x.operation.Some?
    decreases |operations|
  {
    if operations != [] {
      OperationIssuesAreNotGraphErrors(w, operations[..|operations| - 1]);
    }
  }

  /** No operation is refused at its turn exactly when the loop reports nothing. */
  lemma {:induction false} NoIssuesExactly(w: Working, operations: seq<Operation>)
    ensures IssuesOf(w, operations) == [] <==> NoneRefused(w, operations)
    decreases |operations|
  {
    hide Refusal, AfterAll;
    if operations != [] {
      var earlier := operations[..|operations| - 1];
      NoIssuesExactly(w, earlier);
      assert forall i :: 0 <= i < |earlier| ==> operations[..i] == earlier[..i] && operations[i] == earlier[i];
    }
  }

  ghost predicate NoneRefused(w: Working, operations: seq<Operation>) {
    forall i :: 0 <= i < |operations| ==> Refusal(AfterAll(w, operations[..i]), operations[i]).None?
  }

  /** On a lock that meets the invariant a patch is valid exactly when it is bound to that lock, no
      operation is refused at its turn, and what the operations leave fulfils only through active
      instances and has no hard cycle: nothing else can break the graph. */
  lemma PatchIsValidExactly(base: Snapshot, p: Patch)
    requires GraphOk(base.nodes, base.edges)
    ensures var s := Close(base, AfterAll(Open(base), p.operations));
      ValidationOf(base, p).simulated.Some? <==>
        && p.organization == base.organization && p.baseVersion == base.version && p.baseHash == base
        && NoneRefused(Open(base), p.operations)
        && (forall e :: e in s.edges ==> FulfilledByActive(s.nodes, e))
        && !Cyclic(HardGraph(s.nodes, s.edges))
  {
    hide AfterAll, WorkingOk, GraphErrorOf, Open, IssuesOf, FulfilledByActive, HardGraph, Cyclic, NodesInOrder, EdgesInOrder, NoneRefused;
    NoIssuesExactly(Open(base), p.operations);
    OpenIsWorkingOk(base);
    LoopKeepsWorkingOk(Open(base), p.operations);
    GraphErrorAfterLoop(AfterAll(Open(base), p.operations));
  }

  /** A valid patch gives the next version, with the whole invariant. */
  lemma ValidPatchKeepsGraphOk(base: Snapshot, p: Patch)
    ensures var v := ValidationOf(base, p);
      && (v.simulated.Some? <==> v.issues == [])
      && (v.simulated.Some? ==>
            && p.baseVersion == base.version && p.baseHash == base
            && v.simulated.value.version == base.version + 1
            && v.simulated.value.organization == base.organization == p.organization
            && GraphOk(v.simulated.value.nodes, v.simulated.value.edges))
  {
    hide GraphOk;
  }

  lemma ClosingKeepsNodes(nodes: map<string, Node>)
    requires forall id :: id in nodes ==> nodes[id].id == id
    ensures OpenNodes(NodesInOrder(nodes)) == nodes
  {
    hide NodesInOrder, OpenNodes;
    var listed := NodesInOrder(nodes);
    NodesAreListed(nodes);
    var found := OpenNodes(listed);
    forall id ensures id in found <==> id in nodes {
      if id in nodes { assert nodes[id] in listed; }
    }
    forall id | id in found ensures found[id] == nodes[id] {
      var key :| key in nodes && nodes[key] == found[id];
    }
  }

  lemma ClosingKeepsEdges(edges: map<string, Edge>)
    requires forall id :: id in edges ==> edges[id].id == id
    ensures OpenEdges(EdgesInOrder(edges)) == edges
  {
    hide EdgesInOrder, OpenEdges;
    var listed := EdgesInOrder(edges);
    EdgesAreListed(edges);
    var found := OpenEdges(listed);
    forall id ensures id in found <==> id in edges {
      if id in edges { assert edges[id] in listed; }
    }
    forall id | id in found ensures found[id] == edges[id] {
      var key :| key in edges && edges[key] == found[id];
    }
  }

  /** Nothing is lost between the dictionaries of the loop and the snapshot. */
  lemma ClosingKeepsEverything(base: Snapshot, w: Working)
    requires WorkingOk(w)
    ensures Open(Close(base, w)) == w
  {
    ClosingKeepsNodes(w.nodes);
    ClosingKeepsEdges(w.edges);
  }

  // ---------- product instances ----------

  predicate IsInstance(w: Working, id: string) {
    id in w.nodes && w.nodes[id].nodeType == ProductInstance
  }

  function StateIn(w: Working, id: string): InstanceState
    requires IsInstance(w, id)
  {
    w.nodes[id].state.value
  }

  predicate IsLifecycle(path: seq<InstanceState>) {
    path != [] && forall i :: 0 <= i < |path| - 1 ==> path[i + 1] in NextStates(path[i])
  }

  /** The state reaches the other along allowed lifecycle transitions. */
  ghost predicate Becomes(a: InstanceState, b: InstanceState) {
    exists path :: IsLifecycle(path) && path[0] == a && path[|path| - 1] == b
  }

  lemma BecomesAfter(a: InstanceState, b: InstanceState, c: InstanceState)
    requires Becomes(a, b) && (c == b || c in NextStates(b))
    ensures Becomes(a, c)
  {
    var path :| IsLifecycle(path) && path[0] == a && path[|path| - 1] == b;
    if c != b {
      assert IsLifecycle(path + [c]);
      assert (path + [c])[|path|] == c;
    }
  }

  lemma {:induction false} BecomesTransitive(a: InstanceState, path: seq<InstanceState>)
    requires IsLifecycle(path) && Becomes(a, path[0])
    ensures Becomes(a, path[|path| - 1])
    decreases |path|
  {
    if |path| > 1 {
      BecomesAfter(a, path[0], path[1]);
      assert IsLifecycle(path[1..]) by {
        forall i | 0 <= i < |path[1..]| - 1 ensures path[1..][i + 1] in NextStates(path[1..][i]) {
          assert path[i + 2] in NextStates(path[i + 1]);
        }
      }
      BecomesTransitive(a, path[1..]);
    }
  }

  lemma StaysItself(a: InstanceState)
    ensures Becomes(a, a)
  {
    assert IsLifecycle([a]);
  }

  lemma FirstStepIsAllowed(path: seq<InstanceState>)
    requires IsLifecycle(path)
    ensures |path| > 1 ==> path[1] in NextStates(path[0])
  {}

  /** A cancelled instance stays cancelled. */
  lemma CancelledIsFinal(b: InstanceState)
    requires Becomes(Cancelled, b)
    ensures b == Cancelled
  {
    var path :| IsLifecycle(path) && path[0] == Cancelled && path[|path| - 1] == b;
    FirstStepIsAllowed(path);
  }

  lemma {:induction false} LoopKeepsInstances(w: Working, operations: seq<Operation>, id: string)
    requires IsInstance(w, id)
    ensures IsInstance(AfterAll(w, operations), id)
    ensures Becomes(StateIn(w, id), StateIn(AfterAll(w, operations), id))
    decreases |operations|
  {
    if operations == [] {
      StaysItself(StateIn(w, id));
    } else {
      var earlier, last := operations[..|operations| - 1], operations[|operations| - 1];
      LoopKeepsInstances(w, earlier, id);
      var before := AfterAll(w, earlier);
      StepMovesAlong(before, last, id);
      BecomesAfter(StateIn(w, id), StateIn(before, id), StateIn(StepTo(before, last), id));
    }
  }

  lemma StepMovesAlong(w: Working, o: Operation, id: string)
    requires IsInstance(w, id)
    ensures IsInstance(StepTo(w, o), id)
    ensures StateIn(StepTo(w, o), id) == StateIn(w, id) || StateIn(StepTo(w, o), id) in NextStates(StateIn(w, id))
  {}

  predicate IsActive(w: Working, id: string) {
    IsInstance(w, id) && StateIn(w, id) == Active
  }

  /** The patch holds a deployment-validated transition of this instance to ACTIVE. */
  predicate ActivatesValidated(operations: seq<Operation>, id: string) {
    exists o :: o in operations && o.Transition? && o.nodeId == id && o.toState == Active && o.deploymentValidated
  }

  lemma {:induction false} ActivationIsValidated(w: Working, operations: seq<Operation>, id: string)
    requires KeyedById(w)
    requires IsActive(AfterAll(w, operations), id) && !IsActive(w, id)
    ensures ActivatesValidated(operations, id)
    decreases |operations|
  {
    if operations != [] {
      var earlier, last := operations[..|operations| - 1], operations[|operations| - 1];
      assert operations == earlier + [last];
      var before := AfterAll(w, earlier);
      if IsActive(before, id) {
        ActivationIsValidated(w, earlier, id);
        var o :| o in earlier && o.Transition? && o.nodeId == id && o.toState == Active && o.deploymentValidated;
        assert o in operations;
      } else {
        assert last in operations && last.Transition? && last.nodeId == id;
      }
    }
  }

  // ---------- runs of applied patches ----------

  datatype ApplyError = NotApproved | InvalidPatch(issues: seq<Issue>)

  ghost function ApplyApprovedPatch(base: Snapshot, p: Patch): Result<Snapshot, ApplyError> {
    if p.status != Approved then Failure(NotApproved)
    else
      var v := ValidationOf(base, p);
      if v.simulated.Some? then Success(v.simulated.value) else Failure(InvalidPatch(v.issues))
  }

  /** A refused patch leaves the lock as it was. */
  ghost function Next(base: Snapshot, p: Patch): Snapshot {
    var r := ApplyApprovedPatch(base, p);
    if r.Success? then r.value else base
  }

  ghost function AfterPatches(base: Snapshot, patches: seq<Patch>): Snapshot
    decreases |patches|
  {
    if patches == [] then base
    else Next(AfterPatches(base, patches[..|patches| - 1]), patches[|patches| - 1])
  }

  lemma ApplyingKeepsGraphOk(base: Snapshot, p: Patch)
    requires GraphOk(base.nodes, base.edges)
    ensures GraphOk(Next(base, p).nodes, Next(base, p).edges)
    ensures ApplyApprovedPatch(base, p).Success? ==>
      WorkingOk(Open(base)) && Open(Next(base, p)) == AfterAll(Open(base), p.operations)
  {
    hide GraphOk;
    ValidPatchKeepsGraphOk(base, p);
    OpenIsWorkingOk(base);
    LoopKeepsWorkingOk(Open(base), p.operations);
    ClosingKeepsEverything(base, AfterAll(Open(base), p.operations));
  }

  /** Every reachable lock meets the graph invariant, and its version never falls. */
  lemma {:induction false} EveryLockIsValid(base: Snapshot, patches: seq<Patch>)
    requires GraphOk(base.nodes, base.edges)
    ensures var s := AfterPatches(base, patches); GraphOk(s.nodes, s.edges) && s.version >= base.version
    decreases |patches|
  {
    hide GraphOk;
    if patches != [] {
      var earlier, last := patches[..|patches| - 1], patches[|patches| - 1];
      EveryLockIsValid(base, earlier);
      ApplyingKeepsGraphOk(AfterPatches(base, earlier), last);
      ValidPatchKeepsGraphOk(AfterPatches(base, earlier), last);
    }
  }

  /** Over any run no product instance disappears, and its state only follows the lifecycle. */
  lemma {:induction false} InstancesFollowTheirLifecycle(base: Snapshot, patches: seq<Patch>, id: string)
    requires GraphOk(base.nodes, base.edges) && IsInstance(Open(base), id)
    ensures var w := Open(AfterPatches(base, patches));
      && IsInstance(w, id)
      && Becomes(StateIn(Open(base), id), StateIn(w, id))
      && (StateIn(Open(base), id) == Cancelled ==> StateIn(w, id) == Cancelled)
    decreases |patches|
  {
    hide GraphOk, Open;
    if patches == [] {
      StaysItself(StateIn(Open(base), id));
    } else {
      var earlier, last := patches[..|patches| - 1], patches[|patches| - 1];
      InstancesFollowTheirLifecycle(base, earlier, id);
      EveryLockIsValid(base, earlier);
      var before := AfterPatches(base, earlier);
      ApplyingKeepsGraphOk(before, last);
      if ApplyApprovedPatch(before, last).Success? {
        LoopKeepsInstances(Open(before), last.operations, id);
        var path :| IsLifecycle(path) && path[0] == StateIn(Open(before), id)
                    && path[|path| - 1] == StateIn(Open(Next(before, last)), id);
        BecomesTransitive(StateIn(Open(base), id), path);
      }
    }
    if StateIn(Open(base), id) == Cancelled {
      CancelledIsFinal(StateIn(Open(AfterPatches(base, patches)), id));
    }
  }

  /** An instance that a step of the run makes ACTIVE is activated by a validated transition of the very
      patch applied at that step. */
  lemma NewlyActiveIsValidated(base: Snapshot, patches: seq<Patch>, p: Patch, id: string)
    requires GraphOk(base.nodes, base.edges)
    requires !IsActive(Open(AfterPatches(base, patches)), id)
    requires IsActive(Open(Next(AfterPatches(base, patches), p)), id)
    ensures p.status == Approved && ActivatesValidated(p.operations, id)
  {
    hide GraphOk, Open;
    EveryLockIsValid(base, patches);
    var before := AfterPatches(base, patches);
    ApplyingKeepsGraphOk(before, p);
    ActivationIsValidated(Open(before), p.operations, id);
  }

  /** Once a patch was applied, every other patch bound to the same base is stale, now and later. */
  lemma SecondPatchIsStale(base: Snapshot, p: Patch, later: seq<Patch>, q: Patch)
    requires GraphOk(base.nodes, base.edges) && ApplyApprovedPatch(base, p).Success?
    requires q.baseVersion == base.version
    ensures var v := ValidationOf(AfterPatches(Next(base, p), later), q);
      v.simulated.None? && Issue(StaleBase, None) in v.issues
  {
    hide GraphOk;
    ApplyingKeepsGraphOk(base, p);
    ValidPatchKeepsGraphOk(base, p);
    EveryLockIsValid(Next(base, p), later);
  }

  // ---------- status ----------

  function NextStatuses(s: PatchStatus): set<PatchStatus> {
    match s
    case Draft => {Validated, Failed, Conflict}
    case Validated => {AwaitingApproval}
    case AwaitingApproval => {Approved, Conflict}
    case Approved => {Applying, Conflict}
    case Applying => {Applied, Failed}
    case Applied => {CompensatingPatch}
    case Conflict => {}
    case Failed => {CompensatingPatch}
    case CompensatingPatch => {}
  }

  datatype TransitionError = InvalidTransition(before: PatchStatus, target: PatchStatus)

  function TransitionStatus(p: Patch, target: PatchStatus): Result<Patch, TransitionError> {
    if target !in NextStatuses(p.status) then Failure(InvalidTransition(p.status, target)) else Success(p.(status := target))
  }

  /** The states of one patch, from its draft on, each reached from the one before by a transition that
      succeeded. */
  predicate IsPatchHistory(history: seq<Patch>) {
    && history != [] && history[0].status == Draft
    && forall i :: 0 <= i < |history| - 1 ==> TransitionStatus(history[i], history[i + 1].status) == Success(history[i + 1])
  }

  /** A patch that is approved was validated and awaited approval first, in this order; one that is applied
      was approved first; and all along it is the same patch. */
  lemma {:induction false} ApprovalFollowsValidation(history: seq<Patch>, i: nat)
    requires IsPatchHistory(history) && i < |history|
    ensures history[i] == history[0].(status := history[i].status)
    ensures history[i].status == Draft ==> i == 0
    ensures history[i].status == Validated ==> i == 1
    ensures history[i].status == AwaitingApproval ==> i == 2 && history[1].status == Validated
    ensures history[i].status == Approved ==> i == 3 && history[1].status == Validated && history[2].status == AwaitingApproval
    ensures history[i].status == Applying ==> i == 4 && history[3].status == Approved
    ensures history[i].status == Applied ==> i == 5 && history[3].status == Approved && history[4].status == Applying
  {
    if i > 0 {
      ApprovalFollowsValidation(history, i - 1);
      assert TransitionStatus(history[i - 1], history[(i - 1) + 1].status) == Success(history[i]);
    }
  }
}
