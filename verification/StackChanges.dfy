/** What the operations of a patch change, when they are refused, and what a valid patch leaves, told by the entries of
    the dictionaries and the edges of the lock. */
module StackChanges {
  import opened Outcomes
  import opened Ordering
  import opened DirectedGraphs
  import opened StackGraphs
  import opened StackPatches
  import opened StackHistories

  // ---------- the lifecycle ----------

  /** The transitions of the lifecycle, one by one. */
  const TRANSITIONS := {
    (Proposed, Contracted), (Contracted, Provisioned), (Contracted, Retiring), (Provisioned, Deploying),
    (Provisioned, Retiring), (Deploying, InstanceState.Active), (Deploying, Degraded), (Deploying, Retiring),
    (InstanceState.Active, Degraded), (InstanceState.Active, Retiring), (Degraded, InstanceState.Active),
    (Degraded, Retiring), (Retiring, Cancelled) }

  lemma LifecycleExactly(a: InstanceState, b: InstanceState)
    ensures b in NextStates(a) <==> (a, b) in TRANSITIONS
  {
  }

  // ---------- refusals ----------

  ghost predicate IsInstanceIn(w: Working, id: string, s: InstanceState) {
    id in w.nodes && w.nodes[id].nodeType == ProductInstance && w.nodes[id].state == Some(s)
  }

  ghost predicate AliasTaken(w: Working, alias: string) {
    exists id :: id in w.nodes && w.nodes[id].alias == alias
  }

  ghost predicate HasEdgeAt(w: Working, id: string) {
    exists e :: e in w.edges && (w.edges[e].source == id || w.edges[e].target == id)
  }

  /** The operation is refused with this code. */
  ghost predicate Refuses(w: Working, o: Operation, code: Code) {
    match code
    case DuplicateNode => o.AddNode? && o.node.id in w.nodes
    case DuplicateNodeAlias => o.AddNode? && o.node.id !in w.nodes && AliasTaken(w, o.node.alias)
    case DuplicateEdge => o.AddEdge? && o.edge.id in w.edges
    case MissingEndpoint => o.AddEdge? && o.edge.id !in w.edges && !(o.edge.source in w.nodes && o.edge.target in w.nodes)
    case NotProductInstance => o.Transition? && !(o.nodeId in w.nodes && w.nodes[o.nodeId].nodeType == ProductInstance)
    case StaleInstanceState =>
      o.Transition? && (exists s :: IsInstanceIn(w, o.nodeId, s)) && !IsInstanceIn(w, o.nodeId, o.fromState)
    case InvalidInstanceTransition =>
      o.Transition? && IsInstanceIn(w, o.nodeId, o.fromState) && (o.fromState, o.toState) !in TRANSITIONS
    case DeploymentNotValidated =>
      && o.Transition? && IsInstanceIn(w, o.nodeId, o.fromState) && (o.fromState, o.toState) in TRANSITIONS
      && o.toState == InstanceState.Active && !o.deploymentValidated
    case MissingEdge => o.RemoveEdge? && o.edgeId !in w.edges
    case MissingNode => o.RemoveNode? && o.nodeId !in w.nodes
    case InstanceHistoryRequired => o.RemoveNode? && o.nodeId in w.nodes && w.nodes[o.nodeId].nodeType == ProductInstance
    case DependenciesRemain =>
      o.RemoveNode? && o.nodeId in w.nodes && w.nodes[o.nodeId].nodeType != ProductInstance && HasEdgeAt(w, o.nodeId)
    case TenantMismatch => false
    case StaleBase => false
    case GraphInvalid(_) => false
  }

  /** An operation is refused with a code exactly when the dictionaries call for that code. */
  lemma RefusedExactly(w: Working, o: Operation, code: Code)
    ensures Refusal(w, o) == Some(code) <==> Refuses(w, o, code)
  {
    if o.Transition? { LifecycleExactly(o.fromState, o.toState); }
    hide NextStates;
    match o
    case Transition(_, id, from, to, validated) => TransitionRefusedExactly(w, o, code);
    case _ =>
  }

  lemma TransitionRefusedExactly(w: Working, o: Operation, code: Code)
    requires o.Transition? && (o.toState in NextStates(o.fromState) <==> (o.fromState, o.toState) in TRANSITIONS)
    ensures Refusal(w, o) == Some(code) <==> Refuses(w, o, code)
  {
    hide NextStates;
    if o.nodeId in w.nodes && w.nodes[o.nodeId].nodeType == ProductInstance {
      assert IsInstanceIn(w, o.nodeId, w.nodes[o.nodeId].state.value);
    }
  }

  // ---------- changes ----------

  ghost predicate SameNode(w: Working, w1: Working, id: string) {
    (id in w.nodes <==> id in w1.nodes) && (id in w.nodes ==> w1.nodes[id] == w.nodes[id])
  }

  ghost predicate SameEdge(w: Working, w1: Working, id: string) {
    (id in w.edges <==> id in w1.edges) && (id in w.edges ==> w1.edges[id] == w.edges[id])
  }

  ghost predicate OtherNodesStay(w: Working, w1: Working, id: string) {
    forall other :: other != id ==> SameNode(w, w1, other)
  }

  ghost predicate OtherEdgesStay(w: Working, w1: Working, id: string) {
    forall other :: other != id ==> SameEdge(w, w1, other)
  }

  ghost predicate OnlyStateDiffers(a: Node, b: Node) {
    b.id == a.id && b.alias == a.alias && b.nodeType == a.nodeType && b.attributes == a.attributes
  }

  /** What an accepted operation leaves: the given value under its identifier, the new state of the one node, or
      nothing under the removed identifier; every other entry of both dictionaries stays. */
  ghost predicate Changes(w: Working, o: Operation, w1: Working) {
    match o
    case AddNode(_, node) =>
      w1.edges == w.edges && OtherNodesStay(w, w1, node.id) && node.id in w1.nodes && w1.nodes[node.id] == node
    case AddEdge(_, edge) =>
      w1.nodes == w.nodes && OtherEdgesStay(w, w1, edge.id) && edge.id in w1.edges && w1.edges[edge.id] == edge
    case Transition(_, id, _, toState, _) =>
      && w1.edges == w.edges && OtherNodesStay(w, w1, id) && id in w.nodes && id in w1.nodes
      && OnlyStateDiffers(w.nodes[id], w1.nodes[id]) && w1.nodes[id].state == Some(toState)
    case RemoveEdge(_, id) => w1.nodes == w.nodes && OtherEdgesStay(w, w1, id) && id !in w1.edges
    case RemoveNode(_, id) => w1.edges == w.edges && OtherNodesStay(w, w1, id) && id !in w1.nodes
  }

  ghost predicate IsAccepted(w: Working, o: Operation) {
    forall code :: !Refuses(w, o, code)
  }

  /** One turn: an accepted operation changes the dictionaries, a refused one leaves them. */
  ghost predicate Turns(w: Working, o: Operation, w1: Working) {
    if IsAccepted(w, o) then Changes(w, o, w1) else w1 == w
  }

  lemma AcceptedExactly(w: Working, o: Operation)
    ensures IsAccepted(w, o) <==> Refusal(w, o).None?
  {
    hide Refusal, Refuses;
    if Refusal(w, o).Some? { RefusedExactly(w, o, Refusal(w, o).value); }
    forall code ensures Refusal(w, o) == Some(code) <==> Refuses(w, o, code) { RefusedExactly(w, o, code); }
  }

  lemma SameNodesExactly(w: Working, w1: Working)
    ensures w.nodes == w1.nodes <==> forall id :: SameNode(w, w1, id)
  {
    if forall id :: SameNode(w, w1, id) {
      forall id ensures (id in w.nodes <==> id in w1.nodes) && (id in w.nodes ==> w1.nodes[id] == w.nodes[id]) {
        assert SameNode(w, w1, id);
      }
    }
  }

  lemma SameEdgesExactly(w: Working, w1: Working)
    ensures w.edges == w1.edges <==> forall id :: SameEdge(w, w1, id)
  {
    if forall id :: SameEdge(w, w1, id) {
      forall id ensures (id in w.edges <==> id in w1.edges) && (id in w.edges ==> w1.edges[id] == w.edges[id]) {
        assert SameEdge(w, w1, id);
      }
    }
  }

  lemma EffectChanges(w: Working, o: Operation)
    requires Refusal(w, o).None?
    ensures Changes(w, o, Effect(w, o))
  {
  }

  /** The entries determine the dictionaries. */
  lemma OneChange(w: Working, o: Operation, a: Working, b: Working)
    requires Changes(w, o, a) && Changes(w, o, b)
    ensures a == b
  {
    forall id ensures SameNode(a, b, id) && SameEdge(a, b, id) { OneChangeAt(w, o, a, b, id); }
    SameNodesExactly(a, b);
    SameEdgesExactly(a, b);
  }

  lemma OneChangeAt(w: Working, o: Operation, a: Working, b: Working, id: string)
    requires Changes(w, o, a) && Changes(w, o, b)
    ensures SameNode(a, b, id) && SameEdge(a, b, id)
  {
    assert o.AddNode? && o.node.id != id ==> SameNode(w, a, id) && SameNode(w, b, id);
    assert o.AddEdge? && o.edge.id != id ==> SameEdge(w, a, id) && SameEdge(w, b, id);
    assert (o.Transition? || o.RemoveNode?) && o.nodeId != id ==> SameNode(w, a, id) && SameNode(w, b, id);
    assert o.RemoveEdge? && o.edgeId != id ==> SameEdge(w, a, id) && SameEdge(w, b, id);
  }

  /** One turn of the loop leaves exactly what the operation changes. */
  lemma TurnExactly(w: Working, o: Operation, w1: Working)
    ensures StepTo(w, o) == w1 <==> Turns(w, o, w1)
  {
    hide Refusal, Refuses, Changes, Effect;
    AcceptedExactly(w, o);
    if Refusal(w, o).None? {
      EffectChanges(w, o);
      if Changes(w, o, w1) { OneChange(w, o, w1, Effect(w, o)); }
    }
  }

  // ---------- the loop ----------

  /** The dictionaries before the first operation and after each one. */
  ghost predicate IsLoop(start: Working, operations: seq<Operation>, states: seq<Working>) {
    && |states| == |operations| + 1 && states[0] == start
    && forall i :: 0 <= i < |operations| ==> Turns(states[i], operations[i], states[i + 1])
  }

  ghost function StatesOf(start: Working, operations: seq<Operation>): (states: seq<Working>)
    ensures |states| == |operations| + 1
    ensures forall i :: 0 <= i <= |operations| ==> states[i] == AfterAll(start, operations[..i])
  {
    seq(|operations| + 1, i requires 0 <= i <= |operations| => AfterAll(start, operations[..i]))
  }

  /** The loop goes through exactly one such sequence of dictionaries. */
  lemma {:induction false} LoopExactly(start: Working, operations: seq<Operation>, states: seq<Working>)
    ensures IsLoop(start, operations, states) <==> states == StatesOf(start, operations)
  {
    var loop := StatesOf(start, operations);
    hide Turns, AfterAll, StepTo;
    forall i | 0 <= i < |operations| ensures loop[i + 1] == StepTo(loop[i], operations[i]) { OneMore(start, operations, i); }
    forall w, w1, i | 0 <= i < |operations| ensures StepTo(w, operations[i]) == w1 <==> Turns(w, operations[i], w1) {
      TurnExactly(w, operations[i], w1);
    }
    assert loop[0] == start by { OneMore0(start, operations); }
    if IsLoop(start, operations, states) {
      forall i | 0 <= i <= |operations| ensures states[i] == loop[i] { SameLoop(start, operations, states, loop, i); }
    }
  }

  lemma OneMore0(start: Working, operations: seq<Operation>)
    ensures AfterAll(start, operations[..0]) == start
  {
  }

  lemma OneMore(start: Working, operations: seq<Operation>, i: nat)
    requires i < |operations|
    ensures AfterAll(start, operations[..i + 1]) == StepTo(AfterAll(start, operations[..i]), operations[i])
  {
    hide StepTo;
    assert operations[..i + 1][..i] == operations[..i];
  }

  lemma {:induction false} SameLoop(start: Working, operations: seq<Operation>, states: seq<Working>, loop: seq<Working>, i: nat)
    requires |states| == |operations| + 1 && |loop| == |operations| + 1 && states[0] == loop[0] && i <= |operations|
    requires forall k :: 0 <= k < |operations| ==> Turns(states[k], operations[k], states[k + 1])
    requires forall k :: 0 <= k < |operations| ==> loop[k + 1] == StepTo(loop[k], operations[k])
    ensures states[i] == loop[i]
  {
    hide Turns, StepTo;
    if i > 0 {
      SameLoop(start, operations, states, loop, i - 1);
      assert Turns(states[i - 1], operations[i - 1], states[(i - 1) + 1]);
      assert loop[(i - 1) + 1] == StepTo(loop[i - 1], operations[i - 1]);
      TurnExactly(states[i - 1], operations[i - 1], states[i]);
    }
  }

  // ---------- the issues ----------

  /** The issues, in order, are those of the operations refused at their turns, each under its code. */
  ghost predicate AreIssues(operations: seq<Operation>, states: seq<Working>, issues: seq<Issue>, turns: seq<nat>)
    requires |states| == |operations| + 1
  {
    && |turns| == |issues| && (forall k, l :: 0 <= k < l < |turns| ==> turns[k] < turns[l])
    && (forall k :: 0 <= k < |turns| ==> IsIssueOf(operations, states, turns[k], issues[k]))
    && (forall i :: 0 <= i < |operations| && !IsAccepted(states[i], operations[i]) ==> i in turns)
  }

  ghost predicate IsIssueOf(operations: seq<Operation>, states: seq<Working>, i: int, issue: Issue)
    requires |states| == |operations| + 1
  {
    && 0 <= i < |operations| && Refuses(states[i], operations[i], issue.code)
    && issue.operation == Some(operations[i].operationId)
  }

  lemma {:induction false} IssuesExactly(start: Working, operations: seq<Operation>) returns (turns: seq<nat>)
    ensures AreIssues(operations, StatesOf(start, operations), IssuesOf(start, operations), turns)
    decreases |operations|
  {
    hide Refusal, Refuses, AfterAll;
    if operations == [] {
      turns := [];
    } else {
      var n := |operations| - 1;
      var earlier, last := operations[..n], operations[n];
      turns := IssuesExactly(start, earlier);
      var before := StatesOf(start, operations)[n];
      assert forall i :: 0 <= i <= n ==> earlier[..i] == operations[..i];
      AcceptedExactly(before, last);
      if Refusal(before, last).Some? {
        RefusedExactly(before, last, Refusal(before, last).value);
        turns := OneMoreIssue(start, operations, IssuesOf(start, earlier), turns, Issue(Refusal(before, last).value, Some(last.operationId)));
      }
    }
  }

  lemma OneMoreIssue(start: Working, operations: seq<Operation>, issues: seq<Issue>, turns: seq<nat>, issue: Issue) returns (more: seq<nat>)
    requires operations != []
    requires var earlier := operations[..|operations| - 1]; AreIssues(earlier, StatesOf(start, earlier), issues, turns)
    requires IsIssueOf(operations, StatesOf(start, operations), |operations| - 1, issue)
    ensures AreIssues(operations, StatesOf(start, operations), issues + [issue], more)
  {
    hide Refuses, AfterAll, IsAccepted;
    var n := |operations| - 1;
    var earlier := operations[..n];
    assert forall i :: 0 <= i <= n ==> earlier[..i] == operations[..i];
    more := turns + [n];
    forall k | 0 <= k < |more| ensures IsIssueOf(operations, StatesOf(start, operations), more[k], (issues + [issue])[k]) {
      if k < |turns| { assert IsIssueOf(earlier, StatesOf(start, earlier), turns[k], issues[k]); }
    }
    forall k, l | 0 <= k < l < |more| ensures more[k] < more[l] {
      assert IsIssueOf(earlier, StatesOf(start, earlier), turns[k], issues[k]);
    }
    forall i | 0 <= i < |operations| && !IsAccepted(StatesOf(start, operations)[i], operations[i]) ensures i in more {
      if i < n { assert i in turns; } else { assert more[|turns|] == n; }
    }
  }

  // ---------- hard cycles ----------

  ghost predicate IsHard(e: Edge) {
    e.hard && e.edgeType in {Requires, RequiresCapability}
  }

  /** Hard dependencies of the lock, each one starting where the one before ends, the last one ending where the
      first one starts. */
  ghost predicate IsHardCycle(edges: seq<Edge>, cycle: seq<Edge>) {
    && cycle != [] && (forall e :: e in cycle ==> e in edges && IsHard(e))
    && (forall i :: 0 <= i < |cycle| - 1 ==> cycle[i].target == cycle[i + 1].source)
    && cycle[|cycle| - 1].target == cycle[0].source
  }

  lemma HardStep(nodes: seq<Node>, edges: seq<Edge>, a: string, b: string)
    requires a in HardGraph(nodes, edges)
    ensures b in HardGraph(nodes, edges)[a] <==> exists e :: e in edges && IsHard(e) && e.source == a && e.target == b
  {
  }

  lemma CycleOfEdges(nodes: seq<Node>, edges: seq<Edge>, cycle: seq<Edge>)
    requires IsHardCycle(edges, cycle) && forall e :: e in edges ==> Attached(nodes, e)
    ensures Cyclic(HardGraph(nodes, edges))
  {
    var g := HardGraph(nodes, edges);
    var p := seq(|cycle|, i requires 0 <= i < |cycle| => cycle[i].source) + [cycle[0].source];
    forall i | 0 <= i < |cycle| ensures p[i] == cycle[i].source && p[i + 1] == cycle[i].target && p[i] in g && p[i + 1] in g[p[i]] {
      assert cycle[i] in cycle && Attached(nodes, cycle[i]);
      hide HardGraph, IsHard, Attached;
      HardStep(nodes, edges, p[i], p[i + 1]);
    }
    hide HardGraph;
    assert IsPath(g, p);
    assert Connects(g, p, p[0], p[0]);
    assert OnCycle(g, p[0]);
  }

  lemma EdgesOfCycle(nodes: seq<Node>, edges: seq<Edge>) returns (cycle: seq<Edge>)
    requires Cyclic(HardGraph(nodes, edges))
    ensures IsHardCycle(edges, cycle)
  {
    var g := HardGraph(nodes, edges);
    var n :| OnCycle(g, n);
    var p :| |p| >= 2 && Connects(g, p, n, n);
    cycle := EdgesOfPath(nodes, edges, p, |p| - 1);
  }

  lemma {:induction false} EdgesOfPath(nodes: seq<Node>, edges: seq<Edge>, p: seq<string>, k: nat) returns (walk: seq<Edge>)
    requires IsPath(HardGraph(nodes, edges), p) && k < |p|
    ensures |walk| == k && forall e :: e in walk ==> e in edges && IsHard(e)
    ensures forall i :: 0 <= i < k ==> walk[i].source == p[i] && walk[i].target == p[i + 1]
    decreases k
  {
    hide HardGraph, IsHard;
    walk := [];
    if k > 0 {
      walk := EdgesOfPath(nodes, edges, p, k - 1);
      assert p[k - 1] in HardGraph(nodes, edges) && p[(k - 1) + 1] in HardGraph(nodes, edges)[p[k - 1]];
      HardStep(nodes, edges, p[k - 1], p[k]);
      var e :| e in edges && IsHard(e) && e.source == p[k - 1] && e.target == p[k];
      walk := walk + [e];
    }
  }

  /** The graph of hard dependencies is cyclic exactly when some of the edges close a cycle of hard dependencies. */
  lemma CyclicExactly(nodes: seq<Node>, edges: seq<Edge>)
    requires forall e :: e in edges ==> Attached(nodes, e)
    ensures Cyclic(HardGraph(nodes, edges)) <==> exists cycle :: IsHardCycle(edges, cycle)
  {
    hide HardGraph, Attached, Cyclic, IsHardCycle;
    if Cyclic(HardGraph(nodes, edges)) { var cycle := EdgesOfCycle(nodes, edges); }
    if cycle :| IsHardCycle(edges, cycle) { CycleOfEdges(nodes, edges, cycle); }
  }

  /** No instance that is not ACTIVE fulfils: neither as the source of FULFILLS nor as the target of FULFILLED_BY. */
  ghost predicate FulfilsOnlyActive(nodes: seq<Node>, e: Edge) {
    forall n :: n in nodes && n.nodeType == ProductInstance && n.state != Some(InstanceState.Active) ==>
      && (e.edgeType == Fulfills ==> e.source != n.id)
      && (e.edgeType == FulfilledBy ==> e.target != n.id)
  }

  lemma FulfilmentExactly(nodes: seq<Node>, e: Edge)
    ensures FulfilledByActive(nodes, e) <==> FulfilsOnlyActive(nodes, e)
  {
  }

  // ---------- the lock after a patch ----------

  /** The dictionaries hold exactly the nodes and edges of the lock, by their identifiers. */
  ghost predicate AreTablesOf(w: Working, s: Snapshot) {
    && (forall n :: n in s.nodes <==> n.id in w.nodes && w.nodes[n.id] == n)
    && (forall e :: e in s.edges <==> e.id in w.edges && w.edges[e.id] == e)
    && KeyedById(w)
  }

  ghost predicate InIdOrder(s: Snapshot) {
    IdsAscend(NodeIds(s.nodes)) && IdsAscend(EdgeIds(s.edges))
  }

  ghost function NodeIds(nodes: seq<Node>): (ids: seq<string>)
    ensures |ids| == |nodes| && forall i :: 0 <= i < |ids| ==> ids[i] == nodes[i].id
  {
    seq(|nodes|, i requires 0 <= i < |nodes| => nodes[i].id)
  }

  ghost function EdgeIds(edges: seq<Edge>): (ids: seq<string>)
    ensures |ids| == |edges| && forall i :: 0 <= i < |ids| ==> ids[i] == edges[i].id
  {
    seq(|edges|, i requires 0 <= i < |edges| => edges[i].id)
  }

  ghost predicate IdsAscend(ids: seq<string>) {
    forall i, j :: 0 <= i < j < |ids| ==> Before(ids[i], ids[j]) && ids[i] != ids[j]
  }

  /** The lock that follows: the next version, holding exactly the dictionaries, in order of the identifiers. */
  ghost predicate IsNextLock(base: Snapshot, w: Working, s: Snapshot) {
    && s.schema == base.schema && s.organization == base.organization && s.version == base.version + 1
    && AreTablesOf(w, s) && InIdOrder(s)
  }

  lemma {:induction false} AscendingIsUnique(a: seq<string>, b: seq<string>)
    requires IdsAscend(a) && IdsAscend(b) && forall x :: x in a <==> x in b
    ensures a == b
    decreases |a|
  {
    assert |a + b| > 0 ==> (a + b)[0] in a + b;
    if a != [] && b != [] {
      FirstsAgree(a, b);
      forall x ensures x in a[1..] <==> x in b[1..] {
        assert x in a[1..] <==> x in a && x != a[0];
        assert x in b[1..] <==> x in b && x != b[0];
      }
      AscendingIsUnique(a[1..], b[1..]);
      assert a == [a[0]] + a[1..] && b == [b[0]] + b[1..];
    }
  }

  lemma FirstsAgree(a: seq<string>, b: seq<string>)
    requires IdsAscend(a) && IdsAscend(b) && a != [] && b != [] && forall x :: x in a <==> x in b
    ensures a[0] == b[0]
  {
    assert a[0] in b && b[0] in a;
    OneOrder(a[0], b[0]);
  }

  lemma OneNextLock(base: Snapshot, w: Working, a: Snapshot, b: Snapshot)
    requires IsNextLock(base, w, a) && IsNextLock(base, w, b)
    ensures a == b
  {
    hide Before;
    forall id ensures id in NodeIds(a.nodes) <==> id in NodeIds(b.nodes) { SameNodeIds(w, a, id); SameNodeIds(w, b, id); }
    forall id ensures id in EdgeIds(a.edges) <==> id in EdgeIds(b.edges) { SameEdgeIds(w, a, id); SameEdgeIds(w, b, id); }
    AscendingIsUnique(NodeIds(a.nodes), NodeIds(b.nodes));
    AscendingIsUnique(EdgeIds(a.edges), EdgeIds(b.edges));
    forall i | 0 <= i < |a.nodes| ensures a.nodes[i] == b.nodes[i] {
      assert a.nodes[i] in a.nodes && b.nodes[i] in b.nodes && NodeIds(a.nodes)[i] == NodeIds(b.nodes)[i];
    }
    forall i | 0 <= i < |a.edges| ensures a.edges[i] == b.edges[i] {
      assert a.edges[i] in a.edges && b.edges[i] in b.edges && EdgeIds(a.edges)[i] == EdgeIds(b.edges)[i];
    }
  }

  lemma SameNodeIds(w: Working, s: Snapshot, id: string)
    requires AreTablesOf(w, s)
    ensures id in NodeIds(s.nodes) <==> id in w.nodes
  {
    if id in NodeIds(s.nodes) {
      var i :| 0 <= i < |s.nodes| && NodeIds(s.nodes)[i] == id;
      assert s.nodes[i] in s.nodes;
    }
    if id in w.nodes {
      var i :| 0 <= i < |s.nodes| && s.nodes[i] == w.nodes[id];
      assert NodeIds(s.nodes)[i] == id;
    }
  }

  lemma SameEdgeIds(w: Working, s: Snapshot, id: string)
    requires AreTablesOf(w, s)
    ensures id in EdgeIds(s.edges) <==> id in w.edges
  {
    if id in EdgeIds(s.edges) {
      var i :| 0 <= i < |s.edges| && EdgeIds(s.edges)[i] == id;
      assert s.edges[i] in s.edges;
    }
    if id in w.edges {
      var i :| 0 <= i < |s.edges| && s.edges[i] == w.edges[id];
      assert EdgeIds(s.edges)[i] == id;
    }
  }

  /** Closing the dictionaries gives the one lock that follows. */
  lemma ClosingExactly(base: Snapshot, w: Working, s: Snapshot)
    requires KeyedById(w)
    ensures Close(base, w) == s <==> IsNextLock(base, w, s)
  {
    ClosedIsNextLock(base, w);
    if IsNextLock(base, w, s) { OneNextLock(base, w, s, Close(base, w)); }
  }

  lemma ClosedIsNextLock(base: Snapshot, w: Working)
    requires KeyedById(w)
    ensures IsNextLock(base, w, Close(base, w))
  {
    hide NodesInOrder, EdgesInOrder, AreTablesOf, InIdOrder, KeyedById;
    ClosedTables(base, w);
    ClosedIds(base, w);
  }

  lemma ClosedTables(base: Snapshot, w: Working)
    requires KeyedById(w)
    ensures AreTablesOf(w, Close(base, w))
  {
    hide NodesInOrder, EdgesInOrder, IdsAscend, NodeIds, EdgeIds;
    ClosedNodes(w.nodes);
    ClosedEdges(w.edges);
  }

  lemma ClosedIds(base: Snapshot, w: Working)
    requires KeyedById(w)
    ensures InIdOrder(Close(base, w))
  {
    hide NodesInOrder, EdgesInOrder, IdsAscend, NodeIds, EdgeIds;
    ClosedNodes(w.nodes);
    ClosedEdges(w.edges);
  }

  lemma ClosedNodes(nodes: map<string, Node>)
    requires forall id :: id in nodes ==> nodes[id].id == id
    ensures forall n :: n in NodesInOrder(nodes) <==> n.id in nodes && nodes[n.id] == n
    ensures IdsAscend(NodeIds(NodesInOrder(nodes)))
  {
    hide NodesInOrder, Before;
    NodesAreListed(nodes);
    SortedSetIsOrdered(nodes.Keys);
    assert NodeIds(NodesInOrder(nodes)) == SortedSet(nodes.Keys);
  }

  lemma ClosedEdges(edges: map<string, Edge>)
    requires forall id :: id in edges ==> edges[id].id == id
    ensures forall e :: e in EdgesInOrder(edges) <==> e.id in edges && edges[e.id] == e
    ensures IdsAscend(EdgeIds(EdgesInOrder(edges)))
  {
    hide EdgesInOrder, Before;
    EdgesAreListed(edges);
    SortedSetIsOrdered(edges.Keys);
    assert EdgeIds(EdgesInOrder(edges)) == SortedSet(edges.Keys);
  }

  lemma OpenedNodesExactly(nodes: seq<Node>, table: map<string, Node>)
    requires UniqueNodes(nodes)
    ensures OpenNodes(nodes) == table <==>
      && (forall n :: n in nodes <==> n.id in table && table[n.id] == n)
      && forall id :: id in table ==> table[id].id == id
  {
    hide OpenNodes, HasNode;
    var found := OpenNodes(nodes);
    forall n | n in nodes ensures n.id in found && found[n.id] == n { NodeIsFound(nodes, n); }
    if (forall n :: n in nodes <==> n.id in table && table[n.id] == n) && forall id :: id in table ==> table[id].id == id {
      forall id ensures (id in table <==> id in found) && (id in table ==> table[id] == found[id]) {
        if id in table { assert table[id] in nodes; }
        if id in found { assert found[id] in nodes; }
      }
    }
  }

  lemma NodeIsFound(nodes: seq<Node>, n: Node)
    requires UniqueNodes(nodes) && n in nodes
    ensures n.id in OpenNodes(nodes) && OpenNodes(nodes)[n.id] == n
  {
    hide OpenNodes;
    assert HasNode(nodes, n.id);
    var found := OpenNodes(nodes)[n.id];
    var i :| 0 <= i < |nodes| && nodes[i] == n;
    var j :| 0 <= j < |nodes| && nodes[j] == found;
  }

  lemma OpenedEdgesExactly(edges: seq<Edge>, table: map<string, Edge>)
    requires UniqueEdges(edges)
    ensures OpenEdges(edges) == table <==>
      && (forall e :: e in edges <==> e.id in table && table[e.id] == e)
      && forall id :: id in table ==> table[id].id == id
  {
    hide OpenEdges, HasEdge;
    var found := OpenEdges(edges);
    forall e | e in edges ensures e.id in found && found[e.id] == e { EdgeIsFound(edges, e); }
    if (forall e :: e in edges <==> e.id in table && table[e.id] == e) && forall id :: id in table ==> table[id].id == id {
      forall id ensures (id in table <==> id in found) && (id in table ==> table[id] == found[id]) {
        if id in table { assert table[id] in edges; }
        if id in found { assert found[id] in edges; }
      }
    }
  }

  lemma EdgeIsFound(edges: seq<Edge>, e: Edge)
    requires UniqueEdges(edges) && e in edges
    ensures e.id in OpenEdges(edges) && OpenEdges(edges)[e.id] == e
  {
    hide OpenEdges;
    assert HasEdge(edges, e.id);
    var found := OpenEdges(edges)[e.id];
    var i :| 0 <= i < |edges| && edges[i] == e;
    var j :| 0 <= j < |edges| && edges[j] == found;
  }

  /** The dictionaries a lock is found into are its own. */
  lemma OpeningExactly(base: Snapshot, w: Working)
    requires UniqueNodes(base.nodes) && UniqueEdges(base.edges)
    ensures Open(base) == w <==> AreTablesOf(w, base)
  {
    hide OpenNodes, OpenEdges, UniqueNodes, UniqueEdges;
    OpenedNodesExactly(base.nodes, w.nodes);
    OpenedEdgesExactly(base.edges, w.edges);
  }

  // ---------- the verdict ----------

  ghost predicate IsBound(base: Snapshot, p: Patch) {
    p.organization == base.organization && p.baseVersion == base.version && p.baseHash == base
  }

  /** A patch of another organization, version or content is refused for exactly that, and nothing else is looked at. */
  lemma UnboundExactly(base: Snapshot, p: Patch)
    ensures var v := ValidationOf(base, p);
      && (Issue(TenantMismatch, None) in v.issues <==> p.organization != base.organization)
      && (Issue(StaleBase, None) in v.issues <==> p.baseVersion != base.version || p.baseHash != base)
      && (!IsBound(base, p) ==> v.simulated.None? && forall x :: x in v.issues ==> x.code in {TenantMismatch, StaleBase})
  {
    hide AfterAll, IssuesOf, GraphErrorOf, Open, NodesInOrder, EdgesInOrder;
    OperationIssuesAreNotGraphErrors(Open(base), p.operations);
  }

  /** The dictionaries of a bound patch, from those of its base on. */
  ghost predicate IsTrace(base: Snapshot, operations: seq<Operation>, states: seq<Working>) {
    states != [] && AreTablesOf(states[0], base) && IsLoop(states[0], operations, states)
  }

  ghost predicate NothingIsRefused(operations: seq<Operation>, states: seq<Working>)
    requires |states| == |operations| + 1
  {
    forall i :: 0 <= i < |operations| ==> IsAccepted(states[i], operations[i])
  }

  ghost predicate IsSound(s: Snapshot) {
    (forall e :: e in s.edges ==> FulfilsOnlyActive(s.nodes, e)) && !exists cycle :: IsHardCycle(s.edges, cycle)
  }

  lemma TraceExactly(base: Snapshot, operations: seq<Operation>, states: seq<Working>)
    requires GraphOk(base.nodes, base.edges)
    ensures IsTrace(base, operations, states) <==> states == StatesOf(Open(base), operations)
  {
    hide AfterAll, IsLoop, AreTablesOf, Open, Cyclic, HardGraph, Attached, FulfilledByActive, UniqueAliases;
    if states != [] {
      OpeningExactly(base, states[0]);
      LoopExactly(states[0], operations, states);
      OneMore0(Open(base), operations);
    }
  }

  lemma AcceptedThroughout(w: Working, operations: seq<Operation>)
    ensures NoneRefused(w, operations) <==> NothingIsRefused(operations, StatesOf(w, operations))
  {
    hide AfterAll, Refusal, IsAccepted;
    forall i | 0 <= i < |operations|
      ensures IsAccepted(AfterAll(w, operations[..i]), operations[i]) <==> Refusal(AfterAll(w, operations[..i]), operations[i]).None?
    {
      AcceptedExactly(AfterAll(w, operations[..i]), operations[i]);
    }
  }

  lemma SoundExactly(base: Snapshot, w: Working)
    requires WorkingOk(w)
    ensures var s := Close(base, w);
      IsSound(s) <==> (forall e :: e in s.edges ==> FulfilledByActive(s.nodes, e)) && !Cyclic(HardGraph(s.nodes, s.edges))
  {
    hide WorkingOk, FulfilledByActive, FulfilsOnlyActive, Cyclic, HardGraph, IsHardCycle, NodesInOrder, EdgesInOrder, Attached;
    var s := Close(base, w);
    ListsAreWellFormed(w);
    CyclicExactly(s.nodes, s.edges);
    forall e ensures FulfilledByActive(s.nodes, e) <==> FulfilsOnlyActive(s.nodes, e) { FulfilmentExactly(s.nodes, e); }
  }

  /** On a lock that meets the invariant, a patch is valid with a result exactly when it is bound to the lock, every
      operation is accepted at its turn, and the result, the next version of what the operations leave, entry by
      entry, lets only active instances fulfil and closes no cycle of hard dependencies. */
  lemma ValidExactly(base: Snapshot, p: Patch, s: Snapshot)
    requires GraphOk(base.nodes, base.edges)
    ensures ValidationOf(base, p).simulated == Some(s) <==>
      && IsBound(base, p)
      && exists states ::
           && IsTrace(base, p.operations, states) && NothingIsRefused(p.operations, states)
           && IsNextLock(base, states[|p.operations|], s) && IsSound(s)
  {
    var states := StatesOf(Open(base), p.operations);
    var end := AfterAll(Open(base), p.operations);
    assert states[|p.operations|] == end by { assert p.operations[..|p.operations|] == p.operations; }
    forall other ensures IsTrace(base, p.operations, other) <==> other == states { TraceExactly(base, p.operations, other); }
    OpenIsWorkingOk(base);
    LoopKeepsWorkingOk(Open(base), p.operations);
    PatchIsValidExactly(base, p);
    AcceptedThroughout(Open(base), p.operations);
    hide AfterAll, Open, IsTrace, IsSound, NothingIsRefused, NoneRefused, GraphOk, GraphErrorOf, IssuesOf, Cyclic, HardGraph, FulfilledByActive, IsNextLock;
    SoundExactly(base, end);
    ClosingExactly(base, end, s);
    SimulatedIsClosed(base, p);
  }

  lemma SimulatedIsClosed(base: Snapshot, p: Patch)
    ensures var v := ValidationOf(base, p); v.simulated.Some? ==> v.simulated.value == Close(base, AfterAll(Open(base), p.operations))
  {
    hide AfterAll, Open, GraphErrorOf, IssuesOf, Close, BindingIssues;
  }

  /** When operations of a bound patch are refused, their codes are the issues, in their order, and there is no result;
      the identifier an issue names is that of one operation. */
  lemma RefusedPatchExactly(base: Snapshot, p: Patch) returns (states: seq<Working>, turns: seq<nat>)
    requires GraphOk(base.nodes, base.edges) && IsBound(base, p)
    ensures IsTrace(base, p.operations, states)
    ensures !NothingIsRefused(p.operations, states) ==>
      ValidationOf(base, p).simulated.None? && AreIssues(p.operations, states, ValidationOf(base, p).issues, turns)
    ensures forall i, j ::
      0 <= i < |p.operations| && 0 <= j < |p.operations| && p.operations[i].operationId == p.operations[j].operationId ==> i == j
  {
    states := StatesOf(Open(base), p.operations);
    TraceExactly(base, p.operations, states);
    turns := IssuesExactly(Open(base), p.operations);
    AcceptedThroughout(Open(base), p.operations);
    NoIssuesExactly(Open(base), p.operations);
    hide AfterAll, Open, IsTrace, AreIssues, GraphErrorOf, IssuesOf, NothingIsRefused, NoneRefused, GraphOk, NodesInOrder, EdgesInOrder;
  }

  /** When nothing is refused, the one issue left is what is wrong with the graph: a fulfilment by an instance that
      is not active, or else a cycle of hard dependencies. */
  lemma BrokenGraphExactly(base: Snapshot, p: Patch, states: seq<Working>, s: Snapshot)
    requires GraphOk(base.nodes, base.edges) && IsBound(base, p)
    requires IsTrace(base, p.operations, states) && NothingIsRefused(p.operations, states)
    requires IsNextLock(base, states[|p.operations|], s)
    ensures ValidationOf(base, p).issues ==
      if exists e :: e in s.edges && !FulfilsOnlyActive(s.nodes, e) then [Issue(GraphInvalid(InactiveFulfillment), None)]
      else if exists cycle :: IsHardCycle(s.edges, cycle) then [Issue(GraphInvalid(HardCycle), None)]
      else []
  {
    TraceExactly(base, p.operations, states);
    var end := AfterAll(Open(base), p.operations);
    assert states[|p.operations|] == end by { assert p.operations[..|p.operations|] == p.operations; }
    OpenIsWorkingOk(base);
    LoopKeepsWorkingOk(Open(base), p.operations);
    AcceptedThroughout(Open(base), p.operations);
    NoIssuesExactly(Open(base), p.operations);
    GraphErrorAfterLoop(end);
    hide AfterAll, Open, IsTrace, NothingIsRefused, NoneRefused, GraphOk, IssuesOf, Cyclic, HardGraph, FulfilledByActive, FulfilsOnlyActive,
         IsNextLock, IsHardCycle, NodesInOrder, EdgesInOrder;
    ClosingExactly(base, end, s);
    forall e ensures FulfilledByActive(s.nodes, e) <==> FulfilsOnlyActive(s.nodes, e) { FulfilmentExactly(s.nodes, e); }
    ListsAreWellFormed(end);
    hide Attached;
    CyclicExactly(s.nodes, s.edges);
    GraphErrorNamesCycle(s);
  }

  lemma GraphErrorNamesCycle(s: Snapshot)
    ensures GraphErrorOf(s.nodes, s.edges) == None ==> !Cyclic(HardGraph(s.nodes, s.edges))
  {
    hide Cyclic, HardGraph, Attached, FulfilledByActive;
  }
}
