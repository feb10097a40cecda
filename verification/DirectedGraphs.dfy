/** Finite directed graphs, given by the list of successors of every node. */
module DirectedGraphs {

  type Graph = map<string, seq<string>>

  ghost predicate Closed(g: Graph) {
    forall n, m :: n in g && m in g[n] ==> m in g
  }

  ghost predicate IsPath(g: Graph, p: seq<string>) {
    && p != [] && p[0] in g
    && forall i :: 0 <= i < |p| - 1 ==> p[i] in g && p[i + 1] in g[p[i]]
  }

  ghost predicate Connects(g: Graph, p: seq<string>, a: string, b: string) {
    IsPath(g, p) && p[0] == a && p[|p| - 1] == b
  }

  ghost predicate Reachable(g: Graph, a: string, b: string) {
    exists p :: Connects(g, p, a, b)
  }

  ghost predicate OnCycle(g: Graph, n: string) {
    exists p :: |p| >= 2 && Connects(g, p, n, n)
  }

  ghost predicate Cyclic(g: Graph) {
    exists n :: OnCycle(g, n)
  }

  ghost predicate CycleReachableFrom(g: Graph, root: string) {
    exists n :: Reachable(g, root, n) && OnCycle(g, n)
  }

  /** The nodes of a list. */
  function Nodes(p: seq<string>): set<string> {
    set n | n in p
  }

  predicate Distinct(p: seq<string>) {
    forall i, j :: 0 <= i < j < |p| ==> p[i] != p[j]
  }

  /** Every node is listed after all its successors. */
  ghost predicate SuccessorsFirst(g: Graph, order: seq<string>) {
    forall i, m :: 0 <= i < |order| && order[i] in g && m in g[order[i]] ==> m in order[..i]
  }

  lemma OrderGrows(g: Graph, order: seq<string>, n: string)
    requires SuccessorsFirst(g, order) && n in g && forall m :: m in g[n] ==> m in order
    ensures SuccessorsFirst(g, order + [n])
  {
    var longer := order + [n];
    forall i, m | 0 <= i < |longer| && longer[i] in g && m in g[longer[i]] ensures m in longer[..i] {
      assert longer[..i] == order[..i];
      if i == |order| { assert order[..i] == order; }
    }
  }

  lemma {:induction false} PathDescends(g: Graph, order: seq<string>, p: seq<string>, i: nat)
    requires SuccessorsFirst(g, order) && IsPath(g, p)
    requires |p| >= 2 && i < |order| && order[i] == p[0]
    ensures p[|p| - 1] in order[..i]
    decreases |p|
  {
    assert p[1] in g[p[0]];
    if |p| > 2 {
      var j :| 0 <= j < i && order[j] == p[1];
      forall k | 0 <= k < |p[1..]| - 1 ensures p[1..][k] in g && p[1..][k + 1] in g[p[1..][k]] {
        assert p[k + 1] in g && p[k + 2] in g[p[k + 1]];
      }
      assert p[1] in g;
      PathDescends(g, order, p[1..], j);
    }
  }

  /** A list with successors first passes through no cycle. */
  lemma OrderedNodesAreOnNoCycle(g: Graph, order: seq<string>, n: string)
    requires SuccessorsFirst(g, order) && Distinct(order) && n in order
    ensures !OnCycle(g, n)
  {
    forall p | |p| >= 2 && Connects(g, p, n, n) ensures false {
      var i :| 0 <= i < |order| && order[i] == n;
      PathDescends(g, order, p, i);
    }
  }

  lemma {:induction false} PathStaysInside(g: Graph, inside: set<string>, p: seq<string>)
    requires IsPath(g, p) && p[0] in inside
    requires forall n, m :: n in inside && n in g && m in g[n] ==> m in inside
    ensures p[|p| - 1] in inside
    decreases |p|
  {
    if |p| > 1 {
      assert p[0] in g && p[1] in g[p[0]];
      if |p| == 2 {
      } else {
        forall k | 0 <= k < |p[1..]| - 1 ensures p[1..][k] in g && p[1..][k + 1] in g[p[1..][k]] {
          assert p[k + 1] in g && p[k + 2] in g[p[k + 1]];
        }
        assert p[1] in g;
        PathStaysInside(g, inside, p[1..]);
      }
    }
  }

  /** A set that contains a node and the successors of its members contains all that the node reaches. */
  lemma ReachableStaysInside(g: Graph, inside: set<string>, a: string)
    requires a in inside
    requires forall n, m :: n in inside && n in g && m in g[n] ==> m in inside
    ensures forall b :: Reachable(g, a, b) ==> b in inside
  {
    forall b | Reachable(g, a, b) ensures b in inside {
      var p :| Connects(g, p, a, b);
      PathStaysInside(g, inside, p);
    }
  }

  lemma PathGrows(g: Graph, p: seq<string>, n: string)
    requires p == [] ==> n in g
    requires p != [] ==> IsPath(g, p) && p[|p| - 1] in g && n in g[p[|p| - 1]]
    ensures IsPath(g, p + [n])
  {
    forall i | 0 <= i < |p + [n]| - 1 ensures (p + [n])[i] in g && (p + [n])[i + 1] in g[(p + [n])[i]] {
      if i < |p| - 1 { assert p[i] in g && p[i + 1] in g[p[i]]; }
    }
  }

  /** A path that returns to one of its own nodes closes a cycle there. */
  lemma ReturningPathClosesCycle(g: Graph, p: seq<string>, n: string)
    requires p != [] && n in p && IsPath(g, p + [n])
    ensures OnCycle(g, n) && Reachable(g, p[0], n)
  {
    var i :| 0 <= i < |p| && p[i] == n;
    var whole := p + [n];
    var loop := whole[i..];
    forall k | 0 <= k < |loop| - 1 ensures loop[k] in g && loop[k + 1] in g[loop[k]] {
      assert whole[i + k] in g && whole[i + k + 1] in g[whole[i + k]];
    }
    assert whole[i] in g;
    assert Connects(g, loop, n, n);
    assert Connects(g, whole, p[0], n);
  }
}
