/** The component closure of a pack: a depth-first walk over the products a record requires. A product is
    resolved only when exactly one representative carries it; the root stands for its own product. */
module ComponentClosure {
  import opened DirectedGraphs

  datatype Record = Record(recordId: string, product: string, required: seq<string>)

  datatype Issue = CyclicDependency | MissingComponent | AmbiguousComponent

  /** The representatives of a product, in their given order. */
  function WithProduct(representatives: seq<Record>, product: string): (r: seq<Record>)
    ensures forall x :: x in r <==> x in representatives && x.product == product
  {
    if representatives == [] then []
    else
      assert representatives == [representatives[0]] + representatives[1..];
      (if representatives[0].product == product then [representatives[0]] else [])
      + WithProduct(representatives[1..], product)
  }

  predicate Unique(representatives: seq<Record>, product: string) {
    |WithProduct(representatives, product)| == 1
  }

  /** The record a product stands for in the closure of a root. */
  function Resolve(representatives: seq<Record>, root: Record, product: string): Record
    requires product == root.product || Unique(representatives, product)
  {
    if product == root.product then root else WithProduct(representatives, product)[0]
  }

  function Resolved(representatives: seq<Record>, required: seq<string>): (r: seq<string>)
    ensures forall p :: p in r <==> p in required && Unique(representatives, p)
  {
    if required == [] then []
    else
      assert required == [required[0]] + required[1..];
      (if Unique(representatives, required[0]) then [required[0]] else []) + Resolved(representatives, required[1..])
  }

  function Products(records: seq<Record>): (r: set<string>)
    ensures forall p :: p in r <==> exists x :: x in records && x.product == p
  {
    set x | x in records :: x.product
  }

  /** The dependencies between resolved products, as seen from a root. */
  function DependencyGraph(representatives: seq<Record>, root: Record): Graph {
    map p | p in Products(representatives) + {root.product} && (p == root.product || Unique(representatives, p)) ::
      Resolved(representatives, Resolve(representatives, root, p).required)
  }

  lemma NodesOfGraph(representatives: seq<Record>, root: Record)
    requires root in representatives
    ensures var g := DependencyGraph(representatives, root);
      && (forall p :: p in g <==> p == root.product || Unique(representatives, p))
      && Closed(g)
      && (forall p :: p in g ==> Resolve(representatives, root, p).product == p)
      && (Unique(representatives, root.product) ==> WithProduct(representatives, root.product) == [root])
  {
    forall p | Unique(representatives, p) ensures p in Products(representatives) {
      assert WithProduct(representatives, p)[0] in WithProduct(representatives, p);
    }
    assert root in WithProduct(representatives, root.product);
  }

  function Names(records: seq<Record>): (r: seq<string>)
    ensures |r| == |records|
    ensures forall i :: 0 <= i < |r| ==> r[i] == records[i].product
  {
    seq(|records|, i requires 0 <= i < |records| => records[i].product)
  }

  ghost predicate HasMissing(representatives: seq<Record>, x: Record) {
    exists d :: d in x.required && WithProduct(representatives, d) == []
  }

  ghost predicate HasAmbiguous(representatives: seq<Record>, x: Record) {
    exists d :: d in x.required && |WithProduct(representatives, d)| > 1
  }

  /** The record of a product of the graph. */
  function RecordOf(representatives: seq<Record>, root: Record, p: string): Record {
    if p == root.product || Unique(representatives, p) then Resolve(representatives, root, p) else root
  }

  // ---------- the invariant of the walk ----------

  ghost predicate Settled(g: Graph, visiting: set<string>, visited: set<string>) {
    && visiting !! visited && visiting <= g.Keys && visited <= g.Keys
    && forall p, m :: p in visited && m in g[p] ==> m in visited || m in visiting
  }

  ghost predicate Listed(representatives: seq<Record>, root: Record, g: Graph, ordered: seq<Record>, visited: set<string>) {
    && Nodes(Names(ordered)) == visited && Distinct(Names(ordered))
    && forall x :: x in ordered ==> x == RecordOf(representatives, root, x.product) && Reachable(g, root.product, x.product)
  }

  ghost predicate ReachesMissing(representatives: seq<Record>, root: Record, g: Graph) {
    exists p :: p in g && Reachable(g, root.product, p) && HasMissing(representatives, RecordOf(representatives, root, p))
  }

  ghost predicate ReachesAmbiguous(representatives: seq<Record>, root: Record, g: Graph) {
    exists p :: p in g && Reachable(g, root.product, p) && HasAmbiguous(representatives, RecordOf(representatives, root, p))
  }

  /** What was recorded is complete for the listed records and tells only of what the root reaches. */
  ghost predicate Reported(
    representatives: seq<Record>, root: Record, g: Graph, ordered: seq<Record>, issues: set<Issue>)
  {
    && (forall x :: x in ordered && HasMissing(representatives, x) ==> MissingComponent in issues)
    && (forall x :: x in ordered && HasAmbiguous(representatives, x) ==> AmbiguousComponent in issues)
    && (MissingComponent in issues ==> ReachesMissing(representatives, root, g))
    && (AmbiguousComponent in issues ==> ReachesAmbiguous(representatives, root, g))
    && (CyclicDependency in issues ==> CycleReachableFrom(g, root.product))
    && (CyclicDependency !in issues ==> SuccessorsFirst(g, Names(ordered)))
  }

  /** What one dependency of a record leaves behind. */
  ghost predicate Handled(
    representatives: seq<Record>, d: string, issues: set<Issue>, visiting: set<string>, visited: set<string>)
  {
    && (WithProduct(representatives, d) == [] ==> MissingComponent in issues)
    && (|WithProduct(representatives, d)| > 1 ==> AmbiguousComponent in issues)
    && (Unique(representatives, d) ==> d in visited || (d in visiting && CyclicDependency in issues))
  }

  lemma EnteringKeepsSettled(g: Graph, visiting: set<string>, visited: set<string>, p: string)
    requires Settled(g, visiting, visited) && p in g && p !in visited
    ensures Settled(g, visiting + {p}, visited)
  {}

  /** A record leaves the stack when all its dependencies are handled. */
  lemma LeavingKeepsSettled(
    representatives: seq<Record>, root: Record, g: Graph, record: Record,
    issues: set<Issue>, visiting: set<string>, visited: set<string>)
    requires root in representatives && g == DependencyGraph(representatives, root)
    requires record.product in g && record == RecordOf(representatives, root, record.product)
    requires Settled(g, visiting, visited) && record.product in visiting
    requires forall d :: d in record.required ==> Handled(representatives, d, issues, visiting, visited)
    ensures Settled(g, visiting - {record.product}, visited + {record.product})
    ensures record.product !in visited
  {
    NodesOfGraph(representatives, root);
  }

  lemma LeavingKeepsListed(
    representatives: seq<Record>, root: Record, g: Graph, ordered: seq<Record>, record: Record, visited: set<string>)
    requires Listed(representatives, root, g, ordered, visited) && record.product !in visited
    requires record == RecordOf(representatives, root, record.product) && Reachable(g, root.product, record.product)
    ensures Listed(representatives, root, g, ordered + [record], visited + {record.product})
  {
    var names := Names(ordered + [record]);
    assert names == Names(ordered) + [record.product];
    forall i | 0 <= i < |ordered| ensures names[i] != record.product { assert names[i] in Nodes(Names(ordered)); }
  }

  lemma LeavingKeepsReported(
    representatives: seq<Record>, root: Record, g: Graph, ordered: seq<Record>, record: Record,
    issues: set<Issue>, visiting: set<string>, visited: set<string>)
    requires root in representatives && g == DependencyGraph(representatives, root)
    requires record.product in g && record == RecordOf(representatives, root, record.product)
    requires Reported(representatives, root, g, ordered, issues)
    requires Listed(representatives, root, g, ordered, visited)
    requires forall d :: d in record.required ==> Handled(representatives, d, issues, visiting, visited)
    ensures Reported(representatives, root, g, ordered + [record], issues)
  {
    hide HasMissing, HasAmbiguous, ReachesMissing, ReachesAmbiguous, CycleReachableFrom, SuccessorsFirst, DependencyGraph, RecordOf, Reachable;
    assert HasMissing(representatives, record) ==> MissingComponent in issues by { OwnIssuesReported(representatives, record, issues, visiting, visited); }
    assert HasAmbiguous(representatives, record) ==> AmbiguousComponent in issues by { OwnIssuesReported(representatives, record, issues, visiting, visited); }
    if CyclicDependency !in issues {
      LeavingKeepsOrder(representatives, root, g, ordered, record, visited);
    }
  }

  lemma LeavingKeepsOrder(
    representatives: seq<Record>, root: Record, g: Graph, ordered: seq<Record>, record: Record, visited: set<string>)
    requires root in representatives && g == DependencyGraph(representatives, root)
    requires record.product in g && record == RecordOf(representatives, root, record.product)
    requires SuccessorsFirst(g, Names(ordered)) && Nodes(Names(ordered)) == visited
    requires forall d :: d in record.required && Unique(representatives, d) ==> d in visited
    ensures SuccessorsFirst(g, Names(ordered + [record]))
  {
    assert Names(ordered + [record]) == Names(ordered) + [record.product];
    forall m | m in g[record.product] ensures m in Names(ordered) {
      NodesOfGraph(representatives, root);
      assert m in record.required && Unique(representatives, m);
      assert m in Nodes(Names(ordered));
    }
    OrderGrows(g, Names(ordered), record.product);
  }

  lemma OwnIssuesReported(
    representatives: seq<Record>, record: Record, issues: set<Issue>, visiting: set<string>, visited: set<string>)
    requires forall d :: d in record.required ==> Handled(representatives, d, issues, visiting, visited)
    ensures HasMissing(representatives, record) ==> MissingComponent in issues
    ensures HasAmbiguous(representatives, record) ==> AmbiguousComponent in issues
  {}

  lemma NoteCycle(
    representatives: seq<Record>, root: Record, g: Graph, ordered: seq<Record>, issues: set<Issue>,
    stack: seq<string>, p: string)
    requires Reported(representatives, root, g, ordered, issues)
    requires IsPath(g, stack + [p]) && (stack + [p])[0] == root.product && p in stack
    ensures Reported(representatives, root, g, ordered, issues + {CyclicDependency})
  {
    ReturningPathClosesCycle(g, stack, p);
    assert stack[0] == root.product;
  }

  lemma NoteMissing(
    representatives: seq<Record>, root: Record, g: Graph, ordered: seq<Record>, issues: set<Issue>,
    here: seq<string>, record: Record, d: string)
    requires Reported(representatives, root, g, ordered, issues)
    requires Connects(g, here, root.product, record.product) && record.product in g
    requires record == RecordOf(representatives, root, record.product)
    requires d in record.required && WithProduct(representatives, d) == []
    ensures Reported(representatives, root, g, ordered, issues + {MissingComponent})
  {
    hide RecordOf, HasAmbiguous;
    assert HasMissing(representatives, record);
    assert Reachable(g, root.product, record.product);
    assert ReachesMissing(representatives, root, g);
  }

  lemma NoteAmbiguous(
    representatives: seq<Record>, root: Record, g: Graph, ordered: seq<Record>, issues: set<Issue>,
    here: seq<string>, record: Record, d: string)
    requires Reported(representatives, root, g, ordered, issues)
    requires Connects(g, here, root.product, record.product) && record.product in g
    requires record == RecordOf(representatives, root, record.product)
    requires d in record.required && |WithProduct(representatives, d)| > 1
    ensures Reported(representatives, root, g, ordered, issues + {AmbiguousComponent})
  {
    hide RecordOf, HasMissing;
    assert HasAmbiguous(representatives, record);
    assert Reachable(g, root.product, record.product);
    assert ReachesAmbiguous(representatives, root, g);
  }

  /** A uniquely resolved dependency is the next node of the path. */
  lemma StepDown(
    representatives: seq<Record>, root: Record, g: Graph, here: seq<string>, record: Record, d: string)
    requires root in representatives && g == DependencyGraph(representatives, root)
    requires Connects(g, here, root.product, record.product) && record.product in g
    requires record == RecordOf(representatives, root, record.product)
    requires d in record.required && |WithProduct(representatives, d)| == 1
    ensures var next := WithProduct(representatives, d)[0];
      && next.product == d && d in g && next == RecordOf(representatives, root, d)
      && IsPath(g, here + [d]) && (here + [d])[0] == root.product
  {
    NodesOfGraph(representatives, root);
    assert d in g[record.product];
    PathGrows(g, here, d);
  }

  lemma Pushed(g: Graph, stack: seq<string>, a: string, p: string)
    requires IsPath(g, stack + [p]) && (stack + [p])[0] == a
    ensures Connects(g, stack + [p], a, p) && Nodes(stack + [p]) == Nodes(stack) + {p}
  {}

  /** The dependencies handled so far stay handled, and one more is. */
  lemma StillHandled(
    representatives: seq<Record>, required: seq<string>, i: nat, issues: set<Issue>, visiting: set<string>,
    visited: set<string>, issues1: set<Issue>, visited1: set<string>)
    requires i < |required| && issues <= issues1 && visited <= visited1
    requires forall j :: 0 <= j < i ==> Handled(representatives, required[j], issues, visiting, visited)
    requires WithProduct(representatives, required[i]) == [] ==> MissingComponent in issues1
    requires |WithProduct(representatives, required[i])| > 1 ==> AmbiguousComponent in issues1
    requires |WithProduct(representatives, required[i])| == 1 ==>
      required[i] in visited1 || (required[i] in visiting && CyclicDependency in issues1)
    ensures forall j :: 0 <= j < i + 1 ==> Handled(representatives, required[j], issues1, visiting, visited1)
  {}

  /** A record whose dependencies are handled leaves the stack. */
  lemma Leaving(
    representatives: seq<Record>, root: Record, g: Graph, here: seq<string>, record: Record, ordered: seq<Record>,
    issues: set<Issue>, visiting: set<string>, visited: set<string>)
    requires root in representatives && g == DependencyGraph(representatives, root)
    requires Connects(g, here, root.product, record.product) && record.product in g
    requires record == RecordOf(representatives, root, record.product) && record.product in visiting
    requires Settled(g, visiting, visited) && Listed(representatives, root, g, ordered, visited)
    requires Reported(representatives, root, g, ordered, issues)
    requires forall j :: 0 <= j < |record.required| ==>
      Handled(representatives, record.required[j], issues, visiting, visited)
    ensures record.product !in visited
    ensures Settled(g, visiting - {record.product}, visited + {record.product})
    ensures Listed(representatives, root, g, ordered + [record], visited + {record.product})
    ensures Reported(representatives, root, g, ordered + [record], issues)
  {
    hide Settled, Listed, Reported, Handled, DependencyGraph, RecordOf, Connects;
    assert Reachable(g, root.product, record.product);
    LeavingKeepsSettled(representatives, root, g, record, issues, visiting, visited);
    LeavingKeepsReported(representatives, root, g, ordered, record, issues, visiting, visited);
    LeavingKeepsListed(representatives, root, g, ordered, record, visited);
  }

  /** The state of one walk. */
  class Walk {
    const representatives: seq<Record>
    const root: Record
    const byProduct: map<string, seq<Record>>
    var ordered: seq<Record>
    var issues: set<Issue>
    var visiting: set<string>
    var visited: set<string>
    ghost const g: Graph

    ghost predicate Indexed() {
      && root in representatives
      && g == DependencyGraph(representatives, root)
      && forall p :: (if p in byProduct then byProduct[p] else []) == WithProduct(representatives, p)
    }

    ghost predicate Valid()
      reads this
    {
      && Settled(g, visiting, visited)
      && Listed(representatives, root, g, ordered, visited)
      && Reported(representatives, root, g, ordered, issues)
    }

    constructor (representatives: seq<Record>, byProduct: map<string, seq<Record>>, root: Record)
      requires root in representatives
      requires forall p :: (if p in byProduct then byProduct[p] else []) == WithProduct(representatives, p)
      ensures this.representatives == representatives && this.root == root
      ensures Indexed() && Valid()
      ensures visiting == {} && visited == {} && ordered == [] && issues == {}
    {
      this.representatives, this.byProduct, this.root := representatives, byProduct, root;
      ordered, issues, visiting, visited := [], {}, {}, {};
      g := DependencyGraph(representatives, root);
    }

    /** Visits a record below the products on the stack. */
    method Visit(record: Record, ghost stack: seq<string>)
      requires Indexed() && Valid()
      requires record.product in g && record == RecordOf(representatives, root, record.product)
      requires IsPath(g, stack + [record.product]) && (stack + [record.product])[0] == root.product
      requires Nodes(stack) == visiting
      modifies this
      ensures Valid()
      ensures visiting == old(visiting) && old(visited) <= visited && old(issues) <= issues
      ensures record.product in visited || (record.product in visiting && CyclicDependency in issues)
      ensures record.product !in old(visiting) && record.product !in old(visited)
              ==> ordered != [] && ordered[|ordered| - 1] == record
      decreases g.Keys - visiting
    {
      hide Settled, Listed, Reported, Handled, DependencyGraph, RecordOf, WithProduct, IsPath, Connects;
      ghost var here := stack + [record.product];
      if record.product in visiting {
        NoteCycle(representatives, root, g, ordered, issues, stack, record.product);
        issues := issues + {CyclicDependency};
        return;
      }
      if record.product in visited { return; }
      EnteringKeepsSettled(g, visiting, visited, record.product);
      visiting := visiting + {record.product};
      Pushed(g, stack, root.product, record.product);
      for i := 0 to |record.required|
        invariant Valid()
        invariant visiting == old(visiting) + {record.product}
        invariant old(visited) <= visited && old(issues) <= issues
        invariant forall j :: 0 <= j < i ==> Handled(representatives, record.required[j], issues, visiting, visited)
      {
        var d := record.required[i];
        var matches := if d in byProduct then byProduct[d] else [];
        ghost var issues0, visited0 := issues, visited;
        if matches == [] {
          NoteMissing(representatives, root, g, ordered, issues, here, record, d);
          issues := issues + {MissingComponent};
        } else if |matches| > 1 {
          NoteAmbiguous(representatives, root, g, ordered, issues, here, record, d);
          issues := issues + {AmbiguousComponent};
        } else {
          StepDown(representatives, root, g, here, record, d);
          Visit(matches[0], here);
        }
        StillHandled(representatives, record.required, i, issues0, visiting, visited0, issues, visited);
      }
      Leaving(representatives, root, g, here, record, ordered, issues, visiting, visited);
      visiting := visiting - {record.product};
      visited := visited + {record.product};
      ordered := ordered + [record];
    }
  }

  // ---------- the closure of a root ----------

  /** The products reached from the root through uniquely resolved dependencies. */
  ghost predicate Belongs(representatives: seq<Record>, root: Record, x: Record) {
    var g := DependencyGraph(representatives, root);
    x.product in g && x == RecordOf(representatives, root, x.product) && Reachable(g, root.product, x.product)
  }

  method IndexByProduct(representatives: seq<Record>) returns (byProduct: map<string, seq<Record>>)
    ensures forall p :: (if p in byProduct then byProduct[p] else []) == WithProduct(representatives, p)
  {
    hide WithProduct;
    byProduct := map[];
    NoRecords();
    for i := 0 to |representatives|
      invariant forall p :: (if p in byProduct then byProduct[p] else []) == WithProduct(representatives[..i], p)
    {
      var x := representatives[i];
      OneMoreRecord(representatives, i);
      byProduct := byProduct[x.product := (if x.product in byProduct then byProduct[x.product] else []) + [x]];
    }
    assert representatives[..|representatives|] == representatives;
  }

  lemma NoRecords()
    ensures forall p :: WithProduct([], p) == []
  {}

  lemma OneMoreRecord(representatives: seq<Record>, i: nat)
    requires i < |representatives|
    ensures forall p :: WithProduct(representatives[..i + 1], p)
                        == WithProduct(representatives[..i], p) + (if representatives[i].product == p then [representatives[i]] else [])
  {
    forall p ensures WithProduct(representatives[..i + 1], p) == WithProduct(representatives[..i], p)
      + (if representatives[i].product == p then [representatives[i]] else [])
    {
      assert representatives[..i + 1] == representatives[..i] + [representatives[i]];
      AppendedRecord(representatives[..i], representatives[i], p);
    }
  }

  lemma {:induction false} AppendedRecord(xs: seq<Record>, x: Record, p: string)
    ensures WithProduct(xs + [x], p) == WithProduct(xs, p) + (if x.product == p then [x] else [])
  {
    if xs != [] {
      AppendedRecord(xs[1..], x, p);
      assert (xs + [x])[1..] == xs[1..] + [x];
    }
  }

  ghost predicate SomeMissing(representatives: seq<Record>, records: seq<Record>) {
    exists x :: x in records && HasMissing(representatives, x)
  }

  ghost predicate SomeAmbiguous(representatives: seq<Record>, records: seq<Record>) {
    exists x :: x in records && HasAmbiguous(representatives, x)
  }

  /** Every uniquely resolved dependency stands before the records that require it. */
  ghost predicate DependenciesFirst(representatives: seq<Record>, records: seq<Record>) {
    forall i, d :: 0 <= i < |records| && d in records[i].required && Unique(representatives, d) ==> d in Names(records)[..i]
  }

  /** The closure lists every product the root reaches exactly once and the root last. It reports each issue
      exactly when it is there, and without a cycle every dependency comes before its dependents. */
  method Closure(representatives: seq<Record>, root: Record) returns (ordered: seq<Record>, issues: set<Issue>)
    requires root in representatives
    ensures ordered != [] && ordered[|ordered| - 1] == root
    ensures Distinct(Names(ordered))
    ensures forall x :: x in ordered <==> Belongs(representatives, root, x)
    ensures CyclicDependency in issues <==> CycleReachableFrom(DependencyGraph(representatives, root), root.product)
    ensures MissingComponent in issues <==> SomeMissing(representatives, ordered)
    ensures AmbiguousComponent in issues <==> SomeAmbiguous(representatives, ordered)
    ensures CyclicDependency !in issues ==> DependenciesFirst(representatives, ordered)
  {
    hide Settled, Listed, Reported, Belongs, DependencyGraph, SomeMissing, SomeAmbiguous, DependenciesFirst,
      RecordOf, CycleReachableFrom, Reachable, IsPath, Distinct, WithProduct;
    var byProduct := IndexByProduct(representatives);
    var walk := new Walk(representatives, byProduct, root);
    RootStarts(representatives, root, walk.g);
    walk.Visit(root, []);
    ordered, issues := walk.ordered, walk.issues;
    assert root in ordered;
    FinishedList(representatives, root, walk.g, ordered, walk.visited);
    FinishedIssues(representatives, root, walk.g, ordered, issues, walk.visited);
    FinishedOrder(representatives, root, walk.g, ordered, issues, walk.visited);
  }

  lemma RootStarts(representatives: seq<Record>, root: Record, g: Graph)
    requires root in representatives && g == DependencyGraph(representatives, root)
    ensures root.product in g && root == RecordOf(representatives, root, root.product)
    ensures IsPath(g, [] + [root.product]) && ([] + [root.product])[0] == root.product
    ensures Nodes([]) == {}
  {
    NodesOfGraph(representatives, root);
  }

  lemma FinishedList(representatives: seq<Record>, root: Record, g: Graph, ordered: seq<Record>, visited: set<string>)
    requires g == DependencyGraph(representatives, root) && root in ordered
    requires Settled(g, {}, visited) && Listed(representatives, root, g, ordered, visited)
    ensures Distinct(Names(ordered)) && visited <= g.Keys
    ensures forall p :: Reachable(g, root.product, p) ==> p in visited
    ensures forall x :: x in ordered <==> Belongs(representatives, root, x)
  {
    hide DependencyGraph, Reachable, Belongs, RecordOf;
    var names := Names(ordered);
    assert root.product in visited by { var i :| 0 <= i < |ordered| && ordered[i] == root; assert names[i] in Nodes(names); }
    ReachableStaysInside(g, visited, root.product);
    forall x ensures x in ordered <==> Belongs(representatives, root, x) {
      ListedExactly(representatives, root, g, ordered, visited, x);
    }
  }

  lemma FinishedIssues(
    representatives: seq<Record>, root: Record, g: Graph, ordered: seq<Record>, issues: set<Issue>, visited: set<string>)
    requires g == DependencyGraph(representatives, root)
    requires Reported(representatives, root, g, ordered, issues)
    requires root in representatives
    requires forall x :: x in ordered <==> Belongs(representatives, root, x)
    ensures MissingComponent in issues <==> SomeMissing(representatives, ordered)
    ensures AmbiguousComponent in issues <==> SomeAmbiguous(representatives, ordered)
  {
    hide DependencyGraph, Reachable, CycleReachableFrom, HasMissing, HasAmbiguous;
    if ReachesMissing(representatives, root, g) {
      var p :| p in g && Reachable(g, root.product, p) && HasMissing(representatives, RecordOf(representatives, root, p));
      NodesOfGraph(representatives, root);
      assert Belongs(representatives, root, RecordOf(representatives, root, p));
    }
    if ReachesAmbiguous(representatives, root, g) {
      var p :| p in g && Reachable(g, root.product, p) && HasAmbiguous(representatives, RecordOf(representatives, root, p));
      NodesOfGraph(representatives, root);
      assert Belongs(representatives, root, RecordOf(representatives, root, p));
    }
  }

  lemma FinishedOrder(
    representatives: seq<Record>, root: Record, g: Graph, ordered: seq<Record>, issues: set<Issue>, visited: set<string>)
    requires root in representatives && g == DependencyGraph(representatives, root)
    requires visited <= g.Keys && Listed(representatives, root, g, ordered, visited)
    requires Reported(representatives, root, g, ordered, issues)
    requires forall p :: Reachable(g, root.product, p) ==> p in visited
    ensures CyclicDependency in issues <==> CycleReachableFrom(g, root.product)
    ensures CyclicDependency !in issues ==> DependenciesFirst(representatives, ordered)
  {
    hide HasMissing, HasAmbiguous, ReachesMissing, ReachesAmbiguous, OnCycle, Reachable;
    var names := Names(ordered);
    if CyclicDependency !in issues {
      forall n | Reachable(g, root.product, n) ensures !OnCycle(g, n) {
        assert n in Nodes(names);
        OrderedNodesAreOnNoCycle(g, names, n);
      }
      NodesOfGraph(representatives, root);
      forall i, d | 0 <= i < |ordered| && d in ordered[i].required && Unique(representatives, d)
        ensures d in names[..i]
      {
        assert ordered[i] in ordered && names[i] in Nodes(names);
        assert d in g[names[i]];
      }
    }
  }

  lemma ListedExactly(
    representatives: seq<Record>, root: Record, g: Graph, ordered: seq<Record>, visited: set<string>, x: Record)
    requires g == DependencyGraph(representatives, root) && visited <= g.Keys
    requires Listed(representatives, root, g, ordered, visited)
    requires forall p :: Reachable(g, root.product, p) ==> p in visited
    ensures x in ordered <==> Belongs(representatives, root, x)
  {
    hide DependencyGraph, RecordOf, Reachable;
    var names := Names(ordered);
    if x in ordered {
      var i :| 0 <= i < |ordered| && ordered[i] == x;
      assert names[i] in Nodes(names);
    }
    if Belongs(representatives, root, x) {
      assert x.product in Nodes(names);
      var i :| 0 <= i < |names| && names[i] == x.product;
      assert ordered[i] in ordered;
    }
  }
}
