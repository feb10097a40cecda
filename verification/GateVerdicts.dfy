/** What a predicate, a look and a gate conclude, told by the facts, the evidence and the buyer's values. */
module GateVerdicts {
  import opened Outcomes
  import opened Ordering
  import opened EvidenceAssessments
  import opened EligibilityGates
  import opened EligibilityTheorems

  // ---------- predicates ----------

  datatype Comparison = Below | Equal | Above

  ghost function OrderOf(left: real, right: real): Comparison {
    if left < right then Below else if left == right then Equal else Above
  }

  const ORDERED := {Lte, Lt, Gte, Gt}

  ghost predicate Accepts(op: Operator, order: Comparison) {
    match order
    case Below => op in {Lt, Lte}
    case Equal => op in {Lte, Gte}
    case Above => op in {Gt, Gte}
  }

  ghost predicate HaveNumbers(read: string -> Option<real>, v: Value, w: Value) {
    NumberOf(read, v).Some? && NumberOf(read, w).Some?
  }

  /** The operator is unknown, or two numbers or texts are to be ordered and one of them is no number. */
  ghost predicate Raises(read: string -> Option<real>, v: Value, p: Predicate, error: EvaluationError) {
    match error
    case UnsupportedOperator => p.operator.Other?
    case NotANumber => p.operator in ORDERED && !HaveNumbers(read, v, p.value) && IsNumberOrText(v) && IsNumberOrText(p.value)
  }

  ghost predicate IsNumberOrText(v: Value) {
    match v
    case Number(_) => true
    case Text(_) => true
    case _ => false
  }

  /** The value is as the predicate asks. */
  ghost predicate Satisfies(read: string -> Option<real>, v: Value, p: Predicate) {
    && !p.operator.Other?
    && (p.operator == Eq ==> v == p.value)
    && (p.operator == Neq ==> v != p.value)
    && (p.operator == In ==> exists t :: v == Text(t) && p.value.Texts? && t in p.value.texts)
    && (p.operator == ContainsAll ==> v.Texts? && p.value.Texts? && forall t :: t in p.value.texts ==> t in v.texts)
    && (p.operator == Operator.Exists ==> v != Nothing)
    && (p.operator in ORDERED ==>
          HaveNumbers(read, v, p.value) && Accepts(p.operator, OrderOf(NumberOf(read, v).value, NumberOf(read, p.value).value)))
  }

  lemma NumbersExactly(read: string -> Option<real>, v: Value, x: real)
    ensures NumberOf(read, v) == Some(x) <==> (exists n: int :: v == Number(n) && x == n as real) || exists t :: v == Text(t) && read(t) == Some(x)
  {
  }

  /** A predicate fails on a value exactly when it raises, and otherwise says whether the value satisfies it. */
  lemma MatchesExactly(read: string -> Option<real>, v: Value, p: Predicate)
    ensures forall error :: Matches(read, v, p) == Failure(error) <==> Raises(read, v, p, error)
    ensures Matches(read, v, p) == Success(true) <==> Satisfies(read, v, p)
  {
  }

  // ---------- the state of a field ----------

  /** A fact about the field that the gate reads for the k-th component. */
  ghost predicate IsRead(m: Material, k: int, field: string, f: Fact) {
    0 <= k < |m.components| && f in m.facts && f.field == field && (|m.components| == 1 || f.component == Some(m.components[k]))
  }

  /** Some evidence of the field in the k-th component is in this state. */
  ghost predicate HasEvidence(m: Material, k: int, field: string, index: Index, s: EvidenceState) {
    exists f, e :: IsRead(m, k, field, f) && e in f.evidence && Pair(e, field) in index && index[Pair(e, field)] == s
  }

  ghost predicate Disagrees(m: Material, k: int, field: string) {
    exists f, g :: IsRead(m, k, field, f) && IsRead(m, k, field, g) && f.value != g.value
  }

  /** Disputed by its evidence or by its values; otherwise as good as its best evidence. */
  ghost predicate IsIn(m: Material, k: int, field: string, index: Index, s: EvidenceState) {
    var disputed := HasEvidence(m, k, field, index, Disputed) || Disagrees(m, k, field);
    match s
    case Disputed => disputed
    case Acceptable => !disputed && HasEvidence(m, k, field, index, Acceptable)
    case Stale => !disputed && !HasEvidence(m, k, field, index, Acceptable) && HasEvidence(m, k, field, index, Stale)
    case Unproven => !disputed && !HasEvidence(m, k, field, index, Acceptable) && !HasEvidence(m, k, field, index, Stale)
  }

  lemma ManyValues(values: set<Value>)
    ensures |values| > 1 <==> exists v, w :: v in values && w in values && v != w
  {
    if |values| > 1 {
      var v :| v in values;
      assert |values - {v}| == |values| - 1;
      var w :| w in values - {v};
    }
    forall v, w | v in values && w in values && |values| <= 1 ensures v == w { OneElement(values, v); }
  }

  lemma ReadFacts(m: Material, k: nat, field: string)
    requires k < |m.components|
    ensures forall f :: f in Matching(Visible(m, k), field) <==> IsRead(m, k, field, f)
  {
  }

  /** The state of a field in a component, and its values. */
  lemma FieldStateExactly(m: Material, k: nat, field: string, index: Index)
    requires k < |m.components|
    ensures var s := ComponentStates(m, field, index)[k];
      && (forall state :: s.state == state <==> IsIn(m, k, field, index, state))
      && (forall v :: v in s.values <==> exists f :: IsRead(m, k, field, f) && f.value == v)
  {
    hide Visible, Matching, StatesOf, ValuesOf, IsRead;
    ReadFacts(m, k, field);
    var matching := Matching(Visible(m, k), field);
    var states, values := StatesOf(matching, field, index), ValuesOf(matching);
    ManyValues(values);
    forall state ensures state in states <==> HasEvidence(m, k, field, index, state) {}
    assert |values| > 1 <==> Disagrees(m, k, field) by { ValuesDisagree(m, k, field, matching); }
    if matching == {} {
      NothingRead(m, k, field, index);
    }
  }

  lemma ValuesDisagree(m: Material, k: nat, field: string, matching: set<Fact>)
    requires forall f :: f in matching <==> IsRead(m, k, field, f)
    ensures |ValuesOf(matching)| > 1 <==> Disagrees(m, k, field)
  {
    hide ValuesOf, IsRead;
    ManyValues(ValuesOf(matching));
    if Disagrees(m, k, field) {
      var f, g :| IsRead(m, k, field, f) && IsRead(m, k, field, g) && f.value != g.value;
      assert f.value in ValuesOf(matching) && g.value in ValuesOf(matching);
    }
  }

  lemma NothingRead(m: Material, k: int, field: string, index: Index)
    requires forall f :: !IsRead(m, k, field, f)
    ensures IsIn(m, k, field, index, Unproven)
  {
    hide IsRead;
  }

  // ---------- a look ----------

  /** What one predicate of a seller's gate contributes: the buyer's value decides; without one, it is unknown. */
  lemma SellerLookExactly(g: Gate, m: Material, c: Context, p: Predicate)
    requires IsSeller(g)
    ensures var look := Observe(g, m, c, p);
      && (forall error :: look == Failure(error) <==> p.field in c.buyer && Raises(c.read, c.buyer[p.field], p, error))
      && (look.Success? ==>
           look.value ==
             if p.field !in c.buyer then Observation({IsUnknown}, {Reason("SELLER_CONDITION_UNRESOLVED", Conditional, p.field)})
             else Observation({if Satisfies(c.read, c.buyer[p.field], p) then IsTrue else IsFalse}, {}))
  {
    hide Matches, Raises, Satisfies;
    if p.field in c.buyer { MatchesExactly(c.read, c.buyer[p.field], p); }
  }

  ghost predicate AnyIn(m: Material, field: string, index: Index, s: EvidenceState) {
    exists k :: 0 <= k < |m.components| && IsIn(m, k, field, index, s)
  }

  ghost predicate SomeValueRaises(m: Material, c: Context, p: Predicate) {
    exists k, f, error :: IsRead(m, k, p.field, f) && Raises(c.read, f.value, p, error)
  }

  /** Every value of the field in the component satisfies the predicate. */
  ghost predicate AllSatisfy(m: Material, c: Context, p: Predicate, k: int) {
    forall f :: IsRead(m, k, p.field, f) ==> Satisfies(c.read, f.value, p)
  }

  ghost predicate IsDecidedFor(m: Material, c: Context, p: Predicate, truths: set<Truth>) {
    && truths <= {IsTrue, IsFalse}
    && (IsTrue in truths <==> exists k :: 0 <= k < |m.components| && AllSatisfy(m, c, p, k))
    && (IsFalse in truths <==> exists k :: 0 <= k < |m.components| && !AllSatisfy(m, c, p, k))
  }

  /** What one predicate of another gate contributes: the worst state of its field over the components, or, when
      the field is proven in all of them, whether its values satisfy the predicate in each. */
  ghost predicate IsLook(m: Material, c: Context, p: Predicate, look: Result<Observation, EvaluationError>) {
    if AnyIn(m, p.field, c.index, Disputed)
    then look == Success(Observation({InConflict}, {Reason("CONFLICTING_EVIDENCE", ConflictingEvidence, p.field)}))
    else if AnyIn(m, p.field, c.index, Stale)
    then look == Success(Observation({IsUnknown}, {Reason("STALE_EVIDENCE", StaleEvidence, p.field)}))
    else if AnyIn(m, p.field, c.index, Unproven)
    then look == Success(Observation({IsUnknown}, {Reason("INSUFFICIENT_EVIDENCE", InsufficientEvidence, p.field)}))
    else if SomeValueRaises(m, c, p)
    then look == Failure(if p.operator.Other? then UnsupportedOperator else NotANumber)
    else look.Success? && look.value.reasons == {} && IsDecidedFor(m, c, p, look.value.truths)
  }

  lemma SomewhereExactly(m: Material, field: string, index: Index, s: EvidenceState)
    ensures Somewhere(ComponentStates(m, field, index), s) <==> AnyIn(m, field, index, s)
  {
    hide IsIn, ComponentStates;
    var states := ComponentStates(m, field, index);
    forall k | 0 <= k < |states| ensures states[k].state == s <==> IsIn(m, k, field, index, s) {
      FieldStateExactly(m, k, field, index);
    }
    if Somewhere(states, s) {
      var x :| x in states && x.state == s;
      var k :| 0 <= k < |states| && states[k] == x;
    }
    if AnyIn(m, field, index, s) {
      var k :| 0 <= k < |m.components| && IsIn(m, k, field, index, s);
      assert states[k] in states;
    }
  }

  lemma EmptyIsUnproven(m: Material, field: string, index: Index, k: nat)
    requires k < |m.components| && ComponentStates(m, field, index)[k].values == {}
    ensures IsIn(m, k, field, index, Unproven)
  {
    hide IsIn, IsRead, ComponentStates;
    FieldStateExactly(m, k, field, index);
    var values := ComponentStates(m, field, index)[k].values;
    forall f ensures !IsRead(m, k, field, f) { assert IsRead(m, k, field, f) ==> f.value in values; }
    NothingRead(m, k, field, index);
  }

  lemma NoneIsEmpty(m: Material, field: string, index: Index)
    requires !AnyIn(m, field, index, Unproven)
    ensures !exists s :: s in ComponentStates(m, field, index) && s.values == {}
  {
    hide IsIn, ComponentStates;
    var states := ComponentStates(m, field, index);
    forall k | 0 <= k < |states| ensures states[k].values != {} {
      if states[k].values == {} { EmptyIsUnproven(m, field, index, k); }
    }
  }

  lemma RaisingExactly(m: Material, c: Context, p: Predicate)
    ensures SomeRaises(ComponentStates(m, p.field, c.index), p, c.read) <==> SomeValueRaises(m, c, p)
  {
    hide IsIn, IsRead, ComponentStates, Matches, Raises;
    var states := ComponentStates(m, p.field, c.index);
    if SomeRaises(states, p, c.read) {
      var s, v :| s in states && v in s.values && Matches(c.read, v, p).Failure?;
      var k :| 0 <= k < |states| && states[k] == s;
      FieldStateExactly(m, k, p.field, c.index);
      var f :| IsRead(m, k, p.field, f) && f.value == v;
      MatchesExactly(c.read, v, p);
      assert Raises(c.read, f.value, p, Matches(c.read, v, p).error);
    }
    if SomeValueRaises(m, c, p) {
      var k, f, error :| IsRead(m, k, p.field, f) && Raises(c.read, f.value, p, error);
      ReadIsInside(m, k, p.field, f);
      FieldStateExactly(m, k, p.field, c.index);
      MatchesExactly(c.read, f.value, p);
      assert states[k] in states && f.value in states[k].values;
    }
  }

  lemma ReadIsInside(m: Material, k: int, field: string, f: Fact)
    requires IsRead(m, k, field, f)
    ensures 0 <= k < |m.components|
  {
  }

  lemma HoldingExactly(m: Material, c: Context, p: Predicate, k: nat)
    requires k < |m.components|
    ensures HoldsFor(ComponentStates(m, p.field, c.index)[k], p, c.read) <==> AllSatisfy(m, c, p, k)
  {
    hide IsIn, IsRead, ComponentStates, Matches, Satisfies;
    FieldStateExactly(m, k, p.field, c.index);
    forall v ensures Matches(c.read, v, p) == Success(true) <==> Satisfies(c.read, v, p) { MatchesExactly(c.read, v, p); }
  }

  lemma DecidedExactly(m: Material, c: Context, p: Predicate)
    ensures IsDecidedFor(m, c, p, Decided(ComponentStates(m, p.field, c.index), p, c.read))
  {
    hide ComponentStates, HoldsFor, AllSatisfy;
    var states := ComponentStates(m, p.field, c.index);
    forall k | 0 <= k < |states| ensures states[k] in states && (HoldsFor(states[k], p, c.read) <==> AllSatisfy(m, c, p, k)) {
      HoldingExactly(m, c, p, k);
    }
    forall s | s in states ensures exists k :: 0 <= k < |states| && states[k] == s {}
  }

  lemma LookExactly(g: Gate, m: Material, c: Context, p: Predicate)
    requires !IsSeller(g)
    ensures IsLook(m, c, p, Observe(g, m, c, p))
  {
    hide AnyIn, SomeValueRaises, IsDecidedFor, ComponentStates, Somewhere, SomeRaises, Decided, Matches;
    SomewhereExactly(m, p.field, c.index, Disputed);
    SomewhereExactly(m, p.field, c.index, Stale);
    SomewhereExactly(m, p.field, c.index, Unproven);
    if !AnyIn(m, p.field, c.index, Unproven) { NoneIsEmpty(m, p.field, c.index); }
    RaisingExactly(m, c, p);
    DecidedExactly(m, c, p);
  }

  // ---------- the evidence of a seller's rule ----------

  ghost predicate ClaimIsIn(g: Gate, index: Index, s: EvidenceState) {
    exists p :: p in index && p.evidence in g.claims && index[p] == s
  }

  /** Without claims nothing is asked; a claim that is missing or unproven, or stale, is unknown, and a disputed one
      is in conflict, each under its own reason. */
  lemma SellerEvidenceExactly(g: Gate, index: Index)
    ensures var o := SellerEvidence(g, index);
      var asked := IsSeller(g) && g.claims != {};
      var missing := !(exists s :: ClaimIsIn(g, index, s)) || ClaimIsIn(g, index, Unproven);
      && (IsUnknown in o.truths <==> asked && (missing || ClaimIsIn(g, index, Stale)))
      && (InConflict in o.truths <==> asked && ClaimIsIn(g, index, Disputed))
      && IsTrue !in o.truths && IsFalse !in o.truths
      && (forall x :: x in o.reasons <==>
           || (asked && missing && x == Reason("INSUFFICIENT_SELLER_RULE_EVIDENCE", InsufficientEvidence, ""))
           || (asked && ClaimIsIn(g, index, Stale) && x == Reason("STALE_SELLER_RULE_EVIDENCE", StaleEvidence, ""))
           || (asked && ClaimIsIn(g, index, Disputed) && x == Reason("CONFLICTING_SELLER_RULE_EVIDENCE", ConflictingEvidence, "")))
  {
    var states := set p | p in index && p.evidence in g.claims :: index[p];
    assert forall s :: s in states <==> ClaimIsIn(g, index, s);
    assert states == {} <==> !exists s :: ClaimIsIn(g, index, s) by {
      if states != {} { var s :| s in states; }
    }
  }

  // ---------- a gate ----------

  ghost predicate IsSeen(g: Gate, m: Material, c: Context, t: Truth) {
    t in SellerEvidence(g, c.index).truths
    || exists p :: p in g.predicates && Observe(g, m, c, p).Success? && t in Observe(g, m, c, p).value.truths
  }

  ghost predicate IsReasonSeen(g: Gate, m: Material, c: Context, x: Reason) {
    x in SellerEvidence(g, c.index).reasons
    || exists p :: p in g.predicates && Observe(g, m, c, p).Success? && x in Observe(g, m, c, p).value.reasons
  }

  lemma {:induction false} AllLooks(g: Gate, m: Material, c: Context, predicates: seq<Predicate>, seen: Observation)
    ensures var r := ObserveAll(g, m, c, predicates, seen);
      && (r.Success? <==> forall p :: p in predicates ==> Observe(g, m, c, p).Success?)
      && (r.Failure? ==> exists i :: FailsFirst(g, m, c, predicates, i, r.error))
      && (r.Success? ==> forall t :: t in r.value.truths <==>
            t in seen.truths || exists p :: p in predicates && Observe(g, m, c, p).Success? && t in Observe(g, m, c, p).value.truths)
      && (r.Success? ==> forall x :: x in r.value.reasons <==>
            x in seen.reasons || exists p :: p in predicates && Observe(g, m, c, p).Success? && x in Observe(g, m, c, p).value.reasons)
    decreases |predicates|
  {
    hide Observe;
    if predicates != [] {
      var rest := predicates[1..];
      assert forall p :: p in predicates <==> p == predicates[0] || p in rest;
      if Observe(g, m, c, predicates[0]).Success? {
        var joined := Join(seen, Observe(g, m, c, predicates[0]).value);
        AllLooks(g, m, c, rest, joined);
        var r := ObserveAll(g, m, c, rest, joined);
        if r.Failure? {
          var i :| FailsFirst(g, m, c, rest, i, r.error);
          assert FailsFirst(g, m, c, predicates, i + 1, r.error);
        }
      } else {
        assert FailsFirst(g, m, c, predicates, 0, Observe(g, m, c, predicates[0]).error);
      }
    }
  }

  ghost predicate FailsFirst(g: Gate, m: Material, c: Context, predicates: seq<Predicate>, i: int, error: EvaluationError) {
    0 <= i < |predicates| && Observe(g, m, c, predicates[i]) == Failure(error)
    && forall j :: 0 <= j < i ==> Observe(g, m, c, predicates[j]).Success?
  }

  /** The truth of a gate: a conflict wins; a required gate needs every look TRUE, a blocking gate one look that is
      FALSE; doubt decides only when nothing else does. */
  ghost predicate GateIs(g: Gate, m: Material, c: Context, t: Truth) {
    var conflict, failed, doubt := IsSeen(g, m, c, InConflict), IsSeen(g, m, c, IsFalse), IsSeen(g, m, c, IsUnknown);
    match t
    case InConflict => conflict
    case IsTrue => !conflict && if g.mode == RequireMatch then !failed && !doubt else failed
    case IsFalse => !conflict && if g.mode == RequireMatch then failed else !failed && !doubt
    case IsUnknown => !conflict && !failed && doubt
  }

  /** A gate fails exactly when a predicate does, with the first such error; otherwise its truth follows from what was
      seen, and its reasons are those seen and, when it is FALSE, its own. */
  lemma GateExactly(g: Gate, m: Material, c: Context)
    ensures var r := Evaluated(g, m, c);
      && (r.Failure? <==> exists p :: p in g.predicates && Observe(g, m, c, p).Failure?)
      && (r.Failure? ==> exists i :: FailsFirst(g, m, c, g.predicates, i, r.error))
      && (r.Success? ==>
           && r.value.id == g.id
           && (forall t :: r.value.truth == t <==> GateIs(g, m, c, t))
           && (forall x :: x in r.value.reasons <==>
                || IsReasonSeen(g, m, c, x)
                || (r.value.truth == IsFalse && x == Reason(g.code, g.blocked,
                     if g.mode == RequireMatch then "Required predicate failed" else "Blocking predicate matched"))))
  {
    hide Observe, SellerEvidence, ObserveAll, FailsFirst;
    AllLooks(g, m, c, g.predicates, SellerEvidence(g, c.index));
    var all := ObserveAll(g, m, c, g.predicates, SellerEvidence(g, c.index));
    if all.Success? { ConcludedExactly(g, m, c, all.value); }
    hide Conclude;
  }

  lemma ConcludedExactly(g: Gate, m: Material, c: Context, o: Observation)
    requires forall t :: t in o.truths <==> IsSeen(g, m, c, t)
    requires forall x :: x in o.reasons <==> IsReasonSeen(g, m, c, x)
    ensures var r := Conclude(g, o);
      && r.id == g.id
      && (forall t :: r.truth == t <==> GateIs(g, m, c, t))
      && (forall x :: x in r.reasons <==>
           || IsReasonSeen(g, m, c, x)
           || (r.truth == IsFalse && x == Reason(g.code, g.blocked,
                if g.mode == RequireMatch then "Required predicate failed" else "Blocking predicate matched")))
  {
    hide IsSeen, IsReasonSeen;
  }

  // ---------- all gates of a plan ----------

  ghost predicate IdsAscend(gates: seq<Gate>) {
    forall i, j :: 0 <= i < j < |gates| ==> AtMost(gates[i].id, gates[j].id)
  }

  lemma AtMostChains(a: string, b: string, c: string)
    requires AtMost(a, b) && AtMost(b, c)
    ensures AtMost(a, c)
  {
    if a != b && b != c { BeforeTransitive(a, b, c); }
  }

  lemma {:induction false} InsertAscends(g: Gate, gates: seq<Gate>)
    requires IdsAscend(gates)
    ensures IdsAscend(InsertGate(g, gates))
  {
    hide AtMost;
    if gates != [] {
      if AtMost(g.id, gates[0].id) {
        forall j | 0 <= j < |gates| ensures AtMost(g.id, gates[j].id) {
          if j > 0 { AtMostChains(g.id, gates[0].id, gates[j].id); }
        }
      } else {
        var rest := InsertGate(g, gates[1..]);
        InsertAscends(g, gates[1..]);
        forall j | 0 <= j < |rest| ensures AtMost(gates[0].id, rest[j].id) {
          assert rest[j] in multiset(rest) && rest[j] in multiset(gates[1..]) + multiset{g};
          LaterOrInserted(g, gates, rest[j]);
        }
      }
    }
  }

  lemma LaterOrInserted(g: Gate, gates: seq<Gate>, x: Gate)
    requires gates != [] && IdsAscend(gates) && !AtMost(g.id, gates[0].id) && (x == g || x in gates[1..])
    ensures AtMost(gates[0].id, x.id)
  {
    OneOrder(g.id, gates[0].id);
  }

  /** Gates are evaluated in order of their identifiers. */
  lemma {:induction false} GatesAscend(gates: seq<Gate>)
    ensures IdsAscend(InOrder(gates))
  {
    hide IdsAscend;
    if gates == [] {
      assert IdsAscend([]) by { NoGatesAscend(); }
    } else {
      GatesAscend(gates[1..]);
      InsertAscends(gates[0], InOrder(gates[1..]));
    }
  }

  lemma NoGatesAscend()
    ensures IdsAscend([])
  {
  }

  /** The gate is for these facts and for this action, unless it is for any, and a gate of the seller is published
      with the plan. */
  ghost predicate IsFor(g: Gate, m: Material, activeFacts: set<string>) {
    && (g.sourceFacts != {} ==> forall f :: f in g.sourceFacts ==> f in activeFacts)
    && (g.actions != {} ==> m.action in g.actions)
    && (g.blocked == SeilPass ==> g.id in m.sellerGates)
  }

  ghost predicate Refuses(m: Material, x: GateResult, code: string, status: Status, detail: string) {
    x == GateResult(m.sourceId, IsFalse, {Reason(code, status, detail)})
  }

  /** The results every plan has: its availability, one for each dependency issue, and one for an authority that is not
      sealed by the seller. */
  ghost predicate IsBuiltIn(m: Material, x: GateResult) {
    || (m.available && x == GateResult(m.sourceId, IsTrue, {}))
    || (!m.available && Refuses(m, x, "UNAVAILABLE", Unavailable, "Action is unavailable"))
    || (exists issue :: issue in m.dependencyIssues && Refuses(m, x, issue, SiraIneligible, ""))
    || (m.authority.Some? && m.authority.value != SellerSealed && Refuses(m, x, "SELLER_AUTHORITY_REQUIRED", AdvisoryOnly, ""))
  }

  lemma BuiltInExactly(m: Material, x: GateResult)
    ensures x in BuiltIn(m) <==> IsBuiltIn(m, x)
  {
    var dependencies := Dependencies(m);
    if issue :| issue in m.dependencyIssues && Refuses(m, x, issue, SiraIneligible, "") {
      var i :| 0 <= i < |m.dependencyIssues| && m.dependencyIssues[i] == issue;
      assert dependencies[i] == x;
      assert x in dependencies;
    }
    if x in dependencies {
      var i :| 0 <= i < |dependencies| && dependencies[i] == x;
      assert m.dependencyIssues[i] in m.dependencyIssues;
    }
    hide Dependencies;
  }

  ghost predicate IsResultOf(gates: seq<Gate>, m: Material, c: Context, x: GateResult) {
    exists g :: g in gates && IsFor(g, m, c.activeFacts) && Evaluated(g, m, c) == Success(x)
  }

  lemma {:induction false} AppliedGates(gates: seq<Gate>, m: Material, c: Context, done: seq<GateResult>)
    ensures var r := ApplyGates(gates, m, c, done);
      && (r.Success? <==> forall g :: g in gates && IsFor(g, m, c.activeFacts) ==> Evaluated(g, m, c).Success?)
      && (r.Success? ==> forall x :: x in r.value <==> x in done || IsResultOf(gates, m, c, x))
    decreases |gates|
  {
    hide Evaluated;
    if gates != [] {
      assert forall g :: g in gates <==> g == gates[0] || g in gates[1..];
      assert Applies(gates[0], m, c.activeFacts) <==> IsFor(gates[0], m, c.activeFacts);
      hide Applies, IsFor;
      if !Applies(gates[0], m, c.activeFacts) {
        AppliedGates(gates[1..], m, c, done);
      } else if Evaluated(gates[0], m, c).Success? {
        AppliedGates(gates[1..], m, c, done + [Evaluated(gates[0], m, c).value]);
      }
    }
  }

  /** The evaluation of a plan fails exactly when a gate that is for it does; otherwise its results are the built-in ones
      and those of exactly the gates that are for it. */
  lemma PlanResultsExactly(gates: seq<Gate>, m: Material, c: Context)
    ensures var r := ResultsOf(gates, m, c);
      && (r.Success? <==> forall g :: g in gates && IsFor(g, m, c.activeFacts) ==> Evaluated(g, m, c).Success?)
      && (r.Success? ==> forall x :: x in r.value <==> IsBuiltIn(m, x) || IsResultOf(gates, m, c, x))
  {
    hide Evaluated, BuiltIn, IsBuiltIn, IsFor, InOrder, ApplyGates;
    AppliedGates(InOrder(gates), m, c, BuiltIn(m));
    forall g ensures g in InOrder(gates) <==> g in gates {
      assert g in InOrder(gates) <==> g in multiset(InOrder(gates));
      assert g in gates <==> g in multiset(gates);
    }
    forall x ensures x in BuiltIn(m) <==> IsBuiltIn(m, x) { BuiltInExactly(m, x); }
  }
}
