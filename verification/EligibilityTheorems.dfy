/** What an ELIGIBLE status proves about a plan, and what a gate can never do. */
module EligibilityTheorems {
  import opened Outcomes
  import opened EvidenceAssessments
  import opened EligibilityGates

  // ---------- the status is the worst reason ----------

  lemma {:induction false} FirstStatusIsLeast(reasons: set<Reason>, order: seq<Status>)
    requires forall i, j :: 0 <= i < j < |order| ==> Rank(order[i]) < Rank(order[j])
    requires forall x :: x in reasons ==> x.status in order
    ensures reasons == {} ==> FirstStatus(reasons, order) == Eligible
    ensures reasons != {} ==> exists x :: x in reasons && x.status == FirstStatus(reasons, order)
    ensures forall x :: x in reasons ==> Rank(FirstStatus(reasons, order)) <= Rank(x.status)
  {
    if order == [] {
      forall x ensures x !in reasons {}
    } else if !exists x :: x in reasons && x.status == order[0] {
      forall x | x in reasons ensures x.status in order[1..] { assert x.status in order; }
      FirstStatusIsLeast(reasons, order[1..]);
    } else {
      forall x | x in reasons ensures Rank(order[0]) <= Rank(x.status) {
        var i :| 0 <= i < |order| && order[i] == x.status;
      }
    }
  }

  lemma EveryStatusHasAPlace(s: Status)
    ensures s in PRECEDENCE
  {
    assert PRECEDENCE[Rank(s)] == s;
  }

  /** The primary status is the least precedence of all reasons. */
  lemma PrimaryStatusIsWorst(results: seq<GateResult>)
    ensures var reasons := AllReasons(results);
      && (reasons == {} ==> PrimaryStatus(results) == Eligible)
      && (reasons != {} ==> exists x :: x in reasons && x.status == PrimaryStatus(results))
      && (forall x :: x in reasons ==> Rank(PrimaryStatus(results)) <= Rank(x.status))
  {
    forall x | x in AllReasons(results) ensures x.status in PRECEDENCE { EveryStatusHasAPlace(x.status); }
    FirstStatusIsLeast(AllReasons(results), PRECEDENCE);
  }

  // ---------- every observation explains itself ----------

  /** There is a reason exactly when there is doubt, and no reason says ELIGIBLE. */
  predicate Explained(o: Observation) {
    && (IsUnknown in o.truths || InConflict in o.truths <==> o.reasons != {})
    && (forall x :: x in o.reasons ==> x.status != Eligible)
  }

  lemma ObservationIsExplained(g: Gate, m: Material, c: Context, p: Predicate)
    ensures Observe(g, m, c, p).Success? ==> Explained(Observe(g, m, c, p).value)
  {
    hide Matches, Somewhere, SomeRaises;
  }

  lemma {:induction false} ObservationsAreExplained(g: Gate, m: Material, c: Context, predicates: seq<Predicate>, seen: Observation)
    requires Explained(seen)
    ensures var r := ObserveAll(g, m, c, predicates, seen);
      r.Success? ==> Explained(r.value) && seen.truths <= r.value.truths && seen.reasons <= r.value.reasons
    decreases |predicates|
  {
    if predicates != [] && Observe(g, m, c, predicates[0]).Success? {
      var o := Observe(g, m, c, predicates[0]).value;
      ObservationIsExplained(g, m, c, predicates[0]);
      assert Explained(Join(seen, o)) by { hide Observe; }
      ObservationsAreExplained(g, m, c, predicates[1..], Join(seen, o));
    }
  }

  /** All that was observed of a gate. */
  function Observed(g: Gate, m: Material, c: Context): Result<Observation, EvaluationError> {
    ObserveAll(g, m, c, g.predicates, SellerEvidence(g, c.index))
  }

  /** A gate without a reason is TRUE; a TRUE gate still has a reason exactly when it blocks on a match, one
      predicate fails, another is unknown and none is in conflict. */
  lemma TrueWithoutReason(g: Gate, m: Material, c: Context)
    requires Evaluated(g, m, c).Success?
    ensures var r, o := Evaluated(g, m, c).value, Observed(g, m, c).value;
      && (r.reasons == {} ==> r.truth == IsTrue)
      && (r.truth == IsTrue && r.reasons != {}
          <==> g.mode == BlockOnMatch && IsFalse in o.truths && IsUnknown in o.truths && InConflict !in o.truths)
      && (r.truth == IsTrue && r.reasons == {}
          <==> IsUnknown !in o.truths && InConflict !in o.truths && (g.mode == RequireMatch <==> IsFalse !in o.truths))
      && (forall x :: x in r.reasons ==> x.status != Eligible)
  {
    hide ObserveAll;
    ObservationsAreExplained(g, m, c, g.predicates, SellerEvidence(g, c.index));
  }

  /** A look that fails and one that is unknown leave a blocking gate TRUE, with the reason of the unknown. */
  lemma OneFailsOneUnknown(g: Gate, m: Material, c: Context, first: Predicate, second: Predicate, reasons: set<Reason>)
    requires g.predicates == [first, second] && g.mode == BlockOnMatch && !IsSeller(g) && reasons != {}
    requires Observe(g, m, c, first) == Success(Observation({IsFalse}, {}))
    requires Observe(g, m, c, second) == Success(Observation({IsUnknown}, reasons))
    ensures Evaluated(g, m, c) == Success(GateResult(g.id, IsTrue, reasons))
  {
    hide Observe;
    var seen := Observation({}, {});
    assert g.predicates[1..] == [second] && [second][1..] == [];
    var failed, doubt := Observation({IsFalse}, {}), Observation({IsUnknown}, reasons);
    assert Join(seen, failed) == failed;
    assert Join(failed, doubt) == Observation({IsFalse, IsUnknown}, reasons);
    assert ObserveAll(g, m, c, [second], failed) == ObserveAll(g, m, c, [], Join(failed, doubt));
  }

  /** Such a gate: it blocks when both fields match, one field does not and nothing is known of the other. */
  lemma TrueGateCanStillBlock()
    ensures exists g: Gate, m, c ::
      Evaluated(g, m, c).Success? && Evaluated(g, m, c).value.truth == IsTrue && Evaluated(g, m, c).value.reasons != {}
  {
    hide Evaluated, StateOfField, Observe, ObserveAll;
    var known, unknown := Predicate("region", Eq, Text("EU")), Predicate("tier", Eq, Text("gold"));
    var g: Gate := GateFields("g", [known, unknown], BlockOnMatch, SiraIneligible, "BLOCKED", {}, {}, {});
    var fact := Fact("region", Text("US"), {"e"}, None);
    var m := Material("s", Buy, ["p"], [fact], true, None, {}, []);
    var c := Context(map[], {}, map[Pair("e", "region") := Acceptable], t => None);
    var reasons := {Reason("INSUFFICIENT_EVIDENCE", InsufficientEvidence, "tier")};
    KnownFieldState(fact, c.index);
    SingleLook(g, m, c, known);
    SingleLook(g, m, c, unknown);
    OneFailsOneUnknown(g, m, c, known, unknown, reasons);
  }

  /** A gate over a single component sees one field state. */
  lemma SingleLook(g: Gate, m: Material, c: Context, p: Predicate)
    requires |m.components| == 1 && !IsSeller(g) && p.operator == Eq
    ensures var s := StateOfField(m.facts, p.field, c.index);
      && (s.state == Unproven ==>
           Observe(g, m, c, p) == Success(Observation({IsUnknown}, {Reason("INSUFFICIENT_EVIDENCE", InsufficientEvidence, p.field)})))
      && (s.state == Acceptable && s.values != {} && p.value !in s.values ==>
           Observe(g, m, c, p) == Success(Observation({IsFalse}, {})))
  {
    hide StateOfField;
    var s := StateOfField(m.facts, p.field, c.index);
    assert ComponentStates(m, p.field, c.index) == [s];
    assert s in [s];
    if s.state == Acceptable && s.values != {} && p.value !in s.values {
      var v :| v in s.values;
      assert Matches(c.read, v, p) == Success(false);
      assert Decided([s], p, c.read) == {IsFalse};
    }
  }

  lemma KnownFieldState(fact: Fact, index: Index)
    requires fact.evidence == {"e"} && fact.field == "region" && index == map[Pair("e", "region") := Acceptable]
    ensures StateOfField([fact], "region", index) == FieldState({fact.value}, Acceptable)
    ensures StateOfField([fact], "tier", index).state == Unproven
  {
    var matching := Matching([fact], "region");
    assert matching == {fact};
    assert StatesOf(matching, "region", index) == {Acceptable} by {
      assert "e" in fact.evidence && index[Pair("e", "region")] == Acceptable;
    }
    assert ValuesOf(matching) == {fact.value};
    assert Matching([fact], "tier") == {};
  }

  // ---------- what an eligible plan satisfies ----------

  /** Exactly one value, supported by acceptable evidence and by no disputed evidence. */
  ghost predicate Backed(facts: seq<Fact>, field: string, v: Value, index: Index) {
    && (exists f :: f in facts && f.field == field)
    && (forall f :: f in facts && f.field == field ==> f.value == v)
    && (exists f, e :: f in facts && f.field == field && e in f.evidence
                       && Pair(e, field) in index && index[Pair(e, field)] == Acceptable)
    && (forall f, e :: f in facts && f.field == field && e in f.evidence && Pair(e, field) in index
                       ==> index[Pair(e, field)] != Disputed)
  }

  lemma OneElement(values: set<Value>, v: Value)
    requires v in values && |values| <= 1
    ensures values == {v}
  {
    assert |values - {v}| == 0;
  }

  lemma AcceptableIsBacked(facts: seq<Fact>, field: string, index: Index)
    requires StateOfField(facts, field, index).state == Acceptable
    ensures exists v :: StateOfField(facts, field, index).values == {v} && Backed(facts, field, v, index)
  {
    var matching := Matching(facts, field);
    var f :| f in matching;
    var values, states := ValuesOf(matching), StatesOf(matching, field, index);
    assert f.value in values;
    OneElement(values, f.value);
    forall x | x in facts && x.field == field ensures x.value == f.value {
      assert x in matching && x.value in values;
    }
    forall x, e | x in facts && x.field == field && e in x.evidence && Pair(e, field) in index
      ensures index[Pair(e, field)] != Disputed
    {
      assert x in matching && index[Pair(e, field)] in states;
    }
    assert Backed(facts, field, f.value, index);
  }

  /** The value of the field, backed by evidence, satisfies the predicate. */
  ghost predicate Satisfied(facts: seq<Fact>, p: Predicate, c: Context) {
    exists v :: Backed(facts, p.field, v, c.index) && Matches(c.read, v, p) == Success(true)
  }

  /** The value of the field, backed by evidence, does not satisfy the predicate. */
  ghost predicate Refuted(facts: seq<Fact>, p: Predicate, c: Context) {
    exists v :: Backed(facts, p.field, v, c.index) && Matches(c.read, v, p) == Success(false)
  }

  /** A component with acceptable evidence decides the predicate. */
  lemma AcceptableDecides(facts: seq<Fact>, p: Predicate, c: Context)
    requires StateOfField(facts, p.field, c.index).state == Acceptable
    requires forall v :: v in StateOfField(facts, p.field, c.index).values ==> Matches(c.read, v, p).Success?
    ensures HoldsFor(StateOfField(facts, p.field, c.index), p, c.read) ==> Satisfied(facts, p, c)
    ensures !HoldsFor(StateOfField(facts, p.field, c.index), p, c.read) ==> Refuted(facts, p, c)
  {
    hide Backed, Matches, StateOfField;
    AcceptableIsBacked(facts, p.field, c.index);
    var v :| StateOfField(facts, p.field, c.index).values == {v} && Backed(facts, p.field, v, c.index);
    var outcome := Matches(c.read, v, p);
    assert outcome == Success(outcome.value);
    if outcome.value { assert outcome == Success(true); } else { assert outcome == Success(false); }
  }

  /** A look without a reason saw acceptable evidence in every component. */
  lemma UnexplainedLook(g: Gate, m: Material, c: Context, p: Predicate, s: FieldState)
    requires !IsSeller(g) && s in ComponentStates(m, p.field, c.index)
    requires Observe(g, m, c, p).Success? && Observe(g, m, c, p).value.reasons == {}
    ensures s.state == Acceptable
    ensures forall v :: v in s.values ==> Matches(c.read, v, p).Success?
    ensures Observe(g, m, c, p).value.truths == Decided(ComponentStates(m, p.field, c.index), p, c.read)
  {
    hide Matches, ComponentStates, Decided;
  }

  /** An observation without doubt decides the predicate for every component. */
  lemma DecidedMeansBacked(g: Gate, m: Material, c: Context, p: Predicate, k: nat)
    requires !IsSeller(g) && k < |m.components|
    requires Observe(g, m, c, p).Success? && Observe(g, m, c, p).value.reasons == {}
    ensures Satisfied(Visible(m, k), p, c) || Refuted(Visible(m, k), p, c)
    ensures IsFalse !in Observe(g, m, c, p).value.truths ==> Satisfied(Visible(m, k), p, c)
  {
    hide StateOfField, Observe, Satisfied, Refuted, HoldsFor, Visible;
    var s := ComponentStates(m, p.field, c.index)[k];
    assert s in ComponentStates(m, p.field, c.index);
    UnexplainedLook(g, m, c, p, s);
    AcceptableDecides(Visible(m, k), p, c);
  }

  lemma FalseMeansRefuted(g: Gate, m: Material, c: Context, p: Predicate)
    requires !IsSeller(g)
    requires Observe(g, m, c, p).Success? && IsFalse in Observe(g, m, c, p).value.truths
    ensures exists k :: 0 <= k < |m.components| && Refuted(Visible(m, k), p, c)
  {
    hide StateOfField, Satisfied, Refuted, HoldsFor, Visible, Matches;
    var states := ComponentStates(m, p.field, c.index);
    var s :| s in states && !HoldsFor(s, p, c.read);
    var k :| 0 <= k < |states| && states[k] == s;
    UnexplainedLook(g, m, c, p, s);
    AcceptableDecides(Visible(m, k), p, c);
  }

  /** Every single look is part of what was observed of the gate. */
  lemma {:induction false} LooksAreContained(g: Gate, m: Material, c: Context, predicates: seq<Predicate>, seen: Observation, p: Predicate)
    requires ObserveAll(g, m, c, predicates, seen).Success? && p in predicates
    ensures Observe(g, m, c, p).Success?
    ensures var all, o := ObserveAll(g, m, c, predicates, seen).value, Observe(g, m, c, p).value;
      o.truths <= all.truths && o.reasons <= all.reasons
    decreases |predicates|
  {
    hide Observe;
    var o := Observe(g, m, c, predicates[0]).value;
    Grows(g, m, c, predicates[1..], Join(seen, o));
    if p != predicates[0] {
      LooksAreContained(g, m, c, predicates[1..], Join(seen, o), p);
    }
  }

  lemma {:induction false} Grows(g: Gate, m: Material, c: Context, predicates: seq<Predicate>, seen: Observation)
    ensures var r := ObserveAll(g, m, c, predicates, seen);
      r.Success? ==> seen.truths <= r.value.truths && seen.reasons <= r.value.reasons
    decreases |predicates|
  {
    hide Observe;
    if predicates != [] && Observe(g, m, c, predicates[0]).Success? {
      Grows(g, m, c, predicates[1..], Join(seen, Observe(g, m, c, predicates[0]).value));
    }
  }

  /** A false look has its source among the predicates. */
  lemma {:induction false} FalseHasASource(g: Gate, m: Material, c: Context, predicates: seq<Predicate>, seen: Observation)
    requires ObserveAll(g, m, c, predicates, seen).Success?
    requires IsFalse in ObserveAll(g, m, c, predicates, seen).value.truths && IsFalse !in seen.truths
    ensures exists p :: p in predicates && Observe(g, m, c, p).Success? && IsFalse in Observe(g, m, c, p).value.truths
    decreases |predicates|
  {
    hide Observe;
    assert predicates != [];
    var o := Observe(g, m, c, predicates[0]).value;
    if IsFalse !in o.truths {
      FalseHasASource(g, m, c, predicates[1..], Join(seen, o));
    }
  }

  /** A REQUIRE_MATCH gate without a reason: in every component, every predicate field has exactly one value,
      backed by acceptable evidence, and it satisfies the predicate. */
  lemma RequireMatchIsSound(g: Gate, m: Material, c: Context, p: Predicate, k: nat)
    requires !IsSeller(g) && g.mode == RequireMatch && p in g.predicates && k < |m.components|
    requires Evaluated(g, m, c).Success? && Evaluated(g, m, c).value.reasons == {}
    ensures Satisfied(Visible(m, k), p, c)
  {
    hide ObserveAll, Observe, Satisfied, Refuted;
    TrueWithoutReason(g, m, c);
    LooksAreContained(g, m, c, g.predicates, SellerEvidence(g, c.index), p);
    DecidedMeansBacked(g, m, c, p, k);
  }

  /** A BLOCK_ON_MATCH gate without a reason: every predicate is decided by backed values in every component,
      and some predicate is refuted in some component. */
  lemma BlockOnMatchIsSound(g: Gate, m: Material, c: Context)
    requires !IsSeller(g) && g.mode == BlockOnMatch
    requires Evaluated(g, m, c).Success? && Evaluated(g, m, c).value.reasons == {}
    ensures forall p, k :: p in g.predicates && 0 <= k < |m.components| ==>
      Satisfied(Visible(m, k), p, c) || Refuted(Visible(m, k), p, c)
    ensures exists p, k :: p in g.predicates && 0 <= k < |m.components| && Refuted(Visible(m, k), p, c)
  {
    hide ObserveAll, Observe, Satisfied, Refuted;
    TrueWithoutReason(g, m, c);
    var seen := SellerEvidence(g, c.index);
    forall p, k | p in g.predicates && 0 <= k < |m.components|
      ensures Satisfied(Visible(m, k), p, c) || Refuted(Visible(m, k), p, c)
    {
      LooksAreContained(g, m, c, g.predicates, seen, p);
      DecidedMeansBacked(g, m, c, p, k);
    }
    FalseHasASource(g, m, c, g.predicates, seen);
    var p :| p in g.predicates && Observe(g, m, c, p).Success? && IsFalse in Observe(g, m, c, p).value.truths;
    FalseMeansRefuted(g, m, c, p);
  }

  // ---------- all gates ----------

  /** The results of a plan are its built-in gates and exactly its applicable gates. */
  lemma {:induction false} AppliedExactly(gates: seq<Gate>, m: Material, c: Context, done: seq<GateResult>)
    requires ApplyGates(gates, m, c, done).Success?
    ensures var all := ApplyGates(gates, m, c, done).value;
      && (forall g :: g in gates && Applies(g, m, c.activeFacts) ==>
            Evaluated(g, m, c).Success? && Evaluated(g, m, c).value in all)
      && (forall r :: r in done ==> r in all)
      && (forall r :: r in all ==> r in done || exists g :: g in gates && Applies(g, m, c.activeFacts) && Evaluated(g, m, c) == Success(r))
    decreases |gates|
  {
    hide Applies, Evaluated;
    if gates != [] {
      assert gates == [gates[0]] + gates[1..];
      AppliedExactly(gates[1..], m, c,
        if Applies(gates[0], m, c.activeFacts) then done + [Evaluated(gates[0], m, c).value] else done);
    }
  }

  lemma ResultsExactly(gates: seq<Gate>, m: Material, c: Context)
    requires ResultsOf(gates, m, c).Success?
    ensures var all := ResultsOf(gates, m, c).value;
      && (forall g :: g in gates && Applies(g, m, c.activeFacts) ==>
            Evaluated(g, m, c).Success? && Evaluated(g, m, c).value in all)
      && (forall r :: r in BuiltIn(m) ==> r in all)
      && (forall r :: r in all ==> r in BuiltIn(m) || exists g :: g in gates && Applies(g, m, c.activeFacts) && Evaluated(g, m, c) == Success(r))
  {
    hide Applies, Evaluated, BuiltIn;
    AppliedExactly(InOrder(gates), m, c, BuiltIn(m));
    assert forall g :: g in gates <==> g in multiset(gates);
    assert forall g :: g in InOrder(gates) <==> g in multiset(InOrder(gates));
  }

  lemma BuiltInNeverSaysEligible(m: Material)
    ensures forall r, x :: r in BuiltIn(m) && x in r.reasons ==> x.status != Eligible
    ensures forall r :: r in BuiltIn(m) && r.reasons == {} ==> r.truth == IsTrue
  {
    forall r | r in Dependencies(m) ensures r.reasons != {} && forall x :: x in r.reasons ==> x.status == SiraIneligible {
      var i :| 0 <= i < |Dependencies(m)| && Dependencies(m)[i] == r;
      assert Reason(m.dependencyIssues[i], SiraIneligible, "") in r.reasons;
    }
  }

  /** A plan is ELIGIBLE exactly when no gate has a reason, and then every gate is TRUE. */
  lemma EligibleExactly(gates: seq<Gate>, m: Material, c: Context)
    requires ResultsOf(gates, m, c).Success?
    ensures var all := ResultsOf(gates, m, c).value;
      && (PrimaryStatus(all) == Eligible <==> forall r :: r in all ==> r.reasons == {})
      && (PrimaryStatus(all) == Eligible ==> forall r :: r in all ==> r.truth == IsTrue)
  {
    hide Applies, Evaluated, BuiltIn, ResultsOf, PrimaryStatus;
    var all := ResultsOf(gates, m, c).value;
    ResultsExactly(gates, m, c);
    BuiltInNeverSaysEligible(m);
    PrimaryStatusIsWorst(all);
    forall r | r in all ensures (forall x :: x in r.reasons ==> x.status != Eligible) && (r.reasons == {} ==> r.truth == IsTrue) {
      if g: Gate :| g in gates && Applies(g, m, c.activeFacts) && Evaluated(g, m, c) == Success(r) {
        TrueWithoutReason(g, m, c);
      }
    }
    forall r, x | r in all && x in r.reasons ensures PrimaryStatus(all) != Eligible {
      assert x in AllReasons(all);
    }
  }

  /** Eligibility is sound: the plan is available and sealed by its seller or has no publisher, no dependency
      issue is open, and every applicable gate over the components holds on backed values. */
  lemma EligibleIsSound(gates: seq<Gate>, m: Material, c: Context, g: Gate)
    requires ResultsOf(gates, m, c).Success? && PrimaryStatus(ResultsOf(gates, m, c).value) == Eligible
    ensures m.available && m.dependencyIssues == [] && (m.authority == None || m.authority == Some(SellerSealed))
    ensures g in gates && Applies(g, m, c.activeFacts) && !IsSeller(g) && g.mode == RequireMatch ==>
      forall p, k :: p in g.predicates && 0 <= k < |m.components| ==> Satisfied(Visible(m, k), p, c)
    ensures g in gates && Applies(g, m, c.activeFacts) && !IsSeller(g) && g.mode == BlockOnMatch ==>
      exists p, k :: p in g.predicates && 0 <= k < |m.components| && Refuted(Visible(m, k), p, c)
  {
    hide Applies, Evaluated, ResultsOf, PrimaryStatus, Satisfied, Refuted;
    EligibleExactly(gates, m, c);
    ResultsExactly(gates, m, c);
    BuiltInIsQuiet(m, ResultsOf(gates, m, c).value);
    if g in gates && Applies(g, m, c.activeFacts) && !IsSeller(g) {
      if g.mode == RequireMatch {
        forall p, k | p in g.predicates && 0 <= k < |m.components| ensures Satisfied(Visible(m, k), p, c) {
          RequireMatchIsSound(g, m, c, p, k);
        }
      } else {
        BlockOnMatchIsSound(g, m, c);
      }
    }
  }

  lemma BuiltInIsQuiet(m: Material, all: seq<GateResult>)
    requires forall r :: r in BuiltIn(m) ==> r in all
    requires forall r :: r in all ==> r.reasons == {}
    ensures m.available && m.dependencyIssues == [] && (m.authority == None || m.authority == Some(SellerSealed))
  {
    if !(m.available && m.dependencyIssues == [] && (m.authority == None || m.authority == Some(SellerSealed))) {
      BuiltInSpeaks(m);
    }
  }

  lemma BuiltInSpeaks(m: Material)
    requires !(m.available && m.dependencyIssues == [] && (m.authority == None || m.authority == Some(SellerSealed)))
    ensures exists r :: r in BuiltIn(m) && r.reasons != {}
  {
    assert Availability(m) in BuiltIn(m);
    if m.dependencyIssues != [] {
      assert Dependencies(m)[0] in BuiltIn(m);
      assert Reason(m.dependencyIssues[0], SiraIneligible, "") in Dependencies(m)[0].reasons;
    } else if m.available {
      assert AuthorityGate(m)[0] in BuiltIn(m);
    }
  }

  /** More gates never improve the status of a plan. */
  lemma MoreGatesNeverImprove(fewer: seq<Gate>, more: seq<Gate>, m: Material, c: Context)
    requires forall g :: g in fewer ==> g in more
    requires ResultsOf(fewer, m, c).Success? && ResultsOf(more, m, c).Success?
    ensures Rank(PrimaryStatus(ResultsOf(more, m, c).value)) <= Rank(PrimaryStatus(ResultsOf(fewer, m, c).value))
  {
    hide Applies, Evaluated, BuiltIn, ResultsOf, PrimaryStatus;
    var a, b := ResultsOf(fewer, m, c).value, ResultsOf(more, m, c).value;
    ResultsExactly(fewer, m, c);
    ResultsExactly(more, m, c);
    PrimaryStatusIsWorst(a);
    PrimaryStatusIsWorst(b);
    forall x | x in AllReasons(a) ensures x in AllReasons(b) {
      var r :| r in a && x in r.reasons;
      assert r in b;
    }
  }

  // ---------- down to the evidence ----------

  /** An eligible plan rests on sound evidence: for every applicable gate over the components that requires a match,
      each field of each component is supported by a record that meets its policy and is fresh. */
  lemma EligibleRestsOnSoundEvidence(
    gates: seq<Gate>, m: Material, c: Context, s: Sources, g: Gate, p: Predicate, k: nat)
    requires ResultsOf(gates, m, c).Success? && PrimaryStatus(ResultsOf(gates, m, c).value) == Eligible
    requires forall x :: x in c.index ==> StateOfPair(s, x) == Success(c.index[x])
    requires g in gates && Applies(g, m, c.activeFacts) && !IsSeller(g) && g.mode == RequireMatch
    requires p in g.predicates && k < |m.components|
    ensures exists f, e ::
      && f in Visible(m, k) && f.field == p.field && e in f.evidence
      && e in s.evidence && p.field in s.policies && IsSound(s, s.evidence[e], s.policies[p.field])
  {
    hide Applies, ResultsOf, PrimaryStatus, IsSound;
    EligibleIsSound(gates, m, c, g);
    assert Satisfied(Visible(m, k), p, c);
    var v :| Backed(Visible(m, k), p.field, v, c.index) && Matches(c.read, v, p) == Success(true);
    var f, e :| f in Visible(m, k) && f.field == p.field && e in f.evidence
                && Pair(e, p.field) in c.index && c.index[Pair(e, p.field)] == Acceptable;
    AcceptableExactly(s, s.evidence[e], s.policies[p.field]);
  }
}
