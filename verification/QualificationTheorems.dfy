/** The guarantees of the qualification kernel, stated over every run of operations. */
module QualificationTheorems {
  import opened Outcomes
  import opened QualificationTables
  import opened QualificationSteps
  import opened QualificationInvariants
  import opened QualificationRuns

  // ---------- one chain of attempts, one current decision ----------

  lemma {:induction false} SameDepthSameAttempt(attempts: map<Id, Attempt>, a: Id, b: Id)
    requires Linked(attempts) && OneSuccessor(attempts) && OneRoot(attempts)
    requires a in attempts && b in attempts && attempts[a].mission == attempts[b].mission
    requires attempts[a].depth == attempts[b].depth
    ensures a == b
    decreases attempts[a].depth
  {
    assert LinkedAt(attempts, a) && LinkedAt(attempts, b);
    if attempts[a].predecessor == None {
      assert IsRoot(attempts, a) && IsRoot(attempts, b);
    } else {
      var p := attempts[a].predecessor.value;
      SameDepthSameAttempt(attempts, p, attempts[b].predecessor.value);
      assert Follows(attempts, a, p) && Follows(attempts, b, p);
    }
  }

  /** The attempts from the root down to `a`. */
  ghost function ChainTo(attempts: map<Id, Attempt>, a: Id): seq<Id>
    requires Linked(attempts) && a in attempts
    decreases attempts[a].depth
  {
    assert LinkedAt(attempts, a);
    if attempts[a].predecessor == None then [a] else ChainTo(attempts, attempts[a].predecessor.value) + [a]
  }

  lemma {:induction false} ChainToIsLinked(attempts: map<Id, Attempt>, a: Id)
    requires Linked(attempts) && a in attempts
    ensures var chain := ChainTo(attempts, a);
      && |chain| == attempts[a].depth + 1 <= LAST_DEPTH + 1
      && chain[|chain| - 1] == a
      && (forall i :: 0 <= i < |chain| ==>
            && chain[i] in attempts && attempts[chain[i]].depth == i
            && attempts[chain[i]].mission == attempts[a].mission && attempts[chain[i]].root == chain[0])
      && (forall i :: 0 < i < |chain| ==> Follows(attempts, chain[i], chain[i - 1]))
    decreases attempts[a].depth
  {
    assert LinkedAt(attempts, a);
    if attempts[a].predecessor != None {
      ChainToIsLinked(attempts, attempts[a].predecessor.value);
    }
  }

  ghost predicate IsDeepest(attempts: map<Id, Attempt>, last: Id) {
    last in attempts
    && forall a :: a in attempts && attempts[a].mission == attempts[last].mission ==> attempts[a].depth <= attempts[last].depth
  }

  lemma {:induction false} FindDeepest(attempts: map<Id, Attempt>, a: Id) returns (last: Id)
    requires Linked(attempts) && a in attempts
    ensures IsDeepest(attempts, last) && attempts[last].mission == attempts[a].mission
    decreases LAST_DEPTH - attempts[a].depth
  {
    if b :| b in attempts && attempts[b].mission == attempts[a].mission && attempts[b].depth > attempts[a].depth {
      assert LinkedAt(attempts, b);
      last := FindDeepest(attempts, b);
    } else {
      last := a;
    }
  }

  /** `chain` lists every attempt of the mission: the root first, each next one replacing the one
      before, and all but the last STALE or COMPLETED with no current decision. */
  ghost predicate IsChainOf(t: Tables, mission: Id, chain: seq<Id>) {
    && |chain| <= 4
    && (forall a :: a in t.attempts && t.attempts[a].mission == mission ==> a in chain)
    && (forall i :: 0 <= i < |chain| ==>
          && chain[i] in t.attempts && t.attempts[chain[i]].mission == mission
          && t.attempts[chain[i]].depth == i && t.attempts[chain[i]].root == chain[0])
    && (forall i :: 0 < i < |chain| ==> Follows(t.attempts, chain[i], chain[i - 1]))
    && (forall i :: 0 <= i < |chain| - 1 ==> Spent(t.attempts, t.decisions, chain[i]))
  }

  lemma MissionHasOneChain(t: Tables, mission: Id)
    requires ChainsOk(t.attempts, t.decisions)
    ensures exists chain :: IsChainOf(t, mission, chain)
  {
    if a :| a in t.attempts && t.attempts[a].mission == mission {
      var last := FindDeepest(t.attempts, a);
      var chain := ChainTo(t.attempts, last);
      ChainToIsLinked(t.attempts, last);
      forall b | b in t.attempts && t.attempts[b].mission == mission ensures b in chain {
        SameDepthSameAttempt(t.attempts, b, chain[t.attempts[b].depth]);
      }
      forall i | 0 <= i < |chain| - 1 ensures Spent(t.attempts, t.decisions, chain[i]) {
        assert Follows(t.attempts, chain[i + 1], chain[i]);
      }
      assert IsChainOf(t, mission, chain);
    } else {
      assert IsChainOf(t, mission, []);
    }
  }

  /** In every reachable state the attempts of a mission form one replacement chain of at most four. */
  lemma AttemptsFormOneChain(ops: seq<Operation>, i: nat, mission: Id)
    requires i <= |ops|
    ensures exists chain :: IsChainOf(At(ops, i), mission, chain)
  {
    hide At, CatalogOk, LeasesOk, SnapshotsOk, IntroductionsOk, EffectsOk, IntroductionEventsOk, EventsKnown, ChainsOk;
    StatesExtend(ops, i, i);
    MissionHasOneChain(At(ops, i), mission);
  }

  lemma CurrentIsNotSpent(attempts: map<Id, Attempt>, decisions: map<Id, Decision>, d: Id)
    requires d in decisions && decisions[d].current && DecidedBy(attempts, decisions[d])
    ensures !Spent(attempts, decisions, decisions[d].attempt)
  {
  }

  lemma CurrentIsUnique(t: Tables, d: Id, e: Id)
    requires ChainsOk(t.attempts, t.decisions)
    requires d in t.decisions && e in t.decisions && t.decisions[d].mission == t.decisions[e].mission
    requires t.decisions[d].current && t.decisions[e].current
    ensures d == e
  {
    var mission := t.decisions[d].mission;
    MissionHasOneChain(t, mission);
    var chain :| IsChainOf(t, mission, chain);
    assert DecidedBy(t.attempts, t.decisions[d]) && DecidedBy(t.attempts, t.decisions[e]);
    var i :| 0 <= i < |chain| && chain[i] == t.decisions[d].attempt;
    var j :| 0 <= j < |chain| && chain[j] == t.decisions[e].attempt;
    CurrentIsNotSpent(t.attempts, t.decisions, d);
    CurrentIsNotSpent(t.attempts, t.decisions, e);
    assert i == |chain| - 1 && j == |chain| - 1;
  }

  /** A mission never has two current decisions, whatever the database index would do. */
  lemma OneCurrentDecisionPerMission(ops: seq<Operation>, i: nat, d: Id, e: Id)
    requires i <= |ops|
    requires d in At(ops, i).decisions && At(ops, i).decisions[d].current
    requires e in At(ops, i).decisions && At(ops, i).decisions[e].current
    requires At(ops, i).decisions[d].mission == At(ops, i).decisions[e].mission
    ensures d == e
  {
    hide At, CatalogOk, LeasesOk, SnapshotsOk, IntroductionsOk, EffectsOk, IntroductionEventsOk, EventsKnown, ChainsOk;
    StatesExtend(ops, i, i);
    CurrentIsUnique(At(ops, i), d, e);
  }

  // ---------- bundles: no return of a superseded bundle ----------

  /** If a product points at the same bundle at two moments, the pointer row was that same row at
      every moment between them. */
  lemma NoBundleReturns(ops: seq<Operation>, i: nat, j: nat, k: nat, product: Id)
    requires i <= j <= k <= |ops|
    requires product in At(ops, i).pointers && product in At(ops, k).pointers
    requires At(ops, i).pointers[product].bundle == At(ops, k).pointers[product].bundle
    ensures product in At(ops, j).pointers && At(ops, j).pointers[product] == At(ops, i).pointers[product]
  {
    hide At, ChainsOk, LeasesOk, SnapshotsOk, IntroductionsOk, EffectsOk, IntroductionEventsOk, EventsKnown, EngagementsOk, DecisionsBindSnapshots;
    StatesExtend(ops, i, j);
    StatesExtend(ops, j, k);
  }

  /** A bundle that is or was active has its activation event, so its state decides. */
  lemma ActivationNeedsReady(t: Tables, org: Id, bundle: Id, expected: Digest)
    requires Inv(t)
    ensures ActivateBundle(t, org, bundle, expected).Committed? <==>
      && bundle in t.bundles && t.bundles[bundle].org == org && t.bundles[bundle].digest == expected
      && t.bundles[bundle].state == Ready
      && t.bundles[bundle].members != [] && OfMembers(t.bundles[bundle].members) == expected
      && (t.bundles[bundle].product in t.pointers ==> t.pointers[t.bundles[bundle].product].org == org)
  {
    hide ChainsOk, LeasesOk, SnapshotsOk, IntroductionsOk, EffectsOk, IntroductionEventsOk, EventsKnown, EngagementsOk, DecisionsBindSnapshots;
    hide Retire, PointTo;
    if bundle in t.bundles {
      assert BundleActivated(bundle, t.bundles[bundle].digest) in t.outbox <==> t.bundles[bundle].state in {Active, Superseded};
    }
  }

  /** Activation is not idempotent, although the code accepts a bundle that is already active: at
      every moment of every run it commits exactly for a bundle that is still READY, is known to the
      organization under the expected digest, has members that hash to it, and whose product has no
      active bundle of another organization. */
  lemma ActivationHappensOnce(ops: seq<Operation>, i: nat, org: Id, bundle: Id, expected: Digest)
    requires i <= |ops|
    ensures var t := At(ops, i);
      ActivateBundle(t, org, bundle, expected).Committed? <==>
        && bundle in t.bundles && t.bundles[bundle].org == org && t.bundles[bundle].digest == expected
        && t.bundles[bundle].state == Ready
        && t.bundles[bundle].members != [] && OfMembers(t.bundles[bundle].members) == expected
        && (t.bundles[bundle].product in t.pointers ==> t.pointers[t.bundles[bundle].product].org == org)
  {
    hide At, Inv, ActivateBundle;
    StatesExtend(ops, i, i);
    ActivationNeedsReady(At(ops, i), org, bundle, expected);
  }

  /** A bundle is active exactly when its product's pointer names it. */
  lemma ActiveIffPointedTo(ops: seq<Operation>, i: nat, bundle: Id)
    requires i <= |ops| && bundle in At(ops, i).bundles
    ensures var t := At(ops, i); var product := t.bundles[bundle].product;
      t.bundles[bundle].state == Active <==> product in t.pointers && t.pointers[product].bundle == bundle
  {
    hide At, ChainsOk, LeasesOk, SnapshotsOk, IntroductionsOk, EffectsOk, IntroductionEventsOk, EventsKnown, EngagementsOk, DecisionsBindSnapshots;
    StatesExtend(ops, i, i);
  }

  // ---------- decisions commit on current pins only ----------

  ghost predicate Decides(t: Tables, op: Operation, attempt: Id, decision: Id) {
    op.Finalize? && op.lease.attempt == attempt
    && var outcome := FinalizeAttempt(t, op.lease, op.recommended, op.cited);
       outcome.Committed? && outcome.result == Decided(decision)
  }

  lemma DecidesOnSnapshot(t: Tables, op: Operation, attempt: Id, decision: Id)
    requires Inv(t) && Decides(t, op, attempt, decision)
    ensures attempt in t.snapshots && AllPinsActive(t.pointers, t.snapshots[attempt])
    ensures decision !in t.decisions && decision in Apply(t, op).decisions
    ensures Apply(t, op).decisions[decision].dependencies == t.snapshots[attempt]
  {
    FreshIds(t);
    hide ChainsOk, LeasesOk, IntroductionsOk, EffectsOk, IntroductionEventsOk, EventsKnown, EngagementsOk, DecisionsBindSnapshots, CatalogOk;
    hide AllPinsActive, Identifiers, Products, ReplacementFor;
  }

  /** A decision binds the snapshot its attempt wrote first, and at the moment it commits every bundle
      that snapshot pins is the active one; a pin that was active when the attempt already had its
      snapshot was active at every moment since. */
  lemma DecisionsCommitOnActivePins(ops: seq<Operation>, i: nat, j: nat, k: nat, attempt: Id, decision: Id)
    requires i <= j <= k < |ops|
    requires attempt in At(ops, i).snapshots && Decides(At(ops, k), ops[k], attempt, decision)
    ensures decision !in At(ops, k).decisions && decision in At(ops, k + 1).decisions
    ensures At(ops, k + 1).decisions[decision].dependencies == At(ops, i).snapshots[attempt]
    ensures AllPinsActive(At(ops, k).pointers, At(ops, i).snapshots[attempt])
    ensures forall pin :: pin in At(ops, i).snapshots[attempt] && pin.kind == ProductBundle ==>
      PinIsActive(At(ops, i).pointers, pin) ==> PinIsActive(At(ops, j).pointers, pin)
  {
    hide At, Inv, Apply;
    StatesExtend(ops, i, k);
    StatesExtend(ops, i, j);
    DecidesOnSnapshot(At(ops, k), ops[k], attempt, decision);
    NextState(ops, k);
    forall pin | pin in At(ops, i).snapshots[attempt] && pin.kind == ProductBundle && PinIsActive(At(ops, i).pointers, pin)
      ensures PinIsActive(At(ops, j).pointers, pin)
    {
      NoBundleReturns(ops, i, j, k, pin.id);
    }
  }

  // ---------- leases ----------

  /** Of all leases ever issued for an attempt, at most one passes the fence. */
  lemma OneLeasePassesTheFence(ops: seq<Operation>, i: nat, l: Lease, m: Lease, allowed: set<AttemptState>)
    requires i <= |ops|
    requires l in At(ops, i).issued && m in At(ops, i).issued && l.attempt == m.attempt
    requires PassesFence(At(ops, i), l, allowed) && PassesFence(At(ops, i), m, allowed)
    ensures l == m
  {
    hide At, ChainsOk, SnapshotsOk, IntroductionsOk, EffectsOk, IntroductionEventsOk, EventsKnown, EngagementsOk, DecisionsBindSnapshots, CatalogOk;
    StatesExtend(ops, i, i);
  }

  /** A claim hands out a generation above every generation handed out before it. */
  lemma ClaimsIncreaseGenerations(ops: seq<Operation>, i: nat, attempt: Id, owner: Id, seconds: int)
    requires i <= |ops| && ClaimAttempt(At(ops, i), attempt, owner, seconds).Committed?
    ensures forall l :: l in At(ops, i).issued && l.attempt == attempt ==>
      l.generation < ClaimAttempt(At(ops, i), attempt, owner, seconds).result.generation
  {
    hide At, ChainsOk, SnapshotsOk, IntroductionsOk, EffectsOk, IntroductionEventsOk, EventsKnown, EngagementsOk, DecisionsBindSnapshots, CatalogOk;
    StatesExtend(ops, i, i);
  }

  /** Once an attempt has been claimed again, every worker write under an older lease aborts for ever. */
  lemma OlderLeasesAreFencedOff(
      ops: seq<Operation>, i: nat, j: nat, lease: Lease, owner: Id, seconds: int,
      org: Id, sequence: nat, recommended: Id, cited: set<Id>)
    requires i < j <= |ops| && lease in At(ops, i).issued
    requires ops[i] == Claim(lease.attempt, owner, seconds) && ClaimAttempt(At(ops, i), lease.attempt, owner, seconds).Committed?
    ensures SnapshotAttempt(At(ops, j), org, lease).Aborted?
    ensures CheckpointAttempt(At(ops, j), lease, sequence).Aborted?
    ensures FinalizeAttempt(At(ops, j), lease, recommended, cited).Aborted?
  {
    hide At, Inv, SnapshotsExtend, DecisionsExtend, EngagementsExtend, IntroductionsExtend, BundlesExtend, PointersExtend;
    ClaimsIncreaseGenerations(ops, i, lease.attempt, owner, seconds);
    NextState(ops, i);
    StatesExtend(ops, i + 1, j);
    assert !PassesFence(At(ops, j), lease, {Running, SnapshotComplete});
    assert !PassesFence(At(ops, j), lease, {SnapshotComplete});
  }

  ghost predicate Finalizes(t: Tables, op: Operation, attempt: Id) {
    op.Finalize? && op.lease.attempt == attempt && FinalizeAttempt(t, op.lease, op.recommended, op.cited).Committed?
  }

  lemma RetireStaleMarks(t: Tables, attempt: Id)
    requires t.nextId !in t.attempts && attempt in t.attempts && RetireStale(t, attempt).Committed?
    ensures var after := RetireStale(t, attempt).tables.attempts; attempt in after && after[attempt].state == Stale
  {
  }

  lemma FinalizeEnds(t: Tables, op: Operation, attempt: Id)
    requires Inv(t) && Finalizes(t, op, attempt)
    ensures attempt in t.attempts && t.attempts[attempt].state == SnapshotComplete
    ensures attempt in Apply(t, op).attempts && Apply(t, op).attempts[attempt].state in {Stale, Completed}
  {
    FreshIds(t);
    hide Inv, AllPinsActive, Identifiers, Products, RetireStale;
    if !AllPinsActive(t.pointers, SnapshotOf(t, attempt)) { RetireStaleMarks(t, attempt); }
  }

  /** STALE and COMPLETED rows never change again. */
  lemma FinishedAttemptsAreFrozen(ops: seq<Operation>, i: nat, j: nat, attempt: Id)
    requires i <= j <= |ops| && attempt in At(ops, i).attempts && At(ops, i).attempts[attempt].state in {Stale, Completed}
    ensures attempt in At(ops, j).attempts && At(ops, j).attempts[attempt] == At(ops, i).attempts[attempt]
  {
    hide At, Inv, SnapshotsExtend, DecisionsExtend, EngagementsExtend, IntroductionsExtend, BundlesExtend, PointersExtend;
    StatesExtend(ops, i, j);
  }

  /** Over any run, at most one finalization of an attempt commits. */
  lemma OneFinalizationPerAttempt(ops: seq<Operation>, i: nat, j: nat, attempt: Id)
    requires i < |ops| && j < |ops| && Finalizes(At(ops, i), ops[i], attempt) && Finalizes(At(ops, j), ops[j], attempt)
    ensures i == j
  {
    if i > j {
      OneFinalizationPerAttempt(ops, j, i, attempt);
    } else if i < j {
      hide At, Inv, Extends, Apply, FinalizeAttempt;
      StatesExtend(ops, i, j);
      FinalizeEnds(At(ops, i), ops[i], attempt);
      FinalizeEnds(At(ops, j), ops[j], attempt);
      NextState(ops, i);
      FinishedAttemptsAreFrozen(ops, i + 1, j, attempt);
    }
  }
}
