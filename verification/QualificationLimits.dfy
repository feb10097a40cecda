/** Exactly when a finalization goes through and what it leaves. */
module QualificationLimits {
  import opened Outcomes
  import opened QualificationTables
  import opened QualificationSteps
  import opened QualificationInvariants
  import opened QualificationRuns
  import opened QualificationTheorems

  // ---------- when a finalization commits ----------

  /** What the fence and the invariant say about an attempt that may be finalized. */
  lemma FencedAttempt(t: Tables, lease: Lease)
    requires Inv(t) && PassesFence(t, lease, {SnapshotComplete})
    ensures lease.attempt in t.snapshots && t.attempts[lease.attempt].inputDigest.Some?
    ensures Successors(t.attempts, lease.attempt) == {}
    ensures AttemptStale(lease.attempt, t.attempts[lease.attempt].generation) !in t.outbox
    ensures DecisionCreated(t.nextId) !in t.outbox
    ensures t.nextId !in t.attempts
    ensures t.attempts[lease.attempt].inputDigest == Some(OfSnapshot(t.snapshots[lease.attempt]))
  {
    FreshIds(t);
    hide LeasesOk, IntroductionsOk, EffectsOk, IntroductionEventsOk, NoRepeats, DecisionsBindSnapshots, EngagementsOk, CatalogOk;
    UnfinishedIsLast(t.attempts, t.decisions, lease.attempt);
    hide ChainsOk;
  }

  /** The one new decision binds the snapshot of the attempt, which is now COMPLETED. */
  ghost predicate DecidesWith(t: Tables, outcome: Outcome<Finalization>, attempt: Id, recommended: Id, cited: set<Id>)
    requires outcome.Committed? && attempt in t.snapshots && attempt in t.attempts
  {
    && outcome.result == Decided(t.nextId)
    && outcome.tables == t.(
         nextId := t.nextId + 1,
         decisions := t.decisions[t.nextId := Decision(
           t.attempts[attempt].mission, attempt, OfSnapshot(t.snapshots[attempt]), recommended, t.snapshots[attempt], cited, Pending, true)],
         attempts := t.attempts[attempt := t.attempts[attempt].(state := Completed)],
         outbox := t.outbox + [DecisionCreated(t.nextId)])
  }

  /** No decision is made; the attempt is STALE and the one new attempt, next in its chain, is queued. */
  ghost predicate RetiresWith(t: Tables, outcome: Outcome<Finalization>, attempt: Id)
    requires outcome.Committed? && attempt in t.attempts
  {
    && outcome.result == BecameStale(t.nextId)
    && outcome.tables == t.(
         nextId := t.nextId + 1,
         attempts := t.attempts[attempt := t.attempts[attempt].(state := Stale)][t.nextId := Replacement(t.attempts, attempt)],
         outbox := t.outbox + [AttemptStale(attempt, t.attempts[attempt].generation)])
  }

  lemma RetirementCommitsExactly(t: Tables, attempt: Id)
    requires attempt in t.attempts && t.nextId !in t.attempts && Successors(t.attempts, attempt) == {}
    requires AttemptStale(attempt, t.attempts[attempt].generation) !in t.outbox
    ensures RetireStale(t, attempt).Committed? <==> t.attempts[attempt].depth < LAST_DEPTH
    ensures RetireStale(t, attempt).Committed? ==> RetiresWith(t, RetireStale(t, attempt), attempt)
  {
    var staled := t.(attempts := t.attempts[attempt := t.attempts[attempt].(state := Stale)]);
    assert Successors(staled.attempts, attempt) == {} by {
      forall b ensures b in Successors(staled.attempts, attempt) <==> b in Successors(t.attempts, attempt) {}
    }
  }

  lemma FinalizationOutcome(t: Tables, lease: Lease, recommended: Id, cited: set<Id>)
    requires Inv(t) && PassesFence(t, lease, {SnapshotComplete})
    ensures lease.attempt in t.snapshots
    ensures var dependencies := t.snapshots[lease.attempt]; var outcome := FinalizeAttempt(t, lease, recommended, cited);
      if AllPinsActive(t.pointers, dependencies)
      then
        && (outcome.Committed? <==> cited <= Identifiers(dependencies) && recommended in Products(dependencies))
        && (outcome.Committed? ==> DecidesWith(t, outcome, lease.attempt, recommended, cited))
      else
        && (outcome.Committed? <==> t.attempts[lease.attempt].depth < LAST_DEPTH)
        && (outcome.Committed? ==> RetiresWith(t, outcome, lease.attempt))
  {
    FencedAttempt(t, lease);
    hide Inv, AllPinsActive, Identifiers, Products;
    if AllPinsActive(t.pointers, t.snapshots[lease.attempt]) {
      hide RetireStale;
    } else {
      RetirementCommitsExactly(t, lease.attempt);
      hide RetireStale, RetiresWith;
    }
  }

  /** At every moment of every run, a fenced finalization whose pins are all active commits a
      decision exactly when it cites and recommends only what was snapshotted; with a changed pin it
      marks the attempt stale and names its replacement, exactly when the chain may still grow. At the
      last depth it aborts and the attempt stays open. */
  lemma FinalizeCommitsExactly(ops: seq<Operation>, i: nat, lease: Lease, recommended: Id, cited: set<Id>)
    requires i <= |ops| && PassesFence(At(ops, i), lease, {SnapshotComplete})
    ensures lease.attempt in At(ops, i).snapshots
    ensures var t := At(ops, i); var dependencies := t.snapshots[lease.attempt];
      var outcome := FinalizeAttempt(t, lease, recommended, cited);
      if AllPinsActive(t.pointers, dependencies)
      then
        && (outcome.Committed? <==> cited <= Identifiers(dependencies) && recommended in Products(dependencies))
        && (outcome.Committed? ==> DecidesWith(t, outcome, lease.attempt, recommended, cited))
      else
        && (outcome.Committed? <==> t.attempts[lease.attempt].depth < LAST_DEPTH)
        && (outcome.Committed? ==> RetiresWith(t, outcome, lease.attempt))
  {
    StatesExtend(ops, i, i);
    hide Inv, Extends, At, FinalizeAttempt, AllPinsActive, Identifiers, Products, DecidesWith, RetiresWith;
    FinalizationOutcome(At(ops, i), lease, recommended, cited);
  }
}
