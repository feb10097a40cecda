/** Introductions happen exactly once, and never after their decision was withdrawn. */
module QualificationIntroductions {
  import opened Outcomes
  import opened QualificationTables
  import opened QualificationSteps
  import opened QualificationInvariants
  import opened QualificationRuns

  function EffectsOf(effects: seq<Effect>, engagement: Id): set<nat> {
    set k | 0 <= k < |effects| && effects[k].engagement == engagement
  }

  function EventsOf(outbox: seq<EventKey>, engagement: Id): set<nat> {
    set k | 0 <= k < |outbox| && outbox[k].IntroductionCreated? && outbox[k].engagement == engagement
  }

  lemma SingletonSize<T>(s: set<T>, x: T)
    requires x in s && forall y :: y in s ==> y == x
    ensures |s| == 1
  {
    assert s == {x};
  }

  lemma OneIntroduction(t: Tables, e: Id)
    requires IntroductionsOk(t.engagements, t.introductions) && EffectsOk(t.introductions, t.effects)
    requires IntroductionEventsOk(t.introductions, t.outbox) && NoRepeats(t.outbox)
    requires e in t.engagements && t.engagements[e].state == Introduced
    ensures |IntroductionsOf(t.introductions, e)| == 1
    ensures |EffectsOf(t.effects, e)| == 1
    ensures |EventsOf(t.outbox, e)| == 1
  {
    var i :| i in IntroductionsOf(t.introductions, e);
    SingletonSize(IntroductionsOf(t.introductions, e), i);
    var k :| 0 <= k < |t.effects| && t.effects[k].introduction == i;
    SingletonSize(EffectsOf(t.effects, e), k);
    var key := IntroductionCreated(e, t.introductions[i].inputDigest);
    var n :| 0 <= n < |t.outbox| && t.outbox[n] == key;
    forall m | m in EventsOf(t.outbox, e) ensures m == n {
      assert t.outbox[m] in t.outbox;
      assert t.outbox[m] == key;
    }
    SingletonSize(EventsOf(t.outbox, e), n);
  }

  lemma NoIntroduction(t: Tables, e: Id)
    requires IntroductionsOk(t.engagements, t.introductions) && EffectsOk(t.introductions, t.effects)
    requires IntroductionEventsOk(t.introductions, t.outbox)
    requires e in t.engagements && t.engagements[e].state != Introduced
    ensures IntroductionsOf(t.introductions, e) == {} && EffectsOf(t.effects, e) == {} && EventsOf(t.outbox, e) == {}
  {
    forall m | 0 <= m < |t.outbox| ensures m !in EventsOf(t.outbox, e) {
      assert t.outbox[m] in t.outbox;
    }
  }

  /** An engagement is introduced exactly when it has one introduction, one effect and one event;
      otherwise it has none of them. */
  lemma IntroducedExactlyOnce(ops: seq<Operation>, i: nat, e: Id)
    requires i <= |ops| && e in At(ops, i).engagements
    ensures var t := At(ops, i);
      var counts := (|IntroductionsOf(t.introductions, e)|, |EffectsOf(t.effects, e)|, |EventsOf(t.outbox, e)|);
      counts == if t.engagements[e].state == Introduced then (1, 1, 1) else (0, 0, 0)
  {
    hide At, ChainsOk, LeasesOk, SnapshotsOk, EventsKnown, EngagementsOk, DecisionsBindSnapshots, CatalogOk,
         IntroductionsOk, EffectsOk, IntroductionEventsOk, NoRepeats;
    StatesExtend(ops, i, i);
    if At(ops, i).engagements[e].state == Introduced { OneIntroduction(At(ops, i), e); } else { NoIntroduction(At(ops, i), e); }
  }

  /** Repeating a request that produced an introduction returns that introduction and changes nothing. */
  lemma IntroductionsReplay(ops: seq<Operation>, i: nat, j: nat, e: Id, d: Id, inputDigest: Digest, fieldsHash: Id)
    requires i < j <= |ops| && ops[i] == MakeIntroduction(e, d, inputDigest, fieldsHash)
    requires Introduce(At(ops, i), e, d, inputDigest, fieldsHash).Committed?
    ensures Introduce(At(ops, j), e, d, inputDigest, fieldsHash)
      == Committed(At(ops, j), Introduce(At(ops, i), e, d, inputDigest, fieldsHash).result)
  {
    hide At, Inv;
    NextState(ops, i);
    StatesExtend(ops, i + 1, j);
    StatesExtend(ops, i, i + 1);
    var x := Introduce(At(ops, i), e, d, inputDigest, fieldsHash).result;
    IntroduceStores(At(ops, i), e, d, inputDigest, fieldsHash);
    StoredIntroductionReplays(At(ops, i + 1), At(ops, j), e, d, inputDigest, fieldsHash, x);
  }

  lemma IntroduceStores(t: Tables, e: Id, d: Id, inputDigest: Digest, fieldsHash: Id)
    requires Introduce(t, e, d, inputDigest, fieldsHash).Committed?
    ensures var t1 := Introduce(t, e, d, inputDigest, fieldsHash).tables; var x := Introduce(t, e, d, inputDigest, fieldsHash).result;
      && x in t1.introductions && t1.introductions[x].engagement == e
      && t1.introductions[x].inputDigest == inputDigest && t1.introductions[x].fieldsHash == fieldsHash
      && e in t1.engagements && t1.engagements[e].decision == d && t1.engagements[e].inputDigest == inputDigest
  {
  }

  lemma StoredIntroductionReplays(s: Tables, t: Tables, e: Id, d: Id, inputDigest: Digest, fieldsHash: Id, x: Id)
    requires Extends(s, t) && Inv(t)
    requires x in s.introductions && s.introductions[x].engagement == e
    requires s.introductions[x].inputDigest == inputDigest && s.introductions[x].fieldsHash == fieldsHash
    requires e in s.engagements && s.engagements[e].decision == d && s.engagements[e].inputDigest == inputDigest
    ensures Introduce(t, e, d, inputDigest, fieldsHash) == Committed(t, x)
  {
    hide ChainsOk, LeasesOk, SnapshotsOk, EventsKnown, EngagementsOk, DecisionsBindSnapshots, CatalogOk, EffectsOk, IntroductionEventsOk, NoRepeats;
    hide BundlesExtend, PointersExtend, AttemptsExtend, SnapshotsExtend, DecisionsExtend;
    assert x in IntroductionsOf(t.introductions, e);
    forall y | y in IntroductionsOf(t.introductions, e) ensures y == x {}
    hide IntroductionsOk, EngagementsExtend, IntroductionsExtend;
    assert IsLeast(x, IntroductionsOf(t.introductions, e));
  }

  // ---------- withdrawn decisions ----------

  ghost predicate NotCurrent(t: Tables, e: Id) {
    e in t.engagements && t.engagements[e].decision in t.decisions && !t.decisions[t.engagements[e].decision].current
  }

  lemma ActivateKeepsIntroductions(t: Tables, org: Id, bundle: Id, expected: Digest)
    ensures After(t, ActivateBundle(t, org, bundle, expected)).introductions == t.introductions
  {
    hide PointTo, Retire;
  }

  lemma SnapshotKeepsIntroductions(t: Tables, org: Id, lease: Lease)
    ensures After(t, SnapshotAttempt(t, org, lease)).introductions == t.introductions
  {
    hide PassesFence, PinsOf, DependenciesOf, DistinctKeys, MembersOf, SnapshotOf;
  }

  lemma RetireKeepsIntroductions(t: Tables, attempt: Id)
    requires attempt in t.attempts
    ensures After(t, RetireStale(t, attempt)).introductions == t.introductions
  {
    hide ReplacementFor;
  }

  lemma FinalizeKeepsIntroductions(t: Tables, lease: Lease, recommended: Id, cited: set<Id>)
    ensures After(t, FinalizeAttempt(t, lease, recommended, cited)).introductions == t.introductions
  {
    hide AllPinsActive, Products, Identifiers, RetireStale, SnapshotOf;
    if lease.attempt in t.attempts { RetireKeepsIntroductions(t, lease.attempt); }
  }

  lemma WorkerWritesKeepIntroductions(t: Tables, op: Operation)
    requires op.Claim? || op.Checkpoint? || op.Invalidate?
    ensures Apply(t, op).introductions == t.introductions
  {
    hide PassesFence, RowsToInvalidate, InvalidateRows, Claimable;
  }

  lemma RepositoryCallsKeepIntroductions(t: Tables, op: Operation)
    requires op.Activate? || op.Claim? || op.Snapshot? || op.Checkpoint? || op.Finalize? || op.Invalidate?
    ensures Apply(t, op).introductions == t.introductions
  {
    hide ActivateBundle, SnapshotAttempt, FinalizeAttempt;
    match op
    case Activate(org, bundle, expected) => ActivateKeepsIntroductions(t, org, bundle, expected);
    case Snapshot(buyer, lease) => SnapshotKeepsIntroductions(t, buyer, lease);
    case Finalize(lease, recommended, cited) => FinalizeKeepsIntroductions(t, lease, recommended, cited);
    case _ => WorkerWritesKeepIntroductions(t, op);
  }

  lemma OtherChangesKeepIntroductions(t: Tables, op: Operation)
    requires !(op.Activate? || op.Claim? || op.Snapshot? || op.Checkpoint? || op.Finalize? || op.Invalidate? || op.MakeIntroduction?)
    ensures Apply(t, op).introductions == t.introductions
  {
    hide ApproveDecision;
    match op
    case Reject(decision) =>
    case Approve(decision) => ApproveKeepsIntroductions(t, decision);
    case _ =>
      hide Apply;
      OtherChangeKeepsHistory(t, op);
  }

  lemma ApproveKeepsIntroductions(t: Tables, d: Id)
    ensures After(t, ApproveDecision(t, d)).introductions == t.introductions
  {
    hide AllPinsActive, PinsOf, Products;
  }

  lemma IntroduceAddsOnlyCurrent(t: Tables, e: Id, f: Id, d: Id, inputDigest: Digest, fieldsHash: Id)
    requires t.nextId !in t.introductions && NotCurrent(t, e)
    ensures IntroductionsOf(After(t, Introduce(t, f, d, inputDigest, fieldsHash)).introductions, e) == IntroductionsOf(t.introductions, e)
  {
    hide ConsentCounts;
  }

  /** Only introducing adds introduction rows, and only for a current decision. */
  lemma IntroductionsUnchanged(t: Tables, op: Operation, e: Id)
    requires Inv(t) && NotCurrent(t, e)
    ensures IntroductionsOf(Apply(t, op).introductions, e) == IntroductionsOf(t.introductions, e)
  {
    hide Inv;
    FreshIds(t);
    match op
    case MakeIntroduction(f, d, inputDigest, fieldsHash) => IntroduceAddsOnlyCurrent(t, e, f, d, inputDigest, fieldsHash);
    case _ =>
      hide Apply;
      if op.Activate? || op.Claim? || op.Snapshot? || op.Checkpoint? || op.Finalize? || op.Invalidate? {
        RepositoryCallsKeepIntroductions(t, op);
      } else {
        OtherChangesKeepIntroductions(t, op);
      }
  }

  /** Once a decision is withdrawn, no engagement of it is ever introduced afterwards. */
  lemma {:induction false} WithdrawnIsNeverIntroduced(ops: seq<Operation>, i: nat, j: nat, e: Id)
    requires i <= j <= |ops| && NotCurrent(At(ops, i), e)
    ensures NotCurrent(At(ops, j), e)
    ensures IntroductionsOf(At(ops, j).introductions, e) == IntroductionsOf(At(ops, i).introductions, e)
    decreases j
  {
    hide Inv, Apply, At;
    if i < j {
      WithdrawnIsNeverIntroduced(ops, i, j - 1, e);
      StatesExtend(ops, j - 1, j);
      NextState(ops, j - 1);
      IntroductionsUnchanged(At(ops, j - 1), ops[j - 1], e);
      hide BundlesExtend, PointersExtend, AttemptsExtend, SnapshotsExtend, IntroductionsExtend;
    }
  }

  /** An engagement invalidated by a bundle change has no introduction, then or ever after. */
  lemma InvalidatedIsNeverIntroduced(ops: seq<Operation>, i: nat, j: nat, e: Id)
    requires i <= j <= |ops| && e in At(ops, i).engagements && At(ops, i).engagements[e].state == Invalidated
    ensures IntroductionsOf(At(ops, j).introductions, e) == {}
  {
    hide At, ChainsOk, LeasesOk, SnapshotsOk, EventsKnown, DecisionsBindSnapshots, CatalogOk, EffectsOk, IntroductionEventsOk, NoRepeats;
    StatesExtend(ops, i, i);
    NoIntroduction(At(ops, i), e);
    WithdrawnIsNeverIntroduced(ops, i, j, e);
  }
}
