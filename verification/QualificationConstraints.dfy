/** Uniqueness constraints of the tables that the steps do not check: no run ever meets them, so a call
    that commits here is not refused there. */
module QualificationConstraints {
  import opened Outcomes
  import opened QualificationTables
  import opened QualificationSteps
  import opened QualificationInvariants
  import opened QualificationRuns
  import opened QualificationTheorems
  import opened QualificationLimits
  import opened QualificationLeases
  import opened QualificationSweeps

  // ---------- one decision per mission and input ----------

  /** The pinned bundle was activated, under the organization, product and digest of the pin. */
  ghost predicate WasActive(bundles: map<Id, Bundle>, pin: Dependency) {
    && pin.version in bundles
    && var b := bundles[pin.version];
       b.state in {Active, Superseded} && b.org == pin.org && b.product == pin.id && b.digest == pin.digest
  }

  ghost predicate PinsWereActive(bundles: map<Id, Bundle>, dependencies: seq<Dependency>) {
    forall pin :: pin in dependencies && pin.kind == ProductBundle ==> WasActive(bundles, pin)
  }

  ghost predicate HoldsSuperseded(bundles: map<Id, Bundle>, dependencies: seq<Dependency>) {
    exists pin :: pin in dependencies && pin.kind == ProductBundle && IsSuperseded(bundles, pin.version)
  }

  ghost predicate PinOk(bundles: map<Id, Bundle>, d: Decision) {
    PinsWereActive(bundles, d.dependencies) && (!d.current ==> HoldsSuperseded(bundles, d.dependencies))
  }

  /** Decisions rest on bundles that were active, and on a superseded one once they are withdrawn. */
  ghost predicate PinsOk(bundles: map<Id, Bundle>, decisions: map<Id, Decision>) {
    forall d {:trigger PinOk(bundles, decisions[d])} :: d in decisions ==> PinOk(bundles, decisions[d])
  }

  ghost predicate InputsDiffer(decisions: map<Id, Decision>) {
    forall d, e :: d in decisions && e in decisions && d != e && decisions[d].mission == decisions[e].mission ==>
      decisions[d].inputDigest != decisions[e].inputDigest
  }

  lemma PinStays(a: map<Id, Bundle>, b: map<Id, Bundle>, d: Decision, e: Decision)
    requires BundlesExtend(a, b) && PinOk(a, d) && e.dependencies == d.dependencies && (d.current ==> e.current)
    ensures PinOk(b, e)
  {
    if !d.current {
      var pin :| pin in d.dependencies && pin.kind == ProductBundle && IsSuperseded(a, pin.version);
      assert IsSuperseded(b, pin.version);
    }
  }

  /** An active pin names a bundle that is active, and an active bundle that a pin names makes it active. */
  lemma PinAndBundle(t: Tables, pin: Dependency)
    requires PointersNameActive(t.bundles, t.pointers) && ActiveIsPointedTo(t.bundles, t.pointers)
    ensures PinIsActive(t.pointers, pin) ==> WasActive(t.bundles, pin) && t.bundles[pin.version].state == Active
    ensures WasActive(t.bundles, pin) && !PinIsActive(t.pointers, pin) ==> IsSuperseded(t.bundles, pin.version)
  {
  }

  lemma CatalogIsOk(t: Tables)
    requires Inv(t)
    ensures PointersNameActive(t.bundles, t.pointers) && ActiveIsPointedTo(t.bundles, t.pointers)
    ensures ChainsOk(t.attempts, t.decisions) && DecisionsBindSnapshots(t.decisions, t.snapshots)
  {
    hide EventsKnown, LeasesOk, SnapshotsOk, IntroductionsOk, EffectsOk, IntroductionEventsOk, NoRepeats, EngagementsOk, ChainsOk,
         DecisionsBindSnapshots, PointersNameActive, ActiveIsPointedTo, ActivationsRecorded, ActivationsKnown;
  }

  /** Decisions that stay apart from their approval, while bundles move on. */
  lemma SteadyDecisions(a: map<Id, Bundle>, b: map<Id, Bundle>, before: map<Id, Decision>, after: map<Id, Decision>)
    requires BundlesExtend(a, b) && PinsOk(a, before) && InputsDiffer(before)
    requires forall d :: d in after ==> d in before && after[d].(approval := before[d].approval) == before[d]
    ensures PinsOk(b, after) && InputsDiffer(after)
  {
    hide PinOk, BundlesExtend;
    forall d | d in after ensures PinOk(b, after[d]) {
      assert PinOk(a, before[d]);
      PinStays(a, b, before[d], after[d]);
    }
  }

  /** A new decision of an unfinished attempt, on active pins, has an input no other decision of its
      mission has: an earlier one with the same input was withdrawn, so one of its pins is superseded. */
  lemma NewInputDiffers(t: Tables, attempt: Id, d: Id)
    requires Inv(t) && PinsOk(t.bundles, t.decisions)
    requires attempt in t.attempts && t.attempts[attempt].state !in {Stale, Completed}
    requires attempt in t.snapshots && AllPinsActive(t.pointers, t.snapshots[attempt])
    requires d in t.decisions && t.decisions[d].mission == t.attempts[attempt].mission
    ensures t.decisions[d].inputDigest != OfSnapshot(t.snapshots[attempt])
  {
    CatalogIsOk(t);
    hide Inv, CatalogOk;
    NoCurrentWhileUnfinished(t, attempt, d);
    hide ChainsOk;
    assert PinOk(t.bundles, t.decisions[d]);
    var pin :| pin in t.decisions[d].dependencies && pin.kind == ProductBundle && IsSuperseded(t.bundles, pin.version);
    PinAndBundle(t, pin);
    hide PointersNameActive, ActiveIsPointedTo;
    assert !PinIsActive(t.pointers, pin);
  }

  lemma DecidingKeepsInputs(t: Tables, attempt: Id, id: Id, decision: Decision)
    requires Inv(t) && PinsOk(t.bundles, t.decisions) && InputsDiffer(t.decisions)
    requires attempt in t.attempts && t.attempts[attempt].state !in {Stale, Completed} && id !in t.decisions
    requires attempt in t.snapshots && AllPinsActive(t.pointers, t.snapshots[attempt])
    requires decision.mission == t.attempts[attempt].mission && decision.current
    requires decision.dependencies == t.snapshots[attempt] && decision.inputDigest == OfSnapshot(t.snapshots[attempt])
    ensures PinsOk(t.bundles, t.decisions[id := decision]) && InputsDiffer(t.decisions[id := decision])
  {
    CatalogIsOk(t);
    forall d | d in t.decisions && t.decisions[d].mission == decision.mission ensures t.decisions[d].inputDigest != decision.inputDigest {
      NewInputDiffers(t, attempt, d);
    }
    hide Inv, CatalogOk, ChainsOk, DecisionsBindSnapshots;
    forall pin | pin in decision.dependencies && pin.kind == ProductBundle ensures WasActive(t.bundles, pin) { PinAndBundle(t, pin); }
    hide PointersNameActive, ActiveIsPointedTo, AllPinsActive, WasActive;
    var after := t.decisions[id := decision];
    assert PinOk(t.bundles, decision);
    hide PinOk;
    forall d | d in after ensures PinOk(t.bundles, after[d]) { if d != id { assert PinOk(t.bundles, t.decisions[d]); } }
  }

  lemma FinalizeKeepsInputs(t: Tables, lease: Lease, recommended: Id, cited: set<Id>)
    requires Inv(t) && PinsOk(t.bundles, t.decisions) && InputsDiffer(t.decisions)
    requires FinalizeAttempt(t, lease, recommended, cited).Committed?
    ensures var t1 := FinalizeAttempt(t, lease, recommended, cited).tables; PinsOk(t1.bundles, t1.decisions) && InputsDiffer(t1.decisions)
  {
    FinalizeNeedsFence(t, lease, recommended, cited);
    FinalizationOutcome(t, lease, recommended, cited);
    FreshIds(t);
    hide Inv, FinalizeAttempt, AllPinsActive, Identifiers, Products, PinsOk, InputsDiffer;
    if AllPinsActive(t.pointers, t.snapshots[lease.attempt]) {
      DecidingKeepsInputs(t, lease.attempt, t.nextId, FinalizeAttempt(t, lease, recommended, cited).tables.decisions[t.nextId]);
    }
  }

  lemma WithdrawingKeepsInputs(bundles: map<Id, Bundle>, decisions: map<Id, Decision>, d: Id, to: Decision)
    requires PinsOk(bundles, decisions) && InputsDiffer(decisions) && d in decisions
    requires to == decisions[d].(current := false, approval := Invalid) && HoldsSuperseded(bundles, to.dependencies)
    ensures PinsOk(bundles, decisions[d := to]) && InputsDiffer(decisions[d := to])
  {
    assert PinOk(bundles, decisions[d]);
    assert PinOk(bundles, to);
    hide PinOk;
    var after := decisions[d := to];
    forall e | e in after ensures PinOk(bundles, after[e]) { if e != d { assert PinOk(bundles, decisions[e]); } }
  }

  /** A withdrawn decision holds a pin that was active and is not any more. */
  lemma StalePinIsSuperseded(t: Tables, d: Decision, product: Id)
    requires PointersNameActive(t.bundles, t.pointers) && ActiveIsPointedTo(t.bundles, t.pointers) && PinOk(t.bundles, d)
    requires ProductPin(d.dependencies, product).Some?
    requires !PinIsActive(t.pointers, ProductPin(d.dependencies, product).value)
    ensures HoldsSuperseded(t.bundles, d.dependencies)
  {
    var pin := ProductPin(d.dependencies, product).value;
    PinAndBundle(t, pin);
    hide PointersNameActive, ActiveIsPointedTo, ProductPin, PinIsActive;
    assert pin in d.dependencies && pin.kind == ProductBundle && IsSuperseded(t.bundles, pin.version);
  }

  lemma RowKeepsInputs(t: Tables, product: Id, d: Id, done: Invalidation)
    requires Inv(t) && PinsOk(t.bundles, t.decisions) && InputsDiffer(t.decisions)
    requires InvalidateRow.requires(t, product, d, done) && InvalidateRow(t, product, d, done).Committed?
    ensures var t1 := InvalidateRow(t, product, d, done).tables; PinsOk(t1.bundles, t1.decisions) && InputsDiffer(t1.decisions)
  {
    CatalogIsOk(t);
    assert PinOk(t.bundles, t.decisions[d]);
    hide Inv, InvalidateRow, ProductPin, PinIsActive, PointersNameActive, ActiveIsPointedTo, PinOk, HoldsSuperseded, InputsDiffer, PinsOk;
    RowDecisions(t, product, d, done);
    if !PinIsActive(t.pointers, ProductPin(t.decisions[d].dependencies, product).value) {
      StalePinIsSuperseded(t, t.decisions[d], product);
      WithdrawingKeepsInputs(t.bundles, t.decisions, d, t.decisions[d].(current := false, approval := Invalid));
    }
  }

  lemma RowDecisions(t: Tables, product: Id, d: Id, done: Invalidation)
    requires InvalidateRow.requires(t, product, d, done) && InvalidateRow(t, product, d, done).Committed?
    ensures var t1 := InvalidateRow(t, product, d, done).tables;
      && t1.bundles == t.bundles
      && t1.decisions == (if PinIsActive(t.pointers, ProductPin(t.decisions[d].dependencies, product).value) then t.decisions
                          else t.decisions[d := t.decisions[d].(current := false, approval := Invalid)])
  {
    hide ReplacementFor, ProductPin, PinIsActive, MissionIsLive, WithdrawEngagements;
  }

  lemma {:induction false} RowsKeepInputs(t: Tables, product: Id, rows: seq<Id>, done: Invalidation)
    requires Inv(t) && PinsOk(t.bundles, t.decisions) && InputsDiffer(t.decisions)
    requires InvalidateRows.requires(t, product, rows, done) && InvalidateRows(t, product, rows, done).Committed?
    ensures var t1 := InvalidateRows(t, product, rows, done).tables; PinsOk(t1.bundles, t1.decisions) && InputsDiffer(t1.decisions)
    decreases |rows|
  {
    hide Inv, InvalidateRow, ProductPin, PinsOk, InputsDiffer;
    if rows != [] {
      RowKeepsInputs(t, product, rows[0], done);
      InvalidateRowKeepsInv(t, product, rows[0], done);
      var next := InvalidateRow(t, product, rows[0], done);
      RowsKeepInputs(next.tables, product, rows[1..], next.result);
    }
  }

  // ---------- one engagement per decision ----------

  /** An engagement is opened by the approval of its decision, which happens once. */
  ghost predicate EngagedOnce(decisions: map<Id, Decision>, engagements: map<Id, Engagement>) {
    && (forall e :: e in engagements ==>
          engagements[e].decision in decisions && decisions[engagements[e].decision].approval != Pending)
    && (forall e, f :: e in engagements && f in engagements && engagements[e].decision == engagements[f].decision ==> e == f)
  }

  /** A decision changes in its judgement only, and not back to PENDING. */
  ghost predicate Judged(before: map<Id, Decision>, after: map<Id, Decision>) {
    && after.Keys == before.Keys
    && forall d :: d in after ==>
         && after[d].(approval := before[d].approval, current := before[d].current) == before[d]
         && (after[d].approval == Pending ==> before[d].approval == Pending)
  }

  ghost predicate SameDecisionOf(before: map<Id, Engagement>, after: map<Id, Engagement>) {
    after.Keys == before.Keys && forall e :: e in after ==> after[e].decision == before[e].decision
  }

  lemma SteadyEngagements(t: Tables, t1: Tables)
    requires EngagedOnce(t.decisions, t.engagements) && Judged(t.decisions, t1.decisions) && SameDecisionOf(t.engagements, t1.engagements)
    ensures EngagedOnce(t1.decisions, t1.engagements)
  {
  }

  lemma RowJudges(t: Tables, product: Id, d: Id, done: Invalidation)
    requires InvalidateRow.requires(t, product, d, done) && InvalidateRow(t, product, d, done).Committed?
    ensures var t1 := InvalidateRow(t, product, d, done).tables;
      Judged(t.decisions, t1.decisions) && SameDecisionOf(t.engagements, t1.engagements)
  {
    RowDecisions(t, product, d, done);
    RowEngagements(t, product, d, done);
    hide InvalidateRow, ProductPin, PinIsActive;
  }

  lemma RowEngagements(t: Tables, product: Id, d: Id, done: Invalidation)
    requires InvalidateRow.requires(t, product, d, done) && InvalidateRow(t, product, d, done).Committed?
    ensures var after := InvalidateRow(t, product, d, done).tables.engagements;
      after == t.engagements || after == WithdrawEngagements(t.engagements, d)
  {
    hide ReplacementFor, ProductPin, PinIsActive, MissionIsLive, WithdrawEngagements;
  }

  lemma {:induction false} RowsJudge(t: Tables, product: Id, rows: seq<Id>, done: Invalidation)
    requires InvalidateRows.requires(t, product, rows, done) && InvalidateRows(t, product, rows, done).Committed?
    ensures var t1 := InvalidateRows(t, product, rows, done).tables;
      Judged(t.decisions, t1.decisions) && SameDecisionOf(t.engagements, t1.engagements)
    decreases |rows|
  {
    hide InvalidateRow, ProductPin;
    if rows != [] {
      RowJudges(t, product, rows[0], done);
      var next := InvalidateRow(t, product, rows[0], done);
      RowsJudge(next.tables, product, rows[1..], next.result);
    }
  }

  lemma JudgementJudges(t: Tables, op: Operation)
    requires op.Activate? || op.Reject? || op.MakeIntroduction?
    ensures Judged(t.decisions, Apply(t, op).decisions) && SameDecisionOf(t.engagements, Apply(t, op).engagements)
  {
    hide PointTo, Retire, ConsentCounts;
  }

  lemma WorkerJudges(t: Tables, op: Operation)
    requires op.Claim? || op.Snapshot? || op.Checkpoint?
    ensures Judged(t.decisions, Apply(t, op).decisions) && SameDecisionOf(t.engagements, Apply(t, op).engagements)
  {
    NothingIsJudged(t, Apply(t, op));
    hide Judged, SameDecisionOf, ClaimAttempt, CheckpointAttempt, SnapshotAttempt;
    match op
    case Claim(a, owner, seconds) => ClaimKeepsParties(t, a, owner, seconds);
    case Checkpoint(lease, sequence) => CheckpointKeepsParties(t, lease, sequence);
    case Snapshot(buyer, lease) => SnapshotKeepsParties(t, buyer, lease);
  }

  lemma NothingIsJudged(t: Tables, t1: Tables)
    ensures t1.decisions == t.decisions ==> Judged(t.decisions, t1.decisions)
    ensures t1.engagements == t.engagements ==> SameDecisionOf(t.engagements, t1.engagements)
  {
  }

  lemma ClaimKeepsParties(t: Tables, a: Id, owner: Id, seconds: int)
    ensures var t1 := After(t, ClaimAttempt(t, a, owner, seconds)); t1.decisions == t.decisions && t1.engagements == t.engagements
  {
    hide HasCheckpoint;
  }

  lemma CheckpointKeepsParties(t: Tables, lease: Lease, sequence: nat)
    ensures var t1 := After(t, CheckpointAttempt(t, lease, sequence)); t1.decisions == t.decisions && t1.engagements == t.engagements
  {
    hide PassesFence;
  }

  lemma SnapshotKeepsParties(t: Tables, buyer: Id, lease: Lease)
    ensures var t1 := After(t, SnapshotAttempt(t, buyer, lease)); t1.decisions == t.decisions && t1.engagements == t.engagements
  {
    if SnapshotAttempt(t, buyer, lease).Committed? { SnapshotShape(t, buyer, lease); }
    hide SnapshotAttempt, SnapshotOf, PassesFence;
  }

  lemma CatalogChangeJudges(t: Tables, op: Operation)
    requires op.Tick? || op.Publish? || op.OpenFor? || op.Move? || op.Start? || op.PinTo?
    ensures Judged(t.decisions, Apply(t, op).decisions) && SameDecisionOf(t.engagements, Apply(t, op).engagements)
  {
    hide PinsOf;
    assert Apply(t, op).decisions == t.decisions && Apply(t, op).engagements == t.engagements;
  }

  lemma PartyJudges(t: Tables, op: Operation)
    requires op.Respond? || op.Grant? || op.Revoke?
    ensures Judged(t.decisions, Apply(t, op).decisions) && SameDecisionOf(t.engagements, Apply(t, op).engagements)
  {
    OtherChangeKeepsHistory(t, op);
    match op
    case Respond(e) => StateKeepsDecisionOf(t.engagements, e, Responded);
    case Grant(e, _, _, _) => hide GrantConsent; GrantMoves(t, e, op.party, op.actor, op.fieldsHash);
    case Revoke(_) =>
  }

  lemma StateKeepsDecisionOf(engagements: map<Id, Engagement>, e: Id, state: EngagementState)
    ensures e in engagements ==> SameDecisionOf(engagements, engagements[e := engagements[e].(state := state)])
  {
  }

  lemma GrantMoves(t: Tables, e: Id, party: Party, actor: Id, fieldsHash: Id)
    ensures SameDecisionOf(t.engagements, After(t, GrantConsent(t, e, party, actor, fieldsHash)).engagements)
  {
    StateKeepsDecisionOf(t.engagements, e, ConsentPending);
    hide SameDecisionOf;
    EngagementsStay(t.engagements);
  }

  lemma EngagementsStay(engagements: map<Id, Engagement>)
    ensures SameDecisionOf(engagements, engagements)
  {
  }

  /** Only finalization and approval make decisions and engagements. */
  lemma OthersJudge(t: Tables, op: Operation)
    requires !op.Finalize? && !op.Approve?
    ensures Judged(t.decisions, Apply(t, op).decisions) && SameDecisionOf(t.engagements, Apply(t, op).engagements)
  {
    hide Apply, Judged, SameDecisionOf;
    match op
    case Invalidate(product) => SweepJudges(t, product);
    case Activate(_, _, _) => JudgementJudges(t, op);
    case Reject(_) => JudgementJudges(t, op);
    case MakeIntroduction(_, _, _, _) => JudgementJudges(t, op);
    case Claim(_, _, _) => WorkerJudges(t, op);
    case Snapshot(_, _) => WorkerJudges(t, op);
    case Checkpoint(_, _) => WorkerJudges(t, op);
    case Respond(_) => PartyJudges(t, op);
    case Grant(_, _, _, _) => PartyJudges(t, op);
    case Revoke(_) => PartyJudges(t, op);
    case _ => CatalogChangeJudges(t, op);
  }

  lemma SweepJudges(t: Tables, product: Id)
    ensures var t1 := Apply(t, Invalidate(product)); Judged(t.decisions, t1.decisions) && SameDecisionOf(t.engagements, t1.engagements)
  {
    hide InvalidateRows, ProductPin;
    if InvalidateDecisions(t, product).Committed? {
      RowsJudge(t, product, RowsToInvalidate(t.decisions, product), Invalidation([], []));
    }
  }

  lemma ApproveEngagesOnce(t: Tables, d: Id)
    requires t.nextId !in t.engagements && EngagedOnce(t.decisions, t.engagements)
    ensures var t1 := Apply(t, Approve(d)); EngagedOnce(t1.decisions, t1.engagements)
  {
    hide AllPinsActive, Products, PinsOf;
  }

  lemma NewDecisionEngagesNone(decisions: map<Id, Decision>, engagements: map<Id, Engagement>, id: Id, decision: Decision)
    requires EngagedOnce(decisions, engagements) && id !in decisions
    ensures EngagedOnce(decisions[id := decision], engagements)
  {
  }

  lemma FinalizeEngagesNone(t: Tables, lease: Lease, recommended: Id, cited: set<Id>)
    requires Inv(t) && EngagedOnce(t.decisions, t.engagements) && FinalizeAttempt(t, lease, recommended, cited).Committed?
    ensures var t1 := FinalizeAttempt(t, lease, recommended, cited).tables; EngagedOnce(t1.decisions, t1.engagements)
  {
    FinalizeNeedsFence(t, lease, recommended, cited);
    FinalizationOutcome(t, lease, recommended, cited);
    NextDecisionIsNew(t);
    hide Inv, FinalizeAttempt, AllPinsActive, Identifiers, Products, EngagedOnce;
    if AllPinsActive(t.pointers, t.snapshots[lease.attempt]) {
      NewDecisionEngagesNone(
        t.decisions, t.engagements, t.nextId, FinalizeAttempt(t, lease, recommended, cited).tables.decisions[t.nextId]);
    }
  }

  lemma NextDecisionIsNew(t: Tables)
    requires Inv(t)
    ensures t.nextId !in t.decisions && t.nextId !in t.engagements
  {
    FreshIds(t);
  }

  // ---------- over every run ----------

  ghost predicate ConstraintsOk(t: Tables) {
    PinsOk(t.bundles, t.decisions) && InputsDiffer(t.decisions) && EngagedOnce(t.decisions, t.engagements)
  }

  /** Decisions change in their approval only. */
  ghost predicate ApprovalOnly(before: map<Id, Decision>, after: map<Id, Decision>) {
    forall d :: d in after ==> d in before && after[d].(approval := before[d].approval) == before[d]
  }

  lemma ActivateKeepsDecisions(t: Tables, org: Id, bundle: Id, expected: Digest)
    ensures After(t, ActivateBundle(t, org, bundle, expected)).decisions == t.decisions
  {
    hide PointTo, Retire;
  }

  lemma JudgingIsApprovalOnly(t: Tables, d: Id)
    ensures ApprovalOnly(t.decisions, After(t, RejectDecision(t, d)).decisions)
    ensures ApprovalOnly(t.decisions, After(t, ApproveDecision(t, d)).decisions)
  {
    hide AllPinsActive, Products, PinsOf;
  }

  /** Only finalization and invalidation change more of a decision. */
  lemma OthersKeepDecisions(t: Tables, op: Operation)
    requires !op.Finalize? && !op.Invalidate?
    ensures ApprovalOnly(t.decisions, Apply(t, op).decisions)
  {
    hide ClaimAttempt, SnapshotAttempt, ActivateBundle, RejectDecision, ApproveDecision, Introduce;
    match op
    case Claim(a, owner, seconds) => ClaimIsSteady(t, a, owner, seconds);
    case Snapshot(buyer, lease) => SnapshotIsSteady(t, buyer, lease);
    case Activate(org, bundle, expected) => ActivateKeepsDecisions(t, org, bundle, expected);
    case Reject(d) => JudgingIsApprovalOnly(t, d);
    case Approve(d) => JudgingIsApprovalOnly(t, d);
    case MakeIntroduction(e, d, digest, fields) => IntroduceIsSteady(t, e, d, digest, fields);
    case _ =>
      hide Apply;
      OtherChangeKeepsHistory(t, op);
  }

  lemma SweepKeepsInputs(t: Tables, product: Id)
    requires Inv(t) && PinsOk(t.bundles, t.decisions) && InputsDiffer(t.decisions)
    ensures var t1 := Apply(t, Invalidate(product)); PinsOk(t1.bundles, t1.decisions) && InputsDiffer(t1.decisions)
  {
    hide Inv, InvalidateRows, ProductPin, PinsOk, InputsDiffer;
    if InvalidateDecisions(t, product).Committed? {
      RowsKeepInputs(t, product, RowsToInvalidate(t.decisions, product), Invalidation([], []));
    }
  }

  lemma BundlesOfExtends(s: Tables, t: Tables)
    requires Extends(s, t)
    ensures BundlesExtend(s.bundles, t.bundles)
  {
    hide BundlesExtend, PointersExtend, AttemptsExtend, DecisionsExtend, EngagementsExtend, IntroductionsExtend, SnapshotsExtend;
  }

  lemma FinalizeStepKeepsInputs(t: Tables, lease: Lease, recommended: Id, cited: set<Id>)
    requires Inv(t) && PinsOk(t.bundles, t.decisions) && InputsDiffer(t.decisions)
    ensures var t1 := Apply(t, Finalize(lease, recommended, cited)); PinsOk(t1.bundles, t1.decisions) && InputsDiffer(t1.decisions)
  {
    hide Inv, PinsOk, InputsDiffer, FinalizeAttempt;
    if FinalizeAttempt(t, lease, recommended, cited).Committed? { FinalizeKeepsInputs(t, lease, recommended, cited); }
  }

  lemma ApplyKeepsInputs(t: Tables, op: Operation)
    requires Inv(t) && PinsOk(t.bundles, t.decisions) && InputsDiffer(t.decisions)
    ensures PinsOk(Apply(t, op).bundles, Apply(t, op).decisions) && InputsDiffer(Apply(t, op).decisions)
  {
    hide Inv, PinsOk, InputsDiffer, Apply, Extends, BundlesExtend;
    match op
    case Finalize(lease, recommended, cited) => FinalizeStepKeepsInputs(t, lease, recommended, cited);
    case Invalidate(product) => SweepKeepsInputs(t, product);
    case _ =>
      OthersKeepDecisions(t, op);
      ApplyExtends(t, op);
      BundlesOfExtends(t, Apply(t, op));
      SteadyDecisions(t.bundles, Apply(t, op).bundles, t.decisions, Apply(t, op).decisions);
  }

  lemma ApplyKeepsEngagements(t: Tables, op: Operation)
    requires Inv(t) && EngagedOnce(t.decisions, t.engagements)
    ensures EngagedOnce(Apply(t, op).decisions, Apply(t, op).engagements)
  {
    hide Inv, EngagedOnce, FinalizeAttempt;
    match op
    case Finalize(lease, recommended, cited) =>
      if FinalizeAttempt(t, lease, recommended, cited).Committed? { FinalizeEngagesNone(t, lease, recommended, cited); }
    case Approve(d) =>
      NextDecisionIsNew(t);
      hide Apply;
      ApproveEngagesOnce(t, d);
    case _ =>
      hide Apply;
      OthersJudge(t, op);
      SteadyEngagements(t, Apply(t, op));
  }

  lemma NoneAtStart()
    ensures ConstraintsOk(EMPTY)
  {
  }

  lemma {:induction false} ConstraintsOnEveryRun(ops: seq<Operation>, i: nat)
    requires i <= |ops|
    ensures ConstraintsOk(At(ops, i))
    decreases i
  {
    hide Inv, At, Apply, PinsOk, InputsDiffer, EngagedOnce;
    if i == 0 {
      NothingAtStart(ops);
      NoneAtStart();
    } else {
      ConstraintsOnEveryRun(ops, i - 1);
      StatesExtend(ops, i - 1, i - 1);
      NextState(ops, i - 1);
      ApplyKeepsInputs(At(ops, i - 1), ops[i - 1]);
      ApplyKeepsEngagements(At(ops, i - 1), ops[i - 1]);
    }
  }

  /** A mission never decides twice on the same input: a second attempt with the dependencies of a
      withdrawn decision would have to find a superseded bundle active again. */
  lemma InputsAreDecidedOnce(ops: seq<Operation>, i: nat, d: Id, e: Id)
    requires i <= |ops| && d in At(ops, i).decisions && e in At(ops, i).decisions
    requires At(ops, i).decisions[d].mission == At(ops, i).decisions[e].mission
    requires At(ops, i).decisions[d].inputDigest == At(ops, i).decisions[e].inputDigest
    ensures d == e
  {
    hide At, PinsOk, EngagedOnce;
    ConstraintsOnEveryRun(ops, i);
  }

  /** A decision that is not current holds a pin whose bundle is superseded; the bundles of all its pins
      were active. */
  lemma WithdrawnHoldsSuperseded(ops: seq<Operation>, i: nat, d: Id)
    requires i <= |ops| && d in At(ops, i).decisions
    ensures PinsWereActive(At(ops, i).bundles, At(ops, i).decisions[d].dependencies)
    ensures !At(ops, i).decisions[d].current ==> HoldsSuperseded(At(ops, i).bundles, At(ops, i).decisions[d].dependencies)
  {
    hide At, InputsDiffer, EngagedOnce, PinsWereActive, HoldsSuperseded;
    ConstraintsOnEveryRun(ops, i);
    assert PinOk(At(ops, i).bundles, At(ops, i).decisions[d]);
  }

  /** A decision has at most one engagement, and none while it is pending. */
  lemma OneEngagementPerDecision(ops: seq<Operation>, i: nat, e: Id, f: Id)
    requires i <= |ops| && e in At(ops, i).engagements && f in At(ops, i).engagements
    requires At(ops, i).engagements[e].decision == At(ops, i).engagements[f].decision
    ensures e == f
    ensures var d := At(ops, i).engagements[e].decision; d in At(ops, i).decisions && At(ops, i).decisions[d].approval != Pending
  {
    hide At, PinsOk, InputsDiffer;
    ConstraintsOnEveryRun(ops, i);
  }
}
