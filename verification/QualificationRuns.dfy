/** What holds over whole runs: any interleaving of repository calls and of the changes made
    beside them, from empty tables. */
module QualificationRuns {
  import opened Outcomes
  import opened QualificationTables
  import opened QualificationSteps
  import opened QualificationInvariants

  // ---------- what no step undoes ----------

  ghost predicate BundleMoves(a: Bundle, b: Bundle) {
    && a.(state := b.state) == b
    && (a.state == Superseded ==> b.state == Superseded)
    && (a.state == Active ==> b.state == Active || b.state == Superseded)
  }

  ghost predicate BundlesExtend(a: map<Id, Bundle>, b: map<Id, Bundle>) {
    forall k :: k in a ==> k in b && BundleMoves(a[k], b[k])
  }

  ghost predicate IsSuperseded(bundles: map<Id, Bundle>, b: Id) {
    b in bundles && bundles[b].state == Superseded
  }

  /** A pointer that moved has a higher generation, and the bundle it left is superseded. */
  ghost predicate PointersExtend(a: map<Id, Pointer>, b: map<Id, Pointer>, bundles: map<Id, Bundle>) {
    forall p :: p in a ==>
      p in b && (a[p] == b[p] || (a[p].generation < b[p].generation && IsSuperseded(bundles, a[p].bundle)))
  }

  /** STALE and COMPLETED are absorbing: the whole row is frozen. */
  ghost predicate AttemptMoves(a: Attempt, b: Attempt) {
    && SamePlace(a, b)
    && a.generation <= b.generation
    && (a.state == Stale || a.state == Completed ==> a == b)
    && (a.inputDigest.Some? ==> a.inputDigest == b.inputDigest)
  }

  ghost predicate AttemptsExtend(a: map<Id, Attempt>, b: map<Id, Attempt>) {
    forall k :: k in a ==> k in b && AttemptMoves(a[k], b[k])
  }

  ghost predicate SnapshotsExtend(a: map<Id, seq<Dependency>>, b: map<Id, seq<Dependency>>) {
    forall k :: k in a ==> k in b && a[k] == b[k]
  }

  ghost predicate DecisionMoves(a: Decision, b: Decision) {
    a.(current := b.current, approval := b.approval) == b && (b.current ==> a.current)
  }

  ghost predicate DecisionsExtend(a: map<Id, Decision>, b: map<Id, Decision>) {
    forall k :: k in a ==> k in b && DecisionMoves(a[k], b[k])
  }

  ghost predicate EngagementsExtend(a: map<Id, Engagement>, b: map<Id, Engagement>) {
    forall k :: k in a ==> k in b && a[k].(state := b[k].state) == b[k] && (a[k].state == Introduced ==> b[k].state == Introduced)
  }

  ghost predicate IntroductionsExtend(a: map<Id, Introduction>, b: map<Id, Introduction>) {
    forall k :: k in a ==> k in b && a[k] == b[k]
  }

  ghost predicate Extends(s: Tables, t: Tables) {
    && s.now <= t.now
    && BundlesExtend(s.bundles, t.bundles)
    && PointersExtend(s.pointers, t.pointers, t.bundles)
    && AttemptsExtend(s.attempts, t.attempts)
    && SnapshotsExtend(s.snapshots, t.snapshots)
    && s.issued <= t.issued
    && DecisionsExtend(s.decisions, t.decisions)
    && EngagementsExtend(s.engagements, t.engagements)
    && IntroductionsExtend(s.introductions, t.introductions)
    && (forall k :: k in s.outbox ==> k in t.outbox)
  }

  lemma ExtendsItself(t: Tables)
    ensures Extends(t, t)
  {
  }

  lemma ExtendsChains(r: Tables, s: Tables, t: Tables)
    requires Extends(r, s) && Extends(s, t)
    ensures Extends(r, t)
  {
    assert AttemptsExtend(r.attempts, t.attempts);
    assert BundlesExtend(r.bundles, t.bundles);
    assert PointersExtend(r.pointers, t.pointers, t.bundles);
  }

  lemma ActivateExtends(t: Tables, org: Id, id: Id, expected: Digest)
    requires Inv(t) && ActivateBundle(t, org, id, expected).Committed?
    ensures Extends(t, ActivateBundle(t, org, id, expected).tables)
  {
    ExtendsItself(t);
    var t1 := ActivateBundle(t, org, id, expected).tables;
    ActivateBundlesExtend(t, org, id, expected);
    ActivatePointersExtend(t, org, id, expected);
    hide Inv, BundlesExtend, PointersExtend, AttemptsExtend, SnapshotsExtend, DecisionsExtend, EngagementsExtend, IntroductionsExtend;
  }

  lemma ActivateBundlesExtend(t: Tables, org: Id, id: Id, expected: Digest)
    requires Inv(t) && ActivateBundle(t, org, id, expected).Committed?
    ensures BundlesExtend(t.bundles, ActivateBundle(t, org, id, expected).tables.bundles)
  {
    hide EventsKnown, ChainsOk, LeasesOk, SnapshotsOk, IntroductionsOk, EffectsOk, IntroductionEventsOk, NoRepeats, DecisionsBindSnapshots, EngagementsOk;
    assert BundleActivated(id, t.bundles[id].digest) !in t.outbox;
  }

  lemma ActivatePointersExtend(t: Tables, org: Id, id: Id, expected: Digest)
    requires Inv(t) && ActivateBundle(t, org, id, expected).Committed?
    ensures var t1 := ActivateBundle(t, org, id, expected).tables; PointersExtend(t.pointers, t1.pointers, t1.bundles)
  {
    hide EventsKnown, ChainsOk, LeasesOk, SnapshotsOk, IntroductionsOk, EffectsOk, IntroductionEventsOk, NoRepeats, DecisionsBindSnapshots, EngagementsOk;
  }

  lemma AttemptStepExtends(t: Tables, a: Id, to: Attempt)
    requires a in t.attempts && AttemptMoves(t.attempts[a], to)
    ensures Extends(t, t.(attempts := t.attempts[a := to]))
  {
    ExtendsItself(t);
    hide BundlesExtend, PointersExtend, SnapshotsExtend, DecisionsExtend, EngagementsExtend, IntroductionsExtend;
  }

  lemma ReplacementExtends(t: Tables, attempt: Id)
    requires Inv(t) && attempt in t.attempts && ReplacementFor(t, attempt).Committed?
    ensures Extends(t, ReplacementFor(t, attempt).tables)
  {
    ExtendsItself(t);
    hide EventsKnown, ChainsOk, LeasesOk, SnapshotsOk, IntroductionsOk, EffectsOk, IntroductionEventsOk, NoRepeats, DecisionsBindSnapshots, EngagementsOk, CatalogOk;
    hide BundlesExtend, PointersExtend, SnapshotsExtend, DecisionsExtend, EngagementsExtend, IntroductionsExtend;
    NextIdIsFresh(t);
  }

  lemma RecordExtends(s: Tables, t: Tables, key: EventKey)
    requires Extends(s, t)
    ensures Extends(s, t.(outbox := t.outbox + [key]))
  {
    hide BundlesExtend, PointersExtend, AttemptsExtend, SnapshotsExtend, DecisionsExtend, EngagementsExtend, IntroductionsExtend;
  }

  lemma SnapshotExtends(t: Tables, org: Id, lease: Lease)
    requires Inv(t) && SnapshotAttempt(t, org, lease).Committed?
    ensures Extends(t, SnapshotAttempt(t, org, lease).tables)
  {
    ExtendsItself(t);
    hide Inv, DependenciesOf, DistinctKeys, MembersOf, PinsOf, BundlesExtend, PointersExtend, DecisionsExtend, EngagementsExtend, IntroductionsExtend;
    var t1 := SnapshotAttempt(t, org, lease).tables;
    if SnapshotOf(t, lease.attempt) == [] {
      SnapshotsAreBound(t);
      assert lease.attempt !in t.snapshots;
      assert SnapshotsExtend(t.snapshots, t1.snapshots);
      assert AttemptsExtend(t.attempts, t1.attempts);
    }
  }

  lemma SnapshotsAreBound(t: Tables)
    requires Inv(t)
    ensures forall a :: a in t.snapshots ==> t.snapshots[a] != []
    ensures forall a :: a in t.attempts && t.attempts[a].inputDigest.Some? ==> a in t.snapshots
  {
    hide EventsKnown, ChainsOk, LeasesOk, IntroductionsOk, EffectsOk, IntroductionEventsOk, NoRepeats, DecisionsBindSnapshots, EngagementsOk, CatalogOk;
  }

  lemma FinalizeExtends(t: Tables, lease: Lease, recommended: Id, cited: set<Id>)
    requires Inv(t) && FinalizeAttempt(t, lease, recommended, cited).Committed?
    ensures Extends(t, FinalizeAttempt(t, lease, recommended, cited).tables)
  {
    hide Inv, AllPinsActive, Identifiers, Products;
    var t1 := FinalizeAttempt(t, lease, recommended, cited).tables;
    var a := lease.attempt;
    if AllPinsActive(t.pointers, SnapshotOf(t, a)) {
      ExtendsItself(t);
      assert t.nextId !in t.decisions by { FreshIds(t); }
      assert AttemptsExtend(t.attempts, t1.attempts) && DecisionsExtend(t.decisions, t1.decisions);
      hide BundlesExtend, PointersExtend, AttemptsExtend, SnapshotsExtend, DecisionsExtend, EngagementsExtend, IntroductionsExtend;
    } else {
      var to := t.attempts[a].(state := Stale);
      var staled := t.(attempts := t.attempts[a := to]);
      AttemptStepExtends(t, a, to);
      MarkStaleKeepsInv(t, a);
      ReplacementExtends(staled, a);
      var replaced := ReplacementFor(staled, a).tables;
      hide Extends;
      ExtendsChains(t, staled, replaced);
      RecordExtends(t, replaced, AttemptStale(a, t.attempts[a].generation));
    }
  }

  lemma WithdrawExtends(t: Tables, d: Id)
    requires d in t.decisions
    ensures Extends(t, Withdraw(t, d))
  {
    ExtendsItself(t);
    assert DecisionsExtend(t.decisions, Withdraw(t, d).decisions);
    assert EngagementsExtend(t.engagements, Withdraw(t, d).engagements);
    hide BundlesExtend, PointersExtend, AttemptsExtend, SnapshotsExtend, DecisionsExtend, EngagementsExtend, IntroductionsExtend;
  }

  lemma WithdrawKeepsInv(t: Tables, d: Id)
    requires Inv(t) && d in t.decisions
    ensures Inv(Withdraw(t, d))
    ensures Spent(t.attempts, Withdraw(t, d).decisions, t.decisions[d].attempt)
  {
    hide Inv;
    var to := t.decisions[d].(current := false, approval := Invalid);
    JudgeKeepsInv(t, d, to);
    WithdrawEngagementsKeepsInv(t.(decisions := t.decisions[d := to]), d);
  }

  lemma RescheduleExtends(t: Tables, product: Id, d: Id)
    requires Inv(t) && Reschedule.requires(t, product, d) && Reschedule(t, product, d).Committed?
    ensures Extends(t, Reschedule(t, product, d).tables)
  {
    hide Inv;
    ReplacementExtends(t, t.decisions[d].attempt);
    var t1 := ReplacementFor(t, t.decisions[d].attempt).tables;
    RecordExtends(t, t1, MissionMadeReady(t.decisions[d].mission, product, t.pointers[product].generation));
    hide BundlesExtend, PointersExtend, AttemptsExtend, SnapshotsExtend, DecisionsExtend, EngagementsExtend, IntroductionsExtend;
  }

  lemma InvalidateRowExtends(t: Tables, product: Id, d: Id, done: Invalidation)
    requires Inv(t) && d in t.decisions && ProductPin(t.decisions[d].dependencies, product).Some?
    requires InvalidateRow(t, product, d, done).Committed?
    ensures Extends(t, InvalidateRow(t, product, d, done).tables)
  {
    hide Inv, Extends, ReplacementFor, Reschedule, ProductPin, PinIsActive;
    ExtendsItself(t);
    WithdrawExtends(t, d);
    WithdrawKeepsInv(t, d);
    var t1 := Withdraw(t, d);
    if Reschedule.requires(t1, product, d) && Reschedule(t1, product, d).Committed? {
      RescheduleExtends(t1, product, d);
      ExtendsChains(t, t1, Reschedule(t1, product, d).tables);
    }
  }

  lemma {:induction false} InvalidateRowsExtend(t: Tables, product: Id, rows: seq<Id>, done: Invalidation)
    requires Inv(t) && forall d :: d in rows ==> d in t.decisions && ProductPin(t.decisions[d].dependencies, product).Some?
    requires InvalidateRows(t, product, rows, done).Committed?
    ensures Extends(t, InvalidateRows(t, product, rows, done).tables)
    decreases |rows|
  {
    hide Inv, Extends, InvalidateRow, ProductPin;
    ExtendsItself(t);
    if rows != [] {
      InvalidateRowExtends(t, product, rows[0], done);
      InvalidateRowKeepsInv(t, product, rows[0], done);
      var next := InvalidateRow(t, product, rows[0], done);
      InvalidateRowsExtend(next.tables, product, rows[1..], next.result);
      ExtendsChains(t, next.tables, InvalidateRows(next.tables, product, rows[1..], next.result).tables);
    }
  }

  lemma EngagementStepExtends(t: Tables, e: Id, state: EngagementState)
    requires e in t.engagements && (t.engagements[e].state == Introduced ==> state == Introduced)
    ensures Extends(t, t.(engagements := t.engagements[e := t.engagements[e].(state := state)]))
  {
    ExtendsItself(t);
    hide BundlesExtend, PointersExtend, AttemptsExtend, SnapshotsExtend, DecisionsExtend, IntroductionsExtend;
  }

  lemma JudgeExtends(t: Tables, d: Id, approval: Approval)
    requires d in t.decisions
    ensures Extends(t, t.(decisions := t.decisions[d := t.decisions[d].(approval := approval)]))
  {
    ExtendsItself(t);
    hide BundlesExtend, PointersExtend, AttemptsExtend, SnapshotsExtend, EngagementsExtend, IntroductionsExtend;
  }

  /** A consent is refused once the engagement is introduced, because both rows exist already. */
  lemma IntroducedRefusesConsent(t: Tables, e: Id, party: Party, actor: Id, fieldsHash: Id)
    requires Inv(t) && e in t.engagements && t.engagements[e].state == Introduced
    ensures GrantConsent(t, e, party, actor, fieldsHash).Aborted?
  {
    hide EventsKnown, ChainsOk, LeasesOk, SnapshotsOk, IntroductionsOk, EffectsOk, IntroductionEventsOk, NoRepeats, DecisionsBindSnapshots, CatalogOk;
  }

  lemma IntroduceExtends(t: Tables, e: Id, d: Id, inputDigest: Digest, fieldsHash: Id)
    requires Inv(t) && Introduce(t, e, d, inputDigest, fieldsHash).Committed?
    ensures Extends(t, Introduce(t, e, d, inputDigest, fieldsHash).tables)
  {
    hide Inv;
    ExtendsItself(t);
    FreshIds(t);
    if IntroductionsOf(t.introductions, e) == {} {
      var t1 := Introduce(t, e, d, inputDigest, fieldsHash).tables;
      assert EngagementsExtend(t.engagements, t1.engagements);
      assert IntroductionsExtend(t.introductions, t1.introductions);
      hide BundlesExtend, PointersExtend, AttemptsExtend, SnapshotsExtend, DecisionsExtend, EngagementsExtend, IntroductionsExtend;
    }
  }

  lemma OtherChangeKeepsHistory(t: Tables, op: Operation)
    requires op.Tick? || op.Publish? || op.OpenFor? || op.Move? || op.Start? || op.PinTo? || op.Checkpoint? || op.Respond? || op.Grant? || op.Revoke?
    ensures SameHistory(t, Apply(t, op))
  {
    hide PublishBundle, OpenMission, MoveMission, StartMission, PinBundles, CheckpointAttempt, RespondToEngagement, GrantConsent, RevokeConsent;
  }

  /** New rows under new identifiers, and columns that only grow. */
  lemma GrowthExtends(t: Tables, t1: Tables)
    requires t1.pointers == t.pointers && t1.snapshots == t.snapshots && t1.issued == t.issued && t1.decisions == t.decisions
    requires t1.introductions == t.introductions && t1.outbox == t.outbox
    requires t.now <= t1.now
    requires forall k :: k in t.bundles ==> k in t1.bundles && t1.bundles[k] == t.bundles[k]
    requires forall k :: k in t.attempts ==> k in t1.attempts && t1.attempts[k] == t.attempts[k]
    requires forall k :: k in t.engagements ==> k in t1.engagements && t1.engagements[k] == t.engagements[k]
    ensures Extends(t, t1)
  {
  }

  lemma ClaimExtends(t: Tables, a: Id, owner: Id, seconds: int)
    requires ClaimAttempt(t, a, owner, seconds).Committed?
    ensures Extends(t, ClaimAttempt(t, a, owner, seconds).tables)
  {
    var t1 := ClaimAttempt(t, a, owner, seconds).tables;
    AttemptStepExtends(t, a, t1.attempts[a]);
    hide BundlesExtend, PointersExtend, AttemptsExtend, SnapshotsExtend, DecisionsExtend, EngagementsExtend, IntroductionsExtend;
  }

  lemma ApproveExtends(t: Tables, d: Id)
    requires Inv(t) && ApproveDecision(t, d).Committed?
    ensures Extends(t, ApproveDecision(t, d).tables)
  {
    hide Inv, Extends, AllPinsActive, Products, PinsOf;
    FreshIds(t);
    JudgeExtends(t, d, Approved);
    var judged := t.(decisions := t.decisions[d := t.decisions[d].(approval := Approved)]);
    GrowthExtends(judged, ApproveDecision(t, d).tables);
    ExtendsChains(t, judged, ApproveDecision(t, d).tables);
  }

  lemma GrantExtends(t: Tables, e: Id, party: Party, actor: Id, fieldsHash: Id)
    requires Inv(t) && GrantConsent(t, e, party, actor, fieldsHash).Committed?
    ensures Extends(t, GrantConsent(t, e, party, actor, fieldsHash).tables)
  {
    hide Inv, Extends;
    if t.engagements[e].state == Introduced { IntroducedRefusesConsent(t, e, party, actor, fieldsHash); }
    var moved := t.(engagements := t.engagements[e := t.engagements[e].(state := ConsentPending)]);
    EngagementStepExtends(t, e, ConsentPending);
    GrowthExtends(moved, GrantConsent(t, e, party, actor, fieldsHash).tables);
    ExtendsChains(t, moved, GrantConsent(t, e, party, actor, fieldsHash).tables);
  }

  lemma InvalidateExtends(t: Tables, product: Id)
    requires Inv(t) && InvalidateDecisions(t, product).Committed?
    ensures Extends(t, InvalidateDecisions(t, product).tables)
  {
    hide Inv, Extends, InvalidateRows;
    InvalidateRowsExtend(t, product, RowsToInvalidate(t.decisions, product), Invalidation([], []));
  }

  lemma NewRowExtends(t: Tables, op: Operation)
    requires Inv(t) && (op.Tick? || op.Publish? || op.OpenFor? || op.Start?)
    ensures Extends(t, Apply(t, op))
  {
    hide Inv, Extends;
    ExtendsItself(t);
    FreshIds(t);
    match op
    case Tick(seconds) => GrowthExtends(t, t.(now := t.now + seconds));
    case Publish(org, product, digest, members) => GrowthExtends(t, PublishBundle(t, org, product, digest, members).tables);
    case OpenFor(mission) => GrowthExtends(t, OpenMission(t, mission).tables);
    case Start(mission) => GrowthExtends(t, After(t, StartMission(t, mission)));
  }

  lemma MoveExtends(t: Tables, mission: Id, state: MissionState)
    ensures Extends(t, After(t, MoveMission(t, mission, state)))
  {
    hide Extends;
    GrowthExtends(t, After(t, MoveMission(t, mission, state)));
  }

  lemma RevokeExtends(t: Tables, key: ConsentKey)
    ensures Extends(t, After(t, RevokeConsent(t, key)))
  {
    hide Extends;
    GrowthExtends(t, After(t, RevokeConsent(t, key)));
  }

  lemma PinExtends(t: Tables, attempt: Id, pins: map<Id, Pin>)
    ensures Extends(t, After(t, PinBundles(t, attempt, pins)))
  {
    hide Extends, PinsOf;
    ExtendsItself(t);
    GrowthExtends(t, After(t, PinBundles(t, attempt, pins)));
  }

  lemma CheckpointExtends(t: Tables, lease: Lease, sequence: nat)
    ensures Extends(t, After(t, CheckpointAttempt(t, lease, sequence)))
  {
    hide Extends, PassesFence;
    ExtendsItself(t);
    GrowthExtends(t, t.(checkpoints := t.checkpoints + {CheckpointKey(lease.attempt, sequence)}));
  }

  lemma ApplyExtends(t: Tables, op: Operation)
    requires Inv(t)
    ensures Extends(t, Apply(t, op))
  {
    hide Inv, Extends;
    ExtendsItself(t);
    FreshIds(t);
    match op
    case Activate(org, bundle, expected) =>
      hide ActivateBundle;
      if ActivateBundle(t, org, bundle, expected).Committed? { ActivateExtends(t, org, bundle, expected); }
    case Claim(attempt, owner, seconds) =>
      hide ClaimAttempt;
      if ClaimAttempt(t, attempt, owner, seconds).Committed? { ClaimExtends(t, attempt, owner, seconds); }
    case Snapshot(buyer, lease) =>
      hide SnapshotAttempt;
      if SnapshotAttempt(t, buyer, lease).Committed? { SnapshotExtends(t, buyer, lease); }
    case Finalize(lease, recommended, cited) =>
      hide FinalizeAttempt;
      if FinalizeAttempt(t, lease, recommended, cited).Committed? { FinalizeExtends(t, lease, recommended, cited); }
    case Invalidate(product) =>
      hide InvalidateDecisions;
      if InvalidateDecisions(t, product).Committed? { InvalidateExtends(t, product); }
    case Reject(decision) =>
      if RejectDecision(t, decision).Committed? { JudgeExtends(t, decision, Rejected); }
    case Approve(decision) =>
      hide ApproveDecision;
      if ApproveDecision(t, decision).Committed? { ApproveExtends(t, decision); }
    case Respond(engagement) =>
      if RespondToEngagement(t, engagement).Committed? { EngagementStepExtends(t, engagement, Responded); }
    case Grant(engagement, party, actor, fieldsHash) =>
      hide GrantConsent;
      if GrantConsent(t, engagement, party, actor, fieldsHash).Committed? { GrantExtends(t, engagement, party, actor, fieldsHash); }
    case MakeIntroduction(engagement, decision, inputDigest, fieldsHash) =>
      hide Introduce;
      if Introduce(t, engagement, decision, inputDigest, fieldsHash).Committed? {
        IntroduceExtends(t, engagement, decision, inputDigest, fieldsHash);
      }
    case Move(mission, state) => MoveExtends(t, mission, state);
    case PinTo(attempt, pins) => PinExtends(t, attempt, pins);
    case Checkpoint(lease, sequence) => CheckpointExtends(t, lease, sequence);
    case Revoke(key) => RevokeExtends(t, key);
    case _ => NewRowExtends(t, op);
  }

  // ---------- runs ----------

  lemma EmptyIsGood()
    ensures Inv(EMPTY)
  {
  }

  /** Every state of every run satisfies the invariant, and no later state undoes an earlier one. */
  lemma {:induction false} RunKeepsInv(t: Tables, ops: seq<Operation>)
    requires Inv(t)
    ensures Inv(Run(t, ops)) && Extends(t, Run(t, ops))
    decreases |ops|
  {
    hide Inv, Extends, Apply;
    if ops == [] {
      ExtendsItself(t);
    } else {
      ApplyKeepsInv(t, ops[0]);
      ApplyExtends(t, ops[0]);
      RunKeepsInv(Apply(t, ops[0]), ops[1..]);
      ExtendsChains(t, Apply(t, ops[0]), Run(t, ops));
    }
  }

  lemma RunOnce(t: Tables, op: Operation)
    ensures Run(t, [op]) == Apply(t, op)
  {
    hide Apply;
    assert [op][1..] == [];
  }

  lemma {:induction false} RunSplits(t: Tables, ops: seq<Operation>, more: seq<Operation>)
    ensures Run(t, ops + more) == Run(Run(t, ops), more)
    decreases |ops|
  {
    hide Apply;
    if ops == [] {
      assert ops + more == more;
    } else {
      assert (ops + more)[0] == ops[0] && (ops + more)[1..] == ops[1..] + more;
      RunSplits(Apply(t, ops[0]), ops[1..], more);
    }
  }

  /** The state after the first `i` operations of a run from empty tables. */
  function At(ops: seq<Operation>, i: nat): Tables
    requires i <= |ops|
  {
    Run(EMPTY, ops[..i])
  }

  lemma NothingAtStart(ops: seq<Operation>)
    ensures At(ops, 0) == EMPTY
  {
    assert ops[..0] == [];
  }

  lemma StatesExtend(ops: seq<Operation>, i: nat, j: nat)
    requires i <= j <= |ops|
    ensures Inv(At(ops, i)) && Inv(At(ops, j)) && Extends(At(ops, i), At(ops, j))
  {
    hide Inv, Extends, Apply, Run;
    EmptyIsGood();
    RunKeepsInv(EMPTY, ops[..i]);
    assert ops[..j] == ops[..i] + ops[i..j];
    RunSplits(EMPTY, ops[..i], ops[i..j]);
    RunKeepsInv(At(ops, i), ops[i..j]);
  }

  lemma NextState(ops: seq<Operation>, i: nat)
    requires i < |ops|
    ensures At(ops, i + 1) == Apply(At(ops, i), ops[i])
  {
    hide Apply;
    assert ops[..i + 1] == ops[..i] + [ops[i]];
    RunSplits(EMPTY, ops[..i], [ops[i]]);
    assert Run(At(ops, i), [ops[i]]) == Run(Apply(At(ops, i), ops[i]), []);
  }
}
