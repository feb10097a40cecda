/** Leases and checkpoints: until when an attempt can be claimed, under which lease it is worked on
    after that, and how it is stranded when that lease runs out. */
module QualificationLeases {
  import opened Outcomes
  import opened QualificationTables
  import opened QualificationSteps
  import opened QualificationInvariants
  import opened QualificationRuns
  import opened QualificationTheorems
  import opened QualificationLimits

  // ---------- what steps leave alone ----------

  /** Leases, checkpoints, snapshots and the rows of all attempts stay; new attempts are queued. */
  ghost predicate RowsKept(t: Tables, t1: Tables) {
    && t1.issued == t.issued && t1.checkpoints == t.checkpoints && t1.snapshots == t.snapshots
    && (forall a :: a in t.attempts ==> a in t1.attempts && t1.attempts[a] == t.attempts[a])
    && (forall a :: a in t1.attempts && a !in t.attempts ==> t1.attempts[a].state == Queued && t1.attempts[a].hold == None)
  }

  lemma RowsKeptChain(r: Tables, s: Tables, t: Tables)
    requires RowsKept(r, s) && RowsKept(s, t)
    ensures RowsKept(r, t)
  {
  }

  lemma SameRowsAreKept(t: Tables, t1: Tables)
    requires t1.issued == t.issued && t1.checkpoints == t.checkpoints && t1.snapshots == t.snapshots && t1.attempts == t.attempts
    ensures RowsKept(t, t1)
  {
  }

  lemma NewRowIsAdded(t: Tables, t1: Tables, id: Id, a: Attempt)
    requires t1.issued == t.issued && t1.checkpoints == t.checkpoints && t1.snapshots == t.snapshots
    requires id !in t.attempts && a.state == Queued && a.hold == None && t1.attempts == t.attempts[id := a]
    ensures RowsKept(t, t1)
  {
  }

  lemma NextAttemptIsNew(t: Tables)
    requires Inv(t)
    ensures t.nextId !in t.attempts
  {
    FreshIds(t);
  }

  /** One row of a sweep leaves the attempts, or adds one replacement under the next identifier. */
  lemma SweepRowShape(t: Tables, product: Id, d: Id, done: Invalidation)
    requires InvalidateRow.requires(t, product, d, done) && InvalidateRow(t, product, d, done).Committed?
    ensures var t1 := InvalidateRow(t, product, d, done).tables;
      || t1.attempts == t.attempts
      || (t.decisions[d].attempt in t.attempts
          && t1.attempts == t.attempts[t.nextId := Replacement(t.attempts, t.decisions[d].attempt)])
  {
    var t1 := Withdraw(t, d);
    var a := t.decisions[d].attempt;
    if a in t.attempts && ReplacementFor(t1, a).Committed? { ReplacementRow(t1, a); }
    hide ReplacementFor, ProductPin, PinIsActive, MissionIsLive, WithdrawEngagements;
  }

  lemma RowKeepsRows(t: Tables, product: Id, d: Id, done: Invalidation)
    requires t.nextId !in t.attempts
    requires InvalidateRow.requires(t, product, d, done) && InvalidateRow(t, product, d, done).Committed?
    ensures RowsKept(t, InvalidateRow(t, product, d, done).tables)
  {
    hide InvalidateRow, ProductPin, RowsKept;
    SweepRowShape(t, product, d, done);
    var t1 := InvalidateRow(t, product, d, done).tables;
    if t1.attempts == t.attempts {
      SameRowsAreKept(t, t1);
    } else {
      NewRowIsAdded(t, t1, t.nextId, Replacement(t.attempts, t.decisions[d].attempt));
    }
  }

  lemma {:induction false} RowsKeepRows(t: Tables, product: Id, rows: seq<Id>, done: Invalidation)
    requires Inv(t) && InvalidateRows.requires(t, product, rows, done) && InvalidateRows(t, product, rows, done).Committed?
    ensures RowsKept(t, InvalidateRows(t, product, rows, done).tables)
    decreases |rows|
  {
    hide Inv, InvalidateRow, ProductPin, RowsKept;
    if rows == [] {
      SameRowsAreKept(t, t);
    } else {
      NextAttemptIsNew(t);
      RowKeepsRows(t, product, rows[0], done);
      InvalidateRowKeepsInv(t, product, rows[0], done);
      var next := InvalidateRow(t, product, rows[0], done);
      RowsKeepRows(next.tables, product, rows[1..], next.result);
      RowsKeptChain(t, next.tables, InvalidateRows(t, product, rows, done).tables);
    }
  }

  lemma SweepKeepsRows(t: Tables, product: Id)
    requires Inv(t)
    ensures RowsKept(t, Apply(t, Invalidate(product)))
  {
    hide Inv, InvalidateRows, ProductPin, RowsKept;
    SameRowsAreKept(t, t);
    if InvalidateDecisions(t, product).Committed? {
      RowsKeepRows(t, product, RowsToInvalidate(t.decisions, product), Invalidation([], []));
    }
  }

  lemma JudgementKeepsRows(t: Tables, op: Operation)
    requires op.Activate? || op.Reject? || op.Approve? || op.MakeIntroduction?
    ensures RowsKept(t, Apply(t, op))
  {
    hide AllPinsActive, Products, PinsOf, PointTo, Retire, ConsentCounts, RowsKept;
    SameRowsAreKept(t, Apply(t, op));
  }

  lemma CatalogChangeKeepsRows(t: Tables, op: Operation)
    requires op.Tick? || op.Publish? || op.OpenFor? || op.Move?
    ensures RowsKept(t, Apply(t, op))
  {
    assert Apply(t, op).attempts == t.attempts;
  }

  lemma StartKeepsRows(t: Tables, mission: Id)
    requires t.nextId !in t.attempts
    ensures RowsKept(t, Apply(t, Start(mission)))
  {
    hide RowsKept;
    if StartMission(t, mission).Committed? {
      NewRowIsAdded(t, StartMission(t, mission).tables, t.nextId, Attempt(mission, t.nextId, None, 0, Queued, 0, None, None));
    } else {
      SameRowsAreKept(t, t);
    }
  }

  lemma OtherChangeKeepsRows(t: Tables, op: Operation)
    requires op.PinTo? || op.Respond? || op.Grant? || op.Revoke?
    ensures RowsKept(t, Apply(t, op))
  {
    hide PinsOf;
    assert Apply(t, op).attempts == t.attempts;
  }

  /** Only claims, snapshots, checkpoints and finalizations touch what the fence reads. */
  lemma OnlyWorkersTouchRows(t: Tables, op: Operation)
    requires Inv(t) && !op.Claim? && !op.Snapshot? && !op.Checkpoint? && !op.Finalize?
    ensures RowsKept(t, Apply(t, op))
  {
    NextAttemptIsNew(t);
    hide Inv, Apply, RowsKept;
    match op
    case Invalidate(product) => SweepKeepsRows(t, product);
    case Start(mission) => StartKeepsRows(t, mission);
    case Activate(_, _, _) => JudgementKeepsRows(t, op);
    case Reject(_) => JudgementKeepsRows(t, op);
    case Approve(_) => JudgementKeepsRows(t, op);
    case MakeIntroduction(_, _, _, _) => JudgementKeepsRows(t, op);
    case PinTo(_, _) => OtherChangeKeepsRows(t, op);
    case Respond(_) => OtherChangeKeepsRows(t, op);
    case Grant(_, _, _, _) => OtherChangeKeepsRows(t, op);
    case Revoke(_) => OtherChangeKeepsRows(t, op);
    case _ => CatalogChangeKeepsRows(t, op);
  }

  /** A committed finalization ends its attempt and keeps all else. */
  ghost predicate Ended(t: Tables, t1: Tables, a: Id) {
    && a in t.attempts && t.attempts[a].state == SnapshotComplete && a in t1.attempts
    && (t1.attempts[a] == t.attempts[a].(state := Stale) || t1.attempts[a] == t.attempts[a].(state := Completed))
    && RowsKept(t.(attempts := t.attempts[a := t1.attempts[a]]), t1)
  }

  lemma DecisionEnds(t: Tables, outcome: Outcome<Finalization>, a: Id, recommended: Id, cited: set<Id>)
    requires outcome.Committed? && a in t.snapshots && a in t.attempts && t.attempts[a].state == SnapshotComplete
    requires DecidesWith(t, outcome, a, recommended, cited)
    ensures Ended(t, outcome.tables, a)
  {
  }

  lemma RetirementEnds(t: Tables, outcome: Outcome<Finalization>, a: Id)
    requires outcome.Committed? && a in t.attempts && t.attempts[a].state == SnapshotComplete && t.nextId !in t.attempts
    requires RetiresWith(t, outcome, a)
    ensures Ended(t, outcome.tables, a)
  {
  }

  lemma FinalizeEndsRow(t: Tables, lease: Lease, recommended: Id, cited: set<Id>)
    requires Inv(t) && FinalizeAttempt(t, lease, recommended, cited).Committed?
    ensures Ended(t, FinalizeAttempt(t, lease, recommended, cited).tables, lease.attempt)
  {
    assert PassesFence(t, lease, {SnapshotComplete});
    FinalizationOutcome(t, lease, recommended, cited);
    FreshIds(t);
    hide Inv, FinalizeAttempt, AllPinsActive, Identifiers, Products, DecidesWith, RetiresWith, Ended;
    var outcome := FinalizeAttempt(t, lease, recommended, cited);
    if AllPinsActive(t.pointers, t.snapshots[lease.attempt]) {
      DecisionEnds(t, outcome, lease.attempt, recommended, cited);
    } else {
      RetirementEnds(t, outcome, lease.attempt);
    }
  }

  // ---------- the invariant ----------

  ghost predicate IsWorkedOn(attempts: map<Id, Attempt>, a: Id) {
    a in attempts && attempts[a].state != Queued && attempts[a].hold.Some?
  }

  ghost predicate CheckpointsOk(attempts: map<Id, Attempt>, checkpoints: set<CheckpointKey>) {
    forall k :: k in checkpoints ==> IsWorkedOn(attempts, k.attempt)
  }

  ghost predicate SnapshotsWritten(t: Tables) {
    && (forall a :: a in t.snapshots ==> CheckpointKey(a, 1) in t.checkpoints && a in t.attempts && t.attempts[a].state != Running)
    && (forall a :: a in t.attempts && t.attempts[a].state == SnapshotComplete ==> a in t.snapshots)
  }

  /** The hold of a row is the lease last handed out for it. */
  ghost predicate HoldsOk(attempts: map<Id, Attempt>, issued: set<Lease>) {
    && (forall l :: l in issued && l.attempt in attempts && l.generation == attempts[l.attempt].generation ==>
          attempts[l.attempt].hold == Some(Hold(l.owner, l.expires)))
    && (forall a :: a in attempts && attempts[a].hold.Some? ==>
          Lease(a, attempts[a].generation, attempts[a].hold.value.owner, attempts[a].hold.value.expires) in issued)
  }

  ghost predicate FencesOk(t: Tables) {
    CheckpointsOk(t.attempts, t.checkpoints) && SnapshotsWritten(t) && HoldsOk(t.attempts, t.issued)
  }

  /** Once an attempt has a checkpoint its generation and its hold are final. */
  ghost predicate FencesExtend(s: Tables, t: Tables) {
    && s.checkpoints <= t.checkpoints
    && (forall a :: a in s.attempts && HasCheckpoint(s.checkpoints, a) ==>
          a in t.attempts && t.attempts[a].generation == s.attempts[a].generation && t.attempts[a].hold == s.attempts[a].hold)
  }

  lemma KeptRowsKeepFences(t: Tables, t1: Tables)
    requires FencesOk(t) && RowsKept(t, t1) && forall l :: l in t.issued ==> l.attempt in t.attempts
    ensures FencesOk(t1) && FencesExtend(t, t1)
  {
  }

  lemma LeasesAreKnown(t: Tables)
    requires Inv(t)
    ensures forall l :: l in t.issued ==> l.attempt in t.attempts && l.generation <= t.attempts[l.attempt].generation
    ensures forall l, m :: l in t.issued && m in t.issued && l.attempt == m.attempt && l.generation == m.generation ==> l == m
  {
    hide EventsKnown, ChainsOk, IntroductionsOk, EffectsOk, IntroductionEventsOk, NoRepeats, DecisionsBindSnapshots, EngagementsOk, CatalogOk, SnapshotsOk;
  }

  lemma ClaimKeepsHolds(attempts: map<Id, Attempt>, issued: set<Lease>, lease: Lease, to: Attempt)
    requires HoldsOk(attempts, issued) && forall l :: l in issued && l.attempt in attempts ==> l.generation <= attempts[l.attempt].generation
    requires lease.attempt in attempts && lease.generation == to.generation == attempts[lease.attempt].generation + 1
    requires to.hold == Some(Hold(lease.owner, lease.expires))
    ensures HoldsOk(attempts[lease.attempt := to], issued + {lease})
  {
  }

  lemma ClaimKeepsFences(t: Tables, attempt: Id, owner: Id, seconds: int)
    requires Inv(t) && FencesOk(t) && ClaimAttempt(t, attempt, owner, seconds).Committed?
    ensures var t1 := ClaimAttempt(t, attempt, owner, seconds).tables; FencesOk(t1) && FencesExtend(t, t1)
  {
    LeasesAreKnown(t);
    var r := ClaimAttempt(t, attempt, owner, seconds);
    ClaimKeepsHolds(t.attempts, t.issued, r.result, r.tables.attempts[attempt]);
    hide Inv, HoldsOk;
  }

  /** A first snapshot writes one row of each table; a replay writes nothing. */
  ghost predicate FirstSnapshot(t: Tables, t1: Tables, a: Id, dependencies: seq<Dependency>)
    requires a in t.attempts
  {
    t1 == t.(
      snapshots := t.snapshots[a := dependencies],
      attempts := t.attempts[a := t.attempts[a].(state := SnapshotComplete, inputDigest := Some(OfSnapshot(dependencies)))],
      checkpoints := t.checkpoints + {CheckpointKey(a, 1)})
  }

  lemma SnapshotShape(t: Tables, org: Id, lease: Lease)
    requires SnapshotAttempt(t, org, lease).Committed?
    ensures PassesFence(t, lease, {Running, SnapshotComplete})
    ensures var r := SnapshotAttempt(t, org, lease); var a := lease.attempt;
      if SnapshotOf(t, a) == [] then FirstSnapshot(t, r.tables, a, r.result) && CheckpointKey(a, 1) !in t.checkpoints
      else r.tables == t && t.attempts[a].inputDigest == Some(OfSnapshot(r.result))
  {
    hide DependenciesOf, DistinctKeys, MembersOf, PinsOf, SnapshotOf;
  }

  lemma FirstSnapshotKeepsFences(t: Tables, t1: Tables, a: Id, dependencies: seq<Dependency>)
    requires FencesOk(t) && a in t.attempts && t.attempts[a].state in {Running, SnapshotComplete} && t.attempts[a].hold.Some?
    requires FirstSnapshot(t, t1, a, dependencies)
    ensures FencesOk(t1) && FencesExtend(t, t1)
  {
  }

  lemma SnapshotKeepsFences(t: Tables, org: Id, lease: Lease)
    requires FencesOk(t) && SnapshotAttempt(t, org, lease).Committed?
    ensures var t1 := SnapshotAttempt(t, org, lease).tables; FencesOk(t1) && FencesExtend(t, t1)
  {
    SnapshotShape(t, org, lease);
    var r := SnapshotAttempt(t, org, lease);
    if SnapshotOf(t, lease.attempt) == [] {
      hide SnapshotAttempt, FencesOk, FencesExtend, FirstSnapshot;
      FirstSnapshotKeepsFences(t, r.tables, lease.attempt, r.result);
    } else {
      hide SnapshotAttempt, SnapshotOf;
    }
  }

  lemma CheckpointKeepsFences(t: Tables, lease: Lease, sequence: nat)
    requires FencesOk(t) && CheckpointAttempt(t, lease, sequence).Committed?
    ensures var t1 := CheckpointAttempt(t, lease, sequence).tables; FencesOk(t1) && FencesExtend(t, t1)
  {
  }

  lemma EndKeepsFences(t: Tables, a: Id, state: AttemptState)
    requires FencesOk(t) && a in t.attempts && state in {Stale, Completed}
    ensures var ended := t.(attempts := t.attempts[a := t.attempts[a].(state := state)]); FencesOk(ended) && FencesExtend(t, ended)
  {
  }

  lemma FinalizeKeepsFences(t: Tables, t1: Tables, a: Id)
    requires FencesOk(t) && Ended(t, t1, a) && forall l :: l in t.issued ==> l.attempt in t.attempts
    ensures FencesOk(t1) && FencesExtend(t, t1)
  {
    hide FencesOk, FencesExtend, RowsKept;
    var ended := t.(attempts := t.attempts[a := t1.attempts[a]]);
    EndKeepsFences(t, a, t1.attempts[a].state);
    KeptRowsKeepFences(ended, t1);
    FencesChain(t, ended, t1);
  }

  /** The calls of a worker. */
  lemma WorkerKeepsFences(t: Tables, op: Operation)
    requires Inv(t) && FencesOk(t) && (op.Claim? || op.Snapshot? || op.Checkpoint? || op.Finalize?)
    ensures FencesOk(Apply(t, op)) && FencesExtend(t, Apply(t, op))
  {
    hide Inv, FencesOk, FencesExtend, Ended, ClaimAttempt, SnapshotAttempt, CheckpointAttempt, FinalizeAttempt;
    TablesKeepThemselves(t);
    match op
    case Claim(a, owner, seconds) =>
      if ClaimAttempt(t, a, owner, seconds).Committed? { ClaimKeepsFences(t, a, owner, seconds); }
    case Snapshot(buyer, lease) =>
      if SnapshotAttempt(t, buyer, lease).Committed? { SnapshotKeepsFences(t, buyer, lease); }
    case Checkpoint(lease, sequence) =>
      if CheckpointAttempt(t, lease, sequence).Committed? { CheckpointKeepsFences(t, lease, sequence); }
    case Finalize(lease, recommended, cited) =>
      if FinalizeAttempt(t, lease, recommended, cited).Committed? {
        LeasesAreKnown(t);
        FinalizeEndsRow(t, lease, recommended, cited);
        FinalizeKeepsFences(t, FinalizeAttempt(t, lease, recommended, cited).tables, lease.attempt);
      }
  }

  lemma ApplyKeepsFences(t: Tables, op: Operation)
    requires Inv(t) && FencesOk(t)
    ensures FencesOk(Apply(t, op)) && FencesExtend(t, Apply(t, op))
  {
    hide Inv, FencesOk, FencesExtend, RowsKept, Apply;
    if op.Claim? || op.Snapshot? || op.Checkpoint? || op.Finalize? {
      WorkerKeepsFences(t, op);
    } else {
      LeasesAreKnown(t);
      OnlyWorkersTouchRows(t, op);
      KeptRowsKeepFences(t, Apply(t, op));
    }
  }

  lemma TablesKeepThemselves(t: Tables)
    ensures FencesExtend(t, t)
  {
  }

  lemma NoFencesAtStart()
    ensures FencesOk(EMPTY)
  {
  }

  lemma {:induction false} FencesOnEveryRun(ops: seq<Operation>, i: nat)
    requires i <= |ops|
    ensures Inv(At(ops, i)) && FencesOk(At(ops, i))
    decreases i
  {
    hide Inv, FencesOk, Apply, At;
    StatesExtend(ops, i, i);
    if i == 0 {
      NothingAtStart(ops);
      NoFencesAtStart();
    } else {
      FencesOnEveryRun(ops, i - 1);
      NextState(ops, i - 1);
      ApplyKeepsFences(At(ops, i - 1), ops[i - 1]);
    }
  }

  lemma {:induction false} FencesExtendOnEveryRun(ops: seq<Operation>, i: nat, j: nat)
    requires i <= j <= |ops|
    ensures FencesExtend(At(ops, i), At(ops, j))
    decreases j
  {
    hide Inv, FencesOk, FencesExtend, Apply, At;
    if i == j {
      TablesKeepThemselves(At(ops, i));
    } else {
      FencesExtendOnEveryRun(ops, i, j - 1);
      FencesOnEveryRun(ops, j - 1);
      NextState(ops, j - 1);
      ApplyKeepsFences(At(ops, j - 1), ops[j - 1]);
      FencesChain(At(ops, i), At(ops, j - 1), At(ops, j));
    }
  }

  lemma FencesChain(r: Tables, s: Tables, t: Tables)
    requires FencesExtend(r, s) && FencesExtend(s, t)
    ensures FencesExtend(r, t)
  {
  }

  // ---------- when a claim commits ----------

  /** The operation commits a checkpoint of the attempt; a snapshot always leaves one. */
  ghost predicate Writes(t: Tables, op: Operation, a: Id) {
    match op
    case Snapshot(buyer, lease) => lease.attempt == a && SnapshotAttempt(t, buyer, lease).Committed?
    case Checkpoint(lease, sequence) => lease.attempt == a && CheckpointAttempt(t, lease, sequence).Committed?
    case _ => false
  }

  ghost predicate WritesAt(ops: seq<Operation>, j: nat, a: Id)
    requires j < |ops|
  {
    Writes(At(ops, j), ops[j], a)
  }

  lemma SnapshotWrites(t: Tables, buyer: Id, lease: Lease, a: Id)
    requires FencesOk(t)
    ensures var t1 := After(t, SnapshotAttempt(t, buyer, lease));
      HasCheckpoint(t1.checkpoints, a) <==>
        HasCheckpoint(t.checkpoints, a) || (lease.attempt == a && SnapshotAttempt(t, buyer, lease).Committed?)
  {
    if SnapshotAttempt(t, buyer, lease).Committed? {
      SnapshotShape(t, buyer, lease);
      hide SnapshotAttempt;
      if SnapshotOf(t, lease.attempt) == [] {
        assert CheckpointKey(lease.attempt, 1) in SnapshotAttempt(t, buyer, lease).tables.checkpoints;
      } else {
        assert CheckpointKey(lease.attempt, 1) in t.checkpoints;
      }
    }
  }

  lemma CheckpointWrites(t: Tables, lease: Lease, sequence: nat, a: Id)
    ensures var t1 := After(t, CheckpointAttempt(t, lease, sequence));
      HasCheckpoint(t1.checkpoints, a) <==>
        HasCheckpoint(t.checkpoints, a) || (lease.attempt == a && CheckpointAttempt(t, lease, sequence).Committed?)
  {
    if CheckpointAttempt(t, lease, sequence).Committed? {
      assert CheckpointKey(lease.attempt, sequence) in CheckpointAttempt(t, lease, sequence).tables.checkpoints;
    }
  }

  lemma ClaimWritesNone(t: Tables, a: Id, owner: Id, seconds: int)
    ensures After(t, ClaimAttempt(t, a, owner, seconds)).checkpoints == t.checkpoints
    ensures After(t, ClaimAttempt(t, a, owner, seconds)).snapshots == t.snapshots
  {
  }

  lemma StepWrites(t: Tables, op: Operation, a: Id)
    requires Inv(t) && FencesOk(t)
    ensures HasCheckpoint(Apply(t, op).checkpoints, a) <==> HasCheckpoint(t.checkpoints, a) || Writes(t, op, a)
  {
    hide Inv, HasCheckpoint, FencesOk, SnapshotAttempt, CheckpointAttempt, ClaimAttempt, FinalizeAttempt;
    match op
    case Snapshot(buyer, lease) => SnapshotWrites(t, buyer, lease, a);
    case Checkpoint(lease, sequence) => CheckpointWrites(t, lease, sequence, a);
    case Claim(claimed, owner, seconds) => ClaimWritesNone(t, claimed, owner, seconds);
    case Finalize(lease, recommended, cited) =>
      if FinalizeAttempt(t, lease, recommended, cited).Committed? { FinalizeEndsRow(t, lease, recommended, cited); }
    case _ =>
      hide Apply;
      OnlyWorkersTouchRows(t, op);
  }

  /** An attempt has a checkpoint exactly from its first committed checkpoint or snapshot on. */
  lemma {:induction false} CheckpointsAreWritten(ops: seq<Operation>, i: nat, a: Id)
    requires i <= |ops|
    ensures HasCheckpoint(At(ops, i).checkpoints, a) <==> exists j | 0 <= j < i :: WritesAt(ops, j, a)
    decreases i
  {
    hide Inv, FencesOk, HasCheckpoint, At, Apply, SnapshotAttempt, CheckpointAttempt;
    if i == 0 {
      NothingAtStart(ops);
      assert !HasCheckpoint(EMPTY.checkpoints, a) by { NoCheckpointAtStart(a); }
    } else {
      CheckpointsAreWritten(ops, i - 1, a);
      FencesOnEveryRun(ops, i - 1);
      NextState(ops, i - 1);
      StepWrites(At(ops, i - 1), ops[i - 1], a);
      assert WritesAt(ops, i - 1, a) <==> Writes(At(ops, i - 1), ops[i - 1], a);
    }
  }

  lemma NoCheckpointAtStart(a: Id)
    ensures !HasCheckpoint(EMPTY.checkpoints, a)
  {
  }

  /** At every moment of every run, a claim for a lawful time commits exactly for an attempt that is
      QUEUED or RUNNING, is held by nobody else, and under which nothing was written: no snapshot and
      no checkpoint committed for it before. */
  lemma ClaimCommitsExactly(ops: seq<Operation>, i: nat, a: Id, owner: Id, seconds: int)
    requires i <= |ops|
    ensures var t := At(ops, i);
      ClaimAttempt(t, a, owner, seconds).Committed? <==>
        && 1 <= seconds <= 600 && a in t.attempts && t.attempts[a].state in {Queued, Running}
        && (t.attempts[a].hold.Some? ==> t.attempts[a].hold.value.expires <= t.now || t.attempts[a].hold.value.owner == owner)
        && !exists j | 0 <= j < i :: WritesAt(ops, j, a)
  {
    FencesOnEveryRun(ops, i);
    CheckpointsAreWritten(ops, i, a);
    hide Inv, At, WritesAt;
    var t := At(ops, i);
    if a in t.attempts && t.attempts[a].state == SnapshotComplete {
      assert CheckpointKey(a, 1) in t.checkpoints;
    }
  }

  lemma CheckpointRefusesClaim(s: Tables, t: Tables, a: Id, owner: Id, seconds: int)
    requires FencesExtend(s, t) && HasCheckpoint(s.checkpoints, a)
    ensures HasCheckpoint(t.checkpoints, a) && ClaimAttempt(t, a, owner, seconds).Aborted?
  {
  }

  lemma SnapshotHasCheckpoint(t: Tables, a: Id)
    requires FencesOk(t) && a in t.snapshots
    ensures HasCheckpoint(t.checkpoints, a) && a in t.attempts && t.attempts[a].state in {SnapshotComplete, Stale, Completed, Failed, Cancelled}
  {
    assert CheckpointKey(a, 1) in t.checkpoints;
  }

  /** An attempt that has its snapshot is never claimed again, not even by the worker that holds it. */
  lemma SnapshottedIsNeverClaimed(ops: seq<Operation>, i: nat, j: nat, a: Id, owner: Id, seconds: int)
    requires i <= j <= |ops| && a in At(ops, i).snapshots
    ensures ClaimAttempt(At(ops, j), a, owner, seconds).Aborted?
  {
    hide Inv, FencesOk, FencesExtend, At, ClaimAttempt, HasCheckpoint;
    FencesOnEveryRun(ops, i);
    FencesExtendOnEveryRun(ops, i, j);
    SnapshotHasCheckpoint(At(ops, i), a);
    CheckpointRefusesClaim(At(ops, i), At(ops, j), a, owner, seconds);
  }

  /** No claim of the attempt commits, whatever happens from here on. */
  ghost predicate NeverClaimable(t: Tables, a: Id) {
    forall more, owner, seconds :: ClaimAttempt(Run(t, more), a, owner, seconds).Aborted?
  }

  lemma {:induction false} RunExtendsFences(t: Tables, more: seq<Operation>)
    requires Inv(t) && FencesOk(t)
    ensures FencesExtend(t, Run(t, more))
    decreases |more|
  {
    hide Inv, FencesOk, FencesExtend, Apply;
    if more == [] {
      TablesKeepThemselves(t);
    } else {
      ApplyKeepsFences(t, more[0]);
      ApplyKeepsInv(t, more[0]);
      RunExtendsFences(Apply(t, more[0]), more[1..]);
      FencesChain(t, Apply(t, more[0]), Run(t, more));
    }
  }

  lemma WaitingFreesTheHold(t: Tables, a: Id)
    requires a in t.attempts && t.attempts[a].state in {Queued, Running, SnapshotComplete} && !HasCheckpoint(t.checkpoints, a)
    ensures !NeverClaimable(t, a)
  {
    hide HasCheckpoint;
    var wait := if t.attempts[a].hold.Some? then t.attempts[a].hold.value.expires else 0;
    RunOnce(t, Tick(wait));
    hide Run;
    assert ClaimAttempt(Run(t, [Tick(wait)]), a, 0, 1).Committed?;
  }

  /** An unfinished attempt can never be claimed again exactly when something was written under it:
      without that, waiting for its lease to run out is enough. */
  lemma NeverClaimableExactly(ops: seq<Operation>, a: Id)
    requires a in At(ops, |ops|).attempts && At(ops, |ops|).attempts[a].state in {Queued, Running, SnapshotComplete}
    ensures NeverClaimable(At(ops, |ops|), a) <==> exists j | 0 <= j < |ops| :: WritesAt(ops, j, a)
  {
    hide Inv, FencesOk, FencesExtend, At, ClaimAttempt, HasCheckpoint, Run, WritesAt;
    var t := At(ops, |ops|);
    FencesOnEveryRun(ops, |ops|);
    CheckpointsAreWritten(ops, |ops|, a);
    if HasCheckpoint(t.checkpoints, a) {
      forall more, owner, seconds ensures ClaimAttempt(Run(t, more), a, owner, seconds).Aborted? {
        RunExtendsFences(t, more);
        CheckpointRefusesClaim(t, Run(t, more), a, owner, seconds);
      }
    } else {
      WaitingFreesTheHold(t, a);
    }
  }

  // ---------- the lease that took the snapshot ----------

  lemma RowSurvives(t: Tables, t1: Tables, a: Id)
    requires RowsKept(t, t1) && a in t.attempts
    ensures a in t1.attempts && t1.attempts[a] == t.attempts[a]
  {
  }

  lemma FinalizeKeepsOthers(t: Tables, t1: Tables, b: Id, a: Id)
    requires Ended(t, t1, b) && a in t.attempts && a != b
    ensures a in t1.attempts && t1.attempts[a] == t.attempts[a]
  {
  }

  /** The operation works on the attempt under a lease of it. */
  ghost predicate WorksOn(op: Operation, a: Id) {
    match op
    case Claim(claimed, _, _) => claimed == a
    case Snapshot(_, lease) => lease.attempt == a
    case Finalize(lease, _, _) => lease.attempt == a
    case _ => false
  }

  lemma ClaimKeepsOthers(t: Tables, b: Id, owner: Id, seconds: int, a: Id)
    requires a in t.attempts && a != b
    ensures var t1 := After(t, ClaimAttempt(t, b, owner, seconds)); a in t1.attempts && t1.attempts[a] == t.attempts[a]
  {
    hide HasCheckpoint;
  }

  lemma SnapshotKeepsOthers(t: Tables, buyer: Id, lease: Lease, a: Id)
    requires a in t.attempts && a != lease.attempt
    ensures var t1 := After(t, SnapshotAttempt(t, buyer, lease)); a in t1.attempts && t1.attempts[a] == t.attempts[a]
  {
    if SnapshotAttempt(t, buyer, lease).Committed? { SnapshotShape(t, buyer, lease); }
    hide SnapshotAttempt, SnapshotOf;
  }

  lemma CheckpointKeepsRows(t: Tables, lease: Lease, sequence: nat)
    ensures After(t, CheckpointAttempt(t, lease, sequence)).attempts == t.attempts
  {
  }

  /** Only a claim, a snapshot and a finalization of an attempt change its row. */
  lemma OthersKeepRow(t: Tables, op: Operation, a: Id)
    requires Inv(t) && a in t.attempts && !WorksOn(op, a)
    ensures a in Apply(t, op).attempts && Apply(t, op).attempts[a] == t.attempts[a]
  {
    hide Inv, ClaimAttempt, CheckpointAttempt, SnapshotAttempt, FinalizeAttempt;
    match op
    case Claim(b, owner, seconds) => ClaimKeepsOthers(t, b, owner, seconds, a);
    case Checkpoint(lease, sequence) => CheckpointKeepsRows(t, lease, sequence);
    case Snapshot(buyer, lease) => SnapshotKeepsOthers(t, buyer, lease, a);
    case Finalize(lease, recommended, cited) =>
      if FinalizeAttempt(t, lease, recommended, cited).Committed? {
        FinalizeEndsRow(t, lease, recommended, cited);
        hide Ended;
        FinalizeKeepsOthers(t, FinalizeAttempt(t, lease, recommended, cited).tables, lease.attempt, a);
      }
    case _ =>
      hide Apply, RowsKept;
      OnlyWorkersTouchRows(t, op);
      RowSurvives(t, Apply(t, op), a);
  }

  /** Once its snapshot is complete, the row of an attempt waits unchanged for its finalization. */
  lemma SnapshottedRowWaits(t: Tables, op: Operation, a: Id)
    requires Inv(t) && FencesOk(t) && a in t.attempts && t.attempts[a].state == SnapshotComplete && !Finalizes(t, op, a)
    ensures a in Apply(t, op).attempts && Apply(t, op).attempts[a] == t.attempts[a]
  {
    hide Inv;
    if !WorksOn(op, a) {
      OthersKeepRow(t, op, a);
    } else {
      match op
      case Claim(_, owner, seconds) =>
        SnapshotHasCheckpoint(t, a);
        hide HasCheckpoint;
      case Snapshot(buyer, lease) =>
        SnapshotIsThere(t, a);
        if SnapshotAttempt(t, buyer, lease).Committed? { SnapshotShape(t, buyer, lease); }
        hide SnapshotAttempt, SnapshotOf;
      case Finalize(_, _, _) =>
        hide FinalizeAttempt;
    }
  }

  lemma SnapshotIsThere(t: Tables, a: Id)
    requires Inv(t) && a in t.attempts && t.attempts[a].state == SnapshotComplete
    ensures a in t.snapshots && SnapshotOf(t, a) != []
  {
    hide EventsKnown, ChainsOk, IntroductionsOk, EffectsOk, IntroductionEventsOk, NoRepeats, DecisionsBindSnapshots, EngagementsOk, CatalogOk, LeasesOk;
  }

  /** The row of an attempt whose snapshot is complete is the same until a finalization ends it. */
  lemma {:induction false} WaitsUntilFinalized(ops: seq<Operation>, i: nat, j: nat, a: Id)
    requires i <= j <= |ops| && a in At(ops, i).attempts && At(ops, i).attempts[a].state == SnapshotComplete
    ensures a in At(ops, j).attempts
    ensures if exists k | i <= k < j :: Finalizes(At(ops, k), ops[k], a) then At(ops, j).attempts[a].state in {Stale, Completed}
            else At(ops, j).attempts[a] == At(ops, i).attempts[a]
    decreases j
  {
    hide Inv, FencesOk, At, Apply, Finalizes, Extends;
    if i < j {
      WaitsUntilFinalized(ops, i, j - 1, a);
      FencesOnEveryRun(ops, j - 1);
      NextState(ops, j - 1);
      if k :| i <= k < j && Finalizes(At(ops, k), ops[k], a) {
        FencesOnEveryRun(ops, k);
        FinalizeEnds(At(ops, k), ops[k], a);
        NextState(ops, k);
        FinishedAttemptsAreFrozen(ops, k + 1, j, a);
      } else {
        SnapshottedRowWaits(At(ops, j - 1), ops[j - 1], a);
      }
    }
  }

  /** The row belongs to the lease, and the snapshot is there. */
  ghost predicate BelongsTo(t: Tables, lease: Lease, dependencies: seq<Dependency>) {
    var a := lease.attempt;
    && a in t.attempts && t.attempts[a].state == SnapshotComplete && t.attempts[a].generation == lease.generation
    && t.attempts[a].hold == Some(Hold(lease.owner, lease.expires)) && lease in t.issued
    && a in t.snapshots && t.snapshots[a] == dependencies
  }

  lemma FirstSnapshotBelongs(t: Tables, t1: Tables, lease: Lease, dependencies: seq<Dependency>)
    requires HoldsOk(t.attempts, t.issued) && lease in t.issued && PassesFence(t, lease, {Running, SnapshotComplete})
    requires FirstSnapshot(t, t1, lease.attempt, dependencies)
    ensures BelongsTo(t1, lease, dependencies)
  {
  }

  lemma ReplayBelongs(t: Tables, lease: Lease, dependencies: seq<Dependency>)
    requires HoldsOk(t.attempts, t.issued) && lease in t.issued && PassesFence(t, lease, {Running, SnapshotComplete})
    requires lease.attempt in t.snapshots && t.attempts[lease.attempt].state != Running && t.snapshots[lease.attempt] == dependencies
    ensures BelongsTo(t, lease, dependencies)
  {
  }

  /** After a snapshot the row belongs to the lease it was taken under. */
  lemma SnapshotBelongs(t: Tables, buyer: Id, lease: Lease)
    requires Inv(t) && FencesOk(t) && lease in t.issued && SnapshotAttempt(t, buyer, lease).Committed?
    ensures BelongsTo(Apply(t, Snapshot(buyer, lease)), lease, SnapshotAttempt(t, buyer, lease).result)
  {
    hide Inv, SnapshotAttempt, HoldsOk, CheckpointsOk, SnapshotsWritten, PassesFence, FirstSnapshot, BelongsTo, SnapshotOf;
    SnapshotShape(t, buyer, lease);
    var r := SnapshotAttempt(t, buyer, lease);
    if SnapshotOf(t, lease.attempt) == [] {
      FirstSnapshotBelongs(t, r.tables, lease, r.result);
    } else {
      ReplayReturnsSnapshot(t, buyer, lease);
      WrittenIsNotRunning(t, lease.attempt);
      ReplayBelongs(t, lease, r.result);
    }
    assert Apply(t, Snapshot(buyer, lease)) == r.tables;
  }

  lemma WrittenIsNotRunning(t: Tables, a: Id)
    requires SnapshotsWritten(t) && a in t.snapshots
    ensures a in t.attempts && t.attempts[a].state != Running
  {
  }

  lemma ReplayReturnsSnapshot(t: Tables, buyer: Id, lease: Lease)
    requires Inv(t) && SnapshotOf(t, lease.attempt) != [] && SnapshotAttempt(t, buyer, lease).Committed?
    ensures lease.attempt in t.snapshots && t.snapshots[lease.attempt] == SnapshotAttempt(t, buyer, lease).result
  {
    SnapshotShape(t, buyer, lease);
    hide EventsKnown, ChainsOk, IntroductionsOk, EffectsOk, IntroductionEventsOk, NoRepeats, DecisionsBindSnapshots, EngagementsOk, CatalogOk, LeasesOk;
    hide SnapshotAttempt;
  }

  /** Of all leases ever handed out, only the one under which the snapshot was taken can finalize the
      attempt, only before it expires, and only if the attempt was not finalized yet. */
  lemma SnapshotLeaseFinalizesExactly(ops: seq<Operation>, i: nat, j: nat, buyer: Id, lease: Lease, l: Lease)
    requires i < j <= |ops| && ops[i] == Snapshot(buyer, lease) && SnapshotAttempt(At(ops, i), buyer, lease).Committed?
    requires lease in At(ops, i).issued && l in At(ops, j).issued && l.attempt == lease.attempt
    ensures PassesFence(At(ops, j), l, {SnapshotComplete}) <==>
      && l == lease && At(ops, j).now < lease.expires
      && !exists k | i < k < j :: Finalizes(At(ops, k), ops[k], lease.attempt)
  {
    hide Inv, FencesOk, At, Apply, Finalizes, Extends, SnapshotAttempt;
    FencesOnEveryRun(ops, i);
    SnapshotBelongs(At(ops, i), buyer, lease);
    NextState(ops, i);
    WaitsUntilFinalized(ops, i + 1, j, lease.attempt);
    StatesExtend(ops, i + 1, j);
    IssuedStays(At(ops, i + 1), At(ops, j));
    LeasesAreKnown(At(ops, j));
  }

  lemma IssuedStays(s: Tables, t: Tables)
    requires Extends(s, t)
    ensures s.issued <= t.issued
    ensures forall a :: a in s.snapshots ==> a in t.snapshots && t.snapshots[a] == s.snapshots[a]
  {
    hide BundlesExtend, PointersExtend, AttemptsExtend, DecisionsExtend, EngagementsExtend, IntroductionsExtend;
  }

  /** Hence the exact condition under which a snapshotted attempt is finalized: by that lease, in time,
      once, and with active pins and citations inside the snapshot, or with a changed pin above the
      last depth. */
  lemma SnapshottedIsFinalizedExactly(
      ops: seq<Operation>, i: nat, j: nat, buyer: Id, lease: Lease, l: Lease, recommended: Id, cited: set<Id>)
    requires i < j <= |ops| && ops[i] == Snapshot(buyer, lease) && SnapshotAttempt(At(ops, i), buyer, lease).Committed?
    requires lease in At(ops, i).issued && l in At(ops, j).issued && l.attempt == lease.attempt
    ensures lease.attempt in At(ops, j).attempts
    ensures var dependencies := SnapshotAttempt(At(ops, i), buyer, lease).result;
      FinalizeAttempt(At(ops, j), l, recommended, cited).Committed? <==>
        && l == lease && At(ops, j).now < lease.expires
        && !(exists k | i < k < j :: Finalizes(At(ops, k), ops[k], lease.attempt))
        && if AllPinsActive(At(ops, j).pointers, dependencies)
           then cited <= Identifiers(dependencies) && recommended in Products(dependencies)
           else At(ops, j).attempts[lease.attempt].depth < LAST_DEPTH
  {
    hide Inv, FencesOk, At, Apply, Finalizes, Extends, SnapshotAttempt, AllPinsActive, Identifiers, Products, DecidesWith, RetiresWith;
    FencesOnEveryRun(ops, i);
    SnapshotBelongs(At(ops, i), buyer, lease);
    NextState(ops, i);
    WaitsUntilFinalized(ops, i + 1, j, lease.attempt);
    StatesExtend(ops, i + 1, j);
    IssuedStays(At(ops, i + 1), At(ops, j));
    SnapshotLeaseFinalizesExactly(ops, i, j, buyer, lease, l);
    FinalizeNeedsFence(At(ops, j), l, recommended, cited);
    if PassesFence(At(ops, j), l, {SnapshotComplete}) {
      FinalizeCommitsExactly(ops, j, l, recommended, cited);
    }
    hide FinalizeAttempt, PassesFence;
  }

  lemma FinalizeNeedsFence(t: Tables, lease: Lease, recommended: Id, cited: set<Id>)
    ensures FinalizeAttempt(t, lease, recommended, cited).Committed? ==> PassesFence(t, lease, {SnapshotComplete})
  {
  }

  // ---------- stranded attempts ----------

  /** Something was written under the attempt, and the lease it was written under has run out before
      the attempt was finalized. */
  ghost predicate Stranded(t: Tables, a: Id) {
    && a in t.attempts && t.attempts[a].state in {Running, SnapshotComplete}
    && HasCheckpoint(t.checkpoints, a)
    && t.attempts[a].hold.Some? && t.attempts[a].hold.value.expires <= t.now
  }

  lemma StrandedRefusesWork(t: Tables, a: Id, lease: Lease, buyer: Id, owner: Id, seconds: int, sequence: nat, recommended: Id, cited: set<Id>)
    requires Stranded(t, a) && lease.attempt == a
    ensures ClaimAttempt(t, a, owner, seconds).Aborted?
    ensures SnapshotAttempt(t, buyer, lease).Aborted?
    ensures CheckpointAttempt(t, lease, sequence).Aborted?
    ensures FinalizeAttempt(t, lease, recommended, cited).Aborted?
  {
    assert forall allowed :: !PassesFence(t, lease, allowed);
  }

  lemma StrandedKeepsRow(t: Tables, op: Operation, a: Id)
    requires Inv(t) && Stranded(t, a)
    ensures a in Apply(t, op).attempts && Apply(t, op).attempts[a] == t.attempts[a]
  {
    hide Inv, HasCheckpoint;
    if WorksOn(op, a) {
      hide SnapshotAttempt, FinalizeAttempt, ClaimAttempt;
      match op
      case Claim(_, owner, seconds) => StrandedRefusesWork(t, a, Lease(a, 0, 0, 0), 0, owner, seconds, 1, 0, {});
      case Snapshot(buyer, lease) => StrandedRefusesWork(t, a, lease, buyer, 0, 1, 1, 0, {});
      case Finalize(lease, recommended, cited) => StrandedRefusesWork(t, a, lease, 0, 0, 1, 1, recommended, cited);
    } else {
      hide Apply;
      OthersKeepRow(t, op, a);
    }
  }

  lemma StrandedStays(t: Tables, op: Operation, a: Id)
    requires Inv(t) && FencesOk(t) && Stranded(t, a)
    ensures Stranded(Apply(t, op), a) && Apply(t, op).attempts[a] == t.attempts[a]
  {
    hide Inv, Extends, FencesOk, FencesExtend, HasCheckpoint, Apply;
    ApplyKeepsFences(t, op);
    ApplyExtends(t, op);
    StrandedKeepsRow(t, op, a);
    LaterHasCheckpoint(t, Apply(t, op), a);
  }

  lemma LaterHasCheckpoint(s: Tables, t: Tables, a: Id)
    requires FencesExtend(s, t) && Extends(s, t) && HasCheckpoint(s.checkpoints, a)
    ensures HasCheckpoint(t.checkpoints, a) && s.now <= t.now
  {
    hide BundlesExtend, PointersExtend, AttemptsExtend, DecisionsExtend, EngagementsExtend, IntroductionsExtend, SnapshotsExtend;
  }

  /** A stranded attempt stays as it is for the rest of the run: every claim, snapshot, checkpoint and
      finalization of it aborts, under any lease. */
  lemma {:induction false} StrandedForEver(
      ops: seq<Operation>, i: nat, j: nat, a: Id, lease: Lease, buyer: Id, owner: Id, seconds: int, sequence: nat,
      recommended: Id, cited: set<Id>)
    requires i <= j <= |ops| && Stranded(At(ops, i), a) && lease.attempt == a
    ensures Stranded(At(ops, j), a) && At(ops, j).attempts[a] == At(ops, i).attempts[a]
    ensures ClaimAttempt(At(ops, j), a, owner, seconds).Aborted?
    ensures SnapshotAttempt(At(ops, j), buyer, lease).Aborted?
    ensures CheckpointAttempt(At(ops, j), lease, sequence).Aborted?
    ensures FinalizeAttempt(At(ops, j), lease, recommended, cited).Aborted?
    decreases j
  {
    hide Inv, FencesOk, At, Apply, ClaimAttempt, SnapshotAttempt, CheckpointAttempt, FinalizeAttempt;
    if i < j {
      StrandedForEver(ops, i, j - 1, a, lease, buyer, owner, seconds, sequence, recommended, cited);
      FencesOnEveryRun(ops, j - 1);
      NextState(ops, j - 1);
      StrandedStays(At(ops, j - 1), ops[j - 1], a);
    }
    hide Stranded;
    StrandedRefusesWork(At(ops, j), a, lease, buyer, owner, seconds, sequence, recommended, cited);
  }

  lemma UnfinishedIsDeepest(t: Tables, a: Id)
    requires ChainsOk(t.attempts, t.decisions) && a in t.attempts && t.attempts[a].state !in {Stale, Completed}
    ensures exists chain :: IsChainOf(t, t.attempts[a].mission, chain) && |chain| == t.attempts[a].depth + 1
  {
    MissionHasOneChain(t, t.attempts[a].mission);
    var chain :| IsChainOf(t, t.attempts[a].mission, chain);
    var k :| 0 <= k < |chain| && chain[k] == a;
    assert !Spent(t.attempts, t.decisions, a);
    assert k == |chain| - 1;
  }

  lemma NoCurrentWhileUnfinished(t: Tables, a: Id, d: Id)
    requires ChainsOk(t.attempts, t.decisions) && a in t.attempts && t.attempts[a].state !in {Stale, Completed}
    requires d in t.decisions && t.decisions[d].mission == t.attempts[a].mission
    ensures !t.decisions[d].current
  {
    assert DecidedBy(t.attempts, t.decisions[d]);
    UnfinishedIsDeepest(t, a);
    var chain :| IsChainOf(t, t.attempts[a].mission, chain) && |chain| == t.attempts[a].depth + 1;
    var k :| 0 <= k < |chain| && chain[k] == t.decisions[d].attempt;
    var n :| 0 <= n < |chain| && chain[n] == a;
    assert n == |chain| - 1 && k != n;
    assert Spent(t.attempts, t.decisions, chain[k]);
  }

  lemma NoAttemptIsAdded(s: Tables, t: Tables, a: Id, b: Id)
    requires ChainsOk(s.attempts, s.decisions) && ChainsOk(t.attempts, t.decisions) && AttemptsExtend(s.attempts, t.attempts)
    requires a in s.attempts && s.attempts[a].state !in {Stale, Completed} && t.attempts[a].state !in {Stale, Completed}
    requires b in t.attempts && t.attempts[b].mission == s.attempts[a].mission
    ensures b in s.attempts
  {
    UnfinishedIsDeepest(s, a);
    UnfinishedIsDeepest(t, a);
    var before :| IsChainOf(s, s.attempts[a].mission, before) && |before| == s.attempts[a].depth + 1;
    var after :| IsChainOf(t, t.attempts[a].mission, after) && |after| == t.attempts[a].depth + 1;
    var k :| 0 <= k < |after| && after[k] == b;
    assert before[k] in s.attempts && s.attempts[before[k]].depth == k;
    SameDepthSameAttempt(t.attempts, before[k], b);
  }

  lemma ChainsOfStates(s: Tables, t: Tables)
    requires Inv(s) && Inv(t) && Extends(s, t)
    ensures ChainsOk(s.attempts, s.decisions) && ChainsOk(t.attempts, t.decisions) && AttemptsExtend(s.attempts, t.attempts)
  {
    hide EventsKnown, ChainsOk, LeasesOk, SnapshotsOk, IntroductionsOk, EffectsOk, IntroductionEventsOk, NoRepeats, DecisionsBindSnapshots,
         EngagementsOk, CatalogOk, BundlesExtend, PointersExtend, AttemptsExtend, DecisionsExtend, EngagementsExtend, IntroductionsExtend,
         SnapshotsExtend;
  }

  /** The mission of a stranded attempt is stuck with it: it gains no attempt, has no current decision,
      and cannot be started again, for the rest of the run. */
  lemma StrandedMissionIsStuck(ops: seq<Operation>, i: nat, j: nat, a: Id)
    requires i <= j <= |ops| && Stranded(At(ops, i), a)
    ensures var s, t, mission := At(ops, i), At(ops, j), At(ops, i).attempts[a].mission;
      && (forall b :: b in t.attempts && t.attempts[b].mission == mission ==> b in s.attempts)
      && (forall d :: d in t.decisions && t.decisions[d].mission == mission ==> !t.decisions[d].current)
      && StartMission(t, mission).Aborted?
  {
    hide At, Inv, Extends, ChainsOk, AttemptsExtend, HasCheckpoint, ClaimAttempt, SnapshotAttempt, CheckpointAttempt, FinalizeAttempt;
    StrandedForEver(ops, i, j, a, Lease(a, 0, 0, 0), 0, 0, 1, 1, 0, {});
    StatesExtend(ops, i, j);
    ChainsOfStates(At(ops, i), At(ops, j));
    var s, t, mission := At(ops, i), At(ops, j), At(ops, i).attempts[a].mission;
    forall b | b in t.attempts && t.attempts[b].mission == mission ensures b in s.attempts { NoAttemptIsAdded(s, t, a, b); }
    forall d | d in t.decisions && t.decisions[d].mission == mission ensures !t.decisions[d].current {
      NoCurrentWhileUnfinished(t, a, d);
    }
    assert a in t.attempts && t.attempts[a].mission == mission;
  }

  // ---------- a checkpoint that takes the sequence of the snapshot ----------

  /** The first sequence number is taken and there is no snapshot. */
  ghost predicate Blocked(t: Tables, a: Id) {
    a in t.attempts && CheckpointKey(a, 1) in t.checkpoints && a !in t.snapshots
  }

  lemma BlockedRefusesSnapshot(t: Tables, buyer: Id, lease: Lease)
    requires Blocked(t, lease.attempt)
    ensures SnapshotAttempt(t, buyer, lease).Aborted?
  {
    if SnapshotAttempt(t, buyer, lease).Committed? { SnapshotShape(t, buyer, lease); }
    hide SnapshotAttempt;
  }

  lemma NoOtherSnapshotIsAdded(t: Tables, op: Operation, a: Id)
    requires Inv(t) && Blocked(t, a)
    ensures a !in Apply(t, op).snapshots
  {
    hide Inv, ClaimAttempt, CheckpointAttempt, SnapshotAttempt, FinalizeAttempt;
    match op
    case Claim(b, owner, seconds) => ClaimWritesNone(t, b, owner, seconds);
    case Checkpoint(lease, sequence) => CheckpointKeepsSnapshots(t, lease, sequence);
    case Snapshot(buyer, lease) =>
      if lease.attempt == a {
        BlockedRefusesSnapshot(t, buyer, lease);
      } else if SnapshotAttempt(t, buyer, lease).Committed? {
        SnapshotShape(t, buyer, lease);
      }
    case Finalize(lease, recommended, cited) =>
      if FinalizeAttempt(t, lease, recommended, cited).Committed? { FinalizeEndsRow(t, lease, recommended, cited); }
    case _ =>
      hide Apply;
      OnlyWorkersTouchRows(t, op);
  }

  lemma CheckpointKeepsSnapshots(t: Tables, lease: Lease, sequence: nat)
    ensures After(t, CheckpointAttempt(t, lease, sequence)).snapshots == t.snapshots
  {
  }

  lemma BlockedStays(t: Tables, op: Operation, a: Id)
    requires Inv(t) && FencesOk(t) && Blocked(t, a)
    ensures Blocked(Apply(t, op), a)
  {
    ApplyKeepsFences(t, op);
    ApplyExtends(t, op);
    NoOtherSnapshotIsAdded(t, op, a);
    hide Inv, FencesOk, Apply, BundlesExtend, PointersExtend, DecisionsExtend, EngagementsExtend, IntroductionsExtend, SnapshotsExtend;
  }

  /** A worker that writes its own first checkpoint before the snapshot takes the sequence number the
      snapshot needs: the attempt never gets a snapshot and is never finalized. */
  lemma {:induction false} BlockedForEver(
      ops: seq<Operation>, i: nat, j: nat, a: Id, lease: Lease, buyer: Id, recommended: Id, cited: set<Id>)
    requires i <= j <= |ops| && Blocked(At(ops, i), a) && lease.attempt == a
    ensures Blocked(At(ops, j), a)
    ensures SnapshotAttempt(At(ops, j), buyer, lease).Aborted?
    ensures FinalizeAttempt(At(ops, j), lease, recommended, cited).Aborted?
    decreases j
  {
    hide Inv, FencesOk, At, Apply, SnapshotAttempt, FinalizeAttempt, Blocked;
    FencesOnEveryRun(ops, j);
    if i < j {
      BlockedForEver(ops, i, j - 1, a, lease, buyer, recommended, cited);
      FencesOnEveryRun(ops, j - 1);
      NextState(ops, j - 1);
      BlockedStays(At(ops, j - 1), ops[j - 1], a);
    }
    BlockedRefusesSnapshot(At(ops, j), buyer, lease);
    BlockedIsNotFinalized(At(ops, j), lease, recommended, cited);
  }

  lemma BlockedIsNotFinalized(t: Tables, lease: Lease, recommended: Id, cited: set<Id>)
    requires FencesOk(t) && Blocked(t, lease.attempt)
    ensures FinalizeAttempt(t, lease, recommended, cited).Aborted?
  {
    FinalizeNeedsFence(t, lease, recommended, cited);
    hide FinalizeAttempt;
  }
}
