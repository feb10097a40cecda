/** What an invalidation sweep leaves in every table, decision by decision. */
module QualificationWithdrawals {
  import opened Outcomes
  import opened QualificationTables
  import opened QualificationSteps
  import opened QualificationInvariants
  import opened QualificationRuns
  import opened QualificationTheorems
  import opened QualificationLimits
  import opened QualificationLeases
  import opened QualificationSweeps
  import opened QualificationOutcomes
  import opened QualificationFences

  // ---------- one pin for each product ----------

  ghost predicate SnapshotsNameOnce(snapshots: map<Id, seq<Dependency>>) {
    forall a :: a in snapshots ==> NamesEachOnce(snapshots[a])
  }

  lemma SnapshotNamesOnce(t: Tables, buyer: Id, lease: Lease)
    requires SnapshotsNameOnce(t.snapshots)
    ensures SnapshotsNameOnce(After(t, SnapshotAttempt(t, buyer, lease)).snapshots)
  {
    hide PassesFence, PinsOf, MembersOf, DependenciesOf, SnapshotOf;
  }

  lemma EndKeepsSnapshots(t: Tables, t1: Tables, a: Id)
    requires Ended(t, t1, a)
    ensures t1.snapshots == t.snapshots
  {
  }

  lemma ApplyNamesOnce(t: Tables, op: Operation)
    requires Inv(t) && SnapshotsNameOnce(t.snapshots)
    ensures SnapshotsNameOnce(Apply(t, op).snapshots)
  {
    hide Inv, SnapshotsNameOnce, RowsKept, Ended, SnapshotAttempt, FinalizeAttempt;
    match op
    case Claim(a, owner, seconds) => hide Claimable, HasCheckpoint;
    case Checkpoint(lease, sequence) => hide PassesFence;
    case Snapshot(buyer, lease) => SnapshotNamesOnce(t, buyer, lease);
    case Finalize(lease, recommended, cited) =>
      if FinalizeAttempt(t, lease, recommended, cited).Committed? {
        FinalizeEndsRow(t, lease, recommended, cited);
        EndKeepsSnapshots(t, FinalizeAttempt(t, lease, recommended, cited).tables, lease.attempt);
      }
    case _ =>
      hide Apply;
      OnlyWorkersTouchRows(t, op);
      KeptSnapshots(t, Apply(t, op));
  }

  lemma KeptSnapshots(t: Tables, t1: Tables)
    requires RowsKept(t, t1)
    ensures t1.snapshots == t.snapshots
  {
  }

  lemma NothingNamedAtStart()
    ensures SnapshotsNameOnce(EMPTY.snapshots)
  {
  }

  lemma {:induction false} NamedOnceOnEveryRun(ops: seq<Operation>, i: nat)
    requires i <= |ops|
    ensures SnapshotsNameOnce(At(ops, i).snapshots)
    decreases i
  {
    hide Inv, Apply, At, SnapshotsNameOnce;
    if i == 0 {
      NothingAtStart(ops);
      NothingNamedAtStart();
    } else {
      NamedOnceOnEveryRun(ops, i - 1);
      StatesExtend(ops, i - 1, i - 1);
      NextState(ops, i - 1);
      ApplyNamesOnce(At(ops, i - 1), ops[i - 1]);
    }
  }

  // ---------- stale decisions ----------

  ghost predicate IsPinOf(d: Decision, product: Id, pin: Dependency) {
    pin in d.dependencies && pin.kind == ProductBundle && pin.id == product
  }

  /** The decision is current and pins a bundle of the product. */
  ghost predicate IsPinned(t: Tables, product: Id, d: Id) {
    d in t.decisions && t.decisions[d].current && exists pin :: IsPinOf(t.decisions[d], product, pin)
  }

  /** It pins one that its product's pointer does not name. */
  ghost predicate IsStale(t: Tables, product: Id, d: Id) {
    d in t.decisions && exists pin :: IsPinOf(t.decisions[d], product, pin) && !IsPointedTo(t.pointers, pin)
  }

  /** Its mission goes on, and the product is still sold by the organization of the pin. */
  ghost predicate IsReplaced(t: Tables, product: Id, d: Id) {
    && IsStale(t, product, d) && product in t.pointers
    && (exists pin :: IsPinOf(t.decisions[d], product, pin) && pin.org == t.pointers[product].org)
    && t.decisions[d].mission in t.missions
    && t.missions[t.decisions[d].mission].state !in {MissionFailed, MissionCancelled}
  }

  lemma OnePin(d: Decision, product: Id, pin: Dependency, other: Dependency)
    requires NamesEachOnce(d.dependencies) && IsPinOf(d, product, pin) && IsPinOf(d, product, other)
    ensures pin == other
  {
    var i :| 0 <= i < |d.dependencies| && d.dependencies[i] == pin;
    var j :| 0 <= j < |d.dependencies| && d.dependencies[j] == other;
  }

  lemma PinIsFound(pointers: map<Id, Pointer>, d: Decision, product: Id)
    requires NamesEachOnce(d.dependencies)
    ensures forall pin :: IsPinOf(d, product, pin) <==> ProductPin(d.dependencies, product) == Some(pin)
    ensures HoldsStalePin(pointers, d, product) <==> exists pin :: IsPinOf(d, product, pin) && !IsPointedTo(pointers, pin)
  {
    var found := ProductPin(d.dependencies, product);
    forall pin | IsPinOf(d, product, pin) ensures found == Some(pin) { OnePin(d, product, pin, found.value); }
    hide ProductPin, NamesEachOnce;
    if found.Some? { assert IsPinOf(d, product, found.value); }
  }

  // ---------- what one row leaves ----------

  ghost predicate WithdrawsEngagements(before: map<Id, Engagement>, after: map<Id, Engagement>, d: Id) {
    && after.Keys == before.Keys
    && forall e :: e in before ==>
         after[e] == if before[e].decision == d && before[e].state !in {EngagementState.Introduced, Expired}
                     then before[e].(state := Invalidated) else before[e]
  }

  /** The decision is no longer current and its approval is INVALIDATED. */
  ghost predicate WithdrawsDecision(before: map<Id, Decision>, after: map<Id, Decision>, d: Id) {
    && d in before && after.Keys == before.Keys && (forall e :: e in before && e != d ==> after[e] == before[e])
    && after[d] == before[d].(current := false, approval := Invalid)
  }

  /** The mission is READY for the next attempt of the chain, which is queued, and an event says so. */
  ghost predicate Replaces(t: Tables, t1: Tables, product: Id, d: Id)
    requires d in t.decisions && t.decisions[d].attempt in t.attempts && t.decisions[d].mission in t.missions && product in t.pointers
  {
    var mission, a := t.decisions[d].mission, t.attempts[t.decisions[d].attempt];
    && t1.nextId == t.nextId + 1
    && t1.attempts == t.attempts[t.nextId :=
         Attempt(a.mission, a.root, Some(t.decisions[d].attempt), a.depth + 1, Queued, 0, None, None)]
    && t1.missions == t.missions[mission := t.missions[mission].(state := MissionReady)]
    && t1.outbox == t.outbox + [MissionMadeReady(mission, product, t.pointers[product].generation)]
  }

  ghost predicate NothingIsReplaced(t: Tables, t1: Tables) {
    t1.nextId == t.nextId && t1.attempts == t.attempts && t1.missions == t.missions && t1.outbox == t.outbox
  }

  /** What the row of one decision leaves: nothing new when its pin is still active; otherwise it and its engagements
      are withdrawn, and it is replaced when its mission goes on. */
  ghost predicate RowLeaves(t: Tables, t1: Tables, product: Id, d: Id) {
    && d in t.decisions && t.decisions[d].attempt in t.attempts
    && if !IsStale(t, product, d) then t1 == t
       else
         && WithdrawsDecision(t.decisions, t1.decisions, d) && WithdrawsEngagements(t.engagements, t1.engagements, d)
         && SameElsewhere(t, t1)
         && if IsReplaced(t, product, d) then Replaces(t, t1, product, d) else NothingIsReplaced(t, t1)
  }

  lemma RescheduleReplaces(t: Tables, product: Id, d: Id)
    requires Reschedule.requires(t, product, d) && Reschedule(t, product, d).Committed?
    requires Successors(t.attempts, t.decisions[d].attempt) == {}
    ensures Replaces(t, Reschedule(t, product, d).tables, product, d)
    ensures Reschedule(t, product, d).result == t.nextId
    ensures Reschedule(t, product, d).tables.engagements == t.engagements
  {
  }

  lemma WithdrawLeaves(t: Tables, d: Id)
    requires d in t.decisions
    ensures var t1 := Withdraw(t, d);
      && WithdrawsDecision(t.decisions, t1.decisions, d) && WithdrawsEngagements(t.engagements, t1.engagements, d)
      && SameElsewhere(t, t1) && NothingIsReplaced(t, t1)
  {
  }

  lemma LiveExactly(t: Tables, mission: Id)
    ensures MissionIsLive(t, mission) <==> mission in t.missions && t.missions[mission].state !in {MissionFailed, MissionCancelled}
  {
  }

  lemma ReplacedExactly(t: Tables, product: Id, d: Id)
    requires d in t.decisions && NamesEachOnce(t.decisions[d].dependencies) && HoldsStalePin(t.pointers, t.decisions[d], product)
    ensures IsReplaced(t, product, d) <==>
      && product in t.pointers && t.pointers[product].org == ProductPin(t.decisions[d].dependencies, product).value.org
      && MissionIsLive(t, t.decisions[d].mission)
  {
    PinIsFound(t.pointers, t.decisions[d], product);
    LiveExactly(t, t.decisions[d].mission);
    hide ProductPin, NamesEachOnce, IsPinOf, IsPointedTo, PinIsActive, MissionIsLive;
  }

  /** The decisions noted, and the replacement noted when there is one. */
  ghost predicate Notes(t: Tables, product: Id, d: Id, done: Invalidation, done1: Invalidation) {
    && done1.decisions == done.decisions + (if IsStale(t, product, d) then [d] else [])
    && done1.replacements == done.replacements + (if IsReplaced(t, product, d) then [t.nextId] else [])
  }

  lemma RowLeavesExactly(t: Tables, product: Id, d: Id, done: Invalidation)
    requires Inv(t) && d in t.decisions && t.decisions[d].current && NamesEachOnce(t.decisions[d].dependencies)
    requires ProductPin(t.decisions[d].dependencies, product).Some? && InvalidateRow(t, product, d, done).Committed?
    ensures var r := InvalidateRow(t, product, d, done);
      RowLeaves(t, r.tables, product, d) && Notes(t, product, d, done, r.result)
  {
    hide Inv, Reschedule, ProductPin, PinIsActive, IsPinOf, IsPointedTo, NamesEachOnce, WithdrawsDecision, WithdrawsEngagements,
         Replaces, IsReplaced, MissionIsLive, IsStale;
    CurrentHasNoSuccessor(t, d);
    PinIsFound(t.pointers, t.decisions[d], product);
    StaleExactly(t, product, d);
    WithdrawLeaves(t, d);
    if HoldsStalePin(t.pointers, t.decisions[d], product) {
      ReplacedExactly(t, product, d);
      if IsReplaced(t, product, d) {
        LiveExactly(t, t.decisions[d].mission);
        var t1 := Withdraw(t, d);
        RescheduleReplaces(t1, product, d);
        ReplacedAfterWithdrawal(t, t1, Reschedule(t1, product, d).tables, product, d);
      }
    } else {
      assert !IsReplaced(t, product, d) by { ReplacedIsStale(t, product, d); }
    }
  }

  lemma ReplacedIsStale(t: Tables, product: Id, d: Id)
    ensures IsReplaced(t, product, d) ==> IsStale(t, product, d)
  {
  }

  lemma StaleExactly(t: Tables, product: Id, d: Id)
    requires d in t.decisions && NamesEachOnce(t.decisions[d].dependencies)
    ensures IsStale(t, product, d) <==> HoldsStalePin(t.pointers, t.decisions[d], product)
  {
    PinIsFound(t.pointers, t.decisions[d], product);
    hide HoldsStalePin, IsPinOf, IsPointedTo;
  }

  lemma ReplacedAfterWithdrawal(t: Tables, t1: Tables, t2: Tables, product: Id, d: Id)
    requires d in t.decisions && d in t1.decisions && t1 == Withdraw(t, d)
    requires t.decisions[d].attempt in t.attempts && t.decisions[d].mission in t.missions && product in t.pointers
    requires Replaces(t1, t2, product, d)
    ensures Replaces(t, t2, product, d)
  {
  }

  // ---------- the whole sweep ----------

  /** The tables before the first row and after each one. */
  ghost predicate IsSweep(t: Tables, product: Id, rows: seq<Id>, states: seq<Tables>) {
    && |states| == |rows| + 1 && states[0] == t
    && forall k :: 0 <= k < |rows| ==> RowLeaves(states[k], states[k + 1], product, rows[k])
  }

  /** The rows that are stale at their turn, and the identifiers of the replacements, in order. */
  ghost function StaleOf(product: Id, rows: seq<Id>, states: seq<Tables>): seq<Id>
    requires |states| == |rows| + 1
  {
    if rows == [] then [] else (if IsStale(states[0], product, rows[0]) then [rows[0]] else []) + StaleOf(product, rows[1..], states[1..])
  }

  ghost function ReplacementsOf(product: Id, rows: seq<Id>, states: seq<Tables>): seq<Id>
    requires |states| == |rows| + 1
  {
    if rows == [] then []
    else (if IsReplaced(states[0], product, rows[0]) then [states[0].nextId] else []) + ReplacementsOf(product, rows[1..], states[1..])
  }

  ghost predicate NamedOnce(t: Tables, rows: seq<Id>) {
    forall d :: d in rows ==> d in t.decisions && NamesEachOnce(t.decisions[d].dependencies)
  }

  lemma FirstRowLeaves(t: Tables, product: Id, rows: seq<Id>, done: Invalidation)
    requires Inv(t) && ReadyKeysOk(t) && Sweepable(t, product, rows) && NamedOnce(t, rows) && rows != []
    requires InvalidateRow(t, product, rows[0], done).Committed?
    ensures var next := InvalidateRow(t, product, rows[0], done);
      && Inv(next.tables) && ReadyKeysOk(next.tables)
      && Sweepable(next.tables, product, rows[1..]) && NamedOnce(next.tables, rows[1..])
      && RowLeaves(t, next.tables, product, rows[0]) && Notes(t, product, rows[0], done, next.result)
  {
    hide Inv, ReadyKeysOk, InvalidateRow, ProductPin, RowLeaves, Blocks, HoldsStalePin, NamesEachOnce, Notes, SameAttempts, SameLiveness;
    RowOutcome(t, product, rows[0], done);
    RowLeavesExactly(t, product, rows[0], done);
    InvalidateRowKeepsInv(t, product, rows[0], done);
    RestIsSweepable(t, InvalidateRow(t, product, rows[0], done).tables, product, rows);
  }

  lemma SweepableRows(t: Tables, product: Id, rows: seq<Id>)
    requires Sweepable(t, product, rows)
    ensures forall d :: d in rows ==> d in t.decisions && ProductPin(t.decisions[d].dependencies, product).Some?
  {
  }

  lemma {:induction false} RowsLeave(t: Tables, product: Id, rows: seq<Id>, done: Invalidation) returns (states: seq<Tables>)
    requires Inv(t) && ReadyKeysOk(t) && Sweepable(t, product, rows) && NamedOnce(t, rows)
    requires InvalidateRows(t, product, rows, done).Committed?
    ensures IsSweep(t, product, rows, states) && states[|rows|] == InvalidateRows(t, product, rows, done).tables
    ensures var r := InvalidateRows(t, product, rows, done).result;
      && r.decisions == done.decisions + StaleOf(product, rows, states)
      && r.replacements == done.replacements + ReplacementsOf(product, rows, states)
    decreases |rows|
  {
    hide Inv, ReadyKeysOk, InvalidateRow, ProductPin, RowLeaves, IsStale, IsReplaced, Sweepable, NamedOnce;
    SweepableRows(t, product, rows);
    states := [t];
    if rows != [] {
      var next := InvalidateRow(t, product, rows[0], done);
      FirstRowLeaves(t, product, rows, done);
      var rest := RowsLeave(next.tables, product, rows[1..], next.result);
      states := [t] + rest;
      assert states[1..] == rest;
      SweepStarts(t, next.tables, product, rows, rest);
    }
  }

  lemma SweepStarts(t: Tables, t1: Tables, product: Id, rows: seq<Id>, rest: seq<Tables>)
    requires rows != [] && RowLeaves(t, t1, product, rows[0]) && IsSweep(t1, product, rows[1..], rest)
    ensures IsSweep(t, product, rows, [t] + rest)
  {
    hide RowLeaves;
    var states := [t] + rest;
    forall k | 0 <= k < |rows| ensures RowLeaves(states[k], states[k + 1], product, rows[k]) {
      if k > 0 { assert RowLeaves(rest[k - 1], rest[(k - 1) + 1], product, rows[1..][k - 1]); }
    }
  }

  /** The rows of the sweep: the current decisions that pin the product, each once, in order of their identifiers. */
  ghost predicate AreRows(t: Tables, product: Id, rows: seq<Id>) {
    (forall d :: d in rows <==> IsPinned(t, product, d)) && InOrder(rows)
  }

  lemma RowsAreListed(t: Tables, product: Id)
    requires DecisionsBindSnapshots(t.decisions, t.snapshots) && SnapshotsNameOnce(t.snapshots)
    ensures var rows := RowsToInvalidate(t.decisions, product);
      AreRows(t, product, rows) && Sweepable(t, product, rows) && NamedOnce(t, rows)
  {
    var rows := RowsToInvalidate(t.decisions, product);
    AscendingIsOrdered(PinnedCurrentDecisions(t.decisions, product));
    forall d | d in t.decisions ensures NamesEachOnce(t.decisions[d].dependencies) {}
    hide NamesEachOnce, ProductPin, IsPinOf;
    forall d | d in t.decisions
      ensures (exists pin :: IsPinOf(t.decisions[d], product, pin)) <==> ProductPin(t.decisions[d].dependencies, product).Some?
    {
      PinIsFound(t.pointers, t.decisions[d], product);
    }
  }

  /** At every moment of every run a sweep that commits goes through the current decisions that pin the product, in
      order, and leaves after each row exactly what that row calls for; it reports the decisions it withdrew and the
      attempts that replace theirs. */
  lemma SweepExactly(ops: seq<Operation>, i: nat, product: Id) returns (rows: seq<Id>, states: seq<Tables>)
    requires i <= |ops|
    ensures AreRows(At(ops, i), product, rows)
    ensures var t := At(ops, i); var r := InvalidateDecisions(t, product);
      r.Committed? ==>
        && IsSweep(t, product, rows, states) && Apply(t, Invalidate(product)) == states[|rows|]
        && r.result == Invalidation(StaleOf(product, rows, states), ReplacementsOf(product, rows, states))
  {
    hide Inv, ReadyKeysOk, At, InvalidateRows, Sweepable, NamedOnce, SnapshotsNameOnce, AreRows, RowLeaves, RowsToInvalidate;
    var t := At(ops, i);
    ReadyKeysOnEveryRun(ops, i);
    NamedOnceOnEveryRun(ops, i);
    DecisionsBind(t);
    rows := RowsToInvalidate(t.decisions, product);
    RowsAreListed(t, product);
    states := [];
    if InvalidateDecisions(t, product).Committed? {
      states := RowsLeave(t, product, rows, Invalidation([], []));
    }
  }

  lemma DecisionsBind(t: Tables)
    requires Inv(t)
    ensures DecisionsBindSnapshots(t.decisions, t.snapshots)
  {
    hide IdsBelow, NoRepeats, CatalogOk, ChainsOk, LeasesOk, SnapshotsOk, EngagementsOk, IntroductionsOk, EffectsOk,
         IntroductionEventsOk, EventsKnown, DecisionsBindSnapshots;
  }
}
