/** What one invalidation sweep over a product's pinned decisions does, and exactly when it aborts. */
module QualificationSweeps {
  import opened Outcomes
  import opened QualificationTables
  import opened QualificationSteps
  import opened QualificationInvariants
  import opened QualificationRuns
  import opened QualificationTheorems

  // ---------- the key of a ready event is never already taken ----------

  ghost predicate HoldsStalePin(pointers: map<Id, Pointer>, decision: Decision, product: Id) {
    ProductPin(decision.dependencies, product).Some? && !PinIsActive(pointers, ProductPin(decision.dependencies, product).value)
  }

  /** Ready events never run ahead of the pointer they mention. */
  ghost predicate ReadyKeysBounded(pointers: map<Id, Pointer>, outbox: seq<EventKey>) {
    forall k :: k in outbox && k.MissionMadeReady? ==> k.product in pointers && k.generation <= pointers[k.product].generation
  }

  /** While a mission's current decision holds a stale pin, the event that would announce it is not sent. */
  ghost predicate ReadyKeysUnused(decisions: map<Id, Decision>, pointers: map<Id, Pointer>, outbox: seq<EventKey>) {
    forall d, p {:trigger HoldsStalePin(pointers, decisions[d], p)} ::
      d in decisions && decisions[d].current && p in pointers && HoldsStalePin(pointers, decisions[d], p) ==>
        MissionMadeReady(decisions[d].mission, p, pointers[p].generation) !in outbox
  }

  ghost predicate ReadyKeysOk(t: Tables) {
    ReadyKeysBounded(t.pointers, t.outbox) && ReadyKeysUnused(t.decisions, t.pointers, t.outbox)
  }

  ghost predicate SameReadyKeys(a: seq<EventKey>, b: seq<EventKey>) {
    forall k :: k in b && k.MissionMadeReady? ==> k in a
  }

  lemma SteadyStep(t: Tables, t1: Tables)
    requires ReadyKeysOk(t) && t1.pointers == t.pointers && SameReadyKeys(t.outbox, t1.outbox)
    requires forall d :: d in t1.decisions && t1.decisions[d].current ==>
      || (d in t.decisions && t.decisions[d].current && t.decisions[d].mission == t1.decisions[d].mission
          && t.decisions[d].dependencies == t1.decisions[d].dependencies)
      || AllPinsActive(t1.pointers, t1.decisions[d].dependencies)
    ensures ReadyKeysOk(t1)
  {
    hide ProductPin;
    forall d, p | d in t1.decisions && t1.decisions[d].current && p in t1.pointers && HoldsStalePin(t1.pointers, t1.decisions[d], p)
      ensures MissionMadeReady(t1.decisions[d].mission, p, t1.pointers[p].generation) !in t1.outbox
    {
      if d in t.decisions && t.decisions[d].current && t.decisions[d].dependencies == t1.decisions[d].dependencies {
        assert HoldsStalePin(t.pointers, t.decisions[d], p);
      }
    }
  }

  lemma ActivateKeepsReadyKeys(t: Tables, org: Id, id: Id, expected: Digest)
    requires ReadyKeysOk(t) && ActivateBundle(t, org, id, expected).Committed?
    ensures ReadyKeysOk(ActivateBundle(t, org, id, expected).tables)
  {
    hide ProductPin, Retire;
    var t1 := ActivateBundle(t, org, id, expected).tables;
    var product := t.bundles[id].product;
    assert SameReadyKeys(t.outbox, t1.outbox);
    forall d, p | d in t1.decisions && t1.decisions[d].current && p in t1.pointers && HoldsStalePin(t1.pointers, t1.decisions[d], p)
      ensures MissionMadeReady(t1.decisions[d].mission, p, t1.pointers[p].generation) !in t1.outbox
    {
      if p in t.pointers && t.pointers[p] == t1.pointers[p] {
        assert HoldsStalePin(t.pointers, t.decisions[d], p);
      }
    }
  }

  lemma RetireStaleKeepsReadyKeys(t: Tables, attempt: Id)
    requires ReadyKeysOk(t) && attempt in t.attempts && RetireStale(t, attempt).Committed?
    ensures ReadyKeysOk(RetireStale(t, attempt).tables)
  {
    hide ReadyKeysOk, ReplacementFor;
    var t1 := RetireStale(t, attempt).tables;
    assert t1.pointers == t.pointers && t1.decisions == t.decisions && SameReadyKeys(t.outbox, t1.outbox);
    SteadyStep(t, t1);
  }

  lemma FinalizeKeepsReadyKeys(t: Tables, lease: Lease, recommended: Id, cited: set<Id>)
    requires ReadyKeysOk(t) && FinalizeAttempt(t, lease, recommended, cited).Committed?
    ensures ReadyKeysOk(FinalizeAttempt(t, lease, recommended, cited).tables)
  {
    hide ReadyKeysOk, AllPinsActive, Identifiers, Products, RetireStale;
    if AllPinsActive(t.pointers, SnapshotOf(t, lease.attempt)) {
      var t1 := FinalizeAttempt(t, lease, recommended, cited).tables;
      assert SameReadyKeys(t.outbox, t1.outbox);
      SteadyStep(t, t1);
    } else {
      RetireStaleKeepsReadyKeys(t, lease.attempt);
    }
  }

  lemma ClaimIsSteady(t: Tables, attempt: Id, owner: Id, seconds: int)
    ensures var t1 := After(t, ClaimAttempt(t, attempt, owner, seconds));
      t1.pointers == t.pointers && t1.decisions == t.decisions && t1.outbox == t.outbox
  {
  }

  lemma IntroduceIsSteady(t: Tables, e: Id, d: Id, inputDigest: Digest, fieldsHash: Id)
    ensures var t1 := After(t, Introduce(t, e, d, inputDigest, fieldsHash));
      t1.pointers == t.pointers && t1.decisions == t.decisions && SameReadyKeys(t.outbox, t1.outbox)
  {
  }

  lemma SnapshotIsSteady(t: Tables, org: Id, lease: Lease)
    ensures var t1 := After(t, SnapshotAttempt(t, org, lease));
      t1.pointers == t.pointers && t1.decisions == t.decisions && t1.outbox == t.outbox
  {
  }

  lemma JudgementIsSteady(t: Tables, d: Id, approval: Approval, nextId: Id, engagements: map<Id, Engagement>)
    requires ReadyKeysOk(t) && d in t.decisions
    ensures ReadyKeysOk(t.(nextId := nextId, decisions := t.decisions[d := t.decisions[d].(approval := approval)], engagements := engagements))
  {
    hide ReadyKeysOk;
    SteadyStep(t, t.(nextId := nextId, decisions := t.decisions[d := t.decisions[d].(approval := approval)], engagements := engagements));
  }

  lemma JudgementKeepsReadyKeys(t: Tables, d: Id)
    requires ReadyKeysOk(t)
    ensures ReadyKeysOk(After(t, RejectDecision(t, d))) && ReadyKeysOk(After(t, ApproveDecision(t, d)))
  {
    hide ReadyKeysOk, AllPinsActive, Products, PinsOf;
    if d in t.decisions {
      JudgementIsSteady(t, d, Rejected, t.nextId, t.engagements);
      JudgementIsSteady(t, d, Approved, t.nextId + 1, After(t, ApproveDecision(t, d)).engagements);
    }
  }

  // ---------- one row of a sweep ----------

  /** The row cannot be replaced: its chain is at the last depth. */
  ghost predicate Blocks(t: Tables, product: Id, d: Id) {
    && d in t.decisions && HoldsStalePin(t.pointers, t.decisions[d], product)
    && product in t.pointers && t.pointers[product].org == ProductPin(t.decisions[d].dependencies, product).value.org
    && t.decisions[d].attempt in t.attempts && t.attempts[t.decisions[d].attempt].depth >= LAST_DEPTH
    && MissionIsLive(t, t.decisions[d].mission)
  }

  function Withdrawn(d: Decision): Decision {
    d.(current := false, approval := Invalid)
  }

  ghost predicate SameAttempts(a: map<Id, Attempt>, b: map<Id, Attempt>) {
    forall k :: k in a ==> k in b && a[k] == b[k]
  }

  ghost predicate SameLiveness(s: Tables, t: Tables) {
    forall m :: MissionIsLive(s, m) <==> MissionIsLive(t, m)
  }

  /** A current decision's attempt has no successor, before and after the decision is withdrawn. */
  lemma CurrentHasNoSuccessor(t: Tables, d: Id)
    requires Inv(t) && d in t.decisions && t.decisions[d].current
    ensures t.decisions[d].attempt in t.attempts && Successors(t.attempts, t.decisions[d].attempt) == {}
  {
    hide LeasesOk, SnapshotsOk, IntroductionsOk, EffectsOk, IntroductionEventsOk, NoRepeats, DecisionsBindSnapshots, EngagementsOk, CatalogOk, EventsKnown;
    assert DecidedBy(t.attempts, t.decisions[d]);
    var a := t.decisions[d].attempt;
    forall b ensures b !in Successors(t.attempts, a) {
      assert b in Successors(t.attempts, a) <==> Follows(t.attempts, b, a);
    }
  }

  lemma RescheduleOutcome(t: Tables, product: Id, d: Id)
    requires t.nextId !in t.attempts && Reschedule.requires(t, product, d)
    requires Successors(t.attempts, t.decisions[d].attempt) == {} && MissionIsLive(t, t.decisions[d].mission)
    requires MissionMadeReady(t.decisions[d].mission, product, t.pointers[product].generation) !in t.outbox
    ensures Reschedule(t, product, d).Aborted? <==> t.attempts[t.decisions[d].attempt].depth >= LAST_DEPTH
    ensures Reschedule(t, product, d).Committed? ==>
      var t1 := Reschedule(t, product, d).tables;
      && SameAttempts(t.attempts, t1.attempts) && SameLiveness(t, t1) && t1.pointers == t.pointers && t1.decisions == t.decisions
      && t1.outbox == t.outbox + [MissionMadeReady(t.decisions[d].mission, product, t.pointers[product].generation)]
  {
  }

  lemma WithdrawOutcome(t: Tables, product: Id, d: Id)
    requires ReadyKeysOk(t) && d in t.decisions
    ensures var t1 := Withdraw(t, d);
      ReadyKeysOk(t1) && t1.decisions == t.decisions[d := Withdrawn(t.decisions[d])] && SameLiveness(t, t1)
  {
    hide ReadyKeysOk;
    SteadyStep(t, Withdraw(t, d));
  }

  /** Sending the ready event of a mission without a current decision. */
  lemma ReadyEventKeepsReadyKeys(t: Tables, t1: Tables, mission: Id, product: Id)
    requires ReadyKeysOk(t) && product in t.pointers
    requires forall e :: e in t.decisions && t.decisions[e].current ==> t.decisions[e].mission != mission
    requires t1.pointers == t.pointers && t1.decisions == t.decisions
    requires t1.outbox == t.outbox + [MissionMadeReady(mission, product, t.pointers[product].generation)]
    ensures ReadyKeysOk(t1)
  {
    hide ProductPin;
  }

  /** The effect of one row: skipped, withdrawn, or blocking the whole sweep. */
  lemma RowOutcome(t: Tables, product: Id, d: Id, done: Invalidation)
    requires Inv(t) && ReadyKeysOk(t) && d in t.decisions && t.decisions[d].current
    requires ProductPin(t.decisions[d].dependencies, product).Some?
    ensures InvalidateRow(t, product, d, done).Aborted? <==> Blocks(t, product, d)
    ensures InvalidateRow(t, product, d, done).Committed? ==>
      var r := InvalidateRow(t, product, d, done); var stale := HoldsStalePin(t.pointers, t.decisions[d], product);
      && r.tables.decisions == (if stale then t.decisions[d := Withdrawn(t.decisions[d])] else t.decisions)
      && r.result.decisions == (if stale then done.decisions + [d] else done.decisions)
      && ReadyKeysOk(r.tables) && SameAttempts(t.attempts, r.tables.attempts) && SameLiveness(t, r.tables)
      && r.tables.pointers == t.pointers
  {
    hide Inv, ReadyKeysOk, Reschedule, ProductPin, PinIsActive, ReplacementFor;
    FreshIds(t);
    if HoldsStalePin(t.pointers, t.decisions[d], product) {
      CurrentHasNoSuccessor(t, d);
      WithdrawOutcome(t, product, d);
      var t1 := Withdraw(t, d);
      var pin := ProductPin(t.decisions[d].dependencies, product).value;
      if product in t.pointers && t.pointers[product].org == pin.org && MissionIsLive(t, t.decisions[d].mission) {
        KeyIsUnused(t, product, d);
        RescheduleOutcome(t1, product, d);
        if Reschedule(t1, product, d).Committed? {
          WithdrawnLeavesNoCurrent(t, d);
          ReadyEventKeepsReadyKeys(t1, Reschedule(t1, product, d).tables, t.decisions[d].mission, product);
        }
      }
    }
  }

  lemma KeyIsUnused(t: Tables, product: Id, d: Id)
    requires ReadyKeysOk(t) && d in t.decisions && t.decisions[d].current && product in t.pointers
    requires HoldsStalePin(t.pointers, t.decisions[d], product)
    ensures MissionMadeReady(t.decisions[d].mission, product, t.pointers[product].generation) !in t.outbox
  {
  }

  lemma WithdrawnLeavesNoCurrent(t: Tables, d: Id)
    requires Inv(t) && d in t.decisions && t.decisions[d].current
    ensures forall e :: e in Withdraw(t, d).decisions && Withdraw(t, d).decisions[e].current
              ==> Withdraw(t, d).decisions[e].mission != t.decisions[d].mission
  {
    hide LeasesOk, SnapshotsOk, IntroductionsOk, EffectsOk, IntroductionEventsOk, NoRepeats, DecisionsBindSnapshots, EngagementsOk, CatalogOk, EventsKnown, ChainsOk;
    forall e | e in t.decisions && t.decisions[e].current && t.decisions[e].mission == t.decisions[d].mission ensures e == d {
      CurrentIsUnique(t, d, e);
    }
  }

  // ---------- a whole sweep ----------

  /** The stale ones among the rows, in row order. */
  ghost function StaleRows(t: Tables, product: Id, rows: seq<Id>): seq<Id>
    requires forall d :: d in rows ==> d in t.decisions
  {
    if rows == [] then []
    else (if HoldsStalePin(t.pointers, t.decisions[rows[0]], product) then [rows[0]] else []) + StaleRows(t, product, rows[1..])
  }

  ghost predicate Sweepable(t: Tables, product: Id, rows: seq<Id>) {
    && (forall d :: d in rows ==>
          d in t.decisions && t.decisions[d].current && ProductPin(t.decisions[d].dependencies, product).Some?)
    && (forall i, j :: 0 <= i < j < |rows| ==> rows[i] != rows[j])
  }

  /** What a sweep over `rows` leaves of a decision. */
  ghost function Swept(t: Tables, product: Id, rows: seq<Id>, d: Id): Decision
    requires d in t.decisions
  {
    if d in rows && HoldsStalePin(t.pointers, t.decisions[d], product) then Withdrawn(t.decisions[d]) else t.decisions[d]
  }

  lemma {:induction false} StaleRowsFramed(s: Tables, t: Tables, product: Id, rows: seq<Id>)
    requires forall d :: d in rows ==> d in s.decisions && d in t.decisions && s.decisions[d] == t.decisions[d]
    requires s.pointers == t.pointers
    ensures StaleRows(s, product, rows) == StaleRows(t, product, rows)
    decreases |rows|
  {
    if rows != [] { StaleRowsFramed(s, t, product, rows[1..]); }
  }

  lemma BlocksFramed(s: Tables, t: Tables, product: Id, d: Id)
    requires d in s.decisions && d in t.decisions && s.decisions[d] == t.decisions[d] && s.pointers == t.pointers
    requires SameAttempts(s.attempts, t.attempts) && SameLiveness(s, t) && s.decisions[d].attempt in s.attempts
    ensures Blocks(s, product, d) <==> Blocks(t, product, d)
  {
    hide ProductPin, PinIsActive, MissionIsLive;
    assert s.attempts[s.decisions[d].attempt] == t.attempts[s.decisions[d].attempt];
    assert MissionIsLive(s, s.decisions[d].mission) <==> MissionIsLive(t, s.decisions[d].mission);
  }

  lemma AttemptsOfDecisionsExist(t: Tables)
    requires Inv(t)
    ensures forall d :: d in t.decisions ==> t.decisions[d].attempt in t.attempts
  {
    hide LeasesOk, SnapshotsOk, IntroductionsOk, EffectsOk, IntroductionEventsOk, NoRepeats, DecisionsBindSnapshots, EngagementsOk, CatalogOk, EventsKnown;
    forall d | d in t.decisions ensures t.decisions[d].attempt in t.attempts { assert DecidedBy(t.attempts, t.decisions[d]); }
  }

  ghost predicate SweepResult(t: Tables, product: Id, rows: seq<Id>, done: Invalidation, r: Outcome<Invalidation>)
    requires forall d :: d in rows ==> d in t.decisions
  {
    && (r.Aborted? <==> exists d :: d in rows && Blocks(t, product, d))
    && (r.Committed? ==>
          && r.result.decisions == done.decisions + StaleRows(t, product, rows)
          && r.tables.decisions.Keys == t.decisions.Keys
          && (forall d :: d in t.decisions ==> r.tables.decisions[d] == Swept(t, product, rows, d))
          && ReadyKeysOk(r.tables))
  }

  /** What the first row leaves for the others. */
  ghost predicate RowDone(t: Tables, t1: Tables, product: Id, d: Id)
    requires d in t.decisions
  {
    && t1.decisions == (if HoldsStalePin(t.pointers, t.decisions[d], product) then t.decisions[d := Withdrawn(t.decisions[d])] else t.decisions)
    && SameAttempts(t.attempts, t1.attempts) && SameLiveness(t, t1) && t1.pointers == t.pointers
  }

  lemma RestIsSweepable(t: Tables, t1: Tables, product: Id, rows: seq<Id>)
    requires rows != [] && Sweepable(t, product, rows) && RowDone(t, t1, product, rows[0])
    ensures Sweepable(t1, product, rows[1..]) && rows[0] !in rows[1..]
    ensures forall d :: d in rows[1..] ==> d in t.decisions && t1.decisions[d] == t.decisions[d]
  {
    hide HoldsStalePin, ProductPin, SameAttempts, SameLiveness;
    var rest := rows[1..];
    forall d | d in rest ensures d != rows[0] {
      var i :| 0 <= i < |rest| && rest[i] == d;
      assert rows[i + 1] == d;
    }
  }

  lemma SweepComposes(t: Tables, t1: Tables, product: Id, rows: seq<Id>, done: Invalidation, done1: Invalidation, r: Outcome<Invalidation>)
    requires Inv(t) && rows != [] && Sweepable(t, product, rows) && RowDone(t, t1, product, rows[0])
    requires Sweepable(t1, product, rows[1..]) && !Blocks(t, product, rows[0])
    requires done1.decisions == done.decisions + StaleRows(t, product, rows[..1])
    requires SweepResult(t1, product, rows[1..], done1, r)
    ensures SweepResult(t, product, rows, done, r)
  {
    hide Inv, Blocks, ReadyKeysOk, HoldsStalePin, ProductPin, SameAttempts, SameLiveness, StaleRows, Swept;
    var rest := rows[1..];
    RestIsSweepable(t, t1, product, rows);
    StaleRowsFramed(t, t1, product, rest);
    StaleRowsSplit(t, product, rows);
    RestBlocksAlike(t, t1, product, rows);
    RestDecides(t, t1, product, rows);
    SweptInSteps(t, t1, product, rows);
    if r.Committed? {
      assert t1.decisions.Keys == t.decisions.Keys;
      forall d | d in t.decisions ensures r.tables.decisions[d] == Swept(t, product, rows, d) {
        assert r.tables.decisions[d] == Swept(t1, product, rest, d);
      }
    }
  }

  lemma StaleRowsSplit(t: Tables, product: Id, rows: seq<Id>)
    requires rows != [] && forall d :: d in rows ==> d in t.decisions
    ensures StaleRows(t, product, rows) == StaleRows(t, product, rows[..1]) + StaleRows(t, product, rows[1..])
  {
    assert StaleRows(t, product, rows[..1][1..]) == [];
  }

  lemma RestBlocksAlike(t: Tables, t1: Tables, product: Id, rows: seq<Id>)
    requires Inv(t) && rows != [] && Sweepable(t, product, rows) && RowDone(t, t1, product, rows[0])
    ensures forall d :: d in rows[1..] ==> (Blocks(t, product, d) <==> Blocks(t1, product, d))
  {
    hide Inv, Blocks, HoldsStalePin, ProductPin;
    AttemptsOfDecisionsExist(t);
    RestIsSweepable(t, t1, product, rows);
    forall d | d in rows[1..] ensures Blocks(t, product, d) <==> Blocks(t1, product, d) { BlocksFramed(t, t1, product, d); }
  }

  lemma {:induction false} RowsOutcome(t: Tables, product: Id, rows: seq<Id>, done: Invalidation)
    requires Inv(t) && ReadyKeysOk(t) && Sweepable(t, product, rows)
    ensures SweepResult(t, product, rows, done, InvalidateRows(t, product, rows, done))
    decreases |rows|
  {
    hide Inv, ReadyKeysOk, InvalidateRow, ProductPin, Blocks, HoldsStalePin;
    if rows != [] {
      RowOutcome(t, product, rows[0], done);
      var next := InvalidateRow(t, product, rows[0], done);
      if next.Committed? {
        InvalidateRowKeepsInv(t, product, rows[0], done);
        hide SameAttempts, SameLiveness;
        RestIsSweepable(t, next.tables, product, rows);
        RowsOutcome(next.tables, product, rows[1..], next.result);
        hide SweepResult, Sweepable;
        SweepComposes(t, next.tables, product, rows, done, next.result, InvalidateRows(next.tables, product, rows[1..], next.result));
      }
    }
  }

  lemma RestDecides(t: Tables, t1: Tables, product: Id, rows: seq<Id>)
    requires rows != [] && !Blocks(t, product, rows[0])
    requires forall d :: d in rows[1..] ==> (Blocks(t, product, d) <==> Blocks(t1, product, d))
    ensures (exists d :: d in rows && Blocks(t, product, d)) <==> (exists d :: d in rows[1..] && Blocks(t1, product, d))
  {
    hide Blocks;
    if d :| d in rows && Blocks(t, product, d) {
      assert d in rows[1..];
    }
  }

  lemma SweptInSteps(t: Tables, t1: Tables, product: Id, rows: seq<Id>)
    requires rows != [] && rows[0] in t.decisions && rows[0] !in rows[1..] && t1.pointers == t.pointers
    requires t1.decisions == if HoldsStalePin(t.pointers, t.decisions[rows[0]], product)
                             then t.decisions[rows[0] := Withdrawn(t.decisions[rows[0]])] else t.decisions
    ensures forall d :: d in t.decisions ==> d in t1.decisions && Swept(t1, product, rows[1..], d) == Swept(t, product, rows, d)
  {
    hide HoldsStalePin;
  }

  ghost predicate InOrder(ids: seq<Id>) {
    forall i, j :: 0 <= i < j < |ids| ==> ids[i] < ids[j]
  }

  /** A sweep aborts, changing nothing, exactly when some stale row sits at the last depth of a live
      mission's chain; otherwise it withdraws exactly the stale rows, lists them once each in order of
      their identifiers, and leaves every other decision. */
  lemma SweepOutcome(t: Tables, product: Id)
    requires Inv(t) && ReadyKeysOk(t)
    ensures InvalidateDecisions(t, product).Aborted?
       <==> exists d :: d in PinnedCurrentDecisions(t.decisions, product) && Blocks(t, product, d)
    ensures InvalidateDecisions(t, product).Committed? ==>
      var r := InvalidateDecisions(t, product);
      && r.tables.decisions.Keys == t.decisions.Keys
      && (forall d :: d in t.decisions ==>
            (r.tables.decisions[d] == if t.decisions[d].current && HoldsStalePin(t.pointers, t.decisions[d], product)
                                      then Withdrawn(t.decisions[d]) else t.decisions[d]))
      && (forall d :: d in r.result.decisions <==> d in t.decisions && t.decisions[d].current && HoldsStalePin(t.pointers, t.decisions[d], product))
      && InOrder(r.result.decisions)
      && ReadyKeysOk(r.tables)
  {
    hide Inv, ReadyKeysOk, Blocks, InvalidateRows;
    var rows := RowsToInvalidate(t.decisions, product);
    AscendingIsOrdered(PinnedCurrentDecisions(t.decisions, product));
    hide ProductPin;
    RowsOutcome(t, product, rows, Invalidation([], []));
    StaleRowsMembers(t, product, rows);
    StaleRowsInOrder(t, product, rows);
  }

  lemma {:induction false} StaleRowsMembers(t: Tables, product: Id, rows: seq<Id>)
    requires forall d :: d in rows ==> d in t.decisions
    ensures forall d :: d in StaleRows(t, product, rows) <==> d in rows && HoldsStalePin(t.pointers, t.decisions[d], product)
    decreases |rows|
  {
    hide HoldsStalePin;
    if rows != [] { StaleRowsMembers(t, product, rows[1..]); }
  }

  lemma {:induction false} StaleRowsInOrder(t: Tables, product: Id, rows: seq<Id>)
    requires InOrder(rows) && forall d :: d in rows ==> d in t.decisions
    ensures InOrder(StaleRows(t, product, rows))
    decreases |rows|
  {
    hide HoldsStalePin;
    if rows != [] {
      StaleRowsInOrder(t, product, rows[1..]);
      StaleRowsMembers(t, product, rows[1..]);
      LeastFirst(rows[0], StaleRows(t, product, rows[1..]));
    }
  }

  lemma LeastFirst(first: Id, rest: seq<Id>)
    requires InOrder(rest) && forall d :: d in rest ==> first < d
    ensures InOrder([first] + rest)
  {
    var all := [first] + rest;
    forall i, j | 0 <= i < j < |all| ensures all[i] < all[j] { assert all[j] == rest[j - 1] && rest[j - 1] in rest; }
  }

  // ---------- over every run ----------

  lemma ApplyKeepsReadyKeys(t: Tables, op: Operation)
    requires Inv(t) && ReadyKeysOk(t)
    ensures ReadyKeysOk(Apply(t, op))
  {
    hide Inv, ReadyKeysOk;
    match op
    case Activate(org, bundle, expected) =>
      hide ActivateBundle;
      if ActivateBundle(t, org, bundle, expected).Committed? { ActivateKeepsReadyKeys(t, org, bundle, expected); }
    case Claim(attempt, owner, seconds) =>
      hide ClaimAttempt;
      ClaimIsSteady(t, attempt, owner, seconds);
      SteadyStep(t, Apply(t, op));
    case Snapshot(buyer, lease) =>
      hide SnapshotAttempt;
      SnapshotIsSteady(t, buyer, lease);
      SteadyStep(t, Apply(t, op));
    case Finalize(lease, recommended, cited) =>
      hide FinalizeAttempt;
      if FinalizeAttempt(t, lease, recommended, cited).Committed? { FinalizeKeepsReadyKeys(t, lease, recommended, cited); }
    case Invalidate(product) =>
      hide InvalidateDecisions, Blocks, HoldsStalePin;
      SweepOutcome(t, product);
    case Reject(decision) =>
      hide RejectDecision, ApproveDecision;
      JudgementKeepsReadyKeys(t, decision);
    case Approve(decision) =>
      hide RejectDecision, ApproveDecision;
      JudgementKeepsReadyKeys(t, decision);
    case MakeIntroduction(engagement, decision, inputDigest, fieldsHash) =>
      hide Introduce;
      IntroduceIsSteady(t, engagement, decision, inputDigest, fieldsHash);
      SteadyStep(t, Apply(t, op));
    case _ =>
      hide Apply;
      OtherChangeKeepsHistory(t, op);
      SteadyStep(t, Apply(t, op));
  }

  lemma NoReadyKeysAtStart()
    ensures ReadyKeysOk(EMPTY)
  {
  }

  lemma {:induction false} ReadyKeysOnEveryRun(ops: seq<Operation>, i: nat)
    requires i <= |ops|
    ensures Inv(At(ops, i)) && ReadyKeysOk(At(ops, i))
    decreases i
  {
    hide Inv, ReadyKeysOk, Apply, At;
    StatesExtend(ops, i, i);
    if i == 0 {
      NothingAtStart(ops);
      NoReadyKeysAtStart();
    } else {
      ReadyKeysOnEveryRun(ops, i - 1);
      NextState(ops, i - 1);
      ApplyKeepsReadyKeys(At(ops, i - 1), ops[i - 1]);
    }
  }

  /** At every moment of every run, an invalidation sweep aborts exactly when one of its stale rows
      belongs to a live mission whose chain is exhausted. */
  lemma SweepAbortsExactly(ops: seq<Operation>, i: nat, product: Id)
    requires i <= |ops|
    ensures InvalidateDecisions(At(ops, i), product).Aborted?
       <==> exists d :: d in PinnedCurrentDecisions(At(ops, i).decisions, product) && Blocks(At(ops, i), product, d)
  {
    hide Inv, ReadyKeysOk, At, Blocks, InvalidateDecisions;
    ReadyKeysOnEveryRun(ops, i);
    SweepOutcome(At(ops, i), product);
  }

  /** A sweep that commits leaves no current decision on an older bundle of the product, and running
      it again withdraws nothing and schedules nothing. */
  lemma SweepLeavesNothingStale(ops: seq<Operation>, i: nat, product: Id)
    requires i < |ops| && ops[i] == Invalidate(product) && InvalidateDecisions(At(ops, i), product).Committed?
    ensures var t := At(ops, i + 1);
      forall d :: d in t.decisions && t.decisions[d].current ==> !HoldsStalePin(t.pointers, t.decisions[d], product)
    ensures InvalidateDecisions(At(ops, i + 1), product) == Committed(At(ops, i + 1), Invalidation([], []))
  {
    hide Inv, ReadyKeysOk, At, Blocks, InvalidateRows, ProductPin;
    ReadyKeysOnEveryRun(ops, i);
    SweepOutcome(At(ops, i), product);
    NextState(ops, i);
    IdleRows(At(ops, i + 1), product, RowsToInvalidate(At(ops, i + 1).decisions, product), Invalidation([], []));
  }

  lemma {:induction false} IdleRows(t: Tables, product: Id, rows: seq<Id>, done: Invalidation)
    requires forall d :: d in rows ==>
      && d in t.decisions && ProductPin(t.decisions[d].dependencies, product).Some?
      && PinIsActive(t.pointers, ProductPin(t.decisions[d].dependencies, product).value)
    ensures InvalidateRows(t, product, rows, done) == Committed(t, done)
    decreases |rows|
  {
    hide ProductPin, PinIsActive;
    if rows != [] { IdleRows(t, product, rows[1..], done); }
  }
}
