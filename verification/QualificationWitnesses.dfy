/** Concrete runs that reach the states the limits speak of: a second activation that aborts, attempts
    that are stranded or blocked, a finalization and a sweep that abort at the last depth. */
module QualificationWitnesses {
  import opened Outcomes
  import opened QualificationTables
  import opened QualificationSteps
  import opened QualificationInvariants
  import opened QualificationRuns
  import opened QualificationTheorems
  import opened QualificationLimits
  import opened QualificationLeases
  import opened QualificationSweeps

  // ---------- one mission over one product ----------

  const SELLER: Id := 1
  const PRODUCT: Id := 2
  const BUYER: Id := 5
  const WORKER: Id := 7

  function MembersWith(hash: nat): seq<Member> {
    [Member(0, Evidence, 9, Raw(hash))]
  }

  function DigestWith(hash: nat): Digest {
    OfMembers(MembersWith(hash))
  }

  const MISSION := Mission(10, Raw(10), 11, Raw(11), 12, Raw(12), MissionRunning)

  /** Bundle 0 is published, mission 1 opened for it, and attempt 2 is its root. */
  const OPENING := [Publish(SELLER, PRODUCT, DigestWith(0), MembersWith(0)), OpenFor(MISSION), Start(1)]

  function LeaseOn(attempt: Id): Lease {
    Lease(attempt, 1, WORKER, 60)
  }

  /** A worker pins bundle 0 to a queued attempt, claims the attempt and takes its snapshot. */
  function Work(attempt: Id): seq<Operation> {
    [PinTo(attempt, map[PRODUCT := Pin(SELLER, 0, DigestWith(0))]), Claim(attempt, WORKER, 60), Snapshot(BUYER, LeaseOn(attempt))]
  }

  function Round(attempt: Id): seq<Operation> {
    Work(attempt) + [Finalize(LeaseOn(attempt), PRODUCT, {})]
  }

  const INPUTS := [
    Dependency(BuyerContext, BUYER, 10, 10, Raw(10)),
    Dependency(RequirementBrief, BUYER, 11, 11, Raw(11)),
    Dependency(ProcurementPolicy, BUYER, 12, 12, Raw(12)),
    Dependency(ProductBundle, SELLER, PRODUCT, 0, DigestWith(0)),
    Dependency(Evidence, SELLER, 9, 0, Raw(0)) ]

  // ---------- a second activation ----------

  const ACTIVATED := [Publish(SELLER, PRODUCT, DigestWith(0), MembersWith(0)), Activate(SELLER, 0, DigestWith(0))]

  /** The bundle is READY and is activated; the same call made again aborts. */
  lemma SecondActivationAborts()
    ensures ActivateBundle(At(ACTIVATED, 1), SELLER, 0, DigestWith(0)).Committed?
    ensures ActivateBundle(At(ACTIVATED, 2), SELLER, 0, DigestWith(0)).Aborted?
  {
    NextState(ACTIVATED, 0);
    NextState(ACTIVATED, 1);
    NothingAtStart(ACTIVATED);
    hide At, Run;
    assert At(ACTIVATED, 1).bundles == map[0 := Bundle(SELLER, PRODUCT, DigestWith(0), MembersWith(0), Ready)];
    assert At(ACTIVATED, 2).bundles[0].state == Active;
    ActivationHappensOnce(ACTIVATED, 2, SELLER, 0, DigestWith(0));
  }

  // ---------- one round of work ----------

  /** Attempt `a` of mission 1 is queued at the given depth, nothing is attached to it, and the next
      identifier follows it. */
  ghost predicate Poised(t: Tables, a: Id, depth: nat) {
    && t.now == 0 && t.nextId == a + 1
    && 0 in t.bundles && t.bundles[0].org == SELLER && t.bundles[0].product == PRODUCT
    && t.bundles[0].digest == DigestWith(0) && t.bundles[0].members == MembersWith(0)
    && 1 in t.missions && t.missions[1] == MISSION
    && a in t.attempts && t.attempts[a].mission == 1 && t.attempts[a].depth == depth
    && t.attempts[a].state == Queued && t.attempts[a].generation == 0 && t.attempts[a].hold == None
    && (forall k :: k in t.pins || k in t.snapshots ==> k < a)
    && (forall k :: k in t.checkpoints ==> k.attempt < a)
  }

  /** What the work on attempt `a` leaves: its snapshot is complete and the worker holds the lease. */
  ghost predicate Worked(t: Tables, t1: Tables, a: Id)
    requires a in t.attempts
  {
    && t1.now == t.now && t1.nextId == t.nextId && t1.bundles == t.bundles && t1.pointers == t.pointers
    && t1.missions == t.missions && t1.decisions == t.decisions
    && t1.attempts == t.attempts[a := t.attempts[a].(
         state := SnapshotComplete, generation := 1, hold := Some(Hold(WORKER, 60)), inputDigest := Some(OfSnapshot(INPUTS)))]
    && t1.snapshots == t.snapshots[a := INPUTS]
    && t1.pins.Keys == t.pins.Keys + {a}
    && t1.checkpoints == t.checkpoints + {CheckpointKey(a, 1)}
  }

  lemma OnePinnedProduct(pins: map<Id, Pin>)
    requires pins.Keys == {PRODUCT}
    ensures PinnedProducts(pins) == [PRODUCT]
  {
    var products := PinnedProducts(pins);
    AscendingIsOrdered(pins.Keys);
    assert PRODUCT in products;
    forall i | 0 <= i < |products| ensures products[i] == PRODUCT && i == 0 {
      assert products[i] in pins.Keys && products[0] in pins.Keys;
    }
    var last := |products| - 1;
    assert products[last] == PRODUCT && last == 0;
  }

  lemma InputsOfWork(t: Tables, a: Id)
    requires PinsOf(t, a) == map[PRODUCT := Pin(SELLER, 0, DigestWith(0))]
    requires MembersOf(t, SELLER, 0) == MembersWith(0)
    ensures DependenciesOf(t, BUYER, a, MISSION) == INPUTS && DistinctKeys(INPUTS)
  {
    var pins := PinsOf(t, a);
    OnePinnedProduct(pins);
    assert MemberDependencies(t, pins, [PRODUCT][1..]) == [];
    assert MemberDependencies(t, pins, [PRODUCT]) == [INPUTS[4]];
    assert BundleDependencies(pins, [PRODUCT]) == [INPUTS[3]];
  }

  lemma WorkSteps(t: Tables, a: Id)
    ensures Run(t, Work(a)) == Apply(Apply(Apply(t, Work(a)[0]), Work(a)[1]), Work(a)[2])
  {
    hide Apply;
    var ops := Work(a);
    assert ops == [ops[0]] + [ops[1]] + [ops[2]];
    RunSplits(t, [ops[0]] + [ops[1]], [ops[2]]);
    RunSplits(t, [ops[0]], [ops[1]]);
    RunOnce(t, ops[0]);
    RunOnce(Apply(t, ops[0]), ops[1]);
    RunOnce(Apply(Apply(t, ops[0]), ops[1]), ops[2]);
  }

  /** After the pin and the claim. */
  ghost function Claimed(t: Tables, a: Id): Tables
    requires a in t.attempts
  {
    t.(pins := t.pins[a := map[PRODUCT := Pin(SELLER, 0, DigestWith(0))]],
       attempts := t.attempts[a := t.attempts[a].(state := Running, generation := 1, hold := Some(Hold(WORKER, 60)))],
       issued := t.issued + {LeaseOn(a)})
  }

  lemma ClaimStep(t: Tables, a: Id, depth: nat)
    requires Poised(t, a, depth)
    ensures Apply(Apply(t, Work(a)[0]), Work(a)[1]) == Claimed(t, a)
  {
    assert PinsOf(t, a) == map[];
    assert Apply(t, Work(a)[0]) == t.(pins := t.pins[a := map[PRODUCT := Pin(SELLER, 0, DigestWith(0))]]);
  }

  lemma SnapshotStep(t: Tables, a: Id)
    requires t.now == 0 && SnapshotOf(t, a) == [] && CheckpointKey(a, 1) !in t.checkpoints
    requires a in t.attempts && t.attempts[a].mission in t.missions && t.missions[t.attempts[a].mission] == MISSION
    requires t.attempts[a].state == Running && t.attempts[a].generation == 1 && t.attempts[a].hold == Some(Hold(WORKER, 60))
    requires PinsOf(t, a) == map[PRODUCT := Pin(SELLER, 0, DigestWith(0))] && MembersOf(t, SELLER, 0) == MembersWith(0)
    ensures Apply(t, Work(a)[2]) == t.(
      snapshots := t.snapshots[a := INPUTS],
      attempts := t.attempts[a := t.attempts[a].(state := SnapshotComplete, inputDigest := Some(OfSnapshot(INPUTS)))],
      checkpoints := t.checkpoints + {CheckpointKey(a, 1)})
  {
    InputsOfWork(t, a);
    hide DependenciesOf, DistinctKeys, Run, PinsOf, MembersOf;
    assert PassesFence(t, LeaseOn(a), {Running, SnapshotComplete});
    hide PassesFence;
    assert map[PRODUCT := Pin(SELLER, 0, DigestWith(0))] != map[] by { assert PRODUCT in map[PRODUCT := Pin(SELLER, 0, DigestWith(0))]; }
  }

  lemma WorkCompletes(t: Tables, a: Id, depth: nat)
    requires Poised(t, a, depth)
    ensures Worked(t, Run(t, Work(a)), a)
  {
    hide Apply, Run;
    WorkSteps(t, a);
    ClaimStep(t, a, depth);
    SnapshotStep(Claimed(t, a), a);
  }

  // ---------- stranded and blocked attempts ----------

  lemma OpeningPoises()
    ensures Poised(Run(EMPTY, OPENING), 2, 0)
    ensures Run(EMPTY, OPENING).pointers == map[] && Run(EMPTY, OPENING).bundles[0].state == Ready
  {
    var t1 := Apply(EMPTY, OPENING[0]);
    var t2 := Apply(t1, OPENING[1]);
    assert OPENING[1..][1..] == [OPENING[2]];
    assert Run(t2, [OPENING[2]]) == Apply(t2, OPENING[2]) by { RunOnce(t2, OPENING[2]); }
  }

  lemma RunIsGood(ops: seq<Operation>)
    ensures Inv(Run(EMPTY, ops))
  {
    hide Inv, Run;
    EmptyIsGood();
    RunKeepsInv(EMPTY, ops);
  }

  const WORKED := OPENING + Work(2)

  /** The worker holds the lease under which it took the snapshot, and cannot renew it. */
  lemma RenewalAborts(seconds: int)
    ensures PassesFence(At(WORKED, |WORKED|), LeaseOn(2), {SnapshotComplete})
    ensures ClaimAttempt(At(WORKED, |WORKED|), 2, WORKER, seconds).Aborted?
  {
    hide Apply, Run;
    OpeningPoises();
    var start := Run(EMPTY, OPENING);
    WorkCompletes(start, 2, 0);
    RunSplits(EMPTY, OPENING, Work(2));
    assert WORKED[..|WORKED|] == WORKED;
    var worked := Run(start, Work(2));
    WorkedIsFenced(start, worked, 2, 0);
    assert CheckpointKey(2, 1) in worked.checkpoints;
    hide PassesFence, Poised, Worked;
  }

  const WAITED := WORKED + [Tick(60)]

  /** A minute after the snapshot the lease has run out: the attempt is stranded, and no lease, claim or
      finalization can take it further. */
  lemma ExpiryStrands(lease: Lease, owner: Id, seconds: int, recommended: Id, cited: set<Id>)
    ensures var t := At(WAITED, |WAITED|);
      && Stranded(t, 2) && t.attempts[2].state == SnapshotComplete
      && ClaimAttempt(t, 2, owner, seconds).Aborted?
      && (lease.attempt == 2 ==> FinalizeAttempt(t, lease, recommended, cited).Aborted?)
  {
    hide Apply, Run, ClaimAttempt, FinalizeAttempt;
    OpeningPoises();
    var start := Run(EMPTY, OPENING);
    WorkCompletes(start, 2, 0);
    RunSplits(EMPTY, OPENING, Work(2));
    var worked := Run(start, Work(2));
    RunSplits(EMPTY, WORKED, [Tick(60)]);
    RunOnce(worked, Tick(60));
    assert WAITED[..|WAITED|] == WAITED;
    TimePasses(worked);
    var t := At(WAITED, |WAITED|);
    assert CheckpointKey(2, 1) in t.checkpoints;
    StrandedRefusesWork(t, 2, LeaseOn(2), 0, owner, seconds, 1, recommended, cited);
    if lease.attempt == 2 { StrandedRefusesWork(t, 2, lease, 0, owner, seconds, 1, recommended, cited); }
    hide Stranded, Poised, Worked;
  }

  lemma TimePasses(t: Tables)
    ensures Apply(t, Tick(60)) == t.(now := t.now + 60)
  {
  }

  const CHECKED_EARLY := OPENING + Work(2)[..2] + [Checkpoint(LeaseOn(2), 1)]

  /** A worker that writes its first checkpoint before the snapshot is refused the snapshot. */
  lemma EarlyCheckpointBlocks()
    ensures var t := At(CHECKED_EARLY, |CHECKED_EARLY|);
      && Blocked(t, 2) && PassesFence(t, LeaseOn(2), {Running})
      && SnapshotAttempt(t, BUYER, LeaseOn(2)).Aborted?
  {
    hide Run, SnapshotAttempt;
    OpeningPoises();
    var start := Run(EMPTY, OPENING);
    ClaimStep(start, 2, 0);
    var claimed := Claimed(start, 2);
    var claiming, check := Work(2)[..2], Checkpoint(LeaseOn(2), 1);
    RunSplits(EMPTY, OPENING, claiming);
    assert claiming == [Work(2)[0]] + [Work(2)[1]];
    RunSplits(start, [Work(2)[0]], [Work(2)[1]]);
    RunOnce(start, Work(2)[0]);
    RunOnce(Apply(start, Work(2)[0]), Work(2)[1]);
    RunSplits(EMPTY, OPENING + claiming, [check]);
    RunOnce(claimed, check);
    assert CHECKED_EARLY[..|CHECKED_EARLY|] == CHECKED_EARLY;
    CheckpointIsWritten(claimed);
    hide Apply;
    BlockedRefusesSnapshot(At(CHECKED_EARLY, |CHECKED_EARLY|), BUYER, LeaseOn(2));
  }

  lemma CheckpointIsWritten(t: Tables)
    requires PassesFence(t, LeaseOn(2), {Running}) && CheckpointKey(2, 1) !in t.checkpoints
    ensures Apply(t, Checkpoint(LeaseOn(2), 1)) == t.(checkpoints := t.checkpoints + {CheckpointKey(2, 1)})
  {
    assert PassesFence(t, LeaseOn(2), {Running, SnapshotComplete});
  }

  // ---------- at the last depth ----------

  lemma WorkedIsFenced(t: Tables, t1: Tables, a: Id, depth: nat)
    requires Poised(t, a, depth) && Worked(t, t1, a)
    ensures PassesFence(t1, LeaseOn(a), {SnapshotComplete}) && t1.snapshots[a] == INPUTS
  {
  }

  lemma RoundFinalizes(t: Tables, a: Id)
    ensures Run(t, Round(a)) == After(Run(t, Work(a)), FinalizeAttempt(Run(t, Work(a)), LeaseOn(a), PRODUCT, {}))
  {
    hide Run, FinalizeAttempt;
    RunSplits(t, Work(a), [Finalize(LeaseOn(a), PRODUCT, {})]);
    RunOnce(Run(t, Work(a)), Finalize(LeaseOn(a), PRODUCT, {}));
  }

  lemma StaleFinalize(t: Tables, a: Id, depth: nat)
    requires Inv(t) && PassesFence(t, LeaseOn(a), {SnapshotComplete}) && a in t.snapshots && t.snapshots[a] == INPUTS
    requires t.pointers == map[] && t.attempts[a].depth < LAST_DEPTH
    ensures FinalizeAttempt(t, LeaseOn(a), PRODUCT, {}).Committed?
    ensures RetiresWith(t, FinalizeAttempt(t, LeaseOn(a), PRODUCT, {}), a)
  {
    hide Inv, FinalizeAttempt;
    FinalizationOutcome(t, LeaseOn(a), PRODUCT, {});
    assert INPUTS[3] in INPUTS && !PinIsActive(t.pointers, INPUTS[3]);
  }

  lemma ReplacementIsPoised(t: Tables, worked: Tables, after: Tables, a: Id, depth: nat)
    requires Poised(t, a, depth) && Worked(t, worked, a)
    requires after == worked.(
      nextId := worked.nextId + 1,
      attempts := worked.attempts[a := worked.attempts[a].(state := Stale)][worked.nextId := Replacement(worked.attempts, a)],
      outbox := after.outbox)
    ensures Poised(after, a + 1, depth + 1)
  {
  }

  /** While the product has no active bundle, a round above the last depth ends STALE and poises the
      replacement one below. */
  lemma StaleRound(t: Tables, a: Id, depth: nat)
    requires Inv(t) && Poised(t, a, depth) && t.pointers == map[] && depth < LAST_DEPTH
    ensures Poised(Run(t, Round(a)), a + 1, depth + 1)
    ensures Run(t, Round(a)).pointers == map[] && Run(t, Round(a)).bundles == t.bundles
  {
    hide Inv, Run, FinalizeAttempt;
    RoundFinalizes(t, a);
    RunKeepsInv(t, Work(a));
    WorkCompletes(t, a, depth);
    var worked := Run(t, Work(a));
    WorkedIsFenced(t, worked, a, depth);
    StaleFinalize(worked, a, depth);
    ReplacementIsPoised(t, worked, Run(t, Round(a)), a, depth);
    hide Poised;
  }

  lemma DecidingFinalize(t: Tables, a: Id)
    requires Inv(t) && PassesFence(t, LeaseOn(a), {SnapshotComplete}) && a in t.snapshots && t.snapshots[a] == INPUTS
    requires t.pointers == map[PRODUCT := Pointer(SELLER, 0, DigestWith(0), 1)]
    ensures FinalizeAttempt(t, LeaseOn(a), PRODUCT, {}).Committed?
    ensures DecidesWith(t, FinalizeAttempt(t, LeaseOn(a), PRODUCT, {}), a, PRODUCT, {})
  {
    hide Inv, FinalizeAttempt;
    FinalizationOutcome(t, LeaseOn(a), PRODUCT, {});
    assert AllPinsActive(t.pointers, INPUTS);
    assert INPUTS[3] in INPUTS && INPUTS[3].id == PRODUCT;
    assert PRODUCT in Products(INPUTS);
  }

  /** With bundle 0 active, the round decides. */
  lemma DecidingRound(t: Tables, a: Id, depth: nat)
    requires Inv(t) && Poised(t, a, depth) && t.pointers == map[PRODUCT := Pointer(SELLER, 0, DigestWith(0), 1)]
    ensures var t1 := Run(t, Round(a));
      && t1.nextId == t.nextId + 1 && t1.bundles == t.bundles && t1.pointers == t.pointers && t1.missions == t.missions
      && DecidedFor(t1, t.nextId, a, depth)
  {
    hide Inv, Run, FinalizeAttempt;
    RoundFinalizes(t, a);
    RunKeepsInv(t, Work(a));
    WorkCompletes(t, a, depth);
    var worked := Run(t, Work(a));
    WorkedIsFenced(t, worked, a, depth);
    DecidingFinalize(worked, a);
    hide PassesFence, Poised;
  }

  ghost predicate DecidedFor(t: Tables, d: Id, a: Id, depth: nat) {
    && d in t.decisions && t.decisions[d].current && t.decisions[d].attempt == a
    && t.decisions[d].mission == 1 && t.decisions[d].dependencies == INPUTS
    && a in t.attempts && t.attempts[a].depth == depth
  }

  /** Three stale rounds leave the replacement at the last depth. */
  const THREE_STALE := OPENING + Round(2) + Round(3) + Round(4)

  lemma ThreeStaleRounds()
    ensures Poised(Run(EMPTY, THREE_STALE), 5, LAST_DEPTH)
    ensures Run(EMPTY, THREE_STALE).pointers == map[] && Run(EMPTY, THREE_STALE).bundles == Run(EMPTY, OPENING).bundles
  {
    hide Inv, Apply, Run, Poised;
    OpeningPoises();
    RunIsGood(OPENING);
    RunSplits(EMPTY, OPENING, Round(2));
    StaleRound(Run(EMPTY, OPENING), 2, 0);
    RunIsGood(OPENING + Round(2));
    RunSplits(EMPTY, OPENING + Round(2), Round(3));
    StaleRound(Run(EMPTY, OPENING + Round(2)), 3, 1);
    RunIsGood(OPENING + Round(2) + Round(3));
    RunSplits(EMPTY, OPENING + Round(2) + Round(3), Round(4));
    StaleRound(Run(EMPTY, OPENING + Round(2) + Round(3)), 4, 2);
  }

  const LAST_WORK := THREE_STALE + Work(5)

  /** The fourth attempt has its snapshot, no bundle is active, and its finalization aborts. */
  lemma LastFinalizationAborts()
    ensures PassesFence(At(LAST_WORK, |LAST_WORK|), LeaseOn(5), {SnapshotComplete})
    ensures FinalizeAttempt(At(LAST_WORK, |LAST_WORK|), LeaseOn(5), PRODUCT, {}).Aborted?
  {
    hide Inv, Apply, Run;
    ThreeStaleRounds();
    var start := Run(EMPTY, THREE_STALE);
    RunSplits(EMPTY, THREE_STALE, Work(5));
    RunIsGood(LAST_WORK);
    WorkCompletes(start, 5, LAST_DEPTH);
    assert LAST_WORK[..|LAST_WORK|] == LAST_WORK;
    var worked := Run(start, Work(5));
    WorkedIsFenced(start, worked, 5, LAST_DEPTH);
    FinalizationOutcome(worked, LeaseOn(5), PRODUCT, {});
    assert INPUTS[3] in INPUTS && !PinIsActive(worked.pointers, INPUTS[3]);
    hide FinalizeAttempt, PassesFence;
  }

  const DECIDED_LAST := THREE_STALE + [Activate(SELLER, 0, DigestWith(0))] + Round(5)

  const REPLACED := DECIDED_LAST + [Publish(SELLER, PRODUCT, DigestWith(1), MembersWith(1)), Activate(SELLER, 7, DigestWith(1))]

  lemma ActivationEffect(t: Tables, id: Id, expected: Digest)
    requires ActivateBundle(t, SELLER, id, expected).Committed?
    ensures var t1 := Apply(t, Activate(SELLER, id, expected));
      && id in t.bundles && id in t1.bundles && t1.bundles[id] == t.bundles[id].(state := Active)
      && t1.pointers == PointTo(t.pointers, t.bundles[id], id)
      && t1 == t.(bundles := t1.bundles, pointers := t1.pointers, outbox := t1.outbox)
  {
    hide PointTo, Retire;
  }

  lemma FirstActivation(t: Tables, a: Id, depth: nat)
    requires Inv(t) && Poised(t, a, depth) && t.pointers == map[] && t.bundles[0].state == Ready
    ensures var t1 := Apply(t, Activate(SELLER, 0, DigestWith(0)));
      Poised(t1, a, depth) && t1.pointers == map[PRODUCT := Pointer(SELLER, 0, DigestWith(0), 1)]
  {
    hide Inv, Apply, ActivateBundle;
    ActivationNeedsReady(t, SELLER, 0, DigestWith(0));
    ActivationEffect(t, 0, DigestWith(0));
  }

  const SECOND := Bundle(SELLER, PRODUCT, DigestWith(1), MembersWith(1), Ready)

  lemma SecondActivation(t: Tables)
    requires Inv(t) && 7 in t.bundles && t.bundles[7] == SECOND
    requires t.pointers == map[PRODUCT := Pointer(SELLER, 0, DigestWith(0), 1)]
    ensures var t1 := Apply(t, Activate(SELLER, 7, DigestWith(1)));
      && t1.decisions == t.decisions && t1.attempts == t.attempts && t1.missions == t.missions
      && t1.pointers == map[PRODUCT := Pointer(SELLER, 7, DigestWith(1), 2)]
  {
    hide Inv, Apply, ActivateBundle;
    ActivationNeedsReady(t, SELLER, 7, DigestWith(1));
    ActivationEffect(t, 7, DigestWith(1));
  }

  lemma SecondBundle(t: Tables)
    requires Inv(t) && t.nextId == 7
    requires t.pointers == map[PRODUCT := Pointer(SELLER, 0, DigestWith(0), 1)]
    ensures var t1 := Apply(t, Publish(SELLER, PRODUCT, DigestWith(1), MembersWith(1)));
      var t2 := Apply(t1, Activate(SELLER, 7, DigestWith(1)));
      && t2.decisions == t.decisions && t2.attempts == t.attempts && t2.missions == t.missions
      && t2.pointers == map[PRODUCT := Pointer(SELLER, 7, DigestWith(1), 2)]
  {
    hide Inv;
    var publish := Publish(SELLER, PRODUCT, DigestWith(1), MembersWith(1));
    ApplyKeepsInv(t, publish);
    assert Apply(t, publish) == t.(nextId := 8, bundles := t.bundles[7 := SECOND]);
    hide Apply;
    SecondActivation(Apply(t, publish));
  }

  lemma PinOfInputs()
    ensures ProductPin(INPUTS, PRODUCT) == Some(INPUTS[3])
  {
    var pin := ProductPin(INPUTS, PRODUCT);
    assert INPUTS[3] in INPUTS;
    assert pin.Some?;
    assert pin.value in INPUTS && pin.value.kind == ProductBundle;
  }

  lemma DecidedLast()
    ensures DecidedFor(Run(EMPTY, DECIDED_LAST), 6, 5, LAST_DEPTH)
    ensures Inv(Run(EMPTY, DECIDED_LAST)) && Run(EMPTY, DECIDED_LAST).nextId == 7
    ensures Run(EMPTY, DECIDED_LAST).pointers == map[PRODUCT := Pointer(SELLER, 0, DigestWith(0), 1)]
    ensures MissionIsLive(Run(EMPTY, DECIDED_LAST), 1)
  {
    hide Inv, Apply, Run, DecidedFor;
    ThreeStaleRounds();
    OpeningPoises();
    RunIsGood(DECIDED_LAST);
    RunIsGood(THREE_STALE);
    var start := Run(EMPTY, THREE_STALE);
    var activate := Activate(SELLER, 0, DigestWith(0));
    RunSplits(EMPTY, THREE_STALE, [activate]);
    RunOnce(start, activate);
    FirstActivation(start, 5, LAST_DEPTH);
    RunIsGood(THREE_STALE + [activate]);
    RunSplits(EMPTY, THREE_STALE + [activate], Round(5));
    DecidingRound(Apply(start, activate), 5, LAST_DEPTH);
  }

  /** Three stale rounds, a decision by the fourth attempt, and then a new bundle of the product: the
      sweep over the product aborts, so the decision stays current although its pin is not active. */
  lemma SweepAbortIsReached()
    ensures InvalidateDecisions(At(REPLACED, |REPLACED|), PRODUCT).Aborted?
    ensures var t := At(REPLACED, |REPLACED|);
      6 in t.decisions && t.decisions[6].current && !AllPinsActive(t.pointers, t.decisions[6].dependencies)
  {
    hide Inv, Apply, Run;
    DecidedLast();
    var t := Run(EMPTY, DECIDED_LAST);
    SecondBundle(t);
    var publish, activate := Publish(SELLER, PRODUCT, DigestWith(1), MembersWith(1)), Activate(SELLER, 7, DigestWith(1));
    RunSplits(EMPTY, DECIDED_LAST, [publish, activate]);
    RunSplits(t, [publish], [activate]);
    assert [publish, activate] == [publish] + [activate];
    RunOnce(t, publish);
    RunOnce(Apply(t, publish), activate);
    assert REPLACED[..|REPLACED|] == REPLACED;
    var t2 := At(REPLACED, |REPLACED|);
    PinOfInputs();
    assert INPUTS[3] in INPUTS && !PinIsActive(t2.pointers, INPUTS[3]);
    hide ProductPin, InvalidateDecisions;
    assert Blocks(t2, PRODUCT, 6);
    assert 6 in PinnedCurrentDecisions(t2.decisions, PRODUCT);
    SweepAbortsExactly(REPLACED, |REPLACED|, PRODUCT);
  }
}
