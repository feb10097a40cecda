/** Every repository call, and every change made beside the repository, as a function from the
    tables before it to its outcome. */
module QualificationSteps {
  import opened Outcomes
  import opened QualificationTables

  const LAST_DEPTH := 3
  const DAY := 86400

  // ---------- bundle activation ----------

  function Retire(bundles: map<Id, Bundle>, id: Id): map<Id, Bundle> {
    if id in bundles && bundles[id].state == Active then bundles[id := bundles[id].(state := Superseded)] else bundles
  }

  function PointTo(pointers: map<Id, Pointer>, bundle: Bundle, id: Id): map<Id, Pointer> {
    if bundle.product !in pointers then
      pointers[bundle.product := Pointer(bundle.org, id, bundle.digest, 1)]
    else if pointers[bundle.product].bundle != id then
      var before := pointers[bundle.product];
      pointers[bundle.product := before.(bundle := id, digest := bundle.digest, generation := before.generation + 1)]
    else pointers
  }

  function ActivateBundle(t: Tables, org: Id, id: Id, expected: Digest): Outcome<Id> {
    if id !in t.bundles || t.bundles[id].org != org then Aborted(NotFound) else
    var bundle := t.bundles[id];
    if bundle.digest != expected then Aborted(Conflict)
    else if bundle.state != Ready && bundle.state != Active then Aborted(Conflict)
    else if bundle.members == [] || OfMembers(bundle.members) != bundle.digest then Aborted(Conflict)
    else if bundle.product in t.pointers && t.pointers[bundle.product].org != org then Aborted(IntegrityViolation)
    else if BundleActivated(id, bundle.digest) in t.outbox then Aborted(IntegrityViolation)
    else
      var retired := if bundle.product in t.pointers && t.pointers[bundle.product].bundle != id
                     then Retire(t.bundles, t.pointers[bundle.product].bundle) else t.bundles;
      Committed(
        t.(bundles := retired[id := bundle.(state := Active)],
           pointers := PointTo(t.pointers, bundle, id),
           outbox := t.outbox + [BundleActivated(id, bundle.digest)]),
        id)
  }

  // ---------- replacement attempts ----------

  function ReplacementFor(t: Tables, attempt: Id): (r: Outcome<Id>)
    requires attempt in t.attempts
    ensures r.Committed? ==> r.tables == t.(nextId := r.tables.nextId, attempts := r.tables.attempts)
  {
    var successors := Successors(t.attempts, attempt);
    var a := t.attempts[attempt];
    if successors != {} then
      LeastExists(successors);
      var existing :| IsLeast(existing, successors);
      Committed(t, existing)
    else if a.depth >= LAST_DEPTH then Aborted(Conflict)
    else
      var replacement := Attempt(a.mission, a.root, Some(attempt), a.depth + 1, Queued, 0, None, None);
      Committed(t.(nextId := t.nextId + 1, attempts := t.attempts[t.nextId := replacement]), t.nextId)
  }

  // ---------- invalidation of decisions pinned to an older bundle ----------

  datatype Invalidation = Invalidation(decisions: seq<Id>, replacements: seq<Id>)

  /** The rows of the join: current decisions that pin the product. */
  function PinnedCurrentDecisions(decisions: map<Id, Decision>, product: Id): set<Id> {
    set d | d in decisions && decisions[d].current && ProductPin(decisions[d].dependencies, product).Some?
  }

  function WithdrawEngagements(engagements: map<Id, Engagement>, decision: Id): map<Id, Engagement> {
    map e | e in engagements ::
      if engagements[e].decision == decision && engagements[e].state != Introduced && engagements[e].state != Expired
      then engagements[e].(state := Invalidated) else engagements[e]
  }

  /** Decisions are kept, with the same dependencies. */
  predicate SamePins(before: map<Id, Decision>, after: map<Id, Decision>) {
    before.Keys == after.Keys && forall d :: d in before ==> after[d].dependencies == before[d].dependencies
  }

  function Withdraw(t: Tables, decision: Id): (r: Tables)
    requires decision in t.decisions
    ensures SamePins(t.decisions, r.decisions)
  {
    t.(decisions := t.decisions[decision := t.decisions[decision].(current := false, approval := Invalid)],
       engagements := WithdrawEngagements(t.engagements, decision))
  }

  predicate MissionIsLive(t: Tables, mission: Id) {
    mission in t.missions && t.missions[mission].state != MissionFailed && t.missions[mission].state != MissionCancelled
  }

  function Reschedule(t: Tables, product: Id, decision: Id): (r: Outcome<Id>)
    requires decision in t.decisions && t.decisions[decision].attempt in t.attempts
    requires t.decisions[decision].mission in t.missions
    requires product in t.pointers
    ensures r.Committed? ==> r.tables.decisions == t.decisions && SameElsewhere(t, r.tables)
  {
    var mission := t.decisions[decision].mission;
    match ReplacementFor(t, t.decisions[decision].attempt)
    case Aborted(e) => Aborted(e)
    case Committed(t1, replacement) =>
      var key := MissionMadeReady(mission, product, t.pointers[product].generation);
      if key in t1.outbox then Aborted(IntegrityViolation)
      else Committed(
        t1.(missions := t1.missions[mission := t1.missions[mission].(state := MissionReady)],
            outbox := t1.outbox + [key]),
        replacement)
  }

  /** Invalidation touches missions, attempts, decisions, engagements and the outbox, nothing else. */
  predicate SameElsewhere(t: Tables, t1: Tables) {
    && t1.now == t.now && t1.bundles == t.bundles && t1.pointers == t.pointers && t1.pins == t.pins
    && t1.snapshots == t.snapshots && t1.checkpoints == t.checkpoints && t1.issued == t.issued
    && t1.consents == t.consents && t1.introductions == t.introductions && t1.effects == t.effects
  }

  function InvalidateRow(t: Tables, product: Id, decision: Id, done: Invalidation): (r: Outcome<Invalidation>)
    requires decision in t.decisions && ProductPin(t.decisions[decision].dependencies, product).Some?
    ensures r.Committed? ==> SamePins(t.decisions, r.tables.decisions) && SameElsewhere(t, r.tables)
  {
    var row := t.decisions[decision];
    var pin := ProductPin(row.dependencies, product).value;
    if PinIsActive(t.pointers, pin) then Committed(t, done) else
    var t1 := Withdraw(t, decision);
    var noted := done.(decisions := done.decisions + [decision]);
    if product !in t.pointers || t.pointers[product].org != pin.org then Committed(t1, noted)
    else if row.attempt !in t.attempts || !MissionIsLive(t, row.mission) then Committed(t1, noted)
    else
      match Reschedule(t1, product, decision)
      case Aborted(e) => Aborted(e)
      case Committed(t2, replacement) =>
        Committed(t2, noted.(replacements := noted.replacements + [replacement]))
  }

  function InvalidateRows(t: Tables, product: Id, rows: seq<Id>, done: Invalidation): (r: Outcome<Invalidation>)
    requires forall d :: d in rows ==> d in t.decisions && ProductPin(t.decisions[d].dependencies, product).Some?
    ensures r.Committed? ==> SameElsewhere(t, r.tables)
    decreases |rows|
  {
    if rows == [] then Committed(t, done) else
    match InvalidateRow(t, product, rows[0], done)
    case Aborted(e) => Aborted(e)
    case Committed(t1, done1) => InvalidateRows(t1, product, rows[1..], done1)
  }

  function RowsToInvalidate(decisions: map<Id, Decision>, product: Id): (rows: seq<Id>)
    ensures forall d :: d in rows <==> d in PinnedCurrentDecisions(decisions, product)
  {
    AscendingIsOrdered(PinnedCurrentDecisions(decisions, product));
    Ascending(PinnedCurrentDecisions(decisions, product))
  }

  function InvalidateDecisions(t: Tables, product: Id): Outcome<Invalidation> {
    InvalidateRows(t, product, RowsToInvalidate(t.decisions, product), Invalidation([], []))
  }

  // ---------- leases ----------

  predicate Claimable(a: Attempt, owner: Id, now: nat) {
    a.state in {Queued, Running, SnapshotComplete}
    && (a.hold.None? || a.hold.value.expires <= now || a.hold.value.owner == owner)
  }

  predicate HasCheckpoint(checkpoints: set<CheckpointKey>, attempt: Id) {
    exists k :: k in checkpoints && k.attempt == attempt
  }

  /** A claim moves the generation on. Checkpoint rows refer to their attempt and its generation, so
      the update is refused once the attempt has a checkpoint. */
  function ClaimAttempt(t: Tables, attempt: Id, owner: Id, seconds: int): Outcome<Lease> {
    if seconds < 1 || seconds > 600 then Aborted(InvalidArgument)
    else if attempt !in t.attempts || !Claimable(t.attempts[attempt], owner, t.now) then Aborted(Conflict)
    else if HasCheckpoint(t.checkpoints, attempt) then Aborted(IntegrityViolation)
    else
      var a := t.attempts[attempt];
      var lease := Lease(attempt, a.generation + 1, owner, t.now + seconds);
      Committed(
        t.(attempts := t.attempts[attempt := a.(state := Running, generation := a.generation + 1,
                                                hold := Some(Hold(owner, t.now + seconds)))],
           issued := t.issued + {lease}),
        lease)
  }

  // ---------- snapshots ----------

  function MissionDependencies(org: Id, m: Mission): seq<Dependency> {
    [ Dependency(BuyerContext, org, m.context, m.context, m.contextHash),
      Dependency(RequirementBrief, org, m.brief, m.brief, m.briefHash),
      Dependency(ProcurementPolicy, org, m.policy, m.policy, m.policyHash) ]
  }

  function BundleDependencies(pins: map<Id, Pin>, products: seq<Id>): seq<Dependency>
    requires forall p :: p in products ==> p in pins
  {
    seq(|products|, i requires 0 <= i < |products| =>
      var pin := pins[products[i]]; Dependency(ProductBundle, pin.org, products[i], pin.bundle, pin.digest))
  }

  function MemberDependencies(t: Tables, pins: map<Id, Pin>, products: seq<Id>): seq<Dependency>
    requires forall p :: p in products ==> p in pins
  {
    if products == [] then [] else
      var pin := pins[products[0]];
      var members := MembersOf(t, pin.org, pin.bundle);
      seq(|members|, i requires 0 <= i < |members| =>
        Dependency(members[i].kind, pin.org, members[i].id, pin.bundle, members[i].hash))
      + MemberDependencies(t, pins, products[1..])
  }

  function PinnedProducts(pins: map<Id, Pin>): (products: seq<Id>)
    ensures forall p :: p in products <==> p in pins
  {
    AscendingIsOrdered(pins.Keys);
    Ascending(pins.Keys)
  }

  function DependenciesOf(t: Tables, org: Id, attempt: Id, mission: Mission): seq<Dependency> {
    var pins := PinsOf(t, attempt);
    MissionDependencies(org, mission)
    + BundleDependencies(pins, PinnedProducts(pins))
    + MemberDependencies(t, pins, PinnedProducts(pins))
  }

  predicate DistinctKeys(dependencies: seq<Dependency>) {
    forall i, j :: 0 <= i < j < |dependencies| ==>
      (dependencies[i].kind, dependencies[i].id) != (dependencies[j].kind, dependencies[j].id)
  }

  function SnapshotAttempt(t: Tables, org: Id, lease: Lease): Outcome<seq<Dependency>> {
    if !PassesFence(t, lease, {Running, SnapshotComplete}) then Aborted(Conflict) else
    var a := t.attempts[lease.attempt];
    var pins := PinsOf(t, lease.attempt);
    if a.mission !in t.missions then Aborted(NotFound)
    else if pins == map[] then Aborted(Conflict)
    else if exists p :: p in pins && MembersOf(t, pins[p].org, pins[p].bundle) == [] then Aborted(Conflict)
    else
      var dependencies := DependenciesOf(t, org, lease.attempt, t.missions[a.mission]);
      if SnapshotOf(t, lease.attempt) != [] then
        if a.inputDigest != Some(OfSnapshot(dependencies)) then Aborted(Conflict) else Committed(t, dependencies)
      else if !DistinctKeys(dependencies) then Aborted(IntegrityViolation)
      else if CheckpointKey(lease.attempt, 1) in t.checkpoints then Aborted(IntegrityViolation)
      else Committed(
        t.(snapshots := t.snapshots[lease.attempt := dependencies],
           attempts := t.attempts[lease.attempt := a.(state := SnapshotComplete, inputDigest := Some(OfSnapshot(dependencies)))],
           checkpoints := t.checkpoints + {CheckpointKey(lease.attempt, 1)}),
        dependencies)
  }

  function CheckpointAttempt(t: Tables, lease: Lease, sequence: nat): (r: Outcome<nat>)
    ensures SameHistory(t, After(t, r))
  {
    if !PassesFence(t, lease, {Running, SnapshotComplete}) then Aborted(Conflict)
    else if sequence < 1 || CheckpointKey(lease.attempt, sequence) in t.checkpoints then Aborted(IntegrityViolation)
    else Committed(t.(checkpoints := t.checkpoints + {CheckpointKey(lease.attempt, sequence)}), sequence)
  }

  // ---------- finalization ----------

  datatype Finalization = BecameStale(replacement: Id) | Decided(decision: Id)

  function Identifiers(dependencies: seq<Dependency>): set<Id> {
    set d | d in dependencies :: d.id
  }

  function Products(dependencies: seq<Dependency>): set<Id> {
    set d | d in dependencies && d.kind == ProductBundle :: d.id
  }

  function RetireStale(t: Tables, attempt: Id): Outcome<Finalization>
    requires attempt in t.attempts
  {
    var a := t.attempts[attempt];
    match ReplacementFor(t.(attempts := t.attempts[attempt := a.(state := Stale)]), attempt)
    case Aborted(e) => Aborted(e)
    case Committed(t1, replacement) =>
      var key := AttemptStale(attempt, a.generation);
      if key in t1.outbox then Aborted(IntegrityViolation)
      else Committed(t1.(outbox := t1.outbox + [key]), BecameStale(replacement))
  }

  function FinalizeAttempt(t: Tables, lease: Lease, recommended: Id, cited: set<Id>): Outcome<Finalization> {
    if !PassesFence(t, lease, {SnapshotComplete}) then Aborted(Conflict) else
    var a := t.attempts[lease.attempt];
    var dependencies := SnapshotOf(t, lease.attempt);
    if !AllPinsActive(t.pointers, dependencies) then RetireStale(t, lease.attempt)
    else if !(cited <= Identifiers(dependencies)) then Aborted(Conflict)
    else if recommended !in Products(dependencies) then Aborted(Conflict)
    else if a.inputDigest == None then Aborted(Conflict)
    else if DecisionCreated(t.nextId) in t.outbox then Aborted(IntegrityViolation)
    else Committed(
      t.(nextId := t.nextId + 1,
         decisions := t.decisions[t.nextId := Decision(
           a.mission, lease.attempt, a.inputDigest.value, recommended, dependencies, cited, Pending, true)],
         attempts := t.attempts[lease.attempt := a.(state := Completed)],
         outbox := t.outbox + [DecisionCreated(t.nextId)]),
      Decided(t.nextId))
  }

  // ---------- introductions ----------

  predicate ConsentCounts(t: Tables, key: ConsentKey) {
    key in t.consents && t.consents[key].granted && t.consents[key].expires > t.now
  }

  function Introduce(t: Tables, engagement: Id, decision: Id, inputDigest: Digest, fieldsHash: Id): Outcome<Id> {
    if engagement !in t.engagements
       || t.engagements[engagement].decision != decision
       || t.engagements[engagement].inputDigest != inputDigest then Aborted(NotFound) else
    var e := t.engagements[engagement];
    var existing := IntroductionsOf(t.introductions, engagement);
    if existing != {} then
      LeastExists(existing);
      var i :| IsLeast(i, existing);
      if t.introductions[i].inputDigest != inputDigest || t.introductions[i].fieldsHash != fieldsHash
      then Aborted(Conflict) else Committed(t, i)
    else if decision !in t.decisions
       || t.decisions[decision].inputDigest != inputDigest
       || !t.decisions[decision].current
       || t.decisions[decision].approval != Approved then Aborted(Conflict)
    else if e.expires <= t.now then Aborted(Conflict)
    else
      var buyer := ConsentKey(engagement, Buyer, inputDigest);
      var seller := ConsentKey(engagement, Seller, inputDigest);
      if !ConsentCounts(t, buyer) || !ConsentCounts(t, seller) then Aborted(Conflict)
      else if t.consents[buyer].actor == t.consents[seller].actor then Aborted(Conflict)
      else if t.consents[buyer].fieldsHash != fieldsHash || t.consents[seller].fieldsHash != fieldsHash then Aborted(Conflict)
      else if IntroductionCreated(engagement, inputDigest) in t.outbox then Aborted(IntegrityViolation)
      else Committed(
        t.(nextId := t.nextId + 1,
           introductions := t.introductions[t.nextId := Introduction(engagement, decision, inputDigest, fieldsHash)],
           effects := t.effects + [Effect(engagement, inputDigest, t.nextId)],
           engagements := t.engagements[engagement := e.(state := Introduced)],
           outbox := t.outbox + [IntroductionCreated(engagement, inputDigest)]),
        t.nextId)
  }

  /** No pointer, snapshot, lease, decision, introduction, effect or event is touched. */
  predicate SameHistory(t: Tables, t1: Tables) {
    && t1.pointers == t.pointers && t1.snapshots == t.snapshots && t1.issued == t.issued && t1.decisions == t.decisions
    && t1.introductions == t.introductions && t1.effects == t.effects && t1.outbox == t.outbox
  }

  // ---------- changes made beside the repository ----------

  /** A seller publishes the rows of a bundle that is ready but not active. */
  function PublishBundle(t: Tables, org: Id, product: Id, digest: Digest, members: seq<Member>): (r: Outcome<Id>)
    ensures SameHistory(t, After(t, r))
  {
    Committed(
      t.(nextId := t.nextId + 1, bundles := t.bundles[t.nextId := Bundle(org, product, digest, members, Ready)]),
      t.nextId)
  }

  function OpenMission(t: Tables, mission: Mission): (r: Outcome<Id>)
    ensures SameHistory(t, After(t, r))
  {
    Committed(t.(nextId := t.nextId + 1, missions := t.missions[t.nextId := mission]), t.nextId)
  }

  function MoveMission(t: Tables, mission: Id, state: MissionState): (r: Outcome<Id>)
    ensures SameHistory(t, After(t, r))
  {
    if mission !in t.missions then Aborted(NotFound)
    else Committed(t.(missions := t.missions[mission := t.missions[mission].(state := state)]), mission)
  }

  /** The worker creates the root attempt of a mission only when the mission has no attempt. */
  function StartMission(t: Tables, mission: Id): (r: Outcome<Id>)
    ensures SameHistory(t, After(t, r))
  {
    if mission !in t.missions then Aborted(NotFound)
    else if exists a :: a in t.attempts && t.attempts[a].mission == mission then Aborted(Conflict)
    else Committed(
      t.(nextId := t.nextId + 1,
         attempts := t.attempts[t.nextId := Attempt(mission, t.nextId, None, 0, Queued, 0, None, None)]),
      t.nextId)
  }

  /** The worker pins candidate bundles to a queued attempt that has none. */
  function PinBundles(t: Tables, attempt: Id, pins: map<Id, Pin>): (r: Outcome<Id>)
    ensures SameHistory(t, After(t, r))
  {
    if attempt !in t.attempts || t.attempts[attempt].state != Queued then Aborted(Conflict)
    else if PinsOf(t, attempt) != map[] then Committed(t, attempt)
    else Committed(t.(pins := t.pins[attempt := pins]), attempt)
  }

  function RejectDecision(t: Tables, decision: Id): Outcome<Id> {
    if decision !in t.decisions || !t.decisions[decision].current then Aborted(NotFound)
    else if t.decisions[decision].approval != Pending then Aborted(Conflict)
    else Committed(t.(decisions := t.decisions[decision := t.decisions[decision].(approval := Rejected)]), decision)
  }

  /** Approval re-reads the pointers and opens the one engagement of the decision. */
  function ApproveDecision(t: Tables, decision: Id): Outcome<Id> {
    if decision !in t.decisions || !t.decisions[decision].current then Aborted(NotFound) else
    var d := t.decisions[decision];
    if d.approval != Pending then Aborted(Conflict)
    else if Products(d.dependencies) == {} || !AllPinsActive(t.pointers, d.dependencies) then Aborted(Conflict)
    else if d.recommended !in PinsOf(t, d.attempt) then Aborted(Conflict)
    else
      var engagement := Engagement(
        d.mission, decision, PinsOf(t, d.attempt)[d.recommended].org, d.inputDigest, Open, t.now + 7 * DAY);
      Committed(
        t.(nextId := t.nextId + 1,
           decisions := t.decisions[decision := d.(approval := Approved)],
           engagements := t.engagements[t.nextId := engagement]),
        t.nextId)
  }

  function RespondToEngagement(t: Tables, engagement: Id): (r: Outcome<Id>)
    ensures SameHistory(t, After(t, r))
  {
    if engagement !in t.engagements then Aborted(NotFound)
    else if t.engagements[engagement].state != Open && t.engagements[engagement].state != Responded then Aborted(Conflict)
    else Committed(
      t.(engagements := t.engagements[engagement := t.engagements[engagement].(state := Responded)]), engagement)
  }

  /** Granting consent does not look at the state of the engagement, only at its expiry; a second
      consent row of the same party for the same digest is refused by the table. */
  function GrantConsent(t: Tables, engagement: Id, party: Party, actor: Id, fieldsHash: Id): (r: Outcome<ConsentKey>)
    ensures SameHistory(t, After(t, r))
  {
    if engagement !in t.engagements then Aborted(NotFound) else
    var e := t.engagements[engagement];
    var key := ConsentKey(engagement, party, e.inputDigest);
    if e.expires <= t.now then Aborted(Conflict)
    else if key in t.consents then Aborted(IntegrityViolation)
    else
      var expires := if e.expires <= t.now + DAY then e.expires else t.now + DAY;
      Committed(
        t.(consents := t.consents[key := Consent(actor, fieldsHash, true, expires)],
           engagements := t.engagements[engagement := e.(state := ConsentPending)]),
        key)
  }

  function RevokeConsent(t: Tables, key: ConsentKey): (r: Outcome<ConsentKey>)
    ensures SameHistory(t, After(t, r))
  {
    if key !in t.consents then Aborted(NotFound)
    else Committed(t.(consents := t.consents[key := t.consents[key].(granted := false)]), key)
  }

  // ---------- runs ----------

  datatype Operation =
    | Tick(seconds: nat)
    | Publish(org: Id, product: Id, digest: Digest, members: seq<Member>)
    | Activate(org: Id, bundle: Id, expected: Digest)
    | OpenFor(mission: Mission)
    | Move(missionId: Id, missionState: MissionState)
    | Start(missionId: Id)
    | PinTo(attempt: Id, pins: map<Id, Pin>)
    | Claim(attempt: Id, owner: Id, leaseSeconds: int)
    | Snapshot(buyer: Id, lease: Lease)
    | Checkpoint(lease: Lease, sequence: nat)
    | Finalize(lease: Lease, recommended: Id, cited: set<Id>)
    | Invalidate(product: Id)
    | Reject(decision: Id)
    | Approve(decision: Id)
    | Respond(engagement: Id)
    | Grant(engagement: Id, party: Party, actor: Id, fieldsHash: Id)
    | Revoke(key: ConsentKey)
    | MakeIntroduction(engagement: Id, decision: Id, inputDigest: Digest, fieldsHash: Id)

  /** One step of the system: an aborted call leaves the tables as they were. */
  function Apply(t: Tables, op: Operation): Tables {
    match op
    case Tick(seconds) => t.(now := t.now + seconds)
    case Publish(org, product, digest, members) => After(t, PublishBundle(t, org, product, digest, members))
    case Activate(org, bundle, expected) => After(t, ActivateBundle(t, org, bundle, expected))
    case OpenFor(mission) => After(t, OpenMission(t, mission))
    case Move(mission, state) => After(t, MoveMission(t, mission, state))
    case Start(mission) => After(t, StartMission(t, mission))
    case PinTo(attempt, pins) => After(t, PinBundles(t, attempt, pins))
    case Claim(attempt, owner, seconds) => After(t, ClaimAttempt(t, attempt, owner, seconds))
    case Snapshot(buyer, lease) => After(t, SnapshotAttempt(t, buyer, lease))
    case Checkpoint(lease, sequence) => After(t, CheckpointAttempt(t, lease, sequence))
    case Finalize(lease, recommended, cited) => After(t, FinalizeAttempt(t, lease, recommended, cited))
    case Invalidate(product) => After(t, InvalidateDecisions(t, product))
    case Reject(decision) => After(t, RejectDecision(t, decision))
    case Approve(decision) => After(t, ApproveDecision(t, decision))
    case Respond(engagement) => After(t, RespondToEngagement(t, engagement))
    case Grant(engagement, party, actor, fieldsHash) => After(t, GrantConsent(t, engagement, party, actor, fieldsHash))
    case Revoke(key) => After(t, RevokeConsent(t, key))
    case MakeIntroduction(engagement, decision, inputDigest, fieldsHash) =>
      After(t, Introduce(t, engagement, decision, inputDigest, fieldsHash))
  }

  function Run(t: Tables, ops: seq<Operation>): Tables
    decreases |ops|
  {
    if ops == [] then t else Run(Apply(t, ops[0]), ops[1..])
  }
}
