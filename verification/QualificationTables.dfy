/** The rows of the qualification marketplace and the queries the repository runs over them.

    Row identifiers are numbers drawn from one counter, so a new row never reuses an identifier.
    A content hash is the hashed payload itself: two payloads have the same hash only if they are
    equal. Times are numbers of seconds. All buyer-side rows belong to one buyer organization. */
module QualificationTables {
  import opened Outcomes

  type Id = nat

  datatype Kind =
    | BuyerContext | RequirementBrief | ProcurementPolicy | ProductBundle
    | ProductTwin | CatalogProjection | Evidence

  datatype Digest =
    | Raw(value: nat)
    | OfMembers(members: seq<Member>)
    | OfSnapshot(dependencies: seq<Dependency>)

  datatype Member = Member(ordinal: nat, kind: Kind, id: Id, hash: Digest)

  /** A pinned input. For a product bundle, `id` is the product and `version` the bundle. */
  datatype Dependency = Dependency(kind: Kind, org: Id, id: Id, version: Id, digest: Digest)

  datatype BundleState = Candidate | Ready | Active | Superseded | Retracted

  datatype Bundle = Bundle(org: Id, product: Id, digest: Digest, members: seq<Member>, state: BundleState)

  /** The active-bundle row of a product; its primary key is the product alone. */
  datatype Pointer = Pointer(org: Id, bundle: Id, digest: Digest, generation: nat)

  datatype MissionState =
    | Draft | MissionReady | MissionRunning | AwaitingApproval | MissionCompleted | MissionFailed | MissionCancelled

  datatype Mission = Mission(
    context: Id, contextHash: Digest, brief: Id, briefHash: Digest, policy: Id, policyHash: Digest,
    state: MissionState)

  datatype AttemptState = Queued | Running | SnapshotComplete | Stale | Completed | Failed | Cancelled

  datatype Hold = Hold(owner: Id, expires: nat)

  datatype Attempt = Attempt(
    mission: Id, root: Id, predecessor: Option<Id>, depth: nat, state: AttemptState,
    generation: nat, hold: Option<Hold>, inputDigest: Option<Digest>)

  datatype Pin = Pin(org: Id, bundle: Id, digest: Digest)

  datatype CheckpointKey = CheckpointKey(attempt: Id, sequence: nat)

  datatype Lease = Lease(attempt: Id, generation: nat, owner: Id, expires: nat)

  datatype Approval = Pending | Approved | Rejected | Invalid

  datatype Decision = Decision(
    mission: Id, attempt: Id, inputDigest: Digest, recommended: Id,
    dependencies: seq<Dependency>, cited: set<Id>, approval: Approval, current: bool)

  datatype EngagementState = Open | Responded | ConsentPending | Introduced | Expired | Invalidated

  datatype Engagement = Engagement(
    mission: Id, decision: Id, seller: Id, inputDigest: Digest, state: EngagementState, expires: nat)

  datatype Party = Buyer | Seller

  datatype ConsentKey = ConsentKey(engagement: Id, party: Party, inputDigest: Digest)

  datatype Consent = Consent(actor: Id, fieldsHash: Id, granted: bool, expires: nat)

  datatype Introduction = Introduction(engagement: Id, decision: Id, inputDigest: Digest, fieldsHash: Id)

  datatype Effect = Effect(engagement: Id, inputDigest: Digest, introduction: Id)

  /** The unique event keys of the outbox. */
  datatype EventKey =
    | BundleActivated(bundle: Id, digest: Digest)
    | MissionMadeReady(mission: Id, product: Id, generation: nat)
    | AttemptStale(attempt: Id, generation: nat)
    | DecisionCreated(decision: Id)
    | IntroductionCreated(engagement: Id, inputDigest: Digest)

  datatype Tables = Tables(
    now: nat,
    nextId: Id,
    bundles: map<Id, Bundle>,
    pointers: map<Id, Pointer>,
    missions: map<Id, Mission>,
    attempts: map<Id, Attempt>,
    pins: map<Id, map<Id, Pin>>,
    snapshots: map<Id, seq<Dependency>>,
    checkpoints: set<CheckpointKey>,
    issued: set<Lease>,
    decisions: map<Id, Decision>,
    engagements: map<Id, Engagement>,
    consents: map<ConsentKey, Consent>,
    introductions: map<Id, Introduction>,
    effects: seq<Effect>,
    outbox: seq<EventKey>)

  const EMPTY := Tables(0, 0, map[], map[], map[], map[], map[], map[], {}, {}, map[], map[], map[], map[], [], [])

  datatype Error = NotFound | Conflict | IntegrityViolation | InvalidArgument

  /** A repository call is one serializable transaction: it commits, or it raises and changes nothing. */
  datatype Outcome<+R> = Aborted(error: Error) | Committed(tables: Tables, result: R)

  function After<R>(t: Tables, outcome: Outcome<R>): Tables {
    if outcome.Committed? then outcome.tables else t
  }

  // ---------- queries ----------

  predicate IsLeast(least: Id, s: set<Id>) {
    least in s && forall x :: x in s ==> least <= x
  }

  lemma {:induction false} LeastExists(s: set<Id>)
    requires s != {}
    ensures exists least :: IsLeast(least, s)
    decreases |s|
  {
    var y :| y in s;
    var rest := s - {y};
    if rest == {} {
      assert s == {y};
      assert IsLeast(y, s);
    } else {
      LeastExists(rest);
      var z :| IsLeast(z, rest);
      var least := if y <= z then y else z;
      forall x | x in s ensures least <= x { assert x == y || x in rest; }
      assert IsLeast(least, s);
    }
  }

  /** The `ORDER BY id` of a query: the identifiers of a set in increasing order. */
  function Ascending(s: set<Id>): (ids: seq<Id>)
    decreases |s|
  {
    if s == {} then [] else
      LeastExists(s);
      var least :| IsLeast(least, s);
      [least] + Ascending(s - {least})
  }

  lemma {:induction false} AscendingIsOrdered(s: set<Id>)
    ensures forall x :: x in s <==> x in Ascending(s)
    ensures forall i, j :: 0 <= i < j < |Ascending(s)| ==> Ascending(s)[i] < Ascending(s)[j]
    decreases |s|
  {
    if s != {} {
      LeastExists(s);
      var least :| IsLeast(least, s);
      var rest := Ascending(s - {least});
      AscendingIsOrdered(s - {least});
      assert Ascending(s) == [least] + rest;
      forall i, j | 0 <= i < j < |Ascending(s)| ensures Ascending(s)[i] < Ascending(s)[j] {
        assert rest[j - 1] in s - {least};
      }
    }
  }

  function PinsOf(t: Tables, attempt: Id): map<Id, Pin> {
    if attempt in t.pins then t.pins[attempt] else map[]
  }

  function SnapshotOf(t: Tables, attempt: Id): seq<Dependency> {
    if attempt in t.snapshots then t.snapshots[attempt] else []
  }

  /** The members of a bundle as a buyer reads them; an unknown bundle has none. */
  function MembersOf(t: Tables, org: Id, bundle: Id): seq<Member> {
    if bundle in t.bundles && t.bundles[bundle].org == org then t.bundles[bundle].members else []
  }

  /** The active pointer names exactly what the dependency pins. */
  predicate PinIsActive(pointers: map<Id, Pointer>, d: Dependency) {
    d.id in pointers
    && pointers[d.id].org == d.org
    && pointers[d.id].bundle == d.version
    && pointers[d.id].digest == d.digest
  }

  predicate AllPinsActive(pointers: map<Id, Pointer>, dependencies: seq<Dependency>) {
    forall d :: d in dependencies && d.kind == ProductBundle ==> PinIsActive(pointers, d)
  }

  /** The dependency row joined by `dependency_kind = PRODUCT_BUNDLE AND dependency_id = product`. */
  function ProductPin(dependencies: seq<Dependency>, product: Id): (r: Option<Dependency>)
    ensures r.Some? ==> r.value in dependencies && r.value.kind == ProductBundle && r.value.id == product
    ensures r.None? ==> forall d :: d in dependencies ==> !(d.kind == ProductBundle && d.id == product)
  {
    if dependencies == [] then None
    else if dependencies[0].kind == ProductBundle && dependencies[0].id == product then Some(dependencies[0])
    else ProductPin(dependencies[1..], product)
  }

  function Successors(attempts: map<Id, Attempt>, attempt: Id): set<Id> {
    set a | a in attempts && attempts[a].predecessor == Some(attempt)
  }

  function IntroductionsOf(introductions: map<Id, Introduction>, engagement: Id): set<Id> {
    set i | i in introductions && introductions[i].engagement == engagement
  }

  /** The lease fence every worker write goes through. */
  predicate PassesFence(t: Tables, lease: Lease, allowed: set<AttemptState>) {
    lease.attempt in t.attempts
    && var a := t.attempts[lease.attempt];
       a.generation == lease.generation
       && a.hold.Some? && a.hold.value.owner == lease.owner && a.hold.value.expires > t.now
       && a.state in allowed
  }
}
