/** Which lease passes the fence, what a snapshot reads and writes, and how often a product was activated. */
module QualificationFences {
  import opened Outcomes
  import opened QualificationTables
  import opened QualificationSteps
  import opened QualificationInvariants
  import opened QualificationRuns
  import opened QualificationTheorems
  import opened QualificationLimits
  import opened QualificationLeases
  import opened QualificationOutcomes

  // ---------- the newest lease ----------

  /** Among the leases handed out for an attempt, this one is of the highest generation. */
  ghost predicate IsNewest(t: Tables, l: Lease) {
    l in t.issued && forall m :: m in t.issued && m.attempt == l.attempt ==> m.generation <= l.generation
  }

  /** The worker names the newest lease by its generation and its owner, and that lease has not run out. */
  ghost predicate HoldsNewest(t: Tables, lease: Lease) {
    exists l :: IsNewest(t, l) && l.attempt == lease.attempt && l.generation == lease.generation && l.owner == lease.owner && l.expires > t.now
  }

  /** Whoever was handed a lease holds the attempt, or held it last. */
  ghost predicate ClaimedIsHeld(t: Tables) {
    forall l :: l in t.issued ==> l.attempt in t.attempts && t.attempts[l.attempt].hold.Some?
  }

  lemma KeptRowsAreHeld(t: Tables, t1: Tables)
    requires ClaimedIsHeld(t) && RowsKept(t, t1)
    ensures ClaimedIsHeld(t1)
  {
  }

  lemma ClaimIsHeld(t: Tables, a: Id, owner: Id, seconds: int)
    requires ClaimedIsHeld(t)
    ensures ClaimedIsHeld(After(t, ClaimAttempt(t, a, owner, seconds)))
  {
    hide Claimable, HasCheckpoint;
  }

  lemma SnapshotIsHeld(t: Tables, buyer: Id, lease: Lease)
    requires ClaimedIsHeld(t)
    ensures ClaimedIsHeld(After(t, SnapshotAttempt(t, buyer, lease)))
  {
    hide SnapshotAttempt, SnapshotOf;
    if SnapshotAttempt(t, buyer, lease).Committed? { SnapshotShape(t, buyer, lease); }
  }

  lemma CheckpointIsHeld(t: Tables, lease: Lease, sequence: nat)
    requires ClaimedIsHeld(t)
    ensures ClaimedIsHeld(After(t, CheckpointAttempt(t, lease, sequence)))
  {
    hide PassesFence;
  }

  lemma EndIsHeld(t: Tables, t1: Tables, a: Id)
    requires ClaimedIsHeld(t) && Ended(t, t1, a)
    ensures ClaimedIsHeld(t1)
  {
    var ended := t.(attempts := t.attempts[a := t1.attempts[a]]);
    assert ClaimedIsHeld(ended);
    hide RowsKept;
    KeptRowsAreHeld(ended, t1);
  }

  lemma ApplyKeepsHeld(t: Tables, op: Operation)
    requires Inv(t) && ClaimedIsHeld(t)
    ensures ClaimedIsHeld(Apply(t, op))
  {
    hide Inv, ClaimedIsHeld, RowsKept, Ended, ClaimAttempt, SnapshotAttempt, CheckpointAttempt, FinalizeAttempt;
    match op
    case Claim(a, owner, seconds) => ClaimIsHeld(t, a, owner, seconds);
    case Snapshot(buyer, lease) => SnapshotIsHeld(t, buyer, lease);
    case Checkpoint(lease, sequence) => CheckpointIsHeld(t, lease, sequence);
    case Finalize(lease, recommended, cited) =>
      if FinalizeAttempt(t, lease, recommended, cited).Committed? {
        FinalizeEndsRow(t, lease, recommended, cited);
        EndIsHeld(t, FinalizeAttempt(t, lease, recommended, cited).tables, lease.attempt);
      }
    case _ =>
      hide Apply;
      OnlyWorkersTouchRows(t, op);
      KeptRowsAreHeld(t, Apply(t, op));
  }

  lemma {:induction false} HeldOnEveryRun(ops: seq<Operation>, i: nat)
    requires i <= |ops|
    ensures ClaimedIsHeld(At(ops, i))
    decreases i
  {
    hide Inv, Apply, At, ClaimedIsHeld;
    if i == 0 {
      NothingAtStart(ops);
      assert ClaimedIsHeld(EMPTY) by { NobodyHoldsAtStart(); }
    } else {
      HeldOnEveryRun(ops, i - 1);
      StatesExtend(ops, i - 1, i - 1);
      NextState(ops, i - 1);
      ApplyKeepsHeld(At(ops, i - 1), ops[i - 1]);
    }
  }

  lemma NobodyHoldsAtStart()
    ensures ClaimedIsHeld(EMPTY)
  {
  }

  lemma FenceOfRow(t: Tables, lease: Lease, allowed: set<AttemptState>)
    requires LeasesOk(t.attempts, t.issued) && HoldsOk(t.attempts, t.issued) && ClaimedIsHeld(t)
    ensures PassesFence(t, lease, allowed) <==>
      lease.attempt in t.attempts && t.attempts[lease.attempt].state in allowed && HoldsNewest(t, lease)
  {
    if lease.attempt in t.attempts && t.attempts[lease.attempt].hold.Some? {
      var a := t.attempts[lease.attempt];
      var held := Lease(lease.attempt, a.generation, a.hold.value.owner, a.hold.value.expires);
      assert held in t.issued && IsNewest(t, held);
    }
  }

  /** At every moment of every run a worker passes the fence exactly with the newest lease handed out for the attempt,
      as long as it has not run out, while the attempt is in a state the call is for; a lease that was never handed
      out, or was followed by another, does not pass. */
  lemma FencePassesExactly(ops: seq<Operation>, i: nat, lease: Lease, allowed: set<AttemptState>)
    requires i <= |ops|
    ensures var t := At(ops, i);
      PassesFence(t, lease, allowed) <==>
        lease.attempt in t.attempts && t.attempts[lease.attempt].state in allowed && HoldsNewest(t, lease)
  {
    hide At, ChainsOk, SnapshotsOk, EventsKnown, DecisionsBindSnapshots, CatalogOk, EffectsOk, NoRepeats,
         IntroductionsOk, EngagementsOk, IntroductionEventsOk, LeasesOk, HoldsOk, CheckpointsOk, SnapshotsWritten, ClaimedIsHeld,
         PassesFence, HoldsNewest;
    StatesExtend(ops, i, i);
    FencesOnEveryRun(ops, i);
    HeldOnEveryRun(ops, i);
    FenceOfRow(At(ops, i), lease, allowed);
  }

  // ---------- what a snapshot reads ----------

  /** The members of the bundle of a pin, when the organization of the pin has it. */
  ghost predicate IsMemberOf(t: Tables, pin: Pin, k: int, m: Member) {
    pin.bundle in t.bundles && t.bundles[pin.bundle].org == pin.org
    && 0 <= k < |t.bundles[pin.bundle].members| && t.bundles[pin.bundle].members[k] == m
  }

  ghost predicate HasMembers(t: Tables, pin: Pin) {
    exists m :: IsMemberOf(t, pin, 0, m)
  }

  /** The dependencies a pin stands for: the bundle it pins, and every member with the bundle as its version. */
  ghost predicate IsBundleEntry(pins: map<Id, Pin>, product: Id, d: Dependency) {
    product in pins && d == Dependency(ProductBundle, pins[product].org, product, pins[product].bundle, pins[product].digest)
  }

  ghost predicate IsMemberEntry(t: Tables, pins: map<Id, Pin>, product: Id, k: int, d: Dependency) {
    product in pins
    && exists m :: IsMemberOf(t, pins[product], k, m)
                   && d == Dependency(m.kind, pins[product].org, m.id, pins[product].bundle, m.hash)
  }

  /** One member of one pinned bundle. */
  datatype Place = Place(product: Id, member: nat)

  ghost predicate Earlier(a: Place, b: Place) {
    a.product < b.product || (a.product == b.product && a.member < b.member)
  }

  ghost predicate PlacesAscend(places: seq<Place>) {
    forall i, j :: 0 <= i < j < |places| ==> Earlier(places[i], places[j])
  }

  /** Each dependency is the member at its place. */
  ghost predicate StandAt(t: Tables, pins: map<Id, Pin>, products: seq<Id>, dependencies: seq<Dependency>, places: seq<Place>)
    requires |places| == |dependencies|
  {
    forall i :: 0 <= i < |places| ==>
      places[i].product in products && IsMemberEntry(t, pins, places[i].product, places[i].member, dependencies[i])
  }

  /** Every member has its place. */
  ghost predicate HavePlaces(t: Tables, pins: map<Id, Pin>, products: seq<Id>, places: seq<Place>) {
    forall p, k: nat, d :: p in products && IsMemberEntry(t, pins, p, k, d) ==> Place(p, k) in places
  }

  /** The members of all pinned bundles, in order of the products and of the members. */
  ghost predicate AreMemberEntries(t: Tables, pins: map<Id, Pin>, products: seq<Id>, dependencies: seq<Dependency>, places: seq<Place>) {
    && |places| == |dependencies| && PlacesAscend(places)
    && StandAt(t, pins, products, dependencies, places) && HavePlaces(t, pins, products, places)
  }

  ghost predicate AreProducts(pins: map<Id, Pin>, products: seq<Id>) {
    && (forall p :: p in products <==> p in pins)
    && (forall i, j :: 0 <= i < j < |products| ==> products[i] < products[j])
  }

  /** The three inputs of the mission, then every pinned bundle by product, then the members of those bundles. */
  ghost predicate AreDependencies(t: Tables, org: Id, a: Id, m: Mission, dependencies: seq<Dependency>, products: seq<Id>, places: seq<Place>) {
    var pins := if a in t.pins then t.pins[a] else map[];
    var n := 3 + |products|;
    && AreProducts(pins, products) && n <= |dependencies|
    && dependencies[0] == Dependency(BuyerContext, org, m.context, m.context, m.contextHash)
    && dependencies[1] == Dependency(RequirementBrief, org, m.brief, m.brief, m.briefHash)
    && dependencies[2] == Dependency(ProcurementPolicy, org, m.policy, m.policy, m.policyHash)
    && (forall i :: 0 <= i < |products| ==> IsBundleEntry(pins, products[i], dependencies[3 + i]))
    && AreMemberEntries(t, pins, products, dependencies[n..], places)
  }

  lemma {:induction false} MembersAreListed(t: Tables, pins: map<Id, Pin>, products: seq<Id>) returns (places: seq<Place>)
    requires forall p :: p in products ==> p in pins
    requires forall i, j :: 0 <= i < j < |products| ==> products[i] < products[j]
    ensures AreMemberEntries(t, pins, products, MemberDependencies(t, pins, products), places)
  {
    if products == [] {
      places := [];
    } else {
      var first, rest := products[0], products[1..];
      var later := MembersAreListed(t, pins, rest);
      var pin := pins[first];
      var members := MembersOf(t, pin.org, pin.bundle);
      var head := seq(|members|, i requires 0 <= i < |members| =>
        Dependency(members[i].kind, pin.org, members[i].id, pin.bundle, members[i].hash));
      assert MemberDependencies(t, pins, products) == head + MemberDependencies(t, pins, rest);
      forall k: nat, d ensures IsMemberEntry(t, pins, first, k, d) <==> k < |head| && d == head[k] { MemberAt(t, pins, first, k, d); }
      hide MemberDependencies, IsMemberEntry;
      forall p | p in rest ensures first < p { var i :| 0 <= i < |rest| && rest[i] == p; }
      places := FirstMembers(t, pins, products, head, MemberDependencies(t, pins, rest), later);
    }
  }

  lemma MemberAt(t: Tables, pins: map<Id, Pin>, product: Id, k: nat, d: Dependency)
    requires product in pins
    ensures var pin := pins[product]; var members := MembersOf(t, pin.org, pin.bundle);
      IsMemberEntry(t, pins, product, k, d) <==>
        k < |members| && d == Dependency(members[k].kind, pin.org, members[k].id, pin.bundle, members[k].hash)
  {
    var members := MembersOf(t, pins[product].org, pins[product].bundle);
    if k < |members| { assert IsMemberOf(t, pins[product], k, members[k]); }
  }

  ghost predicate AreFirst(t: Tables, pins: map<Id, Pin>, first: Id, head: seq<Dependency>) {
    forall k: nat, d :: IsMemberEntry(t, pins, first, k, d) <==> k < |head| && d == head[k]
  }

  ghost predicate IsBefore(first: Id, rest: seq<Id>) {
    forall p :: p in rest ==> first < p
  }

  lemma FirstPlacesAscend(first: Id, rest: seq<Id>, now: seq<Place>, later: seq<Place>)
    requires forall i :: 0 <= i < |now| ==> now[i] == Place(first, i)
    requires IsBefore(first, rest) && PlacesAscend(later) && forall i :: 0 <= i < |later| ==> later[i].product in rest
    ensures PlacesAscend(now + later)
  {
    var places := now + later;
    forall i, j | 0 <= i < j < |places| ensures Earlier(places[i], places[j]) {
      if i >= |now| { assert Earlier(later[i - |now|], later[j - |now|]); }
    }
  }

  lemma FirstStandAt(t: Tables, pins: map<Id, Pin>, products: seq<Id>, head: seq<Dependency>, tail: seq<Dependency>, now: seq<Place>, later: seq<Place>)
    requires products != [] && AreFirst(t, pins, products[0], head) && |later| == |tail| && StandAt(t, pins, products[1..], tail, later)
    requires |now| == |head| && forall i :: 0 <= i < |now| ==> now[i] == Place(products[0], i)
    ensures StandAt(t, pins, products, head + tail, now + later)
  {
    hide IsMemberEntry;
    var places := now + later;
    forall i | 0 <= i < |places|
      ensures places[i].product in products && IsMemberEntry(t, pins, places[i].product, places[i].member, (head + tail)[i])
    {
      if i >= |now| { assert IsMemberEntry(t, pins, later[i - |now|].product, later[i - |now|].member, tail[i - |now|]); }
    }
  }

  lemma FirstHavePlaces(t: Tables, pins: map<Id, Pin>, products: seq<Id>, head: seq<Dependency>, now: seq<Place>, later: seq<Place>)
    requires products != [] && AreFirst(t, pins, products[0], head) && HavePlaces(t, pins, products[1..], later)
    requires |now| == |head| && forall i :: 0 <= i < |now| ==> now[i] == Place(products[0], i)
    ensures HavePlaces(t, pins, products, now + later)
  {
    hide IsMemberEntry;
    forall p, k: nat, d | p in products && IsMemberEntry(t, pins, p, k, d) ensures Place(p, k) in now + later {
      if p == products[0] { assert now[k] in now; } else { assert p in products[1..] && Place(p, k) in later; }
    }
  }

  lemma FirstMembers(t: Tables, pins: map<Id, Pin>, products: seq<Id>, head: seq<Dependency>, tail: seq<Dependency>, later: seq<Place>)
    returns (places: seq<Place>)
    requires products != [] && IsBefore(products[0], products[1..])
    requires AreMemberEntries(t, pins, products[1..], tail, later) && AreFirst(t, pins, products[0], head)
    ensures AreMemberEntries(t, pins, products, head + tail, places)
  {
    assert forall i :: 0 <= i < |later| ==> later[i].product in products[1..];
    hide IsMemberEntry, AreFirst, PlacesAscend, StandAt, HavePlaces, IsBefore;
    var now := seq(|head|, i requires 0 <= i < |head| => Place(products[0], i));
    places := now + later;
    FirstPlacesAscend(products[0], products[1..], now, later);
    FirstStandAt(t, pins, products, head, tail, now, later);
    FirstHavePlaces(t, pins, products, head, now, later);
  }

  lemma ProductsInOrder(pins: map<Id, Pin>)
    ensures AreProducts(pins, PinnedProducts(pins))
  {
    AscendingIsOrdered(pins.Keys);
  }

  /** What a snapshot of the attempt reads is exactly this list. */
  lemma DependenciesExactly(t: Tables, org: Id, a: Id, m: Mission) returns (products: seq<Id>, places: seq<Place>)
    ensures AreDependencies(t, org, a, m, DependenciesOf(t, org, a, m), products, places)
  {
    var pins := PinsOf(t, a);
    products := PinnedProducts(pins);
    ProductsInOrder(pins);
    places := MembersAreListed(t, pins, products);
    hide MemberDependencies, PinnedProducts, AreMemberEntries;
    var dependencies, bundles := DependenciesOf(t, org, a, m), BundleDependencies(pins, products);
    assert dependencies[3 + |products|..] == MemberDependencies(t, pins, products);
    forall i | 0 <= i < |products| ensures IsBundleEntry(pins, products[i], dependencies[3 + i]) {
      assert dependencies[3 + i] == bundles[i];
      assert products[i] in products;
    }
  }

  // ---------- when a snapshot commits ----------

  /** The attempt has pins, of bundles that have members, and its mission is known. */
  ghost predicate CanBeRead(t: Tables, a: Id) {
    && a in t.attempts && t.attempts[a].mission in t.missions
    && a in t.pins && t.pins[a] != map[]
    && forall p :: p in t.pins[a] ==> HasMembers(t, t.pins[a][p])
  }

  ghost predicate NamesEachOnce(dependencies: seq<Dependency>) {
    forall i, j :: 0 <= i < j < |dependencies| && dependencies[i].kind == dependencies[j].kind ==> dependencies[i].id != dependencies[j].id
  }

  lemma ReadExactly(t: Tables, a: Id)
    requires a in t.attempts && t.attempts[a].mission in t.missions
    ensures CanBeRead(t, a) <==>
      PinsOf(t, a) != map[] && !exists p :: p in PinsOf(t, a) && MembersOf(t, PinsOf(t, a)[p].org, PinsOf(t, a)[p].bundle) == []
  {
    forall pin: Pin ensures HasMembers(t, pin) <==> MembersOf(t, pin.org, pin.bundle) != [] {
      var members := MembersOf(t, pin.org, pin.bundle);
      if members != [] { assert IsMemberOf(t, pin, 0, members[0]); }
    }
  }

  lemma OnceExactly(dependencies: seq<Dependency>)
    ensures DistinctKeys(dependencies) <==> NamesEachOnce(dependencies)
  {
  }

  lemma FencedSnapshot(t: Tables, buyer: Id, lease: Lease)
    requires SnapshotsOk(t.attempts, t.snapshots) && PassesFence(t, lease, {Running, SnapshotComplete})
    ensures var a := lease.attempt; var r := SnapshotAttempt(t, buyer, lease);
      if !CanBeRead(t, a) then r.Aborted?
      else
        var dependencies := DependenciesOf(t, buyer, a, t.missions[t.attempts[a].mission]);
        && (r.Committed? <==>
             if a in t.snapshots then dependencies == t.snapshots[a]
             else NamesEachOnce(dependencies) && CheckpointKey(a, 1) !in t.checkpoints)
        && (r.Committed? ==> r.result == dependencies && if a in t.snapshots then r.tables == t else FirstSnapshot(t, r.tables, a, dependencies))
  {
    var a := lease.attempt;
    if t.attempts[a].mission in t.missions {
      ReadExactly(t, a);
      OnceExactly(DependenciesOf(t, buyer, a, t.missions[t.attempts[a].mission]));
    }
    hide PinsOf, MembersOf, DependenciesOf, DistinctKeys, NamesEachOnce;
  }

  /** At every moment of every run a snapshot commits exactly for a worker with the newest lease of an attempt that is
      RUNNING or SNAPSHOT_COMPLETE and can be read, when it reads again what was first written, or else writes for the
      first time, each input once, while the first checkpoint is not taken. */
  lemma SnapshotCommitsExactly(ops: seq<Operation>, i: nat, buyer: Id, lease: Lease)
    requires i <= |ops|
    ensures var t := At(ops, i); var r := SnapshotAttempt(t, buyer, lease);
      Apply(t, Snapshot(buyer, lease)) == if r.Committed? then r.tables else t
    ensures var t := At(ops, i); var a := lease.attempt; var r := SnapshotAttempt(t, buyer, lease);
      if !(a in t.attempts && t.attempts[a].state in {Running, SnapshotComplete} && HoldsNewest(t, lease) && CanBeRead(t, a))
      then r.Aborted?
      else
        var dependencies := DependenciesOf(t, buyer, a, t.missions[t.attempts[a].mission]);
        && (r.Committed? <==>
             if a in t.snapshots then dependencies == t.snapshots[a]
             else NamesEachOnce(dependencies) && CheckpointKey(a, 1) !in t.checkpoints)
        && (r.Committed? ==> r.result == dependencies && if a in t.snapshots then r.tables == t else FirstSnapshot(t, r.tables, a, dependencies))
  {
    hide At, ChainsOk, LeasesOk, EventsKnown, DecisionsBindSnapshots, CatalogOk, EffectsOk, NoRepeats,
         IntroductionsOk, EngagementsOk, IntroductionEventsOk, SnapshotsOk, PassesFence, HoldsNewest, CanBeRead, NamesEachOnce,
         FirstSnapshot, DependenciesOf, SnapshotAttempt;
    StatesExtend(ops, i, i);
    FencePassesExactly(ops, i, lease, {Running, SnapshotComplete});
    if PassesFence(At(ops, i), lease, {Running, SnapshotComplete}) {
      FencedSnapshot(At(ops, i), buyer, lease);
    } else {
      UnfencedAborts(At(ops, i), buyer, lease);
    }
    ReadableIsKnown(At(ops, i), lease.attempt);
  }

  lemma UnfencedAborts(t: Tables, buyer: Id, lease: Lease)
    requires !PassesFence(t, lease, {Running, SnapshotComplete})
    ensures SnapshotAttempt(t, buyer, lease).Aborted?
  {
  }

  lemma ReadableIsKnown(t: Tables, a: Id)
    ensures CanBeRead(t, a) ==> a in t.attempts && t.attempts[a].mission in t.missions
  {
  }

  // ---------- when a finalization commits ----------

  /** The decision cites only what was snapshotted and recommends a product that was pinned. */
  ghost predicate RestsOn(dependencies: seq<Dependency>, recommended: Id, cited: set<Id>) {
    && (forall c :: c in cited ==> exists d :: d in dependencies && d.id == c)
    && (exists d :: d in dependencies && d.kind == ProductBundle && d.id == recommended)
  }

  lemma RestsExactly(dependencies: seq<Dependency>, recommended: Id, cited: set<Id>)
    ensures RestsOn(dependencies, recommended, cited) <==> cited <= Identifiers(dependencies) && recommended in Products(dependencies)
  {
    if cited <= Identifiers(dependencies) {
      forall c | c in cited ensures exists d :: d in dependencies && d.id == c { assert c in Identifiers(dependencies); }
    }
  }

  lemma PointedToExactly(pointers: map<Id, Pointer>, dependencies: seq<Dependency>)
    ensures AllPinsActive(pointers, dependencies) <==> ArePointedTo(pointers, dependencies)
  {
  }

  lemma UnfencedFinalizationAborts(t: Tables, lease: Lease, recommended: Id, cited: set<Id>)
    requires !PassesFence(t, lease, {SnapshotComplete})
    ensures FinalizeAttempt(t, lease, recommended, cited).Aborted?
  {
  }

  /** At every moment of every run, with any lease: a finalization needs the newest lease of a snapshotted attempt. While
      the pointers still name every bundle the snapshot pins, it decides exactly when it rests on the snapshot; once a
      pointer has moved it retires the attempt exactly when the chain can still grow, and aborts otherwise. */
  lemma FinalizationExactly(ops: seq<Operation>, i: nat, lease: Lease, recommended: Id, cited: set<Id>)
    requires i <= |ops|
    ensures var t := At(ops, i); var r := FinalizeAttempt(t, lease, recommended, cited);
      Apply(t, Finalize(lease, recommended, cited)) == if r.Committed? then r.tables else t
    ensures var t := At(ops, i); var a := lease.attempt; var r := FinalizeAttempt(t, lease, recommended, cited);
      if !(a in t.attempts && t.attempts[a].state == SnapshotComplete && HoldsNewest(t, lease)) then r.Aborted?
      else
        && a in t.snapshots
        && if ArePointedTo(t.pointers, t.snapshots[a])
           then
             && (r.Committed? <==> RestsOn(t.snapshots[a], recommended, cited))
             && (r.Committed? ==> DecidesWith(t, r, a, recommended, cited))
           else
             && (r.Committed? <==> t.attempts[a].depth < LAST_DEPTH)
             && (r.Committed? ==> RetiresWith(t, r, a))
  {
    hide At, PassesFence, HoldsNewest, FinalizeAttempt, AllPinsActive, ArePointedTo, Identifiers, Products, RestsOn, DecidesWith, RetiresWith;
    FencePassesExactly(ops, i, lease, {SnapshotComplete});
    if PassesFence(At(ops, i), lease, {SnapshotComplete}) {
      FinalizeCommitsExactly(ops, i, lease, recommended, cited);
      RestsExactly(At(ops, i).snapshots[lease.attempt], recommended, cited);
      PointedToExactly(At(ops, i).pointers, At(ops, i).snapshots[lease.attempt]);
    } else {
      UnfencedFinalizationAborts(At(ops, i), lease, recommended, cited);
    }
  }
}
