/** The repository itself: a class over the tables, whose methods update the rows in place and are
    proved against the step functions. A call that raises leaves every row as it was. */
module QualificationRepository {
  import opened Outcomes
  import opened QualificationTables
  import Steps = QualificationSteps

  /** What the caller sees: the value a committed call returns, or the error it raises. */
  function Reply<R>(outcome: Outcome<R>): Result<R, Error> {
    match outcome
    case Committed(_, result) => Success(result)
    case Aborted(error) => Failure(error)
  }

  class Repository {
    var now: nat
    var nextId: Id
    var bundles: map<Id, Bundle>
    var pointers: map<Id, Pointer>
    var missions: map<Id, Mission>
    var attempts: map<Id, Attempt>
    var pins: map<Id, map<Id, Pin>>
    var snapshots: map<Id, seq<Dependency>>
    var checkpoints: set<CheckpointKey>
    ghost var issued: set<Lease>
    var decisions: map<Id, Decision>
    var engagements: map<Id, Engagement>
    var consents: map<ConsentKey, Consent>
    var introductions: map<Id, Introduction>
    var effects: seq<Effect>
    var outbox: seq<EventKey>

    ghost function Rows(): Tables
      reads this
    {
      Tables(now, nextId, bundles, pointers, missions, attempts, pins, snapshots, checkpoints, issued,
             decisions, engagements, consents, introductions, effects, outbox)
    }

    constructor ()
      ensures Rows() == EMPTY
    {
      now, nextId := 0, 0;
      bundles, pointers, missions, attempts := map[], map[], map[], map[];
      pins, snapshots, checkpoints, issued := map[], map[], {}, {};
      decisions, engagements, consents, introductions := map[], map[], map[], map[];
      effects, outbox := [], [];
    }

    method ActivateBundle(org: Id, id: Id, expected: Digest) returns (r: Result<Id, Error>)
      modifies this
      ensures Rows() == After(old(Rows()), Steps.ActivateBundle(old(Rows()), org, id, expected))
      ensures r == Reply(Steps.ActivateBundle(old(Rows()), org, id, expected))
    {
      if id !in bundles || bundles[id].org != org { return Failure(NotFound); }
      var bundle := bundles[id];
      if bundle.digest != expected { return Failure(Conflict); }
      if bundle.state != Ready && bundle.state != Active { return Failure(Conflict); }
      if bundle.members == [] || OfMembers(bundle.members) != bundle.digest { return Failure(Conflict); }
      var product := bundle.product;
      if product in pointers && pointers[product].org != org { return Failure(IntegrityViolation); }
      if BundleActivated(id, bundle.digest) in outbox { return Failure(IntegrityViolation); }
      MovePointer(org, id, bundle);
      outbox := outbox + [BundleActivated(id, bundle.digest)];
      return Success(id);
    }

    method MovePointer(org: Id, id: Id, bundle: Bundle)
      requires id in bundles && bundles[id] == bundle && bundle.org == org
      modifies this`bundles, this`pointers
      ensures pointers == Steps.PointTo(old(pointers), bundle, id)
      ensures var superseded := if bundle.product in old(pointers) && old(pointers)[bundle.product].bundle != id
                then Steps.Retire(old(bundles), old(pointers)[bundle.product].bundle) else old(bundles);
        bundles == superseded[id := bundle.(state := Active)]
    {
      var product := bundle.product;
      if product !in pointers {
        pointers := pointers[product := Pointer(org, id, bundle.digest, 1)];
      } else if pointers[product].bundle != id {
        var active := pointers[product];
        if active.bundle in bundles && bundles[active.bundle].state == Active {
          bundles := bundles[active.bundle := bundles[active.bundle].(state := Superseded)];
        }
        pointers := pointers[product := active.(bundle := id, digest := bundle.digest, generation := active.generation + 1)];
      }
      bundles := bundles[id := bundle.(state := Active)];
    }

    method ClaimAttempt(attempt: Id, owner: Id, seconds: int) returns (r: Result<Lease, Error>)
      modifies this`attempts, this`issued
      ensures Rows() == After(old(Rows()), Steps.ClaimAttempt(old(Rows()), attempt, owner, seconds))
      ensures r == Reply(Steps.ClaimAttempt(old(Rows()), attempt, owner, seconds))
    {
      if seconds < 1 || seconds > 600 { return Failure(InvalidArgument); }
      if attempt !in attempts || !Steps.Claimable(attempts[attempt], owner, now) { return Failure(Conflict); }
      if Steps.HasCheckpoint(checkpoints, attempt) { return Failure(IntegrityViolation); }
      var a := attempts[attempt];
      attempts := attempts[attempt := a.(state := Running, generation := a.generation + 1, hold := Some(Hold(owner, now + seconds)))];
      var lease := Lease(attempt, a.generation + 1, owner, now + seconds);
      issued := issued + {lease};
      return Success(lease);
    }

    /** The fence: the attempt row the lease still owns. */
    method FencedAttempt(lease: Lease, allowed: set<AttemptState>) returns (a: Option<Attempt>)
      ensures a.Some? <==> PassesFence(Rows(), lease, allowed)
      ensures a.Some? ==> a.value == attempts[lease.attempt]
    {
      if lease.attempt !in attempts { return None; }
      var row := attempts[lease.attempt];
      if row.generation == lease.generation && row.hold.Some? && row.hold.value.owner == lease.owner
         && row.hold.value.expires > now && row.state in allowed {
        return Some(row);
      }
      return None;
    }

    method CheckpointAttempt(lease: Lease, sequence: nat) returns (r: Result<nat, Error>)
      modifies this`checkpoints
      ensures Rows() == After(old(Rows()), Steps.CheckpointAttempt(old(Rows()), lease, sequence))
      ensures r == Reply(Steps.CheckpointAttempt(old(Rows()), lease, sequence))
    {
      var a := FencedAttempt(lease, {Running, SnapshotComplete});
      if a == None { return Failure(Conflict); }
      if sequence < 1 || CheckpointKey(lease.attempt, sequence) in checkpoints { return Failure(IntegrityViolation); }
      checkpoints := checkpoints + {CheckpointKey(lease.attempt, sequence)};
      return Success(sequence);
    }

    /** A retry of a replacement finds the one already queued; the chain ends at the last depth. */
    method ReplacementFor(attempt: Id) returns (r: Result<Id, Error>)
      requires attempt in attempts
      modifies this`nextId, this`attempts
      ensures Rows() == After(old(Rows()), Steps.ReplacementFor(old(Rows()), attempt))
      ensures r == Reply(Steps.ReplacementFor(old(Rows()), attempt))
    {
      var successors := Successors(attempts, attempt);
      if successors != {} {
        LeastExists(successors);
        var existing :| existing in successors && IsLeast(existing, successors);
        return Success(existing);
      }
      var a := attempts[attempt];
      if a.depth >= Steps.LAST_DEPTH { return Failure(Conflict); }
      var id := nextId;
      attempts := attempts[id := Attempt(a.mission, a.root, Some(attempt), a.depth + 1, Queued, 0, None, None)];
      nextId := nextId + 1;
      return Success(id);
    }

    method SnapshotAttempt(org: Id, lease: Lease) returns (r: Result<seq<Dependency>, Error>)
      modifies this`snapshots, this`attempts, this`checkpoints
      ensures Rows() == After(old(Rows()), Steps.SnapshotAttempt(old(Rows()), org, lease))
      ensures r == Reply(Steps.SnapshotAttempt(old(Rows()), org, lease))
    {
      hide Steps.DistinctKeys, Steps.DependenciesOf, MembersOf;
      var fenced := FencedAttempt(lease, {Running, SnapshotComplete});
      if fenced == None { return Failure(Conflict); }
      var a := fenced.value;
      if a.mission !in missions { return Failure(NotFound); }
      if lease.attempt !in pins || pins[lease.attempt] == map[] { return Failure(Conflict); }
      var complete, dependencies := GatherDependencies(org, lease.attempt, missions[a.mission]);
      if !complete { return Failure(Conflict); }
      r := KeepSnapshot(lease.attempt, dependencies);
    }

    /** A first snapshot is written; a later one must agree with it and writes nothing. */
    method KeepSnapshot(attempt: Id, dependencies: seq<Dependency>) returns (r: Result<seq<Dependency>, Error>)
      requires attempt in attempts
      modifies this`snapshots, this`attempts, this`checkpoints
      ensures var t, a := old(Rows()), old(attempts[attempt]);
        if SnapshotOf(t, attempt) != [] then
          Rows() == t && r == if a.inputDigest == Some(OfSnapshot(dependencies)) then Success(dependencies) else Failure(Conflict)
        else if !Steps.DistinctKeys(dependencies) || CheckpointKey(attempt, 1) in t.checkpoints then
          Rows() == t && r == Failure(IntegrityViolation)
        else
          && r == Success(dependencies)
          && Rows() == t.(
               snapshots := t.snapshots[attempt := dependencies],
               attempts := t.attempts[attempt := a.(state := SnapshotComplete, inputDigest := Some(OfSnapshot(dependencies)))],
               checkpoints := t.checkpoints + {CheckpointKey(attempt, 1)})
    {
      var a := attempts[attempt];
      if attempt in snapshots && snapshots[attempt] != [] {
        if a.inputDigest != Some(OfSnapshot(dependencies)) { return Failure(Conflict); }
        return Success(dependencies);
      }
      if !Steps.DistinctKeys(dependencies) { return Failure(IntegrityViolation); }
      if CheckpointKey(attempt, 1) in checkpoints { return Failure(IntegrityViolation); }
      snapshots := snapshots[attempt := dependencies];
      attempts := attempts[attempt := a.(state := SnapshotComplete, inputDigest := Some(OfSnapshot(dependencies)))];
      checkpoints := checkpoints + {CheckpointKey(attempt, 1)};
      return Success(dependencies);
    }

    /** Reads the pinned bundles in product order; a bundle without members is refused. */
    method GatherDependencies(org: Id, attempt: Id, mission: Mission) returns (complete: bool, dependencies: seq<Dependency>)
      requires attempt in pins
      ensures complete <==>
        forall p :: p in pins[attempt] ==> MembersOf(Rows(), pins[attempt][p].org, pins[attempt][p].bundle) != []
      ensures complete ==> dependencies == Steps.DependenciesOf(Rows(), org, attempt, mission)
    {
      var pinned := pins[attempt];
      var products := Steps.PinnedProducts(pinned);
      var ofBundles: seq<Dependency>, ofMembers: seq<Dependency> := [], [];
      for i := 0 to |products|
        invariant ofBundles == Steps.BundleDependencies(pinned, products[..i])
        invariant ofMembers == Steps.MemberDependencies(Rows(), pinned, products[..i])
        invariant forall j :: 0 <= j < i ==> MembersOf(Rows(), pinned[products[j]].org, pinned[products[j]].bundle) != []
      {
        var pin := pinned[products[i]];
        var members := if pin.bundle in bundles && bundles[pin.bundle].org == pin.org then bundles[pin.bundle].members else [];
        if members == [] {
          assert products[i] in pinned;
          return false, [];
        }
        ofBundles := ofBundles + [Dependency(ProductBundle, pin.org, products[i], pin.bundle, pin.digest)];
        ofMembers := ofMembers + seq(|members|, k requires 0 <= k < |members| =>
          Dependency(members[k].kind, pin.org, members[k].id, pin.bundle, members[k].hash));
        assert products[..i + 1] == products[..i] + [products[i]];
        MembersOfOneMore(Rows(), pinned, products[..i], products[i]);
      }
      assert products[..|products|] == products;
      complete := true;
      dependencies := Steps.MissionDependencies(org, mission) + ofBundles + ofMembers;
    }

    /** The products whose active pointer no longer names the pinned bundle. */
    method ChangedProductBundles(dependencies: seq<Dependency>) returns (changed: seq<Id>)
      ensures forall p :: p in changed <==>
        exists d :: d in dependencies && d.kind == ProductBundle && d.id == p && !PinIsActive(pointers, d)
      ensures changed == [] <==> AllPinsActive(pointers, dependencies)
    {
      changed := [];
      for i := 0 to |dependencies|
        invariant forall p :: p in changed ==>
          exists d :: d in dependencies && d.kind == ProductBundle && d.id == p && !PinIsActive(pointers, d)
        invariant forall d :: d in dependencies[..i] && d.kind == ProductBundle && !PinIsActive(pointers, d) ==> d.id in changed
      {
        var d := dependencies[i];
        if d.kind == ProductBundle && !PinIsActive(pointers, d) {
          changed := changed + [d.id];
        }
      }
      assert dependencies[..|dependencies|] == dependencies;
      if changed != [] { assert changed[0] in changed; }
    }

    method FinalizeAttempt(lease: Lease, recommended: Id, cited: set<Id>) returns (r: Result<Steps.Finalization, Error>)
      modifies this`nextId, this`attempts, this`decisions, this`outbox
      ensures Rows() == After(old(Rows()), Steps.FinalizeAttempt(old(Rows()), lease, recommended, cited))
      ensures r == Reply(Steps.FinalizeAttempt(old(Rows()), lease, recommended, cited))
    {
      hide PinIsActive, AllPinsActive, Steps.Identifiers, Steps.Products, Steps.RetireStale;
      var fenced := FencedAttempt(lease, {SnapshotComplete});
      if fenced == None { return Failure(Conflict); }
      var a := fenced.value;
      var dependencies := if lease.attempt in snapshots then snapshots[lease.attempt] else [];
      var changed := ChangedProductBundles(dependencies);
      if changed != [] {
        r := RetireStale(lease.attempt);
        return;
      }
      if !(cited <= Steps.Identifiers(dependencies)) { return Failure(Conflict); }
      if recommended !in Steps.Products(dependencies) { return Failure(Conflict); }
      if a.inputDigest == None { return Failure(Conflict); }
      if DecisionCreated(nextId) in outbox { return Failure(IntegrityViolation); }
      r := RecordDecision(lease.attempt, recommended, dependencies, cited);
    }

    /** Writes the decision, copies the snapshot into its dependencies, marks those that are cited, and completes
        the attempt; the marks recover the citations because none lies outside the snapshot. */
    method RecordDecision(attempt: Id, recommended: Id, dependencies: seq<Dependency>, cited: set<Id>)
      returns (r: Result<Steps.Finalization, Error>)
      requires attempt in attempts && attempts[attempt].inputDigest.Some? && cited <= Steps.Identifiers(dependencies)
      modifies this`nextId, this`attempts, this`decisions, this`outbox
      ensures r == Success(Steps.Decided(old(nextId))) && nextId == old(nextId) + 1
      ensures decisions == old(decisions)[old(nextId) := Decision(
        old(attempts)[attempt].mission, attempt, old(attempts)[attempt].inputDigest.value, recommended, dependencies, cited,
        Pending, true)]
      ensures attempts == old(attempts)[attempt := old(attempts)[attempt].(state := Completed)]
      ensures outbox == old(outbox) + [DecisionCreated(old(nextId))]
    {
      var id, a := nextId, attempts[attempt];
      nextId := nextId + 1;
      var copied: seq<Dependency>, marked: set<Id> := [], {};
      for i := 0 to |dependencies|
        invariant copied == dependencies[..i]
        invariant marked == Steps.Identifiers(dependencies[..i]) * cited
      {
        assert dependencies[..i + 1] == dependencies[..i] + [dependencies[i]];
        copied := copied + [dependencies[i]];
        if dependencies[i].id in cited { marked := marked + {dependencies[i].id}; }
      }
      assert copied == dependencies && marked == cited;
      decisions := decisions[id := Decision(
        a.mission, attempt, a.inputDigest.value, recommended, copied, marked, Pending, true)];
      attempts := attempts[attempt := a.(state := Completed)];
      outbox := outbox + [DecisionCreated(id)];
      return Success(Steps.Decided(id));
    }

    /** Marks the attempt stale and queues its replacement; without a replacement nothing changes. */
    method RetireStale(attempt: Id) returns (r: Result<Steps.Finalization, Error>)
      requires attempt in attempts
      modifies this`nextId, this`attempts, this`outbox
      ensures Rows() == After(old(Rows()), Steps.RetireStale(old(Rows()), attempt))
      ensures r == Reply(Steps.RetireStale(old(Rows()), attempt))
    {
      var savedId, savedAttempts := nextId, attempts;
      var a := attempts[attempt];
      attempts := attempts[attempt := a.(state := Stale)];
      var replacement := ReplacementFor(attempt);
      if replacement.Failure? {
        attempts := savedAttempts;
        return Failure(replacement.error);
      }
      if AttemptStale(attempt, a.generation) in outbox {
        nextId, attempts := savedId, savedAttempts;
        return Failure(IntegrityViolation);
      }
      outbox := outbox + [AttemptStale(attempt, a.generation)];
      return Success(Steps.BecameStale(replacement.value));
    }

    /** The engagements of a withdrawn decision, unless already introduced or expired. */
    method WithdrawEngagements(decision: Id)
      modifies this`engagements
      ensures engagements == Steps.WithdrawEngagements(old(engagements), decision)
    {
      ghost var before := engagements;
      var open := set e | e in engagements && engagements[e].decision == decision
                          && engagements[e].state != Introduced && engagements[e].state != Expired;
      ghost var all := open;
      while open != {}
        invariant open <= all && all <= before.Keys
        invariant engagements.Keys == before.Keys
        invariant forall e :: e in before ==>
          engagements[e] == if e in all - open then before[e].(state := Invalidated) else before[e]
        decreases |open|
      {
        var e :| e in open;
        engagements := engagements[e := engagements[e].(state := Invalidated)];
        open := open - {e};
      }
      ghost var after := Steps.WithdrawEngagements(before, decision);
      assert engagements.Keys == after.Keys;
      assert forall e :: e in engagements ==> engagements[e] == after[e];
    }

    method InvalidateRow(product: Id, decision: Id, done: Steps.Invalidation) returns (r: Result<Steps.Invalidation, Error>)
      requires decision in decisions && ProductPin(decisions[decision].dependencies, product).Some?
      modifies this`nextId, this`missions, this`attempts, this`decisions, this`engagements, this`outbox
      ensures var outcome := Steps.InvalidateRow(old(Rows()), product, decision, done);
        r == Reply(outcome) && (r.Success? ==> Rows() == outcome.tables)
    {
      hide Steps.WithdrawEngagements, Steps.Reschedule, PinIsActive, ProductPin;
      var row := decisions[decision];
      var pin := ProductPin(row.dependencies, product).value;
      if PinIsActive(pointers, pin) { return Success(done); }
      decisions := decisions[decision := row.(current := false, approval := Invalid)];
      WithdrawEngagements(decision);
      var noted := done.(decisions := done.decisions + [decision]);
      if product !in pointers || pointers[product].org != pin.org { return Success(noted); }
      if row.attempt !in attempts || row.mission !in missions
         || missions[row.mission].state == MissionFailed || missions[row.mission].state == MissionCancelled {
        return Success(noted);
      }
      var replacement := Reschedule(product, decision);
      if replacement.Failure? { return Failure(replacement.error); }
      return Success(noted.(replacements := noted.replacements + [replacement.value]));
    }

    /** Queues the replacement of a withdrawn decision's attempt and makes the mission ready again. */
    method Reschedule(product: Id, decision: Id) returns (r: Result<Id, Error>)
      requires decision in decisions && decisions[decision].attempt in attempts
      requires decisions[decision].mission in missions
      requires product in pointers
      modifies this`nextId, this`missions, this`attempts, this`outbox
      ensures var outcome := Steps.Reschedule(old(Rows()), product, decision);
        r == Reply(outcome) && (r.Success? ==> Rows() == outcome.tables)
    {
      var mission := decisions[decision].mission;
      r := ReplacementFor(decisions[decision].attempt);
      if r.Failure? { return; }
      var key := MissionMadeReady(mission, product, pointers[product].generation);
      if key in outbox { return Failure(IntegrityViolation); }
      missions := missions[mission := missions[mission].(state := MissionReady)];
      outbox := outbox + [key];
    }

    method InvalidateDecisions(product: Id) returns (r: Result<Steps.Invalidation, Error>)
      modifies this`nextId, this`missions, this`attempts, this`decisions, this`engagements, this`outbox
      ensures Rows() == After(old(Rows()), Steps.InvalidateDecisions(old(Rows()), product))
      ensures r == Reply(Steps.InvalidateDecisions(old(Rows()), product))
    {
      hide Steps.InvalidateRows, Steps.RowsToInvalidate, Steps.SameElsewhere, Steps.PinnedCurrentDecisions, ProductPin, PinsAll;
      var savedId, savedMissions, savedAttempts := nextId, missions, attempts;
      var savedDecisions, savedEngagements, savedOutbox := decisions, engagements, outbox;
      var rows := Steps.RowsToInvalidate(decisions, product);
      assert PinsAll(decisions, product, rows) by { RowsPin(decisions, product); }
      r := InvalidateEach(product, rows);
      if r.Failure? {
        RollBack(savedId, savedMissions, savedAttempts, savedDecisions, savedEngagements, savedOutbox);
      }
    }

    /** The transaction around a failed call restores every row the call wrote. */
    method RollBack(
      id: Id, missionRows: map<Id, Mission>, attemptRows: map<Id, Attempt>,
      decisionRows: map<Id, Decision>, engagementRows: map<Id, Engagement>, events: seq<EventKey>)
      modifies this`nextId, this`missions, this`attempts, this`decisions, this`engagements, this`outbox
      ensures nextId == id && missions == missionRows && attempts == attemptRows
      ensures decisions == decisionRows && engagements == engagementRows && outbox == events
    {
      nextId, missions, attempts := id, missionRows, attemptRows;
      decisions, engagements, outbox := decisionRows, engagementRows, events;
    }

    method InvalidateEach(product: Id, rows: seq<Id>) returns (r: Result<Steps.Invalidation, Error>)
      requires PinsAll(decisions, product, rows)
      modifies this`nextId, this`missions, this`attempts, this`decisions, this`engagements, this`outbox
      ensures var outcome := Steps.InvalidateRows(old(Rows()), product, rows, Steps.Invalidation([], []));
        r == Reply(outcome) && (r.Success? ==> Rows() == outcome.tables)
    {
      hide Steps.InvalidateRow, ProductPin;
      var done := Steps.Invalidation([], []);
      assert rows[0..] == rows;
      for i := 0 to |rows|
        invariant forall d :: d in rows ==> d in decisions && ProductPin(decisions[d].dependencies, product).Some?
        invariant Steps.InvalidateRows(old(Rows()), product, rows, Steps.Invalidation([], []))
               == Steps.InvalidateRows(Rows(), product, rows[i..], done)
      {
        assert rows[i..][0] == rows[i] && rows[i..][1..] == rows[i + 1..];
        var outcome := InvalidateRow(product, rows[i], done);
        if outcome.Failure? { return Failure(outcome.error); }
        done := outcome.value;
      }
      return Success(done);
    }

    /** Both parties hold a current consent to exactly these fields, granted by distinct people. */
    method PartiesAgree(engagement: Id, inputDigest: Digest, fieldsHash: Id) returns (agreed: bool)
      ensures var buyer, seller := ConsentKey(engagement, Buyer, inputDigest), ConsentKey(engagement, Seller, inputDigest);
        agreed <==>
          && Steps.ConsentCounts(Rows(), buyer) && Steps.ConsentCounts(Rows(), seller)
          && consents[buyer].actor != consents[seller].actor
          && consents[buyer].fieldsHash == fieldsHash == consents[seller].fieldsHash
    {
      var buyer := ConsentKey(engagement, Buyer, inputDigest);
      var seller := ConsentKey(engagement, Seller, inputDigest);
      if !(buyer in consents && consents[buyer].granted && consents[buyer].expires > now)
         || !(seller in consents && consents[seller].granted && consents[seller].expires > now) {
        return false;
      }
      if consents[buyer].actor == consents[seller].actor { return false; }
      return consents[buyer].fieldsHash == fieldsHash && consents[seller].fieldsHash == fieldsHash;
    }

    method ExistingIntroduction(engagement: Id) returns (i: Option<Id>)
      ensures i.None? <==> IntroductionsOf(introductions, engagement) == {}
      ensures i.Some? ==> i.value in introductions && IsLeast(i.value, IntroductionsOf(introductions, engagement))
    {
      var existing := IntroductionsOf(introductions, engagement);
      if existing == {} { return None; }
      LeastExists(existing);
      var least :| least in existing && IsLeast(least, existing);
      return Some(least);
    }

    method Introduce(engagement: Id, decision: Id, inputDigest: Digest, fieldsHash: Id) returns (r: Result<Id, Error>)
      modifies this`nextId, this`introductions, this`effects, this`engagements, this`outbox
      ensures Rows() == After(old(Rows()), Steps.Introduce(old(Rows()), engagement, decision, inputDigest, fieldsHash))
      ensures r == Reply(Steps.Introduce(old(Rows()), engagement, decision, inputDigest, fieldsHash))
    {
      hide Steps.ConsentCounts;
      if engagement !in engagements || engagements[engagement].decision != decision
         || engagements[engagement].inputDigest != inputDigest {
        return Failure(NotFound);
      }
      var existing := ExistingIntroduction(engagement);
      if existing.Some? {
        var i := existing.value;
        if introductions[i].inputDigest != inputDigest || introductions[i].fieldsHash != fieldsHash {
          return Failure(Conflict);
        }
        return Success(i);
      }
      r := IntroduceFirst(engagement, decision, inputDigest, fieldsHash);
    }

    /** The checks of a first introduction, and its rows. */
    method IntroduceFirst(engagement: Id, decision: Id, inputDigest: Digest, fieldsHash: Id) returns (r: Result<Id, Error>)
      requires engagement in engagements && engagements[engagement].decision == decision
      requires engagements[engagement].inputDigest == inputDigest && IntroductionsOf(introductions, engagement) == {}
      modifies this`nextId, this`introductions, this`effects, this`engagements, this`outbox
      ensures Rows() == After(old(Rows()), Steps.Introduce(old(Rows()), engagement, decision, inputDigest, fieldsHash))
      ensures r == Reply(Steps.Introduce(old(Rows()), engagement, decision, inputDigest, fieldsHash))
    {
      hide Steps.ConsentCounts, IntroductionsOf, IsLeast;
      if decision !in decisions || decisions[decision].inputDigest != inputDigest
         || !decisions[decision].current || decisions[decision].approval != Approved {
        return Failure(Conflict);
      }
      if engagements[engagement].expires <= now { return Failure(Conflict); }
      var agreed := PartiesAgree(engagement, inputDigest, fieldsHash);
      if !agreed { return Failure(Conflict); }
      if IntroductionCreated(engagement, inputDigest) in outbox { return Failure(IntegrityViolation); }
      r := RecordIntroduction(engagement, decision, inputDigest, fieldsHash);
    }

    method RecordIntroduction(engagement: Id, decision: Id, inputDigest: Digest, fieldsHash: Id) returns (r: Result<Id, Error>)
      requires engagement in engagements
      modifies this`nextId, this`introductions, this`effects, this`engagements, this`outbox
      ensures r == Success(old(nextId)) && nextId == old(nextId) + 1
      ensures introductions == old(introductions)[old(nextId) := Introduction(engagement, decision, inputDigest, fieldsHash)]
      ensures effects == old(effects) + [Effect(engagement, inputDigest, old(nextId))]
      ensures engagements == old(engagements)[engagement := old(engagements[engagement]).(state := Introduced)]
      ensures outbox == old(outbox) + [IntroductionCreated(engagement, inputDigest)]
    {
      var id := nextId;
      nextId := nextId + 1;
      introductions := introductions[id := Introduction(engagement, decision, inputDigest, fieldsHash)];
      effects := effects + [Effect(engagement, inputDigest, id)];
      engagements := engagements[engagement := engagements[engagement].(state := Introduced)];
      outbox := outbox + [IntroductionCreated(engagement, inputDigest)];
      return Success(id);
    }
  }

  predicate PinsAll(decisions: map<Id, Decision>, product: Id, rows: seq<Id>) {
    forall d :: d in rows ==> d in decisions && ProductPin(decisions[d].dependencies, product).Some?
  }

  lemma RowsPin(decisions: map<Id, Decision>, product: Id)
    ensures PinsAll(decisions, product, Steps.RowsToInvalidate(decisions, product))
  {
    hide Steps.RowsToInvalidate, ProductPin;
  }

  lemma {:induction false} MembersOfOneMore(t: Tables, pins: map<Id, Pin>, products: seq<Id>, last: Id)
    requires last in pins && forall p :: p in products ==> p in pins
    ensures forall p :: p in products + [last] ==> p in pins
    ensures var pin := pins[last];
      var members := MembersOf(t, pin.org, pin.bundle);
      Steps.MemberDependencies(t, pins, products + [last])
      == Steps.MemberDependencies(t, pins, products)
         + seq(|members|, i requires 0 <= i < |members| =>
             Dependency(members[i].kind, pin.org, members[i].id, pin.bundle, members[i].hash))
  {
    hide MembersOf;
    if products == [] {
      assert [last][1..] == [];
    } else {
      MembersOfOneMore(t, pins, products[1..], last);
      assert (products + [last])[1..] == products[1..] + [last];
    }
  }
}
