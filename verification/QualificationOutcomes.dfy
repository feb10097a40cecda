/** When each call commits and which rows it leaves, told by the columns of the tables alone. */
module QualificationOutcomes {
  import opened Outcomes
  import opened QualificationTables
  import opened QualificationSteps
  import opened QualificationInvariants
  import opened QualificationRuns
  import opened QualificationTheorems
  import opened QualificationLimits

  // ---------- claims and checkpoints ----------

  /** The attempt is unfinished and nobody else holds it now. */
  ghost predicate IsFree(t: Tables, a: Id, owner: Id) {
    && a in t.attempts && t.attempts[a].state in {Queued, Running, SnapshotComplete}
    && (t.attempts[a].hold.Some? && t.attempts[a].hold.value.owner != owner ==> t.attempts[a].hold.value.expires <= t.now)
  }

  ghost predicate HasNoCheckpoint(t: Tables, a: Id) {
    forall k :: k in t.checkpoints ==> k.attempt != a
  }

  /** The lease of a claim is of the next generation and ends after the seconds asked for; the row names it. */
  ghost predicate Claims(t: Tables, t1: Tables, a: Id, lease: Lease) {
    && a in t.attempts && lease.attempt == a && lease.generation == t.attempts[a].generation + 1
    && t1 == t.(attempts := t1.attempts, issued := t.issued + {lease})
    && t1.attempts.Keys == t.attempts.Keys
    && (forall b :: b in t.attempts && b != a ==> t1.attempts[b] == t.attempts[b])
    && t1.attempts[a] == t.attempts[a].(
         state := Running, generation := lease.generation, hold := Some(Hold(lease.owner, lease.expires)))
  }

  /** A claim commits exactly for 1 to 600 seconds of an unfinished attempt that nobody else holds and that has no
      checkpoint; then it hands out the next lease. */
  lemma ClaimExactly(t: Tables, a: Id, owner: Id, seconds: int)
    ensures var r := ClaimAttempt(t, a, owner, seconds); var t1 := Apply(t, Claim(a, owner, seconds));
      && (r.Committed? <==> 1 <= seconds <= 600 && IsFree(t, a, owner) && HasNoCheckpoint(t, a))
      && (r.Aborted? ==> t1 == t)
      && (r.Committed? ==>
           Claims(t, t1, a, r.result) && r.result.owner == owner && r.result.expires == t.now + seconds)
  {
  }

  /** A fenced worker writes the checkpoint of a positive number, once. */
  lemma CheckpointExactly(t: Tables, lease: Lease, sequence: nat)
    ensures var r := CheckpointAttempt(t, lease, sequence); var t1 := Apply(t, Checkpoint(lease, sequence));
      && (r.Committed? <==>
           && PassesFence(t, lease, {Running, SnapshotComplete})
           && sequence >= 1 && CheckpointKey(lease.attempt, sequence) !in t.checkpoints)
      && t1 == if r.Committed? then t.(checkpoints := t.checkpoints + {CheckpointKey(lease.attempt, sequence)}) else t
  {
    hide PassesFence;
  }

  // ---------- activation ----------

  /** Activating moves the pointer of the product to the bundle, one generation on, and supersedes whatever was
      active for the product. */
  ghost predicate Activates(t: Tables, t1: Tables, org: Id, id: Id) {
    && id in t.bundles
    && var product := t.bundles[id].product;
       && t1.bundles.Keys == t.bundles.Keys && t1.pointers.Keys == t.pointers.Keys + {product}
       && (forall b :: b in t.bundles ==> t1.bundles[b] == t.bundles[b].(state :=
            if b == id then BundleState.Active
            else if t.bundles[b].product == product && t.bundles[b].state == BundleState.Active then Superseded
            else t.bundles[b].state))
       && (forall p :: p in t.pointers && p != product ==> t1.pointers[p] == t.pointers[p])
       && t1.pointers[product] == Pointer(
            org, id, t.bundles[id].digest, if product in t.pointers then t.pointers[product].generation + 1 else 1)
       && t1 == t.(bundles := t1.bundles, pointers := t1.pointers, outbox := t.outbox + [BundleActivated(id, t.bundles[id].digest)])
  }

  lemma ActivatedBundles(t: Tables, org: Id, id: Id, expected: Digest)
    requires CatalogOk(t.bundles, t.pointers, t.outbox) && ActivateBundle(t, org, id, expected).Committed?
    requires t.bundles[id].state == Ready
    ensures var t1 := ActivateBundle(t, org, id, expected).tables; var product := t.bundles[id].product;
      && t1.bundles.Keys == t.bundles.Keys
      && (forall b :: b in t.bundles ==> t1.bundles[b] == t.bundles[b].(state :=
           if b == id then BundleState.Active
           else if t.bundles[b].product == product && t.bundles[b].state == BundleState.Active then Superseded
           else t.bundles[b].state))
  {
    hide ActivationsRecorded, ActivationsKnown, PointTo;
  }

  lemma ActivatedPointers(t: Tables, org: Id, id: Id, expected: Digest)
    requires CatalogOk(t.bundles, t.pointers, t.outbox) && ActivateBundle(t, org, id, expected).Committed?
    requires t.bundles[id].state == Ready
    ensures var t1 := ActivateBundle(t, org, id, expected).tables; var product := t.bundles[id].product;
      && t1.pointers.Keys == t.pointers.Keys + {product}
      && (forall p :: p in t.pointers && p != product ==> t1.pointers[p] == t.pointers[p])
      && t1.pointers[product] == Pointer(
           org, id, t.bundles[id].digest, if product in t.pointers then t.pointers[product].generation + 1 else 1)
  {
    hide ActivationsRecorded, ActivationsKnown, Retire;
  }

  lemma ActivatedElsewhere(t: Tables, org: Id, id: Id, expected: Digest)
    requires ActivateBundle(t, org, id, expected).Committed?
    ensures var t1 := ActivateBundle(t, org, id, expected).tables;
      && id in t.bundles
      && t1 == t.(bundles := t1.bundles, pointers := t1.pointers, outbox := t.outbox + [BundleActivated(id, t.bundles[id].digest)])
  {
    hide Retire, PointTo;
  }

  /** At every moment of every run an activation that commits leaves exactly these rows. */
  lemma ActivationOutcome(ops: seq<Operation>, i: nat, org: Id, id: Id, expected: Digest)
    requires i <= |ops| && ActivateBundle(At(ops, i), org, id, expected).Committed?
    ensures Activates(At(ops, i), Apply(At(ops, i), Activate(org, id, expected)), org, id)
    ensures ActivateBundle(At(ops, i), org, id, expected).result == id
  {
    hide At, Inv, ActivateBundle, Activates;
    StatesExtend(ops, i, i);
    ActivationHappensOnce(ops, i, org, id, expected);
    ActivationMoves(At(ops, i), org, id, expected);
    ActivationAnswers(At(ops, i), org, id, expected);
  }

  lemma ActivationMoves(t: Tables, org: Id, id: Id, expected: Digest)
    requires Inv(t) && ActivateBundle(t, org, id, expected).Committed?
    requires id in t.bundles && t.bundles[id].state == Ready
    ensures Activates(t, Apply(t, Activate(org, id, expected)), org, id)
  {
    hide ActivateBundle, ChainsOk, LeasesOk, SnapshotsOk, EventsKnown, DecisionsBindSnapshots, CatalogOk, EffectsOk, NoRepeats,
         IntroductionsOk, EngagementsOk, IntroductionEventsOk;
    ActivatedBundles(t, org, id, expected);
    ActivatedPointers(t, org, id, expected);
    ActivatedElsewhere(t, org, id, expected);
  }

  lemma ActivationAnswers(t: Tables, org: Id, id: Id, expected: Digest)
    requires ActivateBundle(t, org, id, expected).Committed?
    ensures ActivateBundle(t, org, id, expected).result == id
  {
    hide Retire, PointTo;
  }

  // ---------- missions and attempts ----------

  ghost predicate HasAttempt(t: Tables, mission: Id) {
    exists a :: a in t.attempts && t.attempts[a].mission == mission
  }

  /** The root attempt of a mission is created once, queued and unclaimed; bundles are pinned once, while it is queued. */
  lemma StartsExactly(t: Tables, mission: Id)
    ensures var r := StartMission(t, mission); var t1 := Apply(t, Start(mission));
      && (r.Committed? <==> mission in t.missions && !HasAttempt(t, mission))
      && t1 == if !r.Committed? then t else t.(
           nextId := t.nextId + 1, attempts := t.attempts[t.nextId := Attempt(mission, t.nextId, None, 0, Queued, 0, None, None)])
  {
  }

  ghost predicate HasPins(t: Tables, a: Id) {
    a in t.pins && t.pins[a] != map[]
  }

  lemma PinsExactly(t: Tables, a: Id, pins: map<Id, Pin>)
    ensures var r := PinBundles(t, a, pins); var t1 := Apply(t, PinTo(a, pins));
      && (r.Committed? <==> a in t.attempts && t.attempts[a].state == Queued)
      && t1 == if r.Committed? && !HasPins(t, a) then t.(pins := t.pins[a := pins]) else t
  {
  }

  // ---------- judgements ----------

  /** The pointer of the pinned product names exactly what the pin says. */
  ghost predicate IsPointedTo(pointers: map<Id, Pointer>, pin: Dependency) {
    && pin.id in pointers && pointers[pin.id].org == pin.org
    && pointers[pin.id].bundle == pin.version && pointers[pin.id].digest == pin.digest
  }

  ghost predicate ArePointedTo(pointers: map<Id, Pointer>, dependencies: seq<Dependency>) {
    forall pin :: pin in dependencies && pin.kind == ProductBundle ==> IsPointedTo(pointers, pin)
  }

  /** Every bundle the decision pins is the one its product's pointer names. */
  ghost predicate HoldsActivePins(t: Tables, d: Id) {
    d in t.decisions && ArePointedTo(t.pointers, t.decisions[d].dependencies)
  }

  ghost predicate PinsABundle(t: Tables, d: Id) {
    d in t.decisions && exists pin :: pin in t.decisions[d].dependencies && pin.kind == ProductBundle
  }

  ghost predicate AwaitsJudgement(t: Tables, d: Id) {
    d in t.decisions && t.decisions[d].current && t.decisions[d].approval == Pending
  }

  /** A decision is approved while it is current and pending, holds only active bundles, at least one, and recommends
      a product pinned to its attempt; the engagement it opens is with the organization of that pin, for a week. */
  lemma ApprovesExactly(t: Tables, d: Id)
    ensures var r := ApproveDecision(t, d); var t1 := Apply(t, Approve(d));
      && (r.Committed? <==>
           && AwaitsJudgement(t, d) && PinsABundle(t, d) && HoldsActivePins(t, d)
           && t.decisions[d].attempt in t.pins && t.decisions[d].recommended in t.pins[t.decisions[d].attempt])
      && (r.Aborted? ==> t1 == t)
      && (r.Committed? ==>
           t1 == t.(
             nextId := t.nextId + 1,
             decisions := t.decisions[d := t.decisions[d].(approval := Approved)],
             engagements := t.engagements[t.nextId := Engagement(
               t.decisions[d].mission, d, t.pins[t.decisions[d].attempt][t.decisions[d].recommended].org,
               t.decisions[d].inputDigest, Open, t.now + 604800)]))
  {
    if d in t.decisions { PinsJudged(t, d); }
    hide Products, AllPinsActive, HoldsActivePins, PinsABundle;
  }

  lemma PinsJudged(t: Tables, d: Id)
    requires d in t.decisions
    ensures AllPinsActive(t.pointers, t.decisions[d].dependencies) <==> HoldsActivePins(t, d)
    ensures Products(t.decisions[d].dependencies) != {} <==> PinsABundle(t, d)
  {
    if pin :| pin in t.decisions[d].dependencies && pin.kind == ProductBundle {
      assert pin.id in Products(t.decisions[d].dependencies);
    }
  }

  lemma RejectsExactly(t: Tables, d: Id)
    ensures var r := RejectDecision(t, d); var t1 := Apply(t, Reject(d));
      && (r.Committed? <==> AwaitsJudgement(t, d))
      && t1 == if AwaitsJudgement(t, d) then t.(decisions := t.decisions[d := t.decisions[d].(approval := Rejected)]) else t
  {
  }

  lemma RespondsExactly(t: Tables, e: Id)
    ensures var r := RespondToEngagement(t, e); var t1 := Apply(t, Respond(e));
      && (r.Committed? <==> e in t.engagements && t.engagements[e].state in {Open, Responded})
      && t1 == if r.Committed? then t.(engagements := t.engagements[e := t.engagements[e].(state := Responded)]) else t
  {
  }

  /** A consent is granted until the engagement expires and for a day at most, once for a party and a digest; it
      puts the engagement, whatever its state, into CONSENT_PENDING. */
  lemma GrantsExactly(t: Tables, e: Id, party: Party, actor: Id, fieldsHash: Id)
    ensures var r := GrantConsent(t, e, party, actor, fieldsHash); var t1 := Apply(t, Grant(e, party, actor, fieldsHash));
      && (r.Committed? <==>
           && e in t.engagements && t.engagements[e].expires > t.now
           && ConsentKey(e, party, t.engagements[e].inputDigest) !in t.consents)
      && (r.Aborted? ==> t1 == t)
      && (r.Committed? ==>
           && (exists until: nat ::
                && until <= t.engagements[e].expires && until <= t.now + 86400
                && (until == t.engagements[e].expires || until == t.now + 86400)
                && t1.consents == t.consents[ConsentKey(e, party, t.engagements[e].inputDigest) := Consent(actor, fieldsHash, true, until)])
           && t1 == t.(consents := t1.consents, engagements := t.engagements[e := t.engagements[e].(state := ConsentPending)]))
  {
    if GrantConsent(t, e, party, actor, fieldsHash).Committed? {
      var until: nat := if t.engagements[e].expires <= t.now + 86400 then t.engagements[e].expires else t.now + 86400;
      assert Apply(t, Grant(e, party, actor, fieldsHash)).consents
          == t.consents[ConsentKey(e, party, t.engagements[e].inputDigest) := Consent(actor, fieldsHash, true, until)];
    }
  }

  /** Publishing, opening, moving, revoking and waiting change one row, or the clock, and nothing else. */
  lemma SmallChangesExactly(t: Tables, op: Operation)
    ensures op.Tick? ==> Apply(t, op) == t.(now := t.now + op.seconds)
    ensures op.Publish? ==>
      Apply(t, op) == t.(nextId := t.nextId + 1, bundles := t.bundles[t.nextId := Bundle(op.org, op.product, op.digest, op.members, Ready)])
    ensures op.OpenFor? ==> Apply(t, op) == t.(nextId := t.nextId + 1, missions := t.missions[t.nextId := op.mission])
    ensures op.Move? ==>
      Apply(t, op) == (if op.missionId !in t.missions then t
                       else t.(missions := t.missions[op.missionId := t.missions[op.missionId].(state := op.missionState)]))
    ensures op.Revoke? ==>
      Apply(t, op) == (if op.key !in t.consents then t
                       else t.(consents := t.consents[op.key := t.consents[op.key].(granted := false)]))
  {
  }
}
