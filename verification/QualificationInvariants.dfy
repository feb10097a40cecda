/** What every step of the qualification marketplace keeps. */
module QualificationInvariants {
  import opened Outcomes
  import opened QualificationTables
  import opened QualificationSteps

  // ---------- the invariant ----------

  ghost predicate IdsBelow(t: Tables) {
    && (forall k :: k in t.bundles ==> k < t.nextId)
    && (forall k :: k in t.missions ==> k < t.nextId)
    && (forall k :: k in t.attempts ==> k < t.nextId)
    && (forall k :: k in t.decisions ==> k < t.nextId)
    && (forall k :: k in t.engagements ==> k < t.nextId)
    && (forall k :: k in t.introductions ==> k < t.nextId)
  }

  ghost predicate NoRepeats(outbox: seq<EventKey>) {
    forall i, j :: 0 <= i < j < |outbox| ==> outbox[i] != outbox[j]
  }

  ghost predicate PointersNameActive(bundles: map<Id, Bundle>, pointers: map<Id, Pointer>) {
    forall p :: p in pointers ==>
      && pointers[p].bundle in bundles
      && var b := bundles[pointers[p].bundle];
         b.state == Active && b.product == p && b.org == pointers[p].org && b.digest == pointers[p].digest
  }

  ghost predicate ActiveIsPointedTo(bundles: map<Id, Bundle>, pointers: map<Id, Pointer>) {
    forall b :: b in bundles && bundles[b].state == Active ==>
      bundles[b].product in pointers && pointers[bundles[b].product].bundle == b
  }

  /** A bundle has an activation event exactly from its activation on. */
  ghost predicate ActivationsRecorded(bundles: map<Id, Bundle>, outbox: seq<EventKey>) {
    forall b :: b in bundles ==>
      (BundleActivated(b, bundles[b].digest) in outbox <==> bundles[b].state == Active || bundles[b].state == Superseded)
  }

  ghost predicate ActivationsKnown(bundles: map<Id, Bundle>, outbox: seq<EventKey>) {
    forall k :: k in outbox && k.BundleActivated? ==> k.bundle in bundles && k.digest == bundles[k.bundle].digest
  }

  ghost predicate CatalogOk(bundles: map<Id, Bundle>, pointers: map<Id, Pointer>, outbox: seq<EventKey>) {
    && PointersNameActive(bundles, pointers)
    && ActiveIsPointedTo(bundles, pointers)
    && ActivationsRecorded(bundles, outbox)
    && ActivationsKnown(bundles, outbox)
  }

  /** An attempt without a predecessor is the root of its chain; any other sits one below its
      predecessor, in the same mission and chain. */
  ghost predicate LinkedAt(attempts: map<Id, Attempt>, a: Id) {
    a in attempts
    && match attempts[a].predecessor
       case None => attempts[a].depth == 0 && attempts[a].root == a
       case Some(p) =>
         && p in attempts
         && attempts[a].mission == attempts[p].mission
         && attempts[a].root == attempts[p].root
         && attempts[a].depth == attempts[p].depth + 1 <= LAST_DEPTH
  }

  ghost predicate Linked(attempts: map<Id, Attempt>) {
    forall a {:trigger LinkedAt(attempts, a)} :: a in attempts ==> LinkedAt(attempts, a)
  }

  ghost predicate Follows(attempts: map<Id, Attempt>, a: Id, p: Id) {
    a in attempts && attempts[a].predecessor == Some(p)
  }

  ghost predicate OneSuccessor(attempts: map<Id, Attempt>) {
    forall a, b, p {:trigger Follows(attempts, a, p), Follows(attempts, b, p)} ::
      Follows(attempts, a, p) && Follows(attempts, b, p) ==> a == b
  }

  ghost predicate IsRoot(attempts: map<Id, Attempt>, a: Id) {
    a in attempts && attempts[a].predecessor == None
  }

  ghost predicate OneRoot(attempts: map<Id, Attempt>) {
    forall a, b {:trigger IsRoot(attempts, a), IsRoot(attempts, b)} ::
      IsRoot(attempts, a) && IsRoot(attempts, b) && attempts[a].mission == attempts[b].mission ==> a == b
  }

  ghost predicate DecidedBy(attempts: map<Id, Attempt>, decision: Decision) {
    && decision.attempt in attempts
    && attempts[decision.attempt].state == Completed
    && attempts[decision.attempt].mission == decision.mission
  }

  ghost predicate OneDecisionEach(attempts: map<Id, Attempt>, decisions: map<Id, Decision>) {
    && (forall d {:trigger DecidedBy(attempts, decisions[d])} :: d in decisions ==> DecidedBy(attempts, decisions[d]))
    && (forall d, e :: d in decisions && e in decisions && decisions[d].attempt == decisions[e].attempt ==> d == e)
  }

  ghost predicate HasNoCurrent(decisions: map<Id, Decision>, a: Id) {
    forall d :: d in decisions && decisions[d].attempt == a ==> !decisions[d].current
  }

  ghost predicate Spent(attempts: map<Id, Attempt>, decisions: map<Id, Decision>, a: Id) {
    a in attempts
    && (attempts[a].state == Stale || (attempts[a].state == Completed && HasNoCurrent(decisions, a)))
  }

  /** Only the last attempt of a chain can still matter. */
  ghost predicate ReplacedIsSpent(attempts: map<Id, Attempt>, decisions: map<Id, Decision>) {
    forall a, p {:trigger Follows(attempts, a, p)} :: Follows(attempts, a, p) ==> Spent(attempts, decisions, p)
  }

  ghost predicate DecidedAt(decisions: map<Id, Decision>, a: Id) {
    exists d :: d in decisions && decisions[d].attempt == a
  }

  ghost predicate CompletedDecided(attempts: map<Id, Attempt>, decisions: map<Id, Decision>) {
    forall a {:trigger DecidedAt(decisions, a)} :: a in attempts && attempts[a].state == Completed ==> DecidedAt(decisions, a)
  }

  ghost predicate ChainsOk(attempts: map<Id, Attempt>, decisions: map<Id, Decision>) {
    && Linked(attempts)
    && OneSuccessor(attempts)
    && OneRoot(attempts)
    && OneDecisionEach(attempts, decisions)
    && ReplacedIsSpent(attempts, decisions)
    && CompletedDecided(attempts, decisions)
  }

  /** Every lease handed out carries a generation already used, and no generation was handed out twice. */
  ghost predicate LeasesOk(attempts: map<Id, Attempt>, issued: set<Lease>) {
    && (forall l :: l in issued ==> l.attempt in attempts && l.generation <= attempts[l.attempt].generation)
    && (forall l, m :: l in issued && m in issued && l.attempt == m.attempt && l.generation == m.generation ==> l == m)
  }

  ghost predicate SnapshotsOk(attempts: map<Id, Attempt>, snapshots: map<Id, seq<Dependency>>) {
    && (forall a :: a in snapshots ==>
          && a in attempts && snapshots[a] != []
          && attempts[a].state != Queued
          && attempts[a].inputDigest == Some(OfSnapshot(snapshots[a])))
    && (forall a :: a in attempts && (attempts[a].state in {SnapshotComplete, Completed} || attempts[a].inputDigest.Some?) ==> a in snapshots)
  }

  ghost predicate DecisionsBindSnapshots(decisions: map<Id, Decision>, snapshots: map<Id, seq<Dependency>>) {
    forall d :: d in decisions ==>
      && decisions[d].attempt in snapshots
      && decisions[d].dependencies == snapshots[decisions[d].attempt]
      && decisions[d].inputDigest == OfSnapshot(decisions[d].dependencies)
  }

  ghost predicate EngagementsOk(decisions: map<Id, Decision>, engagements: map<Id, Engagement>, consents: map<ConsentKey, Consent>) {
    forall e :: e in engagements ==>
      && engagements[e].decision in decisions
      && (engagements[e].state == Introduced ==>
            && ConsentKey(e, Buyer, engagements[e].inputDigest) in consents
            && ConsentKey(e, Seller, engagements[e].inputDigest) in consents)
      && (engagements[e].state == Invalidated ==> !decisions[engagements[e].decision].current)
  }

  ghost predicate IntroductionsOk(engagements: map<Id, Engagement>, introductions: map<Id, Introduction>) {
    && (forall i :: i in introductions ==>
          && introductions[i].engagement in engagements
          && var e := engagements[introductions[i].engagement];
             e.state == Introduced && e.decision == introductions[i].decision && e.inputDigest == introductions[i].inputDigest)
    && (forall i, j :: i in introductions && j in introductions && introductions[i].engagement == introductions[j].engagement ==> i == j)
    && (forall e :: e in engagements && engagements[e].state == Introduced ==> IntroductionsOf(introductions, e) != {})
  }

  ghost predicate EffectsOk(introductions: map<Id, Introduction>, effects: seq<Effect>) {
    && (forall k :: 0 <= k < |effects| ==>
          && effects[k].introduction in introductions
          && introductions[effects[k].introduction].engagement == effects[k].engagement
          && introductions[effects[k].introduction].inputDigest == effects[k].inputDigest)
    && (forall k, l :: 0 <= k < l < |effects| ==> effects[k].introduction != effects[l].introduction)
    && (forall i :: i in introductions ==> exists k :: 0 <= k < |effects| && effects[k].introduction == i)
  }

  ghost predicate IntroductionEventsOk(introductions: map<Id, Introduction>, outbox: seq<EventKey>) {
    && (forall k :: k in outbox && k.IntroductionCreated? ==>
          exists i :: i in introductions && introductions[i].engagement == k.engagement && introductions[i].inputDigest == k.inputDigest)
    && (forall i :: i in introductions ==> IntroductionCreated(introductions[i].engagement, introductions[i].inputDigest) in outbox)
  }

  /** Events speak of what has happened. */
  ghost predicate EventsKnown(attempts: map<Id, Attempt>, decisions: map<Id, Decision>, outbox: seq<EventKey>) {
    && (forall k :: k in outbox && k.AttemptStale? ==> k.attempt in attempts && attempts[k.attempt].state == Stale)
    && (forall k :: k in outbox && k.DecisionCreated? ==> k.decision in decisions)
  }

  ghost predicate Inv(t: Tables) {
    && IdsBelow(t)
    && NoRepeats(t.outbox)
    && CatalogOk(t.bundles, t.pointers, t.outbox)
    && ChainsOk(t.attempts, t.decisions)
    && LeasesOk(t.attempts, t.issued)
    && SnapshotsOk(t.attempts, t.snapshots)
    && DecisionsBindSnapshots(t.decisions, t.snapshots)
    && EngagementsOk(t.decisions, t.engagements, t.consents)
    && IntroductionsOk(t.engagements, t.introductions)
    && EffectsOk(t.introductions, t.effects)
    && IntroductionEventsOk(t.introductions, t.outbox)
    && EventsKnown(t.attempts, t.decisions, t.outbox)
  }

  // ---------- new identifiers ----------

  lemma FreshIds(t: Tables)
    requires Inv(t)
    ensures t.nextId !in t.bundles && t.nextId !in t.missions && t.nextId !in t.attempts && t.nextId !in t.decisions
    ensures t.nextId !in t.engagements && t.nextId !in t.introductions
  {
    hide EventsKnown, ChainsOk, LeasesOk, SnapshotsOk, IntroductionsOk, EffectsOk, IntroductionEventsOk, NoRepeats, DecisionsBindSnapshots, EngagementsOk, CatalogOk;
  }

  // ---------- the outbox ----------

  /** Appending a new key of another kind disturbs nothing recorded about bundles or introductions. */
  lemma AppendKey(t: Tables, key: EventKey)
    requires NoRepeats(t.outbox) && key !in t.outbox
    ensures NoRepeats(t.outbox + [key])
    ensures forall k :: k in t.outbox + [key] <==> k in t.outbox || k == key
  {
    var after := t.outbox + [key];
    forall i, j | 0 <= i < j < |after| ensures after[i] != after[j] {
      assert after[i] == t.outbox[i];
    }
  }

  lemma AppendKnown(t: Tables, key: EventKey)
    requires EventsKnown(t.attempts, t.decisions, t.outbox)
    requires key.AttemptStale? ==> key.attempt in t.attempts && t.attempts[key.attempt].state == Stale
    requires key.DecisionCreated? ==> key.decision in t.decisions
    ensures EventsKnown(t.attempts, t.decisions, t.outbox + [key])
  {
  }

  lemma AppendOtherKey(t: Tables, key: EventKey)
    requires NoRepeats(t.outbox) && key !in t.outbox && CatalogOk(t.bundles, t.pointers, t.outbox) && IntroductionEventsOk(t.introductions, t.outbox)
    requires !key.BundleActivated? && !key.IntroductionCreated?
    ensures NoRepeats(t.outbox + [key])
    ensures CatalogOk(t.bundles, t.pointers, t.outbox + [key])
    ensures IntroductionEventsOk(t.introductions, t.outbox + [key])
  {
    AppendKey(t, key);
  }

  // ---------- the catalogue ----------

  lemma PublishKeepsCatalog(t: Tables, org: Id, product: Id, digest: Digest, members: seq<Member>)
    requires Inv(t)
    ensures Inv(PublishBundle(t, org, product, digest, members).tables)
  {
    hide EventsKnown, ChainsOk, LeasesOk, SnapshotsOk, IntroductionsOk, EffectsOk, IntroductionEventsOk, NoRepeats,
         EngagementsOk, DecisionsBindSnapshots;
    var t1 := PublishBundle(t, org, product, digest, members).tables;
    assert t.nextId !in t.bundles;
    assert CatalogOk(t1.bundles, t1.pointers, t1.outbox);
  }

  lemma ActivateKeepsPointers(t: Tables, org: Id, id: Id, expected: Digest)
    requires PointersNameActive(t.bundles, t.pointers) && ActiveIsPointedTo(t.bundles, t.pointers)
    requires ActivateBundle(t, org, id, expected).Committed?
    ensures var t1 := ActivateBundle(t, org, id, expected).tables;
      PointersNameActive(t1.bundles, t1.pointers) && ActiveIsPointedTo(t1.bundles, t1.pointers)
  {
    var t1 := ActivateBundle(t, org, id, expected).tables;
    var product := t.bundles[id].product;
    forall p | p in t1.pointers
      ensures t1.pointers[p].bundle in t1.bundles
      ensures var b := t1.bundles[t1.pointers[p].bundle];
        b.state == Active && b.product == p && b.org == t1.pointers[p].org && b.digest == t1.pointers[p].digest
    {
      if p != product { assert t1.pointers[p] == t.pointers[p]; }
    }
  }

  /** Retiring one active bundle and activating another, with the event of the second. */
  lemma ActivationIsRecorded(bundles: map<Id, Bundle>, outbox: seq<EventKey>, retired: map<Id, Bundle>, id: Id)
    requires ActivationsRecorded(bundles, outbox) && id in bundles && retired.Keys == bundles.Keys
    requires forall b :: b in bundles ==>
      || retired[b] == bundles[b]
      || (bundles[b].state == Active && retired[b] == bundles[b].(state := Superseded))
    ensures ActivationsRecorded(retired[id := bundles[id].(state := Active)], outbox + [BundleActivated(id, bundles[id].digest)])
  {
    var key := BundleActivated(id, bundles[id].digest);
    var after := retired[id := bundles[id].(state := Active)];
    forall b | b in after
      ensures BundleActivated(b, after[b].digest) in outbox + [key] <==> after[b].state == Active || after[b].state == Superseded
    {
      assert BundleActivated(b, bundles[b].digest) in outbox <==> bundles[b].state == Active || bundles[b].state == Superseded;
    }
  }

  lemma ActivationIsKnown(bundles: map<Id, Bundle>, outbox: seq<EventKey>, after: map<Id, Bundle>, id: Id)
    requires ActivationsKnown(bundles, outbox) && id in bundles && bundles.Keys <= after.Keys
    requires forall b :: b in bundles ==> after[b].digest == bundles[b].digest
    ensures ActivationsKnown(after, outbox + [BundleActivated(id, bundles[id].digest)])
  {
  }

  lemma ActivateKeepsCatalogEvents(t: Tables, org: Id, id: Id, expected: Digest)
    requires CatalogOk(t.bundles, t.pointers, t.outbox) && ActivateBundle(t, org, id, expected).Committed?
    ensures var t1 := ActivateBundle(t, org, id, expected).tables;
      ActivationsRecorded(t1.bundles, t1.outbox) && ActivationsKnown(t1.bundles, t1.outbox)
  {
    hide ActivationsRecorded, ActivationsKnown, PointersNameActive, ActiveIsPointedTo, PointTo;
    var product := t.bundles[id].product;
    var retired := if product in t.pointers && t.pointers[product].bundle != id
                   then Retire(t.bundles, t.pointers[product].bundle) else t.bundles;
    ActivationIsRecorded(t.bundles, t.outbox, retired, id);
    ActivationIsKnown(t.bundles, t.outbox, ActivateBundle(t, org, id, expected).tables.bundles, id);
  }

  lemma ActivateKeepsOtherEvents(t: Tables, org: Id, id: Id, expected: Digest)
    requires NoRepeats(t.outbox) && EventsKnown(t.attempts, t.decisions, t.outbox) && IntroductionEventsOk(t.introductions, t.outbox)
    requires ActivateBundle(t, org, id, expected).Committed?
    ensures var t1 := ActivateBundle(t, org, id, expected).tables;
      NoRepeats(t1.outbox) && IntroductionEventsOk(t1.introductions, t1.outbox) && EventsKnown(t1.attempts, t1.decisions, t1.outbox)
  {
    AppendKey(t, BundleActivated(id, t.bundles[id].digest));
    AppendKnown(t, BundleActivated(id, t.bundles[id].digest));
    hide EventsKnown, NoRepeats, Retire, PointTo;
  }

  lemma ActivateKeepsInv(t: Tables, org: Id, id: Id, expected: Digest)
    requires Inv(t) && ActivateBundle(t, org, id, expected).Committed?
    ensures Inv(ActivateBundle(t, org, id, expected).tables)
  {
    hide EventsKnown, ChainsOk, LeasesOk, SnapshotsOk, DecisionsBindSnapshots, EngagementsOk, IntroductionsOk, EffectsOk,
         IntroductionEventsOk, NoRepeats, PointersNameActive, ActiveIsPointedTo, ActivationsRecorded, ActivationsKnown, PointTo;
    ActivateKeepsPointers(t, org, id, expected);
    ActivateKeepsCatalogEvents(t, org, id, expected);
    ActivateKeepsOtherEvents(t, org, id, expected);
  }

  // ---------- attempts ----------

  ghost predicate SamePlace(a: Attempt, b: Attempt) {
    a.mission == b.mission && a.root == b.root && a.predecessor == b.predecessor && a.depth == b.depth
  }

  /** An unfinished attempt has not been replaced and has no decision. */
  lemma UnfinishedIsLast(attempts: map<Id, Attempt>, decisions: map<Id, Decision>, a: Id)
    requires ChainsOk(attempts, decisions) && a in attempts && attempts[a].state !in {Stale, Completed}
    ensures Successors(attempts, a) == {}
    ensures forall b :: !Follows(attempts, b, a)
    ensures forall d :: d in decisions ==> decisions[d].attempt != a
  {
    forall b ensures !Follows(attempts, b, a) {
      if Follows(attempts, b, a) { assert false; }
    }
    forall b | b in Successors(attempts, a) ensures false { assert Follows(attempts, b, a); }
    forall d | d in decisions ensures decisions[d].attempt != a { assert DecidedBy(attempts, decisions[d]); }
  }

  lemma MoveKeepsLinks(attempts: map<Id, Attempt>, a: Id, to: Attempt)
    requires Linked(attempts) && OneSuccessor(attempts) && OneRoot(attempts)
    requires a in attempts && SamePlace(attempts[a], to)
    ensures Linked(attempts[a := to]) && OneSuccessor(attempts[a := to]) && OneRoot(attempts[a := to])
  {
    var after := attempts[a := to];
    forall b | b in after ensures LinkedAt(after, b) { assert LinkedAt(attempts, b); }
    forall b, c, p | Follows(after, b, p) && Follows(after, c, p) ensures b == c {
      assert Follows(attempts, b, p) && Follows(attempts, c, p);
    }
    forall b, c | IsRoot(after, b) && IsRoot(after, c) && after[b].mission == after[c].mission ensures b == c {
      assert IsRoot(attempts, b) && IsRoot(attempts, c);
    }
  }

  /** An unfinished attempt may move to any state but COMPLETED. */
  lemma MoveKeepsChains(attempts: map<Id, Attempt>, decisions: map<Id, Decision>, a: Id, to: Attempt)
    requires ChainsOk(attempts, decisions) && a in attempts && attempts[a].state !in {Stale, Completed}
    requires SamePlace(attempts[a], to) && to.state != Completed
    ensures ChainsOk(attempts[a := to], decisions)
  {
    UnfinishedIsLast(attempts, decisions, a);
    MoveKeepsLinks(attempts, a, to);
    hide Linked, OneSuccessor, OneRoot;
    var after := attempts[a := to];
    forall d | d in decisions ensures DecidedBy(after, decisions[d]) { assert DecidedBy(attempts, decisions[d]); }
    forall b, p | Follows(after, b, p) ensures Spent(after, decisions, p) {
      assert Follows(attempts, b, p);
      assert Spent(attempts, decisions, p);
    }
    forall b | b in after && after[b].state == Completed ensures DecidedAt(decisions, b) {}
  }

  /** A decision completes the attempt it binds. */
  lemma CompleteKeepsChains(attempts: map<Id, Attempt>, decisions: map<Id, Decision>, a: Id, to: Attempt, id: Id, decision: Decision)
    requires ChainsOk(attempts, decisions) && a in attempts && attempts[a].state !in {Stale, Completed}
    requires SamePlace(attempts[a], to) && to.state == Completed
    requires id !in decisions && decision.attempt == a && decision.mission == to.mission
    ensures ChainsOk(attempts[a := to], decisions[id := decision])
  {
    UnfinishedIsLast(attempts, decisions, a);
    MoveKeepsLinks(attempts, a, to);
    hide Linked, OneSuccessor, OneRoot;
    var after, decided := attempts[a := to], decisions[id := decision];
    forall d | d in decided ensures DecidedBy(after, decided[d]) {
      if d != id { assert DecidedBy(attempts, decisions[d]); }
    }
    forall b, p | Follows(after, b, p) ensures Spent(after, decided, p) {
      assert Follows(attempts, b, p);
      assert Spent(attempts, decisions, p);
    }
    forall b | b in after && after[b].state == Completed ensures DecidedAt(decided, b) {
      if b == a {
        assert id in decided && decided[id].attempt == a;
      } else {
        assert DecidedAt(decisions, b);
        var d :| d in decisions && decisions[d].attempt == b;
        assert d in decided && decided[d].attempt == b;
      }
    }
  }

  function Replacement(attempts: map<Id, Attempt>, p: Id): Attempt
    requires p in attempts
  {
    Attempt(attempts[p].mission, attempts[p].root, Some(p), attempts[p].depth + 1, Queued, 0, None, None)
  }

  lemma ReplaceKeepsLinks(attempts: map<Id, Attempt>, p: Id, id: Id)
    requires Linked(attempts) && OneSuccessor(attempts) && OneRoot(attempts)
    requires p in attempts && Successors(attempts, p) == {} && attempts[p].depth < LAST_DEPTH && id !in attempts
    ensures var after := attempts[id := Replacement(attempts, p)];
      Linked(after) && OneSuccessor(after) && OneRoot(after)
  {
    var after := attempts[id := Replacement(attempts, p)];
    forall b | b in after ensures LinkedAt(after, b) { if b != id { assert LinkedAt(attempts, b); } }
    forall b, c, q | Follows(after, b, q) && Follows(after, c, q) ensures b == c {
      if b != id && c != id { assert Follows(attempts, b, q) && Follows(attempts, c, q); }
      assert b in Successors(attempts, p) <==> Follows(attempts, b, p);
      assert c in Successors(attempts, p) <==> Follows(attempts, c, p);
    }
    forall b, c | IsRoot(after, b) && IsRoot(after, c) && after[b].mission == after[c].mission ensures b == c {
      assert IsRoot(attempts, b) && IsRoot(attempts, c);
    }
  }

  lemma ReplaceKeepsChains(attempts: map<Id, Attempt>, decisions: map<Id, Decision>, p: Id, id: Id)
    requires ChainsOk(attempts, decisions) && Spent(attempts, decisions, p)
    requires Successors(attempts, p) == {} && attempts[p].depth < LAST_DEPTH && id !in attempts
    ensures ChainsOk(attempts[id := Replacement(attempts, p)], decisions)
  {
    ReplaceKeepsLinks(attempts, p, id);
    hide Linked, OneSuccessor, OneRoot;
    var after := attempts[id := Replacement(attempts, p)];
    forall d | d in decisions ensures DecidedBy(after, decisions[d]) { assert DecidedBy(attempts, decisions[d]); }
    forall b, q | Follows(after, b, q) ensures Spent(after, decisions, q) {
      if b != id { assert Follows(attempts, b, q); }
      assert Spent(attempts, decisions, q);
    }
    forall b | b in after && after[b].state == Completed ensures DecidedAt(decisions, b) {}
  }

  /** Withdrawing or judging a decision keeps the chains; withdrawing it leaves its attempt spent. */
  lemma JudgeKeepsChains(attempts: map<Id, Attempt>, decisions: map<Id, Decision>, d: Id, to: Decision)
    requires ChainsOk(attempts, decisions) && d in decisions
    requires to.attempt == decisions[d].attempt && to.mission == decisions[d].mission
    requires to.current ==> decisions[d].current
    ensures ChainsOk(attempts, decisions[d := to])
    ensures !to.current ==> Spent(attempts, decisions[d := to], to.attempt)
  {
    hide Linked, OneSuccessor, OneRoot;
    var after := decisions[d := to];
    forall e | e in after ensures DecidedBy(attempts, after[e]) { assert DecidedBy(attempts, decisions[e]); }
    forall b, p | Follows(attempts, b, p) ensures Spent(attempts, after, p) { assert Spent(attempts, decisions, p); }
    forall b | b in attempts && attempts[b].state == Completed ensures DecidedAt(after, b) {
      assert DecidedAt(decisions, b);
      var e :| e in decisions && decisions[e].attempt == b;
      assert e in after && after[e].attempt == b;
    }
    assert DecidedBy(attempts, after[d]);
  }

  lemma StartKeepsChains(attempts: map<Id, Attempt>, decisions: map<Id, Decision>, mission: Id, id: Id)
    requires ChainsOk(attempts, decisions) && id !in attempts
    requires forall a :: a in attempts ==> attempts[a].mission != mission
    ensures ChainsOk(attempts[id := Attempt(mission, id, None, 0, Queued, 0, None, None)], decisions)
  {
    var after := attempts[id := Attempt(mission, id, None, 0, Queued, 0, None, None)];
    forall b | b in after ensures LinkedAt(after, b) { if b != id { assert LinkedAt(attempts, b); } }
    forall b, c, q | Follows(after, b, q) && Follows(after, c, q) ensures b == c {
      assert Follows(attempts, b, q) && Follows(attempts, c, q);
    }
    forall b, c | IsRoot(after, b) && IsRoot(after, c) && after[b].mission == after[c].mission ensures b == c {
      if b != id && c != id { assert IsRoot(attempts, b) && IsRoot(attempts, c); }
    }
    forall d | d in decisions ensures DecidedBy(after, decisions[d]) { assert DecidedBy(attempts, decisions[d]); }
    forall b, q | Follows(after, b, q) ensures Spent(after, decisions, q) {
      assert Follows(attempts, b, q);
      assert Spent(attempts, decisions, q);
    }
    forall b | b in after && after[b].state == Completed ensures DecidedAt(decisions, b) {}
  }

  lemma MoveKeepsLeases(attempts: map<Id, Attempt>, issued: set<Lease>, a: Id, to: Attempt)
    requires LeasesOk(attempts, issued) && a in attempts && to.generation >= attempts[a].generation
    ensures LeasesOk(attempts[a := to], issued)
  {
  }

  lemma MoveKeepsSnapshots(attempts: map<Id, Attempt>, snapshots: map<Id, seq<Dependency>>, a: Id, to: Attempt)
    requires SnapshotsOk(attempts, snapshots) && a in attempts
    requires to.inputDigest == attempts[a].inputDigest && to.state != Queued
    requires to.state in {SnapshotComplete, Completed} ==> a in snapshots
    ensures SnapshotsOk(attempts[a := to], snapshots)
  {
  }

  lemma MoveKeepsEvents(attempts: map<Id, Attempt>, decisions: map<Id, Decision>, outbox: seq<EventKey>, a: Id, to: Attempt, more: map<Id, Decision>)
    requires EventsKnown(attempts, decisions, outbox) && a in attempts && attempts[a].state != Stale
    requires decisions.Keys <= more.Keys
    ensures EventsKnown(attempts[a := to], more, outbox)
  {
  }

  lemma NewKeepsEvents(attempts: map<Id, Attempt>, decisions: map<Id, Decision>, outbox: seq<EventKey>, id: Id, a: Attempt)
    requires EventsKnown(attempts, decisions, outbox) && id !in attempts
    ensures EventsKnown(attempts[id := a], decisions, outbox)
  {
  }

  lemma NewKeepsLeasesAndSnapshots(attempts: map<Id, Attempt>, issued: set<Lease>, snapshots: map<Id, seq<Dependency>>, id: Id, a: Attempt)
    requires LeasesOk(attempts, issued) && SnapshotsOk(attempts, snapshots) && id !in attempts && a.state == Queued && a.inputDigest == None
    ensures LeasesOk(attempts[id := a], issued) && SnapshotsOk(attempts[id := a], snapshots)
  {
  }

  // ---------- steps on attempts ----------

  lemma StartKeepsInv(t: Tables, mission: Id)
    requires Inv(t) && StartMission(t, mission).Committed?
    ensures Inv(StartMission(t, mission).tables)
  {
    hide EventsKnown, ChainsOk, LeasesOk, SnapshotsOk, CatalogOk, IntroductionsOk, EffectsOk, IntroductionEventsOk, NoRepeats,
         EngagementsOk, DecisionsBindSnapshots;
    NextIdIsFresh(t);
    var to := StartMission(t, mission).tables.attempts[t.nextId];
    StartKeepsChains(t.attempts, t.decisions, mission, t.nextId);
    NewKeepsLeasesAndSnapshots(t.attempts, t.issued, t.snapshots, t.nextId, to);
    NewKeepsEvents(t.attempts, t.decisions, t.outbox, t.nextId, to);
  }

  lemma IssueKeepsLeases(attempts: map<Id, Attempt>, issued: set<Lease>, a: Id, to: Attempt, lease: Lease)
    requires LeasesOk(attempts, issued) && a in attempts && lease.attempt == a
    requires to.generation == lease.generation == attempts[a].generation + 1
    ensures LeasesOk(attempts[a := to], issued + {lease})
  {
  }

  lemma ClaimKeepsInv(t: Tables, attempt: Id, owner: Id, seconds: int)
    requires Inv(t) && ClaimAttempt(t, attempt, owner, seconds).Committed?
    ensures Inv(ClaimAttempt(t, attempt, owner, seconds).tables)
  {
    hide EventsKnown, ChainsOk, LeasesOk, SnapshotsOk, CatalogOk, IntroductionsOk, EffectsOk, IntroductionEventsOk, NoRepeats,
         EngagementsOk, DecisionsBindSnapshots;
    var t1 := ClaimAttempt(t, attempt, owner, seconds).tables;
    var to := t1.attempts[attempt];
    MoveKeepsChains(t.attempts, t.decisions, attempt, to);
    MoveKeepsSnapshots(t.attempts, t.snapshots, attempt, to);
    IssueKeepsLeases(t.attempts, t.issued, attempt, to, ClaimAttempt(t, attempt, owner, seconds).result);
    MoveKeepsEvents(t.attempts, t.decisions, t.outbox, attempt, to, t.decisions);
  }

  lemma DependenciesExist(t: Tables, org: Id, attempt: Id, mission: Mission)
    ensures DependenciesOf(t, org, attempt, mission) != []
  {
    hide BundleDependencies, MemberDependencies, PinnedProducts, PinsOf;
  }

  lemma FirstSnapshotKeepsSnapshots(t: Tables, a: Id, to: Attempt, dependencies: seq<Dependency>)
    requires SnapshotsOk(t.attempts, t.snapshots) && DecisionsBindSnapshots(t.decisions, t.snapshots)
    requires a in t.attempts && a !in t.snapshots && dependencies != []
    requires to.state == SnapshotComplete && to.inputDigest == Some(OfSnapshot(dependencies))
    ensures SnapshotsOk(t.attempts[a := to], t.snapshots[a := dependencies])
    ensures DecisionsBindSnapshots(t.decisions, t.snapshots[a := dependencies])
  {
  }

  lemma FirstSnapshotKeepsInv(t: Tables, a: Id, to: Attempt, dependencies: seq<Dependency>, checkpoints: set<CheckpointKey>)
    requires Inv(t) && a in t.attempts && t.attempts[a].state in {Running, SnapshotComplete}
    requires SnapshotOf(t, a) == [] && dependencies != []
    requires to == t.attempts[a].(state := SnapshotComplete, inputDigest := Some(OfSnapshot(dependencies)))
    ensures Inv(t.(snapshots := t.snapshots[a := dependencies], attempts := t.attempts[a := to], checkpoints := checkpoints))
  {
    hide EventsKnown, ChainsOk, LeasesOk, SnapshotsOk, CatalogOk, IntroductionsOk, EffectsOk, IntroductionEventsOk, NoRepeats,
         EngagementsOk, DecisionsBindSnapshots;
    SnapshotIsNew(t, a);
    MoveKeepsChains(t.attempts, t.decisions, a, to);
    MoveKeepsLeases(t.attempts, t.issued, a, to);
    FirstSnapshotKeepsSnapshots(t, a, to, dependencies);
    MoveKeepsEvents(t.attempts, t.decisions, t.outbox, a, to, t.decisions);
  }

  lemma SnapshotIsNew(t: Tables, a: Id)
    requires SnapshotsOk(t.attempts, t.snapshots) && SnapshotOf(t, a) == []
    ensures a !in t.snapshots
  {
  }

  lemma SnapshotKeepsInv(t: Tables, org: Id, lease: Lease)
    requires Inv(t) && SnapshotAttempt(t, org, lease).Committed?
    ensures Inv(SnapshotAttempt(t, org, lease).tables)
  {
    hide Inv, DependenciesOf, DistinctKeys, MembersOf, PinsOf;
    if SnapshotOf(t, lease.attempt) == [] {
      var mission := t.missions[t.attempts[lease.attempt].mission];
      var dependencies := DependenciesOf(t, org, lease.attempt, mission);
      DependenciesExist(t, org, lease.attempt, mission);
      FirstSnapshotKeepsInv(
        t, lease.attempt,
        t.attempts[lease.attempt].(state := SnapshotComplete, inputDigest := Some(OfSnapshot(dependencies))),
        dependencies, t.checkpoints + {CheckpointKey(lease.attempt, 1)});
    }
  }

  /** Creating (or finding) the replacement of a spent attempt. */
  lemma ReplacementKeepsInv(t: Tables, attempt: Id)
    requires Inv(t) && Spent(t.attempts, t.decisions, attempt) && ReplacementFor(t, attempt).Committed?
    ensures Inv(ReplacementFor(t, attempt).tables)
  {
    hide EventsKnown, ChainsOk, LeasesOk, SnapshotsOk, CatalogOk, IntroductionsOk, EffectsOk, IntroductionEventsOk, NoRepeats,
         EngagementsOk, DecisionsBindSnapshots;
    if Successors(t.attempts, attempt) == {} {
      NextIdIsFresh(t);
      ReplaceKeepsChains(t.attempts, t.decisions, attempt, t.nextId);
      var to := Replacement(t.attempts, attempt);
      NewKeepsLeasesAndSnapshots(t.attempts, t.issued, t.snapshots, t.nextId, to);
      NewKeepsEvents(t.attempts, t.decisions, t.outbox, t.nextId, to);
    }
  }

  lemma MarkStaleKeepsInv(t: Tables, attempt: Id)
    requires Inv(t) && attempt in t.attempts && t.attempts[attempt].state !in {Stale, Completed, Queued}
    ensures Inv(t.(attempts := t.attempts[attempt := t.attempts[attempt].(state := Stale)]))
  {
    hide EventsKnown, ChainsOk, LeasesOk, SnapshotsOk, CatalogOk, IntroductionsOk, EffectsOk, IntroductionEventsOk, NoRepeats,
         EngagementsOk, DecisionsBindSnapshots;
    var to := t.attempts[attempt].(state := Stale);
    MoveKeepsChains(t.attempts, t.decisions, attempt, to);
    MoveKeepsLeases(t.attempts, t.issued, attempt, to);
    MoveKeepsSnapshots(t.attempts, t.snapshots, attempt, to);
    MoveKeepsEvents(t.attempts, t.decisions, t.outbox, attempt, to, t.decisions);
  }

  /** Recording an event that concerns neither a bundle nor an introduction. */
  lemma RecordKeepsInv(t: Tables, key: EventKey)
    requires Inv(t) && key !in t.outbox && !key.BundleActivated? && !key.IntroductionCreated?
    requires key.AttemptStale? ==> key.attempt in t.attempts && t.attempts[key.attempt].state == Stale
    requires key.DecisionCreated? ==> key.decision in t.decisions
    ensures Inv(t.(outbox := t.outbox + [key]))
  {
    AppendOtherKey(t, key);
    AppendKnown(t, key);
    hide EventsKnown, ChainsOk, LeasesOk, SnapshotsOk, EngagementsOk, IntroductionsOk, EffectsOk, DecisionsBindSnapshots,
         CatalogOk, NoRepeats, IntroductionEventsOk;
  }

  lemma ReplacementRow(t: Tables, attempt: Id)
    requires attempt in t.attempts && ReplacementFor(t, attempt).Committed?
    ensures var t1 := ReplacementFor(t, attempt).tables;
      || t1 == t
      || t1 == t.(nextId := t.nextId + 1, attempts := t.attempts[t.nextId := Replacement(t.attempts, attempt)])
  {
  }

  lemma RetireStaleKeepsInv(t: Tables, attempt: Id)
    requires Inv(t) && attempt in t.attempts && t.attempts[attempt].state !in {Stale, Completed, Queued}
    requires RetireStale(t, attempt).Committed?
    ensures Inv(RetireStale(t, attempt).tables)
  {
    hide Inv, ReplacementFor;
    var staled := t.(attempts := t.attempts[attempt := t.attempts[attempt].(state := Stale)]);
    MarkStaleKeepsInv(t, attempt);
    ReplacementKeepsInv(staled, attempt);
    FreshIds(staled);
    ReplacementRow(staled, attempt);
    RecordKeepsInv(ReplacementFor(staled, attempt).tables, AttemptStale(attempt, t.attempts[attempt].generation));
  }

  lemma DecideKeepsBindings(t: Tables, id: Id, decision: Decision)
    requires EngagementsOk(t.decisions, t.engagements, t.consents) && DecisionsBindSnapshots(t.decisions, t.snapshots)
    requires decision.attempt in t.snapshots && decision.dependencies == t.snapshots[decision.attempt]
    requires decision.inputDigest == OfSnapshot(decision.dependencies) && id !in t.decisions
    ensures EngagementsOk(t.decisions[id := decision], t.engagements, t.consents)
    ensures DecisionsBindSnapshots(t.decisions[id := decision], t.snapshots)
  {
  }

  lemma CompleteSnapshotIsBound(attempts: map<Id, Attempt>, snapshots: map<Id, seq<Dependency>>, a: Id)
    requires SnapshotsOk(attempts, snapshots) && a in attempts && attempts[a].state == SnapshotComplete
    ensures a in snapshots && attempts[a].inputDigest == Some(OfSnapshot(snapshots[a]))
  {
  }

  lemma NextIdIsFresh(t: Tables)
    requires IdsBelow(t)
    ensures t.nextId !in t.attempts && t.nextId !in t.decisions && t.nextId !in t.engagements && t.nextId !in t.introductions
  {
  }

  lemma DecideKeepsInv(t: Tables, lease: Lease, recommended: Id, cited: set<Id>)
    requires Inv(t) && FinalizeAttempt(t, lease, recommended, cited).Committed?
    requires AllPinsActive(t.pointers, SnapshotOf(t, lease.attempt))
    ensures Inv(FinalizeAttempt(t, lease, recommended, cited).tables)
  {
    hide AllPinsActive, Identifiers, Products;
    hide EventsKnown, ChainsOk, LeasesOk, SnapshotsOk, CatalogOk, IntroductionsOk, EffectsOk, IntroductionEventsOk, NoRepeats,
         EngagementsOk, DecisionsBindSnapshots;
    var t1 := FinalizeAttempt(t, lease, recommended, cited).tables;
    var a := lease.attempt;
    var unrecorded := t1.(outbox := t.outbox);
    NextIdIsFresh(t);
    CompleteSnapshotIsBound(t.attempts, t.snapshots, a);
    CompleteKeepsChains(t.attempts, t.decisions, a, t1.attempts[a], t.nextId, t1.decisions[t.nextId]);
    MoveKeepsLeases(t.attempts, t.issued, a, t1.attempts[a]);
    MoveKeepsSnapshots(t.attempts, t.snapshots, a, t1.attempts[a]);
    DecideKeepsBindings(t, t.nextId, t1.decisions[t.nextId]);
    MoveKeepsEvents(t.attempts, t.decisions, t.outbox, a, t1.attempts[a], t1.decisions);
    assert Inv(unrecorded);
    hide Inv;
    RecordKeepsInv(unrecorded, DecisionCreated(t.nextId));
  }

  lemma FinalizeKeepsInv(t: Tables, lease: Lease, recommended: Id, cited: set<Id>)
    requires Inv(t) && FinalizeAttempt(t, lease, recommended, cited).Committed?
    ensures Inv(FinalizeAttempt(t, lease, recommended, cited).tables)
  {
    hide Inv;
    if AllPinsActive(t.pointers, SnapshotOf(t, lease.attempt)) {
      DecideKeepsInv(t, lease, recommended, cited);
    } else {
      RetireStaleKeepsInv(t, lease.attempt);
    }
  }

  // ---------- steps on decisions and engagements ----------

  lemma JudgeKeepsBindings(t: Tables, d: Id, to: Decision)
    requires d in t.decisions && to == t.decisions[d].(approval := to.approval, current := to.current)
    requires to.current ==> t.decisions[d].current
    ensures EngagementsOk(t.decisions, t.engagements, t.consents) ==> EngagementsOk(t.decisions[d := to], t.engagements, t.consents)
    ensures DecisionsBindSnapshots(t.decisions, t.snapshots) ==> DecisionsBindSnapshots(t.decisions[d := to], t.snapshots)
    ensures EventsKnown(t.attempts, t.decisions, t.outbox) ==> EventsKnown(t.attempts, t.decisions[d := to], t.outbox)
  {
  }

  lemma JudgeKeepsInv(t: Tables, d: Id, to: Decision)
    requires Inv(t) && d in t.decisions
    requires to == t.decisions[d].(approval := to.approval, current := to.current) && (to.current ==> t.decisions[d].current)
    ensures Inv(t.(decisions := t.decisions[d := to]))
    ensures !to.current ==> Spent(t.attempts, t.decisions[d := to], to.attempt)
  {
    hide EventsKnown, ChainsOk, LeasesOk, SnapshotsOk, CatalogOk, IntroductionsOk, EffectsOk, IntroductionEventsOk, NoRepeats,
         EngagementsOk, DecisionsBindSnapshots;
    JudgeKeepsChains(t.attempts, t.decisions, d, to);
    JudgeKeepsBindings(t, d, to);
  }

  /** Engagement rows that change only in state, and not into or out of INTRODUCED. */
  lemma StatesKeepEngagements(t: Tables, engagements: map<Id, Engagement>)
    requires EngagementsOk(t.decisions, t.engagements, t.consents) && IntroductionsOk(t.engagements, t.introductions)
    requires engagements.Keys == t.engagements.Keys
    requires forall e :: e in engagements ==> engagements[e].(state := t.engagements[e].state) == t.engagements[e]
    requires forall e :: e in engagements ==> (engagements[e].state == Introduced <==> t.engagements[e].state == Introduced)
    requires forall e :: e in engagements && engagements[e].state == Invalidated && t.engagements[e].state != Invalidated ==>
      engagements[e].decision in t.decisions && !t.decisions[engagements[e].decision].current
    ensures EngagementsOk(t.decisions, engagements, t.consents) && IntroductionsOk(engagements, t.introductions)
  {
  }

  /** Changing the state of an engagement that has not been introduced, to another such state. */
  lemma MoveEngagementKeepsInv(t: Tables, e: Id, state: EngagementState)
    requires Inv(t) && e in t.engagements && t.engagements[e].state != Introduced && state !in {Introduced, Invalidated}
    ensures Inv(t.(engagements := t.engagements[e := t.engagements[e].(state := state)]))
  {
    hide EventsKnown, ChainsOk, LeasesOk, SnapshotsOk, CatalogOk, IntroductionsOk, EffectsOk, IntroductionEventsOk, NoRepeats,
         EngagementsOk, DecisionsBindSnapshots;
    StatesKeepEngagements(t, t.engagements[e := t.engagements[e].(state := state)]);
  }

  lemma WithdrawEngagementsKeepsInv(t: Tables, d: Id)
    requires Inv(t) && d in t.decisions && !t.decisions[d].current
    ensures Inv(t.(engagements := WithdrawEngagements(t.engagements, d)))
  {
    hide EventsKnown, ChainsOk, LeasesOk, SnapshotsOk, CatalogOk, IntroductionsOk, EffectsOk, IntroductionEventsOk, NoRepeats,
         EngagementsOk, DecisionsBindSnapshots;
    StatesKeepEngagements(t, WithdrawEngagements(t.engagements, d));
  }

  lemma ConsentKeepsInv(t: Tables, consents: map<ConsentKey, Consent>)
    requires Inv(t) && t.consents.Keys <= consents.Keys
    ensures Inv(t.(consents := consents))
  {
    hide EventsKnown, ChainsOk, LeasesOk, SnapshotsOk, CatalogOk, IntroductionsOk, EffectsOk, IntroductionEventsOk, NoRepeats;
  }

  lemma GrantKeepsInv(t: Tables, e: Id, party: Party, actor: Id, fieldsHash: Id)
    requires Inv(t) && GrantConsent(t, e, party, actor, fieldsHash).Committed?
    ensures Inv(GrantConsent(t, e, party, actor, fieldsHash).tables)
  {
    var t1 := GrantConsent(t, e, party, actor, fieldsHash).tables;
    assert t.engagements[e].state != Introduced by { hide EventsKnown, ChainsOk, LeasesOk, SnapshotsOk, CatalogOk, EffectsOk; }
    hide Inv;
    MoveEngagementKeepsInv(t, e, ConsentPending);
    ConsentKeepsInv(t.(engagements := t1.engagements), t1.consents);
  }

  lemma OpenEngagementKeepsInv(t: Tables, engagement: Engagement)
    requires Inv(t) && engagement.decision in t.decisions && engagement.state == Open
    ensures Inv(t.(nextId := t.nextId + 1, engagements := t.engagements[t.nextId := engagement]))
  {
    hide EventsKnown, ChainsOk, LeasesOk, SnapshotsOk, CatalogOk, EffectsOk, IntroductionEventsOk, NoRepeats, DecisionsBindSnapshots;
    NextIdIsFresh(t);
  }

  lemma ApproveKeepsInv(t: Tables, d: Id)
    requires Inv(t) && ApproveDecision(t, d).Committed?
    ensures Inv(ApproveDecision(t, d).tables)
  {
    hide Inv, AllPinsActive, Products, PinsOf;
    var t1 := ApproveDecision(t, d).tables;
    JudgeKeepsInv(t, d, t.decisions[d].(approval := Approved));
    OpenEngagementKeepsInv(t.(decisions := t1.decisions), t1.engagements[t.nextId]);
  }

  lemma RescheduleKeepsInv(t: Tables, product: Id, d: Id)
    requires Inv(t) && Reschedule.requires(t, product, d) && Spent(t.attempts, t.decisions, t.decisions[d].attempt)
    requires Reschedule(t, product, d).Committed?
    ensures Inv(Reschedule(t, product, d).tables)
  {
    hide Inv;
    ReplacementKeepsInv(t, t.decisions[d].attempt);
    var t1 := ReplacementFor(t, t.decisions[d].attempt).tables;
    var t2 := Reschedule(t, product, d).tables;
    UnreadKeepsInv(t1, t1.now, t2.missions, t1.pins, t1.checkpoints);
    RecordKeepsInv(t1.(missions := t2.missions),
                   MissionMadeReady(t.decisions[d].mission, product, t.pointers[product].generation));
  }

  lemma InvalidateRowKeepsInv(t: Tables, product: Id, d: Id, done: Invalidation)
    requires Inv(t) && d in t.decisions && ProductPin(t.decisions[d].dependencies, product).Some?
    requires InvalidateRow(t, product, d, done).Committed?
    ensures Inv(InvalidateRow(t, product, d, done).tables)
  {
    hide Inv, ReplacementFor, Reschedule, ProductPin, PinIsActive;
    if !PinIsActive(t.pointers, ProductPin(t.decisions[d].dependencies, product).value) {
      var to := t.decisions[d].(current := false, approval := Invalid);
      var judged := t.(decisions := t.decisions[d := to]);
      JudgeKeepsInv(t, d, to);
      WithdrawEngagementsKeepsInv(judged, d);
      var t1 := Withdraw(t, d);
      assert Inv(t1);
      if Reschedule.requires(t1, product, d) && Reschedule(t1, product, d).Committed? {
        RescheduleKeepsInv(t1, product, d);
      }
    }
  }

  lemma {:induction false} InvalidateRowsKeepInv(t: Tables, product: Id, rows: seq<Id>, done: Invalidation)
    requires Inv(t) && forall d :: d in rows ==> d in t.decisions && ProductPin(t.decisions[d].dependencies, product).Some?
    requires InvalidateRows(t, product, rows, done).Committed?
    ensures Inv(InvalidateRows(t, product, rows, done).tables)
    decreases |rows|
  {
    hide Inv, InvalidateRow, ProductPin;
    if rows != [] {
      InvalidateRowKeepsInv(t, product, rows[0], done);
      var next := InvalidateRow(t, product, rows[0], done);
      InvalidateRowsKeepInv(next.tables, product, rows[1..], next.result);
    }
  }

  lemma FreshIntroductionKeepsIntroductions(t: Tables, e: Id, introduction: Introduction)
    requires IdsBelow(t) && IntroductionsOk(t.engagements, t.introductions) && EffectsOk(t.introductions, t.effects)
    requires e in t.engagements && IntroductionsOf(t.introductions, e) == {}
    requires introduction.engagement == e && introduction.decision == t.engagements[e].decision
    requires introduction.inputDigest == t.engagements[e].inputDigest
    ensures IntroductionsOk(t.engagements[e := t.engagements[e].(state := Introduced)], t.introductions[t.nextId := introduction])
  {
    var engagements := t.engagements[e := t.engagements[e].(state := Introduced)];
    var introductions := t.introductions[t.nextId := introduction];
    assert t.nextId !in t.introductions;
    forall i, j | i in introductions && j in introductions && introductions[i].engagement == introductions[j].engagement ensures i == j {
      assert i in t.introductions && t.introductions[i].engagement == e ==> i in IntroductionsOf(t.introductions, e);
      assert j in t.introductions && t.introductions[j].engagement == e ==> j in IntroductionsOf(t.introductions, e);
    }
    forall f | f in engagements && engagements[f].state == Introduced ensures IntroductionsOf(introductions, f) != {} {
      if f == e {
        assert t.nextId in IntroductionsOf(introductions, f);
      } else {
        var i :| i in IntroductionsOf(t.introductions, f);
        assert i in IntroductionsOf(introductions, f);
      }
    }
  }

  lemma FreshEffectKeepsEffects(introductions: map<Id, Introduction>, effects: seq<Effect>, id: Id, introduction: Introduction)
    requires EffectsOk(introductions, effects) && id !in introductions
    ensures EffectsOk(introductions[id := introduction],
                      effects + [Effect(introduction.engagement, introduction.inputDigest, id)])
  {
    var after := effects + [Effect(introduction.engagement, introduction.inputDigest, id)];
    var introduced := introductions[id := introduction];
    forall i | i in introduced ensures exists k :: 0 <= k < |after| && after[k].introduction == i {
      if i == id {
        assert after[|effects|].introduction == i;
      } else {
        var k :| 0 <= k < |effects| && effects[k].introduction == i;
        assert after[k].introduction == i;
      }
    }
  }

  lemma FreshEventKeepsEvents(t: Tables, id: Id, introduction: Introduction)
    requires NoRepeats(t.outbox) && IntroductionEventsOk(t.introductions, t.outbox) && CatalogOk(t.bundles, t.pointers, t.outbox) && id !in t.introductions
    requires IntroductionCreated(introduction.engagement, introduction.inputDigest) !in t.outbox
    ensures var outbox := t.outbox + [IntroductionCreated(introduction.engagement, introduction.inputDigest)];
      NoRepeats(outbox) && IntroductionEventsOk(t.introductions[id := introduction], outbox) && CatalogOk(t.bundles, t.pointers, outbox)
  {
    var key := IntroductionCreated(introduction.engagement, introduction.inputDigest);
    AppendKey(t, key);
    var outbox, introductions := t.outbox + [key], t.introductions[id := introduction];
    forall k | k in outbox && k.IntroductionCreated?
      ensures exists i :: i in introductions && introductions[i].engagement == k.engagement && introductions[i].inputDigest == k.inputDigest
    {
      if k in t.outbox {
        var i :| i in t.introductions && t.introductions[i].engagement == k.engagement && t.introductions[i].inputDigest == k.inputDigest;
        assert introductions[i].engagement == k.engagement && introductions[i].inputDigest == k.inputDigest;
      } else {
        assert introductions[id].engagement == k.engagement && introductions[id].inputDigest == k.inputDigest;
      }
    }
  }

  lemma IntroductionKeepsConsents(t: Tables, e: Id)
    requires EngagementsOk(t.decisions, t.engagements, t.consents) && e in t.engagements
    requires ConsentKey(e, Buyer, t.engagements[e].inputDigest) in t.consents
    requires ConsentKey(e, Seller, t.engagements[e].inputDigest) in t.consents
    ensures EngagementsOk(t.decisions, t.engagements[e := t.engagements[e].(state := Introduced)], t.consents)
  {
  }

  lemma IntroduceKeepsInv(t: Tables, e: Id, d: Id, inputDigest: Digest, fieldsHash: Id)
    requires Inv(t) && Introduce(t, e, d, inputDigest, fieldsHash).Committed?
    ensures Inv(Introduce(t, e, d, inputDigest, fieldsHash).tables)
  {
    hide EventsKnown, ChainsOk, LeasesOk, SnapshotsOk, CatalogOk, IntroductionsOk, EffectsOk, IntroductionEventsOk, NoRepeats,
         DecisionsBindSnapshots, EngagementsOk;
    if IntroductionsOf(t.introductions, e) == {} {
      var introduction := Introduction(e, d, inputDigest, fieldsHash);
      NextIdIsFresh(t);
      FreshIntroductionKeepsIntroductions(t, e, introduction);
      FreshEffectKeepsEffects(t.introductions, t.effects, t.nextId, introduction);
      FreshEventKeepsEvents(t, t.nextId, introduction);
      AppendKnown(t, IntroductionCreated(e, inputDigest));
      IntroductionKeepsConsents(t, e);
    }
  }

  // ---------- every step ----------

  lemma OpenMissionKeepsInv(t: Tables, mission: Mission)
    requires Inv(t)
    ensures Inv(OpenMission(t, mission).tables)
  {
    hide EventsKnown, ChainsOk, LeasesOk, SnapshotsOk, CatalogOk, IntroductionsOk, EffectsOk, IntroductionEventsOk, NoRepeats,
         EngagementsOk, DecisionsBindSnapshots;
  }

  /** Changes to columns that no part of the invariant reads. */
  lemma UnreadKeepsInv(t: Tables, now: nat, missions: map<Id, Mission>, pins: map<Id, map<Id, Pin>>, checkpoints: set<CheckpointKey>)
    requires Inv(t) && missions.Keys <= t.missions.Keys
    ensures Inv(t.(now := now, missions := missions, pins := pins, checkpoints := checkpoints))
  {
    hide EventsKnown, ChainsOk, LeasesOk, SnapshotsOk, CatalogOk, IntroductionsOk, EffectsOk, IntroductionEventsOk, NoRepeats,
         EngagementsOk, DecisionsBindSnapshots;
  }

  /** Publishing, opening, moving, starting, pinning, checkpointing and the passing of time. */
  lemma OtherChangeKeepsInv(t: Tables, op: Operation)
    requires Inv(t)
    requires op.Tick? || op.Publish? || op.OpenFor? || op.Move? || op.Start? || op.PinTo? || op.Checkpoint?
    ensures Inv(Apply(t, op))
  {
    hide Inv;
    match op
    case Tick(seconds) => UnreadKeepsInv(t, t.now + seconds, t.missions, t.pins, t.checkpoints);
    case Publish(org, product, digest, members) => PublishKeepsCatalog(t, org, product, digest, members);
    case OpenFor(mission) => OpenMissionKeepsInv(t, mission);
    case Move(mission, state) =>
      if mission in t.missions {
        UnreadKeepsInv(t, t.now, t.missions[mission := t.missions[mission].(state := state)], t.pins, t.checkpoints);
      }
    case Start(mission) =>
      hide StartMission;
      if StartMission(t, mission).Committed? { StartKeepsInv(t, mission); }
    case PinTo(attempt, pins) => UnreadKeepsInv(t, t.now, t.missions, t.pins[attempt := pins], t.checkpoints);
    case Checkpoint(lease, sequence) =>
      UnreadKeepsInv(t, t.now, t.missions, t.pins, t.checkpoints + {CheckpointKey(lease.attempt, sequence)});
  }

  /** Activation and the calls of a worker. */
  lemma AttemptChangeKeepsInv(t: Tables, op: Operation)
    requires Inv(t) && (op.Activate? || op.Claim? || op.Snapshot? || op.Finalize? || op.Invalidate?)
    ensures Inv(Apply(t, op))
  {
    hide Inv, ActivateBundle, ClaimAttempt, SnapshotAttempt, FinalizeAttempt, InvalidateRows;
    match op
    case Activate(org, bundle, expected) =>
      if ActivateBundle(t, org, bundle, expected).Committed? { ActivateKeepsInv(t, org, bundle, expected); }
    case Claim(attempt, owner, seconds) =>
      if ClaimAttempt(t, attempt, owner, seconds).Committed? { ClaimKeepsInv(t, attempt, owner, seconds); }
    case Snapshot(buyer, lease) =>
      if SnapshotAttempt(t, buyer, lease).Committed? { SnapshotKeepsInv(t, buyer, lease); }
    case Finalize(lease, recommended, cited) =>
      if FinalizeAttempt(t, lease, recommended, cited).Committed? { FinalizeKeepsInv(t, lease, recommended, cited); }
    case Invalidate(product) =>
      if InvalidateDecisions(t, product).Committed? {
        InvalidateRowsKeepInv(t, product, RowsToInvalidate(t.decisions, product), Invalidation([], []));
      }
  }

  /** Judgements of decisions, engagements, consents and introductions. */
  lemma EngagementChangeKeepsInv(t: Tables, op: Operation)
    requires Inv(t) && (op.Reject? || op.Approve? || op.Respond? || op.Grant? || op.Revoke? || op.MakeIntroduction?)
    ensures Inv(Apply(t, op))
  {
    hide Inv, ApproveDecision, GrantConsent, Introduce;
    match op
    case Reject(decision) =>
      if RejectDecision(t, decision).Committed? { JudgeKeepsInv(t, decision, t.decisions[decision].(approval := Rejected)); }
    case Approve(decision) =>
      if ApproveDecision(t, decision).Committed? { ApproveKeepsInv(t, decision); }
    case Respond(engagement) =>
      if RespondToEngagement(t, engagement).Committed? { MoveEngagementKeepsInv(t, engagement, Responded); }
    case Grant(engagement, party, actor, fieldsHash) =>
      if GrantConsent(t, engagement, party, actor, fieldsHash).Committed? { GrantKeepsInv(t, engagement, party, actor, fieldsHash); }
    case Revoke(key) =>
      if key in t.consents { ConsentKeepsInv(t, t.consents[key := t.consents[key].(granted := false)]); }
    case MakeIntroduction(engagement, decision, inputDigest, fieldsHash) =>
      if Introduce(t, engagement, decision, inputDigest, fieldsHash).Committed? {
        IntroduceKeepsInv(t, engagement, decision, inputDigest, fieldsHash);
      }
  }

  lemma ApplyKeepsInv(t: Tables, op: Operation)
    requires Inv(t)
    ensures Inv(Apply(t, op))
  {
    hide Inv, Apply;
    match op
    case Activate(_, _, _) => AttemptChangeKeepsInv(t, op);
    case Claim(_, _, _) => AttemptChangeKeepsInv(t, op);
    case Snapshot(_, _) => AttemptChangeKeepsInv(t, op);
    case Finalize(_, _, _) => AttemptChangeKeepsInv(t, op);
    case Invalidate(_) => AttemptChangeKeepsInv(t, op);
    case Reject(_) => EngagementChangeKeepsInv(t, op);
    case Approve(_) => EngagementChangeKeepsInv(t, op);
    case Respond(_) => EngagementChangeKeepsInv(t, op);
    case Grant(_, _, _, _) => EngagementChangeKeepsInv(t, op);
    case Revoke(_) => EngagementChangeKeepsInv(t, op);
    case MakeIntroduction(_, _, _, _) => EngagementChangeKeepsInv(t, op);
    case _ => OtherChangeKeepsInv(t, op);
  }
}
