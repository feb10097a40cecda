/** What an introduction needs: the consents of both parties, over every run. */
module QualificationConsents {
  import opened Outcomes
  import opened QualificationTables
  import opened QualificationSteps
  import opened QualificationInvariants
  import opened QualificationRuns
  import opened QualificationIntroductions

  // ---------- the consent table ----------

  lemma RepositoryCallsKeepConsents(t: Tables, op: Operation)
    requires op.Activate? || op.Claim? || op.Snapshot? || op.Checkpoint? || op.MakeIntroduction?
    ensures Apply(t, op).consents == t.consents
  {
    match op
    case Activate(org, bundle, expected) => hide PointTo, Retire;
    case Claim(attempt, owner, seconds) => hide Claimable, HasCheckpoint;
    case Snapshot(buyer, lease) => hide PassesFence, PinsOf, DependenciesOf, DistinctKeys, MembersOf, SnapshotOf;
    case Checkpoint(lease, sequence) => hide PassesFence;
    case MakeIntroduction(e, d, inputDigest, fieldsHash) => hide ConsentCounts;
  }

  lemma DecisionCallsKeepConsents(t: Tables, op: Operation)
    requires op.Finalize? || op.Invalidate? || op.Reject? || op.Approve?
    ensures Apply(t, op).consents == t.consents
  {
    hide PassesFence, AllPinsActive, Identifiers, Products, ReplacementFor, InvalidateRows, RowsToInvalidate, PinsOf, SnapshotOf, RetireStale;
    match op
    case Finalize(lease, recommended, cited) =>
      if lease.attempt in t.attempts { RetireKeepsConsents(t, lease.attempt); }
      FencedIsKnown(t, lease);
    case _ =>
  }

  lemma RetireKeepsConsents(t: Tables, attempt: Id)
    requires attempt in t.attempts
    ensures After(t, RetireStale(t, attempt)).consents == t.consents
  {
    hide ReplacementFor;
  }

  lemma FencedIsKnown(t: Tables, lease: Lease)
    ensures PassesFence(t, lease, {SnapshotComplete}) ==> lease.attempt in t.attempts
  {
  }

  lemma OtherChangesKeepConsents(t: Tables, op: Operation)
    requires op.Tick? || op.Publish? || op.OpenFor? || op.Move? || op.Start? || op.PinTo? || op.Respond?
    ensures Apply(t, op).consents == t.consents
  {
    hide PinsOf;
  }

  /** Only granting and revoking touch the consent table. */
  lemma ConsentsChangeByParties(t: Tables, op: Operation)
    requires !op.Grant? && !op.Revoke?
    ensures Apply(t, op).consents == t.consents
  {
    hide Apply;
    if op.Activate? || op.Claim? || op.Snapshot? || op.Checkpoint? || op.MakeIntroduction? {
      RepositoryCallsKeepConsents(t, op);
    } else if op.Finalize? || op.Invalidate? || op.Reject? || op.Approve? {
      DecisionCallsKeepConsents(t, op);
    } else {
      OtherChangesKeepConsents(t, op);
    }
  }

  /** The grant that wrote a consent row. */
  ghost predicate Grants(t: Tables, op: Operation, key: ConsentKey) {
    && op.Grant? && op.engagement == key.engagement && op.party == key.party
    && key.engagement in t.engagements && t.engagements[key.engagement].inputDigest == key.inputDigest
    && t.engagements[key.engagement].expires > t.now
    && key !in t.consents
  }

  /** What one operation does to one key of the consent table. */
  lemma ConsentStep(t: Tables, op: Operation, key: ConsentKey)
    ensures key in t.consents ==>
      && key in Apply(t, op).consents
      && Apply(t, op).consents[key] == if op == Revoke(key) then t.consents[key].(granted := false) else t.consents[key]
    ensures key !in t.consents ==> (key in Apply(t, op).consents <==> Grants(t, op, key))
    ensures Grants(t, op, key) ==>
      && key in Apply(t, op).consents
      && var until := if t.engagements[key.engagement].expires < t.now + DAY then t.engagements[key.engagement].expires else t.now + DAY;
         Apply(t, op).consents[key] == Consent(op.actor, op.fieldsHash, true, until)
  {
    if op.Grant? {
      hide Apply;
      GrantStep(t, op.engagement, op.party, op.actor, op.fieldsHash, key);
    } else if op.Revoke? {
      RevokeStep(t, op.key, key);
    } else {
      hide Apply;
      ConsentsChangeByParties(t, op);
    }
  }

  lemma GrantStep(t: Tables, e: Id, party: Party, actor: Id, fieldsHash: Id, key: ConsentKey)
    ensures var t1 := Apply(t, Grant(e, party, actor, fieldsHash)); var grants := Grants(t, Grant(e, party, actor, fieldsHash), key);
      && (key in t.consents ==> key in t1.consents && t1.consents[key] == t.consents[key])
      && (key !in t.consents ==> (key in t1.consents <==> grants))
      && (grants ==>
            t1.consents[key]
            == Consent(actor, fieldsHash, true, if t.engagements[e].expires < t.now + DAY then t.engagements[e].expires else t.now + DAY))
  {
    assert Apply(t, Grant(e, party, actor, fieldsHash)) == After(t, GrantConsent(t, e, party, actor, fieldsHash));
    hide Apply;
  }

  lemma RevokeStep(t: Tables, revoked: ConsentKey, key: ConsentKey)
    ensures key in Apply(t, Revoke(revoked)).consents <==> key in t.consents
    ensures key in t.consents ==>
      Apply(t, Revoke(revoked)).consents[key] == if key == revoked then t.consents[key].(granted := false) else t.consents[key]
  {
    hide RevokeConsent;
    RevokeRow(t, revoked, key);
  }

  lemma RevokeRow(t: Tables, revoked: ConsentKey, key: ConsentKey)
    ensures var after := After(t, RevokeConsent(t, revoked)).consents;
      && (key in after <==> key in t.consents)
      && (key in t.consents ==> after[key] == if key == revoked then t.consents[key].(granted := false) else t.consents[key])
  {
    RevokeTable(t, revoked);
    hide RevokeConsent;
  }

  lemma RevokeTable(t: Tables, revoked: ConsentKey)
    ensures After(t, RevokeConsent(t, revoked)).consents ==
      if revoked in t.consents then t.consents[revoked := t.consents[revoked].(granted := false)] else t.consents
  {
  }

  ghost predicate GrantedAt(ops: seq<Operation>, k: nat, key: ConsentKey) {
    k < |ops| && Grants(At(ops, k), ops[k], key)
  }

  ghost predicate RevokedBetween(ops: seq<Operation>, k: nat, i: nat, key: ConsentKey) {
    exists r | k < r < i <= |ops| :: ops[r] == Revoke(key)
  }

  /** What the row of a consent granted by the k-th operation says at a later moment. */
  ghost predicate RowOfGrant(ops: seq<Operation>, k: nat, i: nat, key: ConsentKey)
    requires k < i <= |ops| && GrantedAt(ops, k, key)
  {
    var e := At(ops, k).engagements[key.engagement];
    && key in At(ops, i).consents
    && var row := At(ops, i).consents[key];
       && row.actor == ops[k].actor && row.fieldsHash == ops[k].fieldsHash
       && row.expires == (if e.expires < At(ops, k).now + DAY then e.expires else At(ops, k).now + DAY)
       && (row.granted <==> !RevokedBetween(ops, k, i, key))
  }

  lemma GrantWritesRow(ops: seq<Operation>, k: nat, key: ConsentKey)
    requires GrantedAt(ops, k, key)
    ensures RowOfGrant(ops, k, k + 1, key)
  {
    hide At, Apply, Grants;
    NextState(ops, k);
    ConsentStep(At(ops, k), ops[k], key);
    assert ops[k].Grant? by { GrantIsAGrant(At(ops, k), ops[k], key); }
  }

  lemma GrantIsAGrant(t: Tables, op: Operation, key: ConsentKey)
    requires Grants(t, op, key)
    ensures op.Grant? && key.engagement in t.engagements
  {
  }

  lemma RowStaysWithGrant(ops: seq<Operation>, k: nat, i: nat, key: ConsentKey)
    requires k < i < |ops| && GrantedAt(ops, k, key) && RowOfGrant(ops, k, i, key)
    ensures RowOfGrant(ops, k, i + 1, key)
  {
    hide At, Apply, Grants;
    NextState(ops, i);
    ConsentStep(At(ops, i), ops[i], key);
    GrantIsAGrant(At(ops, k), ops[k], key);
    assert RevokedBetween(ops, k, i + 1, key) <==> RevokedBetween(ops, k, i, key) || ops[i] == Revoke(key);
  }

  /** The table holds a consent exactly when some earlier grant committed for it, exactly one did, and the
      row is the row of that grant. */
  lemma {:induction false} ConsentsFollowGrants(ops: seq<Operation>, i: nat, key: ConsentKey)
    requires i <= |ops|
    ensures key in At(ops, i).consents <==> exists k | 0 <= k < i :: GrantedAt(ops, k, key)
    ensures forall k | 0 <= k < i && GrantedAt(ops, k, key) :: RowOfGrant(ops, k, i, key)
    ensures forall k, l | 0 <= k < i && 0 <= l < i && GrantedAt(ops, k, key) && GrantedAt(ops, l, key) :: k == l
    decreases i
  {
    hide At, Apply, Grants, RowOfGrant;
    if i == 0 {
      NothingAtStart(ops);
    } else {
      ConsentsFollowGrants(ops, i - 1, key);
      NextState(ops, i - 1);
      ConsentStep(At(ops, i - 1), ops[i - 1], key);
      GrantIsNew(At(ops, i - 1), ops[i - 1], key);
      if key in At(ops, i).consents && key !in At(ops, i - 1).consents { assert GrantedAt(ops, i - 1, key); }
      forall k | 0 <= k < i && GrantedAt(ops, k, key) ensures RowOfGrant(ops, k, i, key) {
        if k < i - 1 { RowStaysWithGrant(ops, k, i - 1, key); } else { GrantWritesRow(ops, k, key); }
      }
    }
  }

  lemma GrantIsNew(t: Tables, op: Operation, key: ConsentKey)
    ensures Grants(t, op, key) ==> key !in t.consents
  {
  }

  // ---------- what an introduction needs ----------

  ghost predicate IsConsent(t: Tables, e: Id, party: Party, inputDigest: Digest, fieldsHash: Id) {
    && ConsentKey(e, party, inputDigest) in t.consents
    && var row := t.consents[ConsentKey(e, party, inputDigest)];
       row.granted && row.expires > t.now && row.fieldsHash == fieldsHash
  }

  /** The decision is current, approved and of this digest; the engagement of it has not expired; both parties
      consent, as two people, to the same fields. */
  ghost predicate MayIntroduce(t: Tables, e: Id, d: Id, inputDigest: Digest, fieldsHash: Id) {
    && d in t.decisions && t.decisions[d].current && t.decisions[d].approval == Approved && t.decisions[d].inputDigest == inputDigest
    && e in t.engagements && t.engagements[e].decision == d && t.engagements[e].inputDigest == inputDigest
    && t.engagements[e].expires > t.now
    && IsConsent(t, e, Buyer, inputDigest, fieldsHash) && IsConsent(t, e, Seller, inputDigest, fieldsHash)
    && t.consents[ConsentKey(e, Buyer, inputDigest)].actor != t.consents[ConsentKey(e, Seller, inputDigest)].actor
  }

  /** The rows an introduction leaves. */
  ghost predicate Introduces(t: Tables, t1: Tables, e: Id, d: Id, inputDigest: Digest, fieldsHash: Id) {
    && t1.introductions == t.introductions[t.nextId := Introduction(e, d, inputDigest, fieldsHash)]
    && t1.effects == t.effects + [Effect(e, inputDigest, t.nextId)]
    && t1.outbox == t.outbox + [IntroductionCreated(e, inputDigest)]
    && e in t.engagements && t1.engagements == t.engagements[e := t.engagements[e].(state := Introduced)]
    && t1 == t.(nextId := t.nextId + 1, introductions := t1.introductions, effects := t1.effects,
                engagements := t1.engagements, outbox := t1.outbox)
  }

  lemma NoEventYet(t: Tables, e: Id, inputDigest: Digest)
    requires IntroductionEventsOk(t.introductions, t.outbox) && IntroductionsOf(t.introductions, e) == {}
    ensures IntroductionCreated(e, inputDigest) !in t.outbox
  {
    forall i | i in t.introductions ensures t.introductions[i].engagement != e {
      assert i !in IntroductionsOf(t.introductions, e);
    }
  }

  lemma FirstIntroduction(t: Tables, e: Id, d: Id, inputDigest: Digest, fieldsHash: Id)
    requires IntroductionsOf(t.introductions, e) == {} && IntroductionCreated(e, inputDigest) !in t.outbox
    ensures Introduce(t, e, d, inputDigest, fieldsHash).Committed? <==> MayIntroduce(t, e, d, inputDigest, fieldsHash)
    ensures MayIntroduce(t, e, d, inputDigest, fieldsHash) ==>
      && Introduces(t, Apply(t, MakeIntroduction(e, d, inputDigest, fieldsHash)), e, d, inputDigest, fieldsHash)
      && Introduce(t, e, d, inputDigest, fieldsHash).result == t.nextId
  {
  }

  /** At every moment of every run, an engagement that was not introduced yet is introduced exactly when the
      decision, the engagement and the consents of both parties allow it; then exactly one introduction, one
      effect and one event are added, and otherwise nothing changes. */
  lemma IntroductionCommitsExactly(ops: seq<Operation>, i: nat, e: Id, d: Id, inputDigest: Digest, fieldsHash: Id)
    requires i <= |ops| && forall x :: x in At(ops, i).introductions ==> At(ops, i).introductions[x].engagement != e
    ensures var t := At(ops, i); var t1 := Apply(t, MakeIntroduction(e, d, inputDigest, fieldsHash));
      && (Introduce(t, e, d, inputDigest, fieldsHash).Committed? <==> MayIntroduce(t, e, d, inputDigest, fieldsHash))
      && if MayIntroduce(t, e, d, inputDigest, fieldsHash)
         then Introduces(t, t1, e, d, inputDigest, fieldsHash) && Introduce(t, e, d, inputDigest, fieldsHash).result == t.nextId
         else t1 == t
  {
    hide At, ChainsOk, LeasesOk, SnapshotsOk, EventsKnown, DecisionsBindSnapshots, CatalogOk, EffectsOk, NoRepeats,
         IntroductionsOk, EngagementsOk, IntroductionEventsOk, MayIntroduce, Introduces, Introduce;
    StatesExtend(ops, i, i);
    NoEventYet(At(ops, i), e, inputDigest);
    FirstIntroduction(At(ops, i), e, d, inputDigest, fieldsHash);
  }

  lemma SecondIntroduction(t: Tables, x: Id, e: Id, d: Id, inputDigest: Digest, fieldsHash: Id)
    requires IntroductionsOk(t.engagements, t.introductions)
    requires x in t.introductions && t.introductions[x].engagement == e
    ensures Introduce(t, e, d, inputDigest, fieldsHash) ==
      (if t.introductions[x] == Introduction(e, d, inputDigest, fieldsHash) then Committed(t, x)
       else if t.introductions[x].decision == d && t.introductions[x].inputDigest == inputDigest then Aborted(Conflict)
       else Aborted(NotFound))
  {
    assert x in IntroductionsOf(t.introductions, e);
    forall y | y in IntroductionsOf(t.introductions, e) ensures y == x {}
    assert IsLeast(x, IntroductionsOf(t.introductions, e));
    hide ConsentCounts;
  }

  /** An introduced engagement answers only the request that introduced it, with the same introduction, and
      never changes anything. */
  lemma IntroducedAnswersExactly(ops: seq<Operation>, i: nat, x: Id, e: Id, d: Id, inputDigest: Digest, fieldsHash: Id)
    requires i <= |ops| && x in At(ops, i).introductions && At(ops, i).introductions[x].engagement == e
    ensures var t := At(ops, i);
      && Introduce(t, e, d, inputDigest, fieldsHash) ==
         (if t.introductions[x] == Introduction(e, d, inputDigest, fieldsHash) then Committed(t, x)
          else if t.introductions[x].decision == d && t.introductions[x].inputDigest == inputDigest then Aborted(Conflict)
          else Aborted(NotFound))
  {
    hide At, ChainsOk, LeasesOk, SnapshotsOk, EventsKnown, DecisionsBindSnapshots, CatalogOk, EffectsOk, NoRepeats,
         IntroductionsOk, EngagementsOk, IntroductionEventsOk, Introduce;
    StatesExtend(ops, i, i);
    SecondIntroduction(At(ops, i), x, e, d, inputDigest, fieldsHash);
  }

  // ---------- a revoked consent ----------

  lemma NoConsentNoIntroduction(t: Tables, f: Id, d: Id, inputDigest: Digest, fieldsHash: Id, e: Id, party: Party)
    requires t.nextId !in t.introductions && e in t.engagements
    requires ConsentKey(e, party, t.engagements[e].inputDigest) in t.consents
    requires !t.consents[ConsentKey(e, party, t.engagements[e].inputDigest)].granted
    ensures IntroductionsOf(After(t, Introduce(t, f, d, inputDigest, fieldsHash)).introductions, e) == IntroductionsOf(t.introductions, e)
  {
  }

  lemma RevokedStep(t: Tables, op: Operation, e: Id, party: Party)
    requires Inv(t) && e in t.engagements
    requires ConsentKey(e, party, t.engagements[e].inputDigest) in t.consents
    requires !t.consents[ConsentKey(e, party, t.engagements[e].inputDigest)].granted
    ensures IntroductionsOf(Apply(t, op).introductions, e) == IntroductionsOf(t.introductions, e)
  {
    hide Inv;
    FreshIds(t);
    match op
    case MakeIntroduction(f, d, inputDigest, fieldsHash) =>
      hide Introduce;
      NoConsentNoIntroduction(t, f, d, inputDigest, fieldsHash, e, party);
    case _ =>
      hide Apply;
      if op.Activate? || op.Claim? || op.Snapshot? || op.Checkpoint? || op.Finalize? || op.Invalidate? {
        RepositoryCallsKeepIntroductions(t, op);
      } else {
        OtherChangesKeepIntroductions(t, op);
      }
  }

  /** Once either party has revoked its consent, the engagement is never introduced again. */
  lemma {:induction false} RevokedIsNeverIntroduced(ops: seq<Operation>, i: nat, j: nat, e: Id, party: Party)
    requires i < j <= |ops| && e in At(ops, i).engagements
    requires var key := ConsentKey(e, party, At(ops, i).engagements[e].inputDigest);
      ops[i] == Revoke(key) && key in At(ops, i).consents
    ensures IntroductionsOf(At(ops, j).introductions, e) == IntroductionsOf(At(ops, i).introductions, e)
    ensures var key := ConsentKey(e, party, At(ops, i).engagements[e].inputDigest);
      key in At(ops, j).consents && !At(ops, j).consents[key].granted
    decreases j
  {
    hide Inv, Apply, At;
    var key := ConsentKey(e, party, At(ops, i).engagements[e].inputDigest);
    NextState(ops, j - 1);
    StatesExtend(ops, i, j - 1);
    ConsentStep(At(ops, j - 1), ops[j - 1], key);
    if i + 1 < j {
      RevokedIsNeverIntroduced(ops, i, j - 1, e, party);
      hide BundlesExtend, PointersExtend, AttemptsExtend, SnapshotsExtend, IntroductionsExtend, DecisionsExtend;
      RevokedStep(At(ops, j - 1), ops[j - 1], e, party);
    } else {
      OtherChangesKeepIntroductions(At(ops, i), ops[i]);
    }
  }
}
