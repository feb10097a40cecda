/** The generation of a pointer counts the activations of its product. */
module QualificationGenerations {
  import opened Outcomes
  import opened QualificationTables
  import opened QualificationSteps
  import opened QualificationInvariants
  import opened QualificationRuns
  import opened QualificationTheorems
  import opened QualificationLimits
  import opened QualificationSweeps
  import opened QualificationOutcomes

  ghost predicate ActivatesProduct(bundles: map<Id, Bundle>, key: EventKey, product: Id) {
    key.BundleActivated? && key.bundle in bundles && bundles[key.bundle].product == product
  }

  /** The activation events of the bundles of a product. */
  ghost function ActivationsOf(t: Tables, product: Id): set<nat> {
    set k: nat | k < |t.outbox| && ActivatesProduct(t.bundles, t.outbox[k], product)
  }

  /** Every pointer has the generation of the number of activations; a product without a pointer has none. */
  ghost predicate GenerationsOk(t: Tables) {
    forall p :: |ActivationsOf(t, p)| == if p in t.pointers then t.pointers[p].generation else 0
  }

  ghost predicate SendsNoActivation(a: seq<EventKey>, b: seq<EventKey>) {
    a <= b && forall k :: |a| <= k < |b| ==> !b[k].BundleActivated?
  }

  ghost predicate KeepsProducts(a: map<Id, Bundle>, b: map<Id, Bundle>) {
    forall id :: id in a ==> id in b && b[id].product == a[id].product
  }

  lemma QuietStep(t: Tables, t1: Tables)
    requires ActivationsKnown(t.bundles, t.outbox) && GenerationsOk(t) && t1.pointers == t.pointers
    requires SendsNoActivation(t.outbox, t1.outbox) && KeepsProducts(t.bundles, t1.bundles)
    ensures GenerationsOk(t1)
  {
    forall p ensures ActivationsOf(t1, p) == ActivationsOf(t, p) {
      forall k: nat ensures k in ActivationsOf(t1, p) <==> k in ActivationsOf(t, p) {
        if k < |t.outbox| { assert t.outbox[k] in t.outbox && t1.outbox[k] == t.outbox[k]; }
      }
    }
  }

  lemma OneMoreActivation(t: Tables, t1: Tables, org: Id, id: Id)
    requires ActivationsKnown(t.bundles, t.outbox) && GenerationsOk(t) && Activates(t, t1, org, id)
    ensures GenerationsOk(t1)
  {
    ActivatedShape(t, t1, org, id);
    hide Activates, ActivationsKnown, ActivationsOf;
    forall p ensures |ActivationsOf(t1, p)| == if p in t1.pointers then t1.pointers[p].generation else 0 {
      LastActivation(t, t1, id, p);
    }
  }

  lemma ActivatedShape(t: Tables, t1: Tables, org: Id, id: Id)
    requires Activates(t, t1, org, id)
    ensures id in t.bundles && KeepsProducts(t.bundles, t1.bundles)
    ensures t1.outbox == t.outbox + [BundleActivated(id, t.bundles[id].digest)]
    ensures var product := t.bundles[id].product;
      && (forall p :: p != product ==> (p in t1.pointers <==> p in t.pointers) && (p in t.pointers ==> t1.pointers[p] == t.pointers[p]))
      && product in t1.pointers
      && t1.pointers[product].generation == (if product in t.pointers then t.pointers[product].generation else 0) + 1
  {
    forall b | b in t.bundles ensures b in t1.bundles && t1.bundles[b].product == t.bundles[b].product { assert b in t1.bundles.Keys; }
    forall p | p != t.bundles[id].product ensures p in t1.pointers <==> p in t.pointers {
      assert p in t1.pointers.Keys <==> p in t.pointers.Keys;
    }
    assert t.bundles[id].product in t1.pointers.Keys;
  }

  /** The new event is the last one, and counts for the product of its bundle alone. */
  lemma LastActivation(t: Tables, t1: Tables, id: Id, p: Id)
    requires ActivationsKnown(t.bundles, t.outbox) && KeepsProducts(t.bundles, t1.bundles) && id in t.bundles
    requires t1.outbox == t.outbox + [BundleActivated(id, t.bundles[id].digest)]
    ensures |ActivationsOf(t1, p)| == |ActivationsOf(t, p)| + if p == t.bundles[id].product then 1 else 0
  {
    var last := |t.outbox|;
    assert t1.outbox[last] == BundleActivated(id, t.bundles[id].digest);
    forall k: nat | k < last ensures ActivatesProduct(t1.bundles, t1.outbox[k], p) <==> ActivatesProduct(t.bundles, t.outbox[k], p) {
      assert t.outbox[k] in t.outbox && t1.outbox[k] == t.outbox[k];
    }
    assert ActivatesProduct(t1.bundles, t1.outbox[last], p) <==> p == t.bundles[id].product;
    hide ActivatesProduct;
    assert last !in ActivationsOf(t, p);
    assert ActivationsOf(t1, p) == ActivationsOf(t, p) + if p == t.bundles[id].product then {last} else {};
  }

  lemma RescheduleIsQuiet(t: Tables, product: Id, d: Id)
    requires Reschedule.requires(t, product, d)
    ensures SendsNoActivation(t.outbox, After(t, Reschedule(t, product, d)).outbox)
  {
    hide ReplacementFor;
  }

  lemma RowIsQuiet(t: Tables, product: Id, d: Id, done: Invalidation)
    requires InvalidateRow.requires(t, product, d, done)
    ensures SendsNoActivation(t.outbox, After(t, InvalidateRow(t, product, d, done)).outbox)
  {
    hide Reschedule, ProductPin, PinIsActive, WithdrawEngagements;
    var t1 := Withdraw(t, d);
    assert t1.outbox == t.outbox;
    if Reschedule.requires(t1, product, d) { RescheduleIsQuiet(t1, product, d); }
  }

  lemma {:induction false} RowsAreQuiet(t: Tables, product: Id, rows: seq<Id>, done: Invalidation)
    requires InvalidateRows.requires(t, product, rows, done)
    ensures SendsNoActivation(t.outbox, After(t, InvalidateRows(t, product, rows, done)).outbox)
    decreases |rows|
  {
    hide InvalidateRow, ProductPin;
    if rows != [] && InvalidateRow(t, product, rows[0], done).Committed? {
      var next := InvalidateRow(t, product, rows[0], done);
      RowIsQuiet(t, product, rows[0], done);
      RowsAreQuiet(next.tables, product, rows[1..], next.result);
    }
  }

  lemma FinalizeIsQuiet(t: Tables, lease: Lease, recommended: Id, cited: set<Id>)
    requires Inv(t)
    ensures SendsNoActivation(t.outbox, After(t, FinalizeAttempt(t, lease, recommended, cited)).outbox)
    ensures After(t, FinalizeAttempt(t, lease, recommended, cited)).pointers == t.pointers
  {
    hide Inv, AllPinsActive, Identifiers, Products, RetireStale, SnapshotOf, PassesFence;
    if PassesFence(t, lease, {SnapshotComplete}) {
      FinalizationOutcome(t, lease, recommended, cited);
      hide FinalizeAttempt;
    }
  }

  lemma JudgementIsQuiet(t: Tables, op: Operation)
    requires op.Reject? || op.Approve? || op.MakeIntroduction?
    ensures SendsNoActivation(t.outbox, Apply(t, op).outbox) && Apply(t, op).pointers == t.pointers
  {
    hide AllPinsActive, PinsOf, Products, ConsentCounts;
  }

  lemma SweepIsQuiet(t: Tables, product: Id)
    ensures SendsNoActivation(t.outbox, Apply(t, Invalidate(product)).outbox) && Apply(t, Invalidate(product)).pointers == t.pointers
  {
    hide InvalidateRows, ProductPin;
    RowsAreQuiet(t, product, RowsToInvalidate(t.decisions, product), Invalidation([], []));
  }

  lemma OtherCallsAreQuiet(t: Tables, op: Operation)
    requires Inv(t) && !op.Activate?
    ensures SendsNoActivation(t.outbox, Apply(t, op).outbox) && Apply(t, op).pointers == t.pointers
  {
    hide Inv;
    match op
    case Claim(a, owner, seconds) => hide ClaimAttempt; ClaimIsSteady(t, a, owner, seconds);
    case Snapshot(buyer, lease) => hide SnapshotAttempt; SnapshotIsSteady(t, buyer, lease);
    case Finalize(lease, recommended, cited) => hide FinalizeAttempt; FinalizeIsQuiet(t, lease, recommended, cited);
    case Invalidate(product) => SweepIsQuiet(t, product);
    case Reject(_) => hide Apply; JudgementIsQuiet(t, op);
    case Approve(_) => hide Apply; JudgementIsQuiet(t, op);
    case MakeIntroduction(_, _, _, _) => hide Apply; JudgementIsQuiet(t, op);
    case _ =>
      hide Apply;
      OtherChangeKeepsHistory(t, op);
  }

  lemma ProductsAreKept(t: Tables, op: Operation)
    requires Inv(t)
    ensures KeepsProducts(t.bundles, Apply(t, op).bundles)
  {
    hide Inv, Apply;
    ApplyExtends(t, op);
    hide PointersExtend, AttemptsExtend, SnapshotsExtend, DecisionsExtend, EngagementsExtend, IntroductionsExtend;
  }

  lemma ActivationsAreKnown(t: Tables)
    requires Inv(t)
    ensures ActivationsKnown(t.bundles, t.outbox)
  {
    hide IdsBelow, NoRepeats, ChainsOk, LeasesOk, SnapshotsOk, DecisionsBindSnapshots, EngagementsOk, IntroductionsOk, EffectsOk,
         IntroductionEventsOk, EventsKnown, PointersNameActive, ActiveIsPointedTo, ActivationsRecorded, ActivationsKnown;
  }

  lemma ActivationCounts(ops: seq<Operation>, i: nat)
    requires i < |ops| && GenerationsOk(At(ops, i)) && ops[i].Activate?
    ensures GenerationsOk(Apply(At(ops, i), ops[i]))
  {
    hide Inv, At, GenerationsOk, ActivateBundle, Activates, ActivationsKnown;
    StatesExtend(ops, i, i);
    ActivationsAreKnown(At(ops, i));
    var op := ops[i];
    if ActivateBundle(At(ops, i), op.org, op.bundle, op.expected).Committed? {
      ActivationOutcome(ops, i, op.org, op.bundle, op.expected);
      OneMoreActivation(At(ops, i), Apply(At(ops, i), op), op.org, op.bundle);
    }
  }

  lemma NothingActivatedAtStart()
    ensures GenerationsOk(EMPTY)
  {
    forall p ensures ActivationsOf(EMPTY, p) == {} {}
  }

  /** In every reachable state the generation of a product's pointer is the number of times one of its bundles was
      activated, and a product without a pointer never had one activated. */
  lemma {:induction false} GenerationsCountActivations(ops: seq<Operation>, i: nat)
    requires i <= |ops|
    ensures GenerationsOk(At(ops, i))
    decreases i
  {
    hide Inv, Apply, At, GenerationsOk, SendsNoActivation, KeepsProducts, ActivationsKnown;
    if i == 0 {
      NothingAtStart(ops);
      NothingActivatedAtStart();
    } else {
      GenerationsCountActivations(ops, i - 1);
      StatesExtend(ops, i - 1, i - 1);
      NextState(ops, i - 1);
      var t, op := At(ops, i - 1), ops[i - 1];
      if op.Activate? {
        ActivationCounts(ops, i - 1);
      } else {
        OtherCallsAreQuiet(t, op);
        ProductsAreKept(t, op);
        ActivationsAreKnown(t);
        QuietStep(t, Apply(t, op));
      }
    }
  }
}
