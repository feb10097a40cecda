/** The assessment of evidence against the policy of the field it supports. Times are numbers of seconds and
    text is compared after an arbitrary normalization. */
module EvidenceAssessments {
  import opened Outcomes
  import opened Ordering
  import Recall

  /** ACCEPTABLE, UNKNOWN, STALE and CONFLICT. */
  datatype EvidenceState = Acceptable | Unproven | Stale | Disputed

  datatype Error = MissingPolicy | TimesNotOrdered

  datatype Observed = Observed(lower: int, upper: int)

  datatype Record = Record(
    sourceClass: string, verification: string, scope: string, reconstructable: bool,
    observed: Option<Observed>, disputed: bool, revoked: bool)

  datatype PolicyFields = PolicyFields(sources: set<string>, methods: set<string>, scope: string, sla: nat)

  /** A policy, as its constructor admits it. */
  type Policy = p: PolicyFields | p.sla >= 1 witness PolicyFields({}, {}, "*", 1)

  datatype Pair = Pair(evidence: string, field: string)

  /** The frozen inputs of an assessment. */
  datatype Sources = Sources(
    evidence: map<string, Record>, policies: map<string, Policy>, evaluatedAt: int, normalize: string -> string)

  predicate ScopeMatches(normalize: string -> string, required: string, actual: string) {
    normalize(required) == "*" || normalize(required) == normalize(actual)
  }

  /** The age of the oldest possible observation, as a multiple of the freshness limit, is at most one. */
  predicate Fresh(evaluatedAt: int, o: Observed, sla: nat)
    requires sla >= 1
  {
    (evaluatedAt - o.lower) as real / sla as real <= 1.0
  }

  function StateOf(s: Sources, record: Record, policy: Policy): Result<EvidenceState, Error> {
    if record.observed.Some? && !(record.observed.value.lower <= record.observed.value.upper <= s.evaluatedAt) then
      Failure(TimesNotOrdered)
    else if record.disputed || record.revoked then Success(Disputed)
    else if record.observed.Some? && !Fresh(s.evaluatedAt, record.observed.value, policy.sla) then Success(Stale)
    else if record.sourceClass !in policy.sources || record.verification !in policy.methods
      || !ScopeMatches(s.normalize, policy.scope, record.scope) || !record.reconstructable || record.observed.None?
    then Success(Unproven)
    else Success(Acceptable)
  }

  /** What it takes for evidence to count. */
  predicate IsSound(s: Sources, record: Record, policy: Policy) {
    && record.sourceClass in policy.sources && record.verification in policy.methods
    && (s.normalize(policy.scope) == "*" || s.normalize(policy.scope) == s.normalize(record.scope)) && record.reconstructable
    && !record.disputed && !record.revoked
    && record.observed.Some? && record.observed.value.lower <= record.observed.value.upper <= s.evaluatedAt
    && s.evaluatedAt - record.observed.value.lower <= policy.sla
  }

  lemma FreshExactly(evaluatedAt: int, o: Observed, sla: nat)
    requires sla >= 1
    ensures Fresh(evaluatedAt, o, sla) <==> evaluatedAt - o.lower <= sla
  {
    var age, limit := (evaluatedAt - o.lower) as real, sla as real;
    assert age / limit * limit == age;
    if age / limit <= 1.0 {
      assert age / limit * limit <= 1.0 * limit;
    } else {
      assert age / limit * limit > 1.0 * limit;
    }
  }

  /** Evidence is ACCEPTABLE exactly when it is sound; disputed or revoked evidence is always in CONFLICT. */
  lemma AcceptableExactly(s: Sources, record: Record, policy: Policy)
    ensures StateOf(s, record, policy) == Success(Acceptable) <==> IsSound(s, record, policy)
    ensures StateOf(s, record, policy) == Success(Disputed) ==> record.disputed || record.revoked
  {
    if record.observed.Some? {
      FreshExactly(s.evaluatedAt, record.observed.value, policy.sla);
    }
  }

  ghost predicate TimesOk(s: Sources, record: Record) {
    record.observed.Some? ==> record.observed.value.lower <= record.observed.value.upper <= s.evaluatedAt
  }

  /** The oldest possible observation is older than the freshness limit. */
  ghost predicate TooOld(s: Sources, record: Record, policy: Policy) {
    record.observed.Some? && s.evaluatedAt - record.observed.value.lower > policy.sla
  }

  /** Disordered times raise; otherwise disputed or revoked evidence is exactly what is in CONFLICT, and of the rest,
      what is too old is STALE, what is sound is ACCEPTABLE and what is neither is UNKNOWN. */
  lemma StateExactly(s: Sources, record: Record, policy: Policy)
    ensures var r := StateOf(s, record, policy); var contested := record.disputed || record.revoked;
      && (r == Failure(TimesNotOrdered) <==> !TimesOk(s, record))
      && (r == Success(Disputed) <==> TimesOk(s, record) && contested)
      && (r == Success(Stale) <==> TimesOk(s, record) && !contested && TooOld(s, record, policy))
      && (r == Success(Acceptable) <==> IsSound(s, record, policy))
      && (r == Success(Unproven) <==>
           TimesOk(s, record) && !contested && !TooOld(s, record, policy) && !IsSound(s, record, policy))
  {
    if record.observed.Some? {
      FreshExactly(s.evaluatedAt, record.observed.value, policy.sla);
    }
  }

  /** The state of one evidence and field pair; evidence without a record is UNKNOWN. */
  function StateOfPair(s: Sources, p: Pair): Result<EvidenceState, Error> {
    if p.field !in s.policies then Failure(MissingPolicy)
    else if p.evidence !in s.evidence then Success(Unproven)
    else StateOf(s, s.evidence[p.evidence], s.policies[p.field])
  }

  /** A pair fails exactly when its field has no policy, or its record has unordered times; without a record it is
      UNKNOWN; otherwise it is in the state of its record under the policy of its field. */
  lemma PairExactly(s: Sources, p: Pair)
    ensures var r := StateOfPair(s, p); var recorded := p.field in s.policies && p.evidence in s.evidence;
      && (r == Failure(MissingPolicy) <==> p.field !in s.policies)
      && (p.field in s.policies && p.evidence !in s.evidence ==> r == Success(Unproven))
      && (recorded ==> r == StateOf(s, s.evidence[p.evidence], s.policies[p.field]))
      && (r == Failure(TimesNotOrdered) <==> recorded && !TimesOk(s, s.evidence[p.evidence]))
  {
    hide IsSound;
    if p.field in s.policies && p.evidence in s.evidence { StateExactly(s, s.evidence[p.evidence], s.policies[p.field]); }
  }

  // ---------- which pairs are material ----------

  datatype OutcomeValue = OutcomeValue(criterion: string, evidence: set<string>)

  /** What the evidence of a decision is attached to: the representatives of the recall, the facts of each
      current action, the outcome values, and the field of every criterion. */
  datatype Attachments = Attachments(
    representatives: seq<Recall.Record>, actions: seq<set<Recall.Fact>>, outcomes: seq<OutcomeValue>,
    criterionFields: map<string, string>)

  predicate SupportsFact(facts: set<Recall.Fact>, p: Pair) {
    exists f :: f in facts && f.field == p.field && p.evidence in f.evidence
  }

  predicate SupportsRepresentative(representatives: seq<Recall.Record>, p: Pair) {
    exists i :: 0 <= i < |representatives| && SupportsFact(representatives[i].facts, p)
  }

  predicate SupportsAction(actions: seq<set<Recall.Fact>>, p: Pair) {
    exists i :: 0 <= i < |actions| && SupportsFact(actions[i], p)
  }

  predicate SupportsOutcome(m: Attachments, o: OutcomeValue, p: Pair) {
    p.evidence in o.evidence && o.criterion in m.criterionFields && m.criterionFields[o.criterion] == p.field
  }

  predicate SupportsSomeOutcome(m: Attachments, outcomes: seq<OutcomeValue>, p: Pair) {
    exists i :: 0 <= i < |outcomes| && SupportsOutcome(m, outcomes[i], p)
  }

  /** The evidence supports the field of a fact of a representative or of a current action, or of the criterion
      of an outcome value. */
  predicate IsMaterial(m: Attachments, p: Pair) {
    SupportsRepresentative(m.representatives, p) || SupportsAction(m.actions, p) || SupportsSomeOutcome(m, m.outcomes, p)
  }

  ghost predicate HasFact(facts: set<Recall.Fact>, f: Recall.Fact, p: Pair) {
    f in facts && p == Pair(p.evidence, f.field) && p.evidence in f.evidence
  }

  /** Where a material pair comes from: a fact of a representative, a fact of a current action, or an outcome value of
      a known criterion. */
  lemma MaterialExactly(m: Attachments, p: Pair)
    ensures IsMaterial(m, p) <==>
      || (exists record, f :: record in m.representatives && HasFact(record.facts, f, p))
      || (exists facts, f :: facts in m.actions && HasFact(facts, f, p))
      || (exists o :: o in m.outcomes && p.evidence in o.evidence && o.criterion in m.criterionFields
                      && p.field == m.criterionFields[o.criterion])
  {
    forall facts: set<Recall.Fact> ensures SupportsFact(facts, p) <==> exists f :: HasFact(facts, f, p) {
      if f :| HasFact(facts, f, p) { assert f.field == p.field; }
      if SupportsFact(facts, p) {
        var f :| f in facts && f.field == p.field && p.evidence in f.evidence;
        assert HasFact(facts, f, p);
      }
    }
    hide SupportsFact, HasFact;
  }

  method PairsOfFacts(facts: set<Recall.Fact>) returns (pairs: set<Pair>)
    ensures forall p :: p in pairs <==> SupportsFact(facts, p)
  {
    pairs := {};
    var left := facts;
    while left != {}
      invariant left <= facts
      invariant forall p :: p in pairs <==> SupportsFact(facts - left, p)
    {
      var f :| f in left;
      left := left - {f};
      pairs := pairs + set e | e in f.evidence :: Pair(e, f.field);
    }
    assert facts - left == facts;
  }

  /** The set of pairs, gathered from the representatives, the actions and the outcome values in turn; an outcome
      value of an unknown criterion is skipped. */
  method CollectPairs(m: Attachments) returns (pairs: set<Pair>)
    ensures forall p :: p in pairs <==> IsMaterial(m, p)
  {
    hide SupportsFact, SupportsOutcome;
    pairs := {};
    for i := 0 to |m.representatives|
      invariant forall p :: p in pairs <==> SupportsRepresentative(m.representatives[..i], p)
    {
      var more := PairsOfFacts(m.representatives[i].facts);
      pairs := pairs + more;
      assert m.representatives[..i + 1] == m.representatives[..i] + [m.representatives[i]];
    }
    assert m.representatives[..|m.representatives|] == m.representatives;
    for i := 0 to |m.actions|
      invariant forall p :: p in pairs <==> SupportsRepresentative(m.representatives, p) || SupportsAction(m.actions[..i], p)
    {
      var more := PairsOfFacts(m.actions[i]);
      pairs := pairs + more;
      assert m.actions[..i + 1] == m.actions[..i] + [m.actions[i]];
    }
    assert m.actions[..|m.actions|] == m.actions;
    var values := PairsOfOutcomes(m);
    pairs := pairs + values;
  }

  method PairsOfOutcomes(m: Attachments) returns (pairs: set<Pair>)
    ensures forall p :: p in pairs <==> SupportsSomeOutcome(m, m.outcomes, p)
  {
    pairs := {};
    for i := 0 to |m.outcomes|
      invariant forall p :: p in pairs <==> SupportsSomeOutcome(m, m.outcomes[..i], p)
    {
      var o := m.outcomes[i];
      assert m.outcomes[..i + 1] == m.outcomes[..i] + [o];
      if o.criterion in m.criterionFields {
        pairs := pairs + set e | e in o.evidence :: Pair(e, m.criterionFields[o.criterion]);
      }
    }
    assert m.outcomes[..|m.outcomes|] == m.outcomes;
  }

  // ---------- the order of the assessment ----------

  predicate PairBefore(a: Pair, b: Pair) {
    Before(a.evidence, b.evidence) || (a.evidence == b.evidence && Before(a.field, b.field))
  }

  lemma OnePairOrder(a: Pair, b: Pair)
    ensures a == b ==> !PairBefore(a, b)
    ensures a != b ==> (PairBefore(a, b) <==> !PairBefore(b, a))
  {
    OneOrder(a.evidence, b.evidence);
    OneOrder(a.field, b.field);
  }

  lemma PairBeforeTransitive(a: Pair, b: Pair, c: Pair)
    requires PairBefore(a, b) && PairBefore(b, c)
    ensures PairBefore(a, c)
  {
    if Before(a.evidence, b.evidence) && Before(b.evidence, c.evidence) {
      BeforeTransitive(a.evidence, b.evidence, c.evidence);
    } else if a.evidence == b.evidence == c.evidence {
      BeforeTransitive(a.field, b.field, c.field);
    }
  }

  predicate IsFirstPair(x: Pair, s: set<Pair>) {
    x in s && forall y :: y in s && y != x ==> PairBefore(x, y)
  }

  lemma {:induction false} FirstPairExists(s: set<Pair>)
    requires s != {}
    ensures exists x :: IsFirstPair(x, s)
    decreases |s|
  {
    hide PairBefore;
    var y :| y in s;
    var rest := s - {y};
    if rest == {} {
      assert s == {y};
      assert IsFirstPair(y, s);
    } else {
      FirstPairExists(rest);
      var z :| IsFirstPair(z, rest);
      OnePairOrder(y, z);
      var x := if PairBefore(y, z) then y else z;
      forall w | w in s && w != x ensures PairBefore(x, w) {
        if x == y && w != z { PairBeforeTransitive(y, z, w); }
      }
      assert IsFirstPair(x, s);
    }
  }

  lemma FirstPairIsUnique(x: Pair, y: Pair, s: set<Pair>)
    requires IsFirstPair(x, s) && IsFirstPair(y, s)
    ensures x == y
  {
    OnePairOrder(x, y);
  }

  function SortedPairs(s: set<Pair>): (r: seq<Pair>)
    ensures forall p :: p in r <==> p in s
    decreases |s|
  {
    if s == {} then []
    else
      FirstPairExists(s);
      assert forall x, y | IsFirstPair(x, s) && IsFirstPair(y, s) :: x == y by {
        forall x, y | IsFirstPair(x, s) && IsFirstPair(y, s) ensures x == y { FirstPairIsUnique(x, y, s); }
      }
      var first :| first in s && IsFirstPair(first, s);
      [first] + SortedPairs(s - {first})
  }

  lemma {:induction false} SortedPairsAreOrdered(s: set<Pair>)
    ensures forall i, j :: 0 <= i < j < |SortedPairs(s)| ==> PairBefore(SortedPairs(s)[i], SortedPairs(s)[j])
    decreases |s|
  {
    hide PairBefore;
    if s != {} {
      var r := SortedPairs(s);
      assert IsFirstPair(r[0], s) && r[1..] == SortedPairs(s - {r[0]});
      SortedPairsAreOrdered(s - {r[0]});
      forall i, j | 0 <= i < j < |r| ensures PairBefore(r[i], r[j]) {
        assert r[j] == r[1..][j - 1];
        if i > 0 { assert r[i] == r[1..][i - 1]; } else { assert r[j] in r[1..]; }
      }
    }
  }

  /** The first material pair, in order, that fails. */
  ghost predicate FailsFirst(s: Sources, m: Attachments, p: Pair, error: Error) {
    && IsMaterial(m, p) && StateOfPair(s, p) == Failure(error)
    && forall q :: IsMaterial(m, q) && PairBefore(q, p) ==> StateOfPair(s, q).Success?
  }

  datatype Assessment = Assessment(pair: Pair, state: EvidenceState)

  /** Every pair of evidence and field that is material is assessed exactly once, in order; the assessment fails
      exactly when one of the pairs does, with the error of the first one. */
  method AssessEvidence(s: Sources, m: Attachments) returns (r: Result<seq<Assessment>, Error>)
    ensures r.Success? ==>
      && (forall p :: IsMaterial(m, p) <==> exists i :: 0 <= i < |r.value| && r.value[i].pair == p)
      && (forall i, j :: 0 <= i < j < |r.value| ==> PairBefore(r.value[i].pair, r.value[j].pair))
      && (forall i :: 0 <= i < |r.value| ==> StateOfPair(s, r.value[i].pair) == Success(r.value[i].state))
    ensures r.Failure? <==> exists p :: IsMaterial(m, p) && StateOfPair(s, p).Failure?
    ensures r.Failure? ==> exists p :: FailsFirst(s, m, p, r.error)
  {
    hide IsMaterial, StateOfPair, PairBefore;
    var pairs := CollectPairs(m);
    var sorted := SortedPairs(pairs);
    SortedPairsAreOrdered(pairs);
    var done: seq<Assessment> := [];
    for i := 0 to |sorted|
      invariant |done| == i
      invariant forall k :: 0 <= k < i ==> done[k].pair == sorted[k] && StateOfPair(s, sorted[k]) == Success(done[k].state)
    {
      var state := StateOfPair(s, sorted[i]);
      if state.Failure? {
        FirstFailure(s, m, pairs, sorted, i);
        assert FailsFirst(s, m, sorted[i], state.error);
        return Failure(state.error);
      }
      done := done + [Assessment(sorted[i], state.value)];
    }
    forall p ensures IsMaterial(m, p) <==> exists i :: 0 <= i < |done| && done[i].pair == p {
      if IsMaterial(m, p) {
        var i :| 0 <= i < |sorted| && sorted[i] == p;
        assert done[i].pair == p;
      }
    }
    return Success(done);
  }

  lemma FirstFailure(s: Sources, m: Attachments, pairs: set<Pair>, sorted: seq<Pair>, i: nat)
    requires forall p :: p in pairs <==> IsMaterial(m, p)
    requires sorted == SortedPairs(pairs) && i < |sorted|
    requires forall k :: 0 <= k < i ==> StateOfPair(s, sorted[k]).Success?
    ensures IsMaterial(m, sorted[i])
    ensures forall q :: IsMaterial(m, q) && PairBefore(q, sorted[i]) ==> StateOfPair(s, q).Success?
  {
    hide IsMaterial, StateOfPair, PairBefore;
    SortedPairsAreOrdered(pairs);
    assert sorted[i] in sorted;
    forall q | IsMaterial(m, q) && PairBefore(q, sorted[i]) ensures StateOfPair(s, q).Success? {
      var k :| 0 <= k < |sorted| && sorted[k] == q;
      OnePairOrder(q, sorted[i]);
    }
  }
}
