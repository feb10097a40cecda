/** In which order the dimensions of a plan decide, and what its scores and ratios measure. */
module RankPriorities {
  import opened Outcomes
  import opened Ordering
  import opened RankStability

  // ---------- the dimensions ----------

  datatype Dimension = Exceptions | Preference | StackRisk | TotalCost | CoverageShare | EvidenceAge | Actions | Identifier

  /** The first dimension in which two plans differ decides between them. */
  const PRIORITIES := [Exceptions, Preference, StackRisk, TotalCost, CoverageShare, EvidenceAge, Actions, Identifier]

  /** A plan as it is measured in each dimension. */
  datatype Measures = Measures(
    withException: bool, score: real, risk: nat, cost: nat, coverage: real, age: real, actions: seq<string>, id: string)

  ghost predicate Ties(a: Measures, b: Measures, d: Dimension) {
    match d
    case Exceptions => a.withException == b.withException
    case Preference => a.score == b.score
    case StackRisk => a.risk == b.risk
    case TotalCost => a.cost == b.cost
    case CoverageShare => a.coverage == b.coverage
    case EvidenceAge => a.age == b.age
    case Actions => a.actions == b.actions
    case Identifier => a.id == b.id
  }

  /** Better is: without exception, the higher score, the lower risk, the lower cost, the higher coverage, the
      fresher evidence, the earlier actions and the earlier identifier. */
  ghost predicate IsBetter(a: Measures, b: Measures, d: Dimension) {
    match d
    case Exceptions => !a.withException && b.withException
    case Preference => a.score > b.score
    case StackRisk => a.risk < b.risk
    case TotalCost => a.cost < b.cost
    case CoverageShare => a.coverage > b.coverage
    case EvidenceAge => a.age < b.age
    case Actions => exists n: nat :: TupleDiffersAt(a.actions, b.actions, n)
    case Identifier => exists n: nat :: DiffersAt(a.id, b.id, n)
  }

  ghost predicate LeadsFrom(a: Measures, b: Measures, n: nat) {
    n < |PRIORITIES| && IsBetter(a, b, PRIORITIES[n]) && forall m | 0 <= m < n :: Ties(a, b, PRIORITIES[m])
  }

  /** Better in one dimension and the same in every earlier one, whatever the later ones are. */
  ghost predicate Leads(a: Measures, b: Measures) {
    exists n: nat :: LeadsFrom(a, b, n)
  }

  ghost predicate IsKeyOf(k: Key, m: Measures) {
    && k.status == StatusRank(m.withException) && k.preference == -m.score && k.risk == m.risk && k.cost == m.cost
    && k.coverage == -m.coverage && k.age == m.age && k.actions == m.actions && k.id == m.id
  }

  /** Keys are ordered exactly as the plans they measure lead one another. */
  lemma KeysFollowPriorities(a: Key, b: Key, x: Measures, y: Measures)
    requires IsKeyOf(a, x) && IsKeyOf(b, y)
    ensures Precedes(a, b) <==> Leads(x, y)
  {
    TupleBeforeExactly(x.actions, y.actions);
    OneTupleOrder(x.actions, y.actions);
    BeforeExactly(x.id, y.id);
    OneOrder(x.id, y.id);
    hide TupleBefore, Before;
    LeadsExactly(x, y);
    hide Leads;
  }

  /** From some dimension on: better there, or the same there and better from the next one on. */
  ghost predicate LeadsOn(x: Measures, y: Measures, n: nat)
    decreases |PRIORITIES| - n
  {
    n < |PRIORITIES| && (IsBetter(x, y, PRIORITIES[n]) || (Ties(x, y, PRIORITIES[n]) && LeadsOn(x, y, n + 1)))
  }

  ghost predicate TiesUpTo(x: Measures, y: Measures, n: nat) {
    n <= |PRIORITIES| && forall m | 0 <= m < n :: Ties(x, y, PRIORITIES[m])
  }

  lemma {:induction false} LeadsOnExactly(x: Measures, y: Measures, n: nat)
    requires TiesUpTo(x, y, n)
    ensures LeadsOn(x, y, n) <==> exists k: nat :: k >= n && LeadsFrom(x, y, k)
    decreases |PRIORITIES| - n
  {
    hide IsBetter, Ties;
    if n < |PRIORITIES| {
      if IsBetter(x, y, PRIORITIES[n]) {
        assert LeadsFrom(x, y, n);
      } else if Ties(x, y, PRIORITIES[n]) {
        LeadsOnExactly(x, y, n + 1);
      } else {
        forall k: nat | k > n ensures !LeadsFrom(x, y, k) {}
      }
    }
  }

  lemma LeadsExactly(x: Measures, y: Measures)
    ensures LeadsOn(x, y, 0) <==> Leads(x, y)
  {
    hide LeadsOn, LeadsFrom;
    LeadsOnExactly(x, y, 0);
  }

  // ---------- who can overtake ----------

  /** The plan at its best. */
  ghost function AtBest(p: Plan): Measures
    requires p.bounds.Some?
  {
    var b := p.bounds.value;
    Measures(p.withException, b.preference.upper, b.risk.lower, b.cost.low, b.coverage.upper, b.age.lower, p.actions, p.id)
  }

  /** The plan at its worst. */
  ghost function AtWorst(p: Plan): Measures
    requires p.bounds.Some?
  {
    var b := p.bounds.value;
    Measures(p.withException, b.preference.lower, b.risk.upper, b.cost.high, b.coverage.lower, b.age.upper, p.actions, p.id)
  }

  /** The plan as the authoritative ranking takes it. */
  ghost function AsRanked(p: Plan): Measures
    requires p.bounds.Some?
  {
    var b := p.bounds.value;
    Measures(p.withException, b.preference.lower, b.risk.base, b.cost.base, b.coverage.lower, b.age.upper, p.actions, p.id)
  }

  /** The authoritative order: conservative score, base risk, base cost, conservative coverage, upper age. */
  lemma RankingFollowsPriorities(p: Plan, q: Plan)
    requires p.bounds.Some? && q.bounds.Some?
    ensures Precedes(AuthoritativeKey(p), AuthoritativeKey(q)) <==> Leads(AsRanked(p), AsRanked(q))
  {
    hide Precedes, Leads;
    KeysFollowPriorities(AuthoritativeKey(p), AuthoritativeKey(q), AsRanked(p), AsRanked(q));
  }

  lemma AheadFollowsPriorities(selected: Plan, p: Plan)
    requires selected.bounds.Some? && p.bounds.Some?
    ensures Ahead(p, ConservativeKey(selected)) <==> Leads(AtBest(p), AtWorst(selected))
  {
    hide Precedes, Leads;
    KeysFollowPriorities(OptimisticKey(p), ConservativeKey(selected), AtBest(p), AtWorst(selected));
  }

  /** The frontier is exactly the competitors whose best leads the worst of the selected plan; the rank is STABLE
      exactly when there is none. */
  lemma AssessedByPriorities(selected: Plan, competitors: seq<Plan>)
    requires selected.bounds.Some? && forall p :: p in competitors ==> p.bounds.Some?
    ensures var a := Assess(selected, competitors);
      && (forall id :: id in a.frontier <==> exists p :: p in competitors && p.id == id && Leads(AtBest(p), AtWorst(selected)))
      && (a.status == Stable <==> forall p :: p in competitors ==> !Leads(AtBest(p), AtWorst(selected)))
      && (a.status == Unstable <==> exists p :: p in competitors && Leads(AtBest(p), AtWorst(selected)))
  {
    hide Assess, Ahead, Leads, ConservativeKey, AtBest, AtWorst;
    FrontierOfBounded(selected, competitors);
    forall p | p in competitors ensures Ahead(p, ConservativeKey(selected)) <==> Leads(AtBest(p), AtWorst(selected)) {
      AheadFollowsPriorities(selected, p);
    }
  }

  /** The selected plan leads for certain in a dimension: its worst beats the best of the competitor there, and in
      every earlier dimension neither has any play and both are the same. */
  ghost predicate SettlesIn(selected: Plan, p: Plan, n: nat)
    requires selected.bounds.Some? && p.bounds.Some?
  {
    LeadsFrom(AtWorst(selected), AtBest(p), n)
  }

  /** A dimension that settles the rank against every competitor makes it STABLE, whatever the later ones are: a plan
      that ties in status and score and carries the lower risk for certain is stable at any cost. */
  lemma SettledIsStable(selected: Plan, competitors: seq<Plan>)
    requires selected.bounds.Some? && forall p :: p in competitors ==> p.bounds.Some?
    requires forall p :: p in competitors ==> exists n: nat :: SettlesIn(selected, p, n)
    ensures Assess(selected, competitors).status == Stable
  {
    forall p | p in competitors ensures !Leads(AtBest(p), AtWorst(selected)) {
      var n: nat :| SettlesIn(selected, p, n);
      LeadingIsOneWay(AtWorst(selected), AtBest(p));
    }
    AssessedByPriorities(selected, competitors);
  }

  lemma LeadingIsOneWay(x: Measures, y: Measures)
    requires Leads(x, y)
    ensures !Leads(y, x)
  {
    var a, b := MeasuresKey(x), MeasuresKey(y);
    KeysFollowPriorities(a, b, x, y);
    KeysFollowPriorities(b, a, y, x);
    OneKeyOrder(a, b);
  }

  ghost function MeasuresKey(m: Measures): (k: Key)
    ensures IsKeyOf(k, m)
  {
    Key(StatusRank(m.withException), -m.score, m.risk, m.cost, -m.coverage, m.age, m.actions, m.id)
  }

  /** Risk decides before cost. */
  lemma RiskOutweighsCost(selected: Plan, competitors: seq<Plan>)
    requires selected.bounds.Some? && forall p :: p in competitors ==> p.bounds.Some?
    requires forall p :: p in competitors ==>
      && p.withException == selected.withException
      && p.bounds.value.preference.upper == selected.bounds.value.preference.lower
      && selected.bounds.value.risk.upper < p.bounds.value.risk.lower
    ensures Assess(selected, competitors).status == Stable
  {
    forall p | p in competitors ensures SettlesIn(selected, p, 2) {}
    SettledIsStable(selected, competitors);
  }

  // ---------- scenarios ----------

  /** A plan as a scenario makes it. */
  ghost predicate IsMeasured(p: Plan, i: Inputs, s: Scenario, m: Measures)
    requires i.criteria != [] && Within(i, s)
  {
    WeightsArePositive(i.criteria);
    && m.withException == p.withException && m.actions == p.actions && m.id == p.id && m.cost == s.cost
    && m.score == Score(i.criteria, s.satisfaction) && m.coverage == CoverageRatio(i.coverage, s.covered)
    && (forall r :: r in s.risks ==> r <= m.risk) && (if s.risks == [] then m.risk == 0 else m.risk in s.risks)
    && (forall x :: x in s.ages ==> x <= m.age) && (if s.ages == [] then m.age == 0.0 else m.age in s.ages)
  }

  /** In a scenario, too, one plan overtakes another exactly when it leads, by its score, its highest risk, its cost,
      its coverage and its oldest evidence, in this order. */
  lemma ScenariosFollowPriorities(p: Plan, i: Inputs, s: Scenario, x: Measures, q: Plan, j: Inputs, t: Scenario, y: Measures)
    requires i.criteria != [] && Within(i, s) && IsMeasured(p, i, s, x)
    requires j.criteria != [] && Within(j, t) && IsMeasured(q, j, t, y)
    ensures Precedes(KeyIn(p, i, s), KeyIn(q, j, t)) <==> Leads(x, y)
  {
    hide Precedes, Leads;
    MeasuredKey(p, i, s, x);
    MeasuredKey(q, j, t, y);
    KeysFollowPriorities(KeyIn(p, i, s), KeyIn(q, j, t), x, y);
  }

  lemma MeasuredKey(p: Plan, i: Inputs, s: Scenario, m: Measures)
    requires i.criteria != [] && Within(i, s) && IsMeasured(p, i, s, m)
    ensures IsKeyOf(KeyIn(p, i, s), m)
  {
    hide Score, CoverageRatio, Within;
  }

  // ---------- what is measured ----------

  lemma {:induction false} WeightedOfConstant(criteria: seq<Criterion>, satisfaction: seq<real>, x: real)
    requires |satisfaction| == |criteria| && forall k :: 0 <= k < |satisfaction| ==> satisfaction[k] == x
    ensures Weighted(criteria, satisfaction) == Weights(criteria) as real * x
  {
    if criteria != [] {
      WeightedOfConstant(criteria[1..], satisfaction[1..], x);
      FirstAddsWeight(criteria, satisfaction);
      hide Weighted, Weights;
      Distributes(criteria[0].weight as real, Weights(criteria[1..]) as real, x);
    }
  }

  lemma FirstAddsWeight(criteria: seq<Criterion>, satisfaction: seq<real>)
    requires |satisfaction| == |criteria| && criteria != []
    ensures Weights(criteria) as real == criteria[0].weight as real + Weights(criteria[1..]) as real
    ensures Weighted(criteria, satisfaction) == criteria[0].weight as real * satisfaction[0] + Weighted(criteria[1..], satisfaction[1..])
  {
  }

  lemma Distributes(a: real, b: real, x: real)
    ensures (a + b) * x == a * x + b * x
  {
  }

  /** A plan that satisfies every criterion alike has that satisfaction, in percent, as its score. */
  lemma ScoreOfConstant(criteria: seq<Criterion>, satisfaction: seq<real>, x: real)
    requires Weights(criteria) > 0
    requires |satisfaction| == |criteria| && forall k :: 0 <= k < |satisfaction| ==> satisfaction[k] == x
    ensures Score(criteria, satisfaction) == 100.0 * x
  {
    hide Score, Weighted, Weights;
    WeightedOfConstant(criteria, satisfaction, x);
    ScoreTimesWeights(criteria, satisfaction);
    Divided(Score(criteria, satisfaction), Weighted(criteria, satisfaction), x, Weights(criteria) as real);
  }

  lemma Divided(score: real, weighted: real, x: real, total: real)
    requires total > 0.0 && score * total == 100.0 * weighted && weighted == total * x
    ensures score == 100.0 * x
  {
    Reordered(x, total);
    Cancels(score, 100.0 * x, total);
  }

  lemma ScoreTimesWeights(criteria: seq<Criterion>, satisfaction: seq<real>)
    requires |satisfaction| == |criteria| && Weights(criteria) > 0
    ensures Score(criteria, satisfaction) * Weights(criteria) as real == 100.0 * Weighted(criteria, satisfaction)
  {
    hide Weighted, Weights;
    TimesBack(100.0 * Weighted(criteria, satisfaction), Weights(criteria) as real);
  }

  lemma TimesBack(a: real, w: real)
    requires w > 0.0
    ensures a / w * w == a
  {
  }

  lemma Reordered(x: real, w: real)
    ensures 100.0 * (w * x) == (100.0 * x) * w
  {
  }

  lemma Cancels(a: real, b: real, w: real)
    requires w > 0.0 && a * w == b * w
    ensures a == b
  {
  }

  lemma {:induction false} WeightedIsLinear(criteria: seq<Criterion>, satisfaction: seq<real>, k: nat, d: real)
    requires |satisfaction| == |criteria| && k < |criteria|
    ensures Weighted(criteria, satisfaction[k := satisfaction[k] + d]) == Weighted(criteria, satisfaction) + criteria[k].weight as real * d
  {
    var raised := satisfaction[k := satisfaction[k] + d];
    if k == 0 {
      assert raised[1..] == satisfaction[1..];
    } else {
      WeightedIsLinear(criteria[1..], satisfaction[1..], k - 1, d);
      assert raised[1..] == satisfaction[1..][k - 1 := satisfaction[1..][k - 1] + d];
    }
  }

  /** Every criterion moves the score by its share of the total weight: the score times the total weight moves by
      its weight, in percent. */
  lemma ScoreIsLinear(criteria: seq<Criterion>, satisfaction: seq<real>, k: nat, d: real)
    requires |satisfaction| == |criteria| && k < |criteria| && Weights(criteria) > 0
    ensures var total := Weights(criteria) as real;
      Score(criteria, satisfaction[k := satisfaction[k] + d]) * total
      == Score(criteria, satisfaction) * total + 100.0 * (criteria[k].weight as real * d)
  {
    hide Score, Weighted, Weights;
    var raised := satisfaction[k := satisfaction[k] + d];
    WeightedIsLinear(criteria, satisfaction, k, d);
    ScoreTimesWeights(criteria, satisfaction);
    ScoreTimesWeights(criteria, raised);
    Moves(Score(criteria, satisfaction) * Weights(criteria) as real, Score(criteria, raised) * Weights(criteria) as real,
          Weighted(criteria, satisfaction), Weighted(criteria, raised), criteria[k].weight as real * d);
  }

  lemma Moves(before: real, after: real, a: real, b: real, step: real)
    requires before == 100.0 * a && after == 100.0 * b && b == a + step
    ensures after == before + 100.0 * step
  {
  }

  lemma {:induction false} CoveredWeightOfAll(criteria: seq<Coverage>, covered: seq<bool>, x: bool)
    requires |covered| == |criteria| && forall k :: 0 <= k < |covered| ==> covered[k] == x
    ensures CoveredWeight(criteria, covered) == if x then CoverageWeights(criteria) else 0
  {
    if criteria != [] { CoveredWeightOfAll(criteria[1..], covered[1..], x); }
  }

  lemma {:induction false} CoveringAddsWeight(criteria: seq<Coverage>, covered: seq<bool>, k: nat)
    requires |covered| == |criteria| && k < |criteria| && !covered[k]
    ensures CoveredWeight(criteria, covered[k := true]) == CoveredWeight(criteria, covered) + criteria[k].weight
  {
    if k == 0 {
      assert covered[k := true][1..] == covered[1..];
    } else {
      CoveringAddsWeight(criteria[1..], covered[1..], k - 1);
      assert covered[k := true][1..] == covered[1..][k - 1 := true];
    }
  }

  lemma CoverageWeightsArePositive(criteria: seq<Coverage>)
    requires criteria != []
    ensures CoverageWeights(criteria) > 0
  {
  }

  lemma RatioTimesWeights(criteria: seq<Coverage>, covered: seq<bool>)
    requires |covered| == |criteria| && criteria != []
    ensures CoverageWeights(criteria) > 0
    ensures CoverageRatio(criteria, covered) * CoverageWeights(criteria) as real == CoveredWeight(criteria, covered) as real
  {
    hide CoveredWeight, CoverageWeights;
    CoverageWeightsArePositive(criteria);
    TimesBack(CoveredWeight(criteria, covered) as real, CoverageWeights(criteria) as real);
  }

  /** Nothing covered is zero and everything covered is one, also when there is nothing to cover. */
  lemma CoverageOfAll(criteria: seq<Coverage>, covered: seq<bool>, x: bool)
    requires |covered| == |criteria| && forall j :: 0 <= j < |covered| ==> covered[j] == x
    ensures CoverageRatio(criteria, covered) == if x || criteria == [] then 1.0 else 0.0
  {
    hide CoveredWeight, CoverageWeights;
    if criteria != [] {
      hide CoverageRatio;
      CoveredWeightOfAll(criteria, covered, x);
      RatioTimesWeights(criteria, covered);
      Cancels(CoverageRatio(criteria, covered), if x then 1.0 else 0.0, CoverageWeights(criteria) as real);
    }
  }

  /** Covering one more criterion adds its share: the ratio times the total weight grows by its weight. */
  lemma CoverageIsLinear(criteria: seq<Coverage>, covered: seq<bool>, k: nat)
    requires |covered| == |criteria| && k < |criteria| && !covered[k]
    ensures var total := CoverageWeights(criteria) as real;
      CoverageRatio(criteria, covered[k := true]) * total == CoverageRatio(criteria, covered) * total + criteria[k].weight as real
  {
    hide CoverageRatio, CoveredWeight, CoverageWeights;
    CoveringAddsWeight(criteria, covered, k);
    RatioTimesWeights(criteria, covered);
    RatioTimesWeights(criteria, covered[k := true]);
  }

  /** The weights are those of all criteria. */
  lemma {:induction false} WeightsOfAll(criteria: seq<Criterion>, more: seq<Criterion>)
    ensures Weights(criteria + more) == Weights(criteria) + Weights(more)
    ensures |criteria| == 1 ==> Weights(criteria) == criteria[0].weight
  {
    if criteria == [] {
      assert criteria + more == more;
    } else {
      WeightsOfAll(criteria[1..], more);
      assert (criteria + more)[1..] == criteria[1..] + more;
    }
  }
}
