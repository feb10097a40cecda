/** Exact bounds of a plan and the stability of its rank. An exact ratio is a real number; a cost is a
    number of cents in the one currency of the ranking. */
module RankStability {
  import opened Outcomes
  import opened Ordering

  datatype Error = NoCriteria | DuplicateCriteria | ScoreOutOfRange | NoComponents

  datatype CriterionFields = CriterionFields(id: string, weight: nat, low: real, high: real)

  /** A preference criterion, as its constructor admits it. */
  type Criterion = c: CriterionFields | 1 <= c.weight <= 5 && 0.0 <= c.low <= c.high <= 1.0
    witness CriterionFields("c", 1, 0.0, 0.0)

  datatype CoverageFields = CoverageFields(id: string, weight: nat, conservative: bool, optimistic: bool)

  type Coverage = c: CoverageFields | 1 <= c.weight <= 5 && (c.conservative ==> c.optimistic)
    witness CoverageFields("c", 1, false, false)

  datatype RiskFields = RiskFields(lower: nat, base: nat, upper: nat)

  /** Ranks of the four stack risks, LOW to CRITICAL. */
  type Risk = r: RiskFields | r.lower <= r.base <= r.upper <= 3 witness RiskFields(0, 0, 0)

  datatype CostFields = CostFields(low: nat, base: nat, high: nat)

  type Cost = c: CostFields | c.low <= c.base <= c.high witness CostFields(0, 0, 0)

  datatype IntervalFields = IntervalFields(lower: real, upper: real)

  type Interval = i: IntervalFields | 0.0 <= i.lower <= i.upper witness IntervalFields(0.0, 0.0)

  // ---------- aggregation ----------

  function Weights(criteria: seq<Criterion>): nat {
    if criteria == [] then 0 else criteria[0].weight + Weights(criteria[1..])
  }

  function Weighted(criteria: seq<Criterion>, satisfaction: seq<real>): real
    requires |satisfaction| == |criteria|
  {
    if criteria == [] then 0.0
    else criteria[0].weight as real * satisfaction[0] + Weighted(criteria[1..], satisfaction[1..])
  }

  /** The preference score of one choice of satisfactions. */
  function Score(criteria: seq<Criterion>, satisfaction: seq<real>): real
    requires |satisfaction| == |criteria| && Weights(criteria) > 0
  {
    100.0 * Weighted(criteria, satisfaction) / Weights(criteria) as real
  }

  function Lows(criteria: seq<Criterion>): (r: seq<real>)
    ensures |r| == |criteria|
  {
    seq(|criteria|, i requires 0 <= i < |criteria| => criteria[i].low)
  }

  function Highs(criteria: seq<Criterion>): (r: seq<real>)
    ensures |r| == |criteria|
  {
    seq(|criteria|, i requires 0 <= i < |criteria| => criteria[i].high)
  }

  predicate DistinctCriteria(criteria: seq<Criterion>) {
    forall i, j :: 0 <= i < j < |criteria| ==> criteria[i].id != criteria[j].id
  }

  function AggregatePreference(criteria: seq<Criterion>): Result<Interval, Error> {
    if criteria == [] then Failure(NoCriteria)
    else if !DistinctCriteria(criteria) then Failure(DuplicateCriteria)
    else
      var conservative, optimistic := Score(criteria, Lows(criteria)), Score(criteria, Highs(criteria));
      if 0.0 <= conservative <= optimistic <= 100.0 then Success(IntervalFields(conservative, optimistic))
      else Failure(ScoreOutOfRange)
  }

  function CoverageWeights(criteria: seq<Coverage>): nat {
    if criteria == [] then 0 else criteria[0].weight + CoverageWeights(criteria[1..])
  }

  function CoveredWeight(criteria: seq<Coverage>, covered: seq<bool>): nat
    requires |covered| == |criteria|
  {
    if criteria == [] then 0
    else (if covered[0] then criteria[0].weight else 0) + CoveredWeight(criteria[1..], covered[1..])
  }

  /** Without a criterion everything is covered. */
  function CoverageRatio(criteria: seq<Coverage>, covered: seq<bool>): real
    requires |covered| == |criteria|
  {
    if criteria == [] then 1.0
    else CoveredWeight(criteria, covered) as real / CoverageWeights(criteria) as real
  }

  function Conservatively(criteria: seq<Coverage>): (r: seq<bool>)
    ensures |r| == |criteria|
  {
    seq(|criteria|, i requires 0 <= i < |criteria| => criteria[i].conservative)
  }

  function Optimistically(criteria: seq<Coverage>): (r: seq<bool>)
    ensures |r| == |criteria|
  {
    seq(|criteria|, i requires 0 <= i < |criteria| => criteria[i].optimistic)
  }

  predicate DistinctCoverage(criteria: seq<Coverage>) {
    forall i, j :: 0 <= i < j < |criteria| ==> criteria[i].id != criteria[j].id
  }

  function AggregateCoverage(criteria: seq<Coverage>): Result<IntervalFields, Error> {
    if criteria != [] && !DistinctCoverage(criteria) then Failure(DuplicateCriteria)
    else Success(IntervalFields(
      CoverageRatio(criteria, Conservatively(criteria)), CoverageRatio(criteria, Optimistically(criteria))))
  }

  function Highest(ranks: seq<nat>): (r: nat)
    ensures forall k :: k in ranks ==> k <= r
    ensures ranks != [] ==> r in ranks
  {
    if ranks == [] then 0
    else assert ranks == [ranks[0]] + ranks[1..]; var rest := Highest(ranks[1..]); if |ranks| == 1 || ranks[0] >= rest then ranks[0] else rest
  }

  function RiskRanks(components: seq<Risk>, rank: Risk -> nat): (r: seq<nat>)
    ensures |r| == |components|
  {
    seq(|components|, i requires 0 <= i < |components| => rank(components[i]))
  }

  function AggregateRisk(components: seq<Risk>): Result<RiskFields, Error> {
    if components == [] then Failure(NoComponents)
    else Success(RiskFields(
      Highest(RiskRanks(components, (r: Risk) => r.lower)),
      Highest(RiskRanks(components, (r: Risk) => r.base)),
      Highest(RiskRanks(components, (r: Risk) => r.upper))))
  }

  /** The oldest of the ages, or zero without evidence. */
  function Oldest(ages: seq<real>): (r: real)
    ensures forall k :: k in ages ==> k <= r
    ensures ages != [] ==> r in ages
    ensures ages == [] ==> r == 0.0
  {
    if ages == [] then 0.0
    else assert ages == [ages[0]] + ages[1..]; var rest := Oldest(ages[1..]); if |ages| == 1 || ages[0] >= rest then ages[0] else rest
  }

  function AgeLowers(items: seq<Interval>): (r: seq<real>)
    ensures |r| == |items|
  {
    seq(|items|, i requires 0 <= i < |items| => items[i].lower)
  }

  function AgeUppers(items: seq<Interval>): (r: seq<real>)
    ensures |r| == |items|
  {
    seq(|items|, i requires 0 <= i < |items| => items[i].upper)
  }

  function AggregateAge(items: seq<Interval>): IntervalFields {
    IntervalFields(Oldest(AgeLowers(items)), Oldest(AgeUppers(items)))
  }

  // ---------- bounded plans and their keys ----------

  datatype Bounds = Bounds(preference: IntervalFields, risk: RiskFields, cost: Cost, coverage: IntervalFields, age: IntervalFields)

  /** An eligible plan; its bounds are missing when some bound is unavailable. */
  datatype Plan = Plan(id: string, withException: bool, actions: seq<string>, bounds: Option<Bounds>)

  /** The key compared by the authoritative order; smaller is better. */
  datatype Key = Key(
    status: nat, preference: real, risk: nat, cost: nat, coverage: real, age: real, actions: seq<string>, id: string)

  predicate Precedes(a: Key, b: Key) {
    if a.status != b.status then a.status < b.status
    else if a.preference != b.preference then a.preference < b.preference
    else if a.risk != b.risk then a.risk < b.risk
    else if a.cost != b.cost then a.cost < b.cost
    else if a.coverage != b.coverage then a.coverage < b.coverage
    else if a.age != b.age then a.age < b.age
    else if a.actions != b.actions then TupleBefore(a.actions, b.actions)
    else Before(a.id, b.id)
  }

  function StatusRank(withException: bool): nat {
    if withException then 1 else 0
  }

  function AuthoritativeKey(p: Plan): Key
    requires p.bounds.Some?
  {
    var b := p.bounds.value;
    Key(StatusRank(p.withException), -b.preference.lower, b.risk.base, b.cost.base, -b.coverage.lower, b.age.upper, p.actions, p.id)
  }

  function ConservativeKey(p: Plan): Key
    requires p.bounds.Some?
  {
    var b := p.bounds.value;
    Key(StatusRank(p.withException), -b.preference.lower, b.risk.upper, b.cost.high, -b.coverage.lower, b.age.upper, p.actions, p.id)
  }

  function OptimisticKey(p: Plan): Key
    requires p.bounds.Some?
  {
    var b := p.bounds.value;
    Key(StatusRank(p.withException), -b.preference.upper, b.risk.lower, b.cost.low, -b.coverage.upper, b.age.lower, p.actions, p.id)
  }

  // ---------- stability ----------

  datatype Stability = Stable | Unstable | Undetermined

  datatype Assessment = Assessment(status: Stability, frontier: seq<string>, unavailable: seq<string>)

  function IdsOf(plans: seq<Plan>, chosen: Plan -> bool): (ids: seq<string>)
    ensures forall id :: id in ids <==> exists p :: p in plans && chosen(p) && p.id == id
  {
    if plans == [] then [] else
      assert forall p :: p in plans <==> p == plans[0] || p in plans[1..];
      (if chosen(plans[0]) then [plans[0].id] else []) + IdsOf(plans[1..], chosen)
  }

  predicate Ahead(p: Plan, worst: Key) {
    p.bounds.Some? && Precedes(OptimisticKey(p), worst)
  }

  lemma MissingBoundsAreListed(plans: seq<Plan>)
    ensures var missing := Sorted(IdsOf(plans, (p: Plan) => p.bounds.None?));
      && IsSorted(missing)
      && (forall id :: id in missing <==> exists p :: p in plans && p.bounds.None? && p.id == id)
      && (missing == [] <==> forall p :: p in plans ==> p.bounds.Some?)
  {
    var ids := IdsOf(plans, (p: Plan) => p.bounds.None?);
    SortedIsSorted(ids);
    if Sorted(ids) != [] {
      assert Sorted(ids)[0] in ids;
    } else {
      forall p | p in plans ensures p.bounds.Some? {
        assert p.bounds.None? ==> p.id in ids;
      }
    }
  }

  function Assess(selected: Plan, competitors: seq<Plan>): Assessment {
    var all := [selected] + competitors;
    var unavailable := Sorted(IdsOf(all, (p: Plan) => p.bounds.None?));
    MissingBoundsAreListed(all);
    if unavailable != [] then Assessment(Undetermined, [], unavailable)
    else
      assert selected in all;
      var worst := ConservativeKey(selected);
      var frontier := Sorted(IdsOf(competitors, (p: Plan) => Ahead(p, worst)));
      Assessment(if frontier != [] then Unstable else Stable, frontier, [])
  }

  // ---------- what the bounds stand for ----------

  /** The raw inputs whose aggregation gives a plan its bounds. */
  datatype Inputs = Inputs(
    criteria: seq<Criterion>, risks: seq<Risk>, cost: Cost, coverage: seq<Coverage>, ages: seq<Interval>)

  /** One value for every uncertain input of a plan. */
  datatype Scenario = Scenario(
    satisfaction: seq<real>, risks: seq<nat>, cost: nat, covered: seq<bool>, ages: seq<real>)

  function Aggregate(i: Inputs): Result<Bounds, Error> {
    match AggregatePreference(i.criteria)
    case Failure(e) => Failure(e)
    case Success(preference) =>
      match AggregateRisk(i.risks)
      case Failure(e) => Failure(e)
      case Success(risk) =>
        match AggregateCoverage(i.coverage)
        case Failure(e) => Failure(e)
        case Success(coverage) => Success(Bounds(preference, risk, i.cost, coverage, AggregateAge(i.ages)))
  }

  predicate BoundedBy(p: Plan, i: Inputs) {
    Aggregate(i).Success? && p.bounds == Some(Aggregate(i).value)
  }

  predicate Within(i: Inputs, s: Scenario) {
    && |s.satisfaction| == |i.criteria|
    && (forall k :: 0 <= k < |i.criteria| ==> i.criteria[k].low <= s.satisfaction[k] <= i.criteria[k].high)
    && |s.risks| == |i.risks|
    && (forall k :: 0 <= k < |i.risks| ==> i.risks[k].lower <= s.risks[k] <= i.risks[k].upper)
    && i.cost.low <= s.cost <= i.cost.high
    && |s.covered| == |i.coverage|
    && (forall k :: 0 <= k < |i.coverage| ==>
         (i.coverage[k].conservative ==> s.covered[k]) && (s.covered[k] ==> i.coverage[k].optimistic))
    && |s.ages| == |i.ages|
    && (forall k :: 0 <= k < |i.ages| ==> i.ages[k].lower <= s.ages[k] <= i.ages[k].upper)
  }

  lemma WeightsArePositive(criteria: seq<Criterion>)
    requires criteria != []
    ensures Weights(criteria) > 0
  {}

  /** The key a plan would have if the scenario were the truth. */
  function KeyIn(p: Plan, i: Inputs, s: Scenario): Key
    requires i.criteria != [] && Within(i, s)
  {
    WeightsArePositive(i.criteria);
    Key(StatusRank(p.withException), -Score(i.criteria, s.satisfaction), Highest(s.risks), s.cost,
        -CoverageRatio(i.coverage, s.covered), Oldest(s.ages), p.actions, p.id)
  }

  // ---------- aggregation is monotone and its ends are attained ----------

  lemma {:induction false} WeightedIsMonotone(criteria: seq<Criterion>, a: seq<real>, b: seq<real>)
    requires |a| == |b| == |criteria|
    requires forall k :: 0 <= k < |a| ==> a[k] <= b[k]
    ensures Weighted(criteria, a) <= Weighted(criteria, b)
  {
    if criteria != [] {
      assert a[0] <= b[0];
      assert criteria[0].weight as real * a[0] <= criteria[0].weight as real * b[0];
      forall k | 0 <= k < |a[1..]| ensures a[1..][k] <= b[1..][k] { assert a[k + 1] <= b[k + 1]; }
      WeightedIsMonotone(criteria[1..], a[1..], b[1..]);
    }
  }

  lemma DividingIsMonotone(x: real, y: real, d: real)
    requires x <= y && d > 0.0
    ensures x / d <= y / d
  {
    assert (y - x) / d >= 0.0;
    assert y / d - x / d == (y - x) / d;
  }

  lemma ScoreIsMonotone(criteria: seq<Criterion>, a: seq<real>, b: seq<real>)
    requires |a| == |b| == |criteria| && Weights(criteria) > 0
    requires forall k :: 0 <= k < |a| ==> a[k] <= b[k]
    ensures Score(criteria, a) <= Score(criteria, b)
  {
    WeightedIsMonotone(criteria, a, b);
    DividingIsMonotone(100.0 * Weighted(criteria, a), 100.0 * Weighted(criteria, b), Weights(criteria) as real);
  }

  lemma {:induction false} CoveredWeightIsMonotone(criteria: seq<Coverage>, a: seq<bool>, b: seq<bool>)
    requires |a| == |b| == |criteria|
    requires forall k :: 0 <= k < |a| ==> a[k] ==> b[k]
    ensures CoveredWeight(criteria, a) <= CoveredWeight(criteria, b) <= CoverageWeights(criteria)
  {
    if criteria != [] {
      assert a[0] ==> b[0];
      forall k | 0 <= k < |a[1..]| ensures a[1..][k] ==> b[1..][k] { assert a[k + 1] ==> b[k + 1]; }
      CoveredWeightIsMonotone(criteria[1..], a[1..], b[1..]);
    }
  }

  lemma CoverageRatioIsMonotone(criteria: seq<Coverage>, a: seq<bool>, b: seq<bool>)
    requires |a| == |b| == |criteria|
    requires forall k :: 0 <= k < |a| ==> a[k] ==> b[k]
    ensures CoverageRatio(criteria, a) <= CoverageRatio(criteria, b)
  {
    if criteria != [] {
      CoveredWeightIsMonotone(criteria, a, b);
      DividingIsMonotone(
        CoveredWeight(criteria, a) as real, CoveredWeight(criteria, b) as real, CoverageWeights(criteria) as real);
    }
  }

  lemma HighestIsMonotone(a: seq<nat>, b: seq<nat>)
    requires |a| == |b|
    requires forall k :: 0 <= k < |a| ==> a[k] <= b[k]
    ensures Highest(a) <= Highest(b)
  {
    if a != [] {
      var k :| 0 <= k < |a| && a[k] == Highest(a);
      assert b[k] in b;
    }
  }

  lemma OldestIsMonotone(a: seq<real>, b: seq<real>)
    requires |a| == |b|
    requires forall k :: 0 <= k < |a| ==> a[k] <= b[k]
    ensures Oldest(a) <= Oldest(b)
  {
    if a != [] {
      var k :| 0 <= k < |a| && a[k] == Oldest(a);
      assert b[k] in b;
    }
  }

  lemma ScalingIsBounded(w: real, x: real)
    requires 0.0 <= w && 0.0 <= x <= 1.0
    ensures 0.0 <= w * x <= w
  {
    assert w * (1.0 - x) >= 0.0;
  }

  lemma {:induction false} WeightedIsAtMostWeights(criteria: seq<Criterion>, a: seq<real>)
    requires |a| == |criteria|
    requires forall k :: 0 <= k < |a| ==> 0.0 <= a[k] <= 1.0
    ensures 0.0 <= Weighted(criteria, a) <= Weights(criteria) as real
  {
    if criteria != [] {
      ScalingIsBounded(criteria[0].weight as real, a[0]);
      forall k | 0 <= k < |a[1..]| ensures 0.0 <= a[1..][k] <= 1.0 { assert 0.0 <= a[k + 1] <= 1.0; }
      WeightedIsAtMostWeights(criteria[1..], a[1..]);
    }
  }

  lemma ScoreIsAtMost100(x: real, w: real)
    requires 0.0 <= x <= w && w > 0.0
    ensures 0.0 <= 100.0 * x / w <= 100.0
  {
    DividingIsMonotone(0.0, 100.0 * x, w);
    DividingIsMonotone(100.0 * x, 100.0 * w, w);
    assert 100.0 * w / w == 100.0;
  }

  /** The range check on an aggregated score never fails: aggregation refuses a plan only for an empty
      or repeated criterion. */
  lemma PreferenceIsRefusedExactly(criteria: seq<Criterion>)
    ensures AggregatePreference(criteria).Success? <==> criteria != [] && DistinctCriteria(criteria)
  {
    if criteria != [] && DistinctCriteria(criteria) {
      WeightsArePositive(criteria);
      var w := Weights(criteria) as real;
      var low, high := Lows(criteria), Highs(criteria);
      ScoreIsMonotone(criteria, low, high);
      WeightedIsAtMostWeights(criteria, low);
      WeightedIsAtMostWeights(criteria, high);
      ScoreIsAtMost100(Weighted(criteria, low), w);
      ScoreIsAtMost100(Weighted(criteria, high), w);
    }
  }

  // ---------- the order of keys ----------

  lemma OneKeyOrder(a: Key, b: Key)
    ensures a == b ==> !Precedes(a, b)
    ensures a != b ==> (Precedes(a, b) <==> !Precedes(b, a))
  {
    OneTupleOrder(a.actions, b.actions);
    OneOrder(a.id, b.id);
  }

  lemma PrecedesTransitive(a: Key, b: Key, c: Key)
    requires Precedes(a, b) && Precedes(b, c)
    ensures Precedes(a, c)
  {
    if a.actions != b.actions && b.actions != c.actions && TupleBefore(a.actions, b.actions) && TupleBefore(b.actions, c.actions) {
      TupleBeforeTransitive(a.actions, b.actions, c.actions);
      OneTupleOrder(a.actions, c.actions);
    }
    if Before(a.id, b.id) && Before(b.id, c.id) { BeforeTransitive(a.id, b.id, c.id); }
  }

  predicate NotAfter(a: Key, b: Key) {
    a == b || Precedes(a, b)
  }

  lemma NotAfterThenPrecedes(a: Key, b: Key, c: Key, d: Key)
    requires NotAfter(a, b) && Precedes(b, c) && NotAfter(c, d)
    ensures Precedes(a, d)
  {
    if a != b { PrecedesTransitive(a, b, c); }
    if c != d { PrecedesTransitive(a, c, d); }
  }

  // ---------- the envelopes ----------

  function Worst(i: Inputs): Scenario {
    Scenario(Lows(i.criteria), RiskRanks(i.risks, (r: Risk) => r.upper), i.cost.high,
             Conservatively(i.coverage), AgeUppers(i.ages))
  }

  function Best(i: Inputs): Scenario {
    Scenario(Highs(i.criteria), RiskRanks(i.risks, (r: Risk) => r.lower), i.cost.low,
             Optimistically(i.coverage), AgeLowers(i.ages))
  }

  /** The authoritative key uses base risk and base cost with the conservative other dimensions. */
  function Base(i: Inputs): Scenario {
    Scenario(Lows(i.criteria), RiskRanks(i.risks, (r: Risk) => r.base), i.cost.base,
             Conservatively(i.coverage), AgeUppers(i.ages))
  }

  /** The three keys are the keys of three scenarios inside the intervals. */
  lemma KeysAreScenarios(p: Plan, i: Inputs)
    requires BoundedBy(p, i)
    ensures i.criteria != [] && Within(i, Worst(i)) && Within(i, Best(i)) && Within(i, Base(i))
    ensures ConservativeKey(p) == KeyIn(p, i, Worst(i))
    ensures OptimisticKey(p) == KeyIn(p, i, Best(i))
    ensures AuthoritativeKey(p) == KeyIn(p, i, Base(i))
  {
    hide Score, CoverageRatio, Highest, Oldest, DistinctCriteria, DistinctCoverage;
  }

  /** No scenario leaves the envelopes. */
  lemma ScenariosStayWithin(p: Plan, i: Inputs, s: Scenario)
    requires BoundedBy(p, i) && i.criteria != [] && Within(i, s)
    ensures NotAfter(OptimisticKey(p), KeyIn(p, i, s)) && NotAfter(KeyIn(p, i, s), ConservativeKey(p))
  {
    KeysAreScenarios(p, i);
    WeightsArePositive(i.criteria);
    ScoreIsMonotone(i.criteria, Lows(i.criteria), s.satisfaction);
    ScoreIsMonotone(i.criteria, s.satisfaction, Highs(i.criteria));
    CoverageRatioIsMonotone(i.coverage, Conservatively(i.coverage), s.covered);
    CoverageRatioIsMonotone(i.coverage, s.covered, Optimistically(i.coverage));
    HighestIsMonotone(Best(i).risks, s.risks);
    HighestIsMonotone(s.risks, Worst(i).risks);
    OldestIsMonotone(Best(i).ages, s.ages);
    OldestIsMonotone(s.ages, Worst(i).ages);
  }

  // ---------- soundness and completeness ----------

  /** One joint choice of every uncertain input, of the selected plan and of every competitor. */
  datatype Joint = Joint(own: Scenario, others: seq<Scenario>)

  ghost predicate JointlyWithin(own: Inputs, others: seq<Inputs>, x: Joint) {
    && Within(own, x.own)
    && |x.others| == |others|
    && forall k :: 0 <= k < |others| ==> Within(others[k], x.others[k])
  }

  predicate Overtakes(selected: Plan, own: Inputs, p: Plan, i: Inputs, ownScenario: Scenario, scenario: Scenario)
    requires own.criteria != [] && Within(own, ownScenario)
    requires i.criteria != [] && Within(i, scenario)
  {
    Precedes(KeyIn(p, i, scenario), KeyIn(selected, own, ownScenario))
  }

  /** Every plan carries the aggregated bounds of its inputs. */
  ghost predicate AllBounded(selected: Plan, competitors: seq<Plan>, own: Inputs, others: seq<Inputs>) {
    && BoundedBy(selected, own)
    && |others| == |competitors|
    && forall k :: 0 <= k < |others| ==> BoundedBy(competitors[k], others[k])
  }

  /** One competitor is on the frontier exactly when some choice puts it ahead, and then the worst case of
      the selected plan against the best case of the competitor does. */
  lemma FrontierMeansOvertaking(selected: Plan, own: Inputs, p: Plan, i: Inputs)
    requires BoundedBy(selected, own) && BoundedBy(p, i)
    ensures own.criteria != [] && i.criteria != []
    ensures Ahead(p, ConservativeKey(selected)) <==>
      Within(own, Worst(own)) && Within(i, Best(i)) && Overtakes(selected, own, p, i, Worst(own), Best(i))
    ensures forall x, y | Within(own, x) && Within(i, y) :: Overtakes(selected, own, p, i, x, y) ==> Ahead(p, ConservativeKey(selected))
  {
    KeysAreScenarios(selected, own);
    KeysAreScenarios(p, i);
    forall x, y | Within(own, x) && Within(i, y) && Overtakes(selected, own, p, i, x, y)
      ensures Ahead(p, ConservativeKey(selected))
    {
      ScenariosStayWithin(selected, own, x);
      ScenariosStayWithin(p, i, y);
      NotAfterThenPrecedes(OptimisticKey(p), KeyIn(p, i, y), KeyIn(selected, own, x), ConservativeKey(selected));
    }
  }

  /** In the joint choice, the competitor is strictly ahead of the selected plan. */
  ghost predicate OvertakenIn(
    selected: Plan, competitors: seq<Plan>, own: Inputs, others: seq<Inputs>, x: Joint, k: int)
  {
    && AllBounded(selected, competitors, own, others)
    && JointlyWithin(own, others, x)
    && 0 <= k < |competitors|
    && BoundedBy(selected, own) && BoundedBy(competitors[k], others[k])
    && Within(others[k], x.others[k])
    && Precedes(KeyIn(competitors[k], others[k], x.others[k]), KeyIn(selected, own, x.own))
  }

  function Bests(others: seq<Inputs>): (r: seq<Scenario>)
    ensures |r| == |others|
  {
    seq(|others|, k requires 0 <= k < |others| => Best(others[k]))
  }

  /** The joint choice that is worst for the selected plan and best for every competitor. */
  function Adverse(own: Inputs, others: seq<Inputs>): Joint {
    Joint(Worst(own), Bests(others))
  }

  lemma AdverseIsWithin(selected: Plan, competitors: seq<Plan>, own: Inputs, others: seq<Inputs>)
    requires AllBounded(selected, competitors, own, others)
    ensures JointlyWithin(own, others, Adverse(own, others))
  {
    KeysAreScenarios(selected, own);
    forall k | 0 <= k < |others| ensures Within(others[k], Best(others[k])) {
      KeysAreScenarios(competitors[k], others[k]);
    }
  }

  /** A competitor is overtaking in some joint choice exactly when it does in the adverse one, and exactly
      when it is ahead by the two envelope keys. */
  lemma OvertakingExactly(
    selected: Plan, competitors: seq<Plan>, own: Inputs, others: seq<Inputs>, k: nat)
    requires AllBounded(selected, competitors, own, others) && k < |competitors|
    ensures selected.bounds.Some?
    ensures Ahead(competitors[k], ConservativeKey(selected))
            <==> OvertakenIn(selected, competitors, own, others, Adverse(own, others), k)
    ensures forall x :: OvertakenIn(selected, competitors, own, others, x, k) ==> Ahead(competitors[k], ConservativeKey(selected))
  {
    hide Aggregate, Within, KeyIn, Precedes, Worst, Best, ConservativeKey, Ahead;
    AdverseIsWithin(selected, competitors, own, others);
    assert BoundedBy(competitors[k], others[k]);
    FrontierMeansOvertaking(selected, own, competitors[k], others[k]);
    assert Adverse(own, others).others[k] == Best(others[k]);
    forall x | OvertakenIn(selected, competitors, own, others, x, k)
      ensures Ahead(competitors[k], ConservativeKey(selected))
    {
      assert Overtakes(selected, own, competitors[k], others[k], x.own, x.others[k]);
    }
  }

  /** The assessment of plans with all their bounds: the frontier is sorted and lists the competitors
      ahead by the envelope keys. */
  lemma FrontierOfBounded(selected: Plan, competitors: seq<Plan>)
    requires selected.bounds.Some? && forall p :: p in competitors ==> p.bounds.Some?
    ensures var a := Assess(selected, competitors);
      && a.unavailable == [] && IsSorted(a.frontier)
      && a.status == (if a.frontier == [] then Stable else Unstable)
      && (forall id :: id in a.frontier <==> exists p :: p in competitors && Ahead(p, ConservativeKey(selected)) && p.id == id)
      && (a.frontier == [] <==> forall p :: p in competitors ==> !Ahead(p, ConservativeKey(selected)))
  {
    hide Precedes, ConservativeKey, OptimisticKey;
    MissingBoundsAreListed([selected] + competitors);
    var worst := ConservativeKey(selected);
    var ids := IdsOf(competitors, (p: Plan) => Ahead(p, worst));
    SortedIsSorted(ids);
    if Sorted(ids) != [] {
      assert Sorted(ids)[0] in ids;
    } else {
      forall p | p in competitors ensures !Ahead(p, worst) {
        assert Ahead(p, worst) ==> p.id in ids;
      }
    }
  }

  /** In the joint choice, a competitor with this identifier is strictly ahead of the selected plan. */
  ghost predicate OvertakesIn(
    selected: Plan, competitors: seq<Plan>, own: Inputs, others: seq<Inputs>, x: Joint, id: string)
  {
    exists k | 0 <= k < |competitors| :: OvertakenIn(selected, competitors, own, others, x, k) && competitors[k].id == id
  }

  /** The frontier is exactly the competitors that some joint choice puts ahead; the adverse choice alone
      puts all of them ahead at once. */
  lemma FrontierExactly(selected: Plan, competitors: seq<Plan>, own: Inputs, others: seq<Inputs>)
    requires AllBounded(selected, competitors, own, others)
    ensures var a := Assess(selected, competitors);
      && a.unavailable == [] && IsSorted(a.frontier)
      && (forall id :: id in a.frontier <==> exists x :: OvertakesIn(selected, competitors, own, others, x, id))
      && (forall id :: id in a.frontier ==> OvertakesIn(selected, competitors, own, others, Adverse(own, others), id))
  {
    hide Assess, Ahead, ConservativeKey, BoundedBy, JointlyWithin, OvertakenIn;
    BoundedPlansHaveBounds(selected, competitors, own, others);
    FrontierOfBounded(selected, competitors);
    var a := Assess(selected, competitors);
    forall id | id in a.frontier
      ensures OvertakesIn(selected, competitors, own, others, Adverse(own, others), id)
    {
      var p :| p in competitors && Ahead(p, ConservativeKey(selected)) && p.id == id;
      var k :| 0 <= k < |competitors| && competitors[k] == p;
      OvertakingExactly(selected, competitors, own, others, k);
    }
    forall id, x | OvertakesIn(selected, competitors, own, others, x, id)
      ensures id in a.frontier
    {
      var k :| 0 <= k < |competitors| && OvertakenIn(selected, competitors, own, others, x, k) && competitors[k].id == id;
      OvertakingExactly(selected, competitors, own, others, k);
      assert competitors[k] in competitors;
    }
  }

  lemma BoundedPlansHaveBounds(selected: Plan, competitors: seq<Plan>, own: Inputs, others: seq<Inputs>)
    requires AllBounded(selected, competitors, own, others)
    ensures selected.bounds.Some? && forall p :: p in competitors ==> p.bounds.Some?
  {
    forall p | p in competitors ensures p.bounds.Some? {
      var k :| 0 <= k < |competitors| && competitors[k] == p;
      assert BoundedBy(competitors[k], others[k]);
    }
  }

  /** Soundness and completeness: the rank is STABLE exactly when the selected plan strictly precedes every
      competitor whatever value each uncertain input takes inside its interval, and UNSTABLE exactly when some
      joint choice puts a competitor ahead. */
  lemma StableExactly(selected: Plan, competitors: seq<Plan>, own: Inputs, others: seq<Inputs>)
    requires AllBounded(selected, competitors, own, others)
    requires forall p :: p in competitors ==> p.id != selected.id
    ensures Assess(selected, competitors).status == Stable <==>
      forall x, k | JointlyWithin(own, others, x) && 0 <= k < |competitors| :: StaysAhead(selected, competitors, own, others, x, k)
    ensures Assess(selected, competitors).status == Unstable <==>
      exists x, k :: OvertakenIn(selected, competitors, own, others, x, k)
  {
    hide Assess, Ahead, ConservativeKey, BoundedBy, JointlyWithin, OvertakenIn, StaysAhead;
    BoundedPlansHaveBounds(selected, competitors, own, others);
    FrontierOfBounded(selected, competitors);
    FrontierExactly(selected, competitors, own, others);
    var a := Assess(selected, competitors);
    OvertakenIsWithin(selected, competitors, own, others);
    forall x, k | OvertakenIn(selected, competitors, own, others, x, k) ensures competitors[k].id in a.frontier {
      assert OvertakesIn(selected, competitors, own, others, x, competitors[k].id);
    }
    if a.frontier != [] {
      var id := a.frontier[0];
      assert id in a.frontier;
      var x :| OvertakesIn(selected, competitors, own, others, x, id);
      var k :| 0 <= k < |competitors| && OvertakenIn(selected, competitors, own, others, x, k) && competitors[k].id == id;
      AheadOrBehind(selected, competitors, own, others, x, k);
    } else {
      forall x, k | JointlyWithin(own, others, x) && 0 <= k < |competitors|
        ensures StaysAhead(selected, competitors, own, others, x, k)
      {
        AheadOrBehind(selected, competitors, own, others, x, k);
      }
    }
  }

  lemma OvertakenIsWithin(selected: Plan, competitors: seq<Plan>, own: Inputs, others: seq<Inputs>)
    ensures forall x, k ::
      OvertakenIn(selected, competitors, own, others, x, k) ==> 0 <= k < |competitors| && JointlyWithin(own, others, x)
  {}

  /** In the joint choice, the selected plan is strictly ahead of the competitor. */
  ghost predicate StaysAhead(
    selected: Plan, competitors: seq<Plan>, own: Inputs, others: seq<Inputs>, x: Joint, k: int)
  {
    && AllBounded(selected, competitors, own, others)
    && JointlyWithin(own, others, x)
    && 0 <= k < |competitors|
    && BoundedBy(selected, own) && BoundedBy(competitors[k], others[k])
    && Within(others[k], x.others[k])
    && Precedes(KeyIn(selected, own, x.own), KeyIn(competitors[k], others[k], x.others[k]))
  }

  lemma AheadOrBehind(
    selected: Plan, competitors: seq<Plan>, own: Inputs, others: seq<Inputs>, x: Joint, k: nat)
    requires AllBounded(selected, competitors, own, others) && JointlyWithin(own, others, x)
    requires k < |competitors| && competitors[k].id != selected.id
    ensures StaysAhead(selected, competitors, own, others, x, k) <==> !OvertakenIn(selected, competitors, own, others, x, k)
  {
    assert BoundedBy(competitors[k], others[k]);
    OneKeyOrder(KeyIn(selected, own, x.own), KeyIn(competitors[k], others[k], x.others[k]));
  }

  /** With a missing bound the rank is UNDETERMINED, and exactly the plans without bounds are named. */
  lemma UndeterminedExactly(selected: Plan, competitors: seq<Plan>)
    ensures var a := Assess(selected, competitors);
      && (a.status == Undetermined <==> selected.bounds.None? || exists p :: p in competitors && p.bounds.None?)
      && IsSorted(a.unavailable)
      && (forall id :: id in a.unavailable <==>
           exists p :: (p == selected || p in competitors) && p.bounds.None? && p.id == id)
  {
    MissingBoundsAreListed([selected] + competitors);
    assert forall p :: p in [selected] + competitors <==> p == selected || p in competitors;
    if forall p :: p in [selected] + competitors ==> p.bounds.Some? {
      assert selected in [selected] + competitors;
      FrontierOfBounded(selected, competitors);
    }
  }

  /** A stable plan is the one the authoritative order ranks first: no other plan can be selected. */
  lemma StablePlanIsRankedFirst(selected: Plan, competitors: seq<Plan>, own: Inputs, others: seq<Inputs>, k: nat)
    requires AllBounded(selected, competitors, own, others) && k < |competitors|
    requires forall p :: p in competitors ==> p.id != selected.id
    requires Assess(selected, competitors).status == Stable
    ensures selected.bounds.Some? && competitors[k].bounds.Some?
    ensures Precedes(AuthoritativeKey(selected), AuthoritativeKey(competitors[k]))
  {
    hide Assess, Precedes, AuthoritativeKey, Aggregate;
    StableExactly(selected, competitors, own, others);
    assert BoundedBy(competitors[k], others[k]);
    var x := Joint(Base(own), seq(|others|, j requires 0 <= j < |others| => Base(others[j])));
    KeysAreScenarios(selected, own);
    forall j | 0 <= j < |others| ensures Within(others[j], x.others[j]) {
      KeysAreScenarios(competitors[j], others[j]);
    }
    KeysAreScenarios(competitors[k], others[k]);
    assert StaysAhead(selected, competitors, own, others, x, k);
  }
}
