/** The cost of a bundle of components, and when it passes the check its components pass. Money is in cents. */
module BundleCosts {
  import opened Outcomes

  datatype Money = Money(amount: nat, currency: string)

  datatype LineType = MerchantSubtotal | TransactionFee | Tax | ContractCost | MigrationCost | ImplementationCost

  datatype LineItem = LineItem(lineType: LineType, low: Money, base: Money, high: Money)

  datatype CostFields = CostFields(
    offerId: string, low: Option<Money>, base: Option<Money>, high: Option<Money>, horizon: nat,
    items: seq<LineItem>, paymentRequired: bool)

  function Fees(items: seq<LineItem>): nat {
    if items == [] then 0 else (if items[0].lineType == TransactionFee then 1 else 0) + Fees(items[1..])
  }

  /** An offer cost, as its constructor admits it: only a payment can carry a transaction fee. */
  type Cost = c: CostFields | c.horizon >= 1 && (c.paymentRequired || Fees(c.items) == 0)
    witness CostFields("o", None, None, None, 1, [], false)

  datatype Totals = Totals(low: nat, base: nat, high: nat)

  const NOTHING := Totals(0, 0, 0)

  function Plus(a: Totals, b: Totals): Totals {
    Totals(a.low + b.low, a.base + b.base, a.high + b.high)
  }

  function ItemTotals(items: seq<LineItem>): Totals {
    if items == [] then NOTHING
    else Plus(TotalsOfItem(items[0]), ItemTotals(items[1..]))
  }

  // ---------- the check of one cost ----------

  datatype Check = Raises | MissingBound | LineItemsDiffer | WrongFees | Valid

  predicate BoundsKnown(c: Cost) {
    c.low.Some? && c.base.Some? && c.high.Some?
  }

  function TotalsOf(c: Cost): Totals
    requires BoundsKnown(c)
  {
    Totals(c.low.value.amount, c.base.value.amount, c.high.value.amount)
  }

  predicate Ordered(t: Totals) {
    t.low <= t.base <= t.high
  }

  predicate OneCurrency(c: Cost)
    requires BoundsKnown(c)
  {
    c.low.value.currency == c.base.value.currency == c.high.value.currency
  }

  /** A cost with known bounds, in order and in one currency, that match its line items if it has any, and with as
      many fees as paying components. */
  function ValidCost(c: Cost, expectedPayments: nat): Check {
    if !BoundsKnown(c) then MissingBound
    else if !OneCurrency(c) || !Ordered(TotalsOf(c)) then Raises
    else if c.items != [] && ItemTotals(c.items) != TotalsOf(c) then LineItemsDiffer
    else if c.paymentRequired && Fees(c.items) != expectedPayments then WrongFees
    else if !c.paymentRequired && (Fees(c.items) > 0 || expectedPayments > 0) then WrongFees
    else Valid
  }

  function Payments(c: Cost): nat {
    if c.paymentRequired then 1 else 0
  }

  // ---------- the combined cost ----------

  datatype Issue = MissingDependencyOffer | IncomparableCosts

  /** The costs of the components that have an offer, in component order. */
  function CostsOf(components: seq<string>, offers: map<string, Cost>): (r: seq<Cost>)
    ensures |r| <= |components|
    ensures |r| == |components| <==> forall c :: c in components ==> c in offers
    ensures forall x :: x in r <==> exists c :: c in components && c in offers && offers[c] == x
  {
    if components == [] then []
    else
      assert forall c :: c in components <==> c == components[0] || c in components[1..];
      (if components[0] in offers then [offers[components[0]]] else []) + CostsOf(components[1..], offers)
  }

  function Currencies(costs: seq<Cost>): set<string> {
    (set c | c in costs && c.low.Some? :: c.low.value.currency)
    + (set c | c in costs && c.base.Some? :: c.base.value.currency)
    + (set c | c in costs && c.high.Some? :: c.high.value.currency)
  }

  function Horizons(costs: seq<Cost>): set<nat> {
    set c | c in costs :: c.horizon
  }

  function AllItems(costs: seq<Cost>): seq<LineItem> {
    if costs == [] then [] else costs[0].items + AllItems(costs[1..])
  }

  function PayingCount(costs: seq<Cost>): nat {
    if costs == [] then 0 else Payments(costs[0]) + PayingCount(costs[1..])
  }

  function SumOf(costs: seq<Cost>): Totals
    requires forall c :: c in costs ==> BoundsKnown(c)
  {
    if costs == [] then NOTHING else Plus(TotalsOf(costs[0]), SumOf(costs[1..]))
  }

  /** The total of one bound, unless a component has no offer or no such bound. */
  function TotalOf(costs: seq<Cost>, components: nat, bound: Cost -> Option<Money>, currency: string): Option<Money> {
    if |costs| != components || exists c :: c in costs && bound(c).None? then None
    else Some(Money(AmountOf(costs, bound), currency))
  }

  function AmountOf(costs: seq<Cost>, bound: Cost -> Option<Money>): nat
    requires forall c :: c in costs ==> bound(c).Some?
  {
    if costs == [] then 0 else bound(costs[0]).value.amount + AmountOf(costs[1..], bound)
  }

  /** The combination and the number of paying components. A bundle takes the horizon and the currency of its first
      cost; different ones are an issue. The bundle is named after its offers. */
  datatype Combination = Combination(cost: CostFields, payments: nat, issues: set<Issue>)

  function CombinedCost(components: seq<string>, offers: map<string, Cost>, name: seq<string> -> string): Combination {
    var costs := CostsOf(components, offers);
    if |components| == 1 && |costs| == 1 then Combination(costs[0], Payments(costs[0]), {})
    else
      var horizon := if costs == [] then 1 else costs[0].horizon;
      var currency := FirstCurrency(costs);
      Combination(
        CostFields(
          name(OfferIds(costs)),
          TotalOf(costs, |components|, (c: Cost) => c.low, currency),
          TotalOf(costs, |components|, (c: Cost) => c.base, currency),
          TotalOf(costs, |components|, (c: Cost) => c.high, currency),
          horizon, AllItems(costs), PayingCount(costs) > 0),
        PayingCount(costs),
        (if |costs| != |components| then {MissingDependencyOffer} else {})
        + (if |Horizons(costs)| > 1 || |Currencies(costs)| > 1 then {IncomparableCosts} else {}))
  }

  function OfferIds(costs: seq<Cost>): seq<string> {
    seq(|costs|, i requires 0 <= i < |costs| => costs[i].offerId)
  }

  function FirstCurrency(costs: seq<Cost>): string {
    if costs == [] then "USD"
    else if costs[0].low.Some? then costs[0].low.value.currency
    else if costs[0].base.Some? then costs[0].base.value.currency
    else if costs[0].high.Some? then costs[0].high.value.currency
    else FirstCurrency(costs[1..])
  }

  // ---------- sums ----------

  lemma {:induction false} FeesAdd(a: seq<LineItem>, b: seq<LineItem>)
    ensures Fees(a + b) == Fees(a) + Fees(b)
  {
    if a == [] {
      assert a + b == b;
    } else {
      FeesAdd(a[1..], b);
      assert (a + b)[1..] == a[1..] + b;
    }
  }

  function TotalsOfItem(i: LineItem): Totals {
    Totals(i.low.amount, i.base.amount, i.high.amount)
  }

  lemma {:induction false} TotalsAdd(a: seq<LineItem>, b: seq<LineItem>)
    ensures ItemTotals(a + b).low == ItemTotals(a).low + ItemTotals(b).low
    ensures ItemTotals(a + b).base == ItemTotals(a).base + ItemTotals(b).base
    ensures ItemTotals(a + b).high == ItemTotals(a).high + ItemTotals(b).high
  {
    if a == [] {
      assert a + b == b;
    } else {
      TotalsAdd(a[1..], b);
      assert (a + b)[1..] == a[1..] + b;
    }
  }

  /** Every component passes its own check. */
  predicate AllValid(costs: seq<Cost>) {
    forall c :: c in costs ==> ValidCost(c, Payments(c)) == Valid
  }

  /** What the components without line items add to the totals. */
  function Unitemized(costs: seq<Cost>): Totals
    requires forall c :: c in costs ==> BoundsKnown(c)
  {
    if costs == [] then NOTHING
    else Plus(if costs[0].items == [] then TotalsOf(costs[0]) else NOTHING, Unitemized(costs[1..]))
  }

  lemma ValidKnowsBounds(costs: seq<Cost>)
    requires AllValid(costs)
    ensures forall c :: c in costs ==> BoundsKnown(c)
  {}

  lemma RestIsValid(costs: seq<Cost>)
    requires AllValid(costs) && costs != []
    ensures AllValid(costs[1..]) && costs[0] in costs && ValidCost(costs[0], Payments(costs[0])) == Valid
    ensures forall c :: c in costs <==> c == costs[0] || c in costs[1..]
  {}

  /** The sums of ordered bounds are ordered. */
  lemma {:induction false} SumsAreOrdered(costs: seq<Cost>)
    requires AllValid(costs)
    ensures forall c :: c in costs ==> BoundsKnown(c)
    ensures Ordered(SumOf(costs)) && Ordered(Unitemized(costs))
  {
    ValidKnowsBounds(costs);
    if costs != [] {
      RestIsValid(costs);
      SumsAreOrdered(costs[1..]);
    }
  }

  /** Every paying component brings exactly one fee. */
  lemma {:induction false} FeesCountPayments(costs: seq<Cost>)
    requires AllValid(costs)
    ensures Fees(AllItems(costs)) == PayingCount(costs)
  {
    if costs != [] {
      RestIsValid(costs);
      FeesCountPayments(costs[1..]);
      FeesAdd(costs[0].items, AllItems(costs[1..]));
    }
  }

  /** One component more: what it adds to the sums, to the line items and to the part without line items. */
  lemma SumsUnfold(costs: seq<Cost>)
    requires AllValid(costs) && costs != []
    ensures (forall c :: c in costs ==> BoundsKnown(c)) && (forall c :: c in costs[1..] ==> BoundsKnown(c))
    ensures SumOf(costs) == Plus(TotalsOf(costs[0]), SumOf(costs[1..]))
    ensures Unitemized(costs) == Plus(if costs[0].items == [] then TotalsOf(costs[0]) else NOTHING, Unitemized(costs[1..]))
    ensures costs[0].items != [] ==> TotalsOf(costs[0]) == ItemTotals(costs[0].items)
    ensures AllItems(costs) == costs[0].items + AllItems(costs[1..])
  {
    hide Plus, TotalsOf;
    ValidKnowsBounds(costs);
    RestIsValid(costs);
  }

  lemma NoItemsNoTotals()
    ensures ItemTotals([]) == NOTHING && AllItems([]) == [] && SumOf([]) == NOTHING && Unitemized([]) == NOTHING
  {}

  /** The line items account for everything but the components without line items. */
  lemma {:induction false} ItemsAccountForTotals(costs: seq<Cost>)
    requires AllValid(costs)
    ensures forall c :: c in costs ==> BoundsKnown(c)
    ensures SumOf(costs).low == ItemTotals(AllItems(costs)).low + Unitemized(costs).low
    ensures SumOf(costs).base == ItemTotals(AllItems(costs)).base + Unitemized(costs).base
    ensures SumOf(costs).high == ItemTotals(AllItems(costs)).high + Unitemized(costs).high
  {
    hide SumOf, Unitemized, AllItems, ItemTotals, TotalsOf, ValidCost;
    ValidKnowsBounds(costs);
    NoItemsNoTotals();
    if costs != [] {
      SumsUnfold(costs);
      RestIsValid(costs);
      ItemsAccountForTotals(costs[1..]);
      TotalsAdd(costs[0].items, AllItems(costs[1..]));
    }
  }

  /** Nothing is left out of the line items exactly when every component without them is free. */
  lemma {:induction false} UnitemizedExactly(costs: seq<Cost>)
    requires AllValid(costs)
    ensures forall c :: c in costs ==> BoundsKnown(c)
    ensures Unitemized(costs).high == 0 <==> !exists c :: c in costs && c.items == [] && c.high.value.amount > 0
    ensures AllItems(costs) == [] <==> !exists c :: c in costs && c.items != []
  {
    hide SumOf, Unitemized, AllItems, ItemTotals, ValidCost;
    ValidKnowsBounds(costs);
    NoItemsNoTotals();
    if costs != [] {
      SumsUnfold(costs);
      RestIsValid(costs);
      UnitemizedExactly(costs[1..]);
    }
  }

  /** The combined cost is one the constructor admits: without a payment there is no fee. */
  lemma {:induction false} CombinedCostIsACost(costs: seq<Cost>)
    ensures PayingCount(costs) == 0 ==> Fees(AllItems(costs)) == 0
  {
    if costs != [] {
      CombinedCostIsACost(costs[1..]);
      FeesAdd(costs[0].items, AllItems(costs[1..]));
    }
  }

  lemma {:induction false} AmountsAreSums(costs: seq<Cost>)
    requires forall c :: c in costs ==> BoundsKnown(c)
    ensures SumOf(costs) == Totals(
      AmountOf(costs, (c: Cost) => c.low), AmountOf(costs, (c: Cost) => c.base), AmountOf(costs, (c: Cost) => c.high))
  {
    if costs != [] {
      assert costs[0] in costs;
      AmountsAreSums(costs[1..]);
    }
  }

  /** Some component lists its cost and another, that does not, is not free. */
  predicate PartlyItemized(costs: seq<Cost>) {
    && (exists c :: c in costs && c.items != [])
    && (exists c :: c in costs && c.items == [] && c.high.Some? && c.high.value.amount > 0)
  }

  predicate IsCost(c: CostFields) {
    c.horizon >= 1 && (c.paymentRequired || Fees(c.items) == 0)
  }

  /** Composed costs stay valid exactly unless the bundle is partly itemized: the bounds are the sums of the
      components, in order, the fees count the paying components, and no issue is raised. */
  lemma ComposedCostIsValidExactly(components: seq<string>, offers: map<string, Cost>, name: seq<string> -> string)
    requires |components| > 1 && forall c :: c in components ==> c in offers
    requires var costs := CostsOf(components, offers);
      AllValid(costs) && |Horizons(costs)| <= 1 && |Currencies(costs)| <= 1
    ensures var costs, combined := CostsOf(components, offers), CombinedCost(components, offers, name);
      && IsCost(combined.cost) && combined.issues == {}
      && (forall c :: c in costs ==> BoundsKnown(c))
      && BoundsKnown(combined.cost) && TotalsOf(combined.cost) == SumOf(costs) && Ordered(TotalsOf(combined.cost))
      && combined.payments == PayingCount(costs) == Fees(combined.cost.items)
      && (ValidCost(combined.cost, combined.payments) == Valid <==> !PartlyItemized(costs))
      && (PartlyItemized(costs) ==> ValidCost(combined.cost, combined.payments) == LineItemsDiffer)
  {
    hide Currencies, Horizons, CostsOf, Fees, AllItems, SumOf, AmountOf, PayingCount, ItemTotals, Unitemized, FirstCurrency;
    var costs := CostsOf(components, offers);
    SumsAreOrdered(costs);
    FeesCountPayments(costs);
    ItemsAccountForTotals(costs);
    UnitemizedExactly(costs);
    AmountsAreSums(costs);
    FirstHorizon(costs);
  }

  lemma FirstHorizon(costs: seq<Cost>)
    ensures costs != [] ==> costs[0].horizon >= 1
  {}

  /** In particular, a bundle whose components all have line items is valid. */
  lemma ItemizedBundleIsValid(components: seq<string>, offers: map<string, Cost>, name: seq<string> -> string)
    requires |components| > 1 && forall c :: c in components ==> c in offers
    requires var costs := CostsOf(components, offers);
      && AllValid(costs) && |Horizons(costs)| <= 1 && |Currencies(costs)| <= 1
      && forall c :: c in costs ==> c.items != []
    ensures var combined := CombinedCost(components, offers, name);
      IsCost(combined.cost) && ValidCost(combined.cost, combined.payments) == Valid
      && BoundsKnown(combined.cost) && ItemTotals(combined.cost.items) == TotalsOf(combined.cost)
  {
    hide Currencies, Horizons, CostsOf;
    ComposedCostIsValidExactly(components, offers, name);
    ItemsAccountForTotals(CostsOf(components, offers));
    UnitemizedExactly(CostsOf(components, offers));
    assert CostsOf(components, offers)[0] in CostsOf(components, offers);
  }

  const TEN := Money(10, "USD")
  const FIVE := Money(5, "USD")
  const FEE := LineItem(TransactionFee, TEN, TEN, TEN)
  const ITEMIZED: Cost := CostFields("a", Some(TEN), Some(TEN), Some(TEN), 1, [FEE], true)
  const PLAIN: Cost := CostFields("b", Some(FIVE), Some(FIVE), Some(FIVE), 1, [], false)
  const PAIR := map["a" := ITEMIZED, "b" := PLAIN]

  lemma BothAreValid()
    ensures ValidCost(ITEMIZED, Payments(ITEMIZED)) == Valid && ValidCost(PLAIN, Payments(PLAIN)) == Valid
  {
    assert [FEE][1..] == [];
    assert ItemTotals([FEE]) == Totals(10, 10, 10) && Fees([FEE]) == 1;
  }

  lemma CostsOfPair()
    ensures CostsOf(["a", "b"], PAIR) == [ITEMIZED, PLAIN]
  {
    assert ["a", "b"][1..] == ["b"] && ["b"][1..] == [];
    assert CostsOf(["b"], PAIR) == [PLAIN];
  }

  lemma AtMostOne<T>(s: set<T>, x: T)
    requires forall y :: y in s ==> y == x
    ensures |s| <= 1
  {
    assert s == {} || s == {x};
  }

  lemma OneHorizonOneCurrency(costs: seq<Cost>)
    requires forall c :: c in costs ==>
      c.horizon == 1 && forall m :: m in {c.low, c.base, c.high} && m.Some? ==> m.value.currency == "USD"
    ensures |Horizons(costs)| <= 1 && |Currencies(costs)| <= 1
  {
    AtMostOne(Horizons(costs), 1);
    AtMostOne(Currencies(costs), "USD");
  }

  /** Two valid costs, one with a line item and one without, whose combination is not valid: its one line item
      accounts for ten of fifteen. */
  lemma PartlyItemizedBundleIsRefused(name: seq<string> -> string)
    ensures ValidCost(ITEMIZED, Payments(ITEMIZED)) == Valid && ValidCost(PLAIN, Payments(PLAIN)) == Valid
    ensures var combined := CombinedCost(["a", "b"], PAIR, name);
      combined.issues == {} && IsCost(combined.cost) && ValidCost(combined.cost, combined.payments) == LineItemsDiffer
  {
    hide ValidCost, CostsOf, ItemTotals, Fees, Horizons, Currencies, CombinedCost, IsCost;
    BothAreValid();
    CostsOfPair();
    var costs := [ITEMIZED, PLAIN];
    assert costs[0] in costs && costs[1] in costs;
    OneHorizonOneCurrency(costs);
    ComposedCostIsValidExactly(["a", "b"], PAIR, name);
  }
}
