/** What a check of a cost and a combined cost say, told by positions, counts and sums over the components. */
module CostMeanings {
  import opened Outcomes
  import opened BundleCosts

  // ---------- counts and sums ----------

  ghost function Sum(amounts: seq<nat>): nat
    decreases |amounts|
  {
    if amounts == [] then 0 else Sum(amounts[..|amounts| - 1]) + amounts[|amounts| - 1]
  }

  ghost function Amounts<T>(list: seq<T>, amount: T -> nat): (r: seq<nat>)
    ensures |r| == |list| && forall i :: 0 <= i < |list| ==> r[i] == amount(list[i])
  {
    seq(|list|, i requires 0 <= i < |list| => amount(list[i]))
  }

  /** Adding from the left or from the right is the same. */
  lemma {:induction false} SumFromLeft(amounts: seq<nat>)
    requires amounts != []
    ensures Sum(amounts) == amounts[0] + Sum(amounts[1..])
    decreases |amounts|
  {
    var n := |amounts| - 1;
    if n > 0 {
      SumFromLeft(amounts[..n]);
      assert amounts[..n][1..] == amounts[1..][..n - 1];
    } else {
      assert amounts[..n] == [] && amounts[1..] == [];
    }
  }

  lemma SumOfRest<T>(list: seq<T>, amount: T -> nat)
    requires list != []
    ensures Sum(Amounts(list, amount)) == amount(list[0]) + Sum(Amounts(list[1..], amount))
  {
    SumFromLeft(Amounts(list, amount));
    assert Amounts(list, amount)[1..] == Amounts(list[1..], amount);
  }

  ghost function Places<T(!new)>(list: seq<T>, wanted: T -> bool): set<nat> {
    set k: nat | k < |list| && wanted(list[k])
  }

  lemma PlacesOfRest<T(!new)>(list: seq<T>, wanted: T -> bool)
    requires list != []
    ensures |Places(list, wanted)| == (if wanted(list[0]) then 1 else 0) + |Places(list[1..], wanted)|
  {
    var later := set k: nat | k < |list[1..]| && wanted(list[1..][k]) :: k + 1;
    SameSize(Places(list[1..], wanted), later);
    var first: set<nat> := if wanted(list[0]) then {0} else {};
    forall k: nat ensures k in Places(list, wanted) <==> k in first + later {
      if k > 0 && k in Places(list, wanted) { assert list[1..][k - 1] == list[k]; }
    }
    assert Places(list, wanted) == first + later && first !! later;
  }

  lemma {:induction false} SameSize(a: set<nat>, b: set<nat>)
    requires forall x: nat :: x in b <==> x > 0 && x - 1 in a
    ensures |a| == |b|
    decreases |a|
  {
    if k :| k in a {
      SameSize(a - {k}, b - {k + 1});
    } else {
      forall x ensures x !in b {}
    }
  }

  // ---------- the check of one cost ----------

  lemma {:induction false} FeesExactly(items: seq<LineItem>)
    ensures Fees(items) == |Places(items, (i: LineItem) => i.lineType == TransactionFee)|
  {
    if items != [] {
      FeesExactly(items[1..]);
      PlacesOfRest(items, (i: LineItem) => i.lineType == TransactionFee);
    }
  }

  lemma {:induction false} ItemTotalsExactly(items: seq<LineItem>)
    ensures ItemTotals(items).low == Sum(Amounts(items, (i: LineItem) => i.low.amount))
    ensures ItemTotals(items).base == Sum(Amounts(items, (i: LineItem) => i.base.amount))
    ensures ItemTotals(items).high == Sum(Amounts(items, (i: LineItem) => i.high.amount))
  {
    if items != [] {
      ItemTotalsExactly(items[1..]);
      SumOfRest(items, (i: LineItem) => i.low.amount);
      SumOfRest(items, (i: LineItem) => i.base.amount);
      SumOfRest(items, (i: LineItem) => i.high.amount);
    }
  }

  ghost predicate IsComplete(c: Cost) {
    c.low.Some? && c.base.Some? && c.high.Some?
  }

  /** The three bounds are in one currency and do not fall. */
  ghost predicate IsInterval(c: Cost)
    requires IsComplete(c)
  {
    && c.low.value.currency == c.base.value.currency && c.base.value.currency == c.high.value.currency
    && c.low.value.amount <= c.base.value.amount && c.base.value.amount <= c.high.value.amount
  }

  /** Without line items there is nothing to match; otherwise they add up to every bound. */
  ghost predicate ItemsAddUp(c: Cost)
    requires IsComplete(c)
  {
    c.items == []
    || (&& Sum(Amounts(c.items, (i: LineItem) => i.low.amount)) == c.low.value.amount
        && Sum(Amounts(c.items, (i: LineItem) => i.base.amount)) == c.base.value.amount
        && Sum(Amounts(c.items, (i: LineItem) => i.high.amount)) == c.high.value.amount)
  }

  /** As many fees as payments are expected, and neither without a payment. */
  ghost predicate FeesMatch(c: Cost, expectedPayments: nat) {
    var fees := |Places(c.items, (i: LineItem) => i.lineType == TransactionFee)|;
    if c.paymentRequired then fees == expectedPayments else fees == 0 && expectedPayments == 0
  }

  /** Each verdict of the check, by what is the first thing wrong. */
  lemma CheckedExactly(c: Cost, expectedPayments: nat)
    ensures var v := ValidCost(c, expectedPayments);
      && (v == MissingBound <==> !IsComplete(c))
      && (v == Raises <==> IsComplete(c) && !IsInterval(c))
      && (v == LineItemsDiffer <==> IsComplete(c) && IsInterval(c) && !ItemsAddUp(c))
      && (v == WrongFees <==> IsComplete(c) && IsInterval(c) && ItemsAddUp(c) && !FeesMatch(c, expectedPayments))
      && (v == Valid <==> IsComplete(c) && IsInterval(c) && ItemsAddUp(c) && FeesMatch(c, expectedPayments))
  {
    FeesExactly(c.items);
    ItemTotalsExactly(c.items);
    hide Fees, ItemTotals, Sum, Places;
  }

  // ---------- the costs of a bundle ----------

  /** The costs stand, in component order, for exactly the components at these places: those that have an offer. */
  ghost predicate AreSelected(components: seq<string>, offers: map<string, Cost>, costs: seq<Cost>, places: seq<nat>) {
    && |places| == |costs| && (forall i, j :: 0 <= i < j < |places| ==> places[i] < places[j])
    && (forall i :: 0 <= i < |places| ==> IsOfferedAt(components, offers, places[i]) && costs[i] == offers[components[places[i]]])
    && (forall k :: IsOfferedAt(components, offers, k) ==> k in places)
  }

  ghost predicate IsOfferedAt(components: seq<string>, offers: map<string, Cost>, k: int) {
    0 <= k < |components| && components[k] in offers
  }

  lemma {:induction false} CostsAreSelected(components: seq<string>, offers: map<string, Cost>) returns (places: seq<nat>)
    ensures AreSelected(components, offers, CostsOf(components, offers), places)
  {
    places := [];
    if components != [] {
      var rest := CostsAreSelected(components[1..], offers);
      var later := seq(|rest|, i requires 0 <= i < |rest| => rest[i] + 1);
      places := (if components[0] in offers then [0] else []) + later;
      SelectedOneMore(components, offers, CostsOf(components[1..], offers), rest, later);
    }
  }

  lemma SelectedOneMore(components: seq<string>, offers: map<string, Cost>, costs: seq<Cost>, rest: seq<nat>, later: seq<nat>)
    requires components != [] && AreSelected(components[1..], offers, costs, rest)
    requires |later| == |rest| && forall i :: 0 <= i < |rest| ==> later[i] == rest[i] + 1
    ensures AreSelected(components, offers,
      (if components[0] in offers then [offers[components[0]]] else []) + costs, (if components[0] in offers then [0] else []) + later)
  {
    LaterPlaces(components, offers, costs, rest, later);
    FirstIsOffered(components, offers);
    NothingBefore(components, offers);
    hide IsOfferedAt;
    if components[0] in offers { FirstSelected(components, offers, costs, later); }
  }

  /** The places of the rest, one on, are those of all components but the first. */
  ghost predicate AreSelectedLater(components: seq<string>, offers: map<string, Cost>, costs: seq<Cost>, places: seq<nat>) {
    && |places| == |costs| && (forall i, j :: 0 <= i < j < |places| ==> places[i] < places[j])
    && (forall i :: 0 <= i < |places| ==>
          places[i] > 0 && IsOfferedAt(components, offers, places[i]) && costs[i] == offers[components[places[i]]])
    && (forall k :: IsOfferedAt(components, offers, k) && k > 0 ==> k in places)
  }

  lemma LaterPlaces(components: seq<string>, offers: map<string, Cost>, costs: seq<Cost>, rest: seq<nat>, later: seq<nat>)
    requires components != [] && AreSelected(components[1..], offers, costs, rest)
    requires |later| == |rest| && forall i :: 0 <= i < |rest| ==> later[i] == rest[i] + 1
    ensures AreSelectedLater(components, offers, costs, later)
  {
    forall i | 0 <= i < |rest|
      ensures IsOfferedAt(components, offers, later[i]) && costs[i] == offers[components[later[i]]]
    {
      assert IsOfferedAt(components[1..], offers, rest[i]);
    }
    forall k | IsOfferedAt(components, offers, k) && k > 0 ensures k in later {
      assert IsOfferedAt(components[1..], offers, k - 1);
      var i :| 0 <= i < |rest| && rest[i] == k - 1;
      assert later[i] in later;
    }
  }

  lemma FirstSelected(components: seq<string>, offers: map<string, Cost>, costs: seq<Cost>, later: seq<nat>)
    requires components != [] && components[0] in offers && AreSelectedLater(components, offers, costs, later)
    ensures AreSelected(components, offers, [offers[components[0]]] + costs, [0] + later)
  {
    FirstIsOffered(components, offers);
    NothingBefore(components, offers);
    hide IsOfferedAt;
  }

  lemma FirstIsOffered(components: seq<string>, offers: map<string, Cost>)
    requires components != []
    ensures IsOfferedAt(components, offers, 0) <==> components[0] in offers
  {
  }

  lemma NothingBefore(components: seq<string>, offers: map<string, Cost>)
    ensures forall k :: IsOfferedAt(components, offers, k) ==> 0 <= k < |components|
  {
  }

  // ---------- the combined cost ----------

  lemma {:induction false} AmountExactly(costs: seq<Cost>, bound: Cost -> Option<Money>)
    requires forall c :: c in costs ==> bound(c).Some?
    ensures AmountOf(costs, bound) == Sum(Amounts(costs, (c: Cost) => if bound(c).Some? then bound(c).value.amount else 0))
  {
    if costs != [] {
      assert forall c :: c in costs[1..] ==> c in costs;
      AmountExactly(costs[1..], bound);
      SumOfRest(costs, (c: Cost) => if bound(c).Some? then bound(c).value.amount else 0);
    }
  }

  lemma {:induction false} PayingExactly(costs: seq<Cost>)
    ensures PayingCount(costs) == |Places(costs, (c: Cost) => c.paymentRequired)|
  {
    if costs != [] {
      PayingExactly(costs[1..]);
      PlacesOfRest(costs, (c: Cost) => c.paymentRequired);
    }
  }

  /** Whether a bound of the combination is the sum of the bounds of its costs, in the currency, or missing. */
  ghost predicate IsTotal(costs: seq<Cost>, complete: bool, bound: Cost -> Option<Money>, currency: string, total: Option<Money>) {
    if complete && forall c :: c in costs ==> bound(c).Some?
    then total == Some(Money(Sum(Amounts(costs, (c: Cost) => if bound(c).Some? then bound(c).value.amount else 0)), currency))
    else total == None
  }

  lemma TotalExactly(costs: seq<Cost>, components: nat, bound: Cost -> Option<Money>, currency: string)
    ensures IsTotal(costs, |costs| == components, bound, currency, TotalOf(costs, components, bound, currency))
  {
    hide AmountOf, Sum;
    if forall c :: c in costs ==> bound(c).Some? { AmountExactly(costs, bound); }
  }

  ghost predicate HasCurrency(c: Cost, currency: string) {
    || (c.low.Some? && c.low.value.currency == currency)
    || (c.base.Some? && c.base.value.currency == currency)
    || (c.high.Some? && c.high.value.currency == currency)
  }

  /** The costs do not all have one horizon, or name two currencies. */
  ghost predicate AreMixed(costs: seq<Cost>) {
    || (exists c, d :: c in costs && d in costs && c.horizon != d.horizon)
    || (exists c, d, x, y :: c in costs && d in costs && HasCurrency(c, x) && HasCurrency(d, y) && x != y)
  }

  lemma MoreThanOne<T>(s: set<T>)
    ensures |s| > 1 <==> exists x, y :: x in s && y in s && x != y
  {
    if |s| > 1 {
      var x :| x in s;
      assert |s - {x}| == |s| - 1;
      var y :| y in s - {x};
    }
    forall x, y | x in s && y in s && |s| <= 1 ensures x == y {
      assert |s - {x}| == 0;
    }
  }

  lemma MixedExactly(costs: seq<Cost>)
    ensures |Horizons(costs)| > 1 || |Currencies(costs)| > 1 <==> AreMixed(costs)
  {
    HorizonsExactly(costs);
    CurrenciesExactly(costs);
    hide HasCurrency, Horizons, Currencies;
  }

  lemma HorizonsExactly(costs: seq<Cost>)
    ensures |Horizons(costs)| > 1 <==> exists c, d :: c in costs && d in costs && c.horizon != d.horizon
  {
    var horizons := Horizons(costs);
    MoreThanOne(horizons);
    forall c | c in costs ensures c.horizon in horizons {}
  }

  lemma CurrenciesExactly(costs: seq<Cost>)
    ensures |Currencies(costs)| > 1 <==>
      exists c, d, x, y :: c in costs && d in costs && HasCurrency(c, x) && HasCurrency(d, y) && x != y
  {
    var currencies := Currencies(costs);
    MoreThanOne(currencies);
    forall x | x in currencies ensures exists c :: c in costs && HasCurrency(c, x) {}
    forall c, x | c in costs && HasCurrency(c, x) ensures x in currencies {}
    hide Currencies, HasCurrency;
  }

  /** The currency of the first cost that names one, its lower bound first; dollars when none does. */
  ghost predicate IsNamedFirst(costs: seq<Cost>, currency: string) {
    if forall c, x :: c in costs ==> !HasCurrency(c, x) then currency == "USD"
    else exists i :: IsFirstNaming(costs, i) && IsLeading(costs[i], currency)
  }

  ghost predicate IsFirstNaming(costs: seq<Cost>, i: int) {
    0 <= i < |costs| && (exists x :: HasCurrency(costs[i], x)) && forall j, x :: 0 <= j < i ==> !HasCurrency(costs[j], x)
  }

  ghost predicate IsLeading(c: Cost, currency: string) {
    && (c.low.Some? ==> currency == c.low.value.currency)
    && (c.low.None? && c.base.Some? ==> currency == c.base.value.currency)
    && (c.low.None? && c.base.None? && c.high.Some? ==> currency == c.high.value.currency)
  }

  lemma {:induction false} CurrencyExactly(costs: seq<Cost>)
    ensures IsNamedFirst(costs, FirstCurrency(costs))
  {
    if costs != [] {
      var c := costs[0];
      CurrencyExactly(costs[1..]);
      if c.low.None? && c.base.None? && c.high.None? {
        assert forall x :: !HasCurrency(c, x);
        hide HasCurrency, IsLeading;
        if i :| IsFirstNaming(costs[1..], i) && IsLeading(costs[1..][i], FirstCurrency(costs[1..])) {
          assert IsFirstNaming(costs, i + 1);
        }
      } else {
        assert HasCurrency(c, FirstCurrency(costs));
        assert IsFirstNaming(costs, 0);
      }
    }
  }

  ghost function ItemCount(costs: seq<Cost>): nat {
    Sum(Amounts(costs, (c: Cost) => |c.items|))
  }

  /** Every line item of every cost, in order: those of each cost stand after those of the costs before it. */
  ghost predicate AreAllItems(costs: seq<Cost>, items: seq<LineItem>) {
    |items| == ItemCount(costs) && forall k :: 0 <= k < |costs| ==> StandsAt(items, ItemCount(costs[..k]), costs[k].items)
  }

  ghost predicate StandsAt(items: seq<LineItem>, at: nat, part: seq<LineItem>) {
    at + |part| <= |items| && items[at..at + |part|] == part
  }

  lemma ItemCountOfRest(costs: seq<Cost>)
    ensures ItemCount([]) == 0
    ensures costs != [] ==> ItemCount(costs) == |costs[0].items| + ItemCount(costs[1..])
  {
    if costs != [] { SumOfRest(costs, (c: Cost) => |c.items|); }
  }

  lemma {:induction false} ItemsExactly(costs: seq<Cost>)
    ensures AreAllItems(costs, AllItems(costs))
  {
    hide ItemCount;
    ItemCountOfRest(costs);
    if costs != [] {
      var items, rest := AllItems(costs), AllItems(costs[1..]);
      ItemsExactly(costs[1..]);
      assert costs[..0] == [];
      assert StandsAt(items, 0, costs[0].items);
      forall k | 0 < k < |costs| ensures StandsAt(items, ItemCount(costs[..k]), costs[k].items) {
        ItemCountOfRest(costs[..k]);
        assert costs[..k][1..] == costs[1..][..k - 1];
        assert StandsAt(rest, ItemCount(costs[1..][..k - 1]), costs[1..][k - 1].items);
        StandsLater(costs[0].items, rest, ItemCount(costs[1..][..k - 1]), costs[k].items);
      }
    }
  }

  lemma StandsLater(before: seq<LineItem>, items: seq<LineItem>, at: nat, part: seq<LineItem>)
    requires StandsAt(items, at, part)
    ensures StandsAt(before + items, |before| + at, part)
  {
  }

  /** The three bounds are totals in the currency the costs name first. */
  ghost predicate AreBounds(costs: seq<Cost>, complete: bool, cost: CostFields, currency: string) {
    && IsNamedFirst(costs, currency)
    && IsTotal(costs, complete, (c: Cost) => c.low, currency, cost.low)
    && IsTotal(costs, complete, (c: Cost) => c.base, currency, cost.base)
    && IsTotal(costs, complete, (c: Cost) => c.high, currency, cost.high)
  }

  /** The payments count the paying costs, and one is required when there is any. */
  ghost predicate ArePayments(costs: seq<Cost>, payments: nat, required: bool) {
    && payments == |Places(costs, (c: Cost) => c.paymentRequired)|
    && (required <==> exists c :: c in costs && c.paymentRequired)
  }

  /** What the combination of the selected costs says. */
  ghost predicate IsCombination(costs: seq<Cost>, complete: bool, name: seq<string> -> string, r: Combination, currency: string) {
    && r.cost.offerId == name(seq(|costs|, i requires 0 <= i < |costs| => costs[i].offerId))
    && AreBounds(costs, complete, r.cost, currency)
    && r.cost.horizon == (if costs == [] then 1 else costs[0].horizon)
    && AreAllItems(costs, r.cost.items)
    && ArePayments(costs, r.payments, r.cost.paymentRequired)
    && (MissingDependencyOffer in r.issues <==> !complete)
    && (IncomparableCosts in r.issues <==> AreMixed(costs))
  }

  lemma PaymentIsRequiredExactly(costs: seq<Cost>)
    ensures PayingCount(costs) > 0 <==> exists c :: c in costs && c.paymentRequired
  {
    PayingExactly(costs);
    var places := Places(costs, (c: Cost) => c.paymentRequired);
    if c :| c in costs && c.paymentRequired {
      var k :| 0 <= k < |costs| && costs[k] == c;
      assert k in places;
    }
    if |places| > 0 { var k :| k in places; assert costs[k] in costs; }
  }

  /** A bundle of one component with an offer costs what the offer does; any other is the combination of the offers
      there are, and is incomplete when a component has none. */
  lemma CombinedExactly(components: seq<string>, offers: map<string, Cost>, name: seq<string> -> string)
    returns (places: seq<nat>, currency: string)
    ensures var costs, r := CostsOf(components, offers), CombinedCost(components, offers, name);
      var complete := forall c :: c in components ==> c in offers;
      && AreSelected(components, offers, costs, places)
      && (if |components| == 1 && complete
          then r == Combination(offers[components[0]], if offers[components[0]].paymentRequired then 1 else 0, {})
          else IsCombination(costs, complete, name, r, currency))
  {
    var costs := CostsOf(components, offers);
    places := CostsAreSelected(components, offers);
    currency := FirstCurrency(costs);
    if |components| == 1 && |costs| == 1 {
      SingleCost(components, offers);
      hide CostsOf, AreSelected;
    } else {
      hide CostsOf, AreSelected;
      SeveralCosts(components, offers, name);
    }
  }

  lemma SingleCost(components: seq<string>, offers: map<string, Cost>)
    requires |components| == 1 && |CostsOf(components, offers)| == 1
    ensures components[0] in offers && CostsOf(components, offers)[0] == offers[components[0]]
  {
    assert components[1..] == [];
  }

  lemma BoundsExactly(costs: seq<Cost>, components: nat, cost: CostFields)
    requires cost.low == TotalOf(costs, components, (c: Cost) => c.low, FirstCurrency(costs))
    requires cost.base == TotalOf(costs, components, (c: Cost) => c.base, FirstCurrency(costs))
    requires cost.high == TotalOf(costs, components, (c: Cost) => c.high, FirstCurrency(costs))
    ensures AreBounds(costs, |costs| == components, cost, FirstCurrency(costs))
  {
    var currency := FirstCurrency(costs);
    CurrencyExactly(costs);
    TotalExactly(costs, components, (c: Cost) => c.low, currency);
    TotalExactly(costs, components, (c: Cost) => c.base, currency);
    TotalExactly(costs, components, (c: Cost) => c.high, currency);
    hide IsNamedFirst, IsTotal, FirstCurrency, TotalOf;
  }

  lemma PaymentsExactly(costs: seq<Cost>)
    ensures ArePayments(costs, PayingCount(costs), PayingCount(costs) > 0)
  {
    PayingExactly(costs);
    PaymentIsRequiredExactly(costs);
    hide Places, PayingCount;
  }

  lemma SeveralCosts(components: seq<string>, offers: map<string, Cost>, name: seq<string> -> string)
    requires var costs := CostsOf(components, offers); !(|components| == 1 && |costs| == 1)
    ensures var costs := CostsOf(components, offers);
      IsCombination(costs, |costs| == |components|, name, CombinedCost(components, offers, name), FirstCurrency(costs))
  {
    hide CostsOf, AreBounds, AreAllItems, ArePayments, AreMixed, FirstCurrency, TotalOf, AllItems, PayingCount, Horizons, Currencies;
    var costs, r := CostsOf(components, offers), CombinedCost(components, offers, name);
    BoundsExactly(costs, |components|, r.cost);
    ItemsExactly(costs);
    PaymentsExactly(costs);
    MixedExactly(costs);
    assert OfferIds(costs) == seq(|costs|, i requires 0 <= i < |costs| => costs[i].offerId);
  }
}
