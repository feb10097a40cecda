/** What conditions, rules and candidate verdicts mean, without the functions that compute them. */
module DecisionVerdicts {
  import opened Outcomes
  import opened DecisionRules

  // ---------- fields ----------

  /** The values met on the way along a path, the last one being what the path leads to. */
  ghost predicate IsWalk(context: Json, path: seq<string>, values: seq<Json>) {
    && |values| == |path| + 1 && values[0] == context
    && forall i :: 0 <= i < |path| ==>
         values[i].Object? && path[i] in values[i].fields && values[i].fields[path[i]] == values[i + 1]
  }

  ghost predicate LeadsTo(context: Json, path: seq<string>, v: Json) {
    exists values :: IsWalk(context, path, values) && values[|path|] == v
  }

  lemma {:induction false} WalkResolves(context: Json, path: seq<string>, values: seq<Json>)
    requires IsWalk(context, path, values)
    ensures Resolve(context, path) == Some(values[|path|])
    decreases |path|
  {
    if path != [] {
      assert values[0 + 1] == context.fields[path[0]];
      forall i | 0 <= i < |path[1..]|
        ensures values[1..][i].Object? && path[1..][i] in values[1..][i].fields
        ensures values[1..][i].fields[path[1..][i]] == values[1..][i + 1]
      {
        assert path[1..][i] == path[i + 1] && values[1..][i] == values[i + 1] && values[1..][i + 1] == values[(i + 1) + 1];
      }
      WalkResolves(values[1], path[1..], values[1..]);
    }
  }

  lemma {:induction false} ResolvedHasWalk(context: Json, path: seq<string>) returns (values: seq<Json>)
    requires Resolve(context, path).Some?
    ensures IsWalk(context, path, values) && values[|path|] == Resolve(context, path).value
    decreases |path|
  {
    if path == [] {
      values := [context];
    } else {
      var rest := ResolvedHasWalk(context.fields[path[0]], path[1..]);
      values := [context] + rest;
      forall i | 0 <= i < |path|
        ensures values[i].Object? && path[i] in values[i].fields && values[i].fields[path[i]] == values[i + 1]
      {
        if i > 0 { assert values[i] == rest[i - 1] && path[i] == path[1..][i - 1] && rest[(i - 1) + 1] == values[i + 1]; }
      }
    }
  }

  /** A field resolves to a value exactly when the path leads to it through mappings. */
  lemma ResolvesExactly(context: Json, path: seq<string>, v: Json)
    ensures Resolve(context, path) == Some(v) <==> LeadsTo(context, path, v)
  {
    if Resolve(context, path) == Some(v) {
      var values := ResolvedHasWalk(context, path);
    } else if LeadsTo(context, path, v) {
      var values :| IsWalk(context, path, values) && values[|path|] == v;
      WalkResolves(context, path, values);
    }
  }

  // ---------- comparisons ----------

  datatype Order = Before | Same | After

  ghost function OrderOf(left: real, right: real): Order {
    if left < right then Before else if left == right then Same else After
  }

  /** The orders an operator accepts. */
  ghost predicate Accepts(op: Operator, order: Order) {
    match order
    case Before => op in {Lt, Lte, Neq, DateBefore, DateOnOrBefore}
    case Same => op in {Lte, Gte, Eq, DateOnOrBefore, DateOnOrAfter}
    case After => op in {Gt, Gte, Neq, DateAfter, DateOnOrAfter}
  }

  const NUMERIC := {Gte, Lte, Gt, Lt}
  const DATED := {DateBefore, DateOnOrBefore, DateAfter, DateOnOrAfter}

  /** A boolean is the same only as the same boolean; anything else is compared as Python does. */
  ghost predicate IsSame(r: Readers, a: Json, b: Json) {
    (a.Bool? <==> b.Bool?) && (a.Bool? ==> a == b) && (!a.Bool? ==> r.equal(a, b))
  }

  ghost predicate AnyIsSame(r: Readers, a: Json, items: seq<Json>) {
    exists b :: b in items && IsSame(r, a, b)
  }

  /** The condition can be decided on this value. */
  ghost predicate IsDecidable(r: Readers, c: Condition, v: Json) {
    && (c.operator in NUMERIC ==> r.decimal(v).Some? && r.decimal(c.value).Some?)
    && (c.operator in DATED ==> r.date(v).Some? && r.date(c.value).Some?)
    && (c.operator == Contains ==> r.contains(v, c.value).Some?)
    && (c.operator == ContainsAll ==> v.List?)
  }

  /** What a condition on a value it can decide asks for. */
  ghost predicate IsMet(r: Readers, c: Condition, v: Json)
    requires IsDecidable(r, c, v)
  {
    && (c.operator == Eq ==> IsSame(r, v, c.value))
    && (c.operator == Neq ==> !IsSame(r, v, c.value))
    && (c.operator == In ==> AnyIsSame(r, v, c.value.items))
    && (c.operator == NotIn ==> !AnyIsSame(r, v, c.value.items))
    && (c.operator == Contains ==> r.contains(v, c.value) == Some(true))
    && (c.operator == ContainsAll ==> forall wanted :: wanted in c.value.items ==> AnyIsSame(r, wanted, v.items))
    && (c.operator in NUMERIC ==> Accepts(c.operator, OrderOf(r.decimal(v).value, r.decimal(c.value).value)))
    && (c.operator in DATED ==> Accepts(c.operator, OrderOf(r.date(v).value as real, r.date(c.value).value as real)))
  }

  lemma SameValues(r: Readers, v: Json, items: seq<Json>)
    ensures forall b :: StrictEqual(r, v, b) <==> IsSame(r, v, b)
    ensures OneOf(r, v, items) <==> AnyIsSame(r, v, items)
  {
    if AnyIsSame(r, v, items) {
      var b :| b in items && IsSame(r, v, b);
      var i :| 0 <= i < |items| && items[i] == b;
      assert StrictEqual(r, v, items[i]);
    }
  }

  lemma MembershipCompares(r: Readers, c: Condition, v: Json)
    requires IsDecidable(r, c, v) && c.operator == Contains
    ensures Compare(r, c, v) == Some(IsMet(r, c, v))
  {
    var found := r.contains(v, c.value);
    assert found == Some(found.value);
    assert IsMet(r, c, v) <==> found.value;
  }

  lemma ListsCompare(r: Readers, c: Condition, v: Json)
    requires IsDecidable(r, c, v) && c.operator in {Eq, Neq, In, NotIn, Contains, ContainsAll}
    ensures Compare(r, c, v) == Some(IsMet(r, c, v))
  {
    hide StrictEqual, IsSame, OneOf, AnyIsSame;
    match c.operator
    case ContainsAll =>
      forall wanted ensures OneOf(r, wanted, v.items) <==> AnyIsSame(r, wanted, v.items) { SameValues(r, wanted, v.items); }
      forall i | 0 <= i < |c.value.items| ensures c.value.items[i] in c.value.items {}
      assert (forall i :: 0 <= i < |c.value.items| ==> OneOf(r, c.value.items[i], v.items))
        <==> forall wanted :: wanted in c.value.items ==> AnyIsSame(r, wanted, v.items);
    case In | NotIn => SameValues(r, v, c.value.items);
    case Eq | Neq => SameValues(r, v, [c.value]);
    case Contains => MembershipCompares(r, c, v);
  }

  lemma OrdersCompare(r: Readers, c: Condition, v: Json)
    requires IsDecidable(r, c, v) && c.operator in NUMERIC + DATED
    ensures Compare(r, c, v) == Some(IsMet(r, c, v))
  {
  }

  lemma UndecidableRaises(r: Readers, c: Condition, v: Json)
    requires c.operator != Exists && !IsDecidable(r, c, v)
    ensures Compare(r, c, v) == None
  {
  }

  /** A condition other than existence: TRUE or FALSE exactly when its field leads to a value that is not null, on
      which it can be decided, by what it asks for; UNRESOLVED otherwise, naming its field. */
  lemma ConditionExactly(r: Readers, c: Condition, context: Json)
    requires c.operator != Exists
    ensures var e := EvaluateCondition(r, c, context);
      && (e.value == IsTrue <==> exists v :: v != Null && LeadsTo(context, c.field, v) && IsDecidable(r, c, v) && IsMet(r, c, v))
      && (e.value == IsFalse <==> exists v :: v != Null && LeadsTo(context, c.field, v) && IsDecidable(r, c, v) && !IsMet(r, c, v))
      && e.unresolved == if e.value == Unresolved then {c.field} else {}
  {
    hide LeadsTo, Compare, IsMet, IsDecidable;
    forall v ensures Resolve(context, c.field) == Some(v) <==> LeadsTo(context, c.field, v) { ResolvesExactly(context, c.field, v); }
    hide Resolve;
    if Resolve(context, c.field).Some? {
      var v := Resolve(context, c.field).value;
      assert LeadsTo(context, c.field, v);
      if !IsDecidable(r, c, v) {
        UndecidableRaises(r, c, v);
      } else if c.operator in NUMERIC + DATED {
        OrdersCompare(r, c, v);
      } else {
        ListsCompare(r, c, v);
      }
    }
  }

  /** A condition on existence is always decided: whether the field leads to something that is not null, as asked. */
  lemma ExistenceExactly(r: Readers, c: Condition, context: Json)
    requires c.operator == Exists
    ensures var e := EvaluateCondition(r, c, context); var found := exists v :: v != Null && LeadsTo(context, c.field, v);
      e.value == (if found == c.value.flag then IsTrue else IsFalse) && e.unresolved == {}
  {
    hide LeadsTo;
    forall v ensures Resolve(context, c.field) == Some(v) <==> LeadsTo(context, c.field, v) { ResolvesExactly(context, c.field, v); }
  }

  // ---------- Python's equality ----------

  /** The number a value is for Python, where a boolean is one or zero. */
  ghost function AsNumber(v: Json): Option<real> {
    match v
    case Num(x) => Some(x)
    case Bool(x) => Some(if x then 1.0 else 0.0)
    case _ => None
  }

  ghost predicate IsContainer(v: Json) {
    v.List? || v.Object?
  }

  /** Values are equal when they are the same number, or otherwise the same; lists when they are of one length and
      mappings when they have the same keys, and all their parts are equal. */
  lemma PyEqualExactly(a: Json, b: Json)
    ensures AsNumber(a).Some? ==> (PyEqual(a, b) <==> AsNumber(b) == AsNumber(a))
    ensures AsNumber(a).None? && !IsContainer(a) ==> (PyEqual(a, b) <==> a == b)
    ensures a.List? ==>
      (PyEqual(a, b) <==> b.List? && |a.items| == |b.items| && forall i :: 0 <= i < |a.items| ==> PyEqual(a.items[i], b.items[i]))
    ensures a.Object? ==>
      (PyEqual(a, b) <==> b.Object? && a.fields.Keys == b.fields.Keys && forall k :: k in a.fields ==> PyEqual(a.fields[k], b.fields[k]))
  {
  }

  // ---------- rules ----------

  ghost predicate HasTruth(r: Readers, c: Condition, context: Json, t: Truth) {
    EvaluateCondition(r, c, context).value == t
  }

  /** Every condition, or some condition, as the mode says. */
  ghost predicate RuleIsTrue(r: Readers, e: Expression, context: Json) {
    match e.mode
    case All => forall c :: c in e.conditions ==> HasTruth(r, c, context, IsTrue)
    case Any => exists c :: c in e.conditions && HasTruth(r, c, context, IsTrue)
  }

  ghost predicate RuleIsFalse(r: Readers, e: Expression, context: Json) {
    match e.mode
    case All => exists c :: c in e.conditions && HasTruth(r, c, context, IsFalse)
    case Any => forall c :: c in e.conditions ==> HasTruth(r, c, context, IsFalse)
  }

  /** The fields of the conditions that are not decided. */
  ghost function UndecidedFields(r: Readers, e: Expression, context: Json): set<seq<string>> {
    set c | c in e.conditions && HasTruth(r, c, context, Unresolved) :: c.field
  }

  lemma ConditionNamesItsField(r: Readers, c: Condition, context: Json)
    ensures EvaluateCondition(r, c, context).unresolved == if HasTruth(r, c, context, Unresolved) then {c.field} else {}
  {
    hide Resolve, Compare;
  }

  lemma OpenFieldsExactly(r: Readers, e: Expression, context: Json)
    ensures OpenFields(r, e.conditions, context) == UndecidedFields(r, e, context)
  {
    forall c | c in e.conditions
      ensures EvaluateCondition(r, c, context).unresolved == if HasTruth(r, c, context, Unresolved) then {c.field} else {}
    {
      ConditionNamesItsField(r, c, context);
    }
    hide EvaluateCondition, HasTruth;
  }

  lemma NothingOpenWhenDecided(r: Readers, e: Expression, context: Json)
    ensures Unresolved !in Truths(r, e.conditions, context) ==> UndecidedFields(r, e, context) == {}
  {
    hide EvaluateCondition;
  }

  lemma RuleTruthExactly(r: Readers, e: Expression, context: Json)
    ensures EvaluateRule(r, e, context).value == IsTrue <==> RuleIsTrue(r, e, context)
    ensures EvaluateRule(r, e, context).value == IsFalse <==> RuleIsFalse(r, e, context)
  {
    hide EvaluateCondition, OpenFields;
    assert e.conditions[0] in e.conditions;
  }

  /** ALL is TRUE exactly when every condition is and FALSE exactly when some condition is; ANY is the dual; what is
      neither is UNRESOLVED. The open fields are those of the undecided conditions. */
  lemma RuleExactly(r: Readers, e: Expression, context: Json)
    ensures EvaluateRule(r, e, context).value == IsTrue <==> RuleIsTrue(r, e, context)
    ensures EvaluateRule(r, e, context).value == IsFalse <==> RuleIsFalse(r, e, context)
    ensures EvaluateRule(r, e, context).unresolved == UndecidedFields(r, e, context)
  {
    hide EvaluateCondition, OpenFields, UndecidedFields, RuleIsTrue, RuleIsFalse, Truths;
    RuleTruthExactly(r, e, context);
    OpenFieldsExactly(r, e, context);
    NothingOpenWhenDecided(r, e, context);
  }

  // ---------- candidates ----------

  /** The constraint is met, or it failed and an approved exception covers it. */
  ghost predicate LetsPass(r: Readers, rule: Constraint, exceptions: set<string>, context: Json) {
    RuleIsTrue(r, rule.rule, context) || (RuleIsFalse(r, rule.rule, context) && rule.exceptionAllowed && rule.id in exceptions)
  }

  /** The first constraint that does not let the candidate pass. */
  ghost predicate StopsBuyer(r: Readers, rules: seq<Constraint>, exceptions: set<string>, context: Json, i: int) {
    0 <= i < |rules| && !LetsPass(r, rules[i], exceptions, context)
    && forall j :: 0 <= j < i ==> LetsPass(r, rules[j], exceptions, context)
  }

  /** The first rule of the seller that is not FALSE. */
  ghost predicate StopsSeller(r: Readers, rules: seq<AntiFit>, context: Json, i: int) {
    0 <= i < |rules| && !RuleIsFalse(r, rules[i].rule, context) && forall j :: 0 <= j < i ==> RuleIsFalse(r, rules[j].rule, context)
  }

  ghost function BuyerVerdict(r: Readers, rule: Constraint, context: Json): Verdict {
    if RuleIsFalse(r, rule.rule, context) then Verdict(SiraIneligible, rule.code, BuyerRule(rule.id), {})
    else Verdict(InsufficientEvidence, "BUYER_RULE_UNRESOLVED", BuyerRule(rule.id), UndecidedFields(r, rule.rule, context))
  }

  ghost function SellerVerdict(r: Readers, rule: AntiFit, context: Json): Verdict {
    if RuleIsTrue(r, rule.rule, context) then Verdict(SeilPass, rule.code, SellerRule(rule.id), {})
    else Verdict(Conditional, "SELLER_CONDITION_UNRESOLVED", SellerRule(rule.id), UndecidedFields(r, rule.rule, context))
  }

  /** The verdict a candidate deserves: the first of availability, evidence, the buyer's rules, the seller's rules
      and the dependency plan that stops it decides; otherwise it is eligible, with an exception if a constraint failed. */
  ghost predicate Deserves(r: Readers, c: Candidate, buyer: Json, seller: Json, v: Verdict) {
    if !c.available then v == Verdict(Unavailable, "UNAVAILABLE", Nobody, {})
    else if c.evidenceBlock.Some? then v == Verdict(c.evidenceBlock.value, "EVIDENCE", Nobody, {})
    else if exists i :: StopsBuyer(r, c.constraints, c.exceptions, buyer, i)
    then forall i :: StopsBuyer(r, c.constraints, c.exceptions, buyer, i) ==> v == BuyerVerdict(r, c.constraints[i], buyer)
    else if exists i :: StopsSeller(r, c.antiFits, seller, i)
    then forall i :: StopsSeller(r, c.antiFits, seller, i) ==> v == SellerVerdict(r, c.antiFits[i], seller)
    else if c.dependency == Unsatisfied
    then v == Verdict(SiraIneligible, "DEPENDENCY_UNSATISFIED", BuyerRule("dependency_plan"), {})
    else if c.dependency == PlanUnresolved
    then v == Verdict(Conditional, "DEPENDENCY_PLAN_REQUIRED", Nobody, {["dependency_plan"]})
    else if exists i :: 0 <= i < |c.constraints| && RuleIsFalse(r, c.constraints[i].rule, buyer)
    then v == Verdict(EligibleWithException, "APPROVED_EXCEPTION", Nobody, {})
    else v == Verdict(Eligible, "", Nobody, {})
  }

  lemma {:induction false} BuyerPassageExactly(r: Readers, rules: seq<Constraint>, exceptions: set<string>, context: Json, used: bool)
    ensures var p := BuyerPassage(r, rules, exceptions, context, used);
      && (p.Stopped? <==> exists i :: StopsBuyer(r, rules, exceptions, context, i))
      && (forall i :: StopsBuyer(r, rules, exceptions, context, i) ==> p == Stopped(BuyerVerdict(r, rules[i], context)))
      && (p.Passed? ==> (p.exceptionUsed <==> used || exists i :: 0 <= i < |rules| && RuleIsFalse(r, rules[i].rule, context)))
    decreases |rules|
  {
    hide EvaluateRule, RuleIsTrue, RuleIsFalse, UndecidedFields;
    if rules != [] {
      RuleExactly(r, rules[0].rule, context);
      var rest := rules[1..];
      if LetsPass(r, rules[0], exceptions, context) {
        BuyerPassageExactly(r, rest, exceptions, context, used || !RuleIsTrue(r, rules[0].rule, context));
        forall i ensures StopsBuyer(r, rest, exceptions, context, i) <==> StopsBuyer(r, rules, exceptions, context, i + 1) {
          LaterStop(r, rules, exceptions, context, i);
        }
        forall i | StopsBuyer(r, rules, exceptions, context, i) ensures i > 0 && StopsBuyer(r, rest, exceptions, context, i - 1) {
          LaterStop(r, rules, exceptions, context, i - 1);
        }
        FailedOrLater(r, rules, context);
      } else {
        assert StopsBuyer(r, rules, exceptions, context, 0);
        forall i | StopsBuyer(r, rules, exceptions, context, i) ensures i == 0 {}
      }
    }
  }

  lemma LaterStop(r: Readers, rules: seq<Constraint>, exceptions: set<string>, context: Json, i: int)
    requires rules != [] && LetsPass(r, rules[0], exceptions, context)
    ensures StopsBuyer(r, rules[1..], exceptions, context, i) <==> i >= 0 && StopsBuyer(r, rules, exceptions, context, i + 1)
  {
    hide LetsPass;
    if StopsBuyer(r, rules[1..], exceptions, context, i) {
      forall j | 0 <= j < i + 1 ensures LetsPass(r, rules[j], exceptions, context) {
        if j > 0 { assert rules[1..][j - 1] == rules[j]; }
      }
    }
    if i >= 0 && StopsBuyer(r, rules, exceptions, context, i + 1) {
      forall j | 0 <= j < i ensures LetsPass(r, rules[1..][j], exceptions, context) { assert rules[1..][j] == rules[j + 1]; }
    }
  }

  lemma FailedOrLater(r: Readers, rules: seq<Constraint>, context: Json)
    requires rules != []
    ensures (exists i :: 0 <= i < |rules| && RuleIsFalse(r, rules[i].rule, context))
      <==> RuleIsFalse(r, rules[0].rule, context) || exists i :: 0 <= i < |rules[1..]| && RuleIsFalse(r, rules[1..][i].rule, context)
  {
    hide RuleIsFalse;
    if i :| 0 <= i < |rules| && RuleIsFalse(r, rules[i].rule, context) {
      if i > 0 { assert rules[1..][i - 1] == rules[i]; }
    }
  }

  lemma {:induction false} SellerPassageExactly(r: Readers, rules: seq<AntiFit>, context: Json)
    ensures var p := SellerPassage(r, rules, context);
      && (p.Stopped? <==> exists i :: StopsSeller(r, rules, context, i))
      && (forall i :: StopsSeller(r, rules, context, i) ==> p == Stopped(SellerVerdict(r, rules[i], context)))
    decreases |rules|
  {
    hide EvaluateRule, RuleIsTrue, RuleIsFalse, UndecidedFields;
    if rules != [] {
      RuleExactly(r, rules[0].rule, context);
      var rest := rules[1..];
      if RuleIsFalse(r, rules[0].rule, context) {
        SellerPassageExactly(r, rest, context);
        forall i ensures StopsSeller(r, rest, context, i) <==> i >= 0 && StopsSeller(r, rules, context, i + 1) {
          LaterSellerStop(r, rules, context, i);
        }
        forall i | StopsSeller(r, rules, context, i) ensures i > 0 && StopsSeller(r, rest, context, i - 1) {
          LaterSellerStop(r, rules, context, i - 1);
        }
      } else {
        assert StopsSeller(r, rules, context, 0);
        forall i | StopsSeller(r, rules, context, i) ensures i == 0 {}
      }
    }
  }

  lemma LaterSellerStop(r: Readers, rules: seq<AntiFit>, context: Json, i: int)
    requires rules != [] && RuleIsFalse(r, rules[0].rule, context)
    ensures StopsSeller(r, rules[1..], context, i) <==> i >= 0 && StopsSeller(r, rules, context, i + 1)
  {
    hide RuleIsFalse;
    if StopsSeller(r, rules[1..], context, i) {
      forall j | 0 <= j < i + 1 ensures RuleIsFalse(r, rules[j].rule, context) {
        if j > 0 { assert rules[1..][j - 1] == rules[j]; }
      }
    }
    if i >= 0 && StopsSeller(r, rules, context, i + 1) {
      forall j | 0 <= j < i ensures RuleIsFalse(r, rules[1..][j].rule, context) { assert rules[1..][j] == rules[j + 1]; }
    }
  }

  /** A candidate gets exactly the verdict it deserves. */
  lemma VerdictExactly(r: Readers, c: Candidate, buyer: Json, seller: Json, v: Verdict)
    ensures VerdictOf(r, c, buyer, seller) == v <==> Deserves(r, c, buyer, seller, v)
  {
    BuyerPassageExactly(r, c.constraints, c.exceptions, buyer, false);
    SellerPassageExactly(r, c.antiFits, seller);
    hide BuyerPassage, SellerPassage, RuleIsFalse, BuyerVerdict, SellerVerdict, StopsBuyer, StopsSeller;
  }

  lemma {:induction false} FirstStop(r: Readers, rules: seq<Constraint>, exceptions: set<string>, context: Json, i: nat)
    requires i < |rules| && !LetsPass(r, rules[i], exceptions, context)
    ensures exists k :: StopsBuyer(r, rules, exceptions, context, k)
  {
    hide LetsPass;
    if j :| 0 <= j < i && !LetsPass(r, rules[j], exceptions, context) {
      FirstStop(r, rules, exceptions, context, j);
    } else {
      assert StopsBuyer(r, rules, exceptions, context, i);
    }
  }

  lemma {:induction false} FirstSellerStop(r: Readers, rules: seq<AntiFit>, context: Json, i: nat)
    requires i < |rules| && !RuleIsFalse(r, rules[i].rule, context)
    ensures exists k :: StopsSeller(r, rules, context, k)
  {
    hide RuleIsFalse;
    if j :| 0 <= j < i && !RuleIsFalse(r, rules[j].rule, context) {
      FirstSellerStop(r, rules, context, j);
    } else {
      assert StopsSeller(r, rules, context, i);
    }
  }

  lemma NotBoth(r: Readers, e: Expression, context: Json)
    ensures !(RuleIsTrue(r, e, context) && RuleIsFalse(r, e, context))
  {
    hide HasTruth;
    assert e.conditions[0] in e.conditions;
    forall c ensures !(HasTruth(r, c, context, IsTrue) && HasTruth(r, c, context, IsFalse)) { OneTruth(r, c, context); }
  }

  lemma OneTruth(r: Readers, c: Condition, context: Json)
    ensures !(HasTruth(r, c, context, IsTrue) && HasTruth(r, c, context, IsFalse))
  {
  }

  /** ELIGIBLE by the rules exactly when the candidate is available with sound evidence and a satisfied plan, every
      constraint is TRUE and every rule of the seller FALSE. */
  lemma EligibleExactly(r: Readers, c: Candidate, buyer: Json, seller: Json)
    ensures VerdictOf(r, c, buyer, seller) == Verdict(Eligible, "", Nobody, {}) <==>
      && c.available && c.evidenceBlock.None? && c.dependency == Satisfied
      && (forall i :: 0 <= i < |c.constraints| ==> RuleIsTrue(r, c.constraints[i].rule, buyer))
      && (forall i :: 0 <= i < |c.antiFits| ==> RuleIsFalse(r, c.antiFits[i].rule, seller))
  {
    VerdictExactly(r, c, buyer, seller, Verdict(Eligible, "", Nobody, {}));
    AllTrue(r, c.constraints, c.exceptions, buyer);
    NoSellerStop(r, c.antiFits, seller);
    BuyerStopIsNotEligible(r, c, buyer);
    SellerStopIsNotEligible(r, c, seller);
    hide VerdictOf, RuleIsTrue, RuleIsFalse, StopsBuyer, StopsSeller, BuyerVerdict, SellerVerdict;
  }

  lemma BuyerStopIsNotEligible(r: Readers, c: Candidate, buyer: Json)
    ensures forall i :: StopsBuyer(r, c.constraints, c.exceptions, buyer, i) ==>
      BuyerVerdict(r, c.constraints[i], buyer).status != Eligible
  {
    hide RuleIsFalse, LetsPass, UndecidedFields;
  }

  lemma SellerStopIsNotEligible(r: Readers, c: Candidate, seller: Json)
    ensures forall i :: StopsSeller(r, c.antiFits, seller, i) ==> SellerVerdict(r, c.antiFits[i], seller).status != Eligible
  {
    hide RuleIsFalse, RuleIsTrue, UndecidedFields;
  }

  lemma NoSellerStop(r: Readers, rules: seq<AntiFit>, context: Json)
    ensures (exists k :: StopsSeller(r, rules, context, k)) <==> exists i :: 0 <= i < |rules| && !RuleIsFalse(r, rules[i].rule, context)
  {
    hide RuleIsFalse;
    if i :| 0 <= i < |rules| && !RuleIsFalse(r, rules[i].rule, context) { FirstSellerStop(r, rules, context, i); }
  }

  /** Nothing stops the candidate and nothing needs an exception exactly when every constraint is TRUE. */
  lemma AllTrue(r: Readers, rules: seq<Constraint>, exceptions: set<string>, context: Json)
    ensures (forall i :: 0 <= i < |rules| ==> RuleIsTrue(r, rules[i].rule, context)) <==>
      && !(exists k :: StopsBuyer(r, rules, exceptions, context, k))
      && !(exists i :: 0 <= i < |rules| && RuleIsFalse(r, rules[i].rule, context))
  {
    hide RuleIsTrue, RuleIsFalse;
    if i :| 0 <= i < |rules| && !LetsPass(r, rules[i], exceptions, context) { FirstStop(r, rules, exceptions, context, i); }
    forall i | 0 <= i < |rules| ensures !(RuleIsTrue(r, rules[i].rule, context) && RuleIsFalse(r, rules[i].rule, context)) {
      NotBoth(r, rules[i].rule, context);
    }
  }
}
