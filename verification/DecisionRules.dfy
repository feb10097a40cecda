/** Three-valued rules over nested facts, and the ordered gates of a candidate built on them. */
module DecisionRules {
  import opened Outcomes

  datatype Json = Null | Bool(flag: bool) | Num(number: real) | Str(text: string) | List(items: seq<Json>) | Object(fields: map<string, Json>)

  datatype Operator =
    | Eq | Neq | In | NotIn | Contains | ContainsAll | Gte | Lte | Gt | Lt | Exists
    | DateBefore | DateOnOrBefore | DateAfter | DateOnOrAfter

  /** Python's equality, its `in`, and its readers of decimals and dates; a reader without a result raises. */
  datatype Readers = Readers(
    equal: (Json, Json) -> bool, contains: (Json, Json) -> Option<bool>,
    decimal: Json -> Option<real>, date: Json -> Option<int>)

  // ---------- paths ----------

  /** The value at a dotted path. */
  function Resolve(context: Json, path: seq<string>): Option<Json>
    decreases |path|
  {
    if path == [] then Some(context)
    else if context.Object? && path[0] in context.fields then Resolve(context.fields[path[0]], path[1..])
    else None
  }

  method ResolveField(context: Json, path: seq<string>) returns (r: Option<Json>)
    ensures r == Resolve(context, path)
  {
    var current := context;
    assert path[0..] == path;
    for i := 0 to |path|
      invariant Resolve(context, path) == Resolve(current, path[i..])
    {
      assert path[i..][1..] == path[i + 1..];
      if current.Object? && path[i] in current.fields {
        current := current.fields[path[i]];
      } else {
        return None;
      }
    }
    return Some(current);
  }

  /** New fields may appear at any depth; what is there stays. */
  ghost predicate Extends(a: Json, b: Json) {
    if a.Object? then b.Object? && forall k :: k in a.fields ==> k in b.fields && Extends(a.fields[k], b.fields[k])
    else b == a
  }

  lemma {:induction false} ExtendsItself(a: Json)
    ensures Extends(a, a)
  {
    if a.Object? {
      forall k | k in a.fields ensures Extends(a.fields[k], a.fields[k]) { ExtendsItself(a.fields[k]); }
    }
  }

  lemma {:induction false} ResolvedExtends(a: Json, b: Json, path: seq<string>)
    requires Extends(a, b) && Resolve(a, path).Some?
    ensures Resolve(b, path).Some? && Extends(Resolve(a, path).value, Resolve(b, path).value)
    decreases |path|
  {
    if path != [] { ResolvedExtends(a.fields[path[0]], b.fields[path[0]], path[1..]); }
  }

  /** The field is there and is no mapping. */
  predicate IsLeaf(context: Json, path: seq<string>) {
    Resolve(context, path).Some? && !Resolve(context, path).value.Object?
  }

  /** Replaces the value at a resolved path. */
  function Put(context: Json, path: seq<string>, v: Json): Json
    requires Resolve(context, path).Some?
    decreases |path|
  {
    if path == [] then v
    else Object(context.fields[path[0] := Put(context.fields[path[0]], path[1..], v)])
  }

  lemma {:induction false} PuttingExtends(a: Json, path: seq<string>, v: Json)
    requires Resolve(a, path).Some? && Extends(Resolve(a, path).value, v)
    ensures Extends(a, Put(a, path, v)) && Resolve(Put(a, path, v), path) == Some(v)
    decreases |path|
  {
    if path != [] {
      PuttingExtends(a.fields[path[0]], path[1..], v);
      forall k | k in a.fields ensures Extends(a.fields[k], Put(a, path, v).fields[k]) { ExtendsItself(a.fields[k]); }
    }
  }

  lemma AddingAFieldExtends(m: map<string, Json>, k: string)
    requires k !in m
    ensures Extends(Object(m), Object(m[k := Null])) && Object(m[k := Null]) != Object(m)
  {
    forall x | x in m ensures Extends(m[x], m[x]) { ExtendsItself(m[x]); }
    assert k in m[k := Null];
  }

  lemma {:induction false} SomeKeyIsFree(keys: set<string>)
    ensures exists k: string :: k !in keys
  {
    var k := LongerThan(keys);
    assert k !in keys;
  }

  /** A string longer than every string of a set. */
  ghost function LongerThan(keys: set<string>): (k: string)
    ensures forall x :: x in keys ==> |x| < |k|
    decreases |keys|
  {
    if keys == {} then "x"
    else
      var x :| x in keys;
      var k := LongerThan(keys - {x});
      if |x| < |k| then k else x + "x"
  }

  /** A resolved field keeps its value in every extension exactly when it is no mapping. */
  lemma LeavesAreFixedExactly(a: Json, path: seq<string>)
    requires Resolve(a, path).Some?
    ensures IsLeaf(a, path) <==> forall b :: Extends(a, b) ==> Resolve(b, path) == Resolve(a, path)
  {
    if IsLeaf(a, path) {
      forall b | Extends(a, b) ensures Resolve(b, path) == Resolve(a, path) { LeafStays(a, b, path); }
    } else {
      var m := Resolve(a, path).value.fields;
      SomeKeyIsFree(m.Keys);
      var k :| k !in m;
      AddingAFieldExtends(m, k);
      PuttingExtends(a, path, Object(m[k := Null]));
    }
  }

  lemma LeafStays(a: Json, b: Json, path: seq<string>)
    requires Extends(a, b) && IsLeaf(a, path)
    ensures Resolve(b, path) == Resolve(a, path)
  {
    ResolvedExtends(a, b, path);
  }

  /** The walk along the path stops at a value that is no mapping. */
  predicate Blocked(context: Json, path: seq<string>)
    decreases |path|
  {
    path != [] && if !context.Object? then true
                  else path[0] in context.fields && Blocked(context.fields[path[0]], path[1..])
  }

  lemma {:induction false} BlockedStays(a: Json, b: Json, path: seq<string>)
    requires Extends(a, b) && Blocked(a, path)
    ensures Resolve(a, path).None? && Resolve(b, path).None?
    decreases |path|
  {
    if a.Object? { BlockedStays(a.fields[path[0]], b.fields[path[0]], path[1..]); }
  }

  /** A value with nothing but the path to it. */
  function Nest(path: seq<string>, v: Json): (r: Json)
    ensures Resolve(r, path) == Some(v)
    decreases |path|
  {
    if path == [] then v else Object(map[path[0] := Nest(path[1..], v)])
  }

  /** Learns a field that is missing. */
  function Fill(context: Json, path: seq<string>, v: Json): Json
    requires Resolve(context, path).None? && !Blocked(context, path)
    decreases |path|
  {
    Object(context.fields[path[0] :=
      if path[0] in context.fields then Fill(context.fields[path[0]], path[1..], v) else Nest(path[1..], v)])
  }

  lemma {:induction false} FillingExtends(a: Json, path: seq<string>, v: Json)
    requires Resolve(a, path).None? && !Blocked(a, path)
    ensures Extends(a, Fill(a, path, v)) && Resolve(Fill(a, path, v), path) == Some(v)
    decreases |path|
  {
    if path[0] in a.fields { FillingExtends(a.fields[path[0]], path[1..], v); }
    forall k | k in a.fields ensures Extends(a.fields[k], Fill(a, path, v).fields[k]) { ExtendsItself(a.fields[k]); }
  }

  // ---------- conditions ----------

  datatype ConditionFields = ConditionFields(field: seq<string>, operator: Operator, value: Json)

  /** A condition, as its constructor admits it. */
  type Condition = c: ConditionFields |
    && c.field != []
    && (c.operator in {In, NotIn, ContainsAll} ==> c.value.List?)
    && (c.operator == Exists ==> c.value.Bool?)
    witness ConditionFields(["f"], Exists, Bool(true))

  datatype Truth = IsTrue | IsFalse | Unresolved

  datatype Evaluation = Evaluation(value: Truth, unresolved: set<seq<string>>)

  predicate StrictEqual(r: Readers, a: Json, b: Json) {
    if a.Bool? || b.Bool? then a.Bool? && b.Bool? && a.flag == b.flag else r.equal(a, b)
  }

  predicate OneOf(r: Readers, x: Json, items: seq<Json>) {
    exists i :: 0 <= i < |items| && StrictEqual(r, x, items[i])
  }

  function ComparedBy(op: Operator, left: real, right: real): bool {
    match op
    case Gte => left >= right
    case Lte => left <= right
    case Gt => left > right
    case _ => left < right
  }

  function DatedBy(op: Operator, left: int, right: int): bool {
    match op
    case DateBefore => left < right
    case DateOnOrBefore => left <= right
    case DateAfter => left > right
    case _ => left >= right
  }

  /** The comparison; without a result it raised. */
  function Compare(r: Readers, c: Condition, actual: Json): Option<bool> {
    match c.operator
    case Eq => Some(StrictEqual(r, actual, c.value))
    case Neq => Some(!StrictEqual(r, actual, c.value))
    case In => Some(OneOf(r, actual, c.value.items))
    case NotIn => Some(!OneOf(r, actual, c.value.items))
    case Contains => r.contains(actual, c.value)
    case ContainsAll =>
      if !actual.List? then None
      else Some(forall i :: 0 <= i < |c.value.items| ==> OneOf(r, c.value.items[i], actual.items))
    case Gte | Lte | Gt | Lt =>
      if r.decimal(actual).None? || r.decimal(c.value).None? then None
      else Some(ComparedBy(c.operator, r.decimal(actual).value, r.decimal(c.value).value))
    case Exists => None
    case _ =>
      if r.date(actual).None? || r.date(c.value).None? then None
      else Some(DatedBy(c.operator, r.date(actual).value, r.date(c.value).value))
  }

  function TruthOf(b: bool): Truth {
    if b then IsTrue else IsFalse
  }

  function EvaluateCondition(r: Readers, c: Condition, context: Json): Evaluation {
    var found := Resolve(context, c.field);
    if c.operator == Exists then Evaluation(TruthOf((found.Some? && found.value != Null) == c.value.flag), {})
    else if found.None? || found.value == Null then Evaluation(Unresolved, {c.field})
    else
      var matched := Compare(r, c, found.value);
      if matched.None? then Evaluation(Unresolved, {c.field}) else Evaluation(TruthOf(matched.value), {})
  }

  datatype Mode = All | Any

  datatype ExpressionFields = ExpressionFields(conditions: seq<Condition>, mode: Mode)

  type Expression = e: ExpressionFields | e.conditions != []
    witness ExpressionFields([ConditionFields(["f"], Exists, Bool(true))], All)

  function Truths(r: Readers, conditions: seq<Condition>, context: Json): (t: set<Truth>)
    ensures forall x :: x in t <==> exists c :: c in conditions && EvaluateCondition(r, c, context).value == x
  {
    set c | c in conditions :: EvaluateCondition(r, c, context).value
  }

  function OpenFields(r: Readers, conditions: seq<Condition>, context: Json): set<seq<string>> {
    set c, f | c in conditions && f in EvaluateCondition(r, c, context).unresolved :: f
  }

  function EvaluateRule(r: Readers, e: Expression, context: Json): Evaluation {
    var truths := Truths(r, e.conditions, context);
    var open := OpenFields(r, e.conditions, context);
    if e.mode == All then
      if IsFalse in truths then Evaluation(IsFalse, open)
      else if Unresolved in truths then Evaluation(Unresolved, open)
      else Evaluation(IsTrue, {})
    else if IsTrue in truths then Evaluation(IsTrue, open)
    else if Unresolved in truths then Evaluation(Unresolved, open)
    else Evaluation(IsFalse, {})
  }

  // ---------- candidates ----------

  datatype Status =
    | Unavailable | StaleEvidence | InsufficientEvidence | ConflictingEvidence | SiraIneligible | SeilPass
    | Conditional | EligibleWithException | Eligible

  datatype Constraint = Constraint(id: string, rule: Expression, code: string, exceptionAllowed: bool)

  datatype AntiFit = AntiFit(id: string, rule: Expression, code: string)

  datatype DependencyState = Satisfied | Unsatisfied | PlanUnresolved

  datatype Candidate = Candidate(
    available: bool, evidenceBlock: Option<Status>, constraints: seq<Constraint>, antiFits: seq<AntiFit>,
    exceptions: set<string>, dependency: DependencyState)

  datatype Decider = Nobody | BuyerRule(id: string) | SellerRule(id: string)

  datatype Verdict = Verdict(status: Status, code: string, decider: Decider, unresolved: set<seq<string>>)

  /** The first buyer constraint that stops the candidate, or whether an exception was used. */
  datatype Passage = Stopped(verdict: Verdict) | Passed(exceptionUsed: bool)

  function BuyerPassage(r: Readers, rules: seq<Constraint>, exceptions: set<string>, context: Json, used: bool): Passage
    decreases |rules|
  {
    if rules == [] then Passed(used)
    else
      var rule, e := rules[0], EvaluateRule(r, rules[0].rule, context);
      match e.value
      case Unresolved => Stopped(Verdict(InsufficientEvidence, "BUYER_RULE_UNRESOLVED", BuyerRule(rule.id), e.unresolved))
      case IsFalse =>
        if rule.exceptionAllowed && rule.id in exceptions then BuyerPassage(r, rules[1..], exceptions, context, true)
        else Stopped(Verdict(SiraIneligible, rule.code, BuyerRule(rule.id), {}))
      case IsTrue => BuyerPassage(r, rules[1..], exceptions, context, used)
  }

  function SellerPassage(r: Readers, rules: seq<AntiFit>, context: Json): Passage
    decreases |rules|
  {
    if rules == [] then Passed(false)
    else
      var rule, e := rules[0], EvaluateRule(r, rules[0].rule, context);
      match e.value
      case IsTrue => Stopped(Verdict(SeilPass, rule.code, SellerRule(rule.id), {}))
      case Unresolved => Stopped(Verdict(Conditional, "SELLER_CONDITION_UNRESOLVED", SellerRule(rule.id), e.unresolved))
      case IsFalse => SellerPassage(r, rules[1..], context)
  }

  /** The verdict, once it is known how both sides' rules were passed. */
  function Conclude(c: Candidate, buyer: Passage, seller: Passage): Verdict {
    if !c.available then Verdict(Unavailable, "UNAVAILABLE", Nobody, {})
    else if c.evidenceBlock.Some? then Verdict(c.evidenceBlock.value, "EVIDENCE", Nobody, {})
    else if buyer.Stopped? then buyer.verdict
    else if seller.Stopped? then seller.verdict
    else
      match c.dependency
      case Unsatisfied => Verdict(SiraIneligible, "DEPENDENCY_UNSATISFIED", BuyerRule("dependency_plan"), {})
      case PlanUnresolved => Verdict(Conditional, "DEPENDENCY_PLAN_REQUIRED", Nobody, {["dependency_plan"]})
      case Satisfied =>
        if buyer.exceptionUsed then Verdict(EligibleWithException, "APPROVED_EXCEPTION", Nobody, {})
        else Verdict(Eligible, "", Nobody, {})
  }

  function VerdictOf(r: Readers, c: Candidate, buyer: Json, seller: Json): Verdict {
    Conclude(c, BuyerPassage(r, c.constraints, c.exceptions, buyer, false), SellerPassage(r, c.antiFits, seller))
  }

  /** The published rules of the seller, in order, on the sanitized facts alone. */
  method PassSellerRules(r: Readers, rules: seq<AntiFit>, seller: Json) returns (p: Passage)
    ensures p == SellerPassage(r, rules, seller)
  {
    hide EvaluateRule;
    assert rules[0..] == rules;
    for i := 0 to |rules|
      invariant SellerPassage(r, rules, seller) == SellerPassage(r, rules[i..], seller)
    {
      var rule := rules[i];
      assert rules[i..][1..] == rules[i + 1..];
      var e := EvaluateRule(r, rule.rule, seller);
      if e.value == IsTrue { return Stopped(Verdict(SeilPass, rule.code, SellerRule(rule.id), {})); }
      if e.value == Unresolved {
        return Stopped(Verdict(Conditional, "SELLER_CONDITION_UNRESOLVED", SellerRule(rule.id), e.unresolved));
      }
    }
    return Passed(false);
  }

  /** The buyer's constraints, in order; an approved exception lets a failed one pass and is noted. */
  method PassBuyerRules(r: Readers, rules: seq<Constraint>, exceptions: set<string>, buyer: Json) returns (p: Passage)
    ensures p == BuyerPassage(r, rules, exceptions, buyer, false)
  {
    hide EvaluateRule;
    var exceptionUsed := false;
    assert rules[0..] == rules;
    for i := 0 to |rules|
      invariant BuyerPassage(r, rules, exceptions, buyer, false) == BuyerPassage(r, rules[i..], exceptions, buyer, exceptionUsed)
    {
      var rule := rules[i];
      assert rules[i..][1..] == rules[i + 1..];
      var e := EvaluateRule(r, rule.rule, buyer);
      if e.value == Unresolved {
        return Stopped(Verdict(InsufficientEvidence, "BUYER_RULE_UNRESOLVED", BuyerRule(rule.id), e.unresolved));
      }
      if e.value == IsFalse {
        if !(rule.exceptionAllowed && rule.id in exceptions) {
          return Stopped(Verdict(SiraIneligible, rule.code, BuyerRule(rule.id), {}));
        }
        exceptionUsed := true;
      }
    }
    return Passed(exceptionUsed);
  }

  /** The ordered gates, with early returns. */
  method EvaluateCandidate(r: Readers, c: Candidate, buyer: Json, seller: Json) returns (v: Verdict)
    ensures v == VerdictOf(r, c, buyer, seller)
  {
    hide BuyerPassage, SellerPassage;
    if !c.available { return Verdict(Unavailable, "UNAVAILABLE", Nobody, {}); }
    if c.evidenceBlock.Some? { return Verdict(c.evidenceBlock.value, "EVIDENCE", Nobody, {}); }
    var buyers := PassBuyerRules(r, c.constraints, c.exceptions, buyer);
    if buyers.Stopped? { return buyers.verdict; }
    var sellers := PassSellerRules(r, c.antiFits, seller);
    if sellers.Stopped? { return sellers.verdict; }
    match c.dependency {
      case Unsatisfied => return Verdict(SiraIneligible, "DEPENDENCY_UNSATISFIED", BuyerRule("dependency_plan"), {});
      case PlanUnresolved => return Verdict(Conditional, "DEPENDENCY_PLAN_REQUIRED", Nobody, {["dependency_plan"]});
      case Satisfied =>
    }
    return if buyers.exceptionUsed then Verdict(EligibleWithException, "APPROVED_EXCEPTION", Nobody, {})
           else Verdict(Eligible, "", Nobody, {});
  }

  // ---------- Python's readings ----------

  /** Python's `==` on nested facts: mappings need the same keys, and inside them a boolean equals a number. */
  predicate PyEqual(a: Json, b: Json) {
    match a
    case Null => b.Null?
    case Bool(x) => (b.Bool? && b.flag == x) || (b.Num? && b.number == if x then 1.0 else 0.0)
    case Num(x) => (b.Num? && b.number == x) || (b.Bool? && x == if b.flag then 1.0 else 0.0)
    case Str(x) => b.Str? && b.text == x
    case List(x) => b.List? && |b.items| == |x| && forall i :: 0 <= i < |x| ==> PyEqual(x[i], b.items[i])
    case Object(x) => b.Object? && b.fields.Keys == x.Keys && forall k :: k in x ==> PyEqual(x[k], b.fields[k])
  }

  /** Equality is Python's; membership in a mapping asks for a key, and mappings are no numbers and no dates. */
  ghost predicate PythonReaders(r: Readers) {
    && (forall x: Json, y: Json :: r.equal(x, y) <==> PyEqual(x, y))
    && (forall m: map<string, Json>, k: string :: r.contains(Object(m), Str(k)) == Some(k in m))
    && (forall m: map<string, Json>, n: map<string, Json>, v: Json :: !v.Str? ==> r.contains(Object(m), v) == r.contains(Object(n), v))
    && (forall m: map<string, Json> :: r.decimal(Object(m)).None? && r.date(Object(m)).None?)
  }

  lemma PythonReadersExist()
    ensures exists r :: PythonReaders(r)
  {
    var r := Readers(
      (x, y) => PyEqual(x, y), (c: Json, v: Json) => Some(c.Object? && v.Str? && v.text in c.fields), x => None, x => None);
    assert PythonReaders(r);
  }

  lemma {:induction false} PyEqualsItself(a: Json)
    ensures PyEqual(a, a)
  {
    match a
    case List(x) => forall i | 0 <= i < |x| ensures PyEqual(x[i], x[i]) { PyEqualsItself(x[i]); }
    case Object(x) => forall k | k in x ensures PyEqual(x[k], x[k]) { PyEqualsItself(x[k]); }
    case _ =>
  }

  /** Learning fields can make `m` equal to `v`. */
  predicate GrowsInto(m: Json, v: Json) {
    if m.Object? then v.Object? && forall k :: k in m.fields ==> k in v.fields && GrowsInto(m.fields[k], v.fields[k])
    else PyEqual(m, v)
  }

  /** `m` with the fields learned that make it equal to `v`. */
  function Grown(m: Json, v: Json): Json
    requires GrowsInto(m, v)
  {
    if m.Object? then Object(map k | k in v.fields :: if k in m.fields then Grown(m.fields[k], v.fields[k]) else v.fields[k]) else m
  }

  lemma {:induction false} GrowingExtends(m: Json, v: Json)
    requires GrowsInto(m, v)
    ensures Extends(m, Grown(m, v)) && PyEqual(Grown(m, v), v)
  {
    if m.Object? {
      forall k | k in m.fields ensures Extends(m.fields[k], Grown(m, v).fields[k]) { GrowingExtends(m.fields[k], v.fields[k]); }
      forall k | k in v.fields ensures PyEqual(Grown(m, v).fields[k], v.fields[k]) {
        if k in m.fields { GrowingExtends(m.fields[k], v.fields[k]); } else { PyEqualsItself(v.fields[k]); }
      }
    }
  }

  lemma {:induction false} OnlyGrowthIsEqual(m: Json, e: Json, v: Json)
    requires Extends(m, e) && PyEqual(e, v)
    ensures GrowsInto(m, v)
  {
    if m.Object? {
      forall k | k in m.fields ensures k in v.fields && GrowsInto(m.fields[k], v.fields[k]) {
        OnlyGrowthIsEqual(m.fields[k], e.fields[k], v.fields[k]);
      }
    }
  }

  // ---------- learning more ----------

  /** The values an equality or a membership in a list compares with. */
  function Targets(c: Condition): seq<Json> {
    match c.operator
    case Eq | Neq => [c.value]
    case In | NotIn => c.value.items
    case _ => []
  }

  /** Learning fields of the mapping `m` can turn the condition: `m` can grow into a value it is compared with,
      or gain the key it is asked for. */
  predicate CanTurn(c: Condition, m: Json) {
    || (exists i :: 0 <= i < |Targets(c)| && GrowsInto(m, Targets(c)[i]))
    || (c.operator == Contains && c.value.Str? && m.Object? && c.value.text !in m.fields)
  }

  /** What the condition looks at cannot change: for existence, the field is there or can never be; otherwise the
      field, if it is there, is no mapping, or a mapping that cannot turn the condition. */
  ghost predicate LooksAtFixed(r: Readers, c: Condition, context: Json) {
    var found := Resolve(context, c.field);
    if c.operator == Exists then found.Some? || Blocked(context, c.field)
    else found.Some? ==> IsLeaf(context, c.field) || (PythonReaders(r) && !CanTurn(c, found.value))
  }

  ghost predicate RuleLooksAtFixed(r: Readers, e: Expression, context: Json) {
    forall c :: c in e.conditions ==> LooksAtFixed(r, c, context)
  }

  /** The condition has the same value in every extension of the context. */
  ghost predicate IsFixed(r: Readers, c: Condition, a: Json) {
    forall b :: Extends(a, b) ==> EvaluateCondition(r, c, b).value == EvaluateCondition(r, c, a).value
  }

  lemma ExistenceStays(r: Readers, c: Condition, a: Json, b: Json)
    requires Extends(a, b) && c.operator == Exists && (Resolve(a, c.field).Some? || Blocked(a, c.field))
    ensures EvaluateCondition(r, c, b) == EvaluateCondition(r, c, a)
  {
    hide Resolve, Blocked;
    if Blocked(a, c.field) { BlockedStays(a, b, c.field); } else { ResolvedExtends(a, b, c.field); }
  }

  /** An existence condition keeps its value whatever is learned exactly when its field is there, or
      when the path to it runs into a value that is no mapping. */
  lemma ExistenceIsFixedExactly(r: Readers, c: Condition, a: Json)
    requires c.operator == Exists
    ensures IsFixed(r, c, a) <==> Resolve(a, c.field).Some? || Blocked(a, c.field)
  {
    if Resolve(a, c.field).Some? || Blocked(a, c.field) {
      forall b | Extends(a, b) ensures EvaluateCondition(r, c, b).value == EvaluateCondition(r, c, a).value {
        ExistenceStays(r, c, a, b);
      }
    } else {
      FillingExtends(a, c.field, Bool(true));
      hide Resolve, Extends, Blocked, Fill;
      assert EvaluateCondition(r, c, Fill(a, c.field, Bool(true))).value != EvaluateCondition(r, c, a).value;
    }
  }

  /** Whether one of the targets equals the mapping. */
  predicate Hits(m: Json, targets: seq<Json>) {
    exists i :: 0 <= i < |targets| && PyEqual(m, targets[i])
  }

  /** Equality with the targets, and membership of a key, are all that a condition sees of a mapping. */
  lemma MappingVerdict(r: Readers, c: Condition, m: Json, n: Json)
    requires PythonReaders(r) && c.operator != Exists && m.Object? && n.Object?
    ensures var x, y := Compare(r, c, m), Compare(r, c, n);
      match c.operator
      case Eq | In => x == Some(Hits(m, Targets(c)))
      case Neq | NotIn => x == Some(!Hits(m, Targets(c)))
      case Contains => if c.value.Str? then x == Some(c.value.text in m.fields) else x == y
      case _ => x.None?
  {
    hide PyEqual;
    if c.operator in {Eq, Neq} {
      assert Targets(c)[0] == c.value;
      assert StrictEqual(r, m, c.value) <==> PyEqual(m, c.value) by { MappingIsNoBoolean(m, c.value); }
    }
    if c.operator in {In, NotIn} {
      forall i | 0 <= i < |c.value.items| ensures StrictEqual(r, m, c.value.items[i]) <==> PyEqual(m, c.value.items[i]) {
        MappingIsNoBoolean(m, c.value.items[i]);
      }
    }
  }

  lemma MappingIsNoBoolean(m: Json, v: Json)
    requires m.Object?
    ensures PyEqual(m, v) ==> v.Object?
  {
  }

  lemma OnlyGrowthHits(m: Json, e: Json, targets: seq<Json>)
    requires Extends(m, e) && Hits(e, targets)
    ensures exists i :: 0 <= i < |targets| && GrowsInto(m, targets[i])
  {
    var i :| 0 <= i < |targets| && PyEqual(e, targets[i]);
    OnlyGrowthIsEqual(m, e, targets[i]);
  }

  function KeysOf(targets: seq<Json>): (keys: set<string>)
    ensures forall i :: 0 <= i < |targets| && targets[i].Object? ==> targets[i].fields.Keys <= keys
  {
    set i, k | 0 <= i < |targets| && targets[i].Object? && k in targets[i].fields :: k
  }

  lemma KeyMisses(e: Json, v: Json, k: string)
    requires e.Object? && k in e.fields && (v.Object? ==> k !in v.fields)
    ensures !PyEqual(e, v)
  {
    assert k in e.fields.Keys;
  }

  /** A key that is new to the mapping and to all targets makes it miss them. */
  lemma NewKeyMisses(m: map<string, Json>, targets: seq<Json>) returns (e: Json)
    ensures e.Object? && Extends(Object(m), e) && !Hits(e, targets)
  {
    hide PyEqual, Extends;
    SomeKeyIsFree(m.Keys + KeysOf(targets));
    var k :| k !in m.Keys + KeysOf(targets);
    AddingAFieldExtends(m, k);
    e := Object(m[k := Null]);
    forall i | 0 <= i < |targets| ensures !PyEqual(e, targets[i]) { KeyMisses(e, targets[i], k); }
  }

  /** A mapping that can turn a condition has an extension that turns it. */
  lemma TurningExtension(r: Readers, c: Condition, m: Json) returns (e: Json)
    requires PythonReaders(r) && c.operator != Exists && m.Object? && CanTurn(c, m)
    ensures e.Object? && Extends(m, e) && Compare(r, c, m).Some? && Compare(r, c, e).Some? && Compare(r, c, e) != Compare(r, c, m)
  {
    hide PyEqual, GrowsInto;
    if c.operator == Contains {
      AddingAFieldExtends(m.fields, c.value.text);
      e := Object(m.fields[c.value.text := Null]);
    } else if Hits(m, Targets(c)) {
      e := NewKeyMisses(m.fields, Targets(c));
    } else {
      var i :| 0 <= i < |Targets(c)| && GrowsInto(m, Targets(c)[i]);
      GrowingExtends(m, Targets(c)[i]);
      e := Grown(m, Targets(c)[i]);
      assert Hits(e, Targets(c));
    }
    assert e.Object? by { ExtensionIsMapping(m, e); }
    hide Compare, Hits;
    MappingVerdict(r, c, m, e);
    MappingVerdict(r, c, e, m);
  }

  lemma ExtensionIsMapping(m: Json, e: Json)
    requires Extends(m, e)
    ensures m.Object? ==> e.Object? && m.fields.Keys <= e.fields.Keys
    ensures !m.Object? ==> e == m
  {
  }

  lemma UnturnedStays(r: Readers, c: Condition, m: Json, e: Json)
    requires PythonReaders(r) && c.operator != Exists && m.Object? && Extends(m, e) && !CanTurn(c, m)
    ensures Compare(r, c, e) == Compare(r, c, m)
  {
    hide PyEqual, GrowsInto;
    ExtensionIsMapping(m, e);
    ExtendsItself(m);
    if Hits(e, Targets(c)) { OnlyGrowthHits(m, e, Targets(c)); }
    if Hits(m, Targets(c)) { OnlyGrowthHits(m, m, Targets(c)); }
    hide Compare, Hits, Extends;
    MappingVerdict(r, c, m, e);
    MappingVerdict(r, c, e, m);
  }

  lemma FieldStays(r: Readers, c: Condition, a: Json, b: Json)
    requires Extends(a, b) && c.operator != Exists && Resolve(a, c.field).Some? && LooksAtFixed(r, c, a)
    ensures EvaluateCondition(r, c, b) == EvaluateCondition(r, c, a)
  {
    ResolvedExtends(a, b, c.field);
    var m, e := Resolve(a, c.field).value, Resolve(b, c.field).value;
    ExtensionIsMapping(m, e);
    if m.Object? { UnturnedStays(r, c, m, e); }
    hide Resolve, Compare, Extends;
  }

  lemma FieldTurns(r: Readers, c: Condition, a: Json)
    requires PythonReaders(r) && c.operator != Exists && Resolve(a, c.field).Some?
    requires !IsLeaf(a, c.field) && CanTurn(c, Resolve(a, c.field).value)
    ensures !IsFixed(r, c, a)
  {
    var e := TurningExtension(r, c, Resolve(a, c.field).value);
    PuttingExtends(a, c.field, e);
    hide Resolve, Compare, Extends, Put, CanTurn;
    assert EvaluateCondition(r, c, Put(a, c.field, e)).value != EvaluateCondition(r, c, a).value;
  }

  /** A condition about a field that is there keeps its value whatever is learned exactly when the field is no
      mapping, or a mapping that can neither grow into a value it is compared with nor gain the key asked for. */
  lemma FieldIsFixedExactly(r: Readers, c: Condition, a: Json)
    requires PythonReaders(r) && c.operator != Exists && Resolve(a, c.field).Some?
    ensures IsFixed(r, c, a) <==> IsLeaf(a, c.field) || !CanTurn(c, Resolve(a, c.field).value)
  {
    if IsLeaf(a, c.field) || !CanTurn(c, Resolve(a, c.field).value) {
      forall b | Extends(a, b) ensures EvaluateCondition(r, c, b).value == EvaluateCondition(r, c, a).value {
        FieldStays(r, c, a, b);
      }
    } else {
      FieldTurns(r, c, a);
    }
  }

  /** For every operator: a decided condition stays decided the same way in every extension of the context exactly
      when it looks at something that cannot change. */
  lemma DecidedConditionStaysExactly(r: Readers, c: Condition, a: Json)
    requires PythonReaders(r) && EvaluateCondition(r, c, a).value != Unresolved
    ensures IsFixed(r, c, a) <==> LooksAtFixed(r, c, a)
  {
    hide PythonReaders, CanTurn, IsFixed, IsLeaf, Blocked, Resolve, Compare;
    if c.operator == Exists {
      ExistenceIsFixedExactly(r, c, a);
    } else {
      FieldIsFixedExactly(r, c, a);
    }
  }

  lemma DecidedConditionsStay(r: Readers, c: Condition, a: Json, b: Json)
    requires Extends(a, b) && LooksAtFixed(r, c, a)
    requires EvaluateCondition(r, c, a).value != Unresolved
    ensures EvaluateCondition(r, c, b) == EvaluateCondition(r, c, a)
  {
    hide PythonReaders, CanTurn, IsLeaf, Blocked, Resolve, Compare;
    if c.operator == Exists { ExistenceStays(r, c, a, b); } else { FieldStays(r, c, a, b); }
  }

  /** A decided rule stays decided the same way when fields are learned. */
  lemma DecidedRulesStay(r: Readers, e: Expression, a: Json, b: Json)
    requires Extends(a, b) && RuleLooksAtFixed(r, e, a)
    requires EvaluateRule(r, e, a).value != Unresolved
    ensures EvaluateRule(r, e, b).value == EvaluateRule(r, e, a).value
  {
    hide EvaluateCondition, Extends, LooksAtFixed;
    forall c | c in e.conditions && EvaluateCondition(r, c, a).value != Unresolved
      ensures EvaluateCondition(r, c, b).value == EvaluateCondition(r, c, a).value
    {
      DecidedConditionsStay(r, c, a, b);
    }
  }

  ghost predicate ConstraintsLookAtFixed(r: Readers, rules: seq<Constraint>, context: Json) {
    forall i :: 0 <= i < |rules| ==> RuleLooksAtFixed(r, rules[i].rule, context)
  }

  ghost predicate AntiFitsLookAtFixed(r: Readers, rules: seq<AntiFit>, context: Json) {
    forall i :: 0 <= i < |rules| ==> RuleLooksAtFixed(r, rules[i].rule, context)
  }

  lemma {:induction false} BuyerPassageStays(r: Readers, rules: seq<Constraint>, exceptions: set<string>, a: Json, b: Json, used: bool)
    requires Extends(a, b) && ConstraintsLookAtFixed(r, rules, a)
    requires var p := BuyerPassage(r, rules, exceptions, a, used); p.Passed? || p.verdict.status == SiraIneligible
    ensures BuyerPassage(r, rules, exceptions, b, used) == BuyerPassage(r, rules, exceptions, a, used)
    decreases |rules|
  {
    hide EvaluateRule, RuleLooksAtFixed, Extends;
    if rules != [] {
      assert RuleLooksAtFixed(r, rules[0].rule, a);
      DecidedRulesStay(r, rules[0].rule, a, b);
      if EvaluateRule(r, rules[0].rule, a).value == IsTrue {
        BuyerPassageStays(r, rules[1..], exceptions, a, b, used);
      } else if rules[0].exceptionAllowed && rules[0].id in exceptions {
        BuyerPassageStays(r, rules[1..], exceptions, a, b, true);
      }
    }
  }

  lemma {:induction false} SellerPassageStays(r: Readers, rules: seq<AntiFit>, a: Json, b: Json)
    requires Extends(a, b) && AntiFitsLookAtFixed(r, rules, a)
    requires var p := SellerPassage(r, rules, a); p.Passed? || p.verdict.status == SeilPass
    ensures SellerPassage(r, rules, b) == SellerPassage(r, rules, a)
    decreases |rules|
  {
    hide EvaluateRule, RuleLooksAtFixed, Extends;
    if rules != [] {
      assert RuleLooksAtFixed(r, rules[0].rule, a);
      DecidedRulesStay(r, rules[0].rule, a, b);
      if EvaluateRule(r, rules[0].rule, a).value == IsFalse {
        SellerPassageStays(r, rules[1..], a, b);
      }
    }
  }

  /** Decided verdicts survive learning more: a candidate that is eligible, eligible with an exception, refused by
      the buyer's rules or passed by the seller keeps its status, its code and the rule that decided it. */
  lemma DecidedVerdictsStay(r: Readers, c: Candidate, buyer: Json, seller: Json, buyer1: Json, seller1: Json)
    requires Extends(buyer, buyer1) && Extends(seller, seller1)
    requires ConstraintsLookAtFixed(r, c.constraints, buyer) && AntiFitsLookAtFixed(r, c.antiFits, seller)
    requires VerdictOf(r, c, buyer, seller).status in {Eligible, EligibleWithException, SiraIneligible, SeilPass}
    ensures VerdictOf(r, c, buyer1, seller1) == VerdictOf(r, c, buyer, seller)
  {
    hide BuyerPassage, SellerPassage, Extends, ConstraintsLookAtFixed, AntiFitsLookAtFixed;
    if c.available && c.evidenceBlock.None? {
      var p := BuyerPassage(r, c.constraints, c.exceptions, buyer, false);
      BuyerStopsWith(r, c.constraints, c.exceptions, buyer, false);
      SellerStopsWith(r, c.antiFits, seller);
      BuyerPassageStays(r, c.constraints, c.exceptions, buyer, buyer1, false);
      if p.Passed? { SellerPassageStays(r, c.antiFits, seller, seller1); }
    }
  }

  lemma {:induction false} BuyerStopsWith(r: Readers, rules: seq<Constraint>, exceptions: set<string>, context: Json, used: bool)
    ensures var p := BuyerPassage(r, rules, exceptions, context, used);
      p.Stopped? ==> p.verdict.status == InsufficientEvidence || p.verdict.status == SiraIneligible
    decreases |rules|
  {
    hide EvaluateRule;
    if rules != [] {
      BuyerStopsWith(r, rules[1..], exceptions, context, used);
      BuyerStopsWith(r, rules[1..], exceptions, context, true);
    }
  }

  lemma {:induction false} SellerStopsWith(r: Readers, rules: seq<AntiFit>, context: Json)
    ensures var p := SellerPassage(r, rules, context);
      p.Stopped? ==> p.verdict.status == SeilPass || p.verdict.status == Conditional
    decreases |rules|
  {
    hide EvaluateRule;
    if rules != [] { SellerStopsWith(r, rules[1..], context); }
  }

  /** A condition about existence can turn around when its field is learned. */
  lemma ExistenceCanTurn(r: Readers)
    ensures var c: Condition := ConditionFields(["f"], Exists, Bool(false));
      var a, b := Object(map[]), Object(map["f" := Bool(true)]);
      && Extends(a, b)
      && EvaluateCondition(r, c, a).value == IsTrue && EvaluateCondition(r, c, b).value == IsFalse
  {
    var c: Condition := ConditionFields(["f"], Exists, Bool(false));
    assert c.field[1..] == [];
    assert Resolve(Object(map["f" := Bool(true)]), ["f"]) == Resolve(Bool(true), []);
  }

  lemma FieldIsThere(m: Json)
    ensures Resolve(Object(map["f" := m]), ["f"]) == Some(m)
  {
    assert ["f"][1..] == [];
    assert Resolve(Object(map["f" := m]), ["f"]) == Resolve(m, []);
  }

  lemma SeenOfField(r: Readers, c: Condition, m: Json, n: Json)
    requires PythonReaders(r) && c.field == ["f"] && m.Object? && n.Object?
    ensures var truth := EvaluateCondition(r, c, Object(map["f" := m])).value;
      && (c.operator in {Eq, In} ==> truth == TruthOf(Hits(m, Targets(c))))
      && (c.operator == Contains && c.value.Str? ==> truth == TruthOf(c.value.text in m.fields))
  {
    FieldIsThere(m);
    hide Compare, Hits, Resolve, PythonReaders;
    if c.operator != Exists { MappingVerdict(r, c, m, n); }
  }

  /** So can an equality with a mapping that gains a field, a membership in a list and a membership of a key. */
  lemma MappingsCanTurn(r: Readers)
    requires PythonReaders(r)
    ensures var inner := Object(map[]);
      var equal: Condition := ConditionFields(["f"], Eq, inner);
      var listed: Condition := ConditionFields(["f"], In, List([inner]));
      var keyed: Condition := ConditionFields(["f"], Contains, Str("g"));
      var a, b := Object(map["f" := inner]), Object(map["f" := Object(map["g" := Null])]);
      && Extends(a, b)
      && EvaluateCondition(r, equal, a).value == IsTrue && EvaluateCondition(r, equal, b).value == IsFalse
      && EvaluateCondition(r, listed, a).value == IsTrue && EvaluateCondition(r, listed, b).value == IsFalse
      && EvaluateCondition(r, keyed, a).value == IsFalse && EvaluateCondition(r, keyed, b).value == IsTrue
  {
    var inner, grown := Object(map[]), Object(map["g" := Null]);
    var equal: Condition := ConditionFields(["f"], Eq, inner);
    var listed: Condition := ConditionFields(["f"], In, List([inner]));
    var keyed: Condition := ConditionFields(["f"], Contains, Str("g"));
    assert "g" in grown.fields.Keys && PyEqual(inner, inner) && !PyEqual(grown, inner);
    FieldIsThere(inner);
    FieldIsThere(grown);
    assert Extends(inner, grown);
    assert Hits(inner, [inner]) by { assert [inner][0] == inner; }
    assert !Hits(grown, [inner]);
    hide PyEqual, Hits, Compare, Resolve, Extends, PythonReaders, EvaluateCondition;
    SeenOfField(r, equal, inner, grown);
    SeenOfField(r, equal, grown, inner);
    SeenOfField(r, listed, inner, grown);
    SeenOfField(r, listed, grown, inner);
    SeenOfField(r, keyed, inner, grown);
    SeenOfField(r, keyed, grown, inner);
  }
}
