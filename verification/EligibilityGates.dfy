/** Deterministic eligibility gates: every gate looks at the facts of every component, and the worst reason of
    all gates is the status of the plan. */
module EligibilityGates {
  import opened Outcomes
  import opened Ordering
  import opened EvidenceAssessments

  // ---------- facts and predicates ----------

  datatype Value = Text(text: string) | Number(number: int) | Flag(flag: bool) | Nothing | Texts(texts: seq<string>)

  datatype Operator = Eq | Neq | In | ContainsAll | Lte | Lt | Gte | Gt | Exists | Other(name: string)

  datatype Predicate = Predicate(field: string, operator: Operator, value: Value)

  datatype EvaluationError = UnsupportedOperator | NotANumber

  /** The exact number a value stands for in a comparison; text is parsed by the given reader. */
  function NumberOf(read: string -> Option<real>, v: Value): Option<real> {
    match v
    case Number(n) => Some(n as real)
    case Text(t) => read(t)
    case _ => None
  }

  predicate Comparable(v: Value) {
    v.Number? || v.Text?
  }

  function Matches(read: string -> Option<real>, value: Value, p: Predicate): Result<bool, EvaluationError> {
    match p.operator
    case Eq => Success(value == p.value)
    case Neq => Success(value != p.value)
    case In => Success(p.value.Texts? && value.Text? && value.text in p.value.texts)
    case ContainsAll => Success(value.Texts? && p.value.Texts? && forall x :: x in p.value.texts ==> x in value.texts)
    case Exists => Success(value != Nothing)
    case Other(_) => Failure(UnsupportedOperator)
    case _ =>
      if !Comparable(value) || !Comparable(p.value) then Success(false)
      else if NumberOf(read, value).None? || NumberOf(read, p.value).None? then Failure(NotANumber)
      else
        var left, right := NumberOf(read, value).value, NumberOf(read, p.value).value;
        match p.operator
        case Lte => Success(left <= right)
        case Lt => Success(left < right)
        case Gte => Success(left >= right)
        case _ => Success(left > right)
  }

  datatype Fact = Fact(field: string, value: Value, evidence: set<string>, component: Option<string>)

  datatype FieldState = FieldState(values: set<Value>, state: EvidenceState)

  type Index = map<Pair, EvidenceState>

  /** The facts of one field. */
  function Matching(facts: seq<Fact>, field: string): (r: set<Fact>)
    ensures forall f :: f in r <==> f in facts && f.field == field
  {
    set f | f in facts && f.field == field
  }

  function StatesOf(facts: set<Fact>, field: string, index: Index): (r: set<EvidenceState>)
    ensures forall s :: s in r <==>
      exists f, e :: f in facts && e in f.evidence && Pair(e, field) in index && index[Pair(e, field)] == s
  {
    set f, e | f in facts && e in f.evidence && Pair(e, field) in index :: index[Pair(e, field)]
  }

  function ValuesOf(facts: set<Fact>): (r: set<Value>)
    ensures forall v :: v in r <==> exists f :: f in facts && f.value == v
  {
    set f | f in facts :: f.value
  }

  function StateOfField(facts: seq<Fact>, field: string, index: Index): FieldState {
    var matching := Matching(facts, field);
    if matching == {} then FieldState({}, Unproven)
    else
      var states, values := StatesOf(matching, field, index), ValuesOf(matching);
      FieldState(values,
        if Disputed in states || |values| > 1 then Disputed
        else if Acceptable in states then Acceptable
        else if Stale in states then Stale
        else Unproven)
  }

  // ---------- gates ----------

  datatype Status =
    | Unavailable | ConflictingEvidence | StaleEvidence | InsufficientEvidence | SiraIneligible | SeilPass
    | AuthorityRequired | AdvisoryOnly | Conditional | EligibleWithException | Eligible

  /** The precedence of statuses: the smallest wins. */
  function Rank(s: Status): nat {
    match s
    case Unavailable => 0 case ConflictingEvidence => 1 case StaleEvidence => 2 case InsufficientEvidence => 3
    case SiraIneligible => 4 case SeilPass => 5 case AuthorityRequired => 6 case AdvisoryOnly => 7
    case Conditional => 8 case EligibleWithException => 9 case Eligible => 10
  }

  datatype Reason = Reason(code: string, status: Status, detail: string)

  datatype Truth = IsTrue | IsFalse | IsUnknown | InConflict

  datatype Mode = RequireMatch | BlockOnMatch

  datatype Action = ReuseExisting | NoAction | Buy | Renew | Resize | Cancel | Replace | Consolidate

  datatype GateFields = GateFields(
    id: string, predicates: seq<Predicate>, mode: Mode, blocked: Status, code: string,
    sourceFacts: set<string>, actions: set<Action>, claims: set<string>)

  /** A gate has a predicate, and blocks with a status that is not eligible. */
  type Gate = g: GateFields | g.predicates != [] && g.blocked != Eligible
    witness GateFields("g", [Predicate("f", Eq, Nothing)], RequireMatch, SiraIneligible, "c", {}, {}, {})

  datatype Authority = SellerSealed | PlatformCompiled | ExternalUnsealed

  datatype Material = Material(
    sourceId: string, action: Action, components: seq<string>, facts: seq<Fact>, available: bool,
    authority: Option<Authority>, sellerGates: set<string>, dependencyIssues: seq<string>)

  datatype GateResult = GateResult(id: string, truth: Truth, reasons: set<Reason>)

  /** What evaluation reads besides the gate and the plan. */
  datatype Context = Context(
    buyer: map<string, Value>, activeFacts: set<string>, index: Index, read: string -> Option<real>)

  predicate IsSeller(g: Gate) {
    g.blocked == SeilPass
  }

  predicate Applies(g: Gate, m: Material, activeFacts: set<string>) {
    && (g.sourceFacts == {} || g.sourceFacts <= activeFacts)
    && (g.actions == {} || m.action in g.actions)
    && (IsSeller(g) ==> g.id in m.sellerGates)
  }

  function FactsOf(m: Material, component: string): (r: seq<Fact>) {
    OfComponent(m.facts, component)
  }

  function OfComponent(facts: seq<Fact>, component: string): (r: seq<Fact>)
    ensures forall f :: f in r <==> f in facts && f.component == Some(component)
  {
    if facts == [] then []
    else
      assert forall f :: f in facts <==> f == facts[0] || f in facts[1..];
      (if facts[0].component == Some(component) then [facts[0]] else []) + OfComponent(facts[1..], component)
  }

  /** The facts a gate reads for the k-th component: all of them when there is only one component. */
  function Visible(m: Material, k: nat): seq<Fact>
    requires k < |m.components|
  {
    if |m.components| == 1 then m.facts else FactsOf(m, m.components[k])
  }

  function ComponentStates(m: Material, field: string, index: Index): (r: seq<FieldState>)
    ensures |r| == |m.components|
    ensures forall k :: 0 <= k < |r| ==> r[k] == StateOfField(Visible(m, k), field, index)
  {
    seq(|m.components|, k requires 0 <= k < |m.components| => StateOfField(Visible(m, k), field, index))
  }

  /** The truths and the reasons one look adds. */
  datatype Observation = Observation(truths: set<Truth>, reasons: set<Reason>)

  function Join(a: Observation, b: Observation): Observation {
    Observation(a.truths + b.truths, a.reasons + b.reasons)
  }

  function SellerEvidence(g: Gate, index: Index): Observation {
    if !IsSeller(g) || g.claims == {} then Observation({}, {})
    else
      var states := set p | p in index && p.evidence in g.claims :: index[p];
      Observation(
        (if states == {} || Unproven in states || Stale in states then {IsUnknown} else {})
        + (if Disputed in states then {InConflict} else {}),
        (if states == {} || Unproven in states
         then {Reason("INSUFFICIENT_SELLER_RULE_EVIDENCE", InsufficientEvidence, "")} else {})
        + (if Stale in states then {Reason("STALE_SELLER_RULE_EVIDENCE", StaleEvidence, "")} else {})
        + (if Disputed in states then {Reason("CONFLICTING_SELLER_RULE_EVIDENCE", ConflictingEvidence, "")} else {}))
  }

  /** Every value of a component satisfies the predicate. */
  predicate HoldsFor(s: FieldState, p: Predicate, read: string -> Option<real>) {
    forall v :: v in s.values ==> Matches(read, v, p) == Success(true)
  }

  predicate SomeRaises(states: seq<FieldState>, p: Predicate, read: string -> Option<real>) {
    exists s, v :: s in states && v in s.values && Matches(read, v, p).Failure?
  }

  predicate Somewhere(states: seq<FieldState>, state: EvidenceState) {
    exists s :: s in states && s.state == state
  }

  /** The truths of a decided predicate: one for every component. */
  function Decided(states: seq<FieldState>, p: Predicate, read: string -> Option<real>): set<Truth> {
    set s | s in states :: if HoldsFor(s, p, read) then IsTrue else IsFalse
  }

  function Observe(g: Gate, m: Material, c: Context, p: Predicate): Result<Observation, EvaluationError> {
    if IsSeller(g) then
      if p.field !in c.buyer then
        Success(Observation({IsUnknown}, {Reason("SELLER_CONDITION_UNRESOLVED", Conditional, p.field)}))
      else
        match Matches(c.read, c.buyer[p.field], p)
        case Failure(e) => Failure(e)
        case Success(holds) => Success(Observation({if holds then IsTrue else IsFalse}, {}))
    else
      var states := ComponentStates(m, p.field, c.index);
      if Somewhere(states, Disputed) then
        Success(Observation({InConflict}, {Reason("CONFLICTING_EVIDENCE", ConflictingEvidence, p.field)}))
      else if Somewhere(states, Stale) then
        Success(Observation({IsUnknown}, {Reason("STALE_EVIDENCE", StaleEvidence, p.field)}))
      else if Somewhere(states, Unproven) || exists s :: s in states && s.values == {} then
        Success(Observation({IsUnknown}, {Reason("INSUFFICIENT_EVIDENCE", InsufficientEvidence, p.field)}))
      else if SomeRaises(states, p, c.read) then Failure(if p.operator.Other? then UnsupportedOperator else NotANumber)
      else Success(Observation(Decided(states, p, c.read), {}))
  }

  function ObserveAll(g: Gate, m: Material, c: Context, predicates: seq<Predicate>, seen: Observation): Result<Observation, EvaluationError>
    decreases |predicates|
  {
    if predicates == [] then Success(seen)
    else
      match Observe(g, m, c, predicates[0])
      case Failure(e) => Failure(e)
      case Success(o) => ObserveAll(g, m, c, predicates[1..], Join(seen, o))
  }

  function Conclude(g: Gate, o: Observation): GateResult {
    if InConflict in o.truths then GateResult(g.id, InConflict, o.reasons)
    else if g.mode == RequireMatch then
      if IsFalse in o.truths then
        GateResult(g.id, IsFalse, o.reasons + {Reason(g.code, g.blocked, "Required predicate failed")})
      else if IsUnknown in o.truths then GateResult(g.id, IsUnknown, o.reasons)
      else GateResult(g.id, IsTrue, o.reasons)
    else if IsFalse in o.truths then GateResult(g.id, IsTrue, o.reasons)
    else if IsUnknown in o.truths then GateResult(g.id, IsUnknown, o.reasons)
    else GateResult(g.id, IsFalse, o.reasons + {Reason(g.code, g.blocked, "Blocking predicate matched")})
  }

  /** The verdict of one gate; a comparison of something that is no number raises. */
  function Evaluated(g: Gate, m: Material, c: Context): Result<GateResult, EvaluationError> {
    match ObserveAll(g, m, c, g.predicates, SellerEvidence(g, c.index))
    case Failure(e) => Failure(e)
    case Success(o) => Success(Conclude(g, o))
  }

  // ---------- the evaluation loop ----------

  /** A gate over the components reads the state of the field in each of them. */
  method ObserveComponents(g: Gate, m: Material, c: Context, p: Predicate) returns (r: Result<Observation, EvaluationError>)
    requires !IsSeller(g)
    ensures r == Observe(g, m, c, p)
  {
    hide Matches, HoldsFor, ComponentStates, Decided;
    var states := ComponentStates(m, p.field, c.index);
    if Somewhere(states, Disputed) {
      return Success(Observation({InConflict}, {Reason("CONFLICTING_EVIDENCE", ConflictingEvidence, p.field)}));
    }
    if Somewhere(states, Stale) {
      return Success(Observation({IsUnknown}, {Reason("STALE_EVIDENCE", StaleEvidence, p.field)}));
    }
    if Somewhere(states, Unproven) || exists s :: s in states && s.values == {} {
      return Success(Observation({IsUnknown}, {Reason("INSUFFICIENT_EVIDENCE", InsufficientEvidence, p.field)}));
    }
    if SomeRaises(states, p, c.read) {
      return Failure(if p.operator.Other? then UnsupportedOperator else NotANumber);
    }
    var truths := DecideComponents(states, p, c.read);
    return Success(Observation(truths, {}));
  }

  method DecideComponents(states: seq<FieldState>, p: Predicate, read: string -> Option<real>) returns (truths: set<Truth>)
    ensures truths == Decided(states, p, read)
  {
    hide HoldsFor, Decided;
    truths := {};
    DecidedNone(p, read);
    for k := 0 to |states|
      invariant truths == Decided(states[..k], p, read)
    {
      assert states[..k + 1] == states[..k] + [states[k]];
      var holds := HoldsFor(states[k], p, read);
      DecidedOneMore(states[..k], states[k], p, read);
      truths := truths + {if holds then IsTrue else IsFalse};
    }
    assert states[..|states|] == states;
  }

  lemma DecidedNone(p: Predicate, read: string -> Option<real>)
    ensures Decided([], p, read) == {}
  {}

  lemma DecidedOneMore(states: seq<FieldState>, s: FieldState, p: Predicate, read: string -> Option<real>)
    ensures Decided(states + [s], p, read) == Decided(states, p, read)
      + {if HoldsFor(s, p, read) then IsTrue else IsFalse}
  {
    hide HoldsFor;
    assert forall x :: x in states + [s] <==> x in states || x == s;
  }

  /** One gate: the seller evidence first, then every predicate, then the mode decides. */
  method EvaluateGate(g: Gate, m: Material, c: Context) returns (r: Result<GateResult, EvaluationError>)
    ensures r == Evaluated(g, m, c)
  {
    hide Observe, SellerEvidence, Conclude;
    var seen := SellerEvidence(g, c.index);
    assert g.predicates[0..] == g.predicates;
    for i := 0 to |g.predicates|
      invariant ObserveAll(g, m, c, g.predicates, SellerEvidence(g, c.index)) == ObserveAll(g, m, c, g.predicates[i..], seen)
    {
      var p := g.predicates[i];
      assert g.predicates[i..][1..] == g.predicates[i + 1..];
      var look;
      if IsSeller(g) {
        look := ObserveBuyer(g, m, c, p);
      } else {
        look := ObserveComponents(g, m, c, p);
      }
      if look.Failure? { return Failure(look.error); }
      seen := Join(seen, look.value);
    }
    return Success(Conclude(g, seen));
  }

  /** A gate of the seller reads the sanitized facts of the buyer. */
  method ObserveBuyer(g: Gate, m: Material, c: Context, p: Predicate) returns (r: Result<Observation, EvaluationError>)
    requires IsSeller(g)
    ensures r == Observe(g, m, c, p)
  {
    if p.field !in c.buyer {
      return Success(Observation({IsUnknown}, {Reason("SELLER_CONDITION_UNRESOLVED", Conditional, p.field)}));
    }
    var holds := Matches(c.read, c.buyer[p.field], p);
    if holds.Failure? { return Failure(holds.error); }
    return Success(Observation({if holds.value then IsTrue else IsFalse}, {}));
  }

  // ---------- all gates of a plan ----------

  function InsertGate(g: Gate, gates: seq<Gate>): (r: seq<Gate>)
    ensures multiset(r) == multiset(gates) + multiset{g}
  {
    if gates == [] then [g]
    else
      assert gates == [gates[0]] + gates[1..];
      if AtMost(g.id, gates[0].id) then [g] + gates else [gates[0]] + InsertGate(g, gates[1..])
  }

  function InOrder(gates: seq<Gate>): (r: seq<Gate>)
    ensures multiset(r) == multiset(gates)
  {
    if gates == [] then [] else
      assert gates == [gates[0]] + gates[1..];
      InsertGate(gates[0], InOrder(gates[1..]))
  }

  function Availability(m: Material): GateResult {
    if m.available then GateResult(m.sourceId, IsTrue, {})
    else GateResult(m.sourceId, IsFalse, {Reason("UNAVAILABLE", Unavailable, "Action is unavailable")})
  }

  function Dependencies(m: Material): seq<GateResult> {
    seq(|m.dependencyIssues|, i requires 0 <= i < |m.dependencyIssues| =>
      GateResult(m.sourceId, IsFalse, {Reason(m.dependencyIssues[i], SiraIneligible, "")}))
  }

  function AuthorityGate(m: Material): seq<GateResult> {
    if m.authority.None? || m.authority.value == SellerSealed then []
    else [GateResult(m.sourceId, IsFalse, {Reason("SELLER_AUTHORITY_REQUIRED", AdvisoryOnly, "")})]
  }

  function BuiltIn(m: Material): seq<GateResult> {
    [Availability(m)] + Dependencies(m) + AuthorityGate(m)
  }

  function ApplyGates(gates: seq<Gate>, m: Material, c: Context, done: seq<GateResult>): Result<seq<GateResult>, EvaluationError>
    decreases |gates|
  {
    if gates == [] then Success(done)
    else if !Applies(gates[0], m, c.activeFacts) then ApplyGates(gates[1..], m, c, done)
    else
      match Evaluated(gates[0], m, c)
      case Failure(e) => Failure(e)
      case Success(r) => ApplyGates(gates[1..], m, c, done + [r])
  }

  function ResultsOf(gates: seq<Gate>, m: Material, c: Context): Result<seq<GateResult>, EvaluationError> {
    ApplyGates(InOrder(gates), m, c, BuiltIn(m))
  }

  method EvaluateGates(gates: seq<Gate>, m: Material, c: Context) returns (r: Result<seq<GateResult>, EvaluationError>)
    ensures r == ResultsOf(gates, m, c)
  {
    hide Applies, Evaluated, BuiltIn;
    var ordered := InOrder(gates);
    var results := BuiltIn(m);
    assert ordered[0..] == ordered;
    for i := 0 to |ordered|
      invariant ResultsOf(gates, m, c) == ApplyGates(ordered[i..], m, c, results)
    {
      assert ordered[i..][1..] == ordered[i + 1..];
      if Applies(ordered[i], m, c.activeFacts) {
        var result := EvaluateGate(ordered[i], m, c);
        if result.Failure? { return Failure(result.error); }
        results := results + [result.value];
      }
    }
    return Success(results);
  }

  // ---------- the status of a plan ----------

  function AllReasons(results: seq<GateResult>): (r: set<Reason>)
    ensures forall x :: x in r <==> exists g :: g in results && x in g.reasons
  {
    set g, x | g in results && x in g.reasons :: x
  }

  const PRECEDENCE: seq<Status> := [
    Unavailable, ConflictingEvidence, StaleEvidence, InsufficientEvidence, SiraIneligible, SeilPass,
    AuthorityRequired, AdvisoryOnly, Conditional, EligibleWithException, Eligible]

  function FirstStatus(reasons: set<Reason>, order: seq<Status>): Status {
    if order == [] then Eligible
    else if exists x :: x in reasons && x.status == order[0] then order[0]
    else FirstStatus(reasons, order[1..])
  }

  /** The status with the smallest rank among all reasons, and ELIGIBLE without a reason. */
  function PrimaryStatus(results: seq<GateResult>): Status {
    FirstStatus(AllReasons(results), PRECEDENCE)
  }
}
