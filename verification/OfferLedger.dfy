/** The negotiation ledger: offer versions chained by hash, and approvals bound to one exact offer. The hash of
    an offer is its hashed payload, so equal hashes mean equal terms. Money is in cents, times in seconds. */
module OfferLedger {
  import opened Outcomes

  datatype Party = Buyer | Seller | System

  datatype Status = Pending | Approved | Rejected | Revoked | Superseded

  datatype Line = Line(itemId: string, description: string, quantity: nat, unitPrice: nat)

  datatype TermName = CurrencyTerm | LinesTerm | TotalTerm | RequirementTerm | EvidenceTerm

  /** The hash of an offer, or some other hash a client may name. */
  datatype Hash = OfTerms(terms: Terms) | Other(text: string)

  datatype Terms = Terms(
    offerId: string, caseId: string, version: nat, proposer: Party, recipient: Party, predecessor: Option<Hash>,
    changed: seq<TermName>, rationale: string, currency: string, lines: seq<Line>, total: nat, expires: int,
    requirement: string, evidence: string)

  function Total(lines: seq<Line>): nat {
    if lines == [] then 0 else lines[0].unitPrice * lines[0].quantity + Total(lines[1..])
  }

  predicate TermsOk(t: Terms) {
    && t.version >= 1
    && t.proposer != System && t.recipient != System && t.proposer != t.recipient
    && (t.version == 1 ==> t.predecessor == None)
    && (t.version > 1 ==> t.predecessor != None && t.changed != [])
    && (forall i, j :: 0 <= i < j < |t.changed| ==> t.changed[i] != t.changed[j])
    && t.lines != [] && (forall i, j :: 0 <= i < j < |t.lines| ==> t.lines[i].itemId != t.lines[j].itemId)
    && t.total == Total(t.lines)
  }

  datatype OfferFields = OfferFields(terms: Terms, status: Status)

  /** An offer version, as its validator admits it. */
  type Offer = o: OfferFields | TermsOk(o.terms)
    witness OfferFields(
      Terms("o", "c", 1, Buyer, Seller, None, [], "r", "USD", [Line("i", "d", 1, 0)], 0, 0, "q", "e"), Pending)

  datatype ApprovalFields = ApprovalFields(
    id: string, caseId: string, hash: Hash, approver: string, approvedAt: int, expires: int)

  /** An approval expires after it was given. */
  type Approval = a: ApprovalFields | a.expires > a.approvedAt
    witness ApprovalFields("a", "c", Other("h"), "p", 0, 1)

  /** A row: the stored offer, and the status column that follows its approval. */
  datatype Row = Row(offer: Offer, status: Status)

  /** The rows of every case in the order they were stored, and the approvals. */
  datatype Ledger = Ledger(offers: map<string, seq<Row>>, approvals: seq<Approval>)

  datatype Error = Conflict | NotFound | IntegrityViolation | ContractViolation

  datatype Outcome<+R> = Refused(error: Error) | Done(ledger: Ledger, result: R)

  function RowsOf(l: Ledger, c: string): seq<Row> {
    if c in l.offers then l.offers[c] else []
  }

  /** The row with the highest version, or -1. */
  function Latest(rows: seq<Row>): (r: int)
    ensures -1 <= r < |rows| && (r == -1 <==> rows == [])
    ensures r >= 0 ==> forall i :: 0 <= i < |rows| ==> rows[i].offer.terms.version <= rows[r].offer.terms.version
  {
    if rows == [] then -1
    else
      var earlier := Latest(rows[..|rows| - 1]);
      if earlier >= 0 && rows[earlier].offer.terms.version > rows[|rows| - 1].offer.terms.version then earlier else |rows| - 1
  }

  // ---------- counteroffers ----------

  predicate SameTerm(a: Terms, b: Terms, name: TermName) {
    match name
    case CurrencyTerm => a.currency == b.currency
    case LinesTerm => a.lines == b.lines
    case TotalTerm => a.total == b.total
    case RequirementTerm => a.requirement == b.requirement
    case EvidenceTerm => a.evidence == b.evidence
  }

  /** The next offer binds the current one, alternates the parties and names exactly what it changes. */
  predicate Counters(previous: Terms, current: Terms) {
    && current.caseId == previous.caseId && current.offerId == previous.offerId
    && current.version == previous.version + 1
    && current.predecessor == Some(OfTerms(previous))
    && current.proposer == previous.recipient && current.recipient == previous.proposer
    && forall name: TermName :: name in current.changed <==> !SameTerm(previous, current, name)
  }

  const TERM_NAMES: seq<TermName> := [CurrencyTerm, LinesTerm, TotalTerm, RequirementTerm, EvidenceTerm]

  method ValidateCounteroffer(previous: Terms, current: Terms) returns (valid: bool)
    ensures valid <==> Counters(previous, current)
  {
    if current.caseId != previous.caseId || current.offerId != previous.offerId { return false; }
    if current.version != previous.version + 1 { return false; }
    if current.predecessor != Some(OfTerms(previous)) { return false; }
    if current.proposer != previous.recipient || current.recipient != previous.proposer { return false; }
    var actual: set<TermName> := {};
    for i := 0 to |TERM_NAMES|
      invariant forall name :: name in actual <==> name in TERM_NAMES[..i] && !SameTerm(previous, current, name)
    {
      if !SameTerm(previous, current, TERM_NAMES[i]) { actual := actual + {TERM_NAMES[i]}; }
    }
    forall name: TermName ensures name in TERM_NAMES { EveryTermIsListed(name); }
    assert TERM_NAMES[..|TERM_NAMES|] == TERM_NAMES;
    assert forall name :: name in actual <==> !SameTerm(previous, current, name);
    return (set name | name in current.changed) == actual;
  }

  lemma EveryTermIsListed(name: TermName)
    ensures name in TERM_NAMES
  {
    match name
    case CurrencyTerm => assert TERM_NAMES[0] == name;
    case LinesTerm => assert TERM_NAMES[1] == name;
    case TotalTerm => assert TERM_NAMES[2] == name;
    case RequirementTerm => assert TERM_NAMES[3] == name;
    case EvidenceTerm => assert TERM_NAMES[4] == name;
  }

  // ---------- the two operations ----------

  predicate RowExists(l: Ledger, offerId: string, version: nat) {
    exists c, i :: c in l.offers && 0 <= i < |l.offers[c]|
      && l.offers[c][i].offer.terms.offerId == offerId && l.offers[c][i].offer.terms.version == version
  }

  predicate Stored(rows: seq<Row>, t: Terms) {
    exists i :: 0 <= i < |rows| && rows[i].offer.terms == t
  }

  /** Supersedes the current version, if any, and appends the new one. */
  function Append(l: Ledger, o: Offer): Ledger {
    var c := o.terms.caseId;
    var rows := RowsOf(l, c);
    var closed := if rows == [] then [] else rows[Latest(rows) := rows[Latest(rows)].(status := Superseded)];
    l.(offers := l.offers[c := closed + [Row(o, o.status)]])
  }

  function Storing(l: Ledger, o: Offer): Outcome<Terms> {
    var rows := RowsOf(l, o.terms.caseId);
    if Stored(rows, o.terms) then Done(l, o.terms)
    else if rows == [] && o.terms.version != 1 then Refused(Conflict)
    else if rows != [] && !Counters(rows[Latest(rows)].offer.terms, o.terms) then Refused(Conflict)
    else if rows != [] && rows[Latest(rows)].status == Approved then Refused(Conflict)
    else if RowExists(l, o.terms.offerId, o.terms.version) then Refused(IntegrityViolation)
    else Done(Append(l, o), o.terms)
  }

  predicate ApprovalStored(approvals: seq<Approval>, c: string, hash: Hash) {
    exists i :: 0 <= i < |approvals| && approvals[i].caseId == c && approvals[i].hash == hash
  }

  /** An approval binds the exact offer, and both are still in force. */
  predicate Authorizes(a: Approval, o: Offer, now: int) {
    && a.caseId == o.terms.caseId && a.hash == OfTerms(o.terms)
    && now < a.expires && now < o.terms.expires
    && o.status == Pending
  }

  function Approving(l: Ledger, a: Approval, now: int): Outcome<Hash> {
    var rows := RowsOf(l, a.caseId);
    if ApprovalStored(l.approvals, a.caseId, a.hash) then Done(l, a.hash)
    else if rows == [] then Refused(NotFound)
    else if !Authorizes(a, rows[Latest(rows)].offer, now) then Refused(ContractViolation)
    else if exists x :: x in l.approvals && x.id == a.id then Refused(IntegrityViolation)
    else
      var approved := rows[Latest(rows) := rows[Latest(rows)].(status := Approved)];
      Done(Ledger(l.offers[a.caseId := approved], l.approvals + [a]), a.hash)
  }

  function Reply<R>(outcome: Outcome<R>): Result<R, Error> {
    match outcome
    case Done(_, result) => Success(result)
    case Refused(error) => Failure(error)
  }

  function After<R>(l: Ledger, outcome: Outcome<R>): Ledger {
    if outcome.Done? then outcome.ledger else l
  }

  /** The repository: two tables updated in place. */
  class OfferRepository {
    var offers: map<string, seq<Row>>
    var approvals: seq<Approval>

    function Contents(): Ledger
      reads this
    {
      Ledger(offers, approvals)
    }

    constructor ()
      ensures Contents() == Ledger(map[], [])
    {
      offers, approvals := map[], [];
    }

    method StoreOffer(o: Offer) returns (r: Result<Terms, Error>)
      modifies this`offers
      ensures Contents() == After(old(Contents()), Storing(old(Contents()), o))
      ensures r == Reply(Storing(old(Contents()), o))
    {
      var c := o.terms.caseId;
      var rows := if c in offers then offers[c] else [];
      if Stored(rows, o.terms) { return Success(o.terms); }
      var latest := Latest(rows);
      if latest < 0 {
        if o.terms.version != 1 { return Failure(Conflict); }
      } else {
        var valid := ValidateCounteroffer(rows[latest].offer.terms, o.terms);
        if !valid { return Failure(Conflict); }
        if rows[latest].status == Approved { return Failure(Conflict); }
      }
      if RowExists(Contents(), o.terms.offerId, o.terms.version) { return Failure(IntegrityViolation); }
      if latest >= 0 { rows := rows[latest := rows[latest].(status := Superseded)]; }
      offers := offers[c := rows + [Row(o, o.status)]];
      return Success(o.terms);
    }

    method ApproveOffer(a: Approval, now: int) returns (r: Result<Hash, Error>)
      modifies this
      ensures Contents() == After(old(Contents()), Approving(old(Contents()), a, now))
      ensures r == Reply(Approving(old(Contents()), a, now))
    {
      if ApprovalStored(approvals, a.caseId, a.hash) { return Success(a.hash); }
      var rows := if a.caseId in offers then offers[a.caseId] else [];
      var latest := Latest(rows);
      if latest < 0 { return Failure(NotFound); }
      if !Authorizes(a, rows[latest].offer, now) { return Failure(ContractViolation); }
      if exists x :: x in approvals && x.id == a.id { return Failure(IntegrityViolation); }
      approvals := approvals + [a];
      offers := offers[a.caseId := rows[latest := rows[latest].(status := Approved)]];
      return Success(a.hash);
    }
  }

  // ---------- the invariant ----------

  predicate ChainOk(rows: seq<Row>, c: string) {
    && (forall i :: 0 <= i < |rows| ==>
          rows[i].offer.terms.caseId == c && rows[i].offer.terms.version == i + 1 && rows[i].offer.status == Pending)
    && (forall i :: 0 <= i < |rows| - 1 ==> Counters(rows[i].offer.terms, rows[i + 1].offer.terms))
  }

  predicate StatusesOk(rows: seq<Row>) {
    && (forall i :: 0 <= i < |rows| - 1 ==> rows[i].status == Superseded)
    && (rows != [] ==> rows[|rows| - 1].status == Pending || rows[|rows| - 1].status == Approved)
  }

  predicate IsApproved(rows: seq<Row>) {
    rows != [] && rows[|rows| - 1].status == Approved
  }

  predicate HasApproval(approvals: seq<Approval>, c: string) {
    exists i :: 0 <= i < |approvals| && approvals[i].caseId == c
  }

  predicate BindsLatest(l: Ledger, a: Approval) {
    var rows := RowsOf(l, a.caseId);
    IsApproved(rows) && a.hash == OfTerms(rows[|rows| - 1].offer.terms)
  }

  /** A case has an approval exactly when its latest offer is approved, and it binds that offer. */
  predicate ApprovalsOk(l: Ledger) {
    && (forall i :: 0 <= i < |l.approvals| ==> BindsLatest(l, l.approvals[i]))
    && (forall c :: c in l.offers && IsApproved(l.offers[c]) ==> HasApproval(l.approvals, c))
    && (forall i, j :: 0 <= i < j < |l.approvals| ==> l.approvals[i].caseId != l.approvals[j].caseId)
  }

  predicate LedgerOk(l: Ledger) {
    && (forall c :: c in l.offers ==> ChainOk(l.offers[c], c) && StatusesOk(l.offers[c]))
    && ApprovalsOk(l)
  }

  lemma LatestIsLast(rows: seq<Row>, c: string)
    requires ChainOk(rows, c)
    ensures Latest(rows) == |rows| - 1
  {
    if rows != [] {
      assert rows[|rows| - 1].offer.terms.version == |rows|;
    }
  }

  lemma StoringKeepsChain(rows: seq<Row>, o: Offer, c: string)
    requires ChainOk(rows, c) && StatusesOk(rows) && o.terms.caseId == c && o.status == Pending
    requires rows == [] ==> o.terms.version == 1
    requires rows != [] ==> Counters(rows[|rows| - 1].offer.terms, o.terms)
    ensures var closed := if rows == [] then [] else rows[|rows| - 1 := rows[|rows| - 1].(status := Superseded)];
      ChainOk(closed + [Row(o, o.status)], c) && StatusesOk(closed + [Row(o, o.status)])
  {
    assert o.terms.version == |rows| + 1;
    hide Counters;
  }

  lemma StoringKeepsOk(l: Ledger, o: Offer)
    requires LedgerOk(l) && o.status == Pending
    ensures LedgerOk(After(l, Storing(l, o)))
  {
    hide ChainOk, StatusesOk, Counters;
    var c, rows := o.terms.caseId, RowsOf(l, o.terms.caseId);
    EmptyIsOk(c);
    LatestIsLast(rows, c);
    if Storing(l, o).Done? && !Stored(rows, o.terms) {
      StoringKeepsChain(rows, o, c);
      var l1 := Append(l, o);
      StoringKeepsApprovals(l, o);
    }
  }

  lemma StoringKeepsApprovals(l: Ledger, o: Offer)
    requires ApprovalsOk(l) && o.status == Pending && !IsApproved(RowsOf(l, o.terms.caseId))
    ensures ApprovalsOk(Append(l, o))
  {
    var c, l1 := o.terms.caseId, Append(l, o);
    assert l1.offers[c][|l1.offers[c]| - 1] == Row(o, Pending);
    forall i | 0 <= i < |l1.approvals| ensures BindsLatest(l1, l1.approvals[i]) {
      assert BindsLatest(l, l.approvals[i]);
    }
  }

  lemma EmptyIsOk(c: string)
    ensures ChainOk([], c) && StatusesOk([])
  {}

  lemma ApprovingKeepsChain(rows: seq<Row>, c: string)
    requires ChainOk(rows, c) && StatusesOk(rows) && rows != []
    ensures var approved := rows[|rows| - 1 := rows[|rows| - 1].(status := Approved)];
      ChainOk(approved, c) && StatusesOk(approved)
  {
    hide Counters;
  }

  lemma ApprovingKeepsApprovals(l: Ledger, a: Approval, l1: Ledger)
    requires ApprovalsOk(l) && !ApprovalStored(l.approvals, a.caseId, a.hash) && RowsOf(l, a.caseId) != []
    requires var rows := RowsOf(l, a.caseId);
      && a.hash == OfTerms(rows[|rows| - 1].offer.terms)
      && l1 == Ledger(l.offers[a.caseId := rows[|rows| - 1 := rows[|rows| - 1].(status := Approved)]], l.approvals + [a])
    ensures ApprovalsOk(l1)
  {
    forall i | 0 <= i < |l.approvals| ensures l.approvals[i].caseId != a.caseId {
      assert BindsLatest(l, l.approvals[i]);
    }
    forall i | 0 <= i < |l1.approvals| ensures BindsLatest(l1, l1.approvals[i]) {
      if i < |l.approvals| { assert BindsLatest(l, l.approvals[i]); }
    }
    forall c | c in l1.offers && IsApproved(l1.offers[c]) ensures HasApproval(l1.approvals, c) {
      if c == a.caseId {
        assert l1.approvals[|l.approvals|] == a;
      } else {
        var i :| 0 <= i < |l.approvals| && l.approvals[i].caseId == c;
        assert l1.approvals[i].caseId == c;
      }
    }
  }

  lemma ApprovingKeepsOk(l: Ledger, a: Approval, now: int)
    requires LedgerOk(l)
    ensures LedgerOk(After(l, Approving(l, a, now)))
  {
    hide Counters, ApprovalsOk, ChainOk, StatusesOk, ApprovalStored;
    var c, rows := a.caseId, RowsOf(l, a.caseId);
    EmptyIsOk(c);
    LatestIsLast(rows, c);
    if Approving(l, a, now).Done? && !ApprovalStored(l.approvals, c, a.hash) {
      ApprovingKeepsChain(rows, c);
      ApprovingKeepsApprovals(l, a, Approving(l, a, now).ledger);
    }
  }

  // ---------- runs ----------

  datatype Operation = Store(offer: Offer) | Approve(approval: Approval, now: int)

  function Apply(l: Ledger, op: Operation): Ledger {
    match op
    case Store(o) => After(l, Storing(l, o))
    case Approve(a, now) => After(l, Approving(l, a, now))
  }

  function Run(l: Ledger, ops: seq<Operation>): Ledger
    decreases |ops|
  {
    if ops == [] then l else Run(Apply(l, ops[0]), ops[1..])
  }

  /** Offers enter the ledger pending. */
  predicate EnterPending(ops: seq<Operation>) {
    forall i :: 0 <= i < |ops| && ops[i].Store? ==> ops[i].offer.status == Pending
  }

  /** No run leaves the ledger invariant. */
  lemma {:induction false} RunKeepsOk(l: Ledger, ops: seq<Operation>)
    requires LedgerOk(l) && EnterPending(ops)
    ensures LedgerOk(Run(l, ops))
    decreases |ops|
  {
    hide LedgerOk;
    if ops != [] {
      assert LedgerOk(Apply(l, ops[0])) by {
        match ops[0] {
          case Store(o) => StoringKeepsOk(l, o);
          case Approve(a, now) => ApprovingKeepsOk(l, a, now);
        }
      }
      RunKeepsOk(Apply(l, ops[0]), ops[1..]);
    }
  }

  const EMPTY := Ledger(map[], [])

  /** Every ledger reached from the empty one: versions are 1..n without gaps, each counters its predecessor,
      an offer is approved exactly when it is the latest of a case that has an approval, superseded exactly when
      it is not the latest, and the approval carries the hash of that latest offer. */
  lemma EveryLedgerIsOk(ops: seq<Operation>, c: string)
    requires EnterPending(ops) && c in Run(EMPTY, ops).offers
    ensures var l := Run(EMPTY, ops); var rows := l.offers[c];
      && (forall i :: 0 <= i < |rows| ==> rows[i].offer.terms.caseId == c && rows[i].offer.terms.version == i + 1)
      && (forall i :: 0 <= i < |rows| - 1 ==> Counters(rows[i].offer.terms, rows[i + 1].offer.terms))
      && (forall i :: 0 <= i < |rows| ==>
            && (rows[i].status == Approved <==> i == |rows| - 1 && HasApproval(l.approvals, c))
            && (rows[i].status == Superseded <==> i < |rows| - 1))
      && (forall a :: a in l.approvals && a.caseId == c ==> rows != [] && a.hash == OfTerms(rows[|rows| - 1].offer.terms))
  {
    hide Counters, Run, HasApproval;
    RunKeepsOk(EMPTY, ops);
    var l := Run(EMPTY, ops);
    forall i | 0 <= i < |l.offers[c]|
      ensures l.offers[c][i].status == Approved <==> i == |l.offers[c]| - 1 && HasApproval(l.approvals, c)
      ensures l.offers[c][i].status == Superseded <==> i < |l.offers[c]| - 1
    {
      OnlyLatestIsApproved(l, c, i);
    }
    forall a | a in l.approvals && a.caseId == c
      ensures l.offers[c] != [] && a.hash == OfTerms(l.offers[c][|l.offers[c]| - 1].offer.terms)
    {
      assert BindsLatest(l, a);
    }
  }

  // ---------- consequences ----------

  /** The proposer is fixed by the parity of the version. */
  lemma {:induction false} ProposerByParity(rows: seq<Row>, c: string, i: nat)
    requires ChainOk(rows, c) && i < |rows|
    ensures rows[i].offer.terms.proposer == if i % 2 == 0 then rows[0].offer.terms.proposer else rows[0].offer.terms.recipient
    ensures rows[i].offer.terms.recipient == if i % 2 == 0 then rows[0].offer.terms.recipient else rows[0].offer.terms.proposer
    ensures rows[i].offer.terms.offerId == rows[0].offer.terms.offerId
  {
    if i > 0 {
      ProposerByParity(rows, c, i - 1);
      assert Counters(rows[i - 1].offer.terms, rows[i - 1 + 1].offer.terms);
    }
  }

  /** At most one offer of a case is approved, it is the latest, and every other one is superseded. */
  lemma OnlyLatestIsApproved(l: Ledger, c: string, i: nat)
    requires LedgerOk(l) && c in l.offers && i < |l.offers[c]|
    ensures l.offers[c][i].status == Approved <==> i == |l.offers[c]| - 1 && HasApproval(l.approvals, c)
    ensures l.offers[c][i].status == Superseded <==> i < |l.offers[c]| - 1
  {
    hide ChainOk;
    var rows := l.offers[c];
    if HasApproval(l.approvals, c) {
      var k :| 0 <= k < |l.approvals| && l.approvals[k].caseId == c;
      assert BindsLatest(l, l.approvals[k]);
    }
  }

  lemma ApprovedRefusesOffers(l: Ledger, c: string, o: Offer)
    requires ChainOk(RowsOf(l, c), c) && IsApproved(RowsOf(l, c))
    ensures RowsOf(After(l, Storing(l, o)), c) == RowsOf(l, c)
  {
    hide Counters, ChainOk, RowExists;
    LatestIsLast(RowsOf(l, c), c);
  }

  lemma ApprovedIgnoresApprovals(l: Ledger, c: string, a: Approval, now: int)
    requires LedgerOk(l) && IsApproved(RowsOf(l, c))
    ensures RowsOf(After(l, Approving(l, a, now)), c) == RowsOf(l, c)
  {
    LatestApprovalIsStored(l, c);
    LatestIsLast(RowsOf(l, c), c);
    hide Counters, StatusesOk, ChainOk, ApprovalsOk, ApprovalStored, HasApproval;
  }

  lemma LatestApprovalIsStored(l: Ledger, c: string)
    requires LedgerOk(l) && IsApproved(RowsOf(l, c))
    ensures var rows := RowsOf(l, c); ApprovalStored(l.approvals, c, OfTerms(rows[|rows| - 1].offer.terms))
  {
    hide ChainOk, StatusesOk;
    var k :| 0 <= k < |l.approvals| && l.approvals[k].caseId == c;
    assert BindsLatest(l, l.approvals[k]);
  }

  lemma ApprovedStays(l: Ledger, op: Operation, c: string)
    requires LedgerOk(l) && IsApproved(RowsOf(l, c))
    ensures RowsOf(Apply(l, op), c) == RowsOf(l, c)
  {
    hide ChainOk, Storing, Approving;
    match op
    case Store(o) => ApprovedRefusesOffers(l, c, o);
    case Approve(a, now) => ApprovedIgnoresApprovals(l, c, a, now);
  }

  /** An approval freezes the negotiation: no run changes the rows of the case any more. */
  lemma {:induction false} ApprovalFreezesLedger(l: Ledger, ops: seq<Operation>, c: string)
    requires LedgerOk(l) && EnterPending(ops) && IsApproved(RowsOf(l, c))
    ensures RowsOf(Run(l, ops), c) == RowsOf(l, c)
    decreases |ops|
  {
    hide LedgerOk, IsApproved, RowsOf, Apply;
    if ops != [] {
      assert RowsOf(Apply(l, ops[0]), c) == RowsOf(l, c) by { ApprovedStays(l, ops[0], c); }
      assert Run(l, [ops[0]]) == Apply(l, ops[0]) by { assert [ops[0]][1..] == []; }
      RunKeepsOk(l, [ops[0]]);
      ApprovalFreezesLedger(Apply(l, ops[0]), ops[1..], c);
    }
  }

  function History(rows: seq<Row>): (r: seq<Terms>)
    ensures |r| == |rows|
    ensures forall i :: 0 <= i < |r| ==> r[i] == rows[i].offer.terms
  {
    seq(|rows|, i requires 0 <= i < |rows| => rows[i].offer.terms)
  }

  /** The hash of the latest offer fixes the whole history. */
  lemma {:induction false} HeadHashFixesHistory(a: seq<Row>, b: seq<Row>, c: string, d: string)
    requires ChainOk(a, c) && ChainOk(b, d) && a != [] && b != []
    requires OfTerms(a[|a| - 1].offer.terms) == OfTerms(b[|b| - 1].offer.terms)
    ensures History(a) == History(b)
    decreases |a|
  {
    assert a[|a| - 1].offer.terms.version == |a| && b[|b| - 1].offer.terms.version == |b|;
    if |a| > 1 {
      var x, y := a[..|a| - 1], b[..|b| - 1];
      HeadNamesPrevious(a, c);
      HeadNamesPrevious(b, d);
      hide ChainOk, Counters;
      HeadHashFixesHistory(x, y, c, d);
      assert History(a) == History(x) + [a[|a| - 1].offer.terms];
      assert History(b) == History(y) + [b[|b| - 1].offer.terms];
    }
  }

  /** The latest offer of a longer chain names the hash of the one before, which ends a shorter chain. */
  lemma HeadNamesPrevious(rows: seq<Row>, c: string)
    requires ChainOk(rows, c) && |rows| > 1
    ensures ChainOk(rows[..|rows| - 1], c)
    ensures rows[|rows| - 1].offer.terms.predecessor == Some(OfTerms(rows[|rows| - 2].offer.terms))
  {
    assert Counters(rows[|rows| - 2].offer.terms, rows[|rows| - 2 + 1].offer.terms);
    hide Counters;
  }

  /** Storing a stored offer again changes nothing and answers the same. */
  lemma StoringIsIdempotent(l: Ledger, o: Offer)
    requires Storing(l, o).Done?
    ensures Storing(Storing(l, o).ledger, o) == Done(Storing(l, o).ledger, o.terms)
  {
    var l1 := Storing(l, o).ledger;
    var rows := RowsOf(l1, o.terms.caseId);
    if !Stored(RowsOf(l, o.terms.caseId), o.terms) {
      assert rows[|rows| - 1].offer.terms == o.terms;
    }
  }

  /** A new approval binds the latest offer of its case, unexpired; repeating it changes nothing. */
  lemma ApprovalBindsLatest(l: Ledger, a: Approval, now: int)
    requires LedgerOk(l) && Approving(l, a, now).Done?
    ensures var l1 := Approving(l, a, now).ledger;
      && RowsOf(l1, a.caseId) != [] && IsApproved(RowsOf(l1, a.caseId))
      && a.hash == OfTerms(RowsOf(l1, a.caseId)[|RowsOf(l1, a.caseId)| - 1].offer.terms)
      && (l1 != l ==> now < a.expires && now < a.hash.terms.expires)
      && forall later :: Approving(l1, a, later) == Done(l1, a.hash)
  {
    hide ChainOk, StatusesOk, Counters, ApprovalsOk, IsApproved, BindsLatest, ApprovalStored;
    ApprovingKeepsOk(l, a, now);
    var l1 := Approving(l, a, now).ledger;
    ApprovalIsStored(l, a, now);
    StoredApprovalBinds(l1, a.caseId, a.hash);
    if l1 != l { NewApprovalIsInForce(l, a, now); }
  }

  lemma ApprovalIsStored(l: Ledger, a: Approval, now: int)
    requires Approving(l, a, now).Done?
    ensures ApprovalStored(Approving(l, a, now).ledger.approvals, a.caseId, a.hash)
  {
    hide Authorizes;
    var approvals := Approving(l, a, now).ledger.approvals;
    assert ApprovalStored(l.approvals, a.caseId, a.hash) || approvals[|l.approvals|] == a;
  }

  lemma StoredApprovalBinds(l: Ledger, c: string, hash: Hash)
    requires ApprovalsOk(l) && ApprovalStored(l.approvals, c, hash)
    ensures RowsOf(l, c) != [] && IsApproved(RowsOf(l, c)) && hash == OfTerms(RowsOf(l, c)[|RowsOf(l, c)| - 1].offer.terms)
  {
    var k :| 0 <= k < |l.approvals| && l.approvals[k].caseId == c && l.approvals[k].hash == hash;
    assert BindsLatest(l, l.approvals[k]);
  }

  lemma NewApprovalIsInForce(l: Ledger, a: Approval, now: int)
    requires Approving(l, a, now).Done? && Approving(l, a, now).ledger != l
    ensures a.hash.OfTerms? && now < a.expires && now < a.hash.terms.expires
  {
    hide ApprovalStored;
  }
}
