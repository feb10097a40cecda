/** When an offer is stored or approved, and what it leaves, told by the rows of its case. */
module LedgerOutcomes {
  import opened Outcomes
  import opened OfferLedger

  // ---------- what an offer is ----------

  /** Quantity times price, added up line by line. */
  ghost function Worth(lines: seq<Line>): nat
    decreases |lines|
  {
    if lines == [] then 0
    else Worth(lines[..|lines| - 1]) + lines[|lines| - 1].quantity * lines[|lines| - 1].unitPrice
  }

  lemma {:induction false} WorthFromLeft(lines: seq<Line>)
    requires lines != []
    ensures Worth(lines) == lines[0].unitPrice * lines[0].quantity + Worth(lines[1..])
    decreases |lines|
  {
    var n := |lines| - 1;
    if n > 0 {
      WorthFromLeft(lines[..n]);
      assert lines[..n][1..] == lines[1..][..n - 1];
    } else {
      assert lines[..n] == [] && lines[1..] == [];
    }
  }

  lemma {:induction false} TotalExactly(lines: seq<Line>)
    ensures Total(lines) == Worth(lines)
  {
    if lines != [] {
      TotalExactly(lines[1..]);
      WorthFromLeft(lines);
    }
  }

  ghost predicate AreDifferent(lines: seq<Line>) {
    forall i, j :: 0 <= i < |lines| && 0 <= j < |lines| && lines[i].itemId == lines[j].itemId ==> i == j
  }

  /** An offer is between the buyer and the seller; the first version has no predecessor, every later one has one and
      names a change, no change twice; its lines are of different items and make its total. */
  lemma TermsExactly(t: Terms)
    ensures TermsOk(t) <==>
      && ((t.proposer == Buyer && t.recipient == Seller) || (t.proposer == Seller && t.recipient == Buyer))
      && t.version >= 1 && (t.version == 1 <==> t.predecessor == None) && (t.version != 1 ==> t.changed != [])
      && (forall i, j :: 0 <= i < |t.changed| && 0 <= j < |t.changed| && t.changed[i] == t.changed[j] ==> i == j)
      && t.lines != [] && AreDifferent(t.lines) && t.total == Worth(t.lines)
  {
    TotalExactly(t.lines);
    hide Total, Worth;
  }

  // ---------- counteroffers ----------

  /** The terms named as changed are exactly those that differ. */
  ghost predicate NamesChanges(previous: Terms, current: Terms) {
    && (CurrencyTerm in current.changed <==> current.currency != previous.currency)
    && (LinesTerm in current.changed <==> current.lines != previous.lines)
    && (TotalTerm in current.changed <==> current.total != previous.total)
    && (RequirementTerm in current.changed <==> current.requirement != previous.requirement)
    && (EvidenceTerm in current.changed <==> current.evidence != previous.evidence)
  }

  ghost predicate IsCounter(previous: Terms, current: Terms) {
    && current.caseId == previous.caseId && current.offerId == previous.offerId && current.version == previous.version + 1
    && current.predecessor == Some(OfTerms(previous))
    && current.proposer == previous.recipient && current.recipient == previous.proposer
    && NamesChanges(previous, current)
  }

  /** A counteroffer is the next version of the same offer, bound to the hash of the current one, with the parties
      exchanged, and names exactly the terms that differ. */
  lemma CountersExactly(previous: Terms, current: Terms)
    ensures Counters(previous, current) <==> IsCounter(previous, current)
  {
    assert Counters(previous, current) ==> NamesChanges(previous, current) by {
      assert Counters(previous, current) ==> (CurrencyTerm in current.changed <==> !SameTerm(previous, current, CurrencyTerm));
      assert Counters(previous, current) ==> (LinesTerm in current.changed <==> !SameTerm(previous, current, LinesTerm));
      assert Counters(previous, current) ==> (TotalTerm in current.changed <==> !SameTerm(previous, current, TotalTerm));
      assert Counters(previous, current) ==> (RequirementTerm in current.changed <==> !SameTerm(previous, current, RequirementTerm));
      assert Counters(previous, current) ==> (EvidenceTerm in current.changed <==> !SameTerm(previous, current, EvidenceTerm));
    }
  }

  // ---------- storing ----------

  ghost predicate HasRows(l: Ledger, c: string) {
    c in l.offers && l.offers[c] != []
  }

  /** The latest version of the case, which the ledger keeps last. */
  ghost function LastRow(l: Ledger, c: string): Row
    requires HasRows(l, c)
  {
    l.offers[c][|l.offers[c]| - 1]
  }

  ghost predicate IsStored(l: Ledger, t: Terms) {
    HasRows(l, t.caseId) && exists row :: row in l.offers[t.caseId] && row.offer.terms == t
  }

  /** Some case has this version of an offer of this identifier. */
  ghost predicate IsTaken(l: Ledger, t: Terms) {
    exists c, row :: c in l.offers && row in l.offers[c] && row.offer.terms.offerId == t.offerId && row.offer.terms.version == t.version
  }

  /** The first version opens a case; any other counters its latest one, which is not approved. */
  ghost predicate Follows(l: Ledger, t: Terms) {
    if HasRows(l, t.caseId)
    then IsCounter(LastRow(l, t.caseId).offer.terms, t) && LastRow(l, t.caseId).status != Approved
    else t.version == 1
  }

  /** The row before is superseded, the new one stands last, and every other row and approval stays. */
  ghost predicate Stores(l: Ledger, l1: Ledger, o: Offer) {
    var c := o.terms.caseId;
    var n := if HasRows(l, c) then |l.offers[c]| else 0;
    && l1.approvals == l.approvals && l1.offers.Keys == l.offers.Keys + {c}
    && (forall d :: d in l.offers && d != c ==> l1.offers[d] == l.offers[d])
    && |l1.offers[c]| == n + 1 && l1.offers[c][n] == Row(o, o.status)
    && (forall i :: 0 <= i < n ==>
          l1.offers[c][i].offer == l.offers[c][i].offer
          && l1.offers[c][i].status == if i == n - 1 then Superseded else l.offers[c][i].status)
  }

  lemma StoredExactly(l: Ledger, t: Terms)
    ensures Stored(RowsOf(l, t.caseId), t) <==> IsStored(l, t)
    ensures RowExists(l, t.offerId, t.version) <==> IsTaken(l, t)
  {
    if IsStored(l, t) {
      var row :| row in l.offers[t.caseId] && row.offer.terms == t;
      var i :| 0 <= i < |l.offers[t.caseId]| && l.offers[t.caseId][i] == row;
      assert RowsOf(l, t.caseId)[i].offer.terms == t;
    }
    if IsTaken(l, t) {
      var c, row :| c in l.offers && row in l.offers[c] && row.offer.terms.offerId == t.offerId && row.offer.terms.version == t.version;
      var i :| 0 <= i < |l.offers[c]| && l.offers[c][i] == row;
    }
  }

  lemma LatestRow(l: Ledger, c: string)
    requires LedgerOk(l)
    ensures RowsOf(l, c) != [] <==> HasRows(l, c)
    ensures HasRows(l, c) ==> Latest(RowsOf(l, c)) == |l.offers[c]| - 1
  {
    if HasRows(l, c) { LatestIsLast(l.offers[c], c); }
    hide Latest;
  }

  lemma AppendStores(l: Ledger, o: Offer)
    requires RowsOf(l, o.terms.caseId) != [] ==> Latest(RowsOf(l, o.terms.caseId)) == |RowsOf(l, o.terms.caseId)| - 1
    ensures Stores(l, Append(l, o), o)
  {
    hide Latest;
  }

  /** In every ledger an offer is stored exactly when it opens its case or counters the latest version, which is not
      approved, and no row has its identifier and version; a stored offer is answered without a change. */
  lemma StoringExactly(l: Ledger, o: Offer)
    requires LedgerOk(l)
    ensures var r := Storing(l, o);
      && (r.Done? <==> IsStored(l, o.terms) || (Follows(l, o.terms) && !IsTaken(l, o.terms)))
      && (r == Refused(Conflict) <==> !IsStored(l, o.terms) && !Follows(l, o.terms))
      && (r == Refused(IntegrityViolation) <==> !IsStored(l, o.terms) && Follows(l, o.terms) && IsTaken(l, o.terms))
      && (r.Done? ==> r.result == o.terms && if IsStored(l, o.terms) then r.ledger == l else Stores(l, r.ledger, o))
      && Apply(l, Store(o)) == if r.Done? then r.ledger else l
  {
    StoredExactly(l, o.terms);
    LatestRow(l, o.terms.caseId);
    AppendStores(l, o);
    if HasRows(l, o.terms.caseId) { CountersExactly(LastRow(l, o.terms.caseId).offer.terms, o.terms); }
    hide LedgerOk, Stored, IsStored, RowExists, IsTaken, Append, Stores, Counters, IsCounter, Latest;
  }

  // ---------- approving ----------

  ghost predicate IsAnswered(l: Ledger, a: Approval) {
    exists x :: x in l.approvals && x.caseId == a.caseId && x.hash == a.hash
  }

  /** The approval names the latest version by its hash, and both are in force. */
  ghost predicate IsInForce(l: Ledger, a: Approval, now: int) {
    && HasRows(l, a.caseId)
    && var o := LastRow(l, a.caseId).offer;
       a.hash == OfTerms(o.terms) && now < a.expires && now < o.terms.expires
  }

  /** The latest row is approved, the approval recorded, and every other row and approval stays. */
  ghost predicate Approves(l: Ledger, l1: Ledger, a: Approval) {
    && HasRows(l, a.caseId)
    && var n := |l.offers[a.caseId]|;
       && l1.approvals == l.approvals + [a] && l1.offers.Keys == l.offers.Keys
       && (forall d :: d in l.offers && d != a.caseId ==> l1.offers[d] == l.offers[d])
       && |l1.offers[a.caseId]| == n && l1.offers[a.caseId][..n - 1] == l.offers[a.caseId][..n - 1]
       && l1.offers[a.caseId][n - 1] == Row(l.offers[a.caseId][n - 1].offer, Approved)
  }

  lemma AnsweredExactly(l: Ledger, a: Approval)
    ensures ApprovalStored(l.approvals, a.caseId, a.hash) <==> IsAnswered(l, a)
  {
    if IsAnswered(l, a) {
      var x :| x in l.approvals && x.caseId == a.caseId && x.hash == a.hash;
      var i :| 0 <= i < |l.approvals| && l.approvals[i] == x;
    }
  }

  lemma InForceExactly(l: Ledger, a: Approval, now: int)
    requires LedgerOk(l) && HasRows(l, a.caseId)
    ensures Authorizes(a, LastRow(l, a.caseId).offer, now) <==> IsInForce(l, a, now)
  {
    assert ChainOk(l.offers[a.caseId], a.caseId);
    hide Counters;
  }

  /** In every ledger an approval commits exactly when it names the latest version of its case, both are in force, and
      its identifier is new; one that was stored for the same offer is answered without a change. */
  lemma ApprovingExactly(l: Ledger, a: Approval, now: int)
    requires LedgerOk(l)
    ensures var r := Approving(l, a, now); var taken := exists x :: x in l.approvals && x.id == a.id;
      && (r.Done? <==> IsAnswered(l, a) || (IsInForce(l, a, now) && !taken))
      && (r == Refused(NotFound) <==> !IsAnswered(l, a) && !HasRows(l, a.caseId))
      && (r == Refused(ContractViolation) <==> !IsAnswered(l, a) && HasRows(l, a.caseId) && !IsInForce(l, a, now))
      && (r == Refused(IntegrityViolation) <==> !IsAnswered(l, a) && IsInForce(l, a, now) && taken)
      && (r.Done? ==> r.result == a.hash && if IsAnswered(l, a) then r.ledger == l else Approves(l, r.ledger, a))
      && Apply(l, Approve(a, now)) == if r.Done? then r.ledger else l
  {
    AnsweredExactly(l, a);
    LatestRow(l, a.caseId);
    if HasRows(l, a.caseId) { InForceExactly(l, a, now); }
    hide LedgerOk, ApprovalStored, IsAnswered, Authorizes, Latest;
  }
}
