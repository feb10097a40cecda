/** The coordinator of a two-party exchange: party commands compiled against a transition table. */
module ExchangeCoordinator {
  import opened Outcomes

  datatype Phase =
    | Created | RequirementReleased | EvidenceReleased | Offered | Countered
    | AgreedPendingApproval | ApprovedForHandoff | WasRejected | WasExpired

  datatype Kind =
    | ReleaseRequirement | PublishEvidence | ProposeOffer | CounterOffer | AcceptOffer | AcceptCounter
    | ApproveHandoff | Reject | Expire

  datatype Party = Buyer | Seller | System

  /** The one party that may issue a kind of command. */
  function Owner(k: Kind): Party {
    match k
    case ReleaseRequirement | ProposeOffer | AcceptCounter => Buyer
    case PublishEvidence | CounterOffer | AcceptOffer => Seller
    case ApproveHandoff | Reject | Expire => System
  }

  datatype CommandFields = CommandFields(id: string, caseId: string, party: Party, kind: Kind, expected: nat, payload: string)

  /** A command, as its validator admits it. */
  type Command = c: CommandFields | c.expected >= 1 && c.party == Owner(c.kind)
    witness CommandFields("x", "c", System, Reject, 1, "")

  datatype State = State(
    caseId: string, phase: Phase, version: nat, requirement: Option<string>, evidence: Option<string>,
    offer: Option<string>, approval: Option<string>, lastCommand: Option<string>)

  datatype Error = AnotherCase | StaleVersion | InvalidCommand

  function Opened(caseId: string): State {
    State(caseId, Created, 1, None, None, None, None, None)
  }

  function Target(phase: Phase, kind: Kind): Option<Phase> {
    if kind == Reject then Some(WasRejected)
    else if kind == Expire then Some(WasExpired)
    else if phase == Created && kind == ReleaseRequirement then Some(RequirementReleased)
    else if phase == RequirementReleased && kind == PublishEvidence then Some(EvidenceReleased)
    else if phase == EvidenceReleased && kind == ProposeOffer then Some(Offered)
    else if phase == Offered && kind == CounterOffer then Some(Countered)
    else if phase == Offered && kind == AcceptOffer then Some(AgreedPendingApproval)
    else if phase == Countered && kind == AcceptCounter then Some(AgreedPendingApproval)
    else if phase == AgreedPendingApproval && kind == ApproveHandoff then Some(ApprovedForHandoff)
    else None
  }

  function Compile(s: State, c: Command): Result<State, Error> {
    if c.caseId != s.caseId then Failure(AnotherCase)
    else if c.expected != s.version then Failure(StaleVersion)
    else if Target(s.phase, c.kind).None? then Failure(InvalidCommand)
    else
      var moved := s.(phase := Target(s.phase, c.kind).value, version := s.version + 1, lastCommand := Some(c.id));
      Success(
        match c.kind
        case ReleaseRequirement => moved.(requirement := Some(c.payload))
        case PublishEvidence => moved.(evidence := Some(c.payload))
        case ProposeOffer | CounterOffer => moved.(offer := Some(c.payload))
        case ApproveHandoff => moved.(approval := Some(c.payload))
        case _ => moved)
  }

  /** A refused command leaves the coordinator as it was. */
  function Next(s: State, c: Command): State {
    if Compile(s, c).Success? then Compile(s, c).value else s
  }

  function Run(caseId: string, commands: seq<Command>): State
    decreases |commands|
  {
    if commands == [] then Opened(caseId) else Next(Run(caseId, commands[..|commands| - 1]), commands[|commands| - 1])
  }

  /** The commands of the run that were accepted. */
  function Accepted(caseId: string, commands: seq<Command>): seq<Command>
    decreases |commands|
  {
    if commands == [] then []
    else
      var earlier, last := commands[..|commands| - 1], commands[|commands| - 1];
      Accepted(caseId, earlier) + if Compile(Run(caseId, earlier), last).Success? then [last] else []
  }

  function Kinds(commands: seq<Command>): (r: seq<Kind>)
    ensures |r| == |commands|
  {
    seq(|commands|, i requires 0 <= i < |commands| => commands[i].kind)
  }

  const UNTIL_OFFER: seq<Kind> := [ReleaseRequirement, PublishEvidence, ProposeOffer]

  /** The only histories that lead to a phase; after a rejection or an expiry anything may have come before. */
  predicate LeadsTo(kinds: seq<Kind>, phase: Phase) {
    match phase
    case Created => kinds == []
    case RequirementReleased => kinds == [ReleaseRequirement]
    case EvidenceReleased => kinds == [ReleaseRequirement, PublishEvidence]
    case Offered => kinds == UNTIL_OFFER
    case Countered => kinds == UNTIL_OFFER + [CounterOffer]
    case AgreedPendingApproval => kinds == UNTIL_OFFER + [AcceptOffer] || kinds == UNTIL_OFFER + [CounterOffer, AcceptCounter]
    case ApprovedForHandoff =>
      kinds == UNTIL_OFFER + [AcceptOffer, ApproveHandoff] || kinds == UNTIL_OFFER + [CounterOffer, AcceptCounter, ApproveHandoff]
    case WasRejected | WasExpired => kinds != []
  }

  /** Every run: the version counts the accepted commands, and the accepted commands are a history of the phase. So a
      handoff is approved only after a requirement, evidence and an offer, and an acceptance by the party that did
      not make the standing offer. */
  lemma {:induction false} HistoriesLeadToPhases(caseId: string, commands: seq<Command>)
    ensures var s, accepted := Run(caseId, commands), Accepted(caseId, commands);
      && s.caseId == caseId && s.version == 1 + |accepted|
      && LeadsTo(Kinds(accepted), s.phase)
    decreases |commands|
  {
    if commands != [] {
      var earlier, last := commands[..|commands| - 1], commands[|commands| - 1];
      HistoriesLeadToPhases(caseId, earlier);
      if Compile(Run(caseId, earlier), last).Success? {
        var accepted := Accepted(caseId, earlier);
        assert Kinds(accepted + [last]) == Kinds(accepted) + [last.kind];
        OneMoreLeads(Kinds(accepted), Run(caseId, earlier).phase, last.kind);
      }
    }
  }

  lemma OneMoreLeads(kinds: seq<Kind>, phase: Phase, kind: Kind)
    requires LeadsTo(kinds, phase) && Target(phase, kind).Some?
    ensures LeadsTo(kinds + [kind], Target(phase, kind).value)
  {
    assert UNTIL_OFFER + [CounterOffer] + [AcceptCounter] == UNTIL_OFFER + [CounterOffer, AcceptCounter];
    assert UNTIL_OFFER + [AcceptOffer] + [ApproveHandoff] == UNTIL_OFFER + [AcceptOffer, ApproveHandoff];
    assert UNTIL_OFFER + [CounterOffer, AcceptCounter] + [ApproveHandoff] == UNTIL_OFFER + [CounterOffer, AcceptCounter, ApproveHandoff];
  }

  /** Of two commands that expect the same version, a run accepts at most one. */
  lemma {:induction false} AcceptedVersionsDiffer(caseId: string, commands: seq<Command>, i: nat, j: nat)
    requires i < j < |Accepted(caseId, commands)|
    ensures Accepted(caseId, commands)[i].expected == i + 1
    ensures Accepted(caseId, commands)[j].expected == j + 1
    decreases |commands|
  {
    AcceptedExpectsItsPlace(caseId, commands, i);
    AcceptedExpectsItsPlace(caseId, commands, j);
  }

  lemma {:induction false} AcceptedExpectsItsPlace(caseId: string, commands: seq<Command>, i: nat)
    requires i < |Accepted(caseId, commands)|
    ensures Accepted(caseId, commands)[i].expected == i + 1
    decreases |commands|
  {
    var earlier, last := commands[..|commands| - 1], commands[|commands| - 1];
    HistoriesLeadToPhases(caseId, earlier);
    if i < |Accepted(caseId, earlier)| { AcceptedExpectsItsPlace(caseId, earlier, i); }
  }

  // ---------- what the case file holds ----------

  /** The payload of the last accepted command of one of these kinds. */
  ghost predicate IsLastPayload(accepted: seq<Command>, kinds: set<Kind>, payload: string) {
    exists i :: IsLastOf(accepted, kinds, i) && accepted[i].payload == payload
  }

  ghost predicate IsLastOf(accepted: seq<Command>, kinds: set<Kind>, i: int) {
    0 <= i < |accepted| && accepted[i].kind in kinds && forall j :: i < j < |accepted| ==> accepted[j].kind !in kinds
  }

  /** The slot holds the last payload of its kinds, and nothing when there was none. */
  ghost predicate Records(slot: Option<string>, accepted: seq<Command>, kinds: set<Kind>) {
    match slot
    case Some(payload) => IsLastPayload(accepted, kinds, payload)
    case None => forall i :: 0 <= i < |accepted| ==> accepted[i].kind !in kinds
  }

  lemma RecordsOneMore(slot: Option<string>, accepted: seq<Command>, kinds: set<Kind>, c: Command)
    requires Records(slot, accepted, kinds)
    ensures Records(if c.kind in kinds then Some(c.payload) else slot, accepted + [c], kinds)
  {
    var more := accepted + [c];
    if c.kind in kinds {
      assert IsLastOf(more, kinds, |accepted|);
    } else if slot.Some? {
      var i :| IsLastOf(accepted, kinds, i) && accepted[i].payload == slot.value;
      assert IsLastOf(more, kinds, i);
    }
  }

  /** Every run: the requirement, the evidence and the approval are those of the command that released, published or
      approved them last, and the offer is that of the last proposal or counteroffer. */
  lemma {:induction false} CaseFileFollowsHistory(caseId: string, commands: seq<Command>)
    ensures var s, accepted := Run(caseId, commands), Accepted(caseId, commands);
      && Records(s.requirement, accepted, {ReleaseRequirement})
      && Records(s.evidence, accepted, {PublishEvidence})
      && Records(s.offer, accepted, {ProposeOffer, CounterOffer})
      && Records(s.approval, accepted, {ApproveHandoff})
      && s.lastCommand == if accepted == [] then None else Some(accepted[|accepted| - 1].id)
    decreases |commands|
  {
    hide Records, Compile;
    if commands == [] {
      NothingRecorded();
    } else {
      var earlier, last := commands[..|commands| - 1], commands[|commands| - 1];
      CaseFileFollowsHistory(caseId, earlier);
      var s, accepted := Run(caseId, earlier), Accepted(caseId, earlier);
      if Compile(s, last).Success? {
        RecordsOneMore(s.requirement, accepted, {ReleaseRequirement}, last);
        RecordsOneMore(s.evidence, accepted, {PublishEvidence}, last);
        RecordsOneMore(s.offer, accepted, {ProposeOffer, CounterOffer}, last);
        RecordsOneMore(s.approval, accepted, {ApproveHandoff}, last);
        AcceptedSlots(s, last);
      } else {
        assert Accepted(caseId, commands) == accepted;
      }
    }
  }

  lemma AcceptedSlots(s: State, c: Command)
    requires Compile(s, c).Success?
    ensures var s1 := Compile(s, c).value;
      && s1.requirement == (if c.kind in {ReleaseRequirement} then Some(c.payload) else s.requirement)
      && s1.evidence == (if c.kind in {PublishEvidence} then Some(c.payload) else s.evidence)
      && s1.offer == (if c.kind in {ProposeOffer, CounterOffer} then Some(c.payload) else s.offer)
      && s1.approval == (if c.kind in {ApproveHandoff} then Some(c.payload) else s.approval)
      && s1.lastCommand == Some(c.id)
  {
    hide Target;
  }

  lemma NothingRecorded()
    ensures forall kinds :: Records(None, [], kinds)
  {
  }

  /** The kinds of the accepted commands are the way to one of the phases before a rejection or an expiry. */
  ghost predicate IsOnTheWay(kinds: seq<Kind>) {
    exists phase :: phase !in {WasRejected, WasExpired} && LeadsTo(kinds, phase)
  }

  lemma SameLast(a: seq<Kind>, x: Kind, b: seq<Kind>, y: Kind)
    requires a + [x] == b + [y]
    ensures a == b && x == y
  {
    assert a == (a + [x])[..|a + [x]| - 1] && x == (a + [x])[|a + [x]| - 1];
    assert b == (b + [y])[..|b + [y]| - 1] && y == (b + [y])[|b + [y]| - 1];
  }

  lemma WaysStepByStep()
    ensures [] + [ReleaseRequirement] == [ReleaseRequirement]
    ensures [ReleaseRequirement] + [PublishEvidence] == [ReleaseRequirement, PublishEvidence]
    ensures [ReleaseRequirement, PublishEvidence] + [ProposeOffer] == UNTIL_OFFER
    ensures UNTIL_OFFER + [CounterOffer] + [AcceptCounter] == UNTIL_OFFER + [CounterOffer, AcceptCounter]
    ensures UNTIL_OFFER + [AcceptOffer] + [ApproveHandoff] == UNTIL_OFFER + [AcceptOffer, ApproveHandoff]
    ensures UNTIL_OFFER + [CounterOffer, AcceptCounter] + [ApproveHandoff] == UNTIL_OFFER + [CounterOffer, AcceptCounter, ApproveHandoff]
  {
  }

  /** The phase before the last kind of a way. */
  lemma OneLess(kinds: seq<Kind>, kind: Kind, after: Phase) returns (before: Phase)
    requires LeadsTo(kinds + [kind], after) && after !in {WasRejected, WasExpired}
    ensures before !in {WasRejected, WasExpired} && LeadsTo(kinds, before) && Target(before, kind) == Some(after)
  {
    WaysStepByStep();
    match after
    case RequirementReleased =>
      SameLast(kinds, kind, [], ReleaseRequirement);
      before := Created;
    case EvidenceReleased =>
      SameLast(kinds, kind, [ReleaseRequirement], PublishEvidence);
      before := RequirementReleased;
    case Offered =>
      SameLast(kinds, kind, [ReleaseRequirement, PublishEvidence], ProposeOffer);
      before := EvidenceReleased;
    case Countered =>
      SameLast(kinds, kind, UNTIL_OFFER, CounterOffer);
      before := Offered;
    case AgreedPendingApproval =>
      if kinds + [kind] == UNTIL_OFFER + [AcceptOffer] {
        SameLast(kinds, kind, UNTIL_OFFER, AcceptOffer);
        before := Offered;
      } else {
        SameLast(kinds, kind, UNTIL_OFFER + [CounterOffer], AcceptCounter);
        before := Countered;
      }
    case ApprovedForHandoff =>
      if kinds + [kind] == UNTIL_OFFER + [AcceptOffer, ApproveHandoff] {
        SameLast(kinds, kind, UNTIL_OFFER + [AcceptOffer], ApproveHandoff);
      } else {
        SameLast(kinds, kind, UNTIL_OFFER + [CounterOffer, AcceptCounter], ApproveHandoff);
      }
      before := AgreedPendingApproval;
  }

  lemma OnePhase(kinds: seq<Kind>, a: Phase, b: Phase)
    requires LeadsTo(kinds, a) && LeadsTo(kinds, b) && a !in {WasRejected, WasExpired} && b !in {WasRejected, WasExpired}
    ensures a == b
  {
    assert |UNTIL_OFFER| == 3;
    assert |kinds| > 3 ==> kinds[3] in {AcceptOffer, CounterOffer};
  }

  lemma TargetExactly(kinds: seq<Kind>, phase: Phase, kind: Kind)
    requires LeadsTo(kinds, phase)
    ensures phase !in {WasRejected, WasExpired} ==>
      (Target(phase, kind).Some? <==> kind in {Reject, Expire} || IsOnTheWay(kinds + [kind]))
    ensures phase in {WasRejected, WasExpired} ==> (Target(phase, kind).Some? <==> kind in {Reject, Expire})
  {
    hide LeadsTo;
    if Target(phase, kind).Some? { OneMoreLeads(kinds, phase, kind); }
    if phase !in {WasRejected, WasExpired} && IsOnTheWay(kinds + [kind]) {
      var after :| after !in {WasRejected, WasExpired} && LeadsTo(kinds + [kind], after);
      var before := OneLess(kinds, kind, after);
      OnePhase(kinds, phase, before);
    }
  }

  /** Every run: a command is refused for another case or for another version than the next; otherwise it is accepted
      exactly when it rejects or expires the case, or takes a case that is still open one step along. */
  lemma CommandsAreAcceptedExactly(caseId: string, commands: seq<Command>, c: Command)
    ensures var s, accepted := Run(caseId, commands), Accepted(caseId, commands); var r := Compile(s, c);
      var stopped := s.phase in {WasRejected, WasExpired};
      && (r == Failure(AnotherCase) <==> c.caseId != caseId)
      && (r == Failure(StaleVersion) <==> c.caseId == caseId && c.expected != 1 + |accepted|)
      && (r.Success? <==>
           && c.caseId == caseId && c.expected == 1 + |accepted|
           && (c.kind in {Reject, Expire} || (!stopped && IsOnTheWay(Kinds(accepted) + [c.kind]))))
  {
    hide Run, Accepted, Target, LeadsTo, IsOnTheWay;
    HistoriesLeadToPhases(caseId, commands);
    TargetExactly(Kinds(Accepted(caseId, commands)), Run(caseId, commands).phase, c.kind);
  }
}
