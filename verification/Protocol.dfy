/** The recovery protocol of one supervisor: src/cluster/cold-bootstrap/protocol.mjs.
    `ColdRecoveryProtocol` is the object; the step functions say what each call does to its ledger. */
module Protocol {
  import opened Options
  import opened Evidence
  import opened RecoveryEpoch
  import opened DecisionStore
  import Candidate
  import Majority
  import Names
  import Sorting

  datatype Config = Config(nodes: seq<Member>, maxAge: int)

  /** How the request for one node's evidence settled. */
  datatype Answer = Fulfilled(item: Report) | Rejected(code: Option<Code>)

  datatype Collected =
    | CollectFailed(code: Option<Code>)
    | ActiveView(evidence: seq<Report>)
    | Gathered(evidence: seq<Report>, failures: seq<Option<Code>>)

  function Items(answers: seq<Answer>): (items: seq<Report>)
    ensures |items| <= |answers|
  {
    if answers == [] then []
    else (match answers[0] case Fulfilled(item) => [item] case Rejected(_) => []) + Items(answers[1..])
  }

  function Failures(answers: seq<Answer>): (failures: seq<Option<Code>>)
    ensures |Items(answers)| + |failures| == |answers|
  {
    if answers == [] then []
    else (match answers[0] case Fulfilled(_) => [] case Rejected(code) => [code]) + Failures(answers[1..])
  }

  function Collect(config: Config, answers: seq<Answer>, now: int): Collected {
    var evidence, failures := Items(answers), Failures(answers);
    if AnyActivePrimary(config.nodes, evidence) then ActiveView(evidence)
    else if failures != [] && evidence == [] then CollectFailed(failures[0])
    else
      var defect := Validation(evidence, now, config.maxAge);
      if defect.Some? then CollectFailed(defect)
      else if failures != [] && |evidence| < Majority.Required(|config.nodes|) then CollectFailed(failures[0])
      else Gathered(evidence, failures)
  }

  function MemberNames(config: Config): seq<string> {
    Sorting.Map(config.nodes, (n: Member) => n.name)
  }

  // ----- planning -----

  datatype Verdict = JoinActive(evidence: seq<Report>) | Refuse(code: Option<Code>) | Elect(record: EpochRecord)

  function RefusalCode(refusal: Candidate.Refusal): Option<Code> {
    match refusal
    case EqualHistories => Some(SplitBrain)
    case SmallHistory => Some(InsufficientEvidence)
    case IncompleteStates => None
    case NoRecoverableSeqno => None
  }

  function Assess(config: Config, answers: seq<Answer>, now: int): Verdict {
    match Collect(config, answers, now)
    case CollectFailed(code) => Refuse(Some(code.GetOr(EvidenceUnavailable)))
    case ActiveView(evidence) => JoinActive(evidence)
    case Gathered(evidence, failures) =>
      if |evidence| < |config.nodes| then
        Refuse(Some(if Some(IdentityMismatch) in failures then IdentityMismatch else InsufficientEvidence))
      else ElectFrom(MemberNames(config), evidence,
                     Candidate.SelectCandidate(evidence, Majority.Required(|config.nodes|)))
  }

  function ElectFrom(members: seq<string>, evidence: seq<Report>, choice: Candidate.Selection): Verdict {
    match choice
    case NoStates => Refuse(None)
    case Ineligible(refusal) => Refuse(RefusalCode(refusal))
    case Eligible(candidate, _, _, _) =>
      var winner := WinnerRecord(candidate.node, candidate.uuid, Candidate.Seqno(candidate));
      var record := CreateRecoveryEpoch(candidate.uuid, evidence, winner, members);
      if record.Some? then Elect(record.value) else Refuse(None)
  }

  // ----- the ledger and the calls -----

  /** The record in memory and the document in the store. */
  datatype Ledger = Ledger(current: Option<Document>, stored: Option<Document>)

  datatype SupervisorQuorum = Unspecified | Requested(size: int) | MalformedQuorum

  datatype AuthorizeRequest = AuthorizeRequest(
    epoch: Option<EpochId>, acknowledgements: Option<seq<string>>, force: bool, supervisorQuorum: SupervisorQuorum)

  datatype BeginRequest = BeginRequest(epoch: Option<EpochId>, winner: Option<string>)

  datatype CompleteRequest = CompleteRequest(
    epoch: Option<EpochId>, winner: Option<string>, clusterId: Option<string>, membership: Option<seq<string>>)

  datatype Denial =
    | UnknownEpoch | BadSupervisorQuorum | Refused(error: EpochError) | NoAuthority
    | NotRevalidated | EvidenceMoved | WrongMembership

  datatype Reply =
    | PlanJoins | PlanRefused(refusal: Option<Code>) | Elected(planned: EpochRecord)
    | Advanced(record: EpochRecord)
    | Denied(denial: Denial)
    | NotPersisted(written: Written)
    | Seen(document: Option<Document>)

  function ReadThrough(l: Ledger): Ledger {
    if l.current.None? then l.(current := l.stored) else l
  }

  /** Memory takes the new document before the store is asked; a failed write leaves the two apart. */
  function Persist(l: Ledger, document: Document, expected: Option<EpochId>, io: bool, reply: Reply): (Ledger, Reply) {
    var (file, written) := WriteStep(l.stored, document, expected, io);
    (Ledger(Some(document), file), if written == Stored then reply else NotPersisted(written))
  }

  function PlanStep(config: Config, l: Ledger, answers: seq<Answer>, now: int, io: bool): (Ledger, Reply) {
    PlanOn(l, Assess(config, answers, now), io)
  }

  function PlanOn(l: Ledger, verdict: Verdict, io: bool): (Ledger, Reply) {
    match verdict
    case JoinActive(_) => (l, PlanJoins)
    case Refuse(code) => Persist(l, RefusedPlan(code), None, io, PlanRefused(code))
    case Elect(record) => Persist(l, Planned(record), None, io, Elected(record))
  }

  function DocumentCode(document: Option<Document>): Option<Code> {
    match document
    case Some(Planned(record)) => record.code
    case Some(RefusedPlan(code)) => code
    case _ => None
  }

  function RetryStep(config: Config, l: Ledger, answers: seq<Answer>, now: int, io: bool): (Ledger, Reply) {
    if DocumentCode(l.current) == Some(IdentityMismatch) then (l, Seen(l.current))
    else PlanStep(config, l.(current := None), answers, now, io)
  }

  /** The epoch record in memory, when it is the one the caller names. */
  function NamedRecord(document: Option<Document>, epoch: Option<EpochId>): Option<EpochRecord> {
    match document
    case Some(Planned(record)) => if Some(record.epoch) == epoch then Some(record) else None
    case _ => None
  }

  function GivenAcknowledgements(record: EpochRecord, request: AuthorizeRequest): seq<string> {
    if request.force && request.supervisorQuorum.Unspecified? then record.quorum
    else QuorumOf(request.acknowledgements.GetOr([]))
  }

  function AuthorizeStep(l: Ledger, request: AuthorizeRequest, io: bool): (Ledger, Reply) {
    var l1 := ReadThrough(l);
    var existing := NamedRecord(l1.current, request.epoch);
    if existing.None? || !ValidateRecoveryEpoch(existing.value) then (l1, Denied(UnknownEpoch))
    else
      var record := existing.value;
      var size := match request.supervisorQuorum
        case Unspecified => |record.quorum|
        case Requested(n) => n
        case MalformedQuorum => 0;
      if size < 1 || size > |record.quorum| then (l1, Denied(BadSupervisorQuorum))
      else
        var details := NO_DETAILS.(acknowledgements := Some(GivenAcknowledgements(record, request)),
                                   requiredAcknowledgements := Some(size), forced := request.force);
        match TransitionRecoveryEpoch(record, Authorized, details)
        case Rejected(error) => (l1, Denied(Refused(error)))
        case Moved(next) => Persist(l1, Planned(next), Some(record.epoch), io, Advanced(next))
  }

  function BeginStep(config: Config, l: Ledger, request: BeginRequest, answers: seq<Answer>, now: int,
                     io: bool): (Ledger, Reply) {
    BeginOn(l, request, Collect(config, answers, now), Items(answers), io)
  }

  /** The begin of a bootstrap on what the second collection gathered. */
  function BeginOn(l: Ledger, request: BeginRequest, collected: Collected, latest: seq<Report>, io: bool)
    : (Ledger, Reply)
  {
    var l1 := ReadThrough(l);
    var existing := NamedRecord(l1.current, request.epoch);
    if existing.None? || !ValidateRecoveryEpoch(existing.value) then (l1, Denied(UnknownEpoch))
    else
      var record := existing.value;
      if record.phase != Authorized || request.winner != record.winner.Node() then (l1, Denied(NoAuthority))
      else
        match collected
        case CollectFailed(code) =>
          var blocked := record.(phase := Blocked, code := Some(code.GetOr(EvidenceUnavailable)));
          Persist(l1, Planned(blocked), Some(record.epoch), io, Denied(NotRevalidated))
        case _ =>
          var refreshed := CreateRecoveryEpoch(record.clusterId, latest, record.winner, record.quorum);
          if refreshed.None? then (l1, Denied(NoAuthority))
          else if refreshed.value.digest != record.digest then
            var blocked := record.(phase := Blocked, code := Some(EvidenceChanged), evidence := latest);
            Persist(l1, Planned(blocked), Some(record.epoch), io, Denied(EvidenceMoved))
          else
            match TransitionRecoveryEpoch(record, Bootstrapping, NO_DETAILS)
            case Rejected(error) => (l1, Denied(Refused(error)))
            case Moved(next) => Persist(l1, Planned(next), Some(record.epoch), io, Advanced(next))
  }

  const SEPARATOR: string := "\\0"

  function JoinNames(names: seq<string>): string {
    if names == [] then ""
    else if |names| == 1 then names[0]
    else names[0] + SEPARATOR + JoinNames(names[1..])
  }

  predicate SameMembership(membership: seq<string>, quorum: seq<string>) {
    |membership| == |quorum| && JoinNames(QuorumOf(membership)) == JoinNames(Sorting.Sort(quorum, Names.Leq))
  }

  function CompleteStep(l: Ledger, request: CompleteRequest, io: bool): (Ledger, Reply) {
    var l1 := ReadThrough(l);
    var existing := NamedRecord(l1.current, request.epoch);
    if existing.None? then (l1, Denied(UnknownEpoch))
    else
      var record := existing.value;
      if request.winner != record.winner.Node() || request.clusterId != Some(record.clusterId)
        then (l1, Denied(NoAuthority))
      else if request.membership.None? || !SameMembership(request.membership.value, record.quorum)
        then (l1, Denied(WrongMembership))
      else
        var details :=
          NO_DETAILS.(clusterId := request.clusterId, winner := request.winner, membership := request.membership.value);
        match TransitionRecoveryEpoch(record, Complete, details)
        case Rejected(error) => (l1, Denied(Refused(error)))
        case Moved(next) => Persist(l1, Planned(next), Some(record.epoch), io, Advanced(next))
  }

  // ----- the object -----

  class ColdRecoveryProtocol {
    const config: Config
    const store: Store
    var current: Option<Document>

    constructor (config: Config, store: Store)
      ensures this.config == config && this.store == store && current == None
    {
      this.config := config;
      this.store := store;
      current := None;
    }

    ghost function View(): Ledger
      reads this, store
    {
      Ledger(current, store.file)
    }

    method Read()
      modifies this
      ensures View() == ReadThrough(old(View()))
    {
      if current.None? {
        current := store.Read();
      }
    }

    method Keep(document: Document, expected: Option<EpochId>, io: bool, reply: Reply) returns (answer: Reply)
      modifies this, store
      ensures (View(), answer) == Persist(old(View()), document, expected, io, reply)
    {
      current := Some(document);
      var written := store.Write(document, expected, io);
      answer := if written == Stored then reply else NotPersisted(written);
    }

    method Plan(answers: seq<Answer>, now: int, io: bool) returns (reply: Reply)
      modifies this, store
      ensures (View(), reply) == PlanStep(config, old(View()), answers, now, io)
    {
      var collected := Collect(config, answers, now);
      if collected.CollectFailed? {
        var code := Some(collected.code.GetOr(EvidenceUnavailable));
        reply := Keep(RefusedPlan(code), None, io, PlanRefused(code));
        return;
      }
      if collected.ActiveView? {
        return PlanJoins;
      }
      if |collected.evidence| < |config.nodes| {
        var code := Some(if Some(IdentityMismatch) in collected.failures then IdentityMismatch
                         else InsufficientEvidence);
        reply := Keep(RefusedPlan(code), None, io, PlanRefused(code));
        return;
      }
      reply := ElectOrRefuse(collected.evidence, io);
    }

    method ElectOrRefuse(evidence: seq<Report>, io: bool) returns (reply: Reply)
      modifies this, store
      ensures (View(), reply)
           == PlanOn(old(View()), ElectFrom(MemberNames(config), evidence,
                                            Candidate.SelectCandidate(evidence, Majority.Required(|config.nodes|))), io)
    {
      var decision := Candidate.SelectCandidate(evidence, Majority.Required(|config.nodes|));
      if !decision.Eligible? {
        var code := if decision.Ineligible? then RefusalCode(decision.refusal) else None;
        reply := Keep(RefusedPlan(code), None, io, PlanRefused(code));
        return;
      }
      var candidate := decision.candidate;
      var winner := WinnerRecord(candidate.node, candidate.uuid, Candidate.Seqno(candidate));
      var record := CreateRecoveryEpoch(candidate.uuid, evidence, winner, MemberNames(config));
      if record.None? {
        reply := Keep(RefusedPlan(None), None, io, PlanRefused(None));
        return;
      }
      reply := Keep(Planned(record.value), None, io, Elected(record.value));
    }

    method Retry(answers: seq<Answer>, now: int, io: bool) returns (reply: Reply)
      modifies this, store
      ensures (View(), reply) == RetryStep(config, old(View()), answers, now, io)
    {
      if DocumentCode(current) == Some(IdentityMismatch) {
        return Seen(current);
      }
      current := None;
      reply := Plan(answers, now, io);
    }

    method Authorize(request: AuthorizeRequest, io: bool) returns (reply: Reply)
      modifies this, store
      ensures (View(), reply) == AuthorizeStep(old(View()), request, io)
    {
      Read();
      var existing := NamedRecord(current, request.epoch);
      if existing.None? || !ValidateRecoveryEpoch(existing.value) {
        return Denied(UnknownEpoch);
      }
      var record := existing.value;
      var size := match request.supervisorQuorum
        case Unspecified => |record.quorum|
        case Requested(n) => n
        case MalformedQuorum => 0;
      if size < 1 || size > |record.quorum| {
        return Denied(BadSupervisorQuorum);
      }
      var details := NO_DETAILS.(acknowledgements := Some(GivenAcknowledgements(record, request)),
                                 requiredAcknowledgements := Some(size), forced := request.force);
      var outcome := TransitionRecoveryEpoch(record, Authorized, details);
      if outcome.Rejected? {
        return Denied(Refused(outcome.error));
      }
      reply := Keep(Planned(outcome.record), Some(record.epoch), io, Advanced(outcome.record));
    }

    method BeginBootstrap(request: BeginRequest, answers: seq<Answer>, now: int, io: bool) returns (reply: Reply)
      modifies this, store
      ensures (View(), reply) == BeginStep(config, old(View()), request, answers, now, io)
    {
      Read();
      var existing := NamedRecord(current, request.epoch);
      if existing.None? || !ValidateRecoveryEpoch(existing.value) {
        return Denied(UnknownEpoch);
      }
      var record := existing.value;
      if record.phase != Authorized || request.winner != record.winner.Node() {
        return Denied(NoAuthority);
      }
      var collected := Collect(config, answers, now);
      if collected.CollectFailed? {
        var blocked := record.(phase := Blocked, code := Some(collected.code.GetOr(EvidenceUnavailable)));
        reply := Keep(Planned(blocked), Some(record.epoch), io, Denied(NotRevalidated));
        return;
      }
      var latest := collected.evidence;
      var refreshed := CreateRecoveryEpoch(record.clusterId, latest, record.winner, record.quorum);
      if refreshed.None? {
        return Denied(NoAuthority);
      }
      if refreshed.value.digest != record.digest {
        var blocked := record.(phase := Blocked, code := Some(EvidenceChanged), evidence := latest);
        reply := Keep(Planned(blocked), Some(record.epoch), io, Denied(EvidenceMoved));
        return;
      }
      var outcome := TransitionRecoveryEpoch(record, Bootstrapping, NO_DETAILS);
      if outcome.Rejected? {
        return Denied(Refused(outcome.error));
      }
      reply := Keep(Planned(outcome.record), Some(record.epoch), io, Advanced(outcome.record));
    }

    method CompleteBootstrap(request: CompleteRequest, io: bool) returns (reply: Reply)
      modifies this, store
      ensures (View(), reply) == CompleteStep(old(View()), request, io)
    {
      Read();
      var existing := NamedRecord(current, request.epoch);
      if existing.None? {
        return Denied(UnknownEpoch);
      }
      var record := existing.value;
      if request.winner != record.winner.Node() || request.clusterId != Some(record.clusterId) {
        return Denied(NoAuthority);
      }
      if request.membership.None? || !SameMembership(request.membership.value, record.quorum) {
        return Denied(WrongMembership);
      }
      var details :=
        NO_DETAILS.(clusterId := request.clusterId, winner := request.winner, membership := request.membership.value);
      var outcome := TransitionRecoveryEpoch(record, Complete, details);
      if outcome.Rejected? {
        return Denied(Refused(outcome.error));
      }
      reply := Keep(Planned(outcome.record), Some(record.epoch), io, Advanced(outcome.record));
    }

    method Status() returns (document: Option<Document>)
      modifies this
      ensures View() == ReadThrough(old(View())) && document == current
    {
      Read();
      document := current;
    }
  }
}
