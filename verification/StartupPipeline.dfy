/** The automatic startup path as the supervisor runs it, and what the whole pipeline guarantees. */
module StartupPipeline {
  import opened Options
  import opened Evidence
  import opened RecoveryEpoch
  import opened DecisionStore
  import opened Protocol
  import opened ProtocolFacts
  import opened Startup
  import ProtocolRuns
  import RecoveryState
  import LeaseRuns
  import Majority
  import Sorting

  function VoteRequest(config: Config, epoch: Option<EpochId>, claims: seq<LeaseAnswer>): AuthorizeRequest
    requires |claims| == |config.nodes|
  {
    AuthorizeRequest(epoch, Some(GrantedNames(config.nodes, claims)), false, Unspecified)
  }

  /** The record this supervisor may bootstrap from is in memory and in the store. */
  ghost predicate Entered(l: Ledger, decision: Decision) {
    && l.current == l.stored && l.current.Some? && l.current.value.Planned?
    && var record := l.current.value.record;
       && record.phase == Bootstrapping && Some(record.epoch) == decision.epoch
       && record.winner.WinnerRecord? && Some(record.winner.node) == decision.winner
  }

  predicate AllGranted(claims: seq<LeaseAnswer>) {
    forall c <- claims :: IsGranted(c)
  }

  lemma QuorumSize(config: Config)
    requires DistinctNames(config.nodes)
    ensures |QuorumOf(MemberNames(config))| == |config.nodes|
    ensures forall name :: name in QuorumOf(MemberNames(config)) <==> exists k :: 0 <= k < |config.nodes| && config.nodes[k].name == name
  {
    var names := MemberNames(config);
    QuorumMembers(names);
    MemberSetDistinct(names);
    forall i, j | 0 <= i < j < |names| ensures names[i] != names[j] {
      assert names[i] == config.nodes[i].name && names[j] == config.nodes[j].name;
    }
    forall name ensures name in names <==> exists k :: 0 <= k < |config.nodes| && config.nodes[k].name == name {
      if name in names {
        var k :| 0 <= k < |names| && names[k] == name;
        assert config.nodes[k].name == name;
      }
      if k :| 0 <= k < |config.nodes| && config.nodes[k].name == name {
        assert names[k] == name;
      }
    }
  }

  /** The full-acknowledgement rule makes the vote unanimous: authorization needs every member's lease. */
  lemma VoteUnanimous(config: Config, l: Ledger, epoch: Option<EpochId>, claims: seq<LeaseAnswer>, io: bool)
    requires |claims| == |config.nodes| && DistinctNames(config.nodes) && ProtocolRuns.LedgerOk(config, l)
    ensures var existing := NamedRecord(ReadThrough(l).current, epoch);
      var (after, reply) := AuthorizeStep(l, VoteRequest(config, epoch, claims), io);
      && (reply.Advanced? <==>
           && ValidForCaller(l, epoch) && existing.value.phase in {EvidencePhase, Authorized}
           && claims != [] && AllGranted(claims) && StoreAccepts(l, existing.value.epoch, io))
      && (reply.Advanced? ==>
           && after == Ledger(Some(Planned(reply.record)), Some(Planned(reply.record)))
           && reply.record.phase == Authorized && reply.record.epoch == existing.value.epoch
           && reply.record.winner == existing.value.winner && reply.record.digest == existing.value.digest
           && reply.record.clusterId == existing.value.clusterId && reply.record.quorum == existing.value.quorum)
  {
    var request := VoteRequest(config, epoch, claims);
    var existing := NamedRecord(ReadThrough(l).current, epoch);
    var granted := GrantedNames(config.nodes, claims);
    QuorumSize(config);
    QuorumMembers(MemberNames(config));
    GrantedNamesFacts(config.nodes, claims);
    MemberSetDistinct(granted);
    AuthorizeExact(l, request, io);
    if existing.Some? {
      var record := existing.value;
      assert forall name <- granted :: name in record.quorum;
      assert EnoughAcknowledge(record, request) <==> claims != [] && AllGranted(claims);
    }
  }

  /** Both calls succeed: every lease is granted, the epoch is open and the fresh evidence has its digest. */
  ghost predicate VoteAccepted(config: Config, l: Ledger, decision: Decision, claims: seq<LeaseAnswer>,
                               begin: BeginInputs) {
    var existing := NamedRecord(ReadThrough(l).current, decision.epoch);
    && claims != [] && AllGranted(claims)
    && ValidForCaller(l, decision.epoch) && existing.value.phase in {EvidencePhase, Authorized}
    && EpochOf(l.stored) == decision.epoch && begin.authorizeIo && begin.beginIo
    && existing.value.winner.Node() == decision.winner
    && !Collect(config, begin.answers, begin.now).CollectFailed?
    && Sha256(Canonical(Items(begin.answers))) == existing.value.digest
  }

  lemma BeginAfterVote(config: Config, l: Ledger, request: BeginRequest, begin: BeginInputs)
    requires l.current == l.stored && l.current.Some? && l.current.value.Planned?
    requires l.current.value.record.phase == Authorized && Some(l.current.value.record.epoch) == request.epoch
    requires ValidateRecoveryEpoch(l.current.value.record)
    requires l.current.value.record.clusterId != "" && l.current.value.record.quorum != []
    ensures var record := l.current.value.record;
      var (after, reply) := BeginStep(config, l, request, begin.answers, begin.now, begin.beginIo);
      && (reply.Advanced? <==>
           && request.winner == record.winner.Node() && !Collect(config, begin.answers, begin.now).CollectFailed?
           && Sha256(Canonical(Items(begin.answers))) == record.digest && begin.beginIo)
      && (reply.Advanced? ==> Entered(after, Decision(Bootstrap, request.winner, true, request.epoch, false)))
  {
    BeginExact(config, l, request, begin.answers, begin.now, begin.beginIo);
  }
  /** The reported state just after a bootstrap decision was recorded. */
  ghost predicate AwaitsQuorum(s: RecoveryState.Snapshot, decision: Decision, render: EpochId -> string) {
    s.state == RecoveryState.AwaitingQuorum && decision.epoch.Some? && s.epoch == Tag(decision.epoch, render).epoch
  }

  predicate LocalWinnerConfigured(config: Config, decision: Decision) {
    decision.winner.Some? && Member(decision.winner.value, true) in config.nodes
  }

  /** The two protocol calls of the authorization. */
  method CastVote(decision: Decision, claims: seq<LeaseAnswer>, begin: BeginInputs,
                  protocol: ColdRecoveryProtocol) returns (accepted: bool)
    requires |claims| == |protocol.config.nodes| && DistinctNames(protocol.config.nodes)
    requires ProtocolRuns.LedgerOk(protocol.config, protocol.View()) && decision.winner.Some?
    modifies protocol, protocol.store
    ensures accepted <==> VoteAccepted(protocol.config, old(protocol.View()), decision, claims, begin)
    ensures accepted ==> Entered(protocol.View(), decision)
    ensures ProtocolRuns.LedgerOk(protocol.config, protocol.View())
  {
    var request := VoteRequest(protocol.config, decision.epoch, claims);
    VoteUnanimous(protocol.config, protocol.View(), decision.epoch, claims, begin.authorizeIo);
    ProtocolRuns.AuthorizeKeeps(protocol.config, protocol.View(), request, begin.authorizeIo);
    var reply := protocol.Authorize(request, begin.authorizeIo);
    if !reply.Advanced? {
      return false;
    }
    var beginRequest := BeginRequest(decision.epoch, decision.winner);
    BeginAfterVote(protocol.config, protocol.View(), beginRequest, begin);
    ProtocolRuns.BeginKeeps(protocol.config, protocol.View(), beginRequest, begin.answers, begin.now, begin.beginIo);
    reply := protocol.BeginBootstrap(beginRequest, begin.answers, begin.now, begin.beginIo);
    accepted := reply.Advanced?;
  }

  lemma UnanimityIsMajority(config: Config, claims: seq<LeaseAnswer>)
    requires |claims| == |config.nodes| && DistinctNames(config.nodes) && claims != [] && AllGranted(claims)
    ensures |GrantedNames(config.nodes, claims)| >= Majority.Required(|config.nodes|)
    ensures Misrouted !in claims
  {
    GrantedNamesFacts(config.nodes, claims);
    MemberSetDistinct(GrantedNames(config.nodes, claims));
  }

  method Block(decision: Decision, render: EpochId -> string,
               recoveryState: RecoveryState.RecoveryStateObject) returns (r: AuthorizationResult)
    modifies recoveryState
    ensures r == AuthorizationThrows || r == AuthorizationDecides(decision.(mode := BlockedMode), None)
    ensures AwaitsQuorum(old(recoveryState.View()), decision, render) ==> r.AuthorizationDecides?
  {
    var outcome := recoveryState.Set(RecoveryState.BlockedAmbiguous, Tag(decision.epoch, render));
    r := if outcome.RefusedTransition? then AuthorizationThrows
      else AuthorizationDecides(decision.(mode := BlockedMode), None);
  }

  method Grant(decision: Decision, rendered: seq<string>, promotion: Promotion, render: EpochId -> string,
               recoveryState: RecoveryState.RecoveryStateObject) returns (r: AuthorizationResult)
    requires GrantsBootstrap(decision)
    modifies recoveryState
    ensures r.AuthorizationDecides? ==>
      r.decision == decision && r.args.Some? && FlagCount(r.args.value) == 1 && promotion != PromotionFails
    ensures AwaitsQuorum(old(recoveryState.View()), decision, render) && promotion != PromotionFails ==>
      r.AuthorizationDecides?
  {
    var outcome := recoveryState.Set(RecoveryState.RecoveryAuthorized, Tag(decision.epoch, render));
    if outcome.RefusedTransition? || promotion == PromotionFails {
      return AuthorizationThrows;
    }
    ArgumentsFlag(rendered, decision, None);
    r := AuthorizationDecides(decision, Some(StartupArguments(rendered, decision, None)));
  }

  /** Lease answers, the two protocol calls and the arguments, in order. */
  method AuthorizeSupervisorRecovery(
      decision: Decision, claims: seq<LeaseAnswer>, rendered: seq<string>, begin: BeginInputs, promotion: Promotion,
      render: EpochId -> string, protocol: ColdRecoveryProtocol, recoveryState: RecoveryState.RecoveryStateObject)
    returns (r: AuthorizationResult)
    requires |claims| == |protocol.config.nodes| && DistinctNames(protocol.config.nodes)
    requires ProtocolRuns.LedgerOk(protocol.config, protocol.View())
    modifies protocol, protocol.store, recoveryState
    ensures r.AuthorizationDecides? ==>
      && (r.args.Some? <==> GrantsBootstrap(r.decision))
      && (r.decision == decision || r.decision == decision.(mode := BlockedMode))
      && (r.args.Some? ==> FlagCount(r.args.value) == 1 && Entered(protocol.View(), decision))
    ensures r.AuthorizationDecides? && GrantsBootstrap(r.decision) ==>
      && promotion != PromotionFails
      && LocalWinnerConfigured(protocol.config, decision)
      && VoteAccepted(protocol.config, old(protocol.View()), decision, claims, begin)
    ensures !GrantsBootstrap(decision) ==>
      r == AuthorizationDecides(decision, None) && recoveryState.View() == old(recoveryState.View())
    ensures AwaitsQuorum(old(recoveryState.View()), decision, render) && GrantsBootstrap(decision) ==>
      (r.AuthorizationDecides? && GrantsBootstrap(r.decision) <==>
        && LocalWinnerConfigured(protocol.config, decision)
        && VoteAccepted(protocol.config, old(protocol.View()), decision, claims, begin)
        && promotion != PromotionFails)
    ensures AwaitsQuorum(old(recoveryState.View()), decision, render) && GrantsBootstrap(decision) ==>
      var accepted := VoteAccepted(protocol.config, old(protocol.View()), decision, claims, begin);
      if !LocalWinnerConfigured(protocol.config, decision) || (Misrouted !in claims && !accepted)
      then r == AuthorizationDecides(decision.(mode := BlockedMode), None)
      else r.AuthorizationThrows? <==> Misrouted in claims || promotion == PromotionFails
    ensures ProtocolRuns.LedgerOk(protocol.config, protocol.View())
  {
    if !GrantsBootstrap(decision) {
      return AuthorizationDecides(decision, None);
    }
    var blocked := decision.(mode := BlockedMode);
    if !LocalWinnerConfigured(protocol.config, decision) {
      return AuthorizationDecides(blocked, None);
    }
    if claims != [] && AllGranted(claims) {
      UnanimityIsMajority(protocol.config, claims);
    }
    if Misrouted in claims {
      return AuthorizationThrows;
    }
    if |GrantedNames(protocol.config.nodes, claims)| < Majority.Required(|protocol.config.nodes|) {
      r := Block(decision, render, recoveryState);
      return;
    }
    var accepted := CastVote(decision, claims, begin, protocol);
    if !accepted {
      r := Block(decision, render, recoveryState);
      return;
    }
    r := Grant(decision, rendered, promotion, render, recoveryState);
  }

  const COLLECTING := RecoveryState.Snapshot(RecoveryState.CollectingEvidence, None, RecoveryState.Undefined)

  // ----- the whole path -----

  /** Everything the path reads from outside: a clean restart that found its Primary, the answers of the plan,
      the write of the decision, the leases, the second collection, the state file, the winner's completion
      and the state of the data directory. */
  datatype Inputs = Inputs(
    startupArgs: seq<string>, cleanRestartJoins: bool,
    planAnswers: seq<Answer>, planNow: int, planIo: bool, recordIo: bool,
    claims: seq<LeaseAnswer>, rendered: seq<string>, begin: BeginInputs, promotion: Promotion,
    winnerCompletes: bool, directoryStarts: bool)

  datatype Prepared = PreparationThrows | Prepared(decision: Decision, args: seq<string>)

  /** When this supervisor, and no other condition, ends up bootstrapping. */
  ghost predicate EntitledBy(verdict: Verdict, config: Config, identity: string, inputs: Inputs) {
    && !inputs.cleanRestartJoins
    && verdict.Elect? && verdict.record.winner.Node() == Some(identity) && Member(identity, true) in config.nodes
    && VotedFor(verdict.record, config, inputs)
    && inputs.planIo && inputs.recordIo && inputs.promotion != PromotionFails
  }

  /** All members grant their leases, the second collection has the digest of the record, and both calls are written. */
  ghost predicate VotedFor(record: EpochRecord, config: Config, inputs: Inputs) {
    && AllGranted(inputs.claims)
    && !Collect(config, inputs.begin.answers, inputs.begin.now).CollectFailed?
    && Sha256(Canonical(Items(inputs.begin.answers))) == record.digest
    && inputs.begin.authorizeIo && inputs.begin.beginIo
  }

  ghost predicate Entitled(config: Config, identity: string, inputs: Inputs) {
    EntitledBy(Assess(config, inputs.planAnswers, inputs.planNow), config, identity, inputs)
  }

  method ResolveRejoin(decision: Decision, winnerCompletes: bool, render: EpochId -> string,
                       recoveryState: RecoveryState.RecoveryStateObject)
    returns (resolved: Option<Decision>)
    modifies recoveryState
    ensures resolved.None? ==>
      decision.mode == Bootstrap && !decision.localWinner && !AwaitsQuorum(old(recoveryState.View()), decision, render)
    ensures resolved.Some? ==>
      if decision.mode == Bootstrap && !decision.localWinner && decision.winner.Some? then
        resolved.value == if winnerCompletes then decision.(mode := Join, bootstrapComplete := true)
                          else decision.(mode := BlockedMode)
      else resolved.value == decision
  {
    if !(decision.mode == Bootstrap && !decision.localWinner && decision.winner.Some?) {
      return Some(decision);
    }
    if winnerCompletes {
      return Some(decision.(mode := Join, bootstrapComplete := true));
    }
    var outcome := recoveryState.Set(RecoveryState.BlockedAmbiguous, Tag(decision.epoch, render));
    resolved := if outcome.RefusedTransition? then None else Some(decision.(mode := BlockedMode));
  }

  predicate FreshlyElected(record: EpochRecord) {
    && record.phase == EvidencePhase && record.winner.WinnerRecord? && record.winner.node != ""
    && record.epoch == EpochId(record.clusterId, record.digest)
  }

  /** What planning and recording the decision leave behind. */
  ghost predicate PlannedFor(verdict: Verdict, identity: string, decision: Decision, l: Ledger) {
    match verdict
    case Elect(record) =>
      && FreshlyElected(record)
      && decision.winner == Some(record.winner.node) && decision.localWinner == (record.winner.node == identity)
      && decision == Decision(Bootstrap, decision.winner, decision.localWinner, Some(record.epoch), false)
      && l == Ledger(Some(Planned(record)), Some(StartupDecision(Some(record.epoch))))
    case JoinActive(_) => decision == Decision(Join, None, false, None, true)
    case Refuse(_) => decision == Decision(BlockedMode, None, false, None, false)
  }

  /** The writes that planning and recording need: a join is recorded but not planned into the store. */
  predicate Recorded(verdict: Verdict, inputs: Inputs) {
    inputs.recordIo && (verdict.JoinActive? || inputs.planIo)
  }

  /** The reported state after planning from a fresh start. */
  ghost predicate ReportsPlan(verdict: Verdict, decision: Decision, s: RecoveryState.Snapshot,
                              render: EpochId -> string) {
    match verdict
    case Elect(_) => AwaitsQuorum(s, decision, render)
    case JoinActive(_) => s.state == RecoveryState.Joining
    case Refuse(_) => s.state == RecoveryState.BlockedAmbiguous
  }

  /** Without an election the report carries the epoch null, from whatever state was reported before. */
  ghost predicate ReportedWithoutEpoch(verdict: Verdict, before: RecoveryState.Snapshot,
                                       after: RecoveryState.Snapshot) {
    var nothing := RecoveryState.Details(None, RecoveryState.Null);
    && (verdict.JoinActive? ==> after == RecoveryState.SetStep(before, RecoveryState.Joining, nothing).0)
    && (verdict.Refuse? ==> after == RecoveryState.SetStep(before, RecoveryState.BlockedAmbiguous, nothing).0)
  }

  /** What becomes of a block: a node whose data directory answers `start` may rejoin. */
  function Blocking(decision: Decision, directoryStarts: bool): Decision {
    if directoryStarts then decision.(mode := Rejoin, bootstrapComplete := true) else decision.(mode := BlockedMode)
  }

  /** The final decision of a supervisor that is not the elected winner. */
  function Following(verdict: Verdict, inputs: Inputs): Decision {
    match verdict
    case JoinActive(_) => Decision(Join, None, false, None, true)
    case Refuse(_) => Blocking(Decision(BlockedMode, None, false, None, false), inputs.directoryStarts)
    case Elect(record) =>
      var elected := Decision(Bootstrap, record.winner.Node(), false, Some(record.epoch), false);
      if inputs.winnerCompletes then elected.(mode := Join, bootstrapComplete := true)
      else Blocking(elected, inputs.directoryStarts)
  }

  /** What becomes of the elected winner that does not bootstrap, from a fresh start with successful writes: a lease
      sent to a wrong host or a failing promotion throws, everything else that is missing blocks. */
  ghost predicate LeadsTo(record: EpochRecord, config: Config, identity: string, inputs: Inputs, r: Prepared) {
    var elected := Decision(Bootstrap, Some(identity), true, Some(record.epoch), false);
    if Member(identity, true) !in config.nodes || (Misrouted !in inputs.claims && !VotedFor(record, config, inputs))
    then r == Prepared(Blocking(elected, inputs.directoryStarts), inputs.startupArgs)
    else if Misrouted in inputs.claims || inputs.promotion == PromotionFails then r == PreparationThrows
    else r.Prepared? && r.decision == elected
  }

  /** Nothing was elected, or another node. */
  predicate Follows(verdict: Verdict, identity: string) {
    verdict.Elect? ==> verdict.record.winner.Node() != Some(identity)
  }

  /** The reply of a plan that was persisted. */
  predicate Tells(plan: Reply, verdict: Verdict) {
    match verdict
    case JoinActive(_) => plan == PlanJoins
    case Refuse(code) => plan == PlanRefused(code)
    case Elect(record) => plan == Elected(record)
  }

  lemma PlanOutcome(l: Ledger, verdict: Verdict, io: bool)
    ensures var (after, plan) := PlanOn(l, verdict, io);
      && (plan.NotPersisted? || Tells(plan, verdict))
      && (plan.NotPersisted? <==> !verdict.JoinActive? && !io)
      && (verdict.Elect? ==>
           && (plan.NotPersisted? <==> !io)
           && (io ==> after == Ledger(Some(Planned(verdict.record)), Some(Planned(verdict.record)))))
  {
  }

  method RecordPlan(ghost verdict: Verdict, plan: Reply, identity: string, io: bool, render: EpochId -> string,
                    protocol: ColdRecoveryProtocol, recoveryState: RecoveryState.RecoveryStateObject)
    returns (decision: Option<Decision>)
    requires Tells(plan, verdict) && ProtocolRuns.LedgerOk(protocol.config, protocol.View())
    requires verdict.Elect? ==>
      FreshlyElected(verdict.record) && protocol.View().current == Some(Planned(verdict.record))
    modifies protocol.store, recoveryState
    ensures ProtocolRuns.LedgerOk(protocol.config, protocol.View())
    ensures decision.Some? ==> PlannedFor(verdict, identity, decision.value, protocol.View()) && io
    ensures io && old(recoveryState.View()) == COLLECTING ==>
      decision.Some? && ReportsPlan(verdict, decision.value, recoveryState.View(), render)
    ensures decision.Some? ==> ReportedWithoutEpoch(verdict, old(recoveryState.View()), recoveryState.View())
  {
    var planned := RecoveryStartupDecision(plan, identity);
    var outcome := recoveryState.Set(StateOf(planned.mode), Tag(planned.epoch, render));
    if outcome.RefusedTransition? {
      return None;
    }
    var written := protocol.store.Write(StartupDecision(planned.epoch), None, io);
    decision := if written == Stored then Some(planned) else None;
  }

  method PlanStartup(identity: string, inputs: Inputs, render: EpochId -> string,
                     protocol: ColdRecoveryProtocol, recoveryState: RecoveryState.RecoveryStateObject)
    returns (decision: Option<Decision>)
    requires protocol.config.nodes != [] && |inputs.planAnswers| == |protocol.config.nodes|
    requires ProtocolRuns.LedgerOk(protocol.config, protocol.View())
    modifies protocol, protocol.store, recoveryState
    ensures ProtocolRuns.LedgerOk(protocol.config, protocol.View())
    ensures var verdict := Assess(protocol.config, inputs.planAnswers, inputs.planNow);
      && (decision.Some? ==> PlannedFor(verdict, identity, decision.value, protocol.View()))
      && (decision.Some? ==> Recorded(verdict, inputs))
      && (decision.Some? ==> ReportedWithoutEpoch(verdict, old(recoveryState.View()), recoveryState.View()))
      && (Recorded(verdict, inputs) && old(recoveryState.View()) == COLLECTING ==>
           decision.Some? && ReportsPlan(verdict, decision.value, recoveryState.View(), render))
  {
    ghost var verdict := Assess(protocol.config, inputs.planAnswers, inputs.planNow);
    PlanOutcome(protocol.View(), verdict, inputs.planIo);
    ElectExact(protocol.config, inputs.planAnswers, inputs.planNow);
    ProtocolRuns.PlanKeeps(protocol.config, protocol.View(), inputs.planAnswers, inputs.planNow, inputs.planIo);
    var plan := protocol.Plan(inputs.planAnswers, inputs.planNow, inputs.planIo);
    if plan.NotPersisted? {
      return None;
    }
    decision := RecordPlan(verdict, plan, identity, inputs.recordIo, render, protocol, recoveryState);
  }

  /** From the recorded decision to the final one: authorization, the wait of a non-winner, ordinary rejoin. */
  method Settle(planned: Decision, inputs: Inputs, render: EpochId -> string,
                protocol: ColdRecoveryProtocol, recoveryState: RecoveryState.RecoveryStateObject)
    returns (r: Prepared)
    requires |inputs.claims| == |protocol.config.nodes| && DistinctNames(protocol.config.nodes)
    requires ProtocolRuns.LedgerOk(protocol.config, protocol.View())
    requires planned.mode == Bootstrap ==> planned.winner.Some?
    modifies protocol, protocol.store, recoveryState
    ensures r.Prepared? ==>
      && FlagCount(r.args) == (if GrantsBootstrap(r.decision) then 1 else FlagCount(inputs.startupArgs))
      && (r.decision.mode == Bootstrap ==> r.decision.localWinner)
      && (r.decision.mode == BlockedMode ==> !inputs.directoryStarts)
    ensures r.Prepared? && GrantsBootstrap(r.decision) ==>
      && r.decision == planned && Entered(protocol.View(), planned)
      && LocalWinnerConfigured(protocol.config, planned)
      && VoteAccepted(protocol.config, old(protocol.View()), planned, inputs.claims, inputs.begin)
    ensures AwaitsQuorum(old(recoveryState.View()), planned, render) && GrantsBootstrap(planned) ==>
      (r.Prepared? && GrantsBootstrap(r.decision) <==>
        && LocalWinnerConfigured(protocol.config, planned)
        && VoteAccepted(protocol.config, old(protocol.View()), planned, inputs.claims, inputs.begin)
        && inputs.promotion != PromotionFails)
    ensures r.Prepared? && GrantsBootstrap(r.decision) ==> inputs.promotion != PromotionFails
    ensures planned.mode == Join ==> r == Prepared(planned, inputs.startupArgs)
    ensures planned.mode == BlockedMode ==> r == Prepared(Blocking(planned, inputs.directoryStarts), inputs.startupArgs)
    ensures AwaitsQuorum(old(recoveryState.View()), planned, render) && planned.mode == Bootstrap && !planned.localWinner ==>
      r == Prepared(if inputs.winnerCompletes then planned.(mode := Join, bootstrapComplete := true)
                    else Blocking(planned, inputs.directoryStarts), inputs.startupArgs)
    ensures AwaitsQuorum(old(recoveryState.View()), planned, render) && GrantsBootstrap(planned) ==>
      var accepted := VoteAccepted(protocol.config, old(protocol.View()), planned, inputs.claims, inputs.begin);
      if !LocalWinnerConfigured(protocol.config, planned) || (Misrouted !in inputs.claims && !accepted)
      then r == Prepared(Blocking(planned, inputs.directoryStarts), inputs.startupArgs)
      else r == PreparationThrows <==> Misrouted in inputs.claims || inputs.promotion == PromotionFails
  {
    var decision := planned;
    var authorized := AuthorizeSupervisorRecovery(planned, inputs.claims, inputs.rendered, inputs.begin,
                                                  inputs.promotion, render, protocol, recoveryState);
    if authorized.AuthorizationThrows? {
      return PreparationThrows;
    }
    var args := authorized.args.GetOr(inputs.startupArgs);
    var resolved := ResolveRejoin(authorized.decision, inputs.winnerCompletes, render, recoveryState);
    if resolved.None? {
      return PreparationThrows;
    }
    decision := resolved.value;
    if decision.mode == BlockedMode && inputs.directoryStarts {
      decision := decision.(mode := Rejoin, bootstrapComplete := true);
    }
    r := Prepared(decision, args);
  }

  /** After an election was recorded, the vote is accepted exactly for an entitled supervisor. */
  lemma EntitledVote(verdict: Verdict, config: Config, identity: string, inputs: Inputs, l: Ledger, decision: Decision)
    requires |inputs.claims| == |config.nodes| && config.nodes != [] && !inputs.cleanRestartJoins
    requires PlannedFor(verdict, identity, decision, l)
    requires Recorded(verdict, inputs)
    ensures GrantsBootstrap(decision) ==> decision.winner == Some(identity)
    ensures EntitledBy(verdict, config, identity, inputs) <==>
      && GrantsBootstrap(decision) && LocalWinnerConfigured(config, decision)
      && VoteAccepted(config, l, decision, inputs.claims, inputs.begin) && inputs.promotion != PromotionFails
    ensures !Follows(verdict, identity) ==>
      && GrantsBootstrap(decision)
      && (LocalWinnerConfigured(config, decision) <==> Member(identity, true) in config.nodes)
      && (VoteAccepted(config, l, decision, inputs.claims, inputs.begin) <==> VotedFor(verdict.record, config, inputs))
  {
  }

  /** What comes after the plan, judged by the verdict it rests on. */
  method SettlePlanned(ghost verdict: Verdict, ghost identity: string, planned: Decision, inputs: Inputs,
                       render: EpochId -> string,
                       protocol: ColdRecoveryProtocol, recoveryState: RecoveryState.RecoveryStateObject)
    returns (r: Prepared)
    requires protocol.config.nodes != [] && DistinctNames(protocol.config.nodes)
    requires |inputs.claims| == |protocol.config.nodes|
    requires ProtocolRuns.LedgerOk(protocol.config, protocol.View())
    requires !inputs.cleanRestartJoins && PlannedFor(verdict, identity, planned, protocol.View())
    requires Recorded(verdict, inputs)
    modifies protocol, protocol.store, recoveryState
    ensures r.Prepared? ==>
      && FlagCount(r.args) == (if GrantsBootstrap(r.decision) then 1 else FlagCount(inputs.startupArgs))
      && (r.decision.mode == Bootstrap ==> r.decision.localWinner)
      && (r.decision.mode == BlockedMode ==> !inputs.directoryStarts)
    ensures r.Prepared? && GrantsBootstrap(r.decision) ==>
      && EntitledBy(verdict, protocol.config, identity, inputs)
      && r.decision.winner == Some(identity) && Entered(protocol.View(), r.decision)
    ensures AwaitsQuorum(old(recoveryState.View()), planned, render)
            && EntitledBy(verdict, protocol.config, identity, inputs) ==>
      r.Prepared? && GrantsBootstrap(r.decision)
    ensures Follows(verdict, identity) && ReportsPlan(verdict, planned, old(recoveryState.View()), render) ==>
      r == Prepared(Following(verdict, inputs), inputs.startupArgs)
    ensures !Follows(verdict, identity) && ReportsPlan(verdict, planned, old(recoveryState.View()), render) ==>
      LeadsTo(verdict.record, protocol.config, identity, inputs, r)
  {
    EntitledVote(verdict, protocol.config, identity, inputs, protocol.View(), planned);
    r := Settle(planned, inputs, render, protocol, recoveryState);
  }

  method PlanAndSettle(identity: string, inputs: Inputs, render: EpochId -> string,
                       protocol: ColdRecoveryProtocol, recoveryState: RecoveryState.RecoveryStateObject)
    returns (r: Prepared)
    requires protocol.config.nodes != [] && DistinctNames(protocol.config.nodes) && !inputs.cleanRestartJoins
    requires |inputs.planAnswers| == |inputs.claims| == |inputs.begin.answers| == |protocol.config.nodes|
    requires ProtocolRuns.LedgerOk(protocol.config, protocol.View())
    modifies protocol, protocol.store, recoveryState
    ensures r.Prepared? ==>
      && FlagCount(r.args) == (if GrantsBootstrap(r.decision) then 1 else FlagCount(inputs.startupArgs))
      && (r.decision.mode == Bootstrap ==> r.decision.localWinner)
      && (r.decision.mode == BlockedMode ==> !inputs.directoryStarts)
    ensures r.Prepared? && GrantsBootstrap(r.decision) ==>
      && Entitled(protocol.config, identity, inputs) && r.decision.winner == Some(identity)
      && Entered(protocol.View(), r.decision)
    ensures old(recoveryState.View()) == COLLECTING && Entitled(protocol.config, identity, inputs) ==>
      r.Prepared? && GrantsBootstrap(r.decision)
    ensures var verdict := Assess(protocol.config, inputs.planAnswers, inputs.planNow);
      && (r.Prepared? ==> Recorded(verdict, inputs))
      && (old(recoveryState.View()) == COLLECTING && Recorded(verdict, inputs) ==>
           if Follows(verdict, identity) then r == Prepared(Following(verdict, inputs), inputs.startupArgs)
           else LeadsTo(verdict.record, protocol.config, identity, inputs, r))
  {
    ghost var verdict := Assess(protocol.config, inputs.planAnswers, inputs.planNow);
    var planned := PlanStartup(identity, inputs, render, protocol, recoveryState);
    if planned.None? {
      return PreparationThrows;
    }
    r := SettlePlanned(verdict, identity, planned.value, inputs, render, protocol, recoveryState);
  }

  method PrepareSupervisorRecovery(identity: string, inputs: Inputs, render: EpochId -> string,
                                   protocol: ColdRecoveryProtocol, recoveryState: RecoveryState.RecoveryStateObject)
    returns (r: Prepared)
    requires protocol.config.nodes != [] && DistinctNames(protocol.config.nodes)
    requires |inputs.planAnswers| == |inputs.claims| == |inputs.begin.answers| == |protocol.config.nodes|
    requires ProtocolRuns.LedgerOk(protocol.config, protocol.View())
    modifies protocol, protocol.store, recoveryState
    // the flag: once for the entitled winner, otherwise as often as the configured arguments had it
    ensures r.Prepared? ==>
      FlagCount(r.args) == if GrantsBootstrap(r.decision) then 1 else FlagCount(inputs.startupArgs)
    // a bootstrap decision is earned
    ensures r.Prepared? && GrantsBootstrap(r.decision) ==>
      && Entitled(protocol.config, identity, inputs)
      && r.decision.winner == Some(identity)
      && Entered(protocol.View(), r.decision)
    // and from a fresh state it is refused to nobody who is entitled
    ensures old(recoveryState.View()) == RecoveryState.Start(RecoveryState.Pending) ==>
      (Entitled(protocol.config, identity, inputs) <==> r.Prepared? && GrantsBootstrap(r.decision))
    // a non-winner has waited and joins, is blocked, or may only rejoin
    ensures r.Prepared? ==> (r.decision.mode == Bootstrap ==> r.decision.localWinner)
    ensures r.Prepared? && r.decision.mode == BlockedMode ==> !inputs.directoryStarts
    // a clean restart joins, and so does a plan that saw a Primary; a refused plan rejoins exactly when the data
    // directory answers `start`; who lost the election joins the winner that completed; all this exactly when the
    // writes succeed
    ensures old(recoveryState.View()) == RecoveryState.Start(RecoveryState.Pending) ==>
      var verdict := Assess(protocol.config, inputs.planAnswers, inputs.planNow);
      if inputs.cleanRestartJoins then r == Prepared(Decision(Join, None, false, None, true), inputs.startupArgs)
      else if !Recorded(verdict, inputs) then r == PreparationThrows
      else if Follows(verdict, identity) then r == Prepared(Following(verdict, inputs), inputs.startupArgs)
      else LeadsTo(verdict.record, protocol.config, identity, inputs, r)
  {
    var outcome :=
      recoveryState.Set(RecoveryState.CollectingEvidence, RecoveryState.Details(None, RecoveryState.Undefined));
    if outcome.RefusedTransition? {
      return PreparationThrows;
    }
    if inputs.cleanRestartJoins {
      return Prepared(Decision(Join, None, false, None, true), inputs.startupArgs);
    }
    r := PlanAndSettle(identity, inputs, render, protocol, recoveryState);
  }

  // ----- several supervisors -----

  /** Every granted lease answer of a supervisor came from the lease file of that member, for the epoch
      and winner the supervisor asks for, backed by a fresh claim in the window. */
  ghost predicate FromLeases(votes: set<LeaseRuns.Vote>, members: seq<Member>, claims: seq<LeaseAnswer>,
                             pair: LeaseRuns.Pair, from: int, to: int)
    requires |members| == |claims|
  {
    forall k :: 0 <= k < |members| && IsGranted(claims[k]) ==>
      exists v :: v in votes && v.member == members[k].name && v.pair == pair && from <= v.claimedAt <= to
  }

  /** At most one node per lease window may start with the bootstrap flag: two supervisors of the same members
      that both come out of startup with it, on leases within one stale period, are the same node. */
  lemma OneBootstrapPerWindow(
      configA: Config, identityA: string, inputsA: Inputs, configB: Config, identityB: string, inputsB: Inputs,
      leases: LeaseRuns.State, events: seq<LeaseRuns.Event>, staleAfter: int, from: int, to: int)
    requires LeaseRuns.Sound(leases, staleAfter) && LeaseRuns.Forward(events)
    requires staleAfter < 0 || to - from <= staleAfter
    requires configA.nodes != [] && DistinctNames(configA.nodes) && DistinctNames(configB.nodes)
    requires |inputsA.planAnswers| == |inputsA.claims| == |configA.nodes|
    requires |inputsB.planAnswers| == |inputsB.claims| == |configB.nodes|
    requires MemberSet(MemberNames(configA)) == MemberSet(MemberNames(configB))
    requires Entitled(configA, identityA, inputsA) && Entitled(configB, identityB, inputsB)
    requires var votes := LeaseRuns.Votes(leases, events, staleAfter);
      && FromLeases(votes, configA.nodes, inputsA.claims,
                    LeaseRuns.Pair(Assess(configA, inputsA.planAnswers, inputsA.planNow).record.epoch, identityA),
                    from, to)
      && FromLeases(votes, configB.nodes, inputsB.claims,
                    LeaseRuns.Pair(Assess(configB, inputsB.planAnswers, inputsB.planNow).record.epoch, identityB),
                    from, to)
    ensures identityA == identityB
    ensures Assess(configA, inputsA.planAnswers, inputsA.planNow).record.epoch
      == Assess(configB, inputsB.planAnswers, inputsB.planNow).record.epoch
  {
    var votes := LeaseRuns.Votes(leases, events, staleAfter);
    var p := LeaseRuns.Pair(Assess(configA, inputsA.planAnswers, inputsA.planNow).record.epoch, identityA);
    var q := LeaseRuns.Pair(Assess(configB, inputsB.planAnswers, inputsB.planNow).record.epoch, identityB);
    var members := MemberSet(MemberNames(configA));
    UnanimousWin(votes, configA, inputsA.claims, p, from, to);
    UnanimousWin(votes, configB, inputsB.claims, q, from, to);
    NonEmptyMajority(configA);
    LeaseRuns.MajorityExclusive(leases, events, staleAfter, members, members, p, members, q, from, to);
  }

  lemma NonEmptyMajority(config: Config)
    requires config.nodes != []
    ensures |MemberSet(MemberNames(config))| >= Majority.Required(|MemberSet(MemberNames(config))|)
  {
    assert MemberNames(config)[0] in MemberSet(MemberNames(config));
  }

  lemma UnanimousWin(votes: set<LeaseRuns.Vote>, config: Config, claims: seq<LeaseAnswer>, pair: LeaseRuns.Pair,
                     from: int, to: int)
    requires |claims| == |config.nodes| && AllGranted(claims) && FromLeases(votes, config.nodes, claims, pair, from, to)
    ensures LeaseRuns.WonBy(votes, MemberSet(MemberNames(config)), pair, from, to)
  {
    forall m | m in MemberSet(MemberNames(config))
      ensures exists v :: v in votes && v.member == m && v.pair == pair && from <= v.claimedAt <= to
    {
      var k :| 0 <= k < |config.nodes| && MemberNames(config)[k] == m;
      assert claims[k] in claims;
    }
  }
}
