/** Whole runs of one supervisor's recovery protocol: any order of calls, failing writes, restarts that
    forget the memory, and startup decisions written over the file by another store object. */
module ProtocolRuns {
  import opened Options
  import opened Evidence
  import opened RecoveryEpoch
  import opened DecisionStore
  import opened Protocol
  import opened ProtocolFacts
  import Names
  import Sorting

  datatype Call =
    | PlanCall(answers: seq<Answer>, now: int, io: bool)
    | RetryCall(answers: seq<Answer>, now: int, io: bool)
    | AuthorizeCall(authorization: AuthorizeRequest, io: bool)
    | BeginCall(begin: BeginRequest, answers: seq<Answer>, now: int, io: bool)
    | CompleteCall(completion: CompleteRequest, io: bool)
    | StatusCall
    | Restart
    | RecordStartup(epoch: Option<EpochId>)

  function Apply(config: Config, l: Ledger, call: Call): (Ledger, Reply) {
    match call
    case PlanCall(answers, now, io) => PlanStep(config, l, answers, now, io)
    case RetryCall(answers, now, io) => RetryStep(config, l, answers, now, io)
    case AuthorizeCall(request, io) => AuthorizeStep(l, request, io)
    case BeginCall(request, answers, now, io) => BeginStep(config, l, request, answers, now, io)
    case CompleteCall(request, io) => CompleteStep(l, request, io)
    case StatusCall => (ReadThrough(l), Seen(ReadThrough(l).current))
    case Restart => (l.(current := None), Seen(None))
    case RecordStartup(epoch) => (l.(stored := Some(StartupDecision(epoch))), Seen(None))
  }

  function After(config: Config, l: Ledger, calls: seq<Call>): Ledger {
    if calls == [] then l else Apply(config, After(config, l, calls[..|calls| - 1]), calls[|calls| - 1]).0
  }

  function ReplyAt(config: Config, l: Ledger, calls: seq<Call>, k: nat): Reply
    requires k < |calls|
  {
    Apply(config, After(config, l, calls[..k]), calls[k]).1
  }

  /** `Promise.allSettled` answers for every configured node. */
  predicate Answering(config: Config, call: Call) {
    (call.PlanCall? || call.RetryCall? || call.BeginCall?) ==> |call.answers| == |config.nodes|
  }

  predicate Plans(call: Call) {
    call.PlanCall? || call.RetryCall?
  }

  predicate OmitsWinner(call: Call) {
    call.CompleteCall? && call.completion.winner.None?
  }

  lemma AfterLast(config: Config, l: Ledger, calls: seq<Call>, call: Call)
    ensures After(config, l, calls + [call]) == Apply(config, After(config, l, calls), call).0
  {
    assert (calls + [call])[..|calls|] == calls;
  }

  lemma {:induction false} AfterConcat(config: Config, l: Ledger, calls: seq<Call>, more: seq<Call>)
    ensures After(config, l, calls + more) == After(config, After(config, l, calls), more)
  {
    if more == [] {
      assert calls + more == calls;
    } else {
      var front, last := more[..|more| - 1], more[|more| - 1];
      assert calls + more == (calls + front) + [last];
      assert more == front + [last];
      calc {
        After(config, l, calls + more);
        { AfterLast(config, l, calls + front, last); }
        Apply(config, After(config, l, calls + front), last).0;
        { AfterConcat(config, l, calls, front); }
        Apply(config, After(config, After(config, l, calls), front), last).0;
        { AfterLast(config, After(config, l, calls), front, last); }
        After(config, After(config, l, calls), more);
      }
    }
  }

  lemma AfterSplit(config: Config, l: Ledger, calls: seq<Call>, k: nat)
    requires k <= |calls|
    ensures After(config, l, calls) == After(config, After(config, l, calls[..k]), calls[k..])
  {
    AfterConcat(config, l, calls[..k], calls[k..]);
    assert calls == calls[..k] + calls[k..];
  }

  // ----- the shape of one step -----

  /** One call turned `record` into `next`: a step of the phase table that keeps what the epoch is about. */
  ghost predicate Evolves(record: EpochRecord, next: EpochRecord) {
    match next.phase
    case Authorized =>
      && record.phase in {EvidencePhase, Authorized}
      && next == record.(phase := Authorized, acknowledgements := next.acknowledgements,
                         requiredAcknowledgements := next.requiredAcknowledgements, forced := next.forced)
    case Bootstrapping => record.phase == Authorized && next == record.(phase := Bootstrapping)
    case Complete =>
      && record.phase in {Bootstrapping, Complete}
      && next == record.(phase := Complete, winner := WinnerGiven(record.winner.Node()), membership := next.membership)
    case Blocked =>
      record.phase == Authorized && next == record.(phase := Blocked, code := next.code, evidence := next.evidence)
    case EvidencePhase => false
  }

  /** The ledger after a call that evolves the record in memory; the store follows or keeps what it had. */
  ghost predicate Stepped(l: Ledger, after: Ledger) {
    var before := ReadThrough(l);
    || after == before
    || (&& before.current.Some? && before.current.value.Planned?
        && after.current.Some? && after.current.value.Planned?
        && Evolves(before.current.value.record, after.current.value.record)
        && (after.stored == l.stored
            || (after.stored == after.current && EpochOf(l.stored) == Some(before.current.value.record.epoch))))
  }

  lemma AuthorizeSteps(l: Ledger, request: AuthorizeRequest, io: bool)
    ensures Stepped(l, AuthorizeStep(l, request, io).0)
  {
  }

  lemma BeginSteps(l: Ledger, request: BeginRequest, collected: Collected, latest: seq<Report>, io: bool)
    ensures Stepped(l, BeginOn(l, request, collected, latest, io).0)
  {
  }

  lemma CompleteSteps(l: Ledger, request: CompleteRequest, io: bool)
    ensures Stepped(l, CompleteStep(l, request, io).0)
  {
  }

  lemma CallSteps(config: Config, l: Ledger, call: Call)
    requires call.AuthorizeCall? || call.BeginCall? || call.CompleteCall?
    ensures Stepped(l, Apply(config, l, call).0)
  {
    match call
    case AuthorizeCall(request, io) => AuthorizeSteps(l, request, io);
    case BeginCall(request, answers, now, io) => BeginSteps(l, request, Collect(config, answers, now), Items(answers),
                                                            io);
    case CompleteCall(request, io) => CompleteSteps(l, request, io);
    case _ =>
  }

  // ----- the record invariant -----

  ghost predicate Acknowledged(record: EpochRecord) {
    && Sorting.NoDuplicates(record.acknowledgements)
    && (forall name <- record.acknowledgements :: name in record.quorum)
    && 1 <= record.requiredAcknowledgements <= |record.quorum|
    && |record.acknowledgements| >= record.requiredAcknowledgements
  }

  /** What every epoch record the protocol keeps satisfies, phase by phase. */
  ghost predicate RecordOk(config: Config, record: EpochRecord) {
    && record.epoch == EpochId(record.clusterId, record.digest)
    && record.clusterId != ""
    && record.quorum == QuorumOf(MemberNames(config))
    && (record.winner.WinnerRecord? <==> record.phase != Complete)
    && (record.phase in {EvidencePhase, Authorized, Bootstrapping} ==> WellPlanned(config, record))
    && (record.phase in {Authorized, Bootstrapping, Complete} ==> Acknowledged(record))
    && (record.phase == Complete ==> SameMembership(record.membership, record.quorum))
  }

  ghost predicate DocumentOk(config: Config, document: Option<Document>) {
    document.Some? && document.value.Planned? ==> RecordOk(config, document.value.record)
  }

  ghost predicate LedgerOk(config: Config, l: Ledger) {
    DocumentOk(config, l.current) && DocumentOk(config, l.stored)
  }

  lemma PlanKeeps(config: Config, l: Ledger, answers: seq<Answer>, now: int, io: bool)
    requires config.nodes != [] && |answers| == |config.nodes| && LedgerOk(config, l)
    ensures LedgerOk(config, PlanStep(config, l, answers, now, io).0)
  {
    PlanExact(config, answers, now);
    ElectExact(config, answers, now);
  }

  lemma AuthorizeKeeps(config: Config, l: Ledger, request: AuthorizeRequest, io: bool)
    requires LedgerOk(config, l)
    ensures LedgerOk(config, AuthorizeStep(l, request, io).0)
  {
    var before, after := ReadThrough(l), AuthorizeStep(l, request, io).0;
    AuthorizeSteps(l, request, io);
    AuthorizeEnds(l, request, io);
    if after != before {
      QuorumMembers(MemberNames(config));
      AuthorizedAcknowledged(l, request, io);
      AuthorizedOk(config, before.current.value.record, after.current.value.record);
    }
  }

  lemma AuthorizedOk(config: Config, record: EpochRecord, next: EpochRecord)
    requires RecordOk(config, record) && Evolves(record, next) && next.phase == Authorized && Acknowledged(next)
    ensures RecordOk(config, next)
  {
  }

  /** An authorization that changes anything leaves a record with acknowledgements enough. */
  lemma AuthorizedAcknowledged(l: Ledger, request: AuthorizeRequest, io: bool)
    requires AuthorizeStep(l, request, io).0 != ReadThrough(l)
    requires forall r :: NamedRecord(ReadThrough(l).current, request.epoch) == Some(r) ==>
      Sorting.NoDuplicates(r.quorum)
    ensures var after := AuthorizeStep(l, request, io).0;
      EndsIn(after, {Authorized}) && Acknowledged(after.current.value.record)
  {
    var record := NamedRecord(ReadThrough(l).current, request.epoch).value;
    GivenFacts(record, request);
    KnownAcknowledgements(record, request);
    var details := NO_DETAILS.(acknowledgements := Some(GivenAcknowledgements(record, request)),
                               requiredAcknowledgements := Some(AcceptedSize(record, request)),
                               forced := request.force);
    AcknowledgementsExact(record.quorum, details);
  }

  lemma EvolvedOk(config: Config, record: EpochRecord, next: EpochRecord)
    requires RecordOk(config, record) && Evolves(record, next) && next.phase in {Bootstrapping, Blocked}
    ensures RecordOk(config, next)
  {
  }

  lemma BeginKeeps(config: Config, l: Ledger, request: BeginRequest, answers: seq<Answer>, now: int, io: bool)
    requires LedgerOk(config, l)
    ensures LedgerOk(config, BeginStep(config, l, request, answers, now, io).0)
  {
    var after := BeginStep(config, l, request, answers, now, io).0;
    BeginEnds(l, request, Collect(config, answers, now), Items(answers), io);
    CallSteps(config, l, BeginCall(request, answers, now, io));
    var before := ReadThrough(l);
    if after != before {
      EvolvedOk(config, before.current.value.record, after.current.value.record);
    }
  }

  ghost predicate EndsIn(l: Ledger, phases: set<Phase>) {
    l.current.Some? && l.current.value.Planned? && l.current.value.record.phase in phases
  }

  lemma AuthorizeEnds(l: Ledger, request: AuthorizeRequest, io: bool)
    ensures var after := AuthorizeStep(l, request, io).0; after == ReadThrough(l) || EndsIn(after, {Authorized})
  {
  }

  lemma BeginEnds(l: Ledger, request: BeginRequest, collected: Collected, latest: seq<Report>, io: bool)
    ensures var after := BeginOn(l, request, collected, latest, io).0;
      after == ReadThrough(l) || EndsIn(after, {Bootstrapping, Blocked})
  {
  }

  lemma CompleteKeeps(config: Config, l: Ledger, request: CompleteRequest, io: bool)
    requires LedgerOk(config, l)
    ensures LedgerOk(config, CompleteStep(l, request, io).0)
  {
    var before, after := ReadThrough(l), CompleteStep(l, request, io).0;
    CompleteSteps(l, request, io);
    CompleteEnds(l, request, io);
    if after != before {
      CompletedOk(config, before.current.value.record, after.current.value.record);
    }
  }

  lemma CompleteEnds(l: Ledger, request: CompleteRequest, io: bool)
    ensures var after := CompleteStep(l, request, io).0;
      || after == ReadThrough(l)
      || (&& EndsIn(after, {Complete})
          && SameMembership(after.current.value.record.membership, after.current.value.record.quorum))
  {
  }

  lemma CompletedOk(config: Config, record: EpochRecord, next: EpochRecord)
    requires RecordOk(config, record) && Evolves(record, next)
    requires next.phase == Complete && SameMembership(next.membership, next.quorum)
    ensures RecordOk(config, next)
  {
  }

  lemma StepKeeps(config: Config, l: Ledger, call: Call)
    requires config.nodes != [] && Answering(config, call) && LedgerOk(config, l)
    ensures LedgerOk(config, Apply(config, l, call).0)
  {
    match call
    case PlanCall(answers, now, io) => PlanKeeps(config, l, answers, now, io);
    case RetryCall(answers, now, io) => PlanKeeps(config, l.(current := None), answers, now, io);
    case AuthorizeCall(request, io) => AuthorizeKeeps(config, l, request, io);
    case BeginCall(request, answers, now, io) => BeginKeeps(config, l, request, answers, now, io);
    case CompleteCall(request, io) => CompleteKeeps(config, l, request, io);
    case _ =>
  }

  /** Every reachable record is well planned, acknowledged and completed as its phase demands. */
  lemma {:induction false} RunKeeps(config: Config, l: Ledger, calls: seq<Call>)
    requires config.nodes != [] && LedgerOk(config, l) && forall call <- calls :: Answering(config, call)
    ensures LedgerOk(config, After(config, l, calls))
  {
    if calls != [] {
      var n := |calls| - 1;
      RunKeeps(config, l, calls[..n]);
      StepKeeps(config, After(config, l, calls[..n]), calls[n]);
    }
  }

  /** Selection on this evidence would pick the recorded winner. */
  ghost predicate ChoosesAgain(config: Config, latest: seq<Report>, record: EpochRecord) {
    var again := Candidate.SelectCandidate(latest, Majority.Required(|config.nodes|));
    && again.Eligible? && record.winner.WinnerRecord?
    && Candidate.PositionOf(again.candidate)
      == Candidate.Position(record.winner.node, record.winner.uuid, record.winner.seqno)
  }

  /** In every run, whatever was planned before, a bootstrap that begins is entitled to: all nodes answered,
      no Primary is active, the digest is the planned one and selection would choose the caller again. */
  lemma BootstrapSoundInRuns(config: Config, l: Ledger, calls: seq<Call>, k: nat)
    requires config.nodes != [] && LedgerOk(config, l) && (forall call <- calls :: Answering(config, call))
    requires k < |calls| && calls[k].BeginCall? && ReplyAt(config, l, calls, k).Advanced?
    ensures var latest, record := Items(calls[k].answers), ReplyAt(config, l, calls, k).record;
      && record.phase == Bootstrapping && RecordOk(config, record)
      && Sha256(Canonical(latest)) == record.digest
      && (forall a <- calls[k].answers :: a.Fulfilled?)
      && ValidEvidence(latest, calls[k].now, config.maxAge)
      && !AnyActivePrimary(config.nodes, latest)
      && calls[k].begin.winner == Some(record.winner.node)
      && ChoosesAgain(config, latest, record)
  {
    RunKeeps(config, l, calls[..k]);
    var before := After(config, l, calls[..k]);
    assert calls[k] in calls;
    BootstrapSound(config, before, calls[k].begin, calls[k].answers, calls[k].now, calls[k].io);
  }

  lemma BootstrapSound(config: Config, l: Ledger, request: BeginRequest, answers: seq<Answer>, now: int, io: bool)
    requires config.nodes != [] && LedgerOk(config, l) && |answers| == |config.nodes|
    requires BeginStep(config, l, request, answers, now, io).1.Advanced?
    ensures var latest, record := Items(answers), BeginStep(config, l, request, answers, now, io).1.record;
      && record.phase == Bootstrapping && RecordOk(config, record)
      && Sha256(Canonical(latest)) == record.digest
      && (forall a <- answers :: a.Fulfilled?)
      && ValidEvidence(latest, now, config.maxAge)
      && !AnyActivePrimary(config.nodes, latest)
      && request.winner == Some(record.winner.node)
      && ChoosesAgain(config, latest, record)
  {
    BeginMatches(config, l, request, answers, now, io);
    BeginAdvanced(config, l, request, answers, now, io);
    var record := NamedRecord(ReadThrough(l).current, request.epoch).value;
    SameDigestFullView(config, record, answers, now);
    ValidUsable(Items(answers), now, config.maxAge);
    SameDigestSameChoice(config, record, Items(answers));
    EvolvedOk(config, record, record.(phase := Bootstrapping));
  }

  // ----- identity between plans -----

  datatype Identity = Identity(epoch: EpochId, clusterId: string, digest: Digest, quorum: seq<string>)

  function IdentityOf(record: EpochRecord): Identity {
    Identity(record.epoch, record.clusterId, record.digest, record.quorum)
  }

  ghost predicate DocumentNames(document: Option<Document>, identity: Identity) {
    document.Some? && document.value.Planned? ==> IdentityOf(document.value.record) == identity
  }

  ghost predicate OnlyNames(l: Ledger, identity: Identity) {
    DocumentNames(l.current, identity) && DocumentNames(l.stored, identity)
  }

  lemma StepKeepsIdentity(config: Config, l: Ledger, call: Call, identity: Identity)
    requires OnlyNames(l, identity) && !Plans(call)
    ensures OnlyNames(Apply(config, l, call).0, identity)
  {
    if call.AuthorizeCall? || call.BeginCall? || call.CompleteCall? {
      CallSteps(config, l, call);
      SteppedKeepsIdentity(l, Apply(config, l, call).0, identity);
    }
  }

  lemma SteppedKeepsIdentity(l: Ledger, after: Ledger, identity: Identity)
    requires OnlyNames(l, identity) && Stepped(l, after)
    ensures OnlyNames(after, identity)
  {
  }

  /** Between plans nothing changes which epoch, cluster, digest and quorum it is about: neither calls, nor failed
      writes, nor restarts. */
  lemma {:induction false} IdentityFixed(config: Config, l: Ledger, calls: seq<Call>, identity: Identity)
    requires OnlyNames(l, identity) && forall call <- calls :: !Plans(call)
    ensures OnlyNames(After(config, l, calls), identity)
  {
    if calls != [] {
      var n := |calls| - 1;
      IdentityFixed(config, l, calls[..n], identity);
      StepKeepsIdentity(config, After(config, l, calls[..n]), calls[n], identity);
    }
  }

  // ----- the winner's name between plans -----

  ghost predicate DocumentWins(document: Option<Document>, name: string) {
    document.Some? && document.value.Planned? ==> document.value.record.winner.Name() == Some(name)
  }

  ghost predicate OnlyWins(l: Ledger, name: string) {
    DocumentWins(l.current, name) && DocumentWins(l.stored, name)
  }

  /** The record in force is the one named, it holds its winner as a bare name, and the completion that omits the
      winner fits its phase, cluster and quorum. */
  predicate ForgetsWinner(document: Option<Document>, request: CompleteRequest) {
    var existing := NamedRecord(document, request.epoch);
    && request.winner.None? && existing.Some?
    && existing.value.phase in {Bootstrapping, Complete}
    && existing.value.winner.WinnerGiven? && existing.value.winner.name.Some?
    && request.clusterId == Some(existing.value.clusterId)
    && request.membership.Some? && SameMembership(request.membership.value, existing.value.quorum)
  }

  /** Call `k` completes such a record, whether or not the write will succeed. */
  ghost predicate DropsWinner(config: Config, l: Ledger, calls: seq<Call>, k: nat)
    requires k < |calls|
  {
    calls[k].CompleteCall? && ForgetsWinner(ReadThrough(After(config, l, calls[..k])).current, calls[k].completion)
  }

  /** The records of a run hold a bare name exactly when they are complete. */
  lemma ForgottenWasComplete(config: Config, l: Ledger, request: CompleteRequest)
    requires LedgerOk(config, l) && ForgetsWinner(ReadThrough(l).current, request)
    ensures NamedRecord(ReadThrough(l).current, request.epoch).value.phase == Complete
  {
  }

  lemma CompleteWinner(l: Ledger, request: CompleteRequest, io: bool, name: string)
    requires OnlyWins(l, name)
    ensures OnlyWins(CompleteStep(l, request, io).0, name) <==> !ForgetsWinner(ReadThrough(l).current, request)
  {
  }

  lemma SteppedKeepsWinner(l: Ledger, after: Ledger, name: string)
    requires OnlyWins(l, name) && Stepped(l, after)
    requires after == ReadThrough(l) || EndsIn(after, {Authorized, Bootstrapping, Blocked})
    ensures OnlyWins(after, name)
  {
  }

  lemma StepWinner(config: Config, l: Ledger, call: Call, name: string)
    requires OnlyWins(l, name) && !Plans(call)
    ensures OnlyWins(Apply(config, l, call).0, name)
       <==> !(call.CompleteCall? && ForgetsWinner(ReadThrough(l).current, call.completion))
  {
    match call
    case CompleteCall(request, io) => CompleteWinner(l, request, io, name);
    case AuthorizeCall(request, io) =>
      AuthorizeSteps(l, request, io);
      AuthorizeEnds(l, request, io);
      SteppedKeepsWinner(l, AuthorizeStep(l, request, io).0, name);
    case BeginCall(request, answers, now, io) =>
      CallSteps(config, l, call);
      BeginEnds(l, request, Collect(config, answers, now), Items(answers), io);
      SteppedKeepsWinner(l, BeginStep(config, l, request, answers, now, io).0, name);
    case _ =>
  }

  lemma AfterNext(config: Config, l: Ledger, calls: seq<Call>, k: nat)
    requires k < |calls|
    ensures After(config, l, calls[..k + 1]) == Apply(config, After(config, l, calls[..k]), calls[k]).0
  {
    AfterLast(config, l, calls[..k], calls[k]);
    assert calls[..k + 1] == calls[..k] + [calls[k]];
  }

  lemma {:induction false} WinnerKept(config: Config, l: Ledger, calls: seq<Call>, name: string, k: nat)
    requires OnlyWins(l, name) && (forall call <- calls :: !Plans(call)) && k <= |calls|
    requires forall i :: 0 <= i < k ==> !DropsWinner(config, l, calls, i)
    ensures OnlyWins(After(config, l, calls[..k]), name)
    decreases k
  {
    if k == 0 {
      assert calls[..0] == [];
    } else {
      WinnerKept(config, l, calls, name, k - 1);
      assert !DropsWinner(config, l, calls, k - 1);
      StepWinner(config, After(config, l, calls[..k - 1]), calls[k - 1], name);
      AfterNext(config, l, calls, k - 1);
    }
  }

  /** Between plans the winner keeps its name in memory and store, through failed writes and restarts, exactly as long
      as no completion that omits the winner meets a record that holds a bare name and fits it. */
  lemma WinnerNameExact(config: Config, l: Ledger, calls: seq<Call>, name: string)
    requires OnlyWins(l, name) && forall call <- calls :: !Plans(call)
    ensures (forall k :: 0 <= k <= |calls| ==> OnlyWins(After(config, l, calls[..k]), name))
       <==> (forall k :: 0 <= k < |calls| ==> !DropsWinner(config, l, calls, k))
  {
    if forall k :: 0 <= k < |calls| ==> !DropsWinner(config, l, calls, k) {
      forall k | 0 <= k <= |calls| ensures OnlyWins(After(config, l, calls[..k]), name) {
        WinnerKept(config, l, calls, name, k);
      }
    }
    if k :| 0 <= k < |calls| && DropsWinner(config, l, calls, k) {
      if OnlyWins(After(config, l, calls[..k]), name) {
        StepWinner(config, After(config, l, calls[..k]), calls[k], name);
        AfterNext(config, l, calls, k);
        assert !OnlyWins(After(config, l, calls[..k + 1]), name);
      }
    }
  }

  /** A plan that reports an election leaves a ledger that names only the elected epoch and winner. */
  lemma ElectionNames(config: Config, l: Ledger, call: Call)
    requires Plans(call) && Apply(config, l, call).1.Elected?
    ensures var (after, reply) := Apply(config, l, call);
      && after == Ledger(Some(Planned(reply.planned)), Some(Planned(reply.planned)))
      && OnlyNames(after, IdentityOf(reply.planned))
      && (reply.planned.winner.WinnerRecord? ==> OnlyWins(after, reply.planned.winner.node))
  {
  }

  // ----- phases -----

  /** Without a new plan or a restart, the record in memory stays where it is or takes one step of the
      phase table; a refused or repeated call never moves it back. */
  lemma PhaseStep(config: Config, l: Ledger, call: Call)
    requires !Plans(call) && !call.Restart?
    requires l.current.Some? && l.current.value.Planned?
    ensures var after := Apply(config, l, call).0;
      && after.current.Some? && after.current.value.Planned?
      && var was, now := l.current.value.record.phase, after.current.value.record.phase;
         now == was || Allowed(was, now)
  {
    if call.AuthorizeCall? || call.BeginCall? || call.CompleteCall? {
      CallSteps(config, l, call);
    }
  }

  ghost predicate DocumentPast(document: Option<Document>, phases: set<Phase>) {
    document.Some? && document.value.Planned? ==> document.value.record.phase in phases
  }

  ghost predicate Past(l: Ledger, phases: set<Phase>) {
    DocumentPast(l.current, phases) && DocumentPast(l.stored, phases)
  }

  const FROM_BOOTSTRAPPING := {Bootstrapping, Complete, Blocked}

  lemma StepStaysPast(config: Config, l: Ledger, call: Call)
    requires !Plans(call)
    ensures Past(l, FROM_BOOTSTRAPPING) ==> Past(Apply(config, l, call).0, FROM_BOOTSTRAPPING)
    ensures Past(l, {Complete}) ==> Past(Apply(config, l, call).0, {Complete})
    ensures Past(l, {Blocked}) ==> Past(Apply(config, l, call).0, {Blocked})
  {
    if call.AuthorizeCall? || call.BeginCall? || call.CompleteCall? {
      CallSteps(config, l, call);
    }
  }

  lemma {:induction false} RunStaysPast(config: Config, l: Ledger, calls: seq<Call>)
    requires forall call <- calls :: !Plans(call)
    ensures Past(l, FROM_BOOTSTRAPPING) ==> Past(After(config, l, calls), FROM_BOOTSTRAPPING)
    ensures Past(l, {Complete}) ==> Past(After(config, l, calls), {Complete})
    ensures Past(l, {Blocked}) ==> Past(After(config, l, calls), {Blocked})
  {
    if calls != [] {
      var n := |calls| - 1;
      RunStaysPast(config, l, calls[..n]);
      StepStaysPast(config, After(config, l, calls[..n]), calls[n]);
    }
  }

  lemma BeginAdvanced(config: Config, l: Ledger, request: BeginRequest, answers: seq<Answer>, now: int, io: bool)
    requires BeginStep(config, l, request, answers, now, io).1.Advanced?
    ensures var (after, reply) := BeginStep(config, l, request, answers, now, io);
      && after == Ledger(Some(Planned(reply.record)), Some(Planned(reply.record)))
      && NamedRecord(ReadThrough(l).current, request.epoch).Some?
      && reply.record == NamedRecord(ReadThrough(l).current, request.epoch).value.(phase := Bootstrapping)
  {
    BeginOnMatches(l, request, Collect(config, answers, now), Items(answers), io);
  }

  lemma NoSecondBegin(config: Config, l: Ledger, request: BeginRequest, answers: seq<Answer>, now: int, io: bool)
    requires Past(l, FROM_BOOTSTRAPPING)
    ensures !BeginStep(config, l, request, answers, now, io).1.Advanced?
  {
    if BeginStep(config, l, request, answers, now, io).1.Advanced? {
      BeginMatches(config, l, request, answers, now, io);
    }
  }

  lemma AfterFirstBegin(config: Config, l: Ledger, calls: seq<Call>, i: nat)
    requires i < |calls| && calls[i].BeginCall? && ReplyAt(config, l, calls, i).Advanced?
    ensures Past(After(config, l, calls[..i + 1]), FROM_BOOTSTRAPPING)
  {
    BeginAdvanced(config, After(config, l, calls[..i]), calls[i].begin, calls[i].answers, calls[i].now, calls[i].io);
    assert calls[..i + 1][..i] == calls[..i];
  }

  /** Bootstrapping is entered at most once between plans, across restarts and failed writes. */
  lemma BootstrapOnce(config: Config, l: Ledger, calls: seq<Call>, i: nat, j: nat)
    requires i < j < |calls| && calls[i].BeginCall? && calls[j].BeginCall?
    requires ReplyAt(config, l, calls, i).Advanced? && ReplyAt(config, l, calls, j).Advanced?
    ensures exists k :: i < k < j && Plans(calls[k])
  {
    if forall k :: i < k < j ==> !Plans(calls[k]) {
      LaterLedger(config, l, calls, i, j);
      AfterFirstBegin(config, l, calls, i);
      RunStaysPast(config, After(config, l, calls[..i + 1]), calls[i + 1..j]);
      NoSecondBegin(config, After(config, l, calls[..j]), calls[j].begin, calls[j].answers, calls[j].now, calls[j].io);
      assert false;
    }
  }

  /** A completion that names its winner succeeds at most once between plans. */
  lemma CompleteOnce(config: Config, l: Ledger, calls: seq<Call>, i: nat, j: nat)
    requires config.nodes != [] && LedgerOk(config, l) && (forall call <- calls :: Answering(config, call))
    requires i < j < |calls| && calls[i].CompleteCall? && calls[j].CompleteCall? && !OmitsWinner(calls[j])
    requires ReplyAt(config, l, calls, i).Advanced? && ReplyAt(config, l, calls, j).Advanced?
    ensures exists k :: i < k < j && Plans(calls[k])
  {
    if forall k :: i < k < j ==> !Plans(calls[k]) {
      LaterLedger(config, l, calls, i, j);
      var first := After(config, l, calls[..i + 1]);
      AfterCompletion(config, l, calls, i);
      RunStaysPast(config, first, calls[i + 1..j]);
      RunKeeps(config, l, calls[..j]);
      CompleteExact(After(config, l, calls[..j]), calls[j].completion, calls[j].io);
      assert false;
    }
  }

  ghost predicate DocumentSpent(document: Option<Document>) {
    document.Some? && document.value.Planned? ==> document.value.record.winner == WinnerGiven(None)
  }

  /** Every record is complete and has lost its winner. */
  ghost predicate Spent(l: Ledger) {
    Past(l, {Complete}) && DocumentSpent(l.current) && DocumentSpent(l.stored)
  }

  lemma SpentStays(config: Config, l: Ledger, call: Call)
    requires Spent(l) && !Plans(call)
    ensures Spent(Apply(config, l, call).0)
    ensures call.CompleteCall? ==> !Apply(config, l, call).1.Advanced?
  {
    if call.AuthorizeCall? || call.BeginCall? {
      CallSteps(config, l, call);
    }
  }

  lemma {:induction false} RunStaysSpent(config: Config, l: Ledger, calls: seq<Call>)
    requires Spent(l) && forall call <- calls :: !Plans(call)
    ensures Spent(After(config, l, calls))
  {
    if calls != [] {
      var n := |calls| - 1;
      RunStaysSpent(config, l, calls[..n]);
      SpentStays(config, After(config, l, calls[..n]), calls[n]);
    }
  }

  /** After a successful completion memory and store hold one complete record. */
  lemma AfterCompletion(config: Config, l: Ledger, calls: seq<Call>, i: nat)
    requires config.nodes != [] && LedgerOk(config, l) && (forall call <- calls :: Answering(config, call))
    requires i < |calls| && calls[i].CompleteCall? && ReplyAt(config, l, calls, i).Advanced?
    ensures Past(After(config, l, calls[..i + 1]), {Complete})
    ensures calls[i].completion.winner.None? ==> Spent(After(config, l, calls[..i + 1]))
  {
    RunKeeps(config, l, calls[..i]);
    CompleteExact(After(config, l, calls[..i]), calls[i].completion, calls[i].io);
    AfterNext(config, l, calls, i);
  }

  /** Between plans at most two completions succeed, the second only by omitting the winner. */
  lemma CompleteAtMostTwice(config: Config, l: Ledger, calls: seq<Call>, i: nat, j: nat, k: nat)
    requires config.nodes != [] && LedgerOk(config, l) && (forall call <- calls :: Answering(config, call))
    requires i < j < k < |calls| && calls[i].CompleteCall? && calls[j].CompleteCall? && calls[k].CompleteCall?
    requires ReplyAt(config, l, calls, i).Advanced? && ReplyAt(config, l, calls, j).Advanced?
    requires ReplyAt(config, l, calls, k).Advanced?
    ensures exists m :: i < m < k && Plans(calls[m])
  {
    if forall m :: i < m < k ==> !Plans(calls[m]) {
      if !OmitsWinner(calls[j]) {
        CompleteOnce(config, l, calls, i, j);
      } else {
        LaterLedger(config, l, calls, j, k);
        AfterCompletion(config, l, calls, j);
        RunStaysSpent(config, After(config, l, calls[..j + 1]), calls[j + 1..k]);
        SpentStays(config, After(config, l, calls[..k]), calls[k]);
        assert false;
      }
    }
  }

  lemma LaterLedger(config: Config, l: Ledger, calls: seq<Call>, i: nat, j: nat)
    requires i < j < |calls| && forall k :: i < k < j ==> !Plans(calls[k])
    ensures After(config, l, calls[..j]) == After(config, After(config, l, calls[..i + 1]), calls[i + 1..j])
    ensures forall call <- calls[i + 1..j] :: !Plans(call)
  {
    AfterSplit(config, l, calls[..j], i + 1);
    assert calls[..j][..i + 1] == calls[..i + 1] && calls[..j][i + 1..] == calls[i + 1..j];
  }

  lemma QuorumNonEmpty(config: Config)
    requires config.nodes != []
    ensures QuorumOf(MemberNames(config)) != []
  {
    var names := MemberNames(config);
    assert names[0] in names;
    QuorumMembers(names);
    assert names[0] in QuorumOf(names);
  }

  ghost predicate Holds(document: Option<Document>, phase: Phase) {
    document.Some? && document.value.Planned? && document.value.record.phase == phase
  }

  /** The record the next call will work on: the one in memory, or else the stored one. */
  ghost predicate InForce(l: Ledger, phase: Phase) {
    Holds(ReadThrough(l).current, phase)
  }

  /** A restart finds a store that never got the record, or the file is overwritten before it was read back. */
  ghost predicate Forgets(l: Ledger, call: Call, phase: Phase) {
    (call.Restart? && !Holds(l.stored, phase)) || (call.RecordStartup? && l.current.None?)
  }

  lemma TerminalStep(config: Config, l: Ledger, call: Call, phase: Phase)
    requires phase in {Blocked, Complete} && InForce(l, phase) && !Plans(call)
    ensures InForce(Apply(config, l, call).0, phase) <==> !Forgets(l, call, phase)
    ensures Holds(l.current, phase) && !call.Restart? ==> Holds(Apply(config, l, call).0.current, phase)
  {
    if call.AuthorizeCall? || call.BeginCall? || call.CompleteCall? {
      CallSteps(config, l, call);
    }
  }

  lemma {:induction false} TerminalKept(config: Config, l: Ledger, calls: seq<Call>, phase: Phase, k: nat)
    requires phase in {Blocked, Complete} && InForce(l, phase) && (forall call <- calls :: !Plans(call)) && k <= |calls|
    requires forall i :: 0 <= i < k ==> !Forgets(After(config, l, calls[..i]), calls[i], phase)
    ensures InForce(After(config, l, calls[..k]), phase)
    decreases k
  {
    if k == 0 {
      assert calls[..0] == [];
    } else {
      TerminalKept(config, l, calls, phase, k - 1);
      TerminalStep(config, After(config, l, calls[..k - 1]), calls[k - 1], phase);
      AfterNext(config, l, calls, k - 1);
    }
  }

  /** Without a plan, a blocked or complete record stays in force exactly as long as no restart meets a store that
      does not hold that phase and nobody overwrites the file between a restart and the next read. */
  lemma TerminalUntilPlan(config: Config, l: Ledger, calls: seq<Call>, phase: Phase)
    requires phase in {Blocked, Complete} && InForce(l, phase) && forall call <- calls :: !Plans(call)
    ensures (forall k :: 0 <= k <= |calls| ==> InForce(After(config, l, calls[..k]), phase))
       <==> (forall k :: 0 <= k < |calls| ==> !Forgets(After(config, l, calls[..k]), calls[k], phase))
  {
    if forall k :: 0 <= k < |calls| ==> !Forgets(After(config, l, calls[..k]), calls[k], phase) {
      forall k | 0 <= k <= |calls| ensures InForce(After(config, l, calls[..k]), phase) {
        TerminalKept(config, l, calls, phase, k);
      }
    }
    if k :| 0 <= k < |calls| && Forgets(After(config, l, calls[..k]), calls[k], phase) {
      if InForce(After(config, l, calls[..k]), phase) {
        TerminalStep(config, After(config, l, calls[..k]), calls[k], phase);
        AfterNext(config, l, calls, k);
        assert !InForce(After(config, l, calls[..k + 1]), phase);
      }
    }
  }

  /** Without a plan and without a restart a terminal record in memory never moves, written or not. */
  lemma {:induction false} TerminalWithoutRestart(config: Config, l: Ledger, calls: seq<Call>, phase: Phase)
    requires phase in {Blocked, Complete} && Holds(l.current, phase)
    requires forall call <- calls :: !Plans(call) && !call.Restart?
    ensures Holds(After(config, l, calls).current, phase)
  {
    if calls != [] {
      var n := |calls| - 1;
      TerminalWithoutRestart(config, l, calls[..n], phase);
      TerminalStep(config, After(config, l, calls[..n]), calls[n], phase);
    }
  }

  /** The completed membership is the quorum rearranged, exactly when its names are plain. */
  lemma CompletedMembership(config: Config, l: Ledger, calls: seq<Call>)
    requires config.nodes != [] && LedgerOk(config, l) && (forall call <- calls :: Answering(config, call))
    requires forall n <- config.nodes :: Names.IsFqdn(n.name)
    requires var d := After(config, l, calls).current; d.Some? && d.value.Planned? && d.value.record.phase == Complete
    ensures var record := After(config, l, calls).current.value.record;
      multiset(record.membership) == multiset(record.quorum) <==> Plain(record.membership)
  {
    RunKeeps(config, l, calls);
    var record := After(config, l, calls).current.value.record;
    QuorumMembers(MemberNames(config));
    QuorumNonEmpty(config);
    forall name | name in record.quorum ensures '\\' !in name {
      assert name in MemberNames(config);
      var k :| 0 <= k < |config.nodes| && config.nodes[k].name == name;
      assert Names.IsFqdn(config.nodes[k].name);
      if '\\' in name {
        Names.LabelCharacters(name, '\\');
      }
    }
    MembershipExact(record.membership, record.quorum);
  }

  // ----- memory and store -----

  /** Conditional writes never change the epoch that is stored, whether they succeed or not. */
  lemma StoredEpochFixed(config: Config, l: Ledger, call: Call)
    requires call.AuthorizeCall? || call.BeginCall? || call.CompleteCall?
    ensures EpochOf(Apply(config, l, call).0.stored) == EpochOf(l.stored)
  {
    CallSteps(config, l, call);
  }

  ghost predicate Mirrored(l: Ledger) {
    l.current.Some? ==> l.current == l.stored
  }

  lemma StepMirrors(config: Config, l: Ledger, call: Call)
    requires Mirrored(l) && !Apply(config, l, call).1.NotPersisted? && !call.RecordStartup?
    ensures Mirrored(Apply(config, l, call).0)
  {
    match call
    case PlanCall(answers, now, io) => PlanMirrors(l, Assess(config, answers, now), io);
    case RetryCall(answers, now, io) =>
      if DocumentCode(l.current) != Some(IdentityMismatch) {
        PlanMirrors(l.(current := None), Assess(config, answers, now), io);
      }
    case AuthorizeCall(request, io) => AuthorizeMirrors(l, request, io);
    case BeginCall(request, answers, now, io) => BeginMirrors(l, request, Collect(config, answers, now), Items(answers),
                                                              io);
    case CompleteCall(request, io) => CompleteMirrors(l, request, io);
    case _ =>
  }

  lemma PlanMirrors(l: Ledger, verdict: Verdict, io: bool)
    requires Mirrored(l) && !PlanOn(l, verdict, io).1.NotPersisted?
    ensures Mirrored(PlanOn(l, verdict, io).0)
  {
  }

  lemma AuthorizeMirrors(l: Ledger, request: AuthorizeRequest, io: bool)
    requires Mirrored(l) && !AuthorizeStep(l, request, io).1.NotPersisted?
    ensures Mirrored(AuthorizeStep(l, request, io).0)
  {
  }

  lemma BeginMirrors(l: Ledger, request: BeginRequest, collected: Collected, latest: seq<Report>, io: bool)
    requires Mirrored(l) && !BeginOn(l, request, collected, latest, io).1.NotPersisted?
    ensures Mirrored(BeginOn(l, request, collected, latest, io).0)
  {
  }

  lemma CompleteMirrors(l: Ledger, request: CompleteRequest, io: bool)
    requires Mirrored(l) && !CompleteStep(l, request, io).1.NotPersisted?
    ensures Mirrored(CompleteStep(l, request, io).0)
  {
  }

  /** The write of call `k`, if it made one, succeeded, and it was no write of somebody else. */
  ghost predicate WriteHeld(config: Config, l: Ledger, calls: seq<Call>, k: nat)
    requires k < |calls|
  {
    !ReplyAt(config, l, calls, k).NotPersisted? && !calls[k].RecordStartup?
  }

  lemma WriteHeldPrefix(config: Config, l: Ledger, calls: seq<Call>, n: nat, k: nat)
    requires k < n <= |calls| && WriteHeld(config, l, calls, k)
    ensures WriteHeld(config, l, calls[..n], k)
  {
    assert calls[..n][..k] == calls[..k];
  }

  lemma {:induction false} RunMirrors(config: Config, l: Ledger, calls: seq<Call>)
    requires Mirrored(l) && forall k :: 0 <= k < |calls| ==> WriteHeld(config, l, calls, k)
    ensures Mirrored(After(config, l, calls))
  {
    if calls != [] {
      var n := |calls| - 1;
      forall k | 0 <= k < n ensures WriteHeld(config, l, calls[..n], k) {
        WriteHeldPrefix(config, l, calls, n, k);
      }
      RunMirrors(config, l, calls[..n]);
      assert WriteHeld(config, l, calls, n);
      StepMirrors(config, After(config, l, calls[..n]), calls[n]);
    }
  }

  /** As long as no write fails and nobody else writes the file, memory and store agree, so a restart
      resumes the record it left. */
  lemma RestartResumes(config: Config, l: Ledger, calls: seq<Call>)
    requires Mirrored(l) && forall k :: 0 <= k < |calls| ==> WriteHeld(config, l, calls, k)
    ensures var end := After(config, l, calls);
      && Mirrored(end)
      && (end.current.Some? ==> ReadThrough(Apply(config, end, Restart).0).current == end.current)
  {
    RunMirrors(config, l, calls);
    if After(config, l, calls).current.Some? {
      MirroredResumes(config, After(config, l, calls));
    }
  }

  lemma MirroredResumes(config: Config, l: Ledger)
    requires Mirrored(l) && l.current.Some?
    ensures ReadThrough(Apply(config, l, Restart).0).current == l.current
  {
  }

  /** A denied authorization leaves memory and store as they were. One whose write fails has already authorized
      the record in memory. */
  lemma UnsuccessfulAuthorization(config: Config, l: Ledger, request: AuthorizeRequest, io: bool)
    requires LedgerOk(config, l) && !AuthorizeStep(l, request, io).1.Advanced?
    ensures var (after, reply) := AuthorizeStep(l, request, io);
      && (reply.Denied? ==> after == ReadThrough(l))
      && (reply.NotPersisted? ==>
           && after.stored == l.stored && after.current.Some? && after.current.value.Planned?
           && after.current.value.record.phase == Authorized)
      && (reply.Denied? || reply.NotPersisted?)
  {
  }
}
