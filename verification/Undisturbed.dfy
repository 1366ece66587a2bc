/** An election that nobody disturbs runs through all phases to completion, and elections happen. */
module Undisturbed {
  import opened Options
  import opened Evidence
  import opened RecoveryEpoch
  import opened DecisionStore
  import opened Protocol
  import opened ProtocolFacts
  import opened ProtocolRuns
  import Candidate
  import Names
  import Sorting
  import Startup
  import StartupPipeline

  /** Memory and store both hold the record. */
  function Holding(record: EpochRecord): Ledger {
    Ledger(Some(Planned(record)), Some(Planned(record)))
  }

  /** A record just elected among these names. */
  predicate Elected(record: EpochRecord, names: seq<string>) {
    && record.phase == EvidencePhase && record.winner.WinnerRecord? && record.winner.node != ""
    && record.clusterId != ""
    && record.epoch == EpochId(record.clusterId, record.digest) && record.quorum == QuorumOf(names)
    && record.quorum != []
  }

  function Vote(record: EpochRecord): Call {
    AuthorizeCall(AuthorizeRequest(Some(record.epoch), Some(record.quorum), false, Unspecified), true)
  }

  function Start(record: EpochRecord, answers: seq<Answer>, now: int): Call {
    BeginCall(BeginRequest(Some(record.epoch), record.winner.Node()), answers, now, true)
  }

  function Finish(record: EpochRecord): Call {
    CompleteCall(CompleteRequest(Some(record.epoch), record.winner.Node(), Some(record.clusterId), Some(record.quorum)),
                 true)
  }

  function Voted(record: EpochRecord): EpochRecord {
    record.(phase := Authorized, acknowledgements := record.quorum, requiredAcknowledgements := |record.quorum|)
  }

  function Started(record: EpochRecord): EpochRecord {
    Voted(record).(phase := Bootstrapping)
  }

  function Finished(record: EpochRecord): EpochRecord {
    Started(record).(phase := Complete, winner := WinnerGiven(record.winner.Node()), membership := record.quorum)
  }

  lemma QuorumSorted(names: seq<string>)
    ensures var quorum := QuorumOf(names);
      QuorumOf(quorum) == quorum && Sorting.Sort(quorum, Names.Leq) == quorum && Sorting.NoDuplicates(quorum)
      && |MemberSet(quorum)| == |quorum|
  {
    var quorum := QuorumOf(names);
    QuorumMembers(names);
    MemberSetDistinct(quorum);
    Sorting.DistinctOfDistinct(quorum);
    Names.LeqIsOrder();
    Sorting.SortElements(quorum, Names.Leq);
    Sorting.SortSorted(quorum, Names.Leq);
    Sorting.SortedUnique(Sorting.Sort(quorum, Names.Leq), quorum, Names.Leq);
  }

  lemma QuorumMatches(names: seq<string>)
    ensures SameMembership(QuorumOf(names), QuorumOf(names))
  {
    QuorumSorted(names);
  }

  lemma VoteSucceeds(config: Config, record: EpochRecord, names: seq<string>)
    requires Elected(record, names)
    ensures Apply(config, Holding(record), Vote(record)) == (Holding(Voted(record)), Advanced(Voted(record)))
  {
    QuorumSorted(names);
  }

  lemma StartSucceeds(config: Config, record: EpochRecord, names: seq<string>, answers: seq<Answer>, now: int)
    requires Elected(record, names) && !Collect(config, answers, now).CollectFailed?
    requires Sha256(Canonical(Items(answers))) == record.digest
    ensures Apply(config, Holding(Voted(record)), Start(record, answers, now))
      == (Holding(Started(record)), Advanced(Started(record)))
  {
    BeginExact(config, Holding(Voted(record)), Start(record, answers, now).begin, answers, now, true);
  }

  lemma FinishSucceeds(config: Config, record: EpochRecord, names: seq<string>)
    requires Elected(record, names)
    ensures Apply(config, Holding(Started(record)), Finish(record))
      == (Holding(Finished(record)), Advanced(Finished(record)))
  {
    var started := Started(record);
    QuorumMatches(names);
    assert NamedRecord(ReadThrough(Holding(started)).current, Some(record.epoch)) == Some(started);
    CompleteExact(Holding(started), Finish(record).completion, true);
  }

  lemma PlanSucceeds(config: Config, l: Ledger, answers: seq<Answer>, now: int)
    requires config.nodes != [] && |answers| == |config.nodes| && Assess(config, answers, now).Elect?
    ensures var record := Assess(config, answers, now).record;
      && Apply(config, l, PlanCall(answers, now, true)) == (Holding(record), Reply.Elected(record))
      && Elected(record, MemberNames(config))
  {
    ElectExact(config, answers, now);
    QuorumNonEmpty(config);
  }

  lemma RecordedDigest(config: Config, answers: seq<Answer>, now: int)
    requires config.nodes != [] && |answers| == |config.nodes| && Assess(config, answers, now).Elect?
    ensures Assess(config, answers, now).record.digest == Sha256(Canonical(Items(answers)))
  {
    ElectExact(config, answers, now);
  }

  /** From whatever ledger, an election whose votes are unanimous, whose evidence still has the planned canonical form
      and whose writes succeed goes through authorized and bootstrapping to complete, one call after another. */
  lemma UndisturbedCompletes(config: Config, l: Ledger, answers: seq<Answer>, now: int, later: seq<Answer>,
                             laterNow: int)
    requires config.nodes != [] && |answers| == |config.nodes| && Assess(config, answers, now).Elect?
    requires !Collect(config, later, laterNow).CollectFailed? && Canonical(Items(later)) == Canonical(Items(answers))
    ensures var record := Assess(config, answers, now).record;
      && Apply(config, l, PlanCall(answers, now, true)) == (Holding(record), Reply.Elected(record))
      && Apply(config, Holding(record), Vote(record)) == (Holding(Voted(record)), Advanced(Voted(record)))
      && Apply(config, Holding(Voted(record)), Start(record, later, laterNow))
        == (Holding(Started(record)), Advanced(Started(record)))
      && Apply(config, Holding(Started(record)), Finish(record))
        == (Holding(Finished(record)), Advanced(Finished(record)))
  {
    var record, names := Assess(config, answers, now).record, MemberNames(config);
    PlanSucceeds(config, l, answers, now);
    RecordedDigest(config, answers, now);
    VoteSucceeds(config, record, names);
    StartSucceeds(config, record, names, later, laterNow);
    FinishSucceeds(config, record, names);
  }

  // ----- elections happen -----

  function Idle(node: string, seqno: int): Report {
    Report(node, "u", Some(seqno), Some(seqno), None, None, None, No, Some(1), Some(0))
  }

  function Alone(): Config {
    Config([Evidence.Member("a.x", true)], 0)
  }

  lemma IdleWellFormed(node: string, seqno: int)
    requires Names.IsFqdn(node)
    ensures WellFormed(Idle(node, seqno)) && Candidate.Usable(Idle(node, seqno))
  {
  }

  lemma SoleView(nodes: seq<Evidence.Member>, item: Report, now: int, maxAge: int)
    requires WellFormed(item) && item.active == No && Current(item, now, maxAge)
    ensures ValidEvidence([item], now, maxAge) && !AnyActivePrimary(nodes, [item])
  {
  }

  /** A single configured node with a saved seqno elects itself. */
  lemma SoleMemberElects(seqno: nat)
    ensures Assess(Alone(), [Fulfilled(Idle("a.x", seqno))], 0).Elect?
    ensures Assess(Alone(), [Fulfilled(Idle("a.x", seqno))], 0).record.winner == WinnerRecord("a.x", "u", seqno)
  {
    Names.ShortName('a');
    IdleWellFormed("a.x", seqno);
    SoleAnswerElects(Alone(), Idle("a.x", seqno), 0);
  }

  function SoleRecord(seqno: nat): EpochRecord {
    SoleMemberElects(seqno);
    Assess(Alone(), [Fulfilled(Idle("a.x", seqno))], 0).record
  }

  lemma SoleAnswerElects(config: Config, item: Report, now: int)
    requires |config.nodes| == 1 && WellFormed(item) && Candidate.Usable(item)
    requires item.active == No && Current(item, now, config.maxAge) && item.seqno.value >= 0
    ensures var verdict := Assess(config, [Fulfilled(item)], now);
      verdict.Elect? && verdict.record.winner == WinnerRecord(item.node, item.uuid, item.seqno.value)
  {
    var answers := [Fulfilled(item)];
    assert answers[1..] == [] && Items(answers) == [item];
    SoleView(config.nodes, item, now, config.maxAge);
    SoleSelected(item);
    PlanExact(config, answers, now);
    ElectExact(config, answers, now);
  }

  lemma SoleSelected(item: Report)
    requires Candidate.Usable(item) && item.seqno.value >= 0
    ensures Candidate.SelectCandidate([item], 1).Eligible? && Candidate.SelectCandidate([item], 1).candidate == item
  {
    var ps := Candidate.Positions([item]);
    assert ps == [Candidate.PositionOf(item)];
    var mine := (p: Candidate.Position) => p.uuid == item.uuid;
    Sorting.FilterAll(ps, mine);
    assert ps[0] in ps;
    assert Candidate.Strongest(ps, item.uuid, item.seqno.value);
    var u, h := Candidate.SelectionExact([item], 1);
    Candidate.StrongestUnique(ps, u, h, item.uuid, item.seqno.value);
    assert Candidate.Support(ps, item.uuid) == 1;
  }

  // ----- two members, as a clustered startup has -----

  function Two(): Config {
    Config([Evidence.Member("a.x", true), Evidence.Member("b.x", true)], 0)
  }

  function BothIdle(seqno: int): seq<Answer> {
    [Fulfilled(Idle("a.x", seqno)), Fulfilled(Idle("b.x", seqno))]
  }

  lemma PairView(nodes: seq<Evidence.Member>, a: Report, b: Report, now: int, maxAge: int)
    requires WellFormed(a) && WellFormed(b) && a.active == b.active == No && a.node != b.node
    requires Current(a, now, maxAge) && Current(b, now, maxAge)
    ensures ValidEvidence([a, b], now, maxAge) && !AnyActivePrimary(nodes, [a, b])
  {
  }

  /** Two states of one history and seqno: the one with the lesser name is chosen. */
  lemma PairSelected(a: Report, b: Report)
    requires Candidate.Usable(a) && Candidate.Usable(b) && a.node != b.node && Names.Leq(a.node, b.node)
    requires a.uuid == b.uuid && a.seqno == b.seqno && a.seqno.value >= 0
    ensures var choice := Candidate.SelectCandidate([a, b], 2);
      choice.Eligible? && Candidate.PositionOf(choice.candidate) == Candidate.PositionOf(a)
  {
    var states := [a, b];
    var ps := Candidate.Positions(states);
    assert ps == [Candidate.PositionOf(a), Candidate.PositionOf(b)];
    Sorting.FilterAll(ps, (p: Candidate.Position) => p.uuid == a.uuid);
    assert ps[0] in ps && Candidate.Strongest(ps, a.uuid, a.seqno.value);
    var u, h := Candidate.SelectionExact(states, 2);
    Candidate.StrongestUnique(ps, u, h, a.uuid, a.seqno.value);
    assert Candidate.Support(ps, a.uuid) == 2;
    LesserNamed(ps, a.uuid, a.seqno.value, Candidate.PositionOf(Candidate.SelectCandidate(states, 2).candidate));
  }

  lemma LesserNamed(ps: seq<Candidate.Position>, uuid: string, highest: int, winner: Candidate.Position)
    requires |ps| == 2 && ps[0].uuid == ps[1].uuid == uuid && ps[0].seqno == ps[1].seqno == highest
    requires Names.Leq(ps[0].node, ps[1].node) && ps[0].node != ps[1].node
    requires Candidate.LeastNamedAt(ps, uuid, highest, winner)
    ensures winner == ps[0]
  {
    if winner == ps[1] {
      assert ps[0] in ps;
      Names.LeqAntisymmetric(ps[0].node, ps[1].node);
    }
  }

  lemma PairAnswersElect(config: Config, a: Report, b: Report, now: int)
    requires |config.nodes| == 2 && WellFormed(a) && WellFormed(b) && Candidate.Usable(a) && Candidate.Usable(b)
    requires a.active == b.active == No && Current(a, now, config.maxAge) && Current(b, now, config.maxAge)
    requires a.node != b.node && Names.Leq(a.node, b.node)
    requires a.uuid == b.uuid && a.seqno == b.seqno && a.seqno.value >= 0
    ensures var verdict := Assess(config, [Fulfilled(a), Fulfilled(b)], now);
      verdict.Elect? && verdict.record.winner == WinnerRecord(a.node, a.uuid, a.seqno.value)
  {
    var answers := [Fulfilled(a), Fulfilled(b)];
    assert answers[1..] == [Fulfilled(b)] && answers[1..][1..] == [] && Items(answers) == [a, b];
    PairView(config.nodes, a, b, now, config.maxAge);
    PairSelected(a, b);
    PlanExact(config, answers, now);
    ElectExact(config, answers, now);
  }

  lemma PairElects(seqno: nat)
    ensures var verdict := Assess(Two(), BothIdle(seqno), 0);
      verdict.Elect? && verdict.record.winner == WinnerRecord("a.x", "u", seqno)
  {
    Names.ShortName('a');
    Names.ShortName('b');
    IdleWellFormed("a.x", seqno);
    IdleWellFormed("b.x", seqno);
    assert Names.Leq("a.x", "b.x");
    PairAnswersElect(Two(), Idle("a.x", seqno), Idle("b.x", seqno), 0);
  }

  function Undisputed(answers: seq<Answer>, claims: seq<Startup.LeaseAnswer>, startupArgs: seq<string>,
                      rendered: seq<string>): StartupPipeline.Inputs {
    StartupPipeline.Inputs(startupArgs, false, answers, 0, true, true, claims, rendered,
                           Startup.BeginInputs(answers, 0, true, true), Startup.Promoted, false, false)
  }

  /** An elected member that sees the same answers again and holds all leases is entitled to bootstrap. */
  lemma SeenAgainEntitled(config: Config, identity: string, answers: seq<Answer>, claims: seq<Startup.LeaseAnswer>,
                          startupArgs: seq<string>, rendered: seq<string>)
    requires |answers| == |config.nodes| && Evidence.Member(identity, true) in config.nodes
    requires StartupPipeline.AllGranted(claims)
    requires var verdict := Assess(config, answers, 0); verdict.Elect? && verdict.record.winner.Node() == Some(identity)
    ensures StartupPipeline.Entitled(config, identity, Undisputed(answers, claims, startupArgs, rendered))
  {
    RecordedDigest(config, answers, 0);
    ElectExact(config, answers, 0);
  }

  /** Two nodes with one history, both seen again and both granting their leases: the lesser name is entitled to
      bootstrap. */
  lemma PairEntitled(seqno: nat, startupArgs: seq<string>, rendered: seq<string>)
    ensures var claims := [Startup.Answered(true), Startup.Answered(true)];
      StartupPipeline.Entitled(Two(), "a.x", Undisputed(BothIdle(seqno), claims, startupArgs, rendered))
  {
    PairElects(seqno);
    assert Two().nodes[0] in Two().nodes;
    SeenAgainEntitled(Two(), "a.x", BothIdle(seqno), [Startup.Answered(true), Startup.Answered(true)], startupArgs,
                      rendered);
  }

  // ----- two promises that fail, on runs that exist -----

  function FinishNameless(record: EpochRecord): Call {
    CompleteCall(CompleteRequest(Some(record.epoch), None, Some(record.clusterId), Some(record.quorum)), true)
  }

  lemma NamelessFinish(config: Config, record: EpochRecord, names: seq<string>)
    requires Elected(record, names)
    ensures var spent := Finished(record).(winner := WinnerGiven(None));
      && Apply(config, Holding(Finished(record)), FinishNameless(record)) == (Holding(spent), Advanced(spent))
      && Apply(config, Holding(spent), FinishNameless(record)) == (Holding(spent), Denied(Refused(WinnerForgotten)))
  {
    var request := FinishNameless(record).completion;
    QuorumMatches(names);
    assert NamedRecord(ReadThrough(Holding(Finished(record))).current, Some(record.epoch)) == Some(Finished(record));
    CompleteExact(Holding(Finished(record)), request, true);
  }

  /** A whole recovery of a single node, completed by name, once more without it, and refused the third time. */
  lemma SoleMemberCompletesTwice(seqno: nat)
    ensures var answers := [Fulfilled(Idle("a.x", seqno))];
      var record := SoleRecord(seqno);
      var spent := Finished(record).(winner := WinnerGiven(None));
      && Apply(Alone(), Ledger(None, None), PlanCall(answers, 0, true)) == (Holding(record), Reply.Elected(record))
      && Apply(Alone(), Holding(record), Vote(record)) == (Holding(Voted(record)), Advanced(Voted(record)))
      && Apply(Alone(), Holding(Voted(record)), Start(record, answers, 0))
        == (Holding(Started(record)), Advanced(Started(record)))
      && Apply(Alone(), Holding(Started(record)), Finish(record))
        == (Holding(Finished(record)), Advanced(Finished(record)))
      && Apply(Alone(), Holding(Finished(record)), FinishNameless(record)) == (Holding(spent), Advanced(spent))
      && Apply(Alone(), Holding(spent), FinishNameless(record)).1.Denied?
  {
    var answers := [Fulfilled(Idle("a.x", seqno))];
    SoleMemberElects(seqno);
    SoleMemberGathers(seqno);
    PlanSucceeds(Alone(), Ledger(None, None), answers, 0);
    UndisturbedCompletes(Alone(), Ledger(None, None), answers, 0, answers, 0);
    NamelessFinish(Alone(), SoleRecord(seqno), MemberNames(Alone()));
  }

  lemma SoleMemberGathers(seqno: nat)
    ensures !Collect(Alone(), [Fulfilled(Idle("a.x", seqno))], 0).CollectFailed?
  {
    SoleMemberElects(seqno);
    ElectExact(Alone(), [Fulfilled(Idle("a.x", seqno))], 0);
  }

  /** The begin of the winner when the write fails. */
  function StartUnwritten(record: EpochRecord, answers: seq<Answer>, now: int): Call {
    BeginCall(BeginRequest(Some(record.epoch), record.winner.Node()), answers, now, false)
  }

  lemma ChangedBlocks(config: Config, record: EpochRecord, names: seq<string>, answers: seq<Answer>, now: int)
    requires Elected(record, names) && !Collect(config, answers, now).CollectFailed?
    requires Sha256(Canonical(Items(answers))) != record.digest
    ensures var after := Apply(config, Holding(Voted(record)), StartUnwritten(record, answers, now)).0;
      Holds(after.current, Blocked) && after.stored == Some(Planned(Voted(record)))
  {
    ChangedBlocksOn(record, names, Collect(config, answers, now), Items(answers));
  }

  lemma ChangedBlocksOn(record: EpochRecord, names: seq<string>, collected: Collected, latest: seq<Report>)
    requires Elected(record, names) && !collected.CollectFailed? && Sha256(Canonical(latest)) != record.digest
    ensures var request := BeginRequest(Some(record.epoch), record.winner.Node());
      var after := BeginOn(Holding(Voted(record)), request, collected, latest, false).0;
      Holds(after.current, Blocked) && after.stored == Some(Planned(Voted(record)))
  {
  }

  /** A block that could not be written is forgotten by a restart: the record blocked on changed evidence is
      authorized again, and begins to bootstrap without a plan in between. */
  lemma BlockedForgotten(config: Config, record: EpochRecord, names: seq<string>, changed: seq<Answer>,
                         answers: seq<Answer>, now: int)
    requires Elected(record, names)
    requires !Collect(config, changed, now).CollectFailed? && Sha256(Canonical(Items(changed))) != record.digest
    requires !Collect(config, answers, now).CollectFailed? && Sha256(Canonical(Items(answers))) == record.digest
    ensures var blocked := Apply(config, Holding(Voted(record)), StartUnwritten(record, changed, now)).0;
      var restarted := Apply(config, blocked, Restart).0;
      && Holds(blocked.current, Blocked) && Forgets(blocked, Restart, Blocked)
      && Apply(config, restarted, Start(record, answers, now)) == (Holding(Started(record)), Advanced(Started(record)))
  {
    ChangedBlocks(config, record, names, changed, now);
    RestartReadsBack(config, Apply(config, Holding(Voted(record)), StartUnwritten(record, changed, now)).0,
                     Voted(record),
                     Start(record, answers, now).begin, answers, now);
    StartSucceeds(config, record, names, answers, now);
  }

  /** A begin after a restart works on the stored record. */
  lemma RestartReadsBack(config: Config, l: Ledger, stored: EpochRecord, request: BeginRequest, answers: seq<Answer>,
                         now: int)
    requires l.stored == Some(Planned(stored))
    ensures Apply(config, Apply(config, l, Restart).0, BeginCall(request, answers, now, true))
         == Apply(config, Holding(stored), BeginCall(request, answers, now, true))
  {
    BeginReadsThrough(l.(current := None), request, Collect(config, answers, now), Items(answers));
  }

  lemma BeginReadsThrough(l: Ledger, request: BeginRequest, collected: Collected, latest: seq<Report>)
    ensures BeginOn(l, request, collected, latest, true) == BeginOn(ReadThrough(l), request, collected, latest, true)
  {
  }

  /** The same with a single node whose seqno was different for one collection. */
  lemma SoleMemberForgetsBlock(seqno: nat)
    ensures var answers, changed := [Fulfilled(Idle("a.x", seqno))], [Fulfilled(Idle("a.x", seqno + 1))];
      var record := SoleRecord(seqno);
      var blocked := Apply(Alone(), Holding(Voted(record)), StartUnwritten(record, changed, 0)).0;
      var restarted := Apply(Alone(), blocked, Restart).0;
      && Apply(Alone(), Ledger(None, None), PlanCall(answers, 0, true)) == (Holding(record), Reply.Elected(record))
      && Apply(Alone(), Holding(record), Vote(record)) == (Holding(Voted(record)), Advanced(Voted(record)))
      && Holds(blocked.current, Blocked)
      && Apply(Alone(), restarted, Start(record, answers, 0)) == (Holding(Started(record)), Advanced(Started(record)))
  {
    var answers, changed := [Fulfilled(Idle("a.x", seqno))], [Fulfilled(Idle("a.x", seqno + 1))];
    SoleMemberElects(seqno);
    SoleMemberGathers(seqno);
    SoleMemberGathers(seqno + 1);
    PlanSucceeds(Alone(), Ledger(None, None), answers, 0);
    RecordedDigest(Alone(), answers, 0);
    VoteSucceeds(Alone(), SoleRecord(seqno), MemberNames(Alone()));
    SoleItems(Idle("a.x", seqno));
    SoleItems(Idle("a.x", seqno + 1));
    BlockedForgotten(Alone(), SoleRecord(seqno), MemberNames(Alone()), changed, answers, 0);
  }

  lemma SoleItems(item: Report)
    ensures Items([Fulfilled(item)]) == [item] && Canonical([item]) == [CanonicalOf(item)]
  {
    var answers := [Fulfilled(item)];
    assert answers[1..] == [] && [item][1..] == [];
    assert Sorting.Sort([item], Candidate.ByNode) == [item];
    assert Sorting.Map([item], CanonicalOf) == [CanonicalOf(item)];
  }
}
