/** What single calls of the recovery protocol guarantee. */
module ProtocolFacts {
  import opened Options
  import opened Evidence
  import opened RecoveryEpoch
  import opened DecisionStore
  import opened Protocol
  import Candidate
  import Majority
  import Names
  import Sorting

  // ----- planning -----

  lemma {:induction false} AllFulfilled(answers: seq<Answer>)
    ensures Failures(answers) == [] <==> forall a <- answers :: a.Fulfilled?
    ensures Failures(answers) == [] <==> |Items(answers)| == |answers|
  {
    if answers != [] {
      AllFulfilled(answers[1..]);
      assert answers == [answers[0]] + answers[1..];
    }
  }

  /** What an elected record was built from. */
  ghost predicate WellPlanned(config: Config, record: EpochRecord) {
    && |record.evidence| == |config.nodes|
    && DistinctNodes(record.evidence)
    && (forall item <- record.evidence :: WellFormed(item))
    && !AnyActivePrimary(config.nodes, record.evidence)
    && record.digest == Sha256(Canonical(record.evidence))
    && record.winner.WinnerRecord?
    && var choice := Candidate.SelectCandidate(record.evidence, Majority.Required(|config.nodes|));
       && choice.Eligible?
       && Candidate.PositionOf(choice.candidate)
         == Candidate.Position(record.winner.node, record.winner.uuid, record.winner.seqno)
       && record.clusterId == record.winner.uuid
  }

  lemma WellFormedUsable(evidence: seq<Report>)
    requires evidence != [] && forall item <- evidence :: WellFormed(item)
    ensures Candidate.AllUsable(evidence)
  {
  }

  lemma NamesOfNodes(config: Config)
    ensures config.nodes != [] ==> MemberNames(config) != []
  {
  }

  /** When a full set of answers is gathered, and when a view is an active one. */
  lemma CollectExact(config: Config, answers: seq<Answer>, now: int)
    requires |answers| == |config.nodes|
    ensures var evidence, collected := Items(answers), Collect(config, answers, now);
      && (collected.ActiveView? <==> AnyActivePrimary(config.nodes, evidence))
      && (!collected.CollectFailed? ==> collected.evidence == evidence)
      && (collected.Gathered? ==> ValidEvidence(evidence, now, config.maxAge))
      && (collected.Gathered? && |evidence| == |config.nodes| <==>
           && !AnyActivePrimary(config.nodes, evidence)
           && (forall a <- answers :: a.Fulfilled?)
           && ValidEvidence(evidence, now, config.maxAge))
  {
    AllFulfilled(answers);
    ValidationExact(Items(answers), now, config.maxAge);
  }

  lemma ElectFromExact(members: seq<string>, evidence: seq<Report>, choice: Candidate.Selection)
    requires members != []
    requires choice.Eligible? ==> choice.candidate.node != "" && choice.candidate.uuid != ""
    ensures var verdict := ElectFrom(members, evidence, choice);
      && !verdict.JoinActive? && (verdict.Elect? <==> choice.Eligible?)
      && (verdict.Elect? ==>
           && verdict.record.winner
             == WinnerRecord(choice.candidate.node, choice.candidate.uuid, Candidate.Seqno(choice.candidate))
           && verdict.record.clusterId == choice.candidate.uuid
           && verdict.record.evidence == evidence && verdict.record.phase == EvidencePhase
           && verdict.record.digest == Sha256(Canonical(evidence))
           && verdict.record.quorum == QuorumOf(members)
           && verdict.record.epoch == EpochId(verdict.record.clusterId, verdict.record.digest)
           && Unvoted(verdict.record))
  {
  }

  /** Nobody has acknowledged, forced, completed or blocked the record. */
  predicate Unvoted(record: EpochRecord) {
    && record.acknowledgements == [] && record.requiredAcknowledgements == 0 && record.forced == false
    && record.membership == [] && record.code == None
  }

  lemma ElectExact(config: Config, answers: seq<Answer>, now: int)
    requires config.nodes != [] && |answers| == |config.nodes|
    ensures var evidence, verdict := Items(answers), Assess(config, answers, now);
      var choice := Candidate.SelectCandidate(evidence, Majority.Required(|config.nodes|));
      && (verdict.JoinActive? <==> Collect(config, answers, now).ActiveView?)
      && (verdict.Elect?
          <==> Collect(config, answers, now).Gathered? && |evidence| == |config.nodes| && choice.Eligible?)
      && (verdict.Elect? ==>
           && verdict.record.winner
             == WinnerRecord(choice.candidate.node, choice.candidate.uuid, Candidate.Seqno(choice.candidate))
           && verdict.record.clusterId == choice.candidate.uuid
           && verdict.record.clusterId != "" && verdict.record.winner.node != ""
           && verdict.record.evidence == evidence && verdict.record.phase == EvidencePhase
           && verdict.record.digest == Sha256(Canonical(evidence))
           && verdict.record.quorum == QuorumOf(MemberNames(config))
           && verdict.record.epoch == EpochId(verdict.record.clusterId, verdict.record.digest)
           && Unvoted(verdict.record))
  {
    var evidence := Items(answers);
    NamesOfNodes(config);
    CollectExact(config, answers, now);
    var minimum := Majority.Required(|config.nodes|);
    var choice := Candidate.SelectCandidate(evidence, minimum);
    if choice.Eligible? {
      ChosenNamed(evidence, minimum);
    }
    ElectFromExact(MemberNames(config), evidence, choice);
  }

  lemma ChosenNamed(evidence: seq<Report>, minimum: int)
    requires Candidate.SelectCandidate(evidence, minimum).Eligible?
    ensures var candidate := Candidate.SelectCandidate(evidence, minimum).candidate;
      candidate in evidence && candidate.node != "" && candidate.uuid != ""
  {
    var _, _ := Candidate.SelectionExact(evidence, minimum);
    UsableNamed(Candidate.SelectCandidate(evidence, minimum).candidate);
  }

  /** A plan joins just when an active Primary is seen, and elects just when every configured node
      answered with sound evidence whose strongest history has a majority and a seqno. */
  lemma PlanExact(config: Config, answers: seq<Answer>, now: int)
    requires config.nodes != [] && |answers| == |config.nodes|
    ensures var evidence, verdict := Items(answers), Assess(config, answers, now);
      && (verdict.JoinActive? <==> AnyActivePrimary(config.nodes, evidence))
      && (verdict.Elect? <==>
           && !AnyActivePrimary(config.nodes, evidence)
           && (forall a <- answers :: a.Fulfilled?)
           && ValidEvidence(evidence, now, config.maxAge)
           && Candidate.SelectCandidate(evidence, |config.nodes| / 2 + 1).Eligible?)
      && (verdict.Elect? ==> verdict.record.evidence == evidence && WellPlanned(config, verdict.record))
  {
    CollectExact(config, answers, now);
    ElectExact(config, answers, now);
  }

  /** The code of the first answer that failed. */
  function FirstFailure(answers: seq<Answer>): Option<Code> {
    if answers == [] then None
    else if answers[0].Rejected? then answers[0].code
    else FirstFailure(answers[1..])
  }

  lemma {:induction false} FirstFailureExact(answers: seq<Answer>)
    requires Failures(answers) != []
    ensures Failures(answers)[0] == FirstFailure(answers)
  {
    if answers[0].Fulfilled? {
      FirstFailureExact(answers[1..]);
    }
  }

  lemma {:induction false} FailureMember(answers: seq<Answer>, code: Option<Code>)
    ensures code in Failures(answers) <==> Answer.Rejected(code) in answers
  {
    if answers != [] {
      FailureMember(answers[1..], code);
      assert answers == [answers[0]] + answers[1..];
    }
  }

  /** What a plan leaves: a join nothing, a refusal its code and an election its record, in memory at once and in the
      store when the write succeeds. */
  lemma PlanLeaves(config: Config, l: Ledger, answers: seq<Answer>, now: int, io: bool)
    ensures var (after, reply) := PlanStep(config, l, answers, now, io);
      match Assess(config, answers, now)
      case JoinActive(_) => after == l && reply == PlanJoins
      case Refuse(code) =>
        && after == Ledger(Some(RefusedPlan(code)), if io then Some(RefusedPlan(code)) else l.stored)
        && reply == if io then PlanRefused(code) else NotPersisted(Failed)
      case Elect(record) =>
        && after == Ledger(Some(Planned(record)), if io then Some(Planned(record)) else l.stored)
        && reply == if io then Reply.Elected(record) else NotPersisted(Failed)
  {
    PlanOnLeaves(l, Assess(config, answers, now), io);
  }

  lemma PlanOnLeaves(l: Ledger, verdict: Verdict, io: bool)
    ensures var (after, reply) := PlanOn(l, verdict, io);
      match verdict
      case JoinActive(_) => after == l && reply == PlanJoins
      case Refuse(code) =>
        && after == Ledger(Some(RefusedPlan(code)), if io then Some(RefusedPlan(code)) else l.stored)
        && reply == if io then PlanRefused(code) else NotPersisted(Failed)
      case Elect(record) =>
        && after == Ledger(Some(Planned(record)), if io then Some(Planned(record)) else l.stored)
        && reply == if io then Reply.Elected(record) else NotPersisted(Failed)
  {
  }

  /** Which code a refused plan carries: what failed first, when nobody answered, or the answers have no defect but are
      too few for a majority; the defect of the evidence; a node that answered for another, or missing answers; a tie
      for the strongest history, or one too small; and no code for evidence without a seqno to recover. */
  lemma RefusalExact(config: Config, answers: seq<Answer>, now: int)
    requires config.nodes != [] && |answers| == |config.nodes| && Assess(config, answers, now).Refuse?
    ensures var evidence := Items(answers);
      var defect, failed := Validation(evidence, now, config.maxAge), exists a <- answers :: a.Rejected?;
      var choice := Candidate.SelectCandidate(evidence, |config.nodes| / 2 + 1);
      Assess(config, answers, now).code ==
        if failed && (evidence == [] || (defect == None && |evidence| < |config.nodes| / 2 + 1)) then
          (if FirstFailure(answers) == None then Some(EvidenceUnavailable) else FirstFailure(answers))
        else if defect.Some? then defect
        else if failed then
          Some(if Answer.Rejected(Some(IdentityMismatch)) in answers then IdentityMismatch else InsufficientEvidence)
        else if choice == Candidate.Ineligible(Candidate.EqualHistories) then Some(SplitBrain)
        else if choice == Candidate.Ineligible(Candidate.SmallHistory) then Some(InsufficientEvidence)
        else None
  {
    AllFulfilled(answers);
    FailureMember(answers, Some(IdentityMismatch));
    if Failures(answers) != [] {
      FirstFailureExact(answers);
    }
    CollectExact(config, answers, now);
    ElectExact(config, answers, now);
  }

  lemma UsableNamed(item: Report)
    requires Candidate.Usable(item)
    ensures item.node != "" && item.uuid != ""
  {
  }

  /** A retry repeats what is in memory exactly when that carries an identity mismatch; otherwise it plans from empty
      memory, with the store as it is. */
  lemma RetryExact(config: Config, l: Ledger, answers: seq<Answer>, now: int, io: bool)
    ensures var mismatch := l.current.Some?
        && match l.current.value
           case Planned(record) => record.code == Some(IdentityMismatch)
           case RefusedPlan(code) => code == Some(IdentityMismatch)
           case StartupDecision(_) => false;
      && (RetryStep(config, l, answers, now, io).1.Seen? <==> mismatch)
      && (mismatch ==> RetryStep(config, l, answers, now, io) == (l, Seen(l.current)))
      && (!mismatch ==>
          RetryStep(config, l, answers, now, io) == PlanStep(config, Ledger(None, l.stored), answers, now, io))
  {
    PlanSpeaks(Ledger(None, l.stored), Assess(config, answers, now), io);
  }

  lemma PlanSpeaks(l: Ledger, verdict: Verdict, io: bool)
    ensures !PlanOn(l, verdict, io).1.Seen?
  {
  }

  // ----- the running Primary, field by field -----

  /** The report of a server that runs in the synced Primary component of cluster `uuid`. */
  ghost predicate RunsPrimary(item: Report, uuid: string) {
    && item.active == Yes && item.galera.Some?
    && item.galera.value.clusterStatus == "Primary" && item.galera.value.localState == "Synced"
    && item.galera.value.ready in {ReadyOn, ReadyTrue} && item.galera.value.clusterUuid == Some(uuid)
  }

  /** The first configured member marked as local. */
  ghost predicate IsLocalMember(nodes: seq<Member>, name: string) {
    exists k :: 0 <= k < |nodes| && nodes[k].local && nodes[k].name == name && forall i :: 0 <= i < k ==>
      !nodes[i].local
  }

  /** The local report names no cluster, or this one: by its Galera state, and by its own uuid when that says nothing.
      */
  ghost predicate NamesNoOther(item: Report, uuid: string) {
    if item.galera.Some? && item.galera.value.clusterUuid.Some? then item.galera.value.clusterUuid.value in {"", uuid}
    else item.uuid in {"", uuid}
  }

  /** Some server runs in a Primary component that the local report, if there is one, does not contradict. */
  ghost predicate SeesPrimary(nodes: seq<Member>, evidence: seq<Report>) {
    exists item <- evidence :: exists uuid :: RunsPrimary(item, uuid) && Uncontradicted(nodes, evidence, uuid)
  }

  ghost predicate Uncontradicted(nodes: seq<Member>, evidence: seq<Report>, uuid: string) {
    forall l <- evidence :: IsLocalMember(nodes, l.node) ==> NamesNoOther(l, uuid)
  }

  lemma {:induction false} LocalNameExact(nodes: seq<Member>, name: string)
    ensures LocalName(nodes) == Some(name) <==> IsLocalMember(nodes, name)
  {
    if nodes != [] && !nodes[0].local {
      var rest := nodes[1..];
      LocalNameExact(rest, name);
      if k :| 0 <= k < |rest| && rest[k].local && rest[k].name == name && forall i :: 0 <= i < k ==> !rest[i].local {
        assert nodes[k + 1].local && nodes[k + 1].name == name;
        assert forall i :: 0 <= i < k + 1 ==> i == 0 || nodes[i] == rest[i - 1];
      }
      if k :| 0 <= k < |nodes| && nodes[k].local && nodes[k].name == name && forall i :: 0 <= i < k ==>
        !nodes[i].local {
        assert rest[k - 1].local && rest[k - 1].name == name;
        assert forall i :: 0 <= i < k - 1 ==> rest[i] == nodes[i + 1];
      }
    }
  }

  lemma LocalUuidExact(nodes: seq<Member>, evidence: seq<Report>, uuid: string)
    requires DistinctNodes(evidence)
    ensures LocalUuid(nodes, evidence) in {"", uuid} <==> Uncontradicted(nodes, evidence, uuid)
  {
    var name := LocalName(nodes);
    forall l <- evidence ensures IsLocalMember(nodes, l.node) <==> name == Some(l.node) {
      LocalNameExact(nodes, l.node);
    }
    if name.Some? {
      FindNodeMember(evidence, name.value);
      forall l <- evidence | l.node == name.value ensures FindNode(evidence, name.value) == Some(l) {
        FindNodeOfDistinct(evidence, l);
      }
    }
  }

  lemma ActivePrimaryExact(nodes: seq<Member>, evidence: seq<Report>)
    requires DistinctNodes(evidence)
    ensures AnyActivePrimary(nodes, evidence) <==> SeesPrimary(nodes, evidence)
  {
    forall uuid ensures LocalUuid(nodes, evidence) in {"", uuid} <==> Uncontradicted(nodes, evidence, uuid) {
      LocalUuidExact(nodes, evidence, uuid);
    }
    forall item <- evidence
      ensures IsActivePrimary(nodes, item, evidence)
         <==> exists uuid :: RunsPrimary(item, uuid) && Uncontradicted(nodes, evidence, uuid)
    {
      if IsActivePrimary(nodes, item, evidence) {
        assert RunsPrimary(item, item.galera.value.clusterUuid.value);
      }
    }
  }

  /** A plan joins, and then changes nothing, exactly when a running Primary component is seen that the local report
      does not contradict. */
  lemma JoinsExactly(config: Config, l: Ledger, answers: seq<Answer>, now: int, io: bool)
    requires config.nodes != [] && |answers| == |config.nodes| && DistinctNodes(Items(answers))
    ensures var (after, reply) := PlanStep(config, l, answers, now, io);
      && (reply == PlanJoins <==> SeesPrimary(config.nodes, Items(answers)))
      && (reply == PlanJoins ==> after == l)
  {
    ActivePrimaryExact(config.nodes, Items(answers));
    PlanExact(config, answers, now);
  }

  /** A Primary component of the cluster that the local report names, or of any cluster while it names none, is joined,
      and never is an election held beside it. */
  lemma NoElectionBesidePrimary(config: Config, l: Ledger, answers: seq<Answer>, now: int, io: bool, item: Report,
                                uuid: string)
    requires config.nodes != [] && |answers| == |config.nodes| && DistinctNodes(Items(answers))
    requires item in Items(answers) && RunsPrimary(item, uuid)
    requires forall own <- Items(answers) :: IsLocalMember(config.nodes, own.node) ==> NamesNoOther(own, uuid)
    ensures PlanStep(config, l, answers, now, io) == (l, PlanJoins)
  {
    JoinsExactly(config, l, answers, now, io);
  }

  /** And one of another cluster than the local report names is not joined, if no other is seen. */
  lemma ForeignPrimaryNotJoined(config: Config, l: Ledger, answers: seq<Answer>, now: int, io: bool, own: Report)
    requires config.nodes != [] && |answers| == |config.nodes| && DistinctNodes(Items(answers))
    requires own in Items(answers) && IsLocalMember(config.nodes, own.node)
    requires forall item <- Items(answers) :: forall uuid :: RunsPrimary(item, uuid) ==> !NamesNoOther(own, uuid)
    ensures PlanStep(config, l, answers, now, io).1 != PlanJoins
  {
    JoinsExactly(config, l, answers, now, io);
  }

  // ----- agreement of several supervisors -----

  /** Two supervisors with the same members whose plans carry the same epoch id agree on everything in it. */
  lemma SameEpochSameWinner(configA: Config, answersA: seq<Answer>, nowA: int, configB: Config, answersB: seq<Answer>,
                            nowB: int)
    requires configA.nodes != [] && |answersA| == |configA.nodes| == |configB.nodes| == |answersB|
    requires MemberSet(MemberNames(configA)) == MemberSet(MemberNames(configB))
    requires var a, b := Assess(configA, answersA, nowA), Assess(configB, answersB, nowB);
      a.Elect? && b.Elect? && a.record.epoch == b.record.epoch
    ensures var a, b := Assess(configA, answersA, nowA).record, Assess(configB, answersB, nowB).record;
      a.clusterId == b.clusterId && a.winner == b.winner && a.quorum == b.quorum
  {
    PlanExact(configA, answersA, nowA);
    PlanExact(configB, answersB, nowB);
    ElectExact(configA, answersA, nowA);
    ElectExact(configB, answersB, nowB);
    var a, b := Assess(configA, answersA, nowA).record, Assess(configB, answersB, nowB).record;
    CanonicalDetermines(a.evidence, b.evidence);
    WellFormedUsable(a.evidence);
    WellFormedUsable(b.evidence);
    Candidate.SamePositionsSameWinner(a.evidence, b.evidence, Majority.Required(|configA.nodes|));
    SameQuorum(MemberNames(configA), MemberNames(configB));
  }

  lemma SameQuorum(a: seq<string>, b: seq<string>)
    requires MemberSet(a) == MemberSet(b)
    ensures QuorumOf(a) == QuorumOf(b)
  {
    Sorting.DistinctElements(a);
    Sorting.DistinctElements(b);
    forall x ensures x in Sorting.Distinct(a) <==> x in Sorting.Distinct(b) {
      assert x in MemberSet(a) <==> x in a;
      assert x in MemberSet(b) <==> x in b;
    }
    Sorting.NoDuplicatesSameMembers(Sorting.Distinct(a), Sorting.Distinct(b));
    Names.LeqIsOrder();
    Sorting.SortForgetsOrder(Sorting.Distinct(a), Sorting.Distinct(b), Names.Leq);
  }

  /** The winner alone needs less: equal (node, uuid, seqno) triples in any order. */
  lemma SameTriplesSameWinner(configA: Config, answersA: seq<Answer>, nowA: int, configB: Config,
                              answersB: seq<Answer>, nowB: int)
    requires configA.nodes != [] && |answersA| == |configA.nodes| == |configB.nodes| == |answersB|
    requires var a, b := Assess(configA, answersA, nowA), Assess(configB, answersB, nowB); a.Elect? && b.Elect?
    requires multiset(Candidate.Positions(Items(answersA))) == multiset(Candidate.Positions(Items(answersB)))
    ensures var a, b := Assess(configA, answersA, nowA).record, Assess(configB, answersB, nowB).record;
      a.clusterId == b.clusterId && a.winner == b.winner
  {
    PlanExact(configA, answersA, nowA);
    PlanExact(configB, answersB, nowB);
    ElectExact(configA, answersA, nowA);
    ElectExact(configB, answersB, nowB);
    var a, b := Assess(configA, answersA, nowA).record, Assess(configB, answersB, nowB).record;
    WellFormedUsable(a.evidence);
    WellFormedUsable(b.evidence);
    Candidate.SamePositionsSameWinner(a.evidence, b.evidence, Majority.Required(|configA.nodes|));
  }

  /** Planning again on the same facts, rearranged and re-observed later, names the same epoch. */
  lemma EpochIdStable(config: Config, answers: seq<Answer>, now: int, shuffled: seq<Report>, later: seq<Answer>,
                      laterNow: int)
    requires config.nodes != [] && |answers| == |later| == |config.nodes|
    requires Assess(config, answers, now).Elect? && Assess(config, later, laterNow).Elect?
    requires multiset(shuffled) == multiset(Items(answers)) && SameButFreshness(shuffled, Items(later))
    ensures Assess(config, answers, now).record.epoch == Assess(config, later, laterNow).record.epoch
  {
    ElectExact(config, answers, now);
    ElectExact(config, later, laterNow);
    CollectExact(config, answers, now);
    ValidUsable(Items(answers), now, config.maxAge);
    var a, b := Assess(config, answers, now).record, Assess(config, later, laterNow).record;
    CanonicalForgetsOrder(Items(answers), shuffled);
    CanonicalIgnoresFreshness(shuffled, Items(later));
    CanonicalDetermines(a.evidence, b.evidence);
    SameTriplesSameWinner(config, answers, now, config, later, laterNow);
  }

  // ----- what equal digests say about an active Primary -----

  lemma SameCanonicalMember(s: seq<Report>, t: seq<Report>, x: Report) returns (y: Report)
    requires Canonical(s) == Canonical(t) && x in s
    ensures y in t && CanonicalOf(y) == CanonicalOf(x)
  {
    CanonicalDetermines(s, t);
    var a, b := Sorting.Map(s, CanonicalOf), Sorting.Map(t, CanonicalOf);
    Sorting.SameElements(a, b);
    var i :| 0 <= i < |s| && s[i] == x;
    assert a[i] == CanonicalOf(x) && a[i] in a;
    var j :| 0 <= j < |b| && b[j] == CanonicalOf(x);
    y := t[j];
  }

  lemma SameCanonicalLocalUuid(nodes: seq<Member>, s: seq<Report>, t: seq<Report>)
    requires DistinctNodes(s) && DistinctNodes(t) && Canonical(s) == Canonical(t)
    ensures LocalUuid(nodes, s) == LocalUuid(nodes, t)
  {
    var name := LocalName(nodes);
    if name.Some? {
      CanonicalDetermines(s, t);
      FindNodeMember(s, name.value);
      FindNodeMember(t, name.value);
      if FindNode(s, name.value).Some? {
        var x := FindNode(s, name.value).value;
        var y := SameCanonicalMember(s, t, x);
        FindNodeOfDistinct(t, y);
      } else if FindNode(t, name.value).Some? {
        var _ := SameCanonicalMember(t, s, FindNode(t, name.value).value);
        assert false;
      }
    }
  }

  /** An active Primary cannot appear without changing the digest of evidence that passed validation. */
  lemma DigestShowsActivePrimary(nodes: seq<Member>, planned: seq<Report>, latest: seq<Report>)
    requires DistinctNodes(planned) && (forall item <- planned :: item.active.IsBoolean())
    requires Canonical(planned) == Canonical(latest) && !AnyActivePrimary(nodes, planned)
    ensures !AnyActivePrimary(nodes, latest)
  {
    CanonicalKeepsDistinct(planned, latest);
    SameCanonicalLocalUuid(nodes, planned, latest);
    if AnyActivePrimary(nodes, latest) {
      var x :| x in latest && IsActivePrimary(nodes, x, latest);
      var y := SameCanonicalMember(latest, planned, x);
      assert false;
    }
  }

  // ----- authorization -----

  function AcceptedSize(record: EpochRecord, request: AuthorizeRequest): int {
    match request.supervisorQuorum
    case Unspecified => |record.quorum|
    case Requested(n) => n
    case MalformedQuorum => 0
  }

  /** Who acknowledges: everyone when an operator forces it without a quorum size, else those listed. */
  ghost predicate EnoughAcknowledge(record: EpochRecord, request: AuthorizeRequest) {
    var size := AcceptedSize(record, request);
    && 1 <= size <= |record.quorum|
    && (if request.force && request.supervisorQuorum.Unspecified? then true
        else
          && request.acknowledgements.Some?
          && (forall name <- request.acknowledgements.value :: name in record.quorum)
          && |MemberSet(request.acknowledgements.value)| >= size)
  }

  ghost predicate StoreAccepts(l: Ledger, epoch: EpochId, io: bool) {
    EpochOf(l.stored) == Some(epoch) && io
  }

  /** A call is about the planned record in force when it names its epoch, and about none otherwise. */
  lemma NamedExact(document: Option<Document>, epoch: Option<EpochId>, record: EpochRecord)
    ensures NamedRecord(document, epoch) == Some(record) <==> document == Some(Planned(record)) && epoch == Some(record.epoch)
  {
  }

  ghost predicate ValidForCaller(l: Ledger, epoch: Option<EpochId>) {
    var existing := NamedRecord(ReadThrough(l).current, epoch);
    && existing.Some? && existing.value.winner.WinnerRecord? && existing.value.winner.node != ""
    && existing.value.phase in {EvidencePhase, Authorized, Bootstrapping, Complete}
    && existing.value.epoch == EpochId(existing.value.clusterId, existing.value.digest)
  }

  lemma GivenFacts(record: EpochRecord, request: AuthorizeRequest)
    requires Sorting.NoDuplicates(record.quorum)
    ensures var given := GivenAcknowledgements(record, request);
      && Sorting.NoDuplicates(given)
      && (!(request.force && request.supervisorQuorum.Unspecified?) ==>
           && |given| == |MemberSet(request.acknowledgements.GetOr([]))|
           && forall name :: name in given <==> name in request.acknowledgements.GetOr([]))
  {
    QuorumMembers(request.acknowledgements.GetOr([]));
  }

  /** Authorization succeeds exactly for the epoch in force, still open for it, with enough known members
      behind it; it then changes the phase and the acknowledgements and nothing else. */
  lemma AuthorizeExact(l: Ledger, request: AuthorizeRequest, io: bool)
    requires forall r :: NamedRecord(ReadThrough(l).current, request.epoch) == Some(r) ==>
      Sorting.NoDuplicates(r.quorum)
    ensures var existing := NamedRecord(ReadThrough(l).current, request.epoch);
      var (after, reply) := AuthorizeStep(l, request, io);
      && (reply.Advanced? <==>
           && ValidForCaller(l, request.epoch)
           && existing.value.phase in {EvidencePhase, Authorized}
           && EnoughAcknowledge(existing.value, request)
           && StoreAccepts(l, existing.value.epoch, io))
      && (reply.Advanced? ==>
           && reply.record == existing.value.(phase := Authorized, acknowledgements := reply.record.acknowledgements,
                                              requiredAcknowledgements := AcceptedSize(existing.value, request),
                                              forced := existing.value.forced || request.force)
           && Sorting.NoDuplicates(reply.record.acknowledgements)
           && (forall name <- reply.record.acknowledgements :: name in existing.value.quorum)
           && |reply.record.acknowledgements| >= reply.record.requiredAcknowledgements >= 1
           && after == Ledger(Some(Planned(reply.record)), Some(Planned(reply.record))))
      && (reply.Denied? ==> after == ReadThrough(l))
      && (reply == Denied(UnknownEpoch) <==> !ValidForCaller(l, request.epoch))
      && (reply == Denied(BadSupervisorQuorum) <==>
           ValidForCaller(l, request.epoch) && !(1 <= AcceptedSize(existing.value, request) <= |existing.value.quorum|))
  {
    var existing := NamedRecord(ReadThrough(l).current, request.epoch);
    if ValidForCaller(l, request.epoch) {
      var record := existing.value;
      GivenFacts(record, request);
      var size := AcceptedSize(record, request);
      var given := GivenAcknowledgements(record, request);
      var details :=
        NO_DETAILS.(acknowledgements := Some(given), requiredAcknowledgements := Some(size), forced := request.force);
      AcknowledgementsExact(record.quorum, details);
      KnownAcknowledgements(record, request);
    }
  }

  lemma KnownAcknowledgements(record: EpochRecord, request: AuthorizeRequest)
    requires Sorting.NoDuplicates(record.quorum)
    ensures var size, given := AcceptedSize(record, request), GivenAcknowledgements(record, request);
      EnoughAcknowledge(record, request) <==>
        1 <= size <= |record.quorum| && (forall name <- given :: name in record.quorum) && |given| >= size
  {
    GivenFacts(record, request);
    if request.acknowledgements.None? {
      assert MemberSet(request.acknowledgements.GetOr([])) == {};
    }
  }

  // ----- completion -----

  lemma {:induction false} JoinHead(names: seq<string>)
    requires names != []
    ensures |JoinNames(names)| >= |names[0]| && JoinNames(names)[..|names[0]|] == names[0]
    ensures |names| > 1 ==>
      && |JoinNames(names)| > |names[0]| + 1 && JoinNames(names)[|names[0]|] == '\\'
      && JoinNames(names)[|names[0]| + 2..] == JoinNames(names[1..])
    ensures |names| == 1 ==> JoinNames(names) == names[0]
  {
    if |names| > 1 {
      assert JoinNames(names) == names[0] + (SEPARATOR + JoinNames(names[1..]));
      assert (names[0] + (SEPARATOR + JoinNames(names[1..])))[|names[0]|..] == SEPARATOR + JoinNames(names[1..]);
      assert |SEPARATOR| == 2;
    }
  }

  ghost predicate Plain(names: seq<string>) {
    forall name <- names :: '\\' !in name
  }

  /** Joining is injective on names without the separator's first character. */
  lemma {:induction false} JoinInjective(a: seq<string>, b: seq<string>)
    requires a != [] && b != [] && Plain(a) && Plain(b) && JoinNames(a) == JoinNames(b)
    ensures a == b
  {
    JoinHead(a);
    JoinHead(b);
    var s := JoinNames(a);
    assert a[0] in a && b[0] in b;
    if |a[0]| < |b[0]| {
      assert false;
    } else if |b[0]| < |a[0]| {
      assert false;
    }
    if |a| > 1 && |b| > 1 {
      assert Plain(a[1..]) && Plain(b[1..]);
      JoinInjective(a[1..], b[1..]);
    }
    assert a == [a[0]] + a[1..] && b == [b[0]] + b[1..];
  }

  /** An accepted membership is a rearrangement of the quorum exactly when no reported name contains the
      backslash of the separator that the comparison joins with. */
  lemma MembershipExact(membership: seq<string>, quorum: seq<string>)
    requires quorum != [] && Sorting.NoDuplicates(quorum) && Plain(quorum)
    ensures multiset(membership) == multiset(quorum) <==> SameMembership(membership, quorum) && Plain(membership)
  {
    var given, due := QuorumOf(membership), Sorting.Sort(quorum, Names.Leq);
    QuorumMembers(membership);
    Sorting.SortElements(quorum, Names.Leq);
    Names.LeqIsOrder();
    if SameMembership(membership, quorum) && Plain(membership) {
      assert Plain(given) && Plain(due);
      assert membership[0] in given;
      JoinInjective(given, due);
      MemberSetDistinct(membership);
      assert Sorting.NoDuplicates(membership);
      Sorting.NoDuplicatesSameMembers(membership, quorum);
    }
    if multiset(membership) == multiset(quorum) {
      Sorting.SameElements(membership, quorum);
      Sorting.NoDuplicatesForgetsOrder(quorum, membership);
      Sorting.DistinctOfDistinct(membership);
      Sorting.SortForgetsOrder(membership, quorum, Names.Leq);
    }
  }

  /** Names with the separator inside can pass for a membership they are not. */
  lemma JoinedNamesPass()
    ensures var quorum, membership := ["a.x", "b.x"], ["a.x\\0b.x", "a.x\\0b.x"];
      SameMembership(membership, quorum) && multiset(membership) != multiset(quorum)
  {
    var quorum, membership := ["a.x", "b.x"], ["a.x\\0b.x", "a.x\\0b.x"];
    var name := "a.x\\0b.x";
    assert membership[..1] == [name];
    assert Sorting.Distinct([name]) == [name] by { assert [name][..0] == []; }
    assert Sorting.Distinct(membership) == [name];
    assert Sorting.Sort([name], Names.Leq) == [name] by { assert Sorting.Sort<string>([], Names.Leq) == []; }
    assert Names.Leq("a.x", "b.x");
    assert quorum[1..] == ["b.x"];
    assert Sorting.Sort(["b.x"], Names.Leq) == ["b.x"] by { assert Sorting.Sort<string>([], Names.Leq) == []; }
    assert Sorting.Sort(quorum, Names.Leq) == quorum;
    assert JoinNames(quorum) == "a.x" + SEPARATOR + JoinNames(["b.x"]) == name;
    assert "a.x" in multiset(quorum) && "a.x" !in multiset(membership);
  }

  /** Completion succeeds exactly from `bootstrapping` for the recorded winner, or - by omitting the winner -
      once more on a complete record whose winner is still a name. */
  lemma CompleteExact(l: Ledger, request: CompleteRequest, io: bool)
    requires forall r :: NamedRecord(ReadThrough(l).current, request.epoch) == Some(r) ==>
      (r.winner.WinnerRecord? <==> r.phase != Complete)
    ensures var existing := NamedRecord(ReadThrough(l).current, request.epoch);
      var (after, reply) := CompleteStep(l, request, io);
      && (reply.Advanced? <==>
           && existing.Some?
           && (if existing.value.phase == Complete then request.winner.None? && existing.value.winner.Name().Some?
               else existing.value.phase == Bootstrapping && request.winner == Some(existing.value.winner.node))
           && request.clusterId == Some(existing.value.clusterId)
           && request.membership.Some? && SameMembership(request.membership.value, existing.value.quorum)
           && StoreAccepts(l, existing.value.epoch, io))
      && (reply.Advanced? ==>
           && reply.record == existing.value.(phase := Complete, winner := WinnerGiven(request.winner),
                                              membership := request.membership.value)
           && after == Ledger(Some(Planned(reply.record)), Some(Planned(reply.record))))
      && (reply.Denied? ==> after == ReadThrough(l))
      && (reply == Denied(UnknownEpoch) <==> existing.None?)
      && (reply == Denied(NoAuthority) <==>
           && existing.Some?
           && (request.winner != existing.value.winner.Node() || request.clusterId != Some(existing.value.clusterId)))
      && (reply == Denied(WrongMembership) <==>
           && existing.Some? && request.winner == existing.value.winner.Node()
           && request.clusterId == Some(existing.value.clusterId)
           && (request.membership.None? || !SameMembership(request.membership.value, existing.value.quorum)))
  {
  }

  // ----- bootstrap -----

  ghost predicate AllBoolean(evidence: seq<Report>) {
    forall item <- evidence :: item.active.IsBoolean()
  }

  lemma WellFormedBoolean(evidence: seq<Report>)
    requires forall item <- evidence :: WellFormed(item)
    ensures AllBoolean(evidence)
  {
  }

  lemma SameDigestSameChoice(config: Config, record: EpochRecord, latest: seq<Report>)
    requires config.nodes != [] && WellPlanned(config, record) && Canonical(latest) == Canonical(record.evidence)
    requires Candidate.AllUsable(latest)
    ensures var again := Candidate.SelectCandidate(latest, Majority.Required(|config.nodes|));
      && again.Eligible?
      && Candidate.PositionOf(again.candidate)
         == Candidate.Position(record.winner.node, record.winner.uuid, record.winner.seqno)
  {
    CanonicalDetermines(record.evidence, latest);
    WellFormedUsable(record.evidence);
    Candidate.SamePositionsSameWinner(record.evidence, latest, Majority.Required(|config.nodes|));
  }

  /** Fresh evidence with the planned digest is a full, sound view without an active Primary. */
  lemma SameDigestFullView(config: Config, record: EpochRecord, answers: seq<Answer>, now: int)
    requires config.nodes != [] && |answers| == |config.nodes| && WellPlanned(config, record)
    requires Canonical(Items(answers)) == Canonical(record.evidence) && !Collect(config, answers, now).CollectFailed?
    ensures !AnyActivePrimary(config.nodes, Items(answers))
    ensures forall a <- answers :: a.Fulfilled?
    ensures ValidEvidence(Items(answers), now, config.maxAge)
    ensures NodesOf(Items(answers)) == NodesOf(record.evidence)
  {
    var latest := Items(answers);
    CanonicalDetermines(record.evidence, latest);
    WellFormedBoolean(record.evidence);
    DigestShowsActivePrimary(config.nodes, record.evidence, latest);
    AllFulfilled(answers);
    CollectExact(config, answers, now);
  }

  /** What a begin makes of the reports it collects: it goes on exactly when every node reports the planned facts again,
      and any difference blocks the record. */
  lemma BeginByReports(config: Config, l: Ledger, request: BeginRequest, answers: seq<Answer>, now: int, io: bool)
    requires ValidForCaller(l, request.epoch)
    requires var planned := NamedRecord(ReadThrough(l).current, request.epoch).value;
      && planned.phase == Authorized && request.winner == planned.winner.Node()
      && planned.clusterId != "" && planned.quorum != []
      && DistinctNodes(planned.evidence) && planned.digest == Sha256(Canonical(planned.evidence))
    requires !Collect(config, answers, now).CollectFailed?
    ensures var planned := NamedRecord(ReadThrough(l).current, request.epoch).value;
      var latest := Items(answers);
      var same := DistinctNodes(latest) && SameReports(planned.evidence, latest);
      var blocked := planned.(phase := Blocked, code := Some(EvidenceChanged), evidence := latest);
      var (after, reply) := BeginStep(config, l, request, answers, now, io);
      && (reply.Advanced? <==> same && StoreAccepts(l, planned.epoch, io))
      && after.current == Some(Planned(if same then planned.(phase := Bootstrapping) else blocked))
      && (!same && StoreAccepts(l, planned.epoch, io) ==>
          reply == Denied(EvidenceMoved) && after.stored == after.current)
  {
    var planned := NamedRecord(ReadThrough(l).current, request.epoch).value;
    SameDigestExactly(planned.evidence, Items(answers));
    BeginOnSame(l, request, Collect(config, answers, now), Items(answers), io);
  }

  lemma BeginOnSame(l: Ledger, request: BeginRequest, collected: Collected, latest: seq<Report>, io: bool)
    requires ValidForCaller(l, request.epoch) && !collected.CollectFailed?
    requires var planned := NamedRecord(ReadThrough(l).current, request.epoch).value;
      && planned.phase == Authorized && request.winner == planned.winner.Node()
      && planned.clusterId != "" && planned.quorum != []
    ensures var planned := NamedRecord(ReadThrough(l).current, request.epoch).value;
      var same := Sha256(Canonical(latest)) == planned.digest;
      var blocked := planned.(phase := Blocked, code := Some(EvidenceChanged), evidence := latest);
      var (after, reply) := BeginOn(l, request, collected, latest, io);
      && (reply.Advanced? <==> same && StoreAccepts(l, planned.epoch, io))
      && after.current == Some(Planned(if same then planned.(phase := Bootstrapping) else blocked))
      && (!same && StoreAccepts(l, planned.epoch, io) ==>
          reply == Denied(EvidenceMoved) && after.stored == after.current)
  {
  }

  /** Re-validation is sound. When `beginBootstrap` succeeds, the evidence it has just collected is complete,
      sound and free of an active Primary, has the canonical form planned on, and selecting on it again
      would pick the same winner - which is the node that asked. */
  lemma BeginRevalidates(config: Config, l: Ledger, request: BeginRequest, answers: seq<Answer>, now: int, io: bool)
    requires config.nodes != [] && |answers| == |config.nodes|
    requires forall r :: NamedRecord(ReadThrough(l).current, request.epoch) == Some(r) && r.phase == Authorized ==>
      WellPlanned(config, r)
    requires BeginStep(config, l, request, answers, now, io).1.Advanced?
    ensures var latest, planned := Items(answers), NamedRecord(ReadThrough(l).current, request.epoch).value;
      var again := Candidate.SelectCandidate(latest, Majority.Required(|config.nodes|));
      && Canonical(latest) == Canonical(planned.evidence) && SameReports(planned.evidence, latest)
      && (forall a <- answers :: a.Fulfilled?)
      && ValidEvidence(latest, now, config.maxAge)
      && NodesOf(latest) == NodesOf(planned.evidence)
      && !AnyActivePrimary(config.nodes, latest)
      && again.Eligible?
      && Candidate.PositionOf(again.candidate)
        == Candidate.Position(planned.winner.node, planned.winner.uuid, planned.winner.seqno)
      && request.winner == Some(again.candidate.node)
  {
    var latest, planned := Items(answers), NamedRecord(ReadThrough(l).current, request.epoch).value;
    BeginMatches(config, l, request, answers, now, io);
    SameDigestExactly(planned.evidence, latest);
    SameDigestFullView(config, planned, answers, now);
    ValidUsable(latest, now, config.maxAge);
    SameDigestSameChoice(config, planned, latest);
  }

  lemma ValidUsable(evidence: seq<Report>, now: int, maxAge: int)
    requires ValidEvidence(evidence, now, maxAge)
    ensures Candidate.AllUsable(evidence) && DistinctNodes(evidence)
  {
  }

  lemma BeginMatches(config: Config, l: Ledger, request: BeginRequest, answers: seq<Answer>, now: int, io: bool)
    requires BeginStep(config, l, request, answers, now, io).1.Advanced?
    ensures var existing := NamedRecord(ReadThrough(l).current, request.epoch);
      && existing.Some? && existing.value.phase == Authorized
      && existing.value.winner.WinnerRecord? && request.winner == Some(existing.value.winner.node)
      && Sha256(Canonical(Items(answers))) == existing.value.digest
      && !Collect(config, answers, now).CollectFailed?
  {
    BeginOnMatches(l, request, Collect(config, answers, now), Items(answers), io);
  }

  /** What a begin that succeeds was checked against, and what it leaves. */
  lemma BeginOnMatches(l: Ledger, request: BeginRequest, collected: Collected, latest: seq<Report>, io: bool)
    requires BeginOn(l, request, collected, latest, io).1.Advanced?
    ensures var existing := NamedRecord(ReadThrough(l).current, request.epoch);
      var (after, reply) := BeginOn(l, request, collected, latest, io);
      && existing.Some? && existing.value.phase == Authorized
      && existing.value.winner.WinnerRecord? && request.winner == Some(existing.value.winner.node)
      && Sha256(Canonical(latest)) == existing.value.digest
      && !collected.CollectFailed?
      && reply.record == existing.value.(phase := Bootstrapping)
      && after == Ledger(Some(Planned(reply.record)), Some(Planned(reply.record)))
  {
  }

  /** The record blocked by evidence that could not be collected. */
  function Unavailable(record: EpochRecord, code: Option<Code>): EpochRecord {
    record.(phase := Blocked, code := if code.Some? then code else Some(EvidenceUnavailable))
  }

  /** Bootstrap begins exactly when the record in force is authorized, the caller is its winner and the
      evidence collected now has the planned digest; only the phase changes. Evidence that cannot be
      collected or that moved blocks the record. */
  lemma BeginExact(config: Config, l: Ledger, request: BeginRequest, answers: seq<Answer>, now: int, io: bool)
    requires forall r :: NamedRecord(ReadThrough(l).current, request.epoch) == Some(r) ==>
      r.clusterId != "" && r.quorum != []
    ensures var existing := NamedRecord(ReadThrough(l).current, request.epoch);
      var (after, reply) := BeginStep(config, l, request, answers, now, io);
      var entitled :=
        && ValidForCaller(l, request.epoch) && existing.value.phase == Authorized
        && request.winner == existing.value.winner.Node();
      var collected := Collect(config, answers, now);
      && (reply.Advanced? <==>
           && entitled && !collected.CollectFailed?
           && Sha256(Canonical(Items(answers))) == existing.value.digest
           && StoreAccepts(l, existing.value.epoch, io))
      && (reply.Advanced? ==>
           && reply.record == existing.value.(phase := Bootstrapping)
           && after == Ledger(Some(Planned(reply.record)), Some(Planned(reply.record))))
      && (reply in {Denied(NotRevalidated), Denied(EvidenceMoved)} ==>
           && entitled && after.current == after.stored && after.current.Some? && after.current.value.Planned?
           && after.current.value.record.phase == Blocked && after.current.value.record.epoch == existing.value.epoch
           && (reply == Denied(NotRevalidated) <==> collected.CollectFailed?))
      && (!entitled <==> reply in {Denied(UnknownEpoch), Denied(NoAuthority)})
      && (!entitled ==> after == ReadThrough(l))
      && (entitled && collected.CollectFailed? ==>
          after.current == Some(Planned(Unavailable(existing.value, collected.code))))
  {
    BeginOnExact(l, request, Collect(config, answers, now), Items(answers), io);
  }

  lemma BeginOnExact(l: Ledger, request: BeginRequest, collected: Collected, latest: seq<Report>, io: bool)
    requires forall r :: NamedRecord(ReadThrough(l).current, request.epoch) == Some(r) ==>
      r.clusterId != "" && r.quorum != []
    ensures var existing := NamedRecord(ReadThrough(l).current, request.epoch);
      var (after, reply) := BeginOn(l, request, collected, latest, io);
      var entitled :=
        && ValidForCaller(l, request.epoch) && existing.value.phase == Authorized
        && request.winner == existing.value.winner.Node();
      && (reply.Advanced? <==>
           && entitled && !collected.CollectFailed?
           && Sha256(Canonical(latest)) == existing.value.digest
           && StoreAccepts(l, existing.value.epoch, io))
      && (reply.Advanced? ==>
           && reply.record == existing.value.(phase := Bootstrapping)
           && after == Ledger(Some(Planned(reply.record)), Some(Planned(reply.record))))
      && (reply in {Denied(NotRevalidated), Denied(EvidenceMoved)} ==>
           && entitled && after.current == after.stored && after.current.Some? && after.current.value.Planned?
           && after.current.value.record.phase == Blocked && after.current.value.record.epoch == existing.value.epoch
           && (reply == Denied(NotRevalidated) <==> collected.CollectFailed?))
      && (!entitled <==> reply in {Denied(UnknownEpoch), Denied(NoAuthority)})
      && (!entitled ==> after == ReadThrough(l))
      && (entitled && collected.CollectFailed? ==>
          after.current == Some(Planned(Unavailable(existing.value, collected.code))))
  {
  }
}
