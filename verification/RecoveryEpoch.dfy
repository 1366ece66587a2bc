/** The recovery epoch record: src/cluster/cold-bootstrap/recovery-epoch.mjs. */
module RecoveryEpoch {
  import opened Options
  import opened Evidence
  import Candidate
  import Names
  import Sorting

  /** The fields of a report that the digest covers; `active` is coerced to a boolean. */
  datatype CanonicalItem = CanonicalItem(
    node: string, uuid: string,
    seqno: Option<int>, savedSeqno: Option<int>, recoveredSeqno: Option<int>,
    dataDirectory: Option<DataDirectory>, galera: Option<Galera>, active: bool)

  /** SHA-256 of the serialised items, taken to be injective. */
  datatype Digest = Sha256(items: seq<CanonicalItem>)

  datatype EpochId = EpochId(clusterId: string, digest: Digest)

  datatype Phase = EvidencePhase | Authorized | Bootstrapping | Complete | Blocked

  /** A planned epoch names the winner by a record; completion replaces it by the name it was given. */
  datatype Winner = WinnerRecord(node: string, uuid: string, seqno: int) | WinnerGiven(name: Option<string>) {
    /** What `winner?.node` reads. */
    function Node(): Option<string> {
      if WinnerRecord? then Some(node) else None
    }
    function Name(): Option<string> {
      if WinnerRecord? then Some(node) else name
    }
  }

  datatype EpochRecord = EpochRecord(
    epoch: EpochId, clusterId: string, digest: Digest, winner: Winner, quorum: seq<string>, phase: Phase,
    evidence: seq<Report>, acknowledgements: seq<string>, requiredAcknowledgements: int, forced: bool,
    membership: seq<string>, code: Option<Code>)

  function CanonicalOf(item: Report): CanonicalItem {
    CanonicalItem(item.node, item.uuid, item.seqno, item.savedSeqno, item.recoveredSeqno,
                  item.dataDirectory, item.galera, item.active.Holds())
  }

  function Canonical(evidence: seq<Report>): seq<CanonicalItem> {
    Sorting.Map(Sorting.Sort(evidence, Candidate.ByNode), CanonicalOf)
  }

  /** Member names, each once, in order. */
  function QuorumOf(names: seq<string>): seq<string> {
    Sorting.Sort(Sorting.Distinct(names), Names.Leq)
  }

  function CreateRecoveryEpoch(clusterId: string, evidence: seq<Report>, winner: Winner,
                               quorum: seq<string>): Option<EpochRecord> {
    if clusterId == "" || !winner.WinnerRecord? || winner.node == "" || quorum == [] then None
    else
      var digest := Sha256(Canonical(evidence));
      Some(EpochRecord(EpochId(clusterId, digest), clusterId, digest, winner, QuorumOf(quorum), EvidencePhase,
                       evidence, [], 0, false, [], None))
  }

  predicate Allowed(from: Phase, to: Phase) {
    match from
    case EvidencePhase => to == Authorized || to == Blocked
    case Authorized => to == Bootstrapping || to == Blocked
    case Bootstrapping => to == Complete || to == Blocked
    case Complete => false
    case Blocked => to == EvidencePhase
  }

  /** `acknowledgements` is `None` when it is not an array. */
  datatype Details = Details(
    acknowledgements: Option<seq<string>>, requiredAcknowledgements: Option<int>, forced: bool,
    clusterId: Option<string>, winner: Option<string>, membership: seq<string>)

  const NO_DETAILS := Details(None, None, false, None, None, [])

  datatype EpochError =
    | InvalidTransition | UnidentifiedAcknowledgements | InvalidQuorum | MissingAcknowledgements
    | UnknownMember | DuplicateAcknowledgements | ClusterMismatch | WinnerMismatch | WinnerForgotten

  datatype Outcome = Moved(record: EpochRecord) | Rejected(error: EpochError)

  function MemberSet(names: seq<string>): set<string> {
    set name <- names
  }

  function AcknowledgementError(quorum: seq<string>, details: Details): Option<EpochError> {
    if details.acknowledgements.None? then Some(UnidentifiedAcknowledgements)
    else
      var given := details.acknowledgements.value;
      var required := details.requiredAcknowledgements.GetOr(|quorum|);
      if required < 1 || required > |MemberSet(quorum)| then Some(InvalidQuorum)
      else if |MemberSet(given)| < required then Some(MissingAcknowledgements)
      else if !(MemberSet(given) <= MemberSet(quorum)) then Some(UnknownMember)
      else if |MemberSet(given)| != |given| then Some(DuplicateAcknowledgements)
      else None
  }

  function TransitionRecoveryEpoch(record: EpochRecord, phase: Phase, details: Details): Outcome {
    if phase != record.phase && !Allowed(record.phase, phase) then Rejected(InvalidTransition)
    else if phase == Authorized then
      var error := AcknowledgementError(record.quorum, details);
      if error.Some? then Rejected(error.value)
      else Moved(record.(phase := Authorized, acknowledgements := details.acknowledgements.value,
                         requiredAcknowledgements := details.requiredAcknowledgements.GetOr(|record.quorum|),
                         forced := record.forced || details.forced))
    else if phase == Complete && details.clusterId != Some(record.clusterId) then Rejected(ClusterMismatch)
    else if phase == Complete && record.winner == WinnerGiven(None) then Rejected(WinnerForgotten)  // a TypeError
    else if phase == Complete && details.winner != record.winner.Node() then Rejected(WinnerMismatch)
    else if phase == Complete then
      Moved(record.(phase := Complete, winner := WinnerGiven(details.winner), membership := details.membership))
    else Moved(record.(phase := phase))
  }

  predicate ValidateRecoveryEpoch(record: EpochRecord) {
    && record.winner.Node().Some? && record.winner.node != ""
    && record.phase != Blocked
    && record.epoch == EpochId(record.clusterId, record.digest)
  }

  // ----- acknowledgements -----

  lemma MemberSetDistinct(names: seq<string>)
    ensures |MemberSet(names)| == |names| <==> Sorting.NoDuplicates(names)
    ensures |MemberSet(names)| <= |names|
    decreases |names|
  {
    if names != [] {
      var front, last := names[..|names| - 1], names[|names| - 1];
      MemberSetDistinct(front);
      assert names == front + [last];
      assert MemberSet(names) == MemberSet(front) + {last};
      if last in front {
        assert MemberSet(names) == MemberSet(front);
      } else if Sorting.NoDuplicates(names) {
        assert Sorting.NoDuplicates(front);
      }
    }
  }

  /** Authorization is accepted just for enough distinct, known members. */
  lemma AcknowledgementsExact(quorum: seq<string>, details: Details)
    requires Sorting.NoDuplicates(quorum)
    ensures AcknowledgementError(quorum, details).None? <==>
      && details.acknowledgements.Some?
      && Sorting.NoDuplicates(details.acknowledgements.value)
      && (forall name <- details.acknowledgements.value :: name in quorum)
      && 1 <= details.requiredAcknowledgements.GetOr(|quorum|) <= |quorum|
      && |details.acknowledgements.value| >= details.requiredAcknowledgements.GetOr(|quorum|)
    ensures var required := if details.requiredAcknowledgements.Some? then details.requiredAcknowledgements.value
      else |quorum|;
      var given := details.acknowledgements.GetOr([]);
      var distinct := |(set name | name in given)|;
      AcknowledgementError(quorum, details)
      == if details.acknowledgements == None then Some(UnidentifiedAcknowledgements)
         else if !(1 <= required <= |quorum|) then Some(InvalidQuorum)
         else if distinct < required then Some(MissingAcknowledgements)
         else if exists name <- given :: name !in quorum then Some(UnknownMember)
         else if distinct < |given| then Some(DuplicateAcknowledgements)
         else None
  {
    MemberSetDistinct(quorum);
    if details.acknowledgements.Some? {
      var given := details.acknowledgements.value;
      MemberSetDistinct(given);
      assert MemberSet(given) <= MemberSet(quorum) <==> forall name <- given :: name in quorum by {
        if MemberSet(given) <= MemberSet(quorum) {
          forall name <- given ensures name in quorum { assert name in MemberSet(given); }
        }
      }
    }
  }

  lemma QuorumMembers(names: seq<string>)
    ensures Sorting.NoDuplicates(QuorumOf(names))
    ensures forall name :: name in QuorumOf(names) <==> name in names
    ensures |QuorumOf(names)| == |MemberSet(names)|
    ensures Sorting.SortedBy(QuorumOf(names), Names.Leq)
  {
    var distinct := Sorting.Distinct(names);
    Sorting.DistinctElements(names);
    Sorting.SortElements(distinct, Names.Leq);
    Names.LeqIsOrder();
    Sorting.SortSorted(distinct, Names.Leq);
    Sorting.NoDuplicatesForgetsOrder(distinct, QuorumOf(names));
    MemberSetDistinct(distinct);
    assert MemberSet(distinct) == MemberSet(names);
  }

  /** A transition is refused as such exactly when it is no step of this table and no repetition. */
  lemma TransitionExact(record: EpochRecord, phase: Phase, details: Details)
    ensures TransitionRecoveryEpoch(record, phase, details) == Rejected(InvalidTransition) <==>
      phase != record.phase && (record.phase, phase) !in {
        (EvidencePhase, Authorized), (EvidencePhase, Blocked), (Authorized, Bootstrapping), (Authorized, Blocked),
        (Bootstrapping, Complete), (Bootstrapping, Blocked), (Blocked, EvidencePhase)}
  {
  }

  // ----- what the digest determines -----

  /** The digest does not see the order of the evidence. */
  lemma CanonicalForgetsOrder(s: seq<Report>, t: seq<Report>)
    requires DistinctNodes(s) && multiset(s) == multiset(t)
    ensures Canonical(s) == Canonical(t)
  {
    Candidate.ByNodeIsOrder();
    forall x, y | x in s && y in s && Candidate.ByNode(x, y) && Candidate.ByNode(y, x) ensures x == y {
      Names.LeqAntisymmetric(x.node, y.node);
      FindNodeOfDistinct(s, x);
      FindNodeOfDistinct(s, y);
    }
    Sorting.SortForgetsOrder(s, t, Candidate.ByNode);
  }

  /** Nor the timestamps and generations. */
  lemma CanonicalIgnoresFreshness(s: seq<Report>, t: seq<Report>)
    requires SameButFreshness(s, t)
    ensures Canonical(s) == Canonical(t)
  {
    SortIgnoresFreshness(s, t);
    var a, b := Sorting.Sort(s, Candidate.ByNode), Sorting.Sort(t, Candidate.ByNode);
    assert Canonical(s) == Canonical(t);
  }

  ghost predicate SameButFreshness(s: seq<Report>, t: seq<Report>) {
    |s| == |t| && forall i :: 0 <= i < |s| ==>
      t[i] == s[i].(generation := t[i].generation, observedAt := t[i].observedAt)
  }

  lemma {:induction false} InsertIgnoresFreshness(x: Report, y: Report, s: seq<Report>, t: seq<Report>)
    requires SameButFreshness(s, t) && y == x.(generation := y.generation, observedAt := y.observedAt)
    ensures SameButFreshness(Sorting.Insert(x, s, Candidate.ByNode), Sorting.Insert(y, t, Candidate.ByNode))
  {
    if s != [] && !Candidate.ByNode(x, s[0]) {
      InsertIgnoresFreshness(x, y, s[1..], t[1..]);
    }
  }

  lemma {:induction false} SortIgnoresFreshness(s: seq<Report>, t: seq<Report>)
    requires SameButFreshness(s, t)
    ensures SameButFreshness(Sorting.Sort(s, Candidate.ByNode), Sorting.Sort(t, Candidate.ByNode))
  {
    if s != [] {
      SortIgnoresFreshness(s[1..], t[1..]);
      InsertIgnoresFreshness(s[0], t[0], Sorting.Sort(s[1..], Candidate.ByNode),
                             Sorting.Sort(t[1..], Candidate.ByNode));
    }
  }

  function PositionOfItem(item: CanonicalItem): Candidate.Position {
    Candidate.Position(item.node, item.uuid, item.seqno.GetOr(0))
  }

  /** Equal digests come from equally many reports with the same canonical items in some order. */
  lemma CanonicalDetermines(s: seq<Report>, t: seq<Report>)
    requires Canonical(s) == Canonical(t)
    ensures |s| == |t|
    ensures multiset(Sorting.Map(s, CanonicalOf)) == multiset(Sorting.Map(t, CanonicalOf))
    ensures multiset(Candidate.Positions(s)) == multiset(Candidate.Positions(t))
    ensures NodesOf(s) == NodesOf(t)
  {
    var a, b := Sorting.Sort(s, Candidate.ByNode), Sorting.Sort(t, Candidate.ByNode);
    Sorting.SortElements(s, Candidate.ByNode);
    Sorting.SortElements(t, Candidate.ByNode);
    Sorting.MapForgetsOrder(a, s, CanonicalOf);
    Sorting.MapForgetsOrder(b, t, CanonicalOf);
    PositionsOfCanonical(a);
    PositionsOfCanonical(b);
    Sorting.MapForgetsOrder(a, s, Candidate.PositionOf);
    Sorting.MapForgetsOrder(b, t, Candidate.PositionOf);
    assert Candidate.Positions(a) == Candidate.Positions(b);
    NodesOfPositions(s);
    NodesOfPositions(t);
    Sorting.SameElements(Candidate.Positions(s), Candidate.Positions(t));
  }

  lemma PositionsOfCanonical(s: seq<Report>)
    ensures Candidate.Positions(s) == Sorting.Map(Sorting.Map(s, CanonicalOf), PositionOfItem)
  {
    var a, b := Candidate.Positions(s), Sorting.Map(Sorting.Map(s, CanonicalOf), PositionOfItem);
    forall i | 0 <= i < |s| ensures a[i] == b[i] {
      assert b[i] == PositionOfItem(CanonicalOf(s[i]));
    }
  }

  lemma NodesOfPositions(s: seq<Report>)
    ensures NodesOf(s) == set p <- Candidate.Positions(s) :: p.node
  {
    forall n ensures n in NodesOf(s) <==> exists p <- Candidate.Positions(s) :: p.node == n {
      if n in NodesOf(s) {
        var item :| item in s && item.node == n;
        Candidate.PositionsMember(s, Candidate.PositionOf(item));
        assert Candidate.PositionOf(item).node == n;
      }
      if p :| p in Candidate.Positions(s) && p.node == n {
        Candidate.PositionsMember(s, p);
      }
    }
  }

  // ----- the digest, field by field -----

  /** Two reports of one node that recovery must not tell apart. */
  ghost predicate SameFacts(a: Report, b: Report) {
    && a.uuid == b.uuid && a.seqno == b.seqno && a.savedSeqno == b.savedSeqno && a.recoveredSeqno == b.recoveredSeqno
    && a.dataDirectory == b.dataDirectory && a.galera == b.galera
    && (a.active in {Yes, Truthy} <==> b.active in {Yes, Truthy})
  }

  /** The same nodes report, each the same facts. */
  ghost predicate SameReports(s: seq<Report>, t: seq<Report>) {
    NodesOf(s) == NodesOf(t) && forall a <- s, b <- t :: a.node == b.node ==> SameFacts(a, b)
  }

  predicate ItemByNode(a: CanonicalItem, b: CanonicalItem) {
    Names.Leq(a.node, b.node)
  }

  lemma ItemIn(s: seq<Report>, a: Report)
    requires a in s
    ensures CanonicalOf(a) in Sorting.Map(s, CanonicalOf)
  {
    var k :| 0 <= k < |s| && s[k] == a;
    assert Sorting.Map(s, CanonicalOf)[k] == CanonicalOf(a);
  }

  lemma ReportOf(s: seq<Report>, item: CanonicalItem) returns (a: Report)
    requires item in Sorting.Map(s, CanonicalOf)
    ensures a in s && CanonicalOf(a) == item
  {
    var items := Sorting.Map(s, CanonicalOf);
    var k :| 0 <= k < |items| && items[k] == item;
    a := s[k];
  }

  lemma OneReport(s: seq<Report>, a: Report, b: Report)
    requires DistinctNodes(s) && a in s && b in s && a.node == b.node
    ensures a == b
  {
    FindNodeOfDistinct(s, a);
    FindNodeOfDistinct(s, b);
  }

  lemma SameFactsExact(a: Report, b: Report)
    ensures CanonicalOf(a) == CanonicalOf(b) <==> a.node == b.node && SameFacts(a, b)
  {
  }

  /** The canonical form is the sorted arrangement of the canonical items. */
  lemma CanonicalArranged(s: seq<Report>)
    requires DistinctNodes(s)
    ensures multiset(Canonical(s)) == multiset(Sorting.Map(s, CanonicalOf))
    ensures Sorting.SortedBy(Canonical(s), ItemByNode) && Sorting.AntisymmetricOn(ItemByNode, Canonical(s))
  {
    var a := Sorting.Sort(s, Candidate.ByNode);
    Candidate.ByNodeIsOrder();
    Sorting.SortElements(s, Candidate.ByNode);
    Sorting.SortSorted(s, Candidate.ByNode);
    Sorting.MapForgetsOrder(a, s, CanonicalOf);
    forall c, d | c in Canonical(s) && d in Canonical(s) && ItemByNode(c, d) && ItemByNode(d, c) ensures c == d {
      Names.LeqAntisymmetric(c.node, d.node);
      var x := ReportOf(a, c);
      var y := ReportOf(a, d);
      OneReport(s, x, y);
    }
  }

  lemma ItemsNoDuplicates(s: seq<Report>)
    requires DistinctNodes(s)
    ensures Sorting.NoDuplicates(Sorting.Map(s, CanonicalOf))
  {
  }

  lemma ItemShared(s: seq<Report>, t: seq<Report>, item: CanonicalItem)
    requires SameReports(s, t) && item in Sorting.Map(s, CanonicalOf)
    ensures item in Sorting.Map(t, CanonicalOf)
  {
    var a := ReportOf(s, item);
    assert a.node in NodesOf(t);
    var b :| b in t && b.node == a.node;
    SameFactsExact(a, b);
    ItemIn(t, b);
  }

  lemma SameReportsSymmetric(s: seq<Report>, t: seq<Report>)
    requires SameReports(s, t)
    ensures SameReports(t, s)
  {
    forall b <- t, a <- s | b.node == a.node ensures SameFacts(b, a) {
      assert SameFacts(a, b);
    }
  }

  lemma SameReportsSameCanonical(s: seq<Report>, t: seq<Report>)
    requires DistinctNodes(s) && DistinctNodes(t) && SameReports(s, t)
    ensures Canonical(s) == Canonical(t)
  {
    var c, d := Sorting.Map(s, CanonicalOf), Sorting.Map(t, CanonicalOf);
    SameReportsSymmetric(s, t);
    forall item ensures item in c <==> item in d {
      if item in c { ItemShared(s, t, item); }
      if item in d { ItemShared(t, s, item); }
    }
    ItemsNoDuplicates(s);
    ItemsNoDuplicates(t);
    Sorting.NoDuplicatesSameMembers(c, d);
    CanonicalArranged(s);
    CanonicalArranged(t);
    Names.LeqIsOrder();
    Sorting.SortedUnique(Canonical(s), Canonical(t), ItemByNode);
  }

  /** Equal digests: every report of one collection has its like in the other. */
  lemma Counterpart(s: seq<Report>, t: seq<Report>, a: Report) returns (b: Report)
    requires Canonical(s) == Canonical(t) && a in s
    ensures b in t && b.node == a.node && SameFacts(a, b)
  {
    CanonicalDetermines(s, t);
    var c, d := Sorting.Map(s, CanonicalOf), Sorting.Map(t, CanonicalOf);
    Sorting.SameElements(c, d);
    ItemIn(s, a);
    b := ReportOf(t, CanonicalOf(a));
    SameFactsExact(a, b);
  }

  lemma CanonicalKeepsDistinct(s: seq<Report>, t: seq<Report>)
    requires DistinctNodes(s) && Canonical(s) == Canonical(t)
    ensures DistinctNodes(t)
  {
    var c, d := Sorting.Map(s, CanonicalOf), Sorting.Map(t, CanonicalOf);
    CanonicalDetermines(s, t);
    ItemsNoDuplicates(s);
    Sorting.SameElements(c, d);
    Sorting.NoDuplicatesForgetsOrder(c, d);
    forall i, j | 0 <= i < j < |t| ensures t[i].node != t[j].node {
      assert d[i] in c && d[j] in c && d[i] != d[j];
      var a := ReportOf(s, d[i]);
      var b := ReportOf(s, d[j]);
      if t[i].node == t[j].node {
        OneReport(s, a, b);
      }
    }
  }

  lemma SameCanonicalSameReports(s: seq<Report>, t: seq<Report>)
    requires DistinctNodes(s) && DistinctNodes(t) && Canonical(s) == Canonical(t)
    ensures SameReports(s, t)
  {
    CanonicalDetermines(s, t);
    forall a <- s, b <- t | a.node == b.node ensures SameFacts(a, b) {
      var x := Counterpart(s, t, a);
      OneReport(t, x, b);
    }
  }

  /** Two collections have one digest exactly when they name the same nodes, each once, and each node's two reports
      agree in uuid, seqno, saved and recovered seqno, data directory, Galera state and in whether the server is
      active. */
  lemma SameDigestExactly(s: seq<Report>, t: seq<Report>)
    requires DistinctNodes(s)
    ensures Sha256(Canonical(s)) == Sha256(Canonical(t)) <==> DistinctNodes(t) && SameReports(s, t)
  {
    if Canonical(s) == Canonical(t) {
      CanonicalKeepsDistinct(s, t);
      SameCanonicalSameReports(s, t);
    } else if DistinctNodes(t) && SameReports(s, t) {
      SameReportsSameCanonical(s, t);
    }
  }
}
