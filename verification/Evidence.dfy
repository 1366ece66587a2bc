/** Recovery evidence as one supervisor collects it from the configured nodes, its validation
    (src/cluster/cold-bootstrap/evidence-validation.mjs) and the active-Primary test. */
module Evidence {
  import opened Options
  import Names
  import Sorting

  datatype DataDirectory = DataDirectory(valid: bool, reason: string)

  datatype Ready = ReadyOn | ReadyTrue | NotReady(text: string)

  datatype Galera = Galera(clusterUuid: Option<string>, clusterStatus: string, localState: string,
                           ready: Ready, clusterSize: Option<int>)

  /** `None` stands for undefined or for a value of the wrong type; "" for a missing string. */
  datatype Report = Report(
    node: string, uuid: string,
    seqno: Option<int>, savedSeqno: Option<int>, recoveredSeqno: Option<int>,
    dataDirectory: Option<DataDirectory>, galera: Option<Galera>, active: Flag,
    generation: Option<int>, observedAt: Option<int>)

  datatype Member = Member(name: string, local: bool)

  /** The error codes that recovery records carry. */
  datatype Code =
    | IncompleteEvidence | InvalidEvidence | StaleEvidence
    | IdentityMismatch | EvidenceUnavailable | InsufficientEvidence
    | SplitBrain | EvidenceChanged | OtherCode(text: string)

  // ----- validation -----

  predicate WellFormed(item: Report) {
    && Names.IsFqdn(item.node)
    && item.uuid != ""
    && item.seqno.Some?
    && item.generation.Some? && item.generation.value >= 1
    && item.active.IsBoolean()
    && (item.dataDirectory.Some? ==> item.dataDirectory.value.valid)
    && item.observedAt.Some?
  }

  predicate Current(item: Report, now: int, maxAge: int)
    requires item.observedAt.Some?
  {
    -maxAge <= now - item.observedAt.value <= maxAge
  }

  predicate DistinctNodes(evidence: seq<Report>) {
    forall i, j :: 0 <= i < j < |evidence| ==> evidence[i].node != evidence[j].node
  }

  /** What validated evidence promises to the selection that follows. */
  predicate ValidEvidence(evidence: seq<Report>, now: int, maxAge: int) {
    && evidence != []
    && DistinctNodes(evidence)
    && forall item <- evidence :: WellFormed(item) && Current(item, now, maxAge)
  }

  function NodesOf(evidence: seq<Report>): set<string> {
    set item <- evidence :: item.node
  }

  function ItemDefect(item: Report, seen: set<string>, now: int, maxAge: int): Option<Code> {
    if !WellFormed(item) || item.node in seen then Some(InvalidEvidence)
    else if !Current(item, now, maxAge) then Some(StaleEvidence)
    else None
  }

  /** The defect of the first bad item, looking at the items in order. */
  function FirstDefect(evidence: seq<Report>, now: int, maxAge: int): Option<Code> {
    if evidence == [] then None
    else
      var front := evidence[..|evidence| - 1];
      var earlier := FirstDefect(front, now, maxAge);
      if earlier.Some? then earlier
      else ItemDefect(evidence[|evidence| - 1], NodesOf(front), now, maxAge)
  }

  function Validation(evidence: seq<Report>, now: int, maxAge: int): Option<Code> {
    if evidence == [] then Some(IncompleteEvidence) else FirstDefect(evidence, now, maxAge)
  }

  lemma DistinctNodesSnoc(front: seq<Report>, last: Report)
    ensures DistinctNodes(front + [last]) <==> DistinctNodes(front) && last.node !in NodesOf(front)
  {
    var all := front + [last];
    if last.node in NodesOf(front) {
      var item :| item in front && item.node == last.node;
      var i :| 0 <= i < |front| && front[i] == item;
      assert all[i].node == all[|front|].node;
    } else {
      forall i | 0 <= i < |front| ensures all[i].node != last.node {
        assert front[i] in front;
      }
    }
    if DistinctNodes(all) {
      forall i, j | 0 <= i < j < |front| ensures front[i].node != front[j].node {
        assert all[i].node != all[j].node;
      }
    }
  }

  predicate AllSound(evidence: seq<Report>, now: int, maxAge: int) {
    forall item <- evidence :: WellFormed(item) && Current(item, now, maxAge)
  }

  lemma {:induction false} FirstDefectAbsent(evidence: seq<Report>, now: int, maxAge: int)
    ensures FirstDefect(evidence, now, maxAge).None? <==> DistinctNodes(evidence) && AllSound(evidence, now, maxAge)
  {
    if evidence != [] {
      var front, last := evidence[..|evidence| - 1], evidence[|evidence| - 1];
      FirstDefectAbsent(front, now, maxAge);
      DistinctNodesSnoc(front, last);
      assert evidence == front + [last];
      assert AllSound(evidence, now, maxAge)
        <==> AllSound(front, now, maxAge) && WellFormed(last) && Current(last, now, maxAge);
    }
  }

  /** A report that validation passes: who, which history and position, counted, told whether it is active, on a valid
      data directory if it says so, and observed within the age of this moment on either side. */
  ghost predicate Trustworthy(item: Report, now: int, maxAge: int) {
    && Names.IsFqdn(item.node) && item.uuid != "" && item.seqno != None && item.active in {Yes, No}
    && item.generation.Some? && item.generation.value > 0
    && (item.dataDirectory == None || item.dataDirectory.value.valid)
    && item.observedAt.Some? && now - maxAge <= item.observedAt.value <= now + maxAge
  }

  /** Validation passes exactly evidence of distinct nodes, not none, all of whose reports are trustworthy, and that is
      what selection relies on. */
  lemma ValidationExact(evidence: seq<Report>, now: int, maxAge: int)
    ensures Validation(evidence, now, maxAge).None? <==>
      && evidence != [] && (forall i, j :: 0 <= i < j < |evidence| ==> evidence[i].node != evidence[j].node)
      && forall item <- evidence :: Trustworthy(item, now, maxAge)
    ensures Validation(evidence, now, maxAge).None? <==> ValidEvidence(evidence, now, maxAge)
  {
    FirstDefectAbsent(evidence, now, maxAge);
    forall item <- evidence ensures Trustworthy(item, now, maxAge) <==> WellFormed(item) && Current(item, now, maxAge) {
    }
  }

  /** The refusal names the first offending item: everything before it is in order. */
  lemma {:induction false} DefectLocated(evidence: seq<Report>, now: int, maxAge: int) returns (k: nat)
    requires Validation(evidence, now, maxAge).Some? && evidence != []
    ensures k < |evidence| && (k > 0 ==> ValidEvidence(evidence[..k], now, maxAge))
    ensures Validation(evidence, now, maxAge) == Some(InvalidEvidence) <==>
      !WellFormed(evidence[k]) || exists i :: 0 <= i < k && evidence[i].node == evidence[k].node
    ensures Validation(evidence, now, maxAge) == Some(StaleEvidence) <==>
      && WellFormed(evidence[k]) && !Current(evidence[k], now, maxAge)
      && forall i :: 0 <= i < k ==> evidence[i].node != evidence[k].node
  {
    var front := evidence[..|evidence| - 1];
    if FirstDefect(front, now, maxAge).Some? {
      k := DefectLocated(front, now, maxAge);
      assert front[..k] == evidence[..k];
    } else {
      k := |evidence| - 1;
      FirstDefectAbsent(front, now, maxAge);
      assert evidence[..k] == front;
      if evidence[k].node in NodesOf(front) {
        var i :| 0 <= i < |front| && front[i].node == evidence[k].node;
        assert evidence[i].node == evidence[k].node;
      } else {
        forall i | 0 <= i < k ensures evidence[i].node != evidence[k].node {
          assert front[i] in front;
        }
      }
    }
  }

  lemma DefectStep(evidence: seq<Report>, i: nat, now: int, maxAge: int)
    requires i < |evidence|
    ensures NodesOf(evidence[..i + 1]) == NodesOf(evidence[..i]) + {evidence[i].node}
    ensures FirstDefect(evidence[..i + 1], now, maxAge) ==
      if FirstDefect(evidence[..i], now, maxAge).Some? then FirstDefect(evidence[..i], now, maxAge)
      else ItemDefect(evidence[i], NodesOf(evidence[..i]), now, maxAge)
  {
    assert evidence[..i + 1][..i] == evidence[..i] && evidence[..i + 1] == evidence[..i] + [evidence[i]];
  }

  /** Grows the set of nodes seen and stops at the first bad item. */
  method ValidateRecoveryEvidence(evidence: seq<Report>, now: int, maxAge: int) returns (defect: Option<Code>)
    ensures defect == Validation(evidence, now, maxAge)
  {
    if |evidence| == 0 {
      return Some(IncompleteEvidence);
    }
    var nodes := {};
    var i := 0;
    while i < |evidence|
      invariant 0 <= i <= |evidence|
      invariant nodes == NodesOf(evidence[..i])
      invariant FirstDefect(evidence[..i], now, maxAge).None?
    {
      var item := evidence[i];
      DefectStep(evidence, i, now, maxAge);
      if !WellFormed(item) || item.node in nodes {
        DefectPersists(evidence, i + 1, now, maxAge);
        return Some(InvalidEvidence);
      }
      if !Current(item, now, maxAge) {
        DefectPersists(evidence, i + 1, now, maxAge);
        return Some(StaleEvidence);
      }
      nodes := nodes + {item.node};
      i := i + 1;
    }
    assert evidence[..i] == evidence;
    defect := None;
  }

  lemma {:induction false} DefectPersists(evidence: seq<Report>, k: nat, now: int, maxAge: int)
    requires k <= |evidence| && FirstDefect(evidence[..k], now, maxAge).Some?
    ensures FirstDefect(evidence, now, maxAge) == FirstDefect(evidence[..k], now, maxAge)
  {
    if k == |evidence| {
      assert evidence[..k] == evidence;
    } else {
      var front := evidence[..|evidence| - 1];
      assert front[..k] == evidence[..k];
      DefectPersists(front, k, now, maxAge);
    }
  }

  // ----- an active Primary component -----

  function LocalName(nodes: seq<Member>): Option<string> {
    if nodes == [] then None
    else if nodes[0].local then Some(nodes[0].name)
    else LocalName(nodes[1..])
  }

  function FindNode(evidence: seq<Report>, name: string): Option<Report> {
    if evidence == [] then None
    else if evidence[0].node == name then Some(evidence[0])
    else FindNode(evidence[1..], name)
  }

  /** The uuid the local item reports; "" when there is none to compare with. */
  function LocalUuid(nodes: seq<Member>, evidence: seq<Report>): string {
    var name := LocalName(nodes);
    var item := if name.Some? then FindNode(evidence, name.value) else None;
    if item.None? then ""
    else if item.value.galera.Some? && item.value.galera.value.clusterUuid.Some?
      then item.value.galera.value.clusterUuid.value
    else item.value.uuid
  }

  predicate IsActivePrimary(nodes: seq<Member>, item: Report, evidence: seq<Report>) {
    var localUuid := LocalUuid(nodes, evidence);
    && item.active == Yes
    && item.galera.Some?
    && item.galera.value.clusterStatus == "Primary"
    && item.galera.value.localState == "Synced"
    && !item.galera.value.ready.NotReady?
    && item.galera.value.clusterUuid.Some?
    && (localUuid == "" || localUuid == item.galera.value.clusterUuid.value)
  }

  predicate AnyActivePrimary(nodes: seq<Member>, evidence: seq<Report>) {
    exists item <- evidence :: IsActivePrimary(nodes, item, evidence)
  }

  lemma {:induction false} FindNodeOfDistinct(evidence: seq<Report>, item: Report)
    requires DistinctNodes(evidence) && item in evidence
    ensures FindNode(evidence, item.node) == Some(item)
  {
    if evidence[0] != item {
      var k :| 0 <= k < |evidence| && evidence[k] == item;
      assert evidence[0].node != evidence[k].node;
      FindNodeOfDistinct(evidence[1..], item);
    }
  }

  lemma {:induction false} FindNodeMember(evidence: seq<Report>, name: string)
    ensures FindNode(evidence, name).Some? ==>
      FindNode(evidence, name).value in evidence && FindNode(evidence, name).value.node == name
    ensures FindNode(evidence, name).None? ==> forall item <- evidence :: item.node != name
  {
    if evidence != [] {
      FindNodeMember(evidence[1..], name);
    }
  }
}
