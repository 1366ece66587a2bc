/** Choice of the node that may restart the cluster: src/cluster/cold-bootstrap/candidate.mjs. */
module Candidate {
  import opened Options
  import opened Evidence
  import Names
  import Sorting

  /** The part of a report that selection looks at. */
  datatype Position = Position(node: string, uuid: string, seqno: int)

  datatype History = History(uuid: string, candidates: seq<Report>, highest: int)

  datatype Refusal = IncompleteStates | EqualHistories | SmallHistory | NoRecoverableSeqno

  datatype Reason = TiedSeqno | StrongestHistory | OnlyHistory

  datatype Selection =
    | NoStates
    | Ineligible(refusal: Refusal)
    | Eligible(candidate: Report, candidates: seq<Report>, divergent: seq<Report>, reason: Reason)

  predicate Usable(state: Report) {
    Names.IsFqdn(state.node) && state.uuid != "" && state.seqno.Some?
  }

  predicate AllUsable(states: seq<Report>) {
    states != [] && forall state <- states :: Usable(state)
  }

  function Seqno(state: Report): int {
    state.seqno.GetOr(0)
  }

  function Highest(states: seq<Report>): int {
    if states == [] then 0
    else if |states| == 1 then Seqno(states[0])
    else
      var rest := Highest(states[1..]);
      if Seqno(states[0]) >= rest then Seqno(states[0]) else rest
  }

  function WithUuid(states: seq<Report>, uuid: string): seq<Report> {
    Sorting.Filter(states, (s: Report) => s.uuid == uuid)
  }

  function WithoutUuid(states: seq<Report>, uuid: string): seq<Report> {
    Sorting.Filter(states, (s: Report) => s.uuid != uuid)
  }

  function AtSeqno(states: seq<Report>, seqno: int): seq<Report> {
    Sorting.Filter(states, (s: Report) => Seqno(s) == seqno)
  }

  function HistoryOf(states: seq<Report>, uuid: string): History {
    var candidates := WithUuid(states, uuid);
    History(uuid, candidates, Highest(candidates))
  }

  function Uuids(states: seq<Report>): seq<string> {
    Sorting.Distinct(Sorting.Map(states, (s: Report) => s.uuid))
  }

  function Histories(states: seq<Report>): seq<History> {
    Sorting.Map(Uuids(states), uuid => HistoryOf(states, uuid))
  }

  predicate Outranks(left: History, right: History) {
    || left.highest > right.highest
    || (left.highest == right.highest &&
        (|left.candidates| > |right.candidates| ||
         (|left.candidates| == |right.candidates| && Names.Leq(left.uuid, right.uuid))))
  }

  function Ranked(states: seq<Report>): seq<History> {
    Sorting.Sort(Histories(states), Outranks)
  }

  function TiedWith(ranked: seq<History>, top: History): seq<History> {
    Sorting.Filter(ranked, (h: History) => h.highest == top.highest && |h.candidates| == |top.candidates|)
  }

  predicate ByNode(left: Report, right: Report) {
    Names.Leq(left.node, right.node)
  }

  /** The only winner, or the least-named of several. */
  function PickWinner(winners: seq<Report>): Report
    requires winners != []
  {
    Sorting.SortElements(winners, ByNode);
    if |winners| != 1 then Sorting.Sort(winners, ByNode)[0] else winners[0]
  }

  /** The choice among histories once every state is usable. */
  function ChooseHistory(states: seq<Report>, minimumHistorySize: int): Selection
    requires states != []
  {
    var ranked := Ranked(states);
    RankedFacts(states);
    var strongest := ranked[0];
    if |TiedWith(ranked, strongest)| > 1 then Ineligible(EqualHistories)
    else if |strongest.candidates| < minimumHistorySize then Ineligible(SmallHistory)
    else if strongest.highest < 0 then Ineligible(NoRecoverableSeqno)
    else
      var winners := AtSeqno(strongest.candidates, strongest.highest);
      var reason := if |winners| != 1 then TiedSeqno else if |ranked| > 1 then StrongestHistory else OnlyHistory;
      WinnersNonEmpty(strongest.candidates);
      Eligible(PickWinner(winners), strongest.candidates, WithoutUuid(states, strongest.uuid), reason)
  }

  function SelectCandidate(states: seq<Report>, minimumHistorySize: int): Selection {
    if states == [] then NoStates
    else if !AllUsable(states) then Ineligible(IncompleteStates)
    else ChooseHistory(states, minimumHistorySize)
  }

  // ----- what the choice should be, said without sorting or grouping -----

  function PositionOf(state: Report): Position {
    Position(state.node, state.uuid, Seqno(state))
  }

  function Positions(states: seq<Report>): seq<Position> {
    Sorting.Map(states, PositionOf)
  }

  /** How many nodes hold history `uuid`. */
  function Support(positions: seq<Position>, uuid: string): nat {
    |Sorting.Filter(positions, (p: Position) => p.uuid == uuid)|
  }

  ghost predicate Reaches(positions: seq<Position>, uuid: string, highest: int) {
    && (exists p :: p in positions && p.uuid == uuid && p.seqno == highest)
    && (forall p :: p in positions && p.uuid == uuid ==> p.seqno <= highest)
  }

  /** History `uuid` reaches `highest`, and every other history is strictly weaker:
      lower, or equally high with fewer nodes. */
  ghost predicate Strongest(positions: seq<Position>, uuid: string, highest: int) {
    && Reaches(positions, uuid, highest)
    && forall p :: p in positions && p.uuid != uuid ==>
        p.seqno < highest || (p.seqno == highest && Support(positions, p.uuid) < Support(positions, uuid))
  }

  /** The least-named holder of the highest seqno of history `uuid`. */
  ghost predicate LeastNamedAt(positions: seq<Position>, uuid: string, highest: int, winner: Position) {
    && winner in positions && winner.uuid == uuid && winner.seqno == highest
    && forall p :: p in positions && p.uuid == uuid && p.seqno == highest ==> Names.Leq(winner.node, p.node)
  }

  // ----- histories -----

  lemma OutranksIsOrder()
    ensures Sorting.TotalPreorder(Outranks)
  {
    Names.LeqIsOrder();
  }

  lemma ByNodeIsOrder()
    ensures Sorting.TotalPreorder(ByNode)
  {
    Names.LeqIsOrder();
  }

  lemma UuidsCover(states: seq<Report>, uuid: string)
    ensures uuid in Uuids(states) <==> exists s <- states :: s.uuid == uuid
  {
    var all := Sorting.Map(states, (s: Report) => s.uuid);
    Sorting.DistinctElements(all);
    if uuid in all {
      var k :| 0 <= k < |all| && all[k] == uuid;
      assert states[k].uuid == uuid;
    }
    if s :| s in states && s.uuid == uuid {
      var k :| 0 <= k < |states| && states[k] == s;
      assert all[k] == uuid;
    }
  }

  lemma {:induction false} SupportCounts(states: seq<Report>, uuid: string)
    ensures |WithUuid(states, uuid)| == Support(Positions(states), uuid)
  {
    if states != [] {
      SupportCounts(states[1..], uuid);
      assert Positions(states) == [PositionOf(states[0])] + Positions(states[1..]);
      assert Positions(states)[1..] == Positions(states[1..]);
    }
  }

  lemma {:induction false} HighestBounds(states: seq<Report>)
    requires states != []
    ensures forall s <- states :: Seqno(s) <= Highest(states)
    ensures exists s <- states :: Seqno(s) == Highest(states)
  {
    if |states| == 1 {
      assert states[0] in states;
    } else {
      HighestBounds(states[1..]);
      assert states == [states[0]] + states[1..];
      if Seqno(states[0]) >= Highest(states[1..]) {
        assert states[0] in states;
      } else {
        var s :| s in states[1..] && Seqno(s) == Highest(states[1..]);
        assert s in states;
      }
    }
  }

  lemma PositionsMember(states: seq<Report>, p: Position)
    ensures p in Positions(states) <==> exists s <- states :: PositionOf(s) == p
  {
    var ps := Positions(states);
    if p in ps {
      var k :| 0 <= k < |ps| && ps[k] == p;
      assert states[k] in states;
    }
    if s :| s in states && PositionOf(s) == p {
      var k :| 0 <= k < |states| && states[k] == s;
      assert ps[k] == p;
    }
  }

  lemma HistoryFacts(states: seq<Report>, uuid: string)
    requires exists s <- states :: s.uuid == uuid
    ensures var h := HistoryOf(states, uuid);
      && h.candidates != []
      && |h.candidates| == Support(Positions(states), uuid)
      && Reaches(Positions(states), uuid, h.highest)
  {
    var h := HistoryOf(states, uuid);
    var ps := Positions(states);
    var keep := (s: Report) => s.uuid == uuid;
    Sorting.FilterMembers(states, keep);
    var s0 :| s0 in states && s0.uuid == uuid;
    assert s0 in h.candidates;
    SupportCounts(states, uuid);
    HighestBounds(h.candidates);
    var top :| top in h.candidates && Seqno(top) == h.highest;
    PositionsMember(states, PositionOf(top));
    assert PositionOf(top) in ps && PositionOf(top).seqno == h.highest;
    forall p | p in ps && p.uuid == uuid ensures p.seqno <= h.highest {
      PositionsMember(states, p);
      var s :| s in states && PositionOf(s) == p;
      assert s in h.candidates;
    }
  }

  /** There is one history for each uuid of the evidence. */
  lemma HistoriesCover(states: seq<Report>)
    ensures forall s :: s in states ==> HistoryOf(states, s.uuid) in Histories(states)
    ensures forall h :: h in Histories(states) ==> h == HistoryOf(states, h.uuid) && h.candidates != []
  {
    var uuids, all := Uuids(states), Histories(states);
    forall s | s in states ensures HistoryOf(states, s.uuid) in all {
      UuidsCover(states, s.uuid);
      var k :| 0 <= k < |uuids| && uuids[k] == s.uuid;
      assert all[k] == HistoryOf(states, s.uuid);
    }
    forall h | h in all ensures h == HistoryOf(states, h.uuid) && h.candidates != [] {
      var k :| 0 <= k < |all| && all[k] == h;
      assert uuids[k] in uuids;
      UuidsCover(states, uuids[k]);
      HistoryFacts(states, uuids[k]);
    }
  }

  lemma HistoriesDistinct(states: seq<Report>)
    ensures Sorting.NoDuplicates(Histories(states))
  {
    var uuids, all := Uuids(states), Histories(states);
    Sorting.DistinctElements(Sorting.Map(states, (s: Report) => s.uuid));
    forall i, j | 0 <= i < j < |all| ensures all[i] != all[j] {
      assert all[i].uuid == uuids[i] && all[j].uuid == uuids[j];
    }
  }

  lemma SortedHead(all: seq<History>)
    requires all != []
    ensures |Sorting.Sort(all, Outranks)| > 0
    ensures forall h :: h in Sorting.Sort(all, Outranks) ==> Outranks(Sorting.Sort(all, Outranks)[0], h)
  {
    var ranked := Sorting.Sort(all, Outranks);
    Sorting.SortElements(all, Outranks);
    OutranksIsOrder();
    Sorting.SortSorted(all, Outranks);
    forall h | h in ranked ensures Outranks(ranked[0], h) {
      var k :| 0 <= k < |ranked| && ranked[k] == h;
      assert Outranks(h, h);
    }
  }

  /** The ranking lists each history of the evidence once, the strongest first. */
  lemma RankedFacts(states: seq<Report>)
    requires states != []
    ensures |Ranked(states)| > 0
    ensures forall h :: h in Ranked(states) ==> h == HistoryOf(states, h.uuid) && h.candidates != []
    ensures forall h :: h in Ranked(states) ==> Outranks(Ranked(states)[0], h)
    ensures forall s :: s in states ==> HistoryOf(states, s.uuid) in Ranked(states)
    ensures Sorting.NoDuplicates(Ranked(states))
  {
    var all := Histories(states);
    HistoriesCover(states);
    HistoriesDistinct(states);
    assert states[0] in states;
    SortedHead(all);
    Sorting.SortElements(all, Outranks);
    Sorting.NoDuplicatesForgetsOrder(all, Ranked(states));
  }

  lemma WinnersNonEmpty(candidates: seq<Report>)
    requires candidates != []
    ensures |AtSeqno(candidates, Highest(candidates))| > 0
  {
    HighestBounds(candidates);
    Sorting.FilterMembers(candidates, (s: Report) => Seqno(s) == Highest(candidates));
  }

  // ----- the selection is exactly what the positions say -----

  lemma StrongestUnique(positions: seq<Position>, u: string, h: int, v: string, k: int)
    requires Strongest(positions, u, h) && Strongest(positions, v, k)
    ensures u == v && h == k
  {
    var p :| p in positions && p.uuid == u && p.seqno == h;
    var q :| q in positions && q.uuid == v && q.seqno == k;
  }

  /** Two different leading histories of one size and highest seqno leave no room for a strongest one. */
  lemma LeadersBlock(states: seq<Report>, a: History, b: History, u: string, h: int)
    requires states != [] && a in Ranked(states) && b in Ranked(states) && a != b
    requires a.highest == b.highest == Ranked(states)[0].highest
    requires |a.candidates| == |b.candidates| == |Ranked(states)[0].candidates|
    ensures !Strongest(Positions(states), u, h)
  {
    var ps := Positions(states);
    RankedFacts(states);
    RankedHistory(states, a);
    RankedHistory(states, b);
    if Strongest(ps, u, h) {
      var p :| p in ps && p.uuid == u && p.seqno == h;
      PositionsMember(states, p);
      var s :| s in states && PositionOf(s) == p;
      RankedHistory(states, HistoryOf(states, s.uuid));
      assert false;
    }
  }

  lemma TieMeansNoStrongest(states: seq<Report>)
    requires states != [] && |TiedWith(Ranked(states), Ranked(states)[0])| > 1
    ensures forall u, h :: !Strongest(Positions(states), u, h)
  {
    var ranked := Ranked(states);
    var top := ranked[0];
    var same := (h: History) => h.highest == top.highest && |h.candidates| == |top.candidates|;
    var tied := TiedWith(ranked, top);
    RankedFacts(states);
    Sorting.FilterMembers(ranked, same);
    Sorting.FilterNoDuplicates(ranked, same);
    assert tied[0] in tied && tied[1] in tied;
    forall u, h ensures !Strongest(Positions(states), u, h) {
      LeadersBlock(states, tied[0], tied[1], u, h);
    }
  }

  lemma RankedHistory(states: seq<Report>, h: History)
    requires states != [] && h in Ranked(states)
    ensures h == HistoryOf(states, h.uuid)
    ensures |h.candidates| == Support(Positions(states), h.uuid)
    ensures Reaches(Positions(states), h.uuid, h.highest)
  {
    RankedFacts(states);
    Sorting.FilterMembers(states, (s: Report) => s.uuid == h.uuid);
    assert h.candidates[0] in h.candidates;
    HistoryFacts(states, h.uuid);
  }

  lemma NoTieMeansStrongest(states: seq<Report>)
    requires states != [] && |TiedWith(Ranked(states), Ranked(states)[0])| <= 1
    ensures Strongest(Positions(states), Ranked(states)[0].uuid, Ranked(states)[0].highest)
  {
    var ps, ranked := Positions(states), Ranked(states);
    RankedFacts(states);
    var top := ranked[0];
    RankedHistory(states, top);
    forall p | p in ps && p.uuid != top.uuid
      ensures p.seqno < top.highest || (p.seqno == top.highest && Support(ps, p.uuid) < Support(ps, top.uuid))
    {
      PositionsMember(states, p);
      var s :| s in states && PositionOf(s) == p;
      LeaderIsStronger(states, s);
    }
  }

  /** Without a tie the leader is stronger than the history of any state outside it. */
  lemma LeaderIsStronger(states: seq<Report>, s: Report)
    requires states != [] && s in states && |TiedWith(Ranked(states), Ranked(states)[0])| <= 1
    requires s.uuid != Ranked(states)[0].uuid
    ensures var ps, top := Positions(states), Ranked(states)[0];
      Seqno(s) < top.highest || (Seqno(s) == top.highest && Support(ps, s.uuid) < Support(ps, top.uuid))
  {
    var ps, ranked := Positions(states), Ranked(states);
    var top, other := ranked[0], HistoryOf(states, s.uuid);
    RankedFacts(states);
    RankedHistory(states, top);
    RankedHistory(states, other);
    PositionsMember(states, PositionOf(s));
    assert Outranks(top, other);
    Sorting.FilterMembers(ranked, (h: History) => h.highest == top.highest && |h.candidates| == |top.candidates|);
    assert top in TiedWith(ranked, top);
    assert other in TiedWith(ranked, top) ==> other == top;
  }

  lemma PickWinnerLeast(winners: seq<Report>)
    requires winners != []
    ensures PickWinner(winners) in winners
    ensures forall s :: s in winners ==> Names.Leq(PickWinner(winners).node, s.node)
  {
    var sorted := Sorting.Sort(winners, ByNode);
    Sorting.SortElements(winners, ByNode);
    ByNodeIsOrder();
    Sorting.SortSorted(winners, ByNode);
    Names.LeqIsOrder();
    forall s | s in sorted ensures ByNode(sorted[0], s) {
      var k :| 0 <= k < |sorted| && sorted[k] == s;
    }
  }

  lemma LeastOfHistory(states: seq<Report>, uuid: string, winner: Report)
    requires exists s <- states :: s.uuid == uuid
    requires var h := HistoryOf(states, uuid); var winners := AtSeqno(h.candidates, h.highest);
      winners != [] && winner == PickWinner(winners)
    ensures winner in states
    ensures LeastNamedAt(Positions(states), uuid, HistoryOf(states, uuid).highest, PositionOf(winner))
  {
    var h := HistoryOf(states, uuid);
    var winners := AtSeqno(h.candidates, h.highest);
    PickWinnerLeast(winners);
    Sorting.FilterMembers(states, (s: Report) => s.uuid == uuid);
    Sorting.FilterMembers(h.candidates, (s: Report) => Seqno(s) == h.highest);
    PositionsMember(states, PositionOf(winner));
    forall p | p in Positions(states) && p.uuid == uuid && p.seqno == h.highest
      ensures Names.Leq(winner.node, p.node)
    {
      PositionsMember(states, p);
      var s :| s in states && PositionOf(s) == p;
      assert s in h.candidates && s in winners;
    }
  }

  /** The verdict in terms of positions alone; `u` and `h` name the strongest history when there is one. */
  ghost predicate Decides(states: seq<Report>, minimumHistorySize: int, u: string, h: int, r: Selection) {
    var ps := Positions(states);
    if forall v, k :: !Strongest(ps, v, k) then r == Ineligible(EqualHistories)
    else
      && Strongest(ps, u, h)
      && if Support(ps, u) < minimumHistorySize then r == Ineligible(SmallHistory)
         else if h < 0 then r == Ineligible(NoRecoverableSeqno)
         else
           && r.Eligible?
           && r.candidate in states && LeastNamedAt(ps, u, h, PositionOf(r.candidate))
           && r.candidates == WithUuid(states, u) && r.divergent == WithoutUuid(states, u)
  }

  /** Selection decides exactly as the positions say: eligible just when one history is strictly
      strongest, has enough nodes and a seqno to recover. */
  lemma SelectionExact(states: seq<Report>, minimumHistorySize: int) returns (u: string, h: int)
    requires AllUsable(states)
    ensures Decides(states, minimumHistorySize, u, h, SelectCandidate(states, minimumHistorySize))
  {
    RankedFacts(states);
    var top := Ranked(states)[0];
    RankedHistory(states, top);
    u, h := top.uuid, top.highest;
    if |TiedWith(Ranked(states), top)| > 1 {
      TieMeansNoStrongest(states);
    } else {
      NoTieMeansStrongest(states);
      var r := ChooseHistory(states, minimumHistorySize);
      if r.Eligible? {
        Sorting.FilterMembers(states, (s: Report) => s.uuid == top.uuid);
        assert top.candidates[0] in top.candidates;
        WinnersNonEmpty(top.candidates);
        LeastOfHistory(states, top.uuid, r.candidate);
      }
    }
  }

  /** The winner has the greatest seqno of all the evidence, not only of its own history. */
  lemma WinnerHasGreatestSeqno(states: seq<Report>, minimumHistorySize: int, other: Report)
    requires SelectCandidate(states, minimumHistorySize).Eligible? && other in states
    ensures Seqno(other) <= Seqno(SelectCandidate(states, minimumHistorySize).candidate)
  {
    var _, _ := SelectionExact(states, minimumHistorySize);
    PositionsMember(states, PositionOf(other));
  }

  /** Evidence that is not usable is refused before anything is ranked. */
  lemma UnusableRefused(states: seq<Report>, minimumHistorySize: int)
    ensures SelectCandidate(states, minimumHistorySize) == NoStates <==> states == []
    ensures SelectCandidate(states, minimumHistorySize) == Ineligible(IncompleteStates) <==>
      states != [] && exists state <- states :: !Names.IsFqdn(state.node) || state.uuid == "" || state.seqno == None
  {
    if AllUsable(states) {
      var _, _ := SelectionExact(states, minimumHistorySize);
    }
  }

  // ----- the outcome depends on the positions only, not on their order or on other fields -----

  lemma StrongestForgetsOrder(a: seq<Position>, b: seq<Position>, u: string, h: int)
    requires multiset(a) == multiset(b)
    ensures Strongest(a, u, h) <==> Strongest(b, u, h)
    ensures Support(a, u) == Support(b, u)
  {
    Sorting.SameElements(a, b);
    forall v ensures Support(a, v) == Support(b, v) {
      var keep := (p: Position) => p.uuid == v;
      Sorting.FilterForgetsOrder(a, b, keep);
      Sorting.SameElements(Sorting.Filter(a, keep), Sorting.Filter(b, keep));
    }
  }

  /** Two supervisors that hold the same (node, uuid, seqno) triples, in any order, reach the same
      verdict and the same winner position. */
  lemma SamePositionsSameWinner(s: seq<Report>, t: seq<Report>, minimumHistorySize: int)
    requires AllUsable(s) && AllUsable(t) && multiset(Positions(s)) == multiset(Positions(t))
    ensures var r, q := SelectCandidate(s, minimumHistorySize), SelectCandidate(t, minimumHistorySize);
      && (r.Ineligible? ==> r == q)
      && (r.Eligible? ==> q.Eligible? && PositionOf(r.candidate) == PositionOf(q.candidate))
  {
    var r, q := SelectCandidate(s, minimumHistorySize), SelectCandidate(t, minimumHistorySize);
    var u, h := SelectionExact(s, minimumHistorySize);
    var v, k := SelectionExact(t, minimumHistorySize);
    forall w, x ensures Strongest(Positions(s), w, x) <==> Strongest(Positions(t), w, x) {
      StrongestForgetsOrder(Positions(s), Positions(t), w, x);
    }
    StrongestForgetsOrder(Positions(s), Positions(t), u, h);
    UnusableRefused(s, minimumHistorySize);
    UnusableRefused(t, minimumHistorySize);
    if r != Ineligible(EqualHistories) {
      StrongestUnique(Positions(s), u, h, v, k);
      if r.Eligible? {
        Sorting.SameElements(Positions(s), Positions(t));
        Names.LeqAntisymmetric(PositionOf(r.candidate).node, PositionOf(q.candidate).node);
      }
    }
  }

  /** Rearranging evidence about distinct nodes changes nothing but the order of the lists it returns. */
  lemma SelectionForgetsOrder(s: seq<Report>, t: seq<Report>, minimumHistorySize: int)
    requires AllUsable(s) && DistinctNodes(s) && multiset(s) == multiset(t)
    ensures var r, q := SelectCandidate(s, minimumHistorySize), SelectCandidate(t, minimumHistorySize);
      && (r.Ineligible? ==> r == q)
      && (r.Eligible? ==>
           && q.Eligible? && q.candidate == r.candidate
           && multiset(q.candidates) == multiset(r.candidates)
           && multiset(q.divergent) == multiset(r.divergent))
  {
    var r, q := SelectCandidate(s, minimumHistorySize), SelectCandidate(t, minimumHistorySize);
    Sorting.SameElements(s, t);
    Sorting.MapForgetsOrder(s, t, PositionOf);
    SamePositionsSameWinner(s, t, minimumHistorySize);
    if r.Eligible? {
      var u, h := SelectionExact(s, minimumHistorySize);
      var v, k := SelectionExact(t, minimumHistorySize);
      FindNodeOfDistinct(s, r.candidate);
      FindNodeOfDistinct(s, q.candidate);
      assert u == v;
      Sorting.FilterForgetsOrder(s, t, (x: Report) => x.uuid == u);
      Sorting.FilterForgetsOrder(s, t, (x: Report) => x.uuid != u);
    }
  }
}
