/** Majority evaluation over gossiped observations: src/cluster/quorum.mjs. */
module Quorum {
  import opened Options
  import opened Observation
  import Majority
  import Sorting

  datatype Reason =
    | QuorumEstablished | InvalidObservations | InsufficientFreshObservations
    | ConflictingClusters | ConflictingPrimaries

  datatype View = View(quorum: bool, clusterId: Option<string>, primary: Option<string>,
                       observations: seq<Observation>, required: nat, reason: Reason)

  /** The observations that `createObservation` accepts, completed. */
  function Validated(items: seq<Observation>, clock: int): seq<Observation> {
    if items == [] then []
    else
      var head := CreateObservation(items[0], clock);
      (if head.Some? then [head.value] else []) + Validated(items[1..], clock)
  }

  /** A JavaScript map built from (node, item) pairs: a node keeps its first place and its last item. */
  function LastPerNode(items: seq<Observation>): seq<Observation> {
    if items == [] then [] else Place(LastPerNode(items[..|items| - 1]), items[|items| - 1])
  }

  function Place(front: seq<Observation>, o: Observation): seq<Observation> {
    var k := IndexOf(front, o.nodeId);
    if k == |front| then front + [o] else front[k := o]
  }

  function Clusters(items: seq<Observation>): set<string> {
    set o <- items :: o.clusterId
  }

  function Primaries(items: seq<Observation>): set<string> {
    set o <- items :: o.primary
  }

  /** `None` stands for an expected size that is not an integer. */
  function RequiredFor(expectedSize: Option<int>): nat {
    if expectedSize.Some? && expectedSize.value > 0 then Majority.Required(expectedSize.value) else 1
  }

  function FreshOnes(items: seq<Observation>, now: int, maxAge: int, clock: int): seq<Observation> {
    Sorting.Filter(Validated(items, clock), (o: Observation) => IsFresh(o, now, maxAge))
  }

  /** `clock` is the reading given to observations without a time. */
  function EvaluateQuorum(items: seq<Observation>, now: int, maxAge: int, expectedSize: Option<int>, clock: int): View {
    var unique := LastPerNode(FreshOnes(items, now, maxAge, clock));
    var clusters, primaries := Clusters(unique), Primaries(unique);
    var required := RequiredFor(expectedSize);
    var quorum := |unique| >= required && |clusters| == 1 && |primaries| == 1;
    View(quorum,
         if |clusters| == 1 && unique != [] then Some(unique[0].clusterId) else None,
         if |primaries| == 1 && unique != [] then Some(unique[0].primary) else None,
         unique, required,
         if quorum then QuorumEstablished
         else if |Validated(items, clock)| != |items| then InvalidObservations
         else if |unique| < required then InsufficientFreshObservations
         else if |clusters| != 1 then ConflictingClusters
         else ConflictingPrimaries)
  }

  // ----- what a view rests on -----

  /** An observation that may take part in a view: well-formed and fresh. */
  predicate Counts(o: Observation, now: int, maxAge: int, clock: int) {
    WellFormed(o) && IsFresh(Completed(o, clock), now, maxAge)
  }

  function Counting(now: int, maxAge: int, clock: int): Observation -> bool {
    (o: Observation) => Counts(o, now, maxAge, clock)
  }

  /** The nodes heard of in time. */
  ghost function Heard(items: seq<Observation>, now: int, maxAge: int, clock: int): set<string> {
    set o <- items | Counts(o, now, maxAge, clock) :: o.nodeId
  }

  /** Position `i` holds the last counting observation of its node. */
  ghost predicate Speaks(items: seq<Observation>, i: int, now: int, maxAge: int, clock: int) {
    && 0 <= i < |items| && Counts(items[i], now, maxAge, clock)
    && forall j :: i < j < |items| && Counts(items[j], now, maxAge, clock) ==> items[j].nodeId != items[i].nodeId
  }

  lemma {:induction false} ValidatedConcat(a: seq<Observation>, b: seq<Observation>, clock: int)
    ensures Validated(a + b, clock) == Validated(a, clock) + Validated(b, clock)
  {
    if a == [] {
      assert a + b == b;
    } else {
      assert (a + b)[1..] == a[1..] + b && (a + b)[0] == a[0];
      ValidatedConcat(a[1..], b, clock);
      var head := if CreateObservation(a[0], clock).Some? then [CreateObservation(a[0], clock).value] else [];
      assert head + Validated(a[1..], clock) + Validated(b, clock)
        == head + (Validated(a[1..], clock) + Validated(b, clock));
    }
  }

  lemma {:induction false} ValidatedLength(items: seq<Observation>, clock: int)
    ensures |Validated(items, clock)| <= |items|
    ensures |Validated(items, clock)| == |items| <==> forall o <- items :: WellFormed(o)
  {
    if items != [] {
      ValidatedLength(items[1..], clock);
      assert items == [items[0]] + items[1..];
    }
  }

  /** One more observation adds itself to the fresh ones exactly when it counts. */
  lemma FreshStep(items: seq<Observation>, o: Observation, now: int, maxAge: int, clock: int)
    ensures FreshOnes(items + [o], now, maxAge, clock)
         == FreshOnes(items, now, maxAge, clock) + if Counts(o, now, maxAge, clock) then [Completed(o, clock)] else []
  {
    var keep := (o: Observation) => IsFresh(o, now, maxAge);
    ValidatedConcat(items, [o], clock);
    Sorting.FilterConcat(Validated(items, clock), Validated([o], clock), keep);
    assert Validated([o], clock) == if WellFormed(o) then [Completed(o, clock)] else [];
  }

  lemma LastStep(items: seq<Observation>, o: Observation)
    ensures LastPerNode(items + [o]) == Place(LastPerNode(items), o)
  {
    assert (items + [o])[..|items|] == items;
  }

  function Unique(items: seq<Observation>, now: int, maxAge: int, clock: int): seq<Observation> {
    LastPerNode(FreshOnes(items, now, maxAge, clock))
  }

  /** `o` is the completed last word of some node. */
  ghost predicate Spoken(items: seq<Observation>, o: Observation, now: int, maxAge: int, clock: int) {
    exists i :: Speaks(items, i, now, maxAge, clock) && o == Completed(items[i], clock)
  }

  lemma SpokenStep(items: seq<Observation>, last: Observation, o: Observation, now: int, maxAge: int, clock: int)
    ensures Spoken(items + [last], o, now, maxAge, clock) <==>
      if Counts(last, now, maxAge, clock)
        then o == Completed(last, clock) || (Spoken(items, o, now, maxAge, clock) && o.nodeId != last.nodeId)
      else Spoken(items, o, now, maxAge, clock)
  {
    SpeaksStep(items, last, now, maxAge, clock);
    var longer := items + [last];
    if i :| Speaks(items, i, now, maxAge, clock) && o == Completed(items[i], clock) {
      assert longer[i] == items[i];
    }
    if Counts(last, now, maxAge, clock) {
      assert Speaks(longer, |items|, now, maxAge, clock) && longer[|items|] == last;
    }
    if i :| Speaks(longer, i, now, maxAge, clock) && o == Completed(longer[i], clock) {
      if i < |items| { assert Speaks(items, i, now, maxAge, clock); }
    }
  }

  /** The observations of a view are the last counting one of each node heard of, and nothing else. */
  lemma {:induction false} UniqueExact(items: seq<Observation>, now: int, maxAge: int, clock: int)
    ensures DistinctIds(Unique(items, now, maxAge, clock))
    ensures IdsOf(Unique(items, now, maxAge, clock)) == Heard(items, now, maxAge, clock)
    ensures forall o :: o in Unique(items, now, maxAge, clock) <==> Spoken(items, o, now, maxAge, clock)
  {
    if items != [] {
      var n := |items| - 1;
      var front, last := items[..n], items[n];
      assert items == front + [last];
      UniqueExact(front, now, maxAge, clock);
      FreshStep(front, last, now, maxAge, clock);
      HeardStep(front, last, now, maxAge, clock);
      var before, o := Unique(front, now, maxAge, clock), Completed(last, clock);
      if Counts(last, now, maxAge, clock) {
        LastStep(FreshOnes(front, now, maxAge, clock), o);
        ReplaceLast(before, o);
        assert Unique(items, now, maxAge, clock) == Place(before, o);
      } else {
        assert FreshOnes(items, now, maxAge, clock) == FreshOnes(front, now, maxAge, clock);
      }
      forall p ensures p in Unique(items, now, maxAge, clock) <==> Spoken(items, p, now, maxAge, clock) {
        SpokenStep(front, last, p, now, maxAge, clock);
      }
    }
  }

  lemma HeardStep(items: seq<Observation>, last: Observation, now: int, maxAge: int, clock: int)
    ensures Heard(items + [last], now, maxAge, clock)
         == Heard(items, now, maxAge, clock) + if Counts(last, now, maxAge, clock) then {last.nodeId} else {}
  {
  }

  lemma SpeaksStep(items: seq<Observation>, last: Observation, now: int, maxAge: int, clock: int)
    ensures Speaks(items + [last], |items|, now, maxAge, clock) <==> Counts(last, now, maxAge, clock)
    ensures forall i :: 0 <= i < |items| ==>
      (Speaks(items + [last], i, now, maxAge, clock) <==>
        Speaks(items, i, now, maxAge, clock) && !(Counts(last, now, maxAge, clock) && last.nodeId == items[i].nodeId))
  {
    var longer := items + [last];
    forall i | 0 <= i < |items|
      ensures Speaks(longer, i, now, maxAge, clock) <==>
        Speaks(items, i, now, maxAge, clock) && !(Counts(last, now, maxAge, clock) && last.nodeId == items[i].nodeId)
    {
      assert longer[i] == items[i] && longer[|items|] == last;
      if Speaks(longer, i, now, maxAge, clock) {
        forall j | i < j < |items| && Counts(items[j], now, maxAge, clock) ensures items[j].nodeId != items[i].nodeId {
          assert longer[j] == items[j];
        }
      }
    }
  }

  /** Putting an observation in the place of its node keeps one observation per node. */
  lemma ReplaceLast(front: seq<Observation>, o: Observation)
    requires DistinctIds(front)
    ensures var after := Place(front, o);
      && DistinctIds(after) && IdsOf(after) == IdsOf(front) + {o.nodeId}
      && forall p :: p in after <==> p == o || (p in front && p.nodeId != o.nodeId)
  {
    var k := IndexOf(front, o.nodeId);
    var after := Place(front, o);
    assert after[k] == o;
    forall p ensures p in after <==> p == o || (p in front && p.nodeId != o.nodeId) {
      if p in after && p != o {
        var i :| 0 <= i < |after| && after[i] == p;
        assert front[i] == p;
      }
      if p in front && p.nodeId != o.nodeId {
        var i :| 0 <= i < |front| && front[i] == p;
        assert after[i] == p;
      }
    }
    forall id | id in IdsOf(front) ensures id in IdsOf(after) {
      var p :| p in front && p.nodeId == id;
      assert id == o.nodeId || p in after;
    }
  }

  lemma {:induction false} DistinctIdsCardinality(items: seq<Observation>)
    requires DistinctIds(items)
    ensures |IdsOf(items)| == |items|
  {
    if items != [] {
      DistinctIdsCardinality(items[1..]);
      assert items == [items[0]] + items[1..];
      assert IdsOf(items) == {items[0].nodeId} + IdsOf(items[1..]);
    }
  }

  lemma SingleValue(s: set<string>)
    ensures |s| == 1 <==> exists x :: s == {x}
  {
    if |s| == 1 {
      var x :| x in s;
      assert s == {x} + (s - {x});
      assert s - {x} == {};
      assert s == {x};
    }
  }

  /** The last counting observation of every node heard of reports this cluster and this primary state. */
  ghost predicate Agreed(items: seq<Observation>, now: int, maxAge: int, clock: int, clusterId: string,
                         primary: string) {
    forall i :: Speaks(items, i, now, maxAge, clock) ==> items[i].clusterId == clusterId && items[i].primary == primary
  }

  lemma AgreedByUnique(items: seq<Observation>, now: int, maxAge: int, clock: int, clusterId: string, primary: string)
    requires Unique(items, now, maxAge, clock) != []
    ensures var unique := Unique(items, now, maxAge, clock);
      Agreed(items, now, maxAge, clock, clusterId, primary) <==>
      (Clusters(unique) == {clusterId} && Primaries(unique) == {primary})
  {
    var unique := Unique(items, now, maxAge, clock);
    UniqueExact(items, now, maxAge, clock);
    assert unique[0] in unique;
    if Agreed(items, now, maxAge, clock, clusterId, primary) {
      forall o | o in unique ensures o.clusterId == clusterId && o.primary == primary {
        var i :| Speaks(items, i, now, maxAge, clock) && o == Completed(items[i], clock);
      }
      assert unique[0].clusterId in Clusters(unique) && unique[0].primary in Primaries(unique);
    }
    if Clusters(unique) == {clusterId} && Primaries(unique) == {primary} {
      forall i | Speaks(items, i, now, maxAge, clock) ensures items[i].clusterId == clusterId && items[i].primary == primary {
        var o := Completed(items[i], clock);
        assert o in unique;
        assert o.clusterId in Clusters(unique) && o.primary in Primaries(unique);
      }
    }
  }

  /** Quorum is exactly: enough distinct nodes heard of in time, all of whose last words name one cluster
      and one primary state, which are then the reported ones. */
  lemma QuorumExact(items: seq<Observation>, now: int, maxAge: int, expectedSize: Option<int>, clock: int)
    ensures var view := EvaluateQuorum(items, now, maxAge, expectedSize, clock);
      && (view.quorum <==>
            && |Heard(items, now, maxAge, clock)| >=
                 (if expectedSize.Some? && expectedSize.value >= 1 then expectedSize.value / 2 + 1 else 1)
            && exists c, p :: Agreed(items, now, maxAge, clock, c, p))
      && (view.quorum ==>
            && view.clusterId.Some? && view.primary.Some?
            && Agreed(items, now, maxAge, clock, view.clusterId.value, view.primary.value))
      && |view.observations| == |Heard(items, now, maxAge, clock)|
      && view.required == (if expectedSize.Some? && expectedSize.value >= 1 then expectedSize.value / 2 + 1 else 1)
      && (view.reason == QuorumEstablished <==> view.quorum)
      && (view.reason == InvalidObservations <==> !view.quorum && exists o <- items :: !WellFormed(o))
  {
    UniqueExact(items, now, maxAge, clock);
    DistinctIdsCardinality(Unique(items, now, maxAge, clock));
    ValidatedLength(items, clock);
    UnanimousExact(items, now, maxAge, clock);
  }

  /** One cluster and one primary state among the last words, and the first of them shows which. */
  lemma UnanimousExact(items: seq<Observation>, now: int, maxAge: int, clock: int)
    ensures var unique := Unique(items, now, maxAge, clock);
      unique != [] ==>
        && (|Clusters(unique)| == 1 && |Primaries(unique)| == 1
            <==> exists c, p :: Agreed(items, now, maxAge, clock, c, p))
        && (|Clusters(unique)| == 1 && |Primaries(unique)| == 1 ==>
             Agreed(items, now, maxAge, clock, unique[0].clusterId, unique[0].primary))
  {
    var unique := Unique(items, now, maxAge, clock);
    SingleValue(Clusters(unique));
    SingleValue(Primaries(unique));
    if unique != [] {
      assert unique[0] in unique;
      assert unique[0].clusterId in Clusters(unique) && unique[0].primary in Primaries(unique);
      if |Clusters(unique)| == 1 && |Primaries(unique)| == 1 {
        AgreedByUnique(items, now, maxAge, clock, unique[0].clusterId, unique[0].primary);
      }
      if c, p :| Agreed(items, now, maxAge, clock, c, p) {
        AgreedByUnique(items, now, maxAge, clock, c, p);
      }
    }
  }

  // ----- agreement of views -----

  /** Two views tell the same of the nodes they share. */
  ghost predicate AgreeOnShared(v: View, w: View) {
    forall o, p :: o in v.observations && p in w.observations && o.nodeId == p.nodeId ==>
      o.clusterId == p.clusterId && o.primary == p.primary
  }

  /** A quorate view has heard of a majority, and each of its observations shows its cluster and primary state. */
  lemma QuorateView(items: seq<Observation>, now: int, maxAge: int, expectedSize: Option<int>, clock: int)
    requires EvaluateQuorum(items, now, maxAge, expectedSize, clock).quorum
    ensures var view := EvaluateQuorum(items, now, maxAge, expectedSize, clock);
      && IdsOf(view.observations) == Heard(items, now, maxAge, clock)
      && |IdsOf(view.observations)| >= RequiredFor(expectedSize)
      && forall o :: o in view.observations ==> view.clusterId == Some(o.clusterId) && view.primary == Some(o.primary)
  {
    var view := EvaluateQuorum(items, now, maxAge, expectedSize, clock);
    QuorumExact(items, now, maxAge, expectedSize, clock);
    UniqueExact(items, now, maxAge, clock);
    forall o | o in view.observations ensures view.clusterId == Some(o.clusterId) && view.primary == Some(o.primary) {
      assert Spoken(items, o, now, maxAge, clock);
    }
  }

  /** Views over majorities of the same members share a node, so what they say of it is what they say. */
  lemma MajorityViewsAgree(members: set<string>, v: View, w: View)
    requires IdsOf(v.observations) <= members && IdsOf(w.observations) <= members && AgreeOnShared(v, w)
    requires |IdsOf(v.observations)| >= Majority.Required(|members|)
    requires |IdsOf(w.observations)| >= Majority.Required(|members|)
    requires forall o :: o in v.observations ==> v.clusterId == Some(o.clusterId) && v.primary == Some(o.primary)
    requires forall o :: o in w.observations ==> w.clusterId == Some(o.clusterId) && w.primary == Some(o.primary)
    ensures v.clusterId == w.clusterId && v.primary == w.primary && v.clusterId.Some? && v.primary.Some?
  {
    Majority.MajoritiesMeet(IdsOf(v.observations), IdsOf(w.observations), members);
    var id :| id in IdsOf(v.observations) * IdsOf(w.observations);
    var o :| o in v.observations && o.nodeId == id;
    var p :| p in w.observations && p.nodeId == id;
  }

  /** Two supervisors with quorum over the same members report the same cluster and primary state. */
  lemma QuorateViewsAgree(members: set<string>, a: seq<Observation>, b: seq<Observation>, nowA: int, nowB: int,
                          maxAge: int, clockA: int, clockB: int)
    requires members != {}
    requires Heard(a, nowA, maxAge, clockA) <= members && Heard(b, nowB, maxAge, clockB) <= members
    requires var v := EvaluateQuorum(a, nowA, maxAge, Some(|members|), clockA);
      var w := EvaluateQuorum(b, nowB, maxAge, Some(|members|), clockB);
      v.quorum && w.quorum && AgreeOnShared(v, w)
    ensures var v := EvaluateQuorum(a, nowA, maxAge, Some(|members|), clockA);
      var w := EvaluateQuorum(b, nowB, maxAge, Some(|members|), clockB);
      v.clusterId == w.clusterId && v.primary == w.primary && v.clusterId.Some? && v.primary.Some?
  {
    var size := Some(|members|);
    QuorateView(a, nowA, maxAge, size, clockA);
    QuorateView(b, nowB, maxAge, size, clockB);
    MajorityViewsAgree(members, EvaluateQuorum(a, nowA, maxAge, size, clockA),
                       EvaluateQuorum(b, nowB, maxAge, size, clockB));
  }

  // ----- what does not help -----

  lemma {:induction false} FreshOfCounting(items: seq<Observation>, now: int, maxAge: int, clock: int)
    ensures FreshOnes(Sorting.Filter(items, Counting(now, maxAge, clock)), now, maxAge, clock)
      == FreshOnes(items, now, maxAge, clock)
  {
    var counting := Counting(now, maxAge, clock);
    if items != [] {
      var front, last := items[..|items| - 1], items[|items| - 1];
      var kept := Sorting.Filter(front, counting);
      assert items == front + [last];
      FreshOfCounting(front, now, maxAge, clock);
      FreshStep(front, last, now, maxAge, clock);
      Sorting.FilterConcat(front, [last], counting);
      FreshStep(kept, last, now, maxAge, clock);
      assert Sorting.Filter(items, counting) == if Counts(last, now, maxAge, clock) then kept + [last] else kept;
    }
  }

  /** Stale and malformed observations never help: without them the view is the same but for the reason of a
      refusal. */
  lemma NoiseNeverHelps(items: seq<Observation>, now: int, maxAge: int, expectedSize: Option<int>, clock: int)
    ensures var kept := Sorting.Filter(items, Counting(now, maxAge, clock));
      var view := EvaluateQuorum(items, now, maxAge, expectedSize, clock);
      EvaluateQuorum(kept, now, maxAge, expectedSize, clock).(reason := view.reason) == view
  {
    FreshOfCounting(items, now, maxAge, clock);
  }

  /** Nor do further observations of nodes already heard of: they leave the number of nodes as it was. */
  lemma RepeatsNeverHelp(items: seq<Observation>, more: seq<Observation>, now: int, maxAge: int,
                         expectedSize: Option<int>, clock: int)
    requires forall o <- more :: Counts(o, now, maxAge, clock) ==> o.nodeId in Heard(items, now, maxAge, clock)
    requires |EvaluateQuorum(items, now, maxAge, expectedSize, clock).observations| < RequiredFor(expectedSize)
    ensures !EvaluateQuorum(items + more, now, maxAge, expectedSize, clock).quorum
  {
    QuorumExact(items, now, maxAge, expectedSize, clock);
    QuorumExact(items + more, now, maxAge, expectedSize, clock);
    var before, after := Heard(items, now, maxAge, clock), Heard(items + more, now, maxAge, clock);
    forall id | id in after ensures id in before {
      var o :| o in items + more && Counts(o, now, maxAge, clock) && o.nodeId == id;
    }
    Majority.SubsetSize(after, before);
  }

  // ----- order -----

  lemma SpeaksAlone(items: seq<Observation>, i: nat, now: int, maxAge: int, clock: int)
    requires DistinctIds(items) && i < |items|
    ensures Speaks(items, i, now, maxAge, clock) <==> Counts(items[i], now, maxAge, clock)
  {
  }

  /** With one observation per node, the members of a view are the completed counting observations. */
  lemma UniqueMembers(items: seq<Observation>, now: int, maxAge: int, clock: int)
    requires DistinctIds(items)
    ensures forall o :: o in Unique(items, now, maxAge, clock) <==> exists p :: p in items && Counts(p, now, maxAge, clock) && o == Completed(p, clock)
  {
    UniqueExact(items, now, maxAge, clock);
    forall o ensures o in Unique(items, now, maxAge, clock) <==> exists p :: p in items && Counts(p, now, maxAge, clock) && o == Completed(p, clock) {
      if p :| p in items && Counts(p, now, maxAge, clock) && o == Completed(p, clock) {
        var i :| 0 <= i < |items| && items[i] == p;
        SpeaksAlone(items, i, now, maxAge, clock);
      }
      if i :| Speaks(items, i, now, maxAge, clock) && o == Completed(items[i], clock) {
        assert items[i] in items;
      }
    }
  }

  /** The verdict forgets the order in which a store hands out one observation per node. */
  lemma QuorumForgetsOrder(a: seq<Observation>, b: seq<Observation>, now: int, maxAge: int, expectedSize: Option<int>,
                           clock: int)
    requires DistinctIds(a) && DistinctIds(b) && multiset(a) == multiset(b)
    ensures var v, w :=
      EvaluateQuorum(a, now, maxAge, expectedSize, clock), EvaluateQuorum(b, now, maxAge, expectedSize, clock);
      && v.(observations := w.observations) == w
      && multiset(v.observations) == multiset(w.observations)
  {
    var v := EvaluateQuorum(a, now, maxAge, expectedSize, clock);
    var w := EvaluateQuorum(b, now, maxAge, expectedSize, clock);
    Sorting.SameElements(a, b);
    UniqueMembers(a, now, maxAge, clock);
    UniqueMembers(b, now, maxAge, clock);
    UniqueExact(a, now, maxAge, clock);
    UniqueExact(b, now, maxAge, clock);
    DistinctIdsNoDuplicates(v.observations);
    DistinctIdsNoDuplicates(w.observations);
    Sorting.NoDuplicatesSameMembers(v.observations, w.observations);
    Sorting.SameElements(v.observations, w.observations);
    ValidatedLength(a, clock);
    ValidatedLength(b, clock);
    assert Clusters(v.observations) == Clusters(w.observations);
    assert Primaries(v.observations) == Primaries(w.observations);
    SingleHead(v.observations, w.observations);
  }

  lemma SingleHead(a: seq<Observation>, b: seq<Observation>)
    requires a != [] && b != [] ==> Clusters(a) == Clusters(b) && Primaries(a) == Primaries(b)
    ensures a != [] && b != [] && |Clusters(a)| == 1 ==> a[0].clusterId == b[0].clusterId
    ensures a != [] && b != [] && |Primaries(a)| == 1 ==> a[0].primary == b[0].primary
  {
    SingleValue(Clusters(a));
    SingleValue(Primaries(a));
    if a != [] && b != [] {
      assert a[0] in a && b[0] in b;
      assert a[0].clusterId in Clusters(a) && b[0].clusterId in Clusters(b);
      assert a[0].primary in Primaries(a) && b[0].primary in Primaries(b);
    }
  }
}
