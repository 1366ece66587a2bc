/** Gossiped node observations and the store that keeps the latest of each node:
    src/cluster/observation.mjs and src/cluster/observation-store.mjs. */
module Observation {
  import opened Options
  import Names
  import Sorting

  /** `Unset` is undefined, `NotFinite` any value that is not a finite number. */
  datatype Stamp = Unset | NotFinite | At(time: int)

  /** "" stands for a missing string. */
  datatype Observation = Observation(
    nodeId: string, clusterId: string, state: string, synced: Flag, primary: string, health: string,
    threads: Option<real>, queue: Option<real>, weight: Option<real>, drain: bool,
    address: Option<string>, sqlPort: Option<int>, observedAt: Stamp)

  const MAX_AGE := 3000
  const SQL_PORT := 3306

  predicate WellFormed(o: Observation) {
    && Names.IsHostName(o.nodeId) && o.clusterId != "" && o.state != "" && o.synced.IsBoolean()
    && o.primary != "" && o.health != ""
    && (o.address.Some? ==> Names.IsHostName(o.address.value))
    && !o.observedAt.NotFinite?
    && 1 <= o.sqlPort.GetOr(SQL_PORT) <= 65535
  }

  /** `createObservation`: `None` when it throws. A missing time becomes the current one, the weight is dropped. */
  function CreateObservation(o: Observation, clock: int): Option<Observation> {
    if WellFormed(o) then Some(Completed(o, clock)) else None
  }

  function Completed(o: Observation, clock: int): Observation {
    o.(observedAt := if o.observedAt.Unset? then At(clock) else o.observedAt,
       sqlPort := Some(o.sqlPort.GetOr(SQL_PORT)), weight := None)
  }

  /** Which observations can be created, and what a created one adds: a time and a port when it names none, and no
      weight. */
  lemma CreateExact(o: Observation, clock: int)
    ensures CreateObservation(o, clock).Some? <==>
      && Names.IsHostName(o.nodeId) && "" !in [o.clusterId, o.state, o.primary, o.health] && o.synced in {Yes, No}
      && (o.address == None || Names.IsHostName(o.address.value)) && o.observedAt != NotFinite
      && (o.sqlPort == None || 0 < o.sqlPort.value < 65536)
    ensures var created := CreateObservation(o, clock);
      created.Some? ==>
        created.value
          == Observation(o.nodeId, o.clusterId, o.state, o.synced, o.primary, o.health, o.threads, o.queue, None,
                                     o.drain, o.address, Some(if o.sqlPort.Some? then o.sqlPort.value else 3306),
                                     if o.observedAt == Unset then At(clock) else o.observedAt)
  {
    var texts := [o.clusterId, o.state, o.primary, o.health];
    assert texts[0] in texts && texts[1] in texts && texts[2] in texts && texts[3] in texts;
  }

  /** A created observation is well-formed and timed, and creating it again, at any clock, gives it back. */
  lemma CreatedAgain(o: Observation, clock: int, later: int)
    requires WellFormed(o)
    ensures var created := CreateObservation(o, clock).value;
      && WellFormed(created) && created.observedAt.At? && created.nodeId == o.nodeId && created.clusterId == o.clusterId
      && CreateObservation(created, later) == Some(created)
  {
    var created := Completed(o, clock);
    assert created.sqlPort.GetOr(SQL_PORT) == o.sqlPort.GetOr(SQL_PORT);
  }

  predicate IsFresh(o: Observation, now: int, maxAge: int) {
    o.observedAt.At? && maxAge >= 0 && now - o.observedAt.time <= maxAge
  }

  predicate DistinctIds(items: seq<Observation>) {
    forall i, j :: 0 <= i < j < |items| ==> items[i].nodeId != items[j].nodeId
  }

  function IdsOf(items: seq<Observation>): set<string> {
    set o <- items :: o.nodeId
  }

  // ----- the store -----

  datatype Reply = InvalidIdentity | InvalidTimestamp | Stale | Updated | Added

  predicate Acceptable(o: Observation) {
    Names.IsFqdn(o.nodeId) && o.observedAt.At?
  }

  /** Where the entry of a node is; the length when there is none. */
  function IndexOf(entries: seq<Observation>, nodeId: string): (k: nat)
    ensures k <= |entries|
    ensures k < |entries| ==> entries[k].nodeId == nodeId
    ensures forall i :: 0 <= i < k ==> entries[i].nodeId != nodeId
  {
    if entries == [] || entries[0].nodeId == nodeId then 0 else 1 + IndexOf(entries[1..], nodeId)
  }

  function UpsertStep(entries: seq<Observation>, o: Observation): (seq<Observation>, Reply) {
    if !Names.IsFqdn(o.nodeId) then (entries, InvalidIdentity)
    else if !o.observedAt.At? then (entries, InvalidTimestamp)
    else
      var k := IndexOf(entries, o.nodeId);
      if k == |entries| then (entries + [o], Added)
      else if entries[k].observedAt.At? && o.observedAt.time < entries[k].observedAt.time then (entries, Stale)
      else (entries[k := o], Updated)
  }

  /** Entries keep the insertion order of a JavaScript map. */
  class ObservationStore {
    const maxAge: int
    var entries: seq<Observation>

    constructor (maxAge: int)
      ensures this.maxAge == maxAge && entries == []
    {
      this.maxAge := maxAge;
      entries := [];
    }

    method Upsert(o: Observation) returns (reply: Reply)
      modifies this
      ensures (entries, reply) == UpsertStep(old(entries), o)
    {
      if !Names.IsFqdn(o.nodeId) {
        return InvalidIdentity;
      }
      if !o.observedAt.At? {
        return InvalidTimestamp;
      }
      var k := 0;
      while k < |entries| && entries[k].nodeId != o.nodeId
        invariant 0 <= k <= |entries|
        invariant forall i :: 0 <= i < k ==> entries[i].nodeId != o.nodeId
      {
        k := k + 1;
      }
      if k == |entries| {
        entries := entries + [o];
        return Added;
      }
      if entries[k].observedAt.At? && o.observedAt.time < entries[k].observedAt.time {
        return Stale;
      }
      entries := entries[k := o];
      reply := Updated;
    }

    function Snapshot(now: int): seq<Observation>
      reads this
    {
      SnapshotOf(entries, now, maxAge)
    }

    method Clear()
      modifies this
      ensures entries == []
    {
      entries := [];
    }
  }

  function SnapshotOf(entries: seq<Observation>, now: int, maxAge: int): seq<Observation> {
    Sorting.Filter(entries, (o: Observation) => IsFresh(o, now, maxAge))
  }

  /** A snapshot holds exactly the entries whose time is known and not past their age. */
  lemma SnapshotExact(entries: seq<Observation>, now: int, maxAge: int)
    ensures forall o :: o in SnapshotOf(entries, now, maxAge) <==>
      o in entries && maxAge >= 0 && o.observedAt.At? && o.observedAt.time >= now - maxAge
  {
    Sorting.FilterMembers(entries, (o: Observation) => IsFresh(o, now, maxAge));
  }

  /** The entries after a sequence of upserts into an empty store. */
  function Fed(trace: seq<Observation>): seq<Observation> {
    if trace == [] then [] else UpsertStep(Fed(trace[..|trace| - 1]), trace[|trace| - 1]).0
  }

  // ----- convergence -----

  /** The entry of a node is the latest acceptable observation of it. */
  ghost predicate LatestOf(trace: seq<Observation>, o: Observation) {
    && o in trace && Acceptable(o)
    && forall p :: p in trace && Acceptable(p) && p.nodeId == o.nodeId ==> p.observedAt.time <= o.observedAt.time
  }

  ghost predicate HoldsLatest(trace: seq<Observation>, entries: seq<Observation>) {
    && DistinctIds(entries)
    && (forall o :: o in entries ==> LatestOf(trace, o))
    && (forall p :: p in trace && Acceptable(p) ==> p.nodeId in IdsOf(entries))
  }

  /** A node reports one thing per timestamp. */
  ghost predicate OnePerTime(trace: seq<Observation>) {
    forall o, p :: o in trace && p in trace && Acceptable(o) && Acceptable(p) && o.nodeId == p.nodeId && o.observedAt == p.observedAt ==> o == p
  }

  lemma UpsertHoldsLatest(trace: seq<Observation>, entries: seq<Observation>, o: Observation)
    requires HoldsLatest(trace, entries)
    ensures HoldsLatest(trace + [o], UpsertStep(entries, o).0)
  {
    var longer, after := trace + [o], UpsertStep(entries, o).0;
    if Acceptable(o) {
      var k := IndexOf(entries, o.nodeId);
      if k < |entries| {
        assert entries[k] in entries;
        forall i | 0 <= i < |entries| && i != k ensures entries[i].nodeId != o.nodeId {}
      } else {
        forall p | p in trace && Acceptable(p) ensures p.nodeId != o.nodeId {
          assert p.nodeId in IdsOf(entries);
        }
      }
      forall e | e in after ensures LatestOf(longer, e) {
        var i :| 0 <= i < |after| && after[i] == e;
        if i < |entries| && after[i] == entries[i] {
          assert entries[i] in entries;
        }
      }
      forall p | p in longer && Acceptable(p) ensures p.nodeId in IdsOf(after) {
        if p in trace {
          var e :| e in entries && e.nodeId == p.nodeId;
          var i :| 0 <= i < |entries| && entries[i] == e;
          assert after[i] in after && after[i].nodeId == p.nodeId;
        } else {
          if k == |entries| { assert after[|entries|] == o; }
          else { assert after[k] in after && after[k].nodeId == o.nodeId; }
        }
      }
    }
  }

  lemma FedLast(trace: seq<Observation>, o: Observation)
    ensures Fed(trace + [o]) == UpsertStep(Fed(trace), o).0
  {
    assert (trace + [o])[..|trace|] == trace;
  }

  lemma {:induction false} FedHoldsLatest(trace: seq<Observation>)
    ensures HoldsLatest(trace, Fed(trace))
  {
    if trace != [] {
      var front, last := trace[..|trace| - 1], trace[|trace| - 1];
      assert trace == front + [last];
      FedHoldsLatest(front);
      UpsertHoldsLatest(front, Fed(front), last);
      FedLast(front, last);
    }
  }

  lemma LatestAgree(s: seq<Observation>, t: seq<Observation>, o: Observation)
    requires (forall x :: x in s <==> x in t) && OnePerTime(s) && o in Fed(s)
    ensures o in Fed(t)
  {
    FedHoldsLatest(s);
    FedHoldsLatest(t);
    assert LatestOf(s, o);
    assert o.nodeId in IdsOf(Fed(t));
    var p :| p in Fed(t) && p.nodeId == o.nodeId;
    assert LatestOf(t, p);
  }

  lemma DistinctIdsNoDuplicates(items: seq<Observation>)
    requires DistinctIds(items)
    ensures Sorting.NoDuplicates(items)
  {
  }

  /** Gossip convergence: stores fed the same observations, in any order and any number of times, hold the
      same entries, so at one clock reading their snapshots are rearrangements of each other. */
  lemma StoresConverge(s: seq<Observation>, t: seq<Observation>, now: int, maxAge: int)
    requires (forall x :: x in s <==> x in t) && OnePerTime(s)
    ensures DistinctIds(Fed(s)) && multiset(Fed(s)) == multiset(Fed(t))
    ensures multiset(SnapshotOf(Fed(s), now, maxAge)) == multiset(SnapshotOf(Fed(t), now, maxAge))
    ensures DistinctIds(SnapshotOf(Fed(s), now, maxAge))
  {
    FedHoldsLatest(s);
    FedHoldsLatest(t);
    forall o ensures o in Fed(s) <==> o in Fed(t) {
      if o in Fed(s) { LatestAgree(s, t, o); }
      if o in Fed(t) { LatestAgree(t, s, o); }
    }
    Sorting.NoDuplicatesSameMembers(Fed(s), Fed(t));
    Sorting.FilterForgetsOrder(Fed(s), Fed(t), (o: Observation) => IsFresh(o, now, maxAge));
    FilterDistinctIds(Fed(s), (o: Observation) => IsFresh(o, now, maxAge));
  }

  lemma {:induction false} FilterDistinctIds(items: seq<Observation>, keep: Observation -> bool)
    requires DistinctIds(items)
    ensures DistinctIds(Sorting.Filter(items, keep))
  {
    if items != [] {
      var rest := Sorting.Filter(items[1..], keep);
      FilterDistinctIds(items[1..], keep);
      Sorting.FilterMembers(items[1..], keep);
      forall i | 0 <= i < |rest| ensures rest[i].nodeId != items[0].nodeId {
        assert rest[i] in rest && rest[i] in items[1..];
        var k :| 0 <= k < |items[1..]| && items[1..][k] == rest[i];
        assert items[k + 1] == rest[i];
      }
    }
  }

  /** The store never goes back in time for a node, and answers what it did. */
  lemma UpsertExact(entries: seq<Observation>, o: Observation)
    requires DistinctIds(entries) && forall e <- entries :: e.observedAt.At?
    ensures var (after, reply) := UpsertStep(entries, o);
      && (reply in {Added, Updated} <==> Acceptable(o) && forall e <- entries :: e.nodeId == o.nodeId ==>
          e.observedAt.time <= o.observedAt.time)
      && (reply in {Added, Updated} ==>
          o in after && forall e <- after :: e == o || (e in entries && e.nodeId != o.nodeId))
      && (reply !in {Added, Updated} ==> after == entries)
      && (reply == Added ==> o.nodeId !in IdsOf(entries))
      && (forall e <- entries :: e.nodeId != o.nodeId ==> e in after)
  {
    if Acceptable(o) {
      var k := IndexOf(entries, o.nodeId);
      var after := UpsertStep(entries, o).0;
      if k < |entries| {
        assert entries[k] in entries;
        forall e | e in entries && e.nodeId == o.nodeId ensures e == entries[k] {
          var i :| 0 <= i < |entries| && entries[i] == e;
        }
        forall e | e in after ensures e == after[k] || (e in entries && e.nodeId != o.nodeId) {
          var i :| 0 <= i < |after| && after[i] == e;
          if i != k { assert entries[i] in entries; }
        }
        forall e | e in entries && e.nodeId != o.nodeId ensures e in after {
          var i :| 0 <= i < |entries| && entries[i] == e;
          assert i != k && after[i] == e;
        }
        assert after[k] in after;
      } else {
        assert after[|entries|] == o;
      }
    }
  }
}
