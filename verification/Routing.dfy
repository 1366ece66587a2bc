/** Ranking of nodes and election of the writer: src/routing/decision.mjs. Scores are exact rationals. */
module Routing {
  import opened Options
  import opened Observation
  import Names
  import Quorum
  import Sorting

  datatype Route = Route(host: string, port: int, nodeId: string, weight: Option<real>)

  /** The bundle version: a label of the application, or a digest taken to be injective. */
  datatype Version = EmptyFor(application: string) | DigestOf(primary: seq<Route>, balanced: seq<Route>)

  /** `writer`, `failover` and `readers` of the source are the head and tail of `primary` and `balanced`. */
  datatype RouteTable = RouteTable(primary: seq<Route>, balanced: seq<Route>, version: Version) {
    function Writer(): Option<string> {
      if primary == [] then None else Some(primary[0].host)
    }
  }

  function Score(o: Observation): real {
    var weight := o.weight.GetOr(100.0);
    o.threads.GetOr(o.queue.GetOr(0.0)) / if weight < 1.0 then 1.0 else weight
  }

  predicate Eligible(o: Observation) {
    && o.synced.Holds() && o.primary == "Primary" && o.health == "ok" && !o.drain
    && o.address.Some? && o.address.value != "" && o.sqlPort.GetOr(SQL_PORT) > 0
  }

  predicate Usable(o: Observation, now: int, maxAge: int) {
    o.observedAt.At? && now - o.observedAt.time <= maxAge && Eligible(o)
  }

  function RouteNode(o: Observation, weights: map<string, real>): Route {
    Route(o.address.GetOr(""), o.sqlPort.GetOr(SQL_PORT), o.nodeId,
          if o.nodeId in weights then Some(weights[o.nodeId]) else o.weight)
  }

  predicate ByLoad(a: Observation, b: Observation) {
    Score(a) < Score(b) || (Score(a) == Score(b) && Names.Leq(a.nodeId, b.nodeId))
  }

  predicate ByName(a: Observation, b: Observation) {
    Names.Leq(a.nodeId, b.nodeId)
  }

  function UsableAt(now: int, maxAge: int): Observation -> bool {
    (o: Observation) => Usable(o, now, maxAge)
  }

  function Routed(weights: map<string, real>): Observation -> Route {
    (o: Observation) => RouteNode(o, weights)
  }

  function OtherThan(nodeId: string): Observation -> bool {
    (o: Observation) => o.nodeId != nodeId
  }

  function Nodes(observations: seq<Observation>, now: int, maxAge: int): seq<Observation> {
    Sorting.Filter(observations, UsableAt(now, maxAge))
  }

  /** The first node at the host; the length when there is none. */
  function HostIndex(nodes: seq<Observation>, host: Option<string>): (k: nat)
    ensures k <= |nodes|
    ensures k < |nodes| ==> nodes[k].address == host
    ensures forall i :: 0 <= i < k ==> nodes[i].address != host
  {
    if nodes == [] || nodes[0].address == host then 0 else 1 + HostIndex(nodes[1..], host)
  }

  /** The previous writer while it is among the nodes, otherwise a node picked by name. */
  function Elect(seed: nat, nodes: seq<Observation>, previous: Option<string>): Observation
    requires nodes != []
  {
    var ordered, stable := Sorting.Sort(nodes, ByLoad), Sorting.Sort(nodes, ByName);
    Sorting.SortElements(nodes, ByLoad);
    Sorting.SortElements(nodes, ByName);
    var k := HostIndex(ordered, previous);
    if k < |ordered| then ordered[k] else stable[seed % |stable|]
  }

  /** `hash` is the first four bytes of the SHA-256 of the application's name. */
  function CalculateRoutes(application: Option<string>, observations: seq<Observation>, weights: map<string, real>,
                           previous: Option<string>, now: int, maxAge: int, hash: string -> nat): RouteTable {
    var nodes := Nodes(observations, now, maxAge);
    if nodes == [] then RouteTable([], [], EmptyFor(application.GetOr("unknown")))
    else
      var ordered := Sorting.Sort(nodes, ByLoad);
      var writer := Elect(hash(application.GetOr("")), nodes, previous);
      var primary := Sorting.Map([writer] + Sorting.Filter(ordered, OtherThan(writer.nodeId)), Routed(weights));
      var balanced := Sorting.Map(ordered, Routed(weights));
      RouteTable(primary, balanced, DigestOf(primary, balanced))
  }

  // ----- a faithful ranking -----

  lemma LoadOrder()
    ensures Sorting.TotalPreorder(ByLoad)
    ensures Sorting.TotalPreorder(ByName)
  {
    Names.LeqIsOrder();
  }

  lemma NamesTellApart(nodes: seq<Observation>)
    requires DistinctIds(nodes)
    ensures Sorting.AntisymmetricOn(ByLoad, nodes)
    ensures Sorting.AntisymmetricOn(ByName, nodes)
  {
    Names.LeqIsOrder();
  }

  lemma DistinctIdsForgetOrder(a: seq<Observation>, b: seq<Observation>)
    requires DistinctIds(a) && multiset(a) == multiset(b)
    ensures DistinctIds(b)
  {
    DistinctIdsNoDuplicates(a);
    Sorting.NoDuplicatesForgetsOrder(a, b);
    Sorting.SameElements(a, b);
    forall i, j | 0 <= i < j < |b| ensures b[i].nodeId != b[j].nodeId {
      assert b[i] in a && b[j] in a;
    }
  }

  /** Filtering out one name takes away one element and keeps the order of the rest. */
  lemma {:induction false} FilterOther(nodes: seq<Observation>, o: Observation)
    requires DistinctIds(nodes) && o in nodes
    ensures Sorting.Filter(nodes, OtherThan(o.nodeId)) == Sorting.RemoveFirst(nodes, o)
  {
    if nodes[0] == o {
      Sorting.FilterAll(nodes[1..], OtherThan(o.nodeId));
    } else {
      assert o in nodes[1..];
      FilterOther(nodes[1..], o);
      assert nodes[0].nodeId != o.nodeId;
    }
  }

  /** A synced, healthy member of the Primary component that was seen in time, has an address and does not drain. */
  predicate Available(o: Observation, now: int, maxAge: int) {
    && o.observedAt.At? && o.observedAt.time >= now - maxAge
    && o.synced in {Yes, Truthy} && o.primary == "Primary" && o.health == "ok" && o.drain == false
    && o.address.Some? && o.address.value != "" && (o.sqlPort.Some? ==> o.sqlPort.value > 0)
  }

  /** The route leads to the node, on the default port unless it names one, with the configured weight if there is one.
      */
  predicate LeadsTo(r: Route, o: Observation, weights: map<string, real>) {
    && Some(r.host) == o.address && r.nodeId == o.nodeId
    && (if o.sqlPort.Some? then Some(r.port) == o.sqlPort else r.port == 3306)
    && (if o.nodeId in weights then r.weight == Some(weights[o.nodeId]) else r.weight == o.weight)
  }

  /** Connected threads, else the receive queue, else nothing. */
  function Load(o: Observation): real {
    if o.threads.Some? then o.threads.value else if o.queue.Some? then o.queue.value else 0.0
  }

  /** The weight, one hundred when there is none, and never less than one. */
  function Capacity(o: Observation): real {
    if o.weight.None? then 100.0 else if o.weight.value > 1.0 then o.weight.value else 1.0
  }

  /** Less load for its capacity, or as much and the lesser name. */
  predicate Ahead(o: Observation, p: Observation) {
    || Load(o) * Capacity(p) < Load(p) * Capacity(o)
    || (Load(o) * Capacity(p) == Load(p) * Capacity(o) && Names.Leq(o.nodeId, p.nodeId))
  }

  lemma CrossMultiplied(x: real, a: real, y: real, b: real)
    requires a > 0.0 && b > 0.0
    ensures x / a < y / b <==> x * b < y * a
    ensures x / a == y / b <==> x * b == y * a
  {
    var u, v := x / a, y / b;
    assert x == u * a && y == v * b;
    assert x * b == u * (a * b) && y * a == v * (a * b);
    ScaledOrder(u, v, a * b);
  }

  lemma ScaledOrder(u: real, v: real, c: real)
    requires c > 0.0
    ensures u < v <==> u * c < v * c
  {
    if u < v {
      assert (v - u) * c > 0.0;
    } else {
      assert (u - v) * c >= 0.0;
    }
  }

  lemma AheadExact(o: Observation, p: Observation)
    ensures ByLoad(o, p) <==> Ahead(o, p)
  {
    assert Score(o) == Load(o) / Capacity(o) && Score(p) == Load(p) / Capacity(p);
    CrossMultiplied(Load(o), Capacity(o), Load(p), Capacity(p));
  }

  /** The nodes behind two routes, the first of which is ahead. */
  ghost predicate Ranked(observations: seq<Observation>, weights: map<string, real>, now: int, maxAge: int, r: Route,
                         s: Route) {
    exists o, p :: o in observations && p in observations && Available(o, now, maxAge) && Available(p, now, maxAge)
                   && LeadsTo(r, o, weights) && LeadsTo(s, p, weights) && Ahead(o, p) && o.nodeId != p.nodeId
  }

  /** What `Elect` sees: the usable nodes in rank order. */
  lemma Ranking(observations: seq<Observation>, now: int, maxAge: int)
    requires DistinctIds(observations)
    ensures var nodes := Nodes(observations, now, maxAge);
      var ordered := Sorting.Sort(nodes, ByLoad);
      && DistinctIds(nodes) && DistinctIds(ordered) && Sorting.SortedBy(ordered, ByLoad) && |ordered| == |nodes|
      && (forall o :: o in nodes <==> o in observations && Usable(o, now, maxAge))
      && (forall o :: o in ordered <==> o in nodes)
  {
    var nodes := Nodes(observations, now, maxAge);
    FilterDistinctIds(observations, UsableAt(now, maxAge));
    Sorting.FilterMembers(observations, UsableAt(now, maxAge));
    LoadOrder();
    Sorting.SortSorted(nodes, ByLoad);
    Sorting.SortElements(nodes, ByLoad);
    DistinctIdsForgetOrder(nodes, Sorting.Sort(nodes, ByLoad));
  }

  lemma ElectedIsNode(seed: nat, nodes: seq<Observation>, previous: Option<string>)
    requires nodes != []
    ensures Elect(seed, nodes, previous) in nodes
  {
    Sorting.SortElements(nodes, ByLoad);
    Sorting.SortElements(nodes, ByName);
  }

  lemma {:induction false} MapRemove(nodes: seq<Observation>, o: Observation, weights: map<string, real>)
    requires DistinctIds(nodes) && o in nodes
    ensures RouteNode(o, weights) in Sorting.Map(nodes, Routed(weights))
    ensures Sorting.Map(Sorting.RemoveFirst(nodes, o), Routed(weights))
         == Sorting.RemoveFirst(Sorting.Map(nodes, Routed(weights)), RouteNode(o, weights))
  {
    var f := Routed(weights);
    var k :| 0 <= k < |nodes| && nodes[k] == o;
    assert Sorting.Map(nodes, f)[k] == RouteNode(o, weights);
    assert Sorting.Map(nodes, f)[1..] == Sorting.Map(nodes[1..], f);
    if nodes[0] != o {
      assert o in nodes[1..];
      MapRemove(nodes[1..], o, weights);
      var rest := Sorting.RemoveFirst(nodes[1..], o);
      assert ([nodes[0]] + rest)[1..] == rest;
      assert nodes[0].nodeId != o.nodeId;
    }
  }

  lemma RouteExact(r: Route, o: Observation, weights: map<string, real>, now: int, maxAge: int)
    ensures Usable(o, now, maxAge) <==> Available(o, now, maxAge)
    ensures o.address.Some? ==> (r == RouteNode(o, weights) <==> LeadsTo(r, o, weights))
  {
  }

  lemma RankedMembers(observations: seq<Observation>, ordered: seq<Observation>, weights: map<string, real>, now: int,
                      maxAge: int)
    requires forall o :: o in ordered <==> o in observations && Usable(o, now, maxAge)
    ensures forall r :: r in Sorting.Map(ordered, Routed(weights)) <==> Listed(observations, weights, now, maxAge, r)
  {
    var routes := Sorting.Map(ordered, Routed(weights));
    forall r ensures r in routes <==> Listed(observations, weights, now, maxAge, r) {
      if o :| o in observations && Available(o, now, maxAge) && LeadsTo(r, o, weights) {
        RouteExact(r, o, weights, now, maxAge);
        assert o in ordered;
        var i :| 0 <= i < |ordered| && ordered[i] == o;
        assert routes[i] == r;
      }
      if r in routes {
        var i :| 0 <= i < |routes| && routes[i] == r;
        assert ordered[i] in ordered && r == RouteNode(ordered[i], weights);
        RouteExact(r, ordered[i], weights, now, maxAge);
      }
    }
  }

  /** The route leads to an available node. */
  ghost predicate Listed(observations: seq<Observation>, weights: map<string, real>, now: int, maxAge: int, r: Route) {
    exists o :: o in observations && Available(o, now, maxAge) && LeadsTo(r, o, weights)
  }

  lemma RankedPair(observations: seq<Observation>, weights: map<string, real>, now: int, maxAge: int, o: Observation,
                   p: Observation)
    requires o in observations && p in observations && Usable(o, now, maxAge) && Usable(p, now, maxAge)
    requires ByLoad(o, p) && o.nodeId != p.nodeId
    ensures Ranked(observations, weights, now, maxAge, RouteNode(o, weights), RouteNode(p, weights))
  {
    RouteExact(RouteNode(o, weights), o, weights, now, maxAge);
    RouteExact(RouteNode(p, weights), p, weights, now, maxAge);
    AheadExact(o, p);
  }

  /** `balanced` lists every available node once, the least loaded for its capacity first, and then by name. */
  lemma BalancedFaithful(application: Option<string>, observations: seq<Observation>, weights: map<string, real>,
                         previous: Option<string>, now: int, maxAge: int, hash: string -> nat)
    requires DistinctIds(observations)
    ensures var balanced := CalculateRoutes(application, observations, weights, previous, now, maxAge, hash).balanced;
      && (forall r :: r in balanced <==> Listed(observations, weights, now, maxAge, r))
      && (forall i, j :: 0 <= i < j < |balanced| ==> balanced[i].nodeId != balanced[j].nodeId)
      && (forall i, j :: 0 <= i < j < |balanced| ==>
          Ranked(observations, weights, now, maxAge, balanced[i], balanced[j]))
  {
    var ordered := Sorting.Sort(Nodes(observations, now, maxAge), ByLoad);
    var balanced := Sorting.Map(ordered, Routed(weights));
    Ranking(observations, now, maxAge);
    assert CalculateRoutes(application, observations, weights, previous, now, maxAge, hash).balanced == balanced;
    RankedMembers(observations, ordered, weights, now, maxAge);
    forall i, j | 0 <= i < j < |balanced|
      ensures balanced[i].nodeId != balanced[j].nodeId
      ensures Ranked(observations, weights, now, maxAge, balanced[i], balanced[j])
    {
      assert ordered[i] in ordered && ordered[j] in ordered;
      RankedPair(observations, weights, now, maxAge, ordered[i], ordered[j]);
    }
  }

  lemma RoutedAt(observations: seq<Observation>, weights: map<string, real>, now: int, maxAge: int,
                 balanced: seq<Route>, o: Observation) returns (k: nat)
    requires (forall r :: r in balanced <==> Listed(observations, weights, now, maxAge, r))
    requires o in observations && Available(o, now, maxAge)
    ensures k < |balanced| && balanced[k].nodeId == o.nodeId
  {
    RouteExact(RouteNode(o, weights), o, weights, now, maxAge);
    assert Listed(observations, weights, now, maxAge, RouteNode(o, weights));
    k :| 0 <= k < |balanced| && balanced[k] == RouteNode(o, weights);
  }

  lemma SameId(observations: seq<Observation>, x: Observation, y: Observation)
    requires DistinctIds(observations) && x in observations && y in observations && x.nodeId == y.nodeId
    ensures x == y
  {
  }

  /** Strictly less load for the capacity; at equal weights fewer connected threads are that. */
  predicate Lighter(o: Observation, p: Observation) {
    || Load(o) * Capacity(p) < Load(p) * Capacity(o)
    || (o.weight == p.weight && o.threads.Some? && p.threads.Some? && o.threads.value < p.threads.value)
  }

  lemma LighterNotBehind(o: Observation, p: Observation)
    requires Lighter(o, p)
    ensures !Ahead(p, o)
  {
    ScaledOrder(Load(o), Load(p), Capacity(o));
  }

  lemma LighterRank(observations: seq<Observation>, weights: map<string, real>, now: int, maxAge: int, r: Route,
                    s: Route, o: Observation, p: Observation)
    requires DistinctIds(observations) && o in observations && p in observations && Lighter(o, p)
    requires r.nodeId == p.nodeId && s.nodeId == o.nodeId
    ensures !Ranked(observations, weights, now, maxAge, r, s)
  {
    LighterNotBehind(o, p);
    forall x, y | x in observations && y in observations && x.nodeId == p.nodeId && y.nodeId == o.nodeId
      ensures x == p && y == o
    {
      SameId(observations, x, p);
      SameId(observations, y, o);
    }
  }

  /** Of two available nodes the lighter one comes first. */
  lemma LessLoadedFirst(application: Option<string>, observations: seq<Observation>, weights: map<string, real>,
                        previous: Option<string>, now: int, maxAge: int, hash: string -> nat, o: Observation,
                        p: Observation) returns (i: nat, j: nat)
    requires DistinctIds(observations) && o in observations && p in observations
    requires Available(o, now, maxAge) && Available(p, now, maxAge) && Lighter(o, p)
    ensures var balanced := CalculateRoutes(application, observations, weights, previous, now, maxAge, hash).balanced;
      i < j < |balanced| && balanced[i].nodeId == o.nodeId && balanced[j].nodeId == p.nodeId
  {
    var balanced := CalculateRoutes(application, observations, weights, previous, now, maxAge, hash).balanced;
    BalancedFaithful(application, observations, weights, previous, now, maxAge, hash);
    i := RoutedAt(observations, weights, now, maxAge, balanced, o);
    j := RoutedAt(observations, weights, now, maxAge, balanced, p);
    if j < i {
      LighterRank(observations, weights, now, maxAge, balanced[j], balanced[i], o, p);
    } else if i == j {
      SameId(observations, o, p);
    }
  }

  /** `primary` is the same nodes with the writer moved to the front. */
  lemma PrimaryFaithful(application: Option<string>, observations: seq<Observation>, weights: map<string, real>,
                        previous: Option<string>, now: int, maxAge: int, hash: string -> nat)
    requires DistinctIds(observations)
    ensures var table := CalculateRoutes(application, observations, weights, previous, now, maxAge, hash);
      && (table.primary == [] <==> table.balanced == [])
      && (table.balanced != [] ==>
           && table.primary[0] in table.balanced
           && table.primary == [table.primary[0]] + Sorting.RemoveFirst(table.balanced, table.primary[0]))
      && multiset(table.primary) == multiset(table.balanced)
      && table.version == (if table.balanced != [] then DigestOf(table.primary, table.balanced)
                           else EmptyFor(if application.Some? then application.value else "unknown"))
  {
    var nodes := Nodes(observations, now, maxAge);
    Ranking(observations, now, maxAge);
    if nodes != [] {
      var ordered := Sorting.Sort(nodes, ByLoad);
      var writer := Elect(hash(application.GetOr("")), nodes, previous);
      ElectedIsNode(hash(application.GetOr("")), nodes, previous);
      FilterOther(ordered, writer);
      MapRemove(ordered, writer, weights);
      Sorting.MapElements(ordered, Routed(weights), writer);
      var rest := Sorting.RemoveFirst(ordered, writer);
      assert ([writer] + rest)[1..] == rest;
      assert Sorting.Map([writer] + rest, Routed(weights))
        == [RouteNode(writer, weights)] + Sorting.Map(rest, Routed(weights));
    }
  }

  // ----- the writer -----

  lemma WriterOf(application: Option<string>, observations: seq<Observation>, weights: map<string, real>,
                 previous: Option<string>, now: int, maxAge: int, hash: string -> nat)
    requires Nodes(observations, now, maxAge) != []
    ensures var table := CalculateRoutes(application, observations, weights, previous, now, maxAge, hash);
      && table.primary != []
      && table.primary[0]
         == RouteNode(Elect(hash(application.GetOr("")), Nodes(observations, now, maxAge), previous), weights)
  {
  }

  /** Some fresh eligible node has this address. */
  ghost predicate Serves(observations: seq<Observation>, now: int, maxAge: int, host: string) {
    exists o :: o in observations && Usable(o, now, maxAge) && o.address == Some(host)
  }

  /** A writer that stays fresh and eligible stays the writer, whatever the loads; the host of any writer serves. */
  lemma WriterSticks(application: Option<string>, observations: seq<Observation>, weights: map<string, real>,
                     previous: Option<string>, now: int, maxAge: int, hash: string -> nat)
    ensures var writer := CalculateRoutes(application, observations, weights, previous, now, maxAge, hash).Writer();
      && (previous.Some? && Serves(observations, now, maxAge, previous.value) ==> writer == previous)
      && (writer.Some? ==> Serves(observations, now, maxAge, writer.value))
      && (writer.None? <==> forall o <- observations :: !Usable(o, now, maxAge))
  {
    var nodes := Nodes(observations, now, maxAge);
    Sorting.FilterMembers(observations, UsableAt(now, maxAge));
    if nodes != [] {
      assert nodes[0] in nodes;
      var seed := hash(application.GetOr(""));
      WriterOf(application, observations, weights, previous, now, maxAge, hash);
      ElectedIsNode(seed, nodes, previous);
      Sorting.SortElements(nodes, ByLoad);
      if previous.Some? && Serves(observations, now, maxAge, previous.value) {
        var o :| o in observations && Usable(o, now, maxAge) && o.address == previous;
        assert o in nodes && o in Sorting.Sort(nodes, ByLoad);
      }
    }
  }

  function NodeName(o: Observation): string {
    o.nodeId
  }

  /** Sorting by name sorts the names. */
  lemma SortedNames(nodes: seq<Observation>)
    requires DistinctIds(nodes)
    ensures var names := Sorting.Map(Sorting.Sort(nodes, ByName), NodeName);
      && Sorting.SortedBy(names, Names.Leq) && Sorting.NoDuplicates(names) && |names| == |nodes|
      && forall n :: n in names <==> n in IdsOf(nodes)
  {
    var stable := Sorting.Sort(nodes, ByName);
    LoadOrder();
    Sorting.SortSorted(nodes, ByName);
    Sorting.SortElements(nodes, ByName);
    DistinctIdsForgetOrder(nodes, stable);
    var names := Sorting.Map(stable, NodeName);
    forall i, j | 0 <= i < j < |names| ensures Names.Leq(names[i], names[j]) && names[i] != names[j] {
      assert ByName(stable[i], stable[j]);
    }
    forall n ensures n in names <==> n in IdsOf(nodes) {
      if n in IdsOf(nodes) {
        var o :| o in nodes && o.nodeId == n;
        assert o in stable;
        var i :| 0 <= i < |stable| && stable[i] == o;
        assert names[i] == n;
      }
      if n in names {
        var i :| 0 <= i < |names| && names[i] == n;
        assert stable[i] in stable;
      }
    }
  }

  /** The names of the fresh eligible nodes. */
  function UsableNames(observations: seq<Observation>, now: int, maxAge: int): set<string> {
    set o <- observations | Usable(o, now, maxAge) :: o.nodeId
  }

  /** Without a serving previous writer the election depends on nothing but the application and the set of
      names: it is the name at a place fixed by the application among the names in order. */
  lemma ElectionByNames(application: Option<string>, observations: seq<Observation>, weights: map<string, real>,
                        previous: Option<string>, now: int, maxAge: int, hash: string -> nat, names: seq<string>)
    requires DistinctIds(observations)
    requires previous.Some? ==> !Serves(observations, now, maxAge, previous.value)
    requires Sorting.SortedBy(names, Names.Leq) && Sorting.NoDuplicates(names)
    requires forall n :: n in names <==> n in UsableNames(observations, now, maxAge)
    ensures var table := CalculateRoutes(application, observations, weights, previous, now, maxAge, hash);
      && |table.primary| == |names|
      && (names != [] ==> table.primary[0].nodeId == names[hash(application.GetOr("")) % |names|])
  {
    var nodes := Nodes(observations, now, maxAge);
    Ranking(observations, now, maxAge);
    SortedNames(nodes);
    var own := Sorting.Map(Sorting.Sort(nodes, ByName), NodeName);
    assert IdsOf(nodes) == UsableNames(observations, now, maxAge);
    Names.LeqIsOrder();
    Sorting.NoDuplicatesSameMembers(own, names);
    Sorting.SortedUnique(own, names, Names.Leq);
    PrimaryFaithful(application, observations, weights, previous, now, maxAge, hash);
    Sorting.SameElements(CalculateRoutes(application, observations, weights, previous, now, maxAge, hash).primary,
                         CalculateRoutes(application, observations, weights, previous, now, maxAge, hash).balanced);
    if nodes != [] {
      WriterOf(application, observations, weights, previous, now, maxAge, hash);
      ElectedByName(hash(application.GetOr("")), nodes, previous);
    }
  }

  lemma ElectedByName(seed: nat, nodes: seq<Observation>, previous: Option<string>)
    requires nodes != [] && forall o <- nodes :: o.address.Some? && o.address != previous
    ensures |Sorting.Sort(nodes, ByName)| == |nodes|
    ensures Elect(seed, nodes, previous) == Sorting.Sort(nodes, ByName)[seed % |nodes|]
  {
    Sorting.SortElements(nodes, ByLoad);
    Sorting.SortElements(nodes, ByName);
  }

  // ----- convergence -----

  /** The routes forget the order of the observations. */
  lemma RoutesForgetOrder(application: Option<string>, a: seq<Observation>, b: seq<Observation>,
                          weights: map<string, real>,
                          previous: Option<string>, now: int, maxAge: int, hash: string -> nat)
    requires DistinctIds(a) && multiset(a) == multiset(b)
    ensures CalculateRoutes(application, a, weights, previous, now, maxAge, hash)
         == CalculateRoutes(application, b, weights, previous, now, maxAge, hash)
  {
    var left, right := Nodes(a, now, maxAge), Nodes(b, now, maxAge);
    Sorting.FilterForgetsOrder(a, b, UsableAt(now, maxAge));
    FilterDistinctIds(a, UsableAt(now, maxAge));
    Sorting.SameElements(left, right);
    NamesTellApart(left);
    LoadOrder();
    Sorting.SortForgetsOrder(left, right, ByLoad);
    Sorting.SortForgetsOrder(left, right, ByName);
  }

  /** Gossip converges on decisions: two supervisors that received the same observations, in any order and
      any number of times, one per node and timestamp, reach at one clock reading the same quorum verdict and
      identical routes and bundle version for an application and previous writer. */
  lemma DecisionsConverge(s: seq<Observation>, t: seq<Observation>, now: int, maxAge: int, expectedSize: Option<int>,
                          clock: int,
                          application: Option<string>, weights: map<string, real>, previous: Option<string>,
                          hash: string -> nat)
    requires (forall x :: x in s <==> x in t) && OnePerTime(s)
    ensures var a, b := SnapshotOf(Fed(s), now, maxAge), SnapshotOf(Fed(t), now, maxAge);
      && (var v, w := Quorum.EvaluateQuorum(a, now, maxAge, expectedSize, clock),
          Quorum.EvaluateQuorum(b, now, maxAge, expectedSize, clock);
          v.(observations := w.observations) == w && multiset(v.observations) == multiset(w.observations))
      && CalculateRoutes(application, a, weights, previous, now, maxAge, hash)
         == CalculateRoutes(application, b, weights, previous, now, maxAge, hash)
  {
    var a, b := SnapshotOf(Fed(s), now, maxAge), SnapshotOf(Fed(t), now, maxAge);
    StoresConverge(s, t, now, maxAge);
    DistinctIdsForgetOrder(a, b);
    Quorum.QuorumForgetsOrder(a, b, now, maxAge, expectedSize, clock);
    RoutesForgetOrder(application, a, b, weights, previous, now, maxAge, hash);
  }
}
