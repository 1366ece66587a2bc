/** Concrete runs on which the assignment does not keep what its callers promise. */
module AssignmentWitnesses {
  import opened Options
  import opened Observation
  import opened Routing
  import opened Assignment
  import opened AssignmentRuns
  import Names
  import Quorum
  import Sorting

  /** A healthy member of cluster `clusterId` observed at time zero. */
  function Member(name: string, clusterId: string, drain: bool): Observation {
    Observation(name, clusterId, "Synced", Yes, "Primary", "ok", None, None, None, drain, Some(name), Some(SQL_PORT),
                At(0))
  }

  lemma MemberCounts(c: char, drain: bool, now: int)
    requires Names.Alphanumeric(c) && now <= MAX_AGE
    ensures var m := Member([c, '.', 'x'], "g", drain);
      WellFormed(m) && Quorum.Counts(m, now, MAX_AGE, now) && (Usable(m, now, MAX_AGE) <==> !drain)
  {
    Names.ShortName(c);
  }

  lemma TwoHeard(observations: seq<Observation>, a: Observation, b: Observation, now: int)
    requires a in observations && b in observations && a.nodeId != b.nodeId
    requires Quorum.Counts(a, now, MAX_AGE, now) && Quorum.Counts(b, now, MAX_AGE, now)
    ensures |Quorum.Heard(observations, now, MAX_AGE, now)| >= 2
  {
    var heard := Quorum.Heard(observations, now, MAX_AGE, now);
    assert a.nodeId in heard && b.nodeId in heard;
    Quorum.Majority.SubsetSize({a.nodeId, b.nodeId}, heard);
  }

  lemma MembersQuorate(observations: seq<Observation>, a: Observation, b: Observation, size: int, now: int)
    requires size in {2, 3} && a in observations && b in observations && a.nodeId != b.nodeId
    requires Quorum.Counts(a, now, MAX_AGE, now) && Quorum.Counts(b, now, MAX_AGE, now)
    requires forall o <- observations :: Quorum.Counts(o, now, MAX_AGE, now) ==>
      o.clusterId == "g" && o.primary == "Primary"
    ensures ViewOf(observations, now, Size(size)).quorum
  {
    TwoHeard(observations, a, b, now);
    Quorum.QuorumExact(observations, now, MAX_AGE, Some(size), now);
    assert Quorum.Agreed(observations, now, MAX_AGE, now, "g", "Primary");
  }

  function Pair(): seq<Observation> {
    [Member("a.x", "g", false), Member("b.x", "g", false)]
  }

  lemma TwoServe(a: Observation, b: Observation)
    requires Usable(a, 0, MAX_AGE) && Usable(b, 0, MAX_AGE)
    ensures b.address.Some? && Serves([a, b], 0, MAX_AGE, b.address.value)
    ensures UsableNames([a, b], 0, MAX_AGE) == {a.nodeId, b.nodeId}
  {
    var both := [a, b];
    assert both[0] in both && both[1] in both;
  }

  lemma PairQuorate()
    ensures Sound(Pair()) && ViewOf(Pair(), 0, Size(2)).quorum
    ensures Serves(Pair(), 0, MAX_AGE, "b.x") && UsableNames(Pair(), 0, MAX_AGE) == {"a.x", "b.x"}
  {
    var a, b := Member("a.x", "g", false), Member("b.x", "g", false);
    MemberCounts('a', false, 0);
    MemberCounts('b', false, 0);
    assert a in Pair() && b in Pair();
    MembersQuorate(Pair(), a, b, 2, 0);
    TwoServe(a, b);
  }

  lemma FirstRouteHost(application: Option<string>, observations: seq<Observation>, previous: Option<string>,
                       now: int, hash: string -> nat)
    requires DistinctIds(observations) && forall o <- observations :: o.address == Some(o.nodeId)
    ensures var table := CalculateRoutes(application, observations, map[], previous, now, MAX_AGE, hash);
      table.primary != [] ==> table.primary[0].host == table.primary[0].nodeId
  {
    var nodes := Nodes(observations, now, MAX_AGE);
    if nodes != [] {
      WriterOf(application, observations, map[], previous, now, MAX_AGE, hash);
      ElectedIsNode(hash(application.GetOr("")), nodes, previous);
      Sorting.FilterMembers(observations, UsableAt(now, MAX_AGE));
    }
  }

  lemma ElectsLeast(observations: seq<Observation>, names: seq<string>, hash: string -> nat)
    requires DistinctIds(observations) && (forall o <- observations :: o.address == Some(o.nodeId))
    requires |names| == 2 && names[0] != names[1] && Names.Leq(names[0], names[1]) && hash("shop") == 0
    requires UsableNames(observations, 0, MAX_AGE) == {names[0], names[1]}
    ensures CalculateRoutes(Some("shop"), observations, map[], None, 0, MAX_AGE, hash).Writer() == Some(names[0])
  {
    ElectionByNames(Some("shop"), observations, map[], None, 0, MAX_AGE, hash, names);
    FirstRouteHost(Some("shop"), observations, None, 0, hash);
  }

  /** Without a copy a tick assigns the writer that its own election picks, whatever the table says. */
  lemma TickAssigns(w: World, supervisor: string, observations: seq<Observation>, application: string, host: string,
                    size: ClusterSize,
                    hash: string -> nat)
    requires supervisor !in w.locals && ViewOf(observations, 0, size).quorum && host != ""
    requires CalculateRoutes(Some(application), observations, map[], None, 0, MAX_AGE, hash).Writer() == Some(host)
    ensures var after := Apply(w, Ticks(supervisor, application, observations, 0, true), size, hash);
      Lookup(after.rows, application) == Some(host) && forall s :: s != supervisor ==>
        LocalOf(after, s) == LocalOf(w, s)
  {
  }

  /** A restarted supervisor has no copy, and its first tick can move a persisted writer that still serves. */
  lemma RestartChurns(hash: string -> nat)
    requires hash("shop") == 0
    ensures var tick := Ticks("a.x", "shop", Pair(), 0, true);
      && Sound(Pair()) && ViewOf(Pair(), 0, Size(2)).quorum && Serves(Pair(), 0, MAX_AGE, "b.x")
      && Lookup(Apply(World(map["shop" := "b.x"], map[]), tick, Size(2), hash).rows, "shop") == Some("a.x")
  {
    PairQuorate();
    assert Names.Leq("a.x", "b.x");
    ElectsLeast(Pair(), ["a.x", "b.x"], hash);
    TickAssigns(World(map["shop" := "b.x"], map[]), "a.x", Pair(), "shop", "a.x", Size(2), hash);
  }

  /** Two members give quorum while draining, the third is eligible but names no cluster. */
  function Malformed(): seq<Observation> {
    [Member("a.x", "g", true), Member("b.x", "g", true), Member("c.x", "", false)]
  }

  lemma NoCluster(o: Observation)
    requires o.clusterId == ""
    ensures !WellFormed(o)
  {
  }

  /** Two draining members with quorum beside an eligible malformed one: only the latter serves, unsoundly. */
  lemma LoneMalformed(a: Observation, b: Observation, c: Observation)
    requires a.nodeId != b.nodeId && c.nodeId !in {a.nodeId, b.nodeId}
    requires Quorum.Counts(a, 0, MAX_AGE, 0) && Quorum.Counts(b, 0, MAX_AGE, 0) && a.drain && b.drain
    requires a.clusterId == b.clusterId == "g" && a.primary == b.primary == "Primary" && a.observedAt.At?
    requires b.observedAt.At?
    requires !WellFormed(c) && Usable(c, 0, MAX_AGE)
    ensures var all := [a, b, c];
      && ViewOf(all, 0, Size(3)).quorum && Serves(all, 0, MAX_AGE, c.address.value)
      && (forall host :: Serves(all, 0, MAX_AGE, host) ==> c.address == Some(host))
      && CoordinatorVerdict(all, c.address.value, 0, Size(3)) == WriterIneligible
  {
    var all := [a, b, c];
    assert all[0] in all && all[1] in all && all[2] in all;
    MembersQuorate(all, a, b, 3, 0);
    ChecksAgree(all, c.address.value, 0, Size(3));
  }

  lemma MalformedServes()
    ensures ViewOf(Malformed(), 0, Size(3)).quorum && Serves(Malformed(), 0, MAX_AGE, "c.x")
    ensures forall host :: Serves(Malformed(), 0, MAX_AGE, host) ==> host == "c.x"
    ensures CoordinatorVerdict(Malformed(), "c.x", 0, Size(3)) == WriterIneligible
  {
    var c := Member("c.x", "", false);
    MemberCounts('a', true, 0);
    MemberCounts('b', true, 0);
    NoCluster(c);
    LoneMalformed(Member("a.x", "g", true), Member("b.x", "g", true), c);
  }

  /** The event path assigns a writer that the coordinator refuses: the only eligible observation is malformed. */
  lemma TickAssignsRefused(hash: string -> nat)
    ensures var tick := Ticks("a.x", "shop", Malformed(), 0, true);
      && Lookup(Apply(World(map[], map[]), tick, Size(3), hash).rows, "shop") == Some("c.x")
      && CoordinatorVerdict(Malformed(), "c.x", 0, Size(3)) == WriterIneligible
  {
    MalformedServes();
    LoneWriter(Malformed(), "shop", "c.x", hash);
    TickAssigns(World(map[], map[]), "a.x", Malformed(), "shop", "c.x", Size(3), hash);
  }

  lemma LoneWriter(observations: seq<Observation>, application: string, host: string, hash: string -> nat)
    requires Serves(observations, 0, MAX_AGE, host) && forall h :: Serves(observations, 0, MAX_AGE, h) ==> h == host
    ensures CalculateRoutes(Some(application), observations, map[], None, 0, MAX_AGE, hash).Writer() == Some(host)
  {
    WriterSticks(Some(application), observations, map[], None, 0, MAX_AGE, hash);
  }

  // ----- a route table cached for a second -----

  /** The same two members while the first drains. */
  function Half(): seq<Observation> {
    [Member("a.x", "g", true), Member("b.x", "g", false)]
  }

  lemma HalfServes()
    ensures DistinctIds(Half()) && ViewOf(Half(), 0, Size(2)).quorum
    ensures Serves(Half(), 0, MAX_AGE, "b.x") && forall host :: Serves(Half(), 0, MAX_AGE, host) ==> host == "b.x"
  {
    var a, b := Member("a.x", "g", true), Member("b.x", "g", false);
    MemberCounts('a', true, 0);
    MemberCounts('b', false, 0);
    assert Half()[0] == a && Half()[1] == b && a in Half() && b in Half();
    MembersQuorate(Half(), a, b, 2, 0);
  }

  function Asks(requested: Option<string>, observations: seq<Observation>): Request {
    Request(requested, Some("shop"), None, Fallback([], []), observations, None, 0, 0, true, true)
  }

  /** A first lease that elects `host` assigns it and caches the routes that say so. */
  lemma FirstLease(observations: seq<Observation>, host: string, identity: string, hash: string -> nat)
    requires ViewOf(observations, 0, Size(2)).quorum && host != ""
    requires CalculateRoutes(Some("shop"), observations, map[], None, 0, MAX_AGE, hash).Writer() == Some(host)
    requires CoordinatorVerdict(observations, host, 0, Size(2)) == Accepted
    ensures var (local, after, _) :=
      LeaseStep(Local(map[], map[]), map[], identity, Asks(Some("shop"), observations), Size(2), hash);
      && Lookup(after, "shop") == Some(host) && Live(local.cache, "shop", 0)
      && local.cache["shop"].routes == CalculateRoutes(Some("shop"), observations, map[], None, 0, MAX_AGE, hash)
  {
    Sorting.FilterAll(observations, Resolving(None));
  }

  /** A lease with live cached routes writes their writer when the coordinator accepts it. */
  lemma CachedLease(me: Local, rows: map<string, string>, identity: string, r: Request, host: string,
                    size: ClusterSize, hash: string -> nat)
    requires Admitted(identity, r) && r.persisted && host != "" && Live(me.cache, KeyOf(r), r.now)
    requires me.cache[KeyOf(r)].routes.Writer() == Some(host) && Lookup(rows, KeyOf(r)) != Some(host)
    requires CoordinatorVerdict(r.observations, host, r.writeNow, size) == Accepted
    ensures Lookup(LeaseStep(me, rows, identity, r, size, hash).1, KeyOf(r)) == Some(host)
  {
  }

  /** Both members are accepted writers of their pair. */
  lemma PairAccepts()
    ensures CoordinatorVerdict(Pair(), "a.x", 0, Size(2)) == Accepted
  {
    var a := Member("a.x", "g", false);
    MemberCounts('a', false, 0);
    PairQuorate();
    assert a in Pair();
    ChecksAgree(Pair(), "a.x", 0, Size(2));
  }

  lemma PairElects(hash: string -> nat)
    requires hash("shop") == 0
    ensures CalculateRoutes(Some("shop"), Pair(), map[], None, 0, MAX_AGE, hash).Writer() == Some("a.x")
  {
    PairQuorate();
    assert Names.Leq("a.x", "b.x");
    ElectsLeast(Pair(), ["a.x", "b.x"], hash);
  }

  /** The world after the supervisor's first lease. */
  function FirstWorld(observations: seq<Observation>, hash: string -> nat): World {
    Apply(World(map[], map[]), Leases("a.x", Asks(Some("shop"), observations)), Size(2), hash)
  }

  /** What makes a first lease assign `host`. */
  ghost predicate Elects(observations: seq<Observation>, host: string, hash: string -> nat) {
    && host != "" && ViewOf(observations, 0, Size(2)).quorum
    && CalculateRoutes(Some("shop"), observations, map[], None, 0, MAX_AGE, hash).Writer() == Some(host)
  }

  lemma FirstWorldHolds(observations: seq<Observation>, host: string, hash: string -> nat)
    requires Elects(observations, host, hash) && CoordinatorVerdict(observations, host, 0, Size(2)) == Accepted
    ensures var w := FirstWorld(observations, hash);
      && w.locals.Keys == {"a.x"} && Lookup(w.rows, "shop") == Some(host) && Live(w.locals["a.x"].cache, "shop", 0)
      && w.locals["a.x"].cache["shop"].routes
        == CalculateRoutes(Some("shop"), observations, map[], None, 0, MAX_AGE, hash)
  {
    FirstLease(observations, host, "a.x", hash);
  }

  function SecondWorld(w: World, observations: seq<Observation>, hash: string -> nat): World {
    Apply(w, Ticks("b.x", "shop", observations, 0, true), Size(2), hash)
  }

  function ThirdWorld(w: World, observations: seq<Observation>, hash: string -> nat): World {
    Apply(w, Leases("a.x", Asks(Some("shop"), observations)), Size(2), hash)
  }

  /** A tick of a supervisor without a copy leaves the lessor's cache alone. */
  lemma SecondWorldHolds(w: World, observations: seq<Observation>, host: string, hash: string -> nat)
    requires w.locals.Keys == {"a.x"} && Elects(observations, host, hash)
    ensures var after := SecondWorld(w, observations, hash);
      Lookup(after.rows, "shop") == Some(host) && "a.x" in after.locals && after.locals["a.x"] == w.locals["a.x"]
  {
    TickAssigns(w, "b.x", observations, "shop", host, Size(2), hash);
    assert LocalOf(SecondWorld(w, observations, hash), "a.x") == LocalOf(w, "a.x");
  }

  lemma ThirdWorldHolds(w: World, observations: seq<Observation>, host: string, hash: string -> nat)
    requires "a.x" in w.locals && Live(w.locals["a.x"].cache, "shop", 0) && host != ""
    requires w.locals["a.x"].cache["shop"].routes.Writer() == Some(host) && Lookup(w.rows, "shop") != Some(host)
    requires CoordinatorVerdict(observations, host, 0, Size(2)) == Accepted
    ensures Lookup(ThirdWorld(w, observations, hash).rows, "shop") == Some(host)
  {
    CachedLease(w.locals["a.x"], w.rows, "a.x", Asks(Some("shop"), observations), host, Size(2), hash);
  }

  /** Within a second: a lease assigns one member, a tick moves the assignment to the other while the first
      drains, and the next lease moves it back by its cached routes, although the assigned writer serves. */
  lemma CachedRoutesChurn(hash: string -> nat)
    requires hash("shop") == 0
    ensures var first := FirstWorld(Pair(), hash);
      var second := SecondWorld(first, Half(), hash);
      && Lookup(first.rows, "shop") == Some("a.x") && Lookup(second.rows, "shop") == Some("b.x")
      && Serves(Pair(), 0, MAX_AGE, "b.x") && ViewOf(Pair(), 0, Size(2)).quorum
      && Lookup(ThirdWorld(second, Pair(), hash).rows, "shop") == Some("a.x")
  {
    PairQuorate();
    PairAccepts();
    PairElects(hash);
    HalfServes();
    LoneWriter(Half(), "shop", "b.x", hash);
    FirstWorldHolds(Pair(), "a.x", hash);
    var first := FirstWorld(Pair(), hash);
    SecondWorldHolds(first, Half(), "b.x", hash);
    ThirdWorldHolds(SecondWorld(first, Half(), hash), Pair(), "a.x", hash);
  }

  // ----- a rebalance that recalculates nothing -----

  lemma ListedByName(observations: seq<Observation>, now: int, r: Route)
    requires Listed(observations, map[], now, MAX_AGE, r)
    requires forall o <- observations :: Names.IsRoutedName(o.nodeId) && o.address == Some(o.nodeId)
    ensures Names.IsRoutedName(r.host) && Names.IsRoutedName(r.nodeId)
  {
    var o :| o in observations && Available(o, now, MAX_AGE) && LeadsTo(r, o, map[]);
  }

  /** Routes of nodes with routed names are routed. */
  lemma RoutedByName(application: Option<string>, observations: seq<Observation>, previous: Option<string>, now: int,
                     hash: string -> nat)
    requires DistinctIds(observations)
    requires forall o <- observations :: Names.IsRoutedName(o.nodeId) && o.address == Some(o.nodeId)
    ensures var table := CalculateRoutes(application, observations, map[], previous, now, MAX_AGE, hash);
      RoutedRoutes(table.primary) && RoutedRoutes(table.balanced)
  {
    var table := CalculateRoutes(application, observations, map[], previous, now, MAX_AGE, hash);
    BalancedFaithful(application, observations, map[], previous, now, MAX_AGE, hash);
    PrimaryFaithful(application, observations, map[], previous, now, MAX_AGE, hash);
    Sorting.SameElements(table.primary, table.balanced);
    forall r | r in table.balanced ensures Names.IsRoutedName(r.host) && Names.IsRoutedName(r.nodeId) {
      ListedByName(observations, now, r);
    }
  }

  lemma MemberNamed(c: char)
    requires Names.Alphanumeric(c)
    ensures Names.IsRoutedName(Member([c, '.', 'x'], "g", false).nodeId)
  {
    Names.ShortName(c);
  }

  lemma PairNamed()
    ensures DistinctIds(Pair()) && forall o <- Pair() :: Names.IsRoutedName(o.nodeId) && o.address == Some(o.nodeId)
  {
    MemberNamed('a');
    MemberNamed('b');
    assert Pair()[0].nodeId == "a.x" && Pair()[1].nodeId == "b.x";
  }

  /** Routes whose writer is assigned are answered without a write. */
  lemma AssignedSettles(me: Local, rows: map<string, string>, r: Request, routes: RouteTable, verdict: Verdict)
    requires routes.balanced != [] && RoutedRoutes(routes.primary) && RoutedRoutes(routes.balanced)
    requires routes.Writer() == Lookup(rows, KeyOf(r))
    ensures SettleLease(me, rows, r, routes, verdict).2 == Leased(routes.primary, routes.balanced, Some(routes.version))
  {
  }

  /** A rebalance that passes an empty name answers with live cached routes whose writer is assigned. */
  lemma CachedAnswer(me: Local, rows: map<string, string>, observations: seq<Observation>, size: ClusterSize,
                     hash: string -> nat)
    requires Live(me.cache, "shop", 0)
    requires var routes := me.cache["shop"].routes;
      && routes.balanced != [] && RoutedRoutes(routes.primary) && RoutedRoutes(routes.balanced)
      && routes.Writer() == Lookup(rows, "shop")
    ensures var routes := me.cache["shop"].routes;
      RebalanceStep(me, rows, "a.x", Asks(Some(""), observations), size, hash).2
      == Leased(routes.primary, routes.balanced, Some(routes.version))
  {
    var kept, r := me.(cache := me.cache - {""}), Asks(Some(""), observations);
    var routes := me.cache["shop"].routes;
    assert KeyOf(r) == "shop" && Live(kept.cache, "shop", 0);
    assert LeaseRoutes(kept.cache, Lookup(rows, "shop"), r, size, hash) == routes;
    AssignedSettles(kept, rows, r, routes, LeaseVerdict(r, routes, Lookup(rows, "shop"), size));
  }

  lemma LeasedWriter(routes: RouteTable, host: string)
    requires routes.Writer() == Some(host) && (routes.balanced == [] <==> routes.primary == [])
    ensures routes.primary != [] && routes.balanced != [] && routes.primary[0].host == host
  {
  }

  /** After a lease for a granted application, a rebalance whose application is "" still hands out the cached writer,
      although that node drains by now and another serves. */
  lemma RebalanceReusesCache(hash: string -> nat)
    requires hash("shop") == 0
    ensures var w := FirstWorld(Pair(), hash);
      var reply := RebalanceStep(LocalOf(w, "a.x"), w.rows, "a.x", Asks(Some(""), Half()), Size(2), hash).2;
      && ViewOf(Half(), 0, Size(2)).quorum && Serves(Half(), 0, MAX_AGE, "b.x") && !Serves(Half(), 0, MAX_AGE, "a.x")
      && reply.Leased? && reply.primary != [] && reply.primary[0].host == "a.x"
  {
    var w := FirstWorld(Pair(), hash);
    var routes := CalculateRoutes(Some("shop"), Pair(), map[], None, 0, MAX_AGE, hash);
    PairQuorate();
    PairAccepts();
    PairElects(hash);
    HalfServes();
    FirstWorldHolds(Pair(), "a.x", hash);
    PairNamed();
    RoutedByName(Some("shop"), Pair(), None, 0, hash);
    PrimaryFaithful(Some("shop"), Pair(), map[], None, 0, MAX_AGE, hash);
    LeasedWriter(routes, "a.x");
    CachedAnswer(LocalOf(w, "a.x"), w.rows, Half(), Size(2), hash);
  }
}
