/** The shared writer assignment and its two writers: src/routing/metadata-assignments.mjs,
    src/routing/quorum-assignment.mjs, src/routing/bundle-service.mjs and the assignment part of
    src/routing/event-snapshot.mjs. The observations come from an observation store, so they carry their time. */
module Assignment {
  import opened Options
  import opened Observation
  import opened Routing
  import Names
  import Quorum
  import Sorting

  const CACHE_AGE := 1000

  /** `ELERA_CLUSTER_SIZE`: absent, not an integer, or an integer. */
  datatype ClusterSize = Unconfigured | NotAnInteger | Size(n: int)

  /** The majority verdict as every caller asks for it. */
  function ViewOf(observations: seq<Observation>, now: int, size: ClusterSize): Quorum.View {
    var expected := match size
      case Unconfigured => Some(|observations|)
      case NotAnInteger => None
      case Size(n) => Some(n);
    Quorum.EvaluateQuorum(observations, now, MAX_AGE, expected, now)
  }

  // ----- the store -----

  function Lookup(m: map<string, string>, application: string): Option<string> {
    if application in m then Some(m[application]) else None
  }

  /** The table all supervisors share. */
  class AssignmentTable {
    var rows: map<string, string>

    constructor ()
      ensures rows == map[]
    {
      rows := map[];
    }
  }

  /** One supervisor's access to the table, with the local copy that `peek` answers from. */
  class AssignmentStore {
    const table: AssignmentTable
    var copy: map<string, string>

    constructor (table: AssignmentTable)
      ensures this.table == table && copy == map[]
    {
      this.table := table;
      copy := map[];
    }

    function Peek(application: string): Option<string>
      reads this
    {
      Lookup(copy, application)
    }

    /** Reads through to the table and refreshes the copy. */
    method Get(application: string) returns (writer: Option<string>)
      modifies this
      ensures (copy, writer) == GetStep(old(copy), table.rows, application)
    {
      writer := None;
      if application in table.rows {
        writer := Some(table.rows[application]);
        if table.rows[application] != "" {
          copy := copy[application := table.rows[application]];
        }
      }
    }

    /** The copy changes first; the table only when the query succeeds. */
    method Set(application: string, writer: string, persisted: bool)
      modifies this, table
      ensures copy == old(copy)[application := writer]
      ensures table.rows == if persisted then old(table.rows)[application := writer] else old(table.rows)
    {
      copy := copy[application := writer];
      if persisted {
        table.rows := table.rows[application := writer];
      }
    }
  }

  function GetStep(copy: map<string, string>, rows: map<string, string>, application: string)
    : (map<string, string>, Option<string>)
  {
    var row := Lookup(rows, application);
    (if row.Some? && row.value != "" then copy[application := row.value] else copy, row)
  }

  // ----- the coordinator -----

  datatype Verdict = Accepted | QuorumRequired(reason: Quorum.Reason) | WriterIneligible

  predicate Targets(o: Observation, host: string) {
    o.address == Some(host) && o.synced.Holds() && o.primary == "Primary" && o.health == "ok" && !o.drain
  }

  function CoordinatorVerdict(observations: seq<Observation>, writer: string, now: int, size: ClusterSize): Verdict {
    var view := ViewOf(observations, now, size);
    if !view.quorum then QuorumRequired(view.reason)
    else if exists o <- view.observations :: Targets(o, writer) then Accepted
    else WriterIneligible
  }

  datatype WriteOutcome = Written | Rejected(verdict: Verdict) | WriteFailed

  /** The guard in front of the store. */
  class AssignmentCoordinator {
    const store: AssignmentStore
    const size: ClusterSize

    constructor (store: AssignmentStore, size: ClusterSize)
      ensures this.store == store && this.size == size
    {
      this.store, this.size := store, size;
    }

    method Write(application: string, writer: string, observations: seq<Observation>, now: int,
                 persisted: bool) returns (outcome: WriteOutcome)
      modifies store, store.table
      ensures var verdict := CoordinatorVerdict(observations, writer, now, size);
        if verdict != Accepted then
          outcome == Rejected(verdict) && store.copy == old(store.copy) && store.table.rows == old(store.table.rows)
        else
          && outcome == (if persisted then Written else WriteFailed)
          && store.copy == old(store.copy)[application := writer]
          && store.table.rows
             == if persisted then old(store.table.rows)[application := writer] else old(store.table.rows)
    {
      var view := ViewOf(observations, now, size);
      if !view.quorum {
        return Rejected(QuorumRequired(view.reason));
      }
      if !exists o <- view.observations :: Targets(o, writer) {
        return Rejected(WriterIneligible);
      }
      store.Set(application, writer, persisted);
      outcome := if persisted then Written else WriteFailed;
    }
  }

  // ----- the bundle service -----

  datatype Cached = Cached(calculatedAt: int, routes: RouteTable)

  /** The routes the metadata service offers when none can be calculated. */
  datatype Fallback = Fallback(primary: seq<Route>, balanced: seq<Route>)

  /** A lease request with everything it reads from outside: the answer of the metadata service, the snapshot,
      the nodes whose address resolves (when addresses are validated), the clock at the start and at the write,
      and whether the table could be read and written. */
  datatype Request = Request(
    requested: Option<string>, granted: Option<string>, nodeIdentity: Option<string>, fallback: Fallback,
    observations: seq<Observation>, resolved: Option<set<string>>, now: int, writeNow: int,
    readable: bool, persisted: bool)

  datatype Reply =
    | Forbidden
    | IdentityMismatch
    | Unreadable
    | Refused(verdict: Verdict)
    | NotPersisted
    | NonFqdnRoutes
    | Leased(primary: seq<Route>, balanced: seq<Route>, version: Option<Version>)

  /** What one supervisor keeps: the copy of the assignments and the route cache. */
  datatype Local = Local(copy: map<string, string>, cache: map<string, Cached>)

  function KeyOf(r: Request): string {
    r.granted.GetOr(r.requested.GetOr("default"))
  }

  predicate NotAuthorized(r: Request) {
    r.requested.GetOr("") != "" && r.granted.GetOr("") != "" && r.requested != r.granted
  }

  /** The request passes the checks on token, node and table. */
  predicate Admitted(identity: string, r: Request) {
    !NotAuthorized(r) && (r.nodeIdentity.GetOr("") == "" || r.nodeIdentity == Some(identity)) && r.readable
  }

  predicate Live(cache: map<string, Cached>, key: string, now: int) {
    key in cache && now - cache[key].calculatedAt < CACHE_AGE
  }

  function Resolving(resolved: Option<set<string>>): Observation -> bool {
    (o: Observation) => resolved.None? || o.nodeId in resolved.value
  }

  function Reachable(r: Request, size: ClusterSize): seq<Observation> {
    if ViewOf(r.observations, r.now, size).quorum then Sorting.Filter(r.observations, Resolving(r.resolved)) else []
  }

  function PreviousHost(holder: Option<string>, cache: map<string, Cached>, key: string): Option<string> {
    if holder.Some? then holder
    else if key in cache then cache[key].routes.Writer()
    else None
  }

  /** The routes a lease works with: the cached ones for a second, otherwise a new calculation. */
  function LeaseRoutes(cache: map<string, Cached>, holder: Option<string>, r: Request, size: ClusterSize,
                       hash: string -> nat): RouteTable {
    var key := KeyOf(r);
    if Live(cache, key, r.now) then cache[key].routes
    else CalculateRoutes(Some(key), Reachable(r, size), map[], PreviousHost(holder, cache, key), r.now, MAX_AGE, hash)
  }

  predicate RoutedRoutes(routes: seq<Route>) {
    forall r <- routes :: Names.IsRoutedName(r.host) && Names.IsRoutedName(r.nodeId)
  }

  function Answer(routes: RouteTable, fallback: Fallback): Reply {
    var primary := if routes.balanced != [] then routes.primary else fallback.primary;
    var balanced := if routes.balanced != [] then routes.balanced else fallback.balanced;
    if !RoutedRoutes(primary) || !RoutedRoutes(balanced) then NonFqdnRoutes
    else Leased(primary, balanced, if routes.balanced != [] then Some(routes.version) else None)
  }

  predicate NeedsWrite(routes: RouteTable, holder: Option<string>) {
    routes.Writer().Some? && routes.Writer().value != "" && routes.Writer() != holder
  }

  function LeaseStep(me: Local, rows: map<string, string>, identity: string, r: Request, size: ClusterSize,
                     hash: string -> nat)
    : (Local, map<string, string>, Reply)
  {
    if NotAuthorized(r) then (me, rows, Forbidden)
    else if r.nodeIdentity.GetOr("") != "" && r.nodeIdentity != Some(identity) then (me, rows, IdentityMismatch)
    else if !r.readable then (me, rows, Unreadable)
    else
      var holder := Lookup(rows, KeyOf(r));
      var routes := LeaseRoutes(me.cache, holder, r, size, hash);
      SettleLease(me, rows, r, routes, LeaseVerdict(r, routes, holder, size))
  }

  /** What the coordinator says of the write a lease needs, if it needs one. */
  function LeaseVerdict(r: Request, routes: RouteTable, holder: Option<string>, size: ClusterSize): Verdict {
    if NeedsWrite(routes, holder) then CoordinatorVerdict(r.observations, routes.Writer().value, r.writeNow, size)
      else Accepted
  }

  /** The end of a lease, from its routes and the coordinator's verdict. */
  function SettleLease(me: Local, rows: map<string, string>, r: Request, routes: RouteTable,
                       verdict: Verdict): (Local, map<string, string>, Reply) {
    var key := KeyOf(r);
    var (copy, holder) := GetStep(me.copy, rows, key);
    var cache := if Live(me.cache, key, r.now) then me.cache else me.cache[key := Cached(r.now, routes)];
    if !NeedsWrite(routes, holder) then (Local(copy, cache), rows, Answer(routes, r.fallback))
    else if verdict != Accepted then (Local(copy, me.cache), rows, Refused(verdict))
    else
      var host := routes.Writer().value;
      if !r.persisted then (Local(copy[key := host], me.cache), rows, NotPersisted)
      else (Local(copy[key := host], cache), rows[key := host], Answer(routes, r.fallback))
  }

  /** A rebalance forgets the cached routes of the requested application and leases again. */
  function RebalanceStep(me: Local, rows: map<string, string>, identity: string, r: Request, size: ClusterSize,
                         hash: string -> nat)
    : (Local, map<string, string>, Reply)
  {
    LeaseStep(me.(cache := me.cache - {r.requested.GetOr("default")}), rows, identity, r, size, hash)
  }

  class BundleService {
    const assignments: AssignmentCoordinator
    const identity: string
    var cache: map<string, Cached>

    constructor (assignments: AssignmentCoordinator, identity: string)
      ensures this.assignments == assignments && this.identity == identity && cache == map[]
    {
      this.assignments, this.identity := assignments, identity;
      cache := map[];
    }

    ghost function View(): Local
      reads this, assignments.store
    {
      Local(assignments.store.copy, cache)
    }

    method Lease(r: Request, hash: string -> nat) returns (reply: Reply)
      modifies this, assignments.store, assignments.store.table
      ensures (View(), assignments.store.table.rows, reply)
           == LeaseStep(old(View()), old(assignments.store.table.rows), identity, r, assignments.size, hash)
    {
      if NotAuthorized(r) {
        return Forbidden;
      }
      if r.nodeIdentity.GetOr("") != "" && r.nodeIdentity != Some(identity) {
        return IdentityMismatch;
      }
      var key := KeyOf(r);
      var live := Live(cache, key, r.now);
      var reachable := Reachable(r, assignments.size);
      if !r.readable {
        return Unreadable;
      }
      var holder := assignments.store.Get(key);
      var routes;
      if live {
        routes := cache[key].routes;
      } else {
        routes := CalculateRoutes(Some(key), reachable, map[], PreviousHost(holder, cache, key), r.now, MAX_AGE, hash);
      }
      if NeedsWrite(routes, holder) {
        var outcome := assignments.Write(key, routes.Writer().value, r.observations, r.writeNow, r.persisted);
        if outcome != Written {
          return if outcome.Rejected? then Refused(outcome.verdict) else NotPersisted;
        }
      }
      if !live {
        cache := cache[key := Cached(r.now, routes)];
      }
      reply := Answer(routes, r.fallback);
    }

    method Rebalance(r: Request, hash: string -> nat) returns (reply: Reply)
      modifies this, assignments.store, assignments.store.table
      ensures (View(), assignments.store.table.rows, reply)
           == RebalanceStep(old(View()), old(assignments.store.table.rows), identity, r, assignments.size, hash)
    {
      cache := cache - {r.requested.GetOr("default")};
      reply := Lease(r, hash);
    }
  }

  // ----- the event path -----

  function EventRoutes(copy: map<string, string>, application: string, observations: seq<Observation>, now: int,
                       size: ClusterSize, hash: string -> nat): RouteTable {
    CalculateRoutes(Some(application), if ViewOf(observations, now, size).quorum then observations else [],
                    map[], Lookup(copy, application), now, MAX_AGE, hash)
  }

  /** The event path writes past the coordinator, and a failed query goes unnoticed. */
  function EventAssign(copy: map<string, string>, rows: map<string, string>, application: string, routes: RouteTable,
                       persisted: bool)
    : (map<string, string>, map<string, string>)
  {
    if NeedsWrite(routes, Lookup(copy, application)) then
      var host := routes.Writer().value;
      (copy[application := host], if persisted then rows[application := host] else rows)
    else (copy, rows)
  }

  // ----- what the coordinator accepts -----

  /** A healthy, synced member of the Primary component at that address that does not drain. */
  predicate ServesAt(o: Observation, host: string) {
    && o.address == Some(host) && o.synced in {Yes, Truthy} && o.primary == "Primary" && o.health == "ok"
    && o.drain == false
  }

  /** The majority every caller asks for: of the configured size, of the observations when none is configured, and of
      one when it is not an integer or not positive; on observations not older than three seconds. */
  lemma ViewExact(observations: seq<Observation>, now: int, size: ClusterSize)
    ensures var members := match size case Unconfigured => |observations| case NotAnInteger => 0 case Size(n) => n;
      ViewOf(observations, now, size).quorum <==>
        && |Quorum.Heard(observations, now, 3000, now)| >= (if members >= 1 then members / 2 + 1 else 1)
        && exists c, p :: Quorum.Agreed(observations, now, 3000, now, c, p)
  {
    var expected :=
      match size case Unconfigured => Some(|observations|) case NotAnInteger => None case Size(n) => Some(n);
    Quorum.QuorumExact(observations, now, 3000, expected, now);
  }

  lemma CoordinatorAccepts(observations: seq<Observation>, writer: string, now: int, size: ClusterSize)
    ensures CoordinatorVerdict(observations, writer, now, size) == Accepted <==>
      && ViewOf(observations, now, size).quorum
      && exists i :: Quorum.Speaks(observations, i, now, MAX_AGE, now) && Targets(observations[i], writer)
  {
    Quorum.UniqueExact(observations, now, MAX_AGE, now);
    var unique := ViewOf(observations, now, size).observations;
    assert unique == Quorum.Unique(observations, now, MAX_AGE, now);
    if o :| o in unique && Targets(o, writer) {
      var i :| Quorum.Speaks(observations, i, now, MAX_AGE, now) && o == Completed(observations[i], now);
      assert Targets(observations[i], writer);
    }
    if i :| Quorum.Speaks(observations, i, now, MAX_AGE, now) && Targets(observations[i], writer) {
      assert Quorum.Spoken(observations, Completed(observations[i], now), now, MAX_AGE, now);
      assert Targets(Completed(observations[i], now), writer);
    }
  }

  /** The last word of some node heard of within three seconds. */
  ghost predicate LastWordServes(observations: seq<Observation>, i: int, now: int, host: string) {
    Quorum.Speaks(observations, i, now, 3000, now) && ServesAt(observations[i], host)
  }

  /** A write is accepted exactly under quorum, for the address at which the last word of some node heard of
      in time shows it synced, Primary, healthy and not draining. */
  lemma CoordinatorExact(observations: seq<Observation>, writer: string, now: int, size: ClusterSize)
    ensures CoordinatorVerdict(observations, writer, now, size) == Accepted <==>
      ViewOf(observations, now, size).quorum && exists i :: LastWordServes(observations, i, now, writer)
    ensures CoordinatorVerdict(observations, writer, now, size).QuorumRequired?
      <==> !ViewOf(observations, now, size).quorum
  {
    CoordinatorAccepts(observations, writer, now, size);
    if i :| Quorum.Speaks(observations, i, now, MAX_AGE, now) && Targets(observations[i], writer) {
      assert LastWordServes(observations, i, now, writer);
    }
    if i :| LastWordServes(observations, i, now, writer) {
      assert Targets(observations[i], writer);
    }
  }

  /** A node that the routes would use and that is well-formed besides. */
  ghost predicate SoundlyServes(observations: seq<Observation>, now: int, host: string) {
    exists o :: o in observations && WellFormed(o) && Usable(o, now, MAX_AGE) && o.address == Some(host)
  }

  lemma WellFormedPort(o: Observation)
    requires WellFormed(o)
    ensures o.sqlPort.GetOr(SQL_PORT) > 0
    ensures o.address.Some? ==> o.address.value != ""
  {
  }

  lemma TargetsUsable(o: Observation, now: int, host: string)
    requires WellFormed(o) && o.observedAt.At?
    ensures o.address == Some(host) && Usable(o, now, MAX_AGE)
      <==> Quorum.Counts(o, now, MAX_AGE, now) && Targets(o, host)
  {
    WellFormedPort(o);
  }

  /** The two eligibility checks agree on well-formed observations: at one clock, with one timed observation per
      node and quorum, the coordinator accepts a host exactly when a well-formed observation makes it usable. */
  lemma ChecksAgree(observations: seq<Observation>, host: string, now: int, size: ClusterSize)
    requires DistinctIds(observations) && forall o <- observations :: o.observedAt.At?
    requires ViewOf(observations, now, size).quorum
    ensures CoordinatorVerdict(observations, host, now, size) == Accepted <==> SoundlyServes(observations, now, host)
  {
    CoordinatorAccepts(observations, host, now, size);
    if i :| Quorum.Speaks(observations, i, now, MAX_AGE, now) && Targets(observations[i], host) {
      TargetsUsable(observations[i], now, host);
      assert observations[i] in observations;
    }
    if o :| o in observations && WellFormed(o) && Usable(o, now, MAX_AGE) && o.address == Some(host) {
      TargetsUsable(o, now, host);
      var i :| 0 <= i < |observations| && observations[i] == o;
      Quorum.SpeaksAlone(observations, i, now, MAX_AGE, now);
    }
  }

  /** When the coordinator decides about a lease, and what the lease then answers. */
  lemma LeaseReply(me: Local, rows: map<string, string>, identity: string, r: Request, size: ClusterSize,
                   hash: string -> nat)
    ensures var routes := LeaseRoutes(me.cache, Lookup(rows, KeyOf(r)), r, size, hash);
      LeaseStep(me, rows, identity, r, size, hash).2.Refused? <==>
        && Admitted(identity, r) && NeedsWrite(routes, Lookup(rows, KeyOf(r)))
        && CoordinatorVerdict(r.observations, routes.Writer().value, r.writeNow, size) != Accepted
  {
  }

  /** Newly calculated routes have a writer only under quorum, and it serves. */
  lemma FreshWriterServes(cache: map<string, Cached>, holder: Option<string>, r: Request, size: ClusterSize,
                          hash: string -> nat)
    requires !Live(cache, KeyOf(r), r.now)
    ensures var writer := LeaseRoutes(cache, holder, r, size, hash).Writer();
      writer.Some? ==>
        ViewOf(r.observations, r.now, size).quorum && Serves(Reachable(r, size), r.now, MAX_AGE, writer.value)
                       && Serves(r.observations, r.now, MAX_AGE, writer.value)
  {
    var kept := Reachable(r, size);
    WriterSticks(Some(KeyOf(r)), kept, map[], PreviousHost(holder, cache, KeyOf(r)), r.now, MAX_AGE, hash);
    Sorting.FilterMembers(r.observations, Resolving(r.resolved));
    var writer := LeaseRoutes(cache, holder, r, size, hash).Writer();
    if writer.Some? {
      var o :| o in kept && Usable(o, r.now, MAX_AGE) && o.address == writer;
      assert o in r.observations;
    }
  }

  lemma AllSound(observations: seq<Observation>, now: int, host: string)
    requires Serves(observations, now, MAX_AGE, host) && forall o <- observations :: WellFormed(o)
    ensures SoundlyServes(observations, now, host)
  {
    var o :| o in observations && Usable(o, now, MAX_AGE) && o.address == Some(host);
    assert WellFormed(o);
  }

  /** A lease that calculates its routes and writes at the same clock is refused exactly when no well-formed
      observation backs a newly picked writer; with well-formed observations it is never refused. */
  lemma FreshLeaseAccepted(me: Local, rows: map<string, string>, identity: string, r: Request, size: ClusterSize,
                           hash: string -> nat)
    requires DistinctIds(r.observations) && forall o <- r.observations :: o.observedAt.At?
    requires !Live(me.cache, KeyOf(r), r.now) && r.writeNow == r.now
    ensures var writer := LeaseRoutes(me.cache, Lookup(rows, KeyOf(r)), r, size, hash).Writer();
      var reply := LeaseStep(me, rows, identity, r, size, hash).2;
      && (reply.Refused?
          <==> (&& Admitted(identity, r) && writer.Some? && writer != Lookup(rows, KeyOf(r))
                && !SoundlyServes(r.observations, r.now, writer.value)))
      && (writer.Some? ==> Serves(r.observations, r.now, MAX_AGE, writer.value))
      && ((forall o <- r.observations :: WellFormed(o)) ==> !reply.Refused?)
  {
    var writer := LeaseRoutes(me.cache, Lookup(rows, KeyOf(r)), r, size, hash).Writer();
    LeaseReply(me, rows, identity, r, size, hash);
    FreshWriterServes(me.cache, Lookup(rows, KeyOf(r)), r, size, hash);
    if writer.Some? {
      ChecksAgree(r.observations, writer.value, r.now, size);
      if forall o <- r.observations :: WellFormed(o) {
        AllSound(r.observations, r.now, writer.value);
      }
    }
  }

  /** The guards of a lease in their order, none of which changes anything. */
  lemma LeaseGuards(me: Local, rows: map<string, string>, identity: string, r: Request, size: ClusterSize,
                    hash: string -> nat)
    ensures var (local, after, reply) := LeaseStep(me, rows, identity, r, size, hash);
      var clash := r.requested.Some? && r.granted.Some? && "" !in {r.requested.value, r.granted.value}
                   && r.requested.value != r.granted.value;
      var foreign := r.nodeIdentity.Some? && r.nodeIdentity.value !in {"", identity};
      && (reply == Forbidden <==> clash)
      && (reply == IdentityMismatch <==> !clash && foreign)
      && (reply == Unreadable <==> !clash && !foreign && !r.readable)
      && (clash || foreign || !r.readable ==> local == me && after == rows)
  {
    var holder := Lookup(rows, KeyOf(r));
    var routes := LeaseRoutes(me.cache, holder, r, size, hash);
    SettleSpeaks(me, rows, r, routes, LeaseVerdict(r, routes, holder, size));
  }

  lemma SettleSpeaks(me: Local, rows: map<string, string>, r: Request, routes: RouteTable, verdict: Verdict)
    ensures SettleLease(me, rows, r, routes, verdict).2 !in {Forbidden, IdentityMismatch, Unreadable}
  {
  }

  /** The application of a lease, and the routes it works with: cached ones for less than a second, otherwise new ones
      from the reachable nodes under quorum, with the assigned writer or else the cached one as the previous. */
  lemma LeaseRoutesExact(cache: map<string, Cached>, holder: Option<string>, r: Request, size: ClusterSize,
                         hash: string -> nat)
    ensures var key := if r.granted.Some? then r.granted.value else if r.requested.Some? then r.requested.value
      else "default";
      var previous := if holder.Some? then holder
        else if key in cache && cache[key].routes.primary != [] then Some(cache[key].routes.primary[0].host) else None;
      && KeyOf(r) == key
      && LeaseRoutes(cache, holder, r, size, hash)
         == (if key in cache && r.now - cache[key].calculatedAt < 1000 then cache[key].routes
             else CalculateRoutes(Some(key), Reachable(r, size), map[], previous, r.now, 3000, hash))
      && forall o :: o in Reachable(r, size) <==>
           && ViewOf(r.observations, r.now, size).quorum && o in r.observations
           && (r.resolved == None || o.nodeId in r.resolved.value)
  {
    Sorting.FilterMembers(r.observations, Resolving(r.resolved));
  }

  /** What a lease leaves behind: answered, the routes in the cache with their time unless they were cached already, and
      their writer in the table where another or none stood; refused or not written, cache and table as they were. */
  lemma LeaseLeaves(me: Local, rows: map<string, string>, identity: string, r: Request, size: ClusterSize,
                    hash: string -> nat)
    requires Admitted(identity, r)
    ensures var key := KeyOf(r);
      var routes := LeaseRoutes(me.cache, Lookup(rows, key), r, size, hash);
      var writes :=
        routes.primary != [] && routes.primary[0].host != "" && Lookup(rows, key) != Some(routes.primary[0].host);
      var (local, after, reply) := LeaseStep(me, rows, identity, r, size, hash);
      && after == (if writes && !reply.Refused? && !reply.NotPersisted? then rows[key := routes.primary[0].host]
                   else rows)
      && local.cache
        == (if reply.Refused? || reply.NotPersisted? || (key in me.cache && r.now - me.cache[key].calculatedAt < 1000)
                         then me.cache else me.cache[key := Cached(r.now, routes)])
      && (reply.Refused? ==> writes) && (reply.NotPersisted? <==> writes && !reply.Refused? && !r.persisted)
  {
    var holder := Lookup(rows, KeyOf(r));
    var routes := LeaseRoutes(me.cache, holder, r, size, hash);
    SettleLeaves(me, rows, r, routes, LeaseVerdict(r, routes, holder, size));
  }

  lemma SettleLeaves(me: Local, rows: map<string, string>, r: Request, routes: RouteTable, verdict: Verdict)
    requires !NeedsWrite(routes, Lookup(rows, KeyOf(r))) ==> verdict == Accepted
    ensures var key := KeyOf(r);
      var writes :=
        routes.primary != [] && routes.primary[0].host != "" && Lookup(rows, key) != Some(routes.primary[0].host);
      var (local, after, reply) := SettleLease(me, rows, r, routes, verdict);
      && after == (if writes && !reply.Refused? && !reply.NotPersisted? then rows[key := routes.primary[0].host]
                   else rows)
      && local.cache
        == (if reply.Refused? || reply.NotPersisted? || (key in me.cache && r.now - me.cache[key].calculatedAt < 1000)
                         then me.cache else me.cache[key := Cached(r.now, routes)])
      && (reply.Refused? ==> writes) && (reply.NotPersisted? <==> writes && !reply.Refused? && !r.persisted)
  {
  }

  /** The rebalance keeps a live cache entry: it is kept under the application the token grants, while another
      name, or none, was requested. */
  predicate Reuses(cache: map<string, Cached>, r: Request) {
    Live(cache, KeyOf(r), r.now) && r.granted.Some? && r.granted.value != r.requested.GetOr("default")
  }

  /** The previous writer a rebalance calculates from when it does calculate. */
  function RebalancePrevious(cache: map<string, Cached>, rows: map<string, string>, r: Request): Option<string> {
    PreviousHost(Lookup(rows, KeyOf(r)), cache - {r.requested.GetOr("default")}, KeyOf(r))
  }

  /** `rebalance` promises recalculated routes. What it answers with are the cached ones exactly when it reuses
      them, and otherwise newly calculated; with a name requested and one granted it never reuses. */
  lemma RebalanceExact(me: Local, rows: map<string, string>, identity: string, r: Request, size: ClusterSize,
                       hash: string -> nat)
    requires RebalanceStep(me, rows, identity, r, size, hash).2.Leased?
    ensures var reply := RebalanceStep(me, rows, identity, r, size, hash).2;
      && (Reuses(me.cache, r) ==> HandsOut(reply, me.cache[KeyOf(r)].routes, r.fallback))
      && (!Reuses(me.cache, r) ==>
           HandsOut(reply, CalculateRoutes(Some(KeyOf(r)), Reachable(r, size), map[],
                                           RebalancePrevious(me.cache, rows, r), r.now, MAX_AGE, hash),
                    r.fallback))
    ensures r.requested.GetOr("") != "" && r.granted.GetOr("") != "" ==> !Reuses(me.cache, r)
  {
    var kept := me.(cache := me.cache - {r.requested.GetOr("default")});
    var routes := LeaseRoutes(kept.cache, Lookup(rows, KeyOf(r)), r, size, hash);
    assert Live(kept.cache, KeyOf(r), r.now) <==> Reuses(me.cache, r);
    LeaseAnswers(kept, rows, identity, r, size, hash);
  }

  /** The reply carries the table with its version; without readers the routes of the metadata service, each list in its
      place and without a version. */
  predicate HandsOut(reply: Reply, routes: RouteTable, fallback: Fallback) {
    && reply.Leased?
    && (reply.version.Some? <==> routes.balanced != [])
    && (reply.version.Some? ==>
         reply.primary == routes.primary && reply.balanced == routes.balanced && reply.version == Some(routes.version))
    && (reply.version.None? ==> reply.primary == fallback.primary && reply.balanced == fallback.balanced)
  }

  /** A route that would be handed out leads to a host, or names a node, that is no routed name. */
  ghost predicate Unrouted(routes: RouteTable, fallback: Fallback) {
    var handed := if routes.balanced != [] then routes.primary + routes.balanced
      else fallback.primary + fallback.balanced;
    exists route <- handed :: !Names.IsRoutedName(route.host) || !Names.IsRoutedName(route.nodeId)
  }

  lemma SettleAnswers(me: Local, rows: map<string, string>, r: Request, routes: RouteTable, verdict: Verdict)
    ensures var reply := SettleLease(me, rows, r, routes, verdict).2;
      && (reply.Leased? ==> HandsOut(reply, routes, r.fallback))
      && (reply == NonFqdnRoutes ==> Unrouted(routes, r.fallback))
  {
  }

  /** A lease that is answered hands out the routes it works with, live cached or newly calculated, and else those of
      the metadata service. */
  lemma LeaseAnswers(me: Local, rows: map<string, string>, identity: string, r: Request, size: ClusterSize,
                     hash: string -> nat)
    ensures var reply := LeaseStep(me, rows, identity, r, size, hash).2;
      reply.Leased? ==>
        && !NotAuthorized(r) && !Unrouted(LeaseRoutes(me.cache, Lookup(rows, KeyOf(r)), r, size, hash), r.fallback)
        && HandsOut(reply, LeaseRoutes(me.cache, Lookup(rows, KeyOf(r)), r, size, hash), r.fallback)
  {
    var holder := Lookup(rows, KeyOf(r));
    var routes := LeaseRoutes(me.cache, holder, r, size, hash);
    SettleAnswers(me, rows, r, routes, LeaseVerdict(r, routes, holder, size));
  }

  // ----- what a lease hands out -----

  /** Route tables as they are calculated: readers come with a writer that has a host. */
  ghost predicate Headed(routes: RouteTable) {
    routes.balanced != [] ==> routes.primary != [] && routes.primary[0].host != ""
  }

  ghost predicate HeadedCache(cache: map<string, Cached>) {
    forall key :: key in cache ==> Headed(cache[key].routes)
  }

  lemma CalculatedHeaded(application: Option<string>, observations: seq<Observation>, weights: map<string, real>,
                         previous: Option<string>, now: int, maxAge: int, hash: string -> nat)
    ensures Headed(CalculateRoutes(application, observations, weights, previous, now, maxAge, hash))
  {
    WriterSticks(application, observations, weights, previous, now, maxAge, hash);
    var nodes := Nodes(observations, now, maxAge);
    if nodes != [] {
      Sorting.FilterMembers(observations, UsableAt(now, maxAge));
      WriterOf(application, observations, weights, previous, now, maxAge, hash);
      ElectedIsNode(hash(application.GetOr("")), nodes, previous);
    }
  }

  lemma LeaseRoutesHeaded(cache: map<string, Cached>, holder: Option<string>, r: Request, size: ClusterSize,
                          hash: string -> nat)
    requires HeadedCache(cache)
    ensures Headed(LeaseRoutes(cache, holder, r, size, hash))
  {
    CalculatedHeaded(Some(KeyOf(r)), Reachable(r, size), map[], PreviousHost(holder, cache, KeyOf(r)), r.now, MAX_AGE,
                     hash);
  }

  lemma SettledWriter(me: Local, rows: map<string, string>, r: Request, routes: RouteTable, verdict: Verdict)
    requires Headed(routes)
    ensures var (local, after, reply) := SettleLease(me, rows, r, routes, verdict);
      && (HeadedCache(me.cache) ==> HeadedCache(local.cache))
      && (reply.Leased? ==>
           && RoutedRoutes(reply.primary) && RoutedRoutes(reply.balanced)
           && (reply.version.None? <==> routes.balanced == [])
           && (reply.version.Some? ==>
                && reply.primary == routes.primary && reply.balanced == routes.balanced && reply.primary != []
                && Lookup(after, KeyOf(r)) == Some(reply.primary[0].host)
                && (r.persisted || after == rows)))
  {
  }

  /** The writer a lease hands out is the assigned one: calculated routes, new or cached, are answered only when their
      writer stands in the table; all names answered are routed names; and the cache keeps such tables only. */
  lemma LeasedWriterIsAssigned(me: Local, rows: map<string, string>, identity: string, r: Request, size: ClusterSize,
                               hash: string -> nat)
    requires HeadedCache(me.cache)
    ensures var (local, after, reply) := LeaseStep(me, rows, identity, r, size, hash);
      && HeadedCache(local.cache)
      && (reply.Leased? ==> RoutedRoutes(reply.primary) && RoutedRoutes(reply.balanced))
      && (reply.Leased? && reply.version.Some? ==>
          reply.primary != [] && Lookup(after, KeyOf(r)) == Some(reply.primary[0].host))
  {
    var holder := Lookup(rows, KeyOf(r));
    var routes := LeaseRoutes(me.cache, holder, r, size, hash);
    LeaseRoutesHeaded(me.cache, holder, r, size, hash);
    SettledWriter(me, rows, r, routes, LeaseVerdict(r, routes, holder, size));
  }

  /** A lease that calculates its routes falls back to those of the metadata service exactly without quorum or
      without a reachable usable node. */
  lemma FallbackExact(me: Local, rows: map<string, string>, identity: string, r: Request, size: ClusterSize,
                      hash: string -> nat)
    requires !Live(me.cache, KeyOf(r), r.now) && LeaseStep(me, rows, identity, r, size, hash).2.Leased?
    ensures var reply := LeaseStep(me, rows, identity, r, size, hash).2;
      && (reply.version.None? <==>
           || !ViewOf(r.observations, r.now, size).quorum
           || forall o <- r.observations :: Resolving(r.resolved)(o) ==> !Usable(o, r.now, MAX_AGE))
      && (reply.version.None? ==> reply.primary == r.fallback.primary && reply.balanced == r.fallback.balanced)
  {
    var holder := Lookup(rows, KeyOf(r));
    var routes := LeaseRoutes(me.cache, holder, r, size, hash);
    var kept := Reachable(r, size);
    Sorting.FilterMembers(r.observations, Resolving(r.resolved));
    Sorting.FilterMembers(kept, UsableAt(r.now, MAX_AGE));
    NoReadersExact(Some(KeyOf(r)), kept, PreviousHost(holder, me.cache, KeyOf(r)), r.now, hash);
    CalculatedHeaded(Some(KeyOf(r)), kept, map[], PreviousHost(holder, me.cache, KeyOf(r)), r.now, MAX_AGE, hash);
    SettledWriter(me, rows, r, routes, LeaseVerdict(r, routes, holder, size));
    SettleAnswers(me, rows, r, routes, LeaseVerdict(r, routes, holder, size));
  }

  lemma NoReadersExact(application: Option<string>, observations: seq<Observation>, previous: Option<string>,
                       now: int, hash: string -> nat)
    ensures CalculateRoutes(application, observations, map[], previous, now, MAX_AGE, hash).balanced == [] <==>
      forall o <- observations :: !Usable(o, now, MAX_AGE)
  {
    var nodes := Nodes(observations, now, MAX_AGE);
    Sorting.FilterMembers(observations, UsableAt(now, MAX_AGE));
    Sorting.SortElements(nodes, ByLoad);
    if nodes != [] {
      assert nodes[0] in nodes;
    }
  }
}
