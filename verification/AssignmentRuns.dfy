/** Runs of several supervisors over one assignment table: every assignment is justified, and when it churns. */
module AssignmentRuns {
  import opened Options
  import opened Observation
  import opened Routing
  import opened Assignment
  import Names
  import Quorum
  import Sorting

  datatype World = World(rows: map<string, string>, locals: map<string, Local>)

  datatype Step =
    | Leases(supervisor: string, request: Request)
    | Rebalances(supervisor: string, request: Request)
    | Ticks(supervisor: string, application: string, observations: seq<Observation>, now: int, persisted: bool)
    | Restarts(supervisor: string)

  function LocalOf(w: World, supervisor: string): Local {
    if supervisor in w.locals then w.locals[supervisor] else Local(map[], map[])
  }

  function Apply(w: World, step: Step, size: ClusterSize, hash: string -> nat): World {
    var me := LocalOf(w, step.supervisor);
    match step
    case Leases(s, r) =>
      var (local, rows, _) := LeaseStep(me, w.rows, s, r, size, hash);
      World(rows, w.locals[s := local])
    case Rebalances(s, r) =>
      var (local, rows, _) := RebalanceStep(me, w.rows, s, r, size, hash);
      World(rows, w.locals[s := local])
    case Ticks(s, application, observations, now, persisted) =>
      var routes := EventRoutes(me.copy, application, observations, now, size, hash);
      var (copy, rows) := EventAssign(me.copy, w.rows, application, routes, persisted);
      World(rows, w.locals[s := me.(copy := copy)])
    case Restarts(s) =>
      w.(locals := w.locals - {s})
  }

  function After(w: World, steps: seq<Step>, size: ClusterSize, hash: string -> nat): World {
    if steps == [] then w else Apply(After(w, steps[..|steps| - 1], size, hash), steps[|steps| - 1], size, hash)
  }

  /** What a tick leaves: under quorum with a writer that the copy does not name, that writer in the copy, and in the
      table when the query succeeds; otherwise nothing new. */
  lemma TickLeaves(copy: map<string, string>, rows: map<string, string>, application: string, routes: RouteTable,
                   persisted: bool)
    ensures var writes := routes.primary != [] && routes.primary[0].host != ""
        && !(application in copy && copy[application] == routes.primary[0].host);
      EventAssign(copy, rows, application, routes, persisted)
      == (if writes then copy[application := routes.primary[0].host] else copy,
          if writes && persisted then rows[application := routes.primary[0].host] else rows)
  {
  }

  // ----- every assignment is justified -----

  /** At this step the host was an accepted writer of the application: for the coordinator on the lease path,
      for the routes under quorum on the event path. */
  ghost predicate Justified(step: Step, application: string, host: string, size: ClusterSize) {
    match step
    case Leases(_, r) =>
      KeyOf(r) == application && CoordinatorVerdict(r.observations, host, r.writeNow, size) == Accepted
    case Rebalances(_, r) =>
      KeyOf(r) == application && CoordinatorVerdict(r.observations, host, r.writeNow, size) == Accepted
    case Ticks(_, a, observations, now, _) =>
      a == application && ViewOf(observations, now, size).quorum && Serves(observations, now, MAX_AGE, host)
    case Restarts(_) => false
  }

  /** The writer a lease may put in the table: the one it needs written, once the coordinator accepts it. */
  function AcceptedWriter(routes: RouteTable, holder: Option<string>, verdict: Verdict): Option<string> {
    if NeedsWrite(routes, holder) && verdict == Accepted then routes.Writer() else None
  }

  /** What a lease may change: the table and the copy, to an accepted writer of its own application; the copy also
      to what the table says; the cache, to the routes it worked with. */
  ghost predicate Effect(me: Local, rows: map<string, string>, key: string, routes: RouteTable,
                         writer: Option<string>, local: Local, after: map<string, string>) {
    && (forall a :: Lookup(after, a) == Lookup(rows, a) || (a == key && writer.Some? && Lookup(after, a) == writer))
    && (forall a :: Lookup(local.copy, a) == Lookup(me.copy, a) || (a == key && Lookup(local.copy, a) == Lookup(rows, a))
                    || (a == key && writer.Some? && Lookup(local.copy, a) == writer))
    && (forall a :: a in local.cache ==>
        (a in me.cache && local.cache[a] == me.cache[a]) || (a == key && local.cache[a].routes == routes))
  }

  lemma SettleEffect(me: Local, rows: map<string, string>, r: Request, routes: RouteTable, verdict: Verdict)
    ensures var (local, after, _) := SettleLease(me, rows, r, routes, verdict);
      Effect(me, rows, KeyOf(r), routes, AcceptedWriter(routes, Lookup(rows, KeyOf(r)), verdict), local, after)
  {
  }

  lemma NoEffect(me: Local, rows: map<string, string>, key: string, routes: RouteTable, writer: Option<string>)
    ensures Effect(me, rows, key, routes, writer, me, rows)
  {
  }

  lemma LeaseEffect(me: Local, rows: map<string, string>, identity: string, r: Request, size: ClusterSize,
                    hash: string -> nat)
    ensures var holder := Lookup(rows, KeyOf(r));
      var routes := LeaseRoutes(me.cache, holder, r, size, hash);
      var (local, after, _) := LeaseStep(me, rows, identity, r, size, hash);
      Effect(me, rows, KeyOf(r), routes, AcceptedWriter(routes, holder, LeaseVerdict(r, routes, holder, size)), local,
             after)
  {
    var holder := Lookup(rows, KeyOf(r));
    var routes := LeaseRoutes(me.cache, holder, r, size, hash);
    var verdict := LeaseVerdict(r, routes, holder, size);
    if Admitted(identity, r) {
      SettleEffect(me, rows, r, routes, verdict);
    } else {
      NoEffect(me, rows, KeyOf(r), routes, AcceptedWriter(routes, holder, verdict));
    }
  }

  /** A lease changes the assignment of an application only to a host the coordinator accepts for it then, and the
      copy besides to what the table said. */
  lemma LeaseAssigns(me: Local, rows: map<string, string>, identity: string, r: Request, size: ClusterSize,
                     hash: string -> nat,
                     application: string, host: string)
    ensures var (local, after, _) := LeaseStep(me, rows, identity, r, size, hash);
      var accepted := KeyOf(r) == application && CoordinatorVerdict(r.observations, host, r.writeNow, size) == Accepted;
      && (Lookup(after, application) == Some(host) && Lookup(rows, application) != Some(host) ==> accepted)
      && (Lookup(local.copy, application) == Some(host) && Lookup(me.copy, application) != Some(host) ==>
           accepted || Lookup(rows, application) == Some(host))
  {
    LeaseEffect(me, rows, identity, r, size, hash);
  }

  /** A tick changes the assignment of its application only to a host that serves then under quorum. */
  lemma TickAssignsServing(copy: map<string, string>, rows: map<string, string>, application: string,
                           observations: seq<Observation>,
                           now: int, size: ClusterSize, hash: string -> nat, persisted: bool, a: string, host: string)
    ensures var (after, table) :=
      EventAssign(copy, rows, application, EventRoutes(copy, application, observations, now, size, hash), persisted);
      var serving :=
        a == application && ViewOf(observations, now, size).quorum && Serves(observations, now, MAX_AGE, host);
      && (Lookup(table, a) == Some(host) && Lookup(rows, a) != Some(host) ==> serving)
      && (Lookup(after, a) == Some(host) && Lookup(copy, a) != Some(host) ==> serving)
  {
    WriterSticks(Some(application), if ViewOf(observations, now, size).quorum then observations else [], map[],
                 Lookup(copy, application), now, MAX_AGE, hash);
  }

  /** The step changes the table's writer of the application to the host. */
  ghost predicate Assigns(w: World, step: Step, size: ClusterSize, hash: string -> nat, application: string,
                          host: string) {
    Lookup(Apply(w, step, size, hash).rows, application) == Some(host) && Lookup(w.rows, application) != Some(host)
  }

  lemma StepAssigns(w: World, step: Step, size: ClusterSize, hash: string -> nat, application: string, host: string)
    requires Assigns(w, step, size, hash, application, host)
    ensures Justified(step, application, host, size)
  {
    var me := LocalOf(w, step.supervisor);
    match step
    case Leases(s, r) =>
      LeaseAssigns(me, w.rows, s, r, size, hash, application, host);
    case Rebalances(s, r) =>
      LeaseAssigns(Forgetful(me, r), w.rows, s, r, size, hash, application, host);
    case Ticks(s, a, observations, now, persisted) =>
      TickAssignsServing(me.copy, w.rows, a, observations, now, size, hash, persisted, application, host);
    case Restarts(s) =>
  }

  function Forgetful(me: Local, r: Request): Local {
    me.(cache := me.cache - {r.requested.GetOr("default")})
  }

  /** A supervisor's copy changes only to a host that is acceptable at that step or that the table holds. */
  lemma StepCopies(w: World, step: Step, size: ClusterSize, hash: string -> nat, application: string, host: string,
                   supervisor: string)
    requires Lookup(LocalOf(Apply(w, step, size, hash), supervisor).copy, application) == Some(host)
    requires Lookup(LocalOf(w, supervisor).copy, application) != Some(host)
    ensures Justified(step, application, host, size) || Lookup(w.rows, application) == Some(host)
  {
    var me := LocalOf(w, step.supervisor);
    match step
    case Leases(s, r) =>
      LeaseAssigns(me, w.rows, s, r, size, hash, application, host);
    case Rebalances(s, r) =>
      LeaseAssigns(Forgetful(me, r), w.rows, s, r, size, hash, application, host);
    case Ticks(s, a, observations, now, persisted) =>
      TickAssignsServing(me.copy, w.rows, a, observations, now, size, hash, persisted, application, host);
    case Restarts(s) =>
  }

  ghost predicate AssignsAt(w: World, steps: seq<Step>, k: nat, size: ClusterSize, hash: string -> nat,
                            application: string, host: string)
    requires k < |steps|
  {
    Assigns(After(w, steps[..k], size, hash), steps[k], size, hash, application, host)
  }

  lemma AssignsPrefix(w: World, steps: seq<Step>, n: nat, k: nat, size: ClusterSize, hash: string -> nat,
                      application: string, host: string)
    requires k < n <= |steps| && AssignsAt(w, steps[..n], k, size, hash, application, host)
    ensures AssignsAt(w, steps, k, size, hash, application, host)
  {
    assert steps[..n][..k] == steps[..k];
  }

  lemma LastAssigns(w: World, steps: seq<Step>, n: nat, size: ClusterSize, hash: string -> nat, application: string,
                    host: string)
    requires |steps| == n + 1 && Lookup(After(w, steps, size, hash).rows, application) == Some(host)
    requires Lookup(After(w, steps[..n], size, hash).rows, application) != Some(host)
    ensures AssignsAt(w, steps, n, size, hash, application, host) && Justified(steps[n], application, host, size)
  {
    StepAssigns(After(w, steps[..n], size, hash), steps[n], size, hash, application, host);
  }

  /** Who wrote the table: over any run, with restarts and failed writes, the writer of an application is the
      initial one or was assigned by a step of the run that justified it. */
  lemma {:induction false} RunProvenance(w: World, steps: seq<Step>, size: ClusterSize, hash: string -> nat,
                                         application: string, host: string)
    requires Lookup(After(w, steps, size, hash).rows, application) == Some(host)
    ensures Lookup(w.rows, application) == Some(host) ||
      exists k :: 0 <= k < |steps| && AssignsAt(w, steps, k, size, hash, application, host) && Justified(steps[k], application, host, size)
  {
    if steps != [] {
      var n := |steps| - 1;
      var before := After(w, steps[..n], size, hash);
      if Lookup(before.rows, application) == Some(host) {
        RunProvenance(w, steps[..n], size, hash, application, host);
        if Lookup(w.rows, application) != Some(host) {
          var k :| 0 <= k < n && AssignsAt(w, steps[..n], k, size, hash, application, host)
                   && Justified(steps[..n][k], application, host, size);
          AssignsPrefix(w, steps, n, k, size, hash, application, host);
        }
      } else {
        LastAssigns(w, steps, n, size, hash, application, host);
      }
    }
  }

  /** The observations of a step and the clock it judged writers by. */
  function Seen(step: Step): (seq<Observation>, int) {
    match step
    case Leases(_, r) => (r.observations, r.writeNow)
    case Rebalances(_, r) => (r.observations, r.writeNow)
    case Ticks(_, _, observations, now, _) => (observations, now)
    case Restarts(_) => ([], 0)
  }

  ghost predicate Sound(observations: seq<Observation>) {
    DistinctIds(observations) && forall o <- observations :: WellFormed(o) && o.observedAt.At?
  }

  /** Assignment safety: whatever the run and the supervisors, a step that changes the assigned writer of an
      application changes it to a host that is acceptable at that step; on well-formed observations, to one that
      the coordinator accepts under quorum at that moment, on the event path too. */
  lemma AssignmentsSafe(w: World, steps: seq<Step>, k: nat, size: ClusterSize, hash: string -> nat,
                        application: string, host: string)
    requires k < |steps|
    requires Lookup(After(w, steps[..k + 1], size, hash).rows, application) == Some(host)
    requires Lookup(After(w, steps[..k], size, hash).rows, application) != Some(host)
    ensures Justified(steps[k], application, host, size)
    ensures Sound(Seen(steps[k]).0) ==> CoordinatorVerdict(Seen(steps[k]).0, host, Seen(steps[k]).1, size) == Accepted
  {
    assert steps[..k + 1][..k] == steps[..k];
    StepAssigns(After(w, steps[..k], size, hash), steps[k], size, hash, application, host);
    if Sound(Seen(steps[k]).0) {
      SoundJustification(steps[k], application, host, size);
    }
  }

  lemma SoundJustification(step: Step, application: string, host: string, size: ClusterSize)
    requires Justified(step, application, host, size) && Sound(Seen(step).0)
    ensures CoordinatorVerdict(Seen(step).0, host, Seen(step).1, size) == Accepted
  {
    if step.Ticks? {
      AllSound(step.observations, step.now, host);
      ChecksAgree(step.observations, host, step.now, size);
    }
  }

  // ----- when the writer churns -----

  /** A tick keeps a persisted writer that serves exactly when its supervisor's copy names a serving writer, or
      the election by name alone happens to pick the persisted one. */
  lemma TickKeepsExact(copy: map<string, string>, rows: map<string, string>, application: string,
                       observations: seq<Observation>,
                       now: int, size: ClusterSize, hash: string -> nat)
    requires ViewOf(observations, now, size).quorum && DistinctIds(observations)
    requires application in rows && Serves(observations, now, MAX_AGE, rows[application])
    ensures var routes := EventRoutes(copy, application, observations, now, size, hash);
      var elected := CalculateRoutes(Some(application), observations, map[], None, now, MAX_AGE, hash).Writer();
      EventAssign(copy, rows, application, routes, true).1[application] == rows[application] <==>
        || (application in copy && Serves(observations, now, MAX_AGE, copy[application]))
        || elected == Some(rows[application])
  {
    var previous := Lookup(copy, application);
    WriterSticks(Some(application), observations, map[], previous, now, MAX_AGE, hash);
    WriterSticks(Some(application), observations, map[], None, now, MAX_AGE, hash);
    if previous.Some? && !Serves(observations, now, MAX_AGE, previous.value) {
      LostPrevious(Some(application), observations, previous, now, hash);
    }
  }

  /** A previous writer that no longer serves is as good as none. */
  lemma LostPrevious(application: Option<string>, observations: seq<Observation>, previous: Option<string>, now: int,
                     hash: string -> nat)
    requires previous.Some? && !Serves(observations, now, MAX_AGE, previous.value)
    ensures CalculateRoutes(application, observations, map[], previous, now, MAX_AGE, hash)
         == CalculateRoutes(application, observations, map[], None, now, MAX_AGE, hash)
  {
    var nodes := Nodes(observations, now, MAX_AGE);
    Sorting.FilterMembers(observations, UsableAt(now, MAX_AGE));
    if nodes != [] {
      ElectedByName(hash(application.GetOr("")), nodes, previous);
      ElectedByName(hash(application.GetOr("")), nodes, None);
    }
  }

  /** All supervisors hold the persisted writer, and no cached routes name another. */
  ghost predicate Aligned(w: World, application: string, host: string) {
    && host != "" && Lookup(w.rows, application) == Some(host)
    && forall s :: s in w.locals ==> LocalAligned(w.locals[s], application, host)
  }

  ghost predicate LocalAligned(local: Local, application: string, host: string) {
    && Lookup(local.copy, application) == Some(host)
    && CacheAligned(local.cache, application, host)
  }

  ghost predicate CacheAligned(cache: map<string, Cached>, application: string, host: string) {
    application in cache ==>
      cache[application].routes.Writer().None? || cache[application].routes.Writer() == Some(host)
  }

  /** The host serves in what this step calculates from, if the step is about the application and has quorum;
      a tick comes from a supervisor that already holds a copy. */
  ghost predicate StillServes(w: World, step: Step, application: string, host: string, size: ClusterSize) {
    match step
    case Leases(s, r) => s in w.locals && (KeyOf(r) == application && ViewOf(r.observations, r.now, size).quorum ==>
                                           Serves(Reachable(r, size), r.now, MAX_AGE, host))
    case Rebalances(s, r) => s in w.locals && (KeyOf(r) == application && ViewOf(r.observations, r.now, size).quorum ==>
                                               Serves(Reachable(r, size), r.now, MAX_AGE, host))
    case Ticks(s, a, observations, now, _) =>
      && s in w.locals
      && (a == application && ViewOf(observations, now, size).quorum ==> Serves(observations, now, MAX_AGE, host))
    case Restarts(_) => false
  }

  /** The routes a lease works with name no other writer. */
  lemma LeaseRoutesAligned(cache: map<string, Cached>, r: Request, size: ClusterSize, hash: string -> nat, host: string)
    requires CacheAligned(cache, KeyOf(r), host)
    requires ViewOf(r.observations, r.now, size).quorum ==> Serves(Reachable(r, size), r.now, MAX_AGE, host)
    ensures var writer := LeaseRoutes(cache, Some(host), r, size, hash).Writer(); writer.None? || writer == Some(host)
  {
    if !Live(cache, KeyOf(r), r.now) {
      WriterSticks(Some(KeyOf(r)), Reachable(r, size), map[], Some(host), r.now, MAX_AGE, hash);
      if !ViewOf(r.observations, r.now, size).quorum {
        assert Reachable(r, size) == [];
      }
    }
  }

  lemma EffectKeepsAligned(me: Local, rows: map<string, string>, key: string, routes: RouteTable,
                           writer: Option<string>, local: Local, after: map<string, string>,
                           application: string, host: string)
    requires Effect(me, rows, key, routes, writer, local, after)
    requires Lookup(rows, application) == Some(host) && LocalAligned(me, application, host)
    requires key == application ==>
      (writer.None? || writer == Some(host)) && (routes.Writer().None? || routes.Writer() == Some(host))
    ensures Lookup(after, application) == Some(host) && LocalAligned(local, application, host)
  {
  }

  lemma LeaseKeepsAligned(me: Local, rows: map<string, string>, identity: string, r: Request, size: ClusterSize,
                          hash: string -> nat,
                          application: string, host: string)
    requires Lookup(rows, application) == Some(host) && LocalAligned(me, application, host)
    requires KeyOf(r) == application && ViewOf(r.observations, r.now, size).quorum ==>
      Serves(Reachable(r, size), r.now, MAX_AGE, host)
    ensures var (local, after, _) := LeaseStep(me, rows, identity, r, size, hash);
      Lookup(after, application) == Some(host) && LocalAligned(local, application, host)
  {
    var holder := Lookup(rows, KeyOf(r));
    var routes := LeaseRoutes(me.cache, holder, r, size, hash);
    var writer := AcceptedWriter(routes, holder, LeaseVerdict(r, routes, holder, size));
    var (local, after, _) := LeaseStep(me, rows, identity, r, size, hash);
    LeaseEffect(me, rows, identity, r, size, hash);
    if KeyOf(r) == application {
      LeaseRoutesAligned(me.cache, r, size, hash, host);
    }
    EffectKeepsAligned(me, rows, KeyOf(r), routes, writer, local, after, application, host);
  }

  lemma TickKeepsAligned(me: Local, rows: map<string, string>, a: string, observations: seq<Observation>, now: int,
                         persisted: bool,
                         size: ClusterSize, hash: string -> nat, application: string, host: string)
    requires Lookup(rows, application) == Some(host) && LocalAligned(me, application, host)
    requires a == application && ViewOf(observations, now, size).quorum ==> Serves(observations, now, MAX_AGE, host)
    ensures var (copy, after) :=
      EventAssign(me.copy, rows, a, EventRoutes(me.copy, a, observations, now, size, hash), persisted);
      Lookup(after, application) == Some(host) && LocalAligned(me.(copy := copy), application, host)
  {
    if a == application {
      var seen := if ViewOf(observations, now, size).quorum then observations else [];
      WriterSticks(Some(a), seen, map[], Some(host), now, MAX_AGE, hash);
    }
  }

  lemma StepKeepsAligned(w: World, step: Step, size: ClusterSize, hash: string -> nat, application: string,
                         host: string)
    requires Aligned(w, application, host) && StillServes(w, step, application, host, size)
    ensures Aligned(Apply(w, step, size, hash), application, host)
    ensures Apply(w, step, size, hash).locals.Keys == w.locals.Keys
  {
    var me := LocalOf(w, step.supervisor);
    match step
    case Leases(s, r) =>
      LeaseKeepsAligned(me, w.rows, s, r, size, hash, application, host);
    case Rebalances(s, r) =>
      LeaseKeepsAligned(me.(cache := me.cache - {r.requested.GetOr("default")}), w.rows, s, r, size, hash, application,
                        host);
    case Ticks(s, a, observations, now, persisted) =>
      TickKeepsAligned(me, w.rows, a, observations, now, persisted, size, hash, application, host);
    case Restarts(_) =>
  }

  /** No churn: once all supervisors hold the persisted writer, no run of leases, rebalances and ticks moves it while
      it serves, whatever happens to loads, order, quorum and the other applications. */
  lemma {:induction false} NoChurn(w: World, steps: seq<Step>, size: ClusterSize, hash: string -> nat,
                                   application: string, host: string)
    requires Aligned(w, application, host)
    requires forall k :: 0 <= k < |steps| ==> StillServes(w, steps[k], application, host, size)
    ensures Aligned(After(w, steps, size, hash), application, host)
    ensures After(w, steps, size, hash).locals.Keys == w.locals.Keys
  {
    if steps != [] {
      var n := |steps| - 1;
      forall k | 0 <= k < n ensures StillServes(w, steps[..n][k], application, host, size) {
        assert StillServes(w, steps[k], application, host, size);
      }
      NoChurn(w, steps[..n], size, hash, application, host);
      assert StillServes(w, steps[n], application, host, size);
      StepKeepsAligned(After(w, steps[..n], size, hash), steps[n], size, hash, application, host);
    }
  }

  /** A lease keeps a persisted writer that serves exactly when no live cache entry names another writer that the
      coordinator accepts: for a second, an older route table outranks the table of assignments. */
  lemma LeaseKeepsExact(me: Local, rows: map<string, string>, identity: string, r: Request, size: ClusterSize,
                        hash: string -> nat)
    requires Admitted(identity, r) && r.persisted && KeyOf(r) in rows && rows[KeyOf(r)] != ""
    requires ViewOf(r.observations, r.now, size).quorum && Serves(Reachable(r, size), r.now, MAX_AGE, rows[KeyOf(r)])
    ensures var key := KeyOf(r);
      LeaseStep(me, rows, identity, r, size, hash).1[key] == rows[key] <==>
        !(&& Live(me.cache, key, r.now) && NeedsWrite(me.cache[key].routes, Some(rows[key]))
          && CoordinatorVerdict(r.observations, me.cache[key].routes.Writer().value, r.writeNow, size) == Accepted)
  {
    var key := KeyOf(r);
    if !Live(me.cache, key, r.now) {
      WriterSticks(Some(key), Reachable(r, size), map[], Some(rows[key]), r.now, MAX_AGE, hash);
    }
  }
}
