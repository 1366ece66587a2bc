/** Versions and publications over whole runs. */
module EventRuns {
  import opened Options
  import opened Observation
  import opened Assignment
  import opened Routing
  import opened Events
  import Names
  import Quorum
  import Sorting

  function After(s: State, trace: seq<Calculated>): State {
    if trace == [] then s else EventStep(After(s, trace[..|trace| - 1]), trace[|trace| - 1]).0
  }

  // ----- versions count changes -----

  /** The fingerprint of the application differs between two states. */
  predicate Turned(s: State, t: State, application: string) {
    && application in t.fingerprints
    && (application !in s.fingerprints || s.fingerprints[application] != t.fingerprints[application])
  }

  /** How often a run changed the fingerprint of the application. */
  function Turns(s: State, trace: seq<Calculated>, application: string): nat {
    if trace == [] then 0
    else
      var front := trace[..|trace| - 1];
      Turns(s, front, application) + if Turned(After(s, front), After(s, trace), application) then 1 else 0
  }

  /** One call raises the version by one if it changes the fingerprint, and touches no other application. */
  lemma VersionStep(s: State, c: Calculated, application: string)
    ensures var t := EventStep(s, c).0;
      Issued(t, application) == Issued(s, application) + if Turned(s, t, application) then 1 else 0
    ensures Turned(s, EventStep(s, c).0, application) <==> application == c.application && Changed(s, c)
  {
  }

  /** The version of an application counts the changes of its fingerprint, over any run. */
  lemma {:induction false} VersionCountsTurns(s: State, trace: seq<Calculated>, application: string)
    ensures Issued(After(s, trace), application) == Issued(s, application) + Turns(s, trace, application)
  {
    if trace != [] {
      var n := |trace| - 1;
      VersionCountsTurns(s, trace[..n], application);
      VersionStep(After(s, trace[..n]), trace[n], application);
    }
  }

  /** As long as the version file can be written, the event of an application carries its current version. */
  ghost predicate EventsCurrent(s: State) {
    && s.events.Keys == s.fingerprints.Keys
    && forall a :: a in s.events ==> s.events[a].version == Issued(s, a)
  }

  lemma {:induction false} WrittenEventsCurrent(s: State, trace: seq<Calculated>)
    requires EventsCurrent(s) && forall c <- trace :: c.written
    ensures EventsCurrent(After(s, trace))
  {
    if trace != [] {
      var n := |trace| - 1;
      assert trace[n] in trace && forall c <- trace[..n] :: c in trace;
      WrittenEventsCurrent(s, trace[..n]);
    }
  }

  function SeenBy(o: Observation, identity: string, drained: bool): Observation {
    o.(drain := if o.nodeId != identity then o.drain else drained)
  }

  /** The topology entry says of the node what was observed of it. */
  predicate Tells(n: TopologyNode, o: Observation) {
    && n.nodeId == o.nodeId && n.draining == o.drain && n.ready == (o.health == "ok")
    && n.address == (if o.address.Some? then o.address.value else "")
    && n.sqlPort == (if o.sqlPort.Some? then o.sqlPort.value else 3306)
  }

  /** The observations with the local node's own drain state. */
  function SeenIn(i: Input, identity: string): (seen: seq<Observation>)
    ensures |seen| == |i.observations|
  {
    seq(|i.observations|, k requires 0 <= k < |i.observations| => SeenBy(i.observations[k], identity, i.drained))
  }

  lemma SeenInExact(i: Input, identity: string)
    ensures Sorting.Map(i.observations, Overlaid(identity, i.drained)) == SeenIn(i, identity)
  {
  }

  lemma TopologyExact(seen: seq<Observation>)
    ensures var nodes := Sorting.Map(seen, TopologyOf);
      |nodes| == |seen| && forall k :: 0 <= k < |seen| ==> Tells(nodes[k], seen[k])
  {
  }

  /** What a call calculates from those, and what it puts into the event for each of them. */
  lemma CalculateExact(copy: map<string, string>, identity: string, size: ClusterSize, application: string, i: Input,
                       hash: string -> nat)
    ensures var c, seen := Calculate(copy, identity, size, application, i, hash), SeenIn(i, identity);
      && c.application == application && c.now == i.now && c.written == i.written
      && c.quorate == ViewOf(seen, i.now, size).quorum
      && c.routes == CalculateRoutes(Some(application), if c.quorate then seen else [], map[],
                                     if application in copy then Some(copy[application]) else None, i.now, 3000, hash)
      && (forall n :: n in c.drained <==> exists o :: o in seen && o.drain && o.nodeId == n)
      && |c.nodes| == |seen| && forall k :: 0 <= k < |seen| ==> Tells(c.nodes[k], seen[k])
  {
    SeenInExact(i, identity);
    TopologyExact(SeenIn(i, identity));
    DrainStateExact(SeenIn(i, identity));
  }

  /** A call throws, and changes nothing, exactly when some observation lacks a routed name or address. */
  lemma SnapshotRefuses(s: State, copy: map<string, string>, rows: map<string, string>, identity: string,
                        size: ClusterSize, application: string, i: Input, hash: string -> nat)
    ensures var (t, copy', rows', reply) := SnapshotStep(s, copy, rows, identity, size, application, i, hash);
      && (reply == InvalidObservation <==>
           exists o <- i.observations ::
             !(Names.IsRoutedName(o.nodeId) && o.address.Some? && Names.IsRoutedName(o.address.value)))
      && (reply == InvalidObservation ==> t == s && copy' == copy && rows' == rows)
  {
    SnapshotOnSpeaks(s, copy, rows, Calculate(copy, identity, size, application, i, hash), i.persisted);
  }

  lemma SnapshotOnSpeaks(s: State, copy: map<string, string>, rows: map<string, string>, c: Calculated, persisted: bool)
    ensures SnapshotOn(s, copy, rows, c, persisted).3 != InvalidObservation
  {
  }

  // ----- which event callers get -----

  function EventOf(s: State, application: string): Option<Event> {
    if application in s.events then Some(s.events[application]) else None
  }

  ghost predicate Current(s: State, application: string) {
    application in s.events && s.events[application].version == Issued(s, application)
  }

  /** Call `k` changes the fingerprint of the application. */
  ghost predicate TurnsAt(s: State, trace: seq<Calculated>, k: nat, application: string)
    requires k < |trace|
  {
    Turned(After(s, trace[..k]), After(s, trace[..k + 1]), application)
  }

  /** The event made by the last change that was written, or the one from before the run. */
  ghost function LastWrittenEvent(s: State, trace: seq<Calculated>, application: string): Option<Event> {
    if trace == [] then EventOf(s, application)
    else
      var n := |trace| - 1;
      if TurnsAt(s, trace, n, application) && trace[n].written
      then Some(Event(Issued(s, application) + Turns(s, trace, application), trace[n].now, trace[n].quorate,
                      trace[n].nodes))
      else LastWrittenEvent(s, trace[..n], application)
  }

  /** The last change of the fingerprint was written; without any, the event was current before the run. */
  ghost predicate LastChangeWritten(s: State, trace: seq<Calculated>, application: string) {
    if trace == [] then Current(s, application)
    else
      var n := |trace| - 1;
      if TurnsAt(s, trace, n, application) then trace[n].written else LastChangeWritten(s, trace[..n], application)
  }

  lemma EventStepExact(s: State, c: Calculated, application: string)
    ensures var t := EventStep(s, c).0;
      EventOf(t, application)
      == if Turned(s, t, application) && c.written then Some(Event(Issued(t, application), c.now, c.quorate, c.nodes))
         else EventOf(s, application)
  {
  }

  /** Over any run callers get the event of the last change that was written, numbered by all changes before it; it is
      current exactly when the last change of the fingerprint was written. */
  lemma {:induction false} EventIsLastWritten(s: State, trace: seq<Calculated>, application: string)
    requires application in s.events ==> s.events[application].version <= Issued(s, application)
    ensures var t := After(s, trace);
      && EventOf(t, application) == LastWrittenEvent(s, trace, application)
      && (application in t.events ==> t.events[application].version <= Issued(t, application))
      && (Current(t, application) <==> LastChangeWritten(s, trace, application))
  {
    if trace != [] {
      var n := |trace| - 1;
      assert trace[..n + 1] == trace;
      EventIsLastWritten(s, trace[..n], application);
      EventStepExact(After(s, trace[..n]), trace[n], application);
      VersionStep(After(s, trace[..n]), trace[n], application);
      VersionCountsTurns(s, trace, application);
    }
  }

  /** The version rises exactly on the first call for an application and when its selected routes or its draining
      nodes differ from those of the call before. */
  lemma VersionRisesExactly(s: State, c: Calculated)
    requires c.application in s.fingerprints ==> s.fingerprints[c.application].application == c.application
    ensures Issued(EventStep(s, c).0, c.application) == Issued(s, c.application) + 1 <==>
      || c.application !in s.fingerprints
      || s.fingerprints[c.application].routes != Selected(s, c)
      || s.fingerprints[c.application].drained != c.drained
  {
  }

  lemma OverlayDistinct(observations: seq<Observation>, identity: string, drained: bool)
    requires DistinctIds(observations)
    ensures DistinctIds(Sorting.Map(observations, Overlaid(identity, drained)))
  {
  }

  /** The drain state is the sorted list of exactly the draining nodes. */
  lemma DrainStateExact(observations: seq<Observation>)
    ensures Sorting.SortedBy(DrainState(observations), Names.Leq)
    ensures forall n :: n in DrainState(observations) <==> exists o :: o in observations && o.drain && o.nodeId == n
  {
    var draining := Sorting.Filter(observations, Draining);
    var names := Sorting.Map(draining, NodeName);
    Names.LeqIsOrder();
    Sorting.SortSorted(names, Names.Leq);
    Sorting.SortElements(names, Names.Leq);
    Sorting.FilterMembers(observations, Draining);
    forall n ensures n in names <==> exists o :: o in observations && o.drain && o.nodeId == n {
      if o :| o in observations && o.drain && o.nodeId == n {
        assert o in draining;
        var i :| 0 <= i < |draining| && draining[i] == o;
        assert names[i] == n;
      }
      if n in names {
        var i :| 0 <= i < |names| && names[i] == n;
        assert draining[i] in draining;
      }
    }
  }

  lemma DrainStateForgetsOrder(a: seq<Observation>, b: seq<Observation>)
    requires multiset(a) == multiset(b)
    ensures DrainState(a) == DrainState(b)
  {
    Sorting.FilterForgetsOrder(a, b, Draining);
    var left, right := Sorting.Filter(a, Draining), Sorting.Filter(b, Draining);
    Sorting.MapForgetsOrder(left, right, NodeName);
    Names.LeqIsOrder();
    Sorting.SortForgetsOrder(Sorting.Map(left, NodeName), Sorting.Map(right, NodeName), Names.Leq);
  }

  /** The order in which a store hands out its observations reaches neither routes, drain state nor quorum, so it
      never raises a version. */
  lemma CalculationForgetsOrder(copy: map<string, string>, identity: string, size: ClusterSize, application: string,
                                i: Input,
                                observations: seq<Observation>, hash: string -> nat)
    requires DistinctIds(i.observations) && DistinctIds(observations)
    requires multiset(i.observations) == multiset(observations)
    ensures var c := Calculate(copy, identity, size, application, i, hash);
      var d := Calculate(copy, identity, size, application, i.(observations := observations), hash);
      d.(nodes := c.nodes) == c
  {
    var f := Overlaid(identity, i.drained);
    var a, b := Sorting.Map(i.observations, f), Sorting.Map(observations, f);
    Sorting.MapForgetsOrder(i.observations, observations, f);
    OverlayDistinct(i.observations, identity, i.drained);
    OverlayDistinct(observations, identity, i.drained);
    DrainStateForgetsOrder(a, b);
    EventRoutesForgetOrder(copy, application, a, b, i.now, size, hash);
  }

  lemma EventRoutesForgetOrder(copy: map<string, string>, application: string, a: seq<Observation>,
                               b: seq<Observation>, now: int,
                               size: ClusterSize, hash: string -> nat)
    requires DistinctIds(a) && DistinctIds(b) && multiset(a) == multiset(b)
    ensures ViewOf(a, now, size).quorum == ViewOf(b, now, size).quorum
    ensures EventRoutes(copy, application, a, now, size, hash) == EventRoutes(copy, application, b, now, size, hash)
  {
    Sorting.SameElements(a, b);
    var expected := match size case Unconfigured => Some(|a|) case NotAnInteger => None case Size(n) => Some(n);
    Quorum.QuorumForgetsOrder(a, b, now, MAX_AGE, expected, now);
    RoutesForgetOrder(Some(application), a, b, map[], Lookup(copy, application), now, MAX_AGE, hash);
  }

  // ----- the hold-down -----

  lemma {:induction false} HealthyStays(s: State, c: Calculated, outage: seq<Calculated>)
    requires c.routes.balanced != []
    requires forall o <- outage :: o.application == c.application ==> o.routes.balanced == []
    ensures var t := After(s, [c] + outage);
      c.application in t.lastHealthy && t.lastHealthy[c.application] == Healthy(c.routes, c.now)
  {
    if outage == [] {
      assert ([c] + outage)[..0] == [] && [c] + outage == [c];
      assert After(s, []) == s;
    } else {
      var n := |outage| - 1;
      assert ([c] + outage)[..n + 1] == [c] + outage[..n];
      assert outage[n] in outage && forall o <- outage[..n] :: o in outage;
      HealthyStays(s, c, outage[..n]);
    }
  }

  /** An outage keeps the last healthy routes in the fingerprint for less than five seconds, counted from
      those routes, and drops them from then on. */
  lemma OutageExact(s: State, c: Calculated, outage: seq<Calculated>, last: Calculated)
    requires c.routes.balanced != [] && last.application == c.application && last.routes.balanced == []
    requires forall o <- outage :: o.application == c.application ==> o.routes.balanced == []
    ensures var t := After(s, [c] + outage + [last]);
      && c.application in t.fingerprints
      && t.fingerprints[c.application].routes == if last.now - c.now < 5000 then c.routes else last.routes
  {
    HealthyStays(s, c, outage);
    assert ([c] + outage + [last])[..|outage| + 1] == [c] + outage;
  }

  // ----- publications -----

  /** Per application, versions on the bus rise strictly and end at the remembered one. */
  ghost predicate Logged(versions: map<string, nat>, bus: seq<(string, nat)>) {
    && (forall i :: 0 <= i < |bus| ==> bus[i].0 in versions && bus[i].1 <= versions[bus[i].0])
    && (forall i, j :: 0 <= i < j < |bus| && bus[i].0 == bus[j].0 ==> bus[i].1 < bus[j].1)
    && (forall a :: a in versions ==> (a, versions[a]) in bus)
  }

  /** No event is newer than its counter, and no remembered version newer than its event. */
  ghost predicate BusOk(p: Published) {
    && (forall a :: a in p.state.events ==> p.state.events[a].version <= Issued(p.state, a))
    && (forall a :: a in p.versions ==> a in p.state.events && p.versions[a] <= p.state.events[a].version)
    && Logged(p.versions, p.bus)
  }

  lemma LogNews(versions: map<string, nat>, bus: seq<(string, nat)>, application: string, version: nat)
    requires Logged(versions, bus) && (application in versions ==> versions[application] < version)
    ensures Logged(versions[application := version], bus + [(application, version)])
  {
    var longer := bus + [(application, version)];
    assert longer[|bus|] == (application, version);
    forall a | a in versions && a != application ensures (a, versions[a]) in longer {
      assert (a, versions[a]) in bus;
    }
  }

  /** Events only get newer, and an answer is the newest event of its application. */
  ghost predicate Ages(s: State, t: State, application: string, reply: Events.Reply) {
    && (forall a :: a in t.events ==> t.events[a].version <= Issued(t, a))
    && (forall a :: a in s.events ==> a in t.events && s.events[a].version <= t.events[a].version)
    && (reply.Current? && reply.event.Some? ==> application in t.events && t.events[application] == reply.event.value)
  }

  lemma SnapshotOnAges(s: State, copy: map<string, string>, rows: map<string, string>, c: Calculated, persisted: bool)
    requires forall a :: a in s.events ==> s.events[a].version <= Issued(s, a)
    ensures var (t, _, _, reply) := SnapshotOn(s, copy, rows, c, persisted); Ages(s, t, c.application, reply)
  {
  }

  lemma SnapshotAges(s: State, copy: map<string, string>, rows: map<string, string>, identity: string,
                     size: ClusterSize,
                     application: string, i: Input, hash: string -> nat)
    requires forall a :: a in s.events ==> s.events[a].version <= Issued(s, a)
    ensures var (t, _, _, reply) := SnapshotStep(s, copy, rows, identity, size, application, i, hash);
      Ages(s, t, application, reply)
  {
    SnapshotOnAges(s, copy, rows, Calculate(copy, identity, size, application, i, hash), i.persisted);
  }

  lemma DeliverKeepsBus(p: Published, asked: Published, publishes: bool, application: string, reply: Events.Reply)
    requires BusOk(p) && asked.versions == p.versions && asked.bus == p.bus
    requires Ages(p.state, asked.state, application, reply)
    ensures BusOk(Deliver(asked, publishes, application, reply))
  {
    if publishes && IsNews(p.versions, application, reply) {
      LogNews(p.versions, p.bus, application, reply.event.value.version);
    }
  }

  lemma ApplyKeepsBus(p: Published, identity: string, size: ClusterSize, call: Call, hash: string -> nat)
    requires BusOk(p)
    ensures BusOk(Apply(p, identity, size, call, hash).0)
  {
    SnapshotAges(p.state, p.copy, p.rows, identity, size, call.application, call.input, hash);
    var (state, copy, rows, reply) :=
      SnapshotStep(p.state, p.copy, p.rows, identity, size, call.application, call.input, hash);
    DeliverKeepsBus(p, p.(state := state, copy := copy, rows := rows), call.Publish?, call.application, reply);
  }

  /** What a publication was answered is on the bus, then or from before. */
  lemma AnswerIsOnBus(p: Published, identity: string, size: ClusterSize, application: string, i: Input,
                      hash: string -> nat)
    requires BusOk(p)
    ensures var (after, reply) := Apply(p, identity, size, Publish(application, i), hash);
      && p.bus <= after.bus
      && (reply.Current? && reply.event.Some? ==> (application, reply.event.value.version) in after.bus)
  {
    var (after, reply) := Apply(p, identity, size, Publish(application, i), hash);
    if IsNews(p.versions, application, reply) {
      assert after.bus[|p.bus|] == (application, reply.event.value.version);
    }
  }

  /** Each version is published once and in rising order, whatever is asked in between and whatever fails. */
  lemma {:induction false} PublishedOnce(p: Published, identity: string, size: ClusterSize, calls: seq<Call>,
                                         hash: string -> nat)
    requires BusOk(p)
    ensures BusOk(Run(p, identity, size, calls, hash).0)
  {
    if calls != [] {
      var n := |calls| - 1;
      PublishedOnce(p, identity, size, calls[..n], hash);
      ApplyKeepsBus(Run(p, identity, size, calls[..n], hash).0, identity, size, calls[n], hash);
    }
  }

  // ----- which changes reach the bus -----

  function EventVersion(s: State, application: string): Option<nat> {
    if application in s.events then Some(s.events[application].version) else None
  }

  predicate AllRouted(i: Input) {
    forall o <- i.observations :: RoutedObservation(o)
  }

  /** The version in the answer to a call. */
  function Answered(s: State, c: Calculated): Option<nat> {
    if !Changed(s, c) then EventVersion(s, c.application)
    else if c.written then Some(Issued(s, c.application) + 1)
    else None
  }

  /** The version that a call will put on the bus. */
  function Due(p: Published, identity: string, size: ClusterSize, call: Call, hash: string -> nat): Option<nat> {
    if !call.Publish? || !AllRouted(call.input) then None
    else
      var version := Answered(p.state, Calculate(p.copy, identity, size, call.application, call.input, hash));
      if version.Some? && call.application in p.versions && p.versions[call.application] == version.value then None
      else version
  }

  function VersionIn(reply: Events.Reply): Option<nat> {
    if reply.Current? && reply.event.Some? then Some(reply.event.value.version) else None
  }

  lemma SnapshotOnAnswers(s: State, copy: map<string, string>, rows: map<string, string>, c: Calculated,
                          persisted: bool)
    ensures VersionIn(SnapshotOn(s, copy, rows, c, persisted).3) == Answered(s, c)
  {
  }

  lemma SnapshotAnswers(p: Published, identity: string, size: ClusterSize, application: string, i: Input,
                        hash: string -> nat)
    ensures VersionIn(SnapshotStep(p.state, p.copy, p.rows, identity, size, application, i, hash).3)
         == if AllRouted(i) then Answered(p.state, Calculate(p.copy, identity, size, application, i, hash)) else None
  {
    SnapshotOnAnswers(p.state, p.copy, p.rows, Calculate(p.copy, identity, size, application, i, hash), i.persisted);
  }

  lemma DeliverExact(asked: Published, publishes: bool, application: string, reply: Events.Reply)
    ensures Deliver(asked, publishes, application, reply).bus
         == if publishes && VersionIn(reply).Some?
               && !(application in asked.versions && asked.versions[application] == VersionIn(reply).value)
            then asked.bus + [(application, VersionIn(reply).value)] else asked.bus
  {
  }

  /** What is due before a call is what the call publishes. */
  lemma DueExact(p: Published, identity: string, size: ClusterSize, call: Call, hash: string -> nat)
    ensures var due := Due(p, identity, size, call, hash);
      Apply(p, identity, size, call, hash).0.bus
      == if due.Some? then p.bus + [(call.application, due.value)] else p.bus
  {
    SnapshotAnswers(p, identity, size, call.application, call.input, hash);
    var (state, copy, rows, reply) :=
      SnapshotStep(p.state, p.copy, p.rows, identity, size, call.application, call.input, hash);
    DeliverExact(p.(state := state, copy := copy, rows := rows), call.Publish?, call.application, reply);
  }

  /** What a call does to the event of an application. */
  datatype Mark = Mark(turned: bool, written: bool, announced: bool)

  /** Counter and event version of an application, and whether `version` is on the bus for it. */
  datatype Standing = Standing(issued: nat, event: Option<nat>, on: bool)

  function StandingOf(p: Published, application: string, version: nat): Standing {
    Standing(Issued(p.state, application), EventVersion(p.state, application), (application, version) in p.bus)
  }

  /** The call changes the application's fingerprint; its version can be written; it is a routed publication of the
      application that does not end in a failed write. */
  ghost function MarkOf(s: State, call: Call, t: State, application: string): Mark {
    var turned := Turned(s, t, application);
    Mark(turned, call.input.written,
         call.Publish? && call.application == application && AllRouted(call.input) && (turned ==> call.input.written))
  }

  predicate StandsNext(a: Standing, m: Mark, version: nat, b: Standing) {
    && b.issued == a.issued + (if m.turned then 1 else 0)
    && b.event == (if m.turned && m.written then Some(b.issued) else a.event)
    && (b.on <==> a.on || (m.announced && b.event == Some(version)))
  }

  lemma SnapshotOnTurns(s: State, copy: map<string, string>, rows: map<string, string>, c: Calculated, persisted: bool,
                        application: string)
    ensures var (t, _, _, reply) := SnapshotOn(s, copy, rows, c, persisted);
      var turned := Turned(s, t, application);
      && Issued(t, application) == Issued(s, application) + (if turned then 1 else 0)
      && EventVersion(t, application)
        == (if turned && c.written then Some(Issued(t, application)) else EventVersion(s, application))
      && (application == c.application ==>
           VersionIn(reply) == if turned && !c.written then None else EventVersion(t, application))
  {
  }

  lemma SnapshotTurns(p: Published, identity: string, size: ClusterSize, call: Call, hash: string -> nat,
                      application: string)
    ensures var (t, _, _, reply) :=
      SnapshotStep(p.state, p.copy, p.rows, identity, size, call.application, call.input, hash);
      var turned := Turned(p.state, t, application);
      && Issued(t, application) == Issued(p.state, application) + (if turned then 1 else 0)
      && EventVersion(t, application)
         == (if turned && call.input.written then Some(Issued(t, application)) else EventVersion(p.state, application))
      && (application == call.application ==>
           VersionIn(reply) == if !AllRouted(call.input) || (turned && !call.input.written) then None
                               else EventVersion(t, application))
  {
    var c := Calculate(p.copy, identity, size, call.application, call.input, hash);
    SnapshotOnTurns(p.state, p.copy, p.rows, c, call.input.persisted, application);
  }

  lemma CallStands(p: Published, identity: string, size: ClusterSize, call: Call, hash: string -> nat,
                   application: string, version: nat)
    requires BusOk(p)
    ensures var q := Apply(p, identity, size, call, hash).0;
      StandsNext(StandingOf(p, application, version), MarkOf(p.state, call, q.state, application), version,
                 StandingOf(q, application, version))
  {
    SnapshotTurns(p, identity, size, call, hash, application);
    var (state, copy, rows, reply) :=
      SnapshotStep(p.state, p.copy, p.rows, identity, size, call.application, call.input, hash);
    DeliverExact(p.(state := state, copy := copy, rows := rows), call.Publish?, call.application, reply);
  }

  /** No call after `k` and before `end` writes a change. */
  predicate Unreplaced(marks: seq<Mark>, k: nat, end: nat)
    requires k < end <= |marks|
  {
    forall i :: k < i < end ==> !(marks[i].turned && marks[i].written)
  }

  /** Call `j` announces the event that call `k` left. */
  predicate Delivers(marks: seq<Mark>, k: nat, j: nat)
    requires k <= j < |marks|
  {
    marks[j].announced && Unreplaced(marks, k, j + 1)
  }

  lemma {:induction false} ChangeFollowed(history: seq<Standing>, marks: seq<Mark>, k: nat, end: nat, version: nat)
    requires |history| == |marks| + 1 && k < end <= |marks|
    requires forall i :: 0 <= i < |marks| ==> StandsNext(history[i], marks[i], version, history[i + 1])
    requires marks[k].turned && version == history[k + 1].issued && !history[k].on
    requires history[k].event.Some? ==> history[k].event.value <= history[k].issued
    ensures version <= history[end].issued
    ensures history[end].event == Some(version) <==> marks[k].written && Unreplaced(marks, k, end)
    ensures history[end].on <==> marks[k].written && exists j :: k <= j < end && Delivers(marks, k, j)
    decreases end
  {
    var n := end - 1;
    assert StandsNext(history[n], marks[n], version, history[n + 1]);
    if n > k {
      ChangeFollowed(history, marks, k, n, version);
      assert Unreplaced(marks, k, end) <==> Unreplaced(marks, k, n) && !(marks[n].turned && marks[n].written);
    }
    assert (exists j :: k <= j < end && Delivers(marks, k, j))
      <==> (exists j :: k <= j < n && Delivers(marks, k, j)) || Delivers(marks, k, n);
  }

  function StateAt(p: Published, identity: string, size: ClusterSize, calls: seq<Call>, k: nat, hash: string -> nat)
    : Published
    requires k <= |calls|
  {
    Run(p, identity, size, calls[..k], hash).0
  }

  /** What each call of a run does to the event of an application. */
  ghost function Marks(p: Published, identity: string, size: ClusterSize, calls: seq<Call>, hash: string -> nat,
                       application: string): (marks: seq<Mark>)
    ensures |marks| == |calls|
  {
    seq(|calls|, k requires 0 <= k < |calls| =>
      MarkOf(StateAt(p, identity, size, calls, k, hash).state, calls[k],
             StateAt(p, identity, size, calls, k + 1, hash).state, application))
  }

  lemma StateNext(p: Published, identity: string, size: ClusterSize, calls: seq<Call>, k: nat, hash: string -> nat)
    requires BusOk(p) && k < |calls|
    ensures BusOk(StateAt(p, identity, size, calls, k, hash))
    ensures StateAt(p, identity, size, calls, k + 1, hash)
         == Apply(StateAt(p, identity, size, calls, k, hash), identity, size, calls[k], hash).0
  {
    PublishedOnce(p, identity, size, calls[..k], hash);
    RunStep(p, identity, size, calls, k, hash);
  }

  function History(p: Published, identity: string, size: ClusterSize, calls: seq<Call>, hash: string -> nat,
                   application: string, version: nat): (history: seq<Standing>)
    ensures |history| == |calls| + 1
  {
    seq(|calls| + 1, i requires 0 <= i <= |calls| =>
      StandingOf(StateAt(p, identity, size, calls, i, hash), application, version))
  }

  lemma HistoryStands(p: Published, identity: string, size: ClusterSize, calls: seq<Call>, k: nat, hash: string -> nat,
                      application: string, version: nat)
    requires BusOk(p) && k < |calls|
    ensures var history := History(p, identity, size, calls, hash, application, version);
      StandsNext(history[k], Marks(p, identity, size, calls, hash, application)[k], version, history[k + 1])
  {
    StateNext(p, identity, size, calls, k, hash);
    CallStands(StateAt(p, identity, size, calls, k, hash), identity, size, calls[k], hash, application, version);
  }

  /** What is on the bus, and the event, are no newer than the counter. */
  lemma StandingBelow(p: Published, application: string, version: nat)
    requires BusOk(p) && Issued(p.state, application) < version
    ensures var standing := StandingOf(p, application, version);
      !standing.on && (standing.event.Some? ==> standing.event.value <= standing.issued)
  {
  }

  /** A change of an application's fingerprint reaches the bus exactly when its version was written and the
      application is published, by the same call or a later one, before its next written change. */
  lemma ChangePublishedExactly(p: Published, identity: string, size: ClusterSize, calls: seq<Call>, k: nat,
                               hash: string -> nat, application: string)
    requires BusOk(p) && k < |calls|
    ensures var marks := Marks(p, identity, size, calls, hash, application);
      var version := Issued(StateAt(p, identity, size, calls, k + 1, hash).state, application);
      marks[k].turned ==>
        ((application, version) in StateAt(p, identity, size, calls, |calls|, hash).bus <==>
         marks[k].written && exists j :: k <= j < |calls| && Delivers(marks, k, j))
  {
    var version := Issued(StateAt(p, identity, size, calls, k + 1, hash).state, application);
    forall i | 0 <= i < |calls|
      ensures var history := History(p, identity, size, calls, hash, application, version);
        StandsNext(history[i], Marks(p, identity, size, calls, hash, application)[i], version, history[i + 1])
    {
      HistoryStands(p, identity, size, calls, i, hash, application, version);
    }
    StateNext(p, identity, size, calls, k, hash);
    HistoryStands(p, identity, size, calls, k, hash, application, version);
    if Marks(p, identity, size, calls, hash, application)[k].turned {
      StandingBelow(StateAt(p, identity, size, calls, k, hash), application, version);
      ChangeFollowed(History(p, identity, size, calls, hash, application, version),
                     Marks(p, identity, size, calls, hash, application), k, |calls|, version);
    }
  }

  // ----- restarts with a version file -----

  /** A file that is cut off in a write is not JSON. */
  datatype VersionFile = Readable(counters: map<string, nat>) | Torn

  /** A supervisor with the version file its counters come from; `p.bus` is what was published in all its lives. */
  datatype Durable = Durable(p: Published, file: VersionFile)

  /** What a failed write leaves: the file from before, the whole new one, or a part of it. */
  datatype Residue = Kept | Whole | Part

  datatype Life = Goes(call: Call, residue: Residue) | Restarts

  function Persisted(file: VersionFile, application: string): nat {
    if file.Readable? && application in file.counters then file.counters[application] else 0
  }

  /** The file is written in place whenever a counter moved. */
  function FileAfter(file: VersionFile, before: State, after: State, reply: Events.Reply,
                     residue: Residue): VersionFile {
    if after.counters == before.counters then file
    else if reply.Current? || residue.Whole? then Readable(after.counters)
    else if residue.Kept? then file
    else Torn
  }

  /** A restart takes its counters from the file, and starts at zero when it cannot read it. */
  function LiveOn(d: Durable, identity: string, size: ClusterSize, life: Life, hash: string -> nat): Durable {
    match life
    case Goes(call, residue) =>
      var (after, reply) := Apply(d.p, identity, size, call, hash);
      Durable(after, FileAfter(d.file, d.p.state, after.state, reply, residue))
    case Restarts =>
      var counters := if d.file.Readable? then d.file.counters else map[];
      Durable(Published(State(map[], map[], counters, map[]), map[], d.p.rows, map[], d.p.bus), d.file)
  }

  function Lives(d: Durable, identity: string, size: ClusterSize, lives: seq<Life>, hash: string -> nat): Durable {
    if lives == [] then d
    else LiveOn(Lives(d, identity, size, lives[..|lives| - 1], hash), identity, size, lives[|lives| - 1], hash)
  }

  ghost predicate Rises(bus: seq<(string, nat)>) {
    forall i, j :: 0 <= i < j < |bus| && bus[i].0 == bus[j].0 ==> bus[i].1 < bus[j].1
  }

  ghost predicate CoveredBy(s: State, bus: seq<(string, nat)>, counter: string -> nat) {
    && (forall a :: a in s.events ==> s.events[a].version <= counter(a))
    && (forall i :: 0 <= i < |bus| ==> bus[i].1 <= counter(bus[i].0))
  }

  /** The counters cover events and publications, and so does a file that can be read, which the counters cover. */
  ghost predicate Covered(s: State, file: VersionFile, bus: seq<(string, nat)>) {
    && (forall a :: Persisted(file, a) <= Issued(s, a))
    && CoveredBy(s, bus, a => Issued(s, a))
    && (file.Readable? ==> CoveredBy(s, bus, a => Persisted(file, a)))
  }

  /** What was published is no newer than the version remembered in this life, or older than the current event. */
  ghost predicate Recent(s: State, versions: map<string, nat>, bus: seq<(string, nat)>) {
    && (forall a :: a in versions ==> a in s.events && versions[a] <= s.events[a].version)
    && (forall i :: 0 <= i < |bus| ==>
         if bus[i].0 in versions then bus[i].1 <= versions[bus[i].0]
         else bus[i].0 in s.events ==> bus[i].1 < s.events[bus[i].0].version)
  }

  ghost predicate LogOk(d: Durable, bus: seq<(string, nat)>) {
    Rises(bus) && Covered(d.p.state, d.file, bus) && Recent(d.p.state, d.p.versions, bus)
  }

  /** What was published since the first `forgotten` publications rises and is covered. */
  ghost predicate DurableOk(d: Durable, forgotten: nat) {
    forgotten <= |d.p.bus| && LogOk(d, d.p.bus[forgotten..])
  }

  /** An event is kept or is the next after the counter; it moves only with the counter and a written file. */
  ghost predicate Renews(s: State, t: State, reply: Events.Reply) {
    && (forall a :: Issued(s, a) <= Issued(t, a))
    && (forall a :: a in s.events ==> a in t.events)
    && (forall a :: a in t.events ==>
         (a in s.events && t.events[a] == s.events[a]) || t.events[a].version == Issued(s, a) + 1 == Issued(t, a))
    && (t.events != s.events ==> reply.Current? && t.counters != s.counters)
  }

  lemma StepRenews(s: State, c: Calculated)
    ensures var (t, reply) := EventStep(s, c); Renews(s, t, reply)
  {
    var (t, reply) := EventStep(s, c);
    assert Issued(t, c.application) == Issued(s, c.application)
        || t.counters[c.application] == Issued(s, c.application) + 1;
  }

  lemma SnapshotRenews(s: State, copy: map<string, string>, rows: map<string, string>, identity: string,
                       size: ClusterSize, application: string, i: Input, hash: string -> nat)
    ensures var (t, _, _, reply) := SnapshotStep(s, copy, rows, identity, size, application, i, hash);
      Renews(s, t, reply)
  {
    StepRenews(s, Calculate(copy, identity, size, application, i, hash));
  }

  lemma RenewedCovered(s: State, t: State, reply: Events.Reply, residue: Residue, file: VersionFile,
                       bus: seq<(string, nat)>, versions: map<string, nat>)
    requires Covered(s, file, bus) && Recent(s, versions, bus) && Renews(s, t, reply)
    ensures Covered(t, FileAfter(file, s, t, reply, residue), bus) && Recent(t, versions, bus)
  {
    var after := FileAfter(file, s, t, reply, residue);
    assert CoveredBy(t, bus, a => Issued(t, a));
    if after == Readable(t.counters) {
      assert forall a :: Persisted(after, a) == Issued(t, a);
    }
  }

  lemma NewsRises(s: State, file: VersionFile, versions: map<string, nat>, bus: seq<(string, nat)>,
                  application: string)
    requires Rises(bus) && Covered(s, file, bus) && Recent(s, versions, bus) && application in s.events
    requires !(application in versions && versions[application] == s.events[application].version)
    ensures var version := s.events[application].version;
      var longer := bus + [(application, version)];
      Rises(longer) && Covered(s, file, longer) && Recent(s, versions[application := version], longer)
  {
  }

  /** How many publications a life has forgotten afterwards. */
  function Forgets(d: Durable, life: Life, forgotten: nat): nat {
    if life.Restarts? && d.file.Torn? then |d.p.bus| else forgotten
  }

  lemma LifeKeeps(d: Durable, identity: string, size: ClusterSize, life: Life, hash: string -> nat, forgotten: nat)
    requires DurableOk(d, forgotten)
    ensures DurableOk(LiveOn(d, identity, size, life, hash), Forgets(d, life, forgotten))
  {
    if life.Goes? {
      var call := life.call;
      var (state, copy, rows, reply) :=
        SnapshotStep(d.p.state, d.p.copy, d.p.rows, identity, size, call.application, call.input, hash);
      SnapshotAges(d.p.state, d.p.copy, d.p.rows, identity, size, call.application, call.input, hash);
      SnapshotRenews(d.p.state, d.p.copy, d.p.rows, identity, size, call.application, call.input, hash);
      var file := FileAfter(d.file, d.p.state, state, reply, life.residue);
      RenewedCovered(d.p.state, state, reply, life.residue, d.file, d.p.bus[forgotten..], d.p.versions);
      DeliverRises(Durable(d.p.(state := state, copy := copy, rows := rows), file), call.Publish?, call.application,
                   reply, forgotten);
    }
  }

  lemma DeliverRises(asked: Durable, publishes: bool, application: string, reply: Events.Reply, forgotten: nat)
    requires DurableOk(asked, forgotten)
    requires reply.Current? && reply.event.Some? ==>
      application in asked.p.state.events && asked.p.state.events[application] == reply.event.value
    ensures DurableOk(asked.(p := Deliver(asked.p, publishes, application, reply)), forgotten)
  {
    if publishes && IsNews(asked.p.versions, application, reply) {
      var bus, last := asked.p.bus, (application, reply.event.value.version);
      NewsRises(asked.p.state, asked.file, asked.p.versions, bus[forgotten..], application);
      assert (bus + [last])[forgotten..] == bus[forgotten..] + [last];
    }
  }

  function LivedUntil(d: Durable, identity: string, size: ClusterSize, lives: seq<Life>, k: nat, hash: string -> nat)
    : Durable
    requires k <= |lives|
  {
    Lives(d, identity, size, lives[..k], hash)
  }

  /** How many publications came before the last restart that could not read the file. */
  function Forgotten(d: Durable, identity: string, size: ClusterSize, lives: seq<Life>, k: nat,
                     hash: string -> nat): nat
    requires k <= |lives|
  {
    if k == 0 then 0
    else Forgets(LivedUntil(d, identity, size, lives, k - 1, hash), lives[k - 1],
                 Forgotten(d, identity, size, lives, k - 1, hash))
  }

  /** The call is about to publish a version that is not above one the counters have forgotten. */
  ghost predicate Repeats(d: Durable, identity: string, size: ClusterSize, life: Life, hash: string -> nat,
                          forgotten: nat) {
    && life.Goes? && Due(d.p, identity, size, life.call, hash).Some?
    && exists i :: 0 <= i < forgotten && i < |d.p.bus| && d.p.bus[i].0 == life.call.application
         && d.p.bus[i].1 >= Due(d.p, identity, size, life.call, hash).value
  }

  ghost predicate RepeatsAt(d: Durable, identity: string, size: ClusterSize, lives: seq<Life>, k: nat,
                            hash: string -> nat)
    requires k < |lives|
  {
    Repeats(LivedUntil(d, identity, size, lives, k, hash), identity, size, lives[k], hash,
            Forgotten(d, identity, size, lives, k, hash))
  }

  lemma LivesNext(d: Durable, identity: string, size: ClusterSize, lives: seq<Life>, k: nat, hash: string -> nat)
    requires k < |lives|
    ensures LivedUntil(d, identity, size, lives, k + 1, hash)
         == LiveOn(LivedUntil(d, identity, size, lives, k, hash), identity, size, lives[k], hash)
  {
    assert lives[..k + 1][..k] == lives[..k];
  }

  /** One more publication keeps the log rising exactly when it is above those of its application. */
  lemma RisesLonger(bus: seq<(string, nat)>, last: (string, nat), forgotten: nat)
    requires forgotten <= |bus| && Rises((bus + [last])[forgotten..])
    ensures Rises(bus + [last])
       <==> Rises(bus) && !(exists i :: 0 <= i < forgotten && i < |bus| && bus[i].0 == last.0 && bus[i].1 >= last.1)
  {
    var longer := bus + [last];
    assert forall i :: forgotten <= i < |bus| ==> bus[i] == longer[forgotten..][i - forgotten];
    assert longer[forgotten..][|bus| - forgotten] == last;
    if Rises(longer) {
      assert forall i :: 0 <= i < |bus| ==> bus[i] == longer[i];
      assert longer[|bus|] == last;
    }
  }

  lemma LifePublishes(d: Durable, identity: string, size: ClusterSize, life: Life, hash: string -> nat)
    ensures LiveOn(d, identity, size, life, hash).p.bus
         == if life.Goes? && Due(d.p, identity, size, life.call, hash).Some?
            then d.p.bus + [(life.call.application, Due(d.p, identity, size, life.call, hash).value)] else d.p.bus
  {
    if life.Goes? {
      DueExact(d.p, identity, size, life.call, hash);
    }
  }

  lemma LifeRises(d: Durable, after: Durable, identity: string, size: ClusterSize, life: Life, hash: string -> nat,
                  forgotten: nat)
    requires after == LiveOn(d, identity, size, life, hash)
    requires forgotten <= |d.p.bus| && (life.Goes? ==> Rises(after.p.bus[forgotten..]))
    ensures Rises(after.p.bus) <==> Rises(d.p.bus) && !Repeats(d, identity, size, life, hash, forgotten)
  {
    LifePublishes(d, identity, size, life, hash);
    if life.Goes? && Due(d.p, identity, size, life.call, hash).Some? {
      RisesLonger(d.p.bus, (life.call.application, Due(d.p, identity, size, life.call, hash).value), forgotten);
    }
  }

  lemma {:induction false} DurableUntil(d: Durable, identity: string, size: ClusterSize, lives: seq<Life>, k: nat,
                                        hash: string -> nat)
    requires DurableOk(d, 0) && k <= |lives|
    ensures DurableOk(LivedUntil(d, identity, size, lives, k, hash), Forgotten(d, identity, size, lives, k, hash))
    decreases k
  {
    if k == 0 {
      assert lives[..0] == [];
    } else {
      DurableUntil(d, identity, size, lives, k - 1, hash);
      LivesNext(d, identity, size, lives, k - 1, hash);
      LifeKeeps(LivedUntil(d, identity, size, lives, k - 1, hash), identity, size, lives[k - 1], hash,
                Forgotten(d, identity, size, lives, k - 1, hash));
    }
  }

  lemma RisesStep(d: Durable, identity: string, size: ClusterSize, lives: seq<Life>, k: nat, hash: string -> nat)
    requires DurableOk(d, 0) && k < |lives|
    ensures Rises(LivedUntil(d, identity, size, lives, k + 1, hash).p.bus)
       <==> Rises(LivedUntil(d, identity, size, lives, k, hash).p.bus) && !RepeatsAt(d, identity, size, lives, k, hash)
  {
    DurableUntil(d, identity, size, lives, k, hash);
    DurableUntil(d, identity, size, lives, k + 1, hash);
    LivesNext(d, identity, size, lives, k, hash);
    LifeRises(LivedUntil(d, identity, size, lives, k, hash), LivedUntil(d, identity, size, lives, k + 1, hash),
              identity, size, lives[k], hash, Forgotten(d, identity, size, lives, k, hash));
  }

  lemma {:induction false} HoldsUntil(holds: seq<bool>, breaks: seq<bool>, k: nat)
    requires |holds| == |breaks| + 1 && k <= |breaks| && holds[0]
    requires forall i :: 0 <= i < |breaks| ==> (holds[i + 1] <==> holds[i] && !breaks[i])
    ensures holds[k] <==> forall i :: 0 <= i < k ==> !breaks[i]
  {
    if k > 0 {
      HoldsUntil(holds, breaks, k - 1);
      assert holds[k - 1 + 1] <==> holds[k - 1] && !breaks[k - 1];
    }
  }

  /** Which lives are about to repeat a version. */
  ghost function RepeatsIn(d: Durable, identity: string, size: ClusterSize, lives: seq<Life>, hash: string -> nat)
    : (repeats: seq<bool>)
    ensures |repeats| == |lives|
    ensures forall k :: 0 <= k < |lives| ==> repeats[k] == RepeatsAt(d, identity, size, lives, k, hash)
  {
    seq(|lives|, k requires 0 <= k < |lives| => RepeatsAt(d, identity, size, lives, k, hash))
  }

  ghost function RisesIn(d: Durable, identity: string, size: ClusterSize, lives: seq<Life>, hash: string -> nat)
    : (rises: seq<bool>)
    ensures |rises| == |lives| + 1
    ensures forall k :: 0 <= k <= |lives| ==> rises[k] == Rises(LivedUntil(d, identity, size, lives, k, hash).p.bus)
  {
    seq(|lives| + 1, k requires 0 <= k <= |lives| => Rises(LivedUntil(d, identity, size, lives, k, hash).p.bus))
  }

  /** With a version file, versions on the bus rise strictly per application over all lives of a supervisor, through
      restarts, failed writes and calls of others, exactly as long as no publication is due with a version that is not
      above one from before a restart that could not read the file. */
  lemma RisesAcrossRestarts(d: Durable, identity: string, size: ClusterSize, lives: seq<Life>, hash: string -> nat)
    requires DurableOk(d, 0)
    ensures Rises(LivedUntil(d, identity, size, lives, |lives|, hash).p.bus)
       <==> forall k :: 0 <= k < |lives| ==> !RepeatsIn(d, identity, size, lives, hash)[k]
  {
    var rises, repeats := RisesIn(d, identity, size, lives, hash), RepeatsIn(d, identity, size, lives, hash);
    forall k | 0 <= k < |lives| ensures rises[k + 1] <==> rises[k] && !repeats[k] {
      RisesStep(d, identity, size, lives, k, hash);
    }
    assert rises[0] by {
      assert lives[..0] == [] && d.p.bus[0..] == d.p.bus;
    }
    HoldsUntil(rises, repeats, |lives|);
  }

  /** So they rise whenever every restart can read the file, whatever else fails. */
  lemma {:induction false} RisesWhenReadable(d: Durable, identity: string, size: ClusterSize, lives: seq<Life>,
                                             hash: string -> nat)
    requires DurableOk(d, 0)
    requires forall k :: 0 <= k < |lives| && lives[k].Restarts? ==>
      LivedUntil(d, identity, size, lives, k, hash).file.Readable?
    ensures Rises(LivedUntil(d, identity, size, lives, |lives|, hash).p.bus)
  {
    forall k | 0 <= k < |lives| ensures !RepeatsIn(d, identity, size, lives, hash)[k] {
      NothingForgotten(d, identity, size, lives, k, hash);
    }
    RisesAcrossRestarts(d, identity, size, lives, hash);
  }

  lemma {:induction false} NothingForgotten(d: Durable, identity: string, size: ClusterSize, lives: seq<Life>, k: nat,
                                            hash: string -> nat)
    requires k <= |lives|
    requires forall i :: 0 <= i < k && lives[i].Restarts? ==>
      LivedUntil(d, identity, size, lives, i, hash).file.Readable?
    ensures Forgotten(d, identity, size, lives, k, hash) == 0
    decreases k
  {
    if k > 0 {
      NothingForgotten(d, identity, size, lives, k - 1, hash);
    }
  }
}
