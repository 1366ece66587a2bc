/** Versioned routing events: src/routing/event-snapshot.mjs, src/routing/event-version-store.mjs and
    src/runtime/routing-publisher.mjs. */
module Events {
  import opened Options
  import opened Observation
  import opened Routing
  import opened Assignment
  import Names
  import Sorting

  const HOLD_DOWN := 5000

  /** What a topology version stands for; its JSON text is taken to determine it. */
  datatype Fingerprint = Fingerprint(application: string, routes: RouteTable, drained: seq<string>)

  datatype TopologyNode = TopologyNode(nodeId: string, address: string, sqlPort: int, ready: bool, draining: bool)

  datatype Event = Event(version: nat, generatedAt: int, quorate: bool, nodes: seq<TopologyNode>)

  datatype Healthy = Healthy(routes: RouteTable, at: int)

  /** The maps of the snapshot closure and the counters of the version store. */
  datatype State = State(fingerprints: map<string, Fingerprint>, lastHealthy: map<string, Healthy>,
                         counters: map<string, nat>, events: map<string, Event>)

  /** What one call has calculated before it looks at versions; `written` tells whether the version file could be
      written. */
  datatype Calculated = Calculated(application: string, routes: RouteTable, drained: seq<string>,
                                   quorate: bool, nodes: seq<TopologyNode>, now: int, written: bool)

  datatype Reply = InvalidObservation | VersionNotWritten | Current(event: Option<Event>)

  function Issued(s: State, application: string): nat {
    if application in s.counters then s.counters[application] else 0
  }

  /** Routes without readers give way to the last healthy ones for five seconds. */
  function Selected(s: State, c: Calculated): RouteTable {
    if c.routes.balanced == [] && c.application in s.lastHealthy && c.now - s.lastHealthy[c.application].at < HOLD_DOWN
    then s.lastHealthy[c.application].routes
    else c.routes
  }

  function FingerprintOf(s: State, c: Calculated): Fingerprint {
    Fingerprint(c.application, Selected(s, c), c.drained)
  }

  predicate Changed(s: State, c: Calculated) {
    c.application !in s.fingerprints || s.fingerprints[c.application] != FingerprintOf(s, c)
  }

  function EventStep(s: State, c: Calculated): (State, Reply) {
    var app := c.application;
    var healthy := if c.routes.balanced != [] then s.lastHealthy[app := Healthy(c.routes, c.now)] else s.lastHealthy;
    if !Changed(s, c) then
      (s.(lastHealthy := healthy), Current(if app in s.events then Some(s.events[app]) else None))
    else
      var version := Issued(s, app) + 1;
      var turned := s.(fingerprints := s.fingerprints[app := FingerprintOf(s, c)], lastHealthy := healthy,
                       counters := s.counters[app := version]);
      var event := Event(version, c.now, c.quorate, c.nodes);
      if !c.written then (turned, VersionNotWritten)
      else (turned.(events := s.events[app := event]), Current(Some(event)))
  }

  // ----- one call -----

  datatype Input = Input(observations: seq<Observation>, drained: bool, now: int, persisted: bool, written: bool)

  predicate RoutedObservation(o: Observation) {
    Names.IsRoutedName(o.nodeId) && o.address.Some? && Names.IsRoutedName(o.address.value)
  }

  /** The local node's own drain state replaces the gossiped one. */
  function Overlaid(identity: string, drained: bool): Observation -> Observation {
    (o: Observation) => if o.nodeId == identity then o.(drain := drained) else o
  }

  predicate Draining(o: Observation) {
    o.drain
  }

  function DrainState(observations: seq<Observation>): seq<string> {
    Sorting.Sort(Sorting.Map(Sorting.Filter(observations, Draining), NodeName), Names.Leq)
  }

  function TopologyOf(o: Observation): TopologyNode {
    TopologyNode(o.nodeId, o.address.GetOr(""), o.sqlPort.GetOr(SQL_PORT), o.health == "ok", o.drain)
  }

  function Calculate(copy: map<string, string>, identity: string, size: ClusterSize, application: string, i: Input,
                     hash: string -> nat): Calculated {
    var observations := Sorting.Map(i.observations, Overlaid(identity, i.drained));
    Calculated(application, EventRoutes(copy, application, observations, i.now, size, hash), DrainState(observations),
               ViewOf(observations, i.now, size).quorum, Sorting.Map(observations, TopologyOf), i.now, i.written)
  }

  function SnapshotStep(s: State, copy: map<string, string>, rows: map<string, string>, identity: string,
                        size: ClusterSize,
                        application: string, i: Input, hash: string -> nat)
    : (State, map<string, string>, map<string, string>, Reply)
  {
    if exists o <- i.observations :: !RoutedObservation(o) then (s, copy, rows, InvalidObservation)
    else SnapshotOn(s, copy, rows, Calculate(copy, identity, size, application, i, hash), i.persisted)
  }

  function SnapshotOn(s: State, copy: map<string, string>, rows: map<string, string>, c: Calculated, persisted: bool)
    : (State, map<string, string>, map<string, string>, Reply)
  {
    var (copy', rows') := EventAssign(copy, rows, c.application, c.routes, persisted);
    var (s', reply) := EventStep(s, c);
    (s', copy', rows', reply)
  }

  class RoutingEventSnapshot {
    const store: AssignmentStore
    const identity: string
    const size: ClusterSize
    var fingerprints: map<string, Fingerprint>
    var lastHealthy: map<string, Healthy>
    var counters: map<string, nat>
    var events: map<string, Event>

    constructor (store: AssignmentStore, identity: string, size: ClusterSize, counters: map<string, nat>)
      ensures this.store == store && this.identity == identity && this.size == size
      ensures View() == State(map[], map[], counters, map[])
    {
      this.store, this.identity, this.size, this.counters := store, identity, size, counters;
      fingerprints, lastHealthy, events := map[], map[], map[];
    }

    ghost function View(): State
      reads this
    {
      State(fingerprints, lastHealthy, counters, events)
    }

    /** The counter of the version store. */
    method Next(application: string) returns (version: nat)
      modifies this`counters
      ensures version == Issued(old(View()), application) + 1
      ensures counters == old(counters)[application := version]
    {
      version := if application in counters then counters[application] + 1 else 1;
      counters := counters[application := version];
    }

    /** Records what was calculated; the version moves only with the fingerprint. */
    method Turn(c: Calculated) returns (reply: Reply)
      modifies this
      ensures (View(), reply) == EventStep(old(View()), c)
    {
      var selected := c.routes;
      if c.routes.balanced == [] && c.application in lastHealthy && c.now - lastHealthy[c.application].at < HOLD_DOWN {
        selected := lastHealthy[c.application].routes;
      }
      if c.routes.balanced != [] {
        lastHealthy := lastHealthy[c.application := Healthy(c.routes, c.now)];
      }
      var next := Fingerprint(c.application, selected, c.drained);
      if c.application !in fingerprints || fingerprints[c.application] != next {
        fingerprints := fingerprints[c.application := next];
        var version := Next(c.application);
        if !c.written {
          return VersionNotWritten;
        }
        events := events[c.application := Event(version, c.now, c.quorate, c.nodes)];
      }
      reply := Current(if c.application in events then Some(events[c.application]) else None);
    }

    method Snapshot(application: string, i: Input, hash: string -> nat) returns (reply: Reply)
      modifies this, store, store.table
      ensures (View(), store.copy, store.table.rows, reply)
           == SnapshotStep(old(View()), old(store.copy), old(store.table.rows), identity, size, application, i, hash)
    {
      if exists o <- i.observations :: !RoutedObservation(o) {
        return InvalidObservation;
      }
      var c := Calculate(store.copy, identity, size, application, i, hash);
      if NeedsWrite(c.routes, store.Peek(application)) {
        store.Set(application, c.routes.Writer().value, i.persisted);
      }
      reply := Turn(c);
    }
  }

  // ----- the publisher -----

  /** Everything a publication can change; `bus` lists what was published. */
  datatype Published = Published(state: State, copy: map<string, string>, rows: map<string, string>,
                                 versions: map<string, nat>, bus: seq<(string, nat)>)

  predicate IsNews(versions: map<string, nat>, application: string, reply: Reply) {
    && reply.Current? && reply.event.Some?
    && !(application in versions && versions[application] == reply.event.value.version)
  }

  /** An application is asked for its event, by the publisher or by somebody else. */
  datatype Call = Ask(application: string, input: Input) | Publish(application: string, input: Input)

  /** The publisher's part of a call. */
  function Deliver(asked: Published, publishes: bool, application: string, reply: Reply): Published {
    if publishes && IsNews(asked.versions, application, reply) then
      var version := reply.event.value.version;
      asked.(versions := asked.versions[application := version], bus := asked.bus + [(application, version)])
    else asked
  }

  function Apply(p: Published, identity: string, size: ClusterSize, call: Call, hash: string -> nat)
    : (Published, Reply)
  {
    var (state, copy, rows, reply) :=
      SnapshotStep(p.state, p.copy, p.rows, identity, size, call.application, call.input, hash);
    (Deliver(p.(state := state, copy := copy, rows := rows), call.Publish?, call.application, reply), reply)
  }

  /** A run of calls and what they were answered. */
  function Run(p: Published, identity: string, size: ClusterSize, calls: seq<Call>, hash: string -> nat)
    : (Published, seq<Reply>)
  {
    if calls == [] then (p, [])
    else
      var n := |calls| - 1;
      var (front, replies) := Run(p, identity, size, calls[..n], hash);
      var (after, reply) := Apply(front, identity, size, calls[n], hash);
      (after, replies + [reply])
  }

  lemma RunStep(p: Published, identity: string, size: ClusterSize, calls: seq<Call>, k: nat, hash: string -> nat)
    requires k < |calls|
    ensures var (front, replies) := Run(p, identity, size, calls[..k], hash);
      var (after, reply) := Apply(front, identity, size, calls[k], hash);
      Run(p, identity, size, calls[..k + 1], hash) == (after, replies + [reply])
  {
    assert calls[..k + 1][..k] == calls[..k];
  }

  /** The publications of a round, in order. */
  function PublishCalls(applications: seq<string>, inputs: seq<Input>): (calls: seq<Call>)
    requires |applications| == |inputs|
    ensures |calls| == |applications|
  {
    seq(|applications|, k requires 0 <= k < |applications| => Publish(applications[k], inputs[k]))
  }

  class RoutingPublisher {
    const event: RoutingEventSnapshot
    const application: string
    var versions: map<string, nat>
    var bus: seq<(string, nat)>

    constructor (event: RoutingEventSnapshot, application: string)
      ensures this.event == event && this.application == application && versions == map[] && bus == []
    {
      this.event, this.application := event, application;
      versions, bus := map[], [];
    }

    ghost function View(): Published
      reads this, event, event.store, event.store.table
    {
      Published(event.View(), event.store.copy, event.store.table.rows, versions, bus)
    }

    method PublishName(name: string, i: Input, hash: string -> nat) returns (reply: Reply)
      modifies this, event, event.store, event.store.table
      ensures (View(), reply) == Apply(old(View()), event.identity, event.size, Publish(name, i), hash)
    {
      reply := event.Snapshot(name, i, hash);
      if IsNews(versions, name, reply) {
        versions := versions[name := reply.event.value.version];
        bus := bus + [(name, reply.event.value.version)];
      }
    }

    /** One round over the default application and the assigned ones, each once, cut off by the first call that
        throws. */
    method PublishRoutingEvent(applications: seq<string>, inputs: seq<Input>,
                               hash: string -> nat) returns (replies: seq<Reply>)
      requires |inputs| == |Sorting.Distinct([application] + applications)|
      modifies this, event, event.store, event.store.table
      ensures var calls := PublishCalls(Sorting.Distinct([application] + applications), inputs);
        && |replies| <= |calls|
        && (View(), replies) == Run(old(View()), event.identity, event.size, calls[..|replies|], hash)
        && (forall j :: 0 <= j < |replies| - 1 ==> replies[j].Current?)
        && (|replies| < |calls| ==> |replies| > 0 && !replies[|replies| - 1].Current?)
    {
      var names := Sorting.Distinct([application] + applications);
      ghost var calls := PublishCalls(names, inputs);
      replies := [];
      while |replies| < |names|
        invariant |replies| <= |names|
        invariant (View(), replies) == Run(old(View()), event.identity, event.size, calls[..|replies|], hash)
        invariant forall j :: 0 <= j < |replies| ==> replies[j].Current?
      {
        var k := |replies|;
        RunStep(old(View()), event.identity, event.size, calls, k, hash);
        assert calls[k] == Publish(names[k], inputs[k]);
        var reply := PublishName(names[k], inputs[k], hash);
        replies := replies + [reply];
        if !reply.Current? {
          return;
        }
      }
    }
  }
}
