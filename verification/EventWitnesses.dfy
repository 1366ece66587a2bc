/** Concrete runs on which versions and publications do not keep what subscribers expect. */
module EventWitnesses {
  import opened Options
  import opened Observation
  import opened Assignment
  import opened Routing
  import opened Events
  import opened EventRuns
  import AssignmentWitnesses
  import Names
  import Sorting

  const NOTHING := State(map[], map[], map[], map[])
  const START := Published(NOTHING, map[], map[], map[], [])

  /** The supervisor of `a.x` sees two healthy members, and drains or not. */
  function Sees(drained: bool, now: int, written: bool): Input {
    Input(AssignmentWitnesses.Pair(), drained, now, true, written)
  }

  function Heard(drained: bool): seq<Observation> {
    if drained then AssignmentWitnesses.Half() else AssignmentWitnesses.Pair()
  }

  lemma MapTwo(a: Observation, b: Observation, f: Observation -> Observation)
    ensures Sorting.Map([a, b], f) == [f(a), f(b)]
  {
  }

  lemma PairOverlaid(drained: bool)
    ensures Sorting.Map(AssignmentWitnesses.Pair(), Overlaid("a.x", drained)) == Heard(drained)
  {
    var a, b := AssignmentWitnesses.Member("a.x", "g", false), AssignmentWitnesses.Member("b.x", "g", false);
    MapTwo(a, b, Overlaid("a.x", drained));
  }

  lemma PairRouted()
    ensures forall o <- AssignmentWitnesses.Pair() :: RoutedObservation(o)
  {
    AssignmentWitnesses.PairNamed();
  }

  lemma DrainsOf(a: Observation, b: Observation)
    requires !b.drain
    ensures DrainState([a, b]) == if a.drain then [a.nodeId] else []
  {
    var both := [a, b];
    assert both[1..] == [b] && [b][1..] == [] && [a.nodeId][1..] == [];
    assert Sorting.Filter([b], Draining) == [];
    var draining := Sorting.Filter(both, Draining);
    assert draining == if a.drain then [a] + [] else [];
    assert Sorting.Map(draining, NodeName) == if a.drain then [a.nodeId] else [];
    assert Sorting.Sort([a.nodeId], Names.Leq) == [a.nodeId];
  }

  lemma HalfQuorate(now: int)
    requires now <= MAX_AGE
    ensures ViewOf(AssignmentWitnesses.Half(), now, Size(2)).quorum
    ensures Nodes(AssignmentWitnesses.Half(), now, MAX_AGE) == [AssignmentWitnesses.Half()[1]]
  {
    var half := AssignmentWitnesses.Half();
    AssignmentWitnesses.MemberCounts('a', true, now);
    AssignmentWitnesses.MemberCounts('b', false, now);
    assert half[0] in half && half[1] in half;
    AssignmentWitnesses.MembersQuorate(half, half[0], half[1], 2, now);
    assert half[1..] == [half[1]] && half[1..][1..] == [];
  }

  /** The only usable node gets all routes, whoever wrote before. */
  lemma LoneRoutes(o: Observation, application: string, observations: seq<Observation>, previous: Option<string>,
                   now: int, hash: string -> nat)
    requires Nodes(observations, now, MAX_AGE) == [o]
    ensures var route := RouteNode(o, map[]);
      CalculateRoutes(Some(application), observations, map[], previous, now, MAX_AGE, hash)
      == RouteTable([route], [route], DigestOf([route], [route]))
  {
    var nodes := [o];
    assert nodes[1..] == [];
    assert Sorting.Sort(nodes, ByLoad) == nodes && Sorting.Sort(nodes, ByName) == nodes;
    assert Sorting.Filter(nodes, OtherThan(o.nodeId)) == [];
    assert [o] + [] == nodes;
    assert Sorting.Map(nodes, Routed(map[])) == [RouteNode(o, map[])];
  }

  const ONLY_B := Route("b.x", SQL_PORT, "b.x", None)

  /** While `a.x` drains, all routes lead to `b.x`, whatever was assigned before. */
  lemma DrainingCalculated(copy: map<string, string>, now: int, written: bool, hash: string -> nat)
    requires now <= MAX_AGE
    ensures var c := Calculate(copy, "a.x", Size(2), "shop", Sees(true, now, written), hash);
      && c.application == "shop" && c.drained == ["a.x"] && c.written == written && c.quorate
      && c.routes == RouteTable([ONLY_B], [ONLY_B], DigestOf([ONLY_B], [ONLY_B]))
  {
    PairOverlaid(true);
    DrainsOf(AssignmentWitnesses.Half()[0], AssignmentWitnesses.Half()[1]);
    HalfQuorate(now);
    var half := AssignmentWitnesses.Half();
    LoneRoutes(half[1], "shop", half, Lookup(copy, "shop"), now, hash);
  }

  predicate NoneDrains(nodes: seq<TopologyNode>) {
    nodes != [] && forall n <- nodes :: !n.draining
  }

  lemma TopologyServes(a: Observation, b: Observation)
    requires !a.drain && !b.drain
    ensures NoneDrains(Sorting.Map([a, b], TopologyOf))
  {
    var nodes := Sorting.Map([a, b], TopologyOf);
    assert nodes[0] == TopologyOf(a) && nodes[1] == TopologyOf(b);
  }

  lemma ServingCalculated(copy: map<string, string>, now: int, hash: string -> nat)
    ensures var c := Calculate(copy, "a.x", Size(2), "shop", Sees(false, now, true), hash);
      c.application == "shop" && c.drained == [] && c.written && NoneDrains(c.nodes)
  {
    var a, b := AssignmentWitnesses.Member("a.x", "g", false), AssignmentWitnesses.Member("b.x", "g", false);
    PairOverlaid(false);
    DrainsOf(a, b);
    TopologyServes(a, b);
  }

  // ----- single calls on what was calculated -----

  lemma CallIs(p: Published, call: Call, hash: string -> nat)
    requires forall o <- call.input.observations :: RoutedObservation(o)
    ensures var c := Calculate(p.copy, "a.x", Size(2), call.application, call.input, hash);
      var (after, reply) := Apply(p, "a.x", Size(2), call, hash);
      && (after.state, reply) == EventStep(p.state, c)
      && after.versions == Deliver(p, call.Publish?, call.application, reply).versions
      && after.bus == Deliver(p, call.Publish?, call.application, reply).bus
  {
  }

  /** A first written event, and what every later change does to it. */
  lemma FirstEvent(s: State, c: Calculated)
    requires s.fingerprints == map[] && s.counters == map[] && c.written
    ensures var (t, reply) := EventStep(s, c);
      && reply == Current(Some(Event(1, c.now, c.quorate, c.nodes))) && Issued(t, c.application) == 1
      && EventOf(t, c.application) == reply.event
      && c.application in t.fingerprints && t.fingerprints[c.application].drained == c.drained
  {
  }

  lemma SecondEvent(s: State, c: Calculated)
    requires c.application in s.fingerprints && s.fingerprints[c.application].drained != c.drained
    requires c.routes.balanced != []
    ensures var (t, reply) := EventStep(s, c);
      && Issued(t, c.application) == Issued(s, c.application) + 1
      && c.application in t.fingerprints
      && t.fingerprints[c.application] == Fingerprint(c.application, c.routes, c.drained)
      && reply == (if c.written then Current(Some(Event(Issued(t, c.application), c.now, c.quorate, c.nodes)))
                   else VersionNotWritten)
      && EventOf(t, c.application) == (if c.written then reply.event else EventOf(s, c.application))
  {
  }

  lemma SameEvent(s: State, c: Calculated)
    requires c.application in s.fingerprints && c.routes.balanced != []
    requires s.fingerprints[c.application] == Fingerprint(c.application, c.routes, c.drained)
    ensures var (t, reply) := EventStep(s, c);
      && reply == Current(EventOf(s, c.application)) && Issued(t, c.application) == Issued(s, c.application)
      && t.fingerprints == s.fingerprints && t.events == s.events
  {
  }

  // ----- the runs -----

  function Announced(p: Published, publishes: bool, version: nat): seq<(string, nat)> {
    if publishes && !("shop" in p.versions && p.versions["shop"] == version) then p.bus + [("shop", version)] else p.bus
  }

  /** The state after a first event of version one, which `reply` answers. */
  ghost predicate Begun(p: Published, reply: Events.Reply, published: bool) {
    && VersionIn(reply) == Some(1) && NoneDrains(reply.event.value.nodes)
    && Issued(p.state, "shop") == 1 && EventOf(p.state, "shop") == reply.event
    && "shop" in p.state.fingerprints && p.state.fingerprints["shop"].drained == []
    && p.bus == (if published then [("shop", 1)] else [])
    && p.versions == (if published then map["shop" := 1] else map[])
  }

  lemma DeliverFirst(p: Published, publishes: bool, reply: Events.Reply)
    requires p.versions == map[] && VersionIn(reply) == Some(1)
    ensures var q := Deliver(p, publishes, "shop", reply);
      && q.bus == (if publishes then p.bus + [("shop", 1)] else p.bus)
      && q.versions == (if publishes then map["shop" := 1] else map[])
  {
  }

  /** What the witnesses need of an input while `a.x` serves. */
  ghost predicate Serving(i: Input, hash: string -> nat) {
    && AllRouted(i) && i.written
    && forall copy :: ServedBy(Calculate(copy, "a.x", Size(2), "shop", i, hash))
  }

  predicate ServedBy(c: Calculated) {
    c.application == "shop" && c.drained == [] && c.written && NoneDrains(c.nodes)
  }

  /** And while it drains. */
  ghost predicate Drained(i: Input, hash: string -> nat) {
    AllRouted(i) && forall copy :: DrainedBy(Calculate(copy, "a.x", Size(2), "shop", i, hash), i.written)
  }

  predicate DrainedBy(c: Calculated, written: bool) {
    c.application == "shop" && c.drained == ["a.x"] && c.routes == ROUTES && c.written == written
  }

  const ROUTES := RouteTable([ONLY_B], [ONLY_B], DigestOf([ONLY_B], [ONLY_B]))
  const DRAINED := Fingerprint("shop", ROUTES, ["a.x"])

  lemma SeesServing(hash: string -> nat)
    ensures Serving(Sees(false, 0, true), hash)
  {
    PairRouted();
    forall copy ensures ServedBy(Calculate(copy, "a.x", Size(2), "shop", Sees(false, 0, true), hash)) {
      ServingCalculated(copy, 0, hash);
    }
  }

  lemma SeesDrained(now: int, written: bool, hash: string -> nat)
    requires now <= MAX_AGE
    ensures Drained(Sees(true, now, written), hash)
  {
    PairRouted();
    forall copy ensures DrainedBy(Calculate(copy, "a.x", Size(2), "shop", Sees(true, now, written), hash), written) {
      DrainingCalculated(copy, now, written, hash);
    }
  }

  lemma FirstCall(p: Published, call: Call, hash: string -> nat)
    requires call.application == "shop" && Serving(call.input, hash)
    requires p.state == NOTHING && p.versions == map[] && p.bus == []
    ensures var (q, reply) := Apply(p, "a.x", Size(2), call, hash);
      Begun(q, reply, call.Publish?)
  {
    var c := Calculate(p.copy, "a.x", Size(2), "shop", call.input, hash);
    assert ServedBy(c);
    CallIs(p, call, hash);
    FirstEvent(p.state, c);
    DeliverFirst(p, call.Publish?, Apply(p, "a.x", Size(2), call, hash).1);
  }

  lemma DrainCall(p: Published, call: Call, hash: string -> nat)
    requires call.application == "shop" && Drained(call.input, hash)
    requires "shop" in p.state.fingerprints && p.state.fingerprints["shop"].drained == []
    ensures var (q, reply) := Apply(p, "a.x", Size(2), call, hash);
      var version := Issued(p.state, "shop") + 1;
      && Issued(q.state, "shop") == version
      && "shop" in q.state.fingerprints && q.state.fingerprints["shop"] == DRAINED
      && (if call.input.written then VersionIn(reply) == Some(version) && EventOf(q.state, "shop") == reply.event
          else reply == VersionNotWritten && EventOf(q.state, "shop") == EventOf(p.state, "shop"))
      && (call.Ask? || !call.input.written ==> q.bus == p.bus && q.versions == p.versions)
  {
    var c := Calculate(p.copy, "a.x", Size(2), "shop", call.input, hash);
    assert DrainedBy(c, call.input.written);
    CallIs(p, call, hash);
    SecondEvent(p.state, c);
  }

  /** An answer with the event of `p` again, which the publisher puts on the bus when it is new to it. */
  ghost predicate Repeated(p: Published, publishes: bool, q: Published, reply: Events.Reply) {
    && "shop" in p.state.events && reply == Current(Some(p.state.events["shop"]))
    && EventOf(q.state, "shop") == EventOf(p.state, "shop")
    && Issued(q.state, "shop") == Issued(p.state, "shop") && q.state.fingerprints == p.state.fingerprints
    && q.bus == Announced(p, publishes, p.state.events["shop"].version)
  }

  lemma DeliverRepeated(p: Published, publishes: bool, reply: Events.Reply)
    requires "shop" in p.state.events && reply == Current(Some(p.state.events["shop"]))
    ensures Deliver(p, publishes, "shop", reply).bus == Announced(p, publishes, p.state.events["shop"].version)
  {
  }

  lemma LaterCall(p: Published, call: Call, hash: string -> nat)
    requires call.application == "shop" && Drained(call.input, hash)
    requires "shop" in p.state.fingerprints && p.state.fingerprints["shop"] == DRAINED && "shop" in p.state.events
    ensures var (q, reply) := Apply(p, "a.x", Size(2), call, hash);
      Repeated(p, call.Publish?, q, reply)
  {
    var c := Calculate(p.copy, "a.x", Size(2), "shop", call.input, hash);
    assert DrainedBy(c, call.input.written);
    CallIs(p, call, hash);
    SameEvent(p.state, c);
    DeliverRepeated(p, call.Publish?, Apply(p, "a.x", Size(2), call, hash).1);
  }

  function RunAt(calls: seq<Call>, k: nat, hash: string -> nat): (Published, seq<Events.Reply>)
    requires k <= |calls|
  {
    Run(START, "a.x", Size(2), calls[..k], hash)
  }

  lemma RunStarts(calls: seq<Call>, hash: string -> nat)
    requires |calls| > 0 && calls[0].application == "shop" && Serving(calls[0].input, hash)
    ensures var (p, replies) := RunAt(calls, 1, hash);
      |replies| == 1 && Begun(p, replies[0], calls[0].Publish?)
  {
    assert calls[..0] == [];
    RunStep(START, "a.x", Size(2), calls, 0, hash);
    FirstCall(START, calls[0], hash);
  }

  /** Calls that serve first and drain then. */
  ghost predicate TurnsToDrain(calls: seq<Call>, hash: string -> nat) {
    && |calls| == 3 && (forall call <- calls :: call.application == "shop")
    && Serving(calls[0].input, hash) && Drained(calls[1].input, hash) && Drained(calls[2].input, hash)
  }

  // ----- a drain that goes unseen -----

  /** The counter says two and the drain is known, but the only event, on the bus, still says that none drains. */
  ghost predicate Unseen(p: Published, replies: seq<Events.Reply>) {
    && |replies| >= 2 && VersionIn(replies[0]) == Some(1) && NoneDrains(replies[0].event.value.nodes)
    && replies[1] == VersionNotWritten
    && "shop" in p.state.fingerprints && p.state.fingerprints["shop"] == DRAINED
    && Issued(p.state, "shop") == 2 && EventOf(p.state, "shop") == replies[0].event && p.bus == [("shop", 1)]
  }

  /** And the third answer is that event again. */
  ghost predicate UnseenTwice(p: Published, replies: seq<Events.Reply>) {
    |replies| == 3 && Unseen(p, replies) && replies[2] == replies[0]
  }

  lemma UnseenSecond(calls: seq<Call>, hash: string -> nat)
    requires TurnsToDrain(calls, hash) && calls[0].Publish? && !calls[1].input.written
    ensures var (p, replies) := RunAt(calls, 2, hash);
      |replies| == 2 && Unseen(p, replies) && p.versions == map["shop" := 1]
  {
    RunStarts(calls, hash);
    RunStep(START, "a.x", Size(2), calls, 1, hash);
    DrainCall(RunAt(calls, 1, hash).0, calls[1], hash);
  }

  lemma StillUnseen(p: Published, replies: seq<Events.Reply>, publishes: bool, q: Published, reply: Events.Reply)
    requires Unseen(p, replies) && p.versions == map["shop" := 1] && Repeated(p, publishes, q, reply)
    requires |replies| == 2
    ensures UnseenTwice(q, replies + [reply])
  {
  }

  lemma UnseenThird(calls: seq<Call>, hash: string -> nat)
    requires TurnsToDrain(calls, hash) && calls[0].Publish? && !calls[1].input.written
    ensures var (p, replies) := RunAt(calls, 3, hash);
      UnseenTwice(p, replies)
  {
    UnseenSecond(calls, hash);
    RunStep(START, "a.x", Size(2), calls, 2, hash);
    var (p, replies) := RunAt(calls, 2, hash);
    LaterCall(p, calls[2], hash);
    var (q, reply) := Apply(p, "a.x", Size(2), calls[2], hash);
    StillUnseen(p, replies, calls[2].Publish?, q, reply);
  }

  function UnseenCalls(): seq<Call> {
    [Publish("shop", Sees(false, 0, true)), Publish("shop", Sees(true, 1000, false)),
     Publish("shop", Sees(true, 2000, true))]
  }

  /** A first event, the same member draining while the version file cannot be written, and the same again with the file
      writable: the last answer is the first event. */
  lemma DrainGoesUnseen(hash: string -> nat)
    ensures var (p, replies) := RunAt(UnseenCalls(), 3, hash);
      UnseenTwice(p, replies)
  {
    SeesServing(hash);
    SeesDrained(1000, false, hash);
    SeesDrained(2000, true, hash);
    UnseenThird(UnseenCalls(), hash);
  }

  // ----- a change that only askers see -----

  /** Both versions were answered and `bus` is what was published. */
  ghost predicate Skipped(p: Published, replies: seq<Events.Reply>, bus: seq<(string, nat)>) {
    && |replies| >= 2 && VersionIn(replies[0]) == Some(1) && VersionIn(replies[1]) == Some(2)
    && "shop" in p.state.fingerprints && p.state.fingerprints["shop"] == DRAINED
    && EventOf(p.state, "shop") == replies[1].event && p.bus == bus
  }

  lemma SkippedSecond(calls: seq<Call>, hash: string -> nat)
    requires TurnsToDrain(calls, hash) && calls[0].Ask? && calls[1].Ask? && calls[1].input.written
    ensures var (p, replies) := RunAt(calls, 2, hash); |replies| == 2 && Skipped(p, replies, []) && p.versions == map[]
  {
    RunStarts(calls, hash);
    RunStep(START, "a.x", Size(2), calls, 1, hash);
    DrainCall(RunAt(calls, 1, hash).0, calls[1], hash);
  }

  lemma SecondPublished(p: Published, replies: seq<Events.Reply>, q: Published, reply: Events.Reply)
    requires Skipped(p, replies, []) && p.versions == map[] && Repeated(p, true, q, reply)
    ensures Skipped(q, replies + [reply], [("shop", 2)])
  {
  }

  lemma SkippedThird(calls: seq<Call>, hash: string -> nat)
    requires TurnsToDrain(calls, hash) && calls[0].Ask? && calls[1].Ask? && calls[1].input.written && calls[2].Publish?
    ensures var (p, replies) := RunAt(calls, 3, hash); Skipped(p, replies, [("shop", 2)])
  {
    SkippedSecond(calls, hash);
    RunStep(START, "a.x", Size(2), calls, 2, hash);
    var (p, replies) := RunAt(calls, 2, hash);
    LaterCall(p, calls[2], hash);
    var (q, reply) := Apply(p, "a.x", Size(2), calls[2], hash);
    SecondPublished(p, replies, q, reply);
  }

  function SkippedCalls(): (calls: seq<Call>)
    ensures |calls| == 3 && calls[0].input.written && calls[1].input.written && calls[2].input.written
  {
    [Ask("shop", Sees(false, 0, true)), Ask("shop", Sees(true, 1000, true)), Publish("shop", Sees(true, 2000, true))]
  }

  /** With every write succeeding, a change first seen by others than the publisher passes the bus by: versions one and
      two are answered, and only the second is published. */
  lemma AskHidesChange(hash: string -> nat)
    ensures var (p, replies) := RunAt(SkippedCalls(), 3, hash);
      Skipped(p, replies, [("shop", 2)])
  {
    SeesServing(hash);
    SeesDrained(1000, true, hash);
    SeesDrained(2000, true, hash);
    SkippedThird(SkippedCalls(), hash);
  }

  // ----- a version file cut off in a write -----

  lemma CutOff(file: VersionFile, before: State, after: State)
    requires Issued(before, "shop") != Issued(after, "shop")
    ensures FileAfter(file, before, after, VersionNotWritten, Part) == Torn
  {
  }

  lemma LifeIs(d: Durable, call: Call, residue: Residue, hash: string -> nat)
    ensures var (after, reply) := Apply(d.p, "a.x", Size(2), call, hash);
      LiveOn(d, "a.x", Size(2), Goes(call, residue), hash)
      == Durable(after, FileAfter(d.file, d.p.state, after.state, reply, residue))
  {
  }

  lemma TornBy(d: Durable, first: Events.Reply, call: Call, hash: string -> nat)
    requires Begun(d.p, first, true) && call.application == "shop" && Drained(call.input, hash) && !call.input.written
    ensures var after := LiveOn(d, "a.x", Size(2), Goes(call, Part), hash);
      after.file == Torn && after.p.bus == [("shop", 1)]
  {
    DrainCall(d.p, call, hash);
    LifeIs(d, call, Part, hash);
    CutOff(d.file, d.p.state, Apply(d.p, "a.x", Size(2), call, hash).0.state);
  }

  ghost predicate Forgetful(d: Durable) {
    d.p.state == NOTHING && d.p.versions == map[] && d.p.bus == [("shop", 1)]
  }

  lemma FirstAgain(d: Durable, call: Call, hash: string -> nat)
    requires Forgetful(d) && call.Publish? && call.application == "shop"
    requires Drained(call.input, hash) && call.input.written
    ensures LiveOn(d, "a.x", Size(2), Goes(call, Kept), hash).p.bus == [("shop", 1), ("shop", 1)]
  {
    var c := Calculate(d.p.copy, "a.x", Size(2), "shop", call.input, hash);
    assert DrainedBy(c, true);
    CallIs(d.p, call, hash);
    FirstEvent(d.p.state, c);
    DeliverFirst(d.p, true, Apply(d.p, "a.x", Size(2), call, hash).1);
    LifeIs(d, call, Kept, hash);
  }

  ghost predicate TurnsAndRestarts(lives: seq<Life>, hash: string -> nat) {
    && |lives| == 4 && lives[0].Goes? && lives[1].Goes? && lives[1].residue.Part? && lives[2].Restarts?
    && lives[3].Goes? && lives[3].residue.Kept? && lives[3].call.input.written
    && lives[0].call.Publish? && lives[3].call.Publish? && !lives[1].call.input.written
    && TurnsToDrain([lives[0].call, lives[1].call, lives[3].call], hash)
  }

  function LifeAt(lives: seq<Life>, k: nat, hash: string -> nat): Durable
    requires k <= |lives|
  {
    LivedUntil(Durable(START, Readable(map[])), "a.x", Size(2), lives, k, hash)
  }

  lemma LifeNext(lives: seq<Life>, k: nat, hash: string -> nat)
    requires k < |lives|
    ensures LifeAt(lives, k + 1, hash) == LiveOn(LifeAt(lives, k, hash), "a.x", Size(2), lives[k], hash)
  {
    LivesNext(Durable(START, Readable(map[])), "a.x", Size(2), lives, k, hash);
  }

  lemma FirstLife(lives: seq<Life>, hash: string -> nat) returns (first: Events.Reply)
    requires TurnsAndRestarts(lives, hash)
    ensures Begun(LifeAt(lives, 1, hash).p, first, true)
  {
    var call := lives[0].call;
    assert call in [lives[0].call, lives[1].call, lives[3].call];
    assert lives[..0] == [] && LifeAt(lives, 0, hash).p == START;
    FirstCall(START, call, hash);
    first := Apply(START, "a.x", Size(2), call, hash).1;
    LifeNext(lives, 0, hash);
    LifeIs(LifeAt(lives, 0, hash), call, lives[0].residue, hash);
  }

  lemma SecondLife(lives: seq<Life>, hash: string -> nat)
    requires TurnsAndRestarts(lives, hash)
    ensures var d := LifeAt(lives, 2, hash); d.file == Torn && d.p.bus == [("shop", 1)]
  {
    var call := lives[1].call;
    assert call in [lives[0].call, lives[1].call, lives[3].call];
    var first := FirstLife(lives, hash);
    LifeNext(lives, 1, hash);
    TornBy(LifeAt(lives, 1, hash), first, call, hash);
  }

  lemma RestartForgets(d: Durable, hash: string -> nat)
    requires d.file == Torn && d.p.bus == [("shop", 1)]
    ensures Forgetful(LiveOn(d, "a.x", Size(2), Restarts, hash))
  {
  }

  lemma ThirdLife(lives: seq<Life>, hash: string -> nat)
    requires TurnsAndRestarts(lives, hash)
    ensures Forgetful(LifeAt(lives, 3, hash))
  {
    SecondLife(lives, hash);
    LifeNext(lives, 2, hash);
    RestartForgets(LifeAt(lives, 2, hash), hash);
  }

  lemma FourthLife(lives: seq<Life>, hash: string -> nat)
    requires TurnsAndRestarts(lives, hash)
    ensures LifeAt(lives, 4, hash).p.bus == [("shop", 1), ("shop", 1)]
  {
    var call := lives[3].call;
    assert call in [lives[0].call, lives[1].call, lives[3].call];
    ThirdLife(lives, hash);
    LifeNext(lives, 3, hash);
    FirstAgain(LifeAt(lives, 3, hash), call, hash);
  }

  function TornLives(): seq<Life> {
    [Goes(Publish("shop", Sees(false, 0, true)), Kept), Goes(Publish("shop", Sees(true, 1000, false)), Part),
     Restarts, Goes(Publish("shop", Sees(true, 2000, true)), Kept)]
  }

  /** The store's own failed write cuts its file off, the restart starts at zero, and version one is published again. */
  lemma TornFileRepeats(hash: string -> nat)
    ensures var bus := LifeAt(TornLives(), 4, hash).p.bus;
      bus == [("shop", 1), ("shop", 1)] && !Rises(bus)
  {
    SeesServing(hash);
    SeesDrained(1000, false, hash);
    SeesDrained(2000, true, hash);
    FourthLife(TornLives(), hash);
    assert [("shop", 1), ("shop", 1)][0] == [("shop", 1), ("shop", 1)][1];
  }
}
