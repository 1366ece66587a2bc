/** The guarded destructive reset of one node: src/lifecycle/node-data-reset.mjs,
    node-reset-validation.mjs and node-reset-donors.mjs. */
module NodeReset {
  import opened Options
  import Names
  import RecoveryState
  import Sorting

  datatype Status = Status(ready: bool, localState: string, clusterStatus: string, wsrepReady: string,
                           initialized: bool, blockedRecovery: bool)

  datatype Disposition = NoDisposition | ResetInitialized | SingleMemberResync | OtherDisposition

  datatype DryRun = Omitted | Chosen(value: bool) | NotBoolean

  datatype Donor = Donor(node: string, healthy: bool, primary: bool)

  /** `dataDir` is the resolved path; `key` is `None` when it is not a string. */
  datatype Request = Request(
    node: string, dataDir: Option<string>, confirmation: string, dryRun: DryRun, key: Option<string>,
    force: bool, disposition: Disposition, offline: bool, donor: Option<Donor>)

  datatype Config = Config(node: string, dataDir: string, offlineRecovery: bool)

  /** The steps of the workflow; each is logged when it has completed. */
  datatype Effect =
    | Fenced | RoutingExcluded | IsolationVerified | StatusRechecked
    | Stopped | DataRemoved | Restarted | RejoinVerified | Reincluded

  /** What one request meets: `status` is `None` when the status call fails, `fails` the steps that fail. */
  datatype World = World(status: Option<Status>, recovery: RecoveryState.State, donors: Option<seq<Option<Donor>>>,
                         rejoined: Status, fails: set<Effect>)

  predicate IsSyncedPrimary(status: Status) {
    status.localState == "Synced" && status.wsrepReady == "ON" && status.clusterStatus == "Primary"
  }

  // ----- guards -----

  datatype Refusal =
    | WrongNode | WrongDirectory | WrongConfirmation | BadDryRun | MissingKey | StatusUnavailable
    | HealthyNode | AmbiguousRecovery | InitializedWithoutForce | NoDonor | IsolationUnverified | StepFailed | NotReady

  datatype Validation = Invalid(refusal: Refusal) | Accepted(dryRun: bool, resync: bool, initialized: bool)

  const OFFLINE := Status(false, "", "", "", false, false)

  predicate Resync(request: Request) {
    request.disposition == SingleMemberResync
  }

  function ObservedStatus(config: Config, request: Request, world: World): Option<Status> {
    if world.status.None? && config.offlineRecovery && request.offline then Some(OFFLINE) else world.status
  }

  const ACTIVE_RECOVERY := {RecoveryState.AwaitingQuorum, RecoveryState.RecoveryAuthorized, RecoveryState.Bootstrapping,
                            RecoveryState.BlockedAmbiguous}

  predicate Initialized(status: Status) {
    status.localState == "Initialized" || status.initialized
  }

  function ValidateNodeDataReset(config: Config, request: Request, world: World): Validation {
    if request.node != config.node then Invalid(WrongNode)
    else if request.dataDir.Some? && request.dataDir.value != config.dataDir then Invalid(WrongDirectory)
    else if request.confirmation != "RESET " + config.node then Invalid(WrongConfirmation)
    else if request.dryRun.NotBoolean? then Invalid(BadDryRun)
    else
      var dryRun := request.dryRun.Chosen? && request.dryRun.value;
      if !dryRun && request.key.GetOr("") == "" then Invalid(MissingKey)
      else
        var observed := ObservedStatus(config, request, world);
        if observed.None? then Invalid(StatusUnavailable)
        else
          var status := observed.value;
          if !Resync(request) && (status.ready || status.localState == "Synced" || status.clusterStatus == "Primary")
            then Invalid(HealthyNode)
          else if world.recovery in ACTIVE_RECOVERY || status.blockedRecovery then Invalid(AmbiguousRecovery)
          else if Initialized(status) && (!request.force || request.disposition !in {ResetInitialized, SingleMemberResync}) then
            Invalid(InitializedWithoutForce)
          else Accepted(dryRun, Resync(request), Initialized(status))
  }

  // ----- donors -----

  predicate EligibleDonor(donor: Option<Donor>, node: string) {
    donor.Some? && donor.value.healthy && donor.value.primary && donor.value.node != node
  }

  predicate DonorByName(left: Option<Donor>, right: Option<Donor>) {
    left.None? || (right.Some? && Names.Leq(left.value.node, right.value.node))
  }

  function SelectRecoveryDonor(donors: seq<Option<Donor>>, node: string): Option<string> {
    var eligible := Sorting.Filter(donors, (d: Option<Donor>) => EligibleDonor(d, node));
    if eligible == [] then None
    else
      Sorting.SortElements(eligible, DonorByName);
      var first := Sorting.Sort(eligible, DonorByName)[0];
      if first.Some? then Some(first.value.node) else None
  }

  /** The donor is the least-named healthy Primary other than the node itself; there is none only when no
      donor qualifies. */
  lemma DonorExact(donors: seq<Option<Donor>>, node: string)
    ensures var chosen := SelectRecoveryDonor(donors, node);
      && (chosen.None? <==> forall name: string :: name == node || Some(Donor(name, true, true)) !in donors)
      && (chosen.Some? ==>
           && chosen.value != node && Some(Donor(chosen.value, true, true)) in donors
           && forall name: string :: name != node && Some(Donor(name, true, true)) in donors ==>
             Names.Leq(chosen.value, name))
  {
    var keep := (d: Option<Donor>) => EligibleDonor(d, node);
    var eligible := Sorting.Filter(donors, keep);
    Sorting.FilterMembers(donors, keep);
    if eligible != [] {
      var sorted := Sorting.Sort(eligible, DonorByName);
      Sorting.SortElements(eligible, DonorByName);
      DonorByNameIsOrder();
      Sorting.SortSorted(eligible, DonorByName);
      assert sorted[0] in sorted;
      assert eligible[0] in eligible;
      forall d | d in eligible ensures Names.Leq(sorted[0].value.node, d.value.node) {
        var k :| 0 <= k < |sorted| && sorted[k] == d;
        Names.LeqTotal(d.value.node, d.value.node);
      }
    }
  }

  lemma DonorByNameIsOrder()
    ensures Sorting.TotalPreorder(DonorByName)
  {
    Names.LeqIsOrder();
  }

  // ----- the workflow -----

  datatype Outcome = Outcome(dryRun: bool, resync: bool, initialized: bool, donor: Option<string>, reincluded: bool)

  datatype Reply = Done(outcome: Outcome) | Refused(refusal: Refusal)

  function DonorFor(config: Config, request: Request, world: World): Option<string> {
    if request.offline then SelectRecoveryDonor([request.donor], config.node)
    else if world.donors.None? then None
    else SelectRecoveryDonor(world.donors.value, config.node)
  }

  /** The steps of an executing reset, in order. */
  function Workflow(request: Request): seq<Effect> {
    if Resync(request) then
      [Fenced, RoutingExcluded, IsolationVerified] + (if request.offline then [] else [StatusRechecked]) +
      [Stopped, DataRemoved, Restarted, RejoinVerified, Reincluded]
    else [Stopped, DataRemoved]
  }

  predicate Completes(effect: Effect, world: World) {
    effect !in world.fails && (effect.RejoinVerified? ==> IsSyncedPrimary(world.rejoined))
  }

  /** The steps that complete: up to the first that does not. */
  function Performed(steps: seq<Effect>, world: World): seq<Effect> {
    if steps == [] || !Completes(steps[0], world) then [] else [steps[0]] + Performed(steps[1..], world)
  }

  /** The first `k` steps complete. */
  ghost predicate Through(steps: seq<Effect>, k: nat, world: World) {
    k <= |steps| && forall i :: 0 <= i < k ==> Completes(steps[i], world)
  }

  /** The first step that fails cuts the workflow off. */
  lemma {:induction false} StopsAt(steps: seq<Effect>, k: nat, world: World)
    requires k < |steps| && !Completes(steps[k], world) && Through(steps, k, world)
    ensures Performed(steps, world) == steps[..k]
  {
    if k > 0 {
      forall i | 0 <= i < k - 1 ensures Completes(steps[1..][i], world) {
        assert steps[1..][i] == steps[i + 1];
      }
      StopsAt(steps[1..], k - 1, world);
      assert [steps[0]] + steps[1..][..k - 1] == steps[..k];
    }
  }

  lemma {:induction false} AllPerformed(steps: seq<Effect>, world: World)
    requires Through(steps, |steps|, world)
    ensures Performed(steps, world) == steps == steps[..|steps|]
  {
    if steps != [] {
      AllPerformed(steps[1..], world);
      assert steps == [steps[0]] + steps[1..];
    }
  }

  /** A request that is not answered from the idempotency table: what it does and what it replies. */
  function Perform(config: Config, request: Request, world: World): (seq<Effect>, Reply) {
    match ValidateNodeDataReset(config, request, world)
    case Invalid(refusal) => ([], Refused(refusal))
    case Accepted(dryRun, resync, initialized) =>
      var donor := if resync then DonorFor(config, request, world) else None;
      if resync && donor.None? then ([], Refused(NoDonor))
      else if dryRun then ([], Done(Outcome(true, resync, initialized, donor, false)))
      else
        var effects := Performed(Workflow(request), world);
        if effects == Workflow(request) then (effects, Done(Outcome(false, resync, initialized, donor, resync)))
        else (effects, Refused(StepFailed))
  }

  class NodeDataReset {
    const config: Config
    var idempotency: map<string, Outcome>
    var log: seq<Effect>

    constructor (config: Config)
      ensures this.config == config && idempotency == map[] && log == []
    {
      this.config := config;
      idempotency, log := map[], [];
    }

    /** One awaited call; `steps` and `k` say which step of the workflow it is. */
    method Step(effect: Effect, world: World, ghost before: seq<Effect>, ghost steps: seq<Effect>, ghost k: nat)
      returns (completed: bool)
      requires k < |steps| && steps[k] == effect && log == before + steps[..k] && Through(steps, k, world)
      modifies this`log
      ensures completed <==> Completes(effect, world)
      ensures completed ==> Through(steps, k + 1, world)
      ensures log == if completed then before + steps[..k + 1] else before + Performed(steps, world)
      ensures !completed ==> Performed(steps, world) != steps
    {
      completed := Completes(effect, world);
      if completed {
        log := log + [effect];
        assert steps[..k + 1] == steps[..k] + [effect];
      } else {
        StopsAt(steps, k, world);
      }
    }

    /** The branches of an executing reset: each awaited call may end it. */
    method Execute(request: Request, world: World) returns (completed: bool)
      modifies this`log
      ensures log == old(log) + Performed(Workflow(request), world)
      ensures completed <==> Performed(Workflow(request), world) == Workflow(request)
    {
      ghost var steps, before := Workflow(request), log;
      ghost var at := StopPosition(request);
      WorkflowSteps(request);
      assert steps[..0] == [];
      if Resync(request) {
        completed := Step(Fenced, world, before, steps, 0);
        if !completed { return; }
        completed := Step(RoutingExcluded, world, before, steps, 1);
        if !completed { return; }
        completed := Step(IsolationVerified, world, before, steps, 2);
        if !completed { return; }
        if !request.offline {
          completed := Step(StatusRechecked, world, before, steps, 3);
          if !completed { return; }
        }
      }
      completed := Step(Stopped, world, before, steps, at);
      if !completed { return; }
      completed := Step(DataRemoved, world, before, steps, at + 1);
      if !completed { return; }
      if Resync(request) {
        completed := Step(Restarted, world, before, steps, at + 2);
        if !completed { return; }
        completed := Step(RejoinVerified, world, before, steps, at + 3);
        if !completed { return; }
        completed := Step(Reincluded, world, before, steps, at + 4);
        if !completed { return; }
      }
      AllPerformed(steps, world);
    }

    method Reset(request: Request, world: World) returns (reply: Reply)
      modifies this
      ensures (idempotency, log, reply) == ResetStep(config, old(idempotency), old(log), request, world)
    {
      if request.key.Some? && request.key.value in idempotency {
        return Done(idempotency[request.key.value]);
      }
      var validation := ValidateNodeDataReset(config, request, world);
      assert log + [] == log;
      if validation.Invalid? {
        return Refused(validation.refusal);
      }
      var donor := if validation.resync then DonorFor(config, request, world) else None;
      if validation.resync && donor.None? {
        return Refused(NoDonor);
      }
      if !validation.dryRun {
        var completed := Execute(request, world);
        if !completed {
          return Refused(StepFailed);
        }
      }
      var outcome :=
        Outcome(validation.dryRun, validation.resync, validation.initialized, donor,
                !validation.dryRun && validation.resync);
      if request.key.GetOr("") != "" {
        idempotency := idempotency[request.key.value := outcome];
      }
      reply := Done(outcome);
    }
  }

  function ResetStep(config: Config, idempotency: map<string, Outcome>, log: seq<Effect>, request: Request,
                     world: World)
    : (map<string, Outcome>, seq<Effect>, Reply)
  {
    if request.key.Some? && request.key.value in idempotency
      then (idempotency, log, Done(idempotency[request.key.value]))
    else
      var (effects, reply) := Perform(config, request, world);
      (if reply.Done? && request.key.GetOr("") != "" then idempotency[request.key.value := reply.outcome]
       else idempotency,
       log + effects, reply)
  }

  // ----- one request -----

  /** Everything that must hold before an executing request may touch the node. */
  ghost predicate Guarded(config: Config, request: Request, world: World) {
    && request.node == config.node
    && (request.dataDir.Some? ==> request.dataDir.value == config.dataDir)
    && request.confirmation == "RESET " + config.node
    && request.dryRun in {Omitted, Chosen(false)}
    && request.key.Some? && request.key.value != ""
    && world.recovery !in {RecoveryState.AwaitingQuorum, RecoveryState.RecoveryAuthorized, RecoveryState.Bootstrapping,
                           RecoveryState.BlockedAmbiguous}
    && (if world.status.None? then config.offlineRecovery && request.offline
        else StatusAllows(world.status.value, request))
    && (request.disposition == SingleMemberResync ==> HasDonor(config, request, world))
  }

  ghost predicate HasDonor(config: Config, request: Request, world: World) {
    exists name: string :: name != config.node && Offers(request, world, name)
  }

  /** What a status that was read must not say. */
  ghost predicate StatusAllows(status: Status, request: Request) {
    && !status.blockedRecovery
    && (status.localState == "Initialized" || status.initialized ==>
         request.force && request.disposition in {ResetInitialized, SingleMemberResync})
    && (request.disposition == SingleMemberResync
        || (!status.ready && status.localState != "Synced" && status.clusterStatus != "Primary"))
  }

  /** A healthy Primary donor of that name is in the offline request, or among the donors that could be listed. */
  ghost predicate Offers(request: Request, world: World, name: string) {
    if request.offline then request.donor == Some(Donor(name, true, true))
    else world.donors.Some? && Some(Donor(name, true, true)) in world.donors.value
  }

  lemma {:induction false} PerformedIsPrefix(steps: seq<Effect>, world: World)
    ensures Performed(steps, world) <= steps
    ensures forall e :: e in Performed(steps, world) ==> Completes(e, world)
    ensures Performed(steps, world) == steps <==> forall e :: e in steps ==> Completes(e, world)
  {
    if steps != [] {
      PerformedIsPrefix(steps[1..], world);
      assert steps == [steps[0]] + steps[1..];
    }
  }

  /** The guard chain accepts an executing request, with a donor when it needs one, just when it is guarded. */
  lemma GuardsExact(config: Config, request: Request, world: World)
    ensures Guarded(config, request, world) <==>
      var validation := ValidateNodeDataReset(config, request, world);
      && validation.Accepted? && !validation.dryRun
      && (Resync(request) ==> DonorFor(config, request, world).Some?)
    ensures var validation := ValidateNodeDataReset(config, request, world);
      validation.Accepted? ==>
        && validation.resync == (request.disposition == SingleMemberResync)
        && (validation.dryRun <==> request.dryRun == Chosen(true))
        && (world.status.None? ==> config.offlineRecovery && request.offline)
  {
    DonorExact([request.donor], config.node);
    if world.donors.Some? {
      DonorExact(world.donors.value, config.node);
    }
    DonorForExact(config, request, world);
  }

  lemma DonorForExact(config: Config, request: Request, world: World)
    ensures DonorFor(config, request, world).Some? <==> HasDonor(config, request, world)
    ensures DonorFor(config, request, world).Some? ==> Offers(request, world, DonorFor(config, request, world).value)
  {
    var donors := if request.offline then [request.donor] else world.donors.GetOr([]);
    DonorExact(donors, config.node);
    var chosen := SelectRecoveryDonor(donors, config.node);
    if chosen.Some? && (request.offline || world.donors.Some?) {
      assert Offers(request, world, chosen.value);
    }
  }

  /** The recorded outcome tells the request's mode, what the status said of the data, the chosen donor, and whether the
      node was taken back. */
  ghost predicate Describes(outcome: Outcome, config: Config, request: Request, world: World) {
    var resync := request.disposition == SingleMemberResync;
    && (outcome.dryRun <==> request.dryRun == Chosen(true)) && (outcome.resync <==> resync)
    && (outcome.initialized <==>
         world.status.Some? && (world.status.value.localState == "Initialized" || world.status.value.initialized))
    && (outcome.reincluded <==> resync && !outcome.dryRun)
    && (outcome.donor.Some? <==> resync)
    && (resync ==> outcome.donor.value != config.node && Offers(request, world, outcome.donor.value))
  }

  lemma DonorIsAnother(config: Config, request: Request, world: World)
    ensures DonorFor(config, request, world).Some? ==> DonorFor(config, request, world).value != config.node
  {
    DonorExact([request.donor], config.node);
    if world.donors.Some? {
      DonorExact(world.donors.value, config.node);
    }
  }

  /** A request touches the node only when it is guarded, and then performs an initial part of the workflow:
      so removal comes after the stop; for a resync also after verified fencing and routing exclusion; and
      reinclusion only after the node was seen Synced and Primary. */
  lemma RequestTrace(config: Config, request: Request, world: World)
    ensures var (effects, reply) := Perform(config, request, world);
      && (effects != [] ==> Guarded(config, request, world))
      && effects <= Workflow(request)
      && (Guarded(config, request, world) ==> effects == Performed(Workflow(request), world))
      && (RejoinVerified in effects ==>
           && world.rejoined.localState == "Synced" && world.rejoined.clusterStatus == "Primary"
           && world.rejoined.wsrepReady == "ON")
      && (forall e <- effects :: e !in world.fails)
      && (reply.Done? ==> Describes(reply.outcome, config, request, world))
      && (reply.Done? && reply.outcome.resync ==> reply.outcome.donor.Some? && reply.outcome.donor.value != config.node)
      && (reply.Done? && !reply.outcome.dryRun <==> Guarded(config, request, world) && effects == Workflow(request))
      && (reply.Done? && reply.outcome.dryRun ==> effects == [] && request.dryRun == Chosen(true))
  {
    GuardsExact(config, request, world);
    DonorForExact(config, request, world);
    DonorIsAnother(config, request, world);
    PerformedIsPrefix(Workflow(request), world);
    assert Workflow(request) != [];
  }

  /** Whenever `second` was done, `first` had been done before. */
  ghost predicate Precedes(effects: seq<Effect>, first: Effect, second: Effect) {
    forall j :: 0 <= j < |effects| && effects[j] == second ==> exists i :: 0 <= i < j && effects[i] == first
  }

  lemma PositionsPrecede(steps: seq<Effect>, effects: seq<Effect>, p: nat, q: nat)
    requires effects <= steps && Sorting.NoDuplicates(steps) && p < q < |steps|
    ensures Precedes(effects, steps[p], steps[q])
  {
    forall j | 0 <= j < |effects| && effects[j] == steps[q] ensures exists i :: 0 <= i < j && effects[i] == steps[p] {
      assert steps[j] == effects[j];
      assert j == q;
      assert effects[p] == steps[p];
    }
  }

  /** Where the stop of the node is in the workflow. */
  function StopPosition(request: Request): nat {
    if !Resync(request) then 0 else if request.offline then 3 else 4
  }

  lemma WorkflowSteps(request: Request)
    ensures var steps, n := Workflow(request), StopPosition(request);
      && |steps| >= n + 2 && steps[n] == Stopped && steps[n + 1] == DataRemoved && Sorting.NoDuplicates(steps)
      && (if Resync(request) then
            && n >= 3 && steps[0] == Fenced && steps[1] == RoutingExcluded && steps[2] == IsolationVerified
            && (if request.offline then n == 3 else n == 4 && steps[3] == StatusRechecked)
            && |steps| == n + 5 && steps[n + 2] == Restarted && steps[n + 3] == RejoinVerified
            && steps[n + 4] == Reincluded
          else n == 0 && |steps| == 2)
  {
  }

  /** A request that got through an initial part of the workflow removed data only after the stop. A resync
      stopped only after fencing, routing exclusion and their verification, in this order, and unless the node is
      offline after another look at its status; it restarted only after the removal, saw the node Synced and
      Primary only after the restart, and reincluded it only after that. Any other reset did nothing but stop and
      remove. */
  lemma WorkflowOrder(request: Request, effects: seq<Effect>)
    requires effects <= Workflow(request)
    ensures Precedes(effects, Stopped, DataRemoved)
    ensures Resync(request) ==>
      && Precedes(effects, Fenced, RoutingExcluded) && Precedes(effects, RoutingExcluded, IsolationVerified)
      && Precedes(effects, IsolationVerified, Stopped)
      && Precedes(effects, DataRemoved, Restarted) && Precedes(effects, Restarted, RejoinVerified)
      && Precedes(effects, RejoinVerified, Reincluded)
    ensures Resync(request) && !request.offline ==>
      Precedes(effects, IsolationVerified, StatusRechecked) && Precedes(effects, StatusRechecked, Stopped)
    ensures !Resync(request) ==> forall e :: e in effects ==> e in {Stopped, DataRemoved}
  {
    var steps, n := Workflow(request), StopPosition(request);
    WorkflowSteps(request);
    PositionsPrecede(steps, effects, n, n + 1);
    if Resync(request) {
      PositionsPrecede(steps, effects, 0, 1);
      PositionsPrecede(steps, effects, 1, 2);
      PositionsPrecede(steps, effects, 2, n);
      PositionsPrecede(steps, effects, n + 1, n + 2);
      PositionsPrecede(steps, effects, n + 2, n + 3);
      PositionsPrecede(steps, effects, n + 3, n + 4);
      if !request.offline {
        PositionsPrecede(steps, effects, 2, 3);
        PositionsPrecede(steps, effects, 3, n);
      }
    }
  }

  // ----- runs -----

  datatype Attempt = Attempt(request: Request, world: World)

  datatype State = State(idempotency: map<string, Outcome>, removed: multiset<string>)

  const FRESH := State(map[], multiset{})

  predicate Uses(attempt: Attempt, key: string) {
    attempt.request.key == Some(key)
  }

  /** One request that does not overlap with another; `removed` counts completed removals by key. */
  function Next(config: Config, s: State, attempt: Attempt): State {
    var (idempotency, effects, _) := ResetStep(config, s.idempotency, [], attempt.request, attempt.world);
    State(idempotency, if DataRemoved in effects then s.removed + multiset{attempt.request.key.GetOr("")} else s.removed)
  }

  function Run(config: Config, attempts: seq<Attempt>): State {
    if attempts == [] then FRESH else Next(config, Run(config, attempts[..|attempts| - 1]), attempts[|attempts| - 1])
  }

  lemma RemovalStep(config: Config, s: State, attempt: Attempt, key: string)
    ensures var t := Next(config, s, attempt);
      && s.idempotency.Keys <= t.idempotency.Keys
      && (t.removed[key] != s.removed[key] ==>
           && t.removed[key] == s.removed[key] + 1 && Uses(attempt, key) && key != "" && key !in s.idempotency
           && Guarded(config, attempt.request, attempt.world)
           && (!Resync(attempt.request) ==> key in t.idempotency))
  {
    RequestTrace(config, attempt.request, attempt.world);
    var effects := Perform(config, attempt.request, attempt.world).0;
    if DataRemoved in effects && !Resync(attempt.request) {
      assert effects == Workflow(attempt.request);
    }
  }

  /** A key that is not used for a resync removes data at most once, over every sequence of requests. */
  lemma {:induction false} RemovedOncePerKey(config: Config, attempts: seq<Attempt>, key: string)
    requires forall a <- attempts :: Uses(a, key) ==> !Resync(a.request)
    ensures var s := Run(config, attempts); s.removed[key] <= 1 && (s.removed[key] == 1 ==> key in s.idempotency)
  {
    if attempts != [] {
      var n := |attempts| - 1;
      RemovedOncePerKey(config, attempts[..n], key);
      assert attempts[n] in attempts;
      RemovalStep(config, Run(config, attempts[..n]), attempts[n], key);
    }
  }

  /** What a caller can check beforehand: the request is meant for this node and set to execute. */
  predicate Executable(config: Config, request: Request) {
    && request.node == config.node
    && (request.dataDir.Some? ==> request.dataDir.value == config.dataDir)
    && request.confirmation == "RESET " + config.node
    && request.dryRun in {Omitted, Chosen(false)}
    && request.key.Some? && request.key.value != ""
    && (Resync(request) && request.offline ==> EligibleDonor(request.donor, config.node))
  }

  /** Sending the same request twice can remove data twice, if the circumstances are bad enough. */
  ghost predicate MayRemoveTwice(config: Config, request: Request) {
    exists first, second ::
      Run(config, [Attempt(request, first), Attempt(request, second)]).removed[request.key.GetOr("")] == 2
  }

  /** `at most once per idempotency key` fails exactly for resyncs: a resync that fails after the removal does
      not record its key, so a retry removes again; any other request records the key in time. */
  lemma RemovesTwiceExactly(config: Config, request: Request)
    ensures MayRemoveTwice(config, request) <==> Executable(config, request) && Resync(request)
  {
    var key := request.key.GetOr("");
    if Executable(config, request) && Resync(request) {
      RetriedResync(config, request);
    }
    if first, second :| Run(config, [Attempt(request, first), Attempt(request, second)]).removed[key] == 2 {
      TwiceNeedsResync(config, request, first, second);
    }
  }

  lemma RunOfTwo(config: Config, a: Attempt, b: Attempt)
    ensures Run(config, [a, b]) == Next(config, Next(config, FRESH, a), b)
  {
    assert [a, b][..1] == [a] && [a][..0] == [];
    assert Run(config, [a]) == Next(config, FRESH, a);
  }

  lemma TwiceNeedsResync(config: Config, request: Request, first: World, second: World)
    requires Run(config, [Attempt(request, first), Attempt(request, second)]).removed[request.key.GetOr("")] == 2
    ensures Executable(config, request) && Resync(request)
  {
    var a, b, key := Attempt(request, first), Attempt(request, second), request.key.GetOr("");
    if !Resync(request) {
      RemovedOncePerKey(config, [a, b], key);
    }
    RunOfTwo(config, a, b);
    RemovalStep(config, FRESH, a, key);
    RemovalStep(config, Next(config, FRESH, a), b, key);
    GuardedExecutable(config, request, first);
  }

  lemma GuardedExecutable(config: Config, request: Request, world: World)
    requires Guarded(config, request, world)
    ensures Executable(config, request)
  {
  }

  /** A calm world with a healthy donor, in which the restart fails. */
  function FailingRestart(config: Config): World {
    var calm := Status(false, "", "", "", false, false);
    World(Some(calm), RecoveryState.Pending, Some([Some(Donor(config.node + "x", true, true))]), calm, {Restarted})
  }

  lemma FailingRestartGuarded(config: Config, request: Request)
    requires Executable(config, request) && Resync(request)
    ensures Guarded(config, request, FailingRestart(config))
  {
    var world := FailingRestart(config);
    var name := if request.offline then request.donor.value.node else config.node + "x";
    assert world.donors.value[0] == Some(Donor(config.node + "x", true, true));
    assert name != config.node && Offers(request, world, name);
  }

  lemma RetriedResync(config: Config, request: Request)
    requires Executable(config, request) && Resync(request)
    ensures MayRemoveTwice(config, request)
  {
    var world := FailingRestart(config);
    var a := Attempt(request, world);
    FailingRestartGuarded(config, request);
    RequestTrace(config, request, world);
    PerformedUpToRestart(request, world);
    RunOfTwo(config, a, a);
    assert Next(config, FRESH, a) == State(map[], multiset{request.key.value});
  }

  lemma PerformedUpToRestart(request: Request, world: World)
    requires Resync(request) && world.fails == {Restarted}
    ensures DataRemoved in Performed(Workflow(request), world)
    ensures Performed(Workflow(request), world) != Workflow(request)
  {
    var steps := Workflow(request);
    var n := if request.offline then 5 else 6;
    PerformedThrough(steps, n, world);
    assert steps[n - 1] == DataRemoved && steps[n] == Restarted;
    PerformedIsPrefix(steps, world);
    assert Performed(steps, world)[n - 1] == DataRemoved;
    assert Restarted in steps && !Completes(Restarted, world);
  }

  lemma {:induction false} PerformedThrough(steps: seq<Effect>, n: nat, world: World)
    requires n <= |steps| && forall k :: 0 <= k < n ==> Completes(steps[k], world)
    ensures |Performed(steps, world)| >= n && Performed(steps, world)[..n] == steps[..n]
  {
    if n > 0 {
      assert forall k :: 0 <= k < n - 1 ==> steps[1..][k] == steps[k + 1];
      PerformedThrough(steps[1..], n - 1, world);
      assert steps[..n] == [steps[0]] + steps[1..][..n - 1];
    }
  }

  /** A dry run that carries a key takes it: a later executing request with that key only replays the plan. */
  lemma DryRunTakesKey(config: Config, s: State, rehearsal: Attempt, later: Attempt)
    requires Perform(config, rehearsal.request, rehearsal.world).1.Done? && rehearsal.request.dryRun == Chosen(true)
    requires rehearsal.request.key.Some? && rehearsal.request.key.value != ""
    requires rehearsal.request.key.value !in s.idempotency
    requires later.request.key == rehearsal.request.key
    ensures var t := Next(config, s, rehearsal);
      && t.removed == s.removed
      && Next(config, t, later) == t
      && ResetStep(config, t.idempotency, [], later.request, later.world).2.outcome.dryRun
  {
    RequestTrace(config, rehearsal.request, rehearsal.world);
  }

  /** A guarded reset in a world where nothing fails removes the data. */
  lemma FirstRemoves(config: Config, request: Request, world: World)
    requires Guarded(config, request, world) && !Resync(request) && world.fails == {}
    ensures Run(config, [Attempt(request, world)]).removed == multiset{request.key.value}
  {
    var attempt := Attempt(request, world);
    assert [attempt][..0] == [];
    RequestTrace(config, request, world);
    AllPerformed(Workflow(request), world);
    assert Workflow(request)[1] == DataRemoved;
  }

  /** A reset of an idle node that nobody objects to. */
  function IdleReset(dryRun: DryRun): Attempt {
    var idle := Status(false, "", "", "", false, false);
    Attempt(Request("a.x", None, "RESET a.x", dryRun, Some("k"), false, NoDisposition, false, None),
            World(Some(idle), RecoveryState.Pending, None, idle, {}))
  }

  lemma RehearsalPlans()
    ensures var rehearsal := IdleReset(Chosen(true));
      Perform(Config("a.x", "/data", false), rehearsal.request, rehearsal.world).1.Done?
  {
    assert "RESET " + "a.x" == "RESET a.x";
  }

  lemma IdleGuarded()
    ensures var later := IdleReset(Omitted);
      Guarded(Config("a.x", "/data", false), later.request, later.world) && !Resync(later.request)
  {
    assert "RESET " + "a.x" == "RESET a.x";
  }

  /** The run that shows it: a rehearsed reset, then the executing one with the same key, which removes nothing,
      although it removes the data when it comes first. */
  lemma RehearsalBlocksReset()
    ensures var config := Config("a.x", "/data", false);
      && Run(config, [IdleReset(Chosen(true)), IdleReset(Omitted)]).removed == multiset{}
      && Run(config, [IdleReset(Omitted)]).removed == multiset{"k"}
  {
    var config, rehearsal, later := Config("a.x", "/data", false), IdleReset(Chosen(true)), IdleReset(Omitted);
    RehearsalPlans();
    IdleGuarded();
    RunOfTwo(config, rehearsal, later);
    DryRunTakesKey(config, FRESH, rehearsal, later);
    FirstRemoves(config, later.request, later.world);
  }
}
