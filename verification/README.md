# Verified model of the supervisor: cold recovery and routing convergence

The supervisor of a Galera cluster makes two kinds of decisions that are worth a proof.

**Cold recovery.** After a full outage, exactly one node may start MariaDB with `--wsrep-new-cluster`.
Supervisors collect evidence from every configured node, group it into histories, choose the strongest
one and its winner, name the choice by a digest of the canonical evidence, gather leases from the other
supervisors, collect the evidence once more, and only then bootstrap. The joiners follow one at a time.

**Routing convergence.** Each supervisor keeps the latest observation of every node, judges a majority,
ranks the nodes, elects a writer, writes the shared assignment and publishes versioned events. The
supervisors exchange nothing but observations, and the writer must not churn.

The project models both as state machines and proves them over all inputs, all runs and, where it
matters, all interleavings. Code that changes state in place is a class or a loop here too: each of its
methods is tied to a step function on values, and the theorems are about those functions and their runs.

## Reading order

| file | content |
|---|---|
| `Options`, `Names`, `Sorting`, `Majority` | optional values, host names and their order, stable sorting, quorum arithmetic |
| `Evidence`, `Candidate`, `RecoveryEpoch` | evidence validation, selection of the winner, canonical form, epoch id and phase table |
| `DecisionStore` | the compare-and-set file, and the promise chain of its writes under interleaving (`StoreRuns`) |
| `Protocol`, `ProtocolFacts`, `ProtocolRuns` | the recovery protocol object, single calls, whole runs |
| `Lease` | the lease file of one supervisor, and all of them over runs (`LeaseRuns`) |
| `RecoveryState` | the reported recovery state and its table |
| `Startup`, `StartupPipeline` | arguments, vote, and the path from plan to final decision |
| `Undisturbed` | a recovery that nobody disturbs completes, elections happen, and two runs that break a promise |
| `LocalEvidence`, `Joiners`, `NodeReset` | the shared recovery scan, joiner sequencing, the destructive reset |
| `Observation`, `Quorum`, `Routing` | observation store, majority view, ranking and election |
| `Assignment`, `AssignmentRuns`, `AssignmentWitnesses` | coordinator, bundle service and event path over one shared table, their runs, and concrete runs that break a promise |
| `Events`, `EventRuns`, `EventWitnesses` | fingerprints, versions, hold-down and publication, their runs and restarts, and concrete runs that break a promise |

## Main results

- At most one node per lease window comes out of startup with the bootstrap flag
  (`StartupPipeline.OneBootstrapPerWindow`). It joins quorum intersection over lease histories with the
  exact condition under which startup grants the flag (`StartupPipeline.PrepareSupervisorRecovery`, which
  gives the final decision of a fresh start for every input).
- A bootstrap that begins rests on evidence that is complete, shows no active Primary to this supervisor
  and would select the same winner again, although the code compares digests only
  (`ProtocolFacts.BeginRevalidates`, and over runs `ProtocolRuns.BootstrapSoundInRuns`).
- What the digest shows is said field by field (`RecoveryEpoch.SameDigestExactly`): a begin goes on exactly
  when every node reports the planned facts again (`ProtocolFacts.BeginByReports`). A running Primary of the
  own cluster is joined, and no election is held beside it (`ProtocolFacts.JoinsExactly`,
  `ProtocolFacts.NoElectionBesidePrimary`).
- Selection is characterised without sorting or grouping (`Candidate.SelectionExact`); the epoch id
  determines cluster, quorum and winner (`ProtocolFacts.SameEpochSameWinner`).
- Supervisors fed the same observations reach the same quorum verdict, routes and bundle version
  (`Routing.DecisionsConverge`); two quorate views agree (`Quorum.QuorateViewsAgree`).
- A step that changes the assigned writer changes it to one that is acceptable at that step
  (`AssignmentRuns.AssignmentsSafe`), and an aligned set of supervisors never moves a writer that serves
  (`AssignmentRuns.NoChurn`).
- The promise chain of the decision store makes writes exclusive and ordered, and its catch is what lets
  a write follow a failed one (`StoreRuns.WritesAreSerial`, `StoreRuns.FailureDoesNotBlock`,
  `StoreRuns.WithoutCatchBlocked`).
- A lease hands out calculated routes only when their writer is the assigned one
  (`Assignment.LeasedWriterIsAssigned`).
- Versions count fingerprint changes, each is published at most once and in order
  (`EventRuns.VersionCountsTurns`, `EventRuns.PublishedOnce`); which changes reach the bus, and when versions
  rise across restarts, is exact (`EventRuns.ChangePublishedExactly`, `EventRuns.RisesAcrossRestarts`).

## Promises the code does not keep

Each is kept as the code has it, with a concrete run or input that shows it and the exact condition
under which the promise holds.

- *Completion is final.* A completed record is completed once more by a call that omits the winner, and
  loses its winner by it (`Undisturbed.SoleMemberCompletesTwice`); the condition is in
  `ProtocolFacts.CompleteExact`. Between plans two completions succeed at most
  (`ProtocolRuns.CompleteAtMostTwice`), one if winners are named (`ProtocolRuns.CompleteOnce`).
- *Blocked and complete are left only by a new plan.* The record in memory changes before the file, so a
  block whose write failed is forgotten by a restart, and the record bootstraps after all
  (`Undisturbed.SoleMemberForgetsBlock`). The exact condition is in `ProtocolRuns.TerminalUntilPlan`;
  without a restart the promise holds (`ProtocolRuns.TerminalWithoutRestart`).
- *The winner is fixed between plans.* It keeps its name exactly until a completion that omits the winner names
  a record that holds its winner as a bare name and fits its phase, cluster and quorum
  (`ProtocolRuns.WinnerNameExact`; the run is `Undisturbed.SoleMemberCompletesTwice`). In the records of a run
  that is a complete one (`ProtocolRuns.ForgottenWasComplete`).
- *Completed membership is the quorum.* The comparison joins names with the two characters `\0`, so a
  name that contains them can pass (`ProtocolFacts.JoinedNamesPass`); it is a rearrangement exactly when
  no reported name holds a backslash (`ProtocolFacts.MembershipExact`).
- *The recovery epoch never goes back.* True for epochs of one kind (`RecoveryState.EpochNeverDecreases`),
  false when numbers and texts mix (`RecoveryState.MixedKindsDecrease`). A run goes back exactly when a call
  passes an earlier epoch over a remembered one of the other kind whose text is not above it
  (`RecoveryState.FallsExactly`). One text between suffices exactly when the numbers are in order as texts
  (`RecoveryState.OneTextExactly`); some run leads back from `m` to a smaller `n` exactly when `m` is negative
  or `n` is at least two (`RecoveryState.NumbersReachedExactly`).
- *A reset removes data once per key.* A resync that fails after the removal removes again on retry:
  twice exactly for executable resyncs, by a run built for each of them (`NodeReset.RemovesTwiceExactly`).
  A dry run with a key takes the key (`NodeReset.DryRunTakesKey`; the run is
  `NodeReset.RehearsalBlocksReset`).
- *Only the coordinator's writers are assigned.* The event path assigns an eligible but malformed
  observation that the coordinator refuses (`AssignmentWitnesses.TickAssignsRefused`); the two checks agree
  exactly on well-formed observations (`Assignment.ChecksAgree`).
- *A persisted writer stays while it is eligible.* A supervisor without a copy of the assignment, for
  instance after a restart, can move it (`AssignmentWitnesses.RestartChurns`, exact in
  `AssignmentRuns.TickKeepsExact`), and so can a route table cached for a second
  (`AssignmentWitnesses.CachedRoutesChurn`, exact in `AssignmentRuns.LeaseKeepsExact`).
- *Rebalance recalculates.* It answers with cached routes exactly when the token grants an application
  other than the requested or default one and its entry is live (`Assignment.RebalanceExact`; the run, in which
  the request names `""`, is `AssignmentWitnesses.RebalanceReusesCache`).
- *Every topology change is published.* It is, exactly when its version was written and the application is
  published, by the same call or a later one, before its next written change
  (`EventRuns.ChangePublishedExactly`). A failed write loses it (`EventWitnesses.DrainGoesUnseen`); a change
  first seen by `GET /routing/events` or a new stream is skipped when another one is written before the next
  publication (`EventWitnesses.AskHidesChange`). Callers always get the event of the last written change, which is current
  exactly when the last change was written (`EventRuns.EventIsLastWritten`).
- *Versions survive restarts.* A failed write can cut the version file off, and a restart that cannot read it
  starts at zero (`EventWitnesses.TornFileRepeats`). Versions rise exactly as long as no publication is due
  with a version that is not above one from before such a restart (`EventRuns.RisesAcrossRestarts`), so they
  rise whenever every restart can read the file (`EventRuns.RisesWhenReadable`).

## Conventions

- SHA-256 is an injective function of the text it digests, and JSON text determines the value it stands
  for; the truncation of a bundle version to 16 hex digits is not modelled.
- One strict total order on strings stands for `localeCompare` and for the default array sort.
- Loads, weights and scores are finite real numbers. Numeric recovery epochs are integers written in decimal.
- A protocol call, a lease claim, a lease request and an event tick are one step each. Clocks, peers'
  answers, failing writes and failing queries are inputs of the step.
- `docs/cold-recovery.md:11` says that the `safe_to_bootstrap` member is selected and that divergent UUIDs
  block recovery. The code does neither: selection never looks at that flag, and a strongest history with
  a majority wins over divergent ones. The model follows the code.
- The local evidence reader of the wiring adds `galera` fields that the startup reader does not have, so
  agreement of supervisors is stated for the fields they use, not for the wiring.

## Model

| member | source | states |
|---|---|---|
| Names.FqdnExact | src/cluster/cold-bootstrap/candidate.mjs:1 | a host name is at most 253 characters of at least two labels of at most 63 letters, digits and inner hyphens, joined by dots |
| Names.HostNameExact | src/cluster/observation.mjs:2 | a node identity is a host name that is not four numbers up to 255 joined by dots |
| Names.RoutedNameExact | src/routing/event-snapshot.mjs:5 | a routed name is at most 253 characters of at least two labels of any length |
| Evidence.ValidateRecoveryEvidence | src/cluster/cold-bootstrap/evidence-validation.mjs:3-17 | the loop with its growing node set reports the defect of the first bad item, none if there is none, and refuses empty evidence |
| Evidence.ValidationExact | src/cluster/cold-bootstrap/evidence-validation.mjs:4-16 | evidence passes exactly when it is non-empty, its nodes are distinct, and every report is identified, positioned, counted, boolean in active, on a valid directory if it names one, and observed within the age on either side |
| Evidence.DefectLocated | src/cluster/cold-bootstrap/evidence-validation.mjs:10-14 | the refusal is the first offending item's: everything before it is in order, a malformed or repeated node is invalid, a well-formed new one too old or too far ahead is stale |
| Candidate.SelectionExact | src/cluster/cold-bootstrap/candidate.mjs:3-21 | on usable states the outcome is eligible exactly when one history is strictly strongest by highest seqno and size, has the minimum size and a non-negative seqno; the winner has that seqno and the least name among its history's states there; the refusal code says which condition failed |
| Candidate.UnusableRefused | src/cluster/cold-bootstrap/candidate.mjs:4-5 | no states throw, and a state without FQDN, uuid or integer seqno refuses the selection |
| Candidate.WinnerHasGreatestSeqno | src/cluster/cold-bootstrap/candidate.mjs:7-20 | the winner's seqno is the greatest of all histories, not only of its own |
| Candidate.SelectionForgetsOrder | src/cluster/cold-bootstrap/candidate.mjs:6-20 | for distinct nodes eligibility, refusal and winner do not depend on the order of the states |
| Candidate.SamePositionsSameWinner | src/cluster/cold-bootstrap/candidate.mjs:15-20 | equal (node, uuid, seqno) triples give the same outcome and winner position, whatever else the states carry |
| RecoveryEpoch.AcknowledgementsExact | src/cluster/cold-bootstrap/recovery-epoch.mjs:20-29 | an authorization is accepted exactly when the acknowledgements are distinct known members, at least as many as required, and the requirement lies between one and the member count; and which of five errors refuses it otherwise |
| RecoveryEpoch.QuorumMembers | src/cluster/cold-bootstrap/recovery-epoch.mjs:15 | the recorded quorum is the sorted duplicate-free list of exactly the configured names |
| RecoveryEpoch.CanonicalForgetsOrder | src/cluster/cold-bootstrap/recovery-epoch.mjs:13 | canonical evidence, and with it digest and epoch id, does not depend on the order of distinct nodes |
| RecoveryEpoch.CanonicalIgnoresFreshness | src/cluster/cold-bootstrap/recovery-epoch.mjs:13 | timestamps and generations do not reach the canonical form |
| RecoveryEpoch.CanonicalDetermines | src/cluster/cold-bootstrap/recovery-epoch.mjs:13-15 | equal canonical evidence means the same number of items, the same canonical items, the same triples and the same nodes |
| RecoveryEpoch.SameDigestExactly | src/cluster/cold-bootstrap/recovery-epoch.mjs:13-14 | two collections, the first of distinct nodes, have one digest exactly when both name the same nodes, each once, and each node's two reports agree in uuid, seqno, saved and recovered seqno, data directory, Galera state and truth of active |
| RecoveryEpoch.TransitionExact | src/cluster/cold-bootstrap/recovery-epoch.mjs:4-19 | a transition is refused as such exactly when it is neither a repetition nor one of the seven listed steps |
| DecisionStore.Store.Write | src/cluster/cold-bootstrap/decision-store.mjs:10-21 | a write that names an epoch succeeds only over that epoch; a failed write leaves the file as it was |
| StoreRuns.WritesAreSerial | src/cluster/cold-bootstrap/decision-store.mjs:7-21 | from the promise chain: however submissions, starts and ends interleave, writes take effect whole, one at a time, in call order, and each is answered for the file of its turn |
| StoreRuns.OneAtATime | src/cluster/cold-bootstrap/decision-store.mjs:11-19 | in every run no two operations of the store run at once, and one starts only when all called before it have settled |
| StoreRuns.ConditionalWrites | src/cluster/cold-bootstrap/decision-store.mjs:12-17 | in every run a settled conditional write was stored only over its own epoch, conflicted exactly otherwise, and a write that was not stored changed nothing for the next |
| StoreRuns.FailureDoesNotBlock | src/cluster/cold-bootstrap/decision-store.mjs:19 | from every reachable state any waiting write can settle, whatever the outcomes of the writes before it |
| StoreRuns.WithoutCatchBlocked | src/cluster/cold-bootstrap/decision-store.mjs:19 | with the tail promise not catching, a write behind a failed one settles in no continuation |
| StoreRuns.ChainedStore.Write | src/cluster/cold-bootstrap/decision-store.mjs:11-20 | a call chains its operation to the tail promise and moves the tail to it |
| StoreRuns.ChainedStore.Start | src/cluster/cold-bootstrap/decision-store.mjs:11-12 | an operation reads the file once the promise it is chained to has fulfilled |
| StoreRuns.ChainedStore.Complete | src/cluster/cold-bootstrap/decision-store.mjs:13-17 | a running operation compares what it read and replaces the file, or settles by a conflict or a failure |
| ProtocolFacts.CollectExact | src/cluster/cold-bootstrap/protocol.mjs:11-30 | when a collection is an active view, and when it is a full validated one without an active Primary |
| ProtocolFacts.PlanExact | src/cluster/cold-bootstrap/protocol.mjs:33-67 | a plan joins exactly when an active Primary is seen, and elects exactly when every node answered with valid evidence whose selection is eligible |
| ProtocolFacts.PlanLeaves | src/cluster/cold-bootstrap/protocol.mjs:37-66 | a join leaves memory and store alone; a refusal leaves its code and an election its record, in memory at once and in the store when the write succeeds |
| ProtocolFacts.JoinsExactly | src/cluster/cold-bootstrap/protocol.mjs:11-46 | a plan joins, changing nothing, exactly when some report is active, Primary, Synced, ready and names a cluster that the report of the first local member does not contradict, by its Galera uuid or, without one, its own |
| ProtocolFacts.NoElectionBesidePrimary | src/cluster/cold-bootstrap/protocol.mjs:45-46 | a running Primary of the cluster that the local report names, or of any while it names none, is joined, so no election is held beside it |
| ProtocolFacts.ForeignPrimaryNotJoined | src/cluster/cold-bootstrap/protocol.mjs:16-17 | a running Primary of another cluster than the local report names is not joined |
| ProtocolFacts.RefusalExact | src/cluster/cold-bootstrap/protocol.mjs:24-58 | which code a refused plan carries: the first failure, the defect, an identity mismatch or missing answers, a tie, a history too small, or none |
| ProtocolFacts.ElectExact | src/cluster/cold-bootstrap/protocol.mjs:59-63 | what an elected record holds: winner, cluster, evidence, digest, quorum and epoch id of the selection |
| ProtocolFacts.SameEpochSameWinner | src/cluster/cold-bootstrap/protocol.mjs:59-66 | two supervisors of the same nodes that obtain the same epoch id have the same cluster, quorum and winner |
| ProtocolFacts.SameTriplesSameWinner | src/cluster/cold-bootstrap/candidate.mjs:15-20 | equal (node, uuid, seqno) triples are enough for two supervisors to elect the same winner |
| ProtocolFacts.EpochIdStable | src/cluster/cold-bootstrap/recovery-epoch.mjs:13-15 | planning again on rearranged and re-observed evidence names the same epoch |
| ProtocolFacts.DigestShowsActivePrimary | src/cluster/cold-bootstrap/protocol.mjs:97-98 | an active Primary cannot appear without changing the digest |
| ProtocolFacts.NamedExact | src/cluster/cold-bootstrap/protocol.mjs:75-76 | a call is about the planned record in force exactly when it names its epoch |
| ProtocolFacts.AuthorizeExact | src/cluster/cold-bootstrap/protocol.mjs:73-84 | when an authorization succeeds, what the record then holds, and that a refused one changes nothing |
| ProtocolFacts.BeginExact | src/cluster/cold-bootstrap/protocol.mjs:85-108 | when a bootstrap begins: right epoch, authorized phase, recorded winner, collected evidence of the recorded digest, and a store that still holds the epoch |
| ProtocolFacts.BeginRevalidates | src/cluster/cold-bootstrap/protocol.mjs:90-104 | a bootstrap that begins rests on the planned reports, field by field: complete, valid, without an active Primary, and selecting the planned winner again |
| ProtocolFacts.BeginByReports | src/cluster/cold-bootstrap/protocol.mjs:90-108 | an entitled begin on a successful collection goes on exactly when every node reports the planned facts again and the store accepts; any difference in one of those fields leaves the record blocked as changed evidence |
| ProtocolFacts.CompleteExact | src/cluster/cold-bootstrap/protocol.mjs:109-119 | when a completion succeeds: by the recorded winner from bootstrapping, or once more without a winner while the complete record still names one; and what it records |
| ProtocolFacts.MembershipExact | src/cluster/cold-bootstrap/protocol.mjs:114 | an accepted membership is a rearrangement of the quorum exactly when no reported name contains a backslash |
| ProtocolFacts.JoinedNamesPass | src/cluster/cold-bootstrap/protocol.mjs:114 | a concrete membership that passes the comparison and is not the quorum |
| Protocol.ColdRecoveryProtocol.Plan | src/cluster/cold-bootstrap/protocol.mjs:33-67 | the call changes memory and store, and answers, as the plan step on the collected answers |
| Protocol.ColdRecoveryProtocol.Retry | src/cluster/cold-bootstrap/protocol.mjs:68-72 | a retry replans from empty memory, except after an identity mismatch, which it repeats |
| ProtocolFacts.RetryExact | src/cluster/cold-bootstrap/protocol.mjs:68-72 | a retry repeats what is in memory exactly when that carries an identity mismatch, and otherwise plans from empty memory |
| Protocol.ColdRecoveryProtocol.Authorize | src/cluster/cold-bootstrap/protocol.mjs:73-84 | the call is the authorize step on memory and store |
| Protocol.ColdRecoveryProtocol.BeginBootstrap | src/cluster/cold-bootstrap/protocol.mjs:85-108 | the call is the begin step: blocked when evidence fails or changed, bootstrapping otherwise |
| Protocol.ColdRecoveryProtocol.CompleteBootstrap | src/cluster/cold-bootstrap/protocol.mjs:109-119 | the call is the complete step |
| ProtocolRuns.RunKeeps | src/cluster/cold-bootstrap/protocol.mjs:33-119 | in every run each record is well planned, acknowledged by enough distinct members, and completed with an accepted membership, as its phase demands; its epoch id is that of its cluster and digest |
| ProtocolRuns.BootstrapSoundInRuns | src/cluster/cold-bootstrap/protocol.mjs:85-108 | in every run, whatever was planned before, a bootstrap that begins is entitled to: all nodes answered validly, no active Primary, planned digest, and selection on the latest evidence is eligible and picks the recorded winner, who asked |
| ProtocolRuns.IdentityFixed | src/cluster/cold-bootstrap/protocol.mjs:73-119 | between plans the epoch, cluster, digest and quorum never change, through every call, failed writes and restarts |
| ProtocolRuns.WinnerNameExact | src/cluster/cold-bootstrap/protocol.mjs:113-115 | between plans the winner keeps its name in memory and store exactly as long as no completion that omits the winner names a record of fitting phase, cluster and quorum that holds its winner as a bare name |
| ProtocolRuns.ForgottenWasComplete | src/cluster/cold-bootstrap/recovery-epoch.mjs:30-34 | in the records of a run such a record is a complete one |
| ProtocolRuns.ElectionNames | src/cluster/cold-bootstrap/protocol.mjs:62-66 | a plan that reports an election leaves memory and store naming only the elected epoch and winner |
| ProtocolRuns.PhaseStep | src/cluster/cold-bootstrap/recovery-epoch.mjs:4-10 | without a plan or a restart the phase stays or takes one step of the table |
| ProtocolRuns.BootstrapOnce | src/cluster/cold-bootstrap/protocol.mjs:89-107 | two successful begins have a plan between them |
| ProtocolRuns.CompleteOnce | src/cluster/cold-bootstrap/protocol.mjs:113-118 | two successful completions, the later naming its winner, have a plan between them |
| ProtocolRuns.CompleteAtMostTwice | src/cluster/cold-bootstrap/recovery-epoch.mjs:31-33 | three successful completions have a plan between them: the second loses the winner, and the third meets its absence |
| ProtocolRuns.TerminalUntilPlan | src/cluster/cold-bootstrap/protocol.mjs:73-119 | without a plan a blocked or complete record stays in force exactly as long as no restart meets a store that does not hold that phase, and nobody overwrites the file between a restart and the next read |
| ProtocolRuns.TerminalWithoutRestart | src/cluster/cold-bootstrap/protocol.mjs:73-119 | over any run without plan and restart a blocked or complete record in memory never moves, written or not |
| ProtocolRuns.CompletedMembership | src/cluster/cold-bootstrap/protocol.mjs:114-115 | in every run a completed record's membership without backslashes is a rearrangement of its quorum |
| ProtocolRuns.StoredEpochFixed | src/cluster/cold-bootstrap/protocol.mjs:80-116 | conditional writes never change the stored epoch id, whether they succeed or not |
| ProtocolRuns.RestartResumes | src/cluster/cold-bootstrap/protocol.mjs:9-10 | as long as no write fails and nobody else writes the file, a restart resumes the record it left |
| ProtocolRuns.UnsuccessfulAuthorization | src/cluster/cold-bootstrap/protocol.mjs:80-81 | a denied authorization changes nothing; one whose write fails has already authorized the record in memory |
| Undisturbed.UndisturbedCompletes | src/cluster/cold-bootstrap/protocol.mjs:33-119 | from any ledger, an election with a unanimous vote, unchanged canonical evidence and successful writes goes through authorized and bootstrapping to complete, with the quorum as membership |
| Undisturbed.SoleMemberElects | src/cluster/cold-bootstrap/protocol.mjs:59-66 | a single configured node with a saved seqno elects itself, so the claims about elections are about something |
| Undisturbed.SeenAgainEntitled | src/runtime/recovery-startup.mjs:49-62 | a configured member that was elected, sees the same answers again and holds all leases is entitled to bootstrap |
| Undisturbed.PairEntitled | src/runtime/recovery-startup.mjs:49-62 | a concrete clustered configuration: of two nodes with one history, both granting their leases, the lesser name is entitled to bootstrap |
| Undisturbed.SoleMemberCompletesTwice | src/cluster/cold-bootstrap/protocol.mjs:109-119 | a concrete recovery completed by name, once more without the winner, and refused the third time |
| Undisturbed.BlockedForgotten | src/cluster/cold-bootstrap/protocol.mjs:98-104 | whenever a block on changed evidence could not be written, a restart forgets it and the next begin on the planned evidence bootstraps |
| Undisturbed.SoleMemberForgetsBlock | src/cluster/cold-bootstrap/protocol.mjs:98-104 | the concrete run: blocked in memory, restarted, bootstrapping without a plan in between |
| Lease.RecoveryLease.ClaimLease | src/cluster/cold-bootstrap/lease.mjs:9-26 | exclusive create, repeated grant of the same pair without refreshing its time, takeover of a stale one, refusal otherwise |
| Lease.GrantedExact | src/cluster/cold-bootstrap/lease.mjs:10-24 | which claims are malformed, granted anew, granted again or refused, by file, pair and age, and what the file holds then |
| LeaseRuns.RunSound | src/cluster/cold-bootstrap/lease.mjs:9-26 | over every run each file holds the last fresh claim of its history, and fresh claims of one register are more than the stale period apart |
| LeaseRuns.VotesBacked | src/cluster/cold-bootstrap/lease.mjs:17-21 | every grant is backed by a fresh claim in the history of its register |
| LeaseRuns.RegisterExclusive | src/cluster/cold-bootstrap/lease.mjs:17-21 | one register never votes for two pairs within a stale period |
| LeaseRuns.MajorityExclusive | src/runtime/recovery-authorization.mjs:10-29 | two majorities whose fresh claims lie within one stale period are for the same epoch and winner |
| LeaseRuns.TakeoverPastWindow | src/cluster/cold-bootstrap/lease.mjs:19-21 | one millisecond past the stale period the same register backs another pair |
| RecoveryState.RecoveryStateObject.Set | src/cluster/cold-bootstrap/recovery-state.mjs:32-40 | the call changes the remembered state, reason and epoch, and answers, as the set step |
| RecoveryState.SetExact | src/cluster/cold-bootstrap/recovery-state.mjs:25-39 | stale and refused calls change nothing, changes follow the table, and a failure report undoes complete exactly when it is about another epoch and not stale |
| RecoveryState.StaleExact | src/cluster/cold-bootstrap/recovery-state.mjs:25-31 | an epoch is stale against another known one by number when both are numbers, and else by text |
| RecoveryState.EpochNeverDecreases | src/cluster/cold-bootstrap/recovery-state.mjs:25-37 | for epochs of one kind the remembered epoch never decreases over any run |
| RecoveryState.MixedKindsDecrease | src/cluster/cold-bootstrap/recovery-state.mjs:28-29 | a concrete run with mixed kinds in which it does decrease |
| RecoveryState.FallsExactly | src/cluster/cold-bootstrap/recovery-state.mjs:25-37 | over any run the remembered epoch goes back behind its first value exactly when some call passes an earlier one of that kind over a remembered one of the other kind whose text is not above it |
| RecoveryState.OneTextExactly | src/cluster/cold-bootstrap/recovery-state.mjs:28-29 | with one text between, a remembered number gives way to a smaller one exactly when the two are in order as texts |
| RecoveryState.NumbersReachedExactly | src/cluster/cold-bootstrap/recovery-state.mjs:25-37 | some run leads from a remembered number back to a smaller one exactly when the first is negative or the smaller at least two |
| RecoveryState.CompleteSurvivesReports | src/cluster/cold-bootstrap/recovery-state.mjs:35 | no number of failure reports for the completed epoch undoes complete |
| RecoveryState.AuthorizedFollowsQuorum | src/cluster/cold-bootstrap/recovery-state.mjs:5-17 | a run from pending that reaches recovery-authorized passed collecting-evidence and then awaiting-quorum |
| Startup.ArgumentsFlag | src/cluster/cold-bootstrap/startup-arguments.mjs:3-9 | the arguments hold the bootstrap flag once for a local bootstrap winner and never otherwise, however often they held it before |
| Startup.ArgumentsKept | src/cluster/cold-bootstrap/startup-arguments.mjs:5-8 | apart from the flag every argument stays where it was, except that a joiner with an address to join has it in place of each configured cluster address |
| Startup.GrantedNamesFacts | src/runtime/recovery-authorization.mjs:24-30 | the acknowledgements are distinct members, all of them exactly when all claims were granted |
| Startup.GrantedExactly | src/runtime/recovery-authorization.mjs:30 | a member is acknowledged exactly when its own lease was granted |
| StartupPipeline.VoteUnanimous | src/runtime/recovery-authorization.mjs:24-32 | the protocol accepts the gathered acknowledgements exactly when every configured member granted its lease: the majority test is strengthened by the full-acknowledgement rule |
| StartupPipeline.CastVote | src/runtime/recovery-authorization.mjs:31-34 | authorize and begin both succeed exactly when the vote is unanimous, the epoch is still stored and the evidence still has the recorded digest; the record is then bootstrapping |
| StartupPipeline.AuthorizeSupervisorRecovery | src/runtime/recovery-authorization.mjs:6-49 | arguments with the flag are handed out only to the configured local winner after an accepted vote and a promoted state file; from a state that awaits the quorum, in all those cases |
| StartupPipeline.ResolveRejoin | src/runtime/rejoin-decision.mjs:3-7 | a non-winner waits for the winner and joins, or is blocked; every other decision passes unchanged |
| StartupPipeline.PlanStartup | src/runtime/recovery-startup.mjs:49-52 | plan and recorded decision: a seen Primary gives a complete join and reports joining, a refused plan a block and blocked-ambiguous, an election a bootstrap of its winner and epoch and awaiting-quorum |
| StartupPipeline.PrepareSupervisorRecovery | src/runtime/recovery-startup.mjs:30-67 | from a fresh start the outcome of every input: a clean restart or a seen Primary joins; a refused plan rejoins exactly when the data directory starts and is blocked otherwise; who lost the election joins the winner that completes, and else rejoins or is blocked; the winner bootstraps, with the flag once, exactly when entitled, and else throws or is blocked for the listed reasons; without the needed writes it throws |
| StartupPipeline.OneBootstrapPerWindow | src/runtime/recovery-startup.mjs:49-62 | two supervisors of the same members that both come out with the flag, on leases within one stale period, are the same node and epoch |
| LocalEvidence.StartupLocalEvidence.EnterReader | src/cluster/cold-bootstrap/startup-local-evidence.mjs:12-13 | a call counts a generation and awaits the state file |
| LocalEvidence.StartupLocalEvidence.ObserveState | src/cluster/cold-bootstrap/startup-local-evidence.mjs:13-29 | a reader that has read the state file returns saved evidence, throws the recorded failure, takes the recovered position, or joins or starts the scan |
| LocalEvidence.ObserveExact | src/cluster/cold-bootstrap/startup-local-evidence.mjs:17-28 | a saved seqno or an active server is answered without a scan; else the failure, the position, or a wait, which starts the scan exactly when none runs |
| LocalEvidence.StartupLocalEvidence.SettleRunner | src/cluster/cold-bootstrap/startup-local-evidence.mjs:20-25 | the running scan ends with a position or a failure, before anything is recorded |
| LocalEvidence.StartupLocalEvidence.Record | src/cluster/cold-bootstrap/startup-local-evidence.mjs:20-25 | the outcome of the scan is remembered as position or failure |
| LocalEvidence.StartupLocalEvidence.Clear | src/cluster/cold-bootstrap/startup-local-evidence.mjs:26 | once its outcome is recorded the scan is cleared, and every reader that awaited it is due that outcome |
| LocalEvidence.StartupLocalEvidence.ResumeReader | src/cluster/cold-bootstrap/startup-local-evidence.mjs:28-29 | a reader that awaited the scan returns its position or throws |
| LocalEvidence.ScanRunsOnce | src/cluster/cold-bootstrap/startup-local-evidence.mjs:18-28 | under every interleaving of readers the scan is started at most once, never both fails and succeeds, and every result that used it tells its one outcome |
| LocalEvidence.OutcomePermanent | src/cluster/cold-bootstrap/startup-local-evidence.mjs:18-26 | a failure or a recovered position, once there, stays |
| LocalEvidence.FailureIsPermanent | src/cluster/cold-bootstrap/startup-local-evidence.mjs:18 | after a failure nothing is ever recovered and no further scan starts |
| LocalEvidence.SamePosition | src/cluster/cold-bootstrap/startup-local-evidence.mjs:28-29 | two readers that used the scan report the same uuid and seqno |
| Joiners.RecoverJoinersSequentially | src/runtime/sequential-joiners.mjs:9-31 | the effect trace is the verified prefix, then the first failure or the publication |
| Joiners.EpochStandsExact | src/runtime/sequential-joiners.mjs:15 | a joiner is not let start exactly when two known epochs differ |
| Joiners.FirstFailureExact | src/runtime/sequential-joiners.mjs:15-20 | every joiner before the first failure was let start, started and was verified, and the one there was not |
| Joiners.TraceInTurn | src/runtime/sequential-joiners.mjs:12-28 | each ending that the loop can append keeps the order of starts and verifications |
| NodeReset.DonorExact | src/lifecycle/node-reset-donors.mjs:1-6 | the donor is the least-named healthy Primary other than the node, and missing exactly when there is none |
| NodeReset.GuardsExact | src/lifecycle/node-reset-validation.mjs:6-26 | the guard chain accepts an executing request exactly when every guard holds, field by field; a status that cannot be read refuses it unless an offline recovery is allowed and requested |
| NodeReset.NodeDataReset.Execute | src/lifecycle/node-data-reset.mjs:25-42 | the branches of an executing reset, each awaited call able to end it, perform exactly the initial part of the workflow up to the first step that fails |
| NodeReset.NodeDataReset.Reset | src/lifecycle/node-data-reset.mjs:14-46 | a known key is answered from the table; otherwise guards, donor, workflow and the recorded outcome |
| NodeReset.RequestTrace | src/lifecycle/node-data-reset.mjs:17-41 | a request touches the node only when guarded, performs an initial part of the workflow, never on a dry run, and reincludes only after a Synced Primary view |
| NodeReset.WorkflowOrder | src/lifecycle/node-data-reset.mjs:26-38 | by positions: removal follows the stop; for a resync fencing, routing exclusion and verification come in this order before the stop, restart, verified rejoin and reinclusion in this order after the removal |
| NodeReset.RemovedOncePerKey | src/lifecycle/node-data-reset.mjs:16-44 | over every sequence of requests a key never used for a resync removes data at most once |
| NodeReset.RemovesTwiceExactly | src/lifecycle/node-data-reset.mjs:33-44 | the same request can remove data twice exactly when it is an executable resync |
| NodeReset.DryRunTakesKey | src/lifecycle/node-data-reset.mjs:16-44 | after a dry run with a key, an executing request with that key only replays the plan |
| NodeReset.RehearsalBlocksReset | src/lifecycle/node-data-reset.mjs:16-44 | the concrete run: the executing request removes nothing after the dry run, and the data when it comes first |
| Observation.CreatedAgain | src/cluster/observation.mjs:3-6 | a created observation is well-formed and timed, and creating it again at any clock gives it back |
| Observation.CreateExact | src/cluster/observation.mjs:3-6 | which observations can be created, and every field of a created one |
| Observation.SnapshotExact | src/cluster/observation-store.mjs:14 | a snapshot holds exactly the entries whose time is known and not past their age |
| Observation.ObservationStore.Upsert | src/cluster/observation-store.mjs:6-13 | the store accepts, replaces or refuses an observation, keeping the insertion order of nodes |
| Observation.UpsertExact | src/cluster/observation-store.mjs:6-13 | an upsert is accepted exactly when the observation is identified, timed and not older than the one held; it replaces only that node, a refused one changes nothing |
| Observation.FedHoldsLatest | src/cluster/observation-store.mjs:4-15 | after any sequence of upserts the store holds one latest acceptable observation of every node heard of |
| Observation.StoresConverge | src/cluster/observation-store.mjs:6-14 | stores fed the same observations in any order and with any repetition, one per node and timestamp, hold the same entries and give the same snapshot up to order |
| Quorum.UniqueExact | src/cluster/quorum.mjs:4-6 | the observations of a view are the last well-formed fresh one of each node heard of, and nothing else |
| Quorum.QuorumExact | src/cluster/quorum.mjs:2-11 | quorum holds exactly when enough distinct nodes were heard of in time and their last words name one cluster and one primary state, which are the reported ones |
| Quorum.QuorateViewsAgree | src/cluster/quorum.mjs:7-10 | two quorate views over the same members that agree on shared nodes report the same cluster and primary state |
| Quorum.NoiseNeverHelps | src/cluster/quorum.mjs:4-5 | without its stale and malformed observations a view is the same but for the reason of a refusal |
| Quorum.RepeatsNeverHelp | src/cluster/quorum.mjs:6-9 | further observations of nodes already heard of never help to reach the majority |
| Quorum.QuorumForgetsOrder | src/cluster/quorum.mjs:2-11 | with one observation per node the verdict does not depend on their order |
| Routing.BalancedFaithful | src/routing/decision.mjs:41-72 | balanced lists exactly the available nodes, each once, with its address, port and weight, ordered by threads (or queue, or nothing) over weight (a hundred by default, at least one) and then by name, all said in numbers |
| Routing.LessLoadedFirst | src/routing/decision.mjs:3-9 | of two available nodes the one with less load for its capacity comes first; at equal weights the one with fewer connected threads |
| Routing.PrimaryFaithful | src/routing/decision.mjs:68-71 | primary is the same routes with the writer moved to the front and the rest in ranked order; the version is a digest of both lists, or the label of the application when there are none |
| Routing.WriterSticks | src/routing/decision.mjs:59-67 | a previous writer's host that still serves stays the writer whatever the loads; every writer serves; there is none exactly when no node is usable |
| Routing.ElectionByNames | src/routing/decision.mjs:47-67 | without a serving previous writer the elected node is fixed by the application among the sorted names of the eligible nodes |
| Routing.RoutesForgetOrder | src/routing/decision.mjs:33-78 | routes and version do not depend on the order of the observations |
| Routing.DecisionsConverge | src/routing/decision.mjs:33-78 | supervisors fed the same observations reach, at one clock reading, the same quorum verdict and identical routes and version |
| Assignment.AssignmentStore.Get | src/routing/metadata-assignments.mjs:10-13 | a read answers from the table and refreshes the local copy |
| Assignment.AssignmentStore.Set | src/routing/metadata-assignments.mjs:14-18 | a write changes the copy at once and the table only when the query succeeds |
| Assignment.AssignmentCoordinator.Write | src/routing/quorum-assignment.mjs:6-12 | a write reaches copy and table only when the coordinator accepts it; a refused one changes nothing and says why |
| Assignment.CoordinatorExact | src/routing/quorum-assignment.mjs:6-11 | a write is accepted exactly under quorum for the address at which some node's last word shows it synced, Primary, healthy and not draining |
| Assignment.ViewExact | src/routing/quorum-assignment.mjs:7-8 | the majority every caller asks for: of the configured size, of the observations when none is configured, of one when it is not a positive integer, on observations at most three seconds old |
| Assignment.ChecksAgree | src/routing/quorum-assignment.mjs:9 | at one clock the coordinator accepts a host exactly when a well-formed observation makes it usable for routes |
| Assignment.BundleService.Lease | src/routing/bundle-service.mjs:23-41 | authorization, cached or calculated routes, guarded write and answer, with the resulting copy, cache and table |
| Assignment.LeaseGuards | src/routing/bundle-service.mjs:28-29 | which token, identity or table failure answers a lease, in this order, and that none of them changes anything |
| Assignment.LeaseRoutesExact | src/routing/bundle-service.mjs:30-34 | the application is the granted one, else the requested one, else default; routes younger than a second come from its cache entry, others are calculated from the nodes reachable under quorum with the assigned or else the cached writer as the previous one |
| Assignment.LeaseAnswers | src/routing/bundle-service.mjs:37-40 | an answered lease with a version hands out primary, balanced and version of those routes; without one exactly the metadata service's primary as primary and its balanced as balanced |
| Assignment.LeaseLeaves | src/routing/bundle-service.mjs:35-36 | an answered lease leaves its routes in the cache with their time and their writer in the table; a refused or unwritten one leaves cache and table as they were |
| Assignment.BundleService.Rebalance | src/routing/bundle-service.mjs:53-58 | the cache entry of the requested application is dropped, then a lease follows |
| Assignment.FreshLeaseAccepted | src/routing/bundle-service.mjs:30-36 | a lease that calculates its routes is refused exactly when no well-formed observation backs a newly picked writer; on well-formed observations never |
| Assignment.LeasedWriterIsAssigned | src/routing/bundle-service.mjs:33-41 | calculated routes, new or cached, are answered only when their writer stands in the assignment table after the lease, and all answered names are routed host names |
| Assignment.FallbackExact | src/routing/bundle-service.mjs:31-40 | a lease that calculates its routes answers with the metadata service's own, each list in its place, exactly without quorum or without a reachable usable node |
| Assignment.RebalanceExact | src/routing/bundle-service.mjs:30-57 | an answered rebalance hands out the cached routes exactly when the granted application is not the requested or default one and its entry is live, newly calculated ones otherwise, and the metadata service's lists when there are none |
| AssignmentRuns.RunProvenance | src/routing/bundle-service.mjs:35 | over every run of any supervisors, with restarts and failed writes, the writer in the table is the initial one or was put there by a step of the run at which it was acceptable for its application |
| AssignmentRuns.StepCopies | src/routing/metadata-assignments.mjs:10-18 | a supervisor's copy changes only to a host acceptable at that step or held by the table |
| AssignmentRuns.TickLeaves | src/routing/event-snapshot.mjs:26 | a tick puts a writer that the copy does not name into the copy, and into the table when the query succeeds |
| AssignmentRuns.AssignmentsSafe | src/routing/event-snapshot.mjs:21-26 | a step that changes the assigned writer changes it to one acceptable at that step; on well-formed observations to one the coordinator accepts under quorum at that moment, on the event path too |
| AssignmentRuns.TickKeepsExact | src/routing/event-snapshot.mjs:22-26 | an event tick keeps a serving persisted writer exactly when its copy names a serving writer or the election picks the persisted one |
| AssignmentRuns.LeaseKeepsExact | src/routing/bundle-service.mjs:34-35 | a lease keeps a serving persisted writer exactly when no live cached routes name another that the coordinator accepts |
| AssignmentRuns.NoChurn | src/routing/decision.mjs:59-67 | once all supervisors hold the persisted writer, no run of leases, rebalances and ticks moves it while it serves |
| AssignmentWitnesses.RestartChurns | src/routing/event-snapshot.mjs:22-26 | a concrete tick after a restart that moves a persisted writer that serves |
| AssignmentWitnesses.CachedRoutesChurn | src/routing/bundle-service.mjs:34-35 | a concrete run within a second in which cached routes move the assignment away from a writer that serves |
| AssignmentWitnesses.RebalanceReusesCache | src/routing/bundle-service.mjs:30-57 | a concrete rebalance that hands out the cached writer although that node drains and another serves |
| AssignmentWitnesses.TickAssignsRefused | src/routing/event-snapshot.mjs:26 | a concrete tick that assigns a writer the coordinator refuses |
| Events.RoutingEventSnapshot.Turn | src/routing/event-snapshot.mjs:23-30 | hold-down, fingerprint, version and event of one application change together as the event step |
| Events.RoutingEventSnapshot.Snapshot | src/routing/event-snapshot.mjs:14-31 | a call with an unrouted name changes nothing; otherwise drain overlay, verdict, routes, assignment and event step |
| Events.RoutingEventSnapshot.Next | src/routing/event-version-store.mjs:6-10 | the counter of one application rises by one, the others stay |
| Events.RoutingPublisher.PublishRoutingEvent | src/runtime/routing-publisher.mjs:3-12 | one round asks for the default and the assigned applications once each, publishes the news among the answers, and ends at the first call that throws |
| EventRuns.VersionCountsTurns | src/routing/event-snapshot.mjs:28-29 | over any run the version of an application rises by one exactly when its fingerprint changes |
| EventRuns.VersionRisesExactly | src/routing/event-snapshot.mjs:24-29 | the version rises exactly on the first call and when the selected routes or the draining nodes differ from those of the call before |
| EventRuns.DrainStateExact | src/routing/event-snapshot.mjs:27 | the drain state is the sorted list of exactly the draining nodes |
| EventRuns.CalculateExact | src/routing/event-snapshot.mjs:16-30 | a call calculates from the observations with the local node's own drain state, and its event says of every node what was observed: address, port, readiness and drain |
| EventRuns.SnapshotRefuses | src/routing/event-snapshot.mjs:16-19 | a call throws, and changes nothing, exactly when some observation lacks a routed name or address |
| EventRuns.CalculationForgetsOrder | src/routing/event-snapshot.mjs:16-28 | the order of the store's observations reaches neither routes, drain state nor quorum, so it never raises a version |
| EventRuns.WrittenEventsCurrent | src/routing/event-snapshot.mjs:29-30 | while the version file can be written every fingerprinted application has an event with its current version |
| EventRuns.EventIsLastWritten | src/routing/event-snapshot.mjs:29-30 | over any run callers get the event of the last fingerprint change whose version was written, numbered by all changes up to it; it carries the current version exactly when the last change was written |
| EventWitnesses.DrainGoesUnseen | src/routing/event-version-store.mjs:9 | a concrete run: a member starts draining while the file cannot be written, and later answers and the bus still show it serving |
| EventRuns.OutageExact | src/routing/event-snapshot.mjs:23-25 | an outage keeps the last healthy routes in the fingerprint for less than five seconds from those routes, and drops them from then on |
| EventRuns.PublishedOnce | src/runtime/routing-publisher.mjs:5-11 | within one life of the process, with others asking in between, versions on the bus rise strictly per application, so none is repeated |
| EventRuns.DueExact | src/runtime/routing-publisher.mjs:6-9 | what a call publishes is known before it: nothing, the held event when it is new to the publisher, or the version after the counter when the fingerprint changes and the write succeeds |
| EventRuns.ChangePublishedExactly | src/runtime/routing-publisher.mjs:5-9 | over any calls of publisher and askers, a change of an application's fingerprint reaches the bus exactly when its version was written and a routed publication of the application, that call or a later one, comes before its next written change and does not fail to write itself |
| EventWitnesses.AskHidesChange | src/api/routes/routing-admin.mjs:23-28 | a concrete run with every write succeeding in which two versions are answered and only the second is published |
| EventRuns.RisesAcrossRestarts | src/routing/event-version-store.mjs:7-10 | with a version file, versions on the bus rise strictly per application over all lives, through restarts and failed writes that leave the old file, the new one or a torn one, exactly as long as no publication is due with a version not above one from before a restart that could not read the file |
| EventRuns.RisesWhenReadable | src/routing/event-version-store.mjs:7-10 | so they rise whenever each restart can read the file, whatever writes fail |
| EventWitnesses.TornFileRepeats | src/routing/event-version-store.mjs:7-9 | a concrete run: a failed write cuts the file off, and after the restart version one is published again |
| EventRuns.AnswerIsOnBus | src/runtime/routing-publisher.mjs:6-9 | what a publication was answered is on the bus, from then or from before |

## Left out

- HTTP, WebSocket and fetch code, authentication, probes, logging, audit and event delivery: peers' answers and outcomes are inputs.
- MariaDB process control, `wsrep-recover`, parsing of `grastate.dat`, data-directory inspection and address lookup: taken as inputs (a position or a failure, a directory that starts or not, the nodes that resolve).
- The promotion of the state file is one of: done, file missing, failed.
- Explicit and standalone startup, the polling of the clean-restart marker and the retry loop around the plan: the automatic path starts from an arbitrary earlier ledger and is told whether the clean restart found its Primary.
- `shouldStartMariaDb`, drain policy, completion cell, telemetry, weight formula, intent validation, rendering of arguments: easy, and nothing above depends on them.
- Texts of reasons, `createdAt` and other timestamps that no decision reads; reason codes are kept.
- The decision store's error on a file that is not JSON.
- Lease.RecoveryLease.ClaimLease: a claim is one step, so two claims that both read a stale file before either removes it, and leases lost when `/run` is cleared, are assumed away.
- Restarts of a supervisor between its two protocol calls of one startup, and overlapping protocol calls: calls are taken one after another, as their callers make them.
- LeaseRuns.MajorityExclusive: the window is counted from the fresh claims that back the grants, because a repeated grant does not refresh the time of a lease.
- The acknowledgements of a record are those of its `acknowledgementsBy` list: the set beside it does not survive JSON.
- EventRuns.RisesAcrossRestarts: a version file that others remove or rewrite; without a configured file every restart starts at zero.
- RecoveryState.EpochNeverDecreases: for epochs of one kind only, because it is false for mixed kinds (`RecoveryState.FallsExactly`).
- Startup callers that ask for transitions the recovery table does not have (awaiting-quorum to joining, blocked-ambiguous to bootstrapping): they fail as the table says, and nothing is claimed about their flow.
- Joiners.RecoverJoinersSequentially: the recovery state's answers to `joining` and `complete` are inputs, not the object of `RecoveryState`.
- Quorum.QuorumExact: an observation without a time counts as observed at the moment of the evaluation, as in the code; the store never hands one out.
- Routing.BalancedFaithful: requires one observation per node, which the store guarantees; timestamps that are numeric text or infinite do not occur behind the store and are treated as not fresh.
- Assignment.BundleService.Lease: overlapping leases of one service are not interleaved, and the metadata service's own refusals and the rendering of the bundle are not part of this model.
- AssignmentRuns.NoChurn: requires that all supervisors start aligned and do not restart, because it is false otherwise (`AssignmentWitnesses.RestartChurns`).
- The JSON-file assignment store: in this deployment the metadata store is the shared one.
- `src/internal/routing/bundle.mjs`, the pending-init runtime and the SQL client are not part of this model.
