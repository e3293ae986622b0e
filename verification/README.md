# Verified model of Kernis

Kernis is a deterministic runtime kernel: versioned workflow graphs, a durable
log of external effects, scoped capabilities with exact identities, and fibers
that follow the capabilities they depend on. This project models its four cores
and proves what they promise, over every run and not only for single calls.

## The durable effect protocol

`DurableModel` is the store: a compare-and-swap commit with idempotency keys over
admissions, intents, dispatches, outcomes and cancellations. `JournalModel` is the
materialized view a process keeps beside it and the recovery decision taken from
that view. `RuntimeModel` gives every public call of the coordinator as a function
on one value; `Runtimes.Runtime` is the object whose methods are proved to compute
these functions. `RuntimeSystem` puts calls, crashes after any commit and restarts
together. The store alone does not prevent a second dispatch; `StoreProtocol`
isolates the guard that does, and `RuntimeSafety` and `RuntimeCalls` show that
every call respects it.

What each call records and answers is said again without its own function:
`DurableCommits` for the store, `EffectRecords`, `RuntimeEvents` and `SchedulerSteps`
for the coordinator, `RecoveryDecisions` for recovery, `Restarts` for a restart. There
an accepted call is one whose conditions hold in the stored run, and the stored run
then holds exactly what the caller named.

A restart with the last workflow value the crashed process held never makes recovery
report a contradiction (`RecoveryNeverContradicts`). With any other value it does so
exactly when that value lacks the owner of a recorded operation, or has completed an
owner without a recorded success (`RestartIsExact`). Both happen: the first with an
older value of the crashed process (`OlderWorkflowContradicts`), the second with a
value of an earlier process (`EarlierProcessWorkflowContradicts`).

## The workflow graph

`WorkflowModel` has atomic batches, cycle detection, immutable completions and
replay. The replay theorem commutes completions past all later batches: a batch
never needs a completion fact to be accepted, and never touches the prerequisites
of a completed node. `Digraph` holds the depth-first search that the cycle check and
the capability resolver share. `WorkflowBatches` says which batches and completions
are accepted and what they leave, down to the edges a later completion must respect.

## Scoped capabilities

`ScopeModel` is the tree of scopes as a value; every function is one step under the
topology lock, so runs may interleave the two phases of a publication with anything.
`ScopeInvariants` proves that admission keeps every visible graph resolvable,
`ScopePublication` that a published snapshot is current, `ScopeTeardown` when a
release can be planned, and `ScopeWithdrawal` when a withdrawal is harmless.
`OwnershipModel` and `ScopeOwnership` count references: when cleanups run, and in
which order. `ScopeAnswers` says what lookups find and why publications, withdrawals
and teardowns are refused. `Scopes`, `ScopeTrees` and `Ownership` are the imperative counterparts.

Three expectations fail; each comes with a run from the empty root on which it fails
and with the exact condition under which it holds.

- A withdrawal keeps every visible graph resolvable exactly when it strands no
  dependent, or exposes a definition that would be admitted in its place
  (`WithdrawalIsExact`, `ExposureIsExact`; `WithdrawalCanStrand`,
  `WithdrawalCanExposeACycle`).
- A generation names one publication exactly when its identifier is provided anew at
  most once; only the entry identity is exact without condition
  (`GenerationsAreExact`, `EntryIdentityIsExact`; `GenerationsRepeat`).
- A teardown panics exactly when some open scope of the subtree pins a cycle of
  definitions, which needs no withdrawal (`TeardownPanicIsExact`;
  `ChildTeardownCanPanic`). In a root scope without withdrawals it never does
  (`RootIsPlannable`).

## Reactive fibers

`FiberModel` cuts a fiber's transition at its await points. `FiberSafety` lets the
scopes change between any two steps and proves that no stale snapshot is published.
An unload names its entry by identifier and generation, so it can remove an entry the
fiber does not own; `FiberUnload` says exactly when, with a run.
`ReconcileModel` assumes serialized mutations, as the coordinator documents, and
proves that reconciliation stops at a fixpoint within the longest chain of fiber
definitions. `FiberSteps` says what a context finds and how each step decides,
`DriveOutcomes` when a fiber becomes active and when it fails, over single drives and
whole reconciliations. `WithdrawalModel` and `Withdrawals` cover the closure and the order of a
withdrawal, `GraphDepth` the longest chains both rely on, `Reactive` the objects,
`EffectModel` and `Effects` the cleanup of effects. `Coordinator` puts scope commands,
starts, restarts, disposals, reconciliations and withdrawals into whole runs.

## Streams

`StreamModel` and `Streams` cover sequencers, trackers and bounded buffers: which
losses a consumer can tell from the gaps it sees. `StreamObservations` covers items in
any order and what each buffer keeps.

## Conventions

Identifiers are natural numbers used only through equality and order. Sorted maps are
maps traversed in ascending order. An instance, its entry and its handles share one
number, the entry identity; the slot fixes definition and generation. A method that
changes state is proved equal to a function of the old state, and the promises are
theorems about that function.

## Model

| member | source | states |
|---|---|---|
| Digraph.SearchIsExact | crates/capability-graph/src/resolver.rs:73-94 | the shared depth-first search succeeds if and only if the relation is closed and acyclic; success gives a topological order, failure a real cycle or a real dangling edge |
| Digraph.VisitSound | crates/capability-graph/src/resolver.rs:138-190 | one visit below the active path keeps the path genuine and the finished nodes in dependency order, or reports a genuine witness |
| Digraph.OrderedIsAcyclic | crates/capability-graph/src/resolver.rs:73-94 | a relation that has a topological order is closed and has no cycle |
| WorkflowModel.CyclePathIsExact | crates/workflow-graph/src/lib.rs:67-114 | a path is reported if and only if the topology is cyclic, and it is a closed path whose first and last nodes coincide |
| WorkflowModel.EdgeChecksDecideTheBatch | crates/workflow-graph/src/lib.rs:420-465 | the checks made edge by edge accept a structurally valid batch if and only if its final topology is acyclic |
| WorkflowModel.RecheckNeverFires | crates/workflow-graph/src/lib.rs:448-455 | after its mutations were accepted one by one a batch never fails the whole-batch cycle check |
| WorkflowModel.BatchFreezesHistory | crates/workflow-graph/src/lib.rs:517-568 | a batch only adds nodes and edges and never touches the prerequisites of a completed node |
| WorkflowModel.ApplyBatchKeepsValid | crates/workflow-graph/src/lib.rs:420-465 | an accepted batch keeps the graph acyclic, its facts unchanged and its completion log a linear extension |
| WorkflowModel.CompleteKeepsValid | crates/workflow-graph/src/lib.rs:352-376 | an accepted completion extends the log to a longer linear extension of the graph |
| WorkflowModel.RunIsValid | crates/workflow-graph/src/lib.rs:352-465 | every graph reached by any mix of accepted and rejected commands is acyclic, with completions in dependency order |
| WorkflowModel.CompletedIsDependencyClosed | crates/workflow-graph/src/lib.rs:352-376 | the completed set is closed under dependencies |
| WorkflowModel.SchedulerNeverStuck | crates/workflow-graph/src/lib.rs:388-405 | nothing is ready if and only if everything is complete |
| WorkflowModel.FoldIgnoresFacts | crates/workflow-graph/src/lib.rs:476-499 | a batch accepted beside completion facts is accepted without them and yields the same topology |
| WorkflowModel.CompletionsReplay | crates/workflow-graph/src/lib.rs:506-515 | any linear extension replays as completions on a graph without facts |
| WorkflowModel.TopologyReplays | crates/workflow-graph/src/lib.rs:476-499 | the mutation log alone rebuilds topology, revision and log of every reachable graph |
| WorkflowModel.ReplayRoundTrip | crates/workflow-graph/src/lib.rs:506-515 | replaying the mutation log and then the completion log rebuilds every reachable graph exactly, whatever the original interleaving |
| WorkflowBatches.BatchIsExact | crates/workflow-graph/src/lib.rs:420-465 | a batch is accepted if and only if it is for the current revision, is not empty, leaves a revision to count to, each mutation fits behind the earlier ones, and all its edges together close no cycle |
| WorkflowBatches.AcceptedBatchHolds | crates/workflow-graph/src/lib.rs:420-465 | after an accepted batch the nodes are the old ones and exactly the added ones with their values, the prerequisites of each node the old ones and exactly those the batch names, and the completions are untouched |
| WorkflowBatches.RefusalIsTruthful | crates/workflow-graph/src/lib.rs:517-568 | a refused mutation names a node, an edge or a cycle of which it is true |
| WorkflowBatches.RefusedBatchIsTruthful | crates/workflow-graph/src/lib.rs:420-465 | a refused batch reports both revisions, its emptiness, the last revision, or the first mutation that is refused and why |
| WorkflowBatches.CompletionIsExact | crates/workflow-graph/src/lib.rs:352-376 | a node is completed if and only if it is known, not complete and needs nothing incomplete; a refusal names the first incomplete prerequisite |
| WorkflowBatches.EdgeOrdersCompletions | crates/workflow-graph/src/lib.rs:420-465 | once a batch with an edge is accepted, no completion log of any later run has the node without its prerequisite before it |
| WorkflowBatches.RecordIsExact | crates/workflow-graph/src/lib.rs:476-499 | a record is replayed if and only if it names the two revisions and its batch is accepted there |
| WorkflowBatches.ReplayReproducesBothLogs | crates/workflow-graph/src/lib.rs:472-515 | whatever two logs replay, the graph that results has logged exactly them, so replaying is the inverse of logging both ways |
| WorkflowGraphs.WorkflowGraph.Visit | crates/workflow-graph/src/lib.rs:82-114 | the recursive visit with mutable marks and stack computes the specified search below its stack |
| WorkflowGraphs.WorkflowGraph.CyclePath | crates/workflow-graph/src/lib.rs:67-80 | the marking loop computes the specified cycle path |
| WorkflowGraphs.WorkflowGraph.Complete | crates/workflow-graph/src/lib.rs:352-376 | records the completion or changes nothing and reports the specified error |
| WorkflowGraphs.WorkflowGraph.ReadyTasks | crates/workflow-graph/src/lib.rs:388-405 | the filtering loop lists a node if and only if it is incomplete with every dependency complete, in strictly increasing identifier order |
| WorkflowGraphs.WorkflowGraph.ApplyMutation | crates/workflow-graph/src/lib.rs:517-568 | applies one mutation in place; an edge that closes a cycle is taken out again, so an error changes nothing |
| WorkflowGraphs.WorkflowGraph.ApplyBatch | crates/workflow-graph/src/lib.rs:420-465 | applies a batch to a candidate and installs it whole, or leaves the graph unchanged with the specified error |
| WorkflowGraphs.WorkflowGraph.Replay | crates/workflow-graph/src/lib.rs:472-499 | rebuilds a graph from its mutation records, checking each revision |
| WorkflowGraphs.WorkflowGraph.ReplayWithFacts | crates/workflow-graph/src/lib.rs:506-515 | rebuilds a graph from both logs |
| DurableModel.TableReadsBack | crates/workflow-recovery/src/durable.rs:561-606 | the idempotency table of a log with distinct keys holds exactly its entries, each at its own revision |
| DurableModel.CommitExtendsLog | crates/workflow-recovery/src/durable.rs:561-606 | a commit extends the log by its own batch, or by nothing when it replays or fails |
| DurableModel.StoreKeepsLog | crates/workflow-recovery/src/durable.rs:561-606 | in every reachable store the committed revisions are 1..n with one key each, and folding the batches in that order over the empty run rebuilds every fact |
| DurableModel.CommittedForever | crates/workflow-recovery/src/durable.rs:561-606 | what was committed under a key stays committed under it unchanged |
| DurableModel.ResubmissionIsHarmless | crates/workflow-recovery/src/durable.rs:561-606 | submitting an accepted request again at any later time, with any expected revision, changes nothing and returns the live head |
| DurableCommits.CommitIsExact | crates/workflow-recovery/src/durable.rs:561-606 | a commit under an unused key is applied if and only if it expects the current revision, one is left and its mutations are accepted; a stale one is told both revisions, and a used key answers with the live head for the same mutations only |
| DurableCommits.AppliedCommit | crates/workflow-recovery/src/durable.rs:561-606 | an applied commit expected the revision it found, counts one more, stores its mutations under its key and touches no other run |
| DurableCommits.AppliedOncePerRevision | crates/workflow-recovery/src/durable.rs:561-606 | over every sequence of store commands, two commits applied to one run expected different revisions, the earlier one the smaller |
| DurableCommits.MutationIsExact | crates/workflow-recovery/src/durable.rs:609-809 | a mutation is accepted if and only if the admissions, intents, dispatches, outcomes and cancellations it relies on are there and it contradicts none; a refusal names something that is so |
| DurableCommits.MutationRecords | crates/workflow-recovery/src/durable.rs:609-809 | an accepted mutation adds the one fact it carries, with its values, and changes no other |
| DurableCommits.EffectLifecycle | crates/workflow-recovery/src/durable.rs:482-501 | an effect is prepared by its intent, unknown after each dispatch, known once an outcome is reported for the latest dispatch, and changed by nothing else |
| DurableModel.MutationKeepsLineage | crates/workflow-recovery/src/durable.rs:609-809 | every accepted mutation keeps histories equal to their maps, operations and owners one to one, and every outcome below its dispatch below its admission and intent |
| DurableModel.StoreKeepsLineage | crates/workflow-recovery/src/durable.rs:561-809 | every run of every reachable store has sound lineage |
| DurableModel.NoDispatchAfterCancellation | crates/workflow-recovery/src/durable.rs:609-809 | in no accepted sequence does a dispatch come after the cancellation of its owner |
| DurableModel.LatestIsListed | crates/workflow-recovery/src/durable.rs:455-459 | the latest dispatch of an operation is a recorded one, for that operation |
| DurableModel.LateOutcomeIsHistory | crates/workflow-recovery/src/durable.rs:482-501 | an outcome of any attempt but the latest changes no effect state |
| DurableStores.InMemoryDurableStore.CreateRun | crates/workflow-recovery/src/durable.rs:545-552 | adds an empty run, or refuses one that exists and changes nothing |
| DurableStores.InMemoryDurableStore.Commit | crates/workflow-recovery/src/durable.rs:561-606 | replays, rejects or atomically applies a request as specified |
| JournalModel.RebuildIsView | crates/workflow-recovery/src/journal.rs:187-206 | rebuilding the journal from a run with sound lineage never fails and gives the view of that run |
| JournalModel.ViewAgrees | crates/workflow-recovery/src/journal.rs:311-344 | the view answers latest dispatch, known outcome and effect state as the run itself does, for every operation |
| JournalModel.IntentsAgree | crates/workflow-recovery/src/journal.rs:208-229 | an intent the journal accepts is one the store accepts, and both updates lead to the same view |
| JournalModel.DispatchesAgree | crates/workflow-recovery/src/journal.rs:231-254 | a dispatch accepted by both leads to the same view |
| JournalModel.OutcomesAgree | crates/workflow-recovery/src/journal.rs:256-292 | an outcome the journal accepts is one the store accepts, and both updates lead to the same view |
| JournalModel.ViolationIsExact | crates/workflow-recovery/src/recovery.rs:20-122 | a recorded operation is classified contradictory if and only if its owner is absent, or complete without a known success |
| RecoveryDecisions.LastForIsExact | crates/workflow-recovery/src/durable.rs:455-459 | the latest dispatch of an operation is the one in the history after which none follows |
| RecoveryDecisions.StateIsHistory | crates/workflow-recovery/src/durable.rs:482-501 | the effect state of every operation, said by its intent, the last dispatch in the history and the outcome recorded for it |
| RecoveryDecisions.DecisionIsExact | crates/workflow-recovery/src/recovery.rs:20-122 | each of the seven recovery actions, with its reason, is taken if and only if the intent, history, outcomes and completions call for it |
| RecoveryDecisions.RecoverIsExact | crates/runtime-core/src/lib.rs:701-721 | the same for the call on the coordinator, in every safe state; it completes the owner exactly in the action that says so |
| RecoveryDecisions.ExecutionIsDispatch | crates/workflow-recovery/src/recovery.rs:48-75 | for an owner that is not cancelled recovery answers execute or retry if and only if a dispatch is allowed and the owner is known and not complete |
| RecoveryDecisions.UnrecordedIsUnknown | crates/runtime-core/src/lib.rs:701-721 | an operation without an intent is refused as unknown |
| EffectRecords.JournalRefusalIsTruthful | crates/workflow-recovery/src/journal.rs:208-292 | what the journal refuses it refuses for a reason that holds of its entries |
| DurableJournals.DurableJournal.PersistIntent | crates/workflow-recovery/src/journal.rs:208-229 | inserts the intent in both maps or changes nothing and reports the specified error |
| DurableJournals.DurableJournal.PersistDispatch | crates/workflow-recovery/src/journal.rs:231-254 | appends the attempt and records the dispatch, or changes nothing |
| DurableJournals.DurableJournal.PersistOutcome | crates/workflow-recovery/src/journal.rs:256-292 | records the outcome, accepts an equal one again, or changes nothing |
| DurableJournals.DurableJournal.FromDurableState | crates/workflow-recovery/src/journal.rs:187-206 | rebuilds the journal from intents, dispatches and outcomes in order |
| StoreProtocol.AdvanceCases | crates/workflow-recovery/src/durable.rs:561-606 | under the keys the coordinator uses, an accepted commit is a replay that changes nothing or applies its one mutation |
| StoreProtocol.AdvanceKeepsAtMostOnce | crates/runtime-core/src/lib.rs:621-673 | a guarded commit keeps every operation that is not idempotent at one dispatch at most |
| StoreProtocol.AdvanceKeepsNumbering | crates/runtime-core/src/lib.rs:927-978 | a guarded commit keeps admissions numbered 1..n in order |
| StoreProtocol.AdvanceKeepsProtected | crates/runtime-core/src/lib.rs:1091-1104 | every guarded commit keeps lineage, keys, numbering and at-most-once dispatch together |
| StoreProtocol.SuccessIsPermanent | crates/workflow-recovery/src/durable.rs:489-501 | no guarded commit changes a known success of the latest dispatch |
| StoreProtocol.DispatchIsGuarded | crates/runtime-core/src/lib.rs:621-673 | a dispatch is appended only where no outcome of the latest attempt is known, and for an owner not cancelled |
| StoreProtocol.AdvanceKeepsAgreement | crates/runtime-core/src/lib.rs:844-901 | a guarded commit keeps completed nodes backed by recorded successes |
| StoreProtocol.IntentIsAccepted | crates/runtime-core/src/lib.rs:591-619 | an intent the view accepts is accepted by the store while a revision is left |
| StoreProtocol.OutcomeIsAccepted | crates/runtime-core/src/lib.rs:675-699 | an outcome the view accepts is accepted by the store while a revision is left |
| StoreProtocol.DispatchIsAccepted | crates/runtime-core/src/lib.rs:621-673 | a dispatch the view accepts for an admitted attempt is accepted by the store while a revision is left |
| StoreProtocol.NextNumberIsUnused | crates/runtime-core/src/lib.rs:927-978 | the next attempt number has never been admitted |
| StoreProtocol.AdmissionIsAccepted | crates/runtime-core/src/lib.rs:927-978 | a freshly numbered attempt is never refused while a revision is left |
| RuntimeSafety.BeginAttemptSafe | crates/runtime-core/src/lib.rs:927-978 | beginning an attempt, with or without backpressure, keeps the coupling and leaves only durably admitted attempts in memory |
| RuntimeSafety.RecordEffectIntentSafe | crates/runtime-core/src/lib.rs:591-619 | recording an intent, in every outcome, keeps store, journal and workflow in agreement |
| RuntimeSafety.AttemptToDispatchSafe | crates/runtime-core/src/lib.rs:621-648 | choosing an attempt leaves one that is admitted for the operation, and dispatching still allowed |
| RuntimeSafety.DispatchEffectSafe | crates/runtime-core/src/lib.rs:621-673 | dispatching keeps the invariant and appends at most one dispatch, only where allowed |
| RuntimeSafety.RecordEffectOutcomeSafe | crates/runtime-core/src/lib.rs:675-699 | recording an outcome, in every outcome, keeps the invariant |
| RuntimeCalls.CompleteTaskSafe | crates/runtime-core/src/lib.rs:844-901 | completing a node happens only when the operation it owns, if any, has succeeded |
| RuntimeCalls.RecoverSafe | crates/runtime-core/src/lib.rs:701-721 | recovery completes an owner only on a known success and keeps the invariant |
| RuntimeCalls.CancelTaskSafe | crates/runtime-core/src/lib.rs:723-757 | cancelling keeps the invariant and the cancelled set equal to the recorded cancellations |
| RuntimeCalls.CancellationIsRefusedOnlyAsConflict | crates/runtime-core/src/lib.rs:723-757 | the store refuses a cancellation only as conflicting or for want of revisions |
| RuntimeCalls.StepOnceSafe | crates/runtime-core/src/lib.rs:772-901 | one scheduler step, in every branch, keeps the invariant and appends no dispatch |
| RuntimeCalls.RunUntilBlockedSafe | crates/runtime-core/src/lib.rs:759-770 | running until blocked keeps the invariant |
| RuntimeCalls.StartRunSafe | crates/runtime-core/src/lib.rs:393-420 | a started run satisfies the invariant |
| RuntimeCalls.RestoreRunSafe | crates/runtime-core/src/lib.rs:421-502 | a restart over protected facts, with a workflow they agree with, satisfies the invariant and changes no stored fact |
| RuntimeEvents.EmitIsExact | crates/runtime-core/src/lib.rs:1085-1089 | an event takes the next sequence number and is delivered exactly when there is room |
| RuntimeEvents.CompletionIsExact | crates/runtime-core/src/lib.rs:1076-1083 | completing a node extends the log by it, then announces it; without room the announcement alone is withheld |
| RuntimeEvents.BeginIsExact | crates/runtime-core/src/lib.rs:927-978 | an attempt begins if and only if its capabilities are there, a revision, a number and a sequence number are left and its event finds room; it is then admitted under the next number and announced, and without room it is admitted all the same and held back with its event |
| RuntimeEvents.BackpressureIsHarmless | crates/runtime-core/src/lib.rs:927-978 | beginning without room and then delivering the pending event leaves the state of beginning with room |
| RuntimeEvents.DeliveryIsExact | crates/runtime-core/src/lib.rs:814-833 | delivering needs room and takes the held event first, whatever item is offered, and with it its attempt |
| RuntimeEvents.KnownAttemptIsExact | crates/runtime-core/src/lib.rs:1054-1074 | the attempt of a node is the newest one this process knows with exactly its operation, a held one included, and there is none if and only if no known one matches |
| EffectRecords.IntentIsRecorded | crates/runtime-core/src/lib.rs:591-619 | an intent is accepted if and only if its node is known and not complete, neither node nor operation has one and a revision is left; store and journal then hold the given node, operation and semantics |
| EffectRecords.OutcomeIsRecorded | crates/runtime-core/src/lib.rs:675-699 | an outcome is accepted if and only if its attempt was dispatched for the operation and no other outcome is known; store and journal then hold the given outcome for that attempt, all others are as before, and for the latest dispatch it is the effect state |
| EffectRecords.AppendIsExact | crates/runtime-core/src/lib.rs:650-673 | appending a dispatch to an admitted attempt succeeds if and only if dispatching is allowed and a revision is left |
| EffectRecords.DispatchIsExact | crates/runtime-core/src/lib.rs:621-673 | a prepared operation, or an idempotent one of unknown outcome, is dispatched whenever its owner is not cancelled and capabilities, room and revisions are there; an attempt announced for it and not yet dispatched is used, otherwise the next number |
| EffectRecords.RefusedDispatchSaysWhy | crates/runtime-core/src/lib.rs:621-673 | a refused dispatch names the condition that does not hold |
| SchedulerSteps.CancelIsExact | crates/runtime-core/src/lib.rs:723-757 | a cancellation is recorded once, with the owned operation and the attempt known for it, and a later one is accepted if and only if it says the same; the answer is already dispatched, with the latest attempt in the history, if and only if the owned operation has a dispatch |
| SchedulerSteps.StepPicksFirst | crates/runtime-core/src/lib.rs:772-784 | a step works on the smallest node that can be completed and is not cancelled, and is idle if and only if there is none |
| SchedulerSteps.FailureIsObserved | crates/runtime-core/src/lib.rs:844-901 | a node whose effect is known to have failed is blocked with that observation and nothing changes |
| SchedulerSteps.UnknownIsBlocked | crates/runtime-core/src/lib.rs:844-901 | a node whose effect is of unknown outcome is blocked with the recovery decision and nothing changes |
| SchedulerSteps.SuccessCompletes | crates/runtime-core/src/lib.rs:844-901 | a node whose effect is known to have succeeded is completed by the step |
| SchedulerSteps.PreparedWaits | crates/runtime-core/src/lib.rs:844-901 | a node with a prepared effect waits for its dispatch with an attempt announced for it |
| SchedulerSteps.AnnouncedAttemptIsDispatched | crates/runtime-core/src/lib.rs:621-648 | dispatching after such a step uses the attempt the step announced |
| SchedulerSteps.ConfiguredEffectIsRecordedFirst | crates/runtime-core/src/lib.rs:903-925 | a step on a node with a configured effect records exactly that intent and then goes on as for a prepared one |
| SchedulerSteps.ConfigurationTakesEffect | crates/runtime-core/src/lib.rs:568-575 | an effect configured for the next node is the one its next step records, and no other configuration changes |
| SchedulerSteps.PlainTaskCompletes | crates/runtime-core/src/lib.rs:844-901 | a node without an effect is attempted and completed in one step, under the attempt begun before if there is one; the events withheld for want of room are stated |
| SchedulerSteps.PlanIsTaken | crates/runtime-core/src/lib.rs:577-589 | a plan is taken if and only if the workflow accepts the batch, and then the runtime differs only in the nodes and edges it names |
| SchedulerSteps.RunIsSteps | crates/runtime-core/src/lib.rs:759-770 | running until blocked is stepping up to and including the first step that does not complete a node |
| Restarts.ConfigureIsExact | crates/runtime-core/src/lib.rs:459-529 | configurations are accepted if and only if every node is known, and the last one given for a node wins |
| Restarts.StartIsExact | crates/runtime-core/src/lib.rs:393-420 | a run is started if and only if its configurations are, and starts with nothing recorded |
| Restarts.RestoreIsExact | crates/runtime-core/src/lib.rs:421-457 | a restart succeeds if and only if the run is known, its configurations are and its attempts can be reproduced; journal, cancellations, attempts and numbering are then those of the stored run |
| Restarts.RestartForgetsOnlyEvents | crates/runtime-core/src/lib.rs:421-457 | a restart of a safe process with its own workflow forgets only buffered and pending events |
| RuntimeSystem.RunKeepsInvariant | crates/runtime-core/src/lib.rs:393-1104 | every run of calls, crashes after any commit, and restarts keeps the whole invariant |
| RuntimeSystem.ViewRefinesLog | crates/runtime-core/src/lib.rs:421-457 | after every call and every restart the journal, the cancelled set and the revision are those of the store, and effect states agree for every operation |
| RuntimeSystem.AtMostOnceEffects | crates/runtime-core/src/lib.rs:621-673 | over every run two dispatches of one operation imply that it is idempotent |
| RuntimeSystem.NoDispatchOnKnownOutcome | crates/runtime-core/src/lib.rs:621-673 | each action of every run appends at most one dispatch, only for an owner not cancelled and only while the outcome of the latest attempt is unknown |
| RuntimeSystem.CompletionAgreesWithEffects | crates/runtime-core/src/lib.rs:701-720 | a completed owner always has its success on record; recovery reports a contradiction if and only if the workflow lacks the owner |
| RuntimeSystem.LatestRestartsKnowTasks | crates/runtime-core/src/lib.rs:421-457 | restarts with the workflow the crashed process held never lose the owner of a recorded operation |
| RuntimeSystem.RecoveryNeverContradicts | crates/workflow-recovery/src/recovery.rs:20-122 | with such restarts recovery never reports a contradiction for a recorded operation |
| RuntimeSystem.RestartIsExact | crates/runtime-core/src/lib.rs:421-457 | whatever workflow value a crashed process is restarted with, no recorded operation is contradictory if and only if every owner is in that value and each completed owner has its success on record |
| RuntimeSystem.SuccessIsKeptForever | crates/runtime-core/src/lib.rs:675-699 | a known success of the latest dispatch survives every later call, crash and restart |
| RuntimeSystem.AttemptIdentitiesAreFresh | crates/runtime-core/src/lib.rs:441-456 | the next attempt number is the number of durable admissions plus one and unused, and every attempt in memory, pending or not, was admitted |
| RuntimeSystem.StoreNeverRefuses | crates/runtime-core/src/lib.rs:591-784 | in every reachable state short of the last revision no intent, dispatch, outcome or step is refused by the store |
| StaleWorkflow.EarlierProcessWorkflowContradicts | crates/runtime-core/src/lib.rs:421-457 | a run in which a workflow value held by an earlier process, and not by the crashed one, makes recovery report a contradiction |
| StaleWorkflow.OlderWorkflowContradicts | crates/runtime-core/src/lib.rs:421-457 | a run in which the first workflow value the crashed process held lacks the owner of an operation it recorded |
| RuntimeModel.CompletionIsProgress | crates/runtime-core/src/lib.rs:759-784 | a step that reports a completion leaves fewer incomplete nodes, so running until blocked terminates |
| RuntimeProgress.RunCompletesEverything | crates/runtime-core/src/lib.rs:759-784 | an unhindered run ends idle with everything complete after exactly one step per incomplete node and a last idle one |
| RuntimeProgress.IdleIsExact | crates/runtime-core/src/lib.rs:772-784 | with nothing pending a step is idle if and only if every ready node is cancelled |
| Runtimes.Runtime.CommitDurable | crates/runtime-core/src/lib.rs:1091-1104 | commits one mutation at the known revision and advances the revision by the store result |
| Runtimes.Runtime.BeginAttempt | crates/runtime-core/src/lib.rs:927-978 | admits durably, keeps the attempt, then announces it; under backpressure it stays pending |
| Runtimes.Runtime.RecordEffectIntent | crates/runtime-core/src/lib.rs:591-619 | updates store and journal as specified, or leaves both |
| Runtimes.Runtime.DispatchEffect | crates/runtime-core/src/lib.rs:621-673 | reuses or begins an attempt and appends its dispatch as specified |
| Runtimes.Runtime.RecordEffectOutcome | crates/runtime-core/src/lib.rs:675-699 | updates store and journal as specified, or leaves both |
| Runtimes.Runtime.Recover | crates/runtime-core/src/lib.rs:701-721 | classifies the operation and completes its owner on a known success |
| Runtimes.Runtime.CancelTask | crates/runtime-core/src/lib.rs:723-757 | records a cancellation once; repeated ones report it |
| Runtimes.Runtime.EnsureConfiguredEffect | crates/runtime-core/src/lib.rs:903-925 | records the configured effect of a node before its first attempt |
| Runtimes.Runtime.StepTask | crates/runtime-core/src/lib.rs:844-901 | advances one node as the specification says |
| Runtimes.Runtime.Step | crates/runtime-core/src/lib.rs:772-784 | picks the first ready node that is not cancelled |
| Runtimes.Runtime.RunUntilBlocked | crates/runtime-core/src/lib.rs:759-770 | the loop returns the specified sequence of step results |
| Runtimes.Runtime.RetryExecutionEvent | crates/runtime-core/src/lib.rs:814-833 | delivers the held event with its attempt, or the given item when none is held, and only when there is room |
| Runtimes.Runtime.DrainExecutionEvents | crates/runtime-core/src/lib.rs:809-812 | hands over all buffered events in order and empties the buffer |
| Runtimes.Runtime.StartRun | crates/runtime-core/src/lib.rs:393-420 | builds a runtime over a fresh store |
| Runtimes.Runtime.RestoreRun | crates/runtime-core/src/lib.rs:421-457 | rebuilds journal, cancelled set, attempts and numbering from the stored run |
| ResolverModel.ResolveIsExact | crates/capability-graph/src/resolver.rs:73-94 | resolution succeeds if and only if the definitions are dependency-closed and acyclic; the order lists each identifier once after its dependencies, and errors name a real cycle or dangling edge |
| ResolverModel.DependentsGoFirst | crates/capability-graph/src/resolver.rs:203-206 | in teardown order no capability comes before a dependent of it |
| Resolvers.Visit | crates/capability-graph/src/resolver.rs:138-190 | the visit with its state map, active path and order computes the specified search |
| Resolvers.ResolveAll | crates/capability-graph/src/resolver.rs:73-94 | the resolver loop computes the specified resolution |
| Resolvers.Validate | crates/capability-graph/src/resolver.rs:96-104 | validating a candidate resolves the definitions with the candidate in place |
| ScopeInvariants.VisibleAfterInsert | crates/capability-graph/src/runtime.rs:752-766 | a publication changes what a scope sees exactly where the identifier is not shadowed on the way |
| ScopeInvariants.PublishKeepsResolving | crates/capability-graph/src/runtime.rs:768-782 | checking the scope and the open descendants the candidate affects is enough for every open scope of the tree |
| ScopeInvariants.ChildSeesParent | crates/capability-graph/src/runtime.rs:279-306 | a new child sees what its parent sees |
| ScopeInvariants.ExecuteKeepsSound | crates/capability-graph/src/runtime.rs:279-861 | every scope step keeps parents, children, entries, pins and gates consistent |
| ScopeInvariants.VisibleGraphsResolve | crates/capability-graph/src/runtime.rs:538-614 | over any sequence of child, provide, replace and teardown every open scope sees definitions that resolve |
| ScopePublication.PublishIsExact | crates/capability-graph/src/runtime.rs:538-614 | the second phase succeeds if and only if the first phase would hand out the same snapshot now, the descendants admit the candidate and a generation is left |
| ScopePublication.PublishedIsCurrent | crates/capability-graph/src/runtime.rs:538-614 | a committed entry pins exactly what its scope resolves before and after the commit, under the next generation |
| ScopePublication.NoStalePublication | crates/capability-graph/src/runtime.rs:428-454 | a snapshot published in any later state names the entries the scope resolved when it was taken |
| ScopePublication.EntryIdentityIsExact | crates/capability-graph/src/runtime.rs:245-256 | over any run an entry identity names one publication for ever and is never used again |
| ScopeGenerations.GenerationsAreExact | crates/capability-graph/src/runtime.rs:589-600 | over every run the generations of all entries ever published under an identifier of a scope are pairwise different if and only if the run provides it anew at most once |
| ScopeGenerations.GenerationsRepeat | crates/capability-graph/src/runtime.rs:469-506 | a run from the empty root, provide, withdraw, provide, after which entries 1 and 2 both have generation 1 |
| ScopePublication.FreshEntryIsWithdrawable | crates/capability-graph/src/runtime.rs:469-506 | a publication just made can be withdrawn under the first generation |
| ScopeAnswers.LookupIsExact | crates/capability-graph/src/runtime.rs:317-334 | a lookup finds an entry if and only if it is in the nearest scope upwards that holds the identifier, with every scope on the way open |
| ScopeAnswers.VisibleIsLookup | crates/capability-graph/src/runtime.rs:695-713 | a scope sees a definition if and only if a lookup finds an entry with it |
| ScopeAnswers.ExpectationIsExact | crates/capability-graph/src/runtime.rs:616-664 | an expectation holds if and only if a new identifier is unused here, or the replaced entry has the expected generation; a refusal says which |
| ScopeAnswers.PublicationMeetsExpectation | crates/capability-graph/src/runtime.rs:538-614 | every publication meets its expectation when it happens |
| ScopeAnswers.StaleReplacementIsRefused | crates/capability-graph/src/runtime.rs:538-614 | a replacement that expects another generation than the current one is refused in both phases, the first naming both generations |
| ScopeAnswers.ReplacedOncePerGeneration | crates/capability-graph/src/runtime.rs:538-614 | over every run that provides an identifier anew at most once, the replacements published for it expected strictly increasing generations |
| ScopeAnswers.RefusalIsTruthful | crates/capability-graph/src/runtime.rs:538-614 | a refused publication names a closed scope, a used identifier, a changed dependency, or a cycle or gap in the view of a scope that would see it |
| ScopeAnswers.WithdrawalAnswers | crates/capability-graph/src/runtime.rs:469-506 | a withdrawal succeeds if and only if the open scope holds an entry of that generation, and removes that entry alone |
| ScopeAnswers.ChildIsExact | crates/capability-graph/src/runtime.rs:279-306 | a child is a live empty scope below its parent, open if and only if the parent is |
| ScopeAnswers.TeardownClosesTheSubtree | crates/capability-graph/src/runtime.rs:790-834 | a teardown empties and closes exactly the scope and its live descendants |
| ScopeAnswers.TeardownIsChildrenFirst | crates/capability-graph/src/runtime.rs:836-852 | a teardown lists every scope once, after the scopes below it |
| ScopeAnswers.ForgetIsExact | crates/capability-graph/src/runtime.rs:112-123 | a dropped scope is closed for lookups and listed nowhere |
| ScopeWithdrawal.WithdrawalIsExact | crates/capability-graph/src/runtime.rs:469-506 | a withdrawal that exposes nothing keeps every visible graph resolvable if and only if no scope that sees the entry sees a dependent of it |
| ScopeWithdrawal.ExposureIsExact | crates/capability-graph/src/runtime.rs:469-506 | a withdrawal that exposes an outer definition keeps every visible graph resolvable if and only if that definition would be admitted here as a candidate |
| WithdrawalRuns.WithdrawalCanStrand | crates/capability-graph/src/runtime.rs:469-506 | a run from the empty root whose views all resolve until the withdrawal of a capability another one needs |
| WithdrawalRuns.WithdrawalCanExposeACycle | crates/capability-graph/src/runtime.rs:469-506 | a run in which withdrawing a shadowing definition in a child exposes an outer one that closes a cycle there |
| ScopeTeardown.WalkIsComplete | crates/capability-graph/src/runtime.rs:885-919 | the snapshot walk reaches every slot that current entries pin, directly or not, and each visited slot leads only to visited ones |
| ScopeTeardown.GraphIsClosed | crates/capability-graph/src/runtime.rs:885-919 | the graph planned for a teardown is always dependency-closed |
| ScopeTeardown.TeardownPlanIsExact | crates/capability-graph/src/runtime.rs:877-883 | planning the release of a scope fails if and only if that graph has a cycle |
| ScopeTeardown.TeardownPanicIsExact | crates/capability-graph/src/runtime.rs:790-834 | tearing down a scope panics if and only if, before the call, the graph planned for some open scope of its live subtree has a cycle |
| ScopeTeardown.PlanDropsEach | crates/capability-graph/src/runtime.rs:864-875 | a plan drops every entry of the scope once |
| ScopeTeardown.PlanDropsDependentsFirst | crates/capability-graph/src/runtime.rs:864-883 | a plan drops an entry before any entry its definition depends on |
| ScopeTeardown.RootGraphIsVisible | crates/capability-graph/src/runtime.rs:885-919 | for a grounded root scope the planned graph is what the root sees |
| ScopeTeardown.RootIsPlannable | crates/capability-graph/src/runtime.rs:877-883 | without withdrawals the release of the root scope can always be planned |
| ScopeTeardown.RootOnlyRunsNeverPanic | crates/capability-graph/src/runtime.rs:790-834 | a tree without children and withdrawals is never poisoned by its own teardown |
| TeardownCycle.ChildTeardownCanPanic | crates/capability-graph/src/runtime.rs:877-919 | a run without withdrawals after which tearing down a child scope panics |
| OwnershipModel.RetainKeepsOwned | crates/capability-graph/src/runtime.rs:112-133 | taking handles of live instances keeps every count equal to what is held plus the live instances that pin it |
| OwnershipModel.PublishKeepsOwned | crates/capability-graph/src/runtime.rs:112-133 | a new instance keeps the accounts and adds one reference |
| OwnershipModel.ReleaseKeepsOwned | crates/capability-graph/src/runtime.rs:63-76 | dropping references, with the cascade of cleanups they cause, settles the accounts for the ones that remain |
| OwnershipModel.ReleaseIsExact | crates/capability-graph/src/runtime.rs:63-76 | a release cleans up exactly what the remaining references no longer reach, once each and dependents first |
| OwnershipModel.LiveIsReachable | crates/capability-graph/src/runtime.rs:112-133 | an instance is kept if and only if a chain of pins leads to it from something held |
| OwnershipModel.NothingLeaks | crates/capability-graph/src/runtime.rs:112-133 | once nothing is held every instance has been cleaned up |
| Ownership.InstanceHeap.Clone | crates/capability-graph/src/runtime.rs:124-133 | counts one more reference to each listed instance |
| Ownership.InstanceHeap.Create | crates/capability-graph/src/runtime.rs:538-549 | a new instance takes a reference to each pin |
| Ownership.InstanceHeap.Drop | crates/capability-graph/src/runtime.rs:63-76 | the recursive drop runs the cleanup before dropping the pins, as specified |
| ScopeOwnership.RunKeepsBalanced | crates/capability-graph/src/runtime.rs:279-875 | over every run of scope steps, lookups, clones and drops the counts equal published entries plus handles plus live dependents |
| ScopeOwnership.CleanupsAreOrdered | crates/capability-graph/src/runtime.rs:63-76 | over every run each cleanup runs once, after the cleanup of every instance that pinned it |
| ScopeOwnership.CleanupIsExact | crates/capability-graph/src/runtime.rs:63-76 | over every run a cleanup has run if and only if no scope entry and no handle leads to the instance |
| ScopeOwnership.VisibleIsNeverCleaned | crates/capability-graph/src/runtime.rs:317-334 | what a scope resolves or a reader holds has not been cleaned up, nor has anything it pins |
| ScopeOwnership.NothingOutlivesItsOwners | crates/capability-graph/src/runtime.rs:790-834 | with all scopes empty and all handles dropped, everything ever published has been cleaned up |
| Scopes.Find | crates/capability-graph/src/runtime.rs:317-334 | the walk towards the root computes the specified lookup |
| Scopes.Visible | crates/capability-graph/src/runtime.rs:695-713 | copying local entries over inherited ones computes the visible definitions |
| Scopes.Reaches | crates/capability-graph/src/runtime.rs:752-766 | the loop towards the root decides whether a candidate is visible from a descendant |
| Scopes.LiveDescendants | crates/capability-graph/src/runtime.rs:734-750 | lists live descendants, each child before its own |
| Scopes.ChildrenFirst | crates/capability-graph/src/runtime.rs:836-852 | lists a scope after all its live descendants |
| Scopes.Admit | crates/capability-graph/src/runtime.rs:768-782 | checks the affected open descendants in order and reports the first refusal |
| Scopes.Dependencies | crates/capability-graph/src/runtime.rs:666-681 | resolves dependencies in identifier order and reports the first missing one |
| Scopes.PreparePublication | crates/capability-graph/src/runtime.rs:508-529 | the first phase as specified |
| Scopes.CheckPublication | crates/capability-graph/src/runtime.rs:554-600 | the checks of the second phase, in the source order, decide the publication as specified |
| Scopes.ReleaseGraph | crates/capability-graph/src/runtime.rs:885-919 | the nested loops build the specified teardown graph |
| ScopeTrees.ScopeTree.NewChild | crates/capability-graph/src/runtime.rs:279-306 | creates a child as the corresponding step of the model, references included |
| ScopeTrees.ScopeTree.Lookup | crates/capability-graph/src/runtime.rs:317-334 | hands out a handle of the nearest visible entry |
| ScopeTrees.ScopeTree.PrepareSnapshot | crates/capability-graph/src/runtime.rs:508-529 | on success the caller holds a handle of every dependency |
| ScopeTrees.ScopeTree.PublishConstructed | crates/capability-graph/src/runtime.rs:538-614 | publishes and drops the replaced entry, or changes nothing and reports why |
| ScopeTrees.ScopeTree.WithdrawEntry | crates/capability-graph/src/runtime.rs:469-506 | removes exactly the named publication and hands out a handle that keeps it |
| ScopeTrees.ScopeTree.TearDownScope | crates/capability-graph/src/runtime.rs:790-834 | closes the scope and its descendants and drops their entries in plan order, as one step of the model |
| ScopeTrees.ScopeTree.DropReader | crates/capability-graph/src/runtime.rs:63-76 | drops one handle with everything that follows from it |
| FiberSafety.StepIsConsistent | crates/capability-graph/src/semantic.rs:963-1168 | every step between two await points keeps an entry of a fiber equal to its definition and binding |
| FiberSafety.RunKeepsConsistent | crates/capability-graph/src/semantic.rs:944-1168 | over every run in which anyone may change the scopes between any two steps, every fiber stays consistent |
| FiberSafety.FiberNeverPublishesStale | crates/capability-graph/src/semantic.rs:986-1076 | the step by which a fiber comes to own an entry publishes a snapshot its scope resolves at that moment, and the fiber is bound to that snapshot |
| FiberSafety.BindingsDescend | crates/capability-graph/src/semantic.rs:1060-1076 | a fiber is bound only to entries published before its own |
| FiberUnload.UnloadIsExact | crates/capability-graph/src/semantic.rs:1138-1168 | an unload removes no entry but the fiber's own if and only if that entry was detached or the open scope holds no other entry of the same generation under its identifier |
| FiberUnload.ProvidedOnceIsOwn | crates/capability-graph/src/semantic.rs:1138-1168 | where a run has provided the identifier anew at most once an unload never removes another entry |
| FiberUnload.UnloadCanRemoveAnother | crates/capability-graph/src/semantic.rs:1138-1168 | a run in which the disposal of a fiber that owns entry 1 takes entry 2 out of the scope |
| FiberUnload.OwnEntryIsRemoved | crates/capability-graph/src/semantic.rs:1138-1168 | an unload takes the own entry of the fiber out of its scope |
| FiberSteps.LookIsExact | crates/capability-graph/src/semantic.rs:151-164 | a context finds an entry if and only if it is in the nearest context upwards whose own scope holds the identifier, below the first that isolates it |
| FiberSteps.IsolatedIsOwn | crates/capability-graph/src/semantic.rs:119-133 | an isolated identifier resolves to an entry of the own scope or to nothing |
| FiberSteps.BindingIsExact | crates/capability-graph/src/semantic.rs:177-194 | a snapshot is handed out if and only if every dependency is found, and then names what is found |
| FiberSteps.DecisionIsExact | crates/capability-graph/src/semantic.rs:986-1023 | the decision of the drive loop: unload, reload, load or rest, each if and only if the target and the binding call for it |
| FiberSteps.StepAnswers | crates/capability-graph/src/semantic.rs:986-1126 | one step fails the fiber if and only if it was refused with its situation unchanged, starts over if and only if its situation changed, and otherwise goes on |
| FiberSteps.NeedsWhenDisturbed | crates/capability-graph/src/semantic.rs:884-899 | in every run a loading fiber nobody has interrupted needs reconciliation if and only if the result of its factory will be dropped |
| FiberSteps.DisposalStopsLoading | crates/capability-graph/src/semantic.rs:963-1130 | over every later run, whatever happens, a fiber asked for disposal while it was not loading never calls its factory again, publishes nothing and never becomes active again |
| FiberSteps.ResultIsDropped | crates/capability-graph/src/semantic.rs:1093-1118 | a factory result is dropped when disposal was asked for meanwhile, and the fiber is disposed at once if and only if the factory refused |
| FiberSteps.DisposedForEver | crates/capability-graph/src/semantic.rs:944-961 | once disposed a fiber stays disposed over every later run |
| ReconcileModel.LookThenGet | crates/capability-graph/src/semantic.rs:151-164 | a scope resolves what its context sees to the same entry or to nothing |
| ReconcileModel.DriveSettles | crates/capability-graph/src/semantic.rs:963-1130 | driving any resting fiber with nothing in between leaves it at rest and in need of nothing, pending only for want of a dependency, and changes at most its own entry; a failed or disposed fiber stays as it was |
| ReconcileModel.RestartSettles | crates/capability-graph/src/semantic.rs:915-923 | a restart settles a resting fiber in the same sense, whatever state it was in |
| DriveOutcomes.PublishableIsExact | crates/capability-graph/src/runtime.rs:538-614 | a fiber can publish if and only if its scope is open and has no entry under the identifier, resolves each dependency as the fiber does, and every open scope that would see it still resolves |
| DriveOutcomes.DriveIsExact | crates/capability-graph/src/semantic.rs:963-1130 | driving a resting fiber that is neither failed nor disposed: without a target it ends pending, with nothing due as it was, and otherwise active with its scope holding an entry that pins exactly the target if and only if the factory succeeds and it can publish, else failed |
| DriveOutcomes.RestartIsExact | crates/capability-graph/src/semantic.rs:915-923 | a restart ends in the same cases for any fiber that is not disposed, with a reload always due |
| DriveOutcomes.DrivenIsExact | crates/capability-graph/src/reactive.rs:155-178 | a pass drives a fiber if and only if, at its turn, it needs reconciliation |
| DriveOutcomes.FailureHasCause | crates/capability-graph/src/reactive.rs:155-178 | over any number of passes a fiber that ends failed was failed before or was refused in some pass by its factory or by the conditions of a publication |
| ReconcileModel.PassesSettle | crates/capability-graph/src/reactive.rs:155-178 | after n passes every fiber below rank n needs nothing, whatever the identities of the fibers |
| ReconcileModel.ReconciliationStops | crates/capability-graph/src/reactive.rs:155-178 | for definitions ranked below a bound the pass of that number drives nothing, and every fiber is then at the fixpoint |
| ReconcileModel.AcyclicReconciliationStops | crates/capability-graph/src/reactive.rs:155-178 | with acyclic fiber definitions the pass after the longest dependency chain drives nothing, and every fiber is then at the fixpoint |
| ReconcileModel.AcyclicIsRanked | crates/capability-graph/src/reactive.rs:155-178 | the longest chain below a capability ranks acyclic definitions, and no rank exceeds the longest chain of all |
| ReconcileModel.QuietIsFixpoint | crates/capability-graph/src/semantic.rs:884-899 | a pass drives nothing if and only if every fiber is active on exactly what resolves now, pending without its needs, failed or disposed |
| WithdrawalModel.BindingsAreAcyclic | crates/capability-graph/src/reactive.rs:386-411 | the bindings of consistent fibers never form a cycle |
| GraphDepth.DepthFromTargets | crates/capability-graph/src/reactive.rs:386-411 | one more than the deepest target is the length of the longest chain |
| GraphDepth.AcyclicHasDepths | crates/capability-graph/src/reactive.rs:386-411 | in an acyclic relation every node has a longest chain below it |
| GraphDepth.LongestChainExists | crates/capability-graph/src/reactive.rs:386-411 | an acyclic relation has a longest chain |
| WithdrawalModel.DrainQuiets | crates/capability-graph/src/reactive.rs:198-222 | after a drain the affected fibers own nothing and are bound to nothing, and every other fiber is untouched |
| WithdrawalModel.ClosureIsExact | crates/capability-graph/src/reactive.rs:295-340 | a fiber is drained if and only if a chain of bindings, committed or loading, leads from it through the owners of entries to the retired entry |
| WithdrawalModel.DetachedTakesNothing | crates/capability-graph/src/semantic.rs:858-873 | unloading the provider whose entry was retired takes nothing out of the tree |
| WithdrawalModel.NothingLeftDangling | crates/capability-graph/src/reactive.rs:295-340 | no fiber outside the closure is bound to the retired entry or to an entry of an affected fiber |
| WithdrawalModel.SortIsSorted | crates/capability-graph/src/reactive.rs:376-384 | sorting by depth is a permutation in order |
| Withdrawals.ProviderIdentities | crates/capability-graph/src/reactive.rs:275-285 | maps each owned entry to the last fiber that owns it |
| Withdrawals.WithdrawalClosure | crates/capability-graph/src/reactive.rs:295-340 | the two loops compute the least set that contains what the retired entry touches and is closed under committed bindings |
| Withdrawals.DependencyDepth | crates/capability-graph/src/reactive.rs:386-411 | the guarded recursion computes the length of the longest provider chain whenever bindings are acyclic |
| Withdrawals.WithdrawalOrder | crates/capability-graph/src/reactive.rs:348-384 | the order is a permutation of the affected fibers with every consumer before its providers: longer chains first, and of equal ones the smaller identity |
| Reactive.CapabilityFiber.Enter | crates/capability-graph/src/semantic.rs:963-984 | beginning a transition as specified |
| Reactive.CapabilityFiber.DecideNext | crates/capability-graph/src/semantic.rs:986-1023 | the decision at the head of the drive loop |
| Reactive.CapabilityFiber.FinishConstruction | crates/capability-graph/src/semantic.rs:1046-1126 | a factory result is used only if nothing changed meanwhile |
| Reactive.CapabilityFiber.TryCommit | crates/capability-graph/src/semantic.rs:1059-1092 | publishes and becomes active, starts over, or fails |
| Reactive.CapabilityFiber.Release | crates/capability-graph/src/semantic.rs:1138-1168 | gives the entry back unless it was detached, and forgets the binding |
| Reactive.CapabilityFiber.Continue | crates/capability-graph/src/semantic.rs:963-1168 | one step to the next await point, as specified |
| Reactive.CapabilityFiber.AwaitStable | crates/capability-graph/src/semantic.rs:939-941 | drives any resting fiber, a new one included, until it rests, as specified |
| Reactive.ReactiveRuntime.Watch | crates/capability-graph/src/reactive.rs:70-77 | watches a fiber unless its identity is taken, which it is when the fiber is already watched |
| Reactive.ReactiveRuntime.Reconcile | crates/capability-graph/src/reactive.rs:155-178 | with acyclic definitions the loop stops at the latest one pass after the longest chain, has run exactly the specified passes and leaves every fiber at the fixpoint |
| Reactive.ReactiveRuntime.WithdrawAndReconcile | crates/capability-graph/src/reactive.rs:182-225 | withdraws, drains the closure consumers first, reports the fibers in that order and leaves them owning and bound to nothing with every other fiber untouched; an absent entry or a refused withdrawal changes nothing |
| Coordinator.RunKeepsReady | crates/capability-graph/src/reactive.rs:155-225 | over every run of scope commands, watches, starts, restarts, disposals, reconciliations and withdrawals the tree is sound, every fiber is consistent and at rest, and no two own the same entry |
| Coordinator.EveryRunReconciles | crates/capability-graph/src/reactive.rs:155-178 | after every such run acyclic fiber definitions reconcile to the fixpoint within the longest chain |
| Coordinator.EveryWithdrawalDrains | crates/capability-graph/src/reactive.rs:182-225 | after every such run a withdrawal leaves its closure quiet and every other fiber as it was, bound neither to the retired entry nor to one a drained fiber owned |
| Coordinator.DisposalFinishes | crates/capability-graph/src/semantic.rs:944-961 | disposing a resting fiber ends in the disposed state with nothing owned, and changes at most its own entry |
| EffectModel.DisposalReversesRegistration | crates/capability-graph/src/semantic.rs:1253-1266 | every disposer runs exactly once, in reverse registration order through nested scopes, whatever fails |
| EffectModel.FailuresAreReported | crates/capability-graph/src/semantic.rs:1253-1266 | the reported errors are the registered effects below which a disposer failed, each once, the last registered first |
| Effects.EffectStack.Push | crates/capability-graph/src/semantic.rs:1236-1242 | registers an effect unless disposal has begun |
| Effects.EffectStack.DisposeAll | crates/capability-graph/src/semantic.rs:1246-1250 | closes the stack and disposes what it held; a second call disposes nothing |
| Effects.PopAndDispose | crates/capability-graph/src/semantic.rs:1253-1266 | the popping loop computes the specified disposal |
| StreamModel.TurnKeepsSane | crates/execution-stream/src/lib.rs:246-281 | every production and consumption keeps pending sequences increasing and everything accounted for |
| StreamModel.LossIsObservable | crates/execution-stream/src/lib.rs:246-281 | through any buffer the tracker reports no reordering, and items observed plus gap widths equal the last sequence seen |
| StreamModel.DropsAreExactlyObserved | crates/execution-stream/src/lib.rs:496-509 | through a buffer that drops its oldest item each delivery leaves the reported gaps equal to the items dropped so far |
| StreamModel.PositionIsFirst | crates/execution-stream/src/lib.rs:430-441 | the coalescing target is the oldest pending item of the same stream and key |
| StreamObservations.TrackerHoldsNewest | crates/execution-stream/src/lib.rs:246-281 | a tracker fed with any items of its stream, in any order, holds the largest sequence among them |
| StreamObservations.ObservationIsExact | crates/execution-stream/src/lib.rs:246-281 | after any items the next is reported as first, in order, after a gap with its bounds, or duplicate or reordered, if and only if its sequence compares so with the largest before; another stream is refused |
| StreamObservations.ProgressAddsUp | crates/execution-stream/src/lib.rs:246-281 | for any items, what the tracker reports as progress adds up to the distance from the first sequence to the largest |
| StreamObservations.LosslessIsExact | crates/execution-stream/src/lib.rs:354-360 | a lossless buffer refuses if and only if it is full, and otherwise holds the item behind the others |
| StreamObservations.CoalescingIsExact | crates/execution-stream/src/lib.rs:430-446 | a coalescing buffer refuses if and only if it is full and holds no item of the same identity; otherwise it ends with the item, without the replaced one and with every other one |
| StreamObservations.CoalescingKeepsOrder | crates/execution-stream/src/lib.rs:430-446 | the pending item of the same identity is taken out, and the others keep their order |
| StreamObservations.GapsAreLosses | crates/execution-stream/src/lib.rs:246-281 | over any run through any buffer the reported gaps never exceed what was lost, and equal it once the newest item has been seen |
| StreamObservations.DroppingIsExact | crates/execution-stream/src/lib.rs:496-504 | a dropping buffer gives up its oldest item if and only if it is full |
| StreamObservations.CoalescedOnce | crates/execution-stream/src/lib.rs:430-446 | over every run a coalescing buffer holds at most one item of each stream and key and never more than its capacity |
| Streams.StreamSequencer.EmitItem | crates/execution-stream/src/lib.rs:130-148 | emits in order and stops for good after the largest sequence |
| Streams.SequenceTracker.ObserveItem | crates/execution-stream/src/lib.rs:246-281 | classifies an item and advances to the newest sequence |
| Streams.BoundedBuffer.CoalesceItem | crates/execution-stream/src/lib.rs:430-446 | replaces the pending item of the same identity at the tail, appends, or refuses |
| Streams.BoundedBuffer.FindSame | crates/execution-stream/src/lib.rs:434-437 | finds the oldest pending item of the same identity |
| Streams.BoundedBuffer.PushItem | crates/execution-stream/src/lib.rs:496-504 | drops and returns the oldest item when full |
| Streams.BoundedBuffer.AppendItem | crates/execution-stream/src/lib.rs:354-360 | appends, or refuses when full |
| Streams.BoundedBuffer.PopItem | crates/execution-stream/src/lib.rs:363-365 | removes the oldest pending item |

## Left out

- Progress and telemetry buffers of the coordinator, and the display, error conversion and builder code: independent of the facts proved here.
- Capability pins of attempts: pinning and reproducing them are abstract answers (`Pins`, `Reproduction`), so string identities and the capability runtime inside the coordinator are not modelled.
- Validation of blank identifiers and keys: identifiers are opaque.
- The ring storage of the event buffer: it is a sequence with a capacity.
- An admission count of the largest 64-bit number at restart: the program panics on the addition, the model reports exhaustion.
- The process-wide entry counter is unbounded, and entries of unrelated scope trees do not share it: its overflow panic is not modelled.
- Locks are atomic steps; a panic under the topology lock makes the tree unusable, and the order of drops while that panic unwinds is not stated.
- Values that were constructed but refused publication are cleaned up by their own drop and never become entries.
- Factories, validators and disposers are abstract answers; factories are assumed not to hide handles inside values.
- Dropping the last reference to a scope is the `ForgetScope` step of the scope model and has no method of its own.
- ReconcileModel.ReconciliationStops: assumes serialized mutations and fibers at rest, as the coordinator's documentation does; concurrent reconciliation of one fiber is not claimed.
- Error texts, the lists of cleanup errors in reports, configuration intercepts, the plugin registry and disposal of all fibers of a plugin: plain bookkeeping.
- The checks of a disposal request made between the end of effect disposal and the next state change are taken together with the step before them.
- Weak references: the watched fibers and child scopes are those still alive.
- Reference counts are unbounded; the abort of the reference counter at its machine limit is not modelled.
