/** What a scheduler step and a cancellation answer, and what they leave. */
module SchedulerSteps {
  import opened Prelude
  import opened DurableModel
  import opened JournalModel
  import opened StoreProtocol
  import opened RuntimeModel
  import opened RuntimeSafety
  import opened RuntimeCalls
  import opened RuntimeEvents
  import opened EffectRecords
  import opened RecoveryDecisions
  import Commits = DurableCommits
  import Workflow = WorkflowModel
  import Batches = WorkflowBatches
  import Digraph

  // ---- Cancellation ----

  /** What the runtime knows of the task when it is cancelled. */
  function CancellationOf(r: Runtime, task: Id): Cancellation {
    var operation := if task in Head(r).taskOperations then Some(Head(r).taskOperations[task]) else None;
    Cancellation(r.run, task, operation, if operation.Some? then AttemptForTask(r, task, operation) else None)
  }

  /**
   A known task is cancelled the first time whenever a revision is left; the
   cancellation names the operation it owns and the attempt begun for it. The answer
   is that the effect was already dispatched, with its latest attempt, exactly when
   the store holds a dispatch of that operation.
   */
  lemma CancelIsExact(r: Runtime, task: Id)
    requires Safe(r)
    ensures var d, s := CancelTask(r, task), Head(r);
            && (task !in r.workflow.topology.tasks ==> d == Step(r, Err(UnknownTask(task))))
            && (task in r.workflow.topology.tasks && task !in s.cancellations ==>
                  && (d.result.Ok? <==> s.revision < U64_MAX)
                  && (d.result.Ok? ==> Recorded(r, d.next, RecordCancellation(CancellationOf(r, task)))))
            && (task in r.workflow.topology.tasks && task in s.cancellations && s.revision < U64_MAX ==>
                  (d.result.Ok? <==> s.cancellations[task] == CancellationOf(r, task)))
            && (d.result.Err? ==> d.next == r)
            && (d.result.Ok? ==>
                  && d.next.cancelled == s.cancellations.Keys + {task}
                  && (d.result == Ok(NotDispatched(task)) <==>
                        (task in s.taskOperations ==> NeverDispatched(s, s.taskOperations[task])))
                  && (forall operation, a :: d.result == Ok(AlreadyDispatched(task, operation, a)) <==>
                        task in s.taskOperations && s.taskOperations[task] == operation && Latest(s, operation, a)))
  {
    hide *;
    CancelTaskSafe(r, task);
    SafeParts(r);
    CancelShape(r, task);
    var c := CommitDurable(r, CancelKey(task), RecordCancellation(CancellationOf(r, task)));
    if task in r.workflow.topology.tasks {
      OwnedDispatches(Head(r), task);
      if task !in Head(r).cancellations {
        FirstCancellation(r, task);
      } else if Head(r).revision < U64_MAX {
        RepeatedCancellation(r, task);
      }
    }
  }

  lemma CancelShape(r: Runtime, task: Id)
    requires Safe(r)
    ensures var d, s, c := CancelTask(r, task), Head(r),
                           CommitDurable(r, CancelKey(task), RecordCancellation(CancellationOf(r, task)));
            if task !in r.workflow.topology.tasks then d == Step(r, Err(UnknownTask(task)))
            else if c.result.Err? then d == Step(c.next, Err(c.result.error))
            else
              && d.next == c.next.(cancelled := s.cancellations.Keys + {task})
              && d.result == Ok(if task in s.taskOperations && s.LatestDispatch(s.taskOperations[task]).Some?
                                then AlreadyDispatched(task, s.taskOperations[task],
                                                       s.LatestDispatch(s.taskOperations[task]).value.attempt)
                                else NotDispatched(task))
  {
    hide CommitDurable, Protected, Agrees, Attempted, Workflow.Valid, AttemptForTask, View, Journal.LatestDispatch,
      RunState.LatestDispatch;
    SafeParts(r);
    ViewIntents(Head(r));
    if task in Head(r).taskOperations { JournalStateIsEffectState(r, Head(r).taskOperations[task]); }
  }

  /** What the latest dispatch of the operation a task owns says about the history. */
  lemma OwnedDispatches(s: RunState, task: Id)
    requires Lineage(s)
    ensures task in s.taskOperations ==>
              var operation := s.taskOperations[task];
              && (s.LatestDispatch(operation).None? <==> NeverDispatched(s, operation))
              && (forall a :: Latest(s, operation, a) <==>
                    s.LatestDispatch(operation) == Some(DispatchRecord(operation, a)))
              && (s.LatestDispatch(operation).Some? ==> s.LatestDispatch(operation).value.operation == operation)
  {
    hide Listed, Linked, LastFor;
    if task in s.taskOperations {
      LastForIsExact(s.dispatchHistory, s.taskOperations[task]);
      StateIsHistory(s, s.taskOperations[task]);
    }
  }

  lemma FirstCancellation(r: Runtime, task: Id)
    requires Safe(r) && task !in Head(r).cancellations
    ensures var m := RecordCancellation(CancellationOf(r, task));
            var c := CommitDurable(r, CancelKey(task), m);
            && (c.result.Ok? <==> Head(r).revision < U64_MAX)
            && (c.result.Ok? ==>
                  Recorded(r, c.next, m) && Recorded(r, c.next.(cancelled := Head(r).cancellations.Keys + {task}), m))
  {
    hide CommitDurable, Protected, Agrees, Workflow.Valid, AttemptForTask, Recorded, View;
    SafeParts(r);
    var m := RecordCancellation(CancellationOf(r, task));
    KeyIsFresh(Head(r), m);
    CommitIsRecorded(r, m);
    var attempt := m.cancellation.attempt;
    if attempt.Some? { AttemptForTaskIsAdmitted(r, task, m.cancellation.operation); }
    var c := CommitDurable(r, CancelKey(task), m);
    if c.result.Ok? { RecordedFrame(r, c.next, c.next.(cancelled := Head(r).cancellations.Keys + {task}), m); }
  }

  lemma RepeatedCancellation(r: Runtime, task: Id)
    requires Safe(r) && task in Head(r).cancellations && Head(r).revision < U64_MAX
    ensures CommitDurable(r, CancelKey(task), RecordCancellation(CancellationOf(r, task))).result.Ok? <==>
              Head(r).cancellations[task] == CancellationOf(r, task)
  {
    hide CommitDurable, Lineage, AtMostOnce, Agrees, Attempted, Workflow.Valid, AttemptForTask, View, Recorded,
      ApplyMutation;
    SafeParts(r);
    var s, m := Head(r), RecordCancellation(CancellationOf(r, task));
    CommitAdvances(r, m);
    if CancelKey(task) in s.idempotency {
      var first := s.idempotency[CancelKey(task)].mutations[0];
      assert first.RecordCancellation? && first.cancellation == s.cancellations[task];
      assert s.idempotency[CancelKey(task)].mutations == [first];
    } else {
      FreshCommitRecords(s, m);
    }
  }

  // ---- Which task a step advances ----

  /** Nothing is held back, and the task is the first one that can be completed and is not cancelled. */
  ghost predicate Picks(r: Runtime, task: Id) {
    && r.pending.None? && Completable(r.workflow, task) && task !in Head(r).cancellations
    && forall t :: Completable(r.workflow, t) && t !in Head(r).cancellations ==> task <= t
  }

  lemma {:induction false} FirstIsLeast(tasks: seq<Id>, cancelled: set<Id>)
    requires Increasing(tasks)
    ensures var first := FirstUncancelled(tasks, cancelled);
            first.Some? ==> forall t :: t in tasks && t !in cancelled ==> first.value <= t
    decreases |tasks|
  {
    if tasks != [] {
      forall i, j | 0 <= i < j < |tasks[1..]|
        ensures tasks[1..][i] < tasks[1..][j]
      {
        assert tasks[i + 1] < tasks[j + 1];
      }
      FirstIsLeast(tasks[1..], cancelled);
      forall t | t in tasks[1..] ensures tasks[0] <= t {
        var i :| 0 <= i < |tasks[1..]| && tasks[1..][i] == t;
        assert tasks[0] < tasks[i + 1];
      }
      assert forall t :: t in tasks ==> t == tasks[0] || t in tasks[1..];
    }
  }

  lemma ReadyIsCompletable(g: Workflow.Graph)
    ensures Increasing(Workflow.ReadyTasks(g)) && forall t :: t in Workflow.ReadyTasks(g) <==> Completable(g, t)
  {
    AscendingIsSorted(set id |
      id in g.topology.tasks && id !in g.completed && g.topology.DependenciesOf(id) <= g.completed);
  }

  /** A step advances exactly the first eligible task; without one it is idle, and a held event comes first. */
  lemma StepPicksFirst(r: Runtime, env: Environment)
    requires Safe(r)
    ensures r.pending.Some? ==> StepOnce(r, env) == Step(r, Err(ExecutionBackpressure(r.pending.value.item)))
    ensures forall task :: Picks(r, task) ==> StepOnce(r, env) == StepTask(r, task, env)
    ensures r.pending.None? && (forall task :: !Picks(r, task)) ==> StepOnce(r, env) == Step(r, Ok(Idle))
  {
    hide StepTask, Workflow.ReadyTasks, Completable, Protected, Agrees, Attempted, Workflow.Valid;
    SafeParts(r);
    ReadyIsCompletable(r.workflow);
    var ready := Workflow.ReadyTasks(r.workflow);
    FirstIsLeast(ready, r.cancelled);
    var first := FirstUncancelled(ready, r.cancelled);
    if first.Some? && r.pending.None? { assert Picks(r, first.value); }
  }

  // ---- Tasks that own an effect ----

  lemma OwnedEffect(r: Runtime, task: Id, env: Environment)
    requires Safe(r) && Picks(r, task) && task in Head(r).taskOperations
    ensures var operation := Head(r).taskOperations[task];
            && operation in Head(r).intents && Head(r).intents[operation].task == task
            && StepOnce(r, env) == AdvanceTask(r, task, Some(operation), env)
            && r.journal.State(operation) == Head(r).EffectState(operation)
            && r.journal.KnownOutcome(operation) == Head(r).LatestOutcome(operation)
            && r.journal.intents == Head(r).intents
  {
    hide AdvanceTask, Listed, Linked, Keyed, AtMostOnce, Agrees, Attempted, Workflow.Valid, View, Journal.State,
      RunState.EffectState, Journal.KnownOutcome, RunState.LatestOutcome, Completable;
    SafeParts(r);
    ViewIntents(Head(r));
    StepPicksFirst(r, env);
    JournalStateIsEffectState(r, Head(r).taskOperations[task]);
  }

  /** A failed effect blocks its task and is only observed. */
  lemma FailureIsObserved(r: Runtime, task: Id, env: Environment, a: AttemptId)
    requires Safe(r) && Picks(r, task) && task in Head(r).taskOperations
    requires Answered(Head(r), Head(r).taskOperations[task], a, KnownOutcome.Failed)
    ensures StepOnce(r, env) == Step(r, Ok(Blocked(task, Some(Head(r).taskOperations[task]), ObserveFailure)))
  {
    hide Safe, Picks, StepOnce, Journal.State, RunState.EffectState, Answered;
    var operation := Head(r).taskOperations[task];
    OwnedEffect(r, task, env);
    StateIsHistory(Head(r), operation);
    assert Head(r).EffectState(operation) == OutcomeKnown(KnownOutcome.Failed);
  }

  /** An effect of unknown outcome blocks its task, to be repeated if it is idempotent and reconciled otherwise. */
  lemma UnknownIsBlocked(r: Runtime, task: Id, env: Environment, a: AttemptId)
    requires Safe(r) && Picks(r, task) && task in Head(r).taskOperations
    requires Unanswered(Head(r), Head(r).taskOperations[task], a)
    ensures var operation := Head(r).taskOperations[task];
            && operation in Head(r).intents
            && StepOnce(r, env) ==
               Step(r, Ok(Blocked(task, Some(operation),
                                  if Head(r).intents[operation].semantics == Idempotent then RetrySameOperation
                                  else Reconcile)))
  {
    hide Safe, StepOnce, Journal.State, RunState.EffectState, Unanswered, ClassifyRecovery, Lineage;
    var operation := Head(r).taskOperations[task];
    OwnedEffect(r, task, env);
    StateIsHistory(Head(r), operation);
    SafeLineage(r);
    var i := Head(r).intents[operation];
    var d := if i.semantics == Idempotent
             then RecoveryDecision(RetrySameOperation, IdempotentOutcomeUnknown(operation, a))
             else RecoveryDecision(Reconcile, NonIdempotentOutcomeUnknown(operation, a));
    DecisionIsExact(r.workflow, Head(r), operation, d);
  }

  /** A known success completes its task under the attempt that succeeded, whether or not the event finds room. */
  lemma SuccessCompletes(r: Runtime, task: Id, env: Environment, a: AttemptId)
    requires Safe(r) && Picks(r, task) && task in Head(r).taskOperations
    requires Answered(Head(r), Head(r).taskOperations[task], a, Succeeded)
    ensures var d := StepOnce(r, env);
            && SameDurable(r, d.next) && Completes(r.workflow, d.next.workflow, task)
            && (d.result.Ok? <==> Roomy(r))
            && (d.result.Ok? ==>
                  d.result == Ok(Completed(task, a)) && Announced(r, d.next, TaskCompleted(r.run, task, a)))
  {
    hide Safe, Picks, StepOnce, Journal.State, RunState.EffectState, Answered, CompleteTask, Lineage, Completable,
      Announced, RunState.LatestOutcome, Journal.KnownOutcome, Completes, SameDurable, Roomy;
    var operation := Head(r).taskOperations[task];
    OwnedEffect(r, task, env);
    StateIsHistory(Head(r), operation);
    assert Head(r).EffectState(operation) == OutcomeKnown(Succeeded);
    SafeLineage(r);
    KnownSuccessOutcome(Head(r), operation, a);
    CompletionIsExact(r, task, a);
    PickedIsCompletable(r, task);
  }

  lemma PickedIsCompletable(r: Runtime, task: Id)
    requires Picks(r, task)
    ensures Completable(r.workflow, task) && r.pending.None?
  {
  }

  /** The attempt a prepared effect is to be dispatched under: the one begun before, or a new one. */
  ghost predicate Waits(r: Runtime, d: Step<StepResult>, task: Id, operation: Id, env: Environment) {
    match AttemptForTask(r, task, Some(operation))
    case Some(a) => d == Step(r, Ok(EffectPending(task, a, operation)))
    case None =>
      && (d.result.Ok? <==> Admissible(r, env, task) && Roomy(r))
      && (d.result.Ok? ==>
            var a := NextAttempt(r, task, Some(operation), env(task).capabilities);
            && d.result == Ok(EffectPending(task, a.attempt, operation)) && Admits(r, d.next, a)
            && d.next.attempts == r.attempts + [a] && d.next.pending == r.pending
            && Announced(r, d.next, TaskStarted(r.run, task, a.attempt)))
  }

  lemma PreparedWaits(r: Runtime, task: Id, env: Environment)
    requires Safe(r) && Picks(r, task) && task in Head(r).taskOperations
    requires NeverDispatched(Head(r), Head(r).taskOperations[task])
    ensures Waits(r, StepOnce(r, env), task, Head(r).taskOperations[task], env)
  {
    hide Safe, StepOnce, Journal.State, RunState.EffectState, NeverDispatched, BeginAttempt, Admits, AttemptForTask;
    var operation := Head(r).taskOperations[task];
    OwnedEffect(r, task, env);
    StateIsHistory(Head(r), operation);
    BeginIsExact(r, task, Some(operation), env);
  }

  /** The attempt a step announces for a prepared effect is the one the next dispatch of it uses. */
  lemma AnnouncedAttemptIsDispatched(r: Runtime, task: Id, env: Environment, later: Environment)
    requires Safe(r) && Picks(r, task) && task in Head(r).taskOperations
    requires NeverDispatched(Head(r), Head(r).taskOperations[task]) && StepOnce(r, env).result.Ok?
    ensures var d, operation := StepOnce(r, env), Head(r).taskOperations[task];
            && d.result.value.EffectPending?
            && (DispatchEffect(d.next, operation, later).result.Ok? <==> Head(d.next).revision < U64_MAX)
            && (DispatchEffect(d.next, operation, later).result.Ok? ==>
                  DispatchEffect(d.next, operation, later).result == Ok(d.result.value.attempt))
  {
    hide *;
    PreparedWaits(r, task, env);
    StepOnceSafe(r, env);
    GoodIsSafe(r, StepOnce(r, env));
    AnnouncedIsReusable(r, StepOnce(r, env), task, env);
    DispatchIsExact(StepOnce(r, env).next, Head(r).taskOperations[task], later);
  }

  lemma AnnouncedIsReusable(r: Runtime, d: Step<StepResult>, task: Id, env: Environment)
    requires Safe(r) && Safe(d.next) && Picks(r, task) && task in Head(r).taskOperations
    requires NeverDispatched(Head(r), Head(r).taskOperations[task])
    requires Waits(r, d, task, Head(r).taskOperations[task], env) && d.result.Ok?
    ensures var operation := Head(r).taskOperations[task];
            && d.result.value.EffectPending? && Reusable(d.next, operation) == Some(d.result.value.attempt)
            && Sendable(d.next, operation)
  {
    hide Listed, Linked, Keyed, AtMostOnce, NumberedInOrder, Agrees, Attempted, Workflow.Valid, Completable,
      RunState.EffectState,
      NeverDispatched, Commits.Adds;
    var operation := Head(r).taskOperations[task];
    StateIsHistory(Head(r), operation);
    EffectIgnoresTable(Head(r), Head(d.next), operation);
    if AttemptForTask(r, task, Some(operation)).None? {
      var a := NextAttempt(r, task, Some(operation), env(task).capabilities);
      assert d.next.attempts[|d.next.attempts| - 1] == a;
    }
  }

  lemma GoodIsSafe<T>(r: Runtime, s: Step<T>)
    requires Good(r, s)
    ensures Safe(s.next)
  {
  }

  // ---- Tasks that own none yet ----

  /**
   A configured effect is recorded before anything else, and the step then goes on
   as if it had always been on record; when it cannot be recorded nothing changes.
   */
  lemma ConfiguredEffectIsRecordedFirst(r: Runtime, task: Id, env: Environment)
    requires Safe(r) && Picks(r, task) && task !in Head(r).taskOperations
    requires task in r.configs && r.configs[task].effect.Some?
    ensures var d, effect := StepOnce(r, env), r.configs[task].effect.value;
            var recorded := RecordEffectIntent(r, task, effect.operation, effect.semantics);
            && (recorded.result.Ok? <==> effect.operation !in Head(r).intents && Head(r).revision < U64_MAX)
            && (recorded.result.Err? ==> d.next == r && d.result == Err(recorded.result.error))
            && (recorded.result.Ok? ==>
                  && Recorded(r, recorded.next, RecordIntent(EffectIntent(task, effect.operation, effect.semantics)))
                  && Picks(recorded.next, task) && Head(recorded.next).taskOperations[task] == effect.operation
                  && NeverDispatched(Head(recorded.next), effect.operation)
                  && d == StepOnce(recorded.next, env))
  {
    hide AdvanceTask, Protected, Agrees, Attempted, Workflow.Valid, StepOnce, RecordEffectIntent, Recorded, Completable,
      RunState.EffectState, NeverDispatched;
    SafeParts(r);
    ViewIntents(Head(r));
    StepPicksFirst(r, env);
    var effect := r.configs[task].effect.value;
    IntentIsRecorded(r, task, effect.operation, effect.semantics);
    PickedIsUnfinished(r, task);
    var recorded := RecordEffectIntent(r, task, effect.operation, effect.semantics);
    if recorded.result.Ok? {
      RecordEffectIntentSafe(r, task, effect.operation, effect.semantics);
      StillPicked(r, recorded.next, task, EffectIntent(task, effect.operation, effect.semantics));
      OwnedEffect(recorded.next, task, env);
      StateIsHistory(Head(recorded.next), effect.operation);
    }
  }

  /** An effect configured for the next task is recorded by the next step; no other configuration changes. */
  lemma ConfigurationTakesEffect(r: Runtime, task: Id, config: TaskConfig, env: Environment)
    requires Safe(r) && Picks(r, task) && task !in Head(r).taskOperations && config.effect.Some?
    ensures var c, effect := ConfigureTask(r, task, config), config.effect.value;
            var recorded := RecordEffectIntent(c.next, task, effect.operation, effect.semantics);
            && c.result.Ok? && Safe(c.next) && SameDurable(r, c.next)
            && (forall t :: t in r.configs && t != task ==> t in c.next.configs && c.next.configs[t] == r.configs[t])
            && (recorded.result.Ok? <==> effect.operation !in Head(r).intents && Head(r).revision < U64_MAX)
            && (recorded.result.Ok? ==>
                  && Recorded(c.next, recorded.next,
                              RecordIntent(EffectIntent(task, effect.operation, effect.semantics)))
                  && StepOnce(c.next, env) == StepOnce(recorded.next, env))
            && (recorded.result.Err? ==> StepOnce(c.next, env) == Step(c.next, Err(recorded.result.error)))
  {
    hide Protected, Agrees, Attempted, Workflow.Valid, StepOnce, RecordEffectIntent, Recorded, Completable,
      NeverDispatched;
    PickedIsUnfinished(r, task);
    ConfigureTaskSafe(r, task, config);
    ConfiguredEffectIsRecordedFirst(ConfigureTask(r, task, config).next, task, env);
  }

  lemma PickedIsUnfinished(r: Runtime, task: Id)
    requires Picks(r, task)
    ensures task in r.workflow.topology.tasks && task !in r.workflow.completed
  {
  }

  lemma StillPicked(r: Runtime, n: Runtime, task: Id, i: EffectIntent)
    requires Safe(n) && Picks(r, task) && Recorded(r, n, RecordIntent(i)) && i.task == task
    requires i.operation !in Head(r).intents
    ensures Picks(n, task) && task in Head(n).taskOperations && Head(n).taskOperations[task] == i.operation
    ensures i.operation in Head(n).intents
  {
    hide Safe, Completable;
  }

  /**
   A task without an effect completes in one step, under the attempt begun for it
   before or a new one; both lifecycle events have to find room.
   */
  lemma PlainTaskCompletes(r: Runtime, task: Id, env: Environment)
    requires Safe(r) && Picks(r, task) && task !in Head(r).taskOperations
    requires task !in r.configs || r.configs[task].effect.None?
    ensures var d, known := StepOnce(r, env), AttemptForTask(r, task, None);
            if known.Some? then
              && SameDurable(r, d.next) && Completes(r.workflow, d.next.workflow, task)
              && (d.result.Ok? <==> Roomy(r))
              && (d.result.Ok? ==>
                    && d.result == Ok(Completed(task, known.value))
                    && Announced(r, d.next, TaskCompleted(r.run, task, known.value)))
            else if !Admissible(r, env, task) || !Roomy(r) then d.result.Err? && d.next.workflow == r.workflow
            else
              var a := NextAttempt(r, task, None, env(task).capabilities);
              var started := Item(r.sequencer.next, TaskStarted(r.run, task, a.attempt));
              && Completes(r.workflow, d.next.workflow, task)
              && Head(d.next).admissionHistory == Head(r).admissionHistory + [AdmissionOf(a)]
              && SameEffects(Head(r), Head(d.next))
              && (d.result.Ok? <==> |r.events| + 1 < EVENT_CAPACITY && r.sequencer.next < U64_MAX)
              && (d.result.Ok? ==>
                    && d.result == Ok(Completed(task, a.attempt))
                    && d.next.events ==
                       r.events + [started, Item(r.sequencer.next + 1, TaskCompleted(r.run, task, a.attempt))])
  {
    hide Safe, StepOnce, BeginAttempt, CompleteTask, Completable, Completes, AttemptForTask, SameEffects, Commits.Adds;
    PlainAdvances(r, task, env);
    PickedIsCompletable(r, task);
    BeginIsExact(r, task, None, env);
    BeginAttemptSafe(r, task, None, env);
    var begun := CurrentAttempt(r, task, None, env);
    if begun.result.Ok? { CompletionIsExact(begun.next, task, begun.result.value); }
  }

  lemma PlainAdvances(r: Runtime, task: Id, env: Environment)
    requires Safe(r) && Picks(r, task) && task !in Head(r).taskOperations
    requires task !in r.configs || r.configs[task].effect.None?
    ensures StepOnce(r, env) == AdvanceTask(r, task, None, env)
  {
    hide AdvanceTask, Protected, Agrees, Attempted, Workflow.Valid, StepOnce, Picks, View;
    SafeParts(r);
    ViewIntents(Head(r));
    StepPicksFirst(r, env);
  }

  // ---- Planning ----

  /** A plan is taken exactly when the workflow accepts it, and then changes nothing but nodes and edges. */
  lemma PlanIsTaken(r: Runtime, expected: nat, batch: seq<Workflow.Mutation>)
    requires Safe(r)
    ensures var d, g := ApplyWorkflowMutation(r, expected, batch), r.workflow;
            && (d.result.Ok? <==>
                  && expected == g.revision && batch != [] && g.revision < U64_MAX
                  && Batches.AllFit(g, batch) && Digraph.Acyclic(Batches.RelationAfter(g.topology, batch)))
            && (d.result.Err? ==> d.next == r)
            && (d.result.Ok? ==>
                  && d.next == r.(workflow := d.next.workflow) && d.next.workflow.completed == g.completed
                  && Batches.Holds(g.topology, batch, d.next.workflow.topology))
  {
    hide Protected, Agrees, Attempted, Workflow.Valid, Workflow.ApplyBatch, Batches.Holds, Batches.AllFit,
      Digraph.Acyclic;
    Batches.BatchIsExact(r.workflow, expected, batch);
    if Workflow.ApplyBatch(r.workflow, expected, batch).Ok? { Batches.AcceptedBatchHolds(r.workflow, expected, batch); }
  }

  // ---- Repeated steps ----

  /** The state after `n` steps. */
  function StepsFrom(r: Runtime, env: Environment, n: nat): Runtime
    decreases n
  {
    if n == 0 then r else StepsFrom(StepOnce(r, env).next, env, n - 1)
  }

  function ResultAt(r: Runtime, env: Environment, n: nat): Result<StepResult, RuntimeError> {
    StepOnce(StepsFrom(r, env, n), env).result
  }

  predicate Goes(r: Result<StepResult, RuntimeError>) {
    r.Ok? && r.value.Completed?
  }

  /**
   Running until blocked is stepping as long as steps complete tasks: it reports the
   result of every step, the last being the first that completes none, or the error of
   the first step that fails.
   */
  lemma {:induction false} RunIsSteps(r: Runtime, env: Environment) returns (n: nat)
    ensures forall k: nat :: k < n ==> Goes(ResultAt(r, env, k))
    ensures !Goes(ResultAt(r, env, n))
    ensures RunUntilBlocked(r, env).next == StepsFrom(r, env, n + 1)
    ensures match ResultAt(r, env, n)
            case Err(e) => RunUntilBlocked(r, env).result == Err(e)
            case Ok(last) =>
              && RunUntilBlocked(r, env).result.Ok? && |RunUntilBlocked(r, env).result.value| == n + 1
              && forall k: nat :: k <= n ==> ResultAt(r, env, k) == Ok(RunUntilBlocked(r, env).result.value[k])
    decreases Remaining(r)
  {
    hide StepOnce, Remaining;
    var first := StepOnce(r, env);
    if Goes(first.result) {
      CompletionIsProgress(r, env);
      var m := RunIsSteps(first.next, env);
      n := m + 1;
      var rest := RunUntilBlocked(first.next, env);
      forall k: nat | k < n ensures Goes(ResultAt(r, env, k)) {
        if k > 0 { assert ResultAt(r, env, k) == ResultAt(first.next, env, k - 1); }
      }
      assert ResultAt(r, env, n) == ResultAt(first.next, env, m);
      if rest.result.Ok? {
        forall k: nat | k <= n ensures ResultAt(r, env, k) == Ok(RunUntilBlocked(r, env).result.value[k]) {
          if k > 0 { assert ResultAt(r, env, k) == ResultAt(first.next, env, k - 1); }
        }
      }
    } else {
      n := 0;
      assert StepsFrom(r, env, 1) == StepsFrom(first.next, env, 0);
    }
  }
}
