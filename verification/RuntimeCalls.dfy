/** The remaining public calls, start, and restart keep the invariant. */
module RuntimeCalls {
  import opened Prelude
  import opened DurableModel
  import opened JournalModel
  import opened StoreProtocol
  import opened RuntimeModel
  import opened RuntimeSafety
  import Workflow = WorkflowModel

  // ---- Completion ----

  lemma EmitEventFrame(r: Runtime, event: Event)
    ensures var d := EmitEvent(r, event);
            && d.next == r.(sequencer := d.next.sequencer, events := d.next.events)
            && (d.result.Err? ==> !d.result.error.StoreFailure?)
  {
  }

  /** The same store, attempts and views under an extended workflow. */
  ghost predicate SameDurable(r: Runtime, n: Runtime) {
    && n.run == r.run && n.runs == r.runs && n.revision == r.revision && n.journal == r.journal
    && n.cancelled == r.cancelled && n.attempts == r.attempts && n.pending == r.pending
    && n.nextAttempt == r.nextAttempt
  }

  lemma SameDurableIsGood<T>(r: Runtime, s: Step<T>)
    requires Safe(r) && SameDurable(r, s.next) && (s.result.Err? ==> !s.result.error.StoreFailure?)
    requires Workflow.Valid(s.next.workflow) && Agrees(s.next.workflow, Head(r))
    requires r.workflow.completed <= s.next.workflow.completed
    requires r.workflow.topology.tasks.Keys <= s.next.workflow.topology.tasks.Keys
    ensures Good(r, s)
  {
    hide Protected, Agrees, Workflow.Valid, Admitted;
  }

  /** A task may be completed when it owns no operation or its operation has succeeded. */
  ghost predicate MayComplete(r: Runtime, task: Id) {
    task in r.journal.taskOperations ==> r.journal.State(r.journal.taskOperations[task]) == OutcomeKnown(Succeeded)
  }

  lemma CompletionAgrees(r: Runtime, task: Id)
    requires Safe(r) && MayComplete(r, task) && Workflow.Complete(r.workflow, task).Ok?
    ensures Agrees(Workflow.Complete(r.workflow, task).value, Head(r))
  {
    hide Protected, Workflow.Valid, Journal.State, RunState.EffectState, Attempted;
    if task in Head(r).taskOperations {
      JournalStateIsEffectState(r, Head(r).taskOperations[task]);
    }
  }

  lemma CompleteTaskSafe(r: Runtime, task: Id, attempt: AttemptId)
    requires Safe(r) && MayComplete(r, task)
    ensures Good(r, CompleteTask(r, task, attempt))
  {
    hide Safe, Agrees, Workflow.Valid, MayComplete, EmitEvent, Follows;
    var d := CompleteTask(r, task, attempt);
    match Workflow.Complete(r.workflow, task)
    case Err(_) => UnchangedIsGood(r, d);
    case Ok(g) =>
      CompletionAgrees(r, task);
      EmitEventFrame(r.(workflow := g), TaskCompleted(r.run, task, attempt));
      SafeWorkflow(r);
      Workflow.CompleteKeepsValid(r.workflow, task);
      SameDurableIsGood(r, d);
  }

  lemma SafeWorkflow(r: Runtime)
    requires Safe(r)
    ensures Workflow.Valid(r.workflow) && Agrees(r.workflow, Head(r)) && Coupled(r)
  {
  }

  lemma OwnerMayComplete(r: Runtime, operation: Id)
    requires Coupled(r) && operation in r.journal.intents
    requires r.journal.State(operation) == OutcomeKnown(Succeeded)
    ensures MayComplete(r, r.journal.intents[operation].task)
  {
    hide Listed, Linked, Keyed, AtMostOnce, NumberedInOrder, Journal.State, RunState.EffectState;
  }

  lemma RecoverSafe(r: Runtime, operation: Id)
    requires Safe(r)
    ensures Good(r, Recover(r, operation))
  {
    hide Safe, CompleteTask, Journal.State, Journal.KnownOutcome, Journal.LatestDispatch, MayComplete, Follows;
    var d := Recover(r, operation);
    if d.next == r && (d.result.Err? ==> !d.result.error.StoreFailure?) {
      UnchangedIsGood(r, d);
      return;
    }
    SafeWorkflow(r);
    OwnerMayComplete(r, operation);
    CompleteTaskSafe(r, r.journal.intents[operation].task, r.journal.KnownOutcome(operation).value.attempt);
    var attempt := r.journal.KnownOutcome(operation).value.attempt;
    GoodCarriesOver(r, CompleteTask(r, r.journal.intents[operation].task, attempt), d);
  }

  /** Only the state and whether the store failed matter. */
  lemma GoodCarriesOver<T, U>(r: Runtime, s: Step<T>, t: Step<U>)
    requires Good(r, s) && t.next == s.next
    requires t.result.Err? && t.result.error.StoreFailure? ==> s.result.Err? && s.result.error.StoreFailure?
    ensures Good(r, t)
  {
    hide Safe, Follows;
  }

  // ---- Cancellation ----

  /** A cancellation is recorded, or refused as conflicting with an earlier one, or for want of revisions. */
  lemma CancelTaskSafe(r: Runtime, task: Id)
    requires Safe(r)
    ensures var d := CancelTask(r, task);
            && Safe(d.next) && Follows(r, d.next)
            && (d.result.Ok? ==> task in d.next.cancelled)
            && (d.result.Err? ==> d.next == r)
  {
    hide CommitRun, Protected, CommitDurable, Agrees, Workflow.Valid, AttemptForTask, Journal.LatestDispatch;
    var d := CancelTask(r, task);
    if task !in r.workflow.topology.tasks { return; }
    var operation := if task in r.journal.taskOperations then Some(r.journal.taskOperations[task]) else None;
    var attempt := if operation.Some? then AttemptForTask(r, task, operation) else None;
    var m := RecordCancellation(Cancellation(r.run, task, operation, attempt));
    CommitAdvances(r, m);
    if d.result.Err? { return; }
    CancellationRecorded(r, m.cancellation);
    CommitKeepsCoupling(r, m, d.next);
    AdvanceKeepsAttempted(r, m, d.next);
    AdvanceKeepsAgreementHere(r, m);
    NoDispatchFollows(r, m);
  }

  lemma CancellationRecorded(r: Runtime, c: Cancellation)
    requires Coupled(r) && CommitRun(Head(r), RequestFor(Head(r), RecordCancellation(c))).Ok?
    ensures var t := Advance(Head(r), RecordCancellation(c));
            t.cancellations.Keys == Head(r).cancellations.Keys + {c.task} && View(t) == View(Head(r))
  {
    hide CommitRun, Lineage, AtMostOnce, NumberedInOrder, AttemptsByOperation;
    AdvanceCases(Head(r), RecordCancellation(c));
  }

  /** The store never finds fault with the lineage of a runtime's cancellation. */
  lemma CancellationIsRefusedOnlyAsConflict(r: Runtime, task: Id)
    requires Safe(r) && task in r.workflow.topology.tasks && CancelTask(r, task).result.Err?
    requires Head(r).revision < U64_MAX
    ensures CancelKey(task) in Head(r).idempotency || task in Head(r).cancellations
  {
    hide Listed, AtMostOnce, NumberedInOrder, Workflow.Valid, Agrees, LastMatching;
    var operation := if task in r.journal.taskOperations then Some(r.journal.taskOperations[task]) else None;
    var attempt := if operation.Some? then AttemptForTask(r, task, operation) else None;
    var c := Cancellation(r.run, task, operation, attempt);
    if attempt.Some? { AttemptForTaskIsAdmitted(r, task, operation); }
    FoldSingle(Head(r), RecordCancellation(c));
  }

  lemma AttemptForTaskIsAdmitted(r: Runtime, task: Id, operation: Option<Id>)
    requires Attempted(r) && AttemptForTask(r, task, operation).Some?
    ensures var a := AttemptForTask(r, task, operation).value;
            && a in Head(r).admissions
            && Head(r).admissions[a].task == task && Head(r).admissions[a].operation == operation
  {
  }

  // ---- Scheduling ----

  lemma EnsureConfiguredEffectSafe(r: Runtime, task: Id)
    requires Safe(r)
    ensures var d := EnsureConfiguredEffect(r, task);
            && Good(r, d) && Head(d.next).dispatchHistory == Head(r).dispatchHistory
            && (d.result == Ok(None) ==> task !in d.next.journal.taskOperations)
            && (d.result.Ok? && d.result.value.Some? ==>
                  task in d.next.journal.taskOperations && d.next.journal.taskOperations[task] == d.result.value.value)
  {
    hide Safe, RecordEffectIntent;
    if task !in r.journal.taskOperations && task in r.configs && r.configs[task].effect.Some? {
      var effect := r.configs[task].effect.value;
      RecordEffectIntentSafe(r, task, effect.operation, effect.semantics);
      IntentAppendsNoDispatch(r, task, effect.operation, effect.semantics);
    }
  }

  lemma IntentAppendsNoDispatch(r: Runtime, task: Id, operation: Id, semantics: Semantics)
    requires Safe(r)
    ensures Head(RecordEffectIntent(r, task, operation, semantics).next).dispatchHistory == Head(r).dispatchHistory
  {
    hide CommitRun, Protected, Attempted, CommitDurable, Agrees, Workflow.Valid;
    var m := RecordIntent(EffectIntent(task, operation, semantics));
    CommitAdvances(r, m);
    if task in r.workflow.topology.tasks { NoDispatchFollows(r, m); }
  }

  lemma FinishTaskSafe(r: Runtime, task: Id, attempt: AttemptId)
    requires Safe(r) && MayComplete(r, task)
    ensures Good(r, FinishTask(r, task, attempt))
    ensures Head(FinishTask(r, task, attempt).next) == Head(r)
  {
    hide Safe, Follows, MayComplete;
    CompleteTaskSafe(r, task, attempt);
    if Workflow.Complete(r.workflow, task).Ok? {
      EmitEventFrame(r.(workflow := Workflow.Complete(r.workflow, task).value), TaskCompleted(r.run, task, attempt));
    }
  }

  lemma AdvanceTaskSafe(r: Runtime, task: Id, operation: Option<Id>, env: Environment)
    requires Safe(r)
    requires operation.None? ==> task !in r.journal.taskOperations
    requires operation.Some? ==> task in r.journal.taskOperations && r.journal.taskOperations[task] == operation.value
    ensures Good(r, AdvanceTask(r, task, operation, env))
    ensures SameEffects(Head(r), Head(AdvanceTask(r, task, operation, env).next))
  {
    hide Safe, Follows, CurrentAttempt, FinishTask, ClassifyRecovery, Journal.KnownOutcome, Journal.LatestDispatch;
    var d := AdvanceTask(r, task, operation, env);
    CurrentAttemptSafe(r, task, operation, env);
    var begun := CurrentAttempt(r, task, operation, env);
    BeginIsGood(r, begun, task, operation);
    if operation.None? {
      if begun.result.Ok? {
        FinishTaskSafe(begun.next, task, begun.result.value);
        FollowsAfterAdmission(r, begun.next, d.next);
      }
    } else if r.journal.State(operation.value) == OutcomeKnown(Succeeded) {
      FinishTaskSafe(r, task, r.journal.KnownOutcome(operation.value).value.attempt);
    } else if r.journal.State(operation.value) == Prepared {
      GoodCarriesOver(r, begun, d);
    } else {
      UnchangedIsGood(r, d);
    }
  }

  /** What follows a call that appended no dispatch follows the state before it. */
  lemma FollowsInTwo(r: Runtime, n: Runtime, after: Runtime)
    requires Follows(r, n) && Follows(n, after) && SameEffects(Head(n), Head(after))
    ensures Follows(r, after)
  {
  }

  lemma StepOnceSafe(r: Runtime, env: Environment)
    requires Safe(r)
    ensures Good(r, StepOnce(r, env))
    ensures Head(StepOnce(r, env).next).dispatchHistory == Head(r).dispatchHistory
  {
    hide Safe, Follows, EnsureConfiguredEffect, AdvanceTask, Workflow.ReadyTasks;
    var d := StepOnce(r, env);
    var next := FirstUncancelled(Workflow.ReadyTasks(r.workflow), r.cancelled);
    if r.pending.Some? || next.None? {
      UnchangedIsGood(r, d);
    } else {
      EnsureConfiguredEffectSafe(r, next.value);
      var ensured := EnsureConfiguredEffect(r, next.value);
      if ensured.result.Ok? {
        AdvanceTaskSafe(ensured.next, next.value, ensured.result.value, env);
        FollowsInTwo(r, ensured.next, d.next);
      }
    }
  }

  lemma {:induction false} RunUntilBlockedSafe(r: Runtime, env: Environment)
    requires Safe(r)
    ensures Good(r, RunUntilBlocked(r, env))
    ensures Head(RunUntilBlocked(r, env).next).dispatchHistory == Head(r).dispatchHistory
    decreases Remaining(r)
  {
    hide Safe, StepOnce, Head;
    StepOnceSafe(r, env);
    var first := StepOnce(r, env);
    if first.result.Ok? && first.result.value.Completed? {
      CompletionIsProgress(r, env);
      RunUntilBlockedSafe(first.next, env);
    }
  }

  // ---- Calls that leave the store alone ----

  lemma ConfigureTaskSafe(r: Runtime, task: Id, config: TaskConfig)
    requires Safe(r)
    ensures Good(r, ConfigureTask(r, task, config))
  {
    hide Agrees, Protected, Workflow.Valid, Admitted;
    SameDurableIsGood(r, ConfigureTask(r, task, config));
  }

  lemma ApplyWorkflowMutationSafe(r: Runtime, expected: nat, batch: seq<Workflow.Mutation>)
    requires Safe(r)
    ensures Good(r, ApplyWorkflowMutation(r, expected, batch))
  {
    hide Protected, Coupled, Attempted, Workflow.Valid, RunState.EffectState, Workflow.ApplyBatch;
    if Workflow.ApplyBatch(r.workflow, expected, batch).Ok? {
      Workflow.ApplyBatchKeepsValid(r.workflow, expected, batch);
    }
    SameDurableIsGood(r, ApplyWorkflowMutation(r, expected, batch));
  }

  lemma RetryExecutionEventSafe(r: Runtime, item: Item)
    requires Safe(r)
    ensures Good(r, RetryExecutionEvent(r, item))
  {
    hide Agrees, Protected, Workflow.Valid, Admitted;
  }

  lemma DrainIsSafe(r: Runtime)
    requires Safe(r)
    ensures Safe(DrainExecutionEvents(r)) && Follows(r, DrainExecutionEvents(r))
  {
    hide Agrees, Protected, Workflow.Valid, Admitted;
  }

  // ---- Start and restart ----

  lemma StartRunSafe(run: Id, workflow: Workflow.Graph, configs: seq<(Id, TaskConfig)>)
    requires Workflow.Valid(workflow) && StartRun(run, workflow, configs).Ok?
    ensures Safe(StartRun(run, workflow, configs).value)
  {
    hide Workflow.Valid;
    NewRunLineage(run);
  }

  lemma {:induction false} RestoredAttempts(admissions: seq<Admission>, reproduces: Reproduction)
    requires RestoreAttempts(admissions, reproduces).Ok?
    ensures var attempts := RestoreAttempts(admissions, reproduces).value;
            |attempts| == |admissions| && forall i :: 0 <= i < |admissions| ==> attempts[i] == AttemptOf(admissions[i])
  {
    if admissions != [] { RestoredAttempts(admissions[..|admissions| - 1], reproduces); }
  }

  /** A restart over protected facts, with a workflow they agree with, is safe. */
  lemma RestoreRunSafe(run: Id, workflow: Workflow.Graph, configs: seq<(Id, TaskConfig)>, runs: Runs,
                       reproduces: Reproduction)
    requires run in runs && runs[run].run == run && Protected(runs[run])
    requires Workflow.Valid(workflow) && Agrees(workflow, runs[run])
    requires RestoreRun(run, workflow, configs, runs, reproduces).Ok?
    ensures Safe(RestoreRun(run, workflow, configs, runs, reproduces).value)
    ensures RestoreRun(run, workflow, configs, runs, reproduces).value.runs == runs
    ensures RestoreRun(run, workflow, configs, runs, reproduces).value.workflow == workflow
  {
    hide Workflow.Valid, Agrees, Keyed, AtMostOnce, Owned, Linked, FromDurableState, View, Configure;
    var s := runs[run];
    RebuildIsView(s);
    RestoredAttempts(s.admissionHistory, reproduces);
    forall i | 0 <= i < |s.admissionHistory| ensures Admitted(s, AttemptOf(s.admissionHistory[i])) {
      assert AdmissionAttempt(s.admissionHistory[i]) in s.admissions;
    }
  }
}
