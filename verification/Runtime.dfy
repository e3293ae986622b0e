/**
 The runtime object. Each method changes its own fields and the workflow,
 journal and store objects step by step, and is proved against the value model.
 */
module Runtimes {
  import opened Prelude
  import opened DurableModel
  import opened JournalModel
  import opened WorkflowGraphs
  import opened DurableStores
  import opened DurableJournals
  import Workflow = WorkflowModel
  import Model = RuntimeModel
  import Safety = RuntimeSafety
  import Calls = RuntimeCalls

  class Runtime {
    const run: Id
    const workflow: WorkflowGraph
    const store: InMemoryDurableStore
    var journal: DurableJournal
    var revision: nat
    var configs: map<Id, Model.TaskConfig>
    var attempts: seq<Model.Attempt>
    var pending: Option<Model.Pending>
    var cancelled: set<Id>
    var nextAttempt: nat
    var sequencer: Model.Sequencer
    var events: seq<Model.Item>

    function State(): Model.Runtime
      reads this, workflow, store, journal
    {
      Model.Runtime(run, workflow.State(), journal.State(), store.runs, revision, configs, attempts, pending, cancelled,
                    nextAttempt, sequencer, events)
    }

    ghost predicate Valid()
      reads this, workflow, store, journal
    {
      Safety.Safe(State())
    }

    constructor Build(run: Id, workflow: WorkflowGraph, configs: map<Id, Model.TaskConfig>,
                      journal: DurableJournal, store: InMemoryDurableStore, revision: nat)
      ensures this.workflow == workflow && this.journal == journal && this.store == store
      ensures State() ==
        Model.Runtime(run, workflow.State(), journal.State(), store.runs, revision, configs, [], None, {}, 1,
                                       Model.Sequencer(1, false), [])
    {
      this.run, this.workflow, this.store, this.journal := run, workflow, store, journal;
      this.revision, this.configs := revision, configs;
      attempts, pending, cancelled, nextAttempt := [], None, {}, 1;
      sequencer, events := Model.Sequencer(1, false), [];
    }

    // ---- Internal steps ----

    method CommitDurable(key: Key, m: Mutation) returns (r: Result<nat, Model.RuntimeError>)
      modifies this, store
      ensures journal == old(journal)
      ensures State() == Model.CommitDurable(old(State()), key, m).next
      ensures r == Model.CommitDurable(old(State()), key, m).result
    {
      hide Commit;
      var result := store.Commit(CommitRequest(run, revision, key, [m]));
      if result.Err? {
        return Err(Model.StoreFailure(result.error));
      }
      revision := result.value.revision;
      r := Ok(result.value.revision);
    }

    method EmitEvent(event: Model.Event) returns (r: Result<(), Model.RuntimeError>)
      modifies this
      ensures journal == old(journal)
      ensures State() == Model.EmitEvent(old(State()), event).next
      ensures r == Model.EmitEvent(old(State()), event).result
    {
      if sequencer.exhausted {
        return Err(Model.StreamExhausted);
      }
      var item := Model.Item(sequencer.next, event);
      if sequencer.next < U64_MAX {
        sequencer := sequencer.(next := sequencer.next + 1);
      } else {
        sequencer := sequencer.(exhausted := true);
      }
      if |events| >= Model.EVENT_CAPACITY {
        return Err(Model.ExecutionBackpressure(item));
      }
      events := events + [item];
      r := Ok(());
    }

    method BeginAttempt(task: Id, operation: Option<Id>, env: Model.Environment)
      returns (r: Result<AttemptId, Model.RuntimeError>)
      modifies this, store
      ensures journal == old(journal)
      ensures State() == Model.BeginAttempt(old(State()), task, operation, env).next
      ensures r == Model.BeginAttempt(old(State()), task, operation, env).result
    {
      hide Model.CommitDurable, Model.EmitEvent;
      if env(task).Unavailable? {
        return Err(Model.CapabilityFailure(task));
      }
      var attempt := Model.Attempt(run, task, Numbered(run, nextAttempt), operation, env(task).capabilities);
      ghost var spec :=
        Model.CommitDurable(State(), AdmitKey(attempt.attempt), AdmitAttempt(Model.AdmissionOf(attempt)));
      CommitFrame(State(), AdmitKey(attempt.attempt), AdmitAttempt(Model.AdmissionOf(attempt)));
      var committed := CommitDurable(AdmitKey(attempt.attempt), AdmitAttempt(Model.AdmissionOf(attempt)));
      if committed.Err? {
        return Err(committed.error);
      }
      if nextAttempt >= U64_MAX {
        return Err(Model.AttemptIdExhausted);
      }
      nextAttempt := nextAttempt + 1;
      Calls.EmitEventFrame(State(), Model.TaskStarted(run, task, attempt.attempt));
      var queued := EmitEvent(Model.TaskStarted(run, task, attempt.attempt));
      match queued
      case Ok(_) =>
        attempts := attempts + [attempt];
        r := Ok(attempt.attempt);
      case Err(ExecutionBackpressure(item)) =>
        pending := Some(Model.Pending(attempt, item));
        r := Err(Model.ExecutionBackpressure(item));
      case Err(e) =>
        r := Err(e);
    }

    method CurrentAttempt(task: Id, operation: Option<Id>, env: Model.Environment)
      returns (r: Result<AttemptId, Model.RuntimeError>)
      modifies this, store
      ensures journal == old(journal)
      ensures State() == Model.CurrentAttempt(old(State()), task, operation, env).next
      ensures r == Model.CurrentAttempt(old(State()), task, operation, env).result
    {
      hide Model.BeginAttempt;
      var existing := Model.AttemptForTask(State(), task, operation);
      if existing.Some? {
        return Ok(existing.value);
      }
      r := BeginAttempt(task, operation, env);
    }

    method CompleteTask(task: Id, attempt: AttemptId) returns (r: Result<(), Model.RuntimeError>)
      modifies this, workflow
      ensures journal == old(journal)
      ensures State() == Model.CompleteTask(old(State()), task, attempt).next
      ensures r == Model.CompleteTask(old(State()), task, attempt).result
    {
      hide Model.EmitEvent, Workflow.Complete;
      var completed := workflow.Complete(task);
      if completed.Failed? {
        return Err(Model.WorkflowFailure(completed.error));
      }
      r := EmitEvent(Model.TaskCompleted(run, task, attempt));
    }

    // ---- Public calls ----

    method ConfigureTask(task: Id, config: Model.TaskConfig) returns (r: Result<(), Model.RuntimeError>)
      requires Valid()
      modifies this
      ensures Valid() && journal == old(journal)
      ensures State() == Model.ConfigureTask(old(State()), task, config).next
      ensures r == Model.ConfigureTask(old(State()), task, config).result
    {
      hide Safety.Safe;
      Calls.ConfigureTaskSafe(State(), task, config);
      if task !in workflow.topology.tasks {
        return Err(Model.UnknownTask(task));
      }
      configs := configs[task := config];
      r := Ok(());
    }

    method ApplyWorkflowMutation(expected: nat, batch: seq<Workflow.Mutation>)
      returns (r: Result<(), Model.RuntimeError>)
      requires Valid()
      modifies this, workflow
      ensures Valid() && journal == old(journal)
      ensures State() == Model.ApplyWorkflowMutation(old(State()), expected, batch).next
      ensures r == Model.ApplyWorkflowMutation(old(State()), expected, batch).result
    {
      hide Safety.Safe, Workflow.ApplyBatch;
      Calls.ApplyWorkflowMutationSafe(State(), expected, batch);
      Calls.SafeWorkflow(State());
      var applied := workflow.ApplyBatch(expected, batch);
      r := if applied.Err? then Err(Model.WorkflowFailure(applied.error)) else Ok(());
    }

    method RecordEffectIntent(task: Id, operation: Id, semantics: Semantics) returns (r: Result<(), Model.RuntimeError>)
      requires Valid()
      modifies this, store
      ensures Valid() && (journal == old(journal) || fresh(journal))
      ensures State() == Model.RecordEffectIntent(old(State()), task, operation, semantics).next
      ensures r == Model.RecordEffectIntent(old(State()), task, operation, semantics).result
    {
      hide Safety.Safe, Model.CommitDurable, PersistIntent;
      Safety.RecordEffectIntentSafe(State(), task, operation, semantics);
      if task !in workflow.topology.tasks {
        return Err(Model.UnknownTask(task));
      }
      if task in workflow.completed {
        return Err(Model.WorkflowFailure(Workflow.TaskAlreadyCompleted(task)));
      }
      var intent := EffectIntent(task, operation, semantics);
      var candidate := new DurableJournal.Clone(journal);
      var persisted := candidate.PersistIntent(intent);
      if persisted.Failed? {
        return Err(Model.JournalFailure(persisted.error));
      }
      var committed := CommitDurable(IntentKey(operation), RecordIntent(intent));
      if committed.Err? {
        return Err(committed.error);
      }
      journal := candidate;
      r := Ok(());
    }

    method AttemptToDispatch(operation: Id, env: Model.Environment) returns (r: Result<AttemptId, Model.RuntimeError>)
      modifies this, store
      ensures journal == old(journal)
      ensures State() == Model.AttemptToDispatch(old(State()), operation, env).next
      ensures r == Model.AttemptToDispatch(old(State()), operation, env).result
    {
      hide Model.BeginAttempt, Model.CurrentAttempt;
      if operation !in journal.intents {
        return Err(Model.JournalFailure(UnknownOperation(operation)));
      }
      var intent := journal.intents[operation];
      var state := journal.State().State(operation);
      if intent.task in cancelled {
        return Err(if state == OutcomeUnknown then Model.CancelledAfterDispatch(intent.task, operation)
                   else Model.CancelledBeforeDispatch(intent.task));
      }
      match state
      case Prepared =>
        r := CurrentAttempt(intent.task, Some(operation), env);
      case OutcomeUnknown =>
        if intent.semantics == NonIdempotent {
          return Err(Model.ReconciliationRequired(operation));
        }
        r := BeginAttempt(intent.task, Some(operation), env);
      case OutcomeKnown(_) =>
        r := Err(Model.OutcomeAlreadyKnown(operation));
      case NotPrepared =>
        assert false;
    }

    method DispatchEffect(operation: Id, env: Model.Environment) returns (r: Result<AttemptId, Model.RuntimeError>)
      requires Valid()
      modifies this, store
      ensures Valid() && (journal == old(journal) || fresh(journal))
      ensures State() == Model.DispatchEffect(old(State()), operation, env).next
      ensures r == Model.DispatchEffect(old(State()), operation, env).result
    {
      hide Safety.Safe, Model.AttemptToDispatch, Model.CommitDurable, PersistDispatch;
      Safety.DispatchEffectSafe(State(), operation, env);
      var attempt := AttemptToDispatch(operation, env);
      if attempt.Err? {
        return Err(attempt.error);
      }
      var dispatch := DispatchRecord(operation, attempt.value);
      var candidate := new DurableJournal.Clone(journal);
      var persisted := candidate.PersistDispatch(dispatch);
      if persisted.Failed? {
        return Err(Model.JournalFailure(persisted.error));
      }
      var committed := CommitDurable(DispatchKey(attempt.value), RecordDispatch(dispatch));
      if committed.Err? {
        return Err(committed.error);
      }
      journal := candidate;
      r := Ok(attempt.value);
    }

    method RecordEffectOutcome(operation: Id, attempt: AttemptId, outcome: KnownOutcome)
      returns (r: Result<(), Model.RuntimeError>)
      requires Valid()
      modifies this, store
      ensures Valid() && (journal == old(journal) || fresh(journal))
      ensures State() == Model.RecordEffectOutcome(old(State()), operation, attempt, outcome).next
      ensures r == Model.RecordEffectOutcome(old(State()), operation, attempt, outcome).result
    {
      hide Safety.Safe, Model.CommitDurable, PersistOutcome;
      Safety.RecordEffectOutcomeSafe(State(), operation, attempt, outcome);
      var record := OutcomeRecord(operation, attempt, outcome);
      var candidate := new DurableJournal.Clone(journal);
      var persisted := candidate.PersistOutcome(record);
      if persisted.Failed? {
        return Err(Model.JournalFailure(persisted.error));
      }
      var committed := CommitDurable(OutcomeKey(attempt), RecordOutcome(record));
      if committed.Err? {
        return Err(committed.error);
      }
      journal := candidate;
      r := Ok(());
    }

    method Recover(operation: Id) returns (r: Result<RecoveryDecision, Model.RuntimeError>)
      requires Valid()
      modifies this, workflow
      ensures Valid() && journal == old(journal)
      ensures State() == Model.Recover(old(State()), operation).next
      ensures r == Model.Recover(old(State()), operation).result
    {
      hide Safety.Safe, Model.CompleteTask;
      Calls.RecoverSafe(State(), operation);
      var classified := ClassifyRecovery(workflow.State(), journal.State(), operation);
      if classified.Err? {
        return Err(Model.JournalFailure(classified.error));
      }
      if classified.value.action == CompleteWithoutReexecution {
        var task := journal.intents[operation].task;
        var attempt := journal.State().KnownOutcome(operation).value.attempt;
        if task !in workflow.completed {
          var done := CompleteTask(task, attempt);
          if done.Err? {
            return Err(done.error);
          }
        }
      }
      r := Ok(classified.value);
    }

    method CancelTask(task: Id) returns (r: Result<Model.CancelResult, Model.RuntimeError>)
      requires Valid()
      modifies this, store
      ensures Valid() && journal == old(journal)
      ensures State() == Model.CancelTask(old(State()), task).next
      ensures r == Model.CancelTask(old(State()), task).result
    {
      hide Safety.Safe, Model.CommitDurable;
      Calls.CancelTaskSafe(State(), task);
      if task !in workflow.topology.tasks {
        return Err(Model.UnknownTask(task));
      }
      var operation: Option<Id> := None;
      var attempt: Option<AttemptId> := None;
      var dispatched: Option<DispatchRecord> := None;
      if task in journal.taskOperations {
        operation := Some(journal.taskOperations[task]);
        attempt := Model.AttemptForTask(State(), task, operation);
        dispatched := journal.State().LatestDispatch(operation.value);
      }
      var record := Cancellation(run, task, operation, attempt);
      CommitFrame(State(), CancelKey(task), RecordCancellation(record));
      var committed := CommitDurable(CancelKey(task), RecordCancellation(record));
      if committed.Err? {
        return Err(committed.error);
      }
      cancelled := cancelled + {task};
      if operation.Some? && dispatched.Some? {
        return Ok(Model.AlreadyDispatched(task, operation.value, dispatched.value.attempt));
      }
      r := Ok(Model.NotDispatched(task));
    }

    method EnsureConfiguredEffect(task: Id) returns (r: Result<Option<Id>, Model.RuntimeError>)
      requires Valid()
      modifies this, store
      ensures Valid() && (journal == old(journal) || fresh(journal))
      ensures State() == Model.EnsureConfiguredEffect(old(State()), task).next
      ensures r == Model.EnsureConfiguredEffect(old(State()), task).result
    {
      hide Safety.Safe, Model.RecordEffectIntent;
      if task in journal.taskOperations {
        var operation := journal.taskOperations[task];
        if operation !in journal.intents {
          return Err(Model.JournalFailure(UnknownOperation(operation)));
        }
        return Ok(Some(operation));
      }
      if task !in configs || configs[task].effect.None? {
        return Ok(None);
      }
      var effect := configs[task].effect.value;
      var recorded := RecordEffectIntent(task, effect.operation, effect.semantics);
      r := if recorded.Err? then Err(recorded.error) else Ok(Some(effect.operation));
    }

    method FinishTask(task: Id, attempt: AttemptId) returns (r: Result<Model.StepResult, Model.RuntimeError>)
      modifies this, workflow
      ensures journal == old(journal)
      ensures State() == Model.FinishTask(old(State()), task, attempt).next
      ensures r == Model.FinishTask(old(State()), task, attempt).result
    {
      hide Model.CompleteTask;
      var done := CompleteTask(task, attempt);
      r := if done.Err? then Err(done.error) else Ok(Model.Completed(task, attempt));
    }

    method AdvanceTask(task: Id, operation: Option<Id>, env: Model.Environment)
      returns (r: Result<Model.StepResult, Model.RuntimeError>)
      requires operation.Some? ==> operation.value in journal.intents
      modifies this, workflow, store
      ensures journal == old(journal)
      ensures State() == Model.AdvanceTask(old(State()), task, operation, env).next
      ensures r == Model.AdvanceTask(old(State()), task, operation, env).result
    {
      hide Model.CurrentAttempt, Model.FinishTask, ClassifyRecovery;
      if operation.None? {
        var attempt := CurrentAttempt(task, None, env);
        if attempt.Err? {
          return Err(attempt.error);
        }
        r := FinishTask(task, attempt.value);
        return;
      }
      var op := operation.value;
      match journal.State().State(op)
      case Prepared =>
        var attempt := CurrentAttempt(task, Some(op), env);
        r := if attempt.Err? then Err(attempt.error) else Ok(Model.EffectPending(task, attempt.value, op));
      case OutcomeUnknown =>
        var classified := ClassifyRecovery(workflow.State(), journal.State(), op);
        r := if classified.Err? then Err(Model.JournalFailure(classified.error))
             else Ok(Model.Blocked(task, Some(op), classified.value.action));
      case OutcomeKnown(Succeeded) =>
        r := FinishTask(task, journal.State().KnownOutcome(op).value.attempt);
      case OutcomeKnown(Failed) =>
        r := Ok(Model.Blocked(task, Some(op), ObserveFailure));
      case NotPrepared =>
        assert false;
    }

    method StepTask(task: Id, env: Model.Environment) returns (r: Result<Model.StepResult, Model.RuntimeError>)
      requires Valid()
      modifies this, workflow, store
      ensures journal == old(journal) || fresh(journal)
      ensures State() == Model.StepTask(old(State()), task, env).next
      ensures r == Model.StepTask(old(State()), task, env).result
    {
      hide Safety.Safe, Model.EnsureConfiguredEffect, Model.AdvanceTask;
      ghost var before := State();
      var ensured := EnsureConfiguredEffect(task);
      if ensured.Err? {
        return Err(ensured.error);
      }
      EnsuredIsRecorded(before, task);
      r := AdvanceTask(task, ensured.value, env);
    }

    /** Executes the first ready task that is not cancelled. */
    method Step(env: Model.Environment) returns (r: Result<Model.StepResult, Model.RuntimeError>)
      requires Valid()
      modifies this, workflow, store
      ensures Valid() && (journal == old(journal) || fresh(journal))
      ensures State() == Model.StepOnce(old(State()), env).next
      ensures r == Model.StepOnce(old(State()), env).result
    {
      hide Safety.Safe, Model.StepTask, Workflow.ReadyTasks;
      Calls.StepOnceSafe(State(), env);
      if pending.Some? {
        return Err(Model.ExecutionBackpressure(pending.value.item));
      }
      var ready := workflow.ReadyTasks();
      ghost var first := Model.FirstUncancelled(ready, cancelled);
      for k := 0 to |ready|
        invariant State() == old(State()) && journal == old(journal)
        invariant first == Model.FirstUncancelled(ready[k..], cancelled)
      {
        assert ready[k..][1..] == ready[k + 1..];
        if ready[k] !in cancelled {
          r := StepTask(ready[k], env);
          return;
        }
      }
      r := Ok(Model.Idle);
    }

    method RunUntilBlocked(env: Model.Environment) returns (r: Result<seq<Model.StepResult>, Model.RuntimeError>)
      requires Valid()
      modifies this, workflow, store
      ensures Valid() && (journal == old(journal) || fresh(journal))
      ensures State() == Model.RunUntilBlocked(old(State()), env).next
      ensures r == Model.RunUntilBlocked(old(State()), env).result
    {
      hide Safety.Safe, Model.StepOnce, Model.Remaining;
      var results: seq<Model.StepResult> := [];
      ghost var spec := Model.RunUntilBlocked(State(), env);
      Model.PrependAssociates([], [], spec);
      while true
        invariant Valid() && (journal == old(journal) || fresh(journal))
        invariant spec == Model.Prepend(results, Model.RunUntilBlocked(State(), env))
        decreases Model.Remaining(State())
      {
        ghost var before := State();
        var result := Step(env);
        if result.Err? {
          return Err(result.error);
        }
        Model.PrependAssociates(results, [result.value], Model.RunUntilBlocked(State(), env));
        results := results + [result.value];
        if !result.value.Completed? {
          return Ok(results);
        }
        Model.CompletionIsProgress(before, env);
      }
    }

    method RetryExecutionEvent(item: Model.Item) returns (r: Result<(), Model.RuntimeError>)
      requires Valid()
      modifies this
      ensures Valid() && journal == old(journal)
      ensures State() == Model.RetryExecutionEvent(old(State()), item).next
      ensures r == Model.RetryExecutionEvent(old(State()), item).result
    {
      hide Safety.Safe;
      Calls.RetryExecutionEventSafe(State(), item);
      if pending.Some? {
        var held := pending.value;
        pending := None;
        if |events| >= Model.EVENT_CAPACITY {
          pending := Some(held);
          return Err(Model.ExecutionBackpressure(held.item));
        }
        events := events + [held.item];
        attempts := attempts + [held.attempt];
        return Ok(());
      }
      if |events| >= Model.EVENT_CAPACITY {
        return Err(Model.ExecutionBackpressure(item));
      }
      events := events + [item];
      r := Ok(());
    }

    method DrainExecutionEvents() returns (items: seq<Model.Item>)
      requires Valid()
      modifies this
      ensures Valid() && journal == old(journal)
      ensures items == old(events) && State() == Model.DrainExecutionEvents(old(State()))
    {
      hide Safety.Safe;
      Calls.DrainIsSafe(State());
      items := [];
      while events != []
        invariant items + events == old(events)
        invariant State() == old(State()).(events := events) && journal == old(journal)
        decreases |events|
      {
        items := items + [events[0]];
        events := events[1..];
      }
    }

    // ---- Start and restart ----

    static method Configure(workflow: WorkflowGraph, configs: seq<(Id, Model.TaskConfig)>)
      returns (r: Result<map<Id, Model.TaskConfig>, Model.RuntimeError>)
      ensures r == Model.Configure(workflow.State(), configs)
    {
      var m: map<Id, Model.TaskConfig> := map[];
      for k := 0 to |configs|
        invariant Model.Configure(workflow.State(), configs[..k]) == Ok(m)
      {
        assert configs[..k + 1][..k] == configs[..k];
        if configs[k].0 !in workflow.topology.tasks {
          ConfigureStops(workflow.State(), configs, k + 1);
          return Err(Model.UnknownTask(configs[k].0));
        }
        m := m[configs[k].0 := configs[k].1];
      }
      assert configs[..|configs|] == configs;
      r := Ok(m);
    }

    static method StartRun(run: Id, workflow: WorkflowGraph, configs: seq<(Id, Model.TaskConfig)>)
      returns (r: Result<Runtime, Model.RuntimeError>)
      requires Workflow.Valid(workflow.State())
      ensures match Model.StartRun(run, workflow.State(), configs) {
                case Ok(s) =>
                  r.Ok? && fresh(r.value) && r.value.workflow == workflow && r.value.State() == s && r.value.Valid()
                case Err(e) => r == Err(e)
              }
    {
      hide Safety.Safe, Workflow.Valid, Model.Configure;
      var store := new InMemoryDurableStore();
      var created := store.CreateRun(run);
      assert created == Ok(0) && store.runs == map[run := NewRun(run)];
      var configured := Configure(workflow, configs);
      if configured.Err? {
        return Err(configured.error);
      }
      var journal := new DurableJournal();
      var runtime := new Runtime.Build(run, workflow, configured.value, journal, store, 0);
      Calls.StartRunSafe(run, workflow.State(), configs);
      r := Ok(runtime);
    }

    /** Rebuilds a runtime over a surviving store; nothing of the old process is reused. */
    static method RestoreRun(run: Id, workflow: WorkflowGraph, configs: seq<(Id, Model.TaskConfig)>,
                             store: InMemoryDurableStore, reproduces: Model.Reproduction)
      returns (r: Result<Runtime, Model.RuntimeError>)
      ensures match Model.RestoreRun(run, workflow.State(), configs, store.runs, reproduces) {
                case Ok(s) =>
                  && r.Ok? && fresh(r.value) && r.value.workflow == workflow && r.value.store == store
                  && r.value.State() == s
                case Err(e) => r == Err(e)
              }
    {
      hide Model.Configure, FromDurableState, Model.RestoreAttempts;
      var loaded := store.LoadRun(run);
      if loaded.Err? {
        return Err(Model.StoreFailure(loaded.error));
      }
      var state := loaded.value;
      var journal := DurableJournal.FromDurableState(state);
      if journal.Err? {
        return Err(Model.JournalFailure(journal.error));
      }
      var configured := Configure(workflow, configs);
      if configured.Err? {
        return Err(configured.error);
      }
      var runtime := new Runtime.Build(run, workflow, configured.value, journal.value, store, state.revision);
      runtime.cancelled := state.cancellations.Keys;
      RestoreNothing(reproduces);
      assert state.admissionHistory[..0] == [];
      ghost var built := runtime.State();
      for k := 0 to |state.admissionHistory|
        invariant runtime.State() == built.(attempts := runtime.attempts)
        invariant Model.RestoreAttempts(state.admissionHistory[..k], reproduces) == Ok(runtime.attempts)
      {
        var admission := state.admissionHistory[k];
        RestoreStep(state.admissionHistory, reproduces, k);
        if !reproduces(admission) {
          RestoreStops(state.admissionHistory, reproduces, k + 1);
          return Err(Model.CapabilityFailure(admission.task));
        }
        runtime.attempts := runtime.attempts + [Model.AttemptOf(admission)];
      }
      assert state.admissionHistory[..|state.admissionHistory|] == state.admissionHistory;
      if |state.admissionHistory| >= U64_MAX {
        return Err(Model.AttemptIdExhausted);
      }
      runtime.nextAttempt := |state.admissionHistory| + 1;
      r := Ok(runtime);
    }
  }

  lemma CommitFrame(r: Model.Runtime, key: Key, m: Mutation)
    ensures var c := Model.CommitDurable(r, key, m); c.next == r.(runs := c.next.runs, revision := c.next.revision)
  {
    hide Commit;
  }

  lemma EnsuredIsRecorded(r: Model.Runtime, task: Id)
    requires Safety.Safe(r)
    ensures var d := Model.EnsureConfiguredEffect(r, task);
            d.result.Ok? && d.result.value.Some? ==> d.result.value.value in d.next.journal.intents
  {
    hide Model.EnsureConfiguredEffect, Listed, Linked, Safety.Attempted, Workflow.Valid;
    Calls.EnsureConfiguredEffectSafe(r, task);
  }

  lemma {:induction false} ConfigureStops(g: Workflow.Graph, configs: seq<(Id, Model.TaskConfig)>, k: nat)
    requires k <= |configs| && Model.Configure(g, configs[..k]).Err?
    ensures Model.Configure(g, configs) == Model.Configure(g, configs[..k])
  {
    if k == |configs| {
      assert configs[..k] == configs;
    } else {
      var front := configs[..|configs| - 1];
      assert front[..k] == configs[..k];
      ConfigureStops(g, front, k);
    }
  }

  lemma RestoreNothing(reproduces: Model.Reproduction)
    ensures Model.RestoreAttempts([], reproduces) == Ok([])
  {
  }

  lemma RestoreStep(admissions: seq<Admission>, reproduces: Model.Reproduction, k: nat)
    requires k < |admissions|
    ensures Model.RestoreAttempts(admissions[..k + 1], reproduces) ==
            match Model.RestoreAttempts(admissions[..k], reproduces)
            case Err(e) => Err(e)
            case Ok(attempts) =>
              if reproduces(admissions[k]) then Ok(attempts + [Model.AttemptOf(admissions[k])])
              else Err(Model.CapabilityFailure(admissions[k].task))
  {
    assert admissions[..k + 1][..k] == admissions[..k];
  }

  lemma {:induction false} RestoreStops(admissions: seq<Admission>, reproduces: Model.Reproduction, k: nat)
    requires k <= |admissions| && Model.RestoreAttempts(admissions[..k], reproduces).Err?
    ensures Model.RestoreAttempts(admissions, reproduces) == Model.RestoreAttempts(admissions[..k], reproduces)
  {
    if k == |admissions| {
      assert admissions[..k] == admissions;
    } else {
      var front := admissions[..|admissions| - 1];
      assert front[..k] == admissions[..k];
      RestoreStops(front, reproduces, k);
    }
  }
}
