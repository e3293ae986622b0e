/**
 The runtime coordinator as a value: workflow, durable store, journal view,
 attempts, and lifecycle events, with one function per public call.
 */
module RuntimeModel {
  import opened Prelude
  import opened DurableModel
  import opened JournalModel
  import Workflow = WorkflowModel

  const EVENT_CAPACITY: nat := 128

  datatype EffectSpec = EffectSpec(operation: Id, semantics: Semantics)

  /** The part of a task configuration the effect protocol reads. */
  datatype TaskConfig = TaskConfig(effect: Option<EffectSpec>)

  datatype Attempt = Attempt(run: Id, task: Id, attempt: AttemptId, operation: Option<Id>, capabilities: seq<Id>)

  datatype Event =
    | TaskStarted(run: Id, task: Id, attempt: AttemptId)
    | TaskCompleted(run: Id, task: Id, attempt: AttemptId)

  datatype Item = Item(sequence: nat, event: Event)

  datatype Sequencer = Sequencer(next: nat, exhausted: bool)

  datatype Pending = Pending(attempt: Attempt, item: Item)

  /** What pinning the capabilities a task requires gives at the moment of a call. */
  datatype Pins = Pinned(capabilities: seq<Id>) | Unavailable

  type Environment = Id -> Pins

  datatype RuntimeError =
    | WorkflowFailure(workflowError: Workflow.WorkflowError)
    | CapabilityFailure(task: Id)
    | JournalFailure(journalError: JournalError)
    | StoreFailure(storeError: StoreError)
    | StreamExhausted
    | UnknownTask(task: Id)
    | AttemptIdExhausted
    | CancelledBeforeDispatch(task: Id)
    | CancelledAfterDispatch(task: Id, operation: Id)
    | ReconciliationRequired(operation: Id)
    | OutcomeAlreadyKnown(operation: Id)
    | ExecutionBackpressure(item: Item)

  datatype StepResult =
    | Completed(task: Id, attempt: AttemptId)
    | EffectPending(task: Id, attempt: AttemptId, operation: Id)
    | Blocked(task: Id, blockedOn: Option<Id>, action: RecoveryAction)
    | Idle

  datatype CancelResult =
    | NotDispatched(task: Id)
    | AlreadyDispatched(task: Id, operation: Id, attempt: AttemptId)

  datatype Runtime = Runtime(
    run: Id,
    workflow: Workflow.Graph,
    journal: Journal,
    runs: Runs,
    revision: nat,
    configs: map<Id, TaskConfig>,
    attempts: seq<Attempt>,
    pending: Option<Pending>,
    cancelled: set<Id>,
    nextAttempt: nat,
    sequencer: Sequencer,
    events: seq<Item>)

  /** A call leaves a state behind whether it succeeds or fails. */
  datatype Step<T> = Step(next: Runtime, result: Result<T, RuntimeError>)

  // ---- Internal steps ----

  function CommitDurable(r: Runtime, key: Key, m: Mutation): Step<nat> {
    match Commit(r.runs, CommitRequest(r.run, r.revision, key, [m]))
    case Err(e) => Step(r, Err(StoreFailure(e)))
    case Ok(done) => Step(r.(runs := done.0, revision := done.1.revision), Ok(done.1.revision))
  }

  function Emit(s: Sequencer): Sequencer {
    if s.next < U64_MAX then s.(next := s.next + 1) else s.(exhausted := true)
  }

  /** Sequences an event and queues it; a full queue hands the item back. */
  function EmitEvent(r: Runtime, event: Event): Step<()> {
    if r.sequencer.exhausted then Step(r, Err(StreamExhausted))
    else
      var item, sequenced := Item(r.sequencer.next, event), r.(sequencer := Emit(r.sequencer));
      if |r.events| >= EVENT_CAPACITY then Step(sequenced, Err(ExecutionBackpressure(item)))
      else Step(sequenced.(events := r.events + [item]), Ok(()))
  }

  function Matches(a: Attempt, task: Id, operation: Option<Id>): bool {
    a.task == task && a.operation == operation
  }

  function LastMatching(attempts: seq<Attempt>, task: Id, operation: Option<Id>): (r: Option<AttemptId>)
    ensures r.Some? ==> exists a :: a in attempts && a.attempt == r.value && Matches(a, task, operation)
  {
    if attempts == [] then None
    else if Matches(attempts[|attempts| - 1], task, operation) then Some(attempts[|attempts| - 1].attempt)
    else LastMatching(attempts[..|attempts| - 1], task, operation)
  }

  function AttemptForTask(r: Runtime, task: Id, operation: Option<Id>): Option<AttemptId> {
    if r.pending.Some? && Matches(r.pending.value.attempt, task, operation) then Some(r.pending.value.attempt.attempt)
    else LastMatching(r.attempts, task, operation)
  }

  function AdmissionOf(a: Attempt): Admission {
    Admission(a.run, a.task, a.attempt, a.operation, a.capabilities)
  }

  /** Announces an admitted attempt; without room it is held back as pending. */
  function Announce(r: Runtime, a: Attempt): Step<AttemptId> {
    var emitted := EmitEvent(r, TaskStarted(r.run, a.task, a.attempt));
    match emitted.result
    case Ok(_) => Step(emitted.next.(attempts := r.attempts + [a]), Ok(a.attempt))
    case Err(ExecutionBackpressure(item)) =>
      Step(emitted.next.(pending := Some(Pending(a, item))), Err(ExecutionBackpressure(item)))
    case Err(e) => Step(emitted.next, Err(e))
  }

  function BeginAttempt(r: Runtime, task: Id, operation: Option<Id>, env: Environment): Step<AttemptId> {
    match env(task)
    case Unavailable => Step(r, Err(CapabilityFailure(task)))
    case Pinned(capabilities) =>
      var a := Attempt(r.run, task, Numbered(r.run, r.nextAttempt), operation, capabilities);
      var c := CommitDurable(r, AdmitKey(a.attempt), AdmitAttempt(AdmissionOf(a)));
      if c.result.Err? then Step(c.next, Err(c.result.error))
      else if r.nextAttempt >= U64_MAX then Step(c.next, Err(AttemptIdExhausted))
      else Announce(c.next.(nextAttempt := r.nextAttempt + 1), a)
  }

  function CurrentAttempt(r: Runtime, task: Id, operation: Option<Id>, env: Environment): Step<AttemptId> {
    match AttemptForTask(r, task, operation)
    case Some(a) => Step(r, Ok(a))
    case None => BeginAttempt(r, task, operation, env)
  }

  function CompleteTask(r: Runtime, task: Id, attempt: AttemptId): Step<()> {
    match Workflow.Complete(r.workflow, task)
    case Err(e) => Step(r, Err(WorkflowFailure(e)))
    case Ok(g) => EmitEvent(r.(workflow := g), TaskCompleted(r.run, task, attempt))
  }

  // ---- Public calls ----

  function ConfigureTask(r: Runtime, task: Id, config: TaskConfig): Step<()> {
    if task !in r.workflow.topology.tasks then Step(r, Err(UnknownTask(task)))
    else Step(r.(configs := r.configs[task := config]), Ok(()))
  }

  function ApplyWorkflowMutation(r: Runtime, expected: nat, batch: seq<Workflow.Mutation>): Step<()> {
    match Workflow.ApplyBatch(r.workflow, expected, batch)
    case Err(e) => Step(r, Err(WorkflowFailure(e)))
    case Ok(g) => Step(r.(workflow := g), Ok(()))
  }

  function RecordEffectIntent(r: Runtime, task: Id, operation: Id, semantics: Semantics): Step<()> {
    var intent := EffectIntent(task, operation, semantics);
    if task !in r.workflow.topology.tasks then Step(r, Err(UnknownTask(task)))
    else if task in r.workflow.completed then Step(r, Err(WorkflowFailure(Workflow.TaskAlreadyCompleted(task))))
    else match PersistIntent(r.journal, intent)
         case Err(e) => Step(r, Err(JournalFailure(e)))
         case Ok(candidate) =>
           var c := CommitDurable(r, IntentKey(operation), RecordIntent(intent));
           if c.result.Err? then Step(c.next, Err(c.result.error))
           else Step(c.next.(journal := candidate), Ok(()))
  }

  /** The attempt a dispatch may use: the admitted one the first time, a new one for an idempotent retry. */
  function AttemptToDispatch(r: Runtime, operation: Id, env: Environment): Step<AttemptId> {
    if operation !in r.journal.intents then Step(r, Err(JournalFailure(UnknownOperation(operation))))
    else
      var intent, state := r.journal.intents[operation], r.journal.State(operation);
      if intent.task in r.cancelled then
        Step(r, Err(if state == OutcomeUnknown then CancelledAfterDispatch(intent.task, operation)
                    else CancelledBeforeDispatch(intent.task)))
      else match state
           case Prepared => CurrentAttempt(r, intent.task, Some(operation), env)
           case OutcomeUnknown =>
             if intent.semantics == NonIdempotent then Step(r, Err(ReconciliationRequired(operation)))
             else BeginAttempt(r, intent.task, Some(operation), env)
           case OutcomeKnown(_) => Step(r, Err(OutcomeAlreadyKnown(operation)))
           case NotPrepared => Step(r, Err(JournalFailure(UnknownOperation(operation))))
  }

  function AppendDispatch(r: Runtime, operation: Id, attempt: AttemptId): Step<AttemptId> {
    var dispatch := DispatchRecord(operation, attempt);
    match PersistDispatch(r.journal, dispatch)
    case Err(e) => Step(r, Err(JournalFailure(e)))
    case Ok(candidate) =>
      var c := CommitDurable(r, DispatchKey(attempt), RecordDispatch(dispatch));
      if c.result.Err? then Step(c.next, Err(c.result.error))
      else Step(c.next.(journal := candidate), Ok(attempt))
  }

  function DispatchEffect(r: Runtime, operation: Id, env: Environment): Step<AttemptId> {
    var begun := AttemptToDispatch(r, operation, env);
    if begun.result.Err? then begun
    else AppendDispatch(begun.next, operation, begun.result.value)
  }

  function RecordEffectOutcome(r: Runtime, operation: Id, attempt: AttemptId, outcome: KnownOutcome): Step<()> {
    var record := OutcomeRecord(operation, attempt, outcome);
    match PersistOutcome(r.journal, record)
    case Err(e) => Step(r, Err(JournalFailure(e)))
    case Ok(candidate) =>
      var c := CommitDurable(r, OutcomeKey(attempt), RecordOutcome(record));
      if c.result.Err? then Step(c.next, Err(c.result.error))
      else Step(c.next.(journal := candidate), Ok(()))
  }

  function Recover(r: Runtime, operation: Id): Step<RecoveryDecision> {
    match ClassifyRecovery(r.workflow, r.journal, operation)
    case Err(e) => Step(r, Err(JournalFailure(e)))
    case Ok(decision) =>
      if decision.action != CompleteWithoutReexecution then Step(r, Ok(decision))
      else
        var task := r.journal.intents[operation].task;
        if task in r.workflow.completed || r.journal.KnownOutcome(operation).None? then Step(r, Ok(decision))
        else
          var done := CompleteTask(r, task, r.journal.KnownOutcome(operation).value.attempt);
          if done.result.Err? then Step(done.next, Err(done.result.error)) else Step(done.next, Ok(decision))
  }

  function CancelTask(r: Runtime, task: Id): Step<CancelResult> {
    if task !in r.workflow.topology.tasks then Step(r, Err(UnknownTask(task)))
    else
      var operation := if task in r.journal.taskOperations then Some(r.journal.taskOperations[task]) else None;
      var attempt := if operation.Some? then AttemptForTask(r, task, operation) else None;
      var dispatched := if operation.Some? then r.journal.LatestDispatch(operation.value) else None;
      var c := CommitDurable(r, CancelKey(task), RecordCancellation(Cancellation(r.run, task, operation, attempt)));
      if c.result.Err? then Step(c.next, Err(c.result.error))
      else Step(c.next.(cancelled := r.cancelled + {task}),
                Ok(if operation.Some? && dispatched.Some? then
                     AlreadyDispatched(task, operation.value, dispatched.value.attempt)
                   else NotDispatched(task)))
  }

  function EnsureConfiguredEffect(r: Runtime, task: Id): Step<Option<Id>> {
    if task in r.journal.taskOperations then
      var operation := r.journal.taskOperations[task];
      if operation !in r.journal.intents then Step(r, Err(JournalFailure(UnknownOperation(operation))))
      else Step(r, Ok(Some(operation)))
    else if task !in r.configs || r.configs[task].effect == None then Step(r, Ok(None))
    else
      var effect := r.configs[task].effect.value;
      var recorded := RecordEffectIntent(r, task, effect.operation, effect.semantics);
      if recorded.result.Err? then Step(recorded.next, Err(recorded.result.error))
      else Step(recorded.next, Ok(Some(effect.operation)))
  }

  function FinishTask(r: Runtime, task: Id, attempt: AttemptId): Step<StepResult> {
    var done := CompleteTask(r, task, attempt);
    if done.result.Err? then Step(done.next, Err(done.result.error))
    else Step(done.next, Ok(Completed(task, attempt)))
  }

  /** Advances a ready task once its effect, if any, is recorded. */
  function AdvanceTask(r: Runtime, task: Id, operation: Option<Id>, env: Environment): Step<StepResult> {
    if operation == None then
      var begun := CurrentAttempt(r, task, None, env);
      if begun.result.Err? then Step(begun.next, Err(begun.result.error))
      else FinishTask(begun.next, task, begun.result.value)
    else
      var op := operation.value;
      match r.journal.State(op)
      case Prepared =>
        var begun := CurrentAttempt(r, task, Some(op), env);
        if begun.result.Err? then Step(begun.next, Err(begun.result.error))
        else Step(begun.next, Ok(EffectPending(task, begun.result.value, op)))
      case OutcomeUnknown =>
        (match ClassifyRecovery(r.workflow, r.journal, op)
         case Err(e) => Step(r, Err(JournalFailure(e)))
         case Ok(decision) => Step(r, Ok(Blocked(task, Some(op), decision.action))))
      case OutcomeKnown(Succeeded) => FinishTask(r, task, r.journal.KnownOutcome(op).value.attempt)
      case OutcomeKnown(Failed) => Step(r, Ok(Blocked(task, Some(op), ObserveFailure)))
      case NotPrepared => Step(r, Err(JournalFailure(UnknownOperation(op))))
  }

  function StepTask(r: Runtime, task: Id, env: Environment): Step<StepResult> {
    var ensured := EnsureConfiguredEffect(r, task);
    if ensured.result.Err? then Step(ensured.next, Err(ensured.result.error))
    else AdvanceTask(ensured.next, task, ensured.result.value, env)
  }

  function FirstUncancelled(tasks: seq<Id>, cancelled: set<Id>): (r: Option<Id>)
    ensures r.Some? ==> r.value in tasks && r.value !in cancelled
    ensures r.None? ==> forall t :: t in tasks ==> t in cancelled
  {
    if tasks == [] then None
    else if tasks[0] in cancelled then FirstUncancelled(tasks[1..], cancelled)
    else Some(tasks[0])
  }

  /** Executes the first ready task that is not cancelled. */
  function StepOnce(r: Runtime, env: Environment): Step<StepResult> {
    if r.pending.Some? then Step(r, Err(ExecutionBackpressure(r.pending.value.item)))
    else match FirstUncancelled(Workflow.ReadyTasks(r.workflow), r.cancelled)
         case None => Step(r, Ok(Idle))
         case Some(task) => StepTask(r, task, env)
  }

  function RetryExecutionEvent(r: Runtime, item: Item): Step<()> {
    if r.pending.Some? then
      var p := r.pending.value;
      if |r.events| >= EVENT_CAPACITY then Step(r, Err(ExecutionBackpressure(p.item)))
      else Step(r.(pending := None, events := r.events + [p.item], attempts := r.attempts + [p.attempt]), Ok(()))
    else if |r.events| >= EVENT_CAPACITY then Step(r, Err(ExecutionBackpressure(item)))
    else Step(r.(events := r.events + [item]), Ok(()))
  }

  function DrainExecutionEvents(r: Runtime): Runtime {
    r.(events := [])
  }

  // ---- Start and restart ----

  function Configure(workflow: Workflow.Graph,
                     configs: seq<(Id, TaskConfig)>): Result<map<Id, TaskConfig>, RuntimeError>
  {
    if configs == [] then Ok(map[])
    else
      var last := configs[|configs| - 1];
      match Configure(workflow, configs[..|configs| - 1])
      case Err(e) => Err(e)
      case Ok(m) => if last.0 !in workflow.topology.tasks then Err(UnknownTask(last.0)) else Ok(m[last.0 := last.1])
  }

  function Build(run: Id, workflow: Workflow.Graph, configs: seq<(Id, TaskConfig)>, journal: Journal, runs: Runs,
                 revision: nat)
    : Result<Runtime, RuntimeError>
  {
    match Configure(workflow, configs)
    case Err(e) => Err(e)
    case Ok(m) =>
      Ok(Runtime(run, workflow, journal, runs, revision, m, [], None, {}, 1, Sequencer(1, false), []))
  }

  function StartRun(run: Id, workflow: Workflow.Graph, configs: seq<(Id, TaskConfig)>): Result<Runtime, RuntimeError> {
    Build(run, workflow, configs, JournalModel.Empty, map[run := NewRun(run)], 0)
  }

  /** Whether the restarted process can pin what an admission recorded. */
  type Reproduction = Admission -> bool

  function AttemptOf(a: Admission): Attempt {
    Attempt(a.run, a.task, a.attempt, a.operation, a.capabilities)
  }

  function RestoreAttempts(admissions: seq<Admission>, reproduces: Reproduction): Result<seq<Attempt>, RuntimeError> {
    if admissions == [] then Ok([])
    else
      var last := admissions[|admissions| - 1];
      match RestoreAttempts(admissions[..|admissions| - 1], reproduces)
      case Err(e) => Err(e)
      case Ok(attempts) =>
        if reproduces(last) then Ok(attempts + [AttemptOf(last)]) else Err(CapabilityFailure(last.task))
  }

  /** A fresh process over the durable facts; an admission count that cannot be advanced is refused. */
  function RestoreRun(run: Id, workflow: Workflow.Graph, configs: seq<(Id, TaskConfig)>, runs: Runs,
                      reproduces: Reproduction)
    : Result<Runtime, RuntimeError>
  {
    if run !in runs then Err(StoreFailure(RunNotFound(run)))
    else
      var state := runs[run];
      match FromDurableState(state)
      case Err(e) => Err(JournalFailure(e))
      case Ok(journal) =>
        match Build(run, workflow, configs, journal, runs, state.revision)
        case Err(e) => Err(e)
        case Ok(built) =>
          match RestoreAttempts(state.admissionHistory, reproduces)
          case Err(e) => Err(e)
          case Ok(attempts) =>
            if |state.admissionHistory| >= U64_MAX then Err(AttemptIdExhausted)
            else Ok(built.(cancelled := state.cancellations.Keys, attempts := attempts,
                           nextAttempt := |state.admissionHistory| + 1))
  }

  // ---- Repeated steps ----

  function Remaining(r: Runtime): nat {
    |r.workflow.topology.tasks.Keys - r.workflow.completed|
  }

  lemma AttemptKeepsWorkflow(r: Runtime, task: Id, operation: Option<Id>, env: Environment)
    ensures CurrentAttempt(r, task, operation, env).next.workflow == r.workflow
    ensures BeginAttempt(r, task, operation, env).next.workflow == r.workflow
  {
    hide Commit, LastMatching;
  }

  lemma EnsureKeepsWorkflow(r: Runtime, task: Id)
    ensures EnsureConfiguredEffect(r, task).next.workflow == r.workflow
  {
    hide Commit, PersistIntent;
  }

  lemma AdvanceCompletes(r: Runtime, task: Id, operation: Option<Id>, env: Environment)
    ensures var done := AdvanceTask(r, task, operation, env);
            done.result.Ok? && done.result.value.Completed? ==>
              Workflow.Complete(r.workflow, task) == Ok(done.next.workflow)
  {
    AttemptKeepsWorkflow(r, task, None, env);
    hide CurrentAttempt, ClassifyRecovery, Workflow.Complete, Journal.State;
  }

  lemma CompletionIsProgress(r: Runtime, env: Environment)
    requires StepOnce(r, env).result.Ok? && StepOnce(r, env).result.value.Completed?
    ensures Remaining(StepOnce(r, env).next) < Remaining(r)
  {
    hide EnsureConfiguredEffect, AdvanceTask, Workflow.ReadyTasks;
    var task := FirstUncancelled(Workflow.ReadyTasks(r.workflow), r.cancelled).value;
    var ensured := EnsureConfiguredEffect(r, task);
    EnsureKeepsWorkflow(r, task);
    AdvanceCompletes(ensured.next, task, ensured.result.value, env);
    var after := StepOnce(r, env).next.workflow;
    assert r.workflow.topology.tasks.Keys - r.workflow.completed ==
           (after.topology.tasks.Keys - after.completed) + {task};
  }

  /** Steps until one does not complete a task; each completion leaves fewer tasks. */
  function RunUntilBlocked(r: Runtime, env: Environment): Step<seq<StepResult>>
    decreases Remaining(r)
  {
    var first := StepOnce(r, env);
    if first.result.Err? then Step(first.next, Err(first.result.error))
    else if !first.result.value.Completed? then Step(first.next, Ok([first.result.value]))
    else
      CompletionIsProgress(r, env);
      Prepend([first.result.value], RunUntilBlocked(first.next, env))
  }

  function Prepend(results: seq<StepResult>, s: Step<seq<StepResult>>): Step<seq<StepResult>> {
    if s.result.Err? then s else Step(s.next, Ok(results + s.result.value))
  }

  lemma PrependAssociates(first: seq<StepResult>, second: seq<StepResult>, s: Step<seq<StepResult>>)
    ensures Prepend([], s) == s
    ensures Prepend(first, Prepend(second, s)) == Prepend(first + second, s)
  {
    if s.result.Ok? {
      assert [] + s.result.value == s.result.value;
      assert first + (second + s.result.value) == (first + second) + s.result.value;
    }
  }
}
