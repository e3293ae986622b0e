/**
 Whole runs: any sequence of public calls, with a crash possible after any
 commit and a restart from the surviving store.
 */
module RuntimeSystem {
  import opened Prelude
  import opened DurableModel
  import opened JournalModel
  import opened StoreProtocol
  import opened RuntimeModel
  import opened RuntimeSafety
  import opened RuntimeCalls
  import Workflow = WorkflowModel

  datatype Call =
    | ConfigureCall(task: Id, config: TaskConfig)
    | MutateCall(expected: nat, batch: seq<Workflow.Mutation>)
    | IntentCall(task: Id, operation: Id, semantics: Semantics)
    | DispatchCall(operation: Id, env: Environment)
    | OutcomeCall(operation: Id, attempt: AttemptId, outcome: KnownOutcome)
    | RecoverCall(operation: Id)
    | CancelCall(task: Id)
    | StepCall(env: Environment)
    | RunCall(env: Environment)
    | RetryCall(item: Item)
    | DrainCall

  /** The state a call leaves behind, whether it succeeded or failed. */
  function Perform(r: Runtime, c: Call): Runtime {
    match c
    case ConfigureCall(task, config) => ConfigureTask(r, task, config).next
    case MutateCall(expected, batch) => ApplyWorkflowMutation(r, expected, batch).next
    case IntentCall(task, operation, semantics) => RecordEffectIntent(r, task, operation, semantics).next
    case DispatchCall(operation, env) => DispatchEffect(r, operation, env).next
    case OutcomeCall(operation, attempt, outcome) => RecordEffectOutcome(r, operation, attempt, outcome).next
    case RecoverCall(operation) => Recover(r, operation).next
    case CancelCall(task) => CancelTask(r, task).next
    case StepCall(env) => StepOnce(r, env).next
    case RunCall(env) => RunUntilBlocked(r, env).next
    case RetryCall(item) => RetryExecutionEvent(r, item).next
    case DrainCall => DrainExecutionEvents(r)
  }

  /** A task without an effect has its attempt admitted and is not yet complete. */
  function AdmissionPoint(ensured: Step<Option<Id>>, task: Id, env: Environment): Runtime {
    if ensured.result == Ok(None) then CurrentAttempt(ensured.next, task, None, env).next else ensured.next
  }

  /** The states of one scheduler step between which it may commit. */
  function StepPoints(r: Runtime, env: Environment): seq<Runtime> {
    var next := FirstUncancelled(Workflow.ReadyTasks(r.workflow), r.cancelled);
    if r.pending.Some? || next.None? then [r]
    else
      var ensured := EnsureConfiguredEffect(r, next.value);
      [r, ensured.next, AdmissionPoint(ensured, next.value, env), StepOnce(r, env).next]
  }

  function RunPoints(r: Runtime, env: Environment): seq<Runtime>
    decreases Remaining(r)
  {
    var first := StepOnce(r, env);
    if first.result.Ok? && first.result.value.Completed? then
      CompletionIsProgress(r, env);
      StepPoints(r, env) + RunPoints(first.next, env)
    else StepPoints(r, env)
  }

  /** Every state of a call at which the store differs from the previous one, so every store a crash can leave. */
  function CrashPoints(r: Runtime, c: Call): seq<Runtime> {
    match c
    case DispatchCall(operation, env) => [r, AttemptToDispatch(r, operation, env).next, Perform(r, c)]
    case StepCall(env) => StepPoints(r, env)
    case RunCall(env) => RunPoints(r, env)
    case _ => [r, Perform(r, c)]
  }

  /** `held` are the workflow values the process has held since it started. */
  datatype System =
    | Up(runtime: Runtime, held: seq<Workflow.Graph>)
    | Down(run: Id, runs: Runs, held: seq<Workflow.Graph>)

  datatype Action =
    | CallTo(call: Call)
    | CrashIn(call: Call, point: nat)
    | Restart(choice: nat, configs: seq<(Id, TaskConfig)>, reproduces: Reproduction)

  function Act(s: System, a: Action): System {
    match (s, a)
    case (Up(r, held), CallTo(c)) => Up(Perform(r, c), held + [Perform(r, c).workflow])
    case (Up(r, held), CrashIn(c, k)) =>
      var points := CrashPoints(r, c);
      if k < |points| then Down(r.run, points[k].runs, held + [points[k].workflow]) else s
    case (Down(run, runs, held), Restart(i, configs, reproduces)) =>
      if i < |held| && RestoreRun(run, held[i], configs, runs, reproduces).Ok? then
        Up(RestoreRun(run, held[i], configs, runs, reproduces).value, [held[i]])
      else s
    case _ => s
  }

  function ActAll(s: System, actions: seq<Action>): System {
    if actions == [] then s else Act(ActAll(s, actions[..|actions| - 1]), actions[|actions| - 1])
  }

  /** A system started on a reachable workflow. */
  ghost predicate Started(s: System) {
    exists run: Id, workflow: Workflow.Graph, configs: seq<(Id, TaskConfig)> :: StartedWith(s, run, workflow, configs)
  }

  ghost predicate StartedWith(s: System, run: Id, workflow: Workflow.Graph, configs: seq<(Id, TaskConfig)>) {
    && Workflow.Valid(workflow) && StartRun(run, workflow, configs).Ok?
    && s == Up(StartRun(run, workflow, configs).value, [workflow])
  }

  function Facts(s: System): RunState {
    match s
    case Up(r, _) => Head(r)
    case Down(run, runs, _) => if run in runs then runs[run] else NewRun(run)
  }

  // ---- The system invariant ----

  /** A workflow value from which a restart would be sound. */
  ghost predicate Restartable(g: Workflow.Graph, s: RunState) {
    Workflow.Valid(g) && Agrees(g, s)
  }

  ghost predicate Invariant(s: System) {
    match s
    case Up(r, held) =>
      && Safe(r)
      && forall i :: 0 <= i < |held| ==> Workflow.Valid(held[i]) && held[i].completed <= r.workflow.completed
    case Down(run, runs, held) =>
      && run in runs && runs[run].run == run && Protected(runs[run])
      && forall i :: 0 <= i < |held| ==> Restartable(held[i], runs[run])
  }

  lemma PerformIsSafe(r: Runtime, c: Call)
    requires Safe(r)
    ensures Safe(Perform(r, c)) && Follows(r, Perform(r, c))
  {
    hide Safe, Follows, ConfigureTask, ApplyWorkflowMutation, RecordEffectIntent, DispatchEffect, RecordEffectOutcome,
      Recover, CancelTask, StepOnce, RunUntilBlocked, RetryExecutionEvent, DrainExecutionEvents;
    match c
    case ConfigureCall(task, config) => ConfigureTaskSafe(r, task, config);
    case MutateCall(expected, batch) => ApplyWorkflowMutationSafe(r, expected, batch);
    case IntentCall(task, operation, semantics) => RecordEffectIntentSafe(r, task, operation, semantics);
    case DispatchCall(operation, env) => DispatchEffectSafe(r, operation, env);
    case OutcomeCall(operation, attempt, outcome) => RecordEffectOutcomeSafe(r, operation, attempt, outcome);
    case RecoverCall(operation) => RecoverSafe(r, operation);
    case CancelCall(task) => CancelTaskSafe(r, task);
    case StepCall(env) => StepOnceSafe(r, env);
    case RunCall(env) => RunUntilBlockedSafe(r, env);
    case RetryCall(item) => RetryExecutionEventSafe(r, item);
    case DrainCall => DrainIsSafe(r);
  }

  lemma StepPointsAreSafe(r: Runtime, env: Environment, k: nat)
    requires Safe(r) && k < |StepPoints(r, env)|
    ensures Safe(StepPoints(r, env)[k]) && Follows(r, StepPoints(r, env)[k])
    ensures Head(StepPoints(r, env)[k]).dispatchHistory == Head(r).dispatchHistory
  {
    hide Safe, Follows, StepOnce, EnsureConfiguredEffect, AdmissionPoint, Workflow.ReadyTasks;
    StepOnceSafe(r, env);
    StandingStillFollows(r);
    var next := FirstUncancelled(Workflow.ReadyTasks(r.workflow), r.cancelled);
    if next.Some? {
      EnsureConfiguredEffectSafe(r, next.value);
      AdmissionPointIsSafe(r, EnsureConfiguredEffect(r, next.value), next.value, env);
    }
  }

  lemma StandingStillFollows(r: Runtime)
    ensures Follows(r, r)
  {
  }

  lemma AdmissionPointIsSafe(r: Runtime, ensured: Step<Option<Id>>, task: Id, env: Environment)
    requires Good(r, ensured) && Head(ensured.next).dispatchHistory == Head(r).dispatchHistory
    ensures Safe(AdmissionPoint(ensured, task, env)) && Follows(r, AdmissionPoint(ensured, task, env))
    ensures Head(AdmissionPoint(ensured, task, env)).dispatchHistory == Head(r).dispatchHistory
  {
    hide Safe, Follows, CurrentAttempt;
    if ensured.result == Ok(None) {
      CurrentAttemptSafe(ensured.next, task, None, env);
      var begun := CurrentAttempt(ensured.next, task, None, env);
      BeginIsGood(ensured.next, begun, task, None);
      FollowsInTwo(r, ensured.next, begun.next);
    }
  }

  lemma {:induction false} RunPointsAreSafe(r: Runtime, env: Environment, k: nat)
    requires Safe(r) && k < |RunPoints(r, env)|
    ensures Safe(RunPoints(r, env)[k]) && Follows(r, RunPoints(r, env)[k])
    ensures Head(RunPoints(r, env)[k]).dispatchHistory == Head(r).dispatchHistory
    decreases Remaining(r)
  {
    hide Safe, StepOnce, StepPoints, Head;
    var n := |StepPoints(r, env)|;
    if k < n {
      StepPointsAreSafe(r, env, k);
    } else {
      CompletionIsProgress(r, env);
      StepOnceSafe(r, env);
      RunPointsAreSafe(StepOnce(r, env).next, env, k - n);
    }
  }

  lemma CrashPointsAreSafe(r: Runtime, c: Call, k: nat)
    requires Safe(r) && k < |CrashPoints(r, c)|
    ensures Safe(CrashPoints(r, c)[k]) && Follows(r, CrashPoints(r, c)[k])
  {
    hide Safe, Perform, StepPoints, RunPoints, AttemptToDispatch, Head;
    PerformIsSafe(r, c);
    match c
    case DispatchCall(operation, env) => AttemptToDispatchSafe(r, operation, env);
    case StepCall(env) => StepPointsAreSafe(r, env, k);
    case RunCall(env) => RunPointsAreSafe(r, env, k);
    case _ =>
  }

  lemma FewerCompletionsAgree(g: Workflow.Graph, r: Runtime)
    requires Safe(r) && Workflow.Valid(g) && g.completed <= r.workflow.completed
    ensures Restartable(g, Head(r))
  {
    hide Protected, Workflow.Valid, Attempted, RunState.EffectState;
  }

  lemma SafeFacts(r: Runtime)
    requires Safe(r)
    ensures r.run in r.runs && r.runs[r.run] == Head(r) && Head(r).run == r.run && Protected(Head(r))
    ensures Workflow.Valid(r.workflow)
  {
    hide Protected, Workflow.Valid;
  }

  lemma ActKeepsInvariant(s: System, a: Action)
    requires Invariant(s)
    ensures Invariant(Act(s, a))
  {
    hide Safe, Protected, Workflow.Valid, Agrees, RestoreRun, CrashPoints, Perform;
    match (s, a)
    case (Up(r, held), CallTo(c)) =>
      PerformIsSafe(r, c);
      SafeFacts(Perform(r, c));
    case (Up(r, held), CrashIn(c, k)) =>
      var points := CrashPoints(r, c);
      if k < |points| {
        CrashPointsAreSafe(r, c, k);
        SafeFacts(points[k]);
        var held' := held + [points[k].workflow];
        forall i | 0 <= i < |held'| ensures Restartable(held'[i], points[k].runs[r.run]) {
          FewerCompletionsAgree(held'[i], points[k]);
        }
      }
    case (Down(run, runs, held), Restart(i, configs, reproduces)) =>
      if i < |held| && RestoreRun(run, held[i], configs, runs, reproduces).Ok? {
        RestoreRunSafe(run, held[i], configs, runs, reproduces);
      }
    case _ =>
  }

  lemma {:induction false} RunKeepsInvariant(s: System, actions: seq<Action>)
    requires Started(s)
    ensures Invariant(ActAll(s, actions))
  {
    hide Invariant, Act;
    if actions == [] {
      StartIsInvariant(s);
    } else {
      RunKeepsInvariant(s, actions[..|actions| - 1]);
      ActKeepsInvariant(ActAll(s, actions[..|actions| - 1]), actions[|actions| - 1]);
    }
  }

  lemma StartIsInvariant(s: System)
    requires Started(s)
    ensures Invariant(s)
  {
    hide Safe, Workflow.Valid, StartRun;
    var run, workflow, configs :| StartedWith(s, run, workflow, configs);
    StartRunSafe(run, workflow, configs);
    StartHolds(run, workflow, configs);
  }

  lemma StartHolds(run: Id, workflow: Workflow.Graph, configs: seq<(Id, TaskConfig)>)
    requires StartRun(run, workflow, configs).Ok?
    ensures StartRun(run, workflow, configs).value.workflow == workflow
  {
  }

  // ---- Main results ----

  /** After every call and every restart the views the runtime keeps are those of the store. */
  lemma ViewRefinesLog(s: System, actions: seq<Action>)
    requires Started(s) && ActAll(s, actions).Up?
    ensures var r := ActAll(s, actions).runtime;
            && FromDurableState(Head(r)) == Ok(r.journal)
            && r.cancelled == Head(r).cancellations.Keys
            && r.revision == Head(r).revision
            && forall operation :: r.journal.State(operation) == Head(r).EffectState(operation)
  {
    hide Journal.State, RunState.EffectState, FromDurableState, ActAll, Keyed, AtMostOnce, NumberedInOrder, Lineage;
    RunKeepsInvariant(s, actions);
    var r := ActAll(s, actions).runtime;
    RebuildIsView(Head(r));
    forall operation ensures r.journal.State(operation) == Head(r).EffectState(operation) {
      JournalStateIsEffectState(r, operation);
    }
  }

  /** Whatever crashes occur, an operation that is not idempotent is dispatched at most once. */
  lemma AtMostOnceEffects(s: System, actions: seq<Action>, i: nat, j: nat)
    requires Started(s)
    requires i < j < |Facts(ActAll(s, actions)).dispatchHistory|
    requires var h := Facts(ActAll(s, actions)).dispatchHistory; h[i].operation == h[j].operation
    ensures var facts := Facts(ActAll(s, actions));
            var operation := facts.dispatchHistory[i].operation;
            operation in facts.intents && facts.intents[operation].semantics == Idempotent
  {
    hide ActAll, Lineage, Keyed, Agrees, Workflow.Valid, Attempted;
    RunKeepsInvariant(s, actions);
  }

  /**
   Each action appends at most one dispatch, only for a task not cancelled, and
   only when the latest dispatched attempt of the operation has no known outcome.
   */
  lemma NoDispatchOnKnownOutcome(s: System, actions: seq<Action>, a: Action)
    requires Started(s)
    ensures DispatchesSafely(Facts(ActAll(s, actions)), Facts(Act(ActAll(s, actions), a)))
  {
    hide ActAll, Safe, DispatchesSafely, Perform, CrashPoints, RestoreRun;
    RunKeepsInvariant(s, actions);
    var now := ActAll(s, actions);
    match (now, a)
    case (Up(r, _), CallTo(c)) => PerformIsSafe(r, c);
    case (Up(r, _), CrashIn(c, k)) =>
      if k < |CrashPoints(r, c)| { CrashPointsAreSafe(r, c, k); } else { StandingStillIsSafe(Head(r)); }
    case (Down(run, runs, held), Restart(i, configs, reproduces)) =>
      StandingStillIsSafe(Facts(now));
      if i < |held| && RestoreRun(run, held[i], configs, runs, reproduces).Ok? {
        RestoreRunSafe(run, held[i], configs, runs, reproduces);
        RestoreKeepsRun(run, held[i], configs, runs, reproduces);
      }
    case _ => StandingStillIsSafe(Facts(now));
  }

  lemma StandingStillIsSafe(f: RunState)
    ensures DispatchesSafely(f, f)
  {
  }

  lemma RestoreKeepsRun(run: Id, workflow: Workflow.Graph, configs: seq<(Id, TaskConfig)>, runs: Runs,
                        reproduces: Reproduction)
    requires RestoreRun(run, workflow, configs, runs, reproduces).Ok?
    ensures RestoreRun(run, workflow, configs, runs, reproduces).value.run == run
  {
    hide FromDurableState, RestoreAttempts, Configure;
  }

  /**
   In every reachable state a completed task that owns an operation has that
   operation's success on record, so recovery reports a contradiction exactly
   for operations whose task the current workflow does not have.
   */
  lemma CompletionAgreesWithEffects(s: System, actions: seq<Action>, operation: Id)
    requires Started(s) && ActAll(s, actions).Up?
    requires operation in ActAll(s, actions).runtime.journal.intents
    ensures var r := ActAll(s, actions).runtime;
            var task := r.journal.intents[operation].task;
            && (task in r.workflow.completed ==> Head(r).EffectState(operation) == OutcomeKnown(Succeeded))
            && ClassifyRecovery(r.workflow, r.journal, operation).Ok?
            && (ClassifyRecovery(r.workflow, r.journal, operation).value.action == InvariantViolated <==>
                  task !in r.workflow.topology.tasks)
  {
    hide ActAll, Journal.State, RunState.EffectState, ClassifyRecovery, Listed, Linked, Keyed, AtMostOnce,
      NumberedInOrder;
    RunKeepsInvariant(s, actions);
    var r := ActAll(s, actions).runtime;
    JournalStateIsEffectState(r, operation);
    ViolationIsExact(r.workflow, r.journal, operation);
  }

  /** Restarts that take the workflow value held last never lose the task of a recorded operation. */
  ghost predicate LatestRestarts(actions: seq<Action>, s: System) {
    forall i :: 0 <= i < |actions| && actions[i].Restart? ==>
      var before := ActAll(s, actions[..i]);
      before.Down? ==> actions[i].choice == |before.held| - 1
  }

  ghost predicate TasksKnown(g: Workflow.Graph, s: RunState) {
    forall o :: o in s.intents ==> s.intents[o].task in g.topology.tasks
  }

  ghost predicate KnowsTasks(s: System) {
    match s
    case Up(r, _) => TasksKnown(r.workflow, Head(r))
    case Down(_, _, held) => held != [] && TasksKnown(held[|held| - 1], Facts(s))
  }

  lemma FollowingKnowsTasks(r: Runtime, n: Runtime)
    requires Follows(r, n) && TasksKnown(r.workflow, Head(r))
    ensures TasksKnown(n.workflow, Head(n))
  {
  }

  lemma {:induction false} LatestRestartsKnowTasks(s: System, actions: seq<Action>)
    requires Started(s) && LatestRestarts(actions, s)
    ensures KnowsTasks(ActAll(s, actions))
  {
    hide Safe, Follows, Perform, CrashPoints, RestoreRun, TasksKnown, Head;
    if actions == [] {
      StartKnowsTasks(s);
      return;
    }
    var front, a := actions[..|actions| - 1], actions[|actions| - 1];
    FrontRestarts(actions, s);
    LatestRestartsKnowTasks(s, front);
    RunKeepsInvariant(s, front);
    var now := ActAll(s, front);
    match (now, a)
    case (Up(r, _), CallTo(c)) =>
      PerformIsSafe(r, c);
      FollowingKnowsTasks(r, Perform(r, c));
    case (Up(r, _), CrashIn(c, k)) =>
      if k < |CrashPoints(r, c)| {
        CrashPointsAreSafe(r, c, k);
        SafeFacts(CrashPoints(r, c)[k]);
        PointKeepsRun(r, CrashPoints(r, c)[k]);
        FollowingKnowsTasks(r, CrashPoints(r, c)[k]);
      }
    case (Down(run, runs, held), Restart(i, configs, reproduces)) =>
      if i < |held| && RestoreRun(run, held[i], configs, runs, reproduces).Ok? {
        RestoreRunSafe(run, held[i], configs, runs, reproduces);
        RestoreKeepsRun(run, held[i], configs, runs, reproduces);
        HeadOfRestored(RestoreRun(run, held[i], configs, runs, reproduces).value, now);
      }
    case _ =>
  }

  lemma HeadOfRestored(r: Runtime, down: System)
    requires down.Down? && r.run == down.run && r.runs == down.runs
    ensures Head(r) == Facts(down)
  {
  }

  lemma PointKeepsRun(r: Runtime, n: Runtime)
    requires Follows(r, n)
    ensures n.run == r.run
  {
  }

  lemma StartKnowsTasks(s: System)
    requires Started(s)
    ensures KnowsTasks(s)
  {
    hide Workflow.Valid;
  }

  lemma FrontRestarts(actions: seq<Action>, s: System)
    requires actions != [] && LatestRestarts(actions, s)
    ensures LatestRestarts(actions[..|actions| - 1], s)
    ensures actions[|actions| - 1].Restart? && ActAll(s, actions[..|actions| - 1]).Down? ==>
              actions[|actions| - 1].choice == |ActAll(s, actions[..|actions| - 1]).held| - 1
  {
    hide ActAll;
    var front := actions[..|actions| - 1];
    forall i | 0 <= i < |front| && front[i].Restart?
      ensures var before := ActAll(s, front[..i]); before.Down? ==> front[i].choice == |before.held| - 1
    {
      assert front[i] == actions[i] && front[..i] == actions[..i];
    }
  }

  /** With such restarts, recovery never reports a contradiction for a recorded operation. */
  lemma RecoveryNeverContradicts(s: System, actions: seq<Action>, operation: Id)
    requires Started(s) && ActAll(s, actions).Up? && LatestRestarts(actions, s)
    requires operation in ActAll(s, actions).runtime.journal.intents
    ensures var r := ActAll(s, actions).runtime;
            ClassifyRecovery(r.workflow, r.journal, operation).Ok?
            && ClassifyRecovery(r.workflow, r.journal, operation).value.action != InvariantViolated
  {
    hide ActAll, ClassifyRecovery, Protected, Agrees, Workflow.Valid, RunState.EffectState;
    LatestRestartsKnowTasks(s, actions);
    RunKeepsInvariant(s, actions);
    CompletionAgreesWithEffects(s, actions, operation);
  }

  // ---- Restarts with any workflow ----

  /** Every recorded operation has its task in the workflow, and its success on record where the task is complete. */
  ghost predicate FitsRecord(g: Workflow.Graph, s: RunState) {
    TasksKnown(g, s) &&
    forall o :: o in s.intents && s.intents[o].task in g.completed ==> s.EffectState(o) == OutcomeKnown(Succeeded)
  }

  /** Recovery of the recorded operation reports a contradiction. */
  predicate Contradicts(r: Runtime, operation: Id) {
    ClassifyRecovery(r.workflow, r.journal, operation).Ok?
    && ClassifyRecovery(r.workflow, r.journal, operation).value.action == InvariantViolated
  }

  /**
   Restart any crashed process with any workflow value: recovery of the recorded
   operations reports no contradiction exactly when the value fits the record.
   */
  lemma RestartIsExact(s: System, actions: seq<Action>, workflow: Workflow.Graph, configs: seq<(Id, TaskConfig)>,
                       reproduces: Reproduction)
    requires Started(s) && ActAll(s, actions).Down?
    requires var d := ActAll(s, actions); RestoreRun(d.run, workflow, configs, d.runs, reproduces).Ok?
    ensures var d := ActAll(s, actions);
            var r := RestoreRun(d.run, workflow, configs, d.runs, reproduces).value;
            && r.journal.intents == Facts(d).intents
            && ((forall o :: o in Facts(d).intents ==> !Contradicts(r, o)) <==> FitsRecord(workflow, Facts(d)))
  {
    hide ActAll, RestoreRun, ClassifyRecovery, Keyed, AtMostOnce, NumberedInOrder, Listed, Linked, RunState.EffectState,
      Journal.State, View, FromDurableState, Workflow.Valid, Agrees;
    RunKeepsInvariant(s, actions);
    var d := ActAll(s, actions);
    var facts := Facts(d);
    RebuildIsView(facts);
    RestoredParts(d.run, workflow, configs, d.runs, reproduces);
    ViewKeepsIntents(facts);
    var r := RestoreRun(d.run, workflow, configs, d.runs, reproduces).value;
    forall o | o in facts.intents
      ensures !Contradicts(r, o) <==>
                && facts.intents[o].task in workflow.topology.tasks
                && (facts.intents[o].task in workflow.completed ==> facts.EffectState(o) == OutcomeKnown(Succeeded))
    {
      ViewAgrees(facts, o);
      ViolationIsExact(workflow, r.journal, o);
    }
  }

  lemma RestoredParts(run: Id, workflow: Workflow.Graph, configs: seq<(Id, TaskConfig)>, runs: Runs,
                      reproduces: Reproduction)
    requires RestoreRun(run, workflow, configs, runs, reproduces).Ok?
    ensures run in runs && RestoreRun(run, workflow, configs, runs, reproduces).value.workflow == workflow
    ensures Ok(RestoreRun(run, workflow, configs, runs, reproduces).value.journal) == FromDurableState(runs[run])
  {
    hide FromDurableState, RestoreAttempts, Configure;
  }

  lemma ViewKeepsIntents(s: RunState)
    ensures View(s).intents == s.intents
  {
  }

  /** Success, once known for the latest dispatch of an operation, survives every call, crash and restart. */
  lemma {:induction false} SuccessIsKeptForever(s: System, actions: seq<Action>, later: seq<Action>, operation: Id)
    requires Started(s) && Facts(ActAll(s, actions)).EffectState(operation) == OutcomeKnown(Succeeded)
    ensures Facts(ActAll(s, actions + later)).EffectState(operation) == OutcomeKnown(Succeeded)
  {
    hide ActAll, Act, RunState.EffectState;
    if later == [] {
      assert actions + later == actions;
    } else {
      var front, a := actions + later[..|later| - 1], later[|later| - 1];
      assert actions + later == front + [a];
      SuccessIsKeptForever(s, actions, later[..|later| - 1], operation);
      ActAllPush(s, front, a);
      ActKeepsSuccess(s, front, a);
    }
  }

  lemma ActAllPush(s: System, actions: seq<Action>, a: Action)
    ensures ActAll(s, actions + [a]) == Act(ActAll(s, actions), a)
  {
    hide Act;
    assert (actions + [a])[..|actions|] == actions;
  }

  lemma ActKeepsSuccess(s: System, actions: seq<Action>, a: Action)
    requires Started(s)
    ensures SuccessKept(Facts(ActAll(s, actions)), Facts(Act(ActAll(s, actions), a)))
  {
    hide ActAll, Safe, DispatchesSafely, Perform, CrashPoints, RestoreRun, RunState.EffectState;
    RunKeepsInvariant(s, actions);
    match (ActAll(s, actions), a)
    case (Up(r, _), CallTo(c)) => PerformIsSafe(r, c);
    case (Up(r, _), CrashIn(c, k)) =>
      if k < |CrashPoints(r, c)| {
        CrashPointsAreSafe(r, c, k);
      }
    case (Down(run, runs, held), Restart(i, configs, reproduces)) =>
      if i < |held| && RestoreRun(run, held[i], configs, runs, reproduces).Ok? {
        RestoreRunSafe(run, held[i], configs, runs, reproduces);
        RestoreKeepsRun(run, held[i], configs, runs, reproduces);
      }
    case _ =>
  }

  /**
   Attempt numbers are given out in order through all calls, errors and
   restarts: the next one is unused, and every attempt in memory was admitted.
   */
  lemma AttemptIdentitiesAreFresh(s: System, actions: seq<Action>)
    requires Started(s) && ActAll(s, actions).Up?
    ensures var r := ActAll(s, actions).runtime;
            && r.nextAttempt == NextNumber(Head(r))
            && (forall i :: 0 <= i < |Head(r).admissionHistory| ==>
                  Head(r).admissionHistory[i].attempt == Numbered(r.run, i + 1))
            && (|Head(r).admissionHistory| < U64_MAX ==> Numbered(r.run, r.nextAttempt) !in Head(r).admissions)
            && (forall i :: 0 <= i < |r.attempts| ==> Admitted(Head(r), r.attempts[i]))
            && (r.pending.Some? ==> Admitted(Head(r), r.pending.value.attempt))
  {
    hide ActAll, Keyed, AtMostOnce, Agrees, Workflow.Valid, Owned, Linked, Listed;
    RunKeepsInvariant(s, actions);
    var r := ActAll(s, actions).runtime;
    if |Head(r).admissionHistory| < U64_MAX { NextNumberIsUnused(Head(r)); }
  }

  /** In a reachable state short of the last revision, no intent, dispatch, outcome or step is refused by the store. */
  lemma StoreNeverRefuses(s: System, actions: seq<Action>, task: Id, operation: Id, semantics: Semantics,
                          attempt: AttemptId, outcome: KnownOutcome, env: Environment)
    requires Started(s) && ActAll(s, actions).Up?
    ensures var r := ActAll(s, actions).runtime;
            && StoreWilling(RecordEffectIntent(r, task, operation, semantics).next,
                            RecordEffectIntent(r, task, operation, semantics).result)
            && StoreWilling(DispatchEffect(r, operation, env).next, DispatchEffect(r, operation, env).result)
            && StoreWilling(RecordEffectOutcome(r, operation, attempt, outcome).next,
                            RecordEffectOutcome(r, operation, attempt, outcome).result)
            && StoreWilling(StepOnce(r, env).next, StepOnce(r, env).result)
  {
    hide ActAll, Safe, StepOnce, RecordEffectIntent, DispatchEffect, RecordEffectOutcome, StoreWilling;
    RunKeepsInvariant(s, actions);
    var r := ActAll(s, actions).runtime;
    RecordEffectIntentSafe(r, task, operation, semantics);
    DispatchEffectSafe(r, operation, env);
    RecordEffectOutcomeSafe(r, operation, attempt, outcome);
    StepOnceSafe(r, env);
  }
}
