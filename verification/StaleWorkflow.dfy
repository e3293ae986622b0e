/**
 The limit of the restart guarantee: a workflow value held by a process before
 the one that crashed can contradict the durable facts.
 */
module StaleWorkflow {
  import opened Prelude
  import opened DurableModel
  import opened JournalModel
  import opened StoreProtocol
  import opened RuntimeModel
  import opened RuntimeSafety
  import opened RuntimeCalls
  import opened RuntimeProgress
  import opened RuntimeSystem
  import Workflow = WorkflowModel

  const TASK: Id := 1
  const OPERATION: Id := 7
  const OneTask: Workflow.Topology := Workflow.Topology(map[TASK := Workflow.Task(TASK, "")], map[])
  const Fresh: Workflow.Graph := Workflow.Graph(OneTask, {}, [], 0, [])
  const Finished: Workflow.Graph := Fresh.(completed := {TASK}, completionLog := [TASK])

  function Pin(task: Id): Pins { Pinned([]) }
  function Always(a: Admission): bool { true }

  lemma FreshIsValid()
    ensures Workflow.Valid(Fresh) && Workflow.Valid(Finished)
    ensures Workflow.Complete(Fresh, TASK) == Ok(Finished)
    ensures Workflow.ReadyTasks(Fresh) == [TASK]
  {
    var g := OneTask.Relation();
    assert Workflow.Digraph.IsTopologicalOrder(g, [TASK]);
    Workflow.Digraph.OrderedIsAcyclic(g, [TASK]);
    assert OneTask.DependenciesOf(TASK) == {};
    assert OneTask.DependenciesOf(TASK) - Fresh.completed == {};
    Workflow.CompleteKeepsValid(Fresh, TASK);
    ReadyTasksAreReady(Fresh);
    var ready :=
      set id | id in OneTask.tasks && id !in Fresh.completed && OneTask.DependenciesOf(id) <= Fresh.completed;
    assert ready == {TASK};
    assert Ascending({TASK}) == [TASK] by { assert {TASK} - {Least({TASK})} == {}; }
  }

  /** Nothing about effects is on record. */
  ghost predicate Blank(r: Runtime) {
    && Safe(r) && Head(r).intents == map[] && Head(r).taskOperations == map[] && Head(r).dispatchHistory == []
    && Head(r).revision < U64_MAX && r.run == 0
  }

  lemma FirstStarts()
    ensures StartRun(0, Fresh, []).Ok?
    ensures var r := StartRun(0, Fresh, []).value;
            Blank(r) && Unhindered(r, Pin) && Remaining(r) == 1 && r.workflow == Fresh
  {
    hide Workflow.Valid;
    FreshIsValid();
    StartRunSafe(0, Fresh, []);
    var r := StartRun(0, Fresh, []).value;
    assert r.workflow.topology.tasks.Keys - r.workflow.completed == {TASK};
  }

  /** The first process completes the task, which owns no effect. */
  lemma FirstCompletes(r: Runtime)
    requires Blank(r) && Unhindered(r, Pin) && Remaining(r) == 1 && r.workflow == Fresh
    ensures StepOnce(r, Pin).next.workflow == Finished && Blank(StepOnce(r, Pin).next)
  {
    hide Safe, CurrentAttempt, FinishTask, StepOnce, AdvanceTask;
    FreshIsValid();
    StepOnceSafe(r, Pin);
    UnhinderedStep(r, Pin);
    var task := NextTask(r, Pin);
    SafeHead(r);
    AdvanceCompletes(r, task, None, Pin);
    AdvanceTaskSafe(r, task, None, Pin);
    SafeHead(StepOnce(r, Pin).next);
  }

  lemma SafeHead(r: Runtime)
    requires Safe(r)
    ensures r.revision == Head(r).revision && |Head(r).admissionHistory| <= Head(r).revision
    ensures r.journal == View(Head(r)) && r.runs[r.run] == Head(r)
  {
    hide Lineage, Keyed, Attempted, AtMostOnce, Workflow.Valid;
  }

  lemma {:induction false} EverythingReproduced(admissions: seq<Admission>)
    ensures RestoreAttempts(admissions, Always).Ok?
  {
    if admissions != [] { EverythingReproduced(admissions[..|admissions| - 1]); }
  }

  /** A restart that can reproduce every capability comes up with the journal of the store. */
  lemma RestartComesUp(r: Runtime, workflow: Workflow.Graph)
    requires Safe(r) && |Head(r).admissionHistory| < U64_MAX
    ensures var n := RestoreRun(r.run, workflow, [], r.runs, Always);
            && n.Ok? && n.value.run == r.run && n.value.runs == r.runs && n.value.workflow == workflow
            && n.value.journal == View(Head(r))
  {
    hide FromDurableState, Lineage, Keyed, AtMostOnce, Workflow.Valid, View;
    RebuildIsView(Head(r));
    EverythingReproduced(Head(r).admissionHistory);
  }

  /** A process that has the task and has not completed it may record an intent for it. */
  lemma SecondRecords(r: Runtime)
    requires Blank(r) && TASK in r.workflow.topology.tasks && TASK !in r.workflow.completed
    ensures var n := RecordEffectIntent(r, TASK, OPERATION, Idempotent).next;
            && Safe(n) && n.workflow == r.workflow && n.run == r.run && |Head(n).admissionHistory| < U64_MAX
            && OPERATION in Head(n).intents && Head(n).intents[OPERATION].task == TASK && Head(n).dispatchHistory == []
  {
    hide CommitRun, Protected, CommitDurable, Workflow.Valid;
    RecordEffectIntentSafe(r, TASK, OPERATION, Idempotent);
    IntentAppendsNoDispatch(r, TASK, OPERATION, Idempotent);
    var i := EffectIntent(TASK, OPERATION, Idempotent);
    assert PersistIntent(r.journal, i).Ok?;
    IntentIsAcceptedHere(r, i);
    CommitAdvances(r, RecordIntent(i));
    AdvanceKeepsHistory(Head(r), RecordIntent(i));
    SafeHead(r);
  }

  /**
   A process completes a task; a second, restarted with the workflow from before,
   records an effect for it; a third is restarted with the completed workflow the
   first process held. Recovery then reports a contradiction, although every fact
   was recorded by the runtime and nothing was lost.
   */
  lemma EarlierProcessWorkflowContradicts() returns (first: Runtime, second: Runtime, recorded: Runtime, third: Runtime)
    ensures Ok(first) == StartRun(0, Fresh, [])
    ensures var done := StepOnce(first, Pin).next;
            && Ok(second) == RestoreRun(0, first.workflow, [], done.runs, Always)
            && recorded == RecordEffectIntent(second, TASK, OPERATION, Idempotent).next
            && Ok(third) == RestoreRun(0, done.workflow, [], recorded.runs, Always)
    ensures ClassifyRecovery(third.workflow, third.journal, OPERATION).Ok?
    ensures ClassifyRecovery(third.workflow, third.journal, OPERATION).value.action == InvariantViolated
  {
    hide Safe, StartRun, StepOnce, RestoreRun, RecordEffectIntent, Head, Unhindered, Remaining, ClassifyRecovery;
    FirstStarts();
    first := StartRun(0, Fresh, []).value;
    FirstCompletes(first);
    var done := StepOnce(first, Pin).next;
    SafeHead(done);
    RestartComesUp(done, Fresh);
    second := RestoreRun(0, Fresh, [], done.runs, Always).value;
    SecondIsBlank(done, second);
    SecondRecords(second);
    recorded := RecordEffectIntent(second, TASK, OPERATION, Idempotent).next;
    RestartComesUp(recorded, Finished);
    third := RestoreRun(0, Finished, [], recorded.runs, Always).value;
    PreparedContradicts(Head(recorded));
  }

  lemma SecondIsBlank(done: Runtime, second: Runtime)
    requires Blank(done) && Ok(second) == RestoreRun(0, Fresh, [], done.runs, Always)
    requires second.run == done.run && second.runs == done.runs
    ensures Blank(second)
  {
    hide Protected, RestoreRun, Workflow.Valid;
    FreshIsValid();
    SafeFacts(done);
    RestoreRunSafe(0, Fresh, [], done.runs, Always);
  }

  lemma PreparedContradicts(s: RunState)
    requires OPERATION in s.intents && s.intents[OPERATION].task == TASK && s.dispatchHistory == []
    ensures ClassifyRecovery(Finished, View(s), OPERATION).Ok?
    ensures ClassifyRecovery(Finished, View(s), OPERATION).value.action == InvariantViolated
  {
  }

  // ---- An older value of the crashed process ----

  const AddOwner: seq<Workflow.Mutation> := [Workflow.AddTask(Workflow.Task(TASK, ""))]
  const Extended: Workflow.Graph :=
    Workflow.Graph(OneTask, {}, [], 1, [Workflow.MutationRecord(0, 1, AddOwner)])

  /**
   A task is added, an effect is recorded for it, and the process crashes; the restart
   takes the first value it held.
   */
  const Outdated: seq<Action> :=
    [CallTo(MutateCall(0, AddOwner)), CallTo(IntentCall(TASK, OPERATION, Idempotent)), CrashIn(DrainCall, 0),
     Restart(0, [], Always)]

  lemma OneTaskIsAcyclic()
    ensures OneTask.CyclePath() == None
  {
    hide Workflow.Digraph.Acyclic;
    var g := OneTask.Relation();
    assert Workflow.Digraph.IsTopologicalOrder(g, [TASK]);
    Workflow.Digraph.OrderedIsAcyclic(g, [TASK]);
    Workflow.CyclePathIsExact(OneTask);
  }

  lemma OwnerIsAdded()
    ensures Fold(Workflow.ApplyMutation, Workflow.Empty, AddOwner) == Ok(Fresh)
  {
    assert AddOwner[..0] == [];
    assert map[][TASK := Workflow.Task(TASK, "")] == OneTask.tasks;
    assert Workflow.ApplyMutation(Workflow.Empty, AddOwner[0]) == Ok(Fresh);
  }

  lemma ExtensionIsAccepted()
    ensures Workflow.ApplyBatch(Workflow.Empty, 0, AddOwner) == Ok(Extended)
  {
    hide Fold, Workflow.ApplyMutation, Workflow.Topology.CyclePath;
    OneTaskIsAcyclic();
    OwnerIsAdded();
    assert [] + [Workflow.MutationRecord(0, 1, AddOwner)] == [Workflow.MutationRecord(0, 1, AddOwner)];
  }

  lemma EmptyStarts()
    ensures StartRun(0, Workflow.Empty, []).Ok?
    ensures Blank(StartRun(0, Workflow.Empty, []).value)
    ensures StartRun(0, Workflow.Empty, []).value.workflow == Workflow.Empty
  {
    hide Workflow.Valid;
    Workflow.EmptyIsValid();
    StartRunSafe(0, Workflow.Empty, []);
  }

  lemma OwnerIsKnown(r: Runtime)
    requires Blank(r) && r.workflow == Workflow.Empty
    ensures Perform(r, MutateCall(0, AddOwner)) == r.(workflow := Extended) && Blank(r.(workflow := Extended))
  {
    hide Safe, Workflow.ApplyBatch;
    ExtensionIsAccepted();
    ApplyWorkflowMutationSafe(r, 0, AddOwner);
  }

  lemma ActionStep(s: System, actions: seq<Action>, n: nat)
    requires n < |actions|
    ensures ActAll(s, actions[..n + 1]) == Act(ActAll(s, actions[..n]), actions[n])
  {
    assert actions[..n + 1][..n] == actions[..n];
  }

  /** Up to the crash: the process has held the empty workflow and, three times, the extended one. */
  lemma CrashedRun(r: Runtime)
    requires Blank(r) && r.workflow == Workflow.Empty
    ensures var n := RecordEffectIntent(r.(workflow := Extended), TASK, OPERATION, Idempotent).next;
            && ActAll(Up(r, [Workflow.Empty]), Outdated[..3]) ==
               Down(0, n.runs, [Workflow.Empty, Extended, Extended, Extended])
            && Safe(n) && n.run == 0 && |Head(n).admissionHistory| < U64_MAX
            && OPERATION in Head(n).intents && Head(n).intents[OPERATION].task == TASK
  {
    hide Safe, RecordEffectIntent, ApplyWorkflowMutation;
    var s := Up(r, [Workflow.Empty]);
    OwnerIsKnown(r);
    var r1 := r.(workflow := Extended);
    SecondRecords(r1);
    ActionStep(s, Outdated, 0);
    ActionStep(s, Outdated, 1);
    ActionStep(s, Outdated, 2);
    assert Outdated[..0] == [];
    assert [Workflow.Empty] + [Extended] + [Extended] + [Extended] == [Workflow.Empty, Extended, Extended, Extended];
  }

  /** Started on the empty workflow, the run above ends in a process that finds its own record contradictory. */
  lemma OlderWorkflowContradicts() returns (s: System)
    ensures Started(s) && ActAll(s, Outdated[..3]).Down? && ActAll(s, Outdated).Up?
    ensures OPERATION in ActAll(s, Outdated).runtime.journal.intents
    ensures Contradicts(ActAll(s, Outdated).runtime, OPERATION)
  {
    hide Safe, StartRun, RestoreRun, Head, ActAll, RecordEffectIntent, Perform, View, CrashPoints;
    EmptyStarts();
    Workflow.EmptyIsValid();
    var r := StartRun(0, Workflow.Empty, []).value;
    s := Up(r, [Workflow.Empty]);
    assert StartedWith(s, 0, Workflow.Empty, []);
    CrashedRun(r);
    var n := RecordEffectIntent(r.(workflow := Extended), TASK, OPERATION, Idempotent).next;
    RestartComesUp(n, Workflow.Empty);
    ActionStep(s, Outdated, 3);
    assert Outdated[..4] == Outdated;
    ViewKeepsIntents(Head(n));
    OwnerIsMissing(Head(n));
  }

  lemma OwnerIsMissing(s: RunState)
    requires OPERATION in View(s).intents && View(s).intents[OPERATION].task == TASK
    ensures ClassifyRecovery(Workflow.Empty, View(s), OPERATION).Ok?
    ensures ClassifyRecovery(Workflow.Empty, View(s), OPERATION).value.action == InvariantViolated
  {
    ViolationIsExact(Workflow.Empty, View(s), OPERATION);
  }
}
