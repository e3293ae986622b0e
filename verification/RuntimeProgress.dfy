/** The scheduler finishes unhindered workflows. */
module RuntimeProgress {
  import opened Prelude
  import opened DurableModel
  import opened JournalModel
  import opened StoreProtocol
  import opened RuntimeModel
  import opened RuntimeSafety
  import opened RuntimeCalls
  import Workflow = WorkflowModel

  /**
   Unfinished tasks are uncancelled and own no effect, capabilities can be
   pinned, and there is room for two events and one admission per task.
   */
  ghost predicate Unhindered(r: Runtime, env: Environment) {
    && r.pending.None? && !r.sequencer.exhausted
    && (forall t :: t in r.workflow.topology.tasks && t !in r.workflow.completed ==>
          && t !in r.cancelled && t !in r.journal.taskOperations
          && (t !in r.configs || r.configs[t].effect.None?)
          && env(t).Pinned?)
    && |r.events| + 2 * Remaining(r) <= EVENT_CAPACITY
    && r.sequencer.next + 2 * Remaining(r) <= U64_MAX
    && r.revision + Remaining(r) < U64_MAX
  }

  lemma SomeTaskRemains(r: Runtime)
    ensures Remaining(r) == 0 <==> r.workflow.topology.tasks.Keys <= r.workflow.completed
  {
    var rest := r.workflow.topology.tasks.Keys - r.workflow.completed;
    if rest == {} {
      forall t | t in r.workflow.topology.tasks ensures t in r.workflow.completed { assert t !in rest; }
    }
    assert |rest| == 0 <==> rest == {};
  }

  /** Beginning an attempt uses one revision, one number and one event. */
  lemma BeginSucceeds(r: Runtime, task: Id, env: Environment)
    requires Safe(r) && env(task).Pinned? && r.pending.None? && !r.sequencer.exhausted
    requires |r.events| < EVENT_CAPACITY && r.sequencer.next < U64_MAX && r.revision + 1 < U64_MAX
    ensures var d := BeginAttempt(r, task, None, env);
            && d.result.Ok? && d.next.pending.None? && !d.next.sequencer.exhausted
            && |d.next.events| == |r.events| + 1 && d.next.sequencer.next == r.sequencer.next + 1
            && d.next.revision == r.revision + 1
  {
    hide CommitRun, Lineage, Keyed, AtMostOnce, CommitDurable, Agrees, Workflow.Valid;
    var a := Attempt(r.run, task, Numbered(r.run, r.nextAttempt), None, env(task).capabilities);
    var m := AdmitAttempt(AdmissionOf(a));
    CommitAdvances(r, m);
    AdmissionIsAcceptedHere(r, m.admission);
    AdvanceCases(Head(r), m);
    NextNumberIsUnused(Head(r));
  }

  lemma CurrentSucceeds(r: Runtime, task: Id, env: Environment)
    requires Safe(r) && env(task).Pinned? && r.pending.None? && !r.sequencer.exhausted
    requires |r.events| < EVENT_CAPACITY && r.sequencer.next < U64_MAX && r.revision + 1 < U64_MAX
    ensures var d := CurrentAttempt(r, task, None, env);
            && d.result.Ok? && d.next.pending.None? && !d.next.sequencer.exhausted
            && |d.next.events| <= |r.events| + 1 && d.next.sequencer.next <= r.sequencer.next + 1
            && d.next.revision <= r.revision + 1
  {
    hide Safe, BeginAttempt, LastMatching;
    BeginSucceeds(r, task, env);
  }

  /** The task the scheduler picks owns no effect and is advanced at once. */
  lemma NextTask(r: Runtime, env: Environment) returns (task: Id)
    requires Safe(r) && Unhindered(r, env) && Remaining(r) > 0
    ensures task in r.workflow.topology.tasks && task !in r.workflow.completed
    ensures r.workflow.topology.DependenciesOf(task) <= r.workflow.completed
    ensures StepOnce(r, env) == AdvanceTask(r, task, None, env)
  {
    hide Coupled, Attempted, Agrees, Workflow.Sound, AdvanceTask, Workflow.ReadyTasks;
    SomeTaskRemains(r);
    Workflow.SchedulerNeverStuck(r.workflow);
    var ready := Workflow.ReadyTasks(r.workflow);
    ReadyTasksAreReady(r.workflow);
    assert ready[0] in ready;
    task := FirstUncancelled(ready, r.cancelled).value;
    assert EnsureConfiguredEffect(r, task) == Step(r, Ok(None));
  }

  lemma FinishSucceeds(r: Runtime, task: Id, attempt: AttemptId)
    requires task in r.workflow.topology.tasks && task !in r.workflow.completed
    requires r.workflow.topology.DependenciesOf(task) <= r.workflow.completed
    requires !r.sequencer.exhausted && |r.events| < EVENT_CAPACITY && r.sequencer.next < U64_MAX
    ensures var d := FinishTask(r, task, attempt);
            && d.result == Ok(Completed(task, attempt))
            && d.next == r.(workflow := d.next.workflow, sequencer := Sequencer(r.sequencer.next + 1, false),
                            events := d.next.events)
            && |d.next.events| == |r.events| + 1
            && d.next.workflow.topology == r.workflow.topology
            && d.next.workflow.completed == r.workflow.completed + {task}
            && Remaining(d.next) == Remaining(r) - 1
  {
    var after := FinishTask(r, task, attempt).next.workflow;
    assert r.workflow.topology.DependenciesOf(task) - r.workflow.completed == {};
    assert after == Workflow.Complete(r.workflow, task).value;
    assert r.workflow.topology.tasks.Keys - r.workflow.completed ==
           (after.topology.tasks.Keys - after.completed) + {task};
  }

  lemma UnhinderedStep(r: Runtime, env: Environment)
    requires Safe(r) && Unhindered(r, env) && Remaining(r) > 0
    ensures var d := StepOnce(r, env);
            && d.result.Ok? && d.result.value.Completed?
            && Unhindered(d.next, env) && Remaining(d.next) == Remaining(r) - 1
  {
    hide Safe, StepOnce, CurrentAttempt, FinishTask, Remaining, SameEffects, Head;
    var task := NextTask(r, env);
    CurrentSucceeds(r, task, env);
    CurrentAttemptSafe(r, task, None, env);
    var begun := CurrentAttempt(r, task, None, env);
    SameWorkflowRemains(r, begun.next);
    FinishSucceeds(begun.next, task, begun.result.value);
  }

  lemma SameWorkflowRemains(r: Runtime, n: Runtime)
    requires r.workflow == n.workflow
    ensures Remaining(r) == Remaining(n)
  {
  }

  lemma ReadyTasksAreReady(g: Workflow.Graph)
    ensures forall t :: t in Workflow.ReadyTasks(g) ==>
              && t in g.topology.tasks && t !in g.completed && g.topology.DependenciesOf(t) <= g.completed
  {
  }

  /** Running an unhindered workflow ends idle with every task complete, one step per task and a last idle one. */
  lemma {:induction false} RunCompletesEverything(r: Runtime, env: Environment)
    requires Safe(r) && Unhindered(r, env)
    ensures var d := RunUntilBlocked(r, env);
            && d.result.Ok? && |d.result.value| == Remaining(r) + 1
            && d.result.value[Remaining(r)] == Idle
            && d.next.workflow.topology.tasks.Keys <= d.next.workflow.completed
    decreases Remaining(r)
  {
    if Remaining(r) > 0 {
      hide Safe, Unhindered, StepOnce, Remaining;
      UnhinderedStep(r, env);
      StepOnceSafe(r, env);
      RunCompletesEverything(StepOnce(r, env).next, env);
    } else {
      SomeTaskRemains(r);
      hide Safe, Unhindered, StepOnce, Remaining;
      UnhinderedWaits(r, env);
      NothingReady(r, env);
    }
  }

  lemma UnhinderedWaits(r: Runtime, env: Environment)
    requires Unhindered(r, env)
    ensures r.pending.None?
  {
  }

  lemma NothingReady(r: Runtime, env: Environment)
    requires Safe(r) && r.pending.None? && r.workflow.topology.tasks.Keys <= r.workflow.completed
    ensures StepOnce(r, env) == Step(r, Ok(Idle))
  {
    hide Coupled, Attempted, Agrees, Workflow.ReadyTasks, Workflow.Sound;
    Workflow.SchedulerNeverStuck(r.workflow);
  }

  /** A step is idle exactly when every ready task is cancelled. */
  lemma IdleIsExact(r: Runtime, env: Environment)
    requires r.pending.None?
    ensures StepOnce(r, env).result == Ok(Idle) <==>
            forall t :: t in Workflow.ReadyTasks(r.workflow) ==> t in r.cancelled
  {
    hide EnsureConfiguredEffect, CurrentAttempt, FinishTask, ClassifyRecovery, Workflow.ReadyTasks;
    var next := FirstUncancelled(Workflow.ReadyTasks(r.workflow), r.cancelled);
    if next.Some? {
      var ensured := EnsureConfiguredEffect(r, next.value);
      if ensured.result.Ok? { AdvanceIsNeverIdle(ensured.next, next.value, ensured.result.value, env); }
    }
  }

  lemma AdvanceIsNeverIdle(r: Runtime, task: Id, operation: Option<Id>, env: Environment)
    ensures AdvanceTask(r, task, operation, env).result != Ok(Idle)
  {
    hide CurrentAttempt, CompleteTask, ClassifyRecovery, Journal.State;
  }
}
