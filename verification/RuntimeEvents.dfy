/** Lifecycle events, and what beginning and completing a task do when there is room and when there is none. */
module RuntimeEvents {
  import opened Prelude
  import opened DurableModel
  import opened JournalModel
  import opened StoreProtocol
  import opened RuntimeModel
  import opened RuntimeSafety
  import opened RuntimeCalls
  import Commits = DurableCommits
  import Workflow = WorkflowModel

  /** The stream can number one more event and the buffer can take it. */
  predicate Roomy(r: Runtime) {
    !r.sequencer.exhausted && |r.events| < EVENT_CAPACITY
  }

  /** Everything but the event stream is as before. */
  ghost predicate OnlyEvents(r: Runtime, n: Runtime) {
    n == r.(sequencer := n.sequencer, events := n.events)
  }

  /** The next number is used up; after the largest one no number is left. */
  ghost predicate Numbers(before: Sequencer, after: Sequencer) {
    && (before.next < U64_MAX ==> after.next == before.next + 1 && after.exhausted == before.exhausted)
    && (before.next >= U64_MAX ==> after.exhausted)
  }

  /** The event is the last one buffered, under the next number. */
  ghost predicate Announced(r: Runtime, n: Runtime, e: Event) {
    Numbers(r.sequencer, n.sequencer) && n.events == r.events + [Item(r.sequencer.next, e)]
  }

  lemma EmitIsExact(r: Runtime, e: Event)
    ensures var d := EmitEvent(r, e);
            && OnlyEvents(r, d.next)
            && (d.result.Ok? <==> Roomy(r))
            && (d.result.Ok? ==> Announced(r, d.next, e))
            && (d.result.Err? ==> d.next.events == r.events)
            && (r.sequencer.exhausted ==> d == Step(r, Err(StreamExhausted)))
            && (!r.sequencer.exhausted && !Roomy(r) ==>
                  && Numbers(r.sequencer, d.next.sequencer)
                  && d.result == Err(ExecutionBackpressure(Item(r.sequencer.next, e))))
  {
  }

  // ---- Completion ----

  /** The task is complete and everything else of the workflow is as before. */
  ghost predicate Completes(g: Workflow.Graph, h: Workflow.Graph, task: Id) {
    && task !in g.completed && h.completed == g.completed + {task} && h.completionLog == g.completionLog + [task]
    && h.topology == g.topology && h.revision == g.revision && h.mutationLog == g.mutationLog
  }

  predicate Completable(g: Workflow.Graph, task: Id) {
    task in g.topology.tasks && task !in g.completed && g.topology.DependenciesOf(task) <= g.completed
  }

  lemma CompletionIsExact(r: Runtime, task: Id, attempt: AttemptId)
    ensures var d := CompleteTask(r, task, attempt);
            && SameDurable(r, d.next) && d.next.configs == r.configs
            && (!Completable(r.workflow, task) ==> d.next == r && d.result.Err? && d.result.error.WorkflowFailure?)
            && (Completable(r.workflow, task) ==> Completes(r.workflow, d.next.workflow, task))
            && (d.result.Ok? <==> Completable(r.workflow, task) && Roomy(r))
            && (d.result.Ok? ==> Announced(r, d.next, TaskCompleted(r.run, task, attempt)))
            && (d.result.Err? ==> d.next.events == r.events)
  {
    var needs := r.workflow.topology.DependenciesOf(task);
    assert needs - r.workflow.completed == {} <==> needs <= r.workflow.completed by {
      assert forall y :: y in needs && y !in r.workflow.completed ==> y in needs - r.workflow.completed;
    }
    if Workflow.Complete(r.workflow, task).Ok? {
      EmitIsExact(r.(workflow := Workflow.Complete(r.workflow, task).value), TaskCompleted(r.run, task, attempt));
    }
  }

  // ---- Attempts ----

  /** The attempt the runtime would begin. */
  function NextAttempt(r: Runtime, task: Id, operation: Option<Id>, capabilities: seq<Id>): Attempt {
    Attempt(r.run, task, Numbered(r.run, r.nextAttempt), operation, capabilities)
  }

  /** The attempt is on record with everything it was begun for, and no effect fact has changed. */
  ghost predicate Admits(r: Runtime, n: Runtime, a: Attempt) {
    && Commits.Adds(Head(r).admissions, Head(n).admissions, a.attempt, AdmissionOf(a))
    && Head(n).admissionHistory == Head(r).admissionHistory + [AdmissionOf(a)]
    && SameEffects(Head(r), Head(n)) && Head(n).revision == Head(r).revision + 1
    && n.workflow == r.workflow && n.journal == r.journal && n.cancelled == r.cancelled
    && n.nextAttempt == r.nextAttempt + 1
  }

  /** What the store needs to admit one more attempt under a number that has a successor. */
  ghost predicate Admissible(r: Runtime, env: Environment, task: Id) {
    env(task).Pinned? && Head(r).revision < U64_MAX && r.nextAttempt < U64_MAX
  }

  /**
   An attempt begins exactly when capabilities can be pinned, a revision and a
   number are left and its event can be announced. With a full buffer it is
   admitted all the same and held back with its event.
   */
  lemma BeginIsExact(r: Runtime, task: Id, operation: Option<Id>, env: Environment)
    requires Safe(r)
    ensures var d := BeginAttempt(r, task, operation, env);
            && (d.result.Ok? <==> Admissible(r, env, task) && Roomy(r))
            && (env(task).Unavailable? ==> d == Step(r, Err(CapabilityFailure(task))))
            && (Admissible(r, env, task) && !r.sequencer.exhausted ==>
                  var a := NextAttempt(r, task, operation, env(task).capabilities);
                  var item := Item(r.sequencer.next, TaskStarted(r.run, task, a.attempt));
                  && Admits(r, d.next, a) && Numbers(r.sequencer, d.next.sequencer)
                  && (if Roomy(r) then
                        && d.result == Ok(a.attempt) && d.next.attempts == r.attempts + [a]
                        && d.next.pending == r.pending
                        && d.next.events == r.events + [item]
                      else
                        && d.result == Err(ExecutionBackpressure(item)) && d.next.pending == Some(Pending(a, item))
                        && d.next.attempts == r.attempts && d.next.events == r.events))
  {
    hide CommitRun, Protected, CommitDurable, EmitEvent, Agrees, Workflow.Valid, SameEffects, Commits.Adds, Numbers;
    if env(task).Unavailable? { return; }
    var a := NextAttempt(r, task, operation, env(task).capabilities);
    var m := AdmitAttempt(AdmissionOf(a));
    var c := CommitDurable(r, KeyOf(m), m);
    CommitAdvances(r, m);
    if r.nextAttempt < U64_MAX {
      AdmissionAdds(Head(r), m.admission);
      EmitIsExact(c.next.(nextAttempt := r.nextAttempt + 1), TaskStarted(r.run, task, a.attempt));
      if c.result.Ok? { AdmissionKeepsEffects(Head(r), m.admission); }
    }
  }

  /** A freshly numbered admission is accepted while a revision is left, and adds one entry. */
  lemma AdmissionAdds(s: RunState, a: Admission)
    requires Protected(s) && a.run == s.run && a.attempt == Numbered(s.run, NextNumber(s)) && NextNumber(s) < U64_MAX
    ensures CommitRun(s, RequestFor(s, AdmitAttempt(a))).Ok? <==> s.revision < U64_MAX
    ensures s.revision < U64_MAX ==>
              var t := Advance(s, AdmitAttempt(a));
              && Commits.Adds(s.admissions, t.admissions, a.attempt, a)
              && t.admissionHistory == s.admissionHistory + [a] && t.revision == s.revision + 1
  {
    hide Lineage, AtMostOnce, Commits.Adds;
    NextNumberIsUnused(s);
    FoldSingle(s, AdmitAttempt(a));
    Commits.AddedEntry(s.admissions, a.attempt, a);
  }

  /**
   An attempt held back for want of room ends as if there had been room: draining
   the events and delivering the held one gives the state a beginning after the
   draining would have given.
   */
  lemma BackpressureIsHarmless(r: Runtime, task: Id, operation: Option<Id>, env: Environment, item: Item)
    requires r.pending.None? && BeginAttempt(r, task, operation, env).result.Err?
    requires BeginAttempt(r, task, operation, env).result.error.ExecutionBackpressure?
    ensures var held := BeginAttempt(r, task, operation, env).next;
            var begun := BeginAttempt(DrainExecutionEvents(r), task, operation, env);
            && RetryExecutionEvent(DrainExecutionEvents(held), item) == Step(begun.next, Ok(()))
            && begun.result == Ok(Numbered(r.run, r.nextAttempt))
  {
    hide Commit;
  }

  /**
   Delivering an event takes the held one first, whatever item is offered, and with it
   its attempt; without a held one the offered item is taken. Either needs room.
   */
  lemma DeliveryIsExact(r: Runtime, item: Item)
    ensures var d := RetryExecutionEvent(r, item);
            && (d.result.Ok? <==> |r.events| < EVENT_CAPACITY)
            && (d.result.Err? ==>
                  d == Step(r, Err(ExecutionBackpressure(if r.pending.Some? then r.pending.value.item else item))))
            && (d.result.Ok? ==>
                  && d.next == r.(pending := None, events := d.next.events, attempts := d.next.attempts)
                  && if r.pending.Some? then
                       && d.next.events == r.events + [r.pending.value.item]
                       && d.next.attempts == r.attempts + [r.pending.value.attempt]
                     else d.next.events == r.events + [item] && d.next.attempts == r.attempts)
  {
  }

  // ---- The attempt of a task ----

  /** The attempts this process knows, in the order they were begun; a held one is the last. */
  function Known(r: Runtime): seq<Attempt> {
    r.attempts + if r.pending.Some? then [r.pending.value.attempt] else []
  }

  /** The newest of these attempts for the task and the operation. */
  ghost predicate Newest(known: seq<Attempt>, task: Id, operation: Option<Id>, i: int) {
    && 0 <= i < |known| && known[i].task == task && known[i].operation == operation
    && forall j :: i < j < |known| ==> known[j].task != task || known[j].operation != operation
  }

  lemma NewestInFront(front: seq<Attempt>, a: Attempt, task: Id, operation: Option<Id>, i: int)
    requires !Matches(a, task, operation)
    ensures Newest(front + [a], task, operation, i) <==> Newest(front, task, operation, i)
  {
    var all := front + [a];
    assert forall j :: 0 <= j < |front| ==> all[j] == front[j];
  }

  lemma {:induction false} LastMatchingIsNewest(attempts: seq<Attempt>, task: Id, operation: Option<Id>)
    ensures match LastMatching(attempts, task, operation)
            case None => forall i :: !Newest(attempts, task, operation, i)
            case Some(a) => exists i :: Newest(attempts, task, operation, i) && attempts[i].attempt == a
  {
    if attempts != [] && !Matches(attempts[|attempts| - 1], task, operation) {
      var front := attempts[..|attempts| - 1];
      LastMatchingIsNewest(front, task, operation);
      assert attempts == front + [attempts[|front|]];
      hide LastMatching;
      forall i ensures Newest(attempts, task, operation, i) <==> Newest(front, task, operation, i) {
        NewestInFront(front, attempts[|front|], task, operation, i);
      }
    } else if attempts != [] {
      assert Newest(attempts, task, operation, |attempts| - 1);
    }
  }

  /** The attempt of a task is the newest known one with exactly its operation, held back or not. */
  lemma KnownAttemptIsExact(r: Runtime, task: Id, operation: Option<Id>)
    ensures match AttemptForTask(r, task, operation)
            case None => forall i :: !Newest(Known(r), task, operation, i)
            case Some(a) => exists i :: Newest(Known(r), task, operation, i) && Known(r)[i].attempt == a
  {
    hide Newest;
    LastMatchingIsNewest(Known(r), task, operation);
    if r.pending.Some? {
      assert Known(r)[..|Known(r)| - 1] == r.attempts;
    } else {
      assert Known(r) == r.attempts;
    }
  }
}
