/** Which recovery decision is taken, from the facts of the stored run alone. */
module RecoveryDecisions {
  import opened Prelude
  import opened DurableModel
  import opened JournalModel
  import opened StoreProtocol
  import opened RuntimeModel
  import opened RuntimeSafety
  import opened RuntimeCalls
  import opened RuntimeEvents
  import Workflow = WorkflowModel

  // ---- Effect states in terms of the history ----

  ghost predicate LatestAt(h: seq<DispatchRecord>, operation: Id, a: AttemptId, i: int) {
    0 <= i < |h| && h[i] == DispatchRecord(operation, a) && forall j :: i < j < |h| ==> h[j].operation != operation
  }

  /** The last dispatch of the operation used this attempt. */
  ghost predicate Latest(s: RunState, operation: Id, a: AttemptId) {
    exists i :: LatestAt(s.dispatchHistory, operation, a, i)
  }

  ghost predicate NeverDispatched(s: RunState, operation: Id) {
    forall d :: d in s.dispatchHistory ==> d.operation != operation
  }

  ghost predicate Unanswered(s: RunState, operation: Id, a: AttemptId) {
    Latest(s, operation, a) && a !in s.outcomes
  }

  ghost predicate Answered(s: RunState, operation: Id, a: AttemptId, o: KnownOutcome) {
    Latest(s, operation, a) && a in s.outcomes && s.outcomes[a].outcome == o
  }

  lemma {:induction false} LastForIsExact(h: seq<DispatchRecord>, operation: Id)
    ensures LastFor(h, operation).None? <==> forall d :: d in h ==> d.operation != operation
    ensures forall a :: LastFor(h, operation) == Some(DispatchRecord(operation, a)) <==>
              exists i :: LatestAt(h, operation, a, i)
  {
    if h != [] {
      var front, last := h[..|h| - 1], h[|h| - 1];
      LastForIsExact(front, operation);
      forall a
        ensures LastFor(h, operation) == Some(DispatchRecord(operation, a)) <==>
          exists i :: LatestAt(h, operation, a, i)
      {
        if last.operation == operation {
          if last.attempt == a { assert LatestAt(h, operation, a, |h| - 1); }
        } else {
          assert forall i :: LatestAt(h, operation, a, i) <==> LatestAt(front, operation, a, i);
        }
      }
      forall d | d in front ensures d in h { }
    }
  }

  /** At most one attempt is the latest, and the effect state says what is known of it. */
  lemma StateIsHistory(s: RunState, operation: Id)
    requires operation in s.intents
    ensures s.EffectState(operation) == Prepared <==> NeverDispatched(s, operation)
    ensures s.EffectState(operation) == OutcomeUnknown <==> exists a :: Unanswered(s, operation, a)
    ensures forall o :: s.EffectState(operation) == OutcomeKnown(o) <==> exists a :: Answered(s, operation, a, o)
    ensures forall a, b :: Latest(s, operation, a) && Latest(s, operation, b) ==> a == b
    ensures forall a :: Latest(s, operation, a) <==> s.LatestDispatch(operation) == Some(DispatchRecord(operation, a))
  {
    hide LastFor;
    LastForIsExact(s.dispatchHistory, operation);
    if s.LatestDispatch(operation).Some? {
      var a := s.LatestDispatch(operation).value.attempt;
      assert Latest(s, operation, a);
      if a in s.outcomes {
        assert Answered(s, operation, a, s.outcomes[a].outcome);
      } else {
        assert Unanswered(s, operation, a);
      }
    }
  }

  // ---- Decisions ----

  ghost predicate Unfinished(g: Workflow.Graph, s: RunState, operation: Id)
    requires operation in s.intents
  {
    s.intents[operation].task in g.topology.tasks && s.intents[operation].task !in g.completed
  }

  ghost predicate Finished(g: Workflow.Graph, s: RunState, operation: Id)
    requires operation in s.intents
  {
    s.intents[operation].task in g.topology.tasks && s.intents[operation].task in g.completed
  }

  /** What has to be on record for a decision and the reason it gives. */
  ghost predicate Justified(g: Workflow.Graph, s: RunState, operation: Id, d: RecoveryDecision)
    requires operation in s.intents
  {
    var i := s.intents[operation];
    match d.reason
    case PreparedNotDispatched(o) =>
      d.action == ExecuteEffect && o == operation && Unfinished(g, s, o) && NeverDispatched(s, o)
    case IdempotentOutcomeUnknown(o, a) =>
      && d.action == RetrySameOperation && o == operation && Unfinished(g, s, o)
      && Unanswered(s, o, a) && i.semantics == Idempotent
    case NonIdempotentOutcomeUnknown(o, a) =>
      && d.action == Reconcile && o == operation && Unfinished(g, s, o)
      && Unanswered(s, o, a) && i.semantics == NonIdempotent
    case KnownSuccess(o, a) =>
      d.action == CompleteWithoutReexecution && o == operation && Unfinished(g, s, o) && Answered(s, o, a, Succeeded)
    case KnownFailure(o, a) =>
      d.action == ObserveFailure && o == operation && Unfinished(g, s, o) && Answered(s, o, a, KnownOutcome.Failed)
    case WorkflowAlreadyCompleted(o, task) =>
      && d.action == NoAction && o == operation && task == i.task && Finished(g, s, o)
      && exists a :: Answered(s, o, a, Succeeded)
    case WorkflowStateMismatch(o, task, state) =>
      && d.action == InvariantViolated && o == operation && task == i.task && state == s.EffectState(o)
      && (task !in g.topology.tasks || (task in g.completed && !exists a :: Answered(s, o, a, Succeeded)))
    case OperationNotPrepared(_) => false
  }

  /**
   For every recorded operation the decision, with its reason, is the one the
   history of dispatches, the outcomes, the semantics and the workflow justify.
   */
  lemma DecisionIsExact(g: Workflow.Graph, s: RunState, operation: Id, d: RecoveryDecision)
    requires Lineage(s) && operation in s.intents
    ensures ClassifyRecovery(g, View(s), operation) == Ok(d) <==> Justified(g, s, operation, d)
  {
    hide Listed, Owned, LastFor, AttemptsByOperation, Latest, NeverDispatched, Journal.State, Journal.LatestDispatch,
      Journal.KnownOutcome, Workflow.Topology.CyclePath;
    ViewAgrees(s, operation);
    StateIsHistory(s, operation);
    if s.LatestDispatch(operation).Some? {
      LatestIsListed(s, operation);
      assert Latest(s, operation, s.LatestDispatch(operation).value.attempt);
      if s.LatestOutcome(operation).Some? { OutcomeIsForLatest(s, operation); }
    }
  }

  lemma OutcomeIsForLatest(s: RunState, operation: Id)
    requires Lineage(s) && s.LatestOutcome(operation).Some?
    ensures s.LatestDispatch(operation).Some?
    ensures s.LatestOutcome(operation).value.attempt == s.LatestDispatch(operation).value.attempt
  {
    var a := s.LatestDispatch(operation).value.attempt;
    assert OutcomeAttempt(s.outcomes[a]) == a;
  }

  /**
   For every safe state: an operation is to be executed or repeated exactly when
   the guard of a dispatch holds and its task is still to be done.
   */
  lemma ExecutionIsDispatch(r: Runtime, operation: Id)
    requires Safe(r) && operation in Head(r).intents
    ensures var d := ClassifyRecovery(r.workflow, r.journal, operation);
            && d.Ok?
            && (d.value.action in {ExecuteEffect, RetrySameOperation} <==>
                  MayDispatch(Head(r), operation) && Unfinished(r.workflow, Head(r), operation))
  {
    hide Protected, Workflow.Valid, Agrees, Attempted, View, Journal.State, RunState.EffectState;
    JournalStateIsEffectState(r, operation);
  }

  /**
   Recovery reports the justified decision. It changes the workflow only for a known
   success whose task can be completed, and then announces that completion.
   */
  lemma RecoverIsExact(r: Runtime, operation: Id, d: RecoveryDecision)
    requires Safe(r) && operation in Head(r).intents && Justified(r.workflow, Head(r), operation, d)
    ensures var done, task := Recover(r, operation), Head(r).intents[operation].task;
            if d.action != CompleteWithoutReexecution then done == Step(r, Ok(d))
            else
              && SameDurable(r, done.next) && done.next.configs == r.configs
              && (!Completable(r.workflow, task) ==> done.next == r)
              && (Completable(r.workflow, task) ==> Completes(r.workflow, done.next.workflow, task))
              && (done.result.Ok? <==> Completable(r.workflow, task) && Roomy(r))
              && (done.result.Ok? ==>
                    && d.reason.KnownSuccess? && done.result == Ok(d)
                    && Announced(r, done.next, TaskCompleted(r.run, task, d.reason.attempt)))
  {
    hide Protected, Agrees, Attempted, Workflow.Valid, View, Journal.State, Journal.KnownOutcome, ClassifyRecovery,
      CompleteTask, Completes, Announced, Latest, RunState.EffectState, RunState.LatestOutcome, RunState.LatestDispatch;
    SafeLineage(r);
    DecisionIsExact(r.workflow, Head(r), operation, d);
    JournalStateIsEffectState(r, operation);
    if d.action == CompleteWithoutReexecution {
      KnownSuccessOutcome(Head(r), operation, d.reason.attempt);
      CompletionIsExact(r, Head(r).intents[operation].task, d.reason.attempt);
    }
  }

  lemma SafeLineage(r: Runtime)
    requires Safe(r)
    ensures Lineage(Head(r)) && r.journal == View(Head(r)) && Coupled(r)
  {
  }

  lemma KnownSuccessOutcome(s: RunState, operation: Id, a: AttemptId)
    requires Lineage(s) && operation in s.intents && Answered(s, operation, a, Succeeded)
    ensures s.LatestOutcome(operation).Some? && s.LatestOutcome(operation).value.attempt == a
  {
    hide Listed, Owned, Linked, LastFor, Latest;
    StateIsHistory(s, operation);
    OutcomeIsForLatest(s, operation);
  }

  /** An operation that is not recorded is unknown to recovery, and nothing changes. */
  lemma UnrecordedIsUnknown(r: Runtime, operation: Id)
    requires Safe(r)
    ensures Recover(r, operation) == Step(r, Err(JournalFailure(UnknownOperation(operation)))) <==>
              operation !in Head(r).intents
  {
    hide Protected, Agrees, Attempted, Workflow.Valid, Workflow.Complete, Journal.State, View;
    JournalStateIsEffectState(r, operation);
  }
}
