/**
 The journal, a view of durable facts kept beside the store, and the recovery
 classification that reads it.
 */
module JournalModel {
  import opened Prelude
  import opened DurableModel
  import Workflow = WorkflowModel

  datatype JournalError =
    | UnknownOperation(operation: Id)
    | DuplicateIntent(operation: Id)
    | DispatchWithoutIntent(operation: Id)
    | TaskAlreadyOwned(task: Id, existingOperation: Id, attemptedOperation: Id)
    | DuplicateAttempt(operation: Id, attempt: AttemptId)
    | OutcomeBeforeDispatch(operation: Id, attempt: AttemptId)
    | AttemptMismatch(operation: Id, attempt: AttemptId, dispatchedFor: Id)
    | OutcomeConflict(operation: Id, attempt: AttemptId, existing: KnownOutcome, attempted: KnownOutcome)

  datatype Journal = Journal(
    intents: map<Id, EffectIntent>,
    taskOperations: map<Id, Id>,
    dispatches: map<AttemptId, DispatchRecord>,
    operationAttempts: map<Id, seq<AttemptId>>,
    outcomes: map<AttemptId, OutcomeRecord>)
  {
    function AttemptsOf(operation: Id): seq<AttemptId> {
      if operation in operationAttempts then operationAttempts[operation] else []
    }

    function LastAttempt(operation: Id): Option<AttemptId> {
      var attempts := AttemptsOf(operation);
      if attempts == [] then None else Some(attempts[|attempts| - 1])
    }

    function LatestDispatch(operation: Id): Option<DispatchRecord> {
      match LastAttempt(operation)
      case None => None
      case Some(a) => if a in dispatches then Some(dispatches[a]) else None
    }

    function KnownOutcome(operation: Id): Option<OutcomeRecord> {
      match LastAttempt(operation)
      case None => None
      case Some(a) => if a in outcomes then Some(outcomes[a]) else None
    }

    function State(operation: Id): EffectState {
      if operation !in intents then NotPrepared
      else if KnownOutcome(operation).Some? then OutcomeKnown(KnownOutcome(operation).value.outcome)
      else if LatestDispatch(operation).Some? then OutcomeUnknown
      else Prepared
    }
  }

  const Empty := Journal(map[], map[], map[], map[], map[])

  function PersistIntent(j: Journal, i: EffectIntent): Result<Journal, JournalError> {
    if i.operation in j.intents then Err(DuplicateIntent(i.operation))
    else if i.task in j.taskOperations then Err(TaskAlreadyOwned(i.task, j.taskOperations[i.task], i.operation))
    else Ok(j.(taskOperations := j.taskOperations[i.task := i.operation], intents := j.intents[i.operation := i]))
  }

  function PersistDispatch(j: Journal, d: DispatchRecord): Result<Journal, JournalError> {
    if d.operation !in j.intents then Err(DispatchWithoutIntent(d.operation))
    else if d.attempt in j.dispatches then Err(DuplicateAttempt(d.operation, d.attempt))
    else Ok(j.(operationAttempts := j.operationAttempts[d.operation := j.AttemptsOf(d.operation) + [d.attempt]],
               dispatches := j.dispatches[d.attempt := d]))
  }

  function PersistOutcome(j: Journal, o: OutcomeRecord): Result<Journal, JournalError> {
    if o.operation !in j.intents then Err(UnknownOperation(o.operation))
    else if o.attempt !in j.dispatches then Err(OutcomeBeforeDispatch(o.operation, o.attempt))
    else if j.dispatches[o.attempt].operation != o.operation then
      Err(AttemptMismatch(o.operation, o.attempt, j.dispatches[o.attempt].operation))
    else if o.attempt in j.outcomes then
      if j.outcomes[o.attempt].outcome == o.outcome then Ok(j)
      else Err(OutcomeConflict(o.operation, o.attempt, j.outcomes[o.attempt].outcome, o.outcome))
    else Ok(j.(outcomes := j.outcomes[o.attempt := o]))
  }

  /** Intents are read back in operation order. */
  function IntentsInOrder(s: RunState): (r: seq<EffectIntent>)
    ensures |r| == |Ascending(s.intents.Keys)|
    ensures forall i :: 0 <= i < |r| ==>
      Ascending(s.intents.Keys)[i] in s.intents && r[i] == s.intents[Ascending(s.intents.Keys)[i]]
  {
    var keys := Ascending(s.intents.Keys);
    seq(|keys|, i requires 0 <= i < |keys| => assert keys[i] in keys; s.intents[keys[i]])
  }

  function FromDurableState(s: RunState): Result<Journal, JournalError> {
    match Fold(PersistIntent, Empty, IntentsInOrder(s))
    case Err(e) => Err(e)
    case Ok(intended) =>
      match Fold(PersistDispatch, intended, s.dispatchHistory)
      case Err(e) => Err(e)
      case Ok(dispatched) => Fold(PersistOutcome, dispatched, s.outcomeHistory)
  }

  // ---- The journal a run determines ----

  function AttemptsByOperation(history: seq<DispatchRecord>): map<Id, seq<AttemptId>> {
    if history == [] then map[]
    else
      var front, d := AttemptsByOperation(history[..|history| - 1]), history[|history| - 1];
      front[d.operation := (if d.operation in front then front[d.operation] else []) + [d.attempt]]
  }

  /** The journal view of a run, read off its facts without replaying them. */
  function View(s: RunState): Journal {
    Journal(s.intents, s.taskOperations, s.dispatches, AttemptsByOperation(s.dispatchHistory), s.outcomes)
  }

  function MapOf<K, T>(h: seq<T>, key: T -> K): map<K, T> {
    if h == [] then map[] else MapOf(h[..|h| - 1], key)[key(h[|h| - 1]) := h[|h| - 1]]
  }

  ghost predicate Occurs<K, T>(h: seq<T>, key: T -> K, k: K) {
    exists i :: 0 <= i < |h| && key(h[i]) == k
  }

  lemma {:induction false} MapOfDistinct<K, T>(h: seq<T>, key: T -> K)
    requires forall i, j :: 0 <= i < j < |h| ==> key(h[i]) != key(h[j])
    ensures forall i :: 0 <= i < |h| ==> key(h[i]) in MapOf(h, key) && MapOf(h, key)[key(h[i])] == h[i]
    ensures forall k :: k in MapOf(h, key) ==> Occurs(h, key, k)
  {
    if h != [] {
      var front := h[..|h| - 1];
      MapOfDistinct(front, key);
      forall i | 0 <= i < |h| ensures key(h[i]) in MapOf(h, key) && MapOf(h, key)[key(h[i])] == h[i] {
        if i < |front| { assert front[i] == h[i]; }
      }
      forall k | k in MapOf(h, key) ensures Occurs(h, key, k) {
        if k != key(h[|h| - 1]) {
          assert Occurs(front, key, k);
          var i :| 0 <= i < |front| && key(front[i]) == k;
          assert key(h[i]) == k;
        }
      }
    }
  }

  lemma ListsIsMapOf<T>(h: seq<T>, m: map<AttemptId, T>, key: T -> AttemptId)
    requires Lists(h, m, key)
    ensures MapOf(h, key) == m
  {
    MapOfDistinct(h, key);
    forall a | a in MapOf(h, key) ensures a in m { assert Occurs(h, key, a); }
    forall a | a in m ensures a in MapOf(h, key) && MapOf(h, key)[a] == m[a] {
      assert m[a] in h;
    }
  }

  function IntentOperation(i: EffectIntent): Id { i.operation }

  function TasksOf(h: seq<EffectIntent>): map<Id, Id> {
    if h == [] then map[] else TasksOf(h[..|h| - 1])[h[|h| - 1].task := h[|h| - 1].operation]
  }

  ghost predicate OneToOne(h: seq<EffectIntent>) {
    forall i, j :: 0 <= i < j < |h| ==> h[i].operation != h[j].operation && h[i].task != h[j].task
  }

  lemma {:induction false} TasksOfOneToOne(h: seq<EffectIntent>)
    requires OneToOne(h)
    ensures forall i :: 0 <= i < |h| ==> h[i].task in TasksOf(h) && TasksOf(h)[h[i].task] == h[i].operation
    ensures forall t :: t in TasksOf(h) ==> exists i :: 0 <= i < |h| && h[i].task == t
  {
    if h != [] {
      var front := h[..|h| - 1];
      TasksOfOneToOne(front);
      forall i | 0 <= i < |h| ensures h[i].task in TasksOf(h) && TasksOf(h)[h[i].task] == h[i].operation {
        if i < |front| { assert front[i] == h[i]; }
      }
      forall t | t in TasksOf(h) ensures exists i :: 0 <= i < |h| && h[i].task == t {
        if t == h[|h| - 1].task {
        } else {
          var i :| 0 <= i < |front| && front[i].task == t;
          assert h[i].task == t;
        }
      }
    }
  }

  lemma {:induction false} IntentsReplay(h: seq<EffectIntent>)
    requires OneToOne(h)
    ensures Fold(PersistIntent, Empty, h) ==
      Ok(Empty.(intents := MapOf(h, IntentOperation), taskOperations := TasksOf(h)))
  {
    if h != [] {
      var front, last := h[..|h| - 1], h[|h| - 1];
      IntentsReplay(front);
      MapOfDistinct(front, IntentOperation);
      TasksOfOneToOne(front);
      assert last.operation !in MapOf(front, IntentOperation);
      assert last.task !in TasksOf(front);
    }
  }

  lemma OrderedIntents(s: RunState)
    requires Owned(s)
    ensures OneToOne(IntentsInOrder(s))
    ensures forall o :: o in s.intents ==> s.intents[o] in IntentsInOrder(s)
    ensures forall i :: i in IntentsInOrder(s) ==> i.operation in s.intents && s.intents[i.operation] == i
  {
    var h, keys := IntentsInOrder(s), Ascending(s.intents.Keys);
    AscendingIsSorted(s.intents.Keys);
    forall i, j | 0 <= i < j < |h| ensures h[i].operation != h[j].operation && h[i].task != h[j].task {
      assert keys[i] in s.intents && keys[j] in s.intents && keys[i] < keys[j];
      assert s.taskOperations[h[i].task] == keys[i] && s.taskOperations[h[j].task] == keys[j];
    }
    forall o | o in s.intents ensures s.intents[o] in h {
      assert o in keys;
      var i :| 0 <= i < |keys| && keys[i] == o;
      assert h[i] == s.intents[o];
    }
  }

  lemma IntentsInOrderRebuild(s: RunState)
    requires Owned(s)
    ensures Fold(PersistIntent, Empty, IntentsInOrder(s)) ==
      Ok(Empty.(intents := s.intents, taskOperations := s.taskOperations))
  {
    hide IntentsInOrder, PersistIntent;
    var h := IntentsInOrder(s);
    OrderedIntents(s);
    IntentsReplay(h);
    IntentsByOperation(s, h);
    IntentsByTask(s, h);
  }

  lemma IntentsByOperation(s: RunState, h: seq<EffectIntent>)
    requires OneToOne(h)
    requires forall o :: o in s.intents ==> s.intents[o] in h && s.intents[o].operation == o
    requires forall i :: i in h ==> i.operation in s.intents && s.intents[i.operation] == i
    ensures MapOf(h, IntentOperation) == s.intents
  {
    var m := MapOf(h, IntentOperation);
    MapOfDistinct(h, IntentOperation);
    forall o | o in s.intents ensures o in m && m[o] == s.intents[o] {
      assert s.intents[o] in h;
    }
    forall o | o in m ensures o in s.intents {
      var i :| 0 <= i < |h| && IntentOperation(h[i]) == o;
      assert h[i] in h;
    }
  }

  lemma IntentsByTask(s: RunState, h: seq<EffectIntent>)
    requires Owned(s) && OneToOne(h)
    requires forall o :: o in s.intents ==> s.intents[o] in h
    requires forall i :: i in h ==> i.operation in s.intents && s.intents[i.operation] == i
    ensures TasksOf(h) == s.taskOperations
  {
    var m := TasksOf(h);
    TasksOfOneToOne(h);
    forall t | t in s.taskOperations ensures t in m && m[t] == s.taskOperations[t] {
      assert s.intents[s.taskOperations[t]] in h;
    }
    forall t | t in m ensures t in s.taskOperations {
      var i :| 0 <= i < |h| && h[i].task == t;
      assert h[i] in h;
    }
  }

  lemma {:induction false} DispatchesReplay(j: Journal, h: seq<DispatchRecord>)
    requires j.dispatches == map[] && j.operationAttempts == map[]
    requires forall i, k :: 0 <= i < k < |h| ==> h[i].attempt != h[k].attempt
    requires forall i :: 0 <= i < |h| ==> h[i].operation in j.intents
    ensures Fold(PersistDispatch, j, h) ==
            Ok(j.(dispatches := MapOf(h, DispatchAttempt), operationAttempts := AttemptsByOperation(h)))
  {
    if h != [] {
      DispatchesReplay(j, h[..|h| - 1]);
      MapOfDistinct(h[..|h| - 1], DispatchAttempt);
    }
  }

  lemma {:induction false} OutcomesReplay(j: Journal, h: seq<OutcomeRecord>)
    requires j.outcomes == map[]
    requires forall i, k :: 0 <= i < k < |h| ==> h[i].attempt != h[k].attempt
    requires forall i :: 0 <= i < |h| ==>
               && h[i].operation in j.intents && h[i].attempt in j.dispatches
               && j.dispatches[h[i].attempt].operation == h[i].operation
    ensures Fold(PersistOutcome, j, h) == Ok(j.(outcomes := MapOf(h, OutcomeAttempt)))
  {
    if h != [] {
      OutcomesReplay(j, h[..|h| - 1]);
      MapOfDistinct(h[..|h| - 1], OutcomeAttempt);
    }
  }

  /** Rebuilding the journal from a run with sound lineage never fails and gives its view. */
  lemma RebuildIsView(s: RunState)
    requires Lineage(s)
    ensures FromDurableState(s) == Ok(View(s))
  {
    hide PersistIntent, PersistDispatch, PersistOutcome;
    IntentsInOrderRebuild(s);
    var intended := Empty.(intents := s.intents, taskOperations := s.taskOperations);
    HistoriesAreMaps(s);
    DispatchesReplay(intended, s.dispatchHistory);
    var dispatched :=
      intended.(dispatches := s.dispatches, operationAttempts := AttemptsByOperation(s.dispatchHistory));
    OutcomesReplay(dispatched, s.outcomeHistory);
  }

  lemma HistoriesAreMaps(s: RunState)
    requires Lineage(s)
    ensures MapOf(s.dispatchHistory, DispatchAttempt) == s.dispatches
    ensures MapOf(s.outcomeHistory, OutcomeAttempt) == s.outcomes
    ensures forall i :: 0 <= i < |s.dispatchHistory| ==> s.dispatchHistory[i].operation in s.intents
    ensures forall i :: 0 <= i < |s.outcomeHistory| ==>
               && s.outcomeHistory[i].operation in s.intents && s.outcomeHistory[i].attempt in s.dispatches
               && s.dispatches[s.outcomeHistory[i].attempt].operation == s.outcomeHistory[i].operation
    ensures forall i, k :: 0 <= i < k < |s.dispatchHistory| ==>
      s.dispatchHistory[i].attempt != s.dispatchHistory[k].attempt
    ensures forall i, k :: 0 <= i < k < |s.outcomeHistory| ==>
      s.outcomeHistory[i].attempt != s.outcomeHistory[k].attempt
  {
    ListsIsMapOf(s.dispatchHistory, s.dispatches, DispatchAttempt);
    ListsIsMapOf(s.outcomeHistory, s.outcomes, OutcomeAttempt);
    var d, o := s.dispatchHistory, s.outcomeHistory;
    assert forall i, k :: 0 <= i < k < |d| ==> DispatchAttempt(d[i]) != DispatchAttempt(d[k]);
    assert forall i, k :: 0 <= i < k < |o| ==> OutcomeAttempt(o[i]) != OutcomeAttempt(o[k]);
    forall i | 0 <= i < |d| ensures d[i].operation in s.intents {
      assert DispatchAttempt(d[i]) in s.dispatches && s.dispatches[d[i].attempt] == d[i];
    }
    forall i | 0 <= i < |o|
      ensures o[i].operation in s.intents && o[i].attempt in s.dispatches
      ensures s.dispatches[o[i].attempt].operation == o[i].operation
    {
      assert OutcomeAttempt(o[i]) in s.outcomes && s.outcomes[o[i].attempt] == o[i];
    }
  }

  // ---- Queries agree ----

  lemma {:induction false} LastAttemptIsLatest(h: seq<DispatchRecord>, operation: Id)
    ensures match LastFor(h, operation)
            case None => operation !in AttemptsByOperation(h)
            case Some(d) =>
              && operation in AttemptsByOperation(h) && AttemptsByOperation(h)[operation] != []
              && AttemptsByOperation(h)[operation][|AttemptsByOperation(h)[operation]| - 1] == d.attempt
  {
    if h != [] && h[|h| - 1].operation != operation {
      LastAttemptIsLatest(h[..|h| - 1], operation);
    }
  }

  /** The view answers every query as the run does. */
  lemma ViewAgrees(s: RunState, operation: Id)
    requires Lineage(s)
    ensures View(s).LatestDispatch(operation) == s.LatestDispatch(operation)
    ensures View(s).KnownOutcome(operation) == s.LatestOutcome(operation)
    ensures View(s).State(operation) == s.EffectState(operation)
  {
    hide Linked, AttemptsByOperation;
    LastAttemptIsLatest(s.dispatchHistory, operation);
    if s.LatestDispatch(operation).Some? {
      LatestIsListed(s, operation);
    }
  }

  // ---- Incremental updates ----

  /** Intents the journal accepts the store accepts, and the two updates agree. */
  lemma IntentsAgree(s: RunState, i: EffectIntent)
    requires PersistIntent(View(s), i).Ok?
    ensures Intend(s, i).Ok? && View(Intend(s, i).value) == PersistIntent(View(s), i).value
  {
  }

  lemma DispatchesAgree(s: RunState, d: DispatchRecord)
    requires PersistDispatch(View(s), d).Ok? && Dispatch(s, d).Ok?
    ensures View(Dispatch(s, d).value) == PersistDispatch(View(s), d).value
  {
    assert (s.dispatchHistory + [d])[..|s.dispatchHistory|] == s.dispatchHistory;
  }

  /** Outcomes the journal accepts the store accepts, and the two updates agree. */
  lemma OutcomesAgree(s: RunState, o: OutcomeRecord)
    requires Lineage(s) && PersistOutcome(View(s), o).Ok?
    ensures Resolve(s, o).Ok? && View(Resolve(s, o).value) == PersistOutcome(View(s), o).value
  {
    assert s.dispatches[o.attempt].operation == o.operation;
  }

  // ---- Recovery ----

  datatype RecoveryAction =
    | ExecuteEffect | RetrySameOperation | CompleteWithoutReexecution | Reconcile
    | NoAction | ObserveFailure | InvariantViolated

  datatype RecoveryReason =
    | PreparedNotDispatched(operation: Id)
    | IdempotentOutcomeUnknown(operation: Id, attempt: AttemptId)
    | NonIdempotentOutcomeUnknown(operation: Id, attempt: AttemptId)
    | KnownSuccess(operation: Id, attempt: AttemptId)
    | KnownFailure(operation: Id, attempt: AttemptId)
    | WorkflowAlreadyCompleted(operation: Id, task: Id)
    | WorkflowStateMismatch(operation: Id, task: Id, state: EffectState)
    | OperationNotPrepared(operation: Id)

  datatype RecoveryDecision = RecoveryDecision(action: RecoveryAction, reason: RecoveryReason)

  function InvariantDecision(operation: Id, intent: EffectIntent, state: EffectState): RecoveryDecision {
    RecoveryDecision(InvariantViolated, WorkflowStateMismatch(operation, intent.task, state))
  }

  function ClassifyRecovery(g: Workflow.Graph, j: Journal, operation: Id): Result<RecoveryDecision, JournalError> {
    if operation !in j.intents then Err(UnknownOperation(operation))
    else
      var intent, state := j.intents[operation], j.State(operation);
      var completed := intent.task in g.completed;
      if intent.task !in g.topology.tasks then Ok(InvariantDecision(operation, intent, state))
      else match state
           case Prepared =>
             Ok(if completed then InvariantDecision(operation, intent, state)
                else RecoveryDecision(ExecuteEffect, PreparedNotDispatched(operation)))
           case OutcomeUnknown =>
             var attempt := j.LatestDispatch(operation).value.attempt;
             Ok(if completed then InvariantDecision(operation, intent, state)
                else if intent.semantics == Idempotent then
                  RecoveryDecision(RetrySameOperation, IdempotentOutcomeUnknown(operation, attempt))
                else RecoveryDecision(Reconcile, NonIdempotentOutcomeUnknown(operation, attempt)))
           case OutcomeKnown(outcome) =>
             var attempt := j.KnownOutcome(operation).value.attempt;
             Ok(match (outcome, completed)
                case (Succeeded, true) => RecoveryDecision(NoAction, WorkflowAlreadyCompleted(operation, intent.task))
                case (Succeeded, false) =>
                  RecoveryDecision(CompleteWithoutReexecution, KnownSuccess(operation, attempt))
                case (Failed, true) => InvariantDecision(operation, intent, state)
                case (Failed, false) => RecoveryDecision(ObserveFailure, KnownFailure(operation, attempt)))
           case NotPrepared => Ok(RecoveryDecision(InvariantViolated, OperationNotPrepared(operation)))
  }

  /** A recorded operation is reported contradictory exactly when its task is absent, or complete without a success. */
  lemma ViolationIsExact(g: Workflow.Graph, j: Journal, operation: Id)
    requires operation in j.intents
    ensures var d := ClassifyRecovery(g, j, operation);
            && d.Ok?
            && (d.value.action == InvariantViolated <==>
                  || j.intents[operation].task !in g.topology.tasks
                  || (j.intents[operation].task in g.completed && j.State(operation) != OutcomeKnown(Succeeded)))
  {
  }
}
