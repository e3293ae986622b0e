/** What the calls of the effect protocol put on record, and exactly when they do. */
module EffectRecords {
  import opened Prelude
  import opened DurableModel
  import opened JournalModel
  import opened StoreProtocol
  import opened RuntimeModel
  import opened RuntimeSafety
  import opened RuntimeCalls
  import opened RuntimeEvents
  import Commits = DurableCommits
  import Workflow = WorkflowModel

  // ---- Commits of one mutation ----

  /** An accepted commit under a fresh key records its mutation and nothing else. */
  lemma FreshCommitRecords(s: RunState, m: Mutation)
    requires Protected(s) && KeyOf(m) !in s.idempotency
    ensures CommitRun(s, RequestFor(s, m)).Ok? <==> s.revision < U64_MAX && Commits.Acceptable(s, m)
    ensures CommitRun(s, RequestFor(s, m)).Ok? ==>
              && Commits.Records(s, Advance(s, m).(revision := s.revision, idempotency := s.idempotency), m)
              && Advance(s, m).revision == s.revision + 1
  {
    hide ApplyMutation, Lineage, AtMostOnce, Commits.Records, Commits.Acceptable;
    FoldSingle(s, m);
    Commits.MutationIsExact(s, m);
    if CommitRun(s, RequestFor(s, m)).Ok? {
      AdvanceCases(s, m);
      Commits.MutationRecords(s, m);
      RecordsFrame(s, ApplyMutation(s, m).value, m, Advance(s, m));
    }
  }

  lemma RecordsFrame(s: RunState, t: RunState, m: Mutation, u: RunState)
    requires Commits.Records(s, t, m) && Facts(t) == Facts(u)
    ensures Commits.Records(s, u.(revision := s.revision, idempotency := s.idempotency), m)
  {
    hide Commits.Adds;
    assert u == t.(revision := u.revision, idempotency := u.idempotency);
  }

  lemma KeyIsFresh(s: RunState, m: Mutation)
    requires Keyed(s) && !Present(s, m)
    requires match m {
               case RecordIntent(i) => i.operation !in s.intents
               case RecordDispatch(d) => d.attempt !in s.dispatches
               case RecordOutcome(o) => o.attempt !in s.outcomes
               case RecordCancellation(c) => c.task !in s.cancellations
               case AdmitAttempt(a) => a.attempt !in s.admissions
             }
    ensures KeyOf(m) !in s.idempotency
  {
  }

  /** The store holds what the mutation says, no other fact is new, and the rest of the runtime is as before. */
  ghost predicate Recorded(r: Runtime, n: Runtime, m: Mutation) {
    && n == r.(runs := n.runs, revision := n.revision, journal := n.journal, cancelled := n.cancelled)
    && Commits.Records(Head(r), Head(n).(revision := Head(r).revision, idempotency := Head(r).idempotency), m)
  }

  lemma CommitIsRecorded(r: Runtime, m: Mutation)
    requires Coupled(r) && Guard(Head(r), m) && KeyOf(m) !in Head(r).idempotency
    ensures var c := CommitDurable(r, KeyOf(m), m);
            && (c.result.Ok? <==> Head(r).revision < U64_MAX && Commits.Acceptable(Head(r), m))
            && (c.result.Ok? ==> Recorded(r, c.next, m) && Head(c.next).revision == Head(r).revision + 1)
            && (c.result.Err? ==> c.next == r)
  {
    hide CommitRun, CommitDurable, Lineage, Keyed, AtMostOnce, Commits.Records, Commits.Acceptable;
    CommitAdvances(r, m);
    FreshCommitRecords(Head(r), m);
  }

  lemma RecordedFrame(r: Runtime, c: Runtime, n: Runtime, m: Mutation)
    requires Recorded(r, c, m) && n == c.(journal := n.journal, cancelled := n.cancelled)
    ensures Recorded(r, n, m) && Head(n) == Head(c)
  {
    hide Commits.Records;
  }

  lemma SafeParts(r: Runtime)
    requires Safe(r)
    ensures Coupled(r) && Keyed(Head(r)) && Lineage(Head(r)) && r.journal == View(Head(r))
    ensures r.cancelled == Head(r).cancellations.Keys && r.run in r.runs && Head(r).run == r.run
  {
  }

  // ---- Intents ----

  /**
   An intent is recorded exactly when its task is known and not complete, neither
   the operation nor the task is taken, and a revision is left. Store and journal
   then hold exactly what the caller named, and the operation is prepared.
   */
  lemma IntentIsRecorded(r: Runtime, task: Id, operation: Id, semantics: Semantics)
    requires Safe(r)
    ensures var d, s := RecordEffectIntent(r, task, operation, semantics), Head(r);
            && (d.result.Ok? <==>
                  && task in r.workflow.topology.tasks && task !in r.workflow.completed
                  && operation !in s.intents && task !in s.taskOperations && s.revision < U64_MAX)
            && (d.result.Err? ==> d.next == r)
            && (d.result.Ok? ==>
                  && Recorded(r, d.next, RecordIntent(EffectIntent(task, operation, semantics)))
                  && d.next.journal.intents == Head(d.next).intents
                  && Head(d.next).EffectState(operation) == Prepared)
  {
    hide CommitDurable, Protected, Agrees, Attempted, Workflow.Valid, Recorded, Follows;
    SafeParts(r);
    RecordEffectIntentSafe(r, task, operation, semantics);
    var i := EffectIntent(task, operation, semantics);
    var m := RecordIntent(i);
    if operation !in Head(r).intents && task !in Head(r).taskOperations {
      KeyIsFresh(Head(r), m);
      CommitIsRecorded(r, m);
      var c := CommitDurable(r, KeyOf(m), m);
      var d := RecordEffectIntent(r, task, operation, semantics);
      if d.result.Ok? {
        RecordedFrame(r, c.next, d.next, m);
        NewIntentIsPrepared(r, d.next, i);
      }
    }
  }

  lemma NewIntentIsPrepared(r: Runtime, n: Runtime, i: EffectIntent)
    requires Lineage(Head(r)) && Recorded(r, n, RecordIntent(i)) && i.operation !in Head(r).intents
    ensures Head(n).EffectState(i.operation) == Prepared
  {
    hide Owned;
    if Head(r).LatestDispatch(i.operation).Some? { LatestIsListed(Head(r), i.operation); }
  }

  // ---- Outcomes ----

  /**
   An outcome is recorded exactly when the attempt was dispatched for the operation
   and no other outcome of it is known, while a revision is left or the same one is
   repeated. The store then holds, for that attempt, the outcome the caller gave, and
   every other outcome is as before; for the latest dispatch it is the effect's state.
   */
  lemma OutcomeIsRecorded(r: Runtime, operation: Id, attempt: AttemptId, outcome: KnownOutcome)
    requires Safe(r)
    ensures var d, s := RecordEffectOutcome(r, operation, attempt, outcome), Head(r);
            && (d.result.Ok? <==>
                  && attempt in s.dispatches && s.dispatches[attempt].operation == operation
                  && if attempt in s.outcomes then s.outcomes[attempt].outcome == outcome else s.revision < U64_MAX)
            && (d.result.Err? ==> d.next == r)
            && (d.result.Ok? && attempt in s.outcomes ==> d.next == r)
            && (d.result.Ok? && attempt !in s.outcomes ==>
                  && Recorded(r, d.next, RecordOutcome(OutcomeRecord(operation, attempt, outcome)))
                  && d.next.journal.outcomes == Head(d.next).outcomes)
            && (d.result.Ok? && s.LatestDispatch(operation) == Some(DispatchRecord(operation, attempt)) ==>
                  Head(d.next).EffectState(operation) == OutcomeKnown(outcome))
  {
    hide CommitDurable, Protected, Agrees, Attempted, Workflow.Valid, Recorded, Follows;
    SafeParts(r);
    RecordEffectOutcomeSafe(r, operation, attempt, outcome);
    var o := OutcomeRecord(operation, attempt, outcome);
    var m := RecordOutcome(o);
    var d := RecordEffectOutcome(r, operation, attempt, outcome);
    if attempt in Head(r).dispatches { DispatchedIsAdmitted(Head(r), attempt); }
    if attempt !in Head(r).outcomes {
      KeyIsFresh(Head(r), m);
      CommitIsRecorded(r, m);
      if d.result.Ok? {
        RecordedFrame(r, CommitDurable(r, KeyOf(m), m).next, d.next, m);
        RecordedOutcome(r, d.next, o);
      }
    } else if attempt in Head(r).dispatches && Head(r).dispatches[attempt].operation == operation {
      RepeatedOutcome(r, o);
    }
    if d.result.Ok? && Head(r).LatestDispatch(operation) == Some(DispatchRecord(operation, attempt)) {
      LatestOutcomeIsKnown(r, d.next, o);
    }
  }

  lemma DispatchedIsAdmitted(s: RunState, attempt: AttemptId)
    requires Lineage(s) && attempt in s.dispatches
    ensures var operation := s.dispatches[attempt].operation;
            && operation in s.intents && attempt in s.admissions && s.admissions[attempt].operation == Some(operation)
            && (attempt in s.outcomes ==>
                  s.outcomes[attempt].operation == operation && s.outcomes[attempt].attempt == attempt)
  {
    if attempt in s.outcomes { assert OutcomeAttempt(s.outcomes[attempt]) == attempt; }
  }

  lemma RecordedOutcome(r: Runtime, n: Runtime, o: OutcomeRecord)
    requires Recorded(r, n, RecordOutcome(o))
    ensures Head(n).dispatchHistory == Head(r).dispatchHistory && Head(n).intents == Head(r).intents
    ensures o.attempt in Head(n).outcomes && Head(n).outcomes[o.attempt].outcome == o.outcome
  {
  }

  /** An outcome already on record is answered from the table, at any revision. */
  lemma RepeatedOutcome(r: Runtime, o: OutcomeRecord)
    requires Safe(r) && o.attempt in Head(r).outcomes && o.attempt in Head(r).dispatches
    requires Head(r).dispatches[o.attempt].operation == o.operation
    ensures RecordEffectOutcome(r, o.operation, o.attempt, o.outcome).next == r
    ensures RecordEffectOutcome(r, o.operation, o.attempt, o.outcome).result.Ok? <==>
              Head(r).outcomes[o.attempt].outcome == o.outcome
  {
    hide Listed, Owned, AtMostOnce, NumberedInOrder, Attempted, Agrees, Workflow.Valid, AttemptsByOperation,
      ApplyMutation;
    SafeParts(r);
    var s, m := Head(r), RecordOutcome(o);
    DispatchedIsAdmitted(s, o.attempt);
    if s.outcomes[o.attempt].outcome == o.outcome {
      assert OutcomeKey(o.attempt) in s.idempotency;
      var first := s.idempotency[KeyOf(m)].mutations[0];
      assert first == m && s.idempotency[KeyOf(m)].mutations == [m];
      assert r.runs[r.run := s] == r.runs;
    }
  }

  lemma LatestOutcomeIsKnown(r: Runtime, n: Runtime, o: OutcomeRecord)
    requires Lineage(Head(r)) && Head(r).LatestDispatch(o.operation) == Some(DispatchRecord(o.operation, o.attempt))
    requires Head(n).dispatchHistory == Head(r).dispatchHistory && Head(n).intents == Head(r).intents
    requires o.attempt in Head(n).outcomes && Head(n).outcomes[o.attempt].outcome == o.outcome
    ensures Head(n).EffectState(o.operation) == OutcomeKnown(o.outcome)
  {
    LatestIsListed(Head(r), o.operation);
    DispatchedIsAdmitted(Head(r), o.attempt);
  }

  // ---- Dispatches ----

  /** An attempt begun for the operation before its first dispatch, if this process knows one. */
  function Reusable(r: Runtime, operation: Id): Option<AttemptId> {
    if operation in Head(r).intents && Head(r).EffectState(operation) == Prepared then
      AttemptForTask(r, Head(r).intents[operation].task, Some(operation))
    else None
  }

  /** The owner is not cancelled and the protocol allows a dispatch. */
  predicate Sendable(r: Runtime, operation: Id) {
    MayDispatch(Head(r), operation) && Head(r).intents[operation].task !in Head(r).cancellations
  }

  lemma UndispatchedAttempt(s: RunState, operation: Id, a: AttemptId)
    requires Lineage(s) && s.EffectState(operation) == Prepared
    requires a in s.admissions && s.admissions[a].operation == Some(operation)
    ensures a !in s.dispatches
  {
    forall x | x in s.dispatches ensures s.dispatches[x].operation != operation {
      assert s.dispatches[x] in s.dispatchHistory;
    }
  }

  /** One more dispatch of an admitted attempt that was not dispatched yet. */
  lemma AppendIsExact(r: Runtime, operation: Id, a: AttemptId)
    requires Safe(r) && Sendable(r, operation)
    requires a in Head(r).admissions && a !in Head(r).dispatches && Head(r).admissions[a].operation == Some(operation)
    requires Head(r).admissions[a].task == Head(r).intents[operation].task
    ensures var d := AppendDispatch(r, operation, a);
            && (d.result.Ok? <==> Head(r).revision < U64_MAX)
            && (d.result.Ok? ==>
                  && d.result == Ok(a) && Recorded(r, d.next, RecordDispatch(DispatchRecord(operation, a)))
                  && Head(d.next).EffectState(operation) == OutcomeUnknown)
  {
    hide CommitDurable, Protected, Agrees, Attempted, Workflow.Valid, Recorded, RunState.EffectState;
    SafeParts(r);
    var m := RecordDispatch(DispatchRecord(operation, a));
    var d := AppendDispatch(r, operation, a);
    KeyIsFresh(Head(r), m);
    CommitIsRecorded(r, m);
    if d.result.Ok? {
      RecordedFrame(r, CommitDurable(r, KeyOf(m), m).next, d.next, m);
      DispatchIsUnanswered(r, d.next, operation, a);
    }
  }

  lemma DispatchIsUnanswered(r: Runtime, n: Runtime, operation: Id, a: AttemptId)
    requires Lineage(Head(r)) && operation in Head(r).intents && a !in Head(r).dispatches
    requires Recorded(r, n, RecordDispatch(DispatchRecord(operation, a)))
    ensures Head(n).EffectState(operation) == OutcomeUnknown
  {
    hide Listed, Owned;
    Commits.LastForNext(Head(r).dispatchHistory, DispatchRecord(operation, a), operation);
  }

  /** The dispatch is on record under an attempt admitted for it, and no other effect fact has changed. */
  ghost predicate Dispatched(r: Runtime, n: Runtime, operation: Id, a: AttemptId) {
    && Head(n).dispatchHistory == Head(r).dispatchHistory + [DispatchRecord(operation, a)]
    && Commits.Adds(Head(r).dispatches, Head(n).dispatches, a, DispatchRecord(operation, a))
    && Head(n).intents == Head(r).intents && Head(n).outcomes == Head(r).outcomes
    && Head(n).cancellations == Head(r).cancellations && Head(n).EffectState(operation) == OutcomeUnknown
  }

  lemma RecordedIsDispatched(r: Runtime, n: Runtime, operation: Id, a: AttemptId)
    requires Recorded(r, n, RecordDispatch(DispatchRecord(operation, a)))
    requires Head(n).EffectState(operation) == OutcomeUnknown
    ensures Dispatched(r, n, operation, a)
  {
    hide Commits.Adds, RunState.EffectState;
  }

  lemma ReusedDispatch(r: Runtime, operation: Id, env: Environment)
    requires Safe(r) && Sendable(r, operation) && Reusable(r, operation).Some?
    ensures var d, a := DispatchEffect(r, operation, env), Reusable(r, operation).value;
            && AttemptToDispatch(r, operation, env) == Step(r, Ok(a))
            && (d.result.Ok? <==> Head(r).revision < U64_MAX)
            && (d.result.Ok? ==> d.result == Ok(a) && Dispatched(r, d.next, operation, a))
  {
    hide Protected, Agrees, Attempted, Workflow.Valid, BeginAttempt, AppendDispatch, AttemptForTask, Recorded,
      Dispatched,
      RunState.EffectState, Journal.State, View;
    SafeParts(r);
    JournalStateIsEffectState(r, operation);
    var a := Reusable(r, operation).value;
    ReusableIsAdmitted(r, operation);
    UndispatchedAttempt(Head(r), operation, a);
    AppendIsExact(r, operation, a);
    var d := AppendDispatch(r, operation, a);
    if d.result.Ok? { RecordedIsDispatched(r, d.next, operation, a); }
  }

  lemma ReusableIsAdmitted(r: Runtime, operation: Id)
    requires Safe(r) && Reusable(r, operation).Some?
    ensures var a := Reusable(r, operation).value;
            && a in Head(r).admissions && Head(r).admissions[a].operation == Some(operation)
            && Head(r).admissions[a].task == Head(r).intents[operation].task
  {
    hide Coupled, Agrees, Workflow.Valid, AttemptForTask, RunState.EffectState, Attempted;
    AttemptForTaskIsAdmitted(r, Head(r).intents[operation].task, Some(operation));
  }

  lemma NewDispatch(r: Runtime, operation: Id, env: Environment)
    requires Safe(r) && Sendable(r, operation) && Reusable(r, operation).None?
    ensures var d, a := DispatchEffect(r, operation, env), Numbered(r.run, r.nextAttempt);
            && (d.result.Ok? <==>
                  && Admissible(r, env, Head(r).intents[operation].task) && Roomy(r) && Head(r).revision + 1 < U64_MAX)
            && (d.result.Ok? ==> d.result == Ok(a) && Dispatched(r, d.next, operation, a))
  {
    hide *;
    SafeParts(r);
    NewBegins(r, operation, env);
    RoomIsLeft(r);
    var task, a := Head(r).intents[operation].task, Numbered(r.run, r.nextAttempt);
    BeginAttemptSafe(r, task, Some(operation), env);
    BeginIsExact(r, task, Some(operation), env);
    var begun := BeginAttempt(r, task, Some(operation), env);
    if Admissible(r, env, task) && Roomy(r) {
      BegunParts(r, begun.next, env, task, operation);
      NewAttemptIsSendable(r, begun.next, operation, env(task).capabilities);
      AppendIsExact(begun.next, operation, a);
      var d := AppendDispatch(begun.next, operation, a);
      if d.result.Ok? {
        RecordedIsDispatched(begun.next, d.next, operation, a);
        DispatchedAfterAdmission(r, begun.next, d.next, operation, a);
      }
    }
  }

  lemma RoomIsLeft(r: Runtime)
    ensures Roomy(r) ==> !r.sequencer.exhausted
  {
  }

  lemma BegunParts(r: Runtime, n: Runtime, env: Environment, task: Id, operation: Id)
    requires Admissible(r, env, task) && Roomy(r)
    requires Admits(r, n, NextAttempt(r, task, Some(operation), env(task).capabilities))
    ensures env(task).Pinned? && r.nextAttempt < U64_MAX && !r.sequencer.exhausted && SameEffects(Head(r), Head(n))
    ensures NextAttempt(r, task, Some(operation), env(task).capabilities).attempt == Numbered(r.run, r.nextAttempt)
  {
    hide Commits.Adds;
  }

  lemma NewBegins(r: Runtime, operation: Id, env: Environment)
    requires Safe(r) && Sendable(r, operation) && Reusable(r, operation).None?
    ensures operation in Head(r).intents
    ensures var begun := BeginAttempt(r, Head(r).intents[operation].task, Some(operation), env);
            && AttemptToDispatch(r, operation, env) == begun
            && DispatchEffect(r, operation, env) ==
               if begun.result.Err? then begun else AppendDispatch(begun.next, operation, begun.result.value)
  {
    hide Protected, Agrees, Attempted, Workflow.Valid, BeginAttempt, AppendDispatch, AttemptForTask,
      RunState.EffectState,
      Journal.State, View;
    SafeParts(r);
    JournalStateIsEffectState(r, operation);
  }

  lemma NewAttemptIsSendable(r: Runtime, n: Runtime, operation: Id, capabilities: seq<Id>)
    requires Safe(r) && Safe(n) && Sendable(r, operation)
    requires Admits(r, n, NextAttempt(r, Head(r).intents[operation].task, Some(operation), capabilities))
    requires r.nextAttempt < U64_MAX
    ensures var a := Numbered(r.run, r.nextAttempt);
            && Sendable(n, operation) && a in Head(n).admissions && a !in Head(n).dispatches
            && Head(n).admissions[a].operation == Some(operation)
            && Head(n).admissions[a].task == Head(n).intents[operation].task
            && Head(n).revision == Head(r).revision + 1
  {
    hide Listed, Owned, AtMostOnce, Agrees, Workflow.Valid, RunState.EffectState;
    EffectIgnoresTable(Head(r), Head(n), operation);
    NextNumberIsUnused(Head(r));
  }

  lemma DispatchedAfterAdmission(r: Runtime, n: Runtime, after: Runtime, operation: Id, a: AttemptId)
    requires SameEffects(Head(r), Head(n)) && Dispatched(n, after, operation, a)
    ensures Dispatched(r, after, operation, a)
  {
    hide RunState.EffectState;
  }

  /**
   An effect is dispatched exactly when its owner is not cancelled, it was never
   dispatched or is idempotent and of unknown outcome, and what the dispatch needs
   is there: one revision for an attempt begun before, or a second one with
   capabilities, a number and room for a new attempt.
   */
  lemma DispatchIsExact(r: Runtime, operation: Id, env: Environment)
    requires Safe(r)
    ensures var d, s := DispatchEffect(r, operation, env), Head(r);
            && (d.result.Ok? <==>
                  && Sendable(r, operation)
                  && if Reusable(r, operation).Some? then s.revision < U64_MAX
                     else Admissible(r, env, s.intents[operation].task) && Roomy(r) && s.revision + 1 < U64_MAX)
            && (d.result.Ok? ==>
                  && d.result.value == (if Reusable(r, operation).Some? then Reusable(r, operation).value
                                        else Numbered(r.run, r.nextAttempt))
                  && Dispatched(r, d.next, operation, d.result.value))
  {
    hide Safe, CurrentAttempt, BeginAttempt, AppendDispatch, RunState.EffectState, Journal.State, AttemptForTask,
      AttemptToDispatch, Dispatched, MayDispatch;
    SafeParts(r);
    AttemptToDispatchSafe(r, operation, env);
    ViewIntents(Head(r));
    if Sendable(r, operation) {
      if Reusable(r, operation).Some? { ReusedDispatch(r, operation, env); } else { NewDispatch(r, operation, env); }
    }
  }

  lemma ViewIntents(s: RunState)
    ensures View(s).intents == s.intents && View(s).taskOperations == s.taskOperations
  {
  }

  /** A dispatch that is not allowed says why, and changes nothing. */
  lemma RefusedDispatchSaysWhy(r: Runtime, operation: Id, env: Environment)
    requires Safe(r) && !Sendable(r, operation)
    ensures var d, s := DispatchEffect(r, operation, env), Head(r);
            && d.next == r
            && d.result == Err(
                 if operation !in s.intents then JournalFailure(UnknownOperation(operation))
                 else if s.intents[operation].task in s.cancellations then
                   if s.EffectState(operation) == OutcomeUnknown
                   then CancelledAfterDispatch(s.intents[operation].task, operation)
                   else CancelledBeforeDispatch(s.intents[operation].task)
                 else if s.EffectState(operation) == OutcomeUnknown then ReconciliationRequired(operation)
                 else OutcomeAlreadyKnown(operation))
  {
    hide Protected, Agrees, Attempted, Workflow.Valid, CurrentAttempt, BeginAttempt, View, Journal.State;
    SafeParts(r);
    ViewIntents(Head(r));
    JournalStateIsEffectState(r, operation);
  }

  // ---- Refusals of the journal ----

  /** What a refusal of the journal names is so in the journal. */
  ghost predicate Truthful(j: Journal, m: Mutation, e: JournalError) {
    match e
    case DuplicateIntent(o) => m.RecordIntent? && o == m.intent.operation && o in j.intents
    case TaskAlreadyOwned(task, existing, attempted) =>
      && m.RecordIntent? && task == m.intent.task && attempted == m.intent.operation
      && task in j.taskOperations && existing == j.taskOperations[task]
    case DispatchWithoutIntent(o) => m.RecordDispatch? && o == m.dispatch.operation && o !in j.intents
    case DuplicateAttempt(o, a) => m == RecordDispatch(DispatchRecord(o, a)) && a in j.dispatches
    case UnknownOperation(o) => m.RecordOutcome? && o == m.result.operation && o !in j.intents
    case OutcomeBeforeDispatch(o, a) =>
      m.RecordOutcome? && o == m.result.operation && a == m.result.attempt && a !in j.dispatches
    case AttemptMismatch(o, a, other) =>
      && m.RecordOutcome? && o == m.result.operation && a == m.result.attempt
      && a in j.dispatches && other == j.dispatches[a].operation && other != o
    case OutcomeConflict(o, a, existing, attempted) =>
      && m.RecordOutcome? && OutcomeRecord(o, a, attempted) == m.result
      && a in j.outcomes && existing == j.outcomes[a].outcome && existing != attempted
  }

  lemma JournalRefusalIsTruthful(j: Journal, m: Mutation)
    ensures m.RecordIntent? && PersistIntent(j, m.intent).Err? ==> Truthful(j, m, PersistIntent(j, m.intent).error)
    ensures m.RecordDispatch? && PersistDispatch(j, m.dispatch).Err? ==>
              Truthful(j, m, PersistDispatch(j, m.dispatch).error)
    ensures m.RecordOutcome? && PersistOutcome(j, m.result).Err? ==> Truthful(j, m, PersistOutcome(j, m.result).error)
  {
  }
}
