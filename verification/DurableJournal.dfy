/** The journal object: its maps are updated in place, behind the value model. */
module DurableJournals {
  import opened Prelude
  import Durable = DurableModel
  import Model = JournalModel

  class DurableJournal {
    var intents: map<Id, Durable.EffectIntent>
    var taskOperations: map<Id, Id>
    var dispatches: map<Durable.AttemptId, Durable.DispatchRecord>
    var operationAttempts: map<Id, seq<Durable.AttemptId>>
    var outcomes: map<Durable.AttemptId, Durable.OutcomeRecord>

    function State(): Model.Journal
      reads this
    {
      Model.Journal(intents, taskOperations, dispatches, operationAttempts, outcomes)
    }

    constructor ()
      ensures State() == Model.Empty
    {
      intents, taskOperations := map[], map[];
      dispatches, operationAttempts, outcomes := map[], map[], map[];
    }

    constructor Clone(other: DurableJournal)
      ensures State() == other.State()
    {
      intents, taskOperations := other.intents, other.taskOperations;
      dispatches, operationAttempts, outcomes := other.dispatches, other.operationAttempts, other.outcomes;
    }

    method PersistIntent(intent: Durable.EffectIntent) returns (r: Outcome<Model.JournalError>)
      modifies this
      ensures match Model.PersistIntent(old(State()), intent) {
                case Ok(j) => r == Done && State() == j
                case Err(e) => r == Failed(e) && State() == old(State())
              }
    {
      if intent.operation in intents {
        return Failed(Model.DuplicateIntent(intent.operation));
      }
      if intent.task in taskOperations {
        return Failed(Model.TaskAlreadyOwned(intent.task, taskOperations[intent.task], intent.operation));
      }
      taskOperations := taskOperations[intent.task := intent.operation];
      intents := intents[intent.operation := intent];
      r := Done;
    }

    method PersistDispatch(dispatch: Durable.DispatchRecord) returns (r: Outcome<Model.JournalError>)
      modifies this
      ensures match Model.PersistDispatch(old(State()), dispatch) {
                case Ok(j) => r == Done && State() == j
                case Err(e) => r == Failed(e) && State() == old(State())
              }
    {
      if dispatch.operation !in intents {
        return Failed(Model.DispatchWithoutIntent(dispatch.operation));
      }
      if dispatch.attempt in dispatches {
        return Failed(Model.DuplicateAttempt(dispatch.operation, dispatch.attempt));
      }
      var attempts := if dispatch.operation in operationAttempts then operationAttempts[dispatch.operation] else [];
      operationAttempts := operationAttempts[dispatch.operation := attempts + [dispatch.attempt]];
      dispatches := dispatches[dispatch.attempt := dispatch];
      r := Done;
    }

    method PersistOutcome(outcome: Durable.OutcomeRecord) returns (r: Outcome<Model.JournalError>)
      modifies this
      ensures match Model.PersistOutcome(old(State()), outcome) {
                case Ok(j) => r == Done && State() == j
                case Err(e) => r == Failed(e) && State() == old(State())
              }
    {
      if outcome.operation !in intents {
        return Failed(Model.UnknownOperation(outcome.operation));
      }
      if outcome.attempt !in dispatches {
        return Failed(Model.OutcomeBeforeDispatch(outcome.operation, outcome.attempt));
      }
      var dispatch := dispatches[outcome.attempt];
      if dispatch.operation != outcome.operation {
        return Failed(Model.AttemptMismatch(outcome.operation, outcome.attempt, dispatch.operation));
      }
      if outcome.attempt in outcomes {
        var existing := outcomes[outcome.attempt];
        if existing.outcome == outcome.outcome {
          return Done;
        }
        return Failed(Model.OutcomeConflict(outcome.operation, outcome.attempt, existing.outcome, outcome.outcome));
      }
      outcomes := outcomes[outcome.attempt := outcome];
      r := Done;
    }

    static method FromDurableState(s: Durable.RunState) returns (r: Result<DurableJournal, Model.JournalError>)
      ensures match Model.FromDurableState(s) {
                case Ok(j) => r.Ok? && fresh(r.value) && r.value.State() == j
                case Err(e) => r == Err(e)
              }
    {
      hide Model.PersistIntent, Model.PersistDispatch, Model.PersistOutcome;
      var journal := new DurableJournal();
      var intents := Model.IntentsInOrder(s);
      for k := 0 to |intents|
        invariant fresh(journal)
        invariant Fold(Model.PersistIntent, Model.Empty, intents[..k]) == Ok(journal.State())
      {
        FoldStep(Model.PersistIntent, Model.Empty, intents, k);
        var step := journal.PersistIntent(intents[k]);
        if step.Failed? { return Err(step.error); }
      }
      assert intents[..|intents|] == intents;
      ghost var intended := journal.State();
      for k := 0 to |s.dispatchHistory|
        invariant fresh(journal)
        invariant Fold(Model.PersistDispatch, intended, s.dispatchHistory[..k]) == Ok(journal.State())
      {
        FoldStep(Model.PersistDispatch, intended, s.dispatchHistory, k);
        var step := journal.PersistDispatch(s.dispatchHistory[k]);
        if step.Failed? { return Err(step.error); }
      }
      assert s.dispatchHistory[..|s.dispatchHistory|] == s.dispatchHistory;
      ghost var dispatched := journal.State();
      for k := 0 to |s.outcomeHistory|
        invariant fresh(journal)
        invariant Fold(Model.PersistOutcome, dispatched, s.outcomeHistory[..k]) == Ok(journal.State())
      {
        FoldStep(Model.PersistOutcome, dispatched, s.outcomeHistory, k);
        var step := journal.PersistOutcome(s.outcomeHistory[k]);
        if step.Failed? { return Err(step.error); }
      }
      assert s.outcomeHistory[..|s.outcomeHistory|] == s.outcomeHistory;
      r := Ok(journal);
    }
  }
}
