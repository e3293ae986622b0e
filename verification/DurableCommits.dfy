/**
 What the store answers and what an accepted commit leaves, in terms of the facts
 a reader of the store sees.
 */
module DurableCommits {
  import opened Prelude
  import opened DurableModel

  // ---- Compare and swap ----

  ghost predicate Known(runs: Runs, r: CommitRequest) {
    r.mutations != [] && r.run in runs
  }

  ghost predicate Fresh(runs: Runs, r: CommitRequest) {
    Known(runs, r) && r.key !in runs[r.run].idempotency
  }

  /**
   A commit under a fresh key is applied exactly when it expects the current
   revision, a revision is left and its mutations are all accepted; a stale one is
   told both revisions. A used key answers with the live head for the same
   mutations and refuses any other.
   */
  lemma CommitIsExact(runs: Runs, r: CommitRequest)
    ensures r.mutations == [] ==> Commit(runs, r) == Err(EmptyCommit)
    ensures r.mutations != [] && r.run !in runs ==> Commit(runs, r) == Err(RunNotFound(r.run))
    ensures Known(runs, r) && !Fresh(runs, r) ==>
              if runs[r.run].idempotency[r.key].mutations == r.mutations
              then Commit(runs, r) == Ok((runs, CommitResult(runs[r.run].revision, true)))
              else Commit(runs, r) == Err(IdempotencyConflict(r.key))
    ensures Fresh(runs, r) ==>
              && (Commit(runs, r).Ok? <==>
                    && r.expected == runs[r.run].revision && runs[r.run].revision < U64_MAX
                    && Fold(ApplyMutation, runs[r.run], r.mutations).Ok?)
              && (Commit(runs, r).Ok? ==> !Commit(runs, r).value.1.replayed)
              && (r.expected != runs[r.run].revision ==>
                    Commit(runs, r) == Err(RevisionConflict(r.expected, runs[r.run].revision)))
              && (r.expected == runs[r.run].revision >= U64_MAX ==>
                    Commit(runs, r) == Err(RevisionExhausted(runs[r.run].revision)))
  {
    hide ApplyMutation, Fold;
    if Known(runs, r) { assert runs[r.run := runs[r.run]] == runs; }
  }

  /** The request is applied, and not answered as a repetition. */
  predicate Applies(runs: Runs, r: CommitRequest) {
    Commit(runs, r).Ok? && !Commit(runs, r).value.1.replayed
  }

  /** An applied commit counts one revision, stores its mutations under its key and leaves every other run alone. */
  lemma AppliedCommit(runs: Runs, r: CommitRequest)
    requires Applies(runs, r)
    ensures var after := Commit(runs, r).value.0;
            && Fresh(runs, r) && r.expected == runs[r.run].revision
            && after.Keys == runs.Keys
            && (forall other :: other in runs && other != r.run ==> after[other] == runs[other])
            && after[r.run].revision == r.expected + 1 == Commit(runs, r).value.1.revision
            && after[r.run].idempotency == runs[r.run].idempotency[r.key := Committed(r.mutations, r.expected + 1)]
            && Fold(ApplyMutation, runs[r.run], r.mutations).Ok?
            && Facts(after[r.run]) == Facts(Fold(ApplyMutation, runs[r.run], r.mutations).value)
  {
    hide ApplyMutation, Fold;
    FoldOnFacts(runs[r.run], r.mutations);
  }

  lemma {:induction false} RevisionGrows(runs: Runs, commands: seq<StoreCommand>, run: Id)
    requires run in runs
    ensures run in ExecuteAll(runs, commands) && runs[run].revision <= ExecuteAll(runs, commands)[run].revision
  {
    hide Commit, ApplyMutation;
    if commands != [] {
      var before, c := ExecuteAll(runs, commands[..|commands| - 1]), commands[|commands| - 1];
      RevisionGrows(runs, commands[..|commands| - 1], run);
      if c.CommitTo? { StepKeepsRevision(before, c.request, run); }
    }
  }

  lemma StepKeepsRevision(runs: Runs, r: CommitRequest, run: Id)
    requires run in runs
    ensures run in Execute(runs, CommitTo(r)) && runs[run].revision <= Execute(runs, CommitTo(r))[run].revision
  {
    hide Commit, ApplyMutation;
    CommitIsExact(runs, r);
    if Applies(runs, r) { AppliedCommit(runs, r); }
  }

  lemma {:induction false} SplitRun(commands: seq<StoreCommand>, i: nat)
    requires i < |commands|
    ensures ExecuteAll(map[], commands) ==
            ExecuteAll(Execute(ExecuteAll(map[], commands[..i]), commands[i]), commands[i + 1..])
    decreases |commands|
  {
    hide Execute;
    var front, last := commands[..|commands| - 1], commands[|commands| - 1];
    if i < |front| {
      SplitRun(front, i);
      assert front[..i] == commands[..i];
      assert commands[i + 1..][..|commands[i + 1..]| - 1] == front[i + 1..];
    }
  }

  /**
   Over every sequence of store commands, the commits applied to one run expected
   strictly increasing revisions: of those that expected the same one, at most
   one is applied.
   */
  lemma AppliedOncePerRevision(commands: seq<StoreCommand>, i: nat, j: nat)
    requires i < j < |commands| && commands[i].CommitTo? && commands[j].CommitTo?
    requires commands[i].request.run == commands[j].request.run
    requires Applies(ExecuteAll(map[], commands[..i]), commands[i].request)
    requires Applies(ExecuteAll(map[], commands[..j]), commands[j].request)
    ensures commands[i].request.expected < commands[j].request.expected
  {
    hide Commit;
    var a, b := commands[i].request, commands[j].request;
    var front := commands[..j];
    AppliedCommit(ExecuteAll(map[], commands[..i]), a);
    AppliedCommit(ExecuteAll(map[], front), b);
    SplitRun(front, i);
    assert front[..i] == commands[..i];
    RevisionGrows(Execute(ExecuteAll(map[], commands[..i]), commands[i]), front[i + 1..], a.run);
  }

  // ---- What each mutation needs ----

  /** The admission, intent and gate a dispatch needs. */
  ghost predicate Dispatchable(s: RunState, d: DispatchRecord) {
    && d.operation in s.intents && d.attempt in s.admissions
    && s.admissions[d.attempt].operation == Some(d.operation)
    && s.admissions[d.attempt].task == s.intents[d.operation].task
    && s.intents[d.operation].task !in s.cancellations && d.attempt !in s.dispatches
  }

  /** An outcome belongs to a dispatch of its operation and contradicts no earlier one. */
  ghost predicate Reportable(s: RunState, o: OutcomeRecord) {
    && o.attempt in s.admissions && s.admissions[o.attempt].operation == Some(o.operation)
    && o.attempt in s.dispatches && s.dispatches[o.attempt].operation == o.operation
    && (o.attempt in s.outcomes ==> s.outcomes[o.attempt].outcome == o.outcome)
  }

  /** What a cancellation names is what the run knows of the task. */
  ghost predicate Cancellable(s: RunState, c: Cancellation) {
    && c.run == s.run
    && if c.task in s.cancellations then s.cancellations[c.task] == c
       else
         && (c.operation.Some? ==> c.task in s.taskOperations && s.taskOperations[c.task] == c.operation.value)
         && (c.attempt.Some? ==>
               && c.attempt.value in s.admissions && s.admissions[c.attempt.value].task == c.task
               && s.admissions[c.attempt.value].operation == c.operation)
  }

  ghost predicate Acceptable(s: RunState, m: Mutation) {
    match m
    case AdmitAttempt(a) => a.run == s.run && a.attempt !in s.admissions
    case RecordIntent(i) =>
      if i.operation in s.intents then s.intents[i.operation] == i else i.task !in s.taskOperations
    case RecordCancellation(c) => Cancellable(s, c)
    case RecordDispatch(d) => Dispatchable(s, d)
    case RecordOutcome(o) => Reportable(s, o)
  }

  /** The refusal names something that is so in the run. */
  ghost predicate Truthful(s: RunState, m: Mutation, e: Invariant) {
    match e
    case AttemptIdReuse(a) =>
      m.AdmitAttempt? && a == m.admission.attempt && (a in s.admissions || m.admission.run != s.run)
    case TaskOperationConflict(task, existing, attempted) =>
      && m.RecordIntent? && task == m.intent.task && attempted == m.intent.operation
      && if attempted in s.intents then existing == s.intents[attempted].operation
         else task in s.taskOperations && existing == s.taskOperations[task]
    case CancellationLineageMismatch(task) => m.RecordCancellation? && task == m.cancellation.task
    case ConflictingCancellation(task) =>
      && m.RecordCancellation? && task == m.cancellation.task
      && task in s.cancellations && s.cancellations[task] != m.cancellation
    case DispatchWithoutAdmission(a) =>
      m.RecordDispatch? && a == m.dispatch.attempt && (a !in s.admissions || m.dispatch.operation !in s.intents)
    case DispatchCancelled(task) =>
      && m.RecordDispatch? && task in s.cancellations && m.dispatch.attempt !in s.dispatches
      && m.dispatch.operation in s.intents && s.intents[m.dispatch.operation].task == task
    case DispatchAttemptMismatch(a, operation) =>
      && m == RecordDispatch(DispatchRecord(operation, a)) && a in s.admissions && operation in s.intents
      && (|| a in s.dispatches || s.admissions[a].operation != Some(operation)
          || s.admissions[a].task != s.intents[operation].task)
    case OutcomeWithoutAdmission(a) => m.RecordOutcome? && a == m.result.attempt && a !in s.admissions
    case OutcomeWithoutDispatch(a) => m.RecordOutcome? && a == m.result.attempt && a !in s.dispatches
    case OutcomeAttemptMismatch(a, operation) =>
      && m.RecordOutcome? && a == m.result.attempt && operation == m.result.operation
      && a in s.dispatches && a in s.admissions
      && (s.dispatches[a].operation != operation || s.admissions[a].operation != Some(operation))
    case ConflictingOutcome(a, existing, attempted) =>
      && m.RecordOutcome? && a == m.result.attempt && attempted == m.result.outcome
      && a in s.outcomes && existing == s.outcomes[a].outcome && existing != attempted
  }

  lemma MutationIsExact(s: RunState, m: Mutation)
    ensures ApplyMutation(s, m).Ok? <==> Acceptable(s, m)
    ensures ApplyMutation(s, m).Err? ==> Truthful(s, m, ApplyMutation(s, m).error)
  {
  }

  // ---- What each mutation leaves ----

  /** One entry is added to a map. */
  ghost predicate Adds<K, V>(before: map<K, V>, after: map<K, V>, k: K, v: V) {
    && after.Keys == before.Keys + {k} && after[k] == v
    && forall x :: x in before && x != k ==> after[x] == before[x]
  }

  /** Everything but the histories and maps of one kind of fact is as before. */
  ghost predicate OnlyKind(s: RunState, t: RunState, m: Mutation) {
    && t.run == s.run && t.revision == s.revision && t.idempotency == s.idempotency
    && (!m.AdmitAttempt? ==> t.admissions == s.admissions && t.admissionHistory == s.admissionHistory)
    && (!m.RecordIntent? ==> t.intents == s.intents && t.taskOperations == s.taskOperations)
    && (!m.RecordCancellation? ==> t.cancellations == s.cancellations)
    && (!m.RecordDispatch? ==> t.dispatches == s.dispatches && t.dispatchHistory == s.dispatchHistory)
    && (!m.RecordOutcome? ==> t.outcomes == s.outcomes && t.outcomeHistory == s.outcomeHistory)
  }

  /** The run holds what the mutation says, and nothing else is new. */
  ghost predicate Records(s: RunState, t: RunState, m: Mutation) {
    OnlyKind(s, t, m) &&
    match m
    case AdmitAttempt(a) =>
      Adds(s.admissions, t.admissions, a.attempt, a) && t.admissionHistory == s.admissionHistory + [a]
    case RecordIntent(i) =>
      && Adds(s.intents, t.intents, i.operation, i)
      && (i.operation in s.intents ==> t.taskOperations == s.taskOperations)
      && (i.operation !in s.intents ==> Adds(s.taskOperations, t.taskOperations, i.task, i.operation))
    case RecordCancellation(c) => Adds(s.cancellations, t.cancellations, c.task, c)
    case RecordDispatch(d) =>
      Adds(s.dispatches, t.dispatches, d.attempt, d) && t.dispatchHistory == s.dispatchHistory + [d]
    case RecordOutcome(o) =>
      && o.attempt in t.outcomes && t.outcomes[o.attempt].outcome == o.outcome
      && (o.attempt in s.outcomes ==> t.outcomes == s.outcomes && t.outcomeHistory == s.outcomeHistory)
      && (o.attempt !in s.outcomes ==>
            Adds(s.outcomes, t.outcomes, o.attempt, o) && t.outcomeHistory == s.outcomeHistory + [o])
  }

  lemma AddedEntry<K, V>(before: map<K, V>, k: K, v: V)
    ensures Adds(before, before[k := v], k, v)
    ensures k in before && before[k] == v ==> Adds(before, before, k, v)
  {
  }

  lemma MutationRecords(s: RunState, m: Mutation)
    requires ApplyMutation(s, m).Ok?
    ensures Records(s, ApplyMutation(s, m).value, m)
  {
    hide Adds;
    match m
    case AdmitAttempt(a) => AddedEntry(s.admissions, a.attempt, a);
    case RecordIntent(i) =>
      AddedEntry(s.intents, i.operation, i);
      AddedEntry(s.taskOperations, i.task, i.operation);
    case RecordCancellation(c) => AddedEntry(s.cancellations, c.task, c);
    case RecordDispatch(d) => AddedEntry(s.dispatches, d.attempt, d);
    case RecordOutcome(o) => AddedEntry(s.outcomes, o.attempt, o);
  }

  // ---- Effect states ----

  lemma LastForNext(h: seq<DispatchRecord>, d: DispatchRecord, operation: Id)
    ensures LastFor(h + [d], operation) == if d.operation == operation then Some(d) else LastFor(h, operation)
  {
    assert (h + [d])[..|h|] == h;
  }

  /**
   The life of an effect: an intent prepares it, each dispatch makes its outcome
   unknown, and an outcome reported for its latest dispatch makes it known. No
   other mutation changes its state.
   */
  lemma EffectLifecycle(s: RunState, m: Mutation, operation: Id)
    requires Lineage(s) && ApplyMutation(s, m).Ok?
    ensures ApplyMutation(s, m).value.EffectState(operation) ==
              if m.RecordIntent? && m.intent.operation == operation && s.EffectState(operation) == NotPrepared then
                Prepared
              else if m.RecordDispatch? && m.dispatch.operation == operation then OutcomeUnknown
              else if
                && m.RecordOutcome?
                && s.LatestDispatch(operation) == Some(DispatchRecord(operation, m.result.attempt))
              then OutcomeKnown(m.result.outcome)
              else s.EffectState(operation)
  {
    hide ApplyMutation, Listed, Owned, LastFor;
    MutationRecords(s, m);
    if m.RecordDispatch? {
      MutationIsExact(s, m);
      LastForNext(s.dispatchHistory, m.dispatch, operation);
    }
    if s.LatestDispatch(operation).Some? { LatestIsListed(s, operation); }
  }
}
