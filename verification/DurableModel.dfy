/**
 Durable facts of one run: a compare-and-swap log of typed mutations with an
 idempotency table, and what the accepted mutations keep.
 */
module DurableModel {
  import opened Prelude

  /**
   The runtime formats a run and a number into an attempt identity, injectively;
   callers may also name attempts of their own.
   */
  datatype AttemptId = Numbered(run: Id, number: nat) | Named(id: Id)

  datatype Semantics = Idempotent | NonIdempotent

  datatype EffectIntent = EffectIntent(task: Id, operation: Id, semantics: Semantics)

  datatype DispatchRecord = DispatchRecord(operation: Id, attempt: AttemptId)

  datatype KnownOutcome = Succeeded | Failed

  datatype OutcomeRecord = OutcomeRecord(operation: Id, attempt: AttemptId, outcome: KnownOutcome)

  datatype EffectState = NotPrepared | Prepared | OutcomeKnown(outcome: KnownOutcome) | OutcomeUnknown

  datatype Admission = Admission(run: Id, task: Id, attempt: AttemptId, operation: Option<Id>, capabilities: seq<Id>)

  datatype Cancellation = Cancellation(run: Id, task: Id, operation: Option<Id>, attempt: Option<AttemptId>)

  datatype Mutation =
    | AdmitAttempt(admission: Admission)
    | RecordIntent(intent: EffectIntent)
    | RecordCancellation(cancellation: Cancellation)
    | RecordDispatch(dispatch: DispatchRecord)
    | RecordOutcome(result: OutcomeRecord)

  /** Keys built by the runtime from disjoint prefixes, and any other non-blank key. */
  datatype Key =
    | AdmitKey(attempt: AttemptId)
    | IntentKey(operation: Id)
    | DispatchKey(attempt: AttemptId)
    | OutcomeKey(attempt: AttemptId)
    | CancelKey(task: Id)
    | OtherKey(name: Id)

  datatype Invariant =
    | AttemptIdReuse(attempt: AttemptId)
    | DispatchWithoutAdmission(attempt: AttemptId)
    | DispatchAttemptMismatch(attempt: AttemptId, operation: Id)
    | OutcomeWithoutAdmission(attempt: AttemptId)
    | OutcomeWithoutDispatch(attempt: AttemptId)
    | OutcomeAttemptMismatch(attempt: AttemptId, operation: Id)
    | ConflictingOutcome(attempt: AttemptId, existing: KnownOutcome, attempted: KnownOutcome)
    | TaskOperationConflict(task: Id, existingOperation: Id, attemptedOperation: Id)
    | DispatchCancelled(task: Id)
    | CancellationLineageMismatch(task: Id)
    | ConflictingCancellation(task: Id)

  datatype StoreError =
    | RunNotFound(run: Id)
    | RunAlreadyExists(run: Id)
    | RevisionConflict(expected: nat, actual: nat)
    | IdempotencyConflict(key: Key)
    | EmptyCommit
    | InvariantViolation(violation: Invariant)
    | RevisionExhausted(current: nat)

  datatype Committed = Committed(mutations: seq<Mutation>, at: nat)

  datatype RunState = RunState(
    run: Id,
    revision: nat,
    admissions: map<AttemptId, Admission>,
    admissionHistory: seq<Admission>,
    intents: map<Id, EffectIntent>,
    taskOperations: map<Id, Id>,
    cancellations: map<Id, Cancellation>,
    dispatches: map<AttemptId, DispatchRecord>,
    dispatchHistory: seq<DispatchRecord>,
    outcomes: map<AttemptId, OutcomeRecord>,
    outcomeHistory: seq<OutcomeRecord>,
    idempotency: map<Key, Committed>)
  {
    /** The most recent dispatch of an operation owns recovery authority. */
    function LatestDispatch(operation: Id): Option<DispatchRecord> {
      LastFor(dispatchHistory, operation)
    }

    function LatestOutcome(operation: Id): Option<OutcomeRecord> {
      match LatestDispatch(operation)
      case None => None
      case Some(d) => if d.attempt in outcomes then Some(outcomes[d.attempt]) else None
    }

    function EffectState(operation: Id): EffectState {
      if operation !in intents then NotPrepared
      else if LatestDispatch(operation).None? then Prepared
      else match LatestOutcome(operation)
           case None => OutcomeUnknown
           case Some(o) => OutcomeKnown(o.outcome)
    }
  }

  function LastFor(history: seq<DispatchRecord>, operation: Id): (r: Option<DispatchRecord>)
    ensures r.Some? ==> r.value in history && r.value.operation == operation
    ensures r.None? ==> forall d :: d in history ==> d.operation != operation
  {
    if history == [] then None
    else if history[|history| - 1].operation == operation then Some(history[|history| - 1])
    else LastFor(history[..|history| - 1], operation)
  }

  function NewRun(run: Id): RunState {
    RunState(run, 0, map[], [], map[], map[], map[], map[], [], map[], [], map[])
  }

  // ---- Mutations ----

  function Admit(s: RunState, a: Admission): Result<RunState, Invariant> {
    if a.run != s.run || a.attempt in s.admissions then Err(AttemptIdReuse(a.attempt))
    else Ok(s.(admissions := s.admissions[a.attempt := a], admissionHistory := s.admissionHistory + [a]))
  }

  function Intend(s: RunState, i: EffectIntent): Result<RunState, Invariant> {
    if i.operation in s.intents then
      if s.intents[i.operation] == i then Ok(s)
      else Err(TaskOperationConflict(i.task, s.intents[i.operation].operation, i.operation))
    else if i.task in s.taskOperations then Err(TaskOperationConflict(i.task, s.taskOperations[i.task], i.operation))
    else Ok(s.(taskOperations := s.taskOperations[i.task := i.operation], intents := s.intents[i.operation := i]))
  }

  function Cancel(s: RunState, c: Cancellation): Result<RunState, Invariant> {
    if c.run != s.run then Err(CancellationLineageMismatch(c.task))
    else if c.task in s.cancellations then
      if s.cancellations[c.task] == c then Ok(s) else Err(ConflictingCancellation(c.task))
    else if c.operation.Some? && !(c.task in s.taskOperations && s.taskOperations[c.task] == c.operation.value) then
      Err(CancellationLineageMismatch(c.task))
    else if c.attempt.Some? && c.attempt.value !in s.admissions then Err(CancellationLineageMismatch(c.task))
    else if
      && c.attempt.Some?
      && (s.admissions[c.attempt.value].task != c.task || s.admissions[c.attempt.value].operation != c.operation)
    then
      Err(CancellationLineageMismatch(c.task))
    else Ok(s.(cancellations := s.cancellations[c.task := c]))
  }

  function Dispatch(s: RunState, d: DispatchRecord): Result<RunState, Invariant> {
    if d.operation !in s.intents || d.attempt !in s.admissions then Err(DispatchWithoutAdmission(d.attempt))
    else
      var admission := s.admissions[d.attempt];
      if admission.operation != Some(d.operation) || s.intents[d.operation].task != admission.task then
        Err(DispatchAttemptMismatch(d.attempt, d.operation))
      else if admission.task in s.cancellations && d.attempt !in s.dispatches then
        Err(DispatchCancelled(admission.task))
      else if d.attempt in s.dispatches then Err(DispatchAttemptMismatch(d.attempt, d.operation))
      else Ok(s.(dispatches := s.dispatches[d.attempt := d], dispatchHistory := s.dispatchHistory + [d]))
  }

  function Resolve(s: RunState, o: OutcomeRecord): Result<RunState, Invariant> {
    if o.attempt !in s.admissions then Err(OutcomeWithoutAdmission(o.attempt))
    else if o.attempt !in s.dispatches then Err(OutcomeWithoutDispatch(o.attempt))
    else if
      || s.dispatches[o.attempt].operation != o.operation
      || s.admissions[o.attempt].operation != Some(o.operation)
    then
      Err(OutcomeAttemptMismatch(o.attempt, o.operation))
    else if o.attempt in s.outcomes then
      if s.outcomes[o.attempt].outcome == o.outcome then Ok(s)
      else Err(ConflictingOutcome(o.attempt, s.outcomes[o.attempt].outcome, o.outcome))
    else Ok(s.(outcomes := s.outcomes[o.attempt := o], outcomeHistory := s.outcomeHistory + [o]))
  }

  function ApplyMutation(s: RunState, m: Mutation): Result<RunState, Invariant> {
    match m
    case AdmitAttempt(a) => Admit(s, a)
    case RecordIntent(i) => Intend(s, i)
    case RecordCancellation(c) => Cancel(s, c)
    case RecordDispatch(d) => Dispatch(s, d)
    case RecordOutcome(o) => Resolve(s, o)
  }

  // ---- Commits ----

  datatype CommitRequest = CommitRequest(run: Id, expected: nat, key: Key, mutations: seq<Mutation>)

  /** An idempotent replay reports the live head, not the revision of the first commit. */
  datatype CommitResult = CommitResult(revision: nat, replayed: bool)

  function CommitRun(s: RunState, r: CommitRequest): Result<(RunState, CommitResult), StoreError> {
    if r.key in s.idempotency then
      if s.idempotency[r.key].mutations == r.mutations then Ok((s, CommitResult(s.revision, true)))
      else Err(IdempotencyConflict(r.key))
    else if r.expected != s.revision then Err(RevisionConflict(r.expected, s.revision))
    else if s.revision >= U64_MAX then Err(RevisionExhausted(s.revision))
    else match Fold(ApplyMutation, s, r.mutations)
         case Err(e) => Err(InvariantViolation(e))
         case Ok(candidate) =>
           var next := s.revision + 1;
           var idempotency := candidate.idempotency[r.key := Committed(r.mutations, next)];
           Ok((candidate.(revision := next, idempotency := idempotency),
               CommitResult(next, false)))
  }

  type Runs = map<Id, RunState>

  function Commit(runs: Runs, r: CommitRequest): Result<(Runs, CommitResult), StoreError> {
    if r.mutations == [] then Err(EmptyCommit)
    else if r.run !in runs then Err(RunNotFound(r.run))
    else match CommitRun(runs[r.run], r)
         case Err(e) => Err(e)
         case Ok(done) => Ok((runs[r.run := done.0], done.1))
  }

  datatype StoreCommand = CreateRun(run: Id) | CommitTo(request: CommitRequest)

  function Execute(runs: Runs, c: StoreCommand): Runs {
    match c
    case CreateRun(run) => if run in runs then runs else runs[run := NewRun(run)]
    case CommitTo(request) =>
      match Commit(runs, request)
      case Err(_) => runs
      case Ok(done) => done.0
  }

  /** Every store reachable from empty by creations and commits, accepted or rejected. */
  function ExecuteAll(runs: Runs, commands: seq<StoreCommand>): Runs {
    if commands == [] then runs
    else Execute(ExecuteAll(runs, commands[..|commands| - 1]), commands[|commands| - 1])
  }

  // ---- The idempotency table is a complete log ----

  datatype LogEntry = LogEntry(key: Key, mutations: seq<Mutation>)

  function Flatten(log: seq<LogEntry>): seq<Mutation> {
    if log == [] then [] else Flatten(log[..|log| - 1]) + log[|log| - 1].mutations
  }

  function Facts(s: RunState): RunState {
    s.(revision := 0, idempotency := map[])
  }

  /** The table that commits of the batches of `log`, at revisions 1, 2, ..., leave behind. */
  function TableOf(log: seq<LogEntry>): map<Key, Committed> {
    if log == [] then map[]
    else TableOf(log[..|log| - 1])[log[|log| - 1].key := Committed(log[|log| - 1].mutations, |log|)]
  }

  ghost predicate DistinctKeys(log: seq<LogEntry>) {
    forall i, j :: 0 <= i < j < |log| ==> log[i].key != log[j].key
  }

  /** `log` holds one key per revision 1..n and is the whole idempotency table. */
  ghost predicate IndexesTable(s: RunState, log: seq<LogEntry>) {
    |log| == s.revision <= U64_MAX && DistinctKeys(log) && s.idempotency == TableOf(log)
  }

  ghost predicate KeyOccurs(log: seq<LogEntry>, k: Key) {
    exists i :: 0 <= i < |log| && log[i].key == k
  }

  /** The table of a log with distinct keys holds exactly its entries, each at its own revision. */
  lemma {:induction false} TableReadsBack(log: seq<LogEntry>)
    requires DistinctKeys(log)
    ensures forall i :: 0 <= i < |log| ==>
              log[i].key in TableOf(log) && TableOf(log)[log[i].key] == Committed(log[i].mutations, i + 1)
    ensures forall k :: k in TableOf(log) ==> KeyOccurs(log, k)
  {
    if log != [] {
      var front := log[..|log| - 1];
      TableReadsBack(front);
      forall i | 0 <= i < |log|
        ensures log[i].key in TableOf(log) && TableOf(log)[log[i].key] == Committed(log[i].mutations, i + 1)
      {
        if i < |front| { assert front[i] == log[i]; }
      }
      forall k | k in TableOf(log) ensures KeyOccurs(log, k) {
        if k != log[|log| - 1].key {
          assert KeyOccurs(front, k);
          var i :| 0 <= i < |front| && front[i].key == k;
          assert log[i].key == k;
        }
      }
    }
  }

  /** Running the batches of `log` in order rebuilds every fact of the run from nothing. */
  ghost predicate RebuildsFacts(s: RunState, log: seq<LogEntry>) {
    Fold(ApplyMutation, NewRun(s.run), Flatten(log)) == Ok(Facts(s))
  }

  ghost predicate IsLog(s: RunState, log: seq<LogEntry>) {
    IndexesTable(s, log) && RebuildsFacts(s, log)
  }

  lemma MutationOnFacts(s: RunState, m: Mutation)
    requires ApplyMutation(s, m).Ok?
    ensures ApplyMutation(Facts(s), m) == Ok(Facts(ApplyMutation(s, m).value))
    ensures var t := ApplyMutation(s, m).value;
            t.idempotency == s.idempotency && t.run == s.run && t.revision == s.revision
  {
  }

  lemma {:induction false} FoldOnFacts(s: RunState, ms: seq<Mutation>)
    requires Fold(ApplyMutation, s, ms).Ok?
    ensures Fold(ApplyMutation, Facts(s), ms) == Ok(Facts(Fold(ApplyMutation, s, ms).value))
    ensures var t := Fold(ApplyMutation, s, ms).value;
            t.idempotency == s.idempotency && t.run == s.run && t.revision == s.revision
  {
    hide ApplyMutation;
    if ms != [] {
      FoldOnFacts(s, ms[..|ms| - 1]);
      MutationOnFacts(Fold(ApplyMutation, s, ms[..|ms| - 1]).value, ms[|ms| - 1]);
    }
  }

  lemma CommitExtendsLog(s: RunState, r: CommitRequest, log: seq<LogEntry>)
    requires IsLog(s, log)
    requires CommitRun(s, r).Ok? && !CommitRun(s, r).value.1.replayed
    ensures IsLog(CommitRun(s, r).value.0, log + [LogEntry(r.key, r.mutations)])
  {
    hide ApplyMutation, IndexesTable, RebuildsFacts;
    var candidate := Fold(ApplyMutation, s, r.mutations).value;
    FoldOnFacts(s, r.mutations);
    PushIndexes(s, CommitRun(s, r).value.0, r.key, r.mutations, log);
    PushRebuilds(s, candidate, r.key, r.mutations, log);
    RebuildsOnFacts(candidate, CommitRun(s, r).value.0, log + [LogEntry(r.key, r.mutations)]);
  }

  lemma PushIndexes(s: RunState, t: RunState, key: Key, ms: seq<Mutation>, log: seq<LogEntry>)
    requires IndexesTable(s, log) && key !in s.idempotency && s.revision < U64_MAX
    requires t.revision == s.revision + 1 && t.idempotency == s.idempotency[key := Committed(ms, s.revision + 1)]
    ensures IndexesTable(t, log + [LogEntry(key, ms)])
  {
    assert (log + [LogEntry(key, ms)])[..|log|] == log;
    TableReadsBack(log);
  }

  lemma PushRebuilds(s: RunState, t: RunState, key: Key, ms: seq<Mutation>, log: seq<LogEntry>)
    requires RebuildsFacts(s, log) && t.run == s.run
    requires Fold(ApplyMutation, Facts(s), ms) == Ok(Facts(t))
    ensures RebuildsFacts(t, log + [LogEntry(key, ms)])
  {
    hide ApplyMutation;
    assert (log + [LogEntry(key, ms)])[..|log|] == log;
    FoldAppend(ApplyMutation, NewRun(s.run), Flatten(log), ms);
  }

  lemma RebuildsOnFacts(s: RunState, t: RunState, log: seq<LogEntry>)
    requires RebuildsFacts(s, log) && Facts(s) == Facts(t) && s.run == t.run
    ensures RebuildsFacts(t, log)
  {
  }

  lemma {:induction false} StoreKeepsLog(commands: seq<StoreCommand>, run: Id)
    requires run in ExecuteAll(map[], commands)
    ensures ExecuteAll(map[], commands)[run].run == run
    ensures exists log :: IsLog(ExecuteAll(map[], commands)[run], log)
  {
    hide CommitRun, IndexesTable, RebuildsFacts;
    var c := commands[|commands| - 1];
    var before := ExecuteAll(map[], commands[..|commands| - 1]);
    if run in before {
      StoreKeepsLog(commands[..|commands| - 1], run);
      var log :| IsLog(before[run], log);
      if c.CommitTo? && c.request.run == run && Commit(before, c.request).Ok? {
        CommitKeepsRun(before[run], c.request);
        if !CommitRun(before[run], c.request).value.1.replayed {
          CommitExtendsLog(before[run], c.request, log);
        }
      }
    } else {
      NewRunLog(run);
    }
  }

  lemma NewRunLog(run: Id)
    ensures IsLog(NewRun(run), [])
  {
  }

  lemma CommitKeepsRun(s: RunState, r: CommitRequest)
    requires CommitRun(s, r).Ok?
    ensures CommitRun(s, r).value.0.run == s.run
    ensures CommitRun(s, r).value.1.revision == CommitRun(s, r).value.0.revision
    ensures CommitRun(s, r).value.1.replayed ==> CommitRun(s, r).value.0 == s
    ensures forall k :: k in s.idempotency ==>
              k in CommitRun(s, r).value.0.idempotency && CommitRun(s, r).value.0.idempotency[k] == s.idempotency[k]
  {
    if r.key !in s.idempotency { FoldOnFacts(s, r.mutations); }
  }

  /** What was committed stays in the table unchanged. */
  lemma {:induction false} CommittedForever(runs: Runs, commands: seq<StoreCommand>, run: Id, key: Key)
    requires run in runs && key in runs[run].idempotency
    ensures var later := ExecuteAll(runs, commands);
            run in later && key in later[run].idempotency && later[run].idempotency[key] == runs[run].idempotency[key]
  {
    if commands != [] {
      var before, c := ExecuteAll(runs, commands[..|commands| - 1]), commands[|commands| - 1];
      CommittedForever(runs, commands[..|commands| - 1], run, key);
      if c.CommitTo? && c.request.run == run && CommitRun(before[run], c.request).Ok? {
        CommitKeepsRun(before[run], c.request);
      }
    }
  }

  /** Submitting an accepted request again, at any later time, changes nothing and returns the live head. */
  lemma ResubmissionIsHarmless(runs: Runs, request: CommitRequest, later: seq<StoreCommand>, expected: nat)
    requires Commit(runs, request).Ok?
    ensures var now := ExecuteAll(Commit(runs, request).value.0, later);
            && request.run in now
            && Commit(now, request.(expected := expected)) == Ok((now, CommitResult(now[request.run].revision, true)))
  {
    var committed := Commit(runs, request).value.0;
    assert request.key in committed[request.run].idempotency;
    assert committed[request.run].idempotency[request.key].mutations == request.mutations;
    CommittedForever(committed, later, request.run, request.key);
    var now := ExecuteAll(committed, later);
    assert now[request.run := now[request.run]] == now;
  }

  // ---- Lineage ----

  /** A history lists the values of its map, each once. */
  ghost predicate Lists<T>(h: seq<T>, m: map<AttemptId, T>, key: T -> AttemptId) {
    && (forall i, j :: 0 <= i < j < |h| ==> key(h[i]) != key(h[j]))
    && (forall i :: 0 <= i < |h| ==> key(h[i]) in m && m[key(h[i])] == h[i])
    && (forall a :: a in m ==> m[a] in h && key(m[a]) == a)
  }

  function AdmissionAttempt(a: Admission): AttemptId { a.attempt }
  function DispatchAttempt(d: DispatchRecord): AttemptId { d.attempt }
  function OutcomeAttempt(o: OutcomeRecord): AttemptId { o.attempt }

  ghost predicate Listed(s: RunState) {
    && Lists(s.admissionHistory, s.admissions, AdmissionAttempt)
    && Lists(s.dispatchHistory, s.dispatches, DispatchAttempt)
    && Lists(s.outcomeHistory, s.outcomes, OutcomeAttempt)
  }

  /** Tasks and operations correspond one to one. */
  ghost predicate Owned(s: RunState) {
    && (forall o :: o in s.intents ==>
          && s.intents[o].operation == o
          && s.intents[o].task in s.taskOperations && s.taskOperations[s.intents[o].task] == o)
    && (forall t :: t in s.taskOperations ==>
          s.taskOperations[t] in s.intents && s.intents[s.taskOperations[t]].task == t)
  }

  /** Dispatches have a matching admission and intent for the same task, outcomes their dispatch. */
  ghost predicate Linked(s: RunState) {
    && (forall a :: a in s.dispatches ==>
          && a in s.admissions && s.dispatches[a].operation in s.intents
          && s.admissions[a].operation == Some(s.dispatches[a].operation)
          && s.admissions[a].task == s.intents[s.dispatches[a].operation].task)
    && (forall a :: a in s.outcomes ==> a in s.dispatches && s.dispatches[a].operation == s.outcomes[a].operation)
    && (forall a :: a in s.admissions ==> s.admissions[a].run == s.run)
    && (forall t :: t in s.cancellations ==> s.cancellations[t].task == t && s.cancellations[t].run == s.run)
  }

  ghost predicate Lineage(s: RunState) {
    Listed(s) && Owned(s) && Linked(s)
  }

  lemma ListsPush<T>(h: seq<T>, m: map<AttemptId, T>, key: T -> AttemptId, x: T)
    requires Lists(h, m, key) && key(x) !in m
    ensures Lists(h + [x], m[key(x) := x], key)
  {
    var h', m' := h + [x], m[key(x) := x];
    forall a | a in m' ensures m'[a] in h' && key(m'[a]) == a {
      if a == key(x) { assert h'[|h|] == x; } else { assert m[a] in h; }
    }
  }

  lemma MutationKeepsListed(s: RunState, m: Mutation)
    requires Lineage(s) && ApplyMutation(s, m).Ok?
    ensures Listed(ApplyMutation(s, m).value)
  {
    hide Lists, Owned;
    match m
    case AdmitAttempt(a) => ListsPush(s.admissionHistory, s.admissions, AdmissionAttempt, a);
    case RecordIntent(_) =>
    case RecordCancellation(_) =>
    case RecordDispatch(d) => ListsPush(s.dispatchHistory, s.dispatches, DispatchAttempt, d);
    case RecordOutcome(o) =>
      if o.attempt !in s.outcomes { ListsPush(s.outcomeHistory, s.outcomes, OutcomeAttempt, o); }
  }

  lemma MutationKeepsOwned(s: RunState, m: Mutation)
    requires Lineage(s) && ApplyMutation(s, m).Ok?
    ensures Owned(ApplyMutation(s, m).value)
  {
    hide Lists, Linked;
  }

  lemma MutationKeepsLinked(s: RunState, m: Mutation)
    requires Lineage(s) && ApplyMutation(s, m).Ok?
    ensures Linked(ApplyMutation(s, m).value)
  {
    hide Lists, Owned;
  }

  lemma MutationKeepsLineage(s: RunState, m: Mutation)
    requires Lineage(s) && ApplyMutation(s, m).Ok?
    ensures Lineage(ApplyMutation(s, m).value)
  {
    MutationKeepsListed(s, m);
    MutationKeepsOwned(s, m);
    MutationKeepsLinked(s, m);
    hide *;
    LineageParts(ApplyMutation(s, m).value);
  }

  lemma LineageParts(s: RunState)
    ensures Lineage(s) <==> Listed(s) && Owned(s) && Linked(s)
  {
  }

  lemma {:induction false} FoldKeepsLineage(s: RunState, ms: seq<Mutation>)
    requires Lineage(s) && Fold(ApplyMutation, s, ms).Ok?
    ensures Lineage(Fold(ApplyMutation, s, ms).value)
  {
    hide Lineage, ApplyMutation;
    if ms != [] {
      FoldKeepsLineage(s, ms[..|ms| - 1]);
      MutationKeepsLineage(Fold(ApplyMutation, s, ms[..|ms| - 1]).value, ms[|ms| - 1]);
    }
  }

  lemma CommitKeepsLineage(s: RunState, r: CommitRequest)
    requires Lineage(s) && CommitRun(s, r).Ok?
    ensures Lineage(CommitRun(s, r).value.0)
  {
    var replayed := r.key in s.idempotency;
    if !replayed {
      FoldKeepsLineage(s, r.mutations);
      LineageIgnoresTable(Fold(ApplyMutation, s, r.mutations).value, CommitRun(s, r).value.0);
    }
  }

  lemma LineageIgnoresTable(s: RunState, t: RunState)
    requires Lineage(s) && Facts(s) == Facts(t)
    ensures Lineage(t)
  {
    assert t == s.(revision := t.revision, idempotency := t.idempotency);
  }

  /** Every reachable run keeps its lineage. */
  lemma {:induction false} StoreKeepsLineage(commands: seq<StoreCommand>, run: Id)
    requires run in ExecuteAll(map[], commands)
    ensures Lineage(ExecuteAll(map[], commands)[run])
  {
    hide CommitRun, Lineage;
    var c := commands[|commands| - 1];
    var before := ExecuteAll(map[], commands[..|commands| - 1]);
    if run in before {
      StoreKeepsLineage(commands[..|commands| - 1], run);
      if c.CommitTo? && c.request.run == run && Commit(before, c.request).Ok? {
        CommitKeepsLineage(before[run], c.request);
      }
    } else {
      NewRunLineage(run);
    }
  }

  lemma NewRunLineage(run: Id)
    ensures Lineage(NewRun(run))
  {
  }

  // ---- Cancellation and late outcomes ----

  /** `t` has every admission and cancellation of `s`. */
  ghost predicate Adds(s: RunState, t: RunState) {
    && (forall a :: a in s.admissions ==> a in t.admissions && t.admissions[a] == s.admissions[a])
    && (forall k :: k in s.cancellations ==> k in t.cancellations)
  }

  lemma MutationAdds(s: RunState, m: Mutation)
    requires ApplyMutation(s, m).Ok?
    ensures Adds(s, ApplyMutation(s, m).value)
    ensures m.RecordCancellation? ==> m.cancellation.task in ApplyMutation(s, m).value.cancellations
    ensures m.RecordDispatch? ==>
              m.dispatch.attempt in s.admissions && s.admissions[m.dispatch.attempt].task !in s.cancellations
  {
  }

  lemma {:induction false} FoldAdds(s: RunState, ms: seq<Mutation>)
    requires Fold(ApplyMutation, s, ms).Ok?
    ensures Adds(s, Fold(ApplyMutation, s, ms).value)
  {
    hide ApplyMutation;
    if ms != [] {
      FoldAdds(s, ms[..|ms| - 1]);
      MutationAdds(Fold(ApplyMutation, s, ms[..|ms| - 1]).value, ms[|ms| - 1]);
    }
  }

  /** The states before and after one mutation of an accepted sequence. */
  lemma FoldAt(s: RunState, ms: seq<Mutation>, i: nat) returns (before: RunState, after: RunState)
    requires Fold(ApplyMutation, s, ms).Ok? && i < |ms|
    ensures Fold(ApplyMutation, s, ms[..i]) == Ok(before) && ApplyMutation(before, ms[i]) == Ok(after)
    ensures Fold(ApplyMutation, after, ms[i + 1..]) == Fold(ApplyMutation, s, ms)
  {
    hide ApplyMutation;
    FoldStep(ApplyMutation, s, ms, i);
    assert ms == ms[..i + 1] + ms[i + 1..];
    FoldAppend(ApplyMutation, s, ms[..i + 1], ms[i + 1..]);
    before := Fold(ApplyMutation, s, ms[..i]).value;
    after := ApplyMutation(before, ms[i]).value;
  }

  /** In no accepted sequence does a dispatch of a task come after the task's cancellation. */
  lemma NoDispatchAfterCancellation(run: Id, ms: seq<Mutation>, i: nat, j: nat)
    requires Fold(ApplyMutation, NewRun(run), ms).Ok?
    requires i < j < |ms| && ms[i].RecordCancellation? && ms[j].RecordDispatch?
    ensures var t := Fold(ApplyMutation, NewRun(run), ms).value;
            && ms[j].dispatch.attempt in t.admissions
            && t.admissions[ms[j].dispatch.attempt].task != ms[i].cancellation.task
  {
    hide ApplyMutation;
    var ready, cancelled := FoldAt(NewRun(run), ms, i);
    var rest := ms[i + 1..];
    assert rest[j - i - 1] == ms[j];
    var before, after := FoldAt(cancelled, rest, j - i - 1);
    MutationAdds(ready, ms[i]);
    MutationAdds(before, ms[j]);
    FoldAdds(cancelled, rest[..j - i - 1]);
    FoldAdds(after, rest[j - i..]);
  }

  lemma LatestIsListed(s: RunState, operation: Id)
    requires Lineage(s) && s.LatestDispatch(operation).Some?
    ensures var d := s.LatestDispatch(operation).value;
            d.attempt in s.dispatches && s.dispatches[d.attempt] == d && d.operation == operation
  {
  }

  /** An outcome for an attempt that is not the latest dispatch of its operation changes no effect state. */
  lemma LateOutcomeIsHistory(s: RunState, o: OutcomeRecord, operation: Id)
    requires Lineage(s) && Resolve(s, o).Ok?
    requires s.LatestDispatch(o.operation) != Some(DispatchRecord(o.operation, o.attempt))
    ensures Resolve(s, o).value.EffectState(operation) == s.EffectState(operation)
  {
    hide Linked;
    if s.LatestDispatch(operation).Some? {
      LatestIsListed(s, operation);
    }
  }
}
