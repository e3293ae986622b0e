/** What every public call of the runtime keeps, whether it succeeds or fails. */
module RuntimeSafety {
  import opened Prelude
  import opened DurableModel
  import opened JournalModel
  import opened StoreProtocol
  import opened RuntimeModel
  import Workflow = WorkflowModel

  /** The stored run the runtime commits to. */
  function Head(r: Runtime): RunState {
    if r.run in r.runs then r.runs[r.run] else NewRun(r.run)
  }

  /** Everything the runtime derives from the store agrees with it. */
  ghost predicate Coupled(r: Runtime) {
    && r.run in r.runs && Head(r).run == r.run && Protected(Head(r))
    && r.journal == View(Head(r))
    && r.cancelled == Head(r).cancellations.Keys
    && r.revision == Head(r).revision
  }

  ghost predicate Admitted(s: RunState, a: Attempt) {
    a.attempt in s.admissions && s.admissions[a.attempt] == AdmissionOf(a)
  }

  /** Attempts held in memory are durably admitted, and the next number is unused. */
  ghost predicate Attempted(r: Runtime) {
    && (forall i :: 0 <= i < |r.attempts| ==> Admitted(Head(r), r.attempts[i]))
    && (r.pending.Some? ==> Admitted(Head(r), r.pending.value.attempt))
    && r.nextAttempt == NextNumber(Head(r))
  }

  ghost predicate Safe(r: Runtime) {
    Coupled(r) && Attempted(r) && Workflow.Valid(r.workflow) && Agrees(r.workflow, Head(r))
  }

  /** At most one dispatch is appended, where the guard allows and the task is not cancelled. */
  ghost predicate DispatchesSafely(before: RunState, after: RunState) {
    || after.dispatchHistory == before.dispatchHistory
    || exists d ::
         && after.dispatchHistory == before.dispatchHistory + [d]
         && MayDispatch(before, d.operation)
         && before.intents[d.operation].task !in before.cancellations
  }

  /** How the state after a call relates to the state before it. */
  ghost predicate Follows(r: Runtime, n: Runtime) {
    && n.run == r.run
    && r.workflow.completed <= n.workflow.completed
    && r.workflow.topology.tasks.Keys <= n.workflow.topology.tasks.Keys
    && DispatchesSafely(Head(r), Head(n))
    && IntentsForTasks(Head(r), Head(n), n.workflow)
    && SuccessKept(Head(r), Head(n))
  }

  /** An operation whose latest dispatch has succeeded stays that way. */
  ghost predicate SuccessKept(before: RunState, after: RunState) {
    forall o :: before.EffectState(o) == OutcomeKnown(Succeeded) ==> after.EffectState(o) == OutcomeKnown(Succeeded)
  }

  lemma AdvanceKeepsSuccess(s: RunState, m: Mutation)
    requires Protected(s) && Guard(s, m)
    ensures SuccessKept(s, Advance(s, m))
  {
    hide Protected, CommitRun, Guard, RunState.EffectState;
    forall o | s.EffectState(o) == OutcomeKnown(Succeeded)
      ensures Advance(s, m).EffectState(o) == OutcomeKnown(Succeeded)
    {
      SuccessIsPermanent(s, m, o);
    }
  }

  lemma SameEffectsKeepSuccess(s: RunState, t: RunState)
    requires SameEffects(s, t)
    ensures SuccessKept(s, t)
  {
    hide RunState.EffectState;
    forall o ensures s.EffectState(o) == t.EffectState(o) {
      EffectIgnoresTable(s, t, o);
    }
  }

  /** Intents stay as recorded, and new ones belong to tasks of the workflow. */
  ghost predicate IntentsForTasks(before: RunState, after: RunState, g: Workflow.Graph) {
    && (forall o :: o in before.intents ==> o in after.intents && after.intents[o] == before.intents[o])
    && (forall o :: o in after.intents ==> o in before.intents || after.intents[o].task in g.topology.tasks)
  }

  /** A call that fails in the store has left the run at its last revision. */
  ghost predicate StoreWilling<T>(n: Runtime, result: Result<T, RuntimeError>) {
    result.Err? && result.error.StoreFailure? ==> Head(n).revision == U64_MAX
  }

  // ---- Commits ----

  lemma CommitAdvances(r: Runtime, m: Mutation)
    requires Coupled(r) && Guard(Head(r), m)
    ensures var c := CommitDurable(r, KeyOf(m), m);
            && c.next == r.(runs := c.next.runs, revision := Head(c.next).revision)
            && r.run in c.next.runs && Head(c.next) == Advance(Head(r), m) && Head(r).revision <= U64_MAX
            && Head(c.next).run == r.run && Protected(Head(c.next))
            && (c.result.Ok? <==> CommitRun(Head(r), RequestFor(Head(r), m)).Ok?)
            && (c.result.Err? ==> c.next == r && c.result.error.StoreFailure?)
  {
    hide CommitRun, Lineage, Keyed, AtMostOnce;
    AdvanceKeepsProtected(Head(r), m);
    if CommitRun(Head(r), RequestFor(Head(r), m)).Ok? {
      CommitKeepsRun(Head(r), RequestFor(Head(r), m));
    }
  }

  lemma AdvanceKeepsAdmitted(s: RunState, m: Mutation, a: Attempt)
    requires Protected(s) && Admitted(s, a)
    ensures Admitted(Advance(s, m), a)
  {
    hide CommitRun, Lineage, Keyed;
    if CommitRun(s, RequestFor(s, m)).Ok? {
      AdvanceCases(s, m);
    }
  }

  /** A commit of anything but an admission leaves attempts and numbering alone. */
  lemma AdvanceKeepsAttempted(r: Runtime, m: Mutation, n: Runtime)
    requires Coupled(r) && Attempted(r) && !m.AdmitAttempt?
    requires n.attempts == r.attempts && n.pending == r.pending && n.nextAttempt == r.nextAttempt
    requires Head(n) == Advance(Head(r), m)
    ensures Attempted(n)
  {
    hide CommitRun, Protected, Admitted;
    forall i | 0 <= i < |n.attempts| ensures Admitted(Head(n), n.attempts[i]) {
      AdvanceKeepsAdmitted(Head(r), m, r.attempts[i]);
    }
    if r.pending.Some? { AdvanceKeepsAdmitted(Head(r), m, r.pending.value.attempt); }
    AdvanceKeepsHistory(Head(r), m);
  }

  lemma AdvanceKeepsHistory(s: RunState, m: Mutation)
    requires Protected(s) && !m.AdmitAttempt?
    ensures Advance(s, m).admissionHistory == s.admissionHistory
  {
    hide CommitRun, Lineage, Keyed;
    if CommitRun(s, RequestFor(s, m)).Ok? {
      AdvanceCases(s, m);
    }
  }

  // ---- Attempts ----

  /** The effect facts, which admissions do not touch. */
  ghost predicate SameEffects(s: RunState, t: RunState) {
    && s.intents == t.intents && s.taskOperations == t.taskOperations && s.cancellations == t.cancellations
    && s.dispatches == t.dispatches && s.dispatchHistory == t.dispatchHistory && s.outcomes == t.outcomes
  }

  lemma AdmissionKeepsEffects(s: RunState, a: Admission)
    requires Protected(s)
    ensures SameEffects(s, Advance(s, AdmitAttempt(a)))
  {
    hide CommitRun, Lineage, Keyed;
    if CommitRun(s, RequestFor(s, AdmitAttempt(a))).Ok? {
      AdvanceCases(s, AdmitAttempt(a));
    }
  }

  /** An accepted admission is on record and uses up its number. */
  lemma AdmissionIsRecorded(s: RunState, a: Admission)
    requires Protected(s) && Guard(s, AdmitAttempt(a)) && CommitRun(s, RequestFor(s, AdmitAttempt(a))).Ok?
    ensures var t := Advance(s, AdmitAttempt(a));
            && a.attempt in t.admissions && t.admissions[a.attempt] == a
            && NextNumber(t) == if NextNumber(s) < U64_MAX then NextNumber(s) + 1 else U64_MAX
  {
    hide CommitRun, Lineage;
    AdvanceCases(s, AdmitAttempt(a));
    AdvanceKeepsNumbering(s, AdmitAttempt(a));
    if |s.admissionHistory| < U64_MAX { NextNumberIsUnused(s); }
  }

  /** The runtime's view of the store survives an admission, which it does not show. */
  lemma AdmissionKeepsCoupling(r: Runtime, a: Admission, n: Runtime)
    requires Coupled(r) && Guard(Head(r), AdmitAttempt(a))
    requires n.run == r.run && n.run in n.runs && Head(n) == Advance(Head(r), AdmitAttempt(a))
    requires n.revision == Head(n).revision
    requires n.journal == r.journal && n.cancelled == r.cancelled
    ensures Coupled(n) && SameEffects(Head(r), Head(n))
  {
    hide CommitRun, Protected;
    AdvanceKeepsProtected(Head(r), AdmitAttempt(a));
    AdmissionKeepsEffects(Head(r), a);
  }

  lemma SameEffectsAgree(g: Workflow.Graph, s: RunState, t: RunState)
    requires SameEffects(s, t) && Agrees(g, s)
    ensures Agrees(g, t)
    ensures forall o :: s.EffectState(o) == t.EffectState(o)
  {
    forall o ensures s.EffectState(o) == t.EffectState(o) {
      EffectIgnoresTable(s, t, o);
    }
  }

  ghost predicate BeginsFor(r: Runtime, n: Runtime, result: Result<AttemptId, RuntimeError>, task: Id,
                            operation: Option<Id>)
  {
    && n.run == r.run && n.workflow == r.workflow && n.configs == r.configs
    && n.journal == r.journal && n.cancelled == r.cancelled && SameEffects(Head(r), Head(n))
    && (result.Ok? ==>
          && result.value in Head(n).admissions
          && Head(n).admissions[result.value].task == task
          && Head(n).admissions[result.value].operation == operation)
  }

  lemma AnnounceFrame(r: Runtime, a: Attempt)
    ensures var d := Announce(r, a);
            && d.next == r.(attempts := d.next.attempts, pending := d.next.pending, sequencer := d.next.sequencer,
                            events := d.next.events)
            && (d.next.attempts == r.attempts || d.next.attempts == r.attempts + [a])
            && (d.next.pending == r.pending || (d.next.pending.Some? && d.next.pending.value.attempt == a))
            && (d.result.Ok? ==> d.result.value == a.attempt)
            && (d.result.Err? ==> !d.result.error.StoreFailure?)
  {
  }

  lemma BeginAttemptSafe(r: Runtime, task: Id, operation: Option<Id>, env: Environment)
    requires Safe(r)
    ensures var d := BeginAttempt(r, task, operation, env);
            Safe(d.next) && BeginsFor(r, d.next, d.result, task, operation) && StoreWilling(d.next, d.result)
  {
    hide CommitRun, Protected, CommitDurable, Announce, Agrees, Workflow.Valid;
    if env(task).Unavailable? { return; }
    var a := Attempt(r.run, task, Numbered(r.run, r.nextAttempt), operation, env(task).capabilities);
    var m := AdmitAttempt(AdmissionOf(a));
    var c := CommitDurable(r, KeyOf(m), m);
    CommitAdvances(r, m);
    if c.result.Err? {
      if Head(r).revision < U64_MAX { AdmissionIsAcceptedHere(r, m.admission); }
      return;
    }
    AdmissionIsRecorded(Head(r), m.admission);
    AdmissionKeepsCoupling(r, m.admission, c.next);
    SameEffectsAgree(r.workflow, Head(r), Head(c.next));
    var n := if r.nextAttempt >= U64_MAX then c.next else c.next.(nextAttempt := r.nextAttempt + 1);
    AdmissionKeepsAttempted(r, a, n);
    AnnounceFrame(n, a);
  }

  lemma AdmissionIsAcceptedHere(r: Runtime, a: Admission)
    requires Coupled(r) && Head(r).revision < U64_MAX && Guard(Head(r), AdmitAttempt(a)) && a.run == r.run
    ensures CommitRun(Head(r), RequestFor(Head(r), AdmitAttempt(a))).Ok?
  {
    hide CommitRun, Protected;
    AdmissionIsAccepted(Head(r), a);
  }

  lemma AdmissionKeepsAttempted(r: Runtime, a: Attempt, n: Runtime)
    requires Coupled(r) && Attempted(r) && Guard(Head(r), AdmitAttempt(AdmissionOf(a)))
    requires n.attempts == r.attempts && n.pending == r.pending && n.nextAttempt == NextNumber(Head(n))
    requires Head(n) == Advance(Head(r), AdmitAttempt(AdmissionOf(a)))
    ensures Attempted(n)
  {
    hide CommitRun, Protected, Admitted;
    forall i | 0 <= i < |n.attempts| ensures Admitted(Head(n), n.attempts[i]) {
      AdvanceKeepsAdmitted(Head(r), AdmitAttempt(AdmissionOf(a)), r.attempts[i]);
    }
    if r.pending.Some? { AdvanceKeepsAdmitted(Head(r), AdmitAttempt(AdmissionOf(a)), r.pending.value.attempt); }
  }

  lemma CurrentAttemptSafe(r: Runtime, task: Id, operation: Option<Id>, env: Environment)
    requires Safe(r)
    ensures var d := CurrentAttempt(r, task, operation, env);
            Safe(d.next) && BeginsFor(r, d.next, d.result, task, operation) && StoreWilling(d.next, d.result)
  {
    hide Protected, BeginAttempt, Agrees, Workflow.Valid, LastMatching;
    BeginAttemptSafe(r, task, operation, env);
  }

  // ---- Effects ----

  /** A call that keeps the invariant, dispatches safely, and is never refused by a store with revisions left. */
  ghost predicate Good<T>(r: Runtime, s: Step<T>) {
    Safe(s.next) && Follows(r, s.next) && StoreWilling(s.next, s.result)
  }

  lemma UnchangedIsGood<T>(r: Runtime, s: Step<T>)
    requires Safe(r) && s.next == r && (s.result.Err? ==> !s.result.error.StoreFailure?)
    ensures Good(r, s)
  {
  }

  lemma BeginIsGood(r: Runtime, s: Step<AttemptId>, task: Id, operation: Option<Id>)
    requires Safe(r) && Safe(s.next) && BeginsFor(r, s.next, s.result, task, operation)
    requires StoreWilling(s.next, s.result)
    ensures Good(r, s)
  {
    hide Safe, RunState.EffectState;
    SameEffectsKeepSuccess(Head(r), Head(s.next));
  }

  /** Accepting an intent, dispatch or outcome updates store and journal to the same facts. */
  lemma JournalFollows(r: Runtime, m: Mutation, candidate: Journal)
    requires Coupled(r) && Guard(Head(r), m) && CommitRun(Head(r), RequestFor(Head(r), m)).Ok?
    requires match m {
               case RecordIntent(i) => PersistIntent(r.journal, i) == Ok(candidate)
               case RecordDispatch(d) => PersistDispatch(r.journal, d) == Ok(candidate)
               case RecordOutcome(o) => PersistOutcome(r.journal, o) == Ok(candidate)
               case _ => false
             }
    ensures View(Advance(Head(r), m)) == candidate
    ensures Advance(Head(r), m).cancellations == Head(r).cancellations
  {
    hide CommitRun, Listed, Owned, AtMostOnce, NumberedInOrder, AttemptsByOperation, PersistDispatch;
    var s := Head(r);
    AdvanceCases(s, m);
    if m.RecordDispatch? {
      DispatchKeyIsNew(s, m.dispatch);
      DispatchesAgree(s, m.dispatch);
    }
    if m.RecordOutcome? { OutcomesAgree(s, m.result); }
  }

  lemma DispatchKeyIsNew(s: RunState, d: DispatchRecord)
    requires Keyed(s) && PersistDispatch(View(s), d).Ok?
    ensures DispatchKey(d.attempt) !in s.idempotency
  {
  }

  lemma CommitKeepsCoupling(r: Runtime, m: Mutation, n: Runtime)
    requires Coupled(r) && Guard(Head(r), m)
    requires n.run == r.run && n.run in n.runs && Head(n) == Advance(Head(r), m) && n.revision == Head(n).revision
    requires n.journal == View(Head(n)) && n.cancelled == Head(n).cancellations.Keys
    ensures Coupled(n)
  {
    hide CommitRun, Protected;
    AdvanceKeepsProtected(Head(r), m);
  }

  lemma NoDispatchFollows(r: Runtime, m: Mutation)
    requires Coupled(r) && Guard(Head(r), m) && !m.RecordDispatch?
    requires m.RecordIntent? ==> m.intent.task in r.workflow.topology.tasks
    ensures Advance(Head(r), m).dispatchHistory == Head(r).dispatchHistory
    ensures IntentsForTasks(Head(r), Advance(Head(r), m), r.workflow)
    ensures SuccessKept(Head(r), Advance(Head(r), m))
  {
    hide CommitRun, Lineage, Keyed, RunState.EffectState;
    AdvanceKeepsSuccess(Head(r), m);
    if Advance(Head(r), m).dispatchHistory != Head(r).dispatchHistory {
      DispatchIsGuarded(Head(r), m);
    }
    AdvanceKeepsIntents(Head(r), m);
  }

  lemma AdvanceKeepsIntents(s: RunState, m: Mutation)
    requires Protected(s)
    ensures var t := Advance(s, m);
            && (forall o :: o in s.intents ==> o in t.intents && t.intents[o] == s.intents[o])
            && (forall o :: o in t.intents ==> o in s.intents || (m.RecordIntent? && t.intents[o] == m.intent))
  {
    hide CommitRun, Lineage, Keyed;
    if CommitRun(s, RequestFor(s, m)).Ok? {
      AdvanceCases(s, m);
    }
  }

  lemma RecordEffectIntentSafe(r: Runtime, task: Id, operation: Id, semantics: Semantics)
    requires Safe(r)
    ensures var d := RecordEffectIntent(r, task, operation, semantics);
            && Good(r, d)
            && (d.result.Ok? ==>
                  task in d.next.journal.taskOperations && d.next.journal.taskOperations[task] == operation)
  {
    hide CommitRun, Protected, CommitDurable, Agrees, Workflow.Valid;
    var i := EffectIntent(task, operation, semantics);
    var m := RecordIntent(i);
    var d := RecordEffectIntent(r, task, operation, semantics);
    if d.next == r && (d.result.Err? ==> !d.result.error.StoreFailure?) { return; }
    CommitAdvances(r, m);
    if d.result.Err? {
      if Head(r).revision < U64_MAX { IntentIsAcceptedHere(r, i); }
      return;
    }
    JournalFollows(r, m, d.next.journal);
    CommitKeepsCoupling(r, m, d.next);
    AdvanceKeepsAttempted(r, m, d.next);
    AdvanceKeepsAgreementHere(r, m);
    NoDispatchFollows(r, m);
  }

  lemma IntentIsAcceptedHere(r: Runtime, i: EffectIntent)
    requires Coupled(r) && Head(r).revision < U64_MAX && PersistIntent(r.journal, i).Ok?
    ensures CommitRun(Head(r), RequestFor(Head(r), RecordIntent(i))).Ok?
  {
    hide CommitRun, Protected, PersistIntent;
    IntentIsAccepted(Head(r), i);
  }

  lemma AdvanceKeepsAgreementHere(r: Runtime, m: Mutation)
    requires Coupled(r) && Guard(Head(r), m) && Agrees(r.workflow, Head(r))
    requires m.RecordIntent? ==> m.intent.task !in r.workflow.completed
    ensures Agrees(r.workflow, Advance(Head(r), m))
  {
    hide CommitRun, Protected, Agrees;
    AdvanceKeepsAgreement(r.workflow, Head(r), m);
  }

  lemma RecordEffectOutcomeSafe(r: Runtime, operation: Id, attempt: AttemptId, outcome: KnownOutcome)
    requires Safe(r)
    ensures Good(r, RecordEffectOutcome(r, operation, attempt, outcome))
  {
    hide CommitRun, Protected, CommitDurable, Agrees, Workflow.Valid;
    var o := OutcomeRecord(operation, attempt, outcome);
    var m := RecordOutcome(o);
    var d := RecordEffectOutcome(r, operation, attempt, outcome);
    if d.next == r && (d.result.Err? ==> !d.result.error.StoreFailure?) { return; }
    CommitAdvances(r, m);
    if d.result.Err? {
      if Head(r).revision < U64_MAX { OutcomeIsAcceptedHere(r, o); }
      return;
    }
    JournalFollows(r, m, d.next.journal);
    CommitKeepsCoupling(r, m, d.next);
    AdvanceKeepsAttempted(r, m, d.next);
    AdvanceKeepsAgreementHere(r, m);
    NoDispatchFollows(r, m);
  }

  lemma OutcomeIsAcceptedHere(r: Runtime, o: OutcomeRecord)
    requires Coupled(r) && Head(r).revision < U64_MAX && PersistOutcome(r.journal, o).Ok?
    ensures CommitRun(Head(r), RequestFor(Head(r), RecordOutcome(o))).Ok?
  {
    hide CommitRun, Protected, PersistOutcome;
    OutcomeIsAccepted(Head(r), o);
  }

  // ---- Dispatch ----

  lemma AttemptToDispatchSafe(r: Runtime, operation: Id, env: Environment)
    requires Safe(r)
    ensures var d := AttemptToDispatch(r, operation, env);
            && Good(r, d) && d.next.journal == r.journal && SameEffects(Head(r), Head(d.next))
            && d.next.workflow == r.workflow && d.next.run == r.run
            && (d.result.Ok? ==>
                  && operation in r.journal.intents && MayDispatch(Head(r), operation)
                  && r.journal.intents[operation].task !in r.cancelled
                  && d.result.value in Head(d.next).admissions
                  && Head(d.next).admissions[d.result.value].task == r.journal.intents[operation].task
                  && Head(d.next).admissions[d.result.value].operation == Some(operation))
  {
    hide Protected, Agrees, Workflow.Valid, BeginAttempt, CurrentAttempt, View, Journal.State, RunState.EffectState,
      Attempted;
    if operation in r.journal.intents {
      var task := r.journal.intents[operation].task;
      JournalStateIsEffectState(r, operation);
      CurrentAttemptSafe(r, task, Some(operation), env);
      BeginAttemptSafe(r, task, Some(operation), env);
    }
    SameEffectsKeepSuccess(Head(r), Head(AttemptToDispatch(r, operation, env).next));
  }

  lemma JournalStateIsEffectState(r: Runtime, operation: Id)
    requires Coupled(r)
    ensures r.journal.State(operation) == Head(r).EffectState(operation)
    ensures r.journal.intents == Head(r).intents
    ensures r.journal.taskOperations == Head(r).taskOperations
    ensures r.journal.KnownOutcome(operation) == Head(r).LatestOutcome(operation)
    ensures r.journal.LatestDispatch(operation) == Head(r).LatestDispatch(operation)
  {
    hide Lineage, Keyed, AtMostOnce, NumberedInOrder, RunState.EffectState, Journal.State;
    ViewAgrees(Head(r), operation);
  }

  lemma AppendDispatchSafe(r: Runtime, operation: Id, attempt: AttemptId)
    requires Safe(r) && operation in r.journal.intents && MayDispatch(Head(r), operation)
    requires r.journal.intents[operation].task !in r.cancelled
    requires attempt in Head(r).admissions && Head(r).admissions[attempt].operation == Some(operation)
    requires Head(r).admissions[attempt].task == r.journal.intents[operation].task
    ensures Good(r, AppendDispatch(r, operation, attempt))
  {
    hide CommitRun, Protected, CommitDurable, Agrees, Workflow.Valid, PersistDispatch, MayDispatch;
    var record := DispatchRecord(operation, attempt);
    var m := RecordDispatch(record);
    var d := AppendDispatch(r, operation, attempt);
    if d.next == r && (d.result.Err? ==> !d.result.error.StoreFailure?) { return; }
    CommitAdvances(r, m);
    if d.result.Err? {
      if Head(r).revision < U64_MAX { DispatchIsAcceptedHere(r, record); }
      return;
    }
    JournalFollows(r, m, d.next.journal);
    CommitKeepsCoupling(r, m, d.next);
    AdvanceKeepsAttempted(r, m, d.next);
    AdvanceKeepsAgreementHere(r, m);
    DispatchFollows(r, m);
  }

  lemma DispatchFollows(r: Runtime, m: Mutation)
    requires Coupled(r) && Guard(Head(r), m)
    requires m.RecordDispatch?
    ensures DispatchesSafely(Head(r), Advance(Head(r), m))
    ensures IntentsForTasks(Head(r), Advance(Head(r), m), r.workflow)
    ensures SuccessKept(Head(r), Advance(Head(r), m))
  {
    hide CommitRun, Lineage, Keyed, AtMostOnce, NumberedInOrder, RunState.EffectState;
    AdvanceKeepsSuccess(Head(r), m);
    AdvanceKeepsIntents(Head(r), m);
    if Advance(Head(r), m).dispatchHistory != Head(r).dispatchHistory {
      DispatchIsGuarded(Head(r), m);
    }
  }

  lemma DispatchIsAcceptedHere(r: Runtime, d: DispatchRecord)
    requires Coupled(r) && Head(r).revision < U64_MAX && PersistDispatch(r.journal, d).Ok?
    requires d.attempt in Head(r).admissions && Head(r).admissions[d.attempt].operation == Some(d.operation)
    requires d.operation in r.journal.intents && r.journal.intents[d.operation].task !in r.cancelled
    requires Head(r).admissions[d.attempt].task == r.journal.intents[d.operation].task
    ensures CommitRun(Head(r), RequestFor(Head(r), RecordDispatch(d))).Ok?
  {
    hide CommitRun, Protected, PersistDispatch;
    DispatchIsAccepted(Head(r), d);
  }

  lemma DispatchEffectSafe(r: Runtime, operation: Id, env: Environment)
    requires Safe(r)
    ensures Good(r, DispatchEffect(r, operation, env))
  {
    hide Safe, Follows, AttemptToDispatch, AppendDispatch, RunState.EffectState;
    AttemptToDispatchSafe(r, operation, env);
    var begun := AttemptToDispatch(r, operation, env);
    if begun.result.Ok? {
      DispatchStillAllowed(r, begun.next, operation);
      AppendDispatchSafe(begun.next, operation, begun.result.value);
      FollowsAfterAdmission(r, begun.next, DispatchEffect(r, operation, env).next);
    }
  }

  /** What follows an admission follows the state before it. */
  lemma FollowsAfterAdmission(r: Runtime, n: Runtime, after: Runtime)
    requires Follows(n, after) && SameEffects(Head(r), Head(n)) && n.run == r.run && n.workflow == r.workflow
    ensures Follows(r, after)
  {
    hide RunState.EffectState;
    SameEffectsKeepSuccess(Head(r), Head(n));
    if Head(after).dispatchHistory != Head(n).dispatchHistory {
      var d :| && Head(after).dispatchHistory == Head(n).dispatchHistory + [d]
               && MayDispatch(Head(n), d.operation)
               && Head(n).intents[d.operation].task !in Head(n).cancellations;
      EffectIgnoresTable(Head(r), Head(n), d.operation);
      assert MayDispatch(Head(r), d.operation);
    }
  }

  lemma DispatchStillAllowed(r: Runtime, n: Runtime, operation: Id)
    requires SameEffects(Head(r), Head(n)) && Safe(r) && Safe(n) && MayDispatch(Head(r), operation)
    ensures MayDispatch(Head(n), operation) && r.cancelled == n.cancelled
  {
    hide Protected, Agrees, Workflow.Valid;
    EffectIgnoresTable(Head(r), Head(n), operation);
  }
}
