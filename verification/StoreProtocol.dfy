/**
 The commits a runtime makes: one keyed mutation at a time, under guards the
 store itself does not check, and what every such commit keeps.
 */
module StoreProtocol {
  import opened Prelude
  import opened DurableModel
  import opened JournalModel
  import Workflow = WorkflowModel

  function KeyOf(m: Mutation): Key {
    match m
    case AdmitAttempt(a) => AdmitKey(a.attempt)
    case RecordIntent(i) => IntentKey(i.operation)
    case RecordCancellation(c) => CancelKey(c.task)
    case RecordDispatch(d) => DispatchKey(d.attempt)
    case RecordOutcome(o) => OutcomeKey(o.attempt)
  }

  function RequestFor(s: RunState, m: Mutation): CommitRequest {
    CommitRequest(s.run, s.revision, KeyOf(m), [m])
  }

  /** The run after a commit of `m` at the head; a rejected commit changes nothing. */
  function Advance(s: RunState, m: Mutation): RunState {
    var done := CommitRun(s, RequestFor(s, m));
    if done.Ok? then done.value.0 else s
  }

  /** The number the runtime gives its next attempt; it sticks at the largest representable one. */
  function NextNumber(s: RunState): nat {
    if |s.admissionHistory| < U64_MAX then |s.admissionHistory| + 1 else U64_MAX
  }

  /** A dispatch may be appended before the first one, or as the retry of an idempotent effect of unknown outcome. */
  predicate MayDispatch(s: RunState, operation: Id) {
    && operation in s.intents
    && (|| s.EffectState(operation) == Prepared
        || (s.EffectState(operation) == OutcomeUnknown && s.intents[operation].semantics == Idempotent))
  }

  /** What the runtime establishes before it commits a mutation. */
  predicate Guard(s: RunState, m: Mutation) {
    match m
    case AdmitAttempt(a) => a.attempt == Numbered(s.run, NextNumber(s))
    case RecordDispatch(d) => MayDispatch(s, d.operation)
    case _ => true
  }

  // ---- Invariants of a run that only the runtime commits to ----

  predicate Present(s: RunState, m: Mutation) {
    match m
    case AdmitAttempt(a) => a.attempt in s.admissions && s.admissions[a.attempt] == a
    case RecordIntent(i) => i.operation in s.intents && s.intents[i.operation] == i
    case RecordCancellation(c) => c.task in s.cancellations && s.cancellations[c.task] == c
    case RecordDispatch(d) => d.attempt in s.dispatches && s.dispatches[d.attempt] == d
    case RecordOutcome(o) => o.attempt in s.outcomes && s.outcomes[o.attempt] == o
  }

  /** Each key names the one mutation it was used for, and every known outcome has its key. */
  ghost predicate Keyed(s: RunState) {
    && (forall k :: k in s.idempotency ==>
          && |s.idempotency[k].mutations| == 1
          && KeyOf(s.idempotency[k].mutations[0]) == k
          && Present(s, s.idempotency[k].mutations[0]))
    && (forall a :: a in s.outcomes ==> OutcomeKey(a) in s.idempotency)
  }

  /** Attempt numbers are 1, 2, ... in admission order. */
  ghost predicate NumberedInOrder(s: RunState) {
    && |s.admissionHistory| <= s.revision <= U64_MAX
    && forall i :: 0 <= i < |s.admissionHistory| ==> s.admissionHistory[i].attempt == Numbered(s.run, i + 1)
  }

  /** Only idempotent operations appear twice in the dispatch history. */
  ghost predicate AtMostOnce(s: RunState) {
    forall i, j ::
      0 <= i < j < |s.dispatchHistory| && s.dispatchHistory[i].operation == s.dispatchHistory[j].operation ==>
      s.dispatchHistory[i].operation in s.intents && s.intents[s.dispatchHistory[i].operation].semantics == Idempotent
  }

  ghost predicate Protected(s: RunState) {
    Lineage(s) && Keyed(s) && NumberedInOrder(s) && AtMostOnce(s)
  }

  // ---- One commit ----

  /** An accepted commit is either a replay, changing nothing, or applies its one mutation. */
  lemma AdvanceCases(s: RunState, m: Mutation)
    requires Keyed(s) && CommitRun(s, RequestFor(s, m)).Ok?
    ensures KeyOf(m) in s.idempotency ==> Advance(s, m) == s && Present(s, m)
    ensures KeyOf(m) !in s.idempotency ==>
              && ApplyMutation(s, m).Ok? && s.revision < U64_MAX
              && Advance(s, m) == ApplyMutation(s, m).value.(
                   revision := s.revision + 1,
                   idempotency := s.idempotency[KeyOf(m) := Committed([m], s.revision + 1)])
  {
    if KeyOf(m) !in s.idempotency {
      FoldSingle(s, m);
      FoldOnFacts(s, [m]);
    }
  }

  lemma FoldSingle(s: RunState, m: Mutation)
    ensures Fold(ApplyMutation, s, [m]) == ApplyMutation(s, m)
  {
    assert [m][..0] == [];
  }

  lemma MutationKeepsPresent(s: RunState, m: Mutation, past: Mutation)
    requires ApplyMutation(s, m).Ok? && Present(s, past)
    ensures Present(ApplyMutation(s, m).value, past)
  {
  }

  lemma PresentIgnoresTable(s: RunState, t: RunState, m: Mutation)
    requires Facts(s) == Facts(t)
    ensures Present(s, m) == Present(t, m)
  {
    assert t == s.(revision := t.revision, idempotency := t.idempotency);
  }

  lemma MutationIsPresent(s: RunState, m: Mutation)
    requires Linked(s) && ApplyMutation(s, m).Ok? && (m.RecordOutcome? ==> m.result.attempt !in s.outcomes)
    ensures Present(ApplyMutation(s, m).value, m)
    ensures forall a :: a in ApplyMutation(s, m).value.outcomes ==>
              a in s.outcomes || (m.RecordOutcome? && m.result.attempt == a)
  {
  }

  lemma AdvanceKeepsKeyed(s: RunState, m: Mutation)
    requires Protected(s) && CommitRun(s, RequestFor(s, m)).Ok?
    ensures Keyed(Advance(s, m))
  {
    hide ApplyMutation, CommitRun, Present, Listed, Owned;
    AdvanceCases(s, m);
    if KeyOf(m) !in s.idempotency {
      var t, u := Advance(s, m), ApplyMutation(s, m).value;
      if m.RecordOutcome? { assert OutcomeKey(m.result.attempt) !in s.idempotency; }
      MutationIsPresent(s, m);
      PresentIgnoresTable(u, t, m);
      forall k | k in t.idempotency
        ensures |t.idempotency[k].mutations| == 1
        ensures KeyOf(t.idempotency[k].mutations[0]) == k && Present(t, t.idempotency[k].mutations[0])
      {
        if k != KeyOf(m) {
          MutationKeepsPresent(s, m, s.idempotency[k].mutations[0]);
          PresentIgnoresTable(u, t, s.idempotency[k].mutations[0]);
        }
      }
    }
  }

  lemma AdvanceKeepsNumbering(s: RunState, m: Mutation)
    requires Keyed(s) && NumberedInOrder(s) && Guard(s, m) && CommitRun(s, RequestFor(s, m)).Ok?
    ensures NumberedInOrder(Advance(s, m))
    ensures m.AdmitAttempt? && KeyOf(m) !in s.idempotency ==>
              Advance(s, m).admissionHistory == s.admissionHistory + [m.admission]
  {
    hide CommitRun, Keyed;
    AdvanceCases(s, m);
  }

  lemma {:induction false} LastForMeetsEvery(h: seq<DispatchRecord>, i: nat)
    requires i < |h|
    ensures LastFor(h, h[i].operation).Some?
  {
    if i < |h| - 1 && h[|h| - 1].operation != h[i].operation {
      LastForMeetsEvery(h[..|h| - 1], i);
    }
  }

  lemma AdvanceKeepsAtMostOnce(s: RunState, m: Mutation)
    requires Protected(s) && Guard(s, m) && CommitRun(s, RequestFor(s, m)).Ok?
    ensures AtMostOnce(Advance(s, m))
  {
    hide CommitRun, Keyed, Listed, Owned, Linked;
    AdvanceCases(s, m);
    if m.RecordDispatch? && KeyOf(m) !in s.idempotency {
      var h := s.dispatchHistory;
      forall i | 0 <= i < |h| && h[i].operation == m.dispatch.operation
        ensures s.intents[m.dispatch.operation].semantics == Idempotent
      {
        LastForMeetsEvery(h, i);
      }
    }
  }

  /** Every guarded commit keeps the whole protocol invariant. */
  lemma AdvanceKeepsProtected(s: RunState, m: Mutation)
    requires Protected(s) && Guard(s, m)
    ensures Protected(Advance(s, m)) && Advance(s, m).run == s.run
  {
    if CommitRun(s, RequestFor(s, m)).Ok? {
      CommitKeepsLineage(s, RequestFor(s, m));
      CommitKeepsRun(s, RequestFor(s, m));
      AdvanceKeepsKeyed(s, m);
      AdvanceKeepsNumbering(s, m);
      AdvanceKeepsAtMostOnce(s, m);
    }
  }

  // ---- Effect states ----

  lemma LastForPush(h: seq<DispatchRecord>, d: DispatchRecord, operation: Id)
    ensures LastFor(h + [d], operation) == if d.operation == operation then Some(d) else LastFor(h, operation)
  {
    assert (h + [d])[..|h|] == h;
  }

  /** Once the latest dispatch of an operation has succeeded, no guarded commit changes that. */
  lemma SuccessIsPermanent(s: RunState, m: Mutation, operation: Id)
    requires Protected(s) && Guard(s, m) && s.EffectState(operation) == OutcomeKnown(Succeeded)
    ensures Advance(s, m).EffectState(operation) == OutcomeKnown(Succeeded)
  {
    hide CommitRun, Lineage, Keyed, ApplyMutation, RunState.EffectState;
    if CommitRun(s, RequestFor(s, m)).Ok? {
      AdvanceCases(s, m);
      if KeyOf(m) !in s.idempotency {
        MutationKeepsSuccess(s, m, operation);
        EffectIgnoresTable(ApplyMutation(s, m).value, Advance(s, m), operation);
      }
    }
  }

  lemma EffectIgnoresTable(s: RunState, t: RunState, operation: Id)
    requires s.intents == t.intents && s.dispatchHistory == t.dispatchHistory && s.outcomes == t.outcomes
    ensures s.EffectState(operation) == t.EffectState(operation)
  {
  }

  lemma MutationKeepsSuccess(s: RunState, m: Mutation, operation: Id)
    requires ApplyMutation(s, m).Ok? && Guard(s, m) && s.EffectState(operation) == OutcomeKnown(Succeeded)
    ensures ApplyMutation(s, m).value.EffectState(operation) == OutcomeKnown(Succeeded)
  {
    if m.RecordDispatch? { LastForPush(s.dispatchHistory, m.dispatch, operation); }
  }

  /** A new dispatch record is appended only where the guard allows, and for a task not cancelled. */
  lemma DispatchIsGuarded(s: RunState, m: Mutation)
    requires Protected(s) && Guard(s, m) && Advance(s, m).dispatchHistory != s.dispatchHistory
    ensures m.RecordDispatch? && Advance(s, m).dispatchHistory == s.dispatchHistory + [m.dispatch]
    ensures MayDispatch(s, m.dispatch.operation)
    ensures s.intents[m.dispatch.operation].task !in s.cancellations
  {
    hide CommitRun, Listed, Owned, Keyed, RunState.EffectState;
    if CommitRun(s, RequestFor(s, m)).Ok? {
      AdvanceCases(s, m);
    }
  }

  // ---- Completion and effects ----

  /** Every completed task that owns an operation has that operation's success on record. */
  ghost predicate Agrees(g: Workflow.Graph, s: RunState) {
    forall t :: t in g.completed && t in s.taskOperations ==>
      s.EffectState(s.taskOperations[t]) == OutcomeKnown(Succeeded)
  }

  lemma AdvanceKeepsAgreement(g: Workflow.Graph, s: RunState, m: Mutation)
    requires Protected(s) && Guard(s, m) && Agrees(g, s)
    requires m.RecordIntent? ==> m.intent.task !in g.completed
    ensures Agrees(g, Advance(s, m))
  {
    hide Protected, CommitRun, RunState.EffectState;
    var t := Advance(s, m);
    forall task | task in g.completed && task in t.taskOperations
      ensures t.EffectState(t.taskOperations[task]) == OutcomeKnown(Succeeded)
    {
      AdvanceOwnership(s, m, task);
      SuccessIsPermanent(s, m, s.taskOperations[task]);
    }
  }

  lemma AdvanceOwnership(s: RunState, m: Mutation, task: Id)
    requires Protected(s) && task in Advance(s, m).taskOperations
    requires m.RecordIntent? ==> m.intent.task != task
    ensures task in s.taskOperations && Advance(s, m).taskOperations[task] == s.taskOperations[task]
  {
    hide CommitRun, Listed, Owned, Linked, Keyed;
    if CommitRun(s, RequestFor(s, m)).Ok? {
      AdvanceCases(s, m);
    }
  }

  // ---- Acceptance ----

  /** What the journal view accepts, the store accepts at any revision short of exhaustion. */
  lemma IntentIsAccepted(s: RunState, i: EffectIntent)
    requires Protected(s) && PersistIntent(View(s), i).Ok? && s.revision < U64_MAX
    ensures CommitRun(s, RequestFor(s, RecordIntent(i))).Ok?
  {
    hide Lineage, AtMostOnce;
    FoldSingle(s, RecordIntent(i));
  }

  lemma OutcomeIsAccepted(s: RunState, o: OutcomeRecord)
    requires Protected(s) && PersistOutcome(View(s), o).Ok? && s.revision < U64_MAX
    ensures CommitRun(s, RequestFor(s, RecordOutcome(o))).Ok?
  {
    hide Listed, Owned, AtMostOnce;
    var m := RecordOutcome(o);
    FoldSingle(s, m);
    if KeyOf(m) in s.idempotency {
      var first := s.idempotency[KeyOf(m)].mutations[0];
      assert Present(s, first) && first.RecordOutcome?;
      assert s.idempotency[KeyOf(m)].mutations == [first];
      assert first.result.operation == o.operation;
    } else {
      OutcomesAgree(s, o);
    }
  }

  lemma DispatchIsAccepted(s: RunState, d: DispatchRecord)
    requires Protected(s) && PersistDispatch(View(s), d).Ok? && s.revision < U64_MAX
    requires d.attempt in s.admissions && s.admissions[d.attempt].operation == Some(d.operation)
    requires s.admissions[d.attempt].task == s.intents[d.operation].task
    requires s.admissions[d.attempt].task !in s.cancellations
    ensures CommitRun(s, RequestFor(s, RecordDispatch(d))).Ok?
  {
    hide Listed, Owned, AtMostOnce;
    FoldSingle(s, RecordDispatch(d));
  }

  lemma NextNumberIsUnused(s: RunState)
    requires Lineage(s) && NumberedInOrder(s) && |s.admissionHistory| < U64_MAX
    ensures Numbered(s.run, NextNumber(s)) !in s.admissions
  {
    hide Owned, Linked;
    forall x | x in s.admissions ensures x != Numbered(s.run, NextNumber(s)) {
      var i :| 0 <= i < |s.admissionHistory| && s.admissionHistory[i] == s.admissions[x];
      assert AdmissionAttempt(s.admissions[x]) == x;
    }
  }

  /** A freshly numbered attempt is never refused while a revision is left. */
  lemma AdmissionIsAccepted(s: RunState, a: Admission)
    requires Protected(s) && s.revision < U64_MAX && a.run == s.run && a.attempt == Numbered(s.run, NextNumber(s))
    ensures CommitRun(s, RequestFor(s, AdmitAttempt(a))).Ok?
  {
    hide Lineage, AtMostOnce;
    FoldSingle(s, AdmitAttempt(a));
    NextNumberIsUnused(s);
  }
}
