/**
 Fibers and their coordinator as objects. Between the await points of a
 transition only the fiber's own fields and its scope's entries change.
 */
module Reactive {
  import opened Prelude
  import opened ResolverModel
  import opened ScopeModel
  import opened ScopeInvariants
  import opened ScopePublication
  import opened FiberModel
  import opened FiberSafety
  import opened ReconcileModel
  import opened WithdrawalModel
  import opened GraphDepth
  import DriveOutcomes
  import Withdrawals
  import Digraph

  class CapabilityFiber {
    const context: Context
    const definition: Definition
    var state: FiberState
    var handle: Option<nat>
    var binding: Option<map<Id, nat>>
    var loading: Option<map<Id, nat>>
    var disposeRequested: bool
    var forceReload: bool
    var wait: Wait

    function Contents(): Fiber
      reads this
    {
      Fiber(context, definition, state, handle, binding, loading, disposeRequested, forceReload, wait)
    }

    constructor (c: Context, d: Definition)
      ensures Contents() == NewFiber(c, d)
    {
      context, definition, state, handle, binding, loading := c, d, Pending, None, None, None;
      disposeRequested, forceReload, wait := false, false, AtRest;
    }

    /** Enters the transition lock to drive the fiber. */
    method Enter(force: bool)
      modifies this
      ensures Contents() == Begin(old(Contents()), force)
    {
      if disposeRequested || (!force && state == FiberState.Failed) { return; }
      wait := Deciding(force || forceReload);
      forceReload := false;
    }

    /** Enters the transition lock because a provider is withdrawn. */
    method EnterWithdrawal(detached: Option<nat>)
      modifies this
      ensures Contents() == BeginDeactivation(old(Contents()), detached)
    {
      if state == Active || state == FiberState.Failed {
        state, wait := Unloading, Deactivating(detached);
      }
    }

    method DecideNext(t: Tree, force: bool)
      modifies this
      ensures Contents() == Decide(t, old(Contents()), force)
    {
      var target := Binding(t, context, definition);
      if target.None? {
        if state == Active { state, wait := Unloading, Clearing; } else { state, wait := Pending, AtRest; }
        return;
      }
      if !force && state == Active && binding == target { wait := AtRest; return; }
      if state == Active || state == FiberState.Failed { state, wait := Unloading, Removing(force); return; }
      if disposeRequested { wait := AtRest; return; }
      state, loading, wait := Loading, target, Constructing(force, target.value);
    }

    /** Gives the entry back to the scope, unless it was detached already, and forgets the binding. */
    method Release(t: Tree, detached: Option<nat>) returns (u: Tree)
      modifies this
      ensures (u, Contents()) == Unload(t, old(Contents()), detached)
    {
      u := t;
      var removed := RemoveLocal(t, Contents());
      var already := detached.Some? && handle == detached;
      handle, binding, state := None, None, Pending;
      if already {
        loading := None;
      } else if removed.Ok? {
        u, loading := removed.value, None;
      }
    }

    method FinishConstruction(t: Tree, force: bool, snapshot: map<Id, nat>, built: bool)
      modifies this
      ensures Contents() == Constructed(t, old(Contents()), force, snapshot, built)
    {
      var stale := disposeRequested || forceReload || Binding(t, context, definition) != Some(snapshot);
      if built && !stale {
        wait := Rechecking(force, snapshot);
      } else if stale {
        loading, forceReload := None, false;
        if !disposeRequested {
          state, wait := Pending, Deciding(force);
        } else {
          wait := AtRest;
          if !built { state := Disposed; }
        }
      } else {
        loading, state, wait := None, FiberState.Failed, AtRest;
      }
    }

    method Refuse(force: bool, failed: bool)
      modifies this
      ensures Contents() == Rejected(old(Contents()), force, failed)
    {
      loading := None;
      if failed { state, wait := FiberState.Failed, AtRest; } else { state, wait := Pending, Deciding(force); }
    }

    method TryCommit(t: Tree, force: bool, snapshot: map<Id, nat>) returns (u: Tree)
      modifies this
      ensures (u, Contents()) == CommitFiber(t, old(Contents()), force, snapshot)
    {
      hide Publish;
      u := t;
      if context.scope >= |t.scopes| || t.poisoned { return; }
      var published := Publish(t, context.scope, definition, New, snapshot);
      if published.Err? {
        Refuse(force, !published.error.DependencyChanged?);
        return;
      }
      handle, binding, loading := Some(t.nextEntry), Some(snapshot), None;
      state, wait := Active, AtRest;
      u := published.value;
    }

    /** Runs the transition to its next await point. */
    method Continue(t: Tree, built: bool) returns (u: Tree)
      modifies this
      ensures (u, Contents()) == Advance(t, old(Contents()), built)
    {
      hide Unload, Decide, Constructed, CommitFiber;
      u := t;
      match wait
      case AtRest =>
      case Deciding(force) => DecideNext(t, force);
      case Clearing => u := Release(t, None); wait := AtRest;
      case Removing(force) =>
        var leaving := disposeRequested;
        u := Release(t, None);
        wait := if leaving then AtRest else Deciding(force);
      case Deactivating(detached) => u := Release(t, detached); wait := AtRest;
      case Disposing => u := Release(t, None); state, wait := Disposed, AtRest;
      case Constructing(force, snapshot) => FinishConstruction(t, force, snapshot, built);
      case Rechecking(force, snapshot) =>
        var wrong := Wrong(t, context.scope, definition, snapshot);
        if wrong != {} {
          Refuse(force, Get(t, context.scope, Least(wrong)).None?);
        } else {
          wait := Committing(force, snapshot);
        }
      case Committing(force, snapshot) => u := TryCommit(t, force, snapshot);
    }

    /** Drives the fiber until it is at rest, with nothing else running. */
    method AwaitStable(t: Tree, built: bool) returns (u: Tree)
      requires Sound(t) && !t.poisoned && Consistent(t, Contents()) && Resting(Contents()) && Placed(t, Contents())
      modifies this
      ensures (u, Contents()) == Drive(t, old(Contents()), built)
    {
      hide Sound, Consistent, Placed, NeedsReconciliation, Advance, Begin, OnlyEntry;
      DriveSettles(t, Contents(), built);
      ghost var all := Drive(t, Contents(), built);
      Enter(false);
      u := t;
      ghost var n := TRANSITION_STEPS;
      while wait != AtRest
        invariant Iterate(u, Contents(), built, n) == all
        decreases n
      {
        if n == 0 { assert false; }
        IterateOnce(u, Contents(), built, n);
        u := Continue(u, built);
        n := n - 1;
      }
      RestStays(u, Contents(), built, n);
    }
  }

  /** Before turn `i` of a pass: finishing it from here would complete the whole pass. */
  ghost predicate InPass(w: Watched, ids: seq<nat>, i: nat, k: nat, answers: Answers, rank: Id -> nat, v: Watched,
                         driven: seq<nat>)
  {
    && i <= |ids| && AllReady(v) && Ranked(v, rank) && v.fibers.Keys == w.fibers.Keys
    && Pass(v, ids[i..], k, answers) == Pass(w, ids, k, answers)
    && driven + Driven(v, ids[i..], k, answers) == Driven(w, ids, k, answers)
  }

  lemma PassStarts(w: Watched, ids: seq<nat>, k: nat, answers: Answers, rank: Id -> nat)
    requires AllReady(w) && Ranked(w, rank)
    ensures InPass(w, ids, 0, k, answers, rank, w, [])
  {
    hide AllReady, Ranked, Pass, Driven;
    assert ids[0..] == ids;
  }

  lemma PassTurns(w: Watched, ids: seq<nat>, i: nat, k: nat, answers: Answers, rank: Id -> nat, v: Watched,
                  driven: seq<nat>)
    requires InPass(w, ids, i, k, answers, rank, v, driven) && i < |ids| && ids[i] in v.fibers
    ensures AllReady(v)
    ensures var id := ids[i];
            InPass(w, ids, i + 1, k, answers, rank, Visit(v, id, answers(k, id)),
                   if NeedsReconciliation(v.tree, v.fibers[id]) then driven + [id] else driven)
  {
    hide AllReady, Ranked, Visit, NeedsReconciliation, SettledBelow;
    var id := ids[i];
    assert ids[i..][1..] == ids[i + 1..];
    VisitSettles(v, id, answers(k, id), rank, 0, {}) by { NothingSettled(v, rank); }
    var rest := Driven(Visit(v, id, answers(k, id)), ids[i + 1..], k, answers);
    assert (driven + [id]) + rest == driven + ([id] + rest);
    assert [] + rest == rest;
  }

  lemma NothingSettled(w: Watched, rank: Id -> nat)
    ensures SettledBelow(w, rank, 0, {})
  {
  }

  lemma PassEnds(w: Watched, ids: seq<nat>, k: nat, answers: Answers, rank: Id -> nat, v: Watched, driven: seq<nat>)
    requires InPass(w, ids, |ids|, k, answers, rank, v, driven)
    ensures v == Pass(w, ids, k, answers) && driven == Driven(w, ids, k, answers) && AllReady(v) && Ranked(v, rank)
  {
    hide AllReady, Ranked;
    assert ids[|ids|..] == [];
  }

  /** Before pass `k`: every earlier pass has run. */
  ghost predicate InReconcile(w: Watched, k: nat, answers: Answers, rank: Id -> nat, v: Watched, driven: seq<nat>) {
    AllReady(v) && Ranked(v, rank) && v == Passes(w, k, answers) && driven == DrivenThrough(w, k, answers)
  }

  lemma ReconcileStarts(w: Watched, answers: Answers, rank: Id -> nat)
    requires AllReady(w) && Ranked(w, rank)
    ensures InReconcile(w, 0, answers, rank, w, [])
  {
  }

  lemma ReconcileTurns(w: Watched, k: nat, answers: Answers, rank: Id -> nat, bound: nat, v: Watched, driven: seq<nat>)
    requires AllReady(w) && Ranked(w, rank) && RanksBelow(w, rank, bound)
    requires InReconcile(w, k, answers, rank, v, driven) && k <= bound
    ensures AllReady(v) && Ranked(v, rank)
    ensures var ids := Ascending(v.fibers.Keys);
            var now := Driven(v, ids, k, answers);
            && (now == [] ==>
                  && Pass(v, ids, k, answers) == v
                  && forall id :: id in v.fibers ==> AtFixpoint(v.tree, v.fibers[id]))
            && (now != [] ==> k < bound)
            && (AllReady(Pass(v, ids, k, answers)) && Ranked(Pass(v, ids, k, answers), rank) ==>
                  InReconcile(w, k + 1, answers, rank, Pass(v, ids, k, answers), driven + now))
  {
    hide AllReady, Ranked, Pass, Driven, AtFixpoint, NeedsReconciliation;
    QuietPass(v, Ascending(v.fibers.Keys), k, answers);
    QuietIsFixpoint(v, answers, k);
    if k == bound { ReconciliationStops(w, answers, rank, bound); }
  }

  /** Coordinates the watched fibers of one scope. */
  class ReactiveRuntime {
    const scope: nat
    var tree: Tree
    var fibers: map<nat, CapabilityFiber>

    ghost predicate Valid()
      reads this
    {
      forall a, b :: a in fibers && b in fibers && a != b ==> fibers[a] != fibers[b]
    }

    ghost function State(): Watched
      reads this, fibers.Values
    {
      Watched(tree, map id | id in fibers :: fibers[id].Contents())
    }

    constructor (s: nat, t: Tree)
      ensures Valid() && fibers == map[] && tree == t && scope == s
    {
      scope, tree, fibers := s, t, map[];
    }

    /** Registers a fiber unless its identity is already watched. */
    method Watch(id: nat, fiber: CapabilityFiber) returns (ok: bool)
      requires Valid() && (fiber in fibers.Values ==> id in fibers && fibers[id] == fiber)
      modifies this`fibers
      ensures Valid() && ok == (id !in old(fibers))
      ensures fibers == if ok then old(fibers)[id := fiber] else old(fibers)
    {
      ok := id !in fibers;
      if ok { fibers := fibers[id := fiber]; }
    }

    /** Drives one fiber if it needs it. */
    method VisitFiber(id: nat, built: bool) returns (drove: bool)
      requires Valid() && id in fibers && AllReady(State())
      modifies this`tree, fibers[id]
      ensures Valid() && State() == Visit(old(State()), id, built)
      ensures drove == NeedsReconciliation(old(State()).tree, old(State()).fibers[id])
    {
      hide Sound, Consistent, Placed, NeedsReconciliation, Drive;
      ghost var w := State();
      drove := NeedsReconciliation(tree, fibers[id].Contents());
      if drove {
        assert w.fibers[id] == fibers[id].Contents();
        tree := fibers[id].AwaitStable(tree, built);
        assert State().fibers == w.fibers[id := fibers[id].Contents()];
      }
    }

    /** One pass over the watched fibers in identity order. */
    method RunPass(pass: nat, answers: Answers, ghost rank: Id -> nat) returns (driven: seq<nat>)
      requires Valid() && AllReady(State()) && Ranked(State(), rank)
      modifies this`tree, fibers.Values
      ensures Valid() && fibers == old(fibers) && AllReady(State()) && Ranked(State(), rank)
      ensures State() == Pass(old(State()), Ascending(old(State()).fibers.Keys), pass, answers)
      ensures driven == Driven(old(State()), Ascending(old(State()).fibers.Keys), pass, answers)
    {
      hide *;
      ghost var w := State();
      StateKeys();
      var ids := Ascending(fibers.Keys);
      driven := [];
      PassStarts(w, ids, pass, answers, rank);
      var i := 0;
      while i < |ids|
        invariant 0 <= i <= |ids| && Valid() && fibers == old(fibers)
        invariant InPass(w, ids, i, pass, answers, rank, State(), driven)
      {
        var id := ids[i];
        assert id in ids;
        StateKeys();
        PassTurns(w, ids, i, pass, answers, rank, State(), driven);
        var drove := VisitFiber(id, answers(pass, id));
        if drove { driven := driven + [id]; }
        i := i + 1;
      }
      PassEnds(w, ids, pass, answers, rank, State(), driven);
    }

    lemma StateKeys()
      ensures State().fibers.Keys == fibers.Keys
    {
    }

    /** Repeats passes until one drives nothing, at the latest the one after the longest chain of definitions. */
    method Reconcile(answers: Answers, ghost longest: nat) returns (driven: seq<nat>, passes: nat)
      requires Valid() && AllReady(State())
      requires Digraph.Acyclic(FiberGraph(State())) && IsLongestChain(FiberGraph(State()), longest)
      modifies this`tree, fibers.Values
      ensures Valid() && fibers == old(fibers) && passes <= longest + 1 && AllReady(State())
      ensures State() == Passes(old(State()), passes, answers) && driven == DrivenThrough(old(State()), passes, answers)
      ensures forall id :: id in State().fibers ==> AtFixpoint(State().tree, State().fibers[id])
      ensures DriveOutcomes.FailuresHaveCauses(old(State()), passes, answers)
    {
      hide *;
      ghost var w := State();
      ghost var rank, bound := ChainRank(FiberGraph(w)), longest + 1;
      AcyclicIsRanked(w, longest);
      passes, driven := 0, [];
      ReconcileStarts(w, answers, rank);
      while true
        invariant Valid() && fibers == old(fibers) && passes <= bound
        invariant InReconcile(w, passes, answers, rank, State(), driven)
        decreases bound - passes
      {
        ReconcileTurns(w, passes, answers, rank, bound, State(), driven);
        var now := RunPass(passes, answers, rank);
        if now == [] {
          ReconcileEnds(w, passes, answers, rank, State(), driven);
          DriveOutcomes.PassesFailForACause(w, passes, answers);
          return;
        }
        driven := driven + now;
        passes := passes + 1;
      }
    }

    /** Unloads one fiber for a withdrawal; a provider whose entry is the retired one has nothing left to remove. */
    method DeactivateFiber(id: nat, retired: nat)
      requires Valid() && id in fibers
      modifies this`tree, fibers[id]
      ensures Valid()
      ensures var f := old(State()).fibers[id];
              var (u, g) := Deactivate(old(State()).tree, f, DetachedFrom(f, retired));
              State() == Watched(u, old(State()).fibers[id := g])
    {
      hide Advance, BeginDeactivation;
      ghost var w := State();
      var fiber := fibers[id];
      assert w.fibers[id] == fiber.Contents();
      fiber.EnterWithdrawal(DetachedFrom(fiber.Contents(), retired));
      tree := fiber.Continue(tree, true);
      assert State().fibers == w.fibers[id := fiber.Contents()];
    }

    /** Deactivates the affected fibers one after the other. */
    method DrainFibers(order: seq<nat>, retired: nat)
      requires Valid() && forall id :: id in order ==> id in fibers
      modifies this`tree, fibers.Values
      ensures Valid() && fibers == old(fibers)
      ensures (State().tree, State().fibers) == Drain(old(State()).tree, old(State()).fibers, order, retired)
    {
      hide *;
      ghost var w := State();
      DrainStarts(w, order, retired);
      var i := 0;
      while i < |order|
        invariant 0 <= i <= |order| && Valid() && fibers == old(fibers)
        invariant InDrain(w, order, i, retired, State())
      {
        StateKeys();
        assert order[i] in order;
        DrainTurns(w, order, i, retired, State());
        DeactivateFiber(order[i], retired);
        i := i + 1;
      }
      DrainEnds(w, order, retired, State());
    }

    /**
     Withdraws a local publication, drains the fibers that depend on it, deepest
     consumers first, and only then lets go of the retired entry.
     */
    method WithdrawAndReconcile(capability: Id, expected: nat) returns (r: Result<seq<nat>, ScopeError>)
      requires Valid() && AllRestful(State()) && scope < |tree.scopes|
      modifies this`tree, fibers.Values
      ensures Valid() && fibers == old(fibers)
      ensures !(old(tree).scopes[scope].open && capability in old(tree).scopes[scope].entries) ==>
        r == Ok([]) && State() == old(State())
      ensures old(tree).scopes[scope].open && capability in old(tree).scopes[scope].entries ==>
                match Withdraw(old(tree), scope, capability, expected)
                case Err(e) => r == Err(e) && State() == old(State())
                case Ok(u) =>
                  var retired := old(tree).scopes[scope].entries[capability];
                  && r.Ok? && DrainsInOrder(old(State()).fibers, retired, r.value)
                  && (State().tree, State().fibers) == Drain(u, old(State()).fibers, r.value, retired)
                  && Drained(old(State()), r.value, State())
    {
      hide AllRestful, Drain, DrainsInOrder, Withdraw, Drained;
      ghost var w := State();
      if !tree.scopes[scope].open || capability !in tree.scopes[scope].entries { return Ok([]); }
      var retired := tree.scopes[scope].entries[capability];
      var withdrawn := Withdraw(tree, scope, capability, expected);
      if withdrawn.Err? { return Err(withdrawn.error); }
      var order := PlanDrain(retired);
      tree := withdrawn.value;
      assert State() == Watched(withdrawn.value, w.fibers);
      DrainFibers(order, retired);
      DrainLeaves(w, scope, capability, expected, order);
      r := Ok(order);
    }

    method PlanDrain(retired: nat) returns (order: seq<nat>)
      requires Valid() && AllRestful(State())
      ensures DrainsInOrder(State().fibers, retired, order) && forall id :: id in order ==> id in fibers
    {
      hide *;
      var snapshot := Snapshot();
      var identities := Withdrawals.ProviderIdentities(snapshot);
      var affected := Withdrawals.WithdrawalClosure(snapshot, retired, identities);
      ClosureIsWatched(snapshot, identities, retired, affected);
      order := Withdrawals.WithdrawalOrder(snapshot, affected, identities);
      OrderIsGood(State(), identities, retired, affected, order);
      StateKeys();
    }

    /** What the coordinator reads of every watched fiber. */
    method Snapshot() returns (snapshot: map<nat, Fiber>)
      ensures snapshot == State().fibers
    {
      snapshot := map id | id in fibers :: fibers[id].Contents();
    }
  }

  ghost predicate AllRestful(w: Watched) {
    && Sound(w.tree) && !w.tree.poisoned
    && forall id :: id in w.fibers ==> Consistent(w.tree, w.fibers[id]) && Restful(w.fibers[id])
  }

  /** The listed fibers own and bind nothing, every other fiber is as it was, and the coordinator can go on. */
  ghost predicate Drained(w: Watched, order: seq<nat>, v: Watched) {
    && AllRestful(v) && v.fibers.Keys == w.fibers.Keys
    && (forall id :: id in order ==> id in v.fibers && Quiet(v.fibers[id]))
    && (forall id :: id in w.fibers && id !in order ==> v.fibers[id] == w.fibers[id])
  }

  lemma DrainLeaves(w: Watched, s: nat, id: Id, generation: nat, order: seq<nat>)
    requires AllRestful(w) && s < |w.tree.scopes| && Withdraw(w.tree, s, id, generation).Ok?
    requires id in w.tree.scopes[s].entries && DrainsInOrder(w.fibers, w.tree.scopes[s].entries[id], order)
    ensures var u, retired := Withdraw(w.tree, s, id, generation).value, w.tree.scopes[s].entries[id];
            var (v, rest) := Drain(u, w.fibers, order, retired);
            Drained(w, order, Watched(v, rest))
  {
    hide Shaped, Upward, Holds, Consistent, Drain, Quiet, Withdraw, Extends, OrdersClosure;
    var u := Withdraw(w.tree, s, id, generation).value;
    var retired := w.tree.scopes[s].entries[id];
    WithdrawKeepsTidy(w.tree, s, id, generation);
    WithdrawExtends(w.tree, s, id, generation);
    forall x | x in w.fibers ensures Consistent(u, w.fibers[x]) { ConsistentLater(w.tree, u, w.fibers[x]); }
    var identities :| OrdersClosure(w.fibers, identities, retired, order);
    ListedAreWatched(w.fibers, identities, retired, order);
    forall x | x in order ensures x in w.fibers { assert x in Elements(order); }
    DrainQuiets(u, w.fibers, order, retired);
  }

  lemma ClosureIsWatched(fibers: map<nat, Fiber>, identities: map<nat, nat>, retired: nat, affected: set<nat>)
    requires IsWithdrawalClosure(fibers, identities, retired, affected)
    ensures affected <= fibers.Keys
  {
  }

  lemma OrderIsGood(w: Watched, identities: map<nat, nat>, retired: nat, affected: set<nat>, order: seq<nat>)
    requires AllRestful(w) && AreIdentities(w.fibers, identities)
    requires IsWithdrawalClosure(w.fibers, identities, retired, affected)
    requires Distinct(order) && Elements(order) == affected
    requires var g := AffectedGraph(w.fibers, identities, affected);
             Digraph.Acyclic(g) ==> ConsumersFirst(g, order) && DeepestFirst(g, order)
    ensures DrainsInOrder(w.fibers, retired, order) && forall id :: id in order ==> id in w.fibers
  {
    hide Sound, Consistent, AreIdentities, IsWithdrawalClosure, Digraph.Acyclic, ConsumersFirst, DeepestFirst,
      AffectedGraph;
    BindingsAreAcyclic(w.tree, w.fibers, identities, affected);
    ClosureIsWatched(w.fibers, identities, retired, affected);
    assert OrdersClosure(w.fibers, identities, retired, order);
    forall id | id in order ensures id in w.fibers { assert id in Elements(order); }
  }

  /** Before turn `i` of a drain: finishing it from here would complete the whole drain. */
  ghost predicate InDrain(w: Watched, order: seq<nat>, i: nat, retired: nat, v: Watched) {
    && i <= |order| && v.fibers.Keys == w.fibers.Keys
    && Drain(v.tree, v.fibers, order[i..], retired) == Drain(w.tree, w.fibers, order, retired)
  }

  lemma DrainStarts(w: Watched, order: seq<nat>, retired: nat)
    ensures InDrain(w, order, 0, retired, w)
  {
    hide Drain;
    assert order[0..] == order;
  }

  lemma DrainTurns(w: Watched, order: seq<nat>, i: nat, retired: nat, v: Watched)
    requires InDrain(w, order, i, retired, v) && i < |order| && order[i] in v.fibers
    ensures var f := v.fibers[order[i]];
            var (u, g) := Deactivate(v.tree, f, DetachedFrom(f, retired));
            InDrain(w, order, i + 1, retired, Watched(u, v.fibers[order[i] := g]))
  {
    hide Deactivate;
    assert order[i..][1..] == order[i + 1..];
  }

  lemma DrainEnds(w: Watched, order: seq<nat>, retired: nat, v: Watched)
    requires InDrain(w, order, |order|, retired, v)
    ensures (v.tree, v.fibers) == Drain(w.tree, w.fibers, order, retired)
  {
    assert order[|order|..] == [];
  }

  lemma ReconcileEnds(w: Watched, k: nat, answers: Answers, rank: Id -> nat, v: Watched, driven: seq<nat>)
    requires InReconcile(w, k, answers, rank, v, driven)
    ensures v == Passes(w, k, answers) && driven == DrivenThrough(w, k, answers) && AllReady(v)
  {
  }
}
