/**
 Runs of a coordinator with serialized mutations: scope commands, watched fibers
 that are started, restarted or disposed, reconciliation and withdrawal.
 */
module Coordinator {
  import opened Prelude
  import opened ResolverModel
  import opened ScopeModel
  import opened ScopeInvariants
  import opened ScopePublication
  import opened FiberModel
  import opened FiberSafety
  import opened ReconcileModel
  import opened WithdrawalModel
  import opened GraphDepth
  import Digraph

  datatype Action =
    | RunCommand(command: Command)
    | WatchFiber(fiber: nat, context: Context, definition: Definition)
    | StartFiber(fiber: nat, built: bool)
    | RestartFiber(fiber: nat, built: bool)
    | DisposeFiber(fiber: nat)
    | ReconcileFibers(answers: Answers, passes: nat)
    | WithdrawProvider(scope: nat, id: Id, generation: nat, order: seq<nat>)

  /** Disposal of a resting fiber, from the request to the end of its cleanup. */
  function Dispose(t: Tree, f: Fiber): (Tree, Fiber) {
    Advance(t, BeginDisposal(f.(disposeRequested := true)), true)
  }

  /** The entry a withdrawal would retire. */
  function Retired(t: Tree, s: nat, id: Id): nat {
    if s < |t.scopes| && id in t.scopes[s].entries then t.scopes[s].entries[id] else 0
  }

  /** What the caller of each action has to respect. */
  ghost predicate Possible(w: Watched, a: Action) {
    !w.tree.poisoned &&
    match a
    case RunCommand(_) => true
    case WatchFiber(id, c, d) => id !in w.fibers && Placed(w.tree, NewFiber(c, d))
    case StartFiber(id, _) => id in w.fibers
    case RestartFiber(id, _) => id in w.fibers
    case DisposeFiber(id) => id in w.fibers
    case ReconcileFibers(_, _) => true
    case WithdrawProvider(s, id, generation, order) =>
      && s < |w.tree.scopes| && Withdraw(w.tree, s, id, generation).Ok?
      && DrainsInOrder(w.fibers, Retired(w.tree, s, id), order)
  }

  ghost function Perform(w: Watched, a: Action): Watched {
    if !Possible(w, a) then w
    else match a
         case RunCommand(c) => w.(tree := Execute(w.tree, c))
         case WatchFiber(id, c, d) => w.(fibers := w.fibers[id := NewFiber(c, d)])
         case StartFiber(id, built) => var (u, g) := Drive(w.tree, w.fibers[id], built); Watched(u, w.fibers[id := g])
         case RestartFiber(id, built) =>
           var (u, g) := Restart(w.tree, w.fibers[id], built); Watched(u, w.fibers[id := g])
         case DisposeFiber(id) => var (u, g) := Dispose(w.tree, w.fibers[id]); Watched(u, w.fibers[id := g])
         case ReconcileFibers(answers, n) => Passes(w, n, answers)
         case WithdrawProvider(s, id, generation, order) =>
           var (u, rest) := Drain(Withdraw(w.tree, s, id, generation).value, w.fibers, order, Retired(w.tree, s, id));
           Watched(u, rest)
  }

  ghost function PerformAll(w: Watched, actions: seq<Action>): Watched {
    if actions == [] then w else Perform(PerformAll(w, actions[..|actions| - 1]), actions[|actions| - 1])
  }

  const Nothing := Watched(Root, map[])

  // ---- The invariant ----

  ghost predicate ReadyFiber(t: Tree, f: Fiber) {
    Consistent(t, f) && Resting(f) && Placed(t, f)
  }

  /** No two fibers own the same entry. */
  ghost predicate Exclusive(fibers: Fibers) {
    forall a, b :: a in fibers && b in fibers && a != b && fibers[a].handle.Some? ==>
      fibers[a].handle != fibers[b].handle
  }

  /** Ready for reconciliation, except that a teardown may have left the tree unusable. */
  ghost predicate Ready(w: Watched) {
    Sound(w.tree) && Exclusive(w.fibers) && forall id :: id in w.fibers ==> ReadyFiber(w.tree, w.fibers[id])
  }

  lemma ReadyIsAllReady(w: Watched)
    requires Ready(w) && !w.tree.poisoned
    ensures AllReady(w)
  {
  }

  /** Whatever a fiber newly owns is an entry that did not exist before. */
  ghost predicate OwnsFresh(t: Tree, f: Fiber, g: Fiber) {
    g.handle.Some? ==> g.handle == f.handle || g.handle.value !in t.slots
  }

  lemma AdvanceOwnsFresh(t: Tree, f: Fiber, built: bool)
    requires Sound(t)
    ensures OwnsFresh(t, f, Advance(t, f, built).1)
  {
    hide Parented, Housed, Upward, Holds, RemoveLocal, Publish, Wrong, Binding, Get;
    assert t.nextEntry !in t.slots;
  }

  lemma {:induction false} IterateOwnsFresh(t: Tree, f: Fiber, built: bool, n: nat)
    requires Sound(t) && !t.poisoned && Consistent(t, f)
    ensures OwnsFresh(t, f, Iterate(t, f, built, n).1)
    decreases n
  {
    hide Sound, Consistent, Advance;
    if n > 0 {
      var (u, g) := Advance(t, f, built);
      AdvanceOwnsFresh(t, f, built);
      StepIsConsistent(t, f, built);
      IterateOwnsFresh(u, g, built, n - 1);
    }
  }

  /** Trees in which every scope keeps its parent, and entries stay what they are. */
  ghost predicate SameParents(t: Tree, u: Tree) {
    |t.scopes| <= |u.scopes| && forall i :: 0 <= i < |t.scopes| ==> u.scopes[i].parent == t.scopes[i].parent
  }

  lemma {:induction false} FollowsLater(t: Tree, u: Tree, c: Context)
    requires SameParents(t, u) && Follows(t, c)
    ensures Follows(u, c)
    decreases c
  {
    if c.parent.Some? { FollowsLater(t, u, c.parent.value); }
  }

  lemma ExecuteKeepsParents(t: Tree, c: Command)
    requires Sound(t)
    ensures SameParents(t, Execute(t, c))
  {
    hide Shaped, Upward, Publish, Teardown, Forget, Child, Insert, Holds, Withdraw;
    if Enabled(t, c) {
      match c
      case ChildOf(s) =>
        ChildFrame(t, s, s);
        forall i | 0 <= i < |t.scopes|
          ensures Child(t, s).scopes[i].parent == t.scopes[i].parent
        {
          ChildFrame(t, s, i);
        }
      case Commit(s, d, x, snapshot) =>
        if Publish(t, s, d, x, snapshot).Ok? {
          PublicationInserts(t, s, d, x, snapshot);
          var generation := NextGeneration(t, s, d.id, x).value;
          InsertFrame(t, s, d, generation, snapshot, s);
          forall i | 0 <= i < |t.scopes|
            ensures Insert(t, s, d, generation, snapshot).scopes[i].parent == t.scopes[i].parent
          {
            InsertFrame(t, s, d, generation, snapshot, i);
          }
        }
      case WithdrawFrom(s, id, generation) =>
        if Withdraw(t, s, id, generation).Ok? { WithdrawKeepsParents(t, s, id, generation); }
      case TearDown(s) => TeardownClosesSome(t, s);
      case ForgetScope(s) => ForgetCloses(t, s);
    }
  }

  lemma WithdrawKeepsParents(t: Tree, s: nat, id: Id, generation: nat)
    requires s < |t.scopes| && Withdraw(t, s, id, generation).Ok?
    ensures SameParents(t, Withdraw(t, s, id, generation).value)
  {
  }

  lemma ReadyFiberLater(t: Tree, u: Tree, f: Fiber)
    requires Extends(t, u) && SameParents(t, u) && ReadyFiber(t, f)
    ensures ReadyFiber(u, f)
  {
    hide Consistent, Extends, SameParents, Follows;
    ConsistentLater(t, u, f);
    FollowsLater(t, u, f.context);
  }

  /** A step that changes one fiber and its own entry leaves the others ready. */
  lemma OneFiberKeepsReady(w: Watched, id: nat, u: Tree, g: Fiber)
    requires Ready(w) && id in w.fibers && Sound(u) && ReadyFiber(u, g) && OwnsFresh(w.tree, w.fibers[id], g)
    requires OnlyEntry(w.tree, u, w.fibers[id].context.scope, w.fibers[id].definition.id)
    ensures Ready(Watched(u, w.fibers[id := g]))
  {
    hide Sound, Consistent, Placed, OnlyEntry;
    forall x | x in w.fibers && x != id
      ensures ReadyFiber(u, w.fibers[x]) && (g.handle.Some? ==> g.handle != w.fibers[x].handle)
    {
      OthersUnaffected(w.tree, u, w.fibers[id], w.fibers[x]);
      if w.fibers[x].handle.Some? { OwnedIsPublished(w.tree, w.fibers[x]); }
    }
  }

  lemma OwnedIsPublished(t: Tree, f: Fiber)
    requires Consistent(t, f) && f.handle.Some?
    ensures f.handle.value in t.slots
  {
  }

  // ---- Each kind of action ----

  /** Disposing a resting fiber leaves it disposed, owning nothing. */
  lemma DisposalFinishes(t: Tree, f: Fiber)
    requires Sound(t) && !t.poisoned && ReadyFiber(t, f)
    ensures var (u, g) := Dispose(t, f);
            && Sound(u) && !u.poisoned && ReadyFiber(u, g) && g.state == Disposed && OwnsFresh(t, f, g)
            && (f.state != Disposed ==> g.handle == None && g.binding == None)
            && OnlyEntry(t, u, f.context.scope, f.definition.id)
  {
    hide Sound, Holds, OnlyEntry, RemoveLocal, Follows, Extends;
    var asked := f.(disposeRequested := true);
    var begun := BeginDisposal(asked);
    RequestsKeepConsistent(t, f, true, None);
    RequestsKeepConsistent(t, asked, true, None);
    StepIsConsistent(t, begun, true);
    StepTouches(t, begun, true);
    AdvanceOwnsFresh(t, begun, true);
    var (u, g) := Dispose(t, f);
    PlacedElsewhere(t, u, f.context.scope, f.definition.id, f);
  }

  lemma DeactivationKeepsReady(t: Tree, f: Fiber, detached: Option<nat>)
    requires Sound(t) && !t.poisoned && ReadyFiber(t, f)
    ensures var (u, g) := Deactivate(t, f, detached);
            && Sound(u) && !u.poisoned && ReadyFiber(u, g) && OwnsFresh(t, f, g)
            && OnlyEntry(t, u, f.context.scope, f.definition.id)
  {
    hide Sound, Holds, OnlyEntry, RemoveLocal, Follows, Extends;
    var begun := BeginDeactivation(f, detached);
    RequestsKeepConsistent(t, f, true, detached);
    StepIsConsistent(t, begun, true);
    StepTouches(t, begun, true);
    AdvanceOwnsFresh(t, begun, true);
    var (u, g) := Deactivate(t, f, detached);
    PlacedElsewhere(t, u, f.context.scope, f.definition.id, f);
  }

  lemma {:induction false} DrainKeepsReady(w: Watched, order: seq<nat>, retired: nat)
    requires Ready(w) && !w.tree.poisoned
    ensures var (u, rest) := Drain(w.tree, w.fibers, order, retired); Ready(Watched(u, rest)) && !u.poisoned
    decreases |order|
  {
    hide Sound, ReadyFiber, Deactivate, OnlyEntry;
    if order != [] && order[0] in w.fibers {
      var f := w.fibers[order[0]];
      var detached := DetachedFrom(f, retired);
      DeactivationKeepsReady(w.tree, f, detached);
      var (u, g) := Deactivate(w.tree, f, detached);
      OneFiberKeepsReady(w, order[0], u, g);
      DrainKeepsReady(Watched(u, w.fibers[order[0] := g]), order[1..], retired);
    } else if order != [] {
      DrainKeepsReady(w, order[1..], retired);
    }
  }

  lemma WithdrawalKeepsReady(w: Watched, s: nat, id: Id, generation: nat)
    requires Ready(w) && !w.tree.poisoned && s < |w.tree.scopes| && Withdraw(w.tree, s, id, generation).Ok?
    ensures var u := Withdraw(w.tree, s, id, generation).value; Ready(Watched(u, w.fibers)) && !u.poisoned
  {
    hide ReadyFiber, Shaped, Upward;
    var u := Withdraw(w.tree, s, id, generation).value;
    WithdrawKeepsTidy(w.tree, s, id, generation);
    WithdrawKeepsParents(w.tree, s, id, generation);
    WithdrawExtends(w.tree, s, id, generation);
    forall x | x in w.fibers ensures ReadyFiber(u, w.fibers[x]) { ReadyFiberLater(w.tree, u, w.fibers[x]); }
  }

  /** Ready, on a tree that no teardown has left unusable. */
  ghost predicate Usable(w: Watched) {
    Ready(w) && !w.tree.poisoned
  }

  lemma {:induction false} PassKeepsReady(w: Watched, ids: seq<nat>, k: nat, answers: Answers)
    requires Usable(w)
    ensures Usable(Pass(w, ids, k, answers))
    decreases |ids|
  {
    hide Usable, Visit;
    if ids != [] {
      VisitKeepsReady(w, ids[0], answers(k, ids[0]));
      PassKeepsReady(Visit(w, ids[0], answers(k, ids[0])), ids[1..], k, answers);
    }
  }

  lemma VisitKeepsReady(w: Watched, id: nat, built: bool)
    requires Usable(w)
    ensures Usable(Visit(w, id, built))
  {
    hide Ready, Drive, NeedsReconciliation;
    if id in w.fibers && NeedsReconciliation(w.tree, w.fibers[id]) { StartKeepsReady(w, id, built); }
  }

  lemma {:induction false} PassesKeepReady(w: Watched, n: nat, answers: Answers)
    requires Usable(w)
    ensures Usable(Passes(w, n, answers))
    decreases n
  {
    hide Usable, Pass;
    if n > 0 {
      PassesKeepReady(w, n - 1, answers);
      var before := Passes(w, n - 1, answers);
      PassKeepsReady(before, Ascending(before.fibers.Keys), n - 1, answers);
    }
  }

  lemma CommandKeepsReady(w: Watched, c: Command)
    requires Ready(w)
    ensures Ready(w.(tree := Execute(w.tree, c)))
  {
    hide ReadyFiber, Sound, Execute, Extends, SameParents;
    ExecuteKeepsSound(w.tree, c);
    ExecuteExtends(w.tree, c);
    ExecuteKeepsParents(w.tree, c);
    forall x | x in w.fibers
      ensures ReadyFiber(Execute(w.tree, c), w.fibers[x])
    {
      ReadyFiberLater(w.tree, Execute(w.tree, c), w.fibers[x]);
    }
  }

  lemma SettledKeepsReady(w: Watched, id: nat, u: Tree, g: Fiber)
    requires Ready(w) && id in w.fibers && SettledFrom(w.tree, w.fibers[id], u, g) && OwnsFresh(w.tree, w.fibers[id], g)
    ensures Usable(Watched(u, w.fibers[id := g]))
  {
    hide Sound, Consistent, Placed, OnlyEntry, NeedsReconciliation;
    OneFiberKeepsReady(w, id, u, g);
  }

  lemma PerformKeepsReady(w: Watched, a: Action)
    requires Ready(w)
    ensures Ready(Perform(w, a))
  {
    hide Sound, ReadyFiber, Execute, Drive, Restart, Dispose, Passes, Drain, Withdraw, OnlyEntry, SettledFrom,
      DrainsInOrder;
    if Possible(w, a) {
      match a
      case RunCommand(c) => CommandKeepsReady(w, c);
      case WatchFiber(id, c, d) => NewIsReady(w.tree, c, d);
      case StartFiber(id, built) => StartKeepsReady(w, id, built);
      case RestartFiber(id, built) => RestartKeepsReady(w, id, built);
      case DisposeFiber(id) =>
        DisposalFinishes(w.tree, w.fibers[id]);
        OneFiberKeepsReady(w, id, Dispose(w.tree, w.fibers[id]).0, Dispose(w.tree, w.fibers[id]).1);
      case ReconcileFibers(answers, n) => PassesKeepReady(w, n, answers);
      case WithdrawProvider(s, id, generation, order) =>
        WithdrawalKeepsReady(w, s, id, generation);
        DrainKeepsReady(Watched(Withdraw(w.tree, s, id, generation).value, w.fibers), order, Retired(w.tree, s, id));
    }
  }

  lemma NewIsReady(t: Tree, c: Context, d: Definition)
    requires Placed(t, NewFiber(c, d))
    ensures ReadyFiber(t, NewFiber(c, d))
  {
    NewIsConsistent(t, c, d);
  }

  lemma DriveOwnsFresh(t: Tree, f: Fiber, built: bool)
    requires Sound(t) && !t.poisoned && ReadyFiber(t, f)
    ensures OwnsFresh(t, f, Drive(t, f, built).1)
  {
    hide Sound, Iterate, Placed, Consistent;
    RequestsKeepConsistent(t, f, false, None);
    IterateOwnsFresh(t, Begin(f, false), built, TRANSITION_STEPS);
  }

  lemma RestartOwnsFresh(t: Tree, f: Fiber, built: bool)
    requires Sound(t) && !t.poisoned && ReadyFiber(t, f)
    ensures OwnsFresh(t, f, Restart(t, f, built).1)
  {
    hide Sound, Iterate, Placed, Consistent;
    var asked := f.(forceReload := true);
    RequestsKeepConsistent(t, f, false, None);
    RequestsKeepConsistent(t, asked, true, None);
    IterateOwnsFresh(t, Begin(asked, true), built, TRANSITION_STEPS);
  }

  lemma StartKeepsReady(w: Watched, id: nat, built: bool)
    requires Ready(w) && !w.tree.poisoned && id in w.fibers
    ensures var (u, g) := Drive(w.tree, w.fibers[id], built); Usable(Watched(u, w.fibers[id := g]))
  {
    hide Sound, Consistent, Placed, Drive, SettledFrom;
    DriveSettles(w.tree, w.fibers[id], built);
    DriveOwnsFresh(w.tree, w.fibers[id], built);
    var (u, g) := Drive(w.tree, w.fibers[id], built);
    SettledKeepsReady(w, id, u, g);
  }

  lemma RestartKeepsReady(w: Watched, id: nat, built: bool)
    requires Ready(w) && !w.tree.poisoned && id in w.fibers
    ensures var (u, g) := Restart(w.tree, w.fibers[id], built); Ready(Watched(u, w.fibers[id := g]))
  {
    hide Sound, Consistent, Placed, Restart, SettledFrom;
    RestartSettles(w.tree, w.fibers[id], built);
    RestartOwnsFresh(w.tree, w.fibers[id], built);
    var (u, g) := Restart(w.tree, w.fibers[id], built);
    SettledKeepsReady(w, id, u, g);
  }

  // ---- Whole runs ----

  /** After every run of the coordinator the tree is sound and every fiber is consistent, at rest and placed. */
  lemma {:induction false} RunKeepsReady(actions: seq<Action>)
    ensures Ready(PerformAll(Nothing, actions))
    decreases |actions|
  {
    hide Ready, Perform;
    if actions == [] {
      NothingIsReady();
    } else {
      RunKeepsReady(actions[..|actions| - 1]);
      PerformKeepsReady(PerformAll(Nothing, actions[..|actions| - 1]), actions[|actions| - 1]);
    }
  }

  lemma NothingIsReady()
    ensures Ready(Nothing)
  {
    RootResolves();
  }

  /** After every run, acyclic fiber definitions reconcile to the fixpoint within the longest chain. */
  lemma EveryRunReconciles(actions: seq<Action>, answers: Answers, longest: nat)
    requires var w := PerformAll(Nothing, actions);
             !w.tree.poisoned && Digraph.Acyclic(FiberGraph(w)) && IsLongestChain(FiberGraph(w), longest)
    ensures var w := PerformAll(Nothing, actions);
            var v := Passes(w, longest + 1, answers);
            && v == Perform(w, ReconcileFibers(answers, longest + 1))
            && Driven(v, Ascending(v.fibers.Keys), longest + 1, answers) == []
            && forall id :: id in v.fibers ==> AtFixpoint(v.tree, v.fibers[id])
  {
    hide Ready, AllReady, PerformAll, Passes, Driven, AtFixpoint, Digraph.Acyclic, FiberGraph, IsLongestChain;
    RunKeepsReady(actions);
    ReadyIsAllReady(PerformAll(Nothing, actions));
    AcyclicReconciliationStops(PerformAll(Nothing, actions), answers, longest);
  }

  /**
   After every run, a withdrawal leaves the fibers of its closure owning and bound
   to nothing, every other fiber as it was, and none of those bound to the retired
   entry or to an entry of a drained fiber.
   */
  lemma EveryWithdrawalDrains(actions: seq<Action>, s: nat, id: Id, generation: nat, order: seq<nat>)
    requires Possible(PerformAll(Nothing, actions), WithdrawProvider(s, id, generation, order))
    ensures var w := PerformAll(Nothing, actions);
            var v := Perform(w, WithdrawProvider(s, id, generation, order));
            && v.fibers.Keys == w.fibers.Keys
            && (forall x :: x in order ==> x in v.fibers && Quiet(v.fibers[x]))
            && (forall x :: x in w.fibers && x !in order ==>
                  v.fibers[x] == w.fibers[x] && Unbound(w.fibers, order, Retired(w.tree, s, id), x))
  {
    hide Ready, PerformAll, Drain, Quiet, Withdraw, OrdersClosure, Unbound;
    var w := PerformAll(Nothing, actions);
    RunKeepsReady(actions);
    WithdrawalKeepsReady(w, s, id, generation);
    var retired := Retired(w.tree, s, id);
    var identities :| OrdersClosure(w.fibers, identities, retired, order);
    ListedAreWatched(w.fibers, identities, retired, order);
    var u := Withdraw(w.tree, s, id, generation).value;
    ReadyIsRestful(Watched(u, w.fibers));
    DrainQuiets(u, w.fibers, order, retired);
    forall x | x in w.fibers && x !in order ensures Unbound(w.fibers, order, retired, x) {
      OutsideIsUnbound(w, identities, retired, order, x);
    }
    forall x | x in order ensures x in w.fibers { assert x in Elements(order); }
  }

  /** A fiber bound neither to the retired entry nor to an entry that a listed fiber owns. */
  ghost predicate Unbound(fibers: Fibers, order: seq<nat>, retired: nat, x: nat) {
    x in fibers && BindingOf(fibers[x]).Some? ==>
      forall y :: y in BindingOf(fibers[x]).value ==>
        && BindingOf(fibers[x]).value[y] != retired
        && forall p :: p in order && p in fibers ==> fibers[p].handle != Some(BindingOf(fibers[x]).value[y])
  }

  lemma OutsideIsUnbound(w: Watched, identities: map<nat, nat>, retired: nat, order: seq<nat>, x: nat)
    requires Ready(w) && OrdersClosure(w.fibers, identities, retired, order) && x in w.fibers && x !in order
    ensures Unbound(w.fibers, order, retired, x)
  {
    hide Sound, ReadyFiber, IsWithdrawalClosure, ConsumersFirst, DeepestFirst;
    var f := w.fibers[x];
    if BindingOf(f).Some? {
      forall y | y in BindingOf(f).value
        ensures BindingOf(f).value[y] != retired
        ensures forall p :: p in order && p in w.fibers ==> w.fibers[p].handle != Some(BindingOf(f).value[y])
      {
        NothingLeftDangling(w.fibers, identities, retired, Elements(order), x, y);
        forall p | p in order && p in w.fibers ensures w.fibers[p].handle != Some(BindingOf(f).value[y]) {
          OwnerIsKnown(w, identities, p, BindingOf(f).value[y]);
        }
      }
    }
  }

  lemma OwnerIsKnown(w: Watched, identities: map<nat, nat>, p: nat, e: nat)
    requires Exclusive(w.fibers) && AreIdentities(w.fibers, identities) && p in w.fibers
    ensures w.fibers[p].handle == Some(e) ==> e in identities && identities[e] == p
  {
  }

  lemma ReadyIsRestful(w: Watched)
    requires Ready(w)
    ensures Sound(w.tree) && forall id :: id in w.fibers ==> Consistent(w.tree, w.fibers[id]) && Restful(w.fibers[id])
  {
  }
}
