/**
 Reconciliation: passes over the watched fibers in identity order until a pass
 drives none. Here mutations are serialized: nothing else touches the scopes
 while a pass runs.
 */
module ReconcileModel {
  import opened Prelude
  import opened ResolverModel
  import opened ScopeModel
  import opened ScopeInvariants
  import opened ScopePublication
  import opened FiberModel
  import opened FiberSafety
  import opened GraphDepth
  import Digraph

  // ---- One serialized transition ----

  /** Steps of one fiber with nothing in between; `built` is the answer of its factory. */
  function Iterate(t: Tree, f: Fiber, built: bool, n: nat): (Tree, Fiber)
    decreases n
  {
    if n == 0 then (t, f) else
      var (u, g) := Advance(t, f, built);
      Iterate(u, g, built, n - 1)
  }

  /** A started transition needs at most: decide, unload, decide, construct, recheck, commit. */
  const TRANSITION_STEPS: nat := 6

  function Drive(t: Tree, f: Fiber, built: bool): (Tree, Fiber) {
    Iterate(t, Begin(f, false), built, TRANSITION_STEPS)
  }

  /** No transition is running and none is left half done. */
  predicate Resting(f: Fiber) {
    f.wait == AtRest && !f.state.Loading? && !f.state.Unloading? && (f.disposeRequested <==> f.state == Disposed)
  }

  /** The trees differ at most in the local entry for one identifier of one scope. */
  ghost predicate OnlyEntry(t: Tree, u: Tree, s: nat, id: Id) {
    && |u.scopes| == |t.scopes| && Extends(t, u) && u.poisoned == t.poisoned
    && forall i :: 0 <= i < |t.scopes| ==>
         && SameLinks(t.scopes[i], u.scopes[i])
         && forall x :: i != s || x != id ==>
              (x in u.scopes[i].entries <==> x in t.scopes[i].entries)
              && (x in t.scopes[i].entries && x in u.scopes[i].entries ==>
                    u.scopes[i].entries[x] == t.scopes[i].entries[x])
  }

  // ---- Lookups unaffected by one entry ----

  lemma {:induction false} GetElsewhere(t: Tree, u: Tree, s: nat, id: Id, i: nat, x: Id)
    requires OnlyEntry(t, u, s, id) && x != id
    ensures Get(u, i, x) == Get(t, i, x)
    decreases i
  {
    if i < |t.scopes| {
      assert SameLinks(t.scopes[i], u.scopes[i]);
      if t.scopes[i].parent.Some? && t.scopes[i].parent.value < i {
        GetElsewhere(t, u, s, id, t.scopes[i].parent.value, x);
      }
    }
  }

  lemma {:induction false} LookElsewhere(t: Tree, u: Tree, s: nat, id: Id, c: Context, x: Id)
    requires OnlyEntry(t, u, s, id) && x != id
    ensures Look(u, c, x) == Look(t, c, x)
    decreases c
  {
    GetElsewhere(t, u, s, id, c.scope, x);
    hide Get;
    if c.scope < |t.scopes| { assert SameLinks(t.scopes[c.scope], u.scopes[c.scope]); }
    if c.parent.Some? { LookElsewhere(t, u, s, id, c.parent.value, x); }
  }

  lemma TargetElsewhere(t: Tree, u: Tree, s: nat, id: Id, f: Fiber)
    requires OnlyEntry(t, u, s, id) && id !in f.definition.dependencies
    ensures Target(u, f) == Target(t, f)
  {
    hide Look, OnlyEntry;
    forall x | x in f.definition.dependencies ensures Look(u, f.context, x) == Look(t, f.context, x) {
      LookElsewhere(t, u, s, id, f.context, x);
    }
    if Target(t, f).Some? { assert Target(t, f).value == Target(u, f).value; }
  }

  /** A scope never resolves what a context sees to a different entry; at most it resolves nothing. */
  lemma {:induction false} LookThenGet(t: Tree, c: Context, id: Id)
    requires Parented(t) && Follows(t, c) && Look(t, c, id).Some?
    ensures Get(t, c.scope, id) == None || Get(t, c.scope, id) == Look(t, c, id)
    decreases c
  {
    if id !in t.scopes[c.scope].entries { LookThenGet(t, c.parent.value, id); }
  }

  // ---- How each step touches the tree ----

  lemma SameTree(t: Tree, s: nat, id: Id)
    ensures OnlyEntry(t, t, s, id)
  {
  }

  lemma OnlyEntryTwice(t: Tree, u: Tree, v: Tree, s: nat, id: Id)
    requires OnlyEntry(t, u, s, id) && OnlyEntry(u, v, s, id)
    ensures OnlyEntry(t, v, s, id)
  {
    forall i | 0 <= i < |t.scopes| ensures SameLinks(t.scopes[i], v.scopes[i]) {
      assert SameLinks(t.scopes[i], u.scopes[i]) && SameLinks(u.scopes[i], v.scopes[i]);
    }
  }

  lemma UnloadTouches(t: Tree, f: Fiber, detached: Option<nat>)
    requires Sound(t) && !t.poisoned && Bound(t, f)
    ensures OnlyEntry(t, Unload(t, f, detached).0, f.context.scope, f.definition.id)
  {
    UnloadStep(t, f, detached);
    hide Sound;
  }

  lemma InsertTouches(t: Tree, s: nat, d: Definition, generation: nat, snapshot: map<Id, nat>)
    requires Tidy(t) && s < |t.scopes|
    ensures OnlyEntry(t, Insert(t, s, d, generation, snapshot), s, d.id)
  {
    hide Parented, Housed, Upward;
    assert t.nextEntry !in t.slots;
    hide Pinned;
  }

  lemma CommitTouches(t: Tree, f: Fiber, force: bool, snapshot: map<Id, nat>)
    requires Sound(t) && !t.poisoned && Consistent(t, f) && f.wait == Committing(force, snapshot)
    ensures OnlyEntry(t, CommitFiber(t, f, force, snapshot).0, f.context.scope, f.definition.id)
  {
    hide OnlyEntry, Publish, Insert, Holds, Bound, NextGeneration;
    var s, d := f.context.scope, f.definition;
    SameTree(t, s, d.id);
    if s < |t.scopes| && Publish(t, s, d, New, snapshot).Ok? {
      PublicationInserts(t, s, d, New, snapshot);
      InsertTouches(t, s, d, NextGeneration(t, s, d.id, New).value, snapshot);
    }
  }

  /** A publication whose snapshot is current is never refused for a changed dependency. */
  lemma CurrentIsNotChanged(t: Tree, s: nat, d: Definition, snapshot: map<Id, nat>)
    requires s < |t.scopes| && Wrong(t, s, d, snapshot) == {} && snapshot.Keys == d.dependencies
    requires Publish(t, s, d, New, snapshot).Err?
    ensures !Publish(t, s, d, New, snapshot).error.DependencyChanged?
  {
    hide Get, VisibleDefinitions, ValidateCandidate, Descendants, Insert;
    forall x | x in d.dependencies ensures Get(t, s, x) == Some(snapshot[x]) {
      assert x !in Wrong(t, s, d, snapshot);
    }
    assert Changed(t, s, d, snapshot) == {};
    AdmissionErrors(t, s, d, Descendants(t, s));
  }

  lemma {:induction false} AdmissionErrors(t: Tree, s: nat, d: Definition, list: seq<nat>)
    ensures AdmitDescendants(t, s, d, list).Failed? ==> !AdmitDescendants(t, s, d, list).error.DependencyChanged?
    decreases |list|
  {
    hide Affects, VisibleDefinitions, Resolve;
    if list != [] { AdmissionErrors(t, s, d, list[1..]); }
  }

  // ---- A serialized transition settles its fiber ----

  /** The fiber's definition is not among its own needs, and its context follows the tree. */
  ghost predicate Placed(t: Tree, f: Fiber) {
    f.definition.id !in f.definition.dependencies && Follows(t, f.context)
  }

  lemma {:induction false} FollowsElsewhere(t: Tree, u: Tree, s: nat, id: Id, c: Context)
    requires OnlyEntry(t, u, s, id) && Follows(t, c)
    ensures Follows(u, c)
    decreases c
  {
    assert SameLinks(t.scopes[c.scope], u.scopes[c.scope]);
    if c.parent.Some? { FollowsElsewhere(t, u, s, id, c.parent.value); }
  }

  lemma PlacedElsewhere(t: Tree, u: Tree, s: nat, id: Id, f: Fiber)
    requires OnlyEntry(t, u, s, id) && Placed(t, f)
    ensures Placed(u, f)
  {
    hide OnlyEntry;
    FollowsElsewhere(t, u, s, id, f.context);
  }

  /** What holds between the steps of a serialized transition of `f0` that began on `t0`. */
  ghost predicate Underway(t0: Tree, f0: Fiber, t: Tree, f: Fiber) {
    && Sound(t) && !t.poisoned && Consistent(t, f) && Placed(t, f)
    && f.context == f0.context && f.definition == f0.definition
    && !f.disposeRequested && !f.forceReload
    && OnlyEntry(t0, t, f0.context.scope, f0.definition.id)
  }

  /** One step keeps the transition underway. */
  lemma UnderwayStep(t0: Tree, f0: Fiber, t: Tree, f: Fiber, built: bool)
    requires Underway(t0, f0, t, f) && !f.wait.Disposing? && !f.wait.Deactivating?
    ensures var (u, g) := Advance(t, f, built);
            Underway(t0, f0, u, g)
  {
    hide Sound, OnlyEntry, Consistent, Placed, Unload, CommitFiber, Binding, Get, Holds;
    StepIsConsistent(t, f, built);
    var (u, g) := Advance(t, f, built);
    var s, id := f.context.scope, f.definition.id;
    StepTouches(t, f, built);
    OnlyEntryTwice(t0, t, u, s, id);
    PlacedElsewhere(t, u, s, id, f);
    StepKeepsIdentity(t, f, built);
    SameplaceFor(u, f, g);
  }

  lemma SameplaceFor(t: Tree, f: Fiber, g: Fiber)
    requires Placed(t, f) && g.context == f.context && g.definition == f.definition
    ensures Placed(t, g)
  {
  }

  lemma StepKeepsIdentity(t: Tree, f: Fiber, built: bool)
    requires !f.disposeRequested && !f.forceReload
    ensures var g := Advance(t, f, built).1;
            g.context == f.context && g.definition == f.definition && !g.disposeRequested && !g.forceReload
  {
    hide Binding, Publish, RemoveLocal, Wrong, Get;
  }

  lemma StepTouches(t: Tree, f: Fiber, built: bool)
    requires Sound(t) && !t.poisoned && Consistent(t, f)
    ensures OnlyEntry(t, Advance(t, f, built).0, f.context.scope, f.definition.id)
  {
    hide Sound, OnlyEntry, Unload, CommitFiber, Decide, Constructed, Recheck, Holds;
    SameTree(t, f.context.scope, f.definition.id);
    match f.wait
    case Clearing => UnloadTouches(t, f, None);
    case Removing(_) => UnloadTouches(t, f, None);
    case Deactivating(detached) => UnloadTouches(t, f, detached);
    case Disposing => UnloadTouches(t, f, None);
    case Committing(force, snapshot) => CommitTouches(t, f, force, snapshot);
    case _ =>
  }

  /** The outcome of a serialized transition: the fiber is at rest, and pending only for want of a dependency. */
  ghost predicate Settled(t0: Tree, f0: Fiber, t: Tree, f: Fiber) {
    && Underway(t0, f0, t, f) && Resting(f) && !NeedsReconciliation(t, f)
    && (f.state == Pending ==> Target(t, f) == None)
  }

  lemma {:induction false} RestStays(t: Tree, f: Fiber, built: bool, n: nat)
    requires f.wait == AtRest
    ensures Iterate(t, f, built, n) == (t, f)
    decreases n
  {
    if n > 0 { RestStays(t, f, built, n - 1); }
  }

  /** What the fiber resolves to does not change while only its own entry does. */
  lemma SameTarget(t0: Tree, f0: Fiber, t: Tree, f: Fiber)
    requires Underway(t0, f0, t, f)
    ensures Target(t, f) == Target(t0, f0)
  {
    hide Sound, OnlyEntry, Consistent, Binding;
    TargetElsewhere(t0, t, f0.context.scope, f0.definition.id, f0);
  }

  lemma FromCommitting(t0: Tree, f0: Fiber, t: Tree, f: Fiber, built: bool, n: nat, force: bool, snapshot: map<Id, nat>)
    requires Underway(t0, f0, t, f) && n >= 1 && f.wait == Committing(force, snapshot)
    requires Target(t0, f0) == Some(snapshot) && Wrong(t, f.context.scope, f.definition, snapshot) == {}
    ensures var (u, g) := Iterate(t, f, built, n); Settled(t0, f0, u, g)
  {
    hide Sound, OnlyEntry, Placed, Publish, Binding, Iterate, Wrong, Get, Current;
    UnderwayStep(t0, f0, t, f, built);
    CommitStep(t, f, force, snapshot);
    var (u, g) := Advance(t, f, built);
    SameTarget(t0, f0, u, g);
    PlacedScope(t, f);
    if Publish(t, f.context.scope, f.definition, New, snapshot).Err? {
      CurrentIsNotChanged(t, f.context.scope, f.definition, snapshot);
    }
    assert Iterate(t, f, built, n) == Iterate(u, g, built, n - 1) by { IterateOnce(t, f, built, n); }
    RestStays(u, g, built, n - 1);
  }

  lemma IterateOnce(t: Tree, f: Fiber, built: bool, n: nat)
    requires n >= 1
    ensures Iterate(t, f, built, n) == Iterate(Advance(t, f, built).0, Advance(t, f, built).1, built, n - 1)
  {
  }

  lemma PlacedScope(t: Tree, f: Fiber)
    requires Placed(t, f)
    ensures f.context.scope < |t.scopes|
  {
  }

  lemma FromRechecking(t0: Tree, f0: Fiber, t: Tree, f: Fiber, built: bool, n: nat, force: bool, snapshot: map<Id, nat>)
    requires Underway(t0, f0, t, f) && n >= 2 && f.wait == Rechecking(force, snapshot)
    requires Target(t0, f0) == Some(snapshot)
    ensures var (u, g) := Iterate(t, f, built, n); Settled(t0, f0, u, g)
  {
    hide Sound, OnlyEntry, Placed, Binding, Iterate, Get, Consistent;
    UnderwayStep(t0, f0, t, f, built);
    IterateOnce(t, f, built, n);
    SameTarget(t0, f0, t, f);
    var (u, g) := Advance(t, f, built);
    var wrong := Wrong(t, f.context.scope, f.definition, snapshot);
    if wrong == {} {
      FromCommitting(t0, f0, u, g, built, n - 1, force, snapshot);
    } else {
      WrongIsMissing(t, f, snapshot, Least(wrong));
      SameTarget(t0, f0, u, g);
      RestStays(u, g, built, n - 1);
    }
  }

  /** With nothing in between, a dependency the context sees can only be missing from the scope's own view. */
  lemma WrongIsMissing(t: Tree, f: Fiber, snapshot: map<Id, nat>, x: Id)
    requires Sound(t) && Placed(t, f) && Target(t, f) == Some(snapshot)
    requires x in Wrong(t, f.context.scope, f.definition, snapshot)
    ensures Get(t, f.context.scope, x) == None
  {
    hide Get, Look, Upward, Pinned;
    BindingHolds(t, f.context, f.definition);
    LookThenGet(t, f.context, x);
  }

  lemma FromConstructing(t0: Tree, f0: Fiber, t: Tree, f: Fiber, built: bool, n: nat, force: bool,
                         snapshot: map<Id, nat>)
    requires Underway(t0, f0, t, f) && n >= 3 && f.wait == Constructing(force, snapshot)
    requires Target(t0, f0) == Some(snapshot)
    ensures var (u, g) := Iterate(t, f, built, n); Settled(t0, f0, u, g)
  {
    hide Sound, OnlyEntry, Placed, Binding, Iterate, Consistent;
    UnderwayStep(t0, f0, t, f, built);
    IterateOnce(t, f, built, n);
    SameTarget(t0, f0, t, f);
    var (u, g) := Advance(t, f, built);
    if built {
      FromRechecking(t0, f0, u, g, built, n - 1, force, snapshot);
    } else {
      RestStays(u, g, built, n - 1);
    }
  }

  lemma FromDecidingPending(t0: Tree, f0: Fiber, t: Tree, f: Fiber, built: bool, n: nat, force: bool)
    requires Underway(t0, f0, t, f) && n >= 4 && f.wait == Deciding(force) && f.state == Pending
    ensures var (u, g) := Iterate(t, f, built, n); Settled(t0, f0, u, g)
  {
    hide Sound, OnlyEntry, Placed, Binding, Iterate, Consistent;
    UnderwayStep(t0, f0, t, f, built);
    IterateOnce(t, f, built, n);
    SameTarget(t0, f0, t, f);
    var (u, g) := Advance(t, f, built);
    if Target(t, f).Some? {
      FromConstructing(t0, f0, u, g, built, n - 1, force, Target(t, f).value);
    } else {
      SameTarget(t0, f0, u, g);
      RestStays(u, g, built, n - 1);
    }
  }

  lemma FromRemoving(t0: Tree, f0: Fiber, t: Tree, f: Fiber, built: bool, n: nat, force: bool)
    requires Underway(t0, f0, t, f) && n >= 5 && f.wait == Removing(force)
    ensures var (u, g) := Iterate(t, f, built, n); Settled(t0, f0, u, g)
  {
    hide Sound, OnlyEntry, Placed, Binding, Iterate, Consistent, RemoveLocal;
    UnderwayStep(t0, f0, t, f, built);
    IterateOnce(t, f, built, n);
    var (u, g) := Advance(t, f, built);
    FromDecidingPending(t0, f0, u, g, built, n - 1, force);
  }

  lemma FromClearing(t0: Tree, f0: Fiber, t: Tree, f: Fiber, built: bool, n: nat)
    requires Underway(t0, f0, t, f) && n >= 1 && f.wait == Clearing && Target(t0, f0) == None
    ensures var (u, g) := Iterate(t, f, built, n); Settled(t0, f0, u, g)
  {
    hide Sound, OnlyEntry, Placed, Binding, Iterate, Consistent, RemoveLocal;
    UnderwayStep(t0, f0, t, f, built);
    IterateOnce(t, f, built, n);
    var (u, g) := Advance(t, f, built);
    SameTarget(t0, f0, u, g);
    RestStays(u, g, built, n - 1);
  }

  lemma FromDecidingLoaded(t0: Tree, f0: Fiber, t: Tree, f: Fiber, built: bool, n: nat, force: bool)
    requires Underway(t0, f0, t, f) && n >= 6 && f.wait == Deciding(force)
    requires f.state == Active || f.state == FiberState.Failed
    ensures var (u, g) := Iterate(t, f, built, n); Settled(t0, f0, u, g)
  {
    hide Sound, OnlyEntry, Placed, Binding, Iterate, Consistent;
    UnderwayStep(t0, f0, t, f, built);
    IterateOnce(t, f, built, n);
    SameTarget(t0, f0, t, f);
    var (u, g) := Advance(t, f, built);
    if Target(t, f).None? && f.state == Active {
      FromClearing(t0, f0, u, g, built, n - 1);
    } else if Target(t, f).None? || (!force && f.state == Active && f.binding == Target(t, f)) {
      SameTarget(t0, f0, u, g);
      RestStays(u, g, built, n - 1);
    } else {
      FromRemoving(t0, f0, u, g, built, n - 1, force);
    }
  }

  /** What a transition with nothing in between leaves of a resting fiber. */
  ghost predicate SettledFrom(t: Tree, f: Fiber, u: Tree, g: Fiber) {
    && Sound(u) && !u.poisoned && Consistent(u, g) && Resting(g) && Placed(u, g) && !NeedsReconciliation(u, g)
    && g.context == f.context && g.definition == f.definition
    && OnlyEntry(t, u, f.context.scope, f.definition.id)
  }

  /** A transition that does begin leaves a fiber pending only for want of a dependency. */
  lemma BegunSettles(t: Tree, f: Fiber, begun: Fiber, built: bool, force: bool)
    requires Sound(t) && !t.poisoned && Consistent(t, f) && Resting(f) && Placed(t, f) && f.state != Disposed
    requires begun == f.(forceReload := false, wait := Deciding(force))
    ensures var (u, g) := Iterate(t, begun, built, TRANSITION_STEPS);
            SettledFrom(t, f, u, g) && g.state != Disposed && (g.state == Pending ==> Target(u, g) == None)
  {
    hide Sound, OnlyEntry, Placed, Binding, Iterate, Holds;
    SameTree(t, f.context.scope, f.definition.id);
    SameplaceFor(t, f, begun);
    assert Underway(t, begun, t, begun);
    if f.state == Pending {
      FromDecidingPending(t, begun, t, begun, built, TRANSITION_STEPS, force);
    } else {
      FromDecidingLoaded(t, begun, t, begun, built, TRANSITION_STEPS, force);
    }
  }

  /**
   Driving any resting fiber, with nothing in between, leaves it at rest and in
   need of nothing: a failed or disposed one as it was, any other active, failed,
   or pending for want of a dependency.
   */
  lemma DriveSettles(t: Tree, f: Fiber, built: bool)
    requires Sound(t) && !t.poisoned && Consistent(t, f) && Resting(f) && Placed(t, f)
    ensures var (u, g) := Drive(t, f, built);
            && SettledFrom(t, f, u, g)
            && (f.state == FiberState.Failed || f.state == Disposed ==> (u, g) == (t, f))
            && (g.state == Pending ==> Target(u, g) == None)
  {
    hide Sound, OnlyEntry, Placed, Binding, Iterate, Holds;
    SameTree(t, f.context.scope, f.definition.id);
    if f.state == FiberState.Failed || f.state == Disposed {
      RestStays(t, f, built, TRANSITION_STEPS);
    } else {
      BegunSettles(t, f, Begin(f, false), built, f.forceReload);
    }
  }

  /** A restart: the fiber is reloaded even when nothing changed, or after a failure. */
  function Restart(t: Tree, f: Fiber, built: bool): (Tree, Fiber) {
    if f.state == Disposed then (t, f) else Iterate(t, Begin(f.(forceReload := true), true), built, TRANSITION_STEPS)
  }

  /** Restarting settles a resting fiber too, whatever state it was in. */
  lemma RestartSettles(t: Tree, f: Fiber, built: bool)
    requires Sound(t) && !t.poisoned && Consistent(t, f) && Resting(f) && Placed(t, f)
    ensures var (u, g) := Restart(t, f, built);
            SettledFrom(t, f, u, g) && (g.state == Pending ==> Target(u, g) == None)
  {
    hide Sound, OnlyEntry, Placed, Binding, Iterate, Holds;
    SameTree(t, f.context.scope, f.definition.id);
    if f.state != Disposed { BegunSettles(t, f, Begin(f.(forceReload := true), true), built, true); }
  }

  // ---- Passes ----

  /** The scopes and the watched fibers. */
  datatype Watched = Watched(tree: Tree, fibers: map<nat, Fiber>)

  /** What the factory of a fiber answers in a pass. */
  type Answers = (nat, nat) -> bool

  function Visit(w: Watched, id: nat, built: bool): Watched {
    if id in w.fibers && NeedsReconciliation(w.tree, w.fibers[id]) then
      var (u, g) := Drive(w.tree, w.fibers[id], built);
      Watched(u, w.fibers[id := g])
    else w
  }

  /** Pass number `k` over the listed fibers. */
  function Pass(w: Watched, ids: seq<nat>, k: nat, answers: Answers): Watched
    decreases |ids|
  {
    if ids == [] then w else Pass(Visit(w, ids[0], answers(k, ids[0])), ids[1..], k, answers)
  }

  /** The fibers a pass drives, in order. */
  function Driven(w: Watched, ids: seq<nat>, k: nat, answers: Answers): seq<nat>
    decreases |ids|
  {
    if ids == [] then []
    else
      (if ids[0] in w.fibers && NeedsReconciliation(w.tree, w.fibers[ids[0]]) then [ids[0]] else [])
      + Driven(Visit(w, ids[0], answers(k, ids[0])), ids[1..], k, answers)
  }

  function Passes(w: Watched, n: nat, answers: Answers): Watched
    decreases n
  {
    if n == 0 then w
    else
      var before := Passes(w, n - 1, answers);
      Pass(before, Ascending(before.fibers.Keys), n - 1, answers)
  }

  /** Everything driven in the first `n` passes, in order. */
  function DrivenThrough(w: Watched, n: nat, answers: Answers): seq<nat>
    decreases n
  {
    if n == 0 then []
    else
      var before := Passes(w, n - 1, answers);
      DrivenThrough(w, n - 1, answers) + Driven(before, Ascending(before.fibers.Keys), n - 1, answers)
  }

  // ---- Hypotheses ----

  ghost predicate AllReady(w: Watched) {
    && Sound(w.tree) && !w.tree.poisoned
    && forall id :: id in w.fibers ==>
      Consistent(w.tree, w.fibers[id]) && Resting(w.fibers[id]) && Placed(w.tree, w.fibers[id])
  }

  /** The fibers' definitions are acyclic: each needs only capabilities of lower rank than its own. */
  ghost predicate Ranked(w: Watched, rank: Id -> nat) {
    forall id, x :: id in w.fibers && x in w.fibers[id].definition.dependencies ==>
      rank(x) < rank(w.fibers[id].definition.id)
  }

  /** Fibers below rank `k`, and listed ones at rank `k`, need nothing. */
  ghost predicate SettledBelow(w: Watched, rank: Id -> nat, k: nat, done: set<nat>) {
    forall id :: id in w.fibers ==>
      var r := rank(w.fibers[id].definition.id);
      r < k || (r == k && id in done) ==> !NeedsReconciliation(w.tree, w.fibers[id])
  }

  predicate SameDefinitions(w: Watched, v: Watched) {
    v.fibers.Keys == w.fibers.Keys && forall id :: id in w.fibers ==> v.fibers[id].definition == w.fibers[id].definition
  }

  lemma VisitSettles(w: Watched, id: nat, built: bool, rank: Id -> nat, k: nat, done: set<nat>)
    requires AllReady(w) && Ranked(w, rank) && SettledBelow(w, rank, k, done)
    ensures var v := Visit(w, id, built);
            AllReady(v) && Ranked(v, rank) && SameDefinitions(w, v) && SettledBelow(v, rank, k, done + {id})
  {
    hide Sound, Consistent, Placed, OnlyEntry, Drive, NeedsReconciliation, Extends;
    if id in w.fibers && NeedsReconciliation(w.tree, w.fibers[id]) {
      var f := w.fibers[id];
      DriveSettles(w.tree, f, built);
      var (u, g) := Drive(w.tree, f, built);
      var v := Watched(u, w.fibers[id := g]);
      assert rank(f.definition.id) >= k;
      forall x | x in w.fibers && x != id
        ensures Consistent(u, w.fibers[x]) && Placed(u, w.fibers[x])
        ensures rank(w.fibers[x].definition.id) <= k ==>
          NeedsReconciliation(u, w.fibers[x]) == NeedsReconciliation(w.tree, w.fibers[x])
      {
        OthersUnaffected(w.tree, u, f, w.fibers[x]);
      }
    }
  }

  lemma OthersUnaffected(t: Tree, u: Tree, f: Fiber, x: Fiber)
    requires OnlyEntry(t, u, f.context.scope, f.definition.id) && Consistent(t, x) && Placed(t, x)
    ensures Consistent(u, x) && Placed(u, x)
    ensures f.definition.id !in x.definition.dependencies ==> NeedsReconciliation(u, x) == NeedsReconciliation(t, x)
  {
    hide Consistent, Binding, Extends;
    ConsistentLater(t, u, x);
    PlacedElsewhere(t, u, f.context.scope, f.definition.id, x);
    if f.definition.id !in x.definition.dependencies { TargetElsewhere(t, u, f.context.scope, f.definition.id, x); }
  }

  lemma {:induction false} PassSettles(w: Watched, ids: seq<nat>, pass: nat, answers: Answers, rank: Id -> nat, k: nat,
                                       done: set<nat>)
    requires AllReady(w) && Ranked(w, rank) && SettledBelow(w, rank, k, done)
    ensures var v := Pass(w, ids, pass, answers);
            AllReady(v) && Ranked(v, rank) && SameDefinitions(w, v) && SettledBelow(v, rank, k, done + Elements(ids))
    decreases |ids|
  {
    hide AllReady, Ranked, SettledBelow, Visit;
    if ids == [] {
      assert done + Elements(ids) == done;
    } else {
      var v := Visit(w, ids[0], answers(pass, ids[0]));
      VisitSettles(w, ids[0], answers(pass, ids[0]), rank, k, done);
      PassSettles(v, ids[1..], pass, answers, rank, k, done + {ids[0]});
      assert done + Elements(ids) == done + {ids[0]} + Elements(ids[1..]) by { assert ids == [ids[0]] + ids[1..]; }
    }
  }

  /** After `n` passes, every fiber below rank `n` needs nothing. */
  lemma {:induction false} PassesSettle(w: Watched, n: nat, answers: Answers, rank: Id -> nat)
    requires AllReady(w) && Ranked(w, rank)
    ensures var v := Passes(w, n, answers);
            AllReady(v) && Ranked(v, rank) && SameDefinitions(w, v) && SettledBelow(v, rank, n, {})
    decreases n
  {
    hide AllReady, Ranked, Pass;
    if n > 0 {
      PassesSettle(w, n - 1, answers, rank);
      var before := Passes(w, n - 1, answers);
      var ids := Ascending(before.fibers.Keys);
      PassSettles(before, ids, n - 1, answers, rank, n - 1, {});
      assert forall id :: id in before.fibers ==> id in {} + Elements(ids);
    }
  }

  /** A pass drives nothing exactly when no listed fiber needs it, and then changes nothing. */
  lemma {:induction false} QuietPass(w: Watched, ids: seq<nat>, pass: nat, answers: Answers)
    ensures Driven(w, ids, pass, answers) == [] <==>
              forall id :: id in ids && id in w.fibers ==> !NeedsReconciliation(w.tree, w.fibers[id])
    ensures Driven(w, ids, pass, answers) == [] ==> Pass(w, ids, pass, answers) == w
    decreases |ids|
  {
    hide NeedsReconciliation, Drive;
    if ids != [] {
      if !(ids[0] in w.fibers && NeedsReconciliation(w.tree, w.fibers[ids[0]])) {
        QuietPass(w, ids[1..], pass, answers);
        assert forall id :: id in ids <==> id == ids[0] || id in ids[1..];
      } else {
        assert ids[0] in ids;
      }
    }
  }

  /** The states in which reconciliation leaves a fiber. */
  ghost predicate AtFixpoint(t: Tree, f: Fiber) {
    match f.state
    case Active => f.binding.Some? && f.binding == Target(t, f)
    case Pending => f.definition.dependencies == {} || Target(t, f) == None
    case Failed => true
    case Disposed => true
    case Loading => false
    case Unloading => false
  }

  /**
   Whatever the identities of the fibers and whatever their factories answer,
   reconciliation stops: if all ranks are below `bound`, pass `bound` at the
   latest drives nothing, and every fiber is then at the fixpoint.
   */
  lemma ReconciliationStops(w: Watched, answers: Answers, rank: Id -> nat, bound: nat)
    requires AllReady(w) && Ranked(w, rank) && forall id :: id in w.fibers ==> rank(w.fibers[id].definition.id) < bound
    ensures var v := Passes(w, bound, answers);
            && Driven(v, Ascending(v.fibers.Keys), bound, answers) == [] && Passes(w, bound + 1, answers) == v
            && v.fibers.Keys == w.fibers.Keys && forall id :: id in v.fibers ==> AtFixpoint(v.tree, v.fibers[id])
  {
    hide Sound, Placed, Pass, Driven, Target, Passes;
    PassesSettle(w, bound, answers, rank);
    var v := Passes(w, bound, answers);
    QuietPass(v, Ascending(v.fibers.Keys), bound, answers);
    assert Passes(w, bound + 1, answers) == Pass(v, Ascending(v.fibers.Keys), bound, answers) by {
      NextPass(w, bound, answers);
    }
  }

  lemma NextPass(w: Watched, n: nat, answers: Answers)
    ensures Passes(w, n + 1, answers) ==
      Pass(Passes(w, n, answers), Ascending(Passes(w, n, answers).fibers.Keys), n, answers)
  {
  }

  // ---- Acyclic fiber definitions ----

  function DefinedIds(w: Watched): set<Id> {
    set id | id in w.fibers :: w.fibers[id].definition.id
  }

  /** What the fibers that publish `c` depend on. */
  function NeedsOf(w: Watched, c: Id): set<Id> {
    set id, x | id in w.fibers && w.fibers[id].definition.id == c && x in w.fibers[id].definition.dependencies :: x
  }

  /** The capabilities fibers publish, each with everything its fibers depend on. */
  function FiberGraph(w: Watched): Digraph.Relation {
    map c | c in DefinedIds(w) :: NeedsOf(w, c)
  }

  /** The length of the longest dependency chain below a capability. */
  ghost function ChainRank(g: Digraph.Relation): Id -> nat {
    x => if HasDepth(g, x) then Depth(g, x) else 0
  }

  ghost predicate RanksBelow(w: Watched, rank: Id -> nat, bound: nat) {
    forall id :: id in w.fibers ==> rank(w.fibers[id].definition.id) < bound
  }

  lemma FiberEdge(w: Watched, id: nat, x: Id)
    requires id in w.fibers && x in w.fibers[id].definition.dependencies
    ensures Digraph.IsEdge(FiberGraph(w), w.fibers[id].definition.id, x)
  {
    var c := w.fibers[id].definition.id;
    assert c in DefinedIds(w) && x in NeedsOf(w, c);
  }

  /** Acyclic fiber definitions are ranked by their longest chains. */
  lemma AcyclicIsRanked(w: Watched, longest: nat)
    requires Digraph.Acyclic(FiberGraph(w)) && IsLongestChain(FiberGraph(w), longest)
    ensures Ranked(w, ChainRank(FiberGraph(w))) && RanksBelow(w, ChainRank(FiberGraph(w)), longest + 1)
  {
    hide Digraph.Acyclic, IsDepth, FiberGraph, HasDepth, IsLongestChain;
    var g := FiberGraph(w);
    var rank := ChainRank(g);
    forall id, x | id in w.fibers && x in w.fibers[id].definition.dependencies
      ensures rank(x) < rank(w.fibers[id].definition.id)
    {
      var c := w.fibers[id].definition.id;
      FiberEdge(w, id, x);
      AcyclicHasDepths(g, c);
      AcyclicHasDepths(g, x);
      DepthIsDepth(g, c);
      DepthIsDepth(g, x);
      SourceIsDeeper(g, c, x, Depth(g, c), Depth(g, x));
    }
    forall id | id in w.fibers ensures rank(w.fibers[id].definition.id) < longest + 1 {
      var c := w.fibers[id].definition.id;
      AcyclicHasDepths(g, c);
      DepthIsDepth(g, c);
      DepthWithinChain(g, c, Depth(g, c), longest);
    }
  }

  /**
   Whatever the identities of the fibers and whatever their factories answer,
   acyclic fiber definitions reconcile: the pass after as many passes as the
   longest chain has capabilities drives nothing, with every fiber at the fixpoint.
   */
  lemma AcyclicReconciliationStops(w: Watched, answers: Answers, longest: nat)
    requires AllReady(w) && Digraph.Acyclic(FiberGraph(w)) && IsLongestChain(FiberGraph(w), longest)
    ensures var v := Passes(w, longest + 1, answers);
            && Driven(v, Ascending(v.fibers.Keys), longest + 1, answers) == [] && Passes(w, longest + 2, answers) == v
            && v.fibers.Keys == w.fibers.Keys && forall id :: id in v.fibers ==> AtFixpoint(v.tree, v.fibers[id])
  {
    hide AllReady, Digraph.Acyclic, FiberGraph, IsLongestChain, Passes, Driven, AtFixpoint, Ranked;
    AcyclicIsRanked(w, longest);
    ReconciliationStops(w, answers, ChainRank(FiberGraph(w)), longest + 1);
  }

  /** Stopping means exactly that: a quiet pass is a fixpoint of every later pass too. */
  lemma QuietIsFixpoint(w: Watched, answers: Answers, pass: nat)
    requires AllReady(w)
    ensures Driven(w, Ascending(w.fibers.Keys), pass, answers) == [] <==>
      forall id :: id in w.fibers ==> AtFixpoint(w.tree, w.fibers[id])
  {
    hide Sound, Placed, Target, Driven;
    QuietPass(w, Ascending(w.fibers.Keys), pass, answers);
    assert forall id :: id in Ascending(w.fibers.Keys) <==> id in w.fibers;
  }
}
