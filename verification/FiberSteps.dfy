/** What a fiber's context resolves, and which step takes a fiber into which state. */
module FiberSteps {
  import opened Prelude
  import opened ResolverModel
  import opened ScopeModel
  import opened ScopeInvariants
  import opened FiberModel
  import opened FiberSafety

  // ---- Contexts ----

  /** The context itself and those it was derived from, innermost first. */
  function Chain(c: Context): seq<Context>
    decreases c
  {
    [c] + match c.parent case None => [] case Some(p) => Chain(p)
  }

  predicate HasOwn(t: Tree, c: Context, id: Id) {
    c.scope < |t.scopes| && id in t.scopes[c.scope].entries
  }

  /** The innermost context with an own entry, when no context inside it isolates the identifier. */
  ghost predicate Provides(t: Tree, chain: seq<Context>, id: Id, k: int) {
    && 0 <= k < |chain| && HasOwn(t, chain[k], id)
    && forall j :: 0 <= j < k ==> !HasOwn(t, chain[j], id) && id !in chain[j].isolation
  }

  ghost predicate Finds(t: Tree, chain: seq<Context>, id: Id, k: int, e: nat) {
    && Provides(t, chain, id, k) && t.scopes[chain[k].scope].open && t.scopes[chain[k].scope].entries[id] == e
  }

  ghost predicate FoundAlong(t: Tree, chain: seq<Context>, id: Id, e: nat) {
    exists k :: Finds(t, chain, id, k, e)
  }

  /**
   A context resolves an identifier to the entry of the innermost context that has
   one, unless a context on the way isolates it, or the scope of that entry is closed.
   */
  lemma {:induction false} LookIsExact(t: Tree, c: Context, id: Id, e: nat)
    ensures Look(t, c, id) == Some(e) <==> FoundAlong(t, Chain(c), id, e)
    decreases c
  {
    hide FoundAlong;
    if HasOwn(t, c, id) || id in c.isolation || c.parent.None? {
      ChainEnds(t, c, Chain(c), id, e);
    } else {
      LookIsExact(t, c.parent.value, id, e);
      FoundAbove(t, c, Chain(c.parent.value), id, e);
    }
  }

  lemma ChainEnds(t: Tree, c: Context, chain: seq<Context>, id: Id, e: nat)
    requires chain != [] && chain[0] == c && (HasOwn(t, c, id) || id in c.isolation || chain == [c])
    ensures FoundAlong(t, chain, id, e) <==>
              HasOwn(t, c, id) && t.scopes[c.scope].open && t.scopes[c.scope].entries[id] == e
  {
    assert forall k :: Provides(t, chain, id, k) ==> k == 0;
    assert HasOwn(t, c, id) ==> Provides(t, chain, id, 0);
    assert Finds(t, chain, id, 0, e) <==>
           HasOwn(t, c, id) && t.scopes[c.scope].open && t.scopes[c.scope].entries[id] == e;
  }

  lemma FoundAbove(t: Tree, c: Context, above: seq<Context>, id: Id, e: nat)
    requires !HasOwn(t, c, id) && id !in c.isolation
    ensures FoundAlong(t, [c] + above, id, e) <==> FoundAlong(t, above, id, e)
  {
    var chain := [c] + above;
    forall k ensures Finds(t, chain, id, k, e) <==> Finds(t, above, id, k - 1, e) {
      ProvidesAbove(t, c, above, id, k);
    }
    if k :| Finds(t, above, id, k, e) { assert Finds(t, chain, id, k + 1, e); }
  }

  lemma ProvidesAbove(t: Tree, c: Context, above: seq<Context>, id: Id, k: int)
    requires !HasOwn(t, c, id) && id !in c.isolation
    ensures Provides(t, [c] + above, id, k) <==> Provides(t, above, id, k - 1)
  {
    var chain := [c] + above;
    assert forall j :: 0 < j < |chain| ==> chain[j] == above[j - 1];
    if Provides(t, above, id, k - 1) {
      forall j | 0 <= j < k ensures !HasOwn(t, chain[j], id) && id !in chain[j].isolation {
        if j > 0 { assert chain[j] == above[j - 1]; }
      }
    }
    if Provides(t, chain, id, k) {
      forall j | 0 <= j < k - 1 ensures !HasOwn(t, above[j], id) && id !in above[j].isolation {
        assert chain[j + 1] == above[j];
      }
    }
  }

  /** What a context isolates it resolves only to an entry of its own scope. */
  lemma IsolatedIsOwn(t: Tree, c: Context, id: Id)
    requires id in c.isolation && Look(t, c, id).Some?
    ensures HasOwn(t, c, id) && Look(t, c, id).value == t.scopes[c.scope].entries[id]
  {
  }

  // ---- Which step changes the state ----

  /** The situation a factory's result was built for still holds. */
  predicate Undisturbed(t: Tree, f: Fiber, snapshot: map<Id, nat>) {
    !f.disposeRequested && !f.forceReload && Target(t, f) == Some(snapshot)
  }

  /** A factory has refused, or the scope refuses the publication for good. */
  ghost predicate RefusedHere(t: Tree, f: Fiber, built: bool) {
    var s, d := f.context.scope, f.definition;
    match f.wait
    case Constructing(_, snapshot) => !built && Undisturbed(t, f, snapshot)
    case Rechecking(_, snapshot) => Wrong(t, s, d, snapshot) != {} && Get(t, s, Least(Wrong(t, s, d, snapshot))) == None
    case Committing(_, snapshot) =>
      && s < |t.scopes| && !t.poisoned && Publish(t, s, d, New, snapshot).Err?
      && !Publish(t, s, d, New, snapshot).error.DependencyChanged?
    case _ => false
  }

  /** What the result was built for has changed; the fiber starts over with what holds now. */
  ghost predicate Disturbed(t: Tree, f: Fiber) {
    var s, d := f.context.scope, f.definition;
    match f.wait
    case Constructing(_, snapshot) => !f.disposeRequested && !Undisturbed(t, f, snapshot)
    case Rechecking(_, snapshot) => Wrong(t, s, d, snapshot) != {} && Get(t, s, Least(Wrong(t, s, d, snapshot))).Some?
    case Committing(_, snapshot) =>
      && s < |t.scopes| && !t.poisoned && Publish(t, s, d, New, snapshot).Err?
      && Publish(t, s, d, New, snapshot).error.DependencyChanged?
    case _ => false
  }

  /** The force a transition carries through its steps. */
  function ForceOf(w: Wait): bool {
    match w
    case Deciding(force) => force
    case Removing(force) => force
    case Constructing(force, _) => force
    case Rechecking(force, _) => force
    case Committing(force, _) => force
    case _ => false
  }

  /**
   Whatever happens between steps, a load fails exactly when its factory or its scope
   refuses in a situation that has not changed, and starts over exactly when that
   situation has changed and nobody asked for disposal. Either way it owns nothing.
   */
  lemma StepAnswers(t: Tree, f: Fiber, built: bool)
    requires Consistent(t, f) && !t.poisoned && f.context.scope < |t.scopes| && SnapshotOf(f.wait).Some?
    ensures var (u, g) := Advance(t, f, built);
            && (g.state == FiberState.Failed <==> RefusedHere(t, f, built))
            && (g.state == Pending <==> Disturbed(t, f))
            && (g.state == Pending ==> g.wait == Deciding(ForceOf(f.wait)))
            && (g.state == FiberState.Failed ==> g.wait == AtRest)
            && (g.state == Pending || g.state == FiberState.Failed ==> u == t && g.handle == None && g.loading == None)
            && (g.state == Active <==>
                  f.wait.Committing? && Publish(t, f.context.scope, f.definition, New, f.wait.snapshot).Ok?)
  {
    hide Publish, Get, Binding, Holds;
  }

  // ---- Disposal is final ----

  /** A disposed fiber was asked to be, runs nothing and owns nothing. */
  ghost predicate Settled(f: Fiber) {
    f.state == Disposed ==> f.disposeRequested && f.wait == AtRest && f.handle == None
  }

  /** Only asked fibers are being disposed, and a load has recorded what it loads. */
  ghost predicate Asked(f: Fiber) {
    && Settled(f) && (f.wait == Disposing ==> f.disposeRequested)
    && (SnapshotOf(f.wait).Some? ==> f.loading == SnapshotOf(f.wait))
  }

  lemma AdvanceKeepsAsked(t: Tree, f: Fiber, built: bool)
    requires Consistent(t, f) && Asked(f)
    ensures Asked(Advance(t, f, built).1)
    ensures f.state == Disposed ==> Advance(t, f, built) == (t, f)
  {
    hide Publish, Get, Binding, Holds, Withdraw;
  }

  ghost predicate AllAsked(s: System) {
    forall id :: id in s.fibers ==> Asked(s.fibers[id])
  }

  lemma HappenKeepsAsked(s: System, e: Event)
    requires AllConsistent(s) && AllAsked(s)
    ensures AllAsked(Happen(s, e))
    ensures forall id :: id in s.fibers && s.fibers[id].state == Disposed ==>
              id in Happen(s, e).fibers && Happen(s, e).fibers[id].state == Disposed
  {
    hide Sound, Consistent, Execute, Advance;
    if e.StepOf? && e.fiber in s.fibers { AdvanceKeepsAsked(s.tree, s.fibers[e.fiber], e.built); }
  }

  lemma {:induction false} RunKeepsAsked(events: seq<Event>)
    ensures AllAsked(HappenAll(Idle, events))
    decreases |events|
  {
    hide Happen, AllAsked, AllConsistent;
    if events == [] {
      IdleIsAsked();
    } else {
      var front := events[..|events| - 1];
      RunKeepsAsked(front);
      RunKeepsConsistent(front);
      HappenKeepsAsked(HappenAll(Idle, front), events[|events| - 1]);
    }
  }

  lemma IdleIsAsked()
    ensures AllAsked(Idle)
  {
  }

  /** Whatever happens later, a disposed fiber stays disposed and owns nothing. */
  lemma {:induction false} DisposedForEver(events: seq<Event>, later: seq<Event>, id: nat)
    requires var s := HappenAll(Idle, events); id in s.fibers && s.fibers[id].state == Disposed
    ensures var s := HappenAll(Idle, events + later);
            && id in s.fibers && s.fibers[id].state == Disposed
            && s.fibers[id].handle == None && s.fibers[id].wait == AtRest
    decreases |later|
  {
    hide Happen, AllConsistent;
    if later == [] {
      assert events + later == events;
      RunKeepsAsked(events);
    } else {
      var all, front := events + later, events + later[..|later| - 1];
      assert all[..|all| - 1] == front;
      DisposedForEver(events, later[..|later| - 1], id);
      RunKeepsAsked(front);
      RunKeepsConsistent(front);
      HappenKeepsAsked(HappenAll(Idle, front), all[|all| - 1]);
      RunKeepsAsked(all);
    }
  }

  // ---- A disposal request ends all loading ----

  /** Asked for disposal, with no factory result to wait for, and owning nothing it did not own. */
  ghost predicate WindsDown(f: Fiber, g: Fiber) {
    && g.disposeRequested && SnapshotOf(g.wait) == None && (g.handle == None || g.handle == f.handle)
    && (g.state == Active ==> f.state == Active)
  }

  lemma AdvanceWindsDown(t: Tree, f: Fiber, g: Fiber, built: bool)
    requires WindsDown(f, g)
    ensures WindsDown(f, Advance(t, g, built).1)
  {
    hide Publish, Get, Binding, Withdraw;
  }

  lemma HappenWindsDown(s: System, e: Event, f: Fiber, id: nat)
    requires id in s.fibers && WindsDown(f, s.fibers[id])
    ensures id in Happen(s, e).fibers && WindsDown(f, Happen(s, e).fibers[id])
  {
    hide Execute, Advance;
    if e.StepOf? { AdvanceWindsDown(s.tree, f, s.fibers[id], e.built); }
  }

  /**
   Whatever happens after a fiber was asked for disposal while it was not loading, it
   never calls its factory again, never publishes and never becomes active again.
   */
  lemma {:induction false} DisposalStopsLoading(s: System, later: seq<Event>, id: nat)
    requires id in s.fibers && s.fibers[id].disposeRequested && SnapshotOf(s.fibers[id].wait) == None
    ensures var now := HappenAll(s, later); id in now.fibers && WindsDown(s.fibers[id], now.fibers[id])
    decreases |later|
  {
    hide Happen;
    if later != [] {
      DisposalStopsLoading(s, later[..|later| - 1], id);
      HappenWindsDown(HappenAll(s, later[..|later| - 1]), later[|later| - 1], s.fibers[id], id);
    }
  }

  /** A factory's result is dropped when disposal was asked for meanwhile, and a refusal disposes the fiber at once. */
  lemma ResultIsDropped(t: Tree, f: Fiber, built: bool)
    requires Consistent(t, f) && f.wait.Constructing? && f.disposeRequested && f.state != Disposed
    ensures var (u, g) := Advance(t, f, built);
            && u == t && WindsDown(f, g) && g.wait == AtRest && g.handle == None && g.loading == None
            && (g.state == Disposed <==> !built) && (built ==> g.state == f.state)
  {
    hide Publish, Get, Binding, Holds, Withdraw;
  }

  /**
   In every run, a loading fiber nobody has interrupted needs reconciliation exactly
   when the result of its factory will be dropped.
   */
  lemma NeedsWhenDisturbed(events: seq<Event>, id: nat, built: bool)
    requires var s := HappenAll(Idle, events);
             id in s.fibers && s.fibers[id].wait.Constructing? && !s.fibers[id].disposeRequested
             && !s.fibers[id].forceReload
    ensures var s := HappenAll(Idle, events);
            NeedsReconciliation(s.tree, s.fibers[id]) <==> Advance(s.tree, s.fibers[id], built).1.state == Pending
  {
    hide Holds, Binding, Happen, HappenAll, Sound;
    RunKeepsAsked(events);
    RunKeepsConsistent(events);
  }

  /** A definition is bound exactly when its context resolves every dependency, to exactly those entries. */
  lemma BindingIsExact(t: Tree, c: Context, d: Definition, m: map<Id, nat>)
    ensures Binding(t, c, d) == Some(m) <==>
      m.Keys == d.dependencies && forall x :: x in m ==> Look(t, c, x) == Some(m[x])
  {
    hide Look;
    if m.Keys == d.dependencies && forall x :: x in m ==> Look(t, c, x) == Some(m[x]) {
      forall x | x in d.dependencies ensures Look(t, c, x) != None { assert x in m; }
      assert Binding(t, c, d).value == m;
    }
  }

  /**
   How a transition decides, whatever happened before: it loads a fiber that has
   nothing loaded, gives back what is out of date or to be reloaded, and otherwise
   rests.
   */
  lemma DecisionIsExact(t: Tree, f: Fiber, force: bool, built: bool)
    requires f.wait == Deciding(force)
    ensures var (u, g) := Advance(t, f, built);
            var target := Target(t, f);
            && u == t && g == f.(state := g.state, loading := g.loading, wait := g.wait)
            && (g.wait.Constructing? <==>
                  target.Some? && f.state != Active && f.state != FiberState.Failed && !f.disposeRequested)
            && (g.wait.Constructing? ==>
                  g.wait == Constructing(force, target.value) && g.state == Loading && g.loading == target)
            && (g.wait.Removing? <==>
                  && target.Some?
                  && (f.state == FiberState.Failed || (f.state == Active && (force || f.binding != target))))
            && (g.wait.Clearing? <==> target == None && f.state == Active)
            && (g.wait.Removing? || g.wait.Clearing? ==> g.state == Unloading)
            && (g.wait.Removing? ==> g.wait == Removing(force))
            && (g.wait == AtRest ==> g.state == if target == None then Pending else f.state)
            && (g.wait.Constructing? || g.wait.Removing? || g.wait.Clearing? || g.wait == AtRest)
  {
    hide Binding;
  }
}
