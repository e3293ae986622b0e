/**
 Where a serialized transition ends: the target decides between pending and
 loaded, the factory and the conditions of a publication between active and failed.
 */
module DriveOutcomes {
  import opened Prelude
  import opened ResolverModel
  import opened ScopeModel
  import opened ScopeInvariants
  import opened ScopePublication
  import opened FiberModel
  import opened FiberSafety
  import opened ReconcileModel
  import opened ScopeWithdrawal

  /** Everything the scope checks before it publishes the fiber's definition with exactly this snapshot. */
  predicate Publishable(t: Tree, f: Fiber, snapshot: map<Id, nat>) {
    var s, d := f.context.scope, f.definition;
    && s < |t.scopes| && Prepare(t, s, d, New) == Ok(snapshot)
    && AdmitDescendants(t, s, d, Descendants(t, s)) == Done
  }

  /**
   The scope publishes exactly when it is open, has no entry of its own under the
   identifier, resolves every dependency to the snapshot, and every open scope that
   would see the definition still resolves with it.
   */
  lemma PublishableIsExact(t: Tree, f: Fiber, snapshot: map<Id, nat>)
    requires Sound(t) && !t.poisoned
    ensures var s, d := f.context.scope, f.definition;
            Publishable(t, f, snapshot) <==>
              && s < |t.scopes| && t.scopes[s].open && d.id !in t.scopes[s].entries
              && snapshot.Keys == d.dependencies && Current(t, s, snapshot) && Exposable(t, s, d)
  {
    hide Sound, AdmitDescendants, Descendants, VisibleDefinitions, ResolveDependencies, Get, Exposable, Resolve,
      Current;
    var s, d := f.context.scope, f.definition;
    SoundIsTidy(t);
    if s < |t.scopes| && t.scopes[s].open {
      AdmissibleIsExposable(t, s, d);
      if snapshot.Keys == d.dependencies && Current(t, s, snapshot) { CurrentResolves(t, s, d, snapshot); }
      if Prepare(t, s, d, New) == Ok(snapshot) { PreparedFacts(t, s, d, New, snapshot); }
    }
  }

  /** The fiber owns the entry that its scope now holds, published from its definition with exactly the snapshot. */
  ghost predicate Publishes(t: Tree, f: Fiber, u: Tree, g: Fiber, snapshot: map<Id, nat>) {
    var s, d := f.context.scope, f.definition;
    && s < |t.scopes| && u == Insert(t, s, d, 1, snapshot)
    && g == f.(state := Active, handle := Some(t.nextEntry), binding := Some(snapshot), loading := None,
               forceReload := false, wait := AtRest)
    && s < |u.scopes| && d.id in u.scopes[s].entries && g.handle == Some(u.scopes[s].entries[d.id])
    && g.handle.value in u.slots && u.slots[g.handle.value] == Slot(d, 1, snapshot) && g.handle.value !in t.slots
  }

  /** The fiber owns nothing and has failed. */
  ghost predicate Fails(f: Fiber, g: Fiber) {
    g == f.(state := FiberState.Failed, handle := None, binding := None, loading := None, forceReload := false,
            wait := AtRest)
  }

  // ---- Loading ----

  ghost predicate Loads(t: Tree, f: Fiber) {
    && Sound(t) && !t.poisoned && Consistent(t, f) && Placed(t, f) && f.handle == None && f.binding == None
    && !f.disposeRequested && !f.forceReload
  }

  lemma PublishableIsAccepted(t: Tree, f: Fiber, snapshot: map<Id, nat>)
    requires Tidy(t) && f.context.scope < |t.scopes| && Holds(t, f.definition, snapshot)
    ensures Publish(t, f.context.scope, f.definition, New, snapshot).Ok? <==> Publishable(t, f, snapshot)
    ensures Publishable(t, f, snapshot) ==>
              && Publish(t, f.context.scope, f.definition, New, snapshot).value ==
                 Insert(t, f.context.scope, f.definition, 1, snapshot)
              && t.scopes[f.context.scope].open
  {
    hide Tidy, Prepare, AdmitDescendants, Descendants, Insert, Publish, Holds;
    PublishIsExact(t, f.context.scope, f.definition, New, snapshot);
    assert NextGeneration(t, f.context.scope, f.definition.id, New).Ok?;
    if Publishable(t, f, snapshot) { FirstGeneration(t, f.context.scope, f.definition, snapshot); }
  }

  lemma SoundIsTidy(t: Tree)
    requires Sound(t) && !t.poisoned
    ensures Tidy(t)
  {
  }

  lemma CommittingEnds(t: Tree, f: Fiber, built: bool, force: bool, snapshot: map<Id, nat>)
    requires Loads(t, f) && f.wait == Committing(force, snapshot)
    requires Wrong(t, f.context.scope, f.definition, snapshot) == {}
    ensures var (u, g) := Advance(t, f, built);
            if Publishable(t, f, snapshot) then Publishes(t, f, u, g, snapshot) else u == t && Fails(f, g)
  {
    hide Sound, Publish, Insert, Wrong, Get, Publishable;
    SoundIsTidy(t);
    PlacedScope(t, f);
    PublishableIsAccepted(t, f, snapshot);
    if Publishable(t, f, snapshot) {
      InsertedEntry(t, f.context.scope, f.definition, 1, snapshot);
      NewEntryIsLocal(t, f.context.scope, f.definition, snapshot);
    } else {
      CurrentIsNotChanged(t, f.context.scope, f.definition, snapshot);
    }
  }

  lemma NewEntryIsLocal(t: Tree, s: nat, d: Definition, snapshot: map<Id, nat>)
    requires Tidy(t) && s < |t.scopes|
    ensures var u := Insert(t, s, d, 1, snapshot);
            && |u.scopes| == |t.scopes| && d.id in u.scopes[s].entries && u.scopes[s].entries[d.id] == t.nextEntry
            && t.nextEntry !in t.slots && u.slots[t.nextEntry] == Slot(d, 1, snapshot)
  {
  }

  /** A dependency that the scope does not resolve to the snapshot rules the publication out. */
  lemma WrongIsUnpublishable(t: Tree, f: Fiber, snapshot: map<Id, nat>)
    requires f.context.scope < |t.scopes| && Wrong(t, f.context.scope, f.definition, snapshot) != {}
    ensures !Publishable(t, f, snapshot)
  {
    hide Get, AdmitDescendants, ValidateCandidate, VisibleDefinitions, ResolveDependencies;
    var x :| x in Wrong(t, f.context.scope, f.definition, snapshot);
    if ResolveDependencies(t, f.context.scope, f.definition) == Ok(snapshot) {
      ResolvedAs(t, f.context.scope, f.definition);
    }
  }

  /** From the first decision of a pending fiber to the end of its transition. */
  lemma LoadIsExact(t: Tree, f: Fiber, built: bool, force: bool, n: nat)
    requires Loads(t, f) && f.state == Pending && f.wait == Deciding(force) && n >= 4
    ensures var (u, g) := Iterate(t, f, built, n);
            match Target(t, f)
            case None => u == t && g == f.(wait := AtRest)
            case Some(snapshot) =>
              if built && Publishable(t, f, snapshot) then Publishes(t, f, u, g, snapshot) else u == t && Fails(f, g)
  {
    hide Sound, Consistent, Placed, Iterate, Binding, Wrong, Publishable, Publishes;
    IterateOnce(t, f, built, n);
    var f1 := Advance(t, f, built).1;
    match Target(t, f)
    case None => RestStays(t, f1, built, n - 1);
    case Some(snapshot) =>
      ConstructionIsExact(t, f, f1, built, force, snapshot, n - 1);
  }

  /** Only the context, the definition and the disposal request of a fiber matter to where it ends. */
  lemma SameOutcome(t: Tree, f: Fiber, f1: Fiber, u: Tree, g: Fiber, snapshot: map<Id, nat>)
    requires f1.context == f.context && f1.definition == f.definition && f1.disposeRequested == f.disposeRequested
    ensures Publishable(t, f1, snapshot) == Publishable(t, f, snapshot)
    ensures Publishes(t, f1, u, g, snapshot) == Publishes(t, f, u, g, snapshot) && Fails(f1, g) == Fails(f, g)
  {
    hide Prepare, AdmitDescendants, Descendants, Insert;
  }

  lemma ConstructionIsExact(t: Tree, f: Fiber, f1: Fiber, built: bool, force: bool, snapshot: map<Id, nat>, n: nat)
    requires Loads(t, f) && f.state == Pending && f.wait == Deciding(force) && Target(t, f) == Some(snapshot) && n >= 3
    requires f1 == f.(state := Loading, loading := Some(snapshot), wait := Constructing(force, snapshot))
    ensures var (u, g) := Iterate(t, f1, built, n);
            if built && Publishable(t, f, snapshot) then Publishes(t, f, u, g, snapshot) else u == t && Fails(f, g)
  {
    hide Sound, Placed, Iterate, Binding, Wrong, Publishable, Publishes, Holds;
    StepIsConsistent(t, f, built);
    IterateOnce(t, f1, built, n);
    var f2 := Advance(t, f1, built).1;
    PlacedScope(t, f);
    if !built {
      RestStays(t, f2, built, n - 1);
    } else {
      RecheckIsExact(t, f, f1, f2, force, snapshot, n - 1);
    }
  }

  lemma RecheckIsExact(t: Tree, f: Fiber, f1: Fiber, f2: Fiber, force: bool, snapshot: map<Id, nat>, n: nat)
    requires Loads(t, f) && Target(t, f) == Some(snapshot) && n >= 2 && Consistent(t, f1)
    requires f1 == f.(state := Loading, loading := Some(snapshot), wait := Constructing(force, snapshot))
    requires f2 == f1.(wait := Rechecking(force, snapshot))
    ensures var (u, g) := Iterate(t, f2, true, n);
            if Publishable(t, f, snapshot) then Publishes(t, f, u, g, snapshot) else u == t && Fails(f, g)
  {
    hide *;
    IterateOnce(t, f2, true, n);
    if Wrong(t, f.context.scope, f.definition, snapshot) != {} {
      WrongFails(t, f, f2, force, snapshot);
      RestStays(t, Advance(t, f2, true).1, true, n - 1);
    } else {
      var f3 := f2.(wait := Committing(force, snapshot));
      RightCommits(t, f, f1, f2, f3, force, snapshot);
      IterateOnce(t, f3, true, n - 1);
      var (u, g) := Advance(t, f3, true);
      RestStays(u, g, true, n - 2);
    }
  }

  lemma WrongFails(t: Tree, f: Fiber, f2: Fiber, force: bool, snapshot: map<Id, nat>)
    requires Loads(t, f) && Target(t, f) == Some(snapshot) && Wrong(t, f.context.scope, f.definition, snapshot) != {}
    requires f2 == f.(state := Loading, loading := Some(snapshot), wait := Rechecking(force, snapshot))
    ensures !Publishable(t, f, snapshot)
    ensures Advance(t, f2, true).0 == t && Fails(f, Advance(t, f2, true).1) && Advance(t, f2, true).1.wait == AtRest
  {
    hide Sound, Consistent, Placed, Target, Wrong, Publishable, Get;
    PlacedScope(t, f);
    WrongIsMissing(t, f, snapshot, Least(Wrong(t, f.context.scope, f.definition, snapshot)));
    WrongIsUnpublishable(t, f, snapshot);
  }

  lemma RightCommits(t: Tree, f: Fiber, f1: Fiber, f2: Fiber, f3: Fiber, force: bool, snapshot: map<Id, nat>)
    requires Loads(t, f) && Consistent(t, f1) && Wrong(t, f.context.scope, f.definition, snapshot) == {}
    requires f1 == f.(state := Loading, loading := Some(snapshot), wait := Constructing(force, snapshot))
    requires f2 == f1.(wait := Rechecking(force, snapshot)) && f3 == f1.(wait := Committing(force, snapshot))
    ensures Advance(t, f2, true) == (t, f3)
    ensures var (u, g) := Advance(t, f3, true);
            && (if Publishable(t, f, snapshot) then Publishes(t, f, u, g, snapshot) else u == t && Fails(f, g))
            && g.wait == AtRest
  {
    hide Sound, Follows, Wrong, Publishable, Publishes, Holds, Get, CommitFiber;
    SameplaceFor(t, f, f3);
    CommittingEnds(t, f3, true, force, snapshot);
    var (u, g) := Advance(t, f3, true);
    SameOutcome(t, f, f3, u, g, snapshot);
    EndsAtRest(t, f3, u, g, snapshot);
  }

  lemma EndsAtRest(t: Tree, f: Fiber, u: Tree, g: Fiber, snapshot: map<Id, nat>)
    requires Publishes(t, f, u, g, snapshot) || Fails(f, g)
    ensures g.wait == AtRest
  {
    hide Insert;
  }

  // ---- Whole transitions ----

  /** A begun transition loads unless the fiber is active, unforced, on exactly what resolves now. */
  predicate Due(t: Tree, f: Fiber, force: bool) {
    f.state != Active || force || f.binding != Target(t, f)
  }

  /** The tree without the entry an active fiber gives back before it loads again. */
  function Cleared(t: Tree, f: Fiber): Tree {
    if f.state == Active then Unload(t, f, None).0 else t
  }

  ghost predicate Startable(t: Tree, f: Fiber) {
    Sound(t) && !t.poisoned && Consistent(t, f) && Resting(f) && Placed(t, f) && f.state != Disposed
  }

  /** Where a transition of `f` that begins on `t` ends. */
  ghost predicate EndsAs(t: Tree, f: Fiber, built: bool, force: bool, u: Tree, g: Fiber) {
    match Target(t, f)
    case None => u == Cleared(t, f) && g.state == Pending && g.handle == None && g.binding == None
    case Some(snapshot) =>
      if !Due(t, f, force) then u == t && g == f.(forceReload := false)
      else if built && Publishable(Cleared(t, f), f, snapshot) then Publishes(Cleared(t, f), f, u, g, snapshot)
      else u == Cleared(t, f) && Fails(f, g)
  }

  lemma RestingOwnsNothing(t: Tree, f: Fiber)
    requires Consistent(t, f) && Resting(f) && f.state != Active
    ensures f.handle == None && f.binding == None && Unload(t, f, None).0 == t
  {
  }

  /** A loaded or failed fiber first gives back what it owns. */
  lemma ReloadIsExact(t: Tree, f: Fiber, built: bool, force: bool)
    requires Startable(t, f) && f.state != Pending && Target(t, f).Some? && Due(t, f, force)
    ensures var (u, g) := Iterate(t, f.(forceReload := false, wait := Deciding(force)), built, TRANSITION_STEPS);
            EndsAs(t, f, built, force, u, g)
  {
    hide Sound, Consistent, Placed, Iterate, Binding, Publishable, Publishes, Unload, OnlyEntry, Fails;
    var begun := f.(forceReload := false, wait := Deciding(force));
    BegunIsConsistent(t, f, force);
    StepIsConsistent(t, begun, built);
    IterateOnce(t, begun, built, TRANSITION_STEPS);
    var leaving := Advance(t, begun, built).1;
    IterateOnce(t, leaving, built, 5);
    var (t1, f1) := Advance(t, leaving, built);
    StepIsConsistent(t, leaving, built);
    StepTouches(t, leaving, built);
    SameplaceFor(t, f, leaving);
    PlacedElsewhere(t, t1, f.context.scope, f.definition.id, leaving);
    UnloadedParts(t, f, leaving, force);
    SameplaceFor(t1, leaving, f1);
    ElsewhereTarget(t, t1, f, f1);
    LoadIsExact(t1, f1, built, force, 4);
    var (u, g) := Iterate(t1, f1, built, 4);
    SameOutcome(t1, f, f1, u, g, Target(t, f).value);
    if f.state != Active { RestingOwnsNothing(t, f); }
  }

  lemma BegunIsConsistent(t: Tree, f: Fiber, force: bool)
    requires Consistent(t, f) && Resting(f)
    ensures Consistent(t, f.(forceReload := false, wait := Deciding(force)))
  {
    hide Holds;
  }

  lemma UnloadedParts(t: Tree, f: Fiber, leaving: Fiber, force: bool)
    requires Sound(t) && !t.poisoned
    requires leaving == f.(forceReload := false, state := Unloading, wait := Removing(force)) && !f.disposeRequested
    ensures var (u, g) := Advance(t, leaving, true);
            && u == Unload(t, f, None).0 && g.handle == None && g.binding == None && g.state == Pending
            && g.wait == Deciding(force) && !g.forceReload && !g.disposeRequested
            && g.context == f.context && g.definition == f.definition
  {
    hide Sound, Withdraw;
  }

  lemma ElsewhereTarget(t: Tree, t1: Tree, f: Fiber, f1: Fiber)
    requires OnlyEntry(t, t1, f.context.scope, f.definition.id) && Placed(t, f)
    requires f1.context == f.context && f1.definition == f.definition
    ensures Target(t1, f1) == Target(t, f)
  {
    hide OnlyEntry, Binding;
    TargetElsewhere(t, t1, f.context.scope, f.definition.id, f);
  }

  lemma BegunIsExact(t: Tree, f: Fiber, built: bool, force: bool)
    requires Startable(t, f)
    ensures var (u, g) := Iterate(t, f.(forceReload := false, wait := Deciding(force)), built, TRANSITION_STEPS);
            EndsAs(t, f, built, force, u, g)
  {
    hide Sound, Consistent, Placed, Iterate, Binding, Publishable, Publishes, Fails;
    var begun := f.(forceReload := false, wait := Deciding(force));
    if f.state != Active { RestingOwnsNothing(t, f); }
    if f.state == Pending {
      BegunIsConsistent(t, f, force);
      SameplaceFor(t, f, begun);
      LoadIsExact(t, begun, built, force, TRANSITION_STEPS);
      var (u, g) := Iterate(t, begun, built, TRANSITION_STEPS);
      if Target(t, f).Some? { SameOutcome(t, f, begun, u, g, Target(t, f).value); }
    } else if Target(t, f).Some? && Due(t, f, force) {
      ReloadIsExact(t, f, built, force);
    } else {
      UnloadEnds(t, f, built, force);
    }
  }

  /** Without a target an active fiber gives back what it owns; otherwise nothing changes but the state. */
  lemma UnloadEnds(t: Tree, f: Fiber, built: bool, force: bool)
    requires Startable(t, f) && f.state != Pending && (Target(t, f).None? || !Due(t, f, force))
    ensures var (u, g) := Iterate(t, f.(forceReload := false, wait := Deciding(force)), built, TRANSITION_STEPS);
            EndsAs(t, f, built, force, u, g)
  {
    hide Sound, Consistent, Placed, Iterate, Binding, Publishable, Publishes, Withdraw;
    var begun := f.(forceReload := false, wait := Deciding(force));
    IterateOnce(t, begun, built, TRANSITION_STEPS);
    var f1 := Advance(t, begun, built).1;
    if f.state != Active { RestingOwnsNothing(t, f); }
    if f1.wait == AtRest {
      RestStays(t, f1, built, 5);
    } else {
      IterateOnce(t, f1, built, 5);
      var (u, g) := Advance(t, f1, built);
      RestStays(u, g, built, 4);
    }
  }

  /**
   Driving a resting fiber that has neither failed nor been disposed. It fails exactly
   when its dependencies resolve, a load is due, and the factory refuses or its scope
   would not publish exactly what resolves; it is active exactly when they resolve and
   no load is due, or one is and neither happens. The new entry is then the one its
   scope holds, and pins exactly what resolves.
   */
  lemma DriveIsExact(t: Tree, f: Fiber, built: bool)
    requires Startable(t, f) && f.state != FiberState.Failed
    ensures var (u, g) := Drive(t, f, built);
            && EndsAs(t, f, built, f.forceReload, u, g)
            && (g.state == FiberState.Failed <==>
                  && Target(t, f).Some? && Due(t, f, f.forceReload)
                  && !(built && Publishable(Cleared(t, f), f, Target(t, f).value)))
            && (g.state == Active <==>
                  && Target(t, f).Some?
                  && (Due(t, f, f.forceReload) ==> built && Publishable(Cleared(t, f), f, Target(t, f).value)))
            && (g.state == Pending <==> Target(t, f).None?)
  {
    hide Sound, Consistent, Placed, Iterate, Binding, Publishable, Insert, Unload;
    BegunIsExact(t, f, built, f.forceReload);
  }

  /** A restart always loads again; it ends in the same three ways, whatever the state before. */
  lemma RestartIsExact(t: Tree, f: Fiber, built: bool)
    requires Startable(t, f)
    ensures var (u, g) := Restart(t, f, built);
            && EndsAs(t, f, built, true, u, g)
            && (g.state == FiberState.Failed <==>
                  Target(t, f).Some? && !(built && Publishable(Cleared(t, f), f, Target(t, f).value)))
  {
    hide Sound, Consistent, Placed, Iterate, Binding, Publishable, Insert, Unload;
    BegunIsExact(t, f, built, true);
  }

  // ---- Passes ----

  /** The fiber is driven here, and its factory or its scope refuses. */
  ghost predicate Refused(w: Watched, id: nat, built: bool) {
    && id in w.fibers && NeedsReconciliation(w.tree, w.fibers[id])
    && var t, f := w.tree, w.fibers[id];
       && Target(t, f).Some? && Due(t, f, f.forceReload)
       && !(built && Publishable(Cleared(t, f), f, Target(t, f).value))
  }

  /** The visit number `i` of a pass over `ids` that starts at `w` refuses the fiber. */
  ghost predicate RefusedAt(w: Watched, ids: seq<nat>, k: nat, answers: Answers, id: nat, i: nat) {
    i < |ids| && ids[i] == id && Refused(Pass(w, ids[..i], k, answers), id, answers(k, id))
  }

  /** Some visit of pass `k` refuses the fiber. */
  ghost predicate RefusedIn(w: Watched, k: nat, answers: Answers, id: nat) {
    var before := Passes(w, k, answers);
    exists i: nat :: RefusedAt(before, Ascending(before.fibers.Keys), k, answers, id, i)
  }

  ghost predicate IsFailed(w: Watched, id: nat) {
    id in w.fibers && w.fibers[id].state == FiberState.Failed
  }

  lemma VisitKeepsAllReady(w: Watched, id: nat, built: bool)
    requires AllReady(w)
    ensures AllReady(Visit(w, id, built))
  {
    hide Sound, Consistent, Placed, OnlyEntry, Drive, NeedsReconciliation;
    if id in w.fibers && NeedsReconciliation(w.tree, w.fibers[id]) {
      DriveSettles(w.tree, w.fibers[id], built);
      var u := Drive(w.tree, w.fibers[id], built).0;
      forall x | x in w.fibers && x != id ensures Consistent(u, w.fibers[x]) && Placed(u, w.fibers[x]) {
        OthersUnaffected(w.tree, u, w.fibers[id], w.fibers[x]);
      }
    }
  }

  lemma VisitFails(w: Watched, x: nat, built: bool, id: nat)
    requires AllReady(w) && !IsFailed(w, id) && IsFailed(Visit(w, x, built), id)
    ensures x == id && Refused(w, id, built)
  {
    hide Sound, Consistent, Placed, Drive, Binding, Publishable, EndsAs, Cleared;
    ActiveOrPending(w, id);
    if x == id { DriveIsExact(w.tree, w.fibers[id], built); }
  }

  lemma ActiveOrPending(w: Watched, id: nat)
    requires AllReady(w) && id in w.fibers && NeedsReconciliation(w.tree, w.fibers[id])
    ensures Startable(w.tree, w.fibers[id]) && w.fibers[id].state != FiberState.Failed
  {
    hide Sound, Consistent, Placed, Binding;
  }

  lemma {:induction false} PassFails(w: Watched, ids: seq<nat>, k: nat, answers: Answers, id: nat)
    requires AllReady(w) && !IsFailed(w, id) && IsFailed(Pass(w, ids, k, answers), id)
    ensures exists i: nat :: RefusedAt(w, ids, k, answers, id, i)
    decreases |ids|
  {
    hide AllReady, IsFailed, Visit, Refused;
    var v := Visit(w, ids[0], answers(k, ids[0]));
    if IsFailed(v, id) {
      VisitFails(w, ids[0], answers(k, ids[0]), id);
      assert Pass(w, ids[..0], k, answers) == w;
      assert RefusedAt(w, ids, k, answers, id, 0);
    } else {
      VisitKeepsAllReady(w, ids[0], answers(k, ids[0]));
      PassFails(v, ids[1..], k, answers, id);
      var i: nat :| RefusedAt(v, ids[1..], k, answers, id, i);
      assert i < |ids[1..]|;
      assert ids[..i + 1][1..] == ids[1..][..i] && ids[..i + 1][0] == ids[0];
      assert RefusedAt(w, ids, k, answers, id, i + 1);
    }
  }

  lemma {:induction false} PassKeepsAllReady(w: Watched, ids: seq<nat>, k: nat, answers: Answers)
    requires AllReady(w)
    ensures AllReady(Pass(w, ids, k, answers))
    decreases |ids|
  {
    hide AllReady, Visit;
    if ids != [] {
      VisitKeepsAllReady(w, ids[0], answers(k, ids[0]));
      PassKeepsAllReady(Visit(w, ids[0], answers(k, ids[0])), ids[1..], k, answers);
    }
  }

  /** A fiber that has failed after some passes had failed before them, or one of their visits refused it. */
  lemma {:induction false} FailureHasCause(w: Watched, n: nat, answers: Answers, id: nat)
    requires AllReady(w) && !IsFailed(w, id) && IsFailed(Passes(w, n, answers), id)
    ensures exists k: nat :: k < n && RefusedIn(w, k, answers, id)
    decreases n
  {
    hide AllReady, IsFailed, Pass, RefusedAt;
    var before := Passes(w, n - 1, answers);
    if IsFailed(before, id) {
      FailureHasCause(w, n - 1, answers, id);
    } else {
      PassesKeepAllReady(w, n - 1, answers);
      PassFails(before, Ascending(before.fibers.Keys), n - 1, answers, id);
      assert RefusedIn(w, n - 1, answers, id);
    }
  }

  lemma {:induction false} PassesKeepAllReady(w: Watched, n: nat, answers: Answers)
    requires AllReady(w)
    ensures AllReady(Passes(w, n, answers))
    decreases n
  {
    hide AllReady, Pass;
    if n > 0 {
      PassesKeepAllReady(w, n - 1, answers);
      var before := Passes(w, n - 1, answers);
      PassKeepsAllReady(before, Ascending(before.fibers.Keys), n - 1, answers);
    }
  }

  /** Every fiber that `n` passes have made fail was refused at one of their visits. */
  ghost predicate FailuresHaveCauses(w: Watched, n: nat, answers: Answers) {
    forall id :: IsFailed(Passes(w, n, answers), id) && !IsFailed(w, id) ==>
      exists k: nat :: k < n && RefusedIn(w, k, answers, id)
  }

  lemma PassesFailForACause(w: Watched, n: nat, answers: Answers)
    requires AllReady(w)
    ensures FailuresHaveCauses(w, n, answers)
  {
    hide AllReady, IsFailed, Passes, RefusedIn;
    forall id | IsFailed(Passes(w, n, answers), id) && !IsFailed(w, id)
      ensures exists k: nat :: k < n && RefusedIn(w, k, answers, id)
    {
      FailureHasCause(w, n, answers, id);
    }
  }

  // ---- What a pass reports ----

  /** The visit number `i` finds the fiber in need. */
  ghost predicate NeededAt(w: Watched, ids: seq<nat>, k: nat, answers: Answers, id: nat, i: nat) {
    && i < |ids| && ids[i] == id
    && var v := Pass(w, ids[..i], k, answers); id in v.fibers && NeedsReconciliation(v.tree, v.fibers[id])
  }

  ghost predicate Needed(w: Watched, ids: seq<nat>, k: nat, answers: Answers, id: nat) {
    exists i: nat :: NeededAt(w, ids, k, answers, id, i)
  }

  /** A pass reports exactly the fibers that needed it when their turn came. */
  lemma {:induction false} DrivenIsExact(w: Watched, ids: seq<nat>, k: nat, answers: Answers, id: nat)
    ensures id in Driven(w, ids, k, answers) <==> Needed(w, ids, k, answers, id)
    decreases |ids|
  {
    hide NeedsReconciliation, Visit;
    if ids != [] {
      var v, rest := Visit(w, ids[0], answers(k, ids[0])), ids[1..];
      DrivenIsExact(v, rest, k, answers, id);
      assert Pass(w, ids[..0], k, answers) == w;
      assert NeededAt(w, ids, k, answers, id, 0) <==>
             ids[0] == id && id in w.fibers && NeedsReconciliation(w.tree, w.fibers[id]);
      forall i: nat ensures NeededAt(w, ids, k, answers, id, i + 1) <==> NeededAt(v, rest, k, answers, id, i) {
        if i < |rest| { assert ids[..i + 1][1..] == rest[..i] && ids[..i + 1][0] == ids[0]; }
      }
      if i: nat :| NeededAt(v, rest, k, answers, id, i) { assert NeededAt(w, ids, k, answers, id, i + 1); }
      if i: nat :| NeededAt(w, ids, k, answers, id, i) {
        if i > 0 { assert NeededAt(v, rest, k, answers, id, i - 1); }
      }
    }
  }
}
