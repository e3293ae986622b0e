/**
 What a fiber removes from its scope when it unloads. The entry is named by
 identifier and generation, which need not be the entry the fiber owns.
 */
module FiberUnload {
  import opened Prelude
  import opened ResolverModel
  import opened ScopeModel
  import opened ScopeInvariants
  import opened FiberModel
  import opened FiberSafety
  import opened TeardownCycle
  import Gen = ScopeGenerations

  // ---- Exactly when an unload takes another entry ----

  /** The unload removes no entry but the one the fiber owns. */
  ghost predicate RemovesOnlyOwn(t: Tree, f: Fiber, detached: Option<nat>) {
    var u := Unload(t, f, detached).0;
    |u.scopes| == |t.scopes| &&
    forall i, x :: 0 <= i < |t.scopes| && x in t.scopes[i].entries && x !in u.scopes[i].entries ==>
      f.handle == Some(t.scopes[i].entries[x])
  }

  /** The fiber's open scope holds another entry of the same generation where the fiber published its own. */
  predicate Displaced(t: Tree, f: Fiber) {
    && f.handle.Some? && f.context.scope < |t.scopes| && t.scopes[f.context.scope].open
    && f.definition.id in t.scopes[f.context.scope].entries
    && t.scopes[f.context.scope].entries[f.definition.id] != f.handle.value
    && GenerationOf(t, t.scopes[f.context.scope].entries[f.definition.id]) == GenerationOf(t, f.handle.value)
  }

  lemma UnloadIsExact(t: Tree, f: Fiber, detached: Option<nat>)
    requires Consistent(t, f)
    ensures RemovesOnlyOwn(t, f, detached) <==> f.handle == detached || !Displaced(t, f)
  {
    hide Holds;
    var u := Unload(t, f, detached).0;
    if Displaced(t, f) && f.handle != detached {
      var s, id := f.context.scope, f.definition.id;
      assert id in t.scopes[s].entries && id !in u.scopes[s].entries;
    }
  }

  /** Where the run has provided the identifier anew only once, an unload never takes another entry. */
  lemma ProvidedOnceIsOwn(commands: seq<Command>, f: Fiber, detached: Option<nat>)
    requires Consistent(ExecuteAll(Root, commands), f) && f.handle.Some?
    requires f.handle.value in Gen.History(Root, commands, f.context.scope, f.definition.id)
    requires Gen.Provisions(Root, commands, f.context.scope, f.definition.id) <= 1
    ensures RemovesOnlyOwn(ExecuteAll(Root, commands), f, detached)
  {
    hide ExecuteAll, Gen.History, Gen.Provisions, Consistent, RemovesOnlyOwn, Sound;
    var t, s, id := ExecuteAll(Root, commands), f.context.scope, f.definition.id;
    var h := Gen.History(Root, commands, s, id);
    UnloadIsExact(t, f, detached);
    RootResolves();
    Gen.RunCounts(Root, commands, s, id);
    Gen.GenerationsAreExact(commands, s, id);
    var i :| 0 <= i < |h| && h[i] == f.handle.value;
    assert forall j :: 0 <= j < |h| && j != i ==> GenerationOf(t, h[j]) != GenerationOf(t, h[i]);
  }

  // ---- A run in which a fiber removes an entry it does not own ----

  const Here := Context(0, {}, None)
  const Fresh := NewFiber(Here, Leaf)
  const Asked := Fresh.(wait := Deciding(false))
  const Building := Fresh.(state := Loading, loading := Some(map[]), wait := Constructing(false, map[]))
  const Built := Building.(wait := Rechecking(false, map[]))
  const Ready := Building.(wait := Committing(false, map[]))
  const Loaded := Fresh.(state := Active, handle := Some(1), binding := Some(map[]))
  const Leaving := Loaded.(disposeRequested := true)
  const Undone := Leaving.(state := Unloading, wait := Disposing)

  /** A fiber publishes x; x is withdrawn and provided again by others; then the fiber is disposed. */
  const Intruding: seq<Event> :=
    [Create(0, Here, Leaf), EnterDrive(0, false), StepOf(0, true), StepOf(0, true), StepOf(0, true), StepOf(0, true),
     Environment(Gen.Revoke), Environment(Gen.Provide), RequestDisposal(0), EnterDisposal(0), StepOf(0, true)]

  lemma EventStep(events: seq<Event>, n: nat)
    requires n < |events|
    ensures HappenAll(Idle, events[..n + 1]) == Happen(HappenAll(Idle, events[..n]), events[n])
  {
    assert events[..n + 1][..n] == events[..n];
  }

  function Alone(t: Tree, f: Fiber): System {
    System(t, map[0 := f])
  }

  lemma LoadSteps()
    ensures Happen(Idle, Create(0, Here, Leaf)) == Alone(Root, Fresh)
    ensures Happen(Alone(Root, Fresh), EnterDrive(0, false)) == Alone(Root, Asked)
    ensures Happen(Alone(Root, Asked), StepOf(0, true)) == Alone(Root, Building)
  {
    assert map[][0 := Fresh] == map[0 := Fresh];
    assert map[0 := Fresh][0 := Asked] == map[0 := Asked];
    assert map[0 := Asked][0 := Building] == map[0 := Building];
    assert Binding(Root, Here, Leaf) == Some(map[]);
  }

  lemma CheckSteps()
    ensures Happen(Alone(Root, Building), StepOf(0, true)) == Alone(Root, Built)
    ensures Happen(Alone(Root, Built), StepOf(0, true)) == Alone(Root, Ready)
  {
    assert map[0 := Building][0 := Built] == map[0 := Built];
    assert map[0 := Built][0 := Ready] == map[0 := Ready];
    assert Binding(Root, Here, Leaf) == Some(map[]);
    assert Wrong(Root, 0, Leaf, map[]) == {};
  }

  lemma CommitReady()
    ensures Happen(Alone(Root, Ready), StepOf(0, true)) == Alone(T1, Loaded)
  {
    hide Publish;
    Step1();
    Gen.ChangeIsAccepted(Root, Gen.Provide);
    assert map[0 := Ready][0 := Loaded] == map[0 := Loaded];
  }

  lemma DisposalSteps()
    ensures Happen(Alone(Gen.Again, Loaded), RequestDisposal(0)) == Alone(Gen.Again, Leaving)
    ensures Happen(Alone(Gen.Again, Leaving), EnterDisposal(0)) == Alone(Gen.Again, Undone)
    ensures !Happen(Alone(Gen.Again, Undone), StepOf(0, true)).tree.poisoned
    ensures Happen(Alone(Gen.Again, Undone), StepOf(0, true)).tree.scopes[0].entries == map[]
  {
  }

  lemma OthersSteps()
    ensures Happen(Alone(T1, Loaded), Environment(Gen.Revoke)) == Alone(Gen.Gone, Loaded)
    ensures Happen(Alone(Gen.Gone, Loaded), Environment(Gen.Provide)) == Alone(Gen.Again, Loaded)
  {
    hide Execute;
    Gen.RevokeStep();
    Gen.AgainStep();
  }

  lemma LoadedRun()
    ensures HappenAll(Idle, Intruding[..6]) == Alone(T1, Loaded)
  {
    hide Happen, Alone;
    EventStep(Intruding, 0);
    EventStep(Intruding, 1);
    EventStep(Intruding, 2);
    EventStep(Intruding, 3);
    EventStep(Intruding, 4);
    EventStep(Intruding, 5);
    LoadSteps();
    CheckSteps();
    CommitReady();
    assert Intruding[..0] == [];
  }

  lemma LeavingRun()
    ensures HappenAll(Idle, Intruding[..10]) == Alone(Gen.Again, Undone)
    ensures HappenAll(Idle, Intruding) == Happen(Alone(Gen.Again, Undone), StepOf(0, true))
  {
    hide Happen, Alone;
    LoadedRun();
    EventStep(Intruding, 6);
    EventStep(Intruding, 7);
    EventStep(Intruding, 8);
    EventStep(Intruding, 9);
    EventStep(Intruding, 10);
    OthersSteps();
    DisposalSteps();
    assert Intruding[..11] == Intruding;
  }

  /** The fiber owns entry 1, which is gone; its disposal takes entry 2 out of the scope. */
  lemma UnloadCanRemoveAnother()
    ensures var before, after := HappenAll(Idle, Intruding[..10]), HappenAll(Idle, Intruding);
            && 0 in before.fibers && before.fibers[0].handle == Some(1) && Consistent(before.tree, before.fibers[0])
            && Displaced(before.tree, before.fibers[0])
            && Get(before.tree, 0, X) == Some(2) && Get(after.tree, 0, X) == None
  {
    hide HappenAll, Happen;
    LeavingRun();
    DisposalSteps();
  }

  /** An unload that is not told the entry was detached does take the fiber's own entry out of an open scope. */
  lemma OwnEntryIsRemoved(t: Tree, f: Fiber, detached: Option<nat>)
    requires Consistent(t, f) && f.handle.Some? && f.context.scope < |t.scopes| && t.scopes[f.context.scope].open
    requires f.definition.id in t.scopes[f.context.scope].entries
    requires t.scopes[f.context.scope].entries[f.definition.id] == f.handle.value
    ensures var u := Unload(t, f, detached).0;
            && |u.scopes| == |t.scopes|
            && (f.definition.id in u.scopes[f.context.scope].entries <==> f.handle == detached)
  {
    hide Holds;
  }
}
