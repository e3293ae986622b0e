/**
 What fibers keep while the environment may provide, replace, withdraw or tear
 down between any two of their steps.
 */
module FiberSafety {
  import opened Prelude
  import opened ResolverModel
  import opened ScopeModel
  import opened ScopeInvariants
  import opened ScopePublication
  import opened ScopeOwnership
  import opened FiberModel

  /** An entry of a fiber was published from the fiber's definition, and its binding is what the entry pins. */
  ghost predicate Bound(t: Tree, f: Fiber) {
    match f.handle
    case None => f.binding == None
    case Some(e) => e in t.slots && t.slots[e].definition == f.definition && f.binding == Some(t.slots[e].dependencies)
  }

  function SnapshotOf(w: Wait): Option<map<Id, nat>> {
    match w
    case Constructing(_, snapshot) => Some(snapshot)
    case Rechecking(_, snapshot) => Some(snapshot)
    case Committing(_, snapshot) => Some(snapshot)
    case _ => None
  }

  predicate IsUnloading(w: Wait) {
    w.Clearing? || w.Removing? || w.Deactivating? || w.Disposing?
  }

  /** Only an active fiber, or one being unloaded, owns an entry; a load in progress holds what its definition needs. */
  ghost predicate Consistent(t: Tree, f: Fiber) {
    && Bound(t, f)
    && (f.state == Active ==> f.handle.Some?)
    && (f.handle.Some? ==> f.state == Active || IsUnloading(f.wait))
    && (SnapshotOf(f.wait).Some? ==> f.state == Loading && Holds(t, f.definition, SnapshotOf(f.wait).value))
  }

  // ---- Resolution ----

  lemma {:induction false} LookIsPublished(t: Tree, c: Context, id: Id)
    requires Housed(t) && Look(t, c, id).Some?
    ensures var e := Look(t, c, id).value; e in t.slots && t.slots[e].definition.id == id && e in Published(t)
    decreases c
  {
    if c.scope < |t.scopes| && id in t.scopes[c.scope].entries {
      FoundIsPublished(t, c.scope, id);
    } else {
      LookIsPublished(t, c.parent.value, id);
    }
  }

  lemma BindingHolds(t: Tree, c: Context, d: Definition)
    requires Housed(t) && Binding(t, c, d).Some?
    ensures Holds(t, d, Binding(t, c, d).value)
    ensures forall x :: x in d.dependencies ==> Look(t, c, x) == Some(Binding(t, c, d).value[x])
  {
    hide Look;
    forall x | x in d.dependencies ensures Look(t, c, x).Some? { }
    forall x | x in d.dependencies
      ensures Look(t, c, x).value in t.slots && t.slots[Look(t, c, x).value].definition.id == x
    {
      LookIsPublished(t, c, x);
    }
  }

  lemma HoldsLater(t: Tree, u: Tree, d: Definition, snapshot: map<Id, nat>)
    requires Extends(t, u) && Holds(t, d, snapshot)
    ensures Holds(u, d, snapshot)
  {
  }

  lemma ConsistentLater(t: Tree, u: Tree, f: Fiber)
    requires Extends(t, u) && Consistent(t, f)
    ensures Consistent(u, f)
  {
    hide Holds;
    if SnapshotOf(f.wait).Some? { HoldsLater(t, u, f.definition, SnapshotOf(f.wait).value); }
  }

  // ---- Steps ----

  lemma RequestsKeepConsistent(t: Tree, f: Fiber, force: bool, detached: Option<nat>)
    requires Consistent(t, f)
    ensures Consistent(t, f.(disposeRequested := true)) && Consistent(t, f.(forceReload := true))
    ensures f.wait == AtRest ==>
              && Consistent(t, Begin(f, force)) && Consistent(t, BeginDisposal(f))
              && Consistent(t, BeginDeactivation(f, detached))
  {
    hide Holds;
  }

  lemma DecideKeepsConsistent(t: Tree, f: Fiber, force: bool)
    requires Housed(t) && Consistent(t, f) && f.wait == Deciding(force)
    ensures Consistent(t, Decide(t, f, force))
  {
    hide Holds, Binding;
    if Target(t, f).Some? { BindingHolds(t, f.context, f.definition); }
  }

  lemma UnloadStep(t: Tree, f: Fiber, detached: Option<nat>)
    requires Sound(t) && !t.poisoned
    ensures var (u, g) := Unload(t, f, detached);
            && Sound(u) && Extends(t, u) && u.poisoned == t.poisoned
            && g.handle == None && g.binding == None && g.state == Pending
            && g == f.(handle := None, binding := None, loading := g.loading, state := Pending)
  {
    hide Shaped, Upward;
    if f.handle.Some? && f.context.scope < |t.scopes| && f.handle.value in t.slots {
      var slot := t.slots[f.handle.value];
      if Withdraw(t, f.context.scope, slot.definition.id, slot.generation).Ok? {
        WithdrawKeepsTidy(t, f.context.scope, slot.definition.id, slot.generation);
      }
    }
  }

  lemma CommitStep(t: Tree, f: Fiber, force: bool, snapshot: map<Id, nat>)
    requires Sound(t) && !t.poisoned && Consistent(t, f) && f.wait == Committing(force, snapshot)
    ensures var (u, g) := CommitFiber(t, f, force, snapshot);
            && Sound(u) && Extends(t, u) && u.poisoned == t.poisoned && Consistent(u, g)
            && g.context == f.context && g.definition == f.definition
            && (g.handle.Some? ==>
                  && g.state == Active && g.handle == Some(t.nextEntry) && g.binding == Some(snapshot)
                  && Current(t, f.context.scope, snapshot) && Current(u, f.context.scope, snapshot)
                  && Get(u, f.context.scope, f.definition.id) == g.handle)
  {
    hide Shaped, Upward, Holds, Current, Get, Publish, Insert;
    var s, d := f.context.scope, f.definition;
    if s < |t.scopes| {
      if Publish(t, s, d, New, snapshot).Ok? {
        PublishedIsCurrent(t, s, d, New, snapshot);
        FirstGeneration(t, s, d, snapshot);
        InsertedEntry(t, s, d, 1, snapshot);
        InsertKeepsTidy(t, s, d, 1, snapshot);
        InsertedExtends(t, s, d, snapshot);
      }
    }
  }

  lemma InsertedExtends(t: Tree, s: nat, d: Definition, snapshot: map<Id, nat>)
    requires Tidy(t) && s < |t.scopes|
    ensures Extends(t, Insert(t, s, d, 1, snapshot)) && Insert(t, s, d, 1, snapshot).poisoned == t.poisoned
  {
    hide Parented, Housed, Upward;
  }

  /** Each step of a fiber keeps the tree sound and the fiber consistent. */
  lemma StepIsConsistent(t: Tree, f: Fiber, built: bool)
    requires Sound(t) && !t.poisoned && Consistent(t, f)
    ensures var (u, g) := Advance(t, f, built);
            Sound(u) && Extends(t, u) && u.poisoned == t.poisoned && Consistent(u, g)
  {
    hide Sound, Holds, Unload, CommitFiber, Get, Binding;
    ExtendsItself(t);
    match f.wait
    case AtRest =>
    case Deciding(force) => SoundIsHoused(t); DecideKeepsConsistent(t, f, force);
    case Clearing => UnloadStep(t, f, None);
    case Removing(force) => UnloadStep(t, f, None);
    case Deactivating(detached) => UnloadStep(t, f, detached);
    case Disposing => UnloadStep(t, f, None);
    case Constructing(force, snapshot) =>
    case Rechecking(force, snapshot) =>
    case Committing(force, snapshot) => CommitStep(t, f, force, snapshot);
  }

  lemma ExtendsItself(t: Tree)
    ensures Extends(t, t)
  {
  }

  lemma SoundIsHoused(t: Tree)
    requires Sound(t)
    ensures Housed(t)
  {
  }

  // ---- Runs ----

  datatype System = System(tree: Tree, fibers: map<nat, Fiber>)

  /** Scope commands by anyone, requests made to fibers, and single steps of their transitions. */
  datatype Event =
    | Environment(command: Command)
    | Create(fiber: nat, context: Context, definition: Definition)
    | RequestRestart(fiber: nat)
    | RequestDisposal(fiber: nat)
    | EnterDrive(fiber: nat, force: bool)
    | EnterDisposal(fiber: nat)
    | EnterDeactivation(fiber: nat, detached: Option<nat>)
    | StepOf(fiber: nat, built: bool)

  /** A transition lock admits a new transition only when none is running. */
  predicate MayEnter(s: System, id: nat) {
    id in s.fibers && s.fibers[id].wait == AtRest
  }

  function Happen(s: System, e: Event): System {
    if s.tree.poisoned then s
    else match e
         case Environment(c) => s.(tree := Execute(s.tree, c))
         case Create(id, c, d) => if id in s.fibers then s else s.(fibers := s.fibers[id := NewFiber(c, d)])
         case RequestRestart(id) =>
           if id in s.fibers && s.fibers[id].state != Disposed then
             s.(fibers := s.fibers[id := s.fibers[id].(forceReload := true)])
           else s
         case RequestDisposal(id) =>
           if id in s.fibers then s.(fibers := s.fibers[id := s.fibers[id].(disposeRequested := true)]) else s
         case EnterDrive(id, force) =>
           if MayEnter(s, id) then s.(fibers := s.fibers[id := Begin(s.fibers[id], force)]) else s
         case EnterDisposal(id) =>
           if MayEnter(s, id) && s.fibers[id].disposeRequested then
             s.(fibers := s.fibers[id := BeginDisposal(s.fibers[id])])
           else s
         case EnterDeactivation(id, detached) =>
           if MayEnter(s, id) then s.(fibers := s.fibers[id := BeginDeactivation(s.fibers[id], detached)]) else s
         case StepOf(id, built) =>
           if id in s.fibers then
             var (u, g) := Advance(s.tree, s.fibers[id], built);
             System(u, s.fibers[id := g])
           else s
  }

  function HappenAll(s: System, events: seq<Event>): System {
    if events == [] then s else Happen(HappenAll(s, events[..|events| - 1]), events[|events| - 1])
  }

  const Idle := System(Root, map[])

  ghost predicate AllConsistent(s: System) {
    Sound(s.tree) && forall id :: id in s.fibers ==> Consistent(s.tree, s.fibers[id])
  }

  lemma OthersStayConsistent(s: System, u: Tree, id: nat, g: Fiber)
    requires AllConsistent(s) && Sound(u) && Extends(s.tree, u) && Consistent(u, g)
    ensures AllConsistent(System(u, s.fibers[id := g]))
  {
    hide Sound, Consistent, Extends;
    forall x | x in s.fibers && x != id ensures Consistent(u, s.fibers[x]) { ConsistentLater(s.tree, u, s.fibers[x]); }
  }

  lemma HappenKeepsConsistent(s: System, e: Event)
    requires AllConsistent(s)
    ensures AllConsistent(Happen(s, e))
  {
    hide Sound, Consistent, Extends, Execute, Advance, Begin, BeginDisposal, BeginDeactivation;
    ExtendsItself(s.tree);
    if !s.tree.poisoned {
      match e
      case Environment(c) =>
        ExecuteKeepsSound(s.tree, c);
        ExecuteExtends(s.tree, c);
        forall x | x in s.fibers
          ensures Consistent(Execute(s.tree, c), s.fibers[x])
        {
          ConsistentLater(s.tree, Execute(s.tree, c), s.fibers[x]);
        }
      case Create(id, c, d) =>
        NewIsConsistent(s.tree, c, d); if id !in s.fibers { OthersStayConsistent(s, s.tree, id, NewFiber(c, d)); }
      case RequestRestart(id) => if id in s.fibers { RequestsKeepConsistent(s.tree, s.fibers[id], true, None); }
      case RequestDisposal(id) => if id in s.fibers { RequestsKeepConsistent(s.tree, s.fibers[id], true, None); }
      case EnterDrive(id, force) => if id in s.fibers { RequestsKeepConsistent(s.tree, s.fibers[id], force, None); }
      case EnterDisposal(id) => if id in s.fibers { RequestsKeepConsistent(s.tree, s.fibers[id], true, None); }
      case EnterDeactivation(id, detached) =>
        if id in s.fibers { RequestsKeepConsistent(s.tree, s.fibers[id], true, detached); }
      case StepOf(id, built) =>
        if id in s.fibers {
          StepIsConsistent(s.tree, s.fibers[id], built);
          var (u, g) := Advance(s.tree, s.fibers[id], built);
          OthersStayConsistent(s, u, id, g);
        }
    }
  }

  lemma NewIsConsistent(t: Tree, c: Context, d: Definition)
    ensures Consistent(t, NewFiber(c, d))
  {
  }

  lemma {:induction false} RunKeepsConsistent(events: seq<Event>)
    ensures AllConsistent(HappenAll(Idle, events))
    decreases |events|
  {
    hide AllConsistent, Happen;
    if events == [] {
      IdleIsConsistent();
    } else {
      RunKeepsConsistent(events[..|events| - 1]);
      HappenKeepsConsistent(HappenAll(Idle, events[..|events| - 1]), events[|events| - 1]);
    }
  }

  lemma IdleIsConsistent()
    ensures AllConsistent(Idle)
  {
    RootResolves();
  }

  /**
   Whatever happened before and during a load, the step by which a fiber comes to
   own an entry publishes a snapshot that its scope resolves at that moment, and
   the fiber's binding is that snapshot.
   */
  lemma FiberNeverPublishesStale(events: seq<Event>, e: Event, id: nat)
    requires var before, after := HappenAll(Idle, events), Happen(HappenAll(Idle, events), e);
             && id in before.fibers && before.fibers[id].handle.None?
             && id in after.fibers && after.fibers[id].handle.Some?
    ensures var before, after := HappenAll(Idle, events), Happen(HappenAll(Idle, events), e);
            var f := after.fibers[id];
            && f.state == Active && f.binding.Some? && f.handle.value in after.tree.slots
            && after.tree.slots[f.handle.value].dependencies == f.binding.value
            && Current(before.tree, f.context.scope, f.binding.value)
            && Current(after.tree, f.context.scope, f.binding.value)
            && Get(after.tree, f.context.scope, f.definition.id) == f.handle
  {
    hide AllConsistent, Happen, Get, Current;
    RunKeepsConsistent(events);
    PublishingEvent(HappenAll(Idle, events), e, id);
  }

  lemma PublishingEvent(s: System, e: Event, id: nat)
    requires AllConsistent(s) && id in s.fibers && s.fibers[id].handle.None?
    requires id in Happen(s, e).fibers && Happen(s, e).fibers[id].handle.Some?
    ensures var after := Happen(s, e);
            var f := after.fibers[id];
            && f.state == Active && f.binding.Some? && f.handle.value in after.tree.slots
            && after.tree.slots[f.handle.value].dependencies == f.binding.value
            && Current(s.tree, f.context.scope, f.binding.value)
            && Current(after.tree, f.context.scope, f.binding.value)
            && Get(after.tree, f.context.scope, f.definition.id) == f.handle
  {
    hide Sound, Extends, Execute, CommitFiber, Get, Current, Unload, Holds, Binding;
    var f := s.fibers[id];
    assert e.StepOf? && e.fiber == id && !s.tree.poisoned;
    StepIsConsistent(s.tree, f, e.built);
    if f.wait.Committing? {
      CommitStep(s.tree, f, f.wait.force, f.wait.snapshot);
    } else if IsUnloading(f.wait) {
      UnloadStep(s.tree, f, if f.wait.Deactivating? then f.wait.detached else None);
    }
  }

  /** In every reachable state a fiber is bound only to entries published before its own. */
  lemma BindingsDescend(events: seq<Event>, id: nat)
    requires var s := HappenAll(Idle, events); id in s.fibers && s.fibers[id].handle.Some?
    ensures var f := HappenAll(Idle, events).fibers[id];
            f.binding.Some? && forall x :: x in f.binding.value ==> f.binding.value[x] < f.handle.value
  {
    hide Parented, Housed, Upward;
    RunKeepsConsistent(events);
  }
}
