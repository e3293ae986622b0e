/**
 Capability fibers: contexts with isolation, and the load, publish and unload
 transition as steps between its await points. Anything may happen to the
 scopes between two steps.
 */
module FiberModel {
  import opened Prelude
  import opened ResolverModel
  import opened ScopeModel

  // ---- Contexts ----

  /** A view of a scope; `isolation` names what may not be inherited through it. */
  datatype Context = Context(scope: nat, isolation: set<Id>, parent: Option<Context>)

  /** The contexts of a view follow the parents of its scope. */
  ghost predicate Follows(t: Tree, c: Context)
    decreases c
  {
    && c.scope < |t.scopes|
    && match c.parent
       case None => t.scopes[c.scope].parent == None
       case Some(p) => t.scopes[c.scope].parent == Some(p.scope) && Follows(t, p)
  }

  /** Local entries first, then the parent's view unless the identifier is isolated here. */
  function Look(t: Tree, c: Context, id: Id): Option<nat>
    decreases c
  {
    if c.scope < |t.scopes| && id in t.scopes[c.scope].entries then Get(t, c.scope, id)
    else if id in c.isolation then None
    else match c.parent
         case None => None
         case Some(p) => Look(t, p, id)
  }

  /** The exact entries a definition resolves to in a context, when all are visible. */
  function Binding(t: Tree, c: Context, d: Definition): Option<map<Id, nat>> {
    if exists x :: x in d.dependencies && Look(t, c, x) == None then None
    else Some(map x | x in d.dependencies && Look(t, c, x).Some? :: Look(t, c, x).value)
  }

  // ---- Fibers ----

  datatype FiberState = Pending | Loading | Active | Failed | Unloading | Disposed

  /** Where a running transition is waiting; `force` asks for a reload. */
  datatype Wait =
    | AtRest
    | Deciding(force: bool)
    | Clearing
    | Removing(force: bool)
    | Deactivating(detached: Option<nat>)
    | Disposing
    | Constructing(force: bool, snapshot: map<Id, nat>)
    | Rechecking(force: bool, snapshot: map<Id, nat>)
    | Committing(force: bool, snapshot: map<Id, nat>)

  /** `handle` and `binding` name entries exactly; an entry fixes its generation. */
  datatype Fiber = Fiber(
    context: Context,
    definition: Definition,
    state: FiberState,
    handle: Option<nat>,
    binding: Option<map<Id, nat>>,
    loading: Option<map<Id, nat>>,
    disposeRequested: bool,
    forceReload: bool,
    wait: Wait)

  function NewFiber(c: Context, d: Definition): Fiber {
    Fiber(c, d, Pending, None, None, None, false, false, AtRest)
  }

  function Target(t: Tree, f: Fiber): Option<map<Id, nat>> {
    Binding(t, f.context, f.definition)
  }

  predicate NeedsReconciliation(t: Tree, f: Fiber) {
    match f.state
    case Active => Target(t, f) != f.binding
    case Loading => Target(t, f) != f.loading
    case Pending => f.definition.dependencies != {} && Target(t, f).Some?
    case Failed => false
    case Disposed => false
    case Unloading => true
  }

  // ---- Requests ----

  /** `start`: a transition begins, or fails at once. */
  function Begin(f: Fiber, force: bool): Fiber {
    if f.disposeRequested then f
    else if !force && f.state == FiberState.Failed then f
    else f.(forceReload := false, wait := Deciding(force || f.forceReload))
  }

  function BeginDisposal(f: Fiber): Fiber {
    if f.state == Disposed then f else f.(state := Unloading, wait := Disposing)
  }

  /** Withdrawal of a provider unloads the fiber; `detached` is the entry already taken out of its scope. */
  function BeginDeactivation(f: Fiber, detached: Option<nat>): Fiber {
    if f.state == Active || f.state == FiberState.Failed then f.(state := Unloading, wait := Deactivating(detached))
    else f
  }

  // ---- Steps ----

  /** The local entry a fiber removes when it unloads, named by identifier and generation. */
  function RemoveLocal(t: Tree, f: Fiber): Result<Tree, ScopeError> {
    if f.handle.None? || f.context.scope >= |t.scopes| || f.handle.value !in t.slots then Ok(t)
    else Withdraw(t, f.context.scope, t.slots[f.handle.value].definition.id, t.slots[f.handle.value].generation)
  }

  /** The rest of `unload`, after the effects are disposed; an entry already detached is left alone. */
  function Unload(t: Tree, f: Fiber, detached: Option<nat>): (Tree, Fiber) {
    if detached.Some? && f.handle == detached then
      (t, f.(handle := None, binding := None, loading := None, state := Pending))
    else match RemoveLocal(t, f)
         case Ok(u) => (u, f.(handle := None, binding := None, loading := None, state := Pending))
         case Err(_) => (t, f.(handle := None, binding := None, state := Pending))
  }

  function Decide(t: Tree, f: Fiber, force: bool): Fiber {
    match Target(t, f)
    case None =>
      if f.state == Active then f.(state := Unloading, wait := Clearing) else f.(state := Pending, wait := AtRest)
    case Some(snapshot) =>
      if !force && f.state == Active && f.binding == Some(snapshot) then f.(wait := AtRest)
      else if f.state == Active || f.state == FiberState.Failed then f.(state := Unloading, wait := Removing(force))
      else if f.disposeRequested then f.(wait := AtRest)
      else f.(state := Loading, loading := Some(snapshot), wait := Constructing(force, snapshot))
  }

  /** The factory has returned; its result is dropped when the fiber's situation has changed. */
  function Constructed(t: Tree, f: Fiber, force: bool, snapshot: map<Id, nat>, built: bool): Fiber {
    var stale := f.disposeRequested || f.forceReload || Target(t, f) != Some(snapshot);
    if built && !stale then f.(wait := Rechecking(force, snapshot))
    else if stale then
      var g := f.(loading := None, forceReload := false);
      if f.disposeRequested then (if built then g.(wait := AtRest) else g.(state := Disposed, wait := AtRest))
      else g.(state := Pending, wait := Deciding(force))
    else f.(loading := None, state := FiberState.Failed, wait := AtRest)
  }

  /** The dependencies a scope does not resolve to the snapshot. */
  function Wrong(t: Tree, s: nat, d: Definition, snapshot: map<Id, nat>): set<Id> {
    set x | x in d.dependencies && (Get(t, s, x) == None || (x in snapshot && Get(t, s, x) != Some(snapshot[x])))
  }

  /** The check before the publication proper: each dependency is still resolved to the snapshot. */
  function Recheck(t: Tree, f: Fiber, force: bool, snapshot: map<Id, nat>): Fiber {
    var wrong := Wrong(t, f.context.scope, f.definition, snapshot);
    if wrong != {} then Rejected(f, force, Get(t, f.context.scope, Least(wrong)).None?)
    else f.(wait := Committing(force, snapshot))
  }

  /** A refused publication: a changed dependency starts over, anything else fails the fiber. */
  function Rejected(f: Fiber, force: bool, failed: bool): Fiber {
    if failed then f.(loading := None, state := FiberState.Failed, wait := AtRest)
    else f.(loading := None, state := Pending, wait := Deciding(force))
  }

  function CommitFiber(t: Tree, f: Fiber, force: bool, snapshot: map<Id, nat>): (Tree, Fiber) {
    if f.context.scope >= |t.scopes| || t.poisoned then (t, f)
    else match Publish(t, f.context.scope, f.definition, New, snapshot)
         case Ok(u) =>
           (u, f.(handle := Some(t.nextEntry), binding := Some(snapshot), loading := None, state := Active,
                  wait := AtRest))
         case Err(e) => (t, Rejected(f, force, !e.DependencyChanged?))
  }

  /** One step of a fiber's transition, up to its next await point. */
  function Advance(t: Tree, f: Fiber, built: bool): (Tree, Fiber) {
    match f.wait
    case AtRest => (t, f)
    case Deciding(force) => (t, Decide(t, f, force))
    case Clearing => var (u, g) := Unload(t, f, None); (u, g.(wait := AtRest))
    case Removing(force) =>
      var (u, g) := Unload(t, f, None);
      (u, g.(wait := if f.disposeRequested then AtRest else Deciding(force)))
    case Deactivating(detached) => var (u, g) := Unload(t, f, detached); (u, g.(wait := AtRest))
    case Disposing => var (u, g) := Unload(t, f, None); (u, g.(state := Disposed, wait := AtRest))
    case Constructing(force, snapshot) => (t, Constructed(t, f, force, snapshot, built))
    case Rechecking(force, snapshot) => (t, Recheck(t, f, force, snapshot))
    case Committing(force, snapshot) => CommitFiber(t, f, force, snapshot)
  }
}
