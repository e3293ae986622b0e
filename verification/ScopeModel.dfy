/**
 The tree of capability scopes as a value: local entries, shadowing, two-phase
 publication, withdrawal and teardown. Scopes share one topology lock, so each
 function here is one step taken under it.
 */
module ScopeModel {
  import opened Prelude
  import opened ResolverModel
  import Digraph

  /** One published instance. Its entry identity is its key in the tree's slots. */
  datatype Slot = Slot(definition: Definition, generation: nat, dependencies: map<Id, nat>)

  /** `children` are indices of the arena; a scope comes after its parent. */
  datatype Scope = Scope(parent: Option<nat>, entries: map<Id, nat>, open: bool, live: bool, children: seq<nat>)

  /** `poisoned` marks that a step panicked while it held the topology lock. */
  datatype Tree = Tree(scopes: seq<Scope>, slots: map<nat, Slot>, nextEntry: nat, poisoned: bool)

  datatype Expectation = New | Replace(expected: nat)

  datatype ScopeError =
    | GraphAdmission(path: seq<Id>)
    | MissingDependency(capability: Id, dependency: Id)
    | ConstructionFailed(capability: Id)
    | AlreadyProvided(capability: Id, generation: nat)
    | NoLocalEntry(capability: Id)
    | ReplacementConflict(capability: Id, expectedGeneration: nat, actualGeneration: nat)
    | DependencyChanged(capability: Id, dependency: Id)
    | GenerationExhausted(capability: Id)
    | ScopeClosed

  function FromGraphError(e: Digraph.SearchFailure): ScopeError {
    match e
    case Missing(capability, dependency) => MissingDependency(capability, dependency)
    case Cyclic(path) => GraphAdmission(path)
  }

  const Root := Tree([Scope(None, map[], true, true, [])], map[], 1, false)

  /** Parents come first and list exactly their children. */
  ghost predicate Parented(t: Tree) {
    && (forall i :: 0 <= i < |t.scopes| && t.scopes[i].parent.Some? ==>
          t.scopes[i].parent.value < i && i in t.scopes[t.scopes[i].parent.value].children)
    && (forall i: nat, c: nat {:trigger c in t.scopes[i].children} :: i < |t.scopes| && c in t.scopes[i].children ==>
          i < c < |t.scopes| && t.scopes[c].parent == Some(i))
  }

  /** Every local entry has a slot for its identifier. */
  ghost predicate Housed(t: Tree) {
    forall i, id :: 0 <= i < |t.scopes| && id in t.scopes[i].entries ==>
      t.scopes[i].entries[id] in t.slots && t.slots[t.scopes[i].entries[id]].definition.id == id
  }

  /** Every slot pins, for each declared dependency, a slot published before it. */
  ghost predicate Pinned(slots: map<nat, Slot>, nextEntry: nat) {
    && (forall e :: e in slots ==> e < nextEntry && slots[e].dependencies.Keys == slots[e].definition.dependencies)
    && (forall e, d :: e in slots && d in slots[e].dependencies ==>
          && slots[e].dependencies[d] in slots && slots[e].dependencies[d] < e
          && slots[slots[e].dependencies[d]].definition.id == d)
  }

  ghost predicate Shaped(t: Tree) {
    Parented(t) && Housed(t) && Pinned(t.slots, t.nextEntry)
  }

  // ---- Lookup ----

  /** The nearest visible entry; a closed scope on the way hides everything above it. */
  function Get(t: Tree, s: nat, id: Id): Option<nat>
    decreases s
  {
    if s >= |t.scopes| || !t.scopes[s].open then None
    else if id in t.scopes[s].entries then Some(t.scopes[s].entries[id])
    else match t.scopes[s].parent
         case None => None
         case Some(p) => if p < s then Get(t, p, id) else None
  }

  function LocalDefinitions(t: Tree, entries: map<Id, nat>): Definitions {
    map id | id in entries && entries[id] in t.slots :: t.slots[entries[id]].definition
  }

  function VisibleDefinitions(t: Tree, s: nat): Definitions
    decreases s, 1
  {
    if s >= |t.scopes| || !t.scopes[s].open then map[]
    else Inherited(t, s) + LocalDefinitions(t, t.scopes[s].entries)
  }

  function Inherited(t: Tree, s: nat): Definitions
    requires s < |t.scopes|
    decreases s, 0
  {
    match t.scopes[s].parent
    case None => map[]
    case Some(p) => if p < s then VisibleDefinitions(t, p) else map[]
  }

  function Unresolved(t: Tree, s: nat, d: Definition): set<Id> {
    set x | x in d.dependencies && Get(t, s, x).None?
  }

  /** Resolves every dependency of a definition, reporting the first that is not visible. */
  function ResolveDependencies(t: Tree, s: nat, d: Definition): Result<map<Id, nat>, ScopeError> {
    if Unresolved(t, s, d) != {} then Err(MissingDependency(d.id, Least(Unresolved(t, s, d))))
    else Ok(map x | x in d.dependencies && Get(t, s, x).Some? :: Get(t, s, x).value)
  }

  // ---- Publication ----

  function CheckExpectation(t: Tree, s: nat, id: Id, x: Expectation): Outcome<ScopeError>
    requires s < |t.scopes|
  {
    var entries := t.scopes[s].entries;
    if !t.scopes[s].open then Failed(ScopeClosed)
    else match x
         case New =>
           if id in entries then Failed(AlreadyProvided(id, GenerationOf(t, entries[id]))) else Done
         case Replace(expected) =>
           if id !in entries then Failed(NoLocalEntry(id))
           else if GenerationOf(t, entries[id]) != expected then
             Failed(ReplacementConflict(id, expected, GenerationOf(t, entries[id])))
           else Done
  }

  function GenerationOf(t: Tree, e: nat): nat {
    if e in t.slots then t.slots[e].generation else 0
  }

  /** The first phase: admission against what is visible now, and the exact dependency snapshot. */
  function Prepare(t: Tree, s: nat, d: Definition, x: Expectation): Result<map<Id, nat>, ScopeError>
    requires s < |t.scopes|
  {
    match CheckExpectation(t, s, d.id, x)
    case Failed(e) => Err(e)
    case Done =>
      match ValidateCandidate(VisibleDefinitions(t, s), d)
      case Err(e) => Err(FromGraphError(e))
      case Ok(_) => ResolveDependencies(t, s, d)
  }

  /** Live descendants, each child followed by its own descendants. */
  function Descendants(t: Tree, s: nat): seq<nat>
    requires s < |t.scopes|
    decreases |t.scopes| - s, 1, 0
  {
    DescendantsOf(t, s, t.scopes[s].children)
  }

  function DescendantsOf(t: Tree, s: nat, children: seq<nat>): seq<nat>
    requires s < |t.scopes|
    decreases |t.scopes| - s, 0, |children|
  {
    if children == [] then []
    else
      var c := children[0];
      (if s < c < |t.scopes| && t.scopes[c].live then [c] + Descendants(t, c) else [])
      + DescendantsOf(t, s, children[1..])
  }

  /** Whether a candidate for `id` in scope `s` is visible from `descendant`, that is, not shadowed on the way. */
  predicate Affects(t: Tree, s: nat, descendant: nat, id: Id)
    decreases descendant
  {
    if descendant == s then true
    else if descendant >= |t.scopes| || !t.scopes[descendant].open || id in t.scopes[descendant].entries then false
    else match t.scopes[descendant].parent
         case None => false
         case Some(p) => p < descendant && Affects(t, s, p, id)
  }

  function AdmitDescendants(t: Tree, s: nat, d: Definition, descendants: seq<nat>): Outcome<ScopeError> {
    if descendants == [] then Done
    else
      var x := descendants[0];
      if x < |t.scopes| && t.scopes[x].open && Affects(t, s, x, d.id) then
        match ValidateCandidate(VisibleDefinitions(t, x), d)
        case Err(e) => Failed(FromGraphError(e))
        case Ok(_) => AdmitDescendants(t, s, d, descendants[1..])
      else AdmitDescendants(t, s, d, descendants[1..])
  }

  function Changed(t: Tree, s: nat, d: Definition, snapshot: map<Id, nat>): set<Id> {
    set x | x in d.dependencies && x in snapshot && Get(t, s, x) != Some(snapshot[x])
  }

  function NextGeneration(t: Tree, s: nat, id: Id, x: Expectation): Result<nat, ScopeError>
    requires s < |t.scopes|
  {
    if x == New || id !in t.scopes[s].entries then Ok(1)
    else
      var current := GenerationOf(t, t.scopes[s].entries[id]);
      if current >= U64_MAX then Err(GenerationExhausted(id)) else Ok(current + 1)
  }

  function Insert(t: Tree, s: nat, d: Definition, generation: nat, snapshot: map<Id, nat>): Tree
    requires s < |t.scopes|
  {
    t.(scopes := t.scopes[s := t.scopes[s].(entries := t.scopes[s].entries[d.id := t.nextEntry])],
       slots := t.slots[t.nextEntry := Slot(d, generation, snapshot)],
       nextEntry := t.nextEntry + 1)
  }

  /**
   The second phase, under the lock: the snapshot must still be what the scope
   resolves, and every check is made again. On success the new entry is
   `t.nextEntry`.
   */
  function Publish(t: Tree, s: nat, d: Definition, x: Expectation, snapshot: map<Id, nat>): Result<Tree, ScopeError>
    requires s < |t.scopes|
  {
    match ResolveDependencies(t, s, d)
    case Err(e) => Err(e)
    case Ok(_) =>
      if Changed(t, s, d, snapshot) != {} then Err(DependencyChanged(d.id, Least(Changed(t, s, d, snapshot))))
      else match AdmitDescendants(t, s, d, Descendants(t, s))
           case Failed(e) => Err(e)
           case Done =>
             match CheckExpectation(t, s, d.id, x)
             case Failed(e) => Err(e)
             case Done =>
               match ValidateCandidate(VisibleDefinitions(t, s), d)
               case Err(e) => Err(FromGraphError(e))
               case Ok(_) =>
                 match NextGeneration(t, s, d.id, x)
                 case Err(e) => Err(e)
                 case Ok(generation) => Ok(Insert(t, s, d, generation, snapshot))
  }

  // ---- Scopes ----

  function Child(t: Tree, s: nat): Tree
    requires s < |t.scopes|
  {
    var child := Scope(Some(s), map[], t.scopes[s].open, true, []);
    t.(scopes := t.scopes[s := t.scopes[s].(children := t.scopes[s].children + [|t.scopes|])] + [child])
  }

  /** Removes exactly the publication the caller names by generation. */
  function Withdraw(t: Tree, s: nat, id: Id, expected: nat): Result<Tree, ScopeError>
    requires s < |t.scopes|
  {
    var entries := t.scopes[s].entries;
    if !t.scopes[s].open then Err(ScopeClosed)
    else if id !in entries then Err(NoLocalEntry(id))
    else if GenerationOf(t, entries[id]) != expected then
      Err(ReplacementConflict(id, expected, GenerationOf(t, entries[id])))
    else Ok(t.(scopes := t.scopes[s := t.scopes[s].(entries := entries - {id})]))
  }

  /** Nothing refers to the scope any more; a live child would still hold it. */
  function Forget(t: Tree, s: nat): Tree
    requires s < |t.scopes|
  {
    if exists c :: c in t.scopes[s].children && c < |t.scopes| && t.scopes[c].live then t
    else t.(scopes := t.scopes[s := t.scopes[s].(live := false, open := false, entries := map[])])
  }

  // ---- Teardown ----

  datatype Snapshot = Snapshot(definitions: Definitions, visited: set<nat>)

  /** The entries a slot pins, in identifier order of its dependencies. */
  function PinnedBy(slot: Slot): seq<nat> {
    PinsAt(slot.dependencies, Ascending(slot.dependencies.Keys))
  }

  function PinsAt(m: map<Id, nat>, ids: seq<Id>): seq<nat> {
    if ids == [] then [] else (if ids[0] in m then [m[ids[0]]] else []) + PinsAt(m, ids[1..])
  }

  /**
   Adds snapshot definitions, following pins; a definition already present under
   the same identifier wins. Pins lead to earlier entries, below `bound`.
   */
  function InsertSnapshots(t: Tree, entries: seq<nat>, g: Snapshot, bound: nat): Snapshot
    decreases bound, |entries|
  {
    if entries == [] then g
    else
      var e := entries[0];
      if e in g.visited || e !in t.slots || e >= bound then InsertSnapshots(t, entries[1..], g, bound)
      else
        var slot := t.slots[e];
        var definitions :=
          if slot.definition.id in g.definitions then g.definitions
          else g.definitions[slot.definition.id := slot.definition];
        var below := InsertSnapshots(t, PinnedBy(slot), Snapshot(definitions, g.visited + {e}), e);
        InsertSnapshots(t, entries[1..], below, bound)
  }

  function PinnedByAll(t: Tree, entries: map<Id, nat>, ids: seq<Id>): seq<nat> {
    if ids == [] then []
    else (if ids[0] in entries && entries[ids[0]] in t.slots then PinnedBy(t.slots[entries[ids[0]]]) else [])
         + PinnedByAll(t, entries, ids[1..])
  }

  /** Current definitions first, then every definition still pinned by a snapshot. */
  function RuntimeGraph(t: Tree, entries: map<Id, nat>): Definitions {
    InsertSnapshots(t, PinnedByAll(t, entries, Ascending(entries.Keys)),
                    Snapshot(LocalDefinitions(t, entries), entries.Values), t.nextEntry).definitions
  }

  /** Whether releasing a scope's entries can be ordered; teardown panics when it cannot. */
  predicate Plannable(t: Tree, s: nat)
    requires s < |t.scopes|
  {
    t.scopes[s].open ==> Resolves(RuntimeGraph(t, t.scopes[s].entries))
  }

  function Close(t: Tree, s: nat): Tree
    requires s < |t.scopes|
  {
    if t.scopes[s].open then t.(scopes := t.scopes[s := t.scopes[s].(open := false, entries := map[])]) else t
  }

  /** Closes the scopes in order; a scope that cannot be planned poisons the tree. */
  function CloseAll(t: Tree, order: seq<nat>): Tree
    decreases |order|
  {
    if order == [] then t
    else if order[0] >= |t.scopes| then CloseAll(t, order[1..])
    else if !Plannable(t, order[0]) then Close(t, order[0]).(poisoned := true)
    else CloseAll(Close(t, order[0]), order[1..])
  }

  function ChildFirst(t: Tree, s: nat): seq<nat>
    requires s < |t.scopes|
    decreases |t.scopes| - s, 1, 0
  {
    ChildFirstOf(t, s, t.scopes[s].children) + [s]
  }

  function ChildFirstOf(t: Tree, s: nat, children: seq<nat>): seq<nat>
    requires s < |t.scopes|
    decreases |t.scopes| - s, 0, |children|
  {
    if children == [] then []
    else
      var c := children[0];
      (if s < c < |t.scopes| && t.scopes[c].live then ChildFirst(t, c) else []) + ChildFirstOf(t, s, children[1..])
  }

  function Teardown(t: Tree, s: nat): Tree
    requires s < |t.scopes|
  {
    CloseAll(t, ChildFirst(t, s))
  }

  // ---- Steps ----

  datatype Command =
    | ChildOf(scope: nat)
    | Commit(scope: nat, definition: Definition, expectation: Expectation, snapshot: map<Id, nat>)
    | WithdrawFrom(scope: nat, id: Id, generation: nat)
    | TearDown(scope: nat)
    | ForgetScope(scope: nat)

  /** A snapshot a caller can hold: one handle for each declared dependency. */
  predicate Holds(t: Tree, d: Definition, snapshot: map<Id, nat>) {
    snapshot.Keys == d.dependencies && forall x :: x in snapshot ==>
      snapshot[x] in t.slots && t.slots[snapshot[x]].definition.id == x
  }

  predicate Enabled(t: Tree, c: Command) {
    && !t.poisoned && c.scope < |t.scopes| && t.scopes[c.scope].live
    && (c.Commit? ==> Holds(t, c.definition, c.snapshot))
  }

  function Execute(t: Tree, c: Command): Tree {
    if !Enabled(t, c) then t
    else match c
         case ChildOf(s) => Child(t, s)
         case Commit(s, d, x, snapshot) => (match Publish(t, s, d, x, snapshot) case Ok(u) => u case Err(_) => t)
         case WithdrawFrom(s, id, generation) => (match Withdraw(t, s, id, generation) case Ok(u) => u case Err(_) => t)
         case TearDown(s) => Teardown(t, s)
         case ForgetScope(s) => Forget(t, s)
  }

  function ExecuteAll(t: Tree, commands: seq<Command>): Tree {
    if commands == [] then t else Execute(ExecuteAll(t, commands[..|commands| - 1]), commands[|commands| - 1])
  }
}
