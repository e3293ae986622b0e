/** The scope tree with its entry maps, gates, child lists and instance references updated in place. */
module Scopes {
  import opened Prelude
  import opened ResolverModel
  import opened ScopeModel
  import opened ScopeInvariants
  import opened ScopePublication
  import opened ScopeTeardown
  import opened ScopeOwnership
  import opened Ownership
  import Own = OwnershipModel
  import Digraph
  import Resolvers

  // ---- Read-only traversals ----

  /** The nearest visible entry. */
  method Find(t: Tree, s: nat, id: Id) returns (r: Option<nat>)
    requires Parented(t) && s < |t.scopes|
    ensures r == Get(t, s, id)
    decreases s
  {
    if !t.scopes[s].open { return None; }
    if id in t.scopes[s].entries { return Some(t.scopes[s].entries[id]); }
    if t.scopes[s].parent == None { return None; }
    r := Find(t, t.scopes[s].parent.value, id);
  }

  /** Inherited definitions overridden by local ones, copied one by one. */
  method Visible(t: Tree, s: nat) returns (definitions: Definitions)
    requires Parented(t) && Housed(t) && s < |t.scopes|
    ensures definitions == VisibleDefinitions(t, s)
    decreases s, 0
  {
    if !t.scopes[s].open { return map[]; }
    definitions := map[];
    if t.scopes[s].parent.Some? { definitions := Visible(t, t.scopes[s].parent.value); }
    assert definitions == Inherited(t, s);
    definitions := Overlay(t, definitions, t.scopes[s].entries);
  }

  method Overlay(t: Tree, lower: Definitions, entries: map<Id, nat>) returns (definitions: Definitions)
    requires forall id :: id in entries ==> entries[id] in t.slots
    ensures definitions == lower + LocalDefinitions(t, entries)
  {
    definitions := lower;
    var ids := Ascending(entries.Keys);
    ghost var copied: set<Id> := {};
    var i := 0;
    while i < |ids|
      invariant 0 <= i <= |ids| && copied <= entries.Keys
      invariant forall k :: 0 <= k < i ==> ids[k] in copied
      invariant definitions.Keys == lower.Keys + copied
      invariant forall id :: id in definitions ==>
        definitions[id] == if id in copied then t.slots[entries[id]].definition else lower[id]
    {
      assert ids[i] in ids && ids[i] in entries;
      definitions := definitions[ids[i] := t.slots[entries[ids[i]]].definition];
      copied := copied + {ids[i]};
      i := i + 1;
    }
    forall id | id in entries ensures id in copied {
      assert id in ids;
      var k :| 0 <= k < |ids| && ids[k] == id;
    }
    assert copied == entries.Keys;
  }

  /** Whether a candidate in `s` is visible from `descendant`: a walk towards the root. */
  method Reaches(t: Tree, s: nat, descendant: nat, id: Id) returns (r: bool)
    requires Parented(t) && descendant < |t.scopes|
    ensures r == Affects(t, s, descendant, id)
  {
    var current: nat := descendant;
    while true
      invariant current < |t.scopes|
      invariant Affects(t, s, current, id) == Affects(t, s, descendant, id)
      decreases current
    {
      if current == s { return true; }
      if !t.scopes[current].open || id in t.scopes[current].entries { return false; }
      if t.scopes[current].parent == None { return false; }
      current := t.scopes[current].parent.value;
    }
  }

  lemma DescendantsStep(t: Tree, s: nat, children: seq<nat>, i: nat)
    requires s < |t.scopes| && i < |children| && s < children[i] < |t.scopes|
    ensures DescendantsOf(t, s, children[i..]) ==
            (if t.scopes[children[i]].live then [children[i]] + Descendants(t, children[i]) else [])
            + DescendantsOf(t, s, children[i + 1..])
    ensures ChildFirstOf(t, s, children[i..]) ==
            (if t.scopes[children[i]].live then ChildFirst(t, children[i]) else [])
            + ChildFirstOf(t, s, children[i + 1..])
  {
    hide Descendants, ChildFirst;
    assert children[i..][1..] == children[i + 1..];
  }

  lemma NoChildrenLeft(t: Tree, s: nat)
    requires s < |t.scopes|
    ensures DescendantsOf(t, s, []) == [] && ChildFirstOf(t, s, []) == []
  {
  }

  /** Live descendants, each child followed by its own. */
  method LiveDescendants(t: Tree, s: nat) returns (list: seq<nat>)
    requires Parented(t) && s < |t.scopes|
    ensures list == Descendants(t, s)
    decreases |t.scopes| - s
  {
    hide DescendantsOf, ChildFirstOf;
    list := [];
    var children := t.scopes[s].children;
    NoChildrenLeft(t, s);
    var i := 0;
    while i < |children|
      invariant 0 <= i <= |children|
      invariant list + DescendantsOf(t, s, children[i..]) == DescendantsOf(t, s, children)
    {
      var c := children[i];
      assert c in children;
      DescendantsStep(t, s, children, i);
      if t.scopes[c].live {
        var below := LiveDescendants(t, c);
        list := list + [c] + below;
      }
      i := i + 1;
    }
    assert children[i..] == [];
  }

  method ChildrenFirst(t: Tree, s: nat) returns (list: seq<nat>)
    requires Parented(t) && s < |t.scopes|
    ensures list == ChildFirst(t, s)
    decreases |t.scopes| - s
  {
    hide DescendantsOf, ChildFirstOf;
    list := [];
    var children := t.scopes[s].children;
    NoChildrenLeft(t, s);
    var i := 0;
    while i < |children|
      invariant 0 <= i <= |children|
      invariant list + ChildFirstOf(t, s, children[i..]) == ChildFirstOf(t, s, children)
    {
      var c := children[i];
      assert c in children;
      DescendantsStep(t, s, children, i);
      if t.scopes[c].live {
        var below := ChildrenFirst(t, c);
        list := list + below;
      }
      i := i + 1;
    }
    assert children[i..] == [];
    list := list + [s];
  }

  /** Checks a candidate against every open descendant it would be visible from. */
  method Admit(t: Tree, s: nat, d: Definition) returns (r: Outcome<ScopeError>)
    requires Parented(t) && Housed(t) && s < |t.scopes|
    requires forall x :: x in Descendants(t, s) ==> x < |t.scopes|
    ensures r == AdmitDescendants(t, s, d, Descendants(t, s))
  {
    hide Affects, VisibleDefinitions, ValidateCandidate, Descendants, Parented, Housed;
    var list := LiveDescendants(t, s);
    var i := 0;
    while i < |list|
      invariant 0 <= i <= |list|
      invariant AdmitDescendants(t, s, d, list[i..]) == AdmitDescendants(t, s, d, list)
    {
      var x := list[i];
      assert x in list;
      assert list[i..][1..] == list[i + 1..];
      if t.scopes[x].open {
        var affected := Reaches(t, s, x, d.id);
        if affected {
          var definitions := Visible(t, x);
          var v := Resolvers.Validate(definitions, d);
          if v.Err? { return Failed(FromGraphError(v.error)); }
        }
      }
      i := i + 1;
    }
    assert list[i..] == [];
    r := Done;
  }

  lemma {:induction false} LeastIsFirst(all: set<Id>, ids: seq<Id>, bad: set<Id>, i: nat)
    requires ids == Ascending(all) && bad <= all && i < |ids| && ids[i] in bad
    requires forall k :: 0 <= k < i ==> ids[k] !in bad
    ensures Least(bad) == ids[i]
  {
    AscendingIsSorted(all);
    assert Least(bad) in ids;
    var k :| 0 <= k < |ids| && ids[k] == Least(bad);
  }

  /** Resolves every dependency in identifier order. */
  method Dependencies(t: Tree, s: nat, d: Definition) returns (r: Result<map<Id, nat>, ScopeError>)
    requires Parented(t) && s < |t.scopes|
    ensures r == ResolveDependencies(t, s, d)
  {
    hide Get, Parented;
    var ids := Ascending(d.dependencies);
    var found: map<Id, nat> := map[];
    var i := 0;
    while i < |ids|
      invariant 0 <= i <= |ids| && found.Keys <= d.dependencies
      invariant forall k :: 0 <= k < i ==> ids[k] in found && Get(t, s, ids[k]) == Some(found[ids[k]])
    {
      assert ids[i] in ids;
      var handle := Find(t, s, ids[i]);
      if handle == None {
        LeastIsFirst(d.dependencies, ids, Unresolved(t, s, d), i);
        return Err(MissingDependency(d.id, ids[i]));
      }
      found := found[ids[i] := handle.value];
      i := i + 1;
    }
    forall x | x in d.dependencies ensures x in found && Get(t, s, x) == Some(found[x]) {
      assert x in ids;
      var k :| 0 <= k < |ids| && ids[k] == x;
    }
    assert found.Keys == d.dependencies && Current(t, s, found);
    CurrentResolves(t, s, d, found);
    r := Ok(found);
  }

  /** Compares a snapshot with what is resolved now, in identifier order. */
  method FirstChange(t: Tree, s: nat, d: Definition, snapshot: map<Id, nat>, current: map<Id, nat>)
    returns (r: Option<Id>)
    requires snapshot.Keys == d.dependencies && ResolveDependencies(t, s, d) == Ok(current)
    ensures r == None <==> Changed(t, s, d, snapshot) == {}
    ensures r.Some? ==> r.value == Least(Changed(t, s, d, snapshot))
  {
    ResolvedAs(t, s, d);
    hide Get, ResolveDependencies;
    var ids := Ascending(d.dependencies);
    var i := 0;
    while i < |ids|
      invariant 0 <= i <= |ids|
      invariant forall k :: 0 <= k < i ==> ids[k] !in Changed(t, s, d, snapshot)
    {
      assert ids[i] in ids;
      if current[ids[i]] != snapshot[ids[i]] {
        LeastIsFirst(d.dependencies, ids, Changed(t, s, d, snapshot), i);
        return Some(ids[i]);
      }
      i := i + 1;
    }
    forall x | x in d.dependencies ensures x !in Changed(t, s, d, snapshot) {
      assert x in ids;
      var k :| 0 <= k < |ids| && ids[k] == x;
    }
    r := None;
  }

  // ---- The two phases of a publication ----

  /** The first phase: expectation, graph admission, and the snapshot to construct from. */
  method PreparePublication(t: Tree, s: nat, d: Definition, x: Expectation)
    returns (r: Result<map<Id, nat>, ScopeError>)
    requires Parented(t) && Housed(t) && s < |t.scopes|
    ensures r == Prepare(t, s, d, x)
  {
    hide ValidateCandidate, VisibleDefinitions, ResolveDependencies, Parented, Housed, CheckExpectation;
    var c := CheckExpectation(t, s, d.id, x);
    if c.Failed? { return Err(c.error); }
    var definitions := Visible(t, s);
    var v := Resolvers.Validate(definitions, d);
    if v.Err? { return Err(FromGraphError(v.error)); }
    r := Dependencies(t, s, d);
  }

  /**
   The checks of the second phase, in order: the snapshot is still current, the
   descendants admit the candidate, the expectation still holds, the scope's own
   graph admits it, and a generation is left.
   */
  method CheckPublication(t: Tree, s: nat, d: Definition, x: Expectation, snapshot: map<Id, nat>)
    returns (r: Result<nat, ScopeError>)
    requires Tidy(t) && s < |t.scopes| && snapshot.Keys == d.dependencies
    ensures r.Ok? ==> Publish(t, s, d, x, snapshot) == Ok(Insert(t, s, d, r.value, snapshot))
    ensures r.Err? ==> Publish(t, s, d, x, snapshot) == Err(r.error)
  {
    DescendantsExist(t, s);
    hide ValidateCandidate, VisibleDefinitions, ResolveDependencies, CheckExpectation, Descendants, AdmitDescendants,
         NextGeneration, Insert, Changed, Affects, Pinned, Parented, Housed, Upward;
    var current := Dependencies(t, s, d);
    if current.Err? { return Err(current.error); }
    var change := FirstChange(t, s, d, snapshot, current.value);
    if change.Some? { return Err(DependencyChanged(d.id, change.value)); }
    var admitted := Admit(t, s, d);
    if admitted.Failed? { return Err(admitted.error); }
    var c := CheckExpectation(t, s, d.id, x);
    if c.Failed? { return Err(c.error); }
    var definitions := Visible(t, s);
    var v := Resolvers.Validate(definitions, d);
    if v.Err? { return Err(FromGraphError(v.error)); }
    r := NextGeneration(t, s, d.id, x);
  }

  lemma {:induction false} DescendantsExist(t: Tree, s: nat)
    requires s < |t.scopes|
    ensures forall x :: x in Descendants(t, s) ==> x < |t.scopes|
    decreases |t.scopes| - s, 1, 0
  {
    DescendantsOfExist(t, s, t.scopes[s].children);
  }

  lemma {:induction false} DescendantsOfExist(t: Tree, s: nat, children: seq<nat>)
    requires s < |t.scopes|
    ensures forall x :: x in DescendantsOf(t, s, children) ==> x < |t.scopes|
    decreases |t.scopes| - s, 0, |children|
  {
    if children != [] {
      if s < children[0] < |t.scopes| { DescendantsExist(t, children[0]); }
      DescendantsOfExist(t, s, children[1..]);
    }
  }

  // ---- Release planning ----

  /** Adds one pinned definition and everything it leads to. */
  method AddSnapshot(t: Tree, e: nat, g0: Snapshot, bound: nat) returns (g: Snapshot)
    ensures g == InsertSnapshots(t, [e], g0, bound)
    decreases bound
  {
    assert [e][1..] == [];
    g := g0;
    if e in g.visited || e !in t.slots || e >= bound { return; }
    var slot := t.slots[e];
    g := g.(visited := g.visited + {e});
    if slot.definition.id !in g.definitions {
      g := g.(definitions := g.definitions[slot.definition.id := slot.definition]);
    }
    var pins := PinnedBy(slot);
    ghost var all := InsertSnapshots(t, pins, g, e);
    var i := 0;
    while i < |pins|
      invariant 0 <= i <= |pins|
      invariant InsertSnapshots(t, pins[i..], g, e) == all
    {
      WalkHead(t, pins[i..], g, e);
      assert pins[i..][1..] == pins[i + 1..];
      g := AddSnapshot(t, pins[i], g, e);
      i := i + 1;
    }
    assert pins[i..] == [];
  }

  lemma WalkHead(t: Tree, entries: seq<nat>, g: Snapshot, bound: nat)
    requires entries != []
    ensures InsertSnapshots(t, entries, g, bound) ==
      InsertSnapshots(t, entries[1..], InsertSnapshots(t, entries[..1], g, bound), bound)
  {
    assert entries[..1][1..] == [] && entries[..1][0] == entries[0];
  }

  /** Current definitions first, then what their instances still pin. */
  method ReleaseGraph(t: Tree, entries: map<Id, nat>) returns (definitions: Definitions)
    requires HousedEntries(t, entries)
    ensures definitions == RuntimeGraph(t, entries)
  {
    hide InsertSnapshots, PinnedBy, LocalDefinitions;
    definitions := Overlay(t, map[], entries);
    var g := Snapshot(definitions, entries.Values);
    assert map[] + LocalDefinitions(t, entries) == LocalDefinitions(t, entries);
    var ids := Ascending(entries.Keys);
    ghost var all := InsertSnapshots(t, PinnedByAll(t, entries, ids), g, t.nextEntry);
    var i := 0;
    while i < |ids|
      invariant 0 <= i <= |ids|
      invariant InsertSnapshots(t, PinnedByAll(t, entries, ids[i..]), g, t.nextEntry) == all
    {
      assert ids[i] in ids && entries[ids[i]] in t.slots;
      assert ids[i..][1..] == ids[i + 1..];
      var pins := PinnedBy(t.slots[entries[ids[i]]]);
      ghost var rest := PinnedByAll(t, entries, ids[i + 1..]);
      assert PinnedByAll(t, entries, ids[i..]) == pins + rest;
      var j := 0;
      assert pins[0..] == pins;
      while j < |pins|
        invariant 0 <= j <= |pins|
        invariant InsertSnapshots(t, pins[j..] + rest, g, t.nextEntry) == all
      {
        WalkHead(t, pins[j..] + rest, g, t.nextEntry);
        assert (pins[j..] + rest)[1..] == pins[j + 1..] + rest && (pins[j..] + rest)[..1] == [pins[j]];
        g := AddSnapshot(t, pins[j], g, t.nextEntry);
        j := j + 1;
      }
      assert pins[j..] + rest == rest;
      i := i + 1;
    }
    assert ids[i..] == [];
    WalkNothing(t, g, t.nextEntry);
    definitions := g.definitions;
  }

  lemma WalkNothing(t: Tree, g: Snapshot, bound: nat)
    ensures InsertSnapshots(t, [], g, bound) == g
  {
  }
}
