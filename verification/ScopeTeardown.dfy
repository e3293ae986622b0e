/** Release planning: what the teardown graph contains, and when it can be ordered. */
module ScopeTeardown {
  import opened Prelude
  import opened ResolverModel
  import opened ScopeModel
  import opened ScopeInvariants
  import opened ScopePublication
  import Digraph

  // ---- Pins ----

  lemma {:induction false} PinsListed(m: map<Id, nat>, ids: seq<Id>, e: nat)
    ensures e in PinsAt(m, ids) <==> exists x :: x in ids && x in m && m[x] == e
  {
    if ids != [] {
      PinsListed(m, ids[1..], e);
      assert ids == [ids[0]] + ids[1..];
      if e in PinsAt(m, ids) && e in PinsAt(m, ids[1..]) {
        var x :| x in ids[1..] && x in m && m[x] == e;
        assert x in ids;
      }
      if x :| x in ids && x in m && m[x] == e {
        assert x == ids[0] || x in ids[1..];
      }
    }
  }

  lemma PinnedByExactly(slot: Slot, e: nat)
    ensures e in PinnedBy(slot) <==> e in slot.dependencies.Values
  {
    PinsListed(slot.dependencies, Ascending(slot.dependencies.Keys), e);
    if e in slot.dependencies.Values {
      var x :| x in slot.dependencies && slot.dependencies[x] == e;
      assert x in Ascending(slot.dependencies.Keys);
    }
  }

  /** Every slot of the sequence is published and comes before `bound`. */
  ghost predicate Earlier(t: Tree, entries: seq<nat>, bound: nat) {
    forall e :: e in entries ==> e in t.slots && e < bound
  }

  lemma PinsAreEarlier(t: Tree, e: nat)
    requires Pinned(t.slots, t.nextEntry) && e in t.slots
    ensures Earlier(t, PinnedBy(t.slots[e]), e)
  {
    forall p | p in PinnedBy(t.slots[e]) ensures p in t.slots && p < e {
      PinnedByExactly(t.slots[e], p);
      var x :| x in t.slots[e].dependencies && t.slots[e].dependencies[x] == p;
    }
  }

  // ---- The snapshot walk ----

  /** The slot is in the walk with its definition's identifier. */
  ghost predicate Entered(t: Tree, g: Snapshot, e: nat) {
    e in g.visited && e in t.slots && t.slots[e].definition.id in g.definitions
  }

  /** Everything the walk has entered leads only to slots it has entered. */
  ghost predicate Walked(t: Tree, before: Snapshot, after: Snapshot) {
    && before.visited <= after.visited
    && (forall id :: id in before.definitions ==>
          id in after.definitions && after.definitions[id] == before.definitions[id])
    && (forall e :: e in after.visited && e !in before.visited ==>
          Entered(t, after, e) && t.slots[e].dependencies.Values <= after.visited)
    && (forall id :: id in after.definitions && id !in before.definitions ==> Supplied(t, before, after, id))
  }

  ghost predicate Supplied(t: Tree, before: Snapshot, after: Snapshot, id: Id) {
    id in after.definitions &&
    exists e ::
      && e in after.visited && e !in before.visited && e in t.slots
      && after.definitions[id] == t.slots[e].definition
  }

  lemma WalkedTwice(t: Tree, a: Snapshot, b: Snapshot, c: Snapshot)
    requires Walked(t, a, b) && Walked(t, b, c)
    ensures Walked(t, a, c)
  {
    forall id | id in c.definitions && id !in a.definitions ensures Supplied(t, a, c, id) {
      if id in b.definitions {
        assert Supplied(t, a, b, id);
        var e :| e in b.visited && e !in a.visited && e in t.slots && b.definitions[id] == t.slots[e].definition;
      } else {
        assert Supplied(t, b, c, id);
        var e :| e in c.visited && e !in b.visited && e in t.slots && c.definitions[id] == t.slots[e].definition;
      }
    }
  }

  /** Entering one slot, given the walk below it. */
  lemma WalkedBelow(t: Tree, g: Snapshot, e: nat, after: Snapshot)
    requires e in t.slots && e !in g.visited
    requires var d := t.slots[e].definition;
             var definitions := if d.id in g.definitions then g.definitions else g.definitions[d.id := d];
             Walked(t, Snapshot(definitions, g.visited + {e}), after)
    requires t.slots[e].dependencies.Values <= after.visited
    ensures Walked(t, g, after)
  {
    var d := t.slots[e].definition;
    var entered := Snapshot(if d.id in g.definitions then g.definitions else g.definitions[d.id := d], g.visited + {e});
    forall id | id in after.definitions && id !in g.definitions ensures Supplied(t, g, after, id) {
      if id == d.id {
        assert e in after.visited && after.definitions[id] == t.slots[e].definition;
      } else {
        assert Supplied(t, entered, after, id);
        var f :|
          && f in after.visited && f !in entered.visited && f in t.slots
          && after.definitions[id] == t.slots[f].definition;
      }
    }
  }

  lemma WalkedNowhere(t: Tree, g: Snapshot)
    ensures Walked(t, g, g)
  {
  }

  lemma {:induction false} WalkEntersAll(t: Tree, entries: seq<nat>, g: Snapshot, bound: nat)
    requires Pinned(t.slots, t.nextEntry) && Earlier(t, entries, bound)
    ensures Walked(t, g, InsertSnapshots(t, entries, g, bound))
    ensures forall e :: e in entries ==> e in InsertSnapshots(t, entries, g, bound).visited
    decreases bound, |entries|
  {
    hide Walked, Pinned, PinnedBy;
    if entries == [] {
      WalkedNowhere(t, g);
      return;
    }
    var e := entries[0];
    var r := InsertSnapshots(t, entries, g, bound);
    assert entries == [e] + entries[1..];
    assert forall x :: x in entries <==> x == e || x in entries[1..];
    if e in g.visited {
      WalkEntersAll(t, entries[1..], g, bound);
    } else {
      var slot := t.slots[e];
      var definitions :=
        if slot.definition.id in g.definitions then g.definitions
        else g.definitions[slot.definition.id := slot.definition];
      var entered := Snapshot(definitions, g.visited + {e});
      var below := InsertSnapshots(t, PinnedBy(slot), entered, e);
      PinsAreEarlier(t, e);
      WalkEntersAll(t, PinnedBy(slot), entered, e);
      forall p | p in slot.dependencies.Values ensures p in below.visited { PinnedByExactly(slot, p); }
      WalkedBelow(t, g, e, below);
      WalkEntersAll(t, entries[1..], below, bound);
      WalkedTwice(t, g, below, r);
      WalkedGrows(t, entered, below);
      WalkedGrows(t, below, r);
    }
    WalkedGrows(t, g, r);
  }

  lemma WalkedGrows(t: Tree, before: Snapshot, after: Snapshot)
    requires Walked(t, before, after)
    ensures before.visited <= after.visited
  {
  }

  lemma {:induction false} PinnedByAllListed(t: Tree, entries: map<Id, nat>, ids: seq<Id>, e: nat)
    ensures e in PinnedByAll(t, entries, ids) <==>
              exists x :: x in ids && x in entries && entries[x] in t.slots && e in PinnedBy(t.slots[entries[x]])
  {
    if ids != [] {
      PinnedByAllListed(t, entries, ids[1..], e);
      assert forall x :: x in ids <==> x == ids[0] || x in ids[1..];
    }
  }

  /** The walk that builds the teardown graph of some entries. */
  function TeardownWalk(t: Tree, entries: map<Id, nat>): Snapshot {
    InsertSnapshots(t, PinnedByAll(t, entries, Ascending(entries.Keys)),
                    Snapshot(LocalDefinitions(t, entries), entries.Values), t.nextEntry)
  }

  /** Entries of one scope: each has a slot for its identifier. */
  ghost predicate HousedEntries(t: Tree, entries: map<Id, nat>) {
    forall id :: id in entries ==> entries[id] in t.slots && t.slots[entries[id]].definition.id == id
  }

  lemma WalkIsComplete(t: Tree, entries: map<Id, nat>)
    requires Pinned(t.slots, t.nextEntry) && HousedEntries(t, entries)
    ensures Walked(t, Snapshot(LocalDefinitions(t, entries), entries.Values), TeardownWalk(t, entries))
    ensures forall e :: e in TeardownWalk(t, entries).visited ==>
              e in t.slots && t.slots[e].dependencies.Values <= TeardownWalk(t, entries).visited
  {
    hide InsertSnapshots, PinnedBy, LocalDefinitions;
    var list, w := PinnedByAll(t, entries, Ascending(entries.Keys)), TeardownWalk(t, entries);
    var start := Snapshot(LocalDefinitions(t, entries), entries.Values);
    forall e | e in list ensures e in t.slots && e < t.nextEntry {
      PinnedByAllListed(t, entries, Ascending(entries.Keys), e);
      var x :|
        && x in Ascending(entries.Keys) && x in entries && entries[x] in t.slots
        && e in PinnedBy(t.slots[entries[x]]);
      PinsAreEarlier(t, entries[x]);
    }
    WalkEntersAll(t, list, start, t.nextEntry);
    forall e, p | e in entries.Values && p in t.slots[e].dependencies.Values ensures p in w.visited {
      var x :| x in entries && entries[x] == e;
      PinnedByExactly(t.slots[e], p);
      assert x in Ascending(entries.Keys);
      PinnedByAllListed(t, entries, Ascending(entries.Keys), p);
    }
  }

  /** Current definitions win, and every definition of the graph belongs to a slot of the walk. */
  lemma GraphIsClosed(t: Tree, entries: map<Id, nat>)
    requires Pinned(t.slots, t.nextEntry) && HousedEntries(t, entries)
    ensures DependencyClosed(RuntimeGraph(t, entries))
  {
    hide InsertSnapshots, PinnedBy, Walked;
    WalkIsComplete(t, entries);
    var start, w := Snapshot(LocalDefinitions(t, entries), entries.Values), TeardownWalk(t, entries);
    assert RuntimeGraph(t, entries) == w.definitions;
    forall id, d | id in w.definitions && d in w.definitions[id].dependencies ensures d in w.definitions {
      var e := Supplier(t, start, w, id);
      var p := t.slots[e].dependencies[d];
      assert p in t.slots[e].dependencies.Values;
      HasIdentifier(t, start, w, p);
    }
  }

  /** A slot of the walk that supplied the definition kept for `id`. */
  lemma Supplier(t: Tree, start: Snapshot, w: Snapshot, id: Id) returns (e: nat)
    requires Walked(t, start, w) && id in w.definitions
    requires forall x :: x in start.definitions ==>
               exists f :: f in start.visited && f in t.slots && t.slots[f].definition == start.definitions[x]
    ensures e in w.visited && e in t.slots && t.slots[e].definition == w.definitions[id]
  {
    if id in start.definitions {
      e :| e in start.visited && e in t.slots && t.slots[e].definition == start.definitions[id];
    } else {
      assert Supplied(t, start, w, id);
      e :| e in w.visited && e !in start.visited && e in t.slots && w.definitions[id] == t.slots[e].definition;
    }
  }

  lemma HasIdentifier(t: Tree, start: Snapshot, w: Snapshot, p: nat)
    requires Walked(t, start, w) && p in w.visited && p in t.slots
    requires forall f :: f in start.visited && f in t.slots ==> t.slots[f].definition.id in start.definitions
    ensures t.slots[p].definition.id in w.definitions
  {
    if p !in start.visited { assert Entered(t, w, p); }
  }

  /** Planning a release fails exactly when the graph it is planned on has a cycle. */
  lemma TeardownPlanIsExact(t: Tree, s: nat)
    requires Sound(t) && s < |t.scopes| && t.scopes[s].open
    ensures Plannable(t, s) <==> Digraph.Acyclic(RelationOf(RuntimeGraph(t, t.scopes[s].entries)))
  {
    hide Resolve, RuntimeGraph, Digraph.Acyclic, Parented, Upward, Pinned;
    GraphIsClosed(t, t.scopes[s].entries);
    ResolveIsExact(RuntimeGraph(t, t.scopes[s].entries));
  }

  // ---- Teardown of a whole subtree ----

  lemma {:induction false} WalkUsesSlots(t: Tree, u: Tree, entries: seq<nat>, g: Snapshot, bound: nat)
    requires u.slots == t.slots
    ensures InsertSnapshots(u, entries, g, bound) == InsertSnapshots(t, entries, g, bound)
    decreases bound, |entries|
  {
    hide PinnedBy;
    if entries != [] {
      var e := entries[0];
      if e in g.visited || e !in t.slots || e >= bound {
        WalkUsesSlots(t, u, entries[1..], g, bound);
      } else {
        var slot := t.slots[e];
        var definitions :=
          if slot.definition.id in g.definitions then g.definitions
          else g.definitions[slot.definition.id := slot.definition];
        var entered := Snapshot(definitions, g.visited + {e});
        WalkUsesSlots(t, u, PinnedBy(slot), entered, e);
        WalkUsesSlots(t, u, entries[1..], InsertSnapshots(t, PinnedBy(slot), entered, e), bound);
      }
    }
  }

  lemma {:induction false} PinsUseSlots(t: Tree, u: Tree, entries: map<Id, nat>, ids: seq<Id>)
    requires u.slots == t.slots
    ensures PinnedByAll(u, entries, ids) == PinnedByAll(t, entries, ids)
    decreases |ids|
  {
    hide PinnedBy;
    if ids != [] { PinsUseSlots(t, u, entries, ids[1..]); }
  }

  /** Closing a scope does not change what is planned for another one. */
  lemma ClosingKeepsPlans(t: Tree, s: nat, x: nat)
    requires s < |t.scopes| && x < |t.scopes| && (x != s || !t.scopes[s].open)
    ensures |Close(t, s).scopes| == |t.scopes| && Plannable(Close(t, s), x) == Plannable(t, x)
  {
    hide InsertSnapshots, PinnedByAll, Resolve;
    var u, entries := Close(t, s), t.scopes[x].entries;
    if t.scopes[x].open {
      var start := Snapshot(LocalDefinitions(t, entries), entries.Values);
      PinsUseSlots(t, u, entries, Ascending(entries.Keys));
      WalkUsesSlots(t, u, PinnedByAll(t, entries, Ascending(entries.Keys)), start, t.nextEntry);
      assert LocalDefinitions(u, entries) == LocalDefinitions(t, entries);
    }
  }

  /** Some listed scope cannot be planned. */
  ghost predicate Blocked(t: Tree, order: seq<nat>) {
    exists x :: x in order && x < |t.scopes| && !Plannable(t, x)
  }

  /** Closing scopes in order panics exactly when one of them could not be planned at the start. */
  lemma {:induction false} CloseAllPanics(t: Tree, order: seq<nat>)
    requires !t.poisoned
    ensures CloseAll(t, order).poisoned <==> Blocked(t, order)
    decreases |order|
  {
    hide Plannable, Close;
    if order != [] {
      var s, rest := order[0], order[1..];
      assert order == [s] + rest;
      if s >= |t.scopes| {
        CloseAllPanics(t, rest);
      } else if Plannable(t, s) {
        ClosedFrame(t, s);
        CloseAllPanics(Close(t, s), rest);
        forall x: nat | x < |t.scopes| ensures !Plannable(Close(t, s), x) <==> !Plannable(t, x) {
          if x != s { ClosingKeepsPlans(t, s, x); }
        }
        BlockedLater(t, Close(t, s), s, rest);
      } else {
        assert s in order;
      }
    }
  }

  lemma ClosedFrame(t: Tree, s: nat)
    requires s < |t.scopes|
    ensures |Close(t, s).scopes| == |t.scopes| && Close(t, s).poisoned == t.poisoned && Plannable(Close(t, s), s)
  {
    hide RuntimeGraph, Resolves;
  }

  lemma BlockedLater(t: Tree, u: Tree, s: nat, rest: seq<nat>)
    requires |u.scopes| == |t.scopes| && s < |t.scopes| && Plannable(t, s)
    requires forall x: nat :: x < |t.scopes| ==> (Plannable(u, x) <==> Plannable(t, x))
    ensures Blocked(u, rest) <==> Blocked(t, [s] + rest)
  {
    hide Plannable;
    if Blocked(u, rest) {
      var x :| x in rest && x < |u.scopes| && !Plannable(u, x);
      assert x in [s] + rest && !Plannable(t, x);
    }
    if Blocked(t, [s] + rest) {
      var x :| x in [s] + rest && x < |t.scopes| && !Plannable(t, x);
      assert x in rest && !Plannable(u, x);
    }
  }

  /** The graph planned for an open scope has a cycle. */
  ghost predicate Tangled(t: Tree, x: nat) {
    x < |t.scopes| && t.scopes[x].open && !Digraph.Acyclic(RelationOf(RuntimeGraph(t, t.scopes[x].entries)))
  }

  /**
   Tearing down a scope panics exactly when, before the call, the graph planned
   for some open scope of the live subtree has a cycle.
   */
  lemma TeardownPanicIsExact(t: Tree, s: nat)
    requires Sound(t) && !t.poisoned && s < |t.scopes|
    ensures Teardown(t, s).poisoned <==> exists x :: x in ChildFirst(t, s) && Tangled(t, x)
  {
    hide Sound, ChildFirst, CloseAll, RuntimeGraph, Digraph.Acyclic, Resolves;
    CloseAllPanics(t, ChildFirst(t, s));
    forall x: nat | x < |t.scopes| ensures !Plannable(t, x) <==> Tangled(t, x) {
      if t.scopes[x].open { TeardownPlanIsExact(t, x); }
    }
  }

  // ---- Release plans ----

  /** The entries of one scope in the order its release drops them. */
  function PlanOf(t: Tree, entries: map<Id, nat>): seq<nat> {
    match Resolve(RuntimeGraph(t, entries))
    case Ok(order) => PinsAt(entries, TeardownOrder(order))
    case Err(_) => []
  }

  /** The entries a teardown drops, closing the scopes in order. */
  function PlannedDrops(t: Tree, order: seq<nat>): seq<nat>
    decreases |order|
  {
    if order == [] then []
    else if order[0] >= |t.scopes| then PlannedDrops(t, order[1..])
    else
      (if t.scopes[order[0]].open then PlanOf(t, t.scopes[order[0]].entries) else [])
      + PlannedDrops(Close(t, order[0]), order[1..])
  }

  lemma {:induction false} PinsAreDistinct(m: map<Id, nat>, ids: seq<Id>)
    requires Distinct(ids) && forall x, y :: x in m && y in m && m[x] == m[y] ==> x == y
    ensures Distinct(PinsAt(m, ids))
  {
    if ids != [] {
      var rest := PinsAt(m, ids[1..]);
      assert Distinct(ids[1..]) by {
        forall i, j | 0 <= i < j < |ids[1..]| ensures ids[1..][i] != ids[1..][j] { assert ids[i + 1] != ids[j + 1]; }
      }
      PinsAreDistinct(m, ids[1..]);
      if ids[0] in m {
        PinsListed(m, ids[1..], m[ids[0]]);
        forall k | 0 <= k < |ids[1..]| ensures ids[1..][k] != ids[0] { assert ids[k + 1] != ids[0]; }
        assert m[ids[0]] !in rest;
      }
    }
  }

  lemma EntriesAreInjective(t: Tree, entries: map<Id, nat>)
    requires HousedEntries(t, entries)
    ensures forall x, y :: x in entries && y in entries && entries[x] == entries[y] ==> x == y
  {
  }

  /** A plan drops every entry of the scope once. */
  lemma PlanDropsEach(t: Tree, entries: map<Id, nat>)
    requires Pinned(t.slots, t.nextEntry) && HousedEntries(t, entries) && Resolves(RuntimeGraph(t, entries))
    ensures Distinct(PlanOf(t, entries)) && Elements(PlanOf(t, entries)) == entries.Values
  {
    hide RuntimeGraph, Resolve, Pinned;
    var g := RuntimeGraph(t, entries);
    var order := Resolve(g).value;
    var ids := TeardownOrder(order);
    ResolveIsExact(g);
    LocalWins(t, entries);
    ReversedOrder(order);
    EntriesAreInjective(t, entries);
    PinsAreDistinct(entries, ids);
    forall e ensures e in PinsAt(entries, ids) <==> e in entries.Values {
      PinsListed(entries, ids, e);
      if e in entries.Values {
        var x :| x in entries && entries[x] == e;
        assert x in Elements(order);
      }
    }
  }

  lemma ReversedOrder(order: seq<Id>)
    requires Distinct(order)
    ensures Distinct(TeardownOrder(order)) && forall x :: x in TeardownOrder(order) <==> x in order
  {
    var r := TeardownOrder(order);
    forall x | x in order ensures x in r {
      var i :| 0 <= i < |order| && order[i] == x;
      assert r[|order| - 1 - i] == x;
    }
  }

  /** Current entries keep their own definitions in the graph. */
  lemma LocalWins(t: Tree, entries: map<Id, nat>)
    requires Pinned(t.slots, t.nextEntry) && HousedEntries(t, entries)
    ensures forall id :: id in entries ==>
      id in RuntimeGraph(t, entries) && RuntimeGraph(t, entries)[id] == t.slots[entries[id]].definition
  {
    hide InsertSnapshots, PinnedBy, Pinned;
    WalkIsComplete(t, entries);
  }

  lemma {:induction false} PinsKeepOrder(m: map<Id, nat>, ids: seq<Id>, i: nat, j: nat, p: nat, q: nat)
    requires Distinct(ids) && forall x, y :: x in m && y in m && m[x] == m[y] ==> x == y
    requires i < j < |ids| && ids[i] in m && ids[j] in m
    requires p < |PinsAt(m, ids)| && q < |PinsAt(m, ids)| && PinsAt(m, ids)[p] == m[ids[i]]
    requires PinsAt(m, ids)[q] == m[ids[j]]
    ensures p < q
  {
    PinsAreDistinct(m, ids);
    var tail := ids[1..];
    var plan, rest := PinsAt(m, ids), PinsAt(m, tail);
    assert plan == (if ids[0] in m then [m[ids[0]]] else []) + rest;
    assert Distinct(tail) by {
      forall a, b | 0 <= a < b < |tail| ensures tail[a] != tail[b] { assert ids[a + 1] != ids[b + 1]; }
    }
    if i == 0 {
      assert plan[0] == m[ids[0]] && p == 0;
      assert ids[j] != ids[0];
    } else {
      assert tail[i - 1] == ids[i] && tail[j - 1] == ids[j] && ids[0] != ids[i] && ids[0] != ids[j];
      if ids[0] in m {
        assert p > 0 && q > 0 && rest[p - 1] == plan[p] && rest[q - 1] == plan[q];
        PinsKeepOrder(m, tail, i - 1, j - 1, p - 1, q - 1);
      } else {
        PinsKeepOrder(m, tail, i - 1, j - 1, p, q);
      }
    }
  }

  /** A plan drops an entry before any entry its definition depends on. */
  lemma PlanDropsDependentsFirst(t: Tree, entries: map<Id, nat>, a: Id, b: Id, p: nat, q: nat)
    requires Pinned(t.slots, t.nextEntry) && HousedEntries(t, entries) && Resolves(RuntimeGraph(t, entries))
    requires a in entries && b in entries && b in t.slots[entries[a]].definition.dependencies
    requires p < |PlanOf(t, entries)| && q < |PlanOf(t, entries)| && PlanOf(t, entries)[p] == entries[a]
    requires PlanOf(t, entries)[q] == entries[b]
    ensures p < q
  {
    hide RuntimeGraph, Resolve, Pinned;
    var g := RuntimeGraph(t, entries);
    var order := Resolve(g).value;
    var ids := TeardownOrder(order);
    ResolveIsExact(g);
    LocalWins(t, entries);
    ReversedOrder(order);
    EntriesAreInjective(t, entries);
    assert a in Elements(order) && b in Elements(order);
    assert a in ids && b in ids;
    var i :| 0 <= i < |ids| && ids[i] == a;
    var j :| 0 <= j < |ids| && ids[j] == b;
    DependentsGoFirst(g, order, i, j);
    PinsKeepOrder(entries, ids, i, j, p, q);
  }

  // ---- The root scope ----

  /** Everything the slot leads to, itself included, is named by one of the identifiers. */
  ghost predicate Grounded(slots: map<nat, Slot>, ids: set<Id>, e: nat)
    decreases e
  {
    && e in slots && slots[e].definition.id in ids
    && forall d :: d in slots[e].dependencies ==>
      slots[e].dependencies[d] < e && Grounded(slots, ids, slots[e].dependencies[d])
  }

  lemma {:induction false} GroundedGrows(a: map<nat, Slot>, ids: set<Id>, b: map<nat, Slot>, more: set<Id>, e: nat)
    requires Grounded(a, ids, e) && ids <= more && (forall x :: x in a ==> x in b && b[x] == a[x])
    ensures Grounded(b, more, e)
    decreases e
  {
    forall d | d in b[e].dependencies ensures b[e].dependencies[d] < e && Grounded(b, more, b[e].dependencies[d]) {
      GroundedGrows(a, ids, b, more, a[e].dependencies[d]);
    }
  }

  /** A walk over grounded slots finds every identifier already present. */
  lemma {:induction false} WalkAddsNothing(t: Tree, entries: seq<nat>, g: Snapshot, bound: nat)
    requires forall e :: e in entries ==> Grounded(t.slots, g.definitions.Keys, e)
    ensures InsertSnapshots(t, entries, g, bound).definitions == g.definitions
    decreases bound, |entries|
  {
    if entries != [] {
      var e := entries[0];
      assert forall x :: x in entries[1..] ==> x in entries;
      assert Grounded(t.slots, g.definitions.Keys, e) by { assert e in entries; }
      if e in g.visited || e >= bound {
        WalkAddsNothing(t, entries[1..], g, bound);
      } else {
        var entered := Snapshot(g.definitions, g.visited + {e});
        forall p | p in PinnedBy(t.slots[e])
          ensures Grounded(t.slots, g.definitions.Keys, p)
        {
          PinnedByExactly(t.slots[e], p);
        }
        WalkAddsNothing(t, PinnedBy(t.slots[e]), entered, e);
        WalkAddsNothing(t, entries[1..], InsertSnapshots(t, PinnedBy(t.slots[e]), entered, e), bound);
      }
    }
  }

  /** The first scope is a root, and its entries lead only to identifiers it still provides. */
  ghost predicate RootGrounded(t: Tree) {
    && t.scopes != [] && t.scopes[0].parent.None?
    && forall id :: id in t.scopes[0].entries ==> Grounded(t.slots, t.scopes[0].entries.Keys, t.scopes[0].entries[id])
  }

  lemma RootGraphIsVisible(t: Tree)
    requires Sound(t) && RootGrounded(t) && t.scopes[0].open
    ensures RuntimeGraph(t, t.scopes[0].entries) == VisibleDefinitions(t, 0)
  {
    hide InsertSnapshots, PinnedBy, Grounded, Pinned, Parented, Upward;
    var entries := t.scopes[0].entries;
    var list, start :=
      PinnedByAll(t, entries, Ascending(entries.Keys)), Snapshot(LocalDefinitions(t, entries), entries.Values);
    assert start.definitions.Keys == entries.Keys;
    forall e | e in list ensures Grounded(t.slots, start.definitions.Keys, e) {
      PinnedByAllListed(t, entries, Ascending(entries.Keys), e);
      var x :|
        && x in Ascending(entries.Keys) && x in entries && entries[x] in t.slots
        && e in PinnedBy(t.slots[entries[x]]);
      PinnedByExactly(t.slots[entries[x]], e);
      GroundedBelow(t.slots, entries.Keys, entries[x], e);
    }
    WalkAddsNothing(t, list, start, t.nextEntry);
    assert VisibleDefinitions(t, 0) == map[] + start.definitions;
  }

  lemma GroundedBelow(slots: map<nat, Slot>, ids: set<Id>, e: nat, p: nat)
    requires Grounded(slots, ids, e) && p in slots[e].dependencies.Values
    ensures Grounded(slots, ids, p)
  {
  }

  lemma InsertKeepsGrounded(t: Tree, s: nat, d: Definition, generation: nat, snapshot: map<Id, nat>)
    requires Tidy(t) && RootGrounded(t) && s < |t.scopes| && Holds(t, d, snapshot)
    requires s == 0 ==> t.scopes[0].open && forall y :: y in snapshot ==> Get(t, 0, y) == Some(snapshot[y])
    ensures RootGrounded(Insert(t, s, d, generation, snapshot))
  {
    hide Parented, Housed, Upward, Grounded;
    var u := Insert(t, s, d, generation, snapshot);
    var before, after := t.scopes[0].entries, u.scopes[0].entries;
    assert t.nextEntry !in t.slots && forall y :: y in snapshot ==> snapshot[y] < t.nextEntry;
    hide Pinned, Holds;
    forall id | id in before ensures Grounded(u.slots, after.Keys, before[id]) {
      GroundedGrows(t.slots, before.Keys, u.slots, after.Keys, before[id]);
    }
    if s == 0 {
      forall y | y in snapshot ensures snapshot[y] < t.nextEntry && Grounded(u.slots, after.Keys, snapshot[y]) {
        assert y in before && before[y] == snapshot[y];
      }
      GroundedEntry(u.slots, after.Keys, t.nextEntry);
    }
  }

  lemma GroundedEntry(slots: map<nat, Slot>, ids: set<Id>, e: nat)
    requires e in slots && slots[e].definition.id in ids
    requires forall d :: d in slots[e].dependencies ==>
      slots[e].dependencies[d] < e && Grounded(slots, ids, slots[e].dependencies[d])
    ensures Grounded(slots, ids, e)
  {
  }

  lemma PublishKeepsGrounded(t: Tree, s: nat, d: Definition, x: Expectation, snapshot: map<Id, nat>)
    requires Tidy(t) && RootGrounded(t) && s < |t.scopes| && Holds(t, d, snapshot) && Publish(t, s, d, x, snapshot).Ok?
    ensures RootGrounded(Publish(t, s, d, x, snapshot).value)
  {
    hide *;
    PublishedIsCurrent(t, s, d, x, snapshot);
    PublicationInserts(t, s, d, x, snapshot);
    CurrentAt(t, s, snapshot);
    InsertKeepsGrounded(t, s, d, NextGeneration(t, s, d.id, x).value, snapshot);
  }

  lemma CurrentAt(t: Tree, s: nat, snapshot: map<Id, nat>)
    requires Current(t, s, snapshot)
    ensures forall y :: y in snapshot ==> Get(t, s, y) == Some(snapshot[y])
  {
  }

  lemma ClosingKeepsGrounded(t: Tree, u: Tree)
    requires RootGrounded(t) && ClosesSome(t, u)
    ensures RootGrounded(u)
  {
    hide Grounded;
  }

  lemma ExecuteKeepsGrounded(t: Tree, c: Command)
    requires Sound(t) && RootGrounded(t) && !c.WithdrawFrom?
    ensures RootGrounded(Execute(t, c))
  {
    hide Shaped, Upward, Publish, Teardown, Forget, Child, Holds, RootGrounded;
    if Enabled(t, c) {
      match c
      case ChildOf(s) => ChildKeepsGrounded(t, s);
      case Commit(s, d, x, snapshot) =>
        if Publish(t, s, d, x, snapshot).Ok? { PublishKeepsGrounded(t, s, d, x, snapshot); }
      case TearDown(s) => TeardownClosesSome(t, s); ClosingKeepsGrounded(t, Teardown(t, s));
      case ForgetScope(s) => ForgetCloses(t, s); ClosingKeepsGrounded(t, Forget(t, s));
    }
  }

  lemma ChildKeepsGrounded(t: Tree, s: nat)
    requires RootGrounded(t) && s < |t.scopes|
    ensures RootGrounded(Child(t, s))
  {
    hide Child, Grounded;
    ChildFrame(t, s, 0);
  }

  /** Without withdrawals, the release of the root scope can always be planned. */
  lemma {:induction false} RootIsPlannable(commands: seq<Command>)
    requires forall i :: 0 <= i < |commands| ==> !commands[i].WithdrawFrom?
    ensures var t := ExecuteAll(Root, commands);
            RootGrounded(t) && (!t.poisoned ==> Plannable(t, 0))
    decreases |commands|
  {
    hide Execute, RootGrounded, Sound, AllResolve, Plannable;
    VisibleGraphsResolve(commands);
    var t := ExecuteAll(Root, commands);
    if commands == [] {
      RootStartsGrounded();
    } else {
      var before := commands[..|commands| - 1];
      RootIsPlannable(before);
      VisibleGraphsResolve(before);
      ExecuteKeepsGrounded(ExecuteAll(Root, before), commands[|commands| - 1]);
    }
    if !t.poisoned { GroundedIsPlannable(t); }
  }

  lemma RootStartsGrounded()
    ensures RootGrounded(Root)
  {
  }

  lemma GroundedIsPlannable(t: Tree)
    requires Sound(t) && RootGrounded(t) && AllResolve(t)
    ensures Plannable(t, 0)
  {
    hide Shaped, Upward, Grounded, RuntimeGraph, VisibleDefinitions, Resolves;
    if t.scopes[0].open { RootGraphIsVisible(t); }
  }

  /** A tree that never grows a child and never withdraws is never poisoned by its own teardown. */
  lemma {:induction false} RootOnlyRunsNeverPanic(commands: seq<Command>)
    requires forall i :: 0 <= i < |commands| ==> !commands[i].WithdrawFrom? && !commands[i].ChildOf?
    ensures var t := ExecuteAll(Root, commands);
            !t.poisoned && |t.scopes| == 1 && t.scopes[0].children == []
    decreases |commands|
  {
    hide Plannable, Publish, Holds, Forget, Resolves;
    if commands != [] {
      var before := commands[..|commands| - 1];
      RootOnlyRunsNeverPanic(before);
      RootIsPlannable(before);
      var t, c := ExecuteAll(Root, before), commands[|commands| - 1];
      RootOnlyStep(t, c);
    }
  }

  lemma RootOnlyStep(t: Tree, c: Command)
    requires !t.poisoned && |t.scopes| == 1 && t.scopes[0].children == [] && Plannable(t, 0)
    requires !c.WithdrawFrom? && !c.ChildOf?
    ensures var u := Execute(t, c);
            !u.poisoned && |u.scopes| == 1 && u.scopes[0].children == []
  {
    hide Plannable, Publish, Holds;
    if Enabled(t, c) {
      match c
      case Commit(s, d, x, snapshot) =>
        if Publish(t, s, d, x, snapshot).Ok? { PublicationInserts(t, s, d, x, snapshot); }
      case TearDown(s) =>
        assert ChildFirst(t, 0) == [0];
        assert [0][1..] == [];
        assert CloseAll(t, [0]) == CloseAll(Close(t, 0), []);
      case ForgetScope(s) =>
    }
  }
}
