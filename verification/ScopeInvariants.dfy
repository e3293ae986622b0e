/** What every step on a scope tree keeps: its shape, and that visible graphs resolve. */
module ScopeInvariants {
  import opened Prelude
  import opened ResolverModel
  import opened ScopeModel
  import Digraph

  /** Closing spreads downwards and liveness upwards. */
  ghost predicate Upward(t: Tree) {
    && (forall i :: 0 <= i < |t.scopes| && t.scopes[i].open ==> t.scopes[i].live)
    && (forall i :: 0 <= i < |t.scopes| && t.scopes[i].parent.Some? && t.scopes[i].parent.value < |t.scopes| ==>
          && (t.scopes[i].live ==> t.scopes[t.scopes[i].parent.value].live)
          && (t.scopes[i].open ==> t.scopes[t.scopes[i].parent.value].open))
  }

  ghost predicate Tidy(t: Tree) {
    Shaped(t) && Upward(t) && t.scopes != []
  }

  /** Every open scope's visible definitions resolve. */
  ghost predicate AllResolve(t: Tree) {
    forall i :: 0 <= i < |t.scopes| && t.scopes[i].open ==> Resolves(VisibleDefinitions(t, i))
  }

  // ---- Descendants ----

  predicate Below(t: Tree, s: nat, d: nat)
    decreases d
  {
    || d == s
    || (d < |t.scopes| && t.scopes[d].parent.Some? && t.scopes[d].parent.value < d
        && Below(t, s, t.scopes[d].parent.value))
  }

  /** The child of `s` through which a proper descendant is reached. */
  lemma {:induction false} StepDown(t: Tree, s: nat, d: nat) returns (c: nat)
    requires Tidy(t) && s < |t.scopes| && d < |t.scopes| && d != s && Below(t, s, d)
    ensures c in t.scopes[s].children && s < c <= d && Below(t, c, d)
    ensures t.scopes[d].live ==> t.scopes[c].live
    decreases d
  {
    var p := t.scopes[d].parent.value;
    assert d in t.scopes[p].children;
    if p == s {
      c := d;
    } else {
      c := StepDown(t, s, p);
    }
  }

  lemma {:induction false} ChildListed(t: Tree, s: nat, children: seq<nat>, c: nat)
    requires s < c < |t.scopes| && c in children && t.scopes[c].live
    ensures c in DescendantsOf(t, s, children)
    ensures forall x :: x in Descendants(t, c) ==> x in DescendantsOf(t, s, children)
    ensures forall x :: x in ChildFirst(t, c) ==> x in ChildFirstOf(t, s, children)
    decreases |children|
  {
    if children[0] != c {
      assert c in children[1..];
      ChildListed(t, s, children[1..], c);
    }
  }

  /** Both traversals reach every live descendant. */
  lemma {:induction false} DescendantListed(t: Tree, s: nat, d: nat)
    requires Tidy(t) && s < |t.scopes| && d < |t.scopes| && t.scopes[d].live && Below(t, s, d)
    ensures d != s ==> d in Descendants(t, s)
    ensures d in ChildFirst(t, s)
    decreases d - s
  {
    if d != s {
      var c := StepDown(t, s, d);
      DescendantListed(t, c, d);
      ChildListed(t, s, t.scopes[s].children, c);
    } else {
      assert ChildFirst(t, s)[|ChildFirst(t, s)| - 1] == s;
    }
  }

  lemma {:induction false} AffectedIsBelow(t: Tree, s: nat, d: nat, id: Id)
    requires Affects(t, s, d, id)
    ensures Below(t, s, d) && s <= d
    decreases d
  {
    if d != s { AffectedIsBelow(t, s, t.scopes[d].parent.value, id); }
  }

  // ---- Visibility after a publication ----

  lemma LocalAfterInsert(t: Tree, s: nat, d: Definition, generation: nat, snapshot: map<Id, nat>, x: nat)
    requires Shaped(t) && s < |t.scopes| && x < |t.scopes|
    ensures var u := Insert(t, s, d, generation, snapshot);
            LocalDefinitions(u, u.scopes[x].entries) ==
              if x == s then LocalDefinitions(t, t.scopes[x].entries)[d.id := d]
              else LocalDefinitions(t, t.scopes[x].entries)
  {
    var u := Insert(t, s, d, generation, snapshot);
    assert t.nextEntry !in t.slots;
    forall id | id in t.scopes[x].entries && (x != s || id != d.id)
      ensures id in u.scopes[x].entries && u.scopes[x].entries[id] == t.scopes[x].entries[id]
      ensures u.slots[t.scopes[x].entries[id]] == t.slots[t.scopes[x].entries[id]]
    {
      assert t.scopes[x].entries[id] in t.slots;
    }
  }

  lemma UpdateLayered<V>(lower: map<Id, V>, upper: map<Id, V>, id: Id, v: V)
    ensures lower + upper[id := v] == (lower + upper)[id := v]
    ensures id !in upper ==> lower[id := v] + upper == (lower + upper)[id := v]
    ensures id in upper ==> lower[id := v] + upper == lower + upper
  {
  }

  /** One layer of a scope's view, from the layer below it and its own entries. */
  lemma VisibleLayer(t: Tree, x: nat)
    requires Shaped(t) && x < |t.scopes| && t.scopes[x].open
    ensures VisibleDefinitions(t, x) == Inherited(t, x) + LocalDefinitions(t, t.scopes[x].entries)
    ensures t.scopes[x].parent.Some? ==>
      t.scopes[x].parent.value < x && Inherited(t, x) == VisibleDefinitions(t, t.scopes[x].parent.value)
    ensures t.scopes[x].parent.None? ==> Inherited(t, x) == map[]
    ensures LocalDefinitions(t, t.scopes[x].entries).Keys == t.scopes[x].entries.Keys
  {
    forall id | id in t.scopes[x].entries ensures t.scopes[x].entries[id] in t.slots { }
  }

  lemma InsertFrame(t: Tree, s: nat, d: Definition, generation: nat, snapshot: map<Id, nat>, x: nat)
    requires s < |t.scopes| && x < |t.scopes|
    ensures var u := Insert(t, s, d, generation, snapshot);
            && |u.scopes| == |t.scopes| && u.scopes[x].open == t.scopes[x].open
            && u.scopes[x].parent == t.scopes[x].parent
            && u.scopes[x].live == t.scopes[x].live && u.scopes[x].children == t.scopes[x].children
            && u.scopes[x].entries == (if x == s then t.scopes[x].entries[d.id := t.nextEntry] else t.scopes[x].entries)
  {
  }

  lemma InsertedViewLayer(t: Tree, s: nat, d: Definition, generation: nat, snapshot: map<Id, nat>, x: nat)
    requires Tidy(t) && s < |t.scopes| && x < |t.scopes| && t.scopes[x].open
    ensures var u := Insert(t, s, d, generation, snapshot);
            && VisibleDefinitions(u, x) == Inherited(u, x) + LocalDefinitions(u, u.scopes[x].entries)
            && (t.scopes[x].parent.Some? ==> Inherited(u, x) == VisibleDefinitions(u, t.scopes[x].parent.value))
            && (t.scopes[x].parent.None? ==> Inherited(u, x) == map[])
  {
    hide LocalDefinitions, Upward, Affects;
    InsertFrame(t, s, d, generation, snapshot, x);
  }

  /** A publication changes what a scope sees exactly where it is not shadowed. */
  lemma {:induction false} VisibleAfterInsert(t: Tree, s: nat, d: Definition, generation: nat, snapshot: map<Id, nat>,
                                              x: nat)
    requires Tidy(t) && s < |t.scopes| && t.scopes[s].open && x < |t.scopes|
    ensures var u := Insert(t, s, d, generation, snapshot);
            VisibleDefinitions(u, x) ==
              if Affects(t, s, x, d.id) && t.scopes[x].open then VisibleDefinitions(t, x)[d.id := d]
              else VisibleDefinitions(t, x)
    decreases x
  {
    hide Resolves, Insert, LocalDefinitions, Inherited, Shaped;
    var u := Insert(t, s, d, generation, snapshot);
    InsertFrame(t, s, d, generation, snapshot, x);
    if t.scopes[x].open {
      LocalAfterInsert(t, s, d, generation, snapshot, x);
      VisibleLayer(t, x);
      InsertedViewLayer(t, s, d, generation, snapshot, x);
      var local := LocalDefinitions(t, t.scopes[x].entries);
      if t.scopes[x].parent.Some? {
        var p := t.scopes[x].parent.value;
        VisibleAfterInsert(t, s, d, generation, snapshot, p);
        UpdateLayered(VisibleDefinitions(t, p), local, d.id, d);
        if x == s && Affects(t, s, p, d.id) { AffectedIsBelow(t, s, p, d.id); }
        assert t.scopes[p].open;
      } else {
        UpdateLayered(map[], local, d.id, d);
      }
    }
  }

  lemma {:induction false} AdmittedDescendant(t: Tree, s: nat, d: Definition, list: seq<nat>, x: nat)
    requires AdmitDescendants(t, s, d, list) == Done
    requires x in list && x < |t.scopes| && t.scopes[x].open && Affects(t, s, x, d.id)
    ensures Resolves(VisibleDefinitions(t, x)[d.id := d])
  {
    if list[0] != x {
      assert x in list[1..];
      AdmittedDescendant(t, s, d, list[1..], x);
    }
  }

  /** Checking the scope and the open descendants a candidate affects is enough for every scope of the tree. */
  lemma PublishKeepsResolving(t: Tree, s: nat, d: Definition, x: Expectation, snapshot: map<Id, nat>)
    requires Tidy(t) && AllResolve(t) && s < |t.scopes| && Publish(t, s, d, x, snapshot).Ok?
    ensures AllResolve(Publish(t, s, d, x, snapshot).value)
  {
    hide Resolves, Shaped, Affects, VisibleDefinitions, AdmitDescendants, ResolveDependencies, Descendants, Inherited;
    var u := Publish(t, s, d, x, snapshot).value;
    var generation := NextGeneration(t, s, d.id, x).value;
    assert u == Insert(t, s, d, generation, snapshot);
    forall i | 0 <= i < |u.scopes| && u.scopes[i].open ensures Resolves(VisibleDefinitions(u, i)) {
      VisibleAfterInsert(t, s, d, generation, snapshot, i);
      assert t.scopes[i].open;
      if Affects(t, s, i, d.id) {
        AffectedIsBelow(t, s, i, d.id);
        DescendantListed(t, s, i);
        if i != s {
          AdmittedDescendant(t, s, d, Descendants(t, s), i);
        } else {
          ValidatedResolves(t, s, d);
        }
      }
    }
  }

  lemma ValidatedResolves(t: Tree, s: nat, d: Definition)
    requires ValidateCandidate(VisibleDefinitions(t, s), d).Ok?
    ensures Resolves(VisibleDefinitions(t, s)[d.id := d])
  {
  }

  // ---- Visibility under the other steps ----

  /** Scopes that keep their parents, entries and openness all the way up see what they saw. */
  lemma {:induction false} VisibleFrame(t: Tree, u: Tree, x: nat)
    requires x < |t.scopes| && x < |u.scopes| && t.slots == u.slots
    requires forall i :: 0 <= i <= x && Below(t, i, x) ==>
               && t.scopes[i].parent == u.scopes[i].parent && t.scopes[i].entries == u.scopes[i].entries
               && t.scopes[i].open == u.scopes[i].open
    ensures VisibleDefinitions(t, x) == VisibleDefinitions(u, x)
    decreases x
  {
    assert Below(t, x, x);
    if t.scopes[x].parent.Some? && t.scopes[x].parent.value < x {
      var p := t.scopes[x].parent.value;
      forall i | 0 <= i <= p && Below(t, i, p) ensures Below(t, i, x) { }
      VisibleFrame(t, u, p);
    }
  }

  lemma ChildFrame(t: Tree, s: nat, i: nat)
    requires s < |t.scopes| && i < |t.scopes|
    ensures var u := Child(t, s);
            && |u.scopes| == |t.scopes| + 1 && u.slots == t.slots && u.nextEntry == t.nextEntry
            && u.poisoned == t.poisoned
            && u.scopes[i].parent == t.scopes[i].parent && u.scopes[i].entries == t.scopes[i].entries
            && u.scopes[i].open == t.scopes[i].open && u.scopes[i].live == t.scopes[i].live
            && u.scopes[i].children == (if i == s then t.scopes[i].children + [|t.scopes|] else t.scopes[i].children)
            && u.scopes[|t.scopes|] == Scope(Some(s), map[], t.scopes[s].open, true, [])
  {
  }

  lemma ViewAfterChild(t: Tree, s: nat, i: nat)
    requires s < |t.scopes| && i < |t.scopes|
    ensures VisibleDefinitions(Child(t, s), i) == VisibleDefinitions(t, i)
  {
    hide Child, VisibleDefinitions;
    ChildFrame(t, s, s);
    forall j | 0 <= j <= i && Below(t, j, i)
      ensures t.scopes[j].parent == Child(t, s).scopes[j].parent && t.scopes[j].entries == Child(t, s).scopes[j].entries
      ensures t.scopes[j].open == Child(t, s).scopes[j].open
    {
      ChildFrame(t, s, j);
    }
    VisibleFrame(t, Child(t, s), i);
  }

  lemma EmptyView(t: Tree, s: nat)
    requires s < |t.scopes| && t.scopes[s].parent.None? && t.scopes[s].entries == map[]
    ensures VisibleDefinitions(t, s) == map[]
  {
    hide VisibleDefinitions, LocalDefinitions;
    NoLocal(t);
    if t.scopes[s].open { OpenView(t, s); } else { ClosedView(t, s); }
  }

  lemma OpenView(t: Tree, x: nat)
    requires x < |t.scopes| && t.scopes[x].open
    ensures VisibleDefinitions(t, x) == Inherited(t, x) + LocalDefinitions(t, t.scopes[x].entries)
  {
    hide LocalDefinitions, Inherited;
  }

  lemma ClosedView(t: Tree, x: nat)
    requires x < |t.scopes| && !t.scopes[x].open
    ensures VisibleDefinitions(t, x) == map[]
  {
  }

  lemma InheritedView(t: Tree, x: nat, p: nat)
    requires x < |t.scopes| && t.scopes[x].parent == Some(p) && p < x
    ensures Inherited(t, x) == VisibleDefinitions(t, p)
  {
    hide VisibleDefinitions;
  }

  lemma NoLocal(t: Tree)
    ensures LocalDefinitions(t, map[]) == map[]
  {
  }

  lemma EmptyLayer(u: Tree, c: nat, p: nat)
    requires c < |u.scopes| && p < c && u.scopes[c].parent == Some(p) && u.scopes[c].entries == map[]
    requires u.scopes[c].open == u.scopes[p].open
    ensures VisibleDefinitions(u, c) == VisibleDefinitions(u, p)
  {
    hide *;
    NoLocal(u);
    InheritedView(u, c, p);
    if u.scopes[c].open {
      OpenView(u, c);
      assert VisibleDefinitions(u, p) + map[] == VisibleDefinitions(u, p);
    } else {
      ClosedView(u, c);
      ClosedView(u, p);
    }
  }

  /** A new child sees what its parent sees. */
  lemma ChildSeesParent(t: Tree, s: nat)
    requires s < |t.scopes|
    ensures VisibleDefinitions(Child(t, s), |t.scopes|) == VisibleDefinitions(t, s)
  {
    hide Child, VisibleDefinitions;
    ChildFrame(t, s, s);
    ViewAfterChild(t, s, s);
    EmptyLayer(Child(t, s), |t.scopes|, s);
  }

  lemma ChildKeepsResolving(t: Tree, s: nat)
    requires Tidy(t) && AllResolve(t) && s < |t.scopes|
    ensures AllResolve(Child(t, s))
  {
    hide Resolves, Shaped, Upward, Child, VisibleDefinitions;
    var u := Child(t, s);
    forall i | 0 <= i < |u.scopes| && u.scopes[i].open ensures Resolves(VisibleDefinitions(u, i)) {
      ChildFrame(t, s, s);
      if i < |t.scopes| {
        ChildFrame(t, s, i);
        ViewAfterChild(t, s, i);
      } else {
        ChildSeesParent(t, s);
      }
    }
  }

  /** Every ancestor of an open scope is open. */
  lemma {:induction false} OpenAbove(t: Tree, i: nat, x: nat)
    requires Upward(t) && x < |t.scopes| && t.scopes[x].open && Below(t, i, x)
    ensures i <= x && t.scopes[i].open
    decreases x
  {
    if i != x { OpenAbove(t, i, t.scopes[x].parent.value); }
  }

  /** `u` differs from `t` only in scopes that are closed in `u`. */
  ghost predicate ClosesSome(t: Tree, u: Tree) {
    && |u.scopes| == |t.scopes| && u.slots == t.slots && u.nextEntry == t.nextEntry
    && forall i :: 0 <= i < |t.scopes| ==>
         && u.scopes[i].parent == t.scopes[i].parent && u.scopes[i].children == t.scopes[i].children
         && (u.scopes[i] == t.scopes[i] || (!u.scopes[i].open && u.scopes[i].entries == map[]))
  }

  lemma ClosingKeepsResolving(t: Tree, u: Tree)
    requires Tidy(t) && AllResolve(t) && ClosesSome(t, u) && Upward(u)
    ensures AllResolve(u)
  {
    hide Resolves, Shaped;
    forall x | 0 <= x < |u.scopes| && u.scopes[x].open ensures Resolves(VisibleDefinitions(u, x)) {
      forall i | 0 <= i <= x && Below(t, i, x)
        ensures t.scopes[i].parent == u.scopes[i].parent && t.scopes[i].entries == u.scopes[i].entries
        ensures t.scopes[i].open == u.scopes[i].open
      {
        BelowFrame(t, u, i, x);
        OpenAbove(u, i, x);
      }
      VisibleFrame(t, u, x);
    }
  }

  lemma {:induction false} BelowFrame(t: Tree, u: Tree, i: nat, x: nat)
    requires ClosesSome(t, u)
    ensures Below(t, i, x) == Below(u, i, x)
    decreases x
  {
    if x != i && x < |t.scopes| && t.scopes[x].parent.Some? && t.scopes[x].parent.value < x {
      BelowFrame(t, u, i, t.scopes[x].parent.value);
    }
  }

  // ---- Teardown ----

  lemma {:induction false} CloseAllCloses(t: Tree, order: seq<nat>)
    ensures ClosesSome(t, CloseAll(t, order))
    ensures forall i :: 0 <= i < |t.scopes| ==> CloseAll(t, order).scopes[i].live == t.scopes[i].live
    ensures forall i :: 0 <= i < |t.scopes| && CloseAll(t, order).scopes[i] != t.scopes[i] ==> i in order
    ensures !CloseAll(t, order).poisoned ==>
              !t.poisoned && forall i :: 0 <= i < |t.scopes| && i in order ==> !CloseAll(t, order).scopes[i].open
    decreases |order|
  {
    hide Plannable;
    if order != [] && order[0] < |t.scopes| && Plannable(t, order[0]) {
      CloseAllCloses(Close(t, order[0]), order[1..]);
    } else if order != [] && order[0] >= |t.scopes| {
      CloseAllCloses(t, order[1..]);
    }
  }

  lemma TeardownKeepsUpward(t: Tree, s: nat)
    requires Tidy(t) && s < |t.scopes| && !Teardown(t, s).poisoned
    ensures Upward(Teardown(t, s)) && ClosesSome(t, Teardown(t, s))
  {
    hide Shaped, ChildFirst, CloseAll;
    var order, u := ChildFirst(t, s), Teardown(t, s);
    CloseAllCloses(t, order);
    forall i |
      && 0 <= i < |u.scopes| && u.scopes[i].open
      && u.scopes[i].parent.Some? && u.scopes[i].parent.value < |u.scopes|
      ensures u.scopes[u.scopes[i].parent.value].open
    {
      var p := u.scopes[i].parent.value;
      if !u.scopes[p].open { OnlyBelowIsClosed(t, s, i, p); }
    }
  }

  /** A scope left open was not below the scope torn down, so neither was its parent. */
  lemma OnlyBelowIsClosed(t: Tree, s: nat, i: nat, p: nat)
    requires Tidy(t) && s < |t.scopes| && i < |t.scopes| && t.scopes[i].parent == Some(p)
    requires t.scopes[i].open && i !in ChildFirst(t, s)
    ensures p !in ChildFirst(t, s)
  {
    if p in ChildFirst(t, s) {
      ChildFirstIsBelow(t, s, p);
      assert Below(t, s, i);
      DescendantListed(t, s, i);
    }
  }

  lemma {:induction false} ChildFirstIsBelow(t: Tree, s: nat, x: nat)
    requires Shaped(t) && s < |t.scopes| && x in ChildFirst(t, s)
    ensures Below(t, s, x) && s <= x < |t.scopes|
    decreases |t.scopes| - s, 1, 0
  {
    if x in ChildFirstOf(t, s, t.scopes[s].children) {
      ChildFirstOfIsBelow(t, s, t.scopes[s].children, x);
    }
  }

  lemma {:induction false} ChildFirstOfIsBelow(t: Tree, s: nat, children: seq<nat>, x: nat)
    requires Shaped(t) && s < |t.scopes| && x in ChildFirstOf(t, s, children)
    requires forall c :: c in children ==> c in t.scopes[s].children
    ensures Below(t, s, x) && s <= x < |t.scopes|
    decreases |t.scopes| - s, 0, |children|
  {
    var c := children[0];
    assert c in children;
    if s < c < |t.scopes| && t.scopes[c].live && x in ChildFirst(t, c) {
      ChildFirstIsBelow(t, c, x);
      BelowIsTransitive(t, s, c, x);
    } else {
      ChildFirstOfIsBelow(t, s, children[1..], x);
    }
  }

  lemma {:induction false} BelowIsTransitive(t: Tree, s: nat, c: nat, x: nat)
    requires Shaped(t) && c < |t.scopes| && t.scopes[c].parent == Some(s) && s < c && Below(t, c, x)
    ensures Below(t, s, x)
    decreases x
  {
    if x != c { BelowIsTransitive(t, s, c, t.scopes[x].parent.value); }
  }

  // ---- Every step ----

  /** What holds of every tree a run reaches. */
  ghost predicate Sound(t: Tree) {
    Shaped(t) && t.scopes != [] && (!t.poisoned ==> Upward(t))
  }

  /** The links and gates of the scopes are as before; only entries may differ. */
  ghost predicate SameScopes(t: Tree, u: Tree) {
    |u.scopes| == |t.scopes| && forall i :: 0 <= i < |t.scopes| ==> SameLinks(t.scopes[i], u.scopes[i])
  }

  predicate SameLinks(a: Scope, b: Scope) {
    a.parent == b.parent && a.children == b.children && a.open == b.open && a.live == b.live
  }

  lemma LinksFrame(t: Tree, u: Tree)
    requires SameScopes(t, u) && Parented(t) && Upward(t)
    ensures Parented(u) && Upward(u)
  {
    assert forall i :: 0 <= i < |u.scopes| ==> SameLinks(t.scopes[i], u.scopes[i]);
    forall i: nat, c: nat {:trigger c in u.scopes[i].children} | i < |u.scopes| && c in u.scopes[i].children
      ensures i < c < |u.scopes| && u.scopes[c].parent == Some(i)
    {
      assert c in t.scopes[i].children;
    }
  }

  lemma ChildKeepsParented(t: Tree, s: nat)
    requires Parented(t) && s < |t.scopes|
    ensures Parented(Child(t, s))
  {
    hide Child;
    var u, n := Child(t, s), |t.scopes|;
    ChildFrame(t, s, s);
    forall i | 0 <= i < |u.scopes| && u.scopes[i].parent.Some?
      ensures u.scopes[i].parent.value < i && i in u.scopes[u.scopes[i].parent.value].children
    {
      if i < n {
        ChildFrame(t, s, i);
        ChildFrame(t, s, t.scopes[i].parent.value);
      } else {
        assert u.scopes[s].children[|t.scopes[s].children|] == n;
      }
    }
    forall i: nat, c: nat {:trigger c in u.scopes[i].children} | i < |u.scopes| && c in u.scopes[i].children
      ensures i < c < |u.scopes| && u.scopes[c].parent == Some(i)
    {
      if i < n {
        ChildFrame(t, s, i);
        if c in t.scopes[i].children { ChildFrame(t, s, c); }
      }
    }
  }

  lemma ChildKeepsUpward(t: Tree, s: nat)
    requires Upward(t) && Parented(t) && s < |t.scopes| && t.scopes[s].live
    ensures Upward(Child(t, s))
  {
    hide Child;
    var u := Child(t, s);
    ChildFrame(t, s, s);
    forall i ensures 0 <= i < |t.scopes| ==>
        && u.scopes[i].parent == t.scopes[i].parent
        && u.scopes[i].open == t.scopes[i].open && u.scopes[i].live == t.scopes[i].live
    {
      if 0 <= i < |t.scopes| { ChildFrame(t, s, i); }
    }
  }

  lemma ChildKeepsTidy(t: Tree, s: nat)
    requires Tidy(t) && s < |t.scopes| && t.scopes[s].live
    ensures Tidy(Child(t, s))
  {
    ChildKeepsParented(t, s);
    ChildKeepsUpward(t, s);
    hide Pinned, Parented, Upward, Child;
    var u := Child(t, s);
    ChildFrame(t, s, s);
    forall i, id | 0 <= i < |u.scopes| && id in u.scopes[i].entries
      ensures u.scopes[i].entries[id] in u.slots && u.slots[u.scopes[i].entries[id]].definition.id == id
    {
      if i < |t.scopes| { ChildFrame(t, s, i); }
    }
  }

  lemma PinsAfterInsert(slots: map<nat, Slot>, next: nat, d: Definition, generation: nat, snapshot: map<Id, nat>)
    requires Pinned(slots, next)
    requires snapshot.Keys == d.dependencies
    requires forall x :: x in snapshot ==> snapshot[x] in slots && slots[snapshot[x]].definition.id == x
    ensures Pinned(slots[next := Slot(d, generation, snapshot)], next + 1)
  {
    var after := slots[next := Slot(d, generation, snapshot)];
    assert next !in slots;
    forall e, x | e in after && x in after[e].dependencies
      ensures after[e].dependencies[x] in after && after[e].dependencies[x] < e
      ensures after[after[e].dependencies[x]].definition.id == x
    {
      if e == next { assert x in snapshot && snapshot[x] in slots; } else { assert slots[e].dependencies[x] in slots; }
    }
  }

  lemma InsertKeepsTidy(t: Tree, s: nat, d: Definition, generation: nat, snapshot: map<Id, nat>)
    requires Tidy(t) && s < |t.scopes| && Holds(t, d, snapshot)
    ensures Tidy(Insert(t, s, d, generation, snapshot))
  {
    hide Parented, Upward;
    var u := Insert(t, s, d, generation, snapshot);
    PinsAfterInsert(t.slots, t.nextEntry, d, generation, snapshot);
    assert t.nextEntry !in t.slots;
    hide Pinned;
    LinksFrame(t, u) by {
      hide Housed;
      forall i | 0 <= i < |t.scopes| ensures SameLinks(t.scopes[i], u.scopes[i]) { }
    }
  }

  lemma WithdrawKeepsTidy(t: Tree, s: nat, id: Id, generation: nat)
    requires Tidy(t) && s < |t.scopes| && Withdraw(t, s, id, generation).Ok?
    ensures Tidy(Withdraw(t, s, id, generation).value)
  {
    hide Parented, Upward, Pinned;
    var u := Withdraw(t, s, id, generation).value;
    LinksFrame(t, u) by {
      hide Housed;
      forall i | 0 <= i < |t.scopes| ensures SameLinks(t.scopes[i], u.scopes[i]) { }
    }
    forall i, x | 0 <= i < |u.scopes| && x in u.scopes[i].entries
      ensures u.scopes[i].entries[x] in u.slots && u.slots[u.scopes[i].entries[x]].definition.id == x
    {
      assert x in t.scopes[i].entries && u.scopes[i].entries[x] == t.scopes[i].entries[x];
    }
  }

  /** Closing scopes keeps every link and slot. */
  lemma ClosingKeepsShape(t: Tree, u: Tree)
    requires Shaped(t) && ClosesSome(t, u)
    ensures Shaped(u)
  {
    hide Pinned;
    assert Parented(u) by {
      hide Housed;
      forall i: nat, c: nat {:trigger c in u.scopes[i].children} | i < |u.scopes| && c in u.scopes[i].children
        ensures i < c < |u.scopes| && u.scopes[c].parent == Some(i)
      {
        assert c in t.scopes[i].children;
      }
    }
    assert Housed(u) by { hide Parented; }
  }

  lemma TeardownKeepsSound(t: Tree, s: nat)
    requires Tidy(t) && s < |t.scopes|
    ensures Sound(Teardown(t, s))
  {
    hide Shaped, Upward, CloseAll, ChildFirst;
    CloseAllCloses(t, ChildFirst(t, s));
    ClosingKeepsShape(t, Teardown(t, s));
    if !Teardown(t, s).poisoned { TeardownKeepsUpward(t, s); }
  }

  lemma ForgetCloses(t: Tree, s: nat)
    requires Tidy(t) && s < |t.scopes|
    ensures Upward(Forget(t, s)) && ClosesSome(t, Forget(t, s))
  {
    hide Housed, Pinned;
    var u := Forget(t, s);
    if u != t {
      forall i | 0 <= i < |u.scopes| && u.scopes[i].parent == Some(s) ensures !u.scopes[i].live && !u.scopes[i].open {
        assert i in t.scopes[s].children;
      }
    }
  }

  lemma ExecuteKeepsSound(t: Tree, c: Command)
    requires Sound(t)
    ensures Sound(Execute(t, c))
  {
    hide Shaped, Upward, Publish, Insert, Teardown, Forget, Child, Withdraw, Holds;
    if Enabled(t, c) {
      match c
      case ChildOf(s) => ChildKeepsTidy(t, s);
      case Commit(s, d, x, snapshot) =>
        if Publish(t, s, d, x, snapshot).Ok? {
          PublicationInserts(t, s, d, x, snapshot);
          InsertKeepsTidy(t, s, d, NextGeneration(t, s, d.id, x).value, snapshot);
        }
      case WithdrawFrom(s, id, generation) =>
        if Withdraw(t, s, id, generation).Ok? { WithdrawKeepsTidy(t, s, id, generation); }
      case TearDown(s) => TeardownKeepsSound(t, s);
      case ForgetScope(s) => ForgetCloses(t, s); ClosingKeepsShape(t, Forget(t, s));
    }
  }

  lemma PublicationInserts(t: Tree, s: nat, d: Definition, x: Expectation, snapshot: map<Id, nat>)
    requires s < |t.scopes| && Publish(t, s, d, x, snapshot).Ok?
    ensures NextGeneration(t, s, d.id, x).Ok? && t.scopes[s].open
    ensures Publish(t, s, d, x, snapshot).value == Insert(t, s, d, NextGeneration(t, s, d.id, x).value, snapshot)
  {
    hide ResolveDependencies, Changed, AdmitDescendants, ValidateCandidate, VisibleDefinitions, Insert,
      NextGeneration, Descendants;
  }

  /**
   Whatever children, publications and teardowns are run, in any order, every
   open scope sees a dependency-closed acyclic set of definitions.
   */
  lemma {:induction false} VisibleGraphsResolve(commands: seq<Command>)
    requires forall i :: 0 <= i < |commands| ==> !commands[i].WithdrawFrom?
    ensures Sound(ExecuteAll(Root, commands))
    ensures !ExecuteAll(Root, commands).poisoned ==> AllResolve(ExecuteAll(Root, commands))
    decreases |commands|
  {
    hide Sound, AllResolve, Execute;
    if commands == [] {
      RootResolves();
    } else {
      var last := commands[|commands| - 1];
      VisibleGraphsResolve(commands[..|commands| - 1]);
      var t := ExecuteAll(Root, commands[..|commands| - 1]);
      ExecuteKeepsSound(t, last);
      ExecuteKeepsResolving(t, last);
    }
  }

  lemma RootResolves()
    ensures Sound(Root) && AllResolve(Root)
  {
    hide Resolve;
    EmptyView(Root, 0);
    NothingResolves();
  }

  lemma NothingResolves()
    ensures Resolves(map[])
  {
    hide Resolve;
    ResolveIsExact(map[]);
    Digraph.OrderedIsAcyclic(RelationOf(map[]), []);
  }

  lemma ExecuteKeepsResolving(t: Tree, c: Command)
    requires Sound(t) && (!t.poisoned ==> AllResolve(t)) && !c.WithdrawFrom?
    ensures !Execute(t, c).poisoned ==> AllResolve(Execute(t, c))
  {
    hide Shaped, Upward, Publish, Insert, Teardown, Forget, Child, Holds, AllResolve;
    if Enabled(t, c) && !Execute(t, c).poisoned {
      match c
      case ChildOf(s) => ChildKeepsResolving(t, s);
      case Commit(s, d, x, snapshot) =>
        if Publish(t, s, d, x, snapshot).Ok? { PublishKeepsResolving(t, s, d, x, snapshot); }
      case TearDown(s) => TeardownKeepsUpward(t, s); ClosingKeepsResolving(t, Teardown(t, s));
      case ForgetScope(s) => ForgetCloses(t, s); ClosingKeepsResolving(t, Forget(t, s));
    }
  }
}
