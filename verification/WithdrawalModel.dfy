/** Which fibers a withdrawal drains, and in which order. */
module WithdrawalModel {
  import opened Prelude
  import opened ResolverModel
  import opened ScopeModel
  import opened ScopeInvariants
  import opened ScopePublication
  import opened FiberModel
  import opened FiberSafety
  import opened GraphDepth
  import Digraph

  type Fibers = map<nat, Fiber>

  /** The committed binding, or the one being loaded. */
  function BindingOf(f: Fiber): Option<map<Id, nat>> {
    if f.binding.Some? then f.binding else f.loading
  }

  /** The providers known by the entries they own; of several owners the last one counts. */
  ghost predicate AreIdentities(fibers: Fibers, identities: map<nat, nat>) {
    && (forall e :: e in identities ==> identities[e] in fibers && fibers[identities[e]].handle == Some(e))
    && (forall id :: id in fibers && fibers[id].handle.Some? ==>
          fibers[id].handle.value in identities && id <= identities[fibers[id].handle.value])
  }

  /** The fibers whose entries a fiber is bound to. */
  function Providers(fibers: Fibers, identities: map<nat, nat>, id: nat): set<nat> {
    if id in fibers && BindingOf(fibers[id]).Some? then
      var m := BindingOf(fibers[id]).value;
      set x | x in m && m[x] in identities :: identities[m[x]]
    else {}
  }

  // ---- Closure ----

  /** The provider of the retired entry and its direct consumers. */
  predicate Touched(fibers: Fibers, retired: nat, id: nat) {
    && id in fibers
    && (|| fibers[id].handle == Some(retired)
        || (BindingOf(fibers[id]).Some? && retired in BindingOf(fibers[id]).value.Values))
  }

  /** No fiber outside the set is bound to a member of it. */
  ghost predicate ClosedUnder(fibers: Fibers, identities: map<nat, nat>, s: set<nat>) {
    forall id, p :: id in fibers && p in Providers(fibers, identities, id) && p in s ==> id in s
  }

  ghost predicate Drains(fibers: Fibers, identities: map<nat, nat>, retired: nat, s: set<nat>) {
    && s <= fibers.Keys && (forall id :: Touched(fibers, retired, id) ==> id in s) && ClosedUnder(fibers, identities, s)
  }

  /** The least set of fibers to drain. */
  ghost predicate IsWithdrawalClosure(fibers: Fibers, identities: map<nat, nat>, retired: nat, s: set<nat>) {
    Drains(fibers, identities, retired, s) && forall other :: Drains(fibers, identities, retired, other) ==> s <= other
  }

  /** The fiber has the entry in its committed binding, or without one in the binding it is loading. */
  ghost predicate BoundTo(f: Fiber, e: nat) {
    if f.binding.Some? then e in f.binding.value.Values else f.loading.Some? && e in f.loading.value.Values
  }

  /** Each fiber of the chain is bound to an entry of the next one; the last has or is bound to the retired one. */
  ghost predicate LeadsToRetired(fibers: Fibers, identities: map<nat, nat>, retired: nat, chain: seq<nat>) {
    && chain != [] && (forall i :: 0 <= i < |chain| ==> chain[i] in fibers)
    && (fibers[chain[|chain| - 1]].handle == Some(retired) || BoundTo(fibers[chain[|chain| - 1]], retired))
    && forall i :: 0 <= i < |chain| - 1 ==> ConsumesFrom(fibers, identities, chain[i], chain[i + 1])
  }

  ghost predicate ConsumesFrom(fibers: Fibers, identities: map<nat, nat>, a: nat, b: nat) {
    a in fibers && exists e :: e in identities && identities[e] == b && BoundTo(fibers[a], e)
  }

  lemma ConsumesFromProvider(fibers: Fibers, identities: map<nat, nat>, a: nat, b: nat)
    ensures b in Providers(fibers, identities, a) <==> ConsumesFrom(fibers, identities, a, b)
  {
    if ConsumesFrom(fibers, identities, a, b) {
      var e :| e in identities && identities[e] == b && BoundTo(fibers[a], e);
      var m := BindingOf(fibers[a]).value;
      var x :| x in m && m[x] == e;
    }
    if b in Providers(fibers, identities, a) {
      var m := BindingOf(fibers[a]).value;
      var x :| x in m && m[x] in identities && identities[m[x]] == b;
      assert BoundTo(fibers[a], m[x]);
    }
  }

  lemma {:induction false} ChainIsDrained(fibers: Fibers, identities: map<nat, nat>, retired: nat, s: set<nat>,
                                          chain: seq<nat>)
    requires Drains(fibers, identities, retired, s) && LeadsToRetired(fibers, identities, retired, chain)
    ensures chain[0] in s
    decreases |chain|
  {
    hide ConsumesFrom;
    if |chain| == 1 {
      assert Touched(fibers, retired, chain[0]);
    } else {
      assert ConsumesFrom(fibers, identities, chain[0], chain[0 + 1]);
      ChainIsDrained(fibers, identities, retired, s, chain[1..]);
      ConsumesFromProvider(fibers, identities, chain[0], chain[1]);
    }
  }

  /** A fiber is drained exactly when a chain of bindings leads from it to the retired entry. */
  lemma ClosureIsExact(fibers: Fibers, identities: map<nat, nat>, retired: nat, s: set<nat>, id: nat)
    requires IsWithdrawalClosure(fibers, identities, retired, s)
    ensures id in s <==> exists chain :: LeadsToRetired(fibers, identities, retired, chain) && chain[0] == id
  {
    hide ConsumesFrom, Drains;
    forall chain | LeadsToRetired(fibers, identities, retired, chain) ensures chain[0] in s {
      ChainIsDrained(fibers, identities, retired, s, chain);
    }
    ghost var led := set x | x in fibers && Led(fibers, identities, retired, x);
    LedDrains(fibers, identities, retired, led);
    if id in s { assert Led(fibers, identities, retired, id); }
  }

  ghost predicate Led(fibers: Fibers, identities: map<nat, nat>, retired: nat, id: nat) {
    exists chain :: LeadsToRetired(fibers, identities, retired, chain) && chain[0] == id
  }

  lemma LedDrains(fibers: Fibers, identities: map<nat, nat>, retired: nat, led: set<nat>)
    requires forall x :: x in led <==> x in fibers && Led(fibers, identities, retired, x)
    ensures Drains(fibers, identities, retired, led)
  {
    hide ConsumesFrom, Providers;
    forall x | Touched(fibers, retired, x) ensures x in led {
      assert LeadsToRetired(fibers, identities, retired, [x]);
    }
    forall x, p | x in fibers && p in Providers(fibers, identities, x) && p in led ensures x in led {
      ConsumesFromProvider(fibers, identities, x, p);
      var chain :| LeadsToRetired(fibers, identities, retired, chain) && chain[0] == p;
      assert LeadsToRetired(fibers, identities, retired, [x] + chain);
    }
  }

  // ---- Depth ----

  /** The committed and loading bindings among the affected fibers, from consumer to provider. */
  function AffectedGraph(fibers: Fibers, identities: map<nat, nat>, affected: set<nat>): Digraph.Relation {
    map id | id in affected :: Providers(fibers, identities, id) * affected - {id}
  }

  // ---- Committed bindings are acyclic ----

  /** What a fiber is bound to was published before its own entry. */
  lemma EdgeDescends(t: Tree, fibers: Fibers, identities: map<nat, nat>, affected: set<nat>, a: nat, b: nat)
    requires Sound(t) && (forall id :: id in fibers ==> Consistent(t, fibers[id])) && AreIdentities(fibers, identities)
    requires Digraph.IsEdge(AffectedGraph(fibers, identities, affected), a, b)
    ensures a in fibers && b in fibers && fibers[b].handle.Some?
    ensures fibers[a].handle.Some? ==> fibers[b].handle.value < fibers[a].handle.value
  {
    hide Parented, Housed, Upward, Holds;
    assert b in Providers(fibers, identities, a);
    var m := BindingOf(fibers[a]).value;
    var x :| x in m && m[x] in identities && identities[m[x]] == b;
    assert fibers[b].handle == Some(m[x]);
  }

  lemma {:induction false} CycleDescends(t: Tree, fibers: Fibers, identities: map<nat, nat>, affected: set<nat>,
                                         p: seq<nat>, n: nat)
    requires Sound(t) && (forall id :: id in fibers ==> Consistent(t, fibers[id])) && AreIdentities(fibers, identities)
    requires Digraph.IsCycle(AffectedGraph(fibers, identities, affected), p) && n < |p|
    ensures p[0] in fibers && p[n] in fibers && fibers[p[0]].handle.Some? && fibers[p[n]].handle.Some?
    ensures fibers[p[n]].handle.value + n <= fibers[p[0]].handle.value
    decreases n
  {
    hide Sound, Consistent, AffectedGraph, AreIdentities;
    var g := AffectedGraph(fibers, identities, affected);
    var last := |p| - 1;
    assert Digraph.IsEdge(g, p[last - 1], p[last - 1 + 1]);
    EdgeDescends(t, fibers, identities, affected, p[last - 1], p[last]);
    if n > 0 {
      CycleDescends(t, fibers, identities, affected, p, n - 1);
      assert Digraph.IsEdge(g, p[n - 1], p[n - 1 + 1]);
      EdgeDescends(t, fibers, identities, affected, p[n - 1], p[n]);
    }
  }

  /** The bindings of consistent fibers never form a cycle. */
  lemma BindingsAreAcyclic(t: Tree, fibers: Fibers, identities: map<nat, nat>, affected: set<nat>)
    requires Sound(t) && (forall id :: id in fibers ==> Consistent(t, fibers[id])) && AreIdentities(fibers, identities)
    ensures Digraph.Acyclic(AffectedGraph(fibers, identities, affected))
  {
    hide Sound, Consistent, AffectedGraph, AreIdentities;
    var g := AffectedGraph(fibers, identities, affected);
    forall p ensures !Digraph.IsCycle(g, p) {
      if Digraph.IsCycle(g, p) { CycleDescends(t, fibers, identities, affected, p, |p| - 1); }
    }
  }

  // ---- Order ----

  /** Every consumer comes before the providers it is bound to. */
  ghost predicate ConsumersFirst(g: Digraph.Relation, order: seq<nat>) {
    forall i, j :: 0 <= i < |order| && 0 <= j < |order| && Digraph.IsEdge(g, order[i], order[j]) ==> i < j
  }

  /** A longer chain below, or one as long and the smaller identity. */
  ghost predicate Precedes(g: Digraph.Relation, a: nat, b: nat) {
    exists m: nat, n: nat :: IsDepth(g, a, m) && IsDepth(g, b, n) && (m > n || (m == n && a < b))
  }

  ghost predicate DeepestFirst(g: Digraph.Relation, order: seq<nat>) {
    forall i, j :: 0 <= i < j < |order| ==> Precedes(g, order[i], order[j])
  }

  /** A fiber with its depth. */
  datatype AtDepth = AtDepth(depth: nat, id: nat)

  /** Deeper fibers first, then the smaller identity. */
  predicate Before(a: AtDepth, b: AtDepth) {
    a.depth > b.depth || (a.depth == b.depth && a.id < b.id)
  }

  function Place(r: AtDepth, sorted: seq<AtDepth>): seq<AtDepth> {
    if sorted == [] || Before(r, sorted[0]) then [r] + sorted else [sorted[0]] + Place(r, sorted[1..])
  }

  function SortDeepestFirst(list: seq<AtDepth>): seq<AtDepth> {
    if list == [] then [] else Place(list[0], SortDeepestFirst(list[1..]))
  }

  ghost predicate IsSorted(s: seq<AtDepth>) {
    forall i, j :: 0 <= i < j < |s| ==> !Before(s[j], s[i])
  }

  lemma {:induction false} PlaceKeepsSorted(r: AtDepth, s: seq<AtDepth>)
    requires IsSorted(s)
    ensures IsSorted(Place(r, s)) && multiset(Place(r, s)) == multiset(s) + multiset{r}
  {
    if s != [] {
      assert s == [s[0]] + s[1..];
      if Before(r, s[0]) {
        var out := [r] + s;
        forall i, j | 0 <= i < j < |out| ensures !Before(out[j], out[i]) {
          if i == 0 && j > 1 { assert !Before(s[j - 1], s[0]); } else if i > 0 { assert !Before(s[j - 1], s[i - 1]); }
        }
      } else {
        assert IsSorted(s[1..]) by {
          forall i, j | 0 <= i < j < |s[1..]|
            ensures !Before(s[1..][j], s[1..][i])
          {
            assert !Before(s[j + 1], s[i + 1]);
          }
        }
        PlaceKeepsSorted(r, s[1..]);
        var rest := Place(r, s[1..]);
        var out := [s[0]] + rest;
        forall j | 0 <= j < |rest| ensures !Before(rest[j], s[0]) {
          assert rest[j] in multiset(rest);
          if rest[j] != r {
            assert rest[j] in multiset(s[1..]) && rest[j] in s[1..];
            var k :| 0 <= k < |s[1..]| && s[1..][k] == rest[j];
            assert !Before(s[k + 1], s[0]);
          }
        }
      }
    }
  }

  lemma {:induction false} SortIsSorted(list: seq<AtDepth>)
    ensures IsSorted(SortDeepestFirst(list)) && multiset(SortDeepestFirst(list)) == multiset(list)
  {
    if list != [] {
      assert list == [list[0]] + list[1..];
      SortIsSorted(list[1..]);
      PlaceKeepsSorted(list[0], SortDeepestFirst(list[1..]));
    }
  }

  // ---- Draining ----

  /** Unloads one fiber because a provider goes away; with nothing in between this is one step. */
  function Deactivate(t: Tree, f: Fiber, detached: Option<nat>): (Tree, Fiber) {
    Advance(t, BeginDeactivation(f, detached), true)
  }

  function DetachedFrom(f: Fiber, retired: nat): Option<nat> {
    if f.handle == Some(retired) then Some(retired) else None
  }

  /** The provider of the retired entry leaves the tree as the withdrawal left it. */
  lemma DetachedTakesNothing(t: Tree, f: Fiber, retired: nat)
    requires Restful(f) && f.handle == Some(retired)
    ensures Deactivate(t, f, DetachedFrom(f, retired)).0 == t
  {
    hide Withdraw, Publish, Binding;
  }

  /** Deactivates the listed fibers in order, while the retired entry is still held. */
  function Drain(t: Tree, fibers: Fibers, order: seq<nat>, retired: nat): (Tree, Fibers)
    decreases |order|
  {
    if order == [] then (t, fibers)
    else if order[0] !in fibers then Drain(t, fibers, order[1..], retired)
    else
      var (u, g) := Deactivate(t, fibers[order[0]], DetachedFrom(fibers[order[0]], retired));
      Drain(u, fibers[order[0] := g], order[1..], retired)
  }

  /** A drained fiber owns no entry and has nothing bound; a finished one stays as it is. */
  predicate Quiet(f: Fiber) {
    f.wait == AtRest && f.handle == None && f.binding == None && (f.state == Pending || f.state == Disposed)
  }

  predicate Restful(f: Fiber) {
    f.wait == AtRest && !f.state.Loading? && !f.state.Unloading?
  }

  lemma DeactivationQuiets(t: Tree, f: Fiber, detached: Option<nat>)
    requires Sound(t) && !t.poisoned && Consistent(t, f) && Restful(f)
    ensures var (u, g) := Deactivate(t, f, detached);
            && Sound(u) && Extends(t, u) && u.poisoned == t.poisoned && Consistent(u, g) && Quiet(g)
  {
    hide Sound, Holds, RemoveLocal, Extends;
    RequestsKeepConsistent(t, f, true, detached);
    StepIsConsistent(t, BeginDeactivation(f, detached), true);
  }

  /** After a drain the listed fibers are quiet and every other fiber is as it was. */
  lemma {:induction false} DrainQuiets(t: Tree, fibers: Fibers, order: seq<nat>, retired: nat)
    requires Sound(t) && !t.poisoned && Elements(order) <= fibers.Keys && Distinct(order)
    requires forall id :: id in fibers ==> Consistent(t, fibers[id]) && Restful(fibers[id])
    ensures var (u, rest) := Drain(t, fibers, order, retired);
            && Sound(u) && u.poisoned == t.poisoned && rest.Keys == fibers.Keys
            && (forall id :: id in rest ==> Consistent(u, rest[id]) && Restful(rest[id]))
            && (forall id :: id in order ==> Quiet(rest[id]))
            && (forall id :: id in rest && id !in order ==> rest[id] == fibers[id])
    decreases |order|
  {
    hide Sound, Consistent, Deactivate, Extends;
    if order != [] {
      var id, tail := order[0], order[1..];
      assert order == [id] + tail && id in Elements(order);
      var detached := DetachedFrom(fibers[id], retired);
      DeactivationQuiets(t, fibers[id], detached);
      var (u, g) := Deactivate(t, fibers[id], detached);
      var after := fibers[id := g];
      forall x | x in after ensures Consistent(u, after[x]) && Restful(after[x]) {
        if x != id { ConsistentLater(t, u, fibers[x]); }
      }
      forall x | x in tail ensures x in after && x != id {
        assert x in Elements(order);
        var k :| 0 <= k < |tail| && tail[k] == x;
        assert order[k + 1] == x;
      }
      assert Distinct(tail) by {
        forall i, j | 0 <= i < j < |tail| ensures tail[i] != tail[j] { assert order[i + 1] != order[j + 1]; }
      }
      DrainQuiets(u, after, tail, retired);
    }
  }

  /** What is left bound after a drain names neither the retired entry nor any entry of a drained fiber. */
  lemma NothingLeftDangling(fibers: Fibers, identities: map<nat, nat>, retired: nat, affected: set<nat>, id: nat, x: Id)
    requires AreIdentities(fibers, identities) && IsWithdrawalClosure(fibers, identities, retired, affected)
    requires id in fibers && id !in affected && BindingOf(fibers[id]).Some? && x in BindingOf(fibers[id]).value
    ensures BindingOf(fibers[id]).value[x] != retired
    ensures var e := BindingOf(fibers[id]).value[x]; e in identities ==> identities[e] !in affected
  {
    var m := BindingOf(fibers[id]).value;
    assert !Touched(fibers, retired, id);
    assert m[x] in m.Values;
    if m[x] in identities { assert identities[m[x]] in Providers(fibers, identities, id); }
  }

  /** An order that drains exactly the withdrawal closure, consumers before providers, the deepest first. */
  ghost predicate DrainsInOrder(fibers: Fibers, retired: nat, order: seq<nat>) {
    Distinct(order) && exists identities :: OrdersClosure(fibers, identities, retired, order)
  }

  ghost predicate OrdersClosure(fibers: Fibers, identities: map<nat, nat>, retired: nat, order: seq<nat>) {
    && AreIdentities(fibers, identities)
    && IsWithdrawalClosure(fibers, identities, retired, Elements(order))
    && ConsumersFirst(AffectedGraph(fibers, identities, Elements(order)), order)
    && DeepestFirst(AffectedGraph(fibers, identities, Elements(order)), order)
  }

  lemma WithdrawExtends(t: Tree, s: nat, id: Id, generation: nat)
    requires s < |t.scopes| && Withdraw(t, s, id, generation).Ok?
    ensures var u := Withdraw(t, s, id, generation).value; Extends(t, u) && u.poisoned == t.poisoned
  {
  }

  lemma ListedAreWatched(fibers: Fibers, identities: map<nat, nat>, retired: nat, order: seq<nat>)
    requires OrdersClosure(fibers, identities, retired, order)
    ensures Elements(order) <= fibers.Keys
  {
  }
}
