/** The coordinator's loops over watched fibers during a withdrawal. */
module Withdrawals {
  import opened Prelude
  import opened FiberModel
  import opened WithdrawalModel
  import opened GraphDepth
  import Digraph

  method ProviderIdentities(fibers: Fibers) returns (identities: map<nat, nat>)
    ensures AreIdentities(fibers, identities)
  {
    identities := map[];
    var ids := Ascending(fibers.Keys);
    AscendingIsSorted(fibers.Keys);
    var i := 0;
    while i < |ids|
      invariant 0 <= i <= |ids|
      invariant forall e :: e in identities ==>
        identities[e] in ids[..i] && identities[e] in fibers && fibers[identities[e]].handle == Some(e)
      invariant forall k :: 0 <= k < i && fibers[ids[k]].handle.Some? ==>
                  fibers[ids[k]].handle.value in identities && ids[k] <= identities[fibers[ids[k]].handle.value]
    {
      assert ids[i] in ids;
      if fibers[ids[i]].handle.Some? {
        identities := identities[fibers[ids[i]].handle.value := ids[i]];
      }
      i := i + 1;
    }
    forall id | id in fibers && fibers[id].handle.Some?
      ensures fibers[id].handle.value in identities && id <= identities[fibers[id].handle.value]
    {
      assert id in ids;
      var k :| 0 <= k < |ids| && ids[k] == id;
    }
  }

  /** Whether some pin of a fiber's binding belongs to an affected provider. */
  method DependsOnAffected(fibers: Fibers, identities: map<nat, nat>, affected: set<nat>, id: nat) returns (r: bool)
    requires id in fibers
    ensures r <==> Providers(fibers, identities, id) * affected != {}
  {
    if BindingOf(fibers[id]).None? { return false; }
    var m := BindingOf(fibers[id]).value;
    var pins := Ascending(m.Keys);
    var i := 0;
    while i < |pins|
      invariant 0 <= i <= |pins|
      invariant forall k :: 0 <= k < i ==> m[pins[k]] !in identities || identities[m[pins[k]]] !in affected
    {
      assert pins[i] in pins && pins[i] in m;
      if m[pins[i]] in identities && identities[m[pins[i]]] in affected {
        assert identities[m[pins[i]]] in Providers(fibers, identities, id) * affected;
        return true;
      }
      i := i + 1;
    }
    forall p | p in Providers(fibers, identities, id) ensures p !in affected {
      var x :| x in m && m[x] in identities && identities[m[x]] == p;
      assert x in pins;
      var k :| 0 <= k < |pins| && pins[k] == x;
    }
    r := false;
  }

  method TouchedFibers(fibers: Fibers, retired: nat) returns (affected: set<nat>)
    ensures affected <= fibers.Keys && forall id :: id in affected <==> Touched(fibers, retired, id)
  {
    affected := {};
    var ids := Ascending(fibers.Keys);
    var i := 0;
    while i < |ids|
      invariant 0 <= i <= |ids| && affected <= fibers.Keys
      invariant forall k :: 0 <= k < i && Touched(fibers, retired, ids[k]) ==> ids[k] in affected
      invariant forall id :: id in affected ==> Touched(fibers, retired, id)
    {
      assert ids[i] in ids;
      if Touched(fibers, retired, ids[i]) { affected := affected + {ids[i]}; }
      i := i + 1;
    }
    forall id | Touched(fibers, retired, id) ensures id in affected {
      assert id in ids;
      var k :| 0 <= k < |ids| && ids[k] == id;
    }
  }

  /** Starts from what the retired entry touches and adds consumers until nothing changes. */
  method WithdrawalClosure(fibers: Fibers, retired: nat, identities: map<nat, nat>) returns (affected: set<nat>)
    ensures IsWithdrawalClosure(fibers, identities, retired, affected)
  {
    hide Touched, Providers, ClosedUnder;
    affected := TouchedFibers(fibers, retired);
    var changed := true;
    while changed
      invariant affected <= fibers.Keys
      invariant forall id :: Touched(fibers, retired, id) ==> id in affected
      invariant forall other :: Drains(fibers, identities, retired, other) ==> affected <= other
      invariant !changed ==> ClosedUnder(fibers, identities, affected)
      decreases |fibers.Keys - affected|, changed
    {
      ghost var before := affected;
      affected, changed := ClosurePass(fibers, retired, identities, affected);
      if changed { SmallerRest(fibers.Keys, before, affected); } else { assert affected == before; }
    }
  }

  lemma SmallerRest(all: set<nat>, a: set<nat>, b: set<nat>)
    requires a < b <= all
    ensures |all - b| < |all - a|
  {
    Digraph.SmallerSet(all - b, all - a) by {
      var x :| x in b && x !in a;
      assert x in all - a && x !in all - b;
      assert all - b <= all - a;
    }
  }

  /** One sweep over the fibers, growing the set as it goes. */
  method ClosurePass(fibers: Fibers, retired: nat, identities: map<nat, nat>, affected0: set<nat>)
    returns (affected: set<nat>, changed: bool)
    requires affected0 <= fibers.Keys
    requires forall id :: Touched(fibers, retired, id) ==> id in affected0
    requires forall other :: Drains(fibers, identities, retired, other) ==> affected0 <= other
    ensures affected0 <= affected <= fibers.Keys && (changed <==> affected0 < affected)
    ensures forall other :: Drains(fibers, identities, retired, other) ==> affected <= other
    ensures !changed ==> ClosedUnder(fibers, identities, affected)
  {
    hide Touched, Providers;
    affected, changed := affected0, false;
    var ids := Ascending(fibers.Keys);
    var i := 0;
    while i < |ids|
      invariant 0 <= i <= |ids| && affected0 <= affected <= fibers.Keys && (changed <==> affected0 < affected)
      invariant forall other :: Drains(fibers, identities, retired, other) ==> affected <= other
      invariant !changed ==> forall k :: 0 <= k < i && ids[k] !in affected ==>
        Providers(fibers, identities, ids[k]) * affected == {}
    {
      var id := ids[i];
      assert id in ids;
      if id !in affected {
        var depends := DependsOnAffected(fibers, identities, affected, id);
        if depends {
          var p :| p in Providers(fibers, identities, id) * affected;
          forall other | Drains(fibers, identities, retired, other) ensures id in other { assert p in other; }
          affected, changed := affected + {id}, true;
        }
      }
      i := i + 1;
    }
    if !changed {
      forall id, p | id in fibers && p in Providers(fibers, identities, id) && p in affected ensures id in affected {
        assert id in ids;
        var k :| 0 <= k < |ids| && ids[k] == id;
        assert p in Providers(fibers, identities, id) * affected;
      }
    }
  }

  /** Every fiber being visited leads down to `id`. */
  ghost predicate LeadTo(g: Digraph.Relation, visiting: set<nat>, id: nat) {
    forall v :: v in visiting ==> exists p :: PathFrom(g, p, v) && |p| >= 2 && p[|p| - 1] == id
  }

  lemma NotVisiting(g: Digraph.Relation, visiting: set<nat>, id: nat)
    requires Digraph.Acyclic(g) && LeadTo(g, visiting, id)
    ensures id !in visiting
  {
    forall p ensures !(PathFrom(g, p, id) && |p| >= 2 && p[|p| - 1] == id) { assert !Digraph.IsCycle(g, p); }
  }

  lemma LeadFurther(g: Digraph.Relation, visiting: set<nat>, id: nat, q: nat)
    requires LeadTo(g, visiting, id) && Digraph.IsEdge(g, id, q)
    ensures LeadTo(g, visiting + {id}, q)
  {
    forall v | v in visiting + {id} ensures exists p :: PathFrom(g, p, v) && |p| >= 2 && p[|p| - 1] == q {
      if v == id {
        LoneNode(g, q);
        PathCons(g, id, q, [q]);
        assert |[id] + [q]| >= 2 && ([id] + [q])[1] == q;
      } else {
        var p :| PathFrom(g, p, v) && |p| >= 2 && p[|p| - 1] == id;
        PathSnoc(g, p, v, q);
      }
    }
  }

  lemma PathSnoc(g: Digraph.Relation, p: seq<nat>, v: nat, q: nat)
    requires PathFrom(g, p, v) && Digraph.IsEdge(g, p[|p| - 1], q)
    ensures PathFrom(g, p + [q], v) && (p + [q])[|p|] == q
  {
    var r := p + [q];
    forall i | 0 <= i < |r| - 1 ensures Digraph.IsEdge(g, r[i], r[i + 1]) {
      if i < |p| - 1 { assert Digraph.IsEdge(g, p[i], p[i + 1]); }
    }
  }

  /** The longest chain of affected providers below a fiber; `visiting` guards against going round in circles. */
  method DependencyDepth(fibers: Fibers, identities: map<nat, nat>, affected: set<nat>, id: nat, visiting: set<nat>)
    returns (depth: nat)
    requires id in affected
    ensures var g := AffectedGraph(fibers, identities, affected);
            Digraph.Acyclic(g) && LeadTo(g, visiting, id) ==> IsDepth(g, id, depth)
    decreases |affected - visiting|
  {
    hide Digraph.Acyclic, IsDepth, LeadTo, Digraph.IsPath;
    ghost var g := AffectedGraph(fibers, identities, affected);
    ghost var sound := Digraph.Acyclic(g) && LeadTo(g, visiting, id);
    if sound { NotVisiting(g, visiting, id); }
    if id in visiting { return 0; }
    SmallerVisit(affected, visiting, id);
    depth := 0;
    if id !in fibers || BindingOf(fibers[id]).None? {
      if sound { DepthFromTargets(g, id, 0); }
      return;
    }
    var m := BindingOf(fibers[id]).value;
    var pins := Ascending(m.Keys);
    ghost var seen: set<nat> := {};
    var i := 0;
    while i < |pins|
      invariant 0 <= i <= |pins| && seen <= g[id]
      invariant forall k :: 0 <= k < i && m[pins[k]] in identities && identities[m[pins[k]]] in g[id] ==>
        identities[m[pins[k]]] in seen
      invariant sound ==> forall q :: q in seen ==> exists d: nat :: IsDepth(g, q, d) && d + 1 <= depth
      invariant sound ==> depth == 0 || exists q :: q in seen && IsDepth(g, q, depth - 1)
    {
      assert pins[i] in pins && pins[i] in m;
      if m[pins[i]] in identities {
        var provider := identities[m[pins[i]]];
        if provider in affected && provider != id {
          assert Digraph.IsEdge(g, id, provider);
          if sound { LeadFurther(g, visiting, id, provider); }
          var below := DependencyDepth(fibers, identities, affected, provider, visiting + {id});
          seen := seen + {provider};
          if below + 1 > depth { depth := below + 1; }
        }
      }
      i := i + 1;
    }
    if sound {
      forall q | q in g[id] ensures q in seen {
        var x :| x in m && m[x] in identities && identities[m[x]] == q;
        assert x in pins;
        var k :| 0 <= k < |pins| && pins[k] == x;
      }
      DepthFromTargets(g, id, depth);
    }
  }

  lemma SmallerVisit(affected: set<nat>, visiting: set<nat>, id: nat)
    requires id in affected && id !in visiting
    ensures |affected - (visiting + {id})| < |affected - visiting|
  {
    Digraph.SmallerSet(affected - (visiting + {id}), affected - visiting) by {
      assert id in affected - visiting && id !in affected - (visiting + {id});
    }
  }

  /** The affected fibers, each with its depth, then sorted deepest first. */
  method WithdrawalOrder(fibers: Fibers, affected: set<nat>, identities: map<nat, nat>) returns (order: seq<nat>)
    requires affected <= fibers.Keys
    ensures Distinct(order) && Elements(order) == affected
    ensures var g := AffectedGraph(fibers, identities, affected);
            Digraph.Acyclic(g) ==> ConsumersFirst(g, order) && DeepestFirst(g, order)
  {
    hide Digraph.Acyclic, IsDepth, AffectedGraph, Digraph.IsEdge;
    ghost var g := AffectedGraph(fibers, identities, affected);
    var ids := Ascending(affected);
    var list: seq<AtDepth> := [];
    var i := 0;
    while i < |ids|
      invariant 0 <= i <= |ids| && |list| == i
      invariant forall k :: 0 <= k < i ==>
        list[k].id == ids[k] && (Digraph.Acyclic(g) ==> IsDepth(g, ids[k], list[k].depth))
    {
      assert ids[i] in ids;
      NothingLeads(g, ids[i]);
      var depth := DependencyDepth(fibers, identities, affected, ids[i], {});
      list := list + [AtDepth(depth, ids[i])];
      i := i + 1;
    }
    var sorted := SortDeepestFirst(list);
    SortIsSorted(list);
    order := seq(|sorted|, k requires 0 <= k < |sorted| => sorted[k].id);
    OrderIsPermutation(affected, list, sorted, order);
    if Digraph.Acyclic(g) {
      ConsumersComeFirst(g, list, sorted, order);
      DeepestComeFirst(g, list, sorted, order);
    }
  }

  lemma NothingLeads(g: Digraph.Relation, id: nat)
    ensures LeadTo(g, {}, id)
  {
  }

  /** The sorted list names each affected fiber once. */
  lemma OrderIsPermutation(affected: set<nat>, list: seq<AtDepth>, sorted: seq<AtDepth>, order: seq<nat>)
    requires |list| == |Ascending(affected)| && forall k :: 0 <= k < |list| ==> list[k].id == Ascending(affected)[k]
    requires multiset(sorted) == multiset(list)
    requires |order| == |sorted| && forall k :: 0 <= k < |order| ==> order[k] == sorted[k].id
    ensures Distinct(order) && Elements(order) == affected
  {
    var ids := Ascending(affected);
    AscendingIsSorted(affected);
    PermutationIsDistinct(sorted, list);
    forall k | 0 <= k < |sorted| ensures sorted[k] in list { assert sorted[k] in multiset(list); }
    forall k | 0 <= k < |list| ensures list[k] in sorted { assert list[k] in multiset(sorted); }
    forall i, j | 0 <= i < j < |order| ensures order[i] != order[j] {
      var a :| 0 <= a < |list| && list[a] == sorted[i];
      var b :| 0 <= b < |list| && list[b] == sorted[j];
      assert a != b;
    }
    forall x ensures x in order <==> x in affected {
      if x in order {
        var k :| 0 <= k < |order| && order[k] == x;
        var a :| 0 <= a < |list| && list[a] == sorted[k];
        assert ids[a] in ids;
      }
      if x in affected {
        assert x in ids;
        var a :| 0 <= a < |ids| && ids[a] == x;
        var k :| 0 <= k < |sorted| && sorted[k] == list[a];
        assert order[k] == x;
      }
    }
  }

  lemma ConsumersComeFirst(g: Digraph.Relation, list: seq<AtDepth>, sorted: seq<AtDepth>, order: seq<nat>)
    requires multiset(sorted) == multiset(list) && IsSorted(sorted)
    requires forall k :: 0 <= k < |list| ==> IsDepth(g, list[k].id, list[k].depth)
    requires |order| == |sorted| && forall k :: 0 <= k < |order| ==> order[k] == sorted[k].id
    ensures ConsumersFirst(g, order)
  {
    hide IsDepth, Digraph.IsEdge;
    SortedAreDepths(g, list, sorted);
    forall i, j | 0 <= i < |order| && 0 <= j < |order| && Digraph.IsEdge(g, order[i], order[j]) ensures i < j {
      SourceIsDeeper(g, order[i], order[j], sorted[i].depth, sorted[j].depth);
    }
  }

  lemma SortedAreDepths(g: Digraph.Relation, list: seq<AtDepth>, sorted: seq<AtDepth>)
    requires multiset(sorted) == multiset(list)
    requires forall k :: 0 <= k < |list| ==> IsDepth(g, list[k].id, list[k].depth)
    ensures forall k :: 0 <= k < |sorted| ==> IsDepth(g, sorted[k].id, sorted[k].depth)
  {
    hide IsDepth;
    forall k | 0 <= k < |sorted| ensures IsDepth(g, sorted[k].id, sorted[k].depth) {
      assert sorted[k] in multiset(list);
      var a :| 0 <= a < |list| && list[a] == sorted[k];
    }
  }

  lemma DeepestComeFirst(g: Digraph.Relation, list: seq<AtDepth>, sorted: seq<AtDepth>, order: seq<nat>)
    requires multiset(sorted) == multiset(list) && IsSorted(sorted) && Distinct(order)
    requires forall k :: 0 <= k < |list| ==> IsDepth(g, list[k].id, list[k].depth)
    requires |order| == |sorted| && forall k :: 0 <= k < |order| ==> order[k] == sorted[k].id
    ensures DeepestFirst(g, order)
  {
    hide IsDepth;
    SortedAreDepths(g, list, sorted);
    forall i, j | 0 <= i < j < |order| ensures Precedes(g, order[i], order[j]) {
      assert !Before(sorted[j], sorted[i]);
    }
  }
}
