/** Longest paths of acyclic relations. */
module GraphDepth {
  import opened Prelude
  import Digraph

  ghost predicate PathFrom(g: Digraph.Relation, p: seq<nat>, id: nat) {
    p != [] && p[0] == id && Digraph.IsPath(g, p)
  }

  /** The longest path from a node has `depth` edges. */
  ghost predicate IsDepth(g: Digraph.Relation, id: nat, depth: nat) {
    && (exists p :: PathFrom(g, p, id) && |p| == depth + 1)
    && (forall p :: PathFrom(g, p, id) ==> |p| <= depth + 1)
  }

  lemma PathCons(g: Digraph.Relation, id: nat, q: nat, p: seq<nat>)
    requires PathFrom(g, p, q) && Digraph.IsEdge(g, id, q)
    ensures PathFrom(g, [id] + p, id)
  {
    var r := [id] + p;
    forall i | 0 <= i < |r| - 1 ensures Digraph.IsEdge(g, r[i], r[i + 1]) {
      if i > 0 { assert Digraph.IsEdge(g, p[i - 1], p[i]); }
    }
  }

  lemma PathTail(g: Digraph.Relation, id: nat, p: seq<nat>)
    requires PathFrom(g, p, id) && |p| > 1
    ensures Digraph.IsEdge(g, id, p[1]) && PathFrom(g, p[1..], p[1])
  {
    assert Digraph.IsEdge(g, p[0], p[1]);
    var r := p[1..];
    forall i | 0 <= i < |r| - 1
      ensures Digraph.IsEdge(g, r[i], r[i + 1])
    {
      assert Digraph.IsEdge(g, p[i + 1], p[i + 2]);
    }
  }

  lemma LoneNode(g: Digraph.Relation, id: nat)
    ensures PathFrom(g, [id], id)
  {
  }

  /** The depth of a node from the depths of the nodes it leads to. */
  lemma DepthFromTargets(g: Digraph.Relation, id: nat, best: nat)
    requires id in g
    requires forall q :: q in g[id] ==> exists d: nat :: IsDepth(g, q, d) && d + 1 <= best
    requires best == 0 || exists q :: q in g[id] && IsDepth(g, q, best - 1)
    ensures IsDepth(g, id, best)
  {
    hide Digraph.IsPath;
    LoneNode(g, id);
    if best > 0 {
      var q :| q in g[id] && IsDepth(g, q, best - 1);
      var p :| PathFrom(g, p, q) && |p| == best;
      PathCons(g, id, q, p);
    } else {
      assert |[id]| == 1;
    }
    forall p | PathFrom(g, p, id) ensures |p| <= best + 1 {
      if |p| > 1 {
        PathTail(g, id, p);
        var d: nat :| IsDepth(g, p[1], d) && d + 1 <= best;
        assert |p[1..]| <= d + 1;
      }
    }
  }

  /** A node is strictly deeper than the nodes it leads to. */
  lemma SourceIsDeeper(g: Digraph.Relation, from: nat, to: nat, a: nat, b: nat)
    requires Digraph.IsEdge(g, from, to) && IsDepth(g, from, a) && IsDepth(g, to, b)
    ensures a > b
  {
    var p :| PathFrom(g, p, to) && |p| == b + 1;
    PathCons(g, from, to, p);
  }

  // ---- Acyclic relations have depths ----

  /** The relation with every node it leads to registered. */
  function Completed(g: Digraph.Relation): Digraph.Relation {
    var missing := (set id, d | id in g && d in g[id] && d !in g :: d);
    g + map d | d in missing :: {}
  }

  lemma SameEdges(g: Digraph.Relation, from: nat, to: nat)
    ensures Digraph.IsEdge(Completed(g), from, to) <==> Digraph.IsEdge(g, from, to)
  {
  }

  lemma SamePaths(g: Digraph.Relation, p: seq<nat>)
    ensures Digraph.IsPath(Completed(g), p) <==> Digraph.IsPath(g, p)
  {
    hide Completed, Digraph.IsEdge;
    forall i | 0 <= i < |p| - 1
      ensures Digraph.IsEdge(Completed(g), p[i], p[i + 1]) <==> Digraph.IsEdge(g, p[i], p[i + 1])
    {
      SameEdges(g, p[i], p[i + 1]);
    }
  }

  lemma SameDepth(g: Digraph.Relation, id: nat, depth: nat)
    requires IsDepth(Completed(g), id, depth)
    ensures IsDepth(g, id, depth)
  {
    hide Completed, Digraph.IsPath;
    forall p ensures PathFrom(Completed(g), p, id) <==> PathFrom(g, p, id) { SamePaths(g, p); }
    var p :| PathFrom(Completed(g), p, id) && |p| == depth + 1;
    assert PathFrom(g, p, id);
  }

  lemma CompletedIsClosed(g: Digraph.Relation)
    requires Digraph.Acyclic(g)
    ensures Digraph.Closed(Completed(g)) && Digraph.Acyclic(Completed(g)) && g.Keys <= Completed(g).Keys
  {
    forall p ensures !Digraph.IsCycle(Completed(g), p) {
      SamePaths(g, p);
      assert !Digraph.IsCycle(g, p);
    }
  }

  ghost predicate HasDepth(g: Digraph.Relation, id: nat) {
    exists depth: nat :: IsDepth(g, id, depth)
  }

  /** The deepest of some nodes whose depths exist. */
  lemma {:induction false} Deepest(g: Digraph.Relation, targets: set<nat>) returns (best: nat)
    requires forall q :: q in targets ==> HasDepth(g, q)
    ensures forall q :: q in targets ==> exists d: nat :: IsDepth(g, q, d) && d + 1 <= best
    ensures best == 0 || exists q :: q in targets && IsDepth(g, q, best - 1)
  {
    hide IsDepth;
    if targets == {} {
      best := 0;
    } else {
      var q :| q in targets;
      var b := Deepest(g, targets - {q});
      var d: nat :| IsDepth(g, q, d);
      best := if d + 1 <= b then b else d + 1;
      forall x | x in targets ensures exists e: nat :: IsDepth(g, x, e) && e + 1 <= best {
        if x == q {
          assert IsDepth(g, q, d) && d + 1 <= best;
        } else {
          assert x in targets - {q};
          var e: nat :| IsDepth(g, x, e) && e + 1 <= b;
        }
      }
      if best != d + 1 {
        var x :| x in targets - {q} && IsDepth(g, x, best - 1);
      }
    }
  }

  lemma {:induction false} OrderedHasDepth(g: Digraph.Relation, order: seq<nat>, i: nat)
    requires Digraph.IsTopologicalOrder(g, order) && i < |order|
    ensures HasDepth(g, order[i])
  {
    hide IsDepth, HasDepth, Digraph.IsTopologicalOrder;
    var id := order[i];
    OrderFacts(g, order, i);
    forall q | q in g[id] ensures HasDepth(g, q) {
      assert q in Elements(order[..i]);
      var j :| 0 <= j < i && order[j] == q;
      OrderedHasDepth(g, order, j);
    }
    var best := Deepest(g, g[id]);
    DepthFromTargets(g, id, best);
    WitnessDepth(g, id, best);
  }

  lemma OrderFacts(g: Digraph.Relation, order: seq<nat>, i: nat)
    requires Digraph.IsTopologicalOrder(g, order) && i < |order|
    ensures order[i] in g && g[order[i]] <= Elements(order[..i])
  {
  }

  lemma WitnessDepth(g: Digraph.Relation, id: nat, depth: nat)
    requires IsDepth(g, id, depth)
    ensures HasDepth(g, id)
  {
  }

  /** In an acyclic relation every node has a longest path. */
  lemma AcyclicHasDepths(g: Digraph.Relation, id: nat)
    requires Digraph.Acyclic(g)
    ensures HasDepth(g, id)
  {
    hide Digraph.Acyclic, Digraph.Search, IsDepth, Completed;
    var c := Completed(g);
    CompletedIsClosed(g);
    if id in c {
      Digraph.SearchIsExact(c);
      var order := Digraph.Search(c).value;
      assert id in Elements(order);
      var i :| 0 <= i < |order| && order[i] == id;
      OrderedHasDepth(c, order, i);
      var d: nat :| IsDepth(c, id, d);
      SameDepth(g, id, d);
    } else {
      assert id !in g;
      LoneDepth(g, id);
    }
  }

  lemma LoneDepth(g: Digraph.Relation, id: nat)
    requires id !in g
    ensures IsDepth(g, id, 0)
  {
    LoneNode(g, id);
    forall p | PathFrom(g, p, id) ensures |p| <= 1 {
      if |p| > 1 { PathTail(g, id, p); }
    }
  }

  /** The longest path from a node, counted in edges. */
  ghost function Depth(g: Digraph.Relation, id: nat): nat
    requires HasDepth(g, id)
  {
    var depth: nat :| IsDepth(g, id, depth);
    depth
  }

  lemma DepthIsDepth(g: Digraph.Relation, id: nat)
    requires HasDepth(g, id)
    ensures IsDepth(g, id, Depth(g, id))
  {
  }

  lemma DepthWithinChain(g: Digraph.Relation, id: nat, depth: nat, longest: nat)
    requires IsDepth(g, id, depth) && IsLongestChain(g, longest)
    ensures depth <= longest
  {
    var p :| PathFrom(g, p, id) && |p| == depth + 1;
  }

  /** No path has more than `longest` edges, and some path has as many. */
  ghost predicate IsLongestChain(g: Digraph.Relation, longest: nat) {
    && (exists p :: p != [] && Digraph.IsPath(g, p) && |p| == longest + 1)
    && (forall p :: p != [] && Digraph.IsPath(g, p) ==> |p| <= longest + 1)
  }

  /** Every acyclic relation has a longest chain. */
  lemma LongestChainExists(g: Digraph.Relation) returns (longest: nat)
    requires Digraph.Acyclic(g)
    ensures IsLongestChain(g, longest)
  {
    hide Digraph.Acyclic, Digraph.IsPath;
    forall q | q in g.Keys ensures HasDepth(g, q) { AcyclicHasDepths(g, q); }
    var best := Deepest(g, g.Keys);
    longest := if best == 0 then 0 else best - 1;
    if best == 0 {
      LoneNode(g, 0);
      assert [0] != [] && |[0]| == 1;
    } else {
      var q :| q in g.Keys && IsDepth(g, q, best - 1);
      var p :| PathFrom(g, p, q) && |p| == best;
    }
    forall p | p != [] && Digraph.IsPath(g, p) ensures |p| <= longest + 1 {
      assert PathFrom(g, p, p[0]);
      if p[0] in g.Keys {
        var d: nat :| IsDepth(g, p[0], d) && d + 1 <= best;
      } else {
        LoneDepth(g, p[0]);
      }
    }
  }
}
