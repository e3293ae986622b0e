/**
 Dependency relations: closed paths, topological orders, and the depth-first
 search shared by the workflow cycle check and the capability resolver.
 */
module Digraph {
  import opened Prelude

  /** Each node with the set of nodes it depends on. */
  type Relation = map<Id, set<Id>>

  ghost predicate IsEdge(g: Relation, from: Id, to: Id) {
    from in g && to in g[from]
  }

  ghost predicate IsPath(g: Relation, p: seq<Id>) {
    forall i :: 0 <= i < |p| - 1 ==> IsEdge(g, p[i], p[i + 1])
  }

  /** A closed path: at least one edge, and the first node is repeated last. */
  ghost predicate IsCycle(g: Relation, p: seq<Id>) {
    |p| >= 2 && p[0] == p[|p| - 1] && IsPath(g, p)
  }

  ghost predicate Acyclic(g: Relation) {
    forall p :: !IsCycle(g, p)
  }

  ghost predicate Closed(g: Relation) {
    forall id, d :: id in g && d in g[id] ==> d in g
  }

  /** Every node of `order` comes after all the nodes it depends on. */
  ghost predicate DependenciesFirst(g: Relation, order: seq<Id>) {
    forall i :: 0 <= i < |order| ==> order[i] in g && g[order[i]] <= Elements(order[..i])
  }

  ghost predicate IsTopologicalOrder(g: Relation, order: seq<Id>) {
    Distinct(order) && Elements(order) == g.Keys && DependenciesFirst(g, order)
  }

  lemma {:induction false} OrderDecreasesAlongPath(g: Relation, order: seq<Id>, p: seq<Id>, i: nat, j: nat)
    requires IsTopologicalOrder(g, order) && IsPath(g, p)
    requires |p| >= 2 && i < |order| && p[0] == order[i]
    requires j < |order| && p[|p| - 1] == order[j]
    ensures j < i
  {
    assert IsEdge(g, p[0], p[1]);
    assert p[1] in Elements(order[..i]);
    var k :| 0 <= k < i && order[k] == p[1];
    if |p| > 2 {
      forall q | 0 <= q < |p| - 2 ensures IsEdge(g, p[1..][q], p[1..][q + 1]) {
        assert IsEdge(g, p[q + 1], p[q + 2]);
      }
      OrderDecreasesAlongPath(g, order, p[1..], k, j);
    }
  }

  lemma OrderedIsAcyclic(g: Relation, order: seq<Id>)
    requires IsTopologicalOrder(g, order)
    ensures Closed(g) && Acyclic(g)
  {
    forall id, d | id in g && d in g[id] ensures d in g {
      assert id in Elements(order);
      var i :| 0 <= i < |order| && order[i] == id;
      assert d in Elements(order[..i]);
      assert d in Elements(order);
    }
    forall p ensures !IsCycle(g, p) {
      if IsCycle(g, p) {
        assert IsEdge(g, p[0], p[1]);
        assert p[0] in Elements(order);
        var i :| 0 <= i < |order| && order[i] == p[0];
        OrderDecreasesAlongPath(g, order, p, i, i);
      }
    }
  }

  lemma SelfEdgeIsCyclic(g: Relation, id: Id)
    requires IsEdge(g, id, id)
    ensures !Acyclic(g)
  {
    assert IsCycle(g, [id, id]);
  }

  /** Removing edges or nodes cannot create a cycle. */
  lemma AcyclicIsAntitone(small: Relation, large: Relation)
    requires Acyclic(large)
    requires forall id :: id in small && small[id] != {} ==> id in large && small[id] <= large[id]
    ensures Acyclic(small)
  {
    forall p ensures !IsCycle(small, p) {
      if IsCycle(small, p) {
        forall i | 0 <= i < |p| - 1 ensures IsEdge(large, p[i], p[i + 1]) {
          assert IsEdge(small, p[i], p[i + 1]);
        }
        assert IsCycle(large, p);
      }
    }
  }

  datatype Mark = Active | Complete

  datatype SearchFailure =
    | Cyclic(path: seq<Id>)
    | Missing(node: Id, dependency: Id)

  datatype SearchState = SearchState(marks: map<Id, Mark>, order: seq<Id>)

  /** Position of the first occurrence. */
  function FirstIndex(s: seq<Id>, x: Id): (i: nat)
    requires x in s
    ensures i < |s| && s[i] == x && x !in s[..i]
  {
    if s[0] == x then 0 else 1 + FirstIndex(s[1..], x)
  }

  /** The closed path found when `d`, already active, is met again below `stack`. */
  function ClosedPath(stack: seq<Id>, d: Id): seq<Id> {
    if d in stack then stack[FirstIndex(stack, d)..] + [d] else []
  }

  function Top(stack: seq<Id>): Id {
    if stack == [] then 0 else stack[|stack| - 1]
  }

  /**
   Visits `ids` in turn below the nodes of `stack`, which are the active ones;
   finished nodes are appended to the order.
   */
  function Visit(g: Relation, ids: seq<Id>, s: SearchState, stack: seq<Id>): (r: Result<SearchState, SearchFailure>)
    ensures r.Ok? ==> Unmarked(g, r.value.marks) <= Unmarked(g, s.marks)
    decreases Unmarked(g, s.marks), |ids|
  {
    if ids == [] then Ok(s)
    else
      var d := ids[0];
      if d !in g then Err(Missing(Top(stack), d))
      else if d in s.marks then
        if s.marks[d] == Active then Err(Cyclic(ClosedPath(stack, d)))
        else Visit(g, ids[1..], s, stack)
      else
        var entered := s.(marks := s.marks[d := Active]);
        MarkingIsProgress(g, s.marks, d, Active);
        var below := Visit(g, Ascending(g[d]), entered, stack + [d]);
        if below.Err? then below
        else
          var closed := Finish(below.value, d);
          MarkingIsProgress(g, below.value.marks, d, Complete);
          Visit(g, ids[1..], closed, stack)
  }

  function Finish(s: SearchState, d: Id): SearchState {
    SearchState(s.marks[d := Complete], s.order + [d])
  }

  lemma SmallerSet<T>(a: set<T>, b: set<T>)
    requires a < b
    ensures |a| < |b|
  {
    assert b == a + (b - a);
  }

  /** The number of nodes a search has yet to meet. */
  ghost function Unmarked(g: Relation, marks: map<Id, Mark>): nat {
    |g.Keys - marks.Keys|
  }

  lemma MarkingIsProgress(g: Relation, marks: map<Id, Mark>, id: Id, mark: Mark)
    ensures Unmarked(g, marks[id := mark]) <= Unmarked(g, marks)
    ensures id in g && id !in marks ==> Unmarked(g, marks[id := mark]) < Unmarked(g, marks)
  {
    var after := marks[id := mark];
    if id in g.Keys - marks.Keys {
      assert g.Keys - after.Keys == (g.Keys - marks.Keys) - {id};
    } else {
      assert g.Keys - after.Keys == g.Keys - marks.Keys;
    }
  }

  const Unvisited := SearchState(map[], [])

  /** The complete search: a dependency-first order, or the first failure met. */
  function Search(g: Relation): Result<seq<Id>, SearchFailure> {
    match Visit(g, Ascending(g.Keys), Unvisited, [])
    case Ok(s) => Ok(s.order)
    case Err(e) => Err(e)
  }

  /** Visiting one unmarked node: its dependencies below it, then finishing it. */
  lemma VisitNode(g: Relation, id: Id, s: SearchState, stack: seq<Id>)
    requires id in g && id !in s.marks
    ensures var below := Visit(g, Ascending(g[id]), s.(marks := s.marks[id := Active]), stack + [id]);
            && (below.Err? ==> Visit(g, [id], s, stack) == below)
            && (below.Ok? ==> Visit(g, [id], s, stack) == Ok(Finish(below.value, id)))
  {
    assert [id][1..] == [];
  }

  /** A marked node is passed over when complete and closes a cycle when active. */
  lemma VisitMarked(g: Relation, ids: seq<Id>, s: SearchState, stack: seq<Id>)
    requires ids != [] && ids[0] in g && ids[0] in s.marks
    ensures Visit(g, ids, s, stack) ==
            if s.marks[ids[0]] == Active then Err(Cyclic(ClosedPath(stack, ids[0]))) else Visit(g, ids[1..], s, stack)
  {
  }

  /** Any registered head of the list may be visited alone first. */
  lemma VisitHead(g: Relation, ids: seq<Id>, s: SearchState, stack: seq<Id>)
    requires ids != [] && ids[0] in g
    ensures var first := Visit(g, [ids[0]], s, stack);
            && (first.Err? ==> Visit(g, ids, s, stack) == first)
            && (first.Ok? ==> Visit(g, ids, s, stack) == Visit(g, ids[1..], first.value, stack))
  {
    assert [ids[0]][1..] == [];
  }

  lemma VisitUnknown(g: Relation, ids: seq<Id>, s: SearchState, stack: seq<Id>)
    requires ids != [] && ids[0] !in g && stack != []
    ensures Visit(g, ids, s, stack) == Err(Missing(stack[|stack| - 1], ids[0]))
  {
  }

  lemma VisitNothing(g: Relation, s: SearchState, stack: seq<Id>)
    ensures Visit(g, [], s, stack) == Ok(s)
  {
  }

  /** What the search keeps: active nodes form a path, complete nodes are ordered. */
  ghost predicate SearchInvariant(g: Relation, s: SearchState, stack: seq<Id>) {
    MarksMatch(g, s, stack) && Distinct(s.order) && DependenciesFirst(g, s.order) && IsPath(g, stack)
  }

  /** The marks say exactly what is ordered and what is on the path. */
  ghost predicate MarksMatch(g: Relation, s: SearchState, stack: seq<Id>) {
    && s.marks.Keys <= g.Keys
    && (forall id :: id in s.marks && s.marks[id] == Complete <==> id in s.order)
    && (forall id :: id in s.marks && s.marks[id] == Active <==> id in stack)
    && (forall id :: id in stack ==> id in g)
  }

  ghost predicate IsWitness(g: Relation, e: SearchFailure) {
    match e
    case Cyclic(p) => IsCycle(g, p)
    case Missing(n, d) => n in g && d in g[n] && d !in g
  }

  lemma FinishKeepsInvariant(g: Relation, s: SearchState, stack: seq<Id>, d: Id)
    requires SearchInvariant(g, s, stack + [d]) && d in g && d !in stack
    requires g[d] <= Elements(s.order)
    ensures SearchInvariant(g, Finish(s, d), stack)
  {
    hide Elements, DependenciesFirst, IsPath, MarksMatch;
    FinishMatches(g, s, stack, d);
    OrderedNext(g, s.order, d);
    PathFront(g, stack, d);
  }

  lemma FinishMatches(g: Relation, s: SearchState, stack: seq<Id>, d: Id)
    requires MarksMatch(g, s, stack + [d]) && d in g && d !in stack
    ensures MarksMatch(g, Finish(s, d), stack) && d !in s.order
  {
    forall id ensures id in stack + [d] <==> id in stack || id == d { }
    assert s.marks[d] == Active by { assert d in stack + [d]; }
    forall id ensures id in s.order + [d] <==> id in s.order || id == d { }
  }

  lemma OrderedNext(g: Relation, order: seq<Id>, d: Id)
    requires DependenciesFirst(g, order) && d in g && g[d] <= Elements(order)
    ensures DependenciesFirst(g, order + [d])
  {
    var after := order + [d];
    forall i | 0 <= i < |after| ensures after[i] in g && g[after[i]] <= Elements(after[..i]) {
      if i < |order| { assert after[..i] == order[..i]; } else { assert after[..i] == order; }
    }
  }

  lemma PathFront(g: Relation, p: seq<Id>, d: Id)
    requires IsPath(g, p + [d])
    ensures IsPath(g, p)
  {
    forall i | 0 <= i < |p| - 1 ensures IsEdge(g, p[i], p[i + 1]) {
      assert IsEdge(g, (p + [d])[i], (p + [d])[i + 1]);
    }
  }

  lemma OpenKeepsInvariant(g: Relation, s: SearchState, stack: seq<Id>, d: Id)
    requires SearchInvariant(g, s, stack) && d in g && d !in s.marks
    requires stack != [] ==> IsEdge(g, stack[|stack| - 1], d)
    ensures SearchInvariant(g, s.(marks := s.marks[d := Active]), stack + [d])
  {
    var e := s.(marks := s.marks[d := Active]);
    forall i | 0 <= i < |stack| ensures IsEdge(g, (stack + [d])[i], (stack + [d])[i + 1]) {
      if i < |stack| - 1 { assert IsEdge(g, stack[i], stack[i + 1]); }
    }
    forall id ensures id in e.marks && e.marks[id] == Active <==> id in stack + [d] {
      assert id in stack + [d] <==> id in stack || id == d;
    }
    forall id ensures id in e.marks && e.marks[id] == Complete <==> id in e.order {
      if id == d { assert d !in s.order; }
    }
  }

  lemma {:induction false} VisitSound(g: Relation, ids: seq<Id>, s: SearchState, stack: seq<Id>)
    requires SearchInvariant(g, s, stack)
    requires stack == [] ==> forall id :: id in ids ==> id in g
    requires stack != [] ==> forall id :: id in ids ==> IsEdge(g, stack[|stack| - 1], id)
    ensures match Visit(g, ids, s, stack)
            case Ok(t) =>
              && SearchInvariant(g, t, stack)
              && Elements(ids) <= Elements(t.order) && Elements(s.order) <= Elements(t.order)
            case Err(e) => IsWitness(g, e)
    decreases Unmarked(g, s.marks), |ids|
  {
    hide SearchInvariant, Unmarked, IsPath;
    if ids == [] { return; }
    var d := ids[0];
    assert forall id :: id in ids[1..] ==> id in ids;
    HeadAndRest(ids);
    InvariantFacts(g, s, stack);
    if d !in g { return; }
    if d in s.marks {
      if s.marks[d] == Active { ClosedPathIsCycle(g, stack, d); } else { VisitSound(g, ids[1..], s, stack); }
      return;
    }
    var entered := s.(marks := s.marks[d := Active]);
    MarkingIsProgress(g, s.marks, d, Active);
    OpenKeepsInvariant(g, s, stack, d);
    VisitSound(g, Ascending(g[d]), entered, stack + [d]);
    var below := Visit(g, Ascending(g[d]), entered, stack + [d]);
    if below.Ok? {
      var closed := Finish(below.value, d);
      MarkingIsProgress(g, below.value.marks, d, Complete);
      FinishKeepsInvariant(g, below.value, stack, d);
      VisitSound(g, ids[1..], closed, stack);
    }
  }

  lemma HeadAndRest(ids: seq<Id>)
    requires ids != []
    ensures Elements(ids) == {ids[0]} + Elements(ids[1..])
  {
    assert ids == [ids[0]] + ids[1..];
  }

  lemma InvariantFacts(g: Relation, s: SearchState, stack: seq<Id>)
    requires SearchInvariant(g, s, stack)
    ensures IsPath(g, stack)
    ensures forall id :: id in s.marks && s.marks[id] == Complete <==> id in s.order
    ensures forall id :: id in s.marks && s.marks[id] == Active <==> id in stack
  {
  }

  lemma ClosedPathIsCycle(g: Relation, stack: seq<Id>, d: Id)
    requires IsPath(g, stack) && d in stack && IsEdge(g, stack[|stack| - 1], d)
    ensures IsCycle(g, ClosedPath(stack, d))
  {
    var p, k := ClosedPath(stack, d), FirstIndex(stack, d);
    forall i | 0 <= i < |p| - 1 ensures IsEdge(g, p[i], p[i + 1]) {
      assert i < |stack| - k - 1 ==> IsEdge(g, stack[k + i], stack[k + i + 1]);
    }
  }

  lemma EmptyInvariant(g: Relation)
    ensures SearchInvariant(g, Unvisited, [])
  {
  }

  /** The search succeeds exactly on closed acyclic relations and explains every failure. */
  lemma SearchIsExact(g: Relation)
    ensures Search(g).Ok? <==> Closed(g) && Acyclic(g)
    ensures Search(g).Ok? ==> IsTopologicalOrder(g, Search(g).value)
    ensures Search(g).Err? ==> IsWitness(g, Search(g).error)
  {
    hide Visit, IsPath;
    EmptyInvariant(g);
    VisitSound(g, Ascending(g.Keys), Unvisited, []);
    if Search(g).Ok? {
      assert Elements(Ascending(g.Keys)) == g.Keys;
      OrderedIsAcyclic(g, Search(g).value);
    }
  }
}
