/** A run without withdrawals after which the release of a child scope cannot be ordered. */
module TeardownCycle {
  import opened Prelude
  import opened ResolverModel
  import opened ScopeModel
  import opened ScopeInvariants
  import opened ScopePublication
  import Digraph

  lemma ResolvesInOrder(definitions: Definitions, order: seq<Id>)
    requires Digraph.IsTopologicalOrder(RelationOf(definitions), order)
    ensures Resolves(definitions)
  {
    hide Resolve;
    ResolveIsExact(definitions);
    Digraph.OrderedIsAcyclic(RelationOf(definitions), order);
    ClosedRelation(definitions);
  }

  /** Publishing in a scope without children, given a valid order of what it would then see. */
  lemma LeafPublication(t: Tree, s: nat, d: Definition, x: Expectation, snapshot: map<Id, nat>, visible: Definitions,
                        order: seq<Id>)
    requires s < |t.scopes| && t.scopes[s].children == [] && CheckExpectation(t, s, d.id, x) == Done
    requires Holds(t, d, snapshot) && Current(t, s, snapshot) && NextGeneration(t, s, d.id, x).Ok?
    requires visible == VisibleDefinitions(t, s)[d.id := d] && Digraph.IsTopologicalOrder(RelationOf(visible), order)
    ensures Publish(t, s, d, x, snapshot) == Ok(Insert(t, s, d, NextGeneration(t, s, d.id, x).value, snapshot))
  {
    hide CheckExpectation, NextGeneration, VisibleDefinitions, Resolve, Insert, ResolveDependencies, Current, Publish;
    ResolvesInOrder(visible, order);
    CurrentResolves(t, s, d, snapshot);
    assert Descendants(t, s) == [];
    PublishIsExact(t, s, d, x, snapshot);
    PublicationInserts(t, s, d, x, snapshot);
  }

  const B: Id := 1
  const M: Id := 2
  const T: Id := 3
  const X: Id := 4

  const Leaf := Definition(X, {})
  const OldMiddle := Definition(M, {X})
  const Bridge := Definition(B, {M})
  const NewMiddle := Definition(M, {})
  const NewLeaf := Definition(X, {B, M})
  const Top := Definition(T, {X})

  /** A root scope with the given entries and slots. */
  function RootWith(entries: map<Id, nat>, slots: map<nat, Slot>, next: nat): Tree {
    Tree([Scope(None, entries, true, true, [])], slots, next, false)
  }

  lemma RootView(entries: map<Id, nat>, slots: map<nat, Slot>, next: nat, definitions: Definitions)
    requires definitions.Keys == entries.Keys
    requires forall id :: id in entries ==> entries[id] in slots && slots[entries[id]].definition == definitions[id]
    ensures VisibleDefinitions(RootWith(entries, slots, next), 0) == definitions
  {
    var t := RootWith(entries, slots, next);
    assert LocalDefinitions(t, entries) == definitions;
    assert VisibleDefinitions(t, 0) == Inherited(t, 0) + LocalDefinitions(t, t.scopes[0].entries);
  }

  predicate Expected(entries: map<Id, nat>, slots: map<nat, Slot>, id: Id, x: Expectation, generation: nat) {
    match x
    case New => id !in entries && generation == 1
    case Replace(g) =>
      id in entries && entries[id] in slots && slots[entries[id]].generation == g < U64_MAX && generation == g + 1
  }

  /** One publication in a lone root scope. */
  lemma RootPublication(entries: map<Id, nat>, slots: map<nat, Slot>, next: nat, definitions: Definitions,
                        d: Definition, x: Expectation, generation: nat, snapshot: map<Id, nat>, order: seq<Id>)
    requires definitions.Keys == entries.Keys && Expected(entries, slots, d.id, x, generation)
    requires forall id :: id in entries ==>
      entries[id] in slots && slots[entries[id]].definition == definitions[id] && definitions[id].id == id
    requires snapshot.Keys == d.dependencies && forall y :: y in snapshot ==> y in entries && entries[y] == snapshot[y]
    requires Digraph.IsTopologicalOrder(RelationOf(definitions[d.id := d]), order)
    ensures Execute(RootWith(entries, slots, next), Commit(0, d, x, snapshot)) ==
            RootWith(entries[d.id := next], slots[next := Slot(d, generation, snapshot)], next + 1)
  {
    hide Publish, Digraph.IsTopologicalOrder, VisibleDefinitions;
    var t := RootWith(entries, slots, next);
    RootView(entries, slots, next, definitions);
    LeafPublication(t, 0, d, x, snapshot, definitions[d.id := d], order);
    assert NextGeneration(t, 0, d.id, x) == Ok(generation);
    assert Insert(t, 0, d, generation, snapshot).scopes == [Scope(None, entries[d.id := next], true, true, [])];
  }

  const S1 := Slot(Leaf, 1, map[])
  const S2 := Slot(OldMiddle, 1, map[X := 1])
  const S3 := Slot(Bridge, 1, map[M := 2])
  const S4 := Slot(NewMiddle, 2, map[])
  const S5 := Slot(NewLeaf, 2, map[B := 3, M := 4])
  const S6 := Slot(Top, 1, map[X := 5])

  const T1 := RootWith(map[X := 1], map[1 := S1], 2)
  const T2 := RootWith(map[X := 1, M := 2], map[1 := S1, 2 := S2], 3)
  const T3 := RootWith(map[X := 1, M := 2, B := 3], map[1 := S1, 2 := S2, 3 := S3], 4)
  const T4 := RootWith(map[X := 1, M := 4, B := 3], map[1 := S1, 2 := S2, 3 := S3, 4 := S4], 5)
  const T5 := RootWith(map[X := 5, M := 4, B := 3], map[1 := S1, 2 := S2, 3 := S3, 4 := S4, 5 := S5], 6)
  const T6 := Child(T5, 0)
  const T7 := Insert(T6, 1, Top, 1, map[X := 5])

  lemma Step1()
    ensures Execute(Root, Commit(0, Leaf, New, map[])) == T1
  {
    hide Execute;
    assert Elements([X]) == {X};
    assert map[][X := Leaf] == map[X := Leaf];
    RootPublication(map[], map[], 1, map[], Leaf, New, 1, map[], [X]);
    assert Root == RootWith(map[], map[], 1);
  }

  lemma Step2()
    ensures Execute(T1, Commit(0, OldMiddle, New, map[X := 1])) == T2
  {
    hide Execute, Digraph.IsTopologicalOrder;
    var before := map[X := Leaf];
    OrderOfTwo(before[M := OldMiddle], X, M);
    RootPublication(map[X := 1], map[1 := S1], 2, before, OldMiddle, New, 1, map[X := 1], [X, M]);
  }

  lemma OrderOfTwo(definitions: Definitions, a: Id, b: Id)
    requires definitions.Keys == {a, b} && a != b
    requires definitions[a].dependencies == {} && definitions[b].dependencies <= {a}
    ensures Digraph.IsTopologicalOrder(RelationOf(definitions), [a, b])
  {
    assert [a, b][..1] == [a] && a in Elements([a]);
    assert Elements([a, b]) == {a, b};
  }

  lemma OrderOfThree(definitions: Definitions, a: Id, b: Id, c: Id)
    requires definitions.Keys == {a, b, c} && a != b && b != c && a != c
    requires definitions[a].dependencies == {} && definitions[b].dependencies <= {a}
    requires definitions[c].dependencies <= {a, b}
    ensures Digraph.IsTopologicalOrder(RelationOf(definitions), [a, b, c])
  {
    var order := [a, b, c];
    assert order[..1] == [a] && a in Elements([a]);
    assert order[..2] == [a, b] && a in Elements([a, b]) && b in Elements([a, b]);
    assert Elements(order) == {a, b, c};
  }

  lemma Step3()
    ensures Execute(T2, Commit(0, Bridge, New, map[M := 2])) == T3
  {
    hide Execute, Digraph.IsTopologicalOrder;
    var before := map[X := Leaf, M := OldMiddle];
    OrderOfThree(before[B := Bridge], X, M, B);
    RootPublication(map[X := 1, M := 2], map[1 := S1, 2 := S2], 3, before, Bridge, New, 1, map[M := 2], [X, M, B]);
  }

  lemma Step4()
    ensures Execute(T3, Commit(0, NewMiddle, Replace(1), map[])) == T4
  {
    hide Execute, Digraph.IsTopologicalOrder;
    var before := map[X := Leaf, M := OldMiddle, B := Bridge];
    OrderOfThree(before[M := NewMiddle], X, M, B);
    var entries := map[X := 1, M := 2, B := 3];
    RootPublication(entries, map[1 := S1, 2 := S2, 3 := S3], 4, before, NewMiddle, Replace(1), 2, map[], [X, M, B]);
    assert entries[M := 4] == map[X := 1, M := 4, B := 3];
  }

  lemma Step5()
    ensures Execute(T4, Commit(0, NewLeaf, Replace(1), map[B := 3, M := 4])) == T5
  {
    hide Execute, Digraph.IsTopologicalOrder;
    var before := map[X := Leaf, M := NewMiddle, B := Bridge];
    OrderOfThree(before[X := NewLeaf], M, B, X);
    var entries := map[X := 1, M := 4, B := 3];
    RootPublication(entries, map[1 := S1, 2 := S2, 3 := S3, 4 := S4], 5, before, NewLeaf, Replace(1), 2,
                    map[B := 3, M := 4], [M, B, X]);
    assert entries[X := 5] == map[X := 5, M := 4, B := 3];
  }

  lemma AscendingOne(a: Id)
    ensures Ascending({a}) == [a]
  {
    assert {a} - {a} == {};
  }

  lemma AscendingTwo(a: Id, b: Id)
    requires a < b
    ensures Ascending({a, b}) == [a, b]
  {
    AscendingOne(b);
    assert {a, b} - {a} == {b};
  }

  lemma OnePin(slot: Slot, id: Id, e: nat)
    requires slot.dependencies == map[id := e]
    ensures PinnedBy(slot) == [e]
  {
    AscendingOne(id);
    assert slot.dependencies.Keys == {id};
    assert [id][1..] == [];
    assert PinsAt(slot.dependencies, [id]) == [e] + PinsAt(slot.dependencies, []);
  }

  lemma Pins()
    ensures PinnedBy(S1) == [] && PinnedBy(S2) == [1] && PinnedBy(S3) == [2]
    ensures PinnedBy(S4) == [] && PinnedBy(S5) == [3, 4] && PinnedBy(S6) == [5]
  {
    OnePin(S2, X, 1);
    OnePin(S3, M, 2);
    OnePin(S6, X, 5);
    AscendingTwo(B, M);
    assert S5.dependencies.Keys == {B, M};
    assert [B, M][1..] == [M] && [M][1..] == [];
    assert PinsAt(S5.dependencies, [M]) == [4] + PinsAt(S5.dependencies, []);
    assert PinsAt(S5.dependencies, [B, M]) == [3] + PinsAt(S5.dependencies, [M]);
  }

  lemma Step7()
    ensures Execute(T5, ChildOf(0)) == T6
    ensures Execute(T6, Commit(1, Top, New, map[X := 5])) == T7
  {
    hide Publish, Digraph.IsTopologicalOrder, VisibleDefinitions;
    var before := map[X := NewLeaf, M := NewMiddle, B := Bridge];
    ViewOfT6();
    OrderOfFour();
    LeafPublication(T6, 1, Top, New, map[X := 5], before[T := Top], [M, B, X, T]);
  }

  lemma ViewOfT6()
    ensures VisibleDefinitions(T6, 1) == map[X := NewLeaf, M := NewMiddle, B := Bridge]
  {
    hide VisibleDefinitions, Child;
    RootView(map[X := 5, M := 4, B := 3], map[1 := S1, 2 := S2, 3 := S3, 4 := S4, 5 := S5], 6,
             map[X := NewLeaf, M := NewMiddle, B := Bridge]);
    ChildSeesParent(T5, 0);
  }

  lemma OrderOfFour()
    ensures Digraph.IsTopologicalOrder(RelationOf(map[X := NewLeaf, M := NewMiddle, B := Bridge, T := Top]),
                                       [M, B, X, T])
  {
    var order := [M, B, X, T];
    assert order[..1] == [M] && M in Elements([M]);
    assert order[..2] == [M, B] && M in Elements([M, B]) && B in Elements([M, B]);
    assert order[..3] == [M, B, X] && X in Elements([M, B, X]);
    assert Elements(order) == {M, B, X, T};
  }

  /** The graph planned for the child mixes the new leaf with the middle it replaced. */
  lemma ChildGraph()
    ensures RuntimeGraph(T7, map[T := 6]) == map[T := Top, X := NewLeaf, B := Bridge, M := OldMiddle]
  {
    Pins();
    hide PinnedBy;
    var slots := map[1 := S1, 2 := S2, 3 := S3, 4 := S4, 5 := S5, 6 := S6];
    assert T7.slots == slots && T7.nextEntry == 7;
    hide Child, Insert, T7;
    AscendingOne(T);
    assert map[T := 6].Keys == {T} && [T][1..] == [];
    assert PinnedByAll(T7, map[T := 6], [T]) == [5];
    var start := Snapshot(map[T := Top], {6});
    assert LocalDefinitions(T7, map[T := 6]) == start.definitions && map[T := 6].Values == {6};
    WalkFromBridge();
    var atX := Snapshot(map[T := Top, X := NewLeaf], {5, 6});
    var below := Snapshot(map[T := Top, X := NewLeaf, B := Bridge, M := OldMiddle], {1, 2, 3, 4, 5, 6});
    assert start.visited + {5} == {5, 6};
    assert InsertSnapshots(T7, [3, 4], atX, 5) == below;
    assert [5][1..] == [];
    assert InsertSnapshots(T7, [5], start, 7) == below;
  }

  const WithBridge := map[T := Top, X := NewLeaf, B := Bridge]
  const Mixed := map[T := Top, X := NewLeaf, B := Bridge, M := OldMiddle]

  lemma SlotsOfT7()
    ensures T7.slots == map[1 := S1, 2 := S2, 3 := S3, 4 := S4, 5 := S5, 6 := S6]
  {
  }

  lemma WalkFromOldMiddle()
    ensures InsertSnapshots(T7, [2], Snapshot(WithBridge, {3, 5, 6}), 3) == Snapshot(Mixed, {1, 2, 3, 5, 6})
  {
    Pins();
    SlotsOfT7();
    hide PinnedBy, T7;
    assert [1][1..] == [] && [2][1..] == [];
    assert InsertSnapshots(T7, [1], Snapshot(Mixed, {2, 3, 5, 6}), 2) == Snapshot(Mixed, {1, 2, 3, 5, 6});
  }

  lemma WalkFromBridge()
    ensures InsertSnapshots(T7, [3, 4], Snapshot(map[T := Top, X := NewLeaf], {5, 6}), 5) ==
      Snapshot(Mixed, {1, 2, 3, 4, 5, 6})
  {
    Pins();
    SlotsOfT7();
    WalkFromOldMiddle();
    hide PinnedBy, T7;
    assert [3, 4][1..] == [4] && [4][1..] == [];
    assert InsertSnapshots(T7, [4], Snapshot(Mixed, {1, 2, 3, 5, 6}), 5) == Snapshot(Mixed, {1, 2, 3, 4, 5, 6});
  }

  const ReplacedMiddle: seq<Command> :=
    [Commit(0, Leaf, New, map[]), Commit(0, OldMiddle, New, map[X := 1]), Commit(0, Bridge, New, map[M := 2]),
     Commit(0, NewMiddle, Replace(1), map[]), Commit(0, NewLeaf, Replace(1), map[B := 3, M := 4]),
     ChildOf(0), Commit(1, Top, New, map[X := 5])]

  lemma RunStep(commands: seq<Command>, n: nat)
    requires n < |commands|
    ensures ExecuteAll(Root, commands[..n + 1]) == Execute(ExecuteAll(Root, commands[..n]), commands[n])
  {
    assert commands[..n + 1][..n] == commands[..n];
  }

  lemma RunReachesT7()
    ensures ExecuteAll(Root, ReplacedMiddle) == T7
  {
    hide Execute, T1, T2, T3, T4, T5, T6, T7;
    RunStep(ReplacedMiddle, 0); RunStep(ReplacedMiddle, 1); RunStep(ReplacedMiddle, 2); RunStep(ReplacedMiddle, 3);
    RunStep(ReplacedMiddle, 4); RunStep(ReplacedMiddle, 5); RunStep(ReplacedMiddle, 6);
    Step1(); Step2(); Step3(); Step4(); Step5(); Step7();
    assert ReplacedMiddle[..7] == ReplacedMiddle && ReplacedMiddle[..0] == [];
  }

  lemma ChildGraphIsCyclic()
    ensures !Resolves(RuntimeGraph(T7, map[T := 6]))
  {
    hide Resolve, RuntimeGraph;
    ChildGraph();
    var g := RuntimeGraph(T7, map[T := 6]);
    ResolveIsExact(g);
    var p := [X, M, X];
    assert Digraph.IsEdge(RelationOf(g), X, M) && Digraph.IsEdge(RelationOf(g), M, X);
    assert Digraph.IsCycle(RelationOf(g), p);
  }

  lemma ChildScope()
    ensures T7.scopes[1] == Scope(Some(0), map[T := 6], true, true, []) && |T7.scopes| == 2 && !T7.poisoned
  {
  }

  /** No withdrawal is needed for a child's release to be impossible to order. */
  lemma ChildTeardownCanPanic()
    ensures var t := ExecuteAll(Root, ReplacedMiddle);
            !t.poisoned && Enabled(t, TearDown(1)) && Execute(t, TearDown(1)).poisoned
  {
    hide RuntimeGraph, Resolves, T7, ReplacedMiddle;
    RunReachesT7();
    ChildScope();
    ChildGraphIsCyclic();
    assert ChildFirstOf(T7, 1, []) == [];
    assert ChildFirst(T7, 1) == [1];
    assert CloseAll(T7, [1]) == Close(T7, 1).(poisoned := true);
  }
}
