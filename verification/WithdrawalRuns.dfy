/**
 Two runs after which a withdrawal leaves a scope whose visible definitions no
 longer resolve: one strands a dependent, one exposes an outer definition that
 closes a cycle.
 */
module WithdrawalRuns {
  import opened Prelude
  import opened ResolverModel
  import opened ScopeModel
  import opened ScopeInvariants
  import opened ScopePublication
  import opened ScopeWithdrawal
  import opened TeardownCycle
  import Digraph

  // ---- A stranded dependent ----

  /** x, then m on x; then x is withdrawn. */
  const Stranding := [Commit(0, Leaf, New, map[]), Commit(0, OldMiddle, New, map[X := 1]), WithdrawFrom(0, X, 1)]

  lemma StrandingRun()
    ensures ExecuteAll(Root, Stranding[..2]) == T2 && ExecuteAll(Root, Stranding) == Execute(T2, Stranding[2])
  {
    hide Execute, T1, T2;
    RunStep(Stranding, 0);
    RunStep(Stranding, 1);
    RunStep(Stranding, 2);
    Step1();
    Step2();
    assert Stranding[..3] == Stranding && Stranding[..0] == [];
  }

  lemma DependentOfLeaf()
    ensures Strands(T2, 0, X)
  {
    hide VisibleDefinitions;
    RootView(map[X := 1, M := 2], map[1 := S1, 2 := S2], 3, map[X := Leaf, M := OldMiddle]);
    var view := VisibleDefinitions(T2, 0);
    assert M in view && X in view[M].dependencies;
    assert SeesDependent(T2, 0, X, 0);
  }

  /** Every view resolves, the withdrawal is accepted, and then the root's view does not. */
  lemma WithdrawalCanStrand()
    ensures var t := ExecuteAll(Root, Stranding[..2]);
            && AllResolve(t) && |t.scopes| == 1 && Withdraw(t, 0, X, 1).Ok?
            && !AllResolve(ExecuteAll(Root, Stranding))
  {
    hide Execute, AllResolve, Strands, Sound;
    StrandingRun();
    VisibleGraphsResolve(Stranding[..2]);
    LeafIsWithdrawable();
    DependentOfLeaf();
    SoundIsTidy(T2);
    WithdrawalIsExact(T2, 0, X, 1);
  }

  lemma LeafIsWithdrawable()
    ensures Withdraw(T2, 0, X, 1).Ok? && Inherited(T2, 0) == map[] && !T2.poisoned
    ensures Execute(T2, WithdrawFrom(0, X, 1)) == Withdraw(T2, 0, X, 1).value
  {
  }

  lemma SoundIsTidy(t: Tree)
    requires Sound(t) && !t.poisoned
    ensures Tidy(t)
  {
  }

  // ---- An exposed cycle ----

  const Over := Definition(X, {M})
  const R1 := Slot(NewMiddle, 1, map[])
  const R2 := Slot(Over, 1, map[M := 1])
  const R3 := Slot(Leaf, 1, map[])
  const R4 := Slot(OldMiddle, 1, map[X := 3])

  /** A root scope and one child. */
  function WithChild(outer: map<Id, nat>, inner: map<Id, nat>, slots: map<nat, Slot>, next: nat): Tree {
    Tree([Scope(None, outer, true, true, [1]), Scope(Some(0), inner, true, true, [])], slots, next, false)
  }

  ghost predicate Describes(definitions: Definitions, entries: map<Id, nat>, slots: map<nat, Slot>) {
    && definitions.Keys == entries.Keys
    && forall id :: id in entries ==> entries[id] in slots && slots[entries[id]].definition == definitions[id]
  }

  lemma ChildView(outer: map<Id, nat>, inner: map<Id, nat>, slots: map<nat, Slot>, next: nat, above: Definitions,
                  own: Definitions)
    requires Describes(above, outer, slots) && Describes(own, inner, slots)
    ensures var t := WithChild(outer, inner, slots, next);
            VisibleDefinitions(t, 0) == Inherited(t, 1) == above && VisibleDefinitions(t, 1) == above + own
  {
    var t := WithChild(outer, inner, slots, next);
    assert LocalDefinitions(t, outer) == above && LocalDefinitions(t, inner) == own;
    assert VisibleDefinitions(t, 0) == Inherited(t, 0) + LocalDefinitions(t, t.scopes[0].entries);
  }

  /** Publishing in the child, given a valid order of what it would then see. */
  lemma ChildPublication(outer: map<Id, nat>, inner: map<Id, nat>, slots: map<nat, Slot>, next: nat, above: Definitions,
                         own: Definitions, d: Definition, snapshot: map<Id, nat>, order: seq<Id>)
    requires Describes(above, outer, slots) && Describes(own, inner, slots) && d.id !in inner
    requires Holds(WithChild(outer, inner, slots, next), d, snapshot)
    requires Current(WithChild(outer, inner, slots, next), 1, snapshot)
    requires Digraph.IsTopologicalOrder(RelationOf((above + own)[d.id := d]), order)
    ensures Execute(WithChild(outer, inner, slots, next), Commit(1, d, New, snapshot)) ==
            WithChild(outer, inner[d.id := next], slots[next := Slot(d, 1, snapshot)], next + 1)
  {
    hide Publish, Digraph.IsTopologicalOrder, VisibleDefinitions, Holds, Current;
    var t := WithChild(outer, inner, slots, next);
    ChildView(outer, inner, slots, next, above, own);
    LeafPublication(t, 1, d, New, snapshot, (above + own)[d.id := d], order);
    assert Insert(t, 1, d, 1, snapshot).scopes ==
           [Scope(None, outer, true, true, [1]), Scope(Some(0), inner[d.id := next], true, true, [])];
  }

  /** Outside, m and x on m; inside, x on nothing and m on x; then the inner x is withdrawn. */
  const Exposing :=
    [Commit(0, NewMiddle, New, map[]), Commit(0, Over, New, map[M := 1]), ChildOf(0),
     Commit(1, Leaf, New, map[]), Commit(1, OldMiddle, New, map[X := 3]), WithdrawFrom(1, X, 1)]

  const Outer := map[M := 1, X := 2]
  const Above := map[M := NewMiddle, X := Over]
  const U1 := RootWith(map[M := 1], map[1 := R1], 2)
  const U2 := RootWith(Outer, map[1 := R1, 2 := R2], 3)
  const U3 := WithChild(Outer, map[], map[1 := R1, 2 := R2], 3)
  const U4 := WithChild(Outer, map[X := 3], map[1 := R1, 2 := R2, 3 := R3], 4)
  const U5 := WithChild(Outer, map[X := 3, M := 4], map[1 := R1, 2 := R2, 3 := R3, 4 := R4], 5)

  lemma OuterMiddle()
    ensures Execute(Root, Commit(0, NewMiddle, New, map[])) == U1
  {
    hide Execute;
    assert Elements([M]) == {M};
    assert map[][M := NewMiddle] == map[M := NewMiddle];
    RootPublication(map[], map[], 1, map[], NewMiddle, New, 1, map[], [M]);
    assert Root == RootWith(map[], map[], 1);
  }

  lemma OuterLeaf()
    ensures Execute(U1, Commit(0, Over, New, map[M := 1])) == U2
  {
    hide Execute, Digraph.IsTopologicalOrder;
    var before := map[M := NewMiddle];
    OrderOfTwo(before[X := Over], M, X);
    RootPublication(map[M := 1], map[1 := R1], 2, before, Over, New, 1, map[M := 1], [M, X]);
    assert map[M := 1][X := 2] == Outer;
  }

  lemma InnerScope()
    ensures Execute(U2, ChildOf(0)) == U3
  {
    hide Child;
    ChildFrame(U2, 0, 0);
    assert [] + [1] == [1];
    assert Child(U2, 0).scopes == U3.scopes;
  }

  lemma InnerLeaf()
    ensures Execute(U3, Commit(1, Leaf, New, map[])) == U4
  {
    hide Execute, Digraph.IsTopologicalOrder;
    var slots := map[1 := R1, 2 := R2];
    OrderOfTwo((Above + map[])[X := Leaf], M, X);
    ChildPublication(Outer, map[], slots, 3, Above, map[], Leaf, map[], [M, X]);
    assert slots[3 := R3] == map[1 := R1, 2 := R2, 3 := R3];
  }

  lemma InnerMiddle()
    ensures Execute(U4, Commit(1, OldMiddle, New, map[X := 3])) == U5
  {
    hide Execute, Digraph.IsTopologicalOrder;
    var slots := map[1 := R1, 2 := R2, 3 := R3];
    OrderOfTwo((Above + map[X := Leaf])[M := OldMiddle], X, M);
    assert Get(U4, 1, X) == Some(3);
    ChildPublication(Outer, map[X := 3], slots, 4, Above, map[X := Leaf], OldMiddle, map[X := 3], [X, M]);
    assert slots[4 := R4] == map[1 := R1, 2 := R2, 3 := R3, 4 := R4];
  }

  lemma ExposingRun()
    ensures ExecuteAll(Root, Exposing[..5]) == U5 && ExecuteAll(Root, Exposing) == Execute(U5, Exposing[5])
  {
    hide Execute, U1, U2, U3, U4, U5;
    RunStep(Exposing, 0);
    RunStep(Exposing, 1);
    RunStep(Exposing, 2);
    RunStep(Exposing, 3);
    RunStep(Exposing, 4);
    RunStep(Exposing, 5);
    OuterMiddle();
    OuterLeaf();
    InnerScope();
    InnerLeaf();
    InnerMiddle();
    assert Exposing[..6] == Exposing && Exposing[..0] == [];
  }

  const Closed := map[M := OldMiddle, X := Over]

  lemma ClosedIsCyclic()
    ensures !Resolves(Closed)
  {
    hide Resolve;
    ResolveIsExact(Closed);
    var p := [X, M, X];
    assert Digraph.IsEdge(RelationOf(Closed), X, M) && Digraph.IsEdge(RelationOf(Closed), M, X);
    assert Digraph.IsCycle(RelationOf(Closed), p);
  }

  lemma ChildViewOfU5()
    ensures Inherited(U5, 1) == Above && VisibleDefinitions(U5, 1) == Above + map[X := Leaf, M := OldMiddle]
  {
    hide VisibleDefinitions, Inherited;
    var slots := map[1 := R1, 2 := R2, 3 := R3, 4 := R4];
    ChildView(Outer, map[X := 3, M := 4], slots, 5, Above, map[X := Leaf, M := OldMiddle]);
  }

  lemma ExposedView()
    ensures (Above + map[X := Leaf, M := OldMiddle])[X := Over] == Closed
  {
  }

  lemma NotAdmissible(t: Tree, s: nat, d: Definition)
    requires s < |t.scopes| && !Resolves(VisibleDefinitions(t, s)[d.id := d])
    ensures !Admissible(t, s, d)
  {
    hide VisibleDefinitions, Resolve, AdmitDescendants;
  }

  /** The outer x would not be admitted in the child, whose m needs x. */
  lemma OuterLeafIsNotAdmissible()
    ensures |U5.scopes| == 2 && Inherited(U5, 1) == Above && !Admissible(U5, 1, Over)
  {
    hide Resolves, VisibleDefinitions, Admissible, Inherited;
    ChildViewOfU5();
    ExposedView();
    ClosedIsCyclic();
    NotAdmissible(U5, 1, Over);
  }

  lemma InnerLeafIsWithdrawable()
    ensures Withdraw(U5, 1, X, 1).Ok? && !U5.poisoned && |U5.scopes| == 2
    ensures Execute(U5, WithdrawFrom(1, X, 1)) == Withdraw(U5, 1, X, 1).value
  {
  }

  /** Every view resolves, nothing in the child is stranded, and yet the exposed definition closes a cycle. */
  lemma WithdrawalCanExposeACycle()
    ensures var t := ExecuteAll(Root, Exposing[..5]);
            && AllResolve(t) && |t.scopes| == 2 && Withdraw(t, 1, X, 1).Ok? && X in Inherited(t, 1)
            && !AllResolve(ExecuteAll(Root, Exposing))
  {
    hide Execute, AllResolve, Admissible, Sound, Inherited;
    ExposingRun();
    VisibleGraphsResolve(Exposing[..5]);
    InnerLeafIsWithdrawable();
    OuterLeafIsNotAdmissible();
    SoundIsTidy(U5);
    ExposureIsExact(U5, 1, X, 1);
  }
}
