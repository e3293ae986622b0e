/** What a publication guarantees, however the tree changed between its two phases. */
module ScopePublication {
  import opened Prelude
  import opened ResolverModel
  import opened ScopeModel
  import opened ScopeInvariants
  import Digraph

  // ---- Lookup ----

  /** A lookup depends only on the entries and gates of the scope and its ancestors. */
  lemma {:induction false} GetAfterInsert(t: Tree, s: nat, d: Definition, generation: nat, snapshot: map<Id, nat>,
                                          x: nat, id: Id)
    requires Tidy(t) && s < |t.scopes| && x < |t.scopes|
    requires id != d.id || x < s
    ensures Get(Insert(t, s, d, generation, snapshot), x, id) == Get(t, x, id)
    decreases x
  {
    hide Insert;
    InsertFrame(t, s, d, generation, snapshot, x);
    hide Housed, Pinned, Upward;
    if t.scopes[x].parent.Some? { GetAfterInsert(t, s, d, generation, snapshot, t.scopes[x].parent.value, id); }
  }

  lemma NoSelfDependency(definitions: Definitions, d: Definition)
    requires ValidateCandidate(definitions, d).Ok?
    ensures d.id !in d.dependencies
  {
    hide Resolve;
    var after := definitions[d.id := d];
    ResolveIsExact(after);
    if d.id in d.dependencies { Digraph.SelfEdgeIsCyclic(RelationOf(after), d.id); }
  }

  lemma ResolvedAs(t: Tree, s: nat, d: Definition)
    requires ResolveDependencies(t, s, d).Ok?
    ensures var m := ResolveDependencies(t, s, d).value;
            m.Keys == d.dependencies && forall x :: x in d.dependencies ==> Get(t, s, x) == Some(m[x])
  {
    forall x | x in d.dependencies ensures Get(t, s, x).Some? {
      assert x !in Unresolved(t, s, d);
    }
  }

  lemma UnchangedSnapshot(t: Tree, s: nat, d: Definition, snapshot: map<Id, nat>)
    requires snapshot.Keys == d.dependencies && ResolveDependencies(t, s, d).Ok?
    ensures Changed(t, s, d, snapshot) == {} <==> ResolveDependencies(t, s, d) == Ok(snapshot)
  {
    hide Get, ResolveDependencies;
    ResolvedAs(t, s, d);
    var m := ResolveDependencies(t, s, d).value;
    if Changed(t, s, d, snapshot) == {} {
      forall x | x in m ensures m[x] == snapshot[x] {
        assert x !in Changed(t, s, d, snapshot);
      }
      assert m == snapshot;
    }
  }

  // ---- Publication ----

  /**
   The second phase accepts a snapshot exactly when the first phase, run at that
   moment, would hand out the same snapshot, every open descendant that sees the
   candidate admits it, and the generation has not run out.
   */
  lemma PublishIsExact(t: Tree, s: nat, d: Definition, x: Expectation, snapshot: map<Id, nat>)
    requires s < |t.scopes| && Holds(t, d, snapshot)
    ensures Publish(t, s, d, x, snapshot).Ok? <==>
              && Prepare(t, s, d, x) == Ok(snapshot)
              && AdmitDescendants(t, s, d, Descendants(t, s)) == Done
              && NextGeneration(t, s, d.id, x).Ok?
  {
    hide ResolveDependencies, Changed, AdmitDescendants, ValidateCandidate, VisibleDefinitions, Insert,
      NextGeneration, Descendants, CheckExpectation;
    if ResolveDependencies(t, s, d).Ok? { UnchangedSnapshot(t, s, d, snapshot); }
  }

  /** The entry a publication creates: its identity, its slot, and a local lookup of it. */
  lemma InsertedEntry(t: Tree, s: nat, d: Definition, generation: nat, snapshot: map<Id, nat>)
    requires Tidy(t) && s < |t.scopes| && t.scopes[s].open
    ensures var u := Insert(t, s, d, generation, snapshot);
            && t.nextEntry !in t.slots && u.slots == t.slots[t.nextEntry := Slot(d, generation, snapshot)]
            && u.nextEntry == t.nextEntry + 1 && |u.scopes| == |t.scopes| && Get(u, s, d.id) == Some(t.nextEntry)
            && u.scopes[s] == t.scopes[s].(entries := t.scopes[s].entries[d.id := t.nextEntry])
  {
  }

  lemma NextGenerationIs(t: Tree, s: nat, d: Definition, x: Expectation, snapshot: map<Id, nat>)
    requires Tidy(t) && s < |t.scopes| && Prepare(t, s, d, x) == Ok(snapshot) && NextGeneration(t, s, d.id, x).Ok?
    ensures NextGeneration(t, s, d.id, x).value ==
              if d.id in t.scopes[s].entries then t.slots[t.scopes[s].entries[d.id]].generation + 1 else 1
  {
    hide Prepare;
    PreparedFacts(t, s, d, x, snapshot);
  }

  /** Every pin of the snapshot is what the scope resolves. */
  ghost predicate Current(t: Tree, s: nat, snapshot: map<Id, nat>) {
    forall y :: y in snapshot ==> Get(t, s, y) == Some(snapshot[y])
  }

  lemma CurrentResolves(t: Tree, s: nat, d: Definition, snapshot: map<Id, nat>)
    requires snapshot.Keys == d.dependencies && Current(t, s, snapshot)
    ensures ResolveDependencies(t, s, d) == Ok(snapshot)
  {
    forall x | x in d.dependencies ensures Get(t, s, x).Some? { assert x in snapshot; }
    assert Unresolved(t, s, d) == {};
    assert ResolveDependencies(t, s, d).value == snapshot;
  }

  lemma PreparedFacts(t: Tree, s: nat, d: Definition, x: Expectation, snapshot: map<Id, nat>)
    requires s < |t.scopes| && Prepare(t, s, d, x) == Ok(snapshot)
    ensures t.scopes[s].open && d.id !in d.dependencies
    ensures x.New? <==> d.id !in t.scopes[s].entries
    ensures snapshot.Keys == d.dependencies && Current(t, s, snapshot)
  {
    hide ResolveDependencies, VisibleDefinitions, Get, ValidateCandidate;
    NoSelfDependency(VisibleDefinitions(t, s), d);
    ResolvedAs(t, s, d);
  }

  lemma InsertKeepsCurrent(t: Tree, s: nat, d: Definition, generation: nat, snapshot: map<Id, nat>)
    requires Tidy(t) && s < |t.scopes| && d.id !in snapshot && Current(t, s, snapshot)
    ensures Current(Insert(t, s, d, generation, snapshot), s, snapshot)
  {
    hide Get, Insert, Tidy;
    forall y | y in snapshot ensures Get(Insert(t, s, d, generation, snapshot), s, y) == Some(snapshot[y]) {
      GetAfterInsert(t, s, d, generation, snapshot, s, y);
    }
  }

  /** A committed entry pins exactly what its scope resolves, before and after the commit. */
  lemma PublishedIsCurrent(t: Tree, s: nat, d: Definition, x: Expectation, snapshot: map<Id, nat>)
    requires Tidy(t) && s < |t.scopes| && Holds(t, d, snapshot) && Publish(t, s, d, x, snapshot).Ok?
    ensures var u, e := Publish(t, s, d, x, snapshot).value, t.nextEntry;
            && Get(u, s, d.id) == Some(e) && e !in t.slots && u.slots.Keys == t.slots.Keys + {e}
            && u.slots[e].definition == d && u.slots[e].dependencies == snapshot && snapshot.Keys == d.dependencies
            && Current(t, s, snapshot) && Current(u, s, snapshot)
            && u.slots[e].generation ==
               (if d.id in t.scopes[s].entries then t.slots[t.scopes[s].entries[d.id]].generation + 1 else 1)
  {
    hide *;
    PublicationInserts(t, s, d, x, snapshot);
    PublishIsExact(t, s, d, x, snapshot);
    PreparedFacts(t, s, d, x, snapshot);
    NextGenerationIs(t, s, d, x, snapshot);
    var generation := NextGeneration(t, s, d.id, x).value;
    InsertedEntry(t, s, d, generation, snapshot);
    InsertKeepsCurrent(t, s, d, generation, snapshot);
  }

  /**
   A snapshot taken in one state and published in any later one names, at the
   commit, the same entries the scope resolved when it was taken.
   */
  lemma NoStalePublication(before: Tree, t: Tree, s: nat, d: Definition, x: Expectation, snapshot: map<Id, nat>)
    requires s < |before.scopes| && Prepare(before, s, d, x) == Ok(snapshot)
    requires Tidy(t) && s < |t.scopes| && Holds(t, d, snapshot) && Publish(t, s, d, x, snapshot).Ok?
    ensures forall y :: y in d.dependencies ==> Get(before, s, y).Some? && Get(before, s, y) == Get(t, s, y)
  {
    hide Prepare, Publish, Get, Holds, Tidy;
    PreparedFacts(before, s, d, x, snapshot);
    PublishedIsCurrent(t, s, d, x, snapshot);
  }

  // ---- Identity ----

  /** Published entries are permanent and their identities are never used again. */
  ghost predicate Extends(t: Tree, u: Tree) {
    && t.nextEntry <= u.nextEntry && |t.scopes| <= |u.scopes|
    && (forall e :: e in t.slots ==> e in u.slots && u.slots[e] == t.slots[e])
    && (forall e :: e in u.slots && e !in t.slots ==> t.nextEntry <= e < u.nextEntry)
  }

  lemma ExecuteExtends(t: Tree, c: Command)
    requires Sound(t)
    ensures Extends(t, Execute(t, c))
  {
    hide Housed, Parented, Upward, Publish, Teardown, Forget, Child, CloseAll, ChildFirst, NextGeneration, Holds;
    if Enabled(t, c) {
      match c
      case ChildOf(s) => ChildFrame(t, s, s);
      case Commit(s, d, x, snapshot) =>
        if Publish(t, s, d, x, snapshot).Ok? { PublicationInserts(t, s, d, x, snapshot); }
      case WithdrawFrom(s, id, generation) =>
      case TearDown(s) => TeardownClosesSome(t, s);
      case ForgetScope(s) => ForgetCloses(t, s);
    }
  }

  lemma TeardownClosesSome(t: Tree, s: nat)
    requires s < |t.scopes|
    ensures ClosesSome(t, Teardown(t, s))
  {
    hide CloseAll, ClosesSome;
    CloseAllCloses(t, ChildFirst(t, s));
  }

  /** Over any run an entry identity names one publication, for ever. */
  lemma {:induction false} EntryIdentityIsExact(t: Tree, commands: seq<Command>)
    requires Sound(t)
    ensures Sound(ExecuteAll(t, commands)) && Extends(t, ExecuteAll(t, commands))
    decreases |commands|
  {
    hide Sound, Execute;
    if commands != [] {
      EntryIdentityIsExact(t, commands[..|commands| - 1]);
      var u := ExecuteAll(t, commands[..|commands| - 1]);
      ExecuteKeepsSound(u, commands[|commands| - 1]);
      ExecuteExtends(u, commands[|commands| - 1]);
    }
  }

  /** A scope that has no local entry for an identifier publishes it under the first generation. */
  lemma FirstGeneration(t: Tree, s: nat, d: Definition, snapshot: map<Id, nat>)
    requires Tidy(t) && s < |t.scopes| && Holds(t, d, snapshot) && Publish(t, s, d, New, snapshot).Ok?
    ensures Publish(t, s, d, New, snapshot).value == Insert(t, s, d, 1, snapshot) && t.scopes[s].open
  {
    hide Publish, Holds, Tidy, Insert;
    PublicationInserts(t, s, d, New, snapshot);
    assert NextGeneration(t, s, d.id, New).value == 1;
  }

  /** The publication just made can always be withdrawn under its first generation. */
  lemma FreshEntryIsWithdrawable(t: Tree, s: nat, d: Definition, snapshot: map<Id, nat>, a: Tree)
    requires Tidy(t) && s < |t.scopes| && Holds(t, d, snapshot) && Publish(t, s, d, New, snapshot) == Ok(a)
    ensures s < |a.scopes| && Withdraw(a, s, d.id, 1).Ok?
  {
    hide Publish, Holds, Tidy, Get, Insert;
    FirstGeneration(t, s, d, snapshot);
    InsertedEntry(t, s, d, 1, snapshot);
  }
}
