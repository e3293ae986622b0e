/** What lookups resolve to, and what publications, withdrawals and teardowns answer. */
module ScopeAnswers {
  import opened Prelude
  import opened ResolverModel
  import opened ScopeModel
  import opened ScopeInvariants
  import opened ScopePublication
  import opened ScopeWithdrawal
  import Gen = ScopeGenerations
  import Digraph

  // ---- Lookup ----

  /** Every scope from `s` up to `a` is open, and none of them before `a` has an entry of its own. */
  ghost predicate Unshadowed(t: Tree, s: nat, a: nat, id: Id)
    decreases s
  {
    && s < |t.scopes| && t.scopes[s].open
    && (s == a || (id !in t.scopes[s].entries && t.scopes[s].parent.Some? && t.scopes[s].parent.value < s
                   && Unshadowed(t, t.scopes[s].parent.value, a, id)))
  }

  /** The nearest scope with an entry, reached through open scopes only. */
  ghost predicate Nearest(t: Tree, s: nat, a: nat, id: Id) {
    a < |t.scopes| && id in t.scopes[a].entries && Unshadowed(t, s, a, id)
  }

  lemma {:induction false} LookupIsExact(t: Tree, s: nat, id: Id)
    requires Parented(t)
    ensures forall e :: Get(t, s, id) == Some(e) <==>
              exists a: nat :: Nearest(t, s, a, id) && t.scopes[a].entries[id] == e
    decreases s
  {
    hide Parented;
    if s < |t.scopes| && t.scopes[s].open {
      if id in t.scopes[s].entries {
        assert Nearest(t, s, s, id);
      } else if t.scopes[s].parent.Some? {
        var p := t.scopes[s].parent.value;
        ParentIsEarlier(t, s);
        LookupIsExact(t, p, id);
        forall a: nat ensures Nearest(t, s, a, id) <==> Nearest(t, p, a, id) { NearestAbove(t, s, p, a, id); }
      }
    }
  }

  lemma ParentIsEarlier(t: Tree, s: nat)
    requires Parented(t) && s < |t.scopes| && t.scopes[s].parent.Some?
    ensures t.scopes[s].parent.value < s
  {
  }

  lemma NearestAbove(t: Tree, s: nat, p: nat, a: nat, id: Id)
    requires s < |t.scopes| && t.scopes[s].open && t.scopes[s].parent == Some(p) && p < s && id !in t.scopes[s].entries
    ensures Nearest(t, s, a, id) <==> Nearest(t, p, a, id)
  {
    if Nearest(t, p, a, id) { UnshadowedIsAbove(t, p, a, id); }
  }

  lemma {:induction false} UnshadowedIsAbove(t: Tree, s: nat, a: nat, id: Id)
    requires Unshadowed(t, s, a, id)
    ensures a <= s
    decreases s
  {
    if s != a { UnshadowedIsAbove(t, t.scopes[s].parent.value, a, id); }
  }

  /** The definitions a scope admits candidates against are those of the entries its lookups resolve to. */
  lemma {:induction false} VisibleIsLookup(t: Tree, s: nat, id: Id)
    requires Shaped(t)
    ensures id in VisibleDefinitions(t, s) <==> Get(t, s, id).Some?
    ensures Get(t, s, id).Some? ==>
              Get(t, s, id).value in t.slots && VisibleDefinitions(t, s)[id] == t.slots[Get(t, s, id).value].definition
    decreases s
  {
    hide Pinned;
    if s < |t.scopes| && t.scopes[s].open {
      VisibleLayer(t, s);
      if id !in t.scopes[s].entries && t.scopes[s].parent.Some? { VisibleIsLookup(t, t.scopes[s].parent.value, id); }
    }
  }

  // ---- Expectations ----

  /** A publication goes ahead only in an open scope and on exactly what the caller expects to find there. */
  ghost predicate Meets(t: Tree, s: nat, id: Id, x: Expectation) {
    && s < |t.scopes| && t.scopes[s].open
    && match x
       case New => id !in t.scopes[s].entries
       case Replace(expected) =>
         && id in t.scopes[s].entries && t.scopes[s].entries[id] in t.slots
         && t.slots[t.scopes[s].entries[id]].generation == expected
  }

  lemma ExpectationIsExact(t: Tree, s: nat, id: Id, x: Expectation)
    requires Housed(t) && s < |t.scopes|
    ensures CheckExpectation(t, s, id, x) == Done <==> Meets(t, s, id, x)
    ensures !t.scopes[s].open ==> CheckExpectation(t, s, id, x) == Failed(ScopeClosed)
    ensures t.scopes[s].open && id in t.scopes[s].entries ==>
              var actual := t.slots[t.scopes[s].entries[id]].generation;
              && (x == New ==> CheckExpectation(t, s, id, x) == Failed(AlreadyProvided(id, actual)))
              && (x.Replace? && x.expected != actual ==>
                    CheckExpectation(t, s, id, x) == Failed(ReplacementConflict(id, x.expected, actual)))
    ensures t.scopes[s].open && id !in t.scopes[s].entries && x.Replace? ==>
              CheckExpectation(t, s, id, x) == Failed(NoLocalEntry(id))
  {
  }

  /** Neither phase goes past an expectation that is not met, and an accepted replacement counts one generation on. */
  lemma PublicationMeetsExpectation(t: Tree, s: nat, d: Definition, x: Expectation, snapshot: map<Id, nat>)
    requires Tidy(t) && s < |t.scopes|
    ensures Prepare(t, s, d, x).Ok? ==> Meets(t, s, d.id, x)
    ensures !Meets(t, s, d.id, x) ==> Prepare(t, s, d, x) == Err(CheckExpectation(t, s, d.id, x).error)
    ensures Publish(t, s, d, x, snapshot).Ok? ==>
              && Meets(t, s, d.id, x)
              && var u := Publish(t, s, d, x, snapshot).value;
                 && u.nextEntry == t.nextEntry + 1 && t.nextEntry in u.slots
                 && u.slots[t.nextEntry].generation == (if x.New? then 1 else x.expected + 1)
  {
    hide ResolveDependencies, Changed, AdmitDescendants, ValidateCandidate, VisibleDefinitions, Descendants, Parented,
      Pinned,
      CheckExpectation;
    ExpectationIsExact(t, s, d.id, x);
  }

  /** A replacement that expects a generation other than the current one is refused by both phases. */
  lemma StaleReplacementIsRefused(t: Tree, s: nat, d: Definition, expected: nat, snapshot: map<Id, nat>)
    requires Tidy(t) && s < |t.scopes| && t.scopes[s].open && d.id in t.scopes[s].entries
    requires t.slots[t.scopes[s].entries[d.id]].generation != expected
    ensures Prepare(t, s, d, Replace(expected)) ==
              Err(ReplacementConflict(d.id, expected, t.slots[t.scopes[s].entries[d.id]].generation))
    ensures Publish(t, s, d, Replace(expected), snapshot).Err?
  {
    hide Prepare, Publish, CheckExpectation, Parented, Pinned;
    ExpectationIsExact(t, s, d.id, Replace(expected));
    PublicationMeetsExpectation(t, s, d, Replace(expected), snapshot);
  }

  lemma {:induction false} HistoryGrows(t: Tree, commands: seq<Command>, i: nat, s: nat, id: Id)
    requires i <= |commands|
    ensures |Gen.History(t, commands[..i], s, id)| <= |Gen.History(t, commands, s, id)|
    ensures Gen.Provisions(t, commands[..i], s, id) <= Gen.Provisions(t, commands, s, id)
    decreases |commands|
  {
    hide Gen.Publishes, ExecuteAll;
    if i < |commands| {
      var front := commands[..|commands| - 1];
      HistoryGrows(t, front, i, s, id);
      assert front[..i] == commands[..i];
    } else {
      assert commands[..i] == commands;
    }
  }

  /**
   Over every run that provides an identifier of a scope anew at most once, the
   replacements accepted for it expected strictly increasing generations: of those
   that expected the same one, at most one is accepted.
   */
  lemma ReplacedOncePerGeneration(commands: seq<Command>, i: nat, j: nat, s: nat, id: Id)
    requires i < j < |commands| && Gen.Provisions(Root, commands, s, id) <= 1
    requires Gen.Publishes(ExecuteAll(Root, commands[..i]), commands[i], s, id) && commands[i].expectation.Replace?
    requires Gen.Publishes(ExecuteAll(Root, commands[..j]), commands[j], s, id) && commands[j].expectation.Replace?
    ensures commands[i].expectation.expected < commands[j].expectation.expected
  {
    hide *;
    CountedReplacement(commands, i, s, id);
    CountedReplacement(commands, j, s, id);
    var front := commands[..j];
    HistoryGrows(Root, front, i + 1, s, id);
    assert front[..i + 1] == commands[..i] + [commands[i]];
    Gen.OneMore(Root, commands[..i], commands[i], s, id);
  }

  /** The generation a replacement expects is the number of publications so far. */
  lemma CountedReplacement(commands: seq<Command>, i: nat, s: nat, id: Id)
    requires i < |commands| && Gen.Provisions(Root, commands, s, id) <= 1
    requires Gen.Publishes(ExecuteAll(Root, commands[..i]), commands[i], s, id) && commands[i].expectation.Replace?
    ensures commands[i].expectation.expected == |Gen.History(Root, commands[..i], s, id)|
  {
    hide Sound, ExecuteAll, Gen.History, Gen.Provisions, Publish, Enabled, Get;
    var t, c := ExecuteAll(Root, commands[..i]), commands[i];
    RootResolves();
    Gen.RunCounts(Root, commands[..i], s, id);
    HistoryGrows(Root, commands, i, s, id);
    Gen.AcceptedFacts(t, c);
    PublicationMeetsExpectation(t, s, c.definition, c.expectation, c.snapshot);
  }

  // ---- Withdrawals, children, teardowns ----

  /** Exactly the publication named by scope, identifier and generation is taken out, and nothing else changes. */
  lemma WithdrawalAnswers(t: Tree, s: nat, id: Id, generation: nat)
    requires Housed(t) && s < |t.scopes|
    ensures Withdraw(t, s, id, generation).Ok? <==> Meets(t, s, id, Replace(generation))
    ensures match Withdraw(t, s, id, generation)
            case Ok(u) =>
              && u == t.(scopes := u.scopes) && |u.scopes| == |t.scopes|
              && u.scopes[s] == t.scopes[s].(entries := u.scopes[s].entries)
              && (forall x :: x in u.scopes[s].entries <==> x in t.scopes[s].entries && x != id)
              && (forall x :: x in u.scopes[s].entries ==> u.scopes[s].entries[x] == t.scopes[s].entries[x])
              && (forall i :: 0 <= i < |t.scopes| && i != s ==> u.scopes[i] == t.scopes[i])
            case Err(e) => Failed(e) == CheckExpectation(t, s, id, Replace(generation))
  {
  }

  /** A new child is empty, live, and open exactly when its parent is; nothing else changes but the parent's list. */
  lemma ChildIsExact(t: Tree, s: nat)
    requires s < |t.scopes|
    ensures var u, n := Child(t, s), |t.scopes|;
            && |u.scopes| == n + 1 && u.slots == t.slots && u.nextEntry == t.nextEntry && u.poisoned == t.poisoned
            && u.scopes[n] == Scope(Some(s), map[], t.scopes[s].open, true, [])
            && u.scopes[s] == t.scopes[s].(children := t.scopes[s].children + [n])
            && forall i :: 0 <= i < n && i != s ==> u.scopes[i] == t.scopes[i]
  {
  }

  /** A teardown that can be planned closes exactly the live subtree and changes no other scope. */
  lemma TeardownClosesTheSubtree(t: Tree, s: nat)
    requires Tidy(t) && s < |t.scopes| && !Teardown(t, s).poisoned
    ensures var u := Teardown(t, s);
            && |u.scopes| == |t.scopes| && u.slots == t.slots && u.nextEntry == t.nextEntry
            && (forall x: nat :: x < |t.scopes| && Below(t, s, x) && t.scopes[x].live ==> !u.scopes[x].open)
            && (forall x: nat :: x < |t.scopes| && t.scopes[x].open && !u.scopes[x].open ==>
                  u.scopes[x].entries == map[] && Below(t, s, x))
            && (forall x: nat :: x < |t.scopes| && !Below(t, s, x) ==> u.scopes[x] == t.scopes[x])
  {
    hide Shaped, Upward, CloseAll, ChildFirst, Below;
    var order, u := ChildFirst(t, s), Teardown(t, s);
    CloseAllCloses(t, order);
    forall x: nat | x < |t.scopes| && Below(t, s, x) && t.scopes[x].live
      ensures x in order
    {
      DescendantListed(t, s, x);
    }
    forall x: nat | x < |t.scopes| && x in order ensures Below(t, s, x) { ChildFirstIsBelow(t, s, x); }
  }

  // ---- Refusals of a publication ----

  /** A scope that would see the candidate and whose definitions with it have this defect. */
  ghost predicate HasCycle(t: Tree, s: nat, d: Definition, path: seq<Id>, x: nat) {
    x < |t.scopes| && Affects(t, s, x, d.id) && Digraph.IsCycle(RelationOf(VisibleDefinitions(t, x)[d.id := d]), path)
  }

  ghost predicate HasGap(t: Tree, s: nat, d: Definition, c: Id, dependency: Id, x: nat) {
    var g := VisibleDefinitions(t, x)[d.id := d];
    x < |t.scopes| && Affects(t, s, x, d.id) && c in g && dependency in g[c].dependencies && dependency !in g
  }

  /** What a refusal of the second phase names is so in the tree that refuses. */
  ghost predicate Truthful(t: Tree, s: nat, d: Definition, x: Expectation, snapshot: map<Id, nat>, e: ScopeError)
    requires s < |t.scopes|
  {
    match e
    case MissingDependency(c, dependency) =>
      || (c == d.id && dependency in d.dependencies && Get(t, s, dependency) == None)
      || exists y: nat :: HasGap(t, s, d, c, dependency, y)
    case GraphAdmission(path) => exists y: nat :: HasCycle(t, s, d, path, y)
    case DependencyChanged(c, dependency) =>
      && c == d.id && dependency in d.dependencies && dependency in snapshot
      && Get(t, s, dependency) != Some(snapshot[dependency])
    case GenerationExhausted(c) => c == d.id && x.Replace? && Meets(t, s, d.id, x) && x.expected >= U64_MAX
    case ConstructionFailed(_) => false
    case _ => CheckExpectation(t, s, d.id, x) == Failed(e)
  }

  lemma RefusedCandidate(t: Tree, s: nat, d: Definition, y: nat)
    requires s < |t.scopes| && y < |t.scopes| && Affects(t, s, y, d.id)
    requires ValidateCandidate(VisibleDefinitions(t, y), d).Err?
    ensures var e := FromGraphError(ValidateCandidate(VisibleDefinitions(t, y), d).error);
            && (e.GraphAdmission? ==> HasCycle(t, s, d, e.path, y))
            && (e.MissingDependency? ==> HasGap(t, s, d, e.capability, e.dependency, y))
  {
    hide Resolve, VisibleDefinitions, Affects, Digraph.IsCycle;
    ResolveIsExact(VisibleDefinitions(t, y)[d.id := d]);
  }

  lemma {:induction false} RefusedDescendant(t: Tree, s: nat, d: Definition, list: seq<nat>)
    requires s < |t.scopes| && AdmitDescendants(t, s, d, list).Failed?
    ensures var e := AdmitDescendants(t, s, d, list).error;
            && (e.GraphAdmission? || e.MissingDependency?)
            && (e.GraphAdmission? ==> exists y: nat :: HasCycle(t, s, d, e.path, y))
            && (e.MissingDependency? ==> exists y: nat :: HasGap(t, s, d, e.capability, e.dependency, y))
    decreases |list|
  {
    hide ValidateCandidate, VisibleDefinitions, Affects, HasCycle, HasGap;
    var y := list[0];
    var seen := y < |t.scopes| && t.scopes[y].open && Affects(t, s, y, d.id);
    if seen && ValidateCandidate(VisibleDefinitions(t, y), d).Err? {
      RefusedCandidate(t, s, d, y);
    } else {
      RefusedDescendant(t, s, d, list[1..]);
    }
  }

  lemma RefusalIsTruthful(t: Tree, s: nat, d: Definition, x: Expectation, snapshot: map<Id, nat>)
    requires Tidy(t) && s < |t.scopes| && Publish(t, s, d, x, snapshot).Err?
    ensures Truthful(t, s, d, x, snapshot, Publish(t, s, d, x, snapshot).error)
  {
    hide Get, AdmitDescendants, ValidateCandidate, VisibleDefinitions, Descendants, Parented, Pinned, Upward, HasCycle,
      HasGap, Affects;
    var list := Descendants(t, s);
    ExpectationIsExact(t, s, d.id, x);
    AffectsItself(t, s, d.id);
    if AdmitDescendants(t, s, d, list).Failed? { RefusedDescendant(t, s, d, list); }
    if ValidateCandidate(VisibleDefinitions(t, s), d).Err? { RefusedCandidate(t, s, d, s); }
  }

  /** Letting go of a scope closes and empties it, unless a live child still holds it. */
  lemma ForgetIsExact(t: Tree, s: nat)
    requires s < |t.scopes|
    ensures var u := Forget(t, s);
            var held := exists c :: c in t.scopes[s].children && c < |t.scopes| && t.scopes[c].live;
            && (held ==> u == t)
            && (!held ==>
                  && u == t.(scopes := u.scopes) && |u.scopes| == |t.scopes|
                  && u.scopes[s] == t.scopes[s].(live := false, open := false, entries := map[])
                  && forall i :: 0 <= i < |t.scopes| && i != s ==> u.scopes[i] == t.scopes[i])
  {
  }

  /** In the order of a teardown every live descendant of a scope comes before the scope. */
  ghost predicate ChildrenFirst(t: Tree, list: seq<nat>) {
    forall j, y: nat ::
      0 <= j < |list| && y < |t.scopes| && t.scopes[y].live && y != list[j] && Below(t, list[j], y) ==>
      y in list[..j]
  }

  lemma {:induction false} TeardownIsChildrenFirst(t: Tree, s: nat)
    requires Tidy(t) && s < |t.scopes|
    ensures ChildrenFirst(t, ChildFirst(t, s))
    decreases |t.scopes| - s, 1, 0
  {
    hide Tidy, Below;
    var front, list := ChildFirstOf(t, s, t.scopes[s].children), ChildFirst(t, s);
    ListIsChildrenFirst(t, s, t.scopes[s].children);
    forall j, y: nat | 0 <= j < |list| && y < |t.scopes| && t.scopes[y].live && y != list[j] && Below(t, list[j], y)
      ensures y in list[..j]
    {
      if j < |front| {
        assert list[..j] == front[..j];
      } else {
        DescendantListed(t, s, y);
        assert list[..j] == front;
      }
    }
  }

  lemma {:induction false} ListIsChildrenFirst(t: Tree, s: nat, children: seq<nat>)
    requires Tidy(t) && s < |t.scopes|
    ensures ChildrenFirst(t, ChildFirstOf(t, s, children))
    decreases |t.scopes| - s, 0, |children|
  {
    hide Tidy, Below;
    if children != [] {
      var c, rest := children[0], ChildFirstOf(t, s, children[1..]);
      ListIsChildrenFirst(t, s, children[1..]);
      if s < c < |t.scopes| && t.scopes[c].live {
        TeardownIsChildrenFirst(t, c);
        ChildrenFirstAppend(t, ChildFirst(t, c), rest);
      } else {
        assert [] + rest == rest;
      }
    }
  }

  lemma ChildrenFirstAppend(t: Tree, a: seq<nat>, b: seq<nat>)
    requires ChildrenFirst(t, a) && ChildrenFirst(t, b)
    ensures ChildrenFirst(t, a + b)
  {
    hide Below;
    var list := a + b;
    forall j, y: nat | 0 <= j < |list| && y < |t.scopes| && t.scopes[y].live && y != list[j] && Below(t, list[j], y)
      ensures y in list[..j]
    {
      if j < |a| {
        assert list[..j] == a[..j];
      } else {
        assert list[j] == b[j - |a|] && y in b[..j - |a|];
        assert list[..j] == a + b[..j - |a|];
      }
    }
  }
}
