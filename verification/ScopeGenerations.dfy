/**
 When a generation names one publication. Every entry ever published under an
 identifier of a scope is listed, whether or not it is still there.
 */
module ScopeGenerations {
  import opened Prelude
  import opened ResolverModel
  import opened ScopeModel
  import opened ScopeInvariants
  import opened ScopePublication
  import opened ScopeOwnership
  import opened TeardownCycle
  import Digraph

  // ---- Publications under one identifier ----

  /** The command is an accepted publication. */
  predicate Accepted(t: Tree, c: Command) {
    c.Commit? && Enabled(t, c) && Publish(t, c.scope, c.definition, c.expectation, c.snapshot).Ok?
  }

  predicate Publishes(t: Tree, c: Command, s: nat, id: Id) {
    Accepted(t, c) && c.scope == s && c.definition.id == id
  }

  /** The entries a run publishes under `id` in scope `s`, oldest first. */
  function History(t: Tree, commands: seq<Command>, s: nat, id: Id): seq<nat> {
    if commands == [] then []
    else
      var before, last := commands[..|commands| - 1], commands[|commands| - 1];
      var u := ExecuteAll(t, before);
      History(t, before, s, id) + (if Publishes(u, last, s, id) then [u.nextEntry] else [])
  }

  /** How often a run provides `id` in scope `s` anew, rather than replacing it. */
  function Provisions(t: Tree, commands: seq<Command>, s: nat, id: Id): nat {
    if commands == [] then 0
    else
      var before, last := commands[..|commands| - 1], commands[|commands| - 1];
      Provisions(t, before, s, id)
      + (if Publishes(ExecuteAll(t, before), last, s, id) && last.expectation.New? then 1 else 0)
  }

  /** Each generation belongs to one of the entries. */
  predicate GenerationsDiffer(t: Tree, entries: seq<nat>) {
    forall i, j :: 0 <= i < j < |entries| ==> GenerationOf(t, entries[i]) != GenerationOf(t, entries[j])
  }

  // ---- What a run keeps ----

  /** The entry in place is the last one published. */
  ghost predicate EndsWith(t: Tree, h: seq<nat>, s: nat, id: Id) {
    s < |t.scopes| && id in t.scopes[s].entries ==> h != [] && t.scopes[s].entries[id] == h[|h| - 1]
  }

  /** The first generation is 1 and comes again with every further provision; with one provision they count up. */
  ghost predicate Counted(t: Tree, h: seq<nat>, n: nat) {
    && (forall i :: 0 <= i < |h| ==> h[i] in t.slots)
    && (n == 0 <==> h == [])
    && (h != [] ==> GenerationOf(t, h[0]) == 1)
    && (n <= 1 ==> forall i :: 0 <= i < |h| ==> GenerationOf(t, h[i]) == i + 1)
    && (n >= 2 ==> exists i :: 0 < i < |h| && GenerationOf(t, h[i]) == 1)
  }

  lemma CountedLater(t: Tree, u: Tree, h: seq<nat>, n: nat)
    requires Extends(t, u) && Counted(t, h, n)
    ensures Counted(u, h, n)
  {
    forall i | 0 <= i < |h| ensures GenerationOf(u, h[i]) == GenerationOf(t, h[i]) { }
  }

  /** What an accepted publication adds, in terms of the entry it replaces. */
  lemma AcceptedEntry(t: Tree, c: Command)
    requires Sound(t) && Accepted(t, c)
    ensures var u, s, id := Execute(t, c), c.scope, c.definition.id;
            && s < |t.scopes| && |u.scopes| == |t.scopes| && t.nextEntry in u.slots
            && (c.expectation.New? <==> id !in t.scopes[s].entries)
            && GenerationOf(u, t.nextEntry) ==
               (if c.expectation.New? then 1 else GenerationOf(t, t.scopes[s].entries[id]) + 1)
            && (forall i :: 0 <= i < |t.scopes| ==>
                  u.scopes[i].entries == if i == s then t.scopes[i].entries[id := t.nextEntry] else t.scopes[i].entries)
  {
    hide *;
    AcceptedFacts(t, c);
    var s, d, x, snapshot := c.scope, c.definition, c.expectation, c.snapshot;
    PublicationInserts(t, s, d, x, snapshot);
    PublishIsExact(t, s, d, x, snapshot);
    PreparedFacts(t, s, d, x, snapshot);
    PublishedIsCurrent(t, s, d, x, snapshot);
    if !x.New? { OwnEntryHasSlot(t, s, d.id); }
    HasGeneration(Execute(t, c), t.nextEntry);
    var generation := NextGeneration(t, s, d.id, x).value;
    InsertFrame(t, s, d, generation, snapshot, s);
    forall i | 0 <= i < |t.scopes|
      ensures Execute(t, c).scopes[i].entries ==
              if i == s then t.scopes[i].entries[d.id := t.nextEntry] else t.scopes[i].entries
    {
      InsertFrame(t, s, d, generation, snapshot, i);
    }
  }

  lemma AcceptedFacts(t: Tree, c: Command)
    requires Sound(t) && Accepted(t, c)
    ensures c.Commit? && c.scope < |t.scopes|
    ensures var r := Publish(t, c.scope, c.definition, c.expectation, c.snapshot);
            && Tidy(t) && Holds(t, c.definition, c.snapshot) && r.Ok? && Execute(t, c) == r.value
  {
    hide Publish, Shaped, Upward, Holds;
  }

  lemma HasGeneration(t: Tree, e: nat)
    requires e in t.slots
    ensures GenerationOf(t, e) == t.slots[e].generation
  {
  }

  lemma OwnEntryHasSlot(t: Tree, s: nat, id: Id)
    requires Tidy(t) && s < |t.scopes| && id in t.scopes[s].entries
    ensures t.scopes[s].entries[id] in t.slots
    ensures GenerationOf(t, t.scopes[s].entries[id]) == t.slots[t.scopes[s].entries[id]].generation
  {
  }

  lemma OtherStepKeeps(t: Tree, c: Command, h: seq<nat>, s: nat, id: Id)
    requires Sound(t) && EndsWith(t, h, s, id) && !Publishes(t, c, s, id)
    ensures EndsWith(Execute(t, c), h, s, id)
  {
    hide Sound, Execute, Publish, Enabled;
    StepShape(t, c);
    if Accepted(t, c) { AcceptedEntry(t, c); }
  }

  lemma PublicationCounts(t: Tree, c: Command, h: seq<nat>, n: nat, s: nat, id: Id)
    requires Sound(t) && EndsWith(t, h, s, id) && Counted(t, h, n) && Publishes(t, c, s, id)
    ensures var u := Execute(t, c);
            var m := if c.expectation.New? then n + 1 else n;
            EndsWith(u, h + [t.nextEntry], s, id) && Counted(u, h + [t.nextEntry], m)
  {
    hide Sound, Execute, Publish, Enabled, Extends;
    AcceptedEntry(t, c);
    ExecuteExtends(t, c);
    var u, e := Execute(t, c), t.nextEntry;
    CountedLater(t, u, h, n);
    SameGenerations(t, u, h);
    var all := h + [e];
    if n >= 2 {
      var i :| 0 < i < |h| && GenerationOf(u, h[i]) == 1;
      assert all[i] == h[i];
    } else if c.expectation.New? && h != [] {
      assert all[|h|] == e;
    }
  }

  lemma SameGenerations(t: Tree, u: Tree, h: seq<nat>)
    requires Extends(t, u) && forall i :: 0 <= i < |h| ==> h[i] in t.slots
    ensures forall i :: 0 <= i < |h| ==> GenerationOf(u, h[i]) == GenerationOf(t, h[i])
  {
  }

  lemma {:induction false} RunCounts(t: Tree, commands: seq<Command>, s: nat, id: Id)
    requires Sound(t) && (s < |t.scopes| ==> id !in t.scopes[s].entries)
    ensures var u, h := ExecuteAll(t, commands), History(t, commands, s, id);
            Sound(u) && EndsWith(u, h, s, id) && Counted(u, h, Provisions(t, commands, s, id))
    decreases |commands|
  {
    hide Sound, Execute, EndsWith, Counted, Publishes;
    if commands == [] {
      NothingCounts(t, s, id);
    } else {
      var before, last := commands[..|commands| - 1], commands[|commands| - 1];
      RunCounts(t, before, s, id);
      var u, h := ExecuteAll(t, before), History(t, before, s, id);
      ExecuteKeepsSound(u, last);
      if Publishes(u, last, s, id) {
        PublicationCounts(u, last, h, Provisions(t, before, s, id), s, id);
      } else {
        OtherStepKeeps(u, last, h, s, id);
        ExecuteExtends(u, last);
        CountedLater(u, Execute(u, last), h, Provisions(t, before, s, id));
        assert h + [] == h;
      }
    }
  }

  lemma NothingCounts(t: Tree, s: nat, id: Id)
    requires s < |t.scopes| ==> id !in t.scopes[s].entries
    ensures EndsWith(t, [], s, id) && Counted(t, [], 0)
  {
  }

  /**
   Over every run, the generations of all entries ever published under an
   identifier of a scope differ exactly when the run provides it anew at most
   once. A caller that only replaces a publication can rely on its generation;
   one that withdraws it and provides again cannot.
   */
  lemma GenerationsAreExact(commands: seq<Command>, s: nat, id: Id)
    ensures var u, h := ExecuteAll(Root, commands), History(Root, commands, s, id);
            GenerationsDiffer(u, h) <==> Provisions(Root, commands, s, id) <= 1
  {
    hide ExecuteAll, History, Provisions, Sound, EndsWith;
    RootResolves();
    RunCounts(Root, commands, s, id);
    var u, h := ExecuteAll(Root, commands), History(Root, commands, s, id);
    if Provisions(Root, commands, s, id) >= 2 {
      var i :| 0 < i < |h| && GenerationOf(u, h[i]) == 1;
      assert GenerationOf(u, h[0]) == GenerationOf(u, h[i]);
    }
  }

  // ---- A generation that names two publications ----

  const Provide := Commit(0, Leaf, New, map[])
  const Revoke := WithdrawFrom(0, X, 1)
  const Twice := [Provide, Revoke, Provide]

  const Gone := RootWith(map[], map[1 := S1], 2)
  const Again := RootWith(map[X := 2], map[1 := S1, 2 := S1], 3)

  lemma RevokeStep()
    ensures Execute(T1, Revoke) == Gone
  {
    assert map[X := 1] - {X} == map[];
  }

  lemma AgainStep()
    ensures Execute(Gone, Provide) == Again
  {
    hide Execute;
    assert Elements([X]) == {X};
    assert map[][X := Leaf] == map[X := Leaf];
    RootPublication(map[], map[1 := S1], 2, map[], Leaf, New, 1, map[], [X]);
  }

  /** A step that publishes changes the tree, and a commit that changes it publishes. */
  lemma ChangeIsAccepted(t: Tree, c: Command)
    requires c.Commit? && Execute(t, c) != t
    ensures Accepted(t, c)
  {
    hide Publish;
  }

  lemma OneMore(t: Tree, commands: seq<Command>, c: Command, s: nat, id: Id)
    ensures var all, u := commands + [c], ExecuteAll(t, commands);
            && ExecuteAll(t, all) == Execute(u, c)
            && History(t, all, s, id) ==
               History(t, commands, s, id) + (if Publishes(u, c, s, id) then [u.nextEntry] else [])
            && Provisions(t, all, s, id) ==
               Provisions(t, commands, s, id) + (if Publishes(u, c, s, id) && c.expectation.New? then 1 else 0)
  {
    hide Execute, Publishes;
    assert (commands + [c])[..|commands|] == commands;
  }

  /** Provided, withdrawn and provided again from an empty root, entries 1 and 2 both have generation 1. */
  lemma GenerationsRepeat()
    ensures var u := ExecuteAll(Root, Twice);
            && History(Root, Twice, 0, X) == [1, 2] && Provisions(Root, Twice, 0, X) == 2
            && GenerationOf(u, 1) == GenerationOf(u, 2) == 1 && !GenerationsDiffer(u, [1, 2])
            && Get(u, 0, X) == Some(2)
  {
    hide Execute, Accepted, ExecuteAll, History, Provisions;
    RevokeIsNoPublication();
    Step1();
    RevokeStep();
    AgainStep();
    NothingRun(Root, 0, X);
    ChangeIsAccepted(Root, Provide);
    ChangeIsAccepted(Gone, Provide);
    OneMore(Root, [], Provide, 0, X);
    OneMore(Root, [] + [Provide], Revoke, 0, X);
    OneMore(Root, [] + [Provide] + [Revoke], Provide, 0, X);
    assert Twice == [] + [Provide] + [Revoke] + [Provide];
    assert [] + [1] + [] + [2] == [1, 2];
    assert !GenerationsDiffer(Again, [1, 2]) by {
      assert GenerationOf(Again, [1, 2][0]) == GenerationOf(Again, [1, 2][1]);
    }
  }

  lemma RevokeIsNoPublication()
    ensures !Accepted(T1, Revoke)
  {
  }

  lemma NothingRun(t: Tree, s: nat, id: Id)
    ensures ExecuteAll(t, []) == t && History(t, [], s, id) == [] && Provisions(t, [], s, id) == 0
  {
  }
}
