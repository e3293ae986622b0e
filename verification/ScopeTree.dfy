/** The scope tree as an object: its fields change in place, and the instance references move with them. */
module ScopeTrees {
  import opened Prelude
  import opened ResolverModel
  import opened ScopeModel
  import opened ScopeInvariants
  import opened ScopePublication
  import opened ScopeTeardown
  import opened ScopeOwnership
  import opened Ownership
  import Own = OwnershipModel
  import Resolvers
  import Scopes

  // ---- The entries each step drops ----

  lemma ChildDropsNothing(t: Tree, s: nat)
    requires OnePlace(t) && s < |t.scopes|
    ensures Drops(t, Child(t, s), [])
  {
    var u := Child(t, s);
    ChildTakesAway(t, s);
    PublishedShrinks(t, u);
    hide Child;
    ChildFrame(t, s, s);
    forall e | e in Published(t) ensures e in Published(u) {
      var i :| HasEntry(t, i, e);
      ChildFrame(t, s, i);
      assert HasEntry(u, i, e);
    }
  }

  lemma InsertDropsReplaced(t: Tree, s: nat, d: Definition, generation: nat, snapshot: map<Id, nat>)
    requires Tidy(t) && OnePlace(t) && s < |t.scopes| && t.scopes[s].open
    ensures var replaced := if d.id in t.scopes[s].entries then [t.scopes[s].entries[d.id]] else [];
            Drops(t, Insert(t, s, d, generation, snapshot), replaced)
  {
    var u := Insert(t, s, d, generation, snapshot);
    PublishedAfterInsert(t, s, d, generation, snapshot);
    InsertedEntry(t, s, d, generation, snapshot);
    if d.id in t.scopes[s].entries {
      ReplacedIsDropped(t, s, d, generation, snapshot);
    }
    hide Insert, Get, Pinned, Parented, Upward;
    forall e | e in Published(t) && (d.id in t.scopes[s].entries ==> e != t.scopes[s].entries[d.id])
      ensures e in Published(u)
    {
      var i :| HasEntry(t, i, e);
      InsertFrame(t, s, d, generation, snapshot, i);
      assert HasEntry(u, i, e);
    }
  }

  lemma ReplacedIsDropped(t: Tree, s: nat, d: Definition, generation: nat, snapshot: map<Id, nat>)
    requires Tidy(t) && OnePlace(t) && s < |t.scopes| && d.id in t.scopes[s].entries
    ensures t.scopes[s].entries[d.id] in Published(t) - Published(Insert(t, s, d, generation, snapshot))
  {
    var u, e := Insert(t, s, d, generation, snapshot), t.scopes[s].entries[d.id];
    EntryIsPublished(t, s, d.id);
    assert HasEntry(t, s, e);
    forall j: nat | j != s ensures HasEntry(u, j, e) ==> HasEntry(t, j, e) { }
  }

  lemma WithdrawalDropsEntry(t: Tree, s: nat, id: Id, generation: nat)
    requires Tidy(t) && OnePlace(t) && s < |t.scopes| && Withdraw(t, s, id, generation).Ok?
    ensures Drops(t, Withdraw(t, s, id, generation).value, [t.scopes[s].entries[id]])
  {
    var u, e := Withdraw(t, s, id, generation).value, t.scopes[s].entries[id];
    WithdrawalTakesAway(t, s, id, generation);
    PublishedShrinks(t, u);
    EntryIsPublished(t, s, id);
    RemovedIsDropped(t, u, s, e);
    hide Pinned, Parented, Upward;
    forall x | x in Published(t) && x != e ensures x in Published(u) {
      var i :| HasEntry(t, i, x);
      assert HasEntry(u, i, x);
    }
  }

  lemma CloseDropsEntries(t: Tree, s: nat)
    requires Housed(t) && OnePlace(t) && s < |t.scopes| && t.scopes[s].open
    ensures Housed(Close(t, s)) && OnePlace(Close(t, s))
    ensures t.scopes[s].entries.Values <= Published(t)
    ensures Published(Close(t, s)) == Published(t) - t.scopes[s].entries.Values
  {
    var u := Close(t, s);
    forall e | e in t.scopes[s].entries.Values ensures e in Published(t) - Published(u) {
      var id :| id in t.scopes[s].entries && t.scopes[s].entries[id] == e;
      EntryIsPublished(t, s, id);
      assert HasEntry(t, s, e);
      forall j: nat | j != s ensures HasEntry(u, j, e) ==> HasEntry(t, j, e) { }
    }
    forall i: nat, e | HasEntry(u, i, e) ensures HasEntry(t, i, e) { }
    forall e | e in Published(t) && e !in t.scopes[s].entries.Values ensures e in Published(u) {
      var i :| HasEntry(t, i, e);
      assert HasEntry(u, i, e);
    }
  }

  // ---- Teardown, scope by scope ----

  /** A teardown in progress: some scopes closed, their entries collected in `dropped`. */
  ghost predicate TearingDown(t: Tree, u: Tree, dropped: seq<nat>) {
    && Shaped(u) && OnePlace(u) && u.slots == t.slots && |u.scopes| == |t.scopes|
    && Distinct(dropped) && Elements(dropped) <= Published(t) && Published(u) == Published(t) - Elements(dropped)
  }

  lemma TearingDownAdvances(t: Tree, u: Tree, dropped: seq<nat>, s: nat, more: seq<nat>)
    requires TearingDown(t, u, dropped) && s < |u.scopes| && u.scopes[s].open
    requires Distinct(more) && Elements(more) == u.scopes[s].entries.Values
    ensures TearingDown(t, Close(u, s), dropped + more)
  {
    CloseDropsEntries(u, s);
    CloseKeepsShape(u, s);
    hide Published, Shaped, OnePlace, Close;
    var all := dropped + more;
    forall e ensures e in all <==> e in dropped || e in more { }
    assert Elements(all) == Elements(dropped) + Elements(more);
    forall i, j | 0 <= i < j < |all| ensures all[i] != all[j] {
      if i < |dropped| && j >= |dropped| {
        assert all[i] in Elements(dropped) && all[j] == more[j - |dropped|] && all[j] in Elements(more);
      }
    }
  }

  lemma CloseKeepsShape(t: Tree, s: nat)
    requires Shaped(t) && s < |t.scopes|
    ensures Shaped(Close(t, s)) && Close(t, s).slots == t.slots && |Close(t, s).scopes| == |t.scopes|
  {
    ClosingKeepsShape(t, Close(t, s));
  }

  lemma TearingDownDrops(t: Tree, u: Tree, dropped: seq<nat>)
    requires TearingDown(t, u, dropped)
    ensures Drops(t, u, dropped)
  {
  }

  lemma TearingDownStarts(t: Tree)
    requires Shaped(t) && OnePlace(t)
    ensures TearingDown(t, t, [])
  {
  }

  lemma KeyOrderDropsEach(t: Tree, entries: map<Id, nat>)
    requires HousedEntries(t, entries)
    ensures Distinct(PinsAt(entries, Ascending(entries.Keys)))
    ensures Elements(PinsAt(entries, Ascending(entries.Keys))) == entries.Values
  {
    var ids := Ascending(entries.Keys);
    EntriesAreInjective(t, entries);
    AscendingIsDistinct(entries.Keys);
    PinsAreDistinct(entries, ids);
    forall e ensures e in PinsAt(entries, ids) <==> e in entries.Values {
      PinsListed(entries, ids, e);
      if e in entries.Values { var x :| x in entries && entries[x] == e; assert x in ids; }
    }
  }

  lemma ScopeIsTidy(w: World, c: Command)
    requires Balanced(w) && Enabled(w.tree, c)
    ensures Tidy(w.tree) && OnePlace(w.tree) && c.scope < |w.tree.scopes|
    ensures c.Commit? ==> c.snapshot.Keys == c.definition.dependencies
  {
  }

  /** The handles a prepared snapshot takes. */
  lemma SnapshotMayBeTaken(w: World, s: nat, d: Definition, x: Expectation, snapshot: map<Id, nat>)
    requires Balanced(w) && s < |w.tree.scopes| && Prepare(w.tree, s, d, x) == Ok(snapshot)
    ensures Possible(w, Take(PinsAt(snapshot, Ascending(snapshot.Keys))))
  {
    hide Prepare, Own.Owned, SamePins, OnePlace, Published, Get, Upward, Parented, Pinned;
    PreparedFacts(w.tree, s, d, x, snapshot);
    forall e | e in PinsAt(snapshot, Ascending(snapshot.Keys)) ensures e in Held(w) {
      PinsListed(snapshot, Ascending(snapshot.Keys), e);
      var y :| y in snapshot && snapshot[y] == e;
      FoundIsPublished(w.tree, s, y);
    }
  }

  /** A rejected publication is a step that changes nothing. */
  lemma RejectedChangesNothing(w: World, c: Command)
    requires Balanced(w) && Enabled(w.tree, c) && c.Commit?
    requires Publish(w.tree, c.scope, c.definition, c.expectation, c.snapshot).Err?
    requires forall y :: y in c.snapshot ==> c.snapshot[y] in w.handles
    ensures Possible(w, Step(c, [])) && Act(w, Step(c, [])) == w
  {
    hide Balanced, Publish, Holds, Published;
    assert Elements<nat>([]) == {};
    assert w.handles + multiset([]) == w.handles;
  }

  /** The step a successful publication makes. */
  lemma InsertedHere(w: World, s: nat, d: Definition, x: Expectation, generation: nat, snapshot: map<Id, nat>)
    requires Balanced(w) && Enabled(w.tree, Commit(s, d, x, snapshot))
    requires s < |w.tree.scopes| && Publish(w.tree, s, d, x, snapshot) == Ok(Insert(w.tree, s, d, generation, snapshot))
    requires forall y :: y in snapshot ==> snapshot[y] in w.handles
    ensures var t := w.tree;
            var u := Insert(t, s, d, generation, snapshot);
            && Execute(t, Commit(s, d, x, snapshot)) == u && t.scopes[s].open
            && HandedOut(t, u, Commit(s, d, x, snapshot)) == [t.nextEntry]
            && (forall h: Own.Heap :: Allocate(h, t, u) == Own.Publish(h, t.nextEntry, PinnedBy(u.slots[t.nextEntry])))
            && Possible(w, Step(Commit(s, d, x, snapshot),
                                if d.id in t.scopes[s].entries then [t.scopes[s].entries[d.id]] else []))
  {
    hide Balanced, Publish, Holds, Drops, Get, PinnedBy;
    ScopeIsTidy(w, Commit(s, d, x, snapshot));
    PublicationInserts(w.tree, s, d, x, snapshot);
    InsertDropsReplaced(w.tree, s, d, generation, snapshot);
  }

  lemma FailedWithdrawalChangesNothing(w: World, c: Command)
    requires Balanced(w) && Enabled(w.tree, c) && c.WithdrawFrom? && Withdraw(w.tree, c.scope, c.id, c.generation).Err?
    ensures Possible(w, Step(c, [])) && Act(w, Step(c, [])) == w
  {
    hide Balanced, Published;
    assert Elements<nat>([]) == {};
    assert w.handles + multiset([]) == w.handles;
  }

  /** What closing one open scope adds to a teardown in progress. */
  lemma PlanFacts(t: Tree, u: Tree, dropped: seq<nat>, x: nat)
    requires TearingDown(t, u, dropped) && x < |u.scopes| && u.scopes[x].open
    ensures var entries := u.scopes[x].entries;
            && HousedEntries(u, entries)
            && (Plannable(u, x) ==> TearingDown(t, Close(u, x), dropped + PlanOf(u, entries)))
            && TearingDown(t, Close(u, x), dropped + PinsAt(entries, Ascending(entries.Keys)))
  {
    var entries := u.scopes[x].entries;
    assert HousedEntries(u, entries);
    KeyOrderDropsEach(u, entries);
    TearingDownAdvances(t, u, dropped, x, PinsAt(entries, Ascending(entries.Keys)));
    if Plannable(u, x) {
      PlanDropsEach(u, entries);
      TearingDownAdvances(t, u, dropped, x, PlanOf(u, entries));
    }
  }

  lemma PoisonedStillDrops(t: Tree, u: Tree, x: nat, dropped: seq<nat>)
    requires x < |u.scopes| && TearingDown(t, Close(u, x), dropped)
    ensures TearingDown(t, Close(u, x).(poisoned := true), dropped)
  {
    forall i: nat, e ensures HasEntry(Close(u, x), i, e) == HasEntry(Close(u, x).(poisoned := true), i, e) { }
    assert Published(Close(u, x)) == Published(Close(u, x).(poisoned := true));
  }

  /** One turn of the closing loop. */
  lemma CloseStep(u: Tree, list: seq<nat>, i: nat)
    requires i < |list|
    ensures var x, rest := list[i], list[i + 1..];
            && (x >= |u.scopes| || !u.scopes[x].open ==>
                  CloseAll(u, list[i..]) == CloseAll(u, rest) && PlannedDrops(u, list[i..]) == PlannedDrops(u, rest))
            && (x < |u.scopes| && u.scopes[x].open && Plannable(u, x) ==>
                  && CloseAll(u, list[i..]) == CloseAll(Close(u, x), rest)
                  && PlannedDrops(u, list[i..]) == PlanOf(u, u.scopes[x].entries) + PlannedDrops(Close(u, x), rest))
            && (x < |u.scopes| && u.scopes[x].open && !Plannable(u, x) ==>
                  CloseAll(u, list[i..]) == Close(u, x).(poisoned := true))
  {
    hide RuntimeGraph, Resolves, PlanOf;
    assert list[i..][1..] == list[i + 1..] && list[i..][0] == list[i];
  }

  /** The closing loop before turn `i`: what is left to do would complete the whole teardown. */
  ghost predicate Progress(t: Tree, list: seq<nat>, i: nat, u: Tree, dropped: seq<nat>) {
    && i <= |list| && TearingDown(t, u, dropped) && !u.poisoned
    && CloseAll(u, list[i..]) == CloseAll(t, list)
    && dropped + PlannedDrops(u, list[i..]) == PlannedDrops(t, list)
  }

  lemma ProgressStarts(t: Tree, list: seq<nat>)
    requires Shaped(t) && OnePlace(t) && !t.poisoned
    ensures Progress(t, list, 0, t, [])
  {
    hide Shaped, OnePlace, CloseAll, PlannedDrops;
    TearingDownStarts(t);
    assert list[0..] == list;
  }

  lemma ProgressSteps(t: Tree, list: seq<nat>, i: nat, u: Tree, dropped: seq<nat>)
    requires Progress(t, list, i, u, dropped) && i < |list|
    ensures var x := list[i];
            && (x >= |u.scopes| || !u.scopes[x].open ==> Progress(t, list, i + 1, u, dropped))
            && (x < |u.scopes| && u.scopes[x].open ==>
                  var entries := u.scopes[x].entries;
                  && HousedEntries(u, entries)
                  && (Plannable(u, x) ==> Progress(t, list, i + 1, Close(u, x), dropped + PlanOf(u, entries)))
                  && (!Plannable(u, x) ==>
                        var after := Close(u, x).(poisoned := true);
                        && after == CloseAll(t, list)
                        && TearingDown(t, after, dropped + PinsAt(entries, Ascending(entries.Keys)))))
  {
    hide TearingDown, CloseAll, PlannedDrops, Plannable, PlanOf, PinsAt, HousedEntries;
    CloseStep(u, list, i);
    var x := list[i];
    if x < |u.scopes| && u.scopes[x].open {
      PlanFacts(t, u, dropped, x);
      var entries := u.scopes[x].entries;
      if Plannable(u, x) {
        Associates(dropped, PlanOf(u, entries), PlannedDrops(Close(u, x), list[i + 1..]));
      } else {
        PoisonedStillDrops(t, u, x, dropped + PinsAt(entries, Ascending(entries.Keys)));
      }
    }
  }

  lemma Associates(a: seq<nat>, b: seq<nat>, c: seq<nat>)
    ensures (a + b) + c == a + (b + c)
  {
  }

  lemma ProgressEnds(t: Tree, list: seq<nat>, u: Tree, dropped: seq<nat>)
    requires Progress(t, list, |list|, u, dropped)
    ensures u == CloseAll(t, list) && TearingDown(t, u, dropped) && dropped == PlannedDrops(t, list)
  {
    hide TearingDown;
    assert list[|list|..] == [];
    assert CloseAll(u, []) == u && PlannedDrops(u, []) == [];
  }

  /** The tree of scopes sharing one topology, and the instances they own. */
  class ScopeTree {
    var scopes: seq<Scope>
    var slots: map<nat, Slot>
    var nextEntry: nat
    var poisoned: bool
    const instances: InstanceHeap
    /** The references readers hold. */
    ghost var handles: multiset<nat>

    function Contents(): Tree
      reads this
    {
      Tree(scopes, slots, nextEntry, poisoned)
    }

    ghost function State(): World
      reads this, instances
    {
      World(Contents(), instances.Contents(), handles)
    }

    ghost predicate Valid()
      reads this, instances
    {
      Balanced(State())
    }

    constructor ()
      ensures Valid() && fresh(instances) && State() == Start
    {
      scopes, slots, nextEntry, poisoned := [Scope(None, map[], true, true, [])], map[], 1, false;
      instances := new InstanceHeap();
      handles := multiset{};
      new;
      StartIsBalanced();
    }

    /** Creates a child; under a closed scope it is created closed. */
    method NewChild(s: nat) returns (child: nat)
      requires Valid() && Enabled(Contents(), ChildOf(s))
      modifies this
      ensures Valid() && child == |old(scopes)|
      ensures Possible(old(State()), Step(ChildOf(s), [])) && State() == Act(old(State()), Step(ChildOf(s), []))
    {
      hide Balanced, Enabled, Drops;
      ghost var w := State();
      ScopeIsTidy(w, ChildOf(s));
      ChildDropsNothing(w.tree, s);
      child := |scopes|;
      var added := Scope(Some(s), map[], scopes[s].open, true, []);
      scopes := scopes[s := scopes[s].(children := scopes[s].children + [child])] + [added];
      assert Contents() == Child(w.tree, s);
      ActKeepsBalanced(w, Step(ChildOf(s), []));
      assert State() == Act(w, Step(ChildOf(s), []));
    }

    /** Looks up the nearest visible entry and hands out a handle of it. */
    method Lookup(s: nat, id: Id) returns (r: Option<nat>)
      requires Valid() && s < |scopes|
      modifies this, instances
      ensures Valid() && r == Get(old(Contents()), s, id)
      ensures r == None ==> State() == old(State())
      ensures r.Some? ==> Possible(old(State()), Take([r.value])) && State() == Act(old(State()), Take([r.value]))
    {
      hide Get, Own.Owned, SamePins, OnePlace, Upward, Own.Retain, Published;
      ghost var w := State();
      r := Scopes.Find(Contents(), s, id);
      if r.Some? {
        FoundMayBeTaken(w, s, id);
        instances.Clone([r.value]);
        handles := handles + multiset([r.value]);
        assert State() == Act(w, Take([r.value]));
        ActKeepsBalanced(w, Take([r.value]));
      }
    }

    /** The first phase of a publication: on success the caller holds a handle of every dependency. */
    method PrepareSnapshot(s: nat, d: Definition, x: Expectation) returns (r: Result<map<Id, nat>, ScopeError>)
      requires Valid() && s < |scopes|
      modifies this, instances
      ensures Valid() && r == Prepare(old(Contents()), s, d, x)
      ensures r.Err? ==> State() == old(State())
      ensures r.Ok? ==> var taken := PinsAt(r.value, Ascending(r.value.Keys));
                Possible(old(State()), Take(taken)) && State() == Act(old(State()), Take(taken))
    {
      hide Prepare, Own.Owned, SamePins, OnePlace, Upward, Own.Retain, Published, PinsAt, Possible;
      ghost var w := State();
      r := Scopes.PreparePublication(Contents(), s, d, x);
      if r.Ok? {
        var taken := PinsAt(r.value, Ascending(r.value.Keys));
        SnapshotMayBeTaken(w, s, d, x, r.value);
        instances.Clone(taken);
        handles := handles + multiset(taken);
        assert State() == Act(w, Take(taken));
        ActKeepsBalanced(w, Take(taken));
      }
    }

    /**
     The second phase: publishes a value constructed from the snapshot, or reports
     why it cannot. The entry replaced, if any, is dropped after the new one is in.
     */
    method PublishConstructed(s: nat, d: Definition, x: Expectation, snapshot: map<Id, nat>)
      returns (r: Result<nat, ScopeError>, dropped: seq<nat>)
      requires Valid() && Enabled(Contents(), Commit(s, d, x, snapshot))
      requires forall y :: y in snapshot ==> snapshot[y] in handles
      modifies this, instances
      ensures Valid()
      ensures var c := Commit(s, d, x, snapshot);
              Possible(old(State()), Step(c, dropped)) && State() == Act(old(State()), Step(c, dropped))
      ensures match Publish(old(Contents()), s, d, x, snapshot)
              case Ok(u) => r == Ok(old(nextEntry))
              case Err(e) => r == Err(e) && State() == old(State())
    {
      hide Balanced, Publish, Holds, Own.Retain, Own.Release, Own.Publish, Drops;
      ghost var w, c := State(), Commit(s, d, x, snapshot);
      ScopeIsTidy(w, c);
      var checked := Scopes.CheckPublication(Contents(), s, d, x, snapshot);
      if checked.Err? {
        r, dropped := Err(checked.error), [];
        RejectedChangesNothing(w, c);
        return;
      }
      var e := nextEntry;
      InsertedHere(w, s, d, x, checked.value, snapshot);
      dropped := if d.id in scopes[s].entries then [scopes[s].entries[d.id]] else [];
      scopes := scopes[s := scopes[s].(entries := scopes[s].entries[d.id := e])];
      slots := slots[e := Slot(d, checked.value, snapshot)];
      nextEntry := e + 1;
      assert Contents() == Insert(w.tree, s, d, checked.value, snapshot);
      instances.Create(e, PinnedBy(slots[e]));
      instances.Clone([e]);
      handles := handles + multiset([e]);
      instances.DropAll(dropped);
      r := Ok(e);
      assert State() == Act(w, Step(c, dropped));
      ActKeepsBalanced(w, Step(c, dropped));
    }

    /** Withdraws one exact publication; the caller receives a handle that keeps the instance. */
    method WithdrawEntry(s: nat, id: Id, expected: nat) returns (r: Result<nat, ScopeError>, dropped: seq<nat>)
      requires Valid() && Enabled(Contents(), WithdrawFrom(s, id, expected))
      modifies this, instances
      ensures Valid()
      ensures var c := WithdrawFrom(s, id, expected);
              Possible(old(State()), Step(c, dropped)) && State() == Act(old(State()), Step(c, dropped))
      ensures match Withdraw(old(Contents()), s, id, expected)
              case Ok(u) => r == Ok(old(scopes)[s].entries[id]) && Contents() == u
              case Err(e) => r == Err(e) && State() == old(State())
    {
      hide Balanced, Own.Retain, Own.Release, Own.Publish, Drops;
      ghost var w, c := State(), WithdrawFrom(s, id, expected);
      ScopeIsTidy(w, c);
      var entries := scopes[s].entries;
      if !scopes[s].open {
        r, dropped := Err(ScopeClosed), [];
        FailedWithdrawalChangesNothing(w, c);
      } else if id !in entries {
        r, dropped := Err(NoLocalEntry(id)), [];
        FailedWithdrawalChangesNothing(w, c);
      } else if GenerationOf(Contents(), entries[id]) != expected {
        r, dropped := Err(ReplacementConflict(id, expected, GenerationOf(Contents(), entries[id]))), [];
        FailedWithdrawalChangesNothing(w, c);
      } else {
        WithdrawalDropsEntry(w.tree, s, id, expected);
        var e := entries[id];
        scopes := scopes[s := scopes[s].(entries := entries - {id})];
        instances.Clone([e]);
        handles := handles + multiset([e]);
        dropped := [e];
        instances.Drop(e);
        r := Ok(e);
        assert State() == Act(w, Step(c, dropped));
        ActKeepsBalanced(w, Step(c, dropped));
      }
    }

    /** Drops one handle; the instance is cleaned up if this was the last reference to it. */
    method DropReader(e: nat)
      requires Valid() && e in handles
      modifies this, instances
      ensures Valid() && State() == Act(old(State()), DropHandle(e))
    {
      hide Balanced, Own.Release;
      ghost var w := State();
      handles := handles - multiset{e};
      instances.Drop(e);
      assert State() == Act(w, DropHandle(e));
      ActKeepsBalanced(w, DropHandle(e));
    }

    /**
     Closes the scope and its live descendants, children first, taking their
     entries and planning each release; the entries are dropped after the last
     scope is closed. A release that cannot be planned leaves the tree poisoned.
     */
    method TearDownScope(s: nat) returns (dropped: seq<nat>)
      requires Valid() && Enabled(Contents(), TearDown(s))
      modifies this, instances
      ensures Valid()
      ensures Possible(old(State()), Step(TearDown(s), dropped))
      ensures State() == Act(old(State()), Step(TearDown(s), dropped))
      ensures !poisoned ==> dropped == PlannedDrops(old(Contents()), ChildFirst(old(Contents()), s))
    {
      ghost var w, c := State(), TearDown(s);
      ScopeIsTidy(w, c);
      dropped := CloseScopes(s);
      hide Balanced, Own.Release, Drops, TearingDown, ChildFirst, CloseAll, PlannedDrops;
      TearingDownDrops(w.tree, Contents(), dropped);
      instances.DropAll(dropped);
      assert w.handles + multiset([]) == w.handles;
      assert State() == Act(w, Step(c, dropped));
      ActKeepsBalanced(w, Step(c, dropped));
    }

    /** Takes the entries of one open scope, plans their release, and closes it. */
    method CloseOne(x: nat) returns (plan: seq<nat>)
      requires x < |scopes| && scopes[x].open && HousedEntries(Contents(), scopes[x].entries)
      modifies this`scopes, this`poisoned
      ensures Plannable(old(Contents()), x) ==>
                Contents() == Close(old(Contents()), x) && plan == PlanOf(old(Contents()), old(scopes)[x].entries)
      ensures !Plannable(old(Contents()), x) ==>
                && Contents() == Close(old(Contents()), x).(poisoned := true)
                && plan == PinsAt(old(scopes)[x].entries, Ascending(old(scopes)[x].entries.Keys))
    {
      hide RuntimeGraph, Resolve, PinsAt;
      var entries := scopes[x].entries;
      var graph := Scopes.ReleaseGraph(Contents(), entries);
      var resolved := Resolvers.ResolveAll(graph);
      scopes := scopes[x := scopes[x].(open := false, entries := map[])];
      if resolved.Err? {
        poisoned := true;
        plan := PinsAt(entries, Ascending(entries.Keys));
      } else {
        plan := PinsAt(entries, TeardownOrder(resolved.value));
      }
    }

    method CloseScopes(s: nat) returns (dropped: seq<nat>)
      requires Shaped(Contents()) && OnePlace(Contents()) && s < |scopes| && !poisoned
      modifies this`scopes, this`poisoned
      ensures Contents() == CloseAll(old(Contents()), ChildFirst(old(Contents()), s))
      ensures TearingDown(old(Contents()), Contents(), dropped)
      ensures !poisoned ==> dropped == PlannedDrops(old(Contents()), ChildFirst(old(Contents()), s))
    {
      ghost var t := Contents();
      var list := Scopes.ChildrenFirst(Contents(), s);
      dropped := [];
      ProgressStarts(t, list);
      var i := 0;
      hide *;
      while i < |list|
        invariant 0 <= i <= |list| && !poisoned && Progress(t, list, i, Contents(), dropped)
      {
        var x := list[i];
        ghost var u := Contents();
        ProgressSteps(t, list, i, u, dropped);
        if x < |scopes| && scopes[x].open {
          var plan := CloseOne(x);
          dropped := dropped + plan;
          if poisoned { return; }
        }
        i := i + 1;
      }
      ProgressEnds(t, list, Contents(), dropped);
    }
  }
}
