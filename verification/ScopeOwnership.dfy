/**
 Scopes, readers and instances together: which references each scope step takes
 and drops, over runs in which readers clone and drop handles at any moment.
 */
module ScopeOwnership {
  import opened Prelude
  import opened ResolverModel
  import opened ScopeModel
  import opened ScopeInvariants
  import opened ScopePublication
  import opened ScopeTeardown
  import Own = OwnershipModel

  /** `handles` are the references readers hold; an instance is named by its entry. */
  datatype World = World(tree: Tree, heap: Own.Heap, handles: multiset<nat>)

  const Start := World(Root, Own.NoInstances, multiset{})

  predicate HasEntry(t: Tree, i: nat, e: nat) {
    && i < |t.scopes| && e in t.slots && t.slots[e].definition.id in t.scopes[i].entries
    && t.scopes[i].entries[t.slots[e].definition.id] == e
  }

  /** The entries the scopes own. */
  ghost function Published(t: Tree): set<nat> {
    set e | e in t.slots && exists i :: HasEntry(t, i, e)
  }

  /** An entry is owned by one scope at most. */
  ghost predicate OnePlace(t: Tree) {
    forall i, j, e :: HasEntry(t, i, e) && HasEntry(t, j, e) ==> i == j
  }

  /** `order` lists, once each, the entries the step from `t` to `u` drops. */
  ghost predicate Drops(t: Tree, u: Tree, order: seq<nat>) {
    Distinct(order) && Elements(order) == Published(t) - Published(u)
  }

  /**
   A scope step; a reader taking handles of published or already held instances,
   by lookup or by cloning; or a reader dropping a handle.
   */
  datatype Action =
    | Step(command: Command, order: seq<nat>)
    | Take(entries: seq<nat>)
    | DropHandle(entry: nat)

  /** The handle a step hands out: the entry published, or the one withdrawn. */
  function HandedOut(t: Tree, u: Tree, c: Command): seq<nat> {
    match c
    case Commit(_, _, _, _) => if u.nextEntry > t.nextEntry then [t.nextEntry] else []
    case WithdrawFrom(s, id, _) =>
      if s < |t.scopes| && s < |u.scopes| && id in t.scopes[s].entries && id !in u.scopes[s].entries then
        [t.scopes[s].entries[id]]
      else []
    case _ => []
  }

  ghost predicate Possible(w: World, a: Action) {
    match a
    case Step(c, order) =>
      && Drops(w.tree, Execute(w.tree, c), order)
      && (c.Commit? ==> forall x :: x in c.snapshot ==> c.snapshot[x] in w.handles)
    case Take(entries) => forall e :: e in entries ==> e in Held(w)
    case DropHandle(e) => e in w.handles
  }

  function Allocate(h: Own.Heap, t: Tree, u: Tree): Own.Heap {
    if u.nextEntry > t.nextEntry && t.nextEntry in u.slots then
      Own.Publish(h, t.nextEntry, PinnedBy(u.slots[t.nextEntry]))
    else h
  }

  ghost function Act(w: World, a: Action): World {
    if !Possible(w, a) then w
    else match a
         case Step(c, order) =>
           var u := Execute(w.tree, c);
           var given := HandedOut(w.tree, u, c);
           World(u, Own.Release(Own.Retain(Allocate(w.heap, w.tree, u), given), order), w.handles + multiset(given))
         case Take(entries) => w.(heap := Own.Retain(w.heap, entries), handles := w.handles + multiset(entries))
         case DropHandle(e) => w.(heap := Own.Release(w.heap, [e]), handles := w.handles - multiset{e})
  }

  ghost function ActAll(w: World, actions: seq<Action>): World {
    if actions == [] then w else Act(ActAll(w, actions[..|actions| - 1]), actions[|actions| - 1])
  }

  // ---- The invariant ----

  ghost predicate SamePins(t: Tree, h: Own.Heap) {
    h.pins.Keys == t.slots.Keys && forall e :: e in t.slots ==> h.pins[e] == PinnedBy(t.slots[e])
  }

  ghost function Held(w: World): multiset<nat> {
    multiset(Published(w.tree)) + w.handles
  }

  ghost predicate Balanced(w: World) {
    Sound(w.tree) && OnePlace(w.tree) && SamePins(w.tree, w.heap) && Own.Owned(w.heap, Held(w))
  }

  // ---- Published entries ----

  lemma EntryIsPublished(t: Tree, i: nat, id: Id)
    requires Housed(t) && i < |t.scopes| && id in t.scopes[i].entries
    ensures HasEntry(t, i, t.scopes[i].entries[id]) && t.scopes[i].entries[id] in Published(t)
  {
    assert HasEntry(t, i, t.scopes[i].entries[id]);
  }

  lemma {:induction false} FoundIsPublished(t: Tree, s: nat, id: Id)
    requires Housed(t) && Get(t, s, id).Some?
    ensures Get(t, s, id).value in Published(t) && t.slots[Get(t, s, id).value].definition.id == id
    decreases s
  {
    if id in t.scopes[s].entries {
      EntryIsPublished(t, s, id);
    } else {
      FoundIsPublished(t, t.scopes[s].parent.value, id);
    }
  }

  /** Publishing adds the new entry and takes out the one it replaces. */
  lemma PublishedAfterInsert(t: Tree, s: nat, d: Definition, generation: nat, snapshot: map<Id, nat>)
    requires Tidy(t) && OnePlace(t) && s < |t.scopes|
    ensures var u, e := Insert(t, s, d, generation, snapshot), t.nextEntry;
            && OnePlace(u) && e in Published(u) && e !in Published(t)
            && Published(u) - {e} <= Published(t)
  {
    hide Parented, Upward;
    var u, e := Insert(t, s, d, generation, snapshot), t.nextEntry;
    assert e !in t.slots;
    hide Pinned;
    assert HasEntry(u, s, e);
    forall i, x | HasEntry(u, i, x) && x != e ensures HasEntry(t, i, x) {
    }
    forall i: nat | i != s ensures !HasEntry(u, i, e) {
      if i < |t.scopes| && d.id in t.scopes[i].entries { assert t.scopes[i].entries[d.id] in t.slots; }
    }
  }

  /** A step that publishes nothing and moves no entry. */
  ghost predicate TakesAway(t: Tree, u: Tree) {
    && u.slots == t.slots && u.nextEntry == t.nextEntry && |t.scopes| <= |u.scopes|
    && forall i, id :: 0 <= i < |u.scopes| && id in u.scopes[i].entries ==>
         i < |t.scopes| && id in t.scopes[i].entries && t.scopes[i].entries[id] == u.scopes[i].entries[id]
  }

  lemma PublishedShrinks(t: Tree, u: Tree)
    requires OnePlace(t) && TakesAway(t, u)
    ensures OnePlace(u) && Published(u) <= Published(t)
  {
    forall i, x | HasEntry(u, i, x) ensures HasEntry(t, i, x) {
    }
  }

  /** An entry taken from the scope that owned it is one the step drops. */
  lemma RemovedIsDropped(t: Tree, u: Tree, i: nat, e: nat)
    requires OnePlace(t) && TakesAway(t, u) && HasEntry(t, i, e) && !HasEntry(u, i, e)
    ensures e in Published(t) - Published(u)
  {
    forall j | HasEntry(u, j, e) ensures false { assert HasEntry(t, j, e); }
  }

  lemma ClosingTakesAway(t: Tree, u: Tree)
    requires ClosesSome(t, u)
    ensures TakesAway(t, u)
  {
  }

  lemma ChildTakesAway(t: Tree, s: nat)
    requires s < |t.scopes|
    ensures TakesAway(t, Child(t, s))
  {
    hide Child;
    ChildFrame(t, s, s);
    forall i | 0 <= i < |t.scopes| ensures Child(t, s).scopes[i].entries == t.scopes[i].entries { ChildFrame(t, s, i); }
  }

  lemma WithdrawalTakesAway(t: Tree, s: nat, id: Id, generation: nat)
    requires s < |t.scopes| && Withdraw(t, s, id, generation).Ok?
    ensures TakesAway(t, Withdraw(t, s, id, generation).value)
    ensures id in t.scopes[s].entries && id !in Withdraw(t, s, id, generation).value.scopes[s].entries
  {
  }

  /** Every scope step either publishes one entry or only takes entries away. */
  lemma StepShape(t: Tree, c: Command)
    requires Sound(t)
    ensures var u := Execute(t, c);
            || (u.nextEntry == t.nextEntry && TakesAway(t, u))
            || (c.Commit? && Enabled(t, c) && Publish(t, c.scope, c.definition, c.expectation, c.snapshot).Ok?
                && u == Publish(t, c.scope, c.definition, c.expectation, c.snapshot).value)
  {
    hide Shaped, Upward, Publish, Teardown, Forget, Child, Holds, TakesAway, Withdraw;
    TakesNothing(t);
    if Enabled(t, c) {
      match c
      case ChildOf(s) => ChildTakesAway(t, s); ChildFrame(t, s, s);
      case Commit(s, d, x, snapshot) =>
      case WithdrawFrom(s, id, generation) =>
        if Withdraw(t, s, id, generation).Ok? {
          WithdrawalTakesAway(t, s, id, generation);
          SameNext(t, Withdraw(t, s, id, generation).value);
        }
      case TearDown(s) => TeardownClosesSome(t, s); ClosingTakesAway(t, Teardown(t, s)); SameNext(t, Teardown(t, s));
      case ForgetScope(s) => ForgetCloses(t, s); ClosingTakesAway(t, Forget(t, s)); SameNext(t, Forget(t, s));
    }
  }

  lemma TakesNothing(t: Tree)
    ensures TakesAway(t, t)
  {
  }

  lemma SameNext(t: Tree, u: Tree)
    requires TakesAway(t, u)
    ensures u.nextEntry == t.nextEntry
  {
  }

  // ---- References across a step ----

  lemma SplitHeld(all: set<nat>, rest: set<nat>, order: seq<nat>)
    requires Distinct(order) && rest <= all && Elements(order) == all - rest
    ensures multiset(all) == multiset(rest) + multiset(order)
  {
    forall x ensures multiset(all)[x] == (multiset(rest) + multiset(order))[x] {
      DistinctCount(order, x);
      assert x in order <==> x in Elements(order);
    }
  }

  lemma HeldIsLive(h: Own.Heap, held: multiset<nat>, given: seq<nat>)
    requires Own.Owned(h, held) && forall e :: e in given ==> e in held
    ensures forall e :: e in given ==> Own.Live(h, e) && e in h.pins
  {
    hide Own.Owned;
    forall e | e in given ensures Own.Live(h, e) && e in h.pins { Own.HeldIsCounted(h, held, e); }
  }

  /** Handing out references to held instances and then dropping some leaves the accounts settled. */
  lemma SettleReferences(h: Own.Heap, handles: multiset<nat>, all: set<nat>, rest: set<nat>, given: seq<nat>,
                         order: seq<nat>)
    requires Own.Owned(h, multiset(all) + handles) && forall e :: e in given ==> e in all
    requires Distinct(order) && rest <= all && Elements(order) == all - rest
    ensures Own.Owned(Own.Release(Own.Retain(h, given), order), multiset(rest) + (handles + multiset(given)))
    ensures Own.Release(Own.Retain(h, given), order).pins == h.pins
  {
    hide Own.Owned, Own.Retain, Own.Release;
    var held := multiset(all) + handles;
    HeldIsLive(h, held, given);
    Own.RetainKeepsOwned(h, held, given);
    SplitHeld(all, rest, order);
    var after := multiset(rest) + (handles + multiset(given));
    assert held + multiset(given) == after + multiset(order);
    Own.ReleaseKeepsOwned(Own.Retain(h, given), after, order);
  }

  lemma AscendingIsDistinct(s: set<Id>)
    ensures Distinct(Ascending(s))
  {
    AscendingIsSorted(s);
  }

  lemma SlotPinsAreDistinct(t: Tree, e: nat)
    requires Pinned(t.slots, t.nextEntry) && e in t.slots
    ensures Distinct(PinnedBy(t.slots[e]))
  {
    var m := t.slots[e].dependencies;
    forall x, y | x in m && y in m && m[x] == m[y] ensures x == y {
      assert t.slots[m[x]].definition.id == x && t.slots[m[y]].definition.id == y;
    }
    AscendingIsDistinct(m.Keys);
    PinsAreDistinct(m, Ascending(m.Keys));
  }

  lemma TakingAwayKeepsBalanced(w: World, u: Tree, given: seq<nat>, order: seq<nat>)
    requires Balanced(w) && Sound(u) && TakesAway(w.tree, u) && Drops(w.tree, u, order)
    requires forall e :: e in given ==> e in Published(w.tree)
    ensures Balanced(World(u, Own.Release(Own.Retain(w.heap, given), order), w.handles + multiset(given)))
  {
    hide Own.Owned, Own.Retain, Own.Release, Sound, OnePlace, TakesAway, Published;
    PublishedShrinks(w.tree, u);
    SettleReferences(w.heap, w.handles, Published(w.tree), Published(u), given, order);
    SamePinsFrame(w.tree, u, w.heap);
  }

  lemma SamePinsFrame(t: Tree, u: Tree, h: Own.Heap)
    requires SamePins(t, h) && TakesAway(t, u)
    ensures SamePins(u, h)
  {
    hide PinnedBy;
  }

  /** The pins of a snapshot whose handles the publisher holds. */
  lemma SnapshotIsHeld(w: World, u: Tree, e: nat)
    requires Balanced(w) && Sound(u) && e == w.tree.nextEntry && e in u.slots && u.slots.Keys == w.tree.slots.Keys + {e}
    requires forall x :: x in u.slots[e].dependencies ==> u.slots[e].dependencies[x] in w.handles
    ensures var pins := PinnedBy(u.slots[e]);
            Distinct(pins) && e !in w.heap.pins && forall x :: x in pins ==> Own.Live(w.heap, x) && x < e
  {
    hide Own.Owned, OnePlace, PinnedBy, Housed, Parented, Upward;
    var pins := PinnedBy(u.slots[e]);
    SlotPinsAreDistinct(u, e);
    PinsAreEarlier(u, e);
    assert e !in w.tree.slots;
    forall x | x in pins ensures x in Held(w) {
      PinnedByExactly(u.slots[e], x);
    }
    HeldIsLive(w.heap, Held(w), pins);
  }

  /** A successful publication, as the owner of references sees it. */
  ghost predicate Publishes(t: Tree, u: Tree, e: nat, snapshot: map<Id, nat>) {
    && e == t.nextEntry && u.nextEntry == e + 1 && e !in t.slots && u.slots.Keys == t.slots.Keys + {e}
    && u.slots[e].dependencies == snapshot && (forall x :: x in t.slots ==> u.slots[x] == t.slots[x])
    && OnePlace(u) && e in Published(u) && e !in Published(t) && Published(u) - {e} <= Published(t)
  }

  lemma CommitPublishes(t: Tree, s: nat, d: Definition, x: Expectation, snapshot: map<Id, nat>, u: Tree)
    requires Tidy(t) && OnePlace(t) && s < |t.scopes| && Publish(t, s, d, x, snapshot) == Ok(u)
    ensures Publishes(t, u, t.nextEntry, snapshot)
  {
    hide Insert, Publish, Tidy, OnePlace, Published, Get;
    PublicationInserts(t, s, d, x, snapshot);
    var generation := NextGeneration(t, s, d.id, x).value;
    InsertedEntry(t, s, d, generation, snapshot);
    PublishedAfterInsert(t, s, d, generation, snapshot);
  }

  lemma PublishingSettles(w: World, u: Tree, snapshot: map<Id, nat>, order: seq<nat>)
    requires Balanced(w) && Sound(u) && Publishes(w.tree, u, w.tree.nextEntry, snapshot) && Drops(w.tree, u, order)
    requires forall y :: y in snapshot ==> snapshot[y] in w.handles
    ensures var e := w.tree.nextEntry;
            var h := Own.Release(Own.Retain(Own.Publish(w.heap, e, PinnedBy(u.slots[e])), [e]), order);
            Balanced(World(u, h, w.handles + multiset([e])))
  {
    hide Own.Owned, Own.Retain, Own.Release, Own.Publish, Sound, OnePlace, Published, PinnedBy;
    var t, e := w.tree, w.tree.nextEntry;
    var pins := PinnedBy(u.slots[e]);
    SnapshotIsHeld(w, u, e);
    Own.PublishKeepsOwned(w.heap, Held(w), e, pins);
    var h, all := Own.Publish(w.heap, e, pins), Published(t) + {e};
    assert multiset(all) + w.handles == Held(w) + multiset{e};
    SettleReferences(h, w.handles, all, Published(u), [e], order);
    PublishedPins(w.heap, e, pins);
  }

  lemma PublishedPins(h: Own.Heap, e: nat, pins: seq<nat>)
    ensures Own.Publish(h, e, pins).pins == h.pins[e := pins]
  {
    RetainKeepsPins(h, pins);
  }

  lemma {:induction false} RetainKeepsPins(h: Own.Heap, entries: seq<nat>)
    ensures Own.Retain(h, entries).pins == h.pins
    decreases |entries|
  {
    if entries != [] { RetainKeepsPins(Own.Increment(h, entries[0]), entries[1..]); }
  }

  /** A scope step with the references it moves. */
  lemma StepKeepsBalanced(w: World, c: Command, order: seq<nat>)
    requires Balanced(w) && Possible(w, Step(c, order))
    ensures Balanced(Act(w, Step(c, order)))
  {
    hide Own.Owned, Own.Retain, Own.Release, Own.Publish, Sound, Published, PinnedBy, Execute, Publish, Enabled,
      TakesAway, OnePlace;
    var t, u := w.tree, Execute(w.tree, c);
    ExecuteKeepsSound(t, c);
    StepShape(t, c);
    if u.nextEntry == t.nextEntry && TakesAway(t, u) {
      HandedOutIsPublished(t, u, c);
      TakingAwayKeepsBalanced(w, u, HandedOut(t, u, c), order);
    } else {
      EnabledIsTidy(t, c);
      CommitPublishes(t, c.scope, c.definition, c.expectation, c.snapshot, u);
      PublishingSettles(w, u, c.snapshot, order);
      assert HandedOut(t, u, c) == [t.nextEntry];
    }
  }

  lemma EnabledIsTidy(t: Tree, c: Command)
    requires Sound(t) && Enabled(t, c)
    ensures Tidy(t) && c.scope < |t.scopes|
  {
  }

  lemma HandedOutIsPublished(t: Tree, u: Tree, c: Command)
    requires Sound(t) && u.nextEntry == t.nextEntry
    ensures forall e :: e in HandedOut(t, u, c) ==> e in Published(t)
  {
    hide Published;
    if c.WithdrawFrom? && c.scope < |t.scopes| && c.id in t.scopes[c.scope].entries {
      EntryIsPublished(t, c.scope, c.id);
    }
  }

  lemma ReaderTakes(w: World, entries: seq<nat>)
    requires Balanced(w) && forall e :: e in entries ==> e in Held(w)
    ensures Balanced(w.(heap := Own.Retain(w.heap, entries), handles := w.handles + multiset(entries)))
  {
    hide Own.Owned, Own.Retain, Sound, OnePlace, Published, PinnedBy;
    HeldIsLive(w.heap, Held(w), entries);
    Own.RetainKeepsOwned(w.heap, Held(w), entries);
    assert Held(w) + multiset(entries) == multiset(Published(w.tree)) + (w.handles + multiset(entries));
  }

  lemma ReaderDrops(w: World, e: nat)
    requires Balanced(w) && e in w.handles
    ensures Balanced(w.(heap := Own.Release(w.heap, [e]), handles := w.handles - multiset{e}))
  {
    hide Own.Owned, Own.Release, Sound, OnePlace, Published, PinnedBy;
    var after := multiset(Published(w.tree)) + (w.handles - multiset{e});
    assert Held(w) == after + multiset([e]);
    Own.ReleaseKeepsOwned(w.heap, after, [e]);
  }

  lemma ActKeepsBalanced(w: World, a: Action)
    requires Balanced(w)
    ensures Balanced(Act(w, a))
  {
    hide Balanced, Published, Execute;
    if Possible(w, a) {
      match a
      case Step(c, order) => StepKeepsBalanced(w, c, order);
      case Take(entries) => ReaderTakes(w, entries);
      case DropHandle(e) => ReaderDrops(w, e);
    }
  }

  /** What a scope resolves may be taken by any reader. */
  lemma FoundMayBeTaken(w: World, s: nat, id: Id)
    requires Balanced(w) && Get(w.tree, s, id).Some?
    ensures Possible(w, Take([Get(w.tree, s, id).value]))
  {
    hide Own.Owned, SamePins, OnePlace, Published, Get, Upward, Parented, Pinned;
    FoundIsPublished(w.tree, s, id);
  }

  /** Every run, whatever its steps, lookups, clones and drops, keeps the accounts balanced. */
  lemma {:induction false} RunKeepsBalanced(actions: seq<Action>)
    ensures Balanced(ActAll(Start, actions))
    decreases |actions|
  {
    hide Balanced, Act;
    if actions == [] {
      StartIsBalanced();
    } else {
      RunKeepsBalanced(actions[..|actions| - 1]);
      ActKeepsBalanced(ActAll(Start, actions[..|actions| - 1]), actions[|actions| - 1]);
    }
  }

  lemma StartIsBalanced()
    ensures Balanced(Start)
  {
    RootResolves();
    assert Published(Root) == {};
  }

  // ---- Ownership safety ----

  /** A cleanup runs once, and after the cleanup of every instance that pinned it. */
  lemma CleanupsAreOrdered(actions: seq<Action>)
    ensures var w := ActAll(Start, actions);
            && Distinct(w.heap.cleaned)
            && forall d, e :: d in w.tree.slots && e in w.tree.slots[d].dependencies.Values && e in w.heap.cleaned ==>
                 Own.Precedes(w.heap.cleaned, d, e)
  {
    hide PinnedBy, Own.Counted, Own.PinsShaped, Published, Sound;
    RunKeepsBalanced(actions);
    var w := ActAll(Start, actions);
    forall d, e | d in w.tree.slots && e in w.tree.slots[d].dependencies.Values && e in w.heap.cleaned
      ensures Own.Precedes(w.heap.cleaned, d, e)
    {
      PinnedByExactly(w.tree.slots[d], e);
    }
  }

  /** A cleanup has run exactly when no entry of any scope and no handle leads to the instance. */
  lemma CleanupIsExact(actions: seq<Action>, e: nat)
    requires e in ActAll(Start, actions).tree.slots
    ensures var w := ActAll(Start, actions);
            e in w.heap.cleaned <==> !Own.Reachable(w.heap, Held(w), e)
  {
    hide PinnedBy, Own.Counted, Published, Sound, Own.Reachable;
    RunKeepsBalanced(actions);
    var w := ActAll(Start, actions);
    Own.LiveIsReachable(w.heap, Held(w), e);
  }

  /** What a scope resolves or a reader holds is never cleaned up, nor is anything it pins. */
  lemma VisibleIsNeverCleaned(actions: seq<Action>, e: nat)
    requires var w := ActAll(Start, actions);
             e in w.handles || exists s, id :: Get(w.tree, s, id) == Some(e)
    ensures var w := ActAll(Start, actions);
            && e in w.tree.slots && e !in w.heap.cleaned
            && forall p :: p in w.tree.slots[e].dependencies.Values ==> p !in w.heap.cleaned
  {
    hide PinnedBy, Published, Own.PinsShaped, Own.Counted;
    RunKeepsBalanced(actions);
    var w := ActAll(Start, actions);
    if e !in w.handles {
      var s, id :| Get(w.tree, s, id) == Some(e);
      FoundIsPublished(w.tree, s, id);
    }
    hide Sound;
    assert e in Held(w);
    Own.HeldIsCounted(w.heap, Held(w), e);
    forall p | p in w.tree.slots[e].dependencies.Values ensures p !in w.heap.cleaned {
      PinnedByExactly(w.tree.slots[e], p);
      LiveKeepsItsPins(w.heap, Held(w), e, p);
    }
  }

  lemma LiveKeepsItsPins(h: Own.Heap, held: multiset<nat>, e: nat, p: nat)
    requires Own.Owned(h, held) && Own.Live(h, e) && e in h.pins && p in h.pins[e]
    ensures Own.Live(h, p) && p !in h.cleaned
  {
    assert e in Own.Dependents(h, p);
    hide Own.Dependents;
  }

  /** When every scope is closed and every handle dropped, every instance ever published has been cleaned up. */
  lemma NothingOutlivesItsOwners(actions: seq<Action>)
    requires var w := ActAll(Start, actions);
             w.handles == multiset{} && forall i :: 0 <= i < |w.tree.scopes| ==> w.tree.scopes[i].entries == map[]
    ensures var w := ActAll(Start, actions);
            Elements(w.heap.cleaned) == w.tree.slots.Keys
  {
    hide PinnedBy, Own.PinsShaped, Own.Counted, Sound;
    RunKeepsBalanced(actions);
    var w := ActAll(Start, actions);
    assert Published(w.tree) == {};
    assert Held(w) == multiset{};
    Own.NothingLeaks(w.heap);
    CleanedIsKnown(w.heap, Held(w));
  }

  lemma CleanedIsKnown(h: Own.Heap, held: multiset<nat>)
    requires Own.Owned(h, held)
    ensures forall e :: e in h.cleaned ==> e in h.pins
  {
  }
}
