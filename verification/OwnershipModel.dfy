/**
 Shared ownership of published instances. An instance is kept by the scope
 entry that published it, by reader handles, and by every live instance that
 pinned it; its cleanup runs when the last of these goes.
 */
module OwnershipModel {
  import opened Prelude

  /** `pins` never change; a count of zero means the instance has been cleaned up. */
  datatype Heap = Heap(pins: map<nat, seq<nat>>, counts: map<nat, nat>, cleaned: seq<nat>)

  const NoInstances := Heap(map[], map[], [])

  predicate Live(h: Heap, e: nat) {
    e in h.counts && h.counts[e] > 0
  }

  function LiveSet(h: Heap): set<nat> {
    set e | e in h.counts && h.counts[e] > 0
  }

  function Dependents(h: Heap, e: nat): set<nat> {
    set d | d in h.counts && h.counts[d] > 0 && d in h.pins && e in h.pins[d]
  }

  // ---- Operations ----

  /** One more reference to each listed instance. */
  function Retain(h: Heap, entries: seq<nat>): Heap
    decreases |entries|
  {
    if entries == [] then h else Retain(Increment(h, entries[0]), entries[1..])
  }

  function Increment(h: Heap, e: nat): Heap {
    if e in h.counts then h.(counts := h.counts[e := h.counts[e] + 1]) else h
  }

  /** A new instance with one reference, pinning the listed ones. */
  function Publish(h: Heap, e: nat, pins: seq<nat>): Heap {
    WithInstance(Retain(h, pins), e, pins)
  }

  function Decrement(h: Heap, e: nat): Heap
    requires e in h.counts && h.counts[e] > 1
  {
    h.(counts := h.counts[e := h.counts[e] - 1])
  }

  function CleanUp(h: Heap, e: nat): Heap {
    h.(counts := h.counts[e := 0], cleaned := h.cleaned + [e])
  }

  function PinsOf(h: Heap, e: nat): seq<nat> {
    if e in h.pins then h.pins[e] else []
  }

  /** Drops the listed references in order; a last reference first runs the cleanup, then drops the pins. */
  function Release(h: Heap, entries: seq<nat>): Heap
    decreases |LiveSet(h)|, |entries|
  {
    if entries == [] then h
    else
      var e := entries[0];
      if !Live(h, e) then Release(h, entries[1..])
      else if h.counts[e] > 1 then
        DecrementKeepsLive(h, e);
        Release(Decrement(h, e), entries[1..])
      else
        CleanUpShrinks(h, e);
        Release(CleanUp(h, e), PinsOf(h, e) + entries[1..])
  }

  lemma DecrementKeepsLive(h: Heap, e: nat)
    requires e in h.counts && h.counts[e] > 1
    ensures LiveSet(Decrement(h, e)) == LiveSet(h)
  {
  }

  lemma CleanUpShrinks(h: Heap, e: nat)
    requires Live(h, e)
    ensures LiveSet(CleanUp(h, e)) == LiveSet(h) - {e} && |LiveSet(CleanUp(h, e))| < |LiveSet(h)|
  {
    assert LiveSet(CleanUp(h, e)) == LiveSet(h) - {e};
    assert e in LiveSet(h);
  }

  // ---- The invariant ----

  /** Pins lead to earlier instances, each at most once. */
  ghost predicate PinsShaped(h: Heap) {
    && h.counts.Keys == h.pins.Keys
    && (forall d :: d in h.pins ==> Distinct(h.pins[d]))
    && (forall d, x :: d in h.pins && x in h.pins[d] ==> x in h.pins && x < d)
  }

  /** Each count is the references held from outside plus the live instances that pin it. */
  ghost predicate Counted(h: Heap, held: multiset<nat>) {
    && (forall e :: e in held ==> e in h.counts)
    && (forall e :: e in h.counts ==> h.counts[e] == held[e] + |Dependents(h, e)|)
  }

  /** `d` was cleaned up before `e`. */
  ghost predicate Precedes(cleaned: seq<nat>, d: nat, e: nat) {
    exists i, j :: 0 <= i < j < |cleaned| && cleaned[i] == d && cleaned[j] == e
  }

  /** Cleanups ran once each, for exactly the instances that are gone, dependents first. */
  ghost predicate CleanedInOrder(h: Heap) {
    && Distinct(h.cleaned)
    && (forall e :: e in h.cleaned <==> e in h.counts && h.counts[e] == 0)
    && (forall d, e :: d in h.pins && e in h.pins[d] && e in h.cleaned ==> Precedes(h.cleaned, d, e))
  }

  ghost predicate Owned(h: Heap, held: multiset<nat>) {
    PinsShaped(h) && Counted(h, held) && CleanedInOrder(h)
  }

  // ---- Retaining ----

  lemma DependentsFrame(h: Heap, k: Heap, e: nat)
    requires h.pins == k.pins && LiveSet(h) == LiveSet(k)
    ensures Dependents(h, e) == Dependents(k, e)
  {
    assert forall d :: d in LiveSet(h) <==> d in h.counts && h.counts[d] > 0;
    assert forall d :: d in LiveSet(k) <==> d in k.counts && k.counts[d] > 0;
  }

  lemma IncrementIsLocal(h: Heap, e: nat)
    requires Live(h, e)
    ensures var k := Increment(h, e);
            && k.pins == h.pins && k.cleaned == h.cleaned && k.counts.Keys == h.counts.Keys
            && LiveSet(k) == LiveSet(h)
            && (forall x :: x in h.counts ==> k.counts[x] == h.counts[x] + multiset{e}[x])
  {
  }

  /** The cleanup record depends only on which instances are live. */
  lemma CleanedFrame(h: Heap, k: Heap)
    requires CleanedInOrder(h) && k.pins == h.pins && k.cleaned == h.cleaned
    requires k.counts.Keys == h.counts.Keys && LiveSet(k) == LiveSet(h)
    ensures CleanedInOrder(k)
  {
    forall e | e in h.counts ensures k.counts[e] == 0 <==> h.counts[e] == 0 {
      assert e in LiveSet(k) <==> e in LiveSet(h);
    }
  }

  lemma RetainOne(h: Heap, held: multiset<nat>, e: nat)
    requires Owned(h, held) && Live(h, e)
    ensures Owned(Increment(h, e), held + multiset{e}) && LiveSet(Increment(h, e)) == LiveSet(h)
    ensures Increment(h, e).pins == h.pins && Increment(h, e).cleaned == h.cleaned
  {
    hide Owned, LiveSet, Increment;
    IncrementIsLocal(h, e);
    forall x | x in held + multiset{e} ensures x in h.counts { if x in held { HeldIsCounted(h, held, x); } }
    SameLiveKeepsOwned(h, Increment(h, e), held, held + multiset{e});
  }

  lemma OwnedParts(h: Heap, held: multiset<nat>)
    ensures Owned(h, held) <==> PinsShaped(h) && Counted(h, held) && CleanedInOrder(h)
  {
  }

  /** The accounts after counts and held references change alike while the same instances stay live. */
  lemma SameLiveKeepsOwned(h: Heap, k: Heap, before: multiset<nat>, after: multiset<nat>)
    requires k.pins == h.pins && k.cleaned == h.cleaned && k.counts.Keys == h.counts.Keys
    requires forall x :: x in after ==> x in h.counts
    requires forall x :: x in h.counts ==> k.counts[x] + before[x] == h.counts[x] + after[x]
    requires Owned(h, before) && LiveSet(k) == LiveSet(h)
    ensures Owned(k, after)
  {
    hide Dependents, LiveSet, CleanedInOrder, PinsShaped;
    CleanedFrame(h, k);
    ShapeFrame(h, k);
    forall x | x in k.counts ensures k.counts[x] == after[x] + |Dependents(k, x)| { DependentsFrame(h, k, x); }
  }

  lemma ShapeFrame(h: Heap, k: Heap)
    requires PinsShaped(h) && k.pins == h.pins && k.counts.Keys == h.counts.Keys
    ensures PinsShaped(k)
  {
  }

  lemma {:induction false} RetainKeepsOwned(h: Heap, held: multiset<nat>, entries: seq<nat>)
    requires Owned(h, held) && forall e :: e in entries ==> Live(h, e)
    ensures Owned(Retain(h, entries), held + multiset(entries))
    ensures LiveSet(Retain(h, entries)) == LiveSet(h) && Retain(h, entries).pins == h.pins
    ensures Retain(h, entries).cleaned == h.cleaned
    decreases |entries|
  {
    hide Owned, Increment;
    if entries == [] {
      assert held + multiset(entries) == held;
    } else {
      var e := entries[0];
      assert e in entries && Live(h, e);
      RetainOne(h, held, e);
      var k := Increment(h, e);
      forall x | x in entries[1..]
        ensures Live(k, x)
      {
        assert x in entries;
        assert x in LiveSet(h);
        assert x in LiveSet(k);
      }
      RetainKeepsOwned(k, held + multiset{e}, entries[1..]);
      assert entries == [e] + entries[1..];
      assert held + multiset{e} + multiset(entries[1..]) == held + multiset(entries);
    }
  }

  /** The heap with one more instance, referenced once. */
  function WithInstance(kept: Heap, e: nat, pins: seq<nat>): Heap {
    kept.(pins := kept.pins[e := pins], counts := kept.counts[e := 1])
  }

  lemma NewIsShaped(kept: Heap, e: nat, pins: seq<nat>)
    requires PinsShaped(kept) && Distinct(pins) && e !in kept.pins && forall x :: x in pins ==> x in kept.pins && x < e
    ensures PinsShaped(WithInstance(kept, e, pins)) && Dependents(WithInstance(kept, e, pins), e) == {}
  {
  }

  lemma NewIsCounted(kept: Heap, held: multiset<nat>, e: nat, pins: seq<nat>)
    requires e !in kept.counts && e !in kept.pins && Counted(kept, held + multiset(pins)) && Distinct(pins)
    requires Dependents(WithInstance(kept, e, pins), e) == {}
    ensures Counted(WithInstance(kept, e, pins), held + multiset{e})
  {
    var after := WithInstance(kept, e, pins);
    assert e !in held + multiset(pins);
    hide Dependents;
    forall x | x in kept.counts ensures after.counts[x] == (held + multiset{e})[x] + |Dependents(after, x)| {
      PublishedDependents(kept, e, pins, x);
      DistinctCount(pins, x);
    }
    forall x | x in held + multiset{e} ensures x in after.counts { assert x != e ==> x in held + multiset(pins); }
  }

  /** Adding an instance nobody pins, which itself pins already retained ones. */
  lemma AddInstance(kept: Heap, held: multiset<nat>, e: nat, pins: seq<nat>)
    requires PinsShaped(kept) && CleanedInOrder(kept) && Counted(kept, held + multiset(pins))
    requires Distinct(pins) && e !in kept.pins && forall x :: x in pins ==> Live(kept, x) && x < e
    ensures Owned(WithInstance(kept, e, pins), held + multiset{e})
  {
    assert e !in kept.counts && forall x :: x in pins ==> x in kept.pins;
    hide PinsShaped, Counted, CleanedInOrder, Dependents, WithInstance;
    NewIsShaped(kept, e, pins);
    NewIsCounted(kept, held, e, pins);
    NewIsNotCleaned(kept, e, pins);
  }

  lemma NewIsNotCleaned(kept: Heap, e: nat, pins: seq<nat>)
    requires CleanedInOrder(kept) && PinsShaped(kept) && e !in kept.pins && forall x :: x in pins ==> Live(kept, x)
    ensures CleanedInOrder(WithInstance(kept, e, pins))
  {
    hide Precedes;
    var after := WithInstance(kept, e, pins);
    assert e !in kept.counts;
    forall x | x in pins ensures x !in kept.cleaned { assert Live(kept, x); }
  }

  /** A publication whose pins are live keeps the accounts, and adds one reference to the new instance. */
  lemma PublishKeepsOwned(h: Heap, held: multiset<nat>, e: nat, pins: seq<nat>)
    requires Owned(h, held) && Distinct(pins) && e !in h.pins
    requires forall x :: x in pins ==> Live(h, x) && x < e
    ensures Owned(Publish(h, e, pins), held + multiset{e})
  {
    hide Retain, PinsShaped, Counted, CleanedInOrder;
    RetainKeepsOwned(h, held, pins);
    var kept := Retain(h, pins);
    forall x | x in pins ensures Live(kept, x) { assert x in LiveSet(h); assert x in LiveSet(kept); }
    AddInstance(kept, held, e, pins);
  }

  lemma PublishedDependents(kept: Heap, e: nat, pins: seq<nat>, x: nat)
    requires e !in kept.counts && e !in kept.pins && x != e
    ensures var after := WithInstance(kept, e, pins);
            |Dependents(after, x)| == |Dependents(kept, x)| + (if x in pins then 1 else 0)
  {
    var after := WithInstance(kept, e, pins);
    assert Dependents(after, x) == Dependents(kept, x) + (if x in pins then {e} else {});
    assert e !in Dependents(kept, x);
  }

  // ---- Releasing ----

  lemma DropOne(h: Heap, held: multiset<nat>, e: nat)
    requires Owned(h, held) && e in held && e in h.counts && h.counts[e] > 1
    ensures Owned(Decrement(h, e), held - multiset{e})
  {
    hide Owned, LiveSet;
    DecrementKeepsLive(h, e);
    forall x | x in held ensures x in h.counts { HeldIsCounted(h, held, x); }
    SameLiveKeepsOwned(h, Decrement(h, e), held, held - multiset{e});
  }

  lemma HeldIsLive(h: Heap, held: multiset<nat>, e: nat)
    requires Counted(h, held) && (e in held || Dependents(h, e) != {}) && e in h.counts
    ensures Live(h, e)
  {
    hide Dependents;
  }

  lemma DependentsAfterCleanUp(h: Heap, e: nat, x: nat)
    requires PinsShaped(h) && Live(h, e)
    ensures |Dependents(CleanUp(h, e), x)| == |Dependents(h, x)| - (if x in h.pins[e] then 1 else 0)
  {
    assert Dependents(CleanUp(h, e), x) == Dependents(h, x) - {e};
    assert e in Dependents(h, x) <==> x in h.pins[e];
  }

  /** The account of an instance whose last reference goes: nothing else held it, nothing pinned it. */
  lemma LastReference(h: Heap, held: multiset<nat>, e: nat)
    requires Counted(h, held) && e in held && e in h.counts && h.counts[e] == 1
    ensures Dependents(h, e) == {}
  {
    hide Dependents;
    assert |Dependents(h, e)| == 0;
  }

  lemma CleanUpKeepsCounted(h: Heap, held: multiset<nat>, e: nat)
    requires PinsShaped(h) && Counted(h, held) && e in held && e in h.counts && h.counts[e] == 1
    ensures Counted(CleanUp(h, e), held - multiset{e} + multiset(h.pins[e]))
  {
    LastReference(h, held, e);
    var k := CleanUp(h, e);
    forall x | x in h.counts ensures k.counts[x] == (held - multiset{e} + multiset(h.pins[e]))[x] + |Dependents(k, x)| {
      DependentsAfterCleanUp(h, e, x);
      DistinctCount(h.pins[e], x);
    }
  }

  lemma PrecedesLonger(cleaned: seq<nat>, d: nat, e: nat, last: nat)
    ensures Precedes(cleaned, d, e) ==> Precedes(cleaned + [last], d, e)
    ensures d in cleaned ==> Precedes(cleaned + [last], d, last)
  {
    var longer := cleaned + [last];
    if Precedes(cleaned, d, e) {
      var i, j :| 0 <= i < j < |cleaned| && cleaned[i] == d && cleaned[j] == e;
      assert longer[i] == d && longer[j] == e;
    }
    if d in cleaned {
      var i :| 0 <= i < |cleaned| && cleaned[i] == d;
      assert longer[i] == d && longer[|cleaned|] == last;
    }
  }

  lemma CleanUpKeepsOrder(h: Heap, e: nat)
    requires PinsShaped(h) && CleanedInOrder(h) && e in h.counts && h.counts[e] > 0 && Dependents(h, e) == {}
    ensures CleanedInOrder(CleanUp(h, e))
  {
    hide Precedes;
    var k := CleanUp(h, e);
    assert e !in h.cleaned;
    forall d, x | d in k.pins && x in k.pins[d] && x in k.cleaned ensures Precedes(k.cleaned, d, x) {
      PrecedesLonger(h.cleaned, d, x, e);
      if x == e { assert d !in Dependents(h, e); }
    }
  }

  /** Cleaning up turns the pins of an instance into references still to be dropped. */
  lemma DropLast(h: Heap, held: multiset<nat>, e: nat)
    requires Owned(h, held) && e in held && e in h.counts && h.counts[e] == 1
    ensures Owned(CleanUp(h, e), held - multiset{e} + multiset(h.pins[e]))
  {
    hide *;
    OwnedParts(h, held);
    HeldIsCounted(h, held, e);
    OwnedParts(CleanUp(h, e), held - multiset{e} + multiset(h.pins[e]));
    LastReference(h, held, e);
    CleanUpKeepsCounted(h, held, e);
    CleanUpKeepsOrder(h, e);
    CleanUpKeepsShape(h, e);
  }

  lemma CleanUpKeepsShape(h: Heap, e: nat)
    requires PinsShaped(h) && e in h.counts
    ensures PinsShaped(CleanUp(h, e))
  {
    hide PinsShaped;
    ShapeFrame(h, CleanUp(h, e));
  }

  /** What a release leaves: the pins, a longer cleanup record, and fewer live instances. */
  ghost predicate Shrinks(h: Heap, k: Heap) {
    k.pins == h.pins && h.cleaned <= k.cleaned && LiveSet(k) <= LiveSet(h)
  }

  /** Releasing references settles the accounts for the ones that remain. */
  lemma {:induction false} ReleaseKeepsOwned(h: Heap, held: multiset<nat>, entries: seq<nat>)
    requires Owned(h, held + multiset(entries))
    ensures Owned(Release(h, entries), held) && Shrinks(h, Release(h, entries))
    decreases |LiveSet(h)|, |entries|
  {
    hide Owned, LiveSet, Decrement, CleanUp;
    if entries == [] {
      assert held + multiset(entries) == held;
      return;
    }
    var e, rest := entries[0], entries[1..];
    assert entries == [e] + rest;
    ghost var all := held + multiset(entries);
    assert all == held + multiset(rest) + multiset{e} && e in all;
    HeldIsCounted(h, all, e);
    if h.counts[e] > 1 {
      DecrementKeepsLive(h, e);
      DropOne(h, all, e);
      assert all - multiset{e} == held + multiset(rest);
      ReleaseKeepsOwned(Decrement(h, e), held, rest);
    } else {
      CleanUpShrinks(h, e);
      DropLast(h, all, e);
      var next := PinsOf(h, e) + rest;
      assert all - multiset{e} + multiset(h.pins[e]) == held + multiset(next);
      ReleaseKeepsOwned(CleanUp(h, e), held, next);
    }
    StepsShrink(h, e);
  }

  lemma StepsShrink(h: Heap, e: nat)
    requires Live(h, e)
    ensures h.counts[e] > 1 ==> Shrinks(h, Decrement(h, e))
    ensures Shrinks(h, CleanUp(h, e))
  {
  }

  lemma HeldIsCounted(h: Heap, held: multiset<nat>, e: nat)
    requires Owned(h, held) && e in held
    ensures e in h.counts && e in h.pins && Live(h, e)
  {
    hide Dependents;
  }

  /** Releases in sequence are one release of the whole list. */
  lemma {:induction false} ReleaseAppend(h: Heap, a: seq<nat>, b: seq<nat>)
    ensures Release(h, a + b) == Release(Release(h, a), b)
    decreases |LiveSet(h)|, |a|
  {
    hide LiveSet, Decrement, CleanUp;
    if a == [] {
      assert a + b == b;
    } else {
      var e := a[0];
      assert (a + b)[1..] == a[1..] + b;
      if !Live(h, e) {
        ReleaseAppend(h, a[1..], b);
      } else if h.counts[e] > 1 {
        DecrementKeepsLive(h, e);
        ReleaseAppend(Decrement(h, e), a[1..], b);
      } else {
        CleanUpShrinks(h, e);
        assert PinsOf(h, e) + (a[1..] + b) == (PinsOf(h, e) + a[1..]) + b;
        ReleaseAppend(CleanUp(h, e), PinsOf(h, e) + a[1..], b);
      }
    }
  }

  /** A release changes no pins and revives nothing. */
  lemma {:induction false} ReleaseShrinks(h: Heap, entries: seq<nat>)
    ensures Shrinks(h, Release(h, entries)) && |LiveSet(Release(h, entries))| <= |LiveSet(h)|
    decreases |LiveSet(h)|, |entries|
  {
    hide LiveSet, Decrement, CleanUp;
    if entries != [] {
      var e := entries[0];
      if !Live(h, e) {
        ReleaseShrinks(h, entries[1..]);
      } else {
        StepsShrink(h, e);
        CleanUpShrinks(h, e);
        if h.counts[e] > 1 {
          DecrementKeepsLive(h, e);
          ReleaseShrinks(Decrement(h, e), entries[1..]);
        } else {
          ReleaseShrinks(CleanUp(h, e), PinsOf(h, e) + entries[1..]);
        }
      }
    }
  }

  // ---- What is live ----

  /** Each instance of the chain is pinned by the one before it. */
  ghost predicate IsChain(h: Heap, p: seq<nat>) {
    p != [] && forall i :: 0 <= i < |p| - 1 ==> p[i] in h.pins && p[i + 1] in h.pins[p[i]]
  }

  ghost predicate Reachable(h: Heap, held: multiset<nat>, e: nat) {
    exists p :: IsChain(h, p) && p[0] in held && p[|p| - 1] == e
  }

  lemma {:induction false} ChainIsLive(h: Heap, held: multiset<nat>, p: seq<nat>, n: nat)
    requires Owned(h, held) && IsChain(h, p) && p[0] in held && n < |p|
    ensures Live(h, p[n])
  {
    if n == 0 {
      HeldIsLive(h, held, p[0]);
    } else {
      ChainIsLive(h, held, p, n - 1);
      assert p[n - 1] in h.pins && p[n - 1 + 1] in h.pins[p[n - 1]];
      assert p[n - 1] in Dependents(h, p[n]);
      HeldIsLive(h, held, p[n]);
    }
  }

  lemma LiveDependent(h: Heap, held: multiset<nat>, e: nat) returns (d: nat)
    requires Owned(h, held) && Live(h, e) && e !in held
    ensures d in h.pins && e in h.pins[d] && Live(h, d) && e < d
  {
    assert |Dependents(h, e)| > 0;
    d :| d in Dependents(h, e);
  }

  lemma {:induction false} LiveHasChain(h: Heap, held: multiset<nat>, e: nat, bound: nat)
    requires Owned(h, held) && Live(h, e) && forall x :: x in h.pins ==> x < bound
    ensures Reachable(h, held, e)
    decreases bound - e
  {
    hide Owned, Dependents;
    if e in held {
      assert IsChain(h, [e]);
    } else {
      var d := LiveDependent(h, held, e);
      LiveHasChain(h, held, d, bound);
      var p :| IsChain(h, p) && p[0] in held && p[|p| - 1] == d;
      ExtendChain(h, p, e);
      assert (p + [e])[0] in held;
    }
  }

  lemma ExtendChain(h: Heap, p: seq<nat>, e: nat)
    requires IsChain(h, p) && p[|p| - 1] in h.pins && e in h.pins[p[|p| - 1]]
    ensures IsChain(h, p + [e])
  {
  }

  lemma {:induction false} KeysAreBounded(s: set<nat>) returns (bound: nat)
    ensures forall x :: x in s ==> x < bound
  {
    if s == {} {
      bound := 0;
    } else {
      var x :| x in s;
      var b := KeysAreBounded(s - {x});
      bound := if x < b then b else x + 1;
      forall y | y in s ensures y < bound {
        if y != x { assert y in s - {x}; }
      }
    }
  }

  /** An instance is kept exactly as long as a chain of pins leads to it from something held. */
  lemma LiveIsReachable(h: Heap, held: multiset<nat>, e: nat)
    requires Owned(h, held)
    ensures Live(h, e) <==> Reachable(h, held, e)
  {
    if Live(h, e) {
      var bound := KeysAreBounded(h.pins.Keys);
      LiveHasChain(h, held, e, bound);
    }
    if Reachable(h, held, e) {
      var p :| IsChain(h, p) && p[0] in held && p[|p| - 1] == e;
      ChainIsLive(h, held, p, |p| - 1);
    }
  }

  /** A release cleans up exactly what the remaining references no longer reach, once each and dependents first. */
  lemma ReleaseIsExact(h: Heap, held: multiset<nat>, entries: seq<nat>)
    requires Owned(h, held + multiset(entries))
    ensures var k := Release(h, entries);
            && h.cleaned <= k.cleaned && Distinct(k.cleaned)
            && (forall e :: e in h.pins ==> (e in k.cleaned <==> !Reachable(h, held, e)))
            && (forall d, e :: d in h.pins && e in h.pins[d] && e in k.cleaned ==> Precedes(k.cleaned, d, e))
  {
    hide Counted, Reachable, IsChain;
    ReleaseKeepsOwned(h, held, entries);
    var k := Release(h, entries);
    forall e | e in h.pins ensures e in k.cleaned <==> !Reachable(h, held, e) {
      LiveIsReachable(k, held, e);
      SameChains(h, k, held, e);
    }
  }

  lemma SameChains(h: Heap, k: Heap, held: multiset<nat>, e: nat)
    requires h.pins == k.pins
    ensures Reachable(h, held, e) <==> Reachable(k, held, e)
  {
    if p :| IsChain(h, p) && p[0] in held && p[|p| - 1] == e { assert IsChain(k, p); }
    if p :| IsChain(k, p) && p[0] in held && p[|p| - 1] == e { assert IsChain(h, p); }
  }

  /** Once nothing is held, nothing is left: pins alone cannot keep an instance. */
  lemma NothingLeaks(h: Heap)
    requires Owned(h, multiset{})
    ensures forall e :: e in h.pins ==> e in h.cleaned
  {
    forall e | e in h.pins ensures e in h.cleaned {
      LiveIsReachable(h, multiset{}, e);
    }
  }
}
