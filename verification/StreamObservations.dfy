/** What a tracker says of items in any order, and what buffers keep and refuse. */
module StreamObservations {
  import opened Prelude
  import opened StreamModel

  // ---- Any sequence of items ----

  function ObserveAll(t: Tracker, items: seq<Item>): Tracker {
    if items == [] then t else Observe(ObserveAll(t, items[..|items| - 1]), items[|items| - 1]).1
  }

  ghost predicate OfStream(items: seq<Item>, stream: Id) {
    forall i :: 0 <= i < |items| ==> items[i].stream == stream && FIRST <= items[i].sequence <= U64_MAX
  }

  /** The largest sequence among the items. */
  ghost predicate IsNewest(items: seq<Item>, n: nat) {
    && (exists i :: 0 <= i < |items| && items[i].sequence == n)
    && forall i :: 0 <= i < |items| ==> items[i].sequence <= n
  }

  lemma {:induction false} TrackerHoldsNewest(stream: Id, items: seq<Item>)
    requires OfStream(items, stream)
    ensures var t := ObserveAll(Tracker(stream, None), items);
            && t.stream == stream && (t.last == None <==> items == [])
            && (t.last.Some? ==> IsNewest(items, t.last.value))
  {
    if items != [] {
      var front, last := items[..|items| - 1], items[|items| - 1];
      TrackerHoldsNewest(stream, front);
      var before, t := ObserveAll(Tracker(stream, None), front), ObserveAll(Tracker(stream, None), items);
      assert items[|front|] == last;
      if t == before && before.last.Some? {
        var i :| 0 <= i < |front| && front[i].sequence == before.last.value;
        assert items[i].sequence == before.last.value;
      }
      forall i | 0 <= i < |items| ensures items[i].sequence <= t.last.value {
        if i < |front| { assert items[i] == front[i]; }
      }
    }
  }

  /**
   Of items of one stream in any order, with repetitions, each is reported against
   the largest sequence seen before it: a duplicate or reordering exactly when one at
   least as large was seen, in order exactly when it is the next one, a gap with the
   first sequence skipped otherwise. Items of other streams are refused.
   */
  lemma ObservationIsExact(stream: Id, items: seq<Item>, item: Item)
    requires OfStream(items, stream) && FIRST <= item.sequence <= U64_MAX
    ensures var t := ObserveAll(Tracker(stream, None), items);
            var (o, u) := Observe(t, item);
            && (o == None <==> item.stream != stream) && (o == None ==> u == t)
            && (o.Some? && items == [] ==>
                  o.value == if item.sequence == FIRST then First(FIRST) else Gap(FIRST, item.sequence))
            && (o.Some? && items != [] ==>
                  exists n: nat :: IsNewest(items, n) &&
                    o.value == if item.sequence <= n then DuplicateOrReordered(n, item.sequence)
                               else if item.sequence == n + 1 then InOrder(item.sequence)
                               else Gap(n + 1, item.sequence))
  {
    TrackerHoldsNewest(stream, items);
  }

  /** How far an observation moves the tracker: the item itself and the sequences its gap skips. */
  function Progress(o: Option<Observation>): nat {
    if o.None? || o.value.DuplicateOrReordered? then 0 else 1 + GapWidth(o.value)
  }

  function TotalProgress(t: Tracker, items: seq<Item>): nat {
    if items == [] then 0
    else
      TotalProgress(t, items[..|items| - 1])
      + Progress(Observe(ObserveAll(t, items[..|items| - 1]), items[|items| - 1]).0)
  }

  /** In whatever order items arrive, new items and gap widths add up to the largest sequence seen. */
  lemma {:induction false} ProgressAddsUp(stream: Id, items: seq<Item>)
    requires OfStream(items, stream)
    ensures TotalProgress(Tracker(stream, None), items) == LastSeen(ObserveAll(Tracker(stream, None), items))
  {
    if items != [] {
      var front := items[..|items| - 1];
      ProgressAddsUp(stream, front);
      TrackerHoldsNewest(stream, front);
      assert items[|items| - 1].stream == stream;
      if front != [] {
        var n := ObserveAll(Tracker(stream, None), front).last.value;
        var i :| 0 <= i < |front| && front[i].sequence == n;
        assert items[i].sequence == n;
      }
    }
  }

  // ---- Buffers ----

  /** Nothing is refused while there is room, and what is buffered stays in order. */
  lemma LosslessIsExact(capacity: nat, pending: seq<Item>, item: Item)
    ensures PushLossless(capacity, pending, item) == None <==> |pending| == capacity
    ensures PushLossless(capacity, pending, item).Some? ==>
      PushLossless(capacity, pending, item).value == pending + [item]
  {
  }

  ghost predicate DistinctIdentities(pending: seq<Item>) {
    forall i, j :: 0 <= i < j < |pending| ==> !SameIdentity(pending[i], pending[j])
  }

  /**
   Coalescing refuses an item exactly when the buffer is full of other identities.
   Otherwise the item is at the tail, the pending one of its identity is gone, every
   other item is still there, and no identity is pending twice.
   */
  lemma CoalescingIsExact(capacity: nat, pending: seq<Item>, item: Item)
    requires DistinctIdentities(pending)
    ensures Coalesce(capacity, pending, item) == None <==>
              |pending| == capacity && forall k :: 0 <= k < |pending| ==> !SameIdentity(pending[k], item)
    ensures Coalesce(capacity, pending, item).Some? ==>
              var after := Coalesce(capacity, pending, item).value;
              && DistinctIdentities(after) && after != [] && after[|after| - 1] == item
              && (forall x :: x in after[..|after| - 1] <==> x in pending && !SameIdentity(x, item))
  {
    hide Position;
    PositionIsFirst(pending, item);
    var p := Position(pending, item);
    if p.Some? {
      var after := pending[..p.value] + pending[p.value + 1..];
      assert (after + [item])[..|after|] == after;
      WithoutItem(pending, item, p.value);
      DistinctAppend(after, item);
    } else {
      assert (pending + [item])[..|pending|] == pending;
      assert forall x :: x in pending ==> !SameIdentity(x, item);
      DistinctAppend(pending, item);
    }
  }

  lemma DistinctAppend(rest: seq<Item>, item: Item)
    requires DistinctIdentities(rest) && forall x :: x in rest ==> !SameIdentity(x, item)
    ensures DistinctIdentities(rest + [item])
  {
  }

  lemma WithoutItem(pending: seq<Item>, item: Item, i: nat)
    requires DistinctIdentities(pending) && i < |pending| && SameIdentity(pending[i], item)
    ensures var rest := pending[..i] + pending[i + 1..];
            DistinctIdentities(rest) && forall x :: x in rest <==> x in pending && !SameIdentity(x, item)
  {
    var rest := pending[..i] + pending[i + 1..];
    forall k | 0 <= k < |rest| ensures rest[k] == pending[if k < i then k else k + 1] { }
    forall x | x in pending && !SameIdentity(x, item) ensures x in rest {
      var k :| 0 <= k < |pending| && pending[k] == x;
      assert rest[if k < i then k else k - 1] == x;
    }
    forall k | 0 <= k < |rest| ensures !SameIdentity(rest[k], item) {
      assert !SameIdentity(pending[if k < i then k else k + 1], pending[i]);
    }
  }

  /** Coalescing takes out the pending item of the same identity and leaves every other one in its order. */
  lemma CoalescingKeepsOrder(capacity: nat, pending: seq<Item>, item: Item, k: nat)
    requires DistinctIdentities(pending) && k < |pending| && SameIdentity(pending[k], item)
    ensures Coalesce(capacity, pending, item) == Some(pending[..k] + pending[k + 1..] + [item])
  {
    PositionIsFirst(pending, item);
    assert forall i :: 0 <= i < |pending| && SameIdentity(pending[i], item) ==> SameIdentity(pending[i], pending[k]);
  }

  /** A buffer that drops never grows past its capacity, keeps the newest items in order and returns the dropped one. */
  lemma DroppingIsExact(capacity: nat, pending: seq<Item>, item: Item)
    requires 0 < capacity && |pending| <= capacity
    ensures var (after, dropped) := PushDroppingOldest(capacity, pending, item);
            && |after| <= capacity && after != [] && after[|after| - 1] == item
            && (dropped == None <==> |pending| < capacity)
            && pending == (if dropped.Some? then [dropped.value] else []) + after[..|after| - 1]
  {
  }

  lemma {:induction false} IncreasingIsShort(pending: seq<Item>, low: nat, high: nat)
    requires low <= high && forall i :: 0 <= i < |pending| ==> low < pending[i].sequence <= high
    requires forall i, j :: 0 <= i < j < |pending| ==> pending[i].sequence < pending[j].sequence
    ensures |pending| <= high - low
    decreases |pending|
  {
    if pending != [] {
      var front, last := pending[..|pending| - 1], pending[|pending| - 1];
      IncreasingIsShort(front, low, last.sequence - 1);
    }
  }

  /**
   Through any buffer, gaps never report more than was lost, and they report all of it
   once the newest item has been seen. What nobody lost leaves no gap.
   */
  lemma GapsAreLosses(policy: Policy, capacity: nat, stream: Id, moves: seq<Move>)
    ensures var c := Run(Open(policy, capacity, stream), moves);
            && c.gaps <= c.lost
            && (LastSeen(c.tracker) == Emitted(c.sequencer) ==> c.pending == [] && c.gaps == c.lost)
  {
    hide Run;
    LossIsObservable(policy, capacity, stream, moves);
    var c := Run(Open(policy, capacity, stream), moves);
    IncreasingIsShort(c.pending, LastSeen(c.tracker), Emitted(c.sequencer));
  }

  /** Over any run a coalescing buffer holds at most one item of each identity, and never more than its capacity. */
  lemma {:induction false} CoalescedOnce(capacity: nat, stream: Id, moves: seq<Move>)
    ensures var c := Run(Open(Coalescing, capacity, stream), moves);
            c.policy == Coalescing && c.capacity == capacity && |c.pending| <= capacity && DistinctIdentities(c.pending)
    decreases |moves|
  {
    hide Observe, Coalesce, Emit, GapWidth;
    if moves != [] {
      CoalescedOnce(capacity, stream, moves[..|moves| - 1]);
      var c, m := Run(Open(Coalescing, capacity, stream), moves[..|moves| - 1]), moves[|moves| - 1];
      if m.Produce? && Emit(c.sequencer, m.key).0.Some? {
        CoalescingBound(capacity, c.pending, Emit(c.sequencer, m.key).0.value);
        CoalescingIsExact(capacity, c.pending, Emit(c.sequencer, m.key).0.value);
      }
    }
  }

  lemma CoalescingBound(capacity: nat, pending: seq<Item>, item: Item)
    requires |pending| <= capacity
    ensures Coalesce(capacity, pending, item).Some? ==> |Coalesce(capacity, pending, item).value| <= capacity
  {
    PositionIsFirst(pending, item);
  }
}
