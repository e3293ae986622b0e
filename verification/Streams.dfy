/** Sequencer, tracker and bounded buffers with their fields updated in place. */
module Streams {
  import opened Prelude
  import opened StreamModel

  /** Allocates the sequences of one stream. */
  class StreamSequencer {
    const stream: Id
    var nextSequence: nat
    var exhausted: bool

    function Contents(): Sequencer
      reads this
    {
      Sequencer(stream, nextSequence, exhausted)
    }

    constructor (s: Id)
      ensures Contents() == NewSequencer(s)
    {
      stream, nextSequence, exhausted := s, FIRST, false;
    }

    /** Emits one item and advances without wrapping. */
    method EmitItem(key: Id) returns (item: Option<Item>)
      modifies this
      ensures (item, Contents()) == Emit(old(Contents()), key)
    {
      if exhausted { return None; }
      item := Some(Item(stream, nextSequence, key));
      if nextSequence < U64_MAX { nextSequence := nextSequence + 1; } else { exhausted := true; }
    }
  }

  /** Tracks the continuity of one stream. */
  class SequenceTracker {
    const stream: Id
    var last: Option<nat>

    function Contents(): Tracker
      reads this
    {
      Tracker(stream, last)
    }

    constructor (s: Id)
      ensures Contents() == Tracker(s, None)
    {
      stream, last := s, None;
    }

    method ObserveItem(item: Item) returns (o: Option<Observation>)
      modifies this
      ensures (o, Contents()) == Observe(old(Contents()), item)
    {
      if item.stream != stream { return None; }
      if last == None {
        o := Some(if item.sequence == FIRST then First(item.sequence) else Gap(FIRST, item.sequence));
      } else if last.value < U64_MAX && item.sequence == last.value + 1 {
        o := Some(InOrder(item.sequence));
      } else if last.value < U64_MAX && item.sequence > last.value + 1 {
        o := Some(Gap(last.value + 1, item.sequence));
      } else {
        o := Some(DuplicateOrReordered(last.value, item.sequence));
      }
      if last == None || item.sequence > last.value { last := Some(item.sequence); }
    }
  }

  /** A bounded queue under one of the three policies. */
  class BoundedBuffer {
    const policy: Policy
    const capacity: nat
    var items: seq<Item>

    constructor (p: Policy, slots: nat)
      requires slots > 0
      ensures policy == p && capacity == slots && items == []
    {
      policy, capacity, items := p, slots, [];
    }

    /** The index of the oldest pending item with the same stream and key. */
    method FindSame(item: Item) returns (index: Option<nat>)
      requires |items| <= capacity
      ensures index == Position(items, item)
    {
      var i := 0;
      assert items[0..] == items;
      while i < |items|
        invariant 0 <= i <= |items|
        invariant Position(items, item) ==
          match Position(items[i..], item) case None => None case Some(k) => Some(i + k)
      {
        assert items[i..][0] == items[i] && items[i..][1..] == items[i + 1..];
        if SameIdentity(items[i], item) { return Some(i); }
        i := i + 1;
      }
      index := None;
    }

    /** Adds the item or replaces the pending one of the same identity; `false` hands the item back. */
    method CoalesceItem(item: Item) returns (accepted: bool)
      requires policy == Coalescing && |items| <= capacity
      modifies this`items
      ensures |items| <= capacity
      ensures accepted == Coalesce(capacity, old(items), item).Some?
      ensures items == if accepted then Coalesce(capacity, old(items), item).value else old(items)
    {
      PositionIsFirst(items, item);
      var index := FindSame(item);
      if index.Some? {
        items := items[..index.value] + items[index.value + 1..];
        items := items + [item];
        return true;
      }
      if |items| == capacity { return false; }
      items := items + [item];
      accepted := true;
    }

    /** Appends the item; a full buffer drops and returns its oldest one. */
    method PushItem(item: Item) returns (dropped: Option<Item>)
      requires policy == Lossy && |items| <= capacity && capacity > 0
      modifies this`items
      ensures |items| <= capacity
      ensures (items, dropped) == PushDroppingOldest(capacity, old(items), item)
    {
      dropped := None;
      if |items| == capacity {
        dropped := Some(items[0]);
        items := items[1..];
      }
      items := items + [item];
    }

    /** Appends the item unless the buffer is full. */
    method AppendItem(item: Item) returns (accepted: bool)
      requires policy == Lossless && |items| <= capacity
      modifies this`items
      ensures |items| <= capacity
      ensures accepted == PushLossless(capacity, old(items), item).Some?
      ensures items == if accepted then old(items) + [item] else old(items)
    {
      accepted := |items| != capacity;
      if accepted { items := items + [item]; }
    }

    /** Removes the oldest pending item. */
    method PopItem() returns (item: Option<Item>)
      requires |items| <= capacity
      modifies this`items
      ensures |items| <= capacity
      ensures old(items) == (if item.Some? then [item.value] else []) + items
      ensures item.None? ==> old(items) == []
    {
      if items == [] { return None; }
      item := Some(items[0]);
      items := items[1..];
    }
  }
}
