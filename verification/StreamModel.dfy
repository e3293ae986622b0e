/**
 Sequenced streams through bounded buffers: what a consumer's tracker can tell
 about items that were coalesced, dropped or refused on the way.
 */
module StreamModel {
  import opened Prelude

  const FIRST: nat := 1

  /** One item of one stream; `key` is its coalescing identity. */
  datatype Item = Item(stream: Id, sequence: nat, key: Id)

  // ---- Sequencer ----

  datatype Sequencer = Sequencer(stream: Id, next: nat, exhausted: bool)

  function NewSequencer(stream: Id): Sequencer {
    Sequencer(stream, FIRST, false)
  }

  /** Emits the next item; after the largest sequence the stream is exhausted. */
  function Emit(s: Sequencer, key: Id): (Option<Item>, Sequencer) {
    if s.exhausted then (None, s)
    else
      (Some(Item(s.stream, s.next, key)),
       if s.next < U64_MAX then s.(next := s.next + 1) else s.(exhausted := true))
  }

  /** How many items have been emitted. */
  function Emitted(s: Sequencer): nat {
    if s.exhausted then s.next else if s.next < FIRST then 0 else s.next - FIRST
  }

  // ---- Tracker ----

  datatype Observation =
    | First(actual: nat)
    | InOrder(actual: nat)
    | Gap(expected: nat, actual: nat)
    | DuplicateOrReordered(last: nat, actual: nat)

  datatype Tracker = Tracker(stream: Id, last: Option<nat>)

  /** Classifies an item of the tracked stream; items of other streams are refused. */
  function Observe(t: Tracker, item: Item): (Option<Observation>, Tracker) {
    if item.stream != t.stream then (None, t)
    else
      var o := match t.last
               case None => if item.sequence == FIRST then First(item.sequence) else Gap(FIRST, item.sequence)
               case Some(last) =>
                 if last < U64_MAX && item.sequence == last + 1 then InOrder(item.sequence)
                 else if last < U64_MAX && item.sequence > last + 1 then Gap(last + 1, item.sequence)
                 else DuplicateOrReordered(last, item.sequence);
      (Some(o), if t.last.None? || item.sequence > t.last.value then t.(last := Some(item.sequence)) else t)
  }

  /** The sequences a gap reports as never observed. */
  function GapWidth(o: Observation): nat {
    if o.Gap? && o.expected <= o.actual then o.actual - o.expected else 0
  }

  // ---- Buffers ----

  predicate SameIdentity(a: Item, b: Item) {
    a.key == b.key && a.stream == b.stream
  }

  /** The oldest pending item with the identity of `item`. */
  function Position(pending: seq<Item>, item: Item): Option<nat> {
    if pending == [] then None
    else if SameIdentity(pending[0], item) then Some(0)
    else match Position(pending[1..], item)
         case None => None
         case Some(i) => Some(i + 1)
  }

  /** A pending item of the same identity gives way to the newer one, which goes to the tail. */
  function Coalesce(capacity: nat, pending: seq<Item>, item: Item): Option<seq<Item>> {
    match Position(pending, item)
    case Some(i) => if i < |pending| then Some(pending[..i] + pending[i + 1..] + [item]) else None
    case None => if |pending| == capacity then None else Some(pending + [item])
  }

  /** A full buffer drops its oldest item. */
  function PushDroppingOldest(capacity: nat, pending: seq<Item>, item: Item): (seq<Item>, Option<Item>) {
    if |pending| == capacity && pending != [] then (pending[1..] + [item], Some(pending[0]))
    else (pending + [item], None)
  }

  function PushLossless(capacity: nat, pending: seq<Item>, item: Item): Option<seq<Item>> {
    if |pending| == capacity then None else Some(pending + [item])
  }

  // ---- One stream from a producer to a consumer ----

  datatype Policy = Lossless | Coalescing | Lossy

  /**
   `observed` and `gaps` are what the consumer learns: the items seen and the
   widths of the gaps reported. `lost` counts items that gave way to newer ones,
   were dropped as the oldest, or were refused and not offered again.
   */
  datatype Channel = Channel(
    policy: Policy, capacity: nat, sequencer: Sequencer, pending: seq<Item>, tracker: Tracker,
    observed: nat, gaps: nat, lost: nat, reordered: bool)

  datatype Move = Produce(key: Id) | Consume

  function Open(policy: Policy, capacity: nat, stream: Id): Channel {
    Channel(policy, capacity, NewSequencer(stream), [], Tracker(stream, None), 0, 0, 0, false)
  }

  function Offer(c: Channel, item: Item): Channel {
    match c.policy
    case Lossless =>
      (match PushLossless(c.capacity, c.pending, item)
       case Some(p) => c.(pending := p)
       case None => c.(lost := c.lost + 1))
    case Coalescing =>
      (match Coalesce(c.capacity, c.pending, item)
       case Some(p) => c.(pending := p, lost := c.lost + (if Position(c.pending, item).Some? then 1 else 0))
       case None => c.(lost := c.lost + 1))
    case Lossy =>
      var (p, dropped) := PushDroppingOldest(c.capacity, c.pending, item);
      c.(pending := p, lost := c.lost + (if dropped.Some? then 1 else 0))
  }

  function Take(c: Channel): Channel {
    if c.pending == [] then c
    else
      var (o, t) := Observe(c.tracker, c.pending[0]);
      match o
      case None => c.(pending := c.pending[1..])
      case Some(x) =>
        c.(pending := c.pending[1..], tracker := t, observed := c.observed + 1, gaps := c.gaps + GapWidth(x),
           reordered := c.reordered || x.DuplicateOrReordered?)
  }

  function Turn(c: Channel, m: Move): Channel {
    match m
    case Produce(key) =>
      (var (item, s) := Emit(c.sequencer, key);
       match item
       case None => c
       case Some(i) => Offer(c.(sequencer := s), i))
    case Consume => Take(c)
  }

  function Run(c: Channel, moves: seq<Move>): Channel {
    if moves == [] then c else Turn(Run(c, moves[..|moves| - 1]), moves[|moves| - 1])
  }

  // ---- The invariant ----

  function LastSeen(t: Tracker): nat {
    match t.last case None => 0 case Some(n) => n
  }

  /** Pending items are of the stream, in strictly increasing order, newer than anything seen. */
  ghost predicate InSequence(c: Channel) {
    && FIRST <= c.sequencer.next <= U64_MAX && (c.sequencer.exhausted ==> c.sequencer.next == U64_MAX)
    && c.tracker.stream == c.sequencer.stream
    && (forall i :: 0 <= i < |c.pending| ==>
          && c.pending[i].stream == c.sequencer.stream
          && LastSeen(c.tracker) < c.pending[i].sequence <= Emitted(c.sequencer))
    && (forall i, j :: 0 <= i < j < |c.pending| ==> c.pending[i].sequence < c.pending[j].sequence)
    && LastSeen(c.tracker) <= Emitted(c.sequencer)
    && (c.tracker.last.Some? ==> c.tracker.last.value >= FIRST)
  }

  /**
   Nothing is reordered; what was seen and what gaps report add up to the last sequence;
   nothing vanishes unaccounted.
   */
  ghost predicate Accounted(c: Channel) {
    && !c.reordered
    && c.observed + c.gaps == LastSeen(c.tracker)
    && c.observed + |c.pending| + c.lost == Emitted(c.sequencer)
  }

  ghost predicate Sane(c: Channel) {
    InSequence(c) && Accounted(c)
  }

  lemma {:induction false} PositionIsFirst(pending: seq<Item>, item: Item)
    ensures match Position(pending, item)
            case None => forall k :: 0 <= k < |pending| ==> !SameIdentity(pending[k], item)
            case Some(i) =>
              && i < |pending| && SameIdentity(pending[i], item)
              && forall k :: 0 <= k < i ==> !SameIdentity(pending[k], item)
  {
    if pending != [] {
      PositionIsFirst(pending[1..], item);
      forall k | 1 <= k < |pending| ensures pending[k] == pending[1..][k - 1] { }
    }
  }

  lemma EmitGrows(s: Sequencer, key: Id)
    requires FIRST <= s.next <= U64_MAX && (s.exhausted ==> s.next == U64_MAX)
    ensures var (item, t) := Emit(s, key);
            && FIRST <= t.next <= U64_MAX && (t.exhausted ==> t.next == U64_MAX) && t.stream == s.stream
            && (item.None? <==> Emitted(s) == U64_MAX) && (item.None? ==> t == s)
            && (item.Some? ==> item.value.stream == s.stream && item.value.sequence == Emitted(s) + 1 == Emitted(t))
  {
  }

  /** What the sequencer hands over next to what is pending. */
  ghost predicate Fresh(c: Channel, s: Sequencer, item: Item) {
    && FIRST <= s.next <= U64_MAX && (s.exhausted ==> s.next == U64_MAX) && s.stream == c.sequencer.stream
    && item.stream == s.stream && item.sequence == Emitted(c.sequencer) + 1 == Emitted(s)
  }

  lemma CoalesceKeepsSane(c: Channel, s: Sequencer, item: Item, i: nat)
    requires Sane(c) && Fresh(c, s, item) && i < |c.pending|
    ensures Sane(c.(sequencer := s, pending := c.pending[..i] + c.pending[i + 1..] + [item], lost := c.lost + 1))
  {
    hide Emitted;
    var p := c.pending[..i] + c.pending[i + 1..] + [item];
    forall k | 0 <= k < |p| - 1 ensures p[k] == c.pending[if k < i then k else k + 1] { }
  }

  lemma AppendKeepsSane(c: Channel, s: Sequencer, item: Item)
    requires Sane(c) && Fresh(c, s, item)
    ensures Sane(c.(sequencer := s, pending := c.pending + [item]))
    ensures Sane(c.(sequencer := s, lost := c.lost + 1))
    ensures c.pending != [] ==> Sane(c.(sequencer := s, pending := c.pending[1..] + [item], lost := c.lost + 1))
  {
    hide Emitted;
  }

  lemma OfferKeepsSane(c: Channel, s: Sequencer, item: Item)
    requires Sane(c) && Fresh(c, s, item)
    ensures Sane(Offer(c.(sequencer := s), item))
  {
    hide Sane, Fresh;
    AppendKeepsSane(c, s, item);
    if c.policy == Coalescing {
      PositionIsFirst(c.pending, item);
      if Position(c.pending, item).Some? { CoalesceKeepsSane(c, s, item, Position(c.pending, item).value); }
    }
  }

  lemma TakeKeepsSane(c: Channel)
    requires Sane(c)
    ensures Sane(Take(c))
  {
    if c.pending != [] {
      var d := Take(c);
      assert forall k :: 0 <= k < |d.pending| ==> d.pending[k] == c.pending[k + 1];
    }
  }

  lemma TurnKeepsSane(c: Channel, m: Move)
    requires Sane(c)
    ensures Sane(Turn(c, m))
  {
    hide Sane, Offer, Take;
    match m
    case Produce(key) =>
      SequencerIsValid(c);
      EmitGrows(c.sequencer, key);
      var (item, s) := Emit(c.sequencer, key);
      if item.Some? { OfferKeepsSane(c, s, item.value); }
    case Consume => TakeKeepsSane(c);
  }

  lemma SequencerIsValid(c: Channel)
    requires Sane(c)
    ensures FIRST <= c.sequencer.next <= U64_MAX && (c.sequencer.exhausted ==> c.sequencer.next == U64_MAX)
  {
  }

  /**
   Through any buffer, in any interleaving of production and consumption, the
   tracker never reports reordering, and the items it observed plus the widths of
   the gaps it reported are exactly the last sequence it saw.
   */
  lemma {:induction false} LossIsObservable(policy: Policy, capacity: nat, stream: Id, moves: seq<Move>)
    ensures var c := Run(Open(policy, capacity, stream), moves);
            && !c.reordered && c.observed + c.gaps == LastSeen(c.tracker)
            && (forall i, j :: 0 <= i < j < |c.pending| ==> c.pending[i].sequence < c.pending[j].sequence)
            && Sane(c)
    decreases |moves|
  {
    hide Turn;
    if moves != [] {
      LossIsObservable(policy, capacity, stream, moves[..|moves| - 1]);
      TurnKeepsSane(Run(Open(policy, capacity, stream), moves[..|moves| - 1]), moves[|moves| - 1]);
    }
  }

  // ---- Exact loss through a buffer that drops its oldest item ----

  /** The oldest sequence still to be delivered. */
  function Front(c: Channel): nat {
    if c.pending == [] then Emitted(c.sequencer) + 1 else c.pending[0].sequence
  }

  /** Pending items are consecutive up to the newest, and everything between the last seen and the front was dropped. */
  ghost predicate Contiguous(c: Channel) {
    && Sane(c) && c.capacity > 0 && |c.pending| <= c.capacity
    && (forall i :: 0 <= i < |c.pending| ==> c.pending[i].sequence == Front(c) + i)
    && Front(c) + |c.pending| == Emitted(c.sequencer) + 1
    && c.gaps <= c.lost && Front(c) == LastSeen(c.tracker) + 1 + (c.lost - c.gaps)
  }

  lemma TurnKeepsContiguous(c: Channel, m: Move)
    requires Contiguous(c) && c.policy == Lossy
    ensures Contiguous(Turn(c, m)) && Turn(c, m).policy == Lossy
    ensures m == Consume && c.pending != [] ==> Turn(c, m).gaps == c.lost == Turn(c, m).lost
  {
    TurnKeepsSane(c, m);
    if m.Produce? { EmitGrows(c.sequencer, m.key); }
    hide Emitted;
  }

  /**
   Through a buffer that drops its oldest item, each delivered item leaves the
   reported gaps equal to the number of items dropped so far.
   */
  lemma {:induction false} DropsAreExactlyObserved(capacity: nat, stream: Id, moves: seq<Move>)
    requires capacity > 0
    ensures var c := Run(Open(Lossy, capacity, stream), moves);
            && Contiguous(c) && c.policy == Lossy
            && (c.pending != [] ==> Turn(c, Consume).gaps == c.lost)
            && (c.pending == [] ==> c.gaps + (Emitted(c.sequencer) - LastSeen(c.tracker)) == c.lost)
    decreases |moves|
  {
    hide Turn, Sane;
    if moves == [] {
      LossIsObservable(Lossy, capacity, stream, []);
    } else {
      var before := Run(Open(Lossy, capacity, stream), moves[..|moves| - 1]);
      DropsAreExactlyObserved(capacity, stream, moves[..|moves| - 1]);
      TurnKeepsContiguous(before, moves[|moves| - 1]);
    }
    TurnKeepsContiguous(Run(Open(Lossy, capacity, stream), moves), Consume);
  }
}
