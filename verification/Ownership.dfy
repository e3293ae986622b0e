/** Reference counting of published instances, updated in place. */
module Ownership {
  import opened Prelude
  import opened OwnershipModel

  /** The counts the shared pointers of instances keep, and the cleanups that have run. */
  class InstanceHeap {
    var pins: map<nat, seq<nat>>
    var counts: map<nat, nat>
    var cleaned: seq<nat>

    function Contents(): Heap
      reads this
    {
      Heap(pins, counts, cleaned)
    }

    constructor ()
      ensures Contents() == NoInstances
    {
      pins, counts, cleaned := map[], map[], [];
    }

    /** One more reference to each listed instance. */
    method Clone(entries: seq<nat>)
      modifies this
      ensures Contents() == Retain(old(Contents()), entries)
    {
      var i := 0;
      while i < |entries|
        invariant 0 <= i <= |entries|
        invariant Retain(Contents(), entries[i..]) == Retain(old(Contents()), entries)
      {
        var e := entries[i];
        if e in counts { counts := counts[e := counts[e] + 1]; }
        i := i + 1;
      }
    }

    /** Creates an instance holding one reference to each of its pins; the caller owns one reference to it. */
    method Create(e: nat, dependencies: seq<nat>)
      modifies this
      ensures Contents() == Publish(old(Contents()), e, dependencies)
    {
      Clone(dependencies);
      pins := pins[e := dependencies];
      counts := counts[e := 1];
    }

    /**
     Drops one reference. The last one runs the cleanup of the value and only
     then drops the references the instance held.
     */
    method Drop(e: nat)
      modifies this
      ensures Contents() == Release(old(Contents()), [e])
      decreases |LiveSet(Contents())|
    {
      ghost var before := Contents();
      if e !in counts || counts[e] == 0 {
        return;
      }
      assert [e][1..] == [];
      counts := counts[e := counts[e] - 1];
      if counts[e] > 0 {
        assert Contents() == Decrement(before, e);
        return;
      }
      cleaned := cleaned + [e];
      ghost var emptied := CleanUp(before, e);
      CleanUpShrinks(before, e);
      var list := if e in pins then pins[e] else [];
      assert PinsOf(before, e) + [] == list;
      var i := 0;
      while i < |list|
        invariant 0 <= i <= |list|
        invariant Contents() == Release(emptied, list[..i])
      {
        ReleaseShrinks(emptied, list[..i]);
        ReleaseAppend(emptied, list[..i], [list[i]]);
        assert list[..i + 1] == list[..i] + [list[i]];
        Drop(list[i]);
        i := i + 1;
      }
      assert list[..|list|] == list;
    }

    /** Drops the references of a release plan in its order. */
    method DropAll(entries: seq<nat>)
      modifies this
      ensures Contents() == Release(old(Contents()), entries)
    {
      var i := 0;
      while i < |entries|
        invariant 0 <= i <= |entries|
        invariant Contents() == Release(old(Contents()), entries[..i])
      {
        ReleaseAppend(old(Contents()), entries[..i], [entries[i]]);
        assert entries[..i + 1] == entries[..i] + [entries[i]];
        Drop(entries[i]);
        i := i + 1;
      }
      assert entries[..|entries|] == entries;
    }
  }
}
