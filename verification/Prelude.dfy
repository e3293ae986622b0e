/** Vocabulary shared by every model: identifiers, results, and sorted traversal. */
module Prelude {

  datatype Option<+T> = None | Some(value: T)

  datatype Result<+T, +E> = Ok(value: T) | Err(error: E)

  /** The result of an operation that either succeeds with nothing or fails. */
  datatype Outcome<+E> = Done | Failed(error: E)

  /** Identifiers are used only through equality and their total order. */
  type Id = nat

  /** The largest value of the 64-bit counters. */
  const U64_MAX: nat := 0xFFFF_FFFF_FFFF_FFFF

  ghost predicate Distinct<T>(s: seq<T>) {
    forall i, j :: 0 <= i < j < |s| ==> s[i] != s[j]
  }

  /** The elements of a set, as a set read back from a sequence. */
  ghost function Elements<T>(s: seq<T>): (r: set<T>) {
    set x | x in s
  }

  lemma {:induction false} DistinctCount<T>(s: seq<T>, x: T)
    requires Distinct(s)
    ensures multiset(s)[x] == if x in s then 1 else 0
  {
    if s != [] {
      assert s == [s[0]] + s[1..];
      DistinctCount(s[1..], x);
      forall k | 0 <= k < |s[1..]| ensures s[1..][k] != s[0] { assert s[k + 1] != s[0]; }
    }
  }

  /** A rearrangement of distinct items is distinct. */
  lemma PermutationIsDistinct<T>(s: seq<T>, t: seq<T>)
    requires multiset(s) == multiset(t) && Distinct(t)
    ensures Distinct(s)
  {
    forall i, j | 0 <= i < j < |s| ensures s[i] != s[j] {
      DistinctCount(t, s[j]);
      assert s == s[..j] + [s[j]] + s[j + 1..];
      assert s[i] in s[..j];
      assert multiset(s)[s[j]] >= multiset(s[..j])[s[j]] + 1;
    }
  }

  function Least(s: set<Id>): (m: Id)
    requires |s| > 0
    ensures m in s && forall x :: x in s ==> m <= x
  {
    LeastExists(s);
    var m :| m in s && forall x :: x in s ==> m <= x; m
  }

  lemma {:induction false} LeastExists(s: set<Id>)
    requires s != {}
    ensures exists m :: m in s && forall x :: x in s ==> m <= x
  {
    var y :| y in s;
    var rest := s - {y};
    if rest != {} {
      LeastExists(rest);
      var n :| n in rest && forall x :: x in rest ==> n <= x;
      LeastOfTwo(s, y, n);
    } else {
      assert s == {y};
    }
  }

  lemma LeastOfTwo(s: set<Id>, y: Id, n: Id)
    requires y in s && n in s && forall x :: x in s - {y} ==> n <= x
    ensures exists m :: m in s && forall x :: x in s ==> m <= x
  {
    var m := if y < n then y else n;
    forall x | x in s ensures m <= x {
      if x != y { assert x in s - {y}; }
    }
  }

  /** The order in which a sorted set or map is iterated. */
  function Ascending(s: set<Id>): (r: seq<Id>)
    ensures forall x :: x in r <==> x in s
    decreases |s|
  {
    if s == {} then [] else
      var m := Least(s);
      [m] + Ascending(s - {m})
  }

  lemma SmallerFirst(x: Id, tail: seq<Id>)
    requires forall j :: 0 <= j < |tail| ==> x < tail[j]
    requires forall i, j :: 0 <= i < j < |tail| ==> tail[i] < tail[j]
    ensures var s := [x] + tail; forall i, j :: 0 <= i < j < |s| ==> s[i] < s[j]
  {
  }

  lemma {:induction false} AscendingIsSorted(s: set<Id>)
    ensures forall i, j :: 0 <= i < j < |Ascending(s)| ==> Ascending(s)[i] < Ascending(s)[j]
    decreases |s|
  {
    if s != {} {
      var rest := s - {Least(s)};
      AscendingIsSorted(rest);
      var tail := Ascending(rest);
      forall j | 0 <= j < |tail| ensures Least(s) < tail[j] { assert tail[j] in rest; }
      assert Ascending(s) == [Least(s)] + tail;
      SmallerFirst(Least(s), tail);
    }
  }

  ghost predicate Increasing(list: seq<Id>) {
    forall i, j :: 0 <= i < j < |list| ==> list[i] < list[j]
  }

  /** Only one increasing list has the elements of a given set. */
  lemma {:induction false} IncreasingIsAscending(list: seq<Id>, s: set<Id>)
    requires Increasing(list) && forall x :: x in list <==> x in s
    ensures list == Ascending(s)
    decreases |list|
  {
    if list != [] {
      var rest := list[1..];
      assert list == [list[0]] + rest && list[0] in s;
      forall x | x in s ensures list[0] <= x {
        var i :| 0 <= i < |list| && list[i] == x;
      }
      assert Least(s) == list[0];
      forall x | x in rest ensures x in s - {list[0]} {
        var i :| 0 <= i < |rest| && rest[i] == x;
        assert list[0] < list[i + 1];
      }
      forall i, j | 0 <= i < j < |rest| ensures rest[i] < rest[j] { assert list[i + 1] < list[j + 1]; }
      IncreasingIsAscending(rest, s - {list[0]});
    }
  }

  /** Runs `step` over the items in order and stops at the first failure. */
  function Fold<S, I, E>(step: (S, I) -> Result<S, E>, s: S, items: seq<I>): Result<S, E> {
    if items == [] then Ok(s)
    else match Fold(step, s, items[..|items| - 1])
         case Err(e) => Err(e)
         case Ok(t) => step(t, items[|items| - 1])
  }

  lemma {:induction false} FoldAppend<S, I, E>(step: (S, I) -> Result<S, E>, s: S, xs: seq<I>, ys: seq<I>)
    ensures Fold(step, s, xs + ys) ==
            match Fold(step, s, xs) { case Err(e) => Err(e) case Ok(t) => Fold(step, t, ys) }
  {
    if ys == [] {
      assert xs + ys == xs;
    } else {
      assert (xs + ys)[..|xs + ys| - 1] == xs + ys[..|ys| - 1];
      FoldAppend(step, s, xs, ys[..|ys| - 1]);
    }
  }

  /** A loop that has run `step` over `items[..n]` advances by one item. */
  lemma FoldStep<S, I, E>(step: (S, I) -> Result<S, E>, s: S, items: seq<I>, n: nat)
    requires n < |items|
    ensures Fold(step, s, items[..n + 1]) ==
            match Fold(step, s, items[..n]) { case Err(e) => Err(e) case Ok(t) => step(t, items[n]) }
    ensures Fold(step, s, items[..n + 1]).Err? ==> Fold(step, s, items) == Fold(step, s, items[..n + 1])
  {
    assert items[..n + 1][..n] == items[..n];
    assert items == items[..n + 1] + items[n + 1..];
    FoldAppend(step, s, items[..n + 1], items[n + 1..]);
  }
}
