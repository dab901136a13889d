/** Lists without duplicates, and taking one element out: shared by the ready list's code and by
    the monitor machine. */
module Sequences {

  predicate Distinct<T(==)>(xs: seq<T>)
  {
    forall i, j :: 0 <= i < j < |xs| ==> xs[i] != xs[j]
  }

  /** The index of the first x, or the length when there is none. */
  function Position<T(==)>(xs: seq<T>, x: T): (i: nat)
    ensures i <= |xs|
    ensures x in xs ==> i < |xs| && xs[i] == x
    ensures forall j :: 0 <= j < i ==> xs[j] != x
  {
    if xs == [] || xs[0] == x then 0 else 1 + Position(xs[1..], x)
  }

  lemma PositionUnique<T>(xs: seq<T>, i: nat)
    requires Distinct(xs) && i < |xs|
    ensures Position(xs, xs[i]) == i
  {
  }

  /** A newcomer at the tail moves nothing. */
  lemma {:induction false} PositionInPrefix<T>(xs: seq<T>, more: seq<T>, x: T)
    requires x in xs
    ensures Position(xs + more, x) == Position(xs, x)
  {
    if xs[0] != x {
      assert (xs + more)[1..] == xs[1..] + more;
      PositionInPrefix(xs[1..], more, x);
    }
  }

  /** Without its i-th element a duplicate-free list has exactly the others. */
  lemma Unlinked<T>(xs: seq<T>, i: nat)
    requires Distinct(xs) && i < |xs|
    ensures var ys := xs[..i] + xs[i + 1..];
      Distinct(ys) && forall x :: x in ys <==> x in xs && x != xs[i]
  {
    var ys := xs[..i] + xs[i + 1..];
    forall x | x in xs && x != xs[i]
      ensures x in ys
    {
      var k :| 0 <= k < |xs| && xs[k] == x;
      assert ys[if k < i then k else k - 1] == x;
    }
  }
}
