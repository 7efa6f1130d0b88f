/** Vector operations the sources use, and the order-preserving filter that specifies their loops. */
module Sequences {
  import opened Types

  /** A slot of `xs` that holds `x`, or -1. */
  ghost function Slot<T>(xs: seq<T>, x: T): (r: int)
    ensures -1 <= r < |xs| && (r >= 0 <==> x in xs)
    ensures x in xs ==> xs[r] == x
  {
    if x in xs then var i :| 0 <= i < |xs| && xs[i] == x; i else -1
  }

  /** No element sits in two slots. */
  ghost predicate Distinct<T>(xs: seq<T>) {
    forall i | 0 <= i < |xs| :: Slot(xs, xs[i]) == i
  }

  lemma DistinctMeansDistinct<T>(xs: seq<T>)
    ensures Distinct(xs) <==> forall i, j | 0 <= i < j < |xs| :: xs[i] != xs[j]
  {
  }

  /** First index holding `x` (the `iter().position(..)` of the source). */
  function Position<T(==)>(xs: seq<T>, x: T): (r: Option<nat>)
    ensures r.None? <==> x !in xs
    ensures r.Some? ==> r.value < |xs| && xs[r.value] == x && x !in xs[..r.value]
  {
    if xs == [] then None
    else if xs[0] == x then Some(0)
    else match Position(xs[1..], x)
      case None => None
      case Some(i) =>
        assert xs[..i + 1] == [xs[0]] + xs[1..][..i];
        Some(i + 1)
  }

  function Swapped<T>(xs: seq<T>, i: nat, j: nat): (r: seq<T>)
    requires i < |xs| && j < |xs|
    ensures |r| == |xs|
  {
    xs[i := xs[j]][j := xs[i]]
  }

  function Removed<T>(xs: seq<T>, i: nat): (r: seq<T>)
    requires i < |xs|
    ensures |r| == |xs| - 1
  {
    xs[..i] + xs[i + 1..]
  }

  lemma SwappedDistinct<T>(xs: seq<T>, i: nat, j: nat)
    requires i < |xs| && j < |xs| && Distinct(xs)
    ensures Distinct(Swapped(xs, i, j))
    ensures forall x :: x in Swapped(xs, i, j) <==> x in xs
  {
    var ys := Swapped(xs, i, j);
    DistinctMeansDistinct(xs);
    DistinctMeansDistinct(ys);
    forall x | x in xs ensures x in ys {
      var k := Slot(xs, x);
      assert ys[if k == i then j else if k == j then i else k] == x;
    }
  }

  lemma AppendedDistinct<T>(xs: seq<T>, x: T)
    requires Distinct(xs) && x !in xs
    ensures Distinct(xs + [x])
    ensures forall y :: y in xs + [x] <==> y in xs || y == x
    ensures forall y | y in xs :: Slot(xs + [x], y) == Slot(xs, y)
  {
    DistinctMeansDistinct(xs);
    DistinctMeansDistinct(xs + [x]);
    forall y | y in xs ensures Slot(xs + [x], y) == Slot(xs, y) {
      assert (xs + [x])[Slot(xs, y)] == y;
    }
  }

  function Zip<A, B>(xs: seq<A>, ys: seq<B>): (r: seq<(A, B)>)
    requires |xs| == |ys|
    ensures |r| == |xs| && forall k | 0 <= k < |r| :: r[k] == (xs[k], ys[k])
  {
    seq(|xs|, k requires 0 <= k < |xs| => (xs[k], ys[k]))
  }

  /** The elements of `xs` that lie in `keep`, in their order. */
  ghost function Filter<T>(xs: seq<T>, keep: iset<T>): (r: seq<T>)
    ensures |r| <= |xs|
  {
    if xs == [] then []
    else (if xs[0] in keep then [xs[0]] else []) + Filter(xs[1..], keep)
  }

  lemma {:induction false} FilterAppend<T>(xs: seq<T>, ys: seq<T>, keep: iset<T>)
    ensures Filter(xs + ys, keep) == Filter(xs, keep) + Filter(ys, keep)
  {
    if xs == [] {
      assert xs + ys == ys;
    } else {
      FilterAppend(xs[1..], ys, keep);
      var head := if xs[0] in keep then [xs[0]] else [];
      calc {
        Filter(xs + ys, keep);
        { assert (xs + ys)[0] == xs[0] && (xs + ys)[1..] == xs[1..] + ys; }
        head + Filter(xs[1..] + ys, keep);
        head + (Filter(xs[1..], keep) + Filter(ys, keep));
        Filter(xs, keep) + Filter(ys, keep);
      }
    }
  }

  lemma FilterMember<T>(xs: seq<T>, keep: iset<T>, x: T)
    ensures x in Filter(xs, keep) <==> x in xs && x in keep
  {
  }

  lemma FilterAll<T>(xs: seq<T>, keep: iset<T>)
    requires forall x | x in xs :: x in keep
    ensures Filter(xs, keep) == xs
  {
  }

  lemma {:induction false} FilterFilter<T>(xs: seq<T>, a: iset<T>, b: iset<T>)
    ensures Filter(Filter(xs, a), b) == Filter(xs, a * b)
  {
    if xs != [] {
      FilterFilter(xs[1..], a, b);
      var head := if xs[0] in a then [xs[0]] else [];
      FilterAppend(head, Filter(xs[1..], a), b);
    }
  }

  lemma {:induction false} FilterCount<T>(xs: seq<T>, keep: iset<T>, x: T)
    requires x in keep
    ensures multiset(Filter(xs, keep))[x] == multiset(xs)[x]
  {
    if xs != [] {
      FilterCount(xs[1..], keep, x);
      assert xs == [xs[0]] + xs[1..];
    }
  }

  /** A backward walk that has handled the entries from `i` on, dropping those outside `keep`. */
  ghost predicate WalkedTo<T>(now: seq<T>, was: seq<T>, i: int, keep: iset<T>) {
    0 <= i <= |was| && now == was[..i] + Filter(was[i..], keep)
  }

  lemma WalkEnds<T>(now: seq<T>, was: seq<T>, keep: iset<T>)
    ensures WalkedTo(was, was, |was|, keep)
    ensures WalkedTo(now, was, 0, keep) ==> now == Filter(was, keep)
  {
    assert was[0..] == was;
  }

  lemma WalkBack<T>(now: seq<T>, was: seq<T>, i: nat, keep: iset<T>)
    requires WalkedTo(now, was, i + 1, keep)
    ensures i < |now| && now[i] == was[i]
    ensures was[i] in keep ==> WalkedTo(now, was, i, keep)
    ensures was[i] !in keep ==> WalkedTo(Removed(now, i), was, i, keep)
  {
    assert was[i..][1..] == was[i + 1..];
    assert was[..i + 1] == was[..i] + [was[i]];
  }
}
