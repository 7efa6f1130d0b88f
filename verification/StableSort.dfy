/** The insertion sort written out twice in the sources: on the want list and on the player's buffer.
    Both run it over two parallel vectors, a key vector and a payload vector. */
module StableSort {
  import opened Types
  import opened Sequences

  ghost predicate SortedByKey<V>(ps: seq<(int, V)>) {
    forall i, j | 0 <= i < j < |ps| :: ps[i].0 <= ps[j].0
  }

  ghost function WithKey<V(!new)>(k: int): iset<(int, V)> {
    iset p: (int, V) | p.0 == k
  }

  /** `b` holds the entries of `a` with the entries of each key in the same order. */
  ghost predicate StablePermutation<V(!new)>(a: seq<(int, V)>, b: seq<(int, V)>) {
    forall k: int :: Filter(a, WithKey(k)) == Filter(b, WithKey(k))
  }

  lemma StableIsPermutation<V(!new)>(a: seq<(int, V)>, b: seq<(int, V)>)
    requires StablePermutation(a, b)
    ensures multiset(a) == multiset(b)
  {
    forall p ensures multiset(a)[p] == multiset(b)[p] {
      FilterCount(a, WithKey(p.0), p);
      FilterCount(b, WithKey(p.0), p);
    }
  }

  lemma LowestKeyFirst<V(!new)>(a: seq<(int, V)>, b: seq<(int, V)>)
    requires a != [] && SortedByKey(b) && StablePermutation(a, b)
    ensures b != [] && b[0].0 <= a[0].0
  {
    FilterMember(a, WithKey(a[0].0), a[0]);
    FilterMember(b, WithKey(a[0].0), a[0]);
  }

  /** Sortedness and stability leave no freedom: they determine the result. */
  lemma {:induction false} StableSortUnique<V(!new)>(a: seq<(int, V)>, b: seq<(int, V)>)
    requires SortedByKey(a) && SortedByKey(b) && StablePermutation(a, b)
    ensures a == b
  {
    if a == [] {
      if b != [] { LowestKeyFirst(b, a); }
    } else {
      LowestKeyFirst(a, b);
      LowestKeyFirst(b, a);
      var k0 := a[0].0;
      assert Filter(a, WithKey(k0))[0] == a[0];
      assert Filter(b, WithKey(k0))[0] == b[0];
      forall k: int ensures Filter(a[1..], WithKey(k)) == Filter(b[1..], WithKey(k)) {
        assert Filter(a, WithKey(k)) == Filter(b, WithKey(k));
        var head := if k == k0 then [a[0]] else [];
        assert Filter(a, WithKey(k)) == head + Filter(a[1..], WithKey(k));
        assert Filter(b, WithKey(k)) == head + Filter(b[1..], WithKey(k));
        assert Filter(a[1..], WithKey(k)) == (head + Filter(a[1..], WithKey(k)))[|head|..];
      }
      StableSortUnique(a[1..], b[1..]);
      assert a == [a[0]] + a[1..] && b == [b[0]] + b[1..];
    }
  }

  lemma SwapDescending<V(!new)>(ps: seq<(int, V)>, j: nat)
    requires 0 < j < |ps| && ps[j].0 < ps[j - 1].0
    ensures StablePermutation(ps, Swapped(ps, j, j - 1))
  {
    var x, y := ps[j - 1], ps[j];
    var front, back := ps[..j - 1], ps[j + 1..];
    assert ps == front + ([x, y] + back);
    assert Swapped(ps, j, j - 1) == front + ([y, x] + back);
    forall k: int ensures Filter(ps, WithKey(k)) == Filter(Swapped(ps, j, j - 1), WithKey(k)) {
      FilterAppend(front, [x, y] + back, WithKey(k));
      FilterAppend(front, [y, x] + back, WithKey(k));
      FilterAppend([x, y], back, WithKey(k));
      FilterAppend([y, x], back, WithKey(k));
      assert [x, y][1..] == [y] && [y, x][1..] == [x];
    }
  }

  /** Insertion sort by swapping adjacent entries of both vectors. */
  method InsertionSort<V(!new)>(keys: seq<int>, payload: seq<V>) returns (ks: seq<int>, vs: seq<V>)
    requires |keys| == |payload|
    ensures |ks| == |vs| == |keys|
    ensures SortedByKey(Zip(ks, vs))
    ensures StablePermutation(Zip(keys, payload), Zip(ks, vs))
    ensures multiset(Zip(keys, payload)) == multiset(Zip(ks, vs))
  {
    ks, vs := keys, payload;
    var i := 1;
    while i < |ks|
      invariant |ks| == |vs| == |keys|
      invariant 1 <= i && (i <= |ks| || |ks| == 0)
      invariant forall a, b | 0 <= a < b < i && b < |ks| :: ks[a] <= ks[b]
      invariant StablePermutation(Zip(keys, payload), Zip(ks, vs))
    {
      var j := i;
      while j > 0 && ks[j - 1] > ks[j]
        invariant 0 <= j <= i < |ks| == |vs| == |keys|
        invariant forall a, b | 0 <= a < b <= i && b != j :: ks[a] <= ks[b]
        invariant StablePermutation(Zip(keys, payload), Zip(ks, vs))
      {
        SwapDescending(Zip(ks, vs), j);
        assert Zip(Swapped(ks, j, j - 1), Swapped(vs, j, j - 1)) == Swapped(Zip(ks, vs), j, j - 1);
        ks, vs := Swapped(ks, j, j - 1), Swapped(vs, j, j - 1);
        j := j - 1;
      }
      i := i + 1;
    }
    StableIsPermutation(Zip(keys, payload), Zip(ks, vs));
  }

  /** Where a stable sort puts one new entry: after every entry whose key is not larger. */
  function Inserted<V>(ps: seq<(int, V)>, p: (int, V)): (r: seq<(int, V)>)
    ensures |r| == |ps| + 1
  {
    if ps == [] || p.0 < ps[0].0 then [p] + ps else [ps[0]] + Inserted(ps[1..], p)
  }

  lemma {:induction false} InsertedIsStable<V(!new)>(ps: seq<(int, V)>, p: (int, V))
    requires SortedByKey(ps)
    ensures SortedByKey(Inserted(ps, p))
    ensures StablePermutation(ps + [p], Inserted(ps, p))
  {
    InsertedSorted(ps, p);
    forall k: int ensures Filter(ps + [p], WithKey(k)) == Filter(Inserted(ps, p), WithKey(k)) {
      InsertedFilter(ps, p, k);
    }
  }

  lemma {:induction false} InsertedSorted<V>(ps: seq<(int, V)>, p: (int, V))
    requires SortedByKey(ps)
    ensures SortedByKey(Inserted(ps, p))
    ensures forall x | x in Inserted(ps, p) :: x == p || x in ps
  {
    if ps != [] && ps[0].0 <= p.0 {
      InsertedSorted(ps[1..], p);
      var rest := Inserted(ps[1..], p);
      forall j | 0 <= j < |rest| ensures ps[0].0 <= rest[j].0 {
        assert rest[j] in rest;
      }
    }
  }

  lemma {:induction false} InsertedFilter<V(!new)>(ps: seq<(int, V)>, p: (int, V), k: int)
    requires SortedByKey(ps)
    ensures Filter(ps + [p], WithKey(k)) == Filter(Inserted(ps, p), WithKey(k))
  {
    FilterAppend(ps, [p], WithKey(k));
    if ps == [] || p.0 < ps[0].0 {
      FilterAppend([p], ps, WithKey(k));
      if k == p.0 && ps != [] {
        NoneWithKey(ps, k);
      }
    } else {
      InsertedFilter(ps[1..], p, k);
      FilterAppend(ps[1..], [p], WithKey(k));
      FilterAppend([ps[0]], Inserted(ps[1..], p), WithKey(k));
      FilterAppend([ps[0]], ps[1..], WithKey(k));
      assert [ps[0]] + ps[1..] == ps;
    }
  }

  lemma NoneWithKey<V(!new)>(ps: seq<(int, V)>, k: int)
    requires forall p | p in ps :: p.0 != k
    ensures Filter(ps, WithKey(k)) == []
  {
  }
}
