/** JavaScript's `Array.prototype.sort` with a numeric comparison: stable, ascending. */
module StableSort {

  ghost predicate Sorted<T>(xs: seq<T>, key: T -> real) {
    forall i, j :: 0 <= i < j < |xs| ==> key(xs[i]) <= key(xs[j])
  }

  function Insert<T>(x: T, xs: seq<T>, key: T -> real): (r: seq<T>)
    ensures |r| == |xs| + 1
  {
    if xs == [] || key(x) <= key(xs[0]) then [x] + xs else [xs[0]] + Insert(x, xs[1..], key)
  }

  function SortBy<T>(xs: seq<T>, key: T -> real): (r: seq<T>)
    ensures |r| == |xs|
  {
    if xs == [] then [] else Insert(xs[0], SortBy(xs[1..], key), key)
  }

  /** The elements whose key is `k`, in their order. */
  function WithKey<T>(xs: seq<T>, key: T -> real, k: real): seq<T> {
    if xs == [] then [] else (if key(xs[0]) == k then [xs[0]] else []) + WithKey(xs[1..], key, k)
  }

  lemma {:induction false} InsertContents<T>(x: T, xs: seq<T>, key: T -> real)
    ensures multiset(Insert(x, xs, key)) == multiset{x} + multiset(xs)
  {
    if xs != [] && key(x) > key(xs[0]) {
      InsertContents(x, xs[1..], key);
      assert xs == [xs[0]] + xs[1..];
    }
  }

  lemma SortedCons<T>(x: T, xs: seq<T>, key: T -> real)
    requires Sorted(xs, key) && (forall y :: y in xs ==> key(x) <= key(y))
    ensures Sorted([x] + xs, key)
  {}

  lemma SortedTail<T>(xs: seq<T>, key: T -> real)
    requires Sorted(xs, key) && xs != []
    ensures Sorted(xs[1..], key)
  {}

  lemma {:induction false} InsertSorted<T>(x: T, xs: seq<T>, key: T -> real)
    requires Sorted(xs, key)
    ensures Sorted(Insert(x, xs, key), key)
  {
    if xs == [] || key(x) <= key(xs[0]) {
      SortedCons(x, xs, key);
    } else {
      InsertSorted(x, xs[1..], key);
      InsertContents(x, xs[1..], key);
      var r := Insert(x, xs[1..], key);
      forall y | y in r ensures key(xs[0]) <= key(y) {
        assert y in multiset(r);
        assert y == x || y in multiset(xs[1..]);
      }
      SortedCons(xs[0], r, key);
    }
  }

  lemma WithKeyCons<T>(x: T, xs: seq<T>, key: T -> real, k: real)
    ensures WithKey([x] + xs, key, k) == (if key(x) == k then [x] else []) + WithKey(xs, key, k)
  {
    assert ([x] + xs)[1..] == xs;
  }

  lemma {:induction false} InsertStable<T>(x: T, xs: seq<T>, key: T -> real, k: real)
    ensures WithKey(Insert(x, xs, key), key, k) == (if key(x) == k then [x] else []) + WithKey(xs, key, k)
  {
    if xs == [] || key(x) <= key(xs[0]) {
      WithKeyCons(x, xs, key, k);
    } else {
      var rest := Insert(x, xs[1..], key);
      InsertStable(x, xs[1..], key, k);
      WithKeyCons(xs[0], rest, key, k);
      assert WithKey(xs, key, k) == (if key(xs[0]) == k then [xs[0]] else []) + WithKey(xs[1..], key, k);
    }
  }

  /** The sort meets its specification: sorted, a permutation, and equal keys keep their order. */
  lemma {:induction false} SortCorrect<T>(xs: seq<T>, key: T -> real)
    ensures Sorted(SortBy(xs, key), key)
    ensures multiset(SortBy(xs, key)) == multiset(xs)
    ensures forall k: real :: WithKey(SortBy(xs, key), key, k) == WithKey(xs, key, k)
  {
    if xs != [] {
      SortCorrect(xs[1..], key);
      InsertSorted(xs[0], SortBy(xs[1..], key), key);
      InsertContents(xs[0], SortBy(xs[1..], key), key);
      assert xs == [xs[0]] + xs[1..];
      forall k: real ensures WithKey(SortBy(xs, key), key, k) == WithKey(xs, key, k) {
        InsertStable(xs[0], SortBy(xs[1..], key), key, k);
      }
    }
  }

  /** A list already in order is left as it is. */
  lemma {:induction false} SortIdentity<T>(xs: seq<T>, key: T -> real)
    requires Sorted(xs, key)
    ensures SortBy(xs, key) == xs
  {
    if xs != [] {
      SortIdentity(xs[1..], key);
      assert xs == [xs[0]] + xs[1..];
    }
  }
}
