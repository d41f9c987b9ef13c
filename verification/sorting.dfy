/** A stable insertion sort by an integer key, the behaviour `Array.prototype.sort`
    has with a numeric-difference comparator (stable since ECMAScript 2019). */
module Sorting {

  /** Keys never decrease from left to right. */
  predicate SortedBy<T>(xs: seq<T>, key: T -> int) {
    forall i, j :: 0 <= i < j < |xs| ==> key(xs[i]) <= key(xs[j])
  }

  /** `x` placed before the first element whose key is not smaller, so that
      among equal keys `x` comes first. */
  function Insert<T>(x: T, xs: seq<T>, key: T -> int): (r: seq<T>)
    requires SortedBy(xs, key)
    ensures SortedBy(r, key)
    ensures multiset(r) == multiset(xs) + multiset{x}
    ensures |r| == |xs| + 1
  {
    if |xs| == 0 then [x]
    else if key(x) <= key(xs[0]) then [x] + xs
    else
      var rest := Insert(x, xs[1..], key);
      assert xs == [xs[0]] + xs[1..];
      HeadBound(xs, key);
      AtLeastAppend(key(xs[0]), xs[1..], x, key);
      AtLeastPermuted(key(xs[0]), xs[1..] + [x], rest, key);
      ConsSorted(xs[0], rest, key);
      [xs[0]] + rest
  }

  /** Every key in `ys` is at least `lo`. */
  predicate AtLeast<T>(lo: int, ys: seq<T>, key: T -> int) {
    forall i :: 0 <= i < |ys| ==> lo <= key(ys[i])
  }

  /** In a sorted sequence the head's key bounds the tail's. */
  lemma HeadBound<T>(xs: seq<T>, key: T -> int)
    requires |xs| > 0 && SortedBy(xs, key)
    ensures AtLeast(key(xs[0]), xs[1..], key)
  {
    forall i | 0 <= i < |xs| - 1 ensures key(xs[0]) <= key(xs[1..][i]) {
      assert xs[1..][i] == xs[i + 1];
    }
  }

  /** Appending an element that meets the bound keeps it. */
  lemma AtLeastAppend<T>(lo: int, ys: seq<T>, y: T, key: T -> int)
    requires AtLeast(lo, ys, key) && lo <= key(y)
    ensures AtLeast(lo, ys + [y], key)
  {
    forall i | 0 <= i < |ys| + 1 ensures lo <= key((ys + [y])[i]) {
      if i < |ys| {
        assert (ys + [y])[i] == ys[i];
      }
    }
  }

  /** A bound on the keys carries over to any permutation. */
  lemma AtLeastPermuted<T>(lo: int, ys: seq<T>, zs: seq<T>, key: T -> int)
    requires AtLeast(lo, ys, key) && multiset(ys) == multiset(zs)
    ensures AtLeast(lo, zs, key)
  {
    forall i | 0 <= i < |zs| ensures lo <= key(zs[i]) {
      assert zs[i] in multiset(zs);
      var j :| 0 <= j < |ys| && ys[j] == zs[i];
    }
  }

  /** A head no larger than every key in a sorted tail keeps it sorted. */
  lemma ConsSorted<T>(y: T, ys: seq<T>, key: T -> int)
    requires SortedBy(ys, key) && AtLeast(key(y), ys, key)
    ensures SortedBy([y] + ys, key)
  {
    forall i, j | 0 <= i < j < |ys| + 1 ensures key(([y] + ys)[i]) <= key(([y] + ys)[j]) {
      assert ([y] + ys)[j] == ys[j - 1];
      if i > 0 {
        assert ([y] + ys)[i] == ys[i - 1];
      }
    }
  }

  /** The input ordered by ascending key; elements with equal keys keep their
      input order. */
  function SortBy<T>(xs: seq<T>, key: T -> int): (r: seq<T>)
    ensures SortedBy(r, key)
    ensures multiset(r) == multiset(xs)
    ensures |r| == |xs|
  {
    if |xs| == 0 then []
    else
      assert xs == [xs[0]] + xs[1..];
      Insert(xs[0], SortBy(xs[1..], key), key)
  }
}
