/** A generic filter-and-map over sequences, the shape of the listing loop
    (keep an element when a function yields a value for it, in input order). */
module Sequences {
  import opened Results

  function FilterMap<A, B>(xs: seq<A>, f: A -> Option<B>): (ys: seq<B>)
    ensures |ys| <= |xs|
  {
    if |xs| == 0 then []
    else (if f(xs[0]).Some? then [f(xs[0]).value] else []) + FilterMap(xs[1..], f)
  }

  /** One filtering step: the head is kept exactly when it passes. */
  lemma FilterCons<T>(x: T, xs: seq<T>, p: T -> bool)
    ensures Filter([x] + xs, p) == (if p(x) then [x] else []) + Filter(xs, p)
  {
    assert ([x] + xs)[1..] == xs;
  }

  /** Three elements of which only the first fails. */
  lemma FilterThree<T>(x: T, y: T, z: T, p: T -> bool)
    requires !p(x) && p(y) && p(z)
    ensures Filter([x, y, z], p) == [y, z]
  {
    calc {
      Filter([x, y, z], p);
      { assert [x] + [y, z] == [x, y, z]; FilterCons(x, [y, z], p); }
      Filter([y, z], p);
      { assert [y] + [z] == [y, z]; FilterCons(y, [z], p); }
      [y] + Filter([z], p);
      { assert [z] + [] == [z]; FilterCons(z, [], p); }
      [y] + [z];
    }
  }

  /** Filtering distributes over concatenation, so the input order is kept. */
  lemma {:induction false} FilterMapConcat<A, B>(a: seq<A>, b: seq<A>, f: A -> Option<B>)
    ensures FilterMap(a + b, f) == FilterMap(a, f) + FilterMap(b, f)
  {
    if |a| == 0 {
      assert a + b == b;
    } else {
      var head := if f(a[0]).Some? then [f(a[0]).value] else [];
      assert (a + b)[0] == a[0];
      assert (a + b)[1..] == a[1..] + b;
      FilterMapConcat(a[1..], b, f);
      calc {
        FilterMap(a + b, f);
        head + FilterMap(a[1..] + b, f);
        head + (FilterMap(a[1..], f) + FilterMap(b, f));
        (head + FilterMap(a[1..], f)) + FilterMap(b, f);
        FilterMap(a, f) + FilterMap(b, f);
      }
    }
  }

  lemma FilterMapOne<A, B>(x: A, f: A -> Option<B>)
    ensures FilterMap([x], f) == (if f(x).Some? then [f(x).value] else [])
  {
    assert [x][1..] == [];
  }

  /** Every output comes from some input. */
  lemma {:induction false} FilterMapSound<A, B>(xs: seq<A>, f: A -> Option<B>, y: B)
    requires y in FilterMap(xs, f)
    ensures exists i :: 0 <= i < |xs| && f(xs[i]) == Some(y)
  {
    if f(xs[0]) != Some(y) {
      FilterMapSound(xs[1..], f, y);
      var i :| 0 <= i < |xs[1..]| && f(xs[1..][i]) == Some(y);
      assert f(xs[i + 1]) == Some(y);
    }
  }

  /** Every input the function keeps appears in the output. */
  lemma {:induction false} FilterMapComplete<A, B>(xs: seq<A>, f: A -> Option<B>, i: nat)
    requires i < |xs| && f(xs[i]).Some?
    ensures f(xs[i]).value in FilterMap(xs, f)
  {
    if i > 0 {
      assert xs[1..][i - 1] == xs[i];
      FilterMapComplete(xs[1..], f, i - 1);
    }
  }

  /** The elements satisfying `p`, in input order (`Array.prototype.filter`). */
  function Filter<T>(xs: seq<T>, p: T -> bool): (ys: seq<T>)
    ensures |ys| <= |xs|
    ensures forall i :: 0 <= i < |ys| ==> p(ys[i])
  {
    if |xs| == 0 then []
    else
      assert xs == [xs[0]] + xs[1..];
      (if p(xs[0]) then [xs[0]] else []) + Filter(xs[1..], p)
  }

  /** What a filter keeps comes from the input, at most as often, and every
      input element that passes is kept. */
  lemma FilterMembers<T>(xs: seq<T>, p: T -> bool)
    ensures forall i :: 0 <= i < |Filter(xs, p)| ==> Filter(xs, p)[i] in xs
    ensures forall i :: 0 <= i < |xs| && p(xs[i]) ==> xs[i] in Filter(xs, p)
    ensures multiset(Filter(xs, p)) <= multiset(xs)
  {
    var ys := Filter(xs, p);
    FilterSubMultiset(xs, p);
    FilterKeeps(xs, p);
    forall i | 0 <= i < |ys| ensures ys[i] in xs {
      assert ys[i] in multiset(ys);
    }
  }

  lemma {:induction false} FilterSubMultiset<T>(xs: seq<T>, p: T -> bool)
    ensures multiset(Filter(xs, p)) <= multiset(xs)
    decreases |xs|
  {
    if |xs| > 0 {
      var head := if p(xs[0]) then [xs[0]] else [];
      var rest := Filter(xs[1..], p);
      FilterSubMultiset(xs[1..], p);
      assert xs == [xs[0]] + xs[1..];
      FilterCons(xs[0], xs[1..], p);
      assert multiset(head + rest) == multiset(head) + multiset(rest);
      assert multiset(xs) == multiset([xs[0]]) + multiset(xs[1..]);
    }
  }

  lemma {:induction false} FilterKeeps<T>(xs: seq<T>, p: T -> bool)
    ensures forall i :: 0 <= i < |xs| && p(xs[i]) ==> xs[i] in Filter(xs, p)
    decreases |xs|
  {
    if |xs| > 0 {
      FilterKeeps(xs[1..], p);
      assert xs == [xs[0]] + xs[1..];
      FilterCons(xs[0], xs[1..], p);
      forall i | 0 <= i < |xs| && p(xs[i]) ensures xs[i] in Filter(xs, p) {
        if i > 0 {
          assert xs[1..][i - 1] == xs[i];
        }
      }
    }
  }

  /** Filtering distributes over concatenation, so the input order is kept. */
  lemma {:induction false} FilterConcat<T>(a: seq<T>, b: seq<T>, p: T -> bool)
    ensures Filter(a + b, p) == Filter(a, p) + Filter(b, p)
  {
    if |a| == 0 {
      assert a + b == b;
    } else {
      var head := if p(a[0]) then [a[0]] else [];
      FilterConcat(a[1..], b, p);
      assert a + b == [a[0]] + (a[1..] + b);
      FilterCons(a[0], a[1..] + b, p);
      assert a == [a[0]] + a[1..];
      FilterCons(a[0], a[1..], p);
      AppendAssoc(head, Filter(a[1..], p), Filter(b, p));
    }
  }

  lemma AppendAssoc<T>(x: seq<T>, y: seq<T>, z: seq<T>)
    ensures x + (y + z) == (x + y) + z
  {
  }

  /** A filter that keeps everything is the identity. */
  lemma {:induction false} FilterKeepsAll<T>(xs: seq<T>, p: T -> bool)
    requires forall i :: 0 <= i < |xs| ==> p(xs[i])
    ensures Filter(xs, p) == xs
  {
    if |xs| > 0 {
      FilterKeepsAll(xs[1..], p);
    }
  }

  /** Filtering twice by the same test is filtering once. */
  lemma FilterIdempotent<T>(xs: seq<T>, p: T -> bool)
    ensures Filter(Filter(xs, p), p) == Filter(xs, p)
  {
    FilterKeepsAll(Filter(xs, p), p);
  }

  /** A filter that keeps nothing yields nothing. */
  lemma {:induction false} FilterDropsAll<T>(xs: seq<T>, p: T -> bool)
    requires forall i :: 0 <= i < |xs| ==> !p(xs[i])
    ensures Filter(xs, p) == []
  {
    if |xs| > 0 {
      FilterDropsAll(xs[1..], p);
    }
  }

  /** A filter keeps every passing value as often as the input holds it, and
      no failing value at all. */
  lemma {:induction false} FilterCount<T>(xs: seq<T>, p: T -> bool, x: T)
    ensures multiset(Filter(xs, p))[x] == if p(x) then multiset(xs)[x] else 0
    decreases |xs|
  {
    if |xs| > 0 {
      FilterCount(xs[1..], p, x);
      assert xs == [xs[0]] + xs[1..];
      assert multiset(xs) == multiset([xs[0]]) + multiset(xs[1..]);
      FilterCons(xs[0], xs[1..], p);
    }
  }

  /** Filtering two rearrangements of one another yields rearrangements of one another. */
  lemma FilterPermuted<T>(a: seq<T>, b: seq<T>, p: T -> bool)
    requires multiset(a) == multiset(b)
    ensures multiset(Filter(a, p)) == multiset(Filter(b, p))
  {
    var fa, fb := multiset(Filter(a, p)), multiset(Filter(b, p));
    forall x
      ensures fa[x] == fb[x]
    {
      FilterCount(a, p, x);
      FilterCount(b, p, x);
    }
    MultisetExt(fa, fb);
  }

  lemma MultisetExt<T>(a: multiset<T>, b: multiset<T>)
    requires forall x :: a[x] == b[x]
    ensures a == b
  {
  }

  /** In a sequence with distinct keys, dropping every element whose key is
      one of the first `k` elements' keys leaves exactly the last `|s| - k`. */
  lemma FilterOutPrefixKeys<T, K>(s: seq<T>, f: T -> K, k: nat, keys: set<K>, keep: T -> bool)
    requires k <= |s| && DistinctBy(s, f)
    requires keys == set i | 0 <= i < k :: f(s[i])
    requires forall x :: keep(x) <==> f(x) !in keys
    ensures Filter(s, keep) == s[k..]
  {
    forall i | 0 <= i < k
      ensures f(s[i]) in keys
    {
    }
    PrefixKeysDropped(s, f, k, keys, keep);
    SuffixKeysKept(s, f, k, keys, keep);
    FilterAtCut(s, k, keep);
  }

  /** A filter that drops a whole prefix and keeps the whole rest yields the rest. */
  lemma FilterAtCut<T>(s: seq<T>, k: nat, keep: T -> bool)
    requires k <= |s| && Filter(s[..k], keep) == [] && Filter(s[k..], keep) == s[k..]
    ensures Filter(s, keep) == s[k..]
  {
    assert s == s[..k] + s[k..];
    FilterConcat(s[..k], s[k..], keep);
  }

  lemma PrefixKeysDropped<T, K>(s: seq<T>, f: T -> K, k: nat, keys: set<K>, keep: T -> bool)
    requires k <= |s|
    requires forall i :: 0 <= i < k ==> f(s[i]) in keys
    requires forall x :: keep(x) <==> f(x) !in keys
    ensures Filter(s[..k], keep) == []
  {
    forall i | 0 <= i < k
      ensures !keep(s[..k][i])
    {
      assert s[..k][i] == s[i];
    }
    FilterDropsAll(s[..k], keep);
  }

  lemma SuffixKeysKept<T, K>(s: seq<T>, f: T -> K, k: nat, keys: set<K>, keep: T -> bool)
    requires k <= |s| && DistinctBy(s, f)
    requires forall y :: y in keys ==> exists i :: 0 <= i < k && f(s[i]) == y
    requires forall x :: keep(x) <==> f(x) !in keys
    ensures Filter(s[k..], keep) == s[k..]
  {
    forall j | 0 <= j < |s[k..]|
      ensures keep(s[k..][j])
    {
      assert s[k..][j] == s[k + j];
    }
    FilterKeepsAll(s[k..], keep);
  }

  /** `ys` is `xs` with some elements left out and the rest in their order
      (matched greedily from the front). */
  predicate SubsequenceOf<T(==)>(ys: seq<T>, xs: seq<T>)
    decreases |xs|
  {
    if |ys| == 0 then true
    else if |xs| == 0 then false
    else if ys[0] == xs[0] then SubsequenceOf(ys[1..], xs[1..])
    else SubsequenceOf(ys, xs[1..])
  }

  lemma {:induction false} SubsequenceOfSelf<T>(xs: seq<T>)
    ensures SubsequenceOf(xs, xs)
  {
    if |xs| > 0 {
      SubsequenceOfSelf(xs[1..]);
    }
  }

  /** What a filter keeps stays in input order. */
  lemma {:induction false} FilterSubsequence<T>(xs: seq<T>, p: T -> bool)
    ensures SubsequenceOf(Filter(xs, p), xs)
  {
    if |xs| > 0 {
      var ys := Filter(xs, p);
      FilterSubsequence(xs[1..], p);
      assert xs == [xs[0]] + xs[1..];
      FilterCons(xs[0], xs[1..], p);
      if p(xs[0]) {
        assert ys[0] == xs[0] && ys[1..] == Filter(xs[1..], p);
      } else if |ys| > 0 {
        assert ys == Filter(xs[1..], p);
        assert ys[0] != xs[0];
      }
    }
  }

  /** The number of elements `p` drops. */
  function CountNot<T>(xs: seq<T>, p: T -> bool): (n: nat)
    ensures n <= |xs|
    ensures n == 0 <==> forall i :: 0 <= i < |xs| ==> p(xs[i])
  {
    if |xs| == 0 then 0 else (if p(xs[0]) then 0 else 1) + CountNot(xs[1..], p)
  }

  /** The filter is shorter than its input by exactly the elements it drops. */
  lemma {:induction false} FilterLength<T>(xs: seq<T>, p: T -> bool)
    ensures |Filter(xs, p)| == |xs| - CountNot(xs, p)
  {
    if |xs| > 0 {
      FilterLength(xs[1..], p);
    }
  }

  /** The input with `f` applied to every element (`Array.prototype.map`). */
  function Map<A, B>(xs: seq<A>, f: A -> B): (ys: seq<B>)
    ensures |ys| == |xs|
    ensures forall i :: 0 <= i < |xs| ==> ys[i] == f(xs[i])
  {
    seq(|xs|, i requires 0 <= i < |xs| => f(xs[i]))
  }

  /** No two elements share a key. */
  predicate DistinctBy<T, K(==)>(xs: seq<T>, f: T -> K) {
    forall i, j :: 0 <= i < j < |xs| ==> f(xs[i]) != f(xs[j])
  }

  /** Elements with distinct keys occur at most once. */
  lemma {:induction false} DistinctCountsOne<T, K>(xs: seq<T>, f: T -> K, x: T)
    requires DistinctBy(xs, f)
    ensures multiset(xs)[x] <= 1
  {
    if |xs| > 0 {
      assert xs == [xs[0]] + xs[1..];
      assert DistinctBy(xs[1..], f);
      DistinctCountsOne(xs[1..], f, x);
      if x == xs[0] {
        assert forall i :: 0 <= i < |xs[1..]| ==> xs[1..][i] != x;
      }
    }
  }

  /** An element at two positions occurs at least twice. */
  lemma TwoPositions<T>(s: seq<T>, i: nat, j: nat)
    requires i < j < |s| && s[i] == s[j]
    ensures multiset(s)[s[i]] >= 2
  {
    assert s == s[..i] + [s[i]] + s[i + 1..j] + [s[j]] + s[j + 1..];
  }

  /** A rearrangement of a sequence with distinct keys has distinct keys. */
  lemma PermutationKeepsDistinct<T, K>(s: seq<T>, t: seq<T>, f: T -> K)
    requires multiset(s) == multiset(t) && DistinctBy(t, f)
    ensures DistinctBy(s, f)
  {
    forall i, j | 0 <= i < j < |s|
      ensures f(s[i]) != f(s[j])
    {
      assert s[i] in multiset(t) && s[j] in multiset(t);
      var a :| 0 <= a < |t| && t[a] == s[i];
      var b :| 0 <= b < |t| && t[b] == s[j];
      if f(s[i]) == f(s[j]) {
        assert a == b;
        TwoPositions(s, i, j);
        DistinctCountsOne(t, f, s[i]);
        assert false;
      }
    }
  }
}
