/** Ordering of query results by one sort key (an ORDER BY on a single column or
    expression). The database leaves the order of rows with equal keys open, so
    what the queries promise is stated as "a permutation of the rows, sorted by
    the key"; SortBy is one such ordering. */
module Ordering {

  /** a may come before b when sorting by key, ascending or descending. */
  predicate InOrder<T>(key: T -> real, descending: bool, a: T, b: T)
  {
    if descending then key(a) >= key(b) else key(a) <= key(b)
  }

  predicate SortedBy<T>(xs: seq<T>, key: T -> real, descending: bool)
  {
    forall i, j :: 0 <= i < j < |xs| ==> InOrder(key, descending, xs[i], xs[j])
  }

  /** x placed into the sorted xs before the first element it may precede. */
  function Insert<T>(x: T, xs: seq<T>, key: T -> real, descending: bool): (r: seq<T>)
    requires SortedBy(xs, key, descending)
    ensures SortedBy(r, key, descending)
    ensures multiset(r) == multiset(xs) + multiset{x}
  {
    if |xs| == 0 then [x]
    else if InOrder(key, descending, x, xs[0]) then
      PrependSorted(x, xs, key, descending);
      [x] + xs
    else
      var rest := Insert(x, xs[1..], key, descending);
      assert xs == [xs[0]] + xs[1..];
      HeadPrecedes(x, xs, rest, key, descending);
      PrependSorted(xs[0], rest, key, descending);
      [xs[0]] + rest
  }

  /** An element that may precede every element of a sorted sequence may be
      put in front of it. */
  lemma PrependSorted<T>(y: T, ys: seq<T>, key: T -> real, descending: bool)
    requires SortedBy(ys, key, descending)
    requires |ys| > 0 ==> InOrder(key, descending, y, ys[0])
    ensures SortedBy([y] + ys, key, descending)
  {
    var zs := [y] + ys;
    forall i, j | 0 <= i < j < |zs|
      ensures InOrder(key, descending, zs[i], zs[j])
    {
      if i == 0 && j > 1 {
        assert InOrder(key, descending, ys[0], ys[j - 1]);
      }
    }
  }

  /** When x may not precede the head of the sorted xs, the head may precede
      x and every other element. */
  lemma HeadPrecedes<T>(x: T, xs: seq<T>, rest: seq<T>, key: T -> real, descending: bool)
    requires |xs| > 0 && SortedBy(xs, key, descending) && !InOrder(key, descending, x, xs[0])
    requires multiset(rest) == multiset(xs[1..]) + multiset{x}
    ensures |rest| > 0 ==> InOrder(key, descending, xs[0], rest[0])
  {
    if |rest| > 0 {
      var y := rest[0];
      assert y in multiset(rest);
      if y != x {
        assert y in multiset(xs[1..]);
        var m :| 0 <= m < |xs[1..]| && xs[1..][m] == y;
        assert xs[m + 1] == y;
      }
    }
  }

  /** The rows of xs ordered by key. */
  function SortBy<T>(xs: seq<T>, key: T -> real, descending: bool): (r: seq<T>)
    ensures SortedBy(r, key, descending)
    ensures multiset(r) == multiset(xs)
  {
    if |xs| == 0 then []
    else
      assert xs == [xs[0]] + xs[1..];
      Insert(xs[0], SortBy(xs[1..], key, descending), key, descending)
  }

  /** Two sorted permutations of the same rows list the same keys in the same
      order: the ordering is determined up to rows with equal keys. */
  lemma {:induction false} SortedPermutationsAgreeOnKeys<T>(a: seq<T>, b: seq<T>, key: T -> real, descending: bool)
    requires SortedBy(a, key, descending) && SortedBy(b, key, descending)
    requires multiset(a) == multiset(b)
    ensures |a| == |b|
    ensures forall i :: 0 <= i < |a| ==> key(a[i]) == key(b[i])
  {
    assert |a| == |multiset(a)| == |multiset(b)| == |b|;
    if |a| > 0 {
      var j := Remove(b, a[0], key, descending);
      FirstKeysAgree(a, b, key, descending);
      FlatPrefix(b, j, key, descending);
      assert multiset(a[1..]) == multiset(a) - multiset{a[0]} by {
        assert a == [a[0]] + a[1..];
      }
      SortedPermutationsAgreeOnKeys(a[1..], b[..j] + b[j + 1..], key, descending);
      KeysAfterRemoval(a, b, j, key);
    }
  }

  /** Where x sits in b, and what is left of b without it. */
  lemma Remove<T>(b: seq<T>, x: T, key: T -> real, descending: bool) returns (j: nat)
    requires x in multiset(b) && SortedBy(b, key, descending)
    ensures j < |b| && b[j] == x
    ensures multiset(b[..j] + b[j + 1..]) == multiset(b) - multiset{x}
    ensures SortedBy(b[..j] + b[j + 1..], key, descending)
  {
    j :| 0 <= j < |b| && b[j] == x;
    assert b == b[..j] + [b[j]] + b[j + 1..];
    SortedRemoval(b, j, key, descending);
  }

  /** Gluing step of SortedPermutationsAgreeOnKeys: a[0] == b[j], the keys of
      b[..j+1] are all equal, and a[1..] matches b without b[j] key by key. */
  lemma KeysAfterRemoval<T>(a: seq<T>, b: seq<T>, j: nat, key: T -> real)
    requires |a| == |b| && j < |b| && |a| > 0 && key(a[0]) == key(b[0])
    requires forall i :: 0 <= i <= j ==> key(b[i]) == key(b[0])
    requires forall i :: 0 <= i < |a| - 1 ==> key(a[1..][i]) == key((b[..j] + b[j + 1..])[i])
    ensures forall i :: 0 <= i < |a| ==> key(a[i]) == key(b[i])
  {
    var b2 := b[..j] + b[j + 1..];
    forall i | 0 < i < |a|
      ensures key(a[i]) == key(b[i])
    {
      assert a[i] == a[1..][i - 1];
      if i - 1 < j {
        assert b2[i - 1] == b[i - 1];
      } else {
        assert b2[i - 1] == b[i];
      }
    }
  }

  /** The first elements of two sorted permutations carry the same key. */
  lemma FirstKeysAgree<T>(a: seq<T>, b: seq<T>, key: T -> real, descending: bool)
    requires SortedBy(a, key, descending) && SortedBy(b, key, descending)
    requires multiset(a) == multiset(b) && |a| > 0
    ensures |b| > 0 && key(a[0]) == key(b[0])
  {
    assert a[0] in multiset(b);
    assert b[0] in multiset(a);
    var j :| 0 <= j < |b| && b[j] == a[0];
    var k :| 0 <= k < |a| && a[k] == b[0];
    assert k == 0 || InOrder(key, descending, a[0], a[k]);
    assert j == 0 || InOrder(key, descending, b[0], b[j]);
  }

  /** In a sorted sequence, the elements up to one that shares the first key
      all share that key. */
  lemma FlatPrefix<T>(b: seq<T>, j: nat, key: T -> real, descending: bool)
    requires SortedBy(b, key, descending) && j < |b| && key(b[j]) == key(b[0])
    ensures forall i :: 0 <= i <= j ==> key(b[i]) == key(b[0])
  {
    forall i | 0 < i < j
      ensures key(b[i]) == key(b[0])
    {
      assert InOrder(key, descending, b[0], b[i]);
      assert InOrder(key, descending, b[i], b[j]);
    }
  }

  /** Removing one element keeps a sequence sorted. */
  lemma SortedRemoval<T>(xs: seq<T>, j: nat, key: T -> real, descending: bool)
    requires j < |xs| && SortedBy(xs, key, descending)
    ensures SortedBy(xs[..j] + xs[j + 1..], key, descending)
  {
    var r := xs[..j] + xs[j + 1..];
    forall p, q | 0 <= p < q < |r|
      ensures InOrder(key, descending, r[p], r[q])
    {
      var p' := if p < j then p else p + 1;
      var q' := if q < j then q else q + 1;
      assert r[p] == xs[p'] && r[q] == xs[q'] && p' < q';
    }
  }
}
