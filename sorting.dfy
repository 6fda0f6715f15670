/** A stable sort by an integer key. It stands for Python's `sorted(...,
    key=..., reverse=True)` (ranking by a negated key) and for SQL's
    `ORDER BY`. */
module Sorting {
  import opened Seqs

  predicate SortedBy<T>(xs: seq<T>, key: T -> int) {
    forall i, j :: 0 <= i < j < |xs| ==> key(xs[i]) <= key(xs[j])
  }

  /** The elements whose key is `c`, in their order. */
  function WithKey<T>(xs: seq<T>, key: T -> int, c: int): (r: seq<T>)
    ensures |r| <= |xs|
  {
    if xs == [] then []
    else (if key(xs[0]) == c then [xs[0]] else []) + WithKey(xs[1..], key, c)
  }

  /** `x` goes before the first element whose key is not smaller. */
  function InsertBy<T>(x: T, xs: seq<T>, key: T -> int): (r: seq<T>)
    ensures multiset(r) == multiset(xs) + multiset{x}
    ensures |r| == |xs| + 1
  {
    if xs == [] then [x]
    else if key(x) <= key(xs[0]) then [x] + xs
    else
      assert xs == [xs[0]] + xs[1..];
      [xs[0]] + InsertBy(x, xs[1..], key)
  }

  /** A lower bound on the keys of `x` and of `xs` bounds the insertion. */
  lemma {:induction false} InsertByBound<T>(x: T, xs: seq<T>, key: T -> int, lo: int)
    requires lo <= key(x)
    requires forall i :: 0 <= i < |xs| ==> lo <= key(xs[i])
    ensures forall j :: 0 <= j < |InsertBy(x, xs, key)| ==> lo <= key(InsertBy(x, xs, key)[j])
  {
    if xs != [] && key(x) > key(xs[0]) {
      InsertByBound(x, xs[1..], key, lo);
      assert InsertBy(x, xs, key) == [xs[0]] + InsertBy(x, xs[1..], key);
    }
  }

  /** A sorted sequence stays sorted under a head no larger than its keys. */
  lemma ConsSorted<T>(y: T, rest: seq<T>, key: T -> int)
    requires SortedBy(rest, key)
    requires forall j :: 0 <= j < |rest| ==> key(y) <= key(rest[j])
    ensures SortedBy([y] + rest, key)
  {
    var r := [y] + rest;
    forall i, j | 0 <= i < j < |r| ensures key(r[i]) <= key(r[j]) {
      assert r[j] == rest[j - 1];
      if i > 0 {
        assert r[i] == rest[i - 1];
      }
    }
  }

  lemma {:induction false} InsertBySorted<T>(x: T, xs: seq<T>, key: T -> int)
    requires SortedBy(xs, key)
    ensures SortedBy(InsertBy(x, xs, key), key)
    ensures InsertBy(x, xs, key)[0] == x || InsertBy(x, xs, key)[0] == xs[0]
  {
    if xs != [] && key(x) > key(xs[0]) {
      var rest := InsertBy(x, xs[1..], key);
      assert SortedBy(xs[1..], key);
      InsertBySorted(x, xs[1..], key);
      InsertByBound(x, xs[1..], key, key(xs[0]));
      ConsSorted(xs[0], rest, key);
      assert InsertBy(x, xs, key) == [xs[0]] + rest;
    } else if xs != [] {
      assert forall j :: 0 <= j < |xs| ==> key(xs[0]) <= key(xs[j]);
      ConsSorted(x, xs, key);
    }
  }

  /** Insertion sort: ascending keys, elements of equal key in their
      original order. */
  function SortBy<T>(xs: seq<T>, key: T -> int): (r: seq<T>)
    ensures SortedBy(r, key)
    ensures multiset(r) == multiset(xs)
    ensures |r| == |xs|
  {
    if xs == [] then []
    else
      assert xs == [xs[0]] + xs[1..];
      InsertBySorted(xs[0], SortBy(xs[1..], key), key);
      InsertBy(xs[0], SortBy(xs[1..], key), key)
  }

  lemma WithKeyCons<T>(x: T, xs: seq<T>, key: T -> int, c: int)
    ensures WithKey([x] + xs, key, c) == (if key(x) == c then [x] else []) + WithKey(xs, key, c)
  {
    assert ([x] + xs)[0] == x && ([x] + xs)[1..] == xs;
  }

  lemma InsertByStep<T>(x: T, xs: seq<T>, key: T -> int, c: int)
    requires xs != [] && key(x) > key(xs[0])
    requires WithKey(InsertBy(x, xs[1..], key), key, c) == (if key(x) == c then [x] else []) + WithKey(xs[1..], key, c)
    ensures WithKey(InsertBy(x, xs, key), key, c) == (if key(x) == c then [x] else []) + WithKey(xs, key, c)
  {
    var rest := InsertBy(x, xs[1..], key);
    var y := xs[0];
    var w := WithKey(xs[1..], key, c);
    assert InsertBy(x, xs, key) == [y] + rest;
    ConsSplit(xs);
    WithKeyCons(y, rest, key, c);
    WithKeyCons(y, xs[1..], key, c);
    if key(y) == c {
      assert key(x) != c;
      EmptyAppend(w);
      EmptyAppend([y] + w);
      assert WithKey(rest, key, c) == w;
    } else {
      EmptyAppend(w);
      EmptyAppend(WithKey(rest, key, c));
      assert WithKey(xs, key, c) == w;
    }
  }

  lemma {:induction false} InsertByWithKey<T>(x: T, xs: seq<T>, key: T -> int, c: int)
    ensures WithKey(InsertBy(x, xs, key), key, c) == (if key(x) == c then [x] else []) + WithKey(xs, key, c)
  {
    if xs == [] {
      WithKeyCons(x, [], key, c);
      assert [x] + [] == [x];
    } else if key(x) <= key(xs[0]) {
      WithKeyCons(x, xs, key, c);
    } else {
      InsertByWithKey(x, xs[1..], key, c);
      InsertByStep(x, xs, key, c);
    }
  }

  /** Stability: among elements of one key, the sort keeps the input order. */
  lemma {:induction false} SortByStable<T>(xs: seq<T>, key: T -> int, c: int)
    ensures WithKey(SortBy(xs, key), key, c) == WithKey(xs, key, c)
  {
    if xs != [] {
      SortByStable(xs[1..], key, c);
      InsertByWithKey(xs[0], SortBy(xs[1..], key), key, c);
    }
  }
}
