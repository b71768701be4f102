/** Python's `sorted(xs, key=key, reverse=True)`, which both
    src/repo_radar/services/lang_analytics.py and
    src/repo_radar/services/sentry_service.py use. Python's sort is stable,
    and `reverse=True` keeps it stable: elements with equal keys stay in
    their input order. The model is an insertion sort with that behaviour,
    proved to give a non-increasing permutation that keeps ties in order. */
module StableSort {

  /** Puts `x` in front of the first element whose key is not larger, so
      that `x` goes before the elements of `ys` that tie with it. */
  function Insert<T>(x: T, ys: seq<T>, key: T -> real): seq<T> {
    if |ys| == 0 || key(x) >= key(ys[0]) then [x] + ys
    else [ys[0]] + Insert(x, ys[1..], key)
  }

  function SortDesc<T>(xs: seq<T>, key: T -> real): seq<T> {
    if |xs| == 0 then [] else Insert(xs[0], SortDesc(xs[1..], key), key)
  }

  /** Keys do not increase along `s`. */
  predicate SortedDesc<T>(s: seq<T>, key: T -> real) {
    forall i, j :: 0 <= i < j < |s| ==> key(s[i]) >= key(s[j])
  }

  /** The elements of `s` whose key is `k`, in their order in `s`. */
  function WithKey<T>(s: seq<T>, key: T -> real, k: real): seq<T> {
    if |s| == 0 then [] else (if key(s[0]) == k then [s[0]] else []) + WithKey(s[1..], key, k)
  }

  lemma {:induction false} InsertPermutes<T>(x: T, ys: seq<T>, key: T -> real)
    ensures multiset(Insert(x, ys, key)) == multiset{x} + multiset(ys)
    decreases |ys|
  {
    if |ys| == 0 || key(x) >= key(ys[0]) {
    } else {
      InsertPermutes(x, ys[1..], key);
      assert ys == [ys[0]] + ys[1..];
    }
  }

  lemma {:induction false} InsertSorted<T>(x: T, ys: seq<T>, key: T -> real)
    requires SortedDesc(ys, key)
    ensures SortedDesc(Insert(x, ys, key), key)
    decreases |ys|
  {
    if |ys| == 0 || key(x) >= key(ys[0]) {
    } else {
      var rest := Insert(x, ys[1..], key);
      InsertSorted(x, ys[1..], key);
      InsertPermutes(x, ys[1..], key);
      forall j | 0 <= j < |rest|
        ensures key(ys[0]) >= key(rest[j])
      {
        assert rest[j] in multiset(rest);
        if rest[j] != x {
          assert rest[j] in multiset(ys[1..]);
          var m :| 0 <= m < |ys[1..]| && ys[1..][m] == rest[j];
          assert ys[m + 1] == rest[j];
        }
      }
    }
  }

  lemma {:induction false} InsertKeepsTies<T>(x: T, ys: seq<T>, key: T -> real, k: real)
    ensures WithKey(Insert(x, ys, key), key, k) == (if key(x) == k then [x] else []) + WithKey(ys, key, k)
    decreases |ys|
  {
    var a: seq<T> := if key(x) == k then [x] else [];
    if |ys| == 0 || key(x) >= key(ys[0]) {
      assert ([x] + ys)[1..] == ys;
      assert WithKey([x] + ys, key, k) == a + WithKey(ys, key, k);
    } else {
      var rest := Insert(x, ys[1..], key);
      var b: seq<T> := if key(ys[0]) == k then [ys[0]] else [];
      InsertKeepsTies(x, ys[1..], key, k);
      assert ([ys[0]] + rest)[1..] == rest;
      assert WithKey([ys[0]] + rest, key, k) == b + (a + WithKey(ys[1..], key, k));
      assert WithKey(ys, key, k) == b + WithKey(ys[1..], key, k);
      assert a == [] || b == [];
    }
  }

  /** The result is ordered by non-increasing key, */
  lemma {:induction false} SortDescSorted<T>(xs: seq<T>, key: T -> real)
    ensures SortedDesc(SortDesc(xs, key), key)
    decreases |xs|
  {
    if |xs| > 0 {
      SortDescSorted(xs[1..], key);
      InsertSorted(xs[0], SortDesc(xs[1..], key), key);
    }
  }

  /** holds exactly the input elements, */
  lemma {:induction false} SortDescPermutes<T>(xs: seq<T>, key: T -> real)
    ensures multiset(SortDesc(xs, key)) == multiset(xs)
    ensures |SortDesc(xs, key)| == |xs|
    decreases |xs|
  {
    if |xs| > 0 {
      SortDescPermutes(xs[1..], key);
      InsertPermutes(xs[0], SortDesc(xs[1..], key), key);
      assert xs == [xs[0]] + xs[1..];
    }
    assert |multiset(SortDesc(xs, key))| == |SortDesc(xs, key)|;
  }

  /** and keeps the elements of each key in their input order. */
  lemma {:induction false} SortDescStable<T>(xs: seq<T>, key: T -> real, k: real)
    ensures WithKey(SortDesc(xs, key), key, k) == WithKey(xs, key, k)
    decreases |xs|
  {
    if |xs| > 0 {
      SortDescStable(xs[1..], key, k);
      InsertKeepsTies(xs[0], SortDesc(xs[1..], key), key, k);
    }
  }

  /** Cutting a list short keeps, of each key, a first part of its
      elements. */
  lemma {:induction false} WithKeyOfPrefix<T>(s: seq<T>, key: T -> real, k: real, n: nat)
    requires n <= |s|
    ensures |WithKey(s[..n], key, k)| <= |WithKey(s, key, k)|
    ensures WithKey(s[..n], key, k) == WithKey(s, key, k)[..|WithKey(s[..n], key, k)|]
    decreases n
  {
    if n > 0 {
      assert s[..n][0] == s[0] && s[..n][1..] == s[1..][..n - 1];
      WithKeyOfPrefix(s[1..], key, k, n - 1);
    }
  }

  /** A first part of a list sorted by non-increasing key is itself sorted,
      and holds no element with a smaller key than an element after it. */
  lemma {:induction false} PrefixHoldsLargest<T>(s: seq<T>, key: T -> real, m: nat)
    requires SortedDesc(s, key) && m <= |s|
    ensures SortedDesc(s[..m], key)
    ensures forall x, y :: x in s[m..] && y in s[..m] ==> key(x) <= key(y)
  {
    forall x, y | x in s[m..] && y in s[..m]
      ensures key(x) <= key(y)
    {
      var j :| 0 <= j < |s[m..]| && s[m..][j] == x;
      var i :| 0 <= i < m && s[..m][i] == y;
      assert s[i] == y && s[m + j] == x;
    }
  }

  /** The first `m` elements of the sorted list are sorted, are taken from
      the input, and no input element left out has a larger key than one
      kept. */
  lemma {:induction false} TopOfSortDesc<T>(xs: seq<T>, key: T -> real, m: nat)
    requires m <= |xs|
    ensures |SortDesc(xs, key)| == |xs|
    ensures SortedDesc(SortDesc(xs, key)[..m], key)
    ensures multiset(SortDesc(xs, key)[..m]) <= multiset(xs)
    ensures forall x, y :: x in multiset(xs) - multiset(SortDesc(xs, key)[..m]) && y in SortDesc(xs, key)[..m] ==>
      key(x) <= key(y)
  {
    var s := SortDesc(xs, key);
    SortDescSorted(xs, key);
    SortDescPermutes(xs, key);
    PrefixHoldsLargest(s, key, m);
    assert s[..m] + s[m..] == s;
    assert multiset(s) == multiset(s[..m]) + multiset(s[m..]);
    assert multiset(xs) - multiset(s[..m]) == multiset(s[m..]);
  }
}
