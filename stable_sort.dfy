// `Array.prototype.sort` with a numeric comparator `(a, b) => key(a) - key(b)`.
// The ECMAScript sort is stable, so the model is a stable insertion sort on
// sequences: the result is ordered by the key, is a permutation of the input,
// and keeps the input order among elements with equal keys.

module StableSort {

  /** `s` is in non-decreasing order of `key`. */
  predicate SortedBy<T>(s: seq<T>, key: T -> int)
  {
    forall i, j :: 0 <= i < j < |s| ==> key(s[i]) <= key(s[j])
  }

  /** The elements of `s` whose key is `k`, in their order in `s`. */
  function WithKey<T>(s: seq<T>, key: T -> int, k: int): (r: seq<T>)
    ensures |r| <= |s|
  {
    if s == [] then []
    else if key(s[0]) == k then [s[0]] + WithKey(s[1..], key, k)
    else WithKey(s[1..], key, k)
  }

  /** `x` placed in front of the first element of `s` whose key is not
    * smaller than its own. */
  function Insert<T>(x: T, s: seq<T>, key: T -> int): (r: seq<T>)
    ensures multiset(r) == multiset(s) + multiset{x}
    ensures |r| == |s| + 1
  {
    if s == [] || key(x) <= key(s[0]) then [x] + s
    else
      assert s == [s[0]] + s[1..];
      [s[0]] + Insert(x, s[1..], key)
  }

  /** The stably sorted copy of `s`. */
  function SortBy<T>(s: seq<T>, key: T -> int): (r: seq<T>)
    ensures multiset(r) == multiset(s)
    ensures |r| == |s|
  {
    if s == [] then []
    else
      assert s == [s[0]] + s[1..];
      Insert(s[0], SortBy(s[1..], key), key)
  }

  /** Every key in `s` is at least `b`. */
  predicate KeysAtLeast<T>(s: seq<T>, key: T -> int, b: int)
  {
    forall i :: 0 <= i < |s| ==> b <= key(s[i])
  }

  lemma {:induction false} InsertKeysAtLeast<T>(x: T, s: seq<T>, key: T -> int, b: int)
    requires KeysAtLeast(s, key, b) && b <= key(x)
    ensures KeysAtLeast(Insert(x, s, key), key, b)
    decreases |s|
  {
    if s != [] && key(x) > key(s[0]) {
      InsertKeysAtLeast(x, s[1..], key, b);
    }
  }

  lemma {:induction false} InsertSorted<T>(x: T, s: seq<T>, key: T -> int)
    requires SortedBy(s, key)
    ensures SortedBy(Insert(x, s, key), key)
    decreases |s|
  {
    if s != [] && key(x) > key(s[0]) {
      InsertSorted(x, s[1..], key);
      InsertKeysAtLeast(x, s[1..], key, key(s[0]));
      var r := Insert(x, s[1..], key);
      assert KeysAtLeast(r, key, key(s[0]));
      var q := [s[0]] + r;
      forall i, j | 0 <= i < j < |q| ensures key(q[i]) <= key(q[j]) {
        assert q[j] == r[j - 1];
        if i > 0 { assert q[i] == r[i - 1]; }
      }
    }
  }

  /** The sorted copy is ordered by the key. */
  lemma {:induction false} SortBySorted<T>(s: seq<T>, key: T -> int)
    ensures SortedBy(SortBy(s, key), key)
  {
    if s != [] {
      SortBySorted(s[1..], key);
      InsertSorted(s[0], SortBy(s[1..], key), key);
    }
  }

  lemma {:induction false} InsertWithKey<T>(x: T, s: seq<T>, key: T -> int, k: int)
    requires SortedBy(s, key)
    ensures WithKey(Insert(x, s, key), key, k) ==
      if key(x) == k then [x] + WithKey(s, key, k) else WithKey(s, key, k)
    decreases |s|
  {
    if s == [] || key(x) <= key(s[0]) {
      assert ([x] + s)[1..] == s;
    } else {
      InsertWithKey(x, s[1..], key, k);
      assert ([s[0]] + Insert(x, s[1..], key))[1..] == Insert(x, s[1..], key);
      // s[0] has a key below key(x), so the filter for key(x) skips it
      assert key(x) == k ==> key(s[0]) != k;
    }
  }

  /** Stability: among elements with the same key, the sorted copy keeps
    * their order in the input. */
  lemma {:induction false} SortByStable<T>(s: seq<T>, key: T -> int, k: int)
    ensures WithKey(SortBy(s, key), key, k) == WithKey(s, key, k)
  {
    if s != [] {
      SortByStable(s[1..], key, k);
      SortBySorted(s[1..], key);
      InsertWithKey(s[0], SortBy(s[1..], key), key, k);
    }
  }

  /** Reversed order of `key`: `(a, b) => key(b) - key(a)`. */
  function Negated<T>(key: T -> int): T -> int
  {
    x => -key(x)
  }

  /** A descending sort is ordered from the largest key down. */
  lemma SortDescending<T>(s: seq<T>, key: T -> int)
    ensures forall i, j :: 0 <= i < j < |SortBy(s, Negated(key))| ==>
      key(SortBy(s, Negated(key))[i]) >= key(SortBy(s, Negated(key))[j])
  {
    SortBySorted(s, Negated(key));
  }

  /** The first `n` of an ordering of `s` from the largest key down are its
    * `n` newest entries: taken from `s`, and no entry left out has a larger
    * key than one kept. */
  lemma NewestPrefix<T>(s: seq<T>, sorted: seq<T>, key: T -> int, n: nat)
    requires n <= |sorted| && multiset(sorted) == multiset(s)
    requires forall i, j :: 0 <= i < j < |sorted| ==> key(sorted[i]) >= key(sorted[j])
    ensures multiset(sorted[..n]) <= multiset(s)
    ensures forall x, i :: x in multiset(s) - multiset(sorted[..n]) && 0 <= i < n ==>
      key(x) <= key(sorted[i])
  {
    var rest := sorted[n..];
    assert sorted == sorted[..n] + rest;
    assert multiset(sorted) == multiset(sorted[..n]) + multiset(rest);
    forall x, i | x in multiset(s) - multiset(sorted[..n]) && 0 <= i < n
      ensures key(x) <= key(sorted[i])
    {
      assert x in rest;
      var k :| 0 <= k < |rest| && rest[k] == x;
      assert sorted[n + k] == x;
    }
  }

  /** The first `n` of `s` sorted by a descending `key`: ordered from the
    * largest key down, taken from `s`, and no entry left out has a larger
    * key than one kept. */
  lemma DescendingTop<T>(s: seq<T>, sorted: seq<T>, key: T -> int, n: nat)
    requires n <= |s| && sorted == SortBy(s, Negated(key))
    ensures multiset(sorted[..n]) <= multiset(s)
    ensures forall i, j :: 0 <= i < j < n ==> key(sorted[i]) >= key(sorted[j])
    ensures forall x, i :: x in multiset(s) - multiset(sorted[..n]) && 0 <= i < n ==>
      key(x) <= key(sorted[i])
  {
    SortDescending(s, key);
    NewestPrefix(s, sorted, key, n);
  }

  /** `sort((a, b) => key(b) - key(a)).slice(0, n)`: the `n` entries of `s`
    * with the largest keys, from the largest down. */
  function Newest<T>(s: seq<T>, key: T -> int, n: nat): (top: seq<T>)
    ensures |top| == if n <= |s| then n else |s|
    ensures multiset(top) <= multiset(s)
    ensures forall i, j :: 0 <= i < j < |top| ==> key(top[i]) >= key(top[j])
    ensures forall x, i :: x in multiset(s) - multiset(top) && 0 <= i < |top| ==> key(x) <= key(top[i])
  {
    var m := if n <= |s| then n else |s|;
    DescendingTop(s, SortBy(s, Negated(key)), key, m);
    SortBy(s, Negated(key))[..m]
  }
}
