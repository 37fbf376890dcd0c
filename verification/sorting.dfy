/**
 * The stable sort that Collections.sort performs, over a Java-style
 * comparator returning a negative, zero or positive int. The model is an
 * insertion sort: each element is placed before the first element it does
 * not compare above, so elements that compare equal keep their order.
 */
module Sorting {

  /** No element compares above its successor. */
  predicate Sorted<T>(s: seq<T>, cmp: (T, T) -> int)
  {
    forall i :: 0 <= i < |s| - 1 ==> cmp(s[i], s[i + 1]) <= 0
  }

  /** The comparator contract Collections.sort relies on, in the part the sort needs. */
  ghost predicate Comparator<T(!new)>(cmp: (T, T) -> int)
  {
    forall x, y :: cmp(x, y) > 0 ==> cmp(y, x) <= 0
  }

  function Insert<T>(x: T, s: seq<T>, cmp: (T, T) -> int): (r: seq<T>)
    ensures multiset(r) == multiset(s) + multiset{x}
    ensures |r| == |s| + 1
  {
    if |s| == 0 || cmp(x, s[0]) <= 0 then [x] + s
    else
      assert s == [s[0]] + s[1..];
      [s[0]] + Insert(x, s[1..], cmp)
  }

  function Sort<T>(s: seq<T>, cmp: (T, T) -> int): (r: seq<T>)
    ensures multiset(r) == multiset(s)
    ensures |r| == |s|
  {
    if |s| == 0 then []
    else
      assert s == [s[0]] + s[1..];
      Insert(s[0], Sort(s[1..], cmp), cmp)
  }

  lemma {:induction false} InsertSorted<T(!new)>(x: T, s: seq<T>, cmp: (T, T) -> int)
    requires Comparator(cmp) && Sorted(s, cmp)
    ensures Sorted(Insert(x, s, cmp), cmp)
  {
    if |s| == 0 || cmp(x, s[0]) <= 0 {
    } else {
      InsertSorted(x, s[1..], cmp);
      var t := Insert(x, s[1..], cmp);
      assert t[0] == x || t[0] == s[1];
    }
  }

  /** Sort orders its input by the comparator. */
  lemma {:induction false} SortSorted<T(!new)>(s: seq<T>, cmp: (T, T) -> int)
    requires Comparator(cmp)
    ensures Sorted(Sort(s, cmp), cmp)
  {
    if |s| > 0 {
      SortSorted(s[1..], cmp);
      InsertSorted(s[0], Sort(s[1..], cmp), cmp);
    }
  }

  /** The elements of s whose key is k, in order. */
  function WithKey<T, K(==)>(s: seq<T>, key: T -> K, k: K): (r: seq<T>)
    ensures |r| <= |s|
    ensures forall x :: x in r ==> x in s && key(x) == k
  {
    if |s| == 0 then []
    else (if key(s[0]) == k then [s[0]] else []) + WithKey(s[1..], key, k)
  }

  lemma WithKeyCons<T, K>(h: T, t: seq<T>, key: T -> K, k: K)
    ensures WithKey([h] + t, key, k) == (if key(h) == k then [h] else []) + WithKey(t, key, k)
  {
    assert ([h] + t)[1..] == t;
  }

  lemma {:induction false} InsertStable<T, K>(x: T, s: seq<T>, cmp: (T, T) -> int, key: T -> K, k: K)
    requires forall y, z :: cmp(y, z) > 0 ==> key(y) != key(z)
    ensures WithKey(Insert(x, s, cmp), key, k)
         == (if key(x) == k then [x] else []) + WithKey(s, key, k)
  {
    if |s| == 0 || cmp(x, s[0]) <= 0 {
      assert Insert(x, s, cmp) == [x] + s;
      WithKeyCons(x, s, key, k);
    } else {
      var t := Insert(x, s[1..], cmp);
      assert Insert(x, s, cmp) == [s[0]] + t;
      assert s == [s[0]] + s[1..];
      InsertStable(x, s[1..], cmp, key, k);
      WithKeyCons(s[0], t, key, k);
      WithKeyCons(s[0], s[1..], key, k);
      var rest := WithKey(s[1..], key, k);
      if key(x) == k {
        assert key(s[0]) != k;
        assert WithKey(t, key, k) == [x] + rest;
        assert WithKey([s[0]] + t, key, k) == [x] + rest;
        assert WithKey(s, key, k) == rest;
      } else {
        assert WithKey(t, key, k) == rest;
      }
    }
  }

  /**
   * Stability: when the comparator only separates elements with different
   * keys, the elements sharing any one key keep their relative order.
   */
  lemma {:induction false} SortStable<T, K>(s: seq<T>, cmp: (T, T) -> int, key: T -> K, k: K)
    requires forall y, z :: cmp(y, z) > 0 ==> key(y) != key(z)
    ensures WithKey(Sort(s, cmp), key, k) == WithKey(s, key, k)
  {
    if |s| > 0 {
      SortStable(s[1..], cmp, key, k);
      InsertStable(s[0], Sort(s[1..], cmp), cmp, key, k);
    }
  }
}
