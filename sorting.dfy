/**
 * Stable sorting by an integer key, the behaviour of Python's `list.sort`
 * and `sorted` with a `key` function. Sort is the specification (insertion
 * by key, later elements placed after earlier ones with the same key);
 * SortInPlace is the in-place algorithm, proved to produce exactly Sort.
 */
module Sorting {

  predicate SortedBy<T>(s: seq<T>, key: T -> int)
  {
    forall a, b :: 0 <= a < b < |s| ==> key(s[a]) <= key(s[b])
  }

  /** Places x after every element whose key does not exceed x's key. */
  function Insert<T>(s: seq<T>, x: T, key: T -> int): (r: seq<T>)
    ensures |r| == |s| + 1
  {
    if |s| == 0 || key(s[|s| - 1]) <= key(x) then s + [x]
    else Insert(s[..|s| - 1], x, key) + [s[|s| - 1]]
  }

  function Sort<T>(s: seq<T>, key: T -> int): (r: seq<T>)
    ensures |r| == |s|
  {
    if |s| == 0 then [] else Insert(Sort(s[..|s| - 1], key), s[|s| - 1], key)
  }

  /** The elements with one given key, in their order. */
  function WithKey<T>(s: seq<T>, key: T -> int, k: int): seq<T>
  {
    if |s| == 0 then []
    else WithKey(s[..|s| - 1], key, k) + (if key(s[|s| - 1]) == k then [s[|s| - 1]] else [])
  }

  lemma {:induction false} InsertPermutes<T>(s: seq<T>, x: T, key: T -> int)
    ensures multiset(Insert(s, x, key)) == multiset(s) + multiset{x}
    decreases |s|
  {
    if |s| > 0 && key(s[|s| - 1]) > key(x) {
      var n := |s| - 1;
      InsertPermutes(s[..n], x, key);
      assert s == s[..n] + [s[n]];
    }
  }

  lemma {:induction false} InsertSorted<T>(s: seq<T>, x: T, key: T -> int)
    requires SortedBy(s, key)
    ensures SortedBy(Insert(s, x, key), key)
    decreases |s|
  {
    if |s| > 0 && key(s[|s| - 1]) > key(x) {
      var n := |s| - 1;
      var front := Insert(s[..n], x, key);
      InsertSorted(s[..n], x, key);
      InsertPermutes(s[..n], x, key);
      forall a | 0 <= a < |front| ensures key(front[a]) <= key(s[n]) {
        assert front[a] in multiset(s[..n]) + multiset{x};
        if front[a] != x {
          assert front[a] in s[..n];
        }
      }
    }
  }

  lemma {:induction false} InsertWithKey<T>(s: seq<T>, x: T, key: T -> int, k: int)
    ensures WithKey(Insert(s, x, key), key, k) == WithKey(s, key, k) + (if key(x) == k then [x] else [])
    decreases |s|
  {
    var r := Insert(s, x, key);
    if |s| == 0 || key(s[|s| - 1]) <= key(x) {
      assert r[..|r| - 1] == s;
    } else {
      var n := |s| - 1;
      InsertWithKey(s[..n], x, key, k);
      assert r[..|r| - 1] == Insert(s[..n], x, key);
    }
  }

  /** Sort orders by key. */
  lemma {:induction false} SortSorted<T>(s: seq<T>, key: T -> int)
    ensures SortedBy(Sort(s, key), key)
    decreases |s|
  {
    if |s| > 0 {
      SortSorted(s[..|s| - 1], key);
      InsertSorted(Sort(s[..|s| - 1], key), s[|s| - 1], key);
    }
  }

  /** Sort rearranges its input and neither drops nor adds an element. */
  lemma {:induction false} SortPermutes<T>(s: seq<T>, key: T -> int)
    ensures multiset(Sort(s, key)) == multiset(s)
    decreases |s|
  {
    if |s| > 0 {
      var n := |s| - 1;
      var t := Sort(s[..n], key);
      assert Sort(s, key) == Insert(t, s[n], key);
      SortPermutes(s[..n], key);
      InsertPermutes(t, s[n], key);
      assert multiset(s) == multiset(s[..n]) + multiset{s[n]} by {
        assert s == s[..n] + [s[n]];
      }
    }
  }

  /** Sort is stable: elements with equal keys keep their relative order. */
  lemma {:induction false} SortStable<T>(s: seq<T>, key: T -> int, k: int)
    ensures WithKey(Sort(s, key), key, k) == WithKey(s, key, k)
    decreases |s|
  {
    if |s| > 0 {
      var n := |s| - 1;
      SortStable(s[..n], key, k);
      InsertWithKey(Sort(s[..n], key), s[n], key, k);
    }
  }

  /** Where the shifting loop stops, Insert puts the new element. */
  lemma {:induction false} InsertAt<T>(p: seq<T>, x: T, key: T -> int, j: nat)
    requires j <= |p|
    requires forall k :: j <= k < |p| ==> key(p[k]) > key(x)
    requires j == 0 || key(p[j - 1]) <= key(x)
    ensures Insert(p, x, key) == p[..j] + [x] + p[j..]
    decreases |p|
  {
    if j < |p| {
      var n := |p| - 1;
      InsertAt(p[..n], x, key, j);
      assert p[..n][..j] == p[..j];
      assert p[j..] == p[..n][j..] + [p[n]];
    }
  }

  /** Moves a[i] left past the larger elements before it, shifting them one slot right. */
  method InsertInPlace<T>(a: array<T>, i: nat, key: T -> int)
    requires i < a.Length
    modifies a
    ensures a[..i + 1] == Insert(old(a[..i]), old(a[i]), key)
    ensures forall k :: i < k < a.Length ==> a[k] == old(a[k])
  {
    ghost var p := a[..i];
    var x := a[i];
    var j := i;
    while j > 0 && key(a[j - 1]) > key(x)
      invariant 0 <= j <= i
      invariant forall k :: 0 <= k < j ==> a[k] == p[k]
      invariant forall k :: j < k <= i ==> a[k] == p[k - 1]
      invariant forall k :: j <= k < i ==> key(p[k]) > key(x)
      invariant forall k :: i < k < a.Length ==> a[k] == old(a[k])
    {
      a[j] := a[j - 1];
      j := j - 1;
    }
    a[j] := x;
    InsertAt(p, x, key, j);
    assert a[..i + 1] == p[..j] + [x] + p[j..];
  }

  /** Insertion sort in place: each element in turn is inserted into the sorted prefix. */
  method SortInPlace<T>(a: array<T>, key: T -> int)
    modifies a
    ensures a[..] == Sort(old(a[..]), key)
  {
    ghost var s := a[..];
    for i := 0 to a.Length
      invariant a[..i] == Sort(s[..i], key)
      invariant forall k :: i <= k < a.Length ==> a[k] == s[k]
    {
      InsertInPlace(a, i, key);
      assert s[..i + 1][..i] == s[..i];
    }
    assert s[..a.Length] == s;
  }
}
