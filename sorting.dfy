/** Stable sorting by a real-valued key, as Python's `list.sort(key=...)` and `sorted` do. */
module Sorting {

  predicate SortedBy<T>(s: seq<T>, key: T -> real)
  {
    forall i, j :: 0 <= i < j < |s| ==> key(s[i]) <= key(s[j])
  }

  /** Inserts `x` after every element whose key is at most `key(x)`; this keeps ties in arrival order. */
  function Insert<T>(x: T, s: seq<T>, key: T -> real): (r: seq<T>)
    requires SortedBy(s, key)
    ensures |r| == |s| + 1
    ensures SortedBy(r, key)
    ensures multiset(r) == multiset(s) + multiset{x}
    decreases |s|
  {
    if s == [] then [x]
    else if key(s[|s| - 1]) <= key(x) then s + [x]
    else
      var init := s[..|s| - 1];
      assert s == init + [s[|s| - 1]];
      var last := s[|s| - 1];
      var r' := Insert(x, init, key);
      assert forall k :: 0 <= k < |r'| ==> key(r'[k]) <= key(last) by {
        forall k | 0 <= k < |r'| ensures key(r'[k]) <= key(last) {
          assert r'[k] in multiset(r');
          if r'[k] != x {
            assert r'[k] in multiset(init);
            var m :| 0 <= m < |init| && init[m] == r'[k];
            assert s[m] == init[m];
          }
        }
      }
      r' + [last]
  }

  /** Insertion sort: the result is ordered by `key` and is a permutation of `s`. */
  function SortBy<T>(s: seq<T>, key: T -> real): (r: seq<T>)
    ensures |r| == |s|
    ensures SortedBy(r, key)
    ensures multiset(r) == multiset(s)
    decreases |s|
  {
    if s == [] then []
    else
      var init := s[..|s| - 1];
      assert s == init + [s[|s| - 1]];
      Insert(s[|s| - 1], SortBy(init, key), key)
  }

  /** The elements of `s` whose key is `v`, in their order in `s`. */
  function WithKey<T>(s: seq<T>, key: T -> real, v: real): seq<T>
    decreases |s|
  {
    if s == [] then []
    else WithKey(s[..|s| - 1], key, v) + (if key(s[|s| - 1]) == v then [s[|s| - 1]] else [])
  }

  lemma {:induction false} WithKeyAppend<T>(a: seq<T>, b: seq<T>, key: T -> real, v: real)
    ensures WithKey(a + b, key, v) == WithKey(a, key, v) + WithKey(b, key, v)
    decreases |b|
  {
    if b == [] {
      assert a + b == a;
    } else {
      var b' := b[..|b| - 1];
      assert (a + b)[..|a + b| - 1] == a + b';
      WithKeyAppend(a, b', key, v);
    }
  }

  /** The elements with key `v` of `s` followed by one more element. */
  lemma WithKeySnoc<T>(s: seq<T>, y: T, key: T -> real, v: real)
    ensures WithKey(s + [y], key, v) == WithKey(s, key, v) + (if key(y) == v then [y] else [])
  {
    assert (s + [y])[..|s|] == s;
  }

  /** Inserting `x` places it after every element with the same key. */
  lemma {:induction false} InsertIsStable<T>(x: T, s: seq<T>, key: T -> real, v: real)
    requires SortedBy(s, key)
    ensures WithKey(Insert(x, s, key), key, v) == WithKey(s, key, v) + (if key(x) == v then [x] else [])
    decreases |s|
  {
    if s == [] {
      WithKeySnoc([], x, key, v);
      assert [] + [x] == [x];
    } else if key(s[|s| - 1]) <= key(x) {
      assert Insert(x, s, key) == s + [x];
      WithKeySnoc(s, x, key, v);
    } else {
      var init, last := s[..|s| - 1], s[|s| - 1];
      InsertIsStable(x, init, key, v);
      InsertBeforeLast(x, s, key, v);
    }
  }

  /** The step of `InsertIsStable` where `x` goes in before the last element, whose key is larger. */
  lemma InsertBeforeLast<T>(x: T, s: seq<T>, key: T -> real, v: real)
    requires SortedBy(s, key) && s != [] && key(x) < key(s[|s| - 1])
    requires WithKey(Insert(x, s[..|s| - 1], key), key, v) == WithKey(s[..|s| - 1], key, v) + (if key(x) == v then [x] else [])
    ensures WithKey(Insert(x, s, key), key, v) == WithKey(s, key, v) + (if key(x) == v then [x] else [])
  {
    var init, last := s[..|s| - 1], s[|s| - 1];
    var r := Insert(x, init, key);
    assert Insert(x, s, key) == r + [last];
    WithKeySnoc(r, last, key, v);
    assert s == init + [last];
    WithKeySnoc(init, last, key, v);
    if key(x) == v {
      assert key(last) != v;
      assert WithKey(s, key, v) == WithKey(init, key, v) + [];
      assert WithKey(r + [last], key, v) == WithKey(r, key, v) + [];
    } else {
      assert WithKey(r, key, v) == WithKey(init, key, v) + [];
    }
  }

  /** Sorting is stable: the elements that share a key keep their relative order. */
  lemma {:induction false} SortIsStable<T>(s: seq<T>, key: T -> real, v: real)
    ensures WithKey(SortBy(s, key), key, v) == WithKey(s, key, v)
    decreases |s|
  {
    if s != [] {
      var init := s[..|s| - 1];
      SortIsStable(init, key, v);
      InsertIsStable(s[|s| - 1], SortBy(init, key), key, v);
    }
  }

  /** Sorting keeps exactly the elements it was given. */
  lemma SortKeepsMembers<T>(s: seq<T>, key: T -> real)
    ensures forall x :: x in SortBy(s, key) <==> x in s
  {
    forall x
      ensures x in SortBy(s, key) <==> x in s
    {
      assert x in SortBy(s, key) <==> x in multiset(SortBy(s, key));
      assert x in s <==> x in multiset(s);
    }
  }

  /** In a sorted sequence every element lies between the first and the last. */
  lemma SortedBounds<T>(s: seq<T>, key: T -> real, k: int)
    requires SortedBy(s, key) && 0 <= k < |s|
    ensures key(s[0]) <= key(s[k]) <= key(s[|s| - 1])
  {
  }
}
