/**
  lodash's `_.sortBy(collection, key)`: a stable sort in ascending key order.
  It is modelled as an insertion sort: each element, taken in input order,
  goes after every element already placed whose key is not above its own.
*/
module Sorting {

  /** `lt` is a strict total order on the keys. */
  ghost predicate StrictTotalOrder<K(!new)>(lt: (K, K) -> bool) {
    && (forall a :: !lt(a, a))
    && (forall a, b, c :: lt(a, b) && lt(b, c) ==> lt(a, c))
    && (forall a, b :: a != b ==> lt(a, b) || lt(b, a))
  }

  /** No element's key is below the key of an element before it. */
  predicate Sorted<T, K>(s: seq<T>, key: T -> K, lt: (K, K) -> bool) {
    forall a, b :: 0 <= a < b < |s| ==> !lt(key(s[b]), key(s[a]))
  }

  /** The elements of s whose key is k, in their order in s. */
  function WithKey<T, K(==)>(s: seq<T>, key: T -> K, k: K): seq<T> {
    if |s| == 0 then []
    else WithKey(s[..|s| - 1], key, k) + (if key(s[|s| - 1]) == k then [s[|s| - 1]] else [])
  }

  /** Puts x after the leading run of elements whose key is not above x's. */
  function Insert<T, K>(s: seq<T>, key: T -> K, lt: (K, K) -> bool, x: T): seq<T> {
    if |s| == 0 then [x]
    else if lt(key(x), key(s[0])) then [x] + s
    else [s[0]] + Insert(s[1..], key, lt, x)
  }

  function SortBy<T, K>(s: seq<T>, key: T -> K, lt: (K, K) -> bool): seq<T> {
    if |s| == 0 then []
    else Insert(SortBy(s[..|s| - 1], key, lt), key, lt, s[|s| - 1])
  }

  lemma {:induction false} InsertPermutes<T, K>(s: seq<T>, key: T -> K, lt: (K, K) -> bool, x: T)
    ensures multiset(Insert(s, key, lt, x)) == multiset(s) + multiset{x}
  {
    if |s| > 0 && !lt(key(x), key(s[0])) {
      InsertPermutes(s[1..], key, lt, x);
      assert s == [s[0]] + s[1..];
    }
  }

  lemma {:induction false} InsertSorted<T, K(!new)>(s: seq<T>, key: T -> K, lt: (K, K) -> bool, x: T)
    requires StrictTotalOrder(lt)
    requires Sorted(s, key, lt)
    ensures Sorted(Insert(s, key, lt, x), key, lt)
  {
    if |s| > 0 && !lt(key(x), key(s[0])) {
      InsertSorted(s[1..], key, lt, x);
      InsertPermutes(s[1..], key, lt, x);
      var r := Insert(s[1..], key, lt, x);
      forall b | 0 <= b < |r|
        ensures !lt(key(r[b]), key(s[0]))
      {
        assert r[b] in multiset(r);
        assert r[b] == x || r[b] in s[1..];
      }
    }
  }

  /** Every element after the insertion point has a key above x's. */
  lemma {:induction false} InsertWithKey<T, K>(s: seq<T>, key: T -> K, lt: (K, K) -> bool, x: T, k: K)
    requires forall a :: !lt(a, a)
    requires Sorted(s, key, lt)
    ensures WithKey(Insert(s, key, lt, x), key, k) == WithKey(s, key, k) + (if key(x) == k then [x] else [])
  {
    if |s| == 0 {
      assert Insert(s, key, lt, x) == [] + [x];
    } else if lt(key(x), key(s[0])) {
      InsertFrontWithKey(s, key, lt, x, k);
    } else {
      InsertWithKey(s[1..], key, lt, x, k);
      WithKeyAppend([s[0]], Insert(s[1..], key, lt, x), key, k);
      WithKeyAppend([s[0]], s[1..], key, k);
      assert s == [s[0]] + s[1..];
    }
  }

  /** x goes in front of s: no element of s shares its key. */
  lemma InsertFrontWithKey<T, K>(s: seq<T>, key: T -> K, lt: (K, K) -> bool, x: T, k: K)
    requires forall a :: !lt(a, a)
    requires Sorted(s, key, lt)
    requires |s| > 0 && lt(key(x), key(s[0]))
    ensures WithKey([x] + s, key, k) == WithKey(s, key, k) + (if key(x) == k then [x] else [])
  {
    WithKeyAppend([x], s, key, k);
    if key(x) == k {
      WithKeyNone(s, key, lt, k);
      assert [x][..0] == [];
    }
    assert [x] == [] + [x];
    WithKeyAppend(s, [x], key, k);
    assert WithKey(s + [x], key, k) == WithKey(s, key, k) + WithKey([x], key, k);
  }

  lemma {:induction false} WithKeyAppend<T, K>(a: seq<T>, b: seq<T>, key: T -> K, k: K)
    ensures WithKey(a + b, key, k) == WithKey(a, key, k) + WithKey(b, key, k)
  {
    if |b| > 0 {
      WithKeyAppend(a, b[..|b| - 1], key, k);
      assert (a + b)[..|a + b| - 1] == a + b[..|b| - 1];
    } else {
      assert a + b == a;
    }
  }

  /** In a sorted sequence starting with a key above k, no element has key k. */
  lemma {:induction false} WithKeyNone<T, K>(s: seq<T>, key: T -> K, lt: (K, K) -> bool, k: K)
    requires forall a :: !lt(a, a)
    requires Sorted(s, key, lt)
    requires |s| > 0 ==> lt(k, key(s[0]))
    ensures WithKey(s, key, k) == []
  {
    if |s| > 0 {
      var q := s[..|s| - 1];
      assert |q| > 0 ==> q[0] == s[0];
      WithKeyNone(q, key, lt, k);
      assert key(s[|s| - 1]) != k by {
        if |s| > 1 {
          assert !lt(key(s[|s| - 1]), key(s[0]));
        }
      }
    }
  }

  /** `_.sortBy` returns its input in ascending key order. */
  lemma {:induction false} SortBySorted<T, K(!new)>(s: seq<T>, key: T -> K, lt: (K, K) -> bool)
    requires StrictTotalOrder(lt)
    ensures Sorted(SortBy(s, key, lt), key, lt)
  {
    if |s| > 0 {
      SortBySorted(s[..|s| - 1], key, lt);
      InsertSorted(SortBy(s[..|s| - 1], key, lt), key, lt, s[|s| - 1]);
    }
  }

  /** Sorting rearranges the elements: nothing is lost, added or duplicated. */
  lemma {:induction false} SortByPermutes<T, K>(s: seq<T>, key: T -> K, lt: (K, K) -> bool)
    ensures multiset(SortBy(s, key, lt)) == multiset(s)
  {
    if |s| > 0 {
      SortByPermutes(s[..|s| - 1], key, lt);
      InsertPermutes(SortBy(s[..|s| - 1], key, lt), key, lt, s[|s| - 1]);
      assert s == s[..|s| - 1] + [s[|s| - 1]];
    }
  }

  /** The sort is stable: the elements sharing a key keep their input order. */
  lemma {:induction false} SortByStable<T, K(!new)>(s: seq<T>, key: T -> K, lt: (K, K) -> bool, k: K)
    requires StrictTotalOrder(lt)
    ensures WithKey(SortBy(s, key, lt), key, k) == WithKey(s, key, k)
  {
    if |s| > 0 {
      var q := s[..|s| - 1];
      SortByStable(q, key, lt, k);
      SortBySorted(q, key, lt);
      InsertWithKey(SortBy(q, key, lt), key, lt, s[|s| - 1], k);
    }
  }
}
