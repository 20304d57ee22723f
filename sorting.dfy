/**
 * Python's stable `sorted`/`list.sort` with a key, as an insertion sort,
 * and the fact that makes sorted output independent of input order: two
 * sorted sequences with the same elements and pairwise distinct keys are
 * equal. Also Python's ordering of `str` values (code point by code point).
 */
module Sorting {

  ghost predicate StrictTotalOrder<K(!new)>(lt: (K, K) -> bool) {
    && (forall x :: !lt(x, x))
    && (forall x, y, z :: lt(x, y) && lt(y, z) ==> lt(x, z))
    && (forall x, y :: x != y ==> lt(x, y) || lt(y, x))
  }

  /** No element's key is smaller than the key of an element before it. */
  ghost predicate Sorted<T, K>(s: seq<T>, key: T -> K, lt: (K, K) -> bool) {
    forall i, j :: 0 <= i < j < |s| ==> !lt(key(s[j]), key(s[i]))
  }

  ghost predicate DistinctKeys<T, K>(s: seq<T>, key: T -> K) {
    forall i, j :: 0 <= i < j < |s| ==> key(s[i]) != key(s[j])
  }

  /** Places `x` before the first element whose key is not smaller than its own. */
  function Insert<T, K>(x: T, s: seq<T>, key: T -> K, lt: (K, K) -> bool): seq<T>
    decreases |s|
  {
    if s == [] || !lt(key(s[0]), key(x)) then [x] + s else [s[0]] + Insert(x, s[1..], key, lt)
  }

  /** Sorting by a key, stably: equal keys keep their input order. */
  function SortBy<T, K>(s: seq<T>, key: T -> K, lt: (K, K) -> bool): seq<T>
    decreases |s|
  {
    if s == [] then [] else Insert(s[0], SortBy(s[1..], key, lt), key, lt)
  }

  lemma {:induction false} InsertPermutes<T, K>(x: T, s: seq<T>, key: T -> K, lt: (K, K) -> bool)
    ensures multiset(Insert(x, s, key, lt)) == multiset([x] + s)
    decreases |s|
  {
    if s != [] && lt(key(s[0]), key(x)) {
      InsertPermutes(x, s[1..], key, lt);
      assert s == [s[0]] + s[1..];
    }
  }

  lemma {:induction false} InsertSorted<T, K(!new)>(x: T, s: seq<T>, key: T -> K, lt: (K, K) -> bool)
    requires StrictTotalOrder(lt) && Sorted(s, key, lt)
    ensures Sorted(Insert(x, s, key, lt), key, lt)
    ensures forall y :: y in Insert(x, s, key, lt) ==> y == x || y in s
    decreases |s|
  {
    if s != [] && lt(key(s[0]), key(x)) {
      InsertSorted(x, s[1..], key, lt);
      var r := Insert(x, s, key, lt);
      var t := Insert(x, s[1..], key, lt);
      assert r == [s[0]] + t;
      forall j | 0 < j < |r| ensures !lt(key(r[j]), key(r[0])) {
        assert r[j] in t;
        if r[j] != x {
          var k :| 0 <= k < |s[1..]| && s[1..][k] == r[j];
          assert s[k + 1] == r[j];
        }
      }
    }
  }

  lemma {:induction false} SortByPermutes<T, K>(s: seq<T>, key: T -> K, lt: (K, K) -> bool)
    ensures multiset(SortBy(s, key, lt)) == multiset(s)
    decreases |s|
  {
    if s != [] {
      SortByPermutes(s[1..], key, lt);
      InsertPermutes(s[0], SortBy(s[1..], key, lt), key, lt);
      assert s == [s[0]] + s[1..];
    }
  }

  lemma {:induction false} SortBySorted<T, K(!new)>(s: seq<T>, key: T -> K, lt: (K, K) -> bool)
    requires StrictTotalOrder(lt)
    ensures Sorted(SortBy(s, key, lt), key, lt)
    decreases |s|
  {
    if s != [] {
      SortBySorted(s[1..], key, lt);
      InsertSorted(s[0], SortBy(s[1..], key, lt), key, lt);
    }
  }

  /** Sorted sequences with the same elements and distinct keys are equal. */
  lemma {:induction false} SortedUnique<T, K(!new)>(a: seq<T>, b: seq<T>, key: T -> K, lt: (K, K) -> bool)
    requires StrictTotalOrder(lt)
    requires Sorted(a, key, lt) && Sorted(b, key, lt)
    requires DistinctKeys(a, key)
    requires multiset(a) == multiset(b)
    ensures a == b
    decreases |a|
  {
    assert |a| == |multiset(a)| == |multiset(b)| == |b|;
    if a != [] {
      SortedHeads(a, b, key, lt);
      assert a == [a[0]] + a[1..] && b == [b[0]] + b[1..];
      assert multiset(a[1..]) == multiset(a) - multiset{a[0]};
      assert multiset(b[1..]) == multiset(b) - multiset{b[0]};
      SortedTail(a, key, lt);
      SortedTail(b, key, lt);
      SortedUnique(a[1..], b[1..], key, lt);
    }
  }

  /** The first elements agree: any other element of `a` has a strictly larger key than `a[0]`. */
  lemma SortedHeads<T, K(!new)>(a: seq<T>, b: seq<T>, key: T -> K, lt: (K, K) -> bool)
    requires StrictTotalOrder(lt)
    requires Sorted(a, key, lt) && Sorted(b, key, lt)
    requires DistinctKeys(a, key)
    requires multiset(a) == multiset(b) && a != []
    ensures b != [] && a[0] == b[0]
  {
    assert |a| == |multiset(a)| == |multiset(b)| == |b|;
    assert b[0] in multiset(a);
    var i :| 0 <= i < |a| && a[i] == b[0];
    assert a[0] in multiset(b);
    var j :| 0 <= j < |b| && b[j] == a[0];
    if i != 0 {
      assert false;
    }
  }

  lemma SortedTail<T, K>(a: seq<T>, key: T -> K, lt: (K, K) -> bool)
    requires Sorted(a, key, lt) && a != []
    ensures Sorted(a[1..], key, lt)
    ensures DistinctKeys(a, key) ==> DistinctKeys(a[1..], key)
  {
    assert forall i :: 0 <= i < |a[1..]| ==> a[1..][i] == a[i + 1];
  }

  /**
   * The outcome of a stable key sort does not depend on the input order
   * when no two elements share a key.
   */
  lemma SortByOrderIndependent<T, K(!new)>(s: seq<T>, t: seq<T>, key: T -> K, lt: (K, K) -> bool)
    requires StrictTotalOrder(lt)
    requires multiset(s) == multiset(t)
    requires DistinctKeys(s, key)
    ensures SortBy(s, key, lt) == SortBy(t, key, lt)
  {
    var a, b := SortBy(s, key, lt), SortBy(t, key, lt);
    SortByPermutes(s, key, lt);
    SortByPermutes(t, key, lt);
    SortBySorted(s, key, lt);
    SortBySorted(t, key, lt);
    SortByDistinct(s, key, lt);
    SortedUnique(a, b, key, lt);
  }

  lemma {:induction false} InsertDistinct<T, K>(x: T, s: seq<T>, key: T -> K, lt: (K, K) -> bool)
    requires DistinctKeys(s, key) && forall y :: y in s ==> key(y) != key(x)
    ensures DistinctKeys(Insert(x, s, key, lt), key)
    decreases |s|
  {
    if s != [] && lt(key(s[0]), key(x)) {
      var t := Insert(x, s[1..], key, lt);
      InsertDistinct(x, s[1..], key, lt);
      InsertPermutes(x, s[1..], key, lt);
      var r := [s[0]] + t;
      forall j | 0 < j < |r| ensures key(r[0]) != key(r[j]) {
        assert r[j] in multiset([x] + s[1..]);
        if r[j] != x {
          var k :| 0 <= k < |s[1..]| && s[1..][k] == r[j];
          assert s[k + 1] == r[j];
        }
      }
    }
  }

  lemma {:induction false} SortByDistinct<T, K>(s: seq<T>, key: T -> K, lt: (K, K) -> bool)
    requires DistinctKeys(s, key)
    ensures DistinctKeys(SortBy(s, key, lt), key)
    decreases |s|
  {
    if s != [] {
      var t := SortBy(s[1..], key, lt);
      SortByDistinct(s[1..], key, lt);
      SortByPermutes(s[1..], key, lt);
      forall y | y in t ensures key(y) != key(s[0]) {
        assert y in multiset(s[1..]);
        var k :| 0 <= k < |s[1..]| && s[1..][k] == y;
        assert s[k + 1] == y;
      }
      InsertDistinct(s[0], t, key, lt);
    }
  }

  /** Python's `<` on `str`: code point by code point, a proper prefix first. */
  predicate StrLess(a: string, b: string)
    decreases |a|
  {
    if a == [] then b != []
    else b != [] && (if a[0] == b[0] then StrLess(a[1..], b[1..]) else a[0] < b[0])
  }

  lemma {:induction false} StrLessIrreflexive(a: string)
    ensures !StrLess(a, a)
    decreases |a|
  {
    if a != [] { StrLessIrreflexive(a[1..]); }
  }

  lemma {:induction false} StrLessTransitive(a: string, b: string, c: string)
    requires StrLess(a, b) && StrLess(b, c)
    ensures StrLess(a, c)
    decreases |a|
  {
    if a != [] && a[0] == b[0] && b[0] == c[0] {
      StrLessTransitive(a[1..], b[1..], c[1..]);
    }
  }

  lemma {:induction false} StrLessTotal(a: string, b: string)
    requires a != b
    ensures StrLess(a, b) || StrLess(b, a)
    decreases |a|
  {
    if a != [] && b != [] && a[0] == b[0] {
      assert a[0] == b[0];
      assert a == [a[0]] + a[1..] && b == [b[0]] + b[1..];
      StrLessTotal(a[1..], b[1..]);
    }
  }

  /** A common prefix does not change the order. */
  lemma {:induction false} StrLessCommonPrefix(p: string, a: string, b: string)
    requires StrLess(a, b)
    ensures StrLess(p + a, p + b)
    decreases |p|
  {
    if p == [] {
      assert p + a == a && p + b == b;
    } else {
      assert (p + a)[0] == p[0] == (p + b)[0];
      assert (p + a)[1..] == p[1..] + a && (p + b)[1..] == p[1..] + b;
      StrLessCommonPrefix(p[1..], a, b);
    }
  }

  lemma StrLessIsStrictTotalOrder()
    ensures StrictTotalOrder(StrLess)
  {
    forall x ensures !StrLess(x, x) { StrLessIrreflexive(x); }
    forall x, y, z | StrLess(x, y) && StrLess(y, z) ensures StrLess(x, z) { StrLessTransitive(x, y, z); }
    forall x, y | x != y ensures StrLess(x, y) || StrLess(y, x) { StrLessTotal(x, y); }
  }
}
