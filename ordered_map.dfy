/**
 * Python dicts keyed by strings whose values are not JSON: the insertion
 * order of the keys and the value stored under each.
 */
module OrderedMap {
  /** `order` lists the keys in insertion order; `values` holds one value per key. */
  datatype OMap<V> = OMap(order: seq<string>, values: map<string, V>)

  ghost predicate Distinct(s: seq<string>) {
    forall i, j :: 0 <= i < j < |s| ==> s[i] != s[j]
  }

  ghost predicate Valid<V>(m: OMap<V>) {
    && Distinct(m.order)
    && (forall k :: k in m.values <==> k in m.order)
  }

  function Empty<V>(): (r: OMap<V>)
    ensures Valid(r)
  {
    OMap([], map[])
  }

  /** Stores `v` under `k`: an existing key keeps its place, a new key goes last. */
  function Put<V>(m: OMap<V>, k: string, v: V): (r: OMap<V>)
    ensures r.values == m.values[k := v]
    ensures k in m.values ==> r.order == m.order
    ensures k !in m.values ==> r.order == m.order + [k]
  {
    if k in m.values then OMap(m.order, m.values[k := v]) else OMap(m.order + [k], m.values[k := v])
  }

  lemma PutValid<V>(m: OMap<V>, k: string, v: V)
    requires Valid(m)
    ensures Valid(Put(m, k, v))
  {
  }

  /** The keys of `s` other than `k`, in order. */
  function Without(s: seq<string>, k: string): (r: seq<string>)
    ensures forall x :: x in r <==> x in s && x != k
    ensures |r| <= |s|
    decreases |s|
  {
    if s == [] then []
    else if s[|s| - 1] == k then Without(s[..|s| - 1], k)
    else Without(s[..|s| - 1], k) + [s[|s| - 1]]
  }

  lemma {:induction false} WithoutDistinct(s: seq<string>, k: string)
    requires Distinct(s)
    ensures Distinct(Without(s, k))
    decreases |s|
  {
    if s != [] {
      var init, x := s[..|s| - 1], s[|s| - 1];
      assert Distinct(init) by {
        forall i, j | 0 <= i < j < |init| ensures init[i] != init[j] {
          assert init[i] == s[i] && init[j] == s[j];
        }
      }
      WithoutDistinct(init, k);
      var w := Without(init, k);
      if x != k {
        assert x !in init by {
          forall i | 0 <= i < |init| ensures init[i] != x {
            assert init[i] == s[i];
          }
        }
        var r := w + [x];
        forall i, j | 0 <= i < j < |r| ensures r[i] != r[j] {
          if j == |w| {
            assert r[i] == w[i] && w[i] in w;
          } else {
            assert r[i] == w[i] && r[j] == w[j];
          }
        }
      }
    }
  }

  /** Drops `k` if present: the key and its value are gone, the other keys keep their order. */
  function Remove<V>(m: OMap<V>, k: string): (r: OMap<V>)
    ensures r.values == m.values - {k}
    ensures r.order == Without(m.order, k)
  {
    OMap(Without(m.order, k), m.values - {k})
  }

  lemma RemoveValid<V>(m: OMap<V>, k: string)
    requires Valid(m)
    ensures Valid(Remove(m, k))
  {
    WithoutDistinct(m.order, k);
  }

  /**
   * `acc` followed by each element of `xs` that is not already present,
   * once, in the order of its first occurrence: what a loop appending each
   * unseen element produces, and the key order a dict gets from assigning
   * the keys `xs` in turn.
   */
  function AppendNew(acc: seq<string>, xs: seq<string>): seq<string>
    decreases |xs|
  {
    if xs == [] then acc
    else
      var r := AppendNew(acc, xs[..|xs| - 1]);
      if xs[|xs| - 1] in r then r else r + [xs[|xs| - 1]]
  }

  lemma DistinctAppend(s: seq<string>, x: string)
    requires Distinct(s) && x !in s
    ensures Distinct(s + [x])
  {
    var r := s + [x];
    forall i, j | 0 <= i < j < |r| ensures r[i] != r[j] {
      if j == |s| {
        assert r[i] == s[i] && s[i] in s;
      } else {
        assert r[i] == s[i] && r[j] == s[j];
      }
    }
  }

  /**
   * `acc` stays in front, the result holds exactly the elements of `acc`
   * and `xs`, each added element comes from `xs`, and no element is added
   * twice.
   */
  lemma {:induction false} AppendNewSpec(acc: seq<string>, xs: seq<string>)
    ensures |acc| <= |AppendNew(acc, xs)| && AppendNew(acc, xs)[..|acc|] == acc
    ensures forall x :: x in AppendNew(acc, xs) <==> x in acc || x in xs
    ensures forall i :: |acc| <= i < |AppendNew(acc, xs)| ==> AppendNew(acc, xs)[i] in xs
    ensures Distinct(acc) ==> Distinct(AppendNew(acc, xs))
    decreases |xs|
  {
    if xs != [] {
      var init, x := xs[..|xs| - 1], xs[|xs| - 1];
      AppendNewSpec(acc, init);
      var r := AppendNew(acc, init);
      assert xs == init + [x];
      assert forall y :: y in init ==> y in xs;
      if x !in r {
        assert (r + [x])[..|acc|] == r[..|acc|];
        if Distinct(acc) {
          DistinctAppend(r, x);
        }
      }
    }
  }

  /**
   * The added elements keep the order of their first occurrences in `xs`:
   * whenever `r[i]` was added before `r[j]`, every occurrence of `r[j]` in
   * `xs` comes after some occurrence of `r[i]`.
   */
  lemma {:induction false} AppendNewOrder(acc: seq<string>, xs: seq<string>)
    ensures var r := AppendNew(acc, xs);
      forall i, j, q :: |acc| <= i < j < |r| && 0 <= q < |xs| && xs[q] == r[j] ==> r[i] in xs[..q]
    decreases |xs|
  {
    if xs != [] {
      var init, x := xs[..|xs| - 1], xs[|xs| - 1];
      AppendNewOrder(acc, init);
      AppendNewSpec(acc, init);
      var r := AppendNew(acc, init);
      var r' := AppendNew(acc, xs);
      forall i, j, q | |acc| <= i < j < |r'| && 0 <= q < |xs| && xs[q] == r'[j]
        ensures r'[i] in xs[..q]
      {
        assert r'[i] == r[i] && r[i] in init;
        if q < |xs| - 1 {
          assert xs[q] == init[q] && init[q] in init;
          assert r'[j] in r;
          assert j < |r| && r'[j] == r[j];
          assert xs[..q] == init[..q];
        } else {
          assert xs[..q] == init;
        }
      }
    }
  }
}
