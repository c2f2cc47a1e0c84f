/**
 Sums of a weight over the values of a finite map, taken in no particular order.
 */
module Sums {

  ghost function Pick<K, V>(m: map<K, V>): (k: K)
    requires m != map[]
    ensures k in m
  {
    assert m.Keys != {};
    var k :| k in m; k
  }

  ghost function Sum<K, V>(m: map<K, V>, w: V -> int): int
    decreases m.Keys
  {
    if m == map[] then 0
    else
      var k := Pick(m);
      w(m[k]) + Sum(m - {k}, w)
  }

  /** Any key may be taken out first. */
  lemma {:induction false} SumRemove<K, V>(m: map<K, V>, k: K, w: V -> int)
    requires k in m
    ensures Sum(m, w) == w(m[k]) + Sum(m - {k}, w)
    decreases m.Keys
  {
    var j := Pick(m);
    if j != k {
      SumRemove(m - {j}, k, w);
      SumRemove(m - {k}, j, w);
      assert m - {j} - {k} == m - {k} - {j};
    }
  }

  lemma SumUpdate<K, V>(m: map<K, V>, k: K, v: V, w: V -> int)
    ensures Sum(m[k := v], w) == Sum(m - {k}, w) + w(v)
    ensures Sum(m, w) == Sum(m - {k}, w) + (if k in m then w(m[k]) else 0)
  {
    SumRemove(m[k := v], k, w);
    assert m[k := v] - {k} == m - {k};
    if k in m {
      SumRemove(m, k, w);
    } else {
      assert m - {k} == m;
    }
  }

  lemma {:induction false} SumMonotone<K, V, W>(m: map<K, V>, n: map<K, W>, w: V -> int, u: W -> int)
    requires m.Keys == n.Keys
    requires forall k | k in m :: w(m[k]) <= u(n[k])
    ensures Sum(m, w) <= Sum(n, u)
    decreases m.Keys
  {
    if m != map[] {
      var k := Pick(m);
      assert k in n;
      SumRemove(n, k, u);
      SumMonotone(m - {k}, n - {k}, w, u);
    } else {
      assert n == map[];
    }
  }

  lemma SumCongruent<K, V, W>(m: map<K, V>, n: map<K, W>, w: V -> int, u: W -> int)
    requires m.Keys == n.Keys
    requires forall k | k in m :: w(m[k]) == u(n[k])
    ensures Sum(m, w) == Sum(n, u)
  {
    SumMonotone(m, n, w, u);
    SumMonotone(n, m, u, w);
  }

  lemma {:induction false} SumNonNegative<K, V>(m: map<K, V>, w: V -> int)
    requires forall k | k in m :: 0 <= w(m[k])
    ensures 0 <= Sum(m, w)
    ensures forall k | k in m :: w(m[k]) <= Sum(m, w)
    decreases m.Keys
  {
    forall k | k in m
      ensures 0 <= w(m[k]) <= Sum(m, w)
    {
      SumRemove(m, k, w);
      SumNonNegative(m - {k}, w);
    }
  }

  lemma {:induction false} SumZero<K, V>(m: map<K, V>, w: V -> int)
    requires forall k | k in m :: w(m[k]) == 0
    ensures Sum(m, w) == 0
    decreases m.Keys
  {
    if m == map[] {
    } else {
      SumZero(m - {Pick(m)}, w);
    }
  }
}
