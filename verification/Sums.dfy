/** Weighted sums over finite maps, and how one write moves them. */
module Sums {

  type Weight<!K, !V> = (K, V) -> nat

  /** The weight of every entry added up. */
  ghost function Sum<K(!new), V(!new)>(m: map<K, V>, w: Weight<K, V>): nat
    decreases |m|
  {
    if m == map[] then 0 else
      var k :| k in m;
      w(k, m[k]) + Sum(m - {k}, w)
  }

  /** The weight of one entry, zero when it is missing. */
  ghost function At<K, V>(m: map<K, V>, k: K, w: Weight<K, V>): nat {
    if k in m then w(k, m[k]) else 0
  }

  lemma {:induction false} SumRemove<K(!new), V(!new)>(m: map<K, V>, k: K, w: Weight<K, V>)
    ensures Sum(m, w) == At(m, k, w) + Sum(m - {k}, w)
    decreases |m|
  {
    if k !in m {
      assert m - {k} == m;
    } else {
      var j :| j in m && Sum(m, w) == w(j, m[j]) + Sum(m - {j}, w);
      if j != k {
        SumRemove(m - {j}, k, w);
        SumRemove(m - {k}, j, w);
        assert m - {j} - {k} == m - {k} - {j};
      }
    }
  }

  lemma SumSet<K(!new), V(!new)>(m: map<K, V>, k: K, v: V, w: Weight<K, V>)
    ensures Sum(m[k := v], w) + At(m, k, w) == Sum(m, w) + w(k, v)
  {
    SumRemove(m[k := v], k, w);
    SumRemove(m, k, w);
    assert m[k := v] - {k} == m - {k};
  }

  lemma {:induction false} SumOfZeros<K(!new), V(!new)>(m: map<K, V>, w: Weight<K, V>)
    requires forall k :: k in m ==> w(k, m[k]) == 0
    ensures Sum(m, w) == 0
    decreases |m|
  {
    if m != map[] {
      var k :| k in m && Sum(m, w) == w(k, m[k]) + Sum(m - {k}, w);
      SumOfZeros(m - {k}, w);
    }
  }

  /** Sums add up entry by entry. */
  lemma {:induction false} SumSplits<K(!new), V(!new)>(m: map<K, V>, w: Weight<K, V>, a: Weight<K, V>, b: Weight<K, V>)
    requires forall k, v :: w(k, v) == a(k, v) + b(k, v)
    ensures Sum(m, w) == Sum(m, a) + Sum(m, b)
    decreases |m|
  {
    if m != map[] {
      var k :| k in m;
      SumRemove(m, k, w);
      SumRemove(m, k, a);
      SumRemove(m, k, b);
      SumSplits(m - {k}, w, a, b);
    }
  }

  /** Maps that agree wherever weight can sit have the same sum. */
  lemma {:induction false} SumAgrees<K(!new), V(!new)>(m: map<K, V>, n: map<K, V>, w: Weight<K, V>)
    requires forall k :: At(m, k, w) == At(n, k, w)
    ensures Sum(m, w) == Sum(n, w)
    decreases |m|
  {
    if m == map[] {
      forall k | k in n ensures w(k, n[k]) == 0 {
        assert At(m, k, w) == At(n, k, w);
      }
      SumOfZeros(n, w);
    } else {
      var k :| k in m;
      SumRemove(m, k, w);
      SumRemove(n, k, w);
      forall j
        ensures At(m - {k}, j, w) == At(n - {k}, j, w)
      {
        assert At(m, j, w) == At(n, j, w);
      }
      SumAgrees(m - {k}, n - {k}, w);
    }
  }

  /** A lighter weight gives a smaller sum. */
  lemma {:induction false} SumMonotone<K(!new), V(!new)>(m: map<K, V>, a: Weight<K, V>, b: Weight<K, V>)
    requires forall k, v :: a(k, v) <= b(k, v)
    ensures Sum(m, a) <= Sum(m, b)
    decreases |m|
  {
    if m != map[] {
      var k :| k in m;
      SumRemove(m, k, a);
      SumRemove(m, k, b);
      SumMonotone(m - {k}, a, b);
    }
  }
}
