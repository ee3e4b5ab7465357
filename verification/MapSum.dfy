/** Sums over the values of a finite map. */
module MapSum {

  /** The values at the keys with a property. */
  ghost function SumIf<K>(m: map<K, int>, p: K -> bool): int
    decreases |m|
  {
    if m == map[] then 0
    else
      var k :| k in m;
      (if p(k) then m[k] else 0) + SumIf(m - {k}, p)
  }

  /** The sum may be taken starting with any key. */
  lemma {:induction false} SumFrom<K>(m: map<K, int>, p: K -> bool, k: K)
    requires k in m
    ensures SumIf(m, p) == (if p(k) then m[k] else 0) + SumIf(m - {k}, p)
    decreases |m|
  {
    var j :| j in m && SumIf(m, p) == (if p(j) then m[j] else 0) + SumIf(m - {j}, p);
    if j != k {
      SumFrom(m - {j}, p, k);
      SumFrom(m - {k}, p, j);
      assert m - {j} - {k} == m - {k} - {j};
    }
  }

  function At<K>(m: map<K, int>, k: K): int {
    if k in m then m[k] else 0
  }

  /** Assigning one key changes the sum by the difference. */
  lemma SumIfUpdate<K>(m: map<K, int>, p: K -> bool, k: K, v: int)
    ensures SumIf(m[k := v], p) == SumIf(m, p) + if p(k) then v - At(m, k) else 0
  {
    var m' := m[k := v];
    SumFrom(m', p, k);
    assert m' - {k} == m - {k};
    if k in m {
      SumFrom(m, p, k);
    } else {
      assert m - {k} == m;
    }
  }

  lemma SumIfRemove<K>(m: map<K, int>, p: K -> bool, k: K)
    ensures SumIf(m - {k}, p) == SumIf(m, p) - if p(k) then At(m, k) else 0
  {
    if k in m {
      SumFrom(m, p, k);
    } else {
      assert m - {k} == m;
    }
  }

  /** A property and its complement split the sum. */
  lemma {:induction false} SumIfSplit<K>(m: map<K, int>, p: K -> bool, q: K -> bool, r: K -> bool)
    requires forall k :: r(k) <==> p(k) != q(k)
    requires forall k :: !(p(k) && q(k))
    ensures SumIf(m, p) + SumIf(m, q) == SumIf(m, r)
    decreases |m|
  {
    if m != map[] {
      var k :| k in m;
      SumFrom(m, p, k);
      SumFrom(m, q, k);
      SumFrom(m, r, k);
      SumIfSplit(m - {k}, p, q, r);
    }
  }

  lemma {:induction false} SumNonNegative<K>(m: map<K, int>, p: K -> bool)
    requires forall k | k in m :: m[k] >= 0
    ensures SumIf(m, p) >= 0
    decreases |m|
  {
    if m != map[] {
      var k :| k in m;
      SumFrom(m, p, k);
      SumNonNegative(m - {k}, p);
    }
  }

  lemma {:induction false} SumAtMost<K>(m: map<K, int>, m': map<K, int>, p: K -> bool)
    requires m.Keys == m'.Keys && forall k | k in m :: m[k] <= m'[k]
    ensures SumIf(m, p) <= SumIf(m', p)
    decreases |m|
  {
    if m != map[] {
      var k :| k in m;
      SumFrom(m, p, k);
      SumFrom(m', p, k);
      SumAtMost(m - {k}, m' - {k}, p);
    } else {
      assert m' == map[];
    }
  }

  lemma {:induction false} SumZero<K>(m: map<K, int>, p: K -> bool)
    requires forall k | k in m :: m[k] == 0
    ensures SumIf(m, p) == 0
    decreases |m|
  {
    if m != map[] {
      var k :| k in m;
      SumFrom(m, p, k);
      SumZero(m - {k}, p);
    }
  }

  // All values.

  function Any<K>(): K -> bool { (k: K) => true }

  ghost function Sum<K>(m: map<K, int>): int { SumIf(m, Any()) }

  lemma SumUpdate<K>(m: map<K, int>, k: K, v: int)
    ensures Sum(m[k := v]) == Sum(m) - At(m, k) + v
  {
    SumIfUpdate(m, Any(), k, v);
  }

  lemma SumRemove<K>(m: map<K, int>, k: K)
    ensures Sum(m - {k}) == Sum(m) - At(m, k)
  {
    SumIfRemove(m, Any(), k);
  }
}
