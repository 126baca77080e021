/** Sums over finite maps. */
module Sums {

  ghost function Sum<K>(m: map<K, int>): int
    decreases |m|
  {
    if |m| == 0 then 0 else
      WithoutKey(m, Pick(m));
      m[Pick(m)] + Sum(m - {Pick(m)})
  }

  ghost function Pick<K>(m: map<K, int>): (k: K)
    requires |m| != 0
    ensures k in m
  {
    var k :| k in m;
    k
  }

  lemma WithoutKey<K>(m: map<K, int>, k: K)
    requires k in m
    ensures |m - {k}| == |m| - 1
  {
    assert (m - {k}).Keys == m.Keys - {k};
  }

  lemma WithoutBoth<K>(m: map<K, int>, j: K, k: K)
    ensures (m - {j}) - {k} == (m - {k}) - {j}
  {
  }

  /** The order in which a map is summed does not matter. */
  lemma {:induction false} SumRemove<K>(m: map<K, int>, k: K)
    requires k in m
    ensures Sum(m) == m[k] + Sum(m - {k})
    decreases |m|
  {
    WithoutKey(m, k);
    var j := Pick(m);
    if j != k {
      WithoutKey(m, j);
      SumRemove(m - {j}, k);
      SumRemove(m - {k}, j);
      WithoutBoth(m, j, k);
    }
  }

  lemma SumUpdate<K>(m: map<K, int>, k: K, v: int)
    ensures Sum(m[k := v]) == Sum(m) + v - (if k in m then m[k] else 0)
  {
    var r := m[k := v];
    SumRemove(r, k);
    assert r - {k} == m - {k};
    if k in m {
      SumRemove(m, k);
    } else {
      assert m - {k} == m;
    }
  }
}
