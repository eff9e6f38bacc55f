/** Sizes of sets and sums of map values. */
module Counting {

  lemma SubsetSize<T>(a: set<T>, b: set<T>)
    requires a <= b
    ensures |a| <= |b|
  {
    assert b == a + (b - a);
  }

  ghost function Sum<K>(m: map<K, int>): int
    decreases m.Keys
  {
    if m == map[] then 0
    else
      var k :| k in m;
      assert (m - {k}).Keys < m.Keys;
      m[k] + Sum(m - {k})
  }

  lemma {:induction false} SumDrop<K>(m: map<K, int>, k: K)
    requires k in m
    ensures Sum(m) == m[k] + Sum(m - {k})
    decreases m.Keys
  {
    var j :| j in m && Sum(m) == m[j] + Sum(m - {j});
    if j != k {
      assert (m - {j}).Keys < m.Keys;
      SumDrop(m - {j}, k);
      assert m - {j} - {k} == m - {k} - {j};
      SumDrop(m - {k}, j);
    }
  }

  lemma SumPut<K>(m: map<K, int>, k: K, v: int)
    ensures Sum(m[k := v]) == Sum(m) - (if k in m then m[k] else 0) + v
  {
    SumDrop(m[k := v], k);
    assert m[k := v] - {k} == m - {k};
    if k in m {
      SumDrop(m, k);
    } else {
      assert m - {k} == m;
    }
  }
}
