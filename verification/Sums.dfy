/** Adding up the values of a map, and comparing the sizes of sets. */
module Sums {
  lemma SubsetSize<T>(a: set<T>, b: set<T>)
    requires a <= b
    ensures |a| <= |b|
  {
    assert b == a + (b - a);
  }

  ghost function Sum<K(!new)>(m: map<K, int>): int
    decreases |m|
  {
    if m == map[] then 0
    else
      var k :| k in m;
      m[k] + Sum(m - {k})
  }

  lemma {:induction false} SumRemove<K(!new)>(m: map<K, int>, k: K)
    requires k in m
    ensures Sum(m) == m[k] + Sum(m - {k})
    decreases |m|
  {
    var j :| j in m && Sum(m) == m[j] + Sum(m - {j});
    if j != k {
      SumRemove(m - {j}, k);
      SumRemove(m - {k}, j);
      assert m - {j} - {k} == m - {k} - {j};
    }
  }

  /** Setting one value changes the sum by what it changes that value. */
  lemma SumSet<K(!new)>(m: map<K, int>, k: K, x: int)
    ensures Sum(m[k := x]) == Sum(m) + x - if k in m then m[k] else 0
  {
    SumRemove(m[k := x], k);
    assert m[k := x] - {k} == m - {k};
    if k in m {
      SumRemove(m, k);
    } else {
      assert m - {k} == m;
    }
  }

  lemma SumEmpty<K(!new)>()
    ensures Sum<K>(map[]) == 0
  {
  }
}
