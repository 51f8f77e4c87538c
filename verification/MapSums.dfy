/** The sum of a finite map's values, which a ledger's grand total is. */
module MapSums {
  ghost function Total<K>(m: map<K, int>): int {
    if m == map[] then 0
    else
      var k :| k in m;
      m[k] + Total(m - {k})
  }

  /** The total does not depend on the order in which the keys are taken. */
  lemma {:induction false} TotalRemove<K>(m: map<K, int>, k: K)
    requires k in m
    ensures Total(m) == m[k] + Total(m - {k})
    decreases |m|
  {
    var j :| j in m && Total(m) == m[j] + Total(m - {j});
    if j != k {
      assert m - {j} - {k} == m - {k} - {j};
      TotalRemove(m - {j}, k);
      TotalRemove(m - {k}, j);
    }
  }

  lemma TotalUpdate<K>(m: map<K, int>, k: K, v: int)
    ensures Total(m[k := v]) == Total(m) + v - if k in m then m[k] else 0
  {
    TotalRemove(m[k := v], k);
    assert m[k := v] - {k} == m - {k};
    if k in m { TotalRemove(m, k); } else { assert m - {k} == m; }
  }

  /** d is added at a key, which counts as 0 if it is not there. */
  function Gain<K>(m: map<K, int>, k: K, d: int): map<K, int> {
    m[k := (if k in m then m[k] else 0) + d]
  }

  /** d moves to key j from key k. */
  function Shift<K>(m: map<K, int>, j: K, k: K, d: int): map<K, int> { Gain(Gain(m, j, d), k, -d) }

  lemma ShiftAt<K>(m: map<K, int>, j: K, k: K, d: int, i: K)
    requires i in m
    ensures i in Shift(m, j, k, d)
    ensures Shift(m, j, k, d)[i] == m[i] + (if i == j then d else 0) - (if i == k then d else 0)
  {
  }

  lemma TotalGain<K>(m: map<K, int>, k: K, d: int)
    ensures Total(Gain(m, k, d)) == Total(m) + d
  {
    TotalUpdate(m, k, (if k in m then m[k] else 0) + d);
  }

  /** Moving between two keys, the same one or not, keeps the total. */
  lemma TotalShift<K>(m: map<K, int>, j: K, k: K, d: int)
    ensures Total(Shift(m, j, k, d)) == Total(m)
  {
    TotalGain(m, j, d);
    TotalGain(Gain(m, j, d), k, -d);
  }

  lemma {:induction false} TotalNonNegative<K>(m: map<K, int>)
    requires forall k :: k in m ==> m[k] >= 0
    ensures Total(m) >= 0
    decreases |m|
  {
    if m != map[] {
      var k :| k in m;
      TotalRemove(m, k);
      TotalNonNegative(m - {k});
    }
  }

  lemma {:induction false} TotalBounded<K>(m: map<K, int>, bound: nat)
    requires forall k :: k in m ==> 0 <= m[k] <= bound
    ensures 0 <= Total(m) <= bound * |m|
    decreases |m|
  {
    if m != map[] {
      var k :| k in m;
      TotalRemove(m, k);
      SizeWithout(m, k);
      TotalBounded(m - {k}, bound);
      Distribute(bound, |m|);
    }
  }

  lemma SizeWithout<K, V>(m: map<K, V>, k: K)
    requires k in m
    ensures |m - {k}| == |m| - 1
  {
    assert (m - {k}).Keys == m.Keys - {k};
  }

  lemma Distribute(b: int, n: int)
    ensures b * n == b * (n - 1) + b
  {
  }
}
