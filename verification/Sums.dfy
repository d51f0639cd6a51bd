/** Sums over finite maps: the vocabulary in which the ledger's counters are explained. */
module Sums {

  /** The sum of all values of `m`. The order of summation does not matter; see `SumTake`. */
  ghost function Sum<K>(m: map<K, int>): int
    decreases |m|
  {
    if m == map[] then 0 else
      var k :| k in m;
      m[k] + Sum(m - {k})
  }

  function At<K>(m: map<K, int>, k: K): int {
    if k in m then m[k] else 0
  }

  /** Any key may be taken out first. */
  lemma {:induction false} SumTake<K>(m: map<K, int>, k: K)
    requires k in m
    ensures Sum(m) == m[k] + Sum(m - {k})
    decreases |m|
  {
    var j :| j in m && Sum(m) == m[j] + Sum(m - {j});
    if j != k {
      SumTake(m - {j}, k);
      SumTake(m - {k}, j);
      assert m - {j} - {k} == m - {k} - {j};
    }
  }

  /** Writing one key moves the sum by the difference at that key. */
  lemma SumUpdate<K>(m: map<K, int>, k: K, v: int)
    ensures Sum(m[k := v]) == Sum(m) - At(m, k) + v
  {
    SumTake(m[k := v], k);
    if k in m {
      SumTake(m, k);
      assert m[k := v] - {k} == m - {k};
    } else {
      assert m[k := v] - {k} == m;
    }
  }

  lemma {:induction false} SumIsNonnegative<K>(m: map<K, int>)
    requires forall k :: k in m ==> m[k] >= 0
    ensures Sum(m) >= 0
    decreases |m|
  {
    if m != map[] {
      var k :| k in m;
      SumTake(m, k);
      SumIsNonnegative(m - {k});
    }
  }

  /** Summing pointwise sums is summing the sums. */
  lemma {:induction false} SumOfSums<K>(m: map<K, int>, a: map<K, int>, b: map<K, int>)
    requires m.Keys == a.Keys == b.Keys
    requires forall k :: k in m ==> m[k] == a[k] + b[k]
    ensures Sum(m) == Sum(a) + Sum(b)
    decreases |m|
  {
    if m == map[] {
      assert a == map[] && b == map[];
    } else {
      var k :| k in m;
      SumTake(m, k);
      SumTake(a, k);
      SumTake(b, k);
      SumOfSums(m - {k}, a - {k}, b - {k});
    }
  }

  /** A map that is zero off `k` sums to its value at `k`. */
  lemma {:induction false} SumOfSpike<K>(m: map<K, int>, k: K)
    requires forall j :: j in m && j != k ==> m[j] == 0
    ensures Sum(m) == At(m, k)
    decreases |m|
  {
    if k in m {
      SumTake(m, k);
      SumOfSpike(m - {k}, k);
    } else if m != map[] {
      var j :| j in m;
      SumTake(m, j);
      SumOfSpike(m - {j}, k);
    }
  }
}
