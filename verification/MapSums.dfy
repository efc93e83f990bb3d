/** Sums over the values of finite maps. */
module MapSums {

  ghost function Total<K(!new)>(m: map<K, int>): int {
    if m == map[] then 0
    else
      var k :| k in m;
      m[k] + Total(m - {k})
  }

  /** The sum does not depend on the order in which keys are taken out. */
  lemma {:induction false} TotalRemove<K(!new)>(m: map<K, int>, k: K)
    requires k in m
    ensures Total(m) == m[k] + Total(m - {k})
    decreases |m|
  {
    assert m != map[];
    var first :| first in m && Total(m) == m[first] + Total(m - {first});
    if first != k {
      TotalRemove(m - {first}, k);
      TotalRemove(m - {k}, first);
      assert m - {first} - {k} == m - {k} - {first};
    }
  }

  function Get<K>(m: map<K, int>, k: K): int {
    if k in m then m[k] else 0
  }

  lemma TotalPut<K(!new)>(m: map<K, int>, k: K, v: int)
    ensures Total(m[k := v]) == Total(m) - Get(m, k) + v
  {
    TotalRemove(m[k := v], k);
    if k in m {
      TotalRemove(m, k);
      assert m[k := v] - {k} == m - {k};
    } else {
      assert m[k := v] - {k} == m;
    }
  }

  lemma {:induction false} TotalNonNegative<K(!new)>(m: map<K, int>)
    requires forall k :: k in m ==> m[k] >= 0
    ensures Total(m) >= 0
    decreases |m|
  {
    if m != map[] {
      var k :| k in m;
      TotalRemove(m, k);
      TotalNonNegative(m - {k});
    }
  }

  lemma {:induction false} TotalZeroIff<K(!new)>(m: map<K, int>)
    requires forall k :: k in m ==> m[k] >= 0
    ensures Total(m) == 0 <==> forall k :: k in m ==> m[k] == 0
    decreases |m|
  {
    if m != map[] {
      var k :| k in m;
      TotalRemove(m, k);
      TotalNonNegative(m - {k});
      TotalZeroIff(m - {k});
      assert forall j :: j in m ==> j == k || j in m - {k};
    }
  }

  ghost function Where<K(!new)>(m: map<K, int>, p: K -> bool): map<K, int> {
    map k | k in m && p(k) :: m[k]
  }

  /** Adding to one row moves a filtered sum by that amount if the row passes the filter. */
  lemma TotalWhereAdd<K(!new)>(m: map<K, int>, p: K -> bool, k: K, v: int)
    ensures Total(Where(m[k := Get(m, k) + v], p)) == Total(Where(m, p)) + if p(k) then v else 0
  {
    var m' := m[k := Get(m, k) + v];
    if p(k) {
      assert Where(m', p) == Where(m, p)[k := Get(m, k) + v];
      assert Get(Where(m, p), k) == Get(m, k);
      TotalPut(Where(m, p), k, Get(m, k) + v);
    } else {
      assert Where(m', p) == Where(m, p);
    }
  }

  function Both<K>(p: K -> bool, q: K -> bool): K -> bool {
    (k: K) => p(k) && q(k)
  }

  function Except<K>(p: K -> bool, q: K -> bool): K -> bool {
    (k: K) => p(k) && !q(k)
  }

  /** The rows that pass a filter are those that also pass a second one and those that do not. */
  lemma {:induction false} TotalSplits<K(!new)>(m: map<K, int>, p: K -> bool, q: K -> bool)
    ensures Total(Where(m, p)) == Total(Where(m, Both(p, q))) + Total(Where(m, Except(p, q)))
    decreases |m|
  {
    if m == map[] {
      assert Where(m, p) == Where(m, Both(p, q)) == Where(m, Except(p, q)) == map[];
    } else {
      var k :| k in m;
      TotalSplits(m - {k}, p, q);
      TotalWhereRemove(m, p, k);
      TotalWhereRemove(m, Both(p, q), k);
      TotalWhereRemove(m, Except(p, q), k);
    }
  }

  lemma BothCommutes<K(!new)>(m: map<K, int>, p: K -> bool, q: K -> bool)
    ensures Where(m, Both(p, q)) == Where(m, Both(q, p))
  {
  }

  /** Two filtered sums differ by the rows that pass only one filter. */
  lemma TotalsDiffer<K(!new)>(m: map<K, int>, p: K -> bool, q: K -> bool)
    ensures Total(Where(m, p)) - Total(Where(m, q)) == Total(Where(m, Except(p, q))) - Total(Where(m, Except(q, p)))
  {
    TotalSplits(m, p, q);
    TotalSplits(m, q, p);
    BothCommutes(m, p, q);
  }

  lemma TotalWhereRemove<K(!new)>(m: map<K, int>, p: K -> bool, k: K)
    requires k in m
    ensures Total(Where(m, p)) == Total(Where(m - {k}, p)) + if p(k) then m[k] else 0
  {
    if p(k) {
      TotalRemove(Where(m, p), k);
      assert Where(m, p) - {k} == Where(m - {k}, p);
    } else {
      assert Where(m, p) == Where(m - {k}, p);
    }
  }
}
