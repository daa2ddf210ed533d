/** What SQL's `sum` says about a table: the sum of one number per key. */
module Sums {

  ghost function Pick<K>(m: map<K, int>): (k: K)
    requires m != map[]
    ensures k in m
  {
    var k :| k in m;
    k
  }

  ghost function Sum<K>(m: map<K, int>): int
  {
    if m == map[] then 0 else
    var k := Pick(m);
    assert m.Keys - {k} < m.Keys;
    m[k] + Sum(m - {k})
  }

  /** The sum does not depend on which key is looked at first. */
  lemma {:induction false} SumWithout<K>(m: map<K, int>, k: K)
    requires k in m
    ensures Sum(m) == m[k] + Sum(m - {k})
    decreases |m|
  {
    var first := Pick(m);
    assert (m - {first}).Keys == m.Keys - {first};
    assert (m - {k}).Keys == m.Keys - {k};
    if first != k {
      SumWithout(m - {first}, k);
      SumWithout(m - {k}, first);
      assert m - {first} - {k} == m - {k} - {first};
    }
  }

  lemma SumUpdated<K>(m: map<K, int>, k: K, n: int)
    ensures Sum(m[k := n]) == Sum(m) + n - (if k in m then m[k] else 0)
  {
    SumWithout(m[k := n], k);
    if k in m {
      SumWithout(m, k);
      assert m[k := n] - {k} == m - {k};
    } else {
      assert m[k := n] - {k} == m;
    }
  }

  function Part<K>(m: map<K, int>, keys: set<K>): map<K, int>
    requires keys <= m.Keys
  {
    map k | k in keys :: m[k]
  }

  /** Taking keys out takes exactly their share out. */
  lemma {:induction false} SumSplit<K>(m: map<K, int>, gone: set<K>)
    requires gone <= m.Keys
    ensures Sum(m) == Sum(m - gone) + Sum(Part(m, gone))
    decreases |gone|
  {
    var part := Part(m, gone);
    if gone == {} {
      assert m - gone == m;
    } else {
      var k :| k in gone;
      SumWithout(m, k);
      SumWithout(part, k);
      var rest := gone - {k};
      assert (m - {k}) - rest == m - gone;
      assert part - {k} == Part(m - {k}, rest);
      SumSplit(m - {k}, rest);
    }
  }

  lemma {:induction false} SumIsNonNegative<K>(m: map<K, int>)
    requires forall k :: k in m ==> 0 <= m[k]
    ensures 0 <= Sum(m)
    ensures forall k :: k in m ==> m[k] <= Sum(m)
    decreases |m|
  {
    forall k | k in m
      ensures m[k] <= Sum(m)
    {
      SumWithout(m, k);
      assert (m - {k}).Keys == m.Keys - {k};
      SumIsNonNegative(m - {k});
    }
    if m != map[] {
      assert Pick(m) in m;
    }
  }
}
