/** Totals over finite maps, the model's reading of SQL's `COALESCE(SUM(size), 0)`. */
module Sums {

  ghost function Sum<K>(m: map<K, nat>): nat
  {
    if m == map[] then 0
    else
      var k :| k in m;
      m[k] + Sum(m - {k})
  }

  /** The total does not depend on which key is taken first. */
  lemma {:induction false} SumRemove<K>(m: map<K, nat>, k: K)
    requires k in m
    ensures Sum(m) == m[k] + Sum(m - {k})
    decreases |m|
  {
    var j :| j in m && Sum(m) == m[j] + Sum(m - {j});
    if j != k {
      SumRemove(m - {j}, k);
      SumRemove(m - {k}, j);
      assert m - {j} - {k} == m - {k} - {j};
    }
  }

  lemma SumInsert<K>(m: map<K, nat>, k: K, v: nat)
    requires k !in m
    ensures Sum(m[k := v]) == Sum(m) + v
  {
    SumRemove(m[k := v], k);
    assert m[k := v] - {k} == m;
  }

  lemma SumSingle<K>(k: K, v: nat)
    ensures Sum(map[k := v]) == v
  {
    SumRemove(map[k := v], k);
    assert map[k := v] - {k} == map[];
  }

  lemma {:induction false} SumMonotone<K>(a: map<K, nat>, b: map<K, nat>)
    requires a.Keys <= b.Keys
    requires forall k :: k in a ==> a[k] <= b[k]
    ensures Sum(a) <= Sum(b)
    decreases |a|
  {
    if a != map[] {
      var k :| k in a;
      SumRemove(a, k);
      SumRemove(b, k);
      SumMonotone(a - {k}, b - {k});
    }
  }

  function Restrict<K, V>(m: map<K, V>, s: set<K>): map<K, V>
  {
    map k | k in m && k in s :: m[k]
  }

  /** Deleting a set of rows releases exactly the total of those rows. */
  lemma {:induction false} SumSplit<K>(m: map<K, nat>, s: set<K>)
    ensures Sum(m) == Sum(m - s) + Sum(Restrict(m, s))
    decreases |m|
  {
    if m == map[] {
      assert m - s == map[] && Restrict(m, s) == map[];
    } else {
      var k :| k in m;
      SumRemove(m, k);
      SumSplit(m - {k}, s);
      SplitAt(m, s, k);
      if k in s {
        SumRemove(Restrict(m, s), k);
      } else {
        SumRemove(m - s, k);
      }
    }
  }

  lemma SplitAt<K>(m: map<K, nat>, s: set<K>, k: K)
    requires k in m
    ensures k in s ==> Restrict(m, s) - {k} == Restrict(m - {k}, s) && m - {k} - s == m - s
    ensures k !in s ==> m - s - {k} == m - {k} - s && Restrict(m - {k}, s) == Restrict(m, s)
  {
  }

  /** The total of a union of disjoint maps. */
  lemma SumUnion<K>(a: map<K, nat>, b: map<K, nat>)
    requires a.Keys !! b.Keys
    ensures Sum(a + b) == Sum(a) + Sum(b)
  {
    SumSplit(a + b, b.Keys);
    assert (a + b) - b.Keys == a;
    assert Restrict(a + b, b.Keys) == b;
  }

  /** `SELECT COALESCE(SUM(size), 0)` read row by row. */
  method Total<K(==)>(m: map<K, nat>) returns (t: nat)
    ensures t == Sum(m)
  {
    t := 0;
    var rest := m;
    while rest != map[]
      invariant t + Sum(rest) == Sum(m)
      decreases |rest|
    {
      var k :| k in rest;
      SumRemove(rest, k);
      t := t + rest[k];
      rest := rest - {k};
    }
  }
}
