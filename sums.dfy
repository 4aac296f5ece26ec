/** Sums over the rows of a table (a finite map), the basis of the order-total and stock
    invariants. */
module Sums {

  /** Some element of a non-empty set, the row a sum takes first. */
  ghost function Pick<K>(s: set<K>): (k: K)
    requires s != {}
    ensures k in s
  {
    var k :| k in s; k
  }

  /** Σ f(m[k]) over the keys of `m`. */
  ghost function SumMap<K, V>(m: map<K, V>, f: V -> int): int
    decreases |m|
  {
    if m == map[] then 0
    else
      var k := Pick(m.Keys);
      assert (m - {k}).Keys == m.Keys - {k};
      f(m[k]) + SumMap(m - {k}, f)
  }

  /** The rows of `m` whose keys lie in `s`. */
  function Restrict<K, V>(m: map<K, V>, s: set<K>): (r: map<K, V>)
    ensures r.Keys == m.Keys * s
    ensures forall k :: k in r ==> r[k] == m[k]
  {
    map k | k in m && k in s :: m[k]
  }

  /** Any row can be taken out of the sum first. */
  lemma {:induction false} SumRemove<K, V>(m: map<K, V>, k: K, f: V -> int)
    requires k in m
    ensures SumMap(m, f) == f(m[k]) + SumMap(m - {k}, f)
    decreases |m|
  {
    var j := Pick(m.Keys);
    if j != k {
      var mj := m - {j};
      var mk := m - {k};
      assert mj.Keys == m.Keys - {j};
      assert mk.Keys == m.Keys - {k};
      SumRemove(mj, k, f);
      SumRemove(mk, j, f);
      assert mj - {k} == mk - {j};
    }
  }

  /** Inserting a fresh row adds its value. */
  lemma SumInsert<K, V>(m: map<K, V>, k: K, v: V, f: V -> int)
    requires k !in m
    ensures SumMap(m[k := v], f) == f(v) + SumMap(m, f)
  {
    SumRemove(m[k := v], k, f);
    assert m[k := v] - {k} == m;
  }

  /** Overwriting a row replaces its value in the sum. */
  lemma SumUpdate<K, V>(m: map<K, V>, k: K, v: V, f: V -> int)
    requires k in m
    ensures SumMap(m[k := v], f) == SumMap(m, f) - f(m[k]) + f(v)
  {
    SumRemove(m, k, f);
    SumRemove(m[k := v], k, f);
    assert m[k := v] - {k} == m - {k};
  }

  /** Rows that all contribute nothing sum to nothing. */
  lemma {:induction false} SumZero<K, V>(m: map<K, V>, f: V -> int)
    requires forall k :: k in m ==> f(m[k]) == 0
    ensures SumMap(m, f) == 0
    decreases |m|
  {
    if m != map[] {
      var k := Pick(m.Keys);
      SumRemove(m, k, f);
      assert (m - {k}).Keys == m.Keys - {k};
      SumZero(m - {k}, f);
    }
  }

  /** Splitting a table by a key set splits its sum. */
  lemma {:induction false} SumPartition<K, V>(m: map<K, V>, s: set<K>, f: V -> int)
    ensures SumMap(m, f) == SumMap(Restrict(m, s), f) + SumMap(m - s, f)
    decreases |m|
  {
    if m == map[] {
      assert Restrict(m, s) == map[];
      assert m - s == map[];
    } else {
      var k := Pick(m.Keys);
      var rest := m - {k};
      assert rest.Keys == m.Keys - {k};
      SumRemove(m, k, f);
      SumPartition(rest, s, f);
      PartitionStep(m, s, f, k);
    }
  }

  /** Taking one row out of a table takes it out of exactly one side of the split. */
  lemma PartitionStep<K, V>(m: map<K, V>, s: set<K>, f: V -> int, k: K)
    requires k in m
    ensures SumMap(Restrict(m, s), f) + SumMap(m - s, f)
      == f(m[k]) + SumMap(Restrict(m - {k}, s), f) + SumMap((m - {k}) - s, f)
  {
    var rest := m - {k};
    if k in s {
      SumRemove(Restrict(m, s), k, f);
      assert Restrict(m, s) - {k} == Restrict(rest, s);
      assert m - s == rest - s;
    } else {
      SumRemove(m - s, k, f);
      assert (m - s) - {k} == rest - s;
      assert Restrict(m, s) == Restrict(rest, s);
    }
  }
}
