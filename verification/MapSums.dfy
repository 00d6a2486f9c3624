/** Sums of the values of a finite map. */
module MapSums {

  ghost function SumMap(m: map<string, int>): int
    decreases |m|
  {
    if m == map[] then 0
    else
      var k :| k in m;
      m[k] + SumMap(m - {k})
  }

  lemma {:induction false} SumRemove(m: map<string, int>, k: string)
    requires k in m
    ensures SumMap(m) == m[k] + SumMap(m - {k})
    decreases |m|
  {
    var c :| c in m && SumMap(m) == m[c] + SumMap(m - {c});
    if c != k {
      SumRemove(m - {c}, k);
      SumRemove(m - {k}, c);
      assert m - {c} - {k} == m - {k} - {c};
    }
  }

  lemma SumUpdate(m: map<string, int>, k: string, v: int)
    ensures SumMap(m[k := v]) == SumMap(m) - (if k in m then m[k] else 0) + v
  {
    SumRemove(m[k := v], k);
    if k in m {
      SumRemove(m, k);
      assert m[k := v] - {k} == m - {k};
    } else {
      assert m[k := v] - {k} == m;
    }
  }

  lemma UnionSplit(a: map<string, int>, b: map<string, int>, k: string)
    requires k in b
    ensures a + b == (a + (b - {k}))[k := b[k]]
  {
  }

  lemma SizeWithout(m: map<string, int>, k: string)
    requires k in m
    ensures (m - {k}).Keys == m.Keys - {k} && |m - {k}| == |m| - 1
  {
    assert |m - {k}| == |(m - {k}).Keys| && |m| == |m.Keys|;
  }

  lemma {:induction false} SumDisjoint(a: map<string, int>, b: map<string, int>)
    requires a.Keys !! b.Keys
    ensures SumMap(a + b) == SumMap(a) + SumMap(b)
    decreases |b|
  {
    if b == map[] {
      assert a + b == a;
    } else {
      var k :| k in b;
      var rest := b - {k};
      SizeWithout(b, k);
      SumDisjoint(a, rest);
      UnionSplit(a, b, k);
      SumUpdate(a + rest, k, b[k]);
      SumRemove(b, k);
    }
  }

  lemma SizeDisjoint(a: map<string, int>, b: map<string, int>)
    requires a.Keys !! b.Keys
    ensures |a + b| == |a| + |b|
  {
    assert (a + b).Keys == a.Keys + b.Keys;
    assert |a + b| == |(a + b).Keys| && |a| == |a.Keys| && |b| == |b.Keys|;
  }

  /** A map whose values are all v sums to its size times v. */
  lemma {:induction false} SumConstant(m: map<string, int>, v: int)
    requires forall k :: k in m ==> m[k] == v
    ensures SumMap(m) == |m| * v
    decreases |m|
  {
    if m != map[] {
      var k :| k in m;
      SumRemove(m, k);
      SumConstant(m - {k}, v);
      SizeWithout(m, k);
    }
  }
}
