// Sums of the values of a finite map: the model of SQL's SUM over a set of rows.
module MapSums {
  ghost function Sum<K>(m: map<K, int>): int
    decreases |m|
  {
    if m == map[] then 0 else
      var k :| k in m;
      m[k] + Sum(m - {k})
  }

  // The order in which rows are added up does not matter.
  lemma {:induction false} SumPick<K>(m: map<K, int>, k: K)
    requires k in m
    ensures Sum(m) == m[k] + Sum(m - {k})
    decreases |m|
  {
    var j :| j in m && Sum(m) == m[j] + Sum(m - {j});
    if j != k {
      SumPick(m - {j}, k);
      SumPick(m - {k}, j);
      assert m - {j} - {k} == m - {k} - {j};
    }
  }

  lemma SumAdd<K>(m: map<K, int>, k: K, v: int)
    requires k !in m
    ensures Sum(m[k := v]) == Sum(m) + v
  {
    SumPick(m[k := v], k);
    assert m[k := v] - {k} == m;
  }

  lemma SumUpdate<K>(m: map<K, int>, k: K, v: int)
    requires k in m
    ensures Sum(m[k := v]) == Sum(m) - m[k] + v
  {
    SumPick(m[k := v], k);
    SumPick(m, k);
    assert m[k := v] - {k} == m - {k};
  }

  lemma {:induction false} SumMonotone<K>(a: map<K, int>, b: map<K, int>)
    requires a.Keys == b.Keys
    requires forall k :: k in a ==> a[k] <= b[k]
    ensures Sum(a) <= Sum(b)
    decreases |a|
  {
    if a != map[] {
      var k :| k in a;
      SumPick(a, k);
      SumPick(b, k);
      SumMonotone(a - {k}, b - {k});
    }
  }

  // A sum splits when every row splits.
  lemma {:induction false} SumSplit<K>(whole: map<K, int>, a: map<K, int>, b: map<K, int>)
    requires whole.Keys == a.Keys == b.Keys
    requires forall k :: k in whole ==> whole[k] == a[k] + b[k]
    ensures Sum(whole) == Sum(a) + Sum(b)
    decreases |whole|
  {
    if whole != map[] {
      var k :| k in whole;
      SumPick(whole, k);
      SumPick(a, k);
      SumPick(b, k);
      SumSplit(whole - {k}, a - {k}, b - {k});
    }
  }

  lemma {:induction false} SumZero<K>(m: map<K, int>)
    requires forall k :: k in m ==> m[k] == 0
    ensures Sum(m) == 0
    decreases |m|
  {
    if m != map[] {
      var k :| k in m;
      SumPick(m, k);
      SumZero(m - {k});
    }
  }

  // With no negative row, one row is at most the whole.
  lemma SumAtLeast<K>(m: map<K, int>, k: K)
    requires k in m
    requires forall j :: j in m ==> m[j] >= 0
    ensures m[k] <= Sum(m)
  {
    SumPick(m, k);
    SumMonotone(map j | j in (m - {k}) :: 0, m - {k});
    SumZero(map j | j in (m - {k}) :: 0);
  }
}
