/** Sums over the values of a table. */
module MapSums {

  ghost function Total<K>(m: map<K, nat>): nat {
    if m == map[] then 0
    else
      var k :| k in m;
      m[k] + Total(m - {k})
  }

  /** The sum does not depend on the order in which the table is walked. */
  lemma {:induction false} TotalAt<K>(m: map<K, nat>, k: K)
    requires k in m
    ensures Total(m) == m[k] + Total(m - {k})
    decreases |m|
  {
    var j :| j in m && Total(m) == m[j] + Total(m - {j});
    if j != k {
      TotalAt(m - {j}, k);
      TotalAt(m - {k}, j);
      assert m - {j} - {k} == m - {k} - {j};
    }
  }

  lemma TotalUpdate<K>(m: map<K, nat>, k: K, value: nat)
    ensures Total(m[k := value]) == Total(m - {k}) + value
    ensures k !in m ==> m - {k} == m
  {
    TotalAt(m[k := value], k);
    assert m[k := value] - {k} == m - {k};
  }

  lemma {:induction false} TotalOfPart<K>(part: map<K, nat>, whole: map<K, nat>)
    requires part.Keys <= whole.Keys && forall k :: k in part ==> part[k] == whole[k]
    ensures Total(part) <= Total(whole)
    decreases |whole|
  {
    if whole != map[] {
      var k :| k in whole;
      TotalAt(whole, k);
      if k in part {
        TotalAt(part, k);
      } else {
        assert part - {k} == part;
      }
      TotalOfPart(part - {k}, whole - {k});
    }
  }
}
