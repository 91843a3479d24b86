/** Facts about finite collections that several models use. */
module Collections {

  ghost predicate Distinct(s: seq<int>) {
    forall i, j :: 0 <= i < j < |s| ==> s[i] != s[j]
  }

  lemma SubsetSize<T>(a: set<T>, b: set<T>)
    requires a <= b
    ensures |a| <= |b| && (a < b ==> |a| < |b|)
  {
    assert b == a + (b - a);
    assert a < b ==> b - a != {};
  }

  lemma SomeKey<K, V>(m: map<K, V>)
    requires m != map[]
    ensures exists k :: k in m
  {
    assert m.Keys == {} ==> m == map[];
  }

  lemma Associative<T>(p: seq<T>, q: seq<T>, r: seq<T>)
    ensures (p + q) + r == p + (q + r)
  {
  }
}
