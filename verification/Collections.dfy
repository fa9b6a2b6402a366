/** What several modules need of optional values, sequences, sets and maps. */
module Collections {

  datatype Option<T> = None | Some(value: T)

  predicate Distinct<T(==)>(s: seq<T>) {
    forall i, j :: 0 <= i < j < |s| ==> s[i] != s[j]
  }

  /** Two sets that differ in one element at most. */
  lemma OneMore<T>(a: set<T>, b: set<T>, x: T)
    requires x !in a && forall y :: y != x ==> (y in b <==> y in a)
    ensures |b| == |a| + (if x in b then 1 else 0)
  {
    if x in b {
      assert b == a + {x};
    } else {
      assert b == a;
    }
  }

  lemma UpdateTwice<K, V>(m: map<K, V>, k: K, v: V, w: V)
    ensures m[k := v][k := w] == m[k := w]
  {}
}
