/** Facts about an identifier-keyed map, the storage shape every controller
    uses: each entity sits under its own id. */
module Store {

  /** Every entry is stored under the key its own id names. */
  ghost predicate KeyedById<K, V>(m: map<K, V>, id: V -> K) {
    forall k | k in m :: id(m[k]) == k
  }

  /** In such a map no two keys share a value, so `values()` has exactly one
      element per entry. */
  lemma {:induction false} KeyedValuesDistinct<K, V>(m: map<K, V>, id: V -> K)
    requires KeyedById(m, id)
    ensures |m.Values| == |m|
  {
    if |m| > 0 {
      var k :| k in m;
      var rest := m - {k};
      KeyedValuesDistinct(rest, id);
      assert m.Values == rest.Values + {m[k]} by {
        forall v | v in m.Values ensures v in rest.Values + {m[k]} {
          var j :| j in m && m[j] == v;
          if j != k { assert rest[j] == v; }
        }
      }
      assert m[k] !in rest.Values;
    }
  }
}
