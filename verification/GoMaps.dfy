/** Go maps: an iteration takes the keys in no fixed order. */
module GoMaps {

  /** The next key of an iteration, of those that are still to come. */
  method Next<T>(todo: set<T>) returns (x: T)
    requires todo != {}
    ensures x in todo
  {
    x :| x in todo;
  }

  lemma UpdateSum<K, V>(a: map<K, V>, b: map<K, V>, k: K, x: V)
    ensures (a + b)[k := x] == a + b[k := x]
  {
  }
}
