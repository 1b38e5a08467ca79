/** Optional values: the source's null pointers, missing keys and "not found" answers; small helpers. */
module Wrappers {
  datatype Option<+T> = None | Some(value: T)

  function Max(a: int, b: int): int { if a >= b then a else b }

  /** Maps that agree everywhere are equal. */
  lemma SameMap<K, V>(f: map<K, V>, g: map<K, V>)
    requires forall x :: (x in f <==> x in g) && (x in f ==> f[x] == g[x])
    ensures f == g
  {
  }

  lemma {:induction false} SubsetSize<T>(a: set<T>, b: set<T>)
    requires a <= b
    ensures |a| <= |b|
    decreases |a|
  {
    if a != {} {
      var x :| x in a;
      SubsetSize(a - {x}, b - {x});
    }
  }
}
