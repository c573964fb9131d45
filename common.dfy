/** Small shared vocabulary: optional values, results with an error, and
    the enumeration of a map's values that the dictionary-backed stores
    use for their "find all" operations. */
module Common {

  /** A value that may be missing: NULL, null, None or undefined in the source. */
  datatype Option<+T> = None | Some(value: T)

  /** A value or the error a method would throw. */
  datatype Result<+R, +E> = Success(value: R) | Failure(error: E)

  /** The unit value, for operations that succeed without producing anything. */
  datatype Unit = Unit

  function Min(a: int, b: int): int
  {
    if a <= b then a else b
  }

  /** Lists the values of `m` in some order, each key visited exactly once.
      This is what `Dictionary.Values.ToList()` and `new ArrayList<>(map.values())`
      do; the order of the keys is left open, as the hash tables leave it. */
  method ValuesInSomeOrder<K, V>(m: map<K, V>) returns (r: seq<V>, ghost order: seq<K>)
    ensures |order| == |r| == |m|
    ensures forall i :: 0 <= i < |order| ==> order[i] in m && r[i] == m[order[i]]
    ensures forall i, j :: 0 <= i < j < |order| ==> order[i] != order[j]
    ensures forall k :: k in m ==> k in order
  {
    r, order := [], [];
    var rest := m.Keys;
    while rest != {}
      invariant rest <= m.Keys
      invariant |order| == |r|
      invariant |order| + |rest| == |m|
      invariant forall i :: 0 <= i < |order| ==> order[i] in m && order[i] !in rest && r[i] == m[order[i]]
      invariant forall i, j :: 0 <= i < j < |order| ==> order[i] != order[j]
      invariant forall k :: k in m ==> k in order || k in rest
      decreases |rest|
    {
      var k :| k in rest;
      r, order := r + [m[k]], order + [k];
      rest := rest - {k};
    }
  }
}
