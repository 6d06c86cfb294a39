/** Writing a sequence of key/value pairs into a map one after the other, as
    `m[keys[i]] = vals[i]` does in a loop over a message's entries. */
module MapUpdates {

  /** True when position `i` holds the last occurrence of its key. */
  predicate LastOccurrence<K(==)>(keys: seq<K>, i: int)
    requires 0 <= i < |keys|
  {
    forall j :: i < j < |keys| ==> keys[j] != keys[i]
  }

  /** `m` after assigning `vals[i]` to `keys[i]` for i = 0, 1, ... in turn.
      The new keys are the old ones plus the written ones; a written key holds
      the value of its last occurrence; every other key keeps its value. */
  function Overwrite<K(==, !new), V>(m: map<K, V>, keys: seq<K>, vals: seq<V>): (r: map<K, V>)
    requires |keys| == |vals|
    ensures forall k :: k in r <==> k in m || k in keys
    ensures forall k :: k in m && k !in keys ==> r[k] == m[k]
    ensures forall i :: 0 <= i < |keys| && LastOccurrence(keys, i) ==> r[keys[i]] == vals[i]
    decreases |keys|
  {
    if |keys| == 0 then m
    else
      var n := |keys| - 1;
      var init := keys[..n];
      var prev := Overwrite(m, init, vals[..n]);
      var r := prev[keys[n] := vals[n]];
      assert forall k :: k in keys <==> k in init || k == keys[n] by {
        assert keys == init + [keys[n]];
      }
      assert forall k :: k in r <==> k in m || k in keys;
      assert forall k :: k in m && k !in keys ==> r[k] == m[k];
      assert forall i :: 0 <= i < |keys| && LastOccurrence(keys, i) ==> r[keys[i]] == vals[i] by {
        forall i | 0 <= i < |keys| && LastOccurrence(keys, i)
          ensures r[keys[i]] == vals[i]
        {
          if i < n {
            assert keys[i] != keys[n];
            assert init[i] == keys[i];
            assert LastOccurrence(init, i);
          }
        }
      }
      r
  }
}
