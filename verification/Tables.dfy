// Keyed rows and the effect of writing several of them in sequence.
module Tables {
  import opened Options

  // Writes row k under key k, leaving a key alone where there is nothing to write.
  function WriteAll<K, V>(table: map<K, V>, keys: seq<K>, rows: seq<Option<V>>): map<K, V>
    requires |keys| == |rows|
  {
    if keys == [] then table
    else
      var last := |keys| - 1;
      var before := WriteAll(table, keys[..last], rows[..last]);
      if rows[last].Some? then before[keys[last] := rows[last].value] else before
  }

  predicate Distinct<K(==)>(keys: seq<K>) {
    forall i, j :: 0 <= i < j < |keys| ==> keys[i] != keys[j]
  }

  lemma WriteOneMore<K, V>(table: map<K, V>, keys: seq<K>, rows: seq<Option<V>>, key: K, row: Option<V>)
    requires |keys| == |rows|
    ensures WriteAll(table, keys + [key], rows + [row])
         == if row.Some? then WriteAll(table, keys, rows)[key := row.value] else WriteAll(table, keys, rows)
  {
    assert (keys + [key])[..|keys|] == keys;
    assert (rows + [row])[..|rows|] == rows;
  }

  lemma {:induction false} WrittenElsewhere<K, V>(table: map<K, V>, keys: seq<K>, rows: seq<Option<V>>, key: K)
    requires |keys| == |rows| && key !in keys
    ensures Lookup(WriteAll(table, keys, rows), key) == Lookup(table, key)
  {
    if keys != [] {
      WrittenElsewhere(table, keys[..|keys| - 1], rows[..|keys| - 1], key);
    }
  }

  lemma {:induction false} WrittenAt<K, V>(table: map<K, V>, keys: seq<K>, rows: seq<Option<V>>, k: nat)
    requires |keys| == |rows| && Distinct(keys) && k < |keys|
    ensures Lookup(WriteAll(table, keys, rows), keys[k])
         == if rows[k].Some? then rows[k] else Lookup(table, keys[k])
  {
    var last := |keys| - 1;
    if k < last {
      WrittenAt(table, keys[..last], rows[..last], k);
    } else {
      WrittenElsewhere(table, keys[..last], rows[..last], keys[k]);
    }
  }

  lemma SameByLookup<K, V>(a: map<K, V>, b: map<K, V>)
    requires forall k :: Lookup(a, k) == Lookup(b, k)
    ensures a == b
  {
    assert forall k :: k in a ==> Lookup(a, k) == Some(a[k]);
    assert forall k :: k in b ==> Lookup(b, k) == Some(b[k]);
    assert a.Keys == b.Keys;
  }
}
