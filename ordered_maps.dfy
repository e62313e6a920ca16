/** Insertion-ordered dictionaries. A JavaScript `Map`, and a plain object whose
    keys are not integer-like, enumerate their keys in order of first
    insertion; assigning to a key that is already present keeps its position. */
module OrderedMaps {
  import opened Seqs

  datatype OMap<K(==,!new), V> = OMap(keys: seq<K>, entries: map<K, V>)
  {
    /** `keys` lists every key of `entries` exactly once. */
    ghost predicate Valid() {
      NoDups(keys) && forall k :: k in entries <==> k in keys
    }

    /** `m[k] = v` / `m.set(k, v)`. */
    function Put(k: K, v: V): (r: OMap<K, V>)
      requires Valid()
      ensures r.Valid()
      ensures r.entries == entries[k := v]
      ensures r.keys == if k in entries then keys else keys + [k]
    {
      if k in entries then OMap(keys, entries[k := v]) else OMap(keys + [k], entries[k := v])
    }

    /** A second assignment to the same key overrides the first and keeps its position. */
    lemma PutPut(k: K, v1: V, v2: V)
      requires Valid()
      ensures Put(k, v1).Put(k, v2) == Put(k, v2)
    {
      assert entries[k := v1][k := v2] == entries[k := v2];
    }
  }

  function Empty<K(==,!new), V>(): (r: OMap<K, V>)
    ensures r.Valid() && r.keys == [] && r.entries == map[]
  {
    OMap([], map[])
  }
}
