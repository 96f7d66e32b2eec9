/** Python's insertion-ordered dictionary, as a key sequence plus a map. */
module ODicts {

  /** `keys` lists every key exactly once, in the order of first insertion. */
  datatype ODict<K(==,!new), V> = ODict(keys: seq<K>, m: map<K, V>) {

    ghost predicate Valid() {
      && (forall i, j :: 0 <= i < j < |keys| ==> keys[i] != keys[j])
      && (forall k :: k in m <==> k in keys)
    }

    /** `d[k] = v`: a new key goes to the end, an existing key keeps its place. */
    function Put(k: K, v: V): (d: ODict<K, V>)
      ensures Valid() ==> d.Valid()
      ensures d.m == m[k := v]
      ensures k in m ==> d.keys == keys
      ensures k !in m ==> d.keys == keys + [k]
    {
      if k in m then ODict(keys, m[k := v]) else ODict(keys + [k], m[k := v])
    }
  }

  function Empty<K(==,!new), V>(): (d: ODict<K, V>)
    ensures d.Valid() && d.keys == [] && d.m == map[]
  {
    ODict([], map[])
  }
}
