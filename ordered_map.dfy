/** An insertion-ordered map with string keys: a JavaScript `Map`, or a plain object
    whose keys are not array indices. Setting an existing key keeps its position. */
module OrderedMaps {

  datatype OMap<V> = OMap(keys: seq<string>, vals: map<string, V>) {

    /** Keys enumerate each entry exactly once. */
    ghost predicate Valid() {
      (forall i, j :: 0 <= i < j < |keys| ==> keys[i] != keys[j]) &&
      (forall k :: k in vals <==> k in keys)
    }

    /** `m.set(k, v)` / `obj[k] = v` */
    function Put(k: string, v: V): (r: OMap<V>)
      ensures r.vals == vals[k := v]
      ensures k in vals ==> r.keys == keys
      ensures k !in vals ==> r.keys == keys + [k]
      ensures Valid() ==> r.Valid()
    {
      OMap(if k in vals then keys else keys + [k], vals[k := v])
    }
  }

  function Empty<V>(): (r: OMap<V>)
    ensures r.Valid() && r.keys == [] && r.vals == map[]
  {
    OMap([], map[])
  }

  /** A sequence with no repeated element. */
  ghost predicate NoDup(s: seq<string>) {
    forall i, j :: 0 <= i < j < |s| ==> s[i] != s[j]
  }
}
