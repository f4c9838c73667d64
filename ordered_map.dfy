/** An insertion-ordered dictionary keyed by strings: the behaviour of a
    JavaScript `Map` (and of the own keys of a plain object) that the system
    relies on. Setting an existing key keeps its position; a new key goes to
    the end; iteration follows that order. */
module OrderedMap {
  import opened Wrappers

  datatype Dict<V> = Dict(keys: seq<string>, vals: map<string, V>) {

    /** The keys are distinct and are exactly the keys that have a value. */
    ghost predicate Valid() {
      && (forall i, j :: 0 <= i < j < |keys| ==> keys[i] != keys[j])
      && (forall k :: k in vals <==> k in keys)
    }

    /** `map.get(k)`. */
    function Get(k: string): Option<V> {
      if k in vals then Some(vals[k]) else None
    }

    /** `map.set(k, v)`. */
    function Set(k: string, v: V): (d: Dict<V>)
      requires Valid()
      ensures d.Valid()
      ensures d.vals == vals[k := v]
      ensures k in vals ==> d.keys == keys
      ensures k !in vals ==> d.keys == keys + [k]
    {
      if k in vals then Dict(keys, vals[k := v]) else Dict(keys + [k], vals[k := v])
    }

    /** `Array.from(map.values())`: the values in key order. */
    function Values(): (r: seq<V>)
      requires forall k :: k in keys ==> k in vals
      ensures |r| == |keys|
      ensures forall i :: 0 <= i < |keys| ==> r[i] == vals[keys[i]]
      decreases |keys|
    {
      if |keys| == 0 then []
      else [vals[keys[0]]] + Dict(keys[1..], vals).Values()
    }

    function Size(): nat {
      |keys|
    }
  }

  function Empty<V>(): (d: Dict<V>)
    ensures d.Valid() && d.keys == []
  {
    Dict([], map[])
  }
}
