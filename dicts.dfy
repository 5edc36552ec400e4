/** A JavaScript plain object used as a dictionary: a finite map that also remembers the
    order in which its (string) keys were first inserted, which is the order `Object.keys`,
    `Object.values` and `Object.entries` list them in (for non-integer-like keys). */
module Dicts {
  import opened Common

  datatype Dict<V> = Dict(keys: seq<string>, vals: map<string, V>) {

    /** Keys are listed once each, and the listed keys are exactly the defined ones. */
    ghost predicate Valid() {
      && (forall i, j :: 0 <= i < j < |keys| ==> keys[i] != keys[j])
      && (forall k :: k in vals <==> k in keys)
    }

    /** `obj[k]`, with `undefined` as None. */
    function Get(k: string): Option<V> {
      if k in vals then Some(vals[k]) else None
    }

    /** `{ ...obj, [k]: v }`: an existing key keeps its place, a new key goes last. */
    function Put(k: string, v: V): (d: Dict<V>)
      requires Valid()
      ensures d.Valid()
      ensures d.Get(k) == Some(v)
      ensures d.vals == vals[k := v]
      ensures d.keys == if k in vals then keys else keys + [k]
    {
      Dict(if k in vals then keys else keys + [k], vals[k := v])
    }

    /** `Object.values(obj)`, in key order. */
    function Values(): (vs: seq<V>)
      requires Valid()
      ensures |vs| == |keys|
      ensures forall i :: 0 <= i < |keys| ==> vs[i] == vals[keys[i]]
    {
      seq(|keys|, i requires 0 <= i < |keys| => vals[keys[i]])
    }
  }

  /** `{}` */
  function EmptyDict<V>(): (d: Dict<V>)
    ensures d.Valid() && d.keys == []
    ensures forall k :: d.Get(k) == None
  {
    Dict([], map[])
  }
}
