/** The JavaScript `Map` the reducer uses: entries keyed by value, iterated
    in the order their keys were first inserted. */
module OrderedMaps {
  import opened Wrappers

  /** The value of a map: its keys in insertion order and its entries. */
  datatype Table<K(==, !new), V> = Table(keys: seq<K>, entries: map<K, V>) {

    /** Each key listed once, and exactly the keys that have entries. */
    ghost predicate Valid() {
      && (forall i, j :: 0 <= i < j < |keys| ==> keys[i] != keys[j])
      && (forall k :: k in entries <==> k in keys)
    }

    /** `map.get(k)`. */
    function Get(k: K): (r: Option<V>)
      ensures r.Some? <==> k in entries
      ensures r.Some? ==> r.value == entries[k]
    {
      if k in entries then Some(entries[k]) else None
    }

    /** `map.set(k, v)`: a new key goes to the end of the order, an existing
        key keeps its place and only its value changes. */
    function Set(k: K, v: V): (t: Table<K, V>)
      ensures Valid() ==> t.Valid()
      ensures t.Get(k) == Some(v)
      ensures forall k' :: k' != k ==> t.Get(k') == Get(k')
      ensures k in entries ==> t.keys == keys
      ensures k !in entries ==> t.keys == keys + [k]
    {
      Table(if k in entries then keys else keys + [k], entries[k := v])
    }

    /** `map.values()`: one value per key, in key order. */
    function Values(): (vs: seq<V>)
      requires Valid()
      ensures |vs| == |keys|
      ensures forall i :: 0 <= i < |keys| ==> vs[i] == entries[keys[i]]
    {
      seq(|keys|, i requires 0 <= i < |keys| => entries[keys[i]])
    }
  }

  /** A `Map` object, updated in place. */
  class InsertionMap<K(==, !new), V> {
    var keys: seq<K>
    var entries: map<K, V>

    function Model(): Table<K, V>
      reads this
    {
      Table(keys, entries)
    }

    ghost predicate Valid()
      reads this
    {
      Model().Valid()
    }

    /** `new Map()`. */
    constructor ()
      ensures Valid() && Model() == Table([], map[])
    {
      keys := [];
      entries := map[];
    }

    method Get(k: K) returns (r: Option<V>)
      ensures r == Model().Get(k)
    {
      if k in entries {
        r := Some(entries[k]);
      } else {
        r := None;
      }
    }

    method Set(k: K, v: V)
      modifies this
      ensures Model() == old(Model()).Set(k, v)
      ensures old(Valid()) ==> Valid()
    {
      if k !in entries {
        keys := keys + [k];
      }
      entries := entries[k := v];
    }

    /** `Array.from(map.values())`. */
    method Values() returns (vs: seq<V>)
      requires Valid()
      ensures |vs| == |keys|
      ensures forall i :: 0 <= i < |keys| ==> vs[i] == entries[keys[i]]
    {
      vs := Model().Values();
    }
  }
}
