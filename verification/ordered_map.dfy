/**
 * A JavaScript object used as a dictionary: string-like keys kept in
 * insertion order.  Assigning to an existing key updates it in place;
 * assigning to a new key appends it.  `Object.keys`, `Object.values` and
 * `Object.entries` all follow `keys`.
 */
module OrderedMaps {
  import opened Sums

  datatype OrderedMap<K, V> = OrderedMap(keys: seq<K>, values: map<K, V>) {

    /** Keys are listed once each, and exactly the keys that hold a value are listed. */
    ghost predicate Valid() {
      && (forall i, j :: 0 <= i < j < |keys| ==> keys[i] != keys[j])
      && (forall k :: k in values ==> k in keys)
      && (forall i :: 0 <= i < |keys| ==> keys[i] in values)
    }
  }

  function Empty<K, V>(): (r: OrderedMap<K, V>)
    ensures r.Valid()
  {
    OrderedMap([], map[])
  }

  /** `obj[k] = v`. */
  function Put<K, V>(om: OrderedMap<K, V>, k: K, v: V): (r: OrderedMap<K, V>)
    requires om.Valid()
    ensures r.Valid()
    ensures r.values == om.values[k := v]
    ensures k in om.values ==> r.keys == om.keys
    ensures k !in om.values ==> r.keys == om.keys + [k]
  {
    if k in om.values then OrderedMap(om.keys, om.values[k := v])
    else OrderedMap(om.keys + [k], om.values[k := v])
  }

  /** `Object.values(obj)`. */
  function Values<K, V>(om: OrderedMap<K, V>): (r: seq<V>)
    requires om.Valid()
    ensures |r| == |om.keys|
    ensures forall i :: 0 <= i < |om.keys| ==> r[i] == om.values[om.keys[i]]
  {
    seq(|om.keys|, i requires 0 <= i < |om.keys| => om.values[om.keys[i]])
  }

  /** Summing `Object.values` after `obj[k] = v`: the old value of `k`, if any, is traded for `v`. */
  lemma SumAfterPut<K, V>(om: OrderedMap<K, V>, k: K, v: V, f: V -> real)
    requires om.Valid()
    ensures SumBy(Values(Put(om, k, v)), f)
            == SumBy(Values(om), f) - (if k in om.values then f(om.values[k]) else 0.0) + f(v)
  {
    var r := Put(om, k, v);
    if k in om.values {
      var i :| 0 <= i < |om.keys| && om.keys[i] == k;
      assert Values(r) == Values(om)[i := v];
      SumByUpdate(Values(om), i, v, f);
    } else {
      assert Values(r) == Values(om) + [v];
      SumByAppend(Values(om), [v], f);
      assert [v][..0] == [];
    }
  }
}
