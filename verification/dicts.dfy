/** Python's `dict` with string keys: a finite map that remembers the order in
    which keys were first inserted (the order `keys()` and `items()` report). */
module Dicts {
  import opened Seqs

  datatype DictRep<V> = DictRep(keys: seq<string>, entries: map<string, V>)
  {
    /** The key order lists every key of the map exactly once. */
    predicate Valid() {
      && Distinct(keys)
      && (forall k :: k in keys ==> k in entries)
      && (forall k :: k in entries ==> k in keys)
    }
  }

  type Dict<V> = d: DictRep<V> | d.Valid() witness DictRep([], map[])

  function Empty<V>(): (d: Dict<V>)
    ensures d.keys == [] && d.entries == map[]
  {
    DictRep([], map[])
  }

  /** `d[k] = v`: the value is replaced; a new key goes to the end of the order,
      an existing key keeps its place. */
  function Put<V>(d: Dict<V>, k: string, v: V): (r: Dict<V>)
    ensures r.entries == d.entries[k := v]
    ensures r.keys == if k in d.entries then d.keys else d.keys + [k]
  {
    if k in d.entries then DictRep(d.keys, d.entries[k := v])
    else
      var r := DictRep(d.keys + [k], d.entries[k := v]);
      assert r.Valid();
      r
  }

  /** Insertion order: a dict filled by assigning the keys of `s` one after another
      lists its keys in the order of their first assignment. */
  lemma PutKeepsFirstOrder<V>(d: Dict<V>, s: seq<string>, k: string, v: V)
    requires d.keys == Dedup(s)
    ensures Put(d, k, v).keys == Dedup(s + [k])
  {
    DedupSnoc(s, k);
  }

  /** `list(d.items())`: the (key, value) pairs in key order. */
  function Items<V>(d: Dict<V>): (r: seq<(string, V)>)
    ensures |r| == |d.keys|
    ensures forall i :: 0 <= i < |r| ==> r[i].0 == d.keys[i] && r[i].1 == d.entries[d.keys[i]]
  {
    seq(|d.keys|, i requires 0 <= i < |d.keys| => (d.keys[i], d.entries[d.keys[i]]))
  }
}
