/**
 * Python's `dict` keeps its keys in insertion order, and the modelled code
 * depends on that order (the new-words file is rewritten in mapping order, due
 * words come out in file order). A `Dict` is therefore the ordered key list
 * together with the mapping itself.
 */
module OrderedDict {
  import opened Seqs

  datatype Dict<K(==,!new), V> = Dict(keys: seq<K>, vals: map<K, V>) {

    /** Every key once, and exactly the keys of the mapping. */
    ghost predicate Valid() {
      Distinct(keys) && (forall k :: k in vals <==> k in keys)
    }

    /** `d[k] = v`: a key already present keeps its place, a new key goes last. */
    function Set(k: K, v: V): (d: Dict<K, V>)
      requires Valid()
      ensures d.Valid()
      ensures d.vals == vals[k := v]
      ensures k in vals ==> d.keys == keys
      ensures k !in vals ==> d.keys == keys + [k]
    {
      if k in vals then Dict(keys, vals[k := v]) else Dict(keys + [k], vals[k := v])
    }

    /** `del d[k]` / `d.pop(k, None)`: the other keys keep their order. */
    function Remove(k: K): (d: Dict<K, V>)
      requires Valid()
      ensures d.Valid()
      ensures d.vals == vals - {k}
      ensures d.keys == Without(keys, k)
    {
      var ks := Without(keys, k);
      assert Distinct(ks) by { WithoutDistinct(keys, k); }
      Dict(ks, vals - {k})
    }
  }

  function Empty<K(==,!new), V>(): (d: Dict<K, V>)
    ensures d.Valid() && d.keys == [] && d.vals == map[]
  {
    Dict([], map[])
  }

  /** Two mappings with the same keys in the same order and the same value under
      each key are the same. */
  lemma SameEntries<K(!new), V>(a: Dict<K, V>, b: Dict<K, V>)
    requires a.Valid() && b.Valid() && a.keys == b.keys
    requires forall k :: k in a.vals ==> a.vals[k] == b.vals[k]
    ensures a == b
  {
    assert a.vals == b.vals;
  }

  lemma {:induction false} WithoutDistinct<K(!new)>(s: seq<K>, x: K)
    requires Distinct(s)
    ensures Distinct(Without(s, x))
    decreases |s|
  {
    if s != [] {
      var p := s[..|s| - 1];
      assert Distinct(p);
      WithoutDistinct(p, x);
      assert s[|s| - 1] !in p;
    }
  }
}
