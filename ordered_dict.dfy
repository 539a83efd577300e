/**
  A Python `dict` keyed by strings: insertion-ordered, and assigning to a key
  that is already present replaces its value but keeps its position.
 */
module OrderedDicts {

  datatype Dict<V> = Dict(keys: seq<string>, entries: map<string, V>) {
    /** The keys are listed once each, and they are exactly the mapped keys. */
    ghost predicate Valid()
    {
      && (forall i, j :: 0 <= i < |keys| && 0 <= j < |keys| && i != j ==> keys[i] != keys[j])
      && (forall k :: k in entries <==> k in keys)
    }
  }

  /** `{}` */
  function Empty<V>(): (d: Dict<V>)
    ensures d.Valid() && d.keys == [] && d.entries == map[]
  {
    Dict([], map[])
  }

  /** `d[k] = v` */
  function Put<V>(d: Dict<V>, k: string, v: V): (r: Dict<V>)
    ensures r.entries == d.entries[k := v]
    ensures r.keys == if k in d.entries then d.keys else d.keys + [k]
  {
    Dict(if k in d.entries then d.keys else d.keys + [k], d.entries[k := v])
  }

  /** Assignment keeps a dictionary well formed. */
  lemma PutValid<V>(d: Dict<V>, k: string, v: V)
    requires d.Valid()
    ensures Put(d, k, v).Valid()
  {
  }

  /** `list(d.items())` */
  function Items<V>(d: Dict<V>): (r: seq<(string, V)>)
    requires d.Valid()
    ensures |r| == |d.keys|
    ensures forall i :: 0 <= i < |r| ==> r[i] == (d.keys[i], d.entries[d.keys[i]])
  {
    seq(|d.keys|, i requires 0 <= i < |d.keys| => (d.keys[i], d.entries[d.keys[i]]))
  }

  /** A dictionary has no items exactly when it maps no key. */
  lemma ItemsEmptyIffNoEntries<V>(d: Dict<V>)
    requires d.Valid()
    ensures Items(d) == [] <==> d.entries == map[]
  {
    if d.keys != [] {
      assert d.keys[0] in d.entries;
    }
  }

  /** Inserting a new key appends exactly one item, at the end. */
  lemma ItemsPutFresh<V>(d: Dict<V>, k: string, v: V)
    requires d.Valid() && k !in d.entries
    ensures Put(d, k, v).Valid() && Items(Put(d, k, v)) == Items(d) + [(k, v)]
  {
    var r := Put(d, k, v);
    PutValid(d, k, v);
    forall i | 0 <= i < |d.keys|
      ensures Items(r)[i] == Items(d)[i]
    {
      assert d.keys[i] != k;
    }
  }

  /** Two distinct keys inserted into `{}` come out as two items, in insertion order. */
  lemma ItemsOfTwo<V>(k1: string, v1: V, k2: string, v2: V)
    requires k1 != k2
    ensures Put(Put(Empty(), k1, v1), k2, v2).Valid()
    ensures Items(Put(Put(Empty(), k1, v1), k2, v2)) == [(k1, v1), (k2, v2)]
  {
    var d1 := Put(Empty(), k1, v1);
    PutValid(Empty(), k1, v1);
    var d2 := Put(d1, k2, v2);
    PutValid(d1, k2, v2);
    assert d2.keys == [k1, k2];
    var r := Items(d2);
    assert r[0] == (k1, v1) && r[1] == (k2, v2);
  }

  /** Three distinct keys bound to one value in `{}` are listed in insertion order. */
  lemma PutThreeFresh<V>(k1: string, k2: string, k3: string, v: V)
    requires k1 != k2 && k1 != k3 && k2 != k3
    ensures var d := Put(Put(Put(Empty(), k1, v), k2, v), k3, v);
      d.keys == [k1, k2, k3] && d.entries == map[k1 := v, k2 := v, k3 := v]
  {
    var d1 := Put(Empty(), k1, v);
    assert d1.keys == [k1];
    var d2 := Put(d1, k2, v);
    assert d2.keys == [k1, k2];
  }

  /** `for k in ks: d[k] = v`, every key bound to the same value. */
  function PutAll<V>(d: Dict<V>, ks: seq<string>, v: V): (r: Dict<V>)
    ensures d.keys <= r.keys
    decreases |ks|
  {
    if ks == [] then d else PutAll(Put(d, ks[0], v), ks[1..], v)
  }

  /**
    After binding `ks` to `v`, the mapped keys are the old ones and `ks`, each
    of `ks` maps to `v`, and every other key keeps its value.
   */
  lemma {:induction false} PutAllEntries<V>(d: Dict<V>, ks: seq<string>, v: V)
    ensures var r := PutAll(d, ks, v);
      && (forall k :: k in r.entries <==> k in d.entries || k in ks)
      && (forall k :: k in ks ==> r.entries[k] == v)
      && (forall k :: k in d.entries && k !in ks ==> r.entries[k] == d.entries[k])
    decreases |ks|
  {
    if ks != [] {
      assert ks == [ks[0]] + ks[1..];
      PutAllEntries(Put(d, ks[0], v), ks[1..], v);
    }
  }

  /** Binding keys one after another keeps a dictionary well formed. */
  lemma {:induction false} PutAllValid<V>(d: Dict<V>, ks: seq<string>, v: V)
    requires d.Valid()
    ensures PutAll(d, ks, v).Valid()
    decreases |ks|
  {
    if ks != [] {
      PutValid(d, ks[0], v);
      PutAllValid(Put(d, ks[0], v), ks[1..], v);
    }
  }

  /** Binding two keys is two `Put`s, in order. */
  lemma PutAllPair<V>(d: Dict<V>, k1: string, k2: string, v: V)
    ensures PutAll(d, [k1, k2], v) == Put(Put(d, k1, v), k2, v)
  {
    var d1 := Put(d, k1, v);
    assert PutAll(d1, [k2], v) == Put(d1, k2, v) by {
      assert [k2][0] == k2 && [k2][1..] == [];
    }
    assert PutAll(d, [k1, k2], v) == PutAll(d1, [k2], v) by {
      assert [k1, k2][0] == k1 && [k1, k2][1..] == [k2];
    }
  }

  /** Binding one more key is one more `Put` after the others. */
  lemma {:induction false} PutAllAppend<V>(d: Dict<V>, ks: seq<string>, k: string, v: V)
    ensures PutAll(d, ks + [k], v) == Put(PutAll(d, ks, v), k, v)
    decreases |ks|
  {
    if ks == [] {
      assert ks + [k] == [k];
      assert [k][1..] == [];
    } else {
      assert (ks + [k])[0] == ks[0];
      assert (ks + [k])[1..] == ks[1..] + [k];
      PutAllAppend(Put(d, ks[0], v), ks[1..], k, v);
    }
  }
}
