/** Python dictionaries with string keys. They remember the order in which
    keys were first inserted, so a dictionary is its key list plus the map.
    The operations are `d[k] = v`, `d.setdefault(k, v)` and
    `d.setdefault(k, []).append(x)`. */
module Dicts {

  datatype ODict<V> = ODict(keys: seq<string>, values: map<string, V>) {
    /** Each key is listed once, and the listed keys are the map's keys. */
    ghost predicate Valid() {
      && (forall i, j :: 0 <= i < j < |keys| ==> keys[i] != keys[j])
      && (forall k :: k in values <==> k in keys)
    }
  }

  function Empty<V>(): (d: ODict<V>)
    ensures d.Valid() && d.keys == []
  {
    ODict([], map[])
  }

  /** `d[k] = v`: a new key goes last, an existing key keeps its place. */
  function Put<V>(d: ODict<V>, k: string, v: V): (r: ODict<V>)
    requires d.Valid()
    ensures r.Valid()
    ensures r.values == d.values[k := v]
    ensures k in d.values ==> r.keys == d.keys
    ensures k !in d.values ==> r.keys == d.keys + [k]
  {
    ODict(if k in d.values then d.keys else d.keys + [k], d.values[k := v])
  }

  /** `d.setdefault(k, []).append(x)`. */
  function Append<X>(d: ODict<seq<X>>, k: string, x: X): (r: ODict<seq<X>>)
    requires d.Valid()
    ensures r.Valid()
    ensures k in r.values && r.values[k] == (if k in d.values then d.values[k] else []) + [x]
    ensures forall j :: j != k ==> (j in r.values <==> j in d.values) && (j in d.values ==> r.values[j] == d.values[j])
    ensures k in d.values ==> r.keys == d.keys
    ensures k !in d.values ==> r.keys == d.keys + [k]
  {
    Put(d, k, (if k in d.values then d.values[k] else []) + [x])
  }

  /** `d.setdefault(k, v)`: only a missing key is added. */
  function SetDefault<V>(d: ODict<V>, k: string, v: V): (r: ODict<V>)
    requires d.Valid()
    ensures r.Valid()
    ensures k in d.values ==> r == d
    ensures k !in d.values ==> r.keys == d.keys + [k] && r.values == d.values[k := v]
  {
    if k in d.values then d else Put(d, k, v)
  }

  /** `d[k] = name` followed by `d[k] += suffix` stores `name + suffix`. */
  lemma PutAppend(d: ODict<string>, k: string, name: string, suffix: string)
    requires d.Valid()
    ensures var r := Put(d, k, name); Put(r, k, r.values[k] + suffix) == Put(d, k, name + suffix)
  {
    var r := Put(d, k, name);
    assert r.values[k] == name;
    assert r.values[k := name + suffix] == d.values[k := name + suffix];
  }

  /** `{k: f(values[k]) for k in keys}`. */
  function MapValues<V>(keys: seq<string>, values: map<string, string>, f: string -> V): (r: map<string, V>)
    requires forall k :: k in keys ==> k in values
  {
    map k | k in keys :: f(values[k])
  }

  /** Building that dictionary key by key. */
  lemma MapValuesSnoc<V>(keys: seq<string>, values: map<string, string>, f: string -> V, i: nat)
    requires i < |keys| && forall k :: k in keys ==> k in values
    ensures MapValues(keys[..i], values, f)[keys[i] := f(values[keys[i]])] == MapValues(keys[..i + 1], values, f)
  {
    assert keys[..i + 1] == keys[..i] + [keys[i]];
  }

  /** One step of building `{k: f(src[k]) for k in src}` in the order of `src`. */
  lemma MapValuesPut<V>(src: ODict<string>, f: string -> V, i: nat, d: ODict<V>)
    requires src.Valid() && d.Valid() && i < |src.keys|
    requires d.keys == src.keys[..i] && d.values == MapValues(src.keys[..i], src.values, f)
    ensures var key := src.keys[i]; var r := Put(d, key, f(src.values[key]));
      && r.keys == src.keys[..i + 1]
      && r.values == MapValues(src.keys[..i + 1], src.values, f)
  {
    MapValuesSnoc(src.keys, src.values, f, i);
    assert src.keys[..i + 1] == src.keys[..i] + [src.keys[i]];
    assert src.keys[i] !in src.keys[..i];
  }

  /** The number of items in all the lists of a dictionary of lists. */
  function Total<X>(keys: seq<string>, values: map<string, seq<X>>): nat
    requires forall i :: 0 <= i < |keys| ==> keys[i] in values
  {
    if |keys| == 0 then 0
    else Total(keys[..|keys| - 1], values) + |values[keys[|keys| - 1]]|
  }

  /** The total does not depend on the lists of keys that are not counted. */
  lemma {:induction false} TotalFrame<X>(keys: seq<string>, values: map<string, seq<X>>, k: string, v: seq<X>)
    requires forall i :: 0 <= i < |keys| ==> keys[i] in values && keys[i] != k
    ensures Total(keys, values[k := v]) == Total(keys, values)
  {
    if |keys| > 0 {
      TotalFrame(keys[..|keys| - 1], values, k, v);
    }
  }

  /** Growing one counted list by one item grows the total by one. */
  lemma {:induction false} TotalGrow<X>(keys: seq<string>, values: map<string, seq<X>>, k: string, x: X)
    requires forall i, j :: 0 <= i < j < |keys| ==> keys[i] != keys[j]
    requires forall i :: 0 <= i < |keys| ==> keys[i] in values
    requires k in keys
    ensures Total(keys, values[k := values[k] + [x]]) == Total(keys, values) + 1
  {
    var last := keys[|keys| - 1];
    var init := keys[..|keys| - 1];
    if last == k {
      assert forall i :: 0 <= i < |init| ==> init[i] != k;
      TotalFrame(init, values, k, values[k] + [x]);
    } else {
      assert k in init by {
        var i :| 0 <= i < |keys| && keys[i] == k;
        assert init[i] == k;
      }
      TotalGrow(init, values, k, x);
    }
  }

  /** `setdefault(k, []).append(x)` adds one item to the total. */
  lemma AppendTotal<X>(d: ODict<seq<X>>, k: string, x: X)
    requires d.Valid()
    ensures Total(Append(d, k, x).keys, Append(d, k, x).values) == Total(d.keys, d.values) + 1
  {
    if k in d.values {
      AppendTotalPresent(d, k, x);
    } else {
      AppendTotalNew(d, k, x);
    }
  }

  lemma AppendTotalPresent<X>(d: ODict<seq<X>>, k: string, x: X)
    requires d.Valid() && k in d.values
    ensures Total(Append(d, k, x).keys, Append(d, k, x).values) == Total(d.keys, d.values) + 1
  {
    assert Append(d, k, x) == ODict(d.keys, d.values[k := d.values[k] + [x]]);
    TotalGrow(d.keys, d.values, k, x);
  }

  lemma AppendTotalNew<X>(d: ODict<seq<X>>, k: string, x: X)
    requires d.Valid() && k !in d.values
    ensures Total(Append(d, k, x).keys, Append(d, k, x).values) == Total(d.keys, d.values) + 1
  {
    var empty: seq<X> := [];
    assert empty + [x] == [x];
    var keys, values := d.keys + [k], d.values[k := [x]];
    assert Append(d, k, x) == ODict(keys, values);
    assert keys[..|keys| - 1] == d.keys;
    TotalFrame(d.keys, d.values, k, [x]);
    assert Total(keys, values) == Total(d.keys, values) + |values[k]|;
  }
}
