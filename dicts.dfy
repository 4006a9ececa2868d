/**
 * Python dicts whose iteration order matters: keys in first-insertion
 * order, each with its current value. Assigning to a present key keeps its
 * position; assigning to a new key appends it.
 */
module Dicts {
  import opened Seqs

  datatype Dict<K(==), V> = Dict(keys: seq<K>, values: map<K, V>)
  {
    /** Keys listed once each, exactly the keys that carry a value. */
    predicate Valid()
    {
      (forall i, j :: 0 <= i < j < |keys| ==> keys[i] != keys[j])
      && (forall k :: k in values ==> k in keys)
      && (forall i :: 0 <= i < |keys| ==> keys[i] in values)
    }

    predicate Has(k: K)
    {
      k in values
    }
  }

  function Empty<K(==), V>(): (d: Dict<K, V>)
    ensures d.Valid() && |d.keys| == 0
  {
    Dict([], map[])
  }

  /** Assigns `v` to `k`: a new key goes last, an existing key keeps its place. */
  function Put<K(==), V>(d: Dict<K, V>, k: K, v: V): (r: Dict<K, V>)
    ensures d.Valid() ==> r.Valid()
    ensures r.values == d.values[k := v]
    ensures r.keys == if k in d.values then d.keys else d.keys + [k]
  {
    if k in d.values then Dict(d.keys, d.values[k := v])
    else Dict(d.keys + [k], d.values[k := v])
  }

  /** A second assignment to a key overrides the first and leaves the key where the first put it. */
  lemma PutPut<K, V>(d: Dict<K, V>, k: K, v: V, w: V)
    requires d.Valid()
    ensures Put(Put(d, k, v), k, w) == Put(d, k, w)
  {
    assert d.values[k := v][k := w] == d.values[k := w];
  }

  /** Assigning a key its own value changes nothing. */
  lemma PutSame<K, V>(d: Dict<K, V>, k: K)
    requires d.Valid() && k in d.values
    ensures Put(d, k, d.values[k]) == d
  {
    assert d.values[k := d.values[k]] == d.values;
  }

  /** A dict whose keys are the distinct keys written so far stays so after one more write. */
  lemma PutKeysDedup<K, V>(d: Dict<K, V>, ks: seq<K>, k: K, v: V)
    requires d.Valid() && d.keys == Dedup(ks)
    ensures Put(d, k, v).keys == Dedup(ks + [k])
  {
    assert (ks + [k])[..|ks|] == ks;
  }

  /** A loop over `ks` that assigns `value(k)` to each key `k` that passes `keep`. */
  function PutEach<K(==), V>(ks: seq<K>, keep: K -> bool, value: K -> V): Dict<K, V>
    decreases |ks|
  {
    if |ks| == 0 then Empty()
    else
      var d := PutEach(ks[..|ks| - 1], keep, value);
      var k := ks[|ks| - 1];
      if keep(k) then Put(d, k, value(k)) else d
  }

  /** The keys kept are exactly those that pass, and each holds its own value. */
  lemma {:induction false} PutEachValues<K, V>(ks: seq<K>, keep: K -> bool, value: K -> V)
    ensures var d := PutEach(ks, keep, value);
      && d.Valid()
      && (forall k :: k in d.values <==> k in ks && keep(k))
      && (forall k :: k in d.values ==> d.values[k] == value(k))
    decreases |ks|
  {
    if |ks| > 0 {
      var init := ks[..|ks| - 1];
      PutEachValues(init, keep, value);
      assert ks == init + [ks[|ks| - 1]];
    }
  }

  /** The keys kept are listed once each, in order of first occurrence. */
  lemma {:induction false} PutEachKeys<K, V>(ks: seq<K>, keep: K -> bool, value: K -> V)
    ensures PutEach(ks, keep, value).keys == Dedup(Filter(ks, keep))
    decreases |ks|
  {
    if |ks| > 0 {
      var init, k := ks[..|ks| - 1], ks[|ks| - 1];
      var d := PutEach(init, keep, value);
      PutEachKeys(init, keep, value);
      assert ks == init + [k];
      DedupFilterSnoc(init, k, keep);
      if keep(k) {
        assert k in d.values <==> k in Filter(init, keep) by {
          PutEachValues(init, keep, value);
          FilterMembers(init, keep, k);
        }
        assert PutEach(ks, keep, value) == Put(d, k, value(k));
      } else {
        assert PutEach(ks, keep, value) == d;
      }
    }
  }

  /** Over keys listed once each, the keys kept are those that pass, in the order listed. */
  lemma {:induction false} PutEachDistinctKeys<K, V>(ks: seq<K>, keep: K -> bool, value: K -> V)
    requires forall i, j :: 0 <= i < j < |ks| ==> ks[i] != ks[j]
    ensures PutEach(ks, keep, value).keys == Filter(ks, keep)
    decreases |ks|
  {
    if |ks| > 0 {
      var init, k := ks[..|ks| - 1], ks[|ks| - 1];
      var d := PutEach(init, keep, value);
      PutEachDistinctKeys(init, keep, value);
      if keep(k) {
        assert k !in d.values by {
          PutEachValues(init, keep, value);
          assert k !in init;
        }
        assert PutEach(ks, keep, value) == Put(d, k, value(k));
      } else {
        assert PutEach(ks, keep, value) == d;
      }
    }
  }

  /** Assign `vs[k]` to each key of `ks` in turn. */
  function PutAll<K(==), V>(a: Dict<K, V>, ks: seq<K>, vs: map<K, V>): (r: Dict<K, V>)
    requires a.Valid() && forall i :: 0 <= i < |ks| ==> ks[i] in vs
    ensures r.Valid()
    ensures forall k :: k in r.values ==> k in a.values || k in ks
    ensures forall k :: k in a.values ==> k in r.values
    ensures forall i :: 0 <= i < |ks| ==> ks[i] in r.values
    decreases |ks|
  {
    if |ks| == 0 then a
    else
      var b := Put(a, ks[0], vs[ks[0]]);
      var tail := ks[1..];
      assert forall i :: 0 <= i < |tail| ==> tail[i] == ks[i + 1];
      assert ks == [ks[0]] + tail;
      PutAll(b, tail, vs)
  }

  /** After the writes, a key holds the last value written to it, or its old value when none was. */
  lemma {:induction false} PutAllAt<K, V>(a: Dict<K, V>, ks: seq<K>, vs: map<K, V>, k: K)
    requires a.Valid() && forall i :: 0 <= i < |ks| ==> ks[i] in vs
    requires k in a.values || k in ks
    ensures k in PutAll(a, ks, vs).values
    ensures PutAll(a, ks, vs).values[k] == if k in ks then vs[k] else a.values[k]
    decreases |ks|
  {
    if |ks| > 0 {
      var b := Put(a, ks[0], vs[ks[0]]);
      assert k in ks <==> k == ks[0] || k in ks[1..];
      PutAllAt(b, ks[1..], vs, k);
    }
  }

  /** The keys of `ks` that carry no value in `m`, in the order of `ks`. */
  function NewKeys<K, V>(ks: seq<K>, m: map<K, V>): (r: seq<K>)
    ensures forall k :: k in r ==> k in ks && k !in m
    ensures forall i :: 0 <= i < |ks| && ks[i] !in m ==> ks[i] in r
    decreases |ks|
  {
    if |ks| == 0 then []
    else (if ks[0] in m then [] else [ks[0]]) + NewKeys(ks[1..], m)
  }

  /** A key that `ks` does not list does not change which of its keys are new. */
  lemma {:induction false} NewKeysOther<K, V>(ks: seq<K>, m: map<K, V>, k: K, v: V)
    requires k !in ks
    ensures NewKeys(ks, m[k := v]) == NewKeys(ks, m)
    decreases |ks|
  {
    if |ks| > 0 {
      NewKeysOther(ks[1..], m, k, v);
    }
  }

  /** The head of a sequence without repeats is not in its tail, which has no repeats either. */
  lemma DistinctTail<K>(ks: seq<K>)
    requires |ks| > 0 && forall i, j :: 0 <= i < j < |ks| ==> ks[i] != ks[j]
    ensures ks[0] !in ks[1..]
    ensures forall i, j :: 0 <= i < j < |ks| - 1 ==> ks[1..][i] != ks[1..][j]
  {
    forall j | 0 <= j < |ks| - 1
      ensures ks[1..][j] != ks[0]
    {
      assert ks[1..][j] == ks[j + 1];
    }
  }

  /** The writes of distinct keys list the old keys, then the new ones in the order written. */
  lemma {:induction false} PutAllKeys<K, V>(a: Dict<K, V>, ks: seq<K>, vs: map<K, V>)
    requires a.Valid() && forall i :: 0 <= i < |ks| ==> ks[i] in vs
    requires forall i, j :: 0 <= i < j < |ks| ==> ks[i] != ks[j]
    ensures PutAll(a, ks, vs).keys == a.keys + NewKeys(ks, a.values)
    decreases |ks|
  {
    if |ks| > 0 {
      var b := Put(a, ks[0], vs[ks[0]]);
      DistinctTail(ks);
      PutAllKeys(b, ks[1..], vs);
      PutKeysStep(a, ks, vs);
    } else {
      assert a.keys + NewKeys(ks, a.values) == a.keys;
    }
  }

  /** One write in front of the rest: the new key, if new, goes between the old keys and the rest's new keys. */
  lemma PutKeysStep<K, V>(a: Dict<K, V>, ks: seq<K>, vs: map<K, V>)
    requires |ks| > 0 && ks[0] in vs && ks[0] !in ks[1..]
    ensures var b := Put(a, ks[0], vs[ks[0]]);
      b.keys + NewKeys(ks[1..], b.values) == a.keys + NewKeys(ks, a.values)
  {
    var k, rest := ks[0], ks[1..];
    var added := if k in a.values then [] else [k];
    var b := Put(a, k, vs[k]);
    assert NewKeys(rest, b.values) == NewKeys(rest, a.values) by {
      NewKeysOther(rest, a.values, k, vs[k]);
    }
    assert NewKeys(ks, a.values) == added + NewKeys(rest, a.values);
    assert b.keys == a.keys + added;
    AppendAssoc(a.keys, added, NewKeys(rest, a.values));
  }

  /** The union of two dicts: `b`'s keys override `a`'s and new keys follow in `b`'s order. */
  function Merge<K(==), V>(a: Dict<K, V>, b: Dict<K, V>): (r: Dict<K, V>)
    requires a.Valid() && b.Valid()
    ensures r.Valid()
    ensures r.values.Keys == a.values.Keys + b.values.Keys
    ensures forall k :: k in r.values ==> r.values[k] == if k in b.values then b.values[k] else a.values[k]
    ensures r.keys == a.keys + NewKeys(b.keys, a.values)
  {
    KeySet(b);
    var r := PutAll(a, b.keys, b.values);
    assert r.values.Keys == a.values.Keys + b.values.Keys;
    PutAllEvery(a, b.keys, b.values);
    PutAllKeys(a, b.keys, b.values);
    r
  }

  /** Every key of the written dict holds the value `PutAllAt` gives it. */
  lemma PutAllEvery<K, V>(a: Dict<K, V>, ks: seq<K>, vs: map<K, V>)
    requires a.Valid() && forall i :: 0 <= i < |ks| ==> ks[i] in vs
    ensures forall k :: k in PutAll(a, ks, vs).values ==> PutAll(a, ks, vs).values[k] == if k in ks then vs[k] else a.values[k]
  {
    forall k | k in PutAll(a, ks, vs).values
      ensures PutAll(a, ks, vs).values[k] == if k in ks then vs[k] else a.values[k]
    {
      PutAllAt(a, ks, vs, k);
    }
  }

  /** The keys listed by a well-formed dict, as a set, are those carrying a value. */
  lemma KeySet<K, V>(b: Dict<K, V>)
    requires b.Valid()
    ensures (set k | k in b.keys) == b.values.Keys
    ensures forall k :: k in b.keys <==> k in b.values
  {
  }

  /** `f` applied to every value, keys unchanged. */
  function MapValues<K, V>(t: map<K, V>, f: V -> V): (r: map<K, V>)
    ensures r.Keys == t.Keys && forall k :: k in t ==> r[k] == f(t[k])
  {
    map k | k in t :: f(t[k])
  }

  /** `f` applied to the values of the keys in `done`, `g` to the others. */
  function Pick<K, V>(t: map<K, V>, done: set<K>, f: V -> V, g: V -> V): (r: map<K, V>)
    ensures r.Keys == t.Keys
  {
    map k | k in t :: if k in done then f(t[k]) else g(t[k])
  }

  lemma PickNone<K, V>(t: map<K, V>, f: V -> V, g: V -> V)
    ensures Pick(t, {}, f, g) == MapValues(t, g)
  {
  }

  lemma PickAll<K, V>(t: map<K, V>, f: V -> V, g: V -> V)
    ensures Pick(t, t.Keys, f, g) == MapValues(t, f)
  {
  }

  lemma PickStep<K, V>(t: map<K, V>, done: set<K>, f: V -> V, g: V -> V, k: K)
    requires k in t
    ensures Pick(t, done, f, g)[k := f(t[k])] == Pick(t, done + {k}, f, g)
  {
  }

  /** The entries of `m` whose keys are in `ks`. */
  function Restrict<K, V>(m: map<K, V>, ks: set<K>): (r: map<K, V>)
    ensures r.Keys == m.Keys * ks
  {
    map k | k in m && k in ks :: m[k]
  }

  lemma RestrictStep<K, V>(m: map<K, V>, ks: set<K>, k: K)
    requires k in m
    ensures Restrict(m, ks)[k := m[k]] == Restrict(m, ks + {k})
  {
  }

  lemma RestrictAll<K, V>(m: map<K, V>)
    ensures Restrict(m, m.Keys) == m
  {
  }

  /** The function that changes nothing. */
  function Id<V>(): V -> V
  {
    (x: V) => x
  }

  lemma PickNoneSame<K, V>(t: map<K, V>, f: V -> V)
    ensures Pick(t, {}, f, Id()) == t
  {
  }

  lemma RestrictNone<K, V>(m: map<K, V>)
    ensures Restrict(m, {}) == map[]
  {
  }
}
