/**
 * Python's `dict` keyed by strings, as the retriever uses it to deduplicate
 * chunks by id: `d[k] = v` keeps the position of a key that is already present
 * (keys stay in first-insertion order) and replaces its value (last write wins).
 */
module OrderedDicts {

  predicate NoDuplicates<T(==)>(s: seq<T>) {
    forall i, j :: 0 <= i < j < |s| ==> s[i] != s[j]
  }

  /** `keys` lists the keys in insertion order; `entries` holds each key's value. */
  datatype Dict<V> = Dict(keys: seq<string>, entries: map<string, V>)

  ghost predicate Valid<V>(d: Dict<V>) {
    NoDuplicates(d.keys) && forall k :: k in d.entries <==> k in d.keys
  }

  function Empty<V>(): (d: Dict<V>)
    ensures Valid(d) && d.keys == []
  {
    Dict([], map[])
  }

  /** `d[k] = v`. */
  function Put<V>(d: Dict<V>, k: string, v: V): (r: Dict<V>)
    requires Valid(d)
    ensures Valid(r)
  {
    Dict(if k in d.entries then d.keys else d.keys + [k], d.entries[k := v])
  }

  /** `list(d.values())`. */
  function Values<V>(d: Dict<V>): (vs: seq<V>)
    requires Valid(d)
    ensures |vs| == |d.keys|
    ensures forall i :: 0 <= i < |vs| ==> vs[i] == d.entries[d.keys[i]]
  {
    seq(|d.keys|, i requires 0 <= i < |d.keys| && Valid(d) => d.entries[d.keys[i]])
  }

  /** `for v in vs: d[key(v)] = v`. */
  function PutAll<V>(d: Dict<V>, vs: seq<V>, key: V -> string): (r: Dict<V>)
    requires Valid(d)
    ensures Valid(r)
    decreases |vs|
  {
    if vs == [] then d
    else Put(PutAll(d, vs[..|vs| - 1], key), key(vs[|vs| - 1]), vs[|vs| - 1])
  }

  /** Every stored value sits under its own key. */
  ghost predicate KeyedBy<V>(d: Dict<V>, key: V -> string) {
    forall k :: k in d.entries ==> key(d.entries[k]) == k
  }

  /** `vs[i]` is the last element of `vs` with its key. */
  ghost predicate LastWithKey<V>(vs: seq<V>, i: int, key: V -> string)
    requires 0 <= i < |vs|
  {
    forall j :: i < j < |vs| ==> key(vs[j]) != key(vs[i])
  }

  /** The keys of `vs`, in order, with repetitions. */
  function KeysOf<V>(vs: seq<V>, key: V -> string): (ks: seq<string>)
    ensures |ks| == |vs| && forall i :: 0 <= i < |vs| ==> ks[i] == key(vs[i])
  {
    seq(|vs|, i requires 0 <= i < |vs| => key(vs[i]))
  }

  /** The position of the first occurrence of `k` in `ks`. */
  function FirstIndex(ks: seq<string>, k: string): (n: nat)
    requires k in ks
    ensures n < |ks| && ks[n] == k && k !in ks[..n]
  {
    if ks[0] == k then 0 else 1 + FirstIndex(ks[1..], k)
  }

  /** Inserting a sequence in two pieces is inserting it in one. */
  lemma {:induction false} PutAllAppend<V>(d: Dict<V>, a: seq<V>, b: seq<V>, key: V -> string)
    requires Valid(d)
    ensures PutAll(d, a + b, key) == PutAll(PutAll(d, a, key), b, key)
    decreases |b|
  {
    if b == [] {
      assert a + b == a;
    } else {
      assert (a + b)[..|a + b| - 1] == a + b[..|b| - 1];
      PutAllAppend(d, a, b[..|b| - 1], key);
    }
  }

  /** Inserting keeps every value under its own key. */
  lemma {:induction false} PutAllKeyedBy<V>(d: Dict<V>, vs: seq<V>, key: V -> string)
    requires Valid(d) && KeyedBy(d, key)
    ensures KeyedBy(PutAll(d, vs, key), key)
    decreases |vs|
  {
    if vs != [] {
      PutAllKeyedBy(d, vs[..|vs| - 1], key);
    }
  }

  /** After inserting `vs` into an empty dict, its keys are exactly the keys of `vs`. */
  lemma {:induction false} PutAllDomain<V>(vs: seq<V>, key: V -> string)
    ensures forall k :: k in PutAll(Empty(), vs, key).entries <==> k in KeysOf(vs, key)
    decreases |vs|
  {
    if vs != [] {
      var p := vs[..|vs| - 1];
      PutAllDomain(p, key);
      assert KeysOf(vs, key) == KeysOf(p, key) + [key(vs[|vs| - 1])];
    }
  }

  /** Every value of a dict filled from empty is one of the inserted elements. */
  lemma {:induction false} PutAllValuesFrom<V>(vs: seq<V>, key: V -> string)
    ensures forall k :: k in PutAll(Empty(), vs, key).entries ==> PutAll(Empty(), vs, key).entries[k] in vs
    decreases |vs|
  {
    if vs != [] {
      var p := vs[..|vs| - 1];
      var x := vs[|vs| - 1];
      PutAllValuesFrom(p, key);
      var rp := PutAll(Empty(), p, key);
      var r := PutAll(Empty(), vs, key);
      assert r.entries == rp.entries[key(x) := x];
      assert vs == p + [x];
      forall k | k in r.entries
        ensures r.entries[k] in vs
      {
        if k != key(x) {
          assert k in rp.entries && r.entries[k] == rp.entries[k];
          assert rp.entries[k] in p;
        }
      }
    }
  }

  /** The values of a dict filled from empty carry exactly the keys of the inserted elements. */
  lemma ValuesKeys<V>(vs: seq<V>, key: V -> string)
    ensures KeysOf(Values(PutAll(Empty(), vs, key)), key) == PutAll(Empty(), vs, key).keys
    ensures forall k :: k in PutAll(Empty(), vs, key).keys <==> k in KeysOf(vs, key)
  {
    PutAllKeyedBy(Empty(), vs, key);
    PutAllDomain(vs, key);
  }

  /** Last write wins: the value under a key is the last element of `vs` with that key. */
  lemma {:induction false} PutAllLastWins<V>(d: Dict<V>, vs: seq<V>, key: V -> string, i: int)
    requires Valid(d) && 0 <= i < |vs| && LastWithKey(vs, i, key)
    ensures var r := PutAll(d, vs, key); key(vs[i]) in r.entries && r.entries[key(vs[i])] == vs[i]
    decreases |vs|
  {
    var n := |vs| - 1;
    if i < n {
      var p := vs[..n];
      assert p[i] == vs[i];
      assert LastWithKey(p, i, key);
      PutAllLastWins(d, p, key, i);
    }
  }

  /** Keys stay in the order of their first occurrence in `vs`. */
  lemma {:induction false} PutAllKeyOrder<V>(vs: seq<V>, key: V -> string, a: int, b: int)
    requires 0 <= a < b < |PutAll(Empty(), vs, key).keys|
    ensures var r, ks := PutAll(Empty(), vs, key), KeysOf(vs, key);
      r.keys[a] in ks && r.keys[b] in ks && FirstIndex(ks, r.keys[a]) < FirstIndex(ks, r.keys[b])
    decreases |vs|
  {
    var n := |vs| - 1;
    var p, x := vs[..n], vs[n];
    PutAllDomain(p, key);
    var rp, r := PutAll(Empty(), p, key), PutAll(Empty(), vs, key);
    var kp, kv := KeysOf(p, key), KeysOf(vs, key);
    assert kv == kp + [key(x)];
    assert r.keys[a] == rp.keys[a] && rp.keys[a] in rp.entries;
    FirstIndexPrefix(kp, key(x), rp.keys[a]);
    if b < |rp.keys| {
      assert r.keys[b] == rp.keys[b] && rp.keys[b] in rp.entries;
      PutAllKeyOrder(p, key, a, b);
      FirstIndexPrefix(kp, key(x), rp.keys[b]);
    } else {
      assert r.keys[b] == key(x) && key(x) !in kp;
      assert kv[n] == key(x) && kv[..n] == kp;
    }
  }

  lemma FirstIndexPrefix(ks: seq<string>, x: string, k: string)
    requires k in ks
    ensures FirstIndex(ks + [x], k) == FirstIndex(ks, k)
  {
    var n := FirstIndex(ks, k);
    var m := FirstIndex(ks + [x], k);
    assert (ks + [x])[n] == ks[n];
    assert (ks + [x])[..m] == ks[..m] by { if m > |ks| { assert false; } }
  }

  /** `list(s)`: every element once, in an order the model leaves open. */
  method ListOf<T>(s: set<T>) returns (xs: seq<T>)
    ensures NoDuplicates(xs)
    ensures forall x :: x in xs <==> x in s
  {
    xs := [];
    var rest := s;
    while rest != {}
      invariant rest <= s
      invariant NoDuplicates(xs)
      invariant forall x :: x in xs <==> x in s - rest
      decreases |rest|
    {
      var x :| x in rest;
      assert x !in xs;
      xs := xs + [x];
      rest := rest - {x};
    }
  }
}
