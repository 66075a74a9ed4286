/** Python's `dict` with string keys, as the code uses it: insertion-ordered
    keys, `get` with a default, item assignment, `setdefault(k, []).append(x)`,
    `pop`, and the total size of a dict of lists. */
module Dicts {

  predicate Distinct(s: seq<string>) {
    forall i, j :: 0 <= i < j < |s| ==> s[i] != s[j]
  }

  /** The elements of `s` outside `drop`, in their order in `s`. */
  function FilterOut(s: seq<string>, drop: set<string>): (r: seq<string>)
    ensures forall x :: x in r <==> x in s && x !in drop
    ensures Distinct(s) ==> Distinct(r)
  {
    if s == [] then []
    else
      var init := FilterOut(s[..|s| - 1], drop);
      var x := s[|s| - 1];
      assert s == s[..|s| - 1] + [x];
      if x in drop then init else init + [x]
  }

  /** The elements of `s` inside `keep`, in their order in `s`. */
  function FilterIn(s: seq<string>, keep: set<string>): (r: seq<string>)
    ensures forall x :: x in r <==> x in s && x in keep
    ensures Distinct(s) ==> Distinct(r)
  {
    if s == [] then []
    else
      var init := FilterIn(s[..|s| - 1], keep);
      var x := s[|s| - 1];
      assert s == s[..|s| - 1] + [x];
      if x in keep then init + [x] else init
  }

  /** The elements of a list, as a set. */
  function Elems(s: seq<string>): set<string> {
    set x | x in s
  }

  lemma FilterInStep(s: seq<string>, keep: set<string>, i: nat)
    requires i < |s|
    ensures FilterIn(s[..i + 1], keep) == FilterIn(s[..i], keep) + if s[i] in keep then [s[i]] else []
  {
    assert s[..i + 1][..i] == s[..i];
  }

  lemma {:induction false} FilterInNothing(s: seq<string>)
    ensures FilterIn(s, {}) == []
  {
    if s != [] {
      FilterInNothing(s[..|s| - 1]);
    }
  }

  lemma {:induction false} FilterOutTwice(s: seq<string>, a: set<string>, b: set<string>)
    ensures FilterOut(FilterOut(s, a), b) == FilterOut(s, a + b)
  {
    if s != [] {
      var init := s[..|s| - 1];
      FilterOutTwice(init, a, b);
      var x := s[|s| - 1];
      if x !in a {
        assert FilterOut(s, a) == FilterOut(init, a) + [x];
        assert FilterOut(s, a)[..|FilterOut(s, a)| - 1] == FilterOut(init, a);
      }
    }
  }

  /** A `dict` whose keys are strings; `keys` is their insertion order. */
  datatype Dict<V> = Dict(keys: seq<string>, values: map<string, V>) {

    ghost predicate Valid() {
      Distinct(keys) && forall k :: k in values <==> k in keys
    }

    /** `d.get(k, default)` */
    function Get(k: string, default: V): V {
      if k in values then values[k] else default
    }

    /** `d[k] = v`: a new key goes last, an existing key keeps its place. */
    function Set(k: string, v: V): (r: Dict<V>)
      ensures Valid() ==> r.Valid()
      ensures r.values == values[k := v]
      ensures r.keys == if k in values then keys else keys + [k]
    {
      if k in values then Dict(keys, values[k := v]) else Dict(keys + [k], values[k := v])
    }

    /** The dict after `d.pop(k)` for every `k` in `drop`. */
    function Without(drop: set<string>): (r: Dict<V>)
      ensures Valid() ==> r.Valid()
      ensures forall k :: k in r.values <==> k in values && k !in drop
      ensures forall k :: k in r.values ==> r.values[k] == values[k]
      ensures r.keys == FilterOut(keys, drop)
    {
      Dict(FilterOut(keys, drop), values - drop)
    }
  }

  function Empty<V>(): (d: Dict<V>)
    ensures d.Valid()
  {
    Dict([], map[])
  }

  /** `d.setdefault(k, []).append(x)` */
  function Append<T>(d: Dict<seq<T>>, k: string, x: T): (r: Dict<seq<T>>)
    ensures d.Valid() ==> r.Valid()
  {
    d.Set(k, d.Get(k, []) + [x])
  }

  /** Popping the keys of `a` and then those of `b` pops the keys of both. */
  lemma WithoutTwice<V>(d: Dict<V>, a: set<string>, b: set<string>)
    ensures d.Without(a).Without(b) == d.Without(a + b)
  {
    FilterOutTwice(d.keys, a, b);
    assert (d.values - a) - b == d.values - (a + b);
  }

  lemma {:induction false} FilterOutNothing(s: seq<string>)
    ensures FilterOut(s, {}) == s
  {
    if s != [] {
      FilterOutNothing(s[..|s| - 1]);
    }
  }

  /** Popping no key changes nothing. */
  lemma WithoutNothing<V>(d: Dict<V>)
    ensures d.Without({}) == d
  {
    FilterOutNothing(d.keys);
    assert d.values - {} == d.values;
  }

  /** Popping the first `j` keys of `ids` and then key `j`. */
  lemma WithoutNext<V>(d: Dict<V>, ids: seq<string>, j: nat)
    requires j < |ids|
    ensures d.Without(Elems(ids[..j])).Without({ids[j]}) == d.Without(Elems(ids[..j + 1]))
  {
    assert ids[..j + 1] == ids[..j] + [ids[j]];
    assert Elems(ids[..j + 1]) == Elems(ids[..j]) + {ids[j]};
    WithoutTwice(d, Elems(ids[..j]), {ids[j]});
  }

  lemma NotBefore(ids: seq<string>, j: nat)
    requires Distinct(ids) && j < |ids|
    ensures ids[j] !in Elems(ids[..j])
  {
  }

  /** The number of elements in the lists stored under `keys`. */
  function Sizes<T>(keys: seq<string>, values: map<string, seq<T>>): nat {
    if keys == [] then 0
    else Sizes(keys[..|keys| - 1], values) + |if keys[|keys| - 1] in values then values[keys[|keys| - 1]] else []|
  }

  /** The number of elements in all the lists of `d`. */
  function Total<T>(d: Dict<seq<T>>): nat {
    Sizes(d.keys, d.values)
  }

  lemma {:induction false} SizesAgree<T>(keys: seq<string>, m: map<string, seq<T>>, m': map<string, seq<T>>)
    requires forall k :: k in keys ==> (k in m <==> k in m') && (k in m ==> m[k] == m'[k])
    ensures Sizes(keys, m) == Sizes(keys, m')
  {
    if keys != [] {
      SizesAgree(keys[..|keys| - 1], m, m');
    }
  }

  lemma {:induction false} SizesBump<T>(keys: seq<string>, m: map<string, seq<T>>, k: string, x: T)
    requires Distinct(keys) && k in keys && k in m
    ensures Sizes(keys, m[k := m[k] + [x]]) == Sizes(keys, m) + 1
  {
    var init := keys[..|keys| - 1];
    var last := keys[|keys| - 1];
    assert keys == init + [last];
    if last == k {
      assert k !in init;
      SizesAgree(init, m, m[k := m[k] + [x]]);
    } else {
      SizesBump(init, m, k, x);
    }
  }

  /** `setdefault(k, []).append(x)` adds exactly one element to a dict of lists. */
  lemma AppendTotal<T>(d: Dict<seq<T>>, k: string, x: T)
    requires d.Valid()
    ensures Total(Append(d, k, x)) == Total(d) + 1
  {
    if k in d.values {
      SizesBump(d.keys, d.values, k, x);
    } else {
      var r := Append(d, k, x);
      assert r.keys[..|r.keys| - 1] == d.keys;
      SizesAgree(d.keys, d.values, r.values);
    }
  }

  lemma {:induction false} SizesPartition<T>(keys: seq<string>, m: map<string, seq<T>>, s: set<string>)
    ensures Sizes(keys, m) == Sizes(FilterIn(keys, s), m) + Sizes(FilterOut(keys, s), m)
  {
    if keys != [] {
      var init := keys[..|keys| - 1];
      var last := keys[|keys| - 1];
      SizesPartition(init, m, s);
      if last in s {
        var f := FilterIn(keys, s);
        assert f[..|f| - 1] == FilterIn(init, s);
      } else {
        var f := FilterOut(keys, s);
        assert f[..|f| - 1] == FilterOut(init, s);
      }
    }
  }

  /** Dropping keys moves exactly the sizes of their lists out of the total. */
  lemma WithoutTotal<T>(d: Dict<seq<T>>, drop: set<string>)
    ensures Total(d) == Total(d.Without(drop)) + Sizes(FilterIn(d.keys, drop), d.values)
  {
    SizesPartition(d.keys, d.values, drop);
    SizesAgree(FilterOut(d.keys, drop), d.values, d.values - drop);
  }
}
