/** Insertion-ordered dictionaries with string keys: Python's
    `OrderedDict`, and the plain `dict` the metadata code builds. */
module Dicts {
  import opened Common

  /** Keys in insertion order, and the contents. */
  datatype Dict<V> = Dict(keys: seq<string>, values: map<string, V>)

  predicate Distinct(xs: seq<string>)
  {
    forall a, b :: 0 <= a < b < |xs| ==> xs[a] != xs[b]
  }

  /** Every key is listed once, and exactly the keys are listed. */
  predicate Valid<V>(d: Dict<V>)
  {
    Distinct(d.keys) && SetOf(d.keys) == d.values.Keys
  }

  function Empty<V>(): (d: Dict<V>)
    ensures Valid(d) && d.keys == [] && d.values == map[]
  {
    Dict([], map[])
  }

  /** `d[k] = v`: a new key goes to the end, an existing key keeps its
      place and gets the new value. */
  function Put<V>(d: Dict<V>, k: string, v: V): (r: Dict<V>)
    requires Valid(d)
    ensures Valid(r)
    ensures r.values == d.values[k := v]
    ensures k in d.values ==> r.keys == d.keys
    ensures k !in d.values ==> r.keys == d.keys + [k]
  {
    Dict(if k in d.values then d.keys else d.keys + [k], d.values[k := v])
  }

  /** `d.update(e)` for the keys `ks` of `e`, taken in order. */
  function UpdateWith<V>(d: Dict<V>, ks: seq<string>, vals: map<string, V>): (r: Dict<V>)
    requires Valid(d) && forall i :: 0 <= i < |ks| ==> ks[i] in vals
    ensures Valid(r)
    decreases |ks|
  {
    if ks == [] then d
    else
      var k := ks[|ks| - 1];
      Put(UpdateWith(d, ks[..|ks| - 1], vals), k, vals[k])
  }

  /** `d.update(e)`: keys of `e` that `d` lacks are appended in `e`'s
      order, and `e`'s values win. */
  function Update<V>(d: Dict<V>, e: Dict<V>): (r: Dict<V>)
    requires Valid(d) && Valid(e)
    ensures Valid(r)
  {
    UpdateWith(d, e.keys, e.values)
  }

  lemma {:induction false} UpdateWithValues<V>(d: Dict<V>, ks: seq<string>, vals: map<string, V>)
    requires Valid(d) && forall i :: 0 <= i < |ks| ==> ks[i] in vals
    ensures forall k :: k in UpdateWith(d, ks, vals).values <==> k in d.values || k in ks
    ensures forall k :: k in UpdateWith(d, ks, vals).values ==>
      UpdateWith(d, ks, vals).values[k] == if k in ks then vals[k] else d.values[k]
    decreases |ks|
  {
    if ks != [] {
      var n := |ks| - 1;
      var init := ks[..n];
      var last := ks[n];
      var prev := UpdateWith(d, init, vals);
      var r := UpdateWith(d, ks, vals);
      UpdateWithValues(d, init, vals);
      assert r.values == prev.values[last := vals[last]];
      ButLast(ks);
      forall k
        ensures k in ks <==> k in init || k == last
      {
        assert ks == init + [last];
      }
    }
  }

  lemma {:induction false} UpdateWithKeys<V>(d: Dict<V>, ks: seq<string>, vals: map<string, V>)
    requires Valid(d) && Distinct(ks) && forall i :: 0 <= i < |ks| ==> ks[i] in vals
    ensures UpdateWith(d, ks, vals).keys == d.keys + Without(ks, d.keys)
    decreases |ks|
  {
    if ks != [] {
      var n := |ks| - 1;
      var init := ks[..n];
      var k := ks[n];
      ButLast(ks);
      DistinctButLast(ks);
      UpdateWithKeys(d, init, vals);
      UpdateWithValues(d, init, vals);
      var prev := UpdateWith(d, init, vals);
      var w := Without(init, d.keys);
      WithoutSnoc(init, k, d.keys);
      assert UpdateWith(d, ks, vals) == Put(prev, k, vals[k]);
      if k in d.keys {
        assert k in prev.values;
        assert w + [] == w;
      } else {
        assert k !in prev.values;
        assert d.keys + (w + [k]) == (d.keys + w) + [k];
      }
    } else {
      assert d.keys + [] == d.keys;
    }
  }

  /** Dropping the last of distinct names leaves distinct names without
      it. */
  lemma DistinctButLast(xs: seq<string>)
    requires xs != [] && Distinct(xs)
    ensures Distinct(xs[..|xs| - 1]) && xs[|xs| - 1] !in xs[..|xs| - 1]
  {
  }

  /** What `update` promises, stated on the two dictionaries. */
  lemma UpdateSpec<V>(d: Dict<V>, e: Dict<V>)
    requires Valid(d) && Valid(e)
    ensures Update(d, e).keys == d.keys + Without(e.keys, d.keys)
    ensures Update(d, e).values == d.values + e.values
  {
    UpdateWithKeys(d, e.keys, e.values);
    UpdateWithValues(d, e.keys, e.values);
    MapUnion(Update(d, e).values, d.values, e.values);
  }

  /** A map that holds the keys of `a` and `b`, with `b`'s values winning,
      is `a + b`. */
  lemma MapUnion<V>(m: map<string, V>, a: map<string, V>, b: map<string, V>)
    requires forall k :: k in m <==> k in a || k in b
    requires forall k :: k in m ==> m[k] == if k in b then b[k] else a[k]
    ensures m == a + b
  {
  }

  /** Element-wise conversion of the values, keys and order kept. */
  function MapValues<V, U>(d: Dict<V>, f: V -> U): (r: Dict<U>)
    ensures r.keys == d.keys && r.values.Keys == d.values.Keys
    ensures forall k :: k in d.values ==> r.values[k] == f(d.values[k])
  {
    Dict(d.keys, map k | k in d.values :: f(d.values[k]))
  }

  /** The keys of a dictionary filled by assigning `xs` in order: each
      name once, where it first occurs. */
  function Dedup(xs: seq<string>): (r: seq<string>)
  {
    if xs == [] then []
    else
      var d := Dedup(xs[..|xs| - 1]);
      if xs[|xs| - 1] in d then d else d + [xs[|xs| - 1]]
  }

  lemma {:induction false} DedupProperties(xs: seq<string>)
    ensures Distinct(Dedup(xs))
    ensures SetOf(Dedup(xs)) == SetOf(xs)
    ensures |Dedup(xs)| <= |xs|
  {
    if xs != [] {
      var init := xs[..|xs| - 1];
      DedupProperties(init);
      ButLast(xs);
      assert SetOf(xs) == SetOf(init) + {xs[|xs| - 1]};
    }
  }

  /** Without repeated names, every name is a key in its own position. */
  lemma {:induction false} DedupDistinct(xs: seq<string>)
    requires Distinct(xs)
    ensures Dedup(xs) == xs
  {
    if xs != [] {
      var init := xs[..|xs| - 1];
      DedupDistinct(init);
      assert xs[|xs| - 1] !in init;
      ButLast(xs);
    }
  }

  /** Assigning one more name to a dictionary keyed by the earlier names. */
  lemma PutDedup<V>(d: Dict<V>, init: seq<string>, last: string, v: V)
    requires Valid(d) && d.keys == Dedup(init)
    ensures Put(d, last, v).keys == Dedup(init + [last])
    ensures forall k :: k in Put(d, last, v).values <==> k in init + [last]
  {
    DedupProperties(init);
    assert (init + [last])[..|init|] == init;
  }

  /** The dictionary a loop `for k in names: d[k] = f(k)` builds, where
      `f` may raise: each name assigned in order, the first failure
      ending the loop. */
  function PutAll<V, E>(names: seq<string>, f: string -> Result<V, E>): (r: Result<Dict<V>, E>)
    ensures r.Success? ==> Valid(r.value)
    decreases |names|
  {
    if names == [] then Success(Empty())
    else
      var n := |names| - 1;
      match PutAll(names[..n], f)
      case Failure(e) => Failure(e)
      case Success(d) =>
        match f(names[n])
        case Failure(e) => Failure(e)
        case Success(v) => Success(Put(d, names[n], v))
  }

  /** The loop succeeds exactly when every name's value can be computed;
      otherwise it raises the error of the first name that fails. */
  lemma {:induction false} PutAllOutcome<V, E>(names: seq<string>, f: string -> Result<V, E>)
    ensures PutAll(names, f).Success? <==> forall i :: 0 <= i < |names| ==> f(names[i]).Success?
    ensures PutAll(names, f).Failure? ==>
      exists i :: 0 <= i < |names| && f(names[i]).Failure? && PutAll(names, f).error == f(names[i]).error &&
        forall j :: 0 <= j < i ==> f(names[j]).Success?
    decreases |names|
  {
    if names != [] {
      var n := |names| - 1;
      var init := names[..n];
      PutAllOutcome(init, f);
      assert forall i :: 0 <= i < n ==> init[i] == names[i];
      if PutAll(init, f).Failure? {
        var i :| 0 <= i < n && f(init[i]).Failure? && PutAll(init, f).error == f(init[i]).error &&
          forall j :: 0 <= j < i ==> f(init[j]).Success?;
        assert f(names[i]).Failure? && PutAll(names, f).error == f(names[i]).error;
      }
    }
  }

  /** On success the keys are the names, each once, in order of first
      occurrence, and each name holds its own value. */
  lemma {:induction false} PutAllContents<V, E>(names: seq<string>, f: string -> Result<V, E>)
    requires PutAll(names, f).Success?
    ensures PutAll(names, f).value.keys == Dedup(names)
    ensures forall k :: k in PutAll(names, f).value.values <==> k in names
    ensures forall k :: k in PutAll(names, f).value.values ==>
      f(k).Success? && PutAll(names, f).value.values[k] == f(k).value
    decreases |names|
  {
    if names != [] {
      var n := |names| - 1;
      var init := names[..n];
      PutAllContents(init, f);
      var d := PutAll(init, f).value;
      var v := f(names[n]).value;
      var r := PutAll(names, f).value;
      assert r == Put(d, names[n], v);
      ButLast(names);
      PutDedup(d, init, names[n], v);
      forall k | k in r.values
        ensures f(k).Success? && r.values[k] == f(k).value
      {
        if k != names[n] {
          assert k in d.values;
        }
      }
    }
  }

  /** A failure within a prefix of the names is the loop's failure. */
  lemma {:induction false} PutAllPrefixFailure<V, E>(names: seq<string>, j: nat, f: string -> Result<V, E>)
    requires j <= |names| && PutAll(names[..j], f).Failure?
    ensures PutAll(names, f) == PutAll(names[..j], f)
    decreases |names|
  {
    if j < |names| {
      var n := |names| - 1;
      assert names[..n][..j] == names[..j];
      PutAllPrefixFailure(names[..n], j, f);
    } else {
      assert names[..j] == names;
    }
  }

  /** Position of the first occurrence. */
  function IndexOf(xs: seq<string>, x: string): (i: nat)
    requires x in xs
    ensures i < |xs| && xs[i] == x && x !in xs[..i]
  {
    if xs[0] == x then 0 else 1 + IndexOf(xs[1..], x)
  }

  /** Keys come in the order of the names' first occurrences. */
  lemma {:induction false} DedupOrder(xs: seq<string>)
    ensures forall a, b :: 0 <= a < b < |Dedup(xs)| ==>
      Dedup(xs)[a] in xs && Dedup(xs)[b] in xs && IndexOf(xs, Dedup(xs)[a]) < IndexOf(xs, Dedup(xs)[b])
  {
    if xs != [] {
      var n := |xs| - 1;
      var init := xs[..n];
      var d := Dedup(init);
      var r := Dedup(xs);
      DedupOrder(init);
      DedupProperties(init);
      ButLast(xs);
      forall a, b | 0 <= a < b < |r|
        ensures r[a] in xs && r[b] in xs && IndexOf(xs, r[a]) < IndexOf(xs, r[b])
      {
        assert r[a] == d[a] && r[a] in SetOf(d);
        PrefixIndexOf(init, xs[n], r[a]);
        if b < |d| {
          assert r[b] == d[b] && r[b] in SetOf(d);
          PrefixIndexOf(init, xs[n], r[b]);
        } else {
          assert r[b] == xs[n] && xs[n] !in init;
          assert xs[..n] == init;
        }
      }
      assert r == Dedup(xs);
    } else {
      assert Dedup(xs) == [];
    }
  }

  lemma {:induction false} PrefixIndexOf(xs: seq<string>, z: string, y: string)
    requires y in xs
    ensures IndexOf(xs + [z], y) == IndexOf(xs, y)
  {
    if xs[0] != y {
      assert (xs + [z])[1..] == xs[1..] + [z];
      PrefixIndexOf(xs[1..], z, y);
    }
  }
}
