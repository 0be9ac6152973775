/** The parsed manifest document: the value `yaml.safe_load` hands to the
    manifest layer, the null-to-empty-list normaliser run over it before it is
    interpreted, and Python's `==` on such values. */
module Yaml {
  import opened Wrappers

  /** A parsed document. Mappings keep their keys in document order, as
      Python's dict does; a document produced by the YAML loader never
      repeats a key within one mapping (see `WellFormed`). */
  datatype Yaml =
    | Null
    | Str(s: string)
    | Scalar(text: string)              // a number or a boolean, by its text
    | List(elems: seq<Yaml>)
    | Map(items: seq<(string, Yaml)>)

  /** The keys of a mapping, in order. */
  function Keys(items: seq<(string, Yaml)>): (ks: seq<string>)
    ensures |ks| == |items|
    ensures forall i :: 0 <= i < |items| ==> ks[i] == items[i].0
  {
    if items == [] then [] else [items[0].0] + Keys(items[1..])
  }

  predicate UniqueKeys(items: seq<(string, Yaml)>) {
    forall i, j :: 0 <= i < j < |items| ==> items[i].0 != items[j].0
  }

  /** Every mapping, at every depth, has distinct keys. */
  ghost predicate WellFormed(d: Yaml)
    decreases d
  {
    match d
    case List(xs) => forall i :: 0 <= i < |xs| ==> WellFormed(xs[i])
    case Map(kvs) => UniqueKeys(kvs) && forall i :: 0 <= i < |kvs| ==> WellFormed(kvs[i].1)
    case _ => true
  }

  /** No null at any depth. */
  predicate NoNulls(d: Yaml)
    decreases d
  {
    match d
    case Null => false
    case List(xs) => forall i :: 0 <= i < |xs| ==> NoNulls(xs[i])
    case Map(kvs) => forall i :: 0 <= i < |kvs| ==> NoNulls(kvs[i].1)
    case _ => true
  }

  /** `convert_none_to_empty_list`: every null, at any depth, becomes an empty
      list; lists keep their length, mappings keep their keys in order, and
      every other value is left as it is. */
  function Normalize(d: Yaml): (r: Yaml)
    ensures NoNulls(r)
    ensures d.Null? ==> r == List([])
    ensures d.Str? || d.Scalar? ==> r == d
    ensures d.List? ==> r.List? && |r.elems| == |d.elems|
    ensures d.Map? ==> r.Map? && Keys(r.items) == Keys(d.items)
    ensures WellFormed(d) ==> WellFormed(r)
    decreases d
  {
    match d
    case Null => List([])
    case List(xs) => List(seq(|xs|, i requires 0 <= i < |xs| => Normalize(xs[i])))
    case Map(kvs) => Map(seq(|kvs|, i requires 0 <= i < |kvs| => (kvs[i].0, Normalize(kvs[i].1))))
    case _ => d
  }

  /** A document that already has no nulls is left exactly as it is. */
  lemma {:induction false} NormalizeKeepsNullFree(d: Yaml)
    requires NoNulls(d)
    ensures Normalize(d) == d
    decreases d
  {
    match d
    case List(xs) =>
      forall i | 0 <= i < |xs| ensures Normalize(xs[i]) == xs[i] {
        NormalizeKeepsNullFree(xs[i]);
      }
      assert Normalize(d).elems == xs;
    case Map(kvs) =>
      forall i | 0 <= i < |kvs| ensures Normalize(kvs[i].1) == kvs[i].1 {
        NormalizeKeepsNullFree(kvs[i].1);
      }
      assert Normalize(d).items == kvs;
    case _ =>
  }

  /** Normalising twice is normalising once. */
  lemma NormalizeIdempotent(d: Yaml)
    ensures Normalize(Normalize(d)) == Normalize(d)
  {
    NormalizeKeepsNullFree(Normalize(d));
  }

  /** The value stored under `k` (the first such entry), if any. */
  function Get(items: seq<(string, Yaml)>, k: string): (r: Option<Yaml>)
    ensures r.None? <==> k !in Keys(items)
    ensures r.Some? ==> exists i :: 0 <= i < |items| && items[i] == (k, r.value)
  {
    if items == [] then None
    else if items[0].0 == k then Some(items[0].1)
    else Get(items[1..], k)
  }

  /** `d[k] = v` on a dict: an existing key keeps its place and takes the new
      value, a new key goes at the end. */
  function Put(items: seq<(string, Yaml)>, k: string, v: Yaml): seq<(string, Yaml)>
  {
    if items == [] then [(k, v)]
    else if items[0].0 == k then [(k, v)] + items[1..]
    else [items[0]] + Put(items[1..], k, v)
  }

  /** After `d[k] = v` the key order is the old one, with `k` at the end when
      it is new. */
  lemma {:induction false} PutKeys(items: seq<(string, Yaml)>, k: string, v: Yaml)
    ensures k in Keys(items) ==> Keys(Put(items, k, v)) == Keys(items)
    ensures k !in Keys(items) ==> Keys(Put(items, k, v)) == Keys(items) + [k]
    decreases |items|
  {
    if items != [] {
      var r := Put(items, k, v);
      assert Keys(items) == [items[0].0] + Keys(items[1..]);
      if items[0].0 == k {
        assert r[1..] == items[1..];
        assert Keys(r) == [k] + Keys(items[1..]);
      } else {
        assert r[1..] == Put(items[1..], k, v);
        assert Keys(r) == [items[0].0] + Keys(Put(items[1..], k, v));
        PutKeys(items[1..], k, v);
      }
    }
  }

  /** After `d[k] = v`, `k` holds `v` and every other key holds what it held. */
  lemma {:induction false} PutGet(items: seq<(string, Yaml)>, k: string, v: Yaml)
    ensures Get(Put(items, k, v), k) == Some(v)
    ensures forall k' :: k' != k ==> Get(Put(items, k, v), k') == Get(items, k')
    decreases |items|
  {
    if items != [] {
      var r := Put(items, k, v);
      if items[0].0 == k {
        assert r[1..] == items[1..];
      } else {
        assert r[1..] == Put(items[1..], k, v);
        PutGet(items[1..], k, v);
      }
    }
  }

  /** `a.update(b)`: the entries of `b`, in order, put into `a`. */
  function Update(a: seq<(string, Yaml)>, b: seq<(string, Yaml)>): (r: seq<(string, Yaml)>)
    decreases |b|
  {
    if b == [] then a else Update(Put(a, b[0].0, b[0].1), b[1..])
  }

  /** `a.update({k: v})` is `a[k] = v`. */
  lemma UpdateOne(a: seq<(string, Yaml)>, k: string, v: Yaml)
    ensures Update(a, [(k, v)]) == Put(a, k, v)
  {
    assert [(k, v)][1..] == [];
  }

  /** A new key goes at the end, as in a Python dict. */
  lemma {:induction false} PutFresh(items: seq<(string, Yaml)>, k: string, v: Yaml)
    requires k !in Keys(items)
    ensures Put(items, k, v) == items + [(k, v)]
    decreases |items|
  {
    if items != [] {
      assert Keys(items)[0] == items[0].0;
      assert k !in Keys(items[1..]) by {
        forall i | 0 <= i < |items| - 1 ensures Keys(items[1..])[i] != k {
          assert Keys(items[1..])[i] == items[i + 1].0 == Keys(items)[i + 1];
        }
      }
      PutFresh(items[1..], k, v);
      assert [items[0]] + (items[1..] + [(k, v)]) == items + [(k, v)];
    }
  }

  /** With distinct keys, looking up the key at an index finds that entry. */
  lemma GetAt(items: seq<(string, Yaml)>, i: int)
    requires UniqueKeys(items) && 0 <= i < |items|
    ensures Get(items, items[i].0) == Some(items[i].1)
  {
    assert Keys(items)[i] == items[i].0;
  }

  /** Python's `==` on parsed values: lists compare element by element,
      dicts by their key sets and the value under each key, whatever the order. */
  predicate PyEq(a: Yaml, b: Yaml)
    decreases a
  {
    match a
    case Null => b.Null?
    case Str(x) => b.Str? && b.s == x
    case Scalar(x) => b.Scalar? && b.text == x
    case List(xs) =>
      b.List? && |xs| == |b.elems| && forall i :: 0 <= i < |xs| ==> PyEq(xs[i], b.elems[i])
    case Map(xs) =>
      b.Map? && |xs| == |b.items| && forall i :: 0 <= i < |xs| ==> HasEqualEntry(xs[i], b.items)
  }

  /** Some entry of `ys` has the key of `kv` and a value equal to its value. */
  predicate HasEqualEntry(kv: (string, Yaml), ys: seq<(string, Yaml)>)
    decreases kv, 0
  {
    exists j :: 0 <= j < |ys| && kv.0 == ys[j].0 && PyEq(kv.1, ys[j].1)
  }

  /** Two mappings of the same size are equal when every key of the first
      finds an equal value under it in the second. */
  lemma PyEqByGet(a: seq<(string, Yaml)>, b: seq<(string, Yaml)>)
    requires |a| == |b|
    requires forall i :: 0 <= i < |a| ==> Get(b, a[i].0).Some? && PyEq(a[i].1, Get(b, a[i].0).value)
    ensures PyEq(Map(a), Map(b))
  {
    forall i | 0 <= i < |a| ensures HasEqualEntry(a[i], b) {
      var v := Get(b, a[i].0).value;
      var j :| 0 <= j < |b| && b[j] == (a[i].0, v);
      assert a[i].0 == b[j].0 && PyEq(a[i].1, b[j].1);
    }
  }

  /** Every value equals itself. */
  lemma {:induction false} PyEqReflexive(a: Yaml)
    ensures PyEq(a, a)
    decreases a
  {
    match a
    case List(xs) =>
      forall i | 0 <= i < |xs| ensures PyEq(xs[i], xs[i]) {
        PyEqReflexive(xs[i]);
      }
    case Map(xs) =>
      forall i | 0 <= i < |xs| ensures HasEqualEntry(xs[i], xs) {
        PyEqReflexive(xs[i].1);
      }
    case _ =>
  }
}
