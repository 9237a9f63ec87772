/**
 * JavaScript's `Map` as the analysis uses it: an association list whose keys
 * keep the order in which they were first set. `set` on a present key
 * replaces its value in place; on a new key it appends.
 */
module OrderedMaps {
  import opened Wrappers

  /** Keys are strings, as every map of the analysis is keyed by text. */
  type OrderedMap<V> = seq<(string, V)>

  /** The keys, in iteration order (`map.keys()`). */
  function Keys<V>(m: OrderedMap<V>): seq<string> {
    seq(|m|, i requires 0 <= i < |m| => m[i].0)
  }

  /** The first key, followed by the keys of the rest. */
  lemma KeysCons<V>(m: OrderedMap<V>)
    requires m != []
    ensures Keys(m) == [m[0].0] + Keys(m[1..])
  {
  }

  /** `map.get(k)`, with `None` for `undefined`. */
  function Get<V>(m: OrderedMap<V>, k: string): (r: Option<V>)
    ensures r.Some? <==> k in Keys(m)
  {
    if m == [] then None
    else if m[0].0 == k then
      assert Keys(m)[0] == k;
      Some(m[0].1)
    else
      KeysCons(m);
      Get(m[1..], k)
  }

  /** `map.set(k, v)`. */
  function Set<V>(m: OrderedMap<V>, k: string, v: V): (r: OrderedMap<V>)
    ensures Keys(r) == if k in Keys(m) then Keys(m) else Keys(m) + [k]
    ensures Get(r, k) == Some(v)
    ensures forall k' :: k' != k ==> Get(r, k') == Get(m, k')
  {
    if m == [] then [(k, v)]
    else if m[0].0 == k then
      var r := [(k, v)] + m[1..];
      KeysCons(m);
      KeysCons(r);
      assert r[1..] == m[1..];
      r
    else
      var rest := Set(m[1..], k, v);
      var r := [m[0]] + rest;
      KeysCons(m);
      KeysCons(r);
      assert r[1..] == rest;
      r
  }

  /** The keys of all but the last pair, followed by the last pair's key. */
  lemma KeysSnoc<V>(m: OrderedMap<V>)
    requires m != []
    ensures Keys(m) == Keys(m[..|m| - 1]) + [m[|m| - 1].0]
  {
  }

  /** Appending `e` under `k` in a fresh map of lists makes `[e]` its only entry. */
  lemma AppendOnEmpty<E>(k: string, e: E)
    ensures Set([], k, Get<seq<E>>([], k).GetOr([]) + [e]) == [(k, [e])]
  {
    assert Get<seq<E>>([], k).GetOr([]) + [e] == [e];
  }

  /** No element occurs twice. */
  predicate NoDuplicates<K(==)>(ks: seq<K>) {
    forall i, j :: 0 <= i < j < |ks| ==> ks[i] != ks[j]
  }

  /** `ks` with `k` appended unless it is already there. */
  function AppendNew<K(==)>(ks: seq<K>, k: K): seq<K> {
    if k in ks then ks else ks + [k]
  }

  /** `ks` followed by the elements of `xs` not already present, in order of first appearance. */
  function AppendAllNew<K(==)>(ks: seq<K>, xs: seq<K>): seq<K>
    decreases |xs|
  {
    if xs == [] then ks else AppendNew(AppendAllNew(ks, xs[..|xs| - 1]), xs[|xs| - 1])
  }

  /** The elements of `xs`, each once, in order of first appearance. */
  function Distinct<K(==)>(xs: seq<K>): seq<K> {
    AppendAllNew([], xs)
  }

  /** The index of the first occurrence of `x` in `xs`. */
  function FirstIndex<K(==)>(xs: seq<K>, x: K): (i: nat)
    requires x in xs
    ensures i < |xs| && xs[i] == x && x !in xs[..i]
  {
    if xs[0] == x then 0
    else
      var i := FirstIndex(xs[1..], x) + 1;
      assert xs[..i] == [xs[0]] + xs[1..][..i - 1];
      i
  }

  lemma FirstIndexAppend<K>(xs: seq<K>, y: K, x: K)
    requires x in xs
    ensures FirstIndex(xs + [y], x) == FirstIndex(xs, x)
  {
    var i, j := FirstIndex(xs + [y], x), FirstIndex(xs, x);
    assert (xs + [y])[..j] == xs[..j];
    assert (xs + [y])[j] == x;

  }

  /** Appending new elements keeps the old ones in front, and adds exactly the elements of `xs`. */
  lemma {:induction false} AppendAllNewContents<K>(ks: seq<K>, xs: seq<K>)
    ensures ks <= AppendAllNew(ks, xs)
    ensures forall x :: x in AppendAllNew(ks, xs) <==> x in ks || x in xs
    ensures NoDuplicates(ks) ==> NoDuplicates(AppendAllNew(ks, xs))
    decreases |xs|
  {
    if xs != [] {
      var init := xs[..|xs| - 1];
      AppendAllNewContents(ks, init);
      assert xs == init + [xs[|xs| - 1]];
    }
  }

  /** Appending `xs` then `ys` is appending `xs + ys`. */
  lemma {:induction false} AppendAllNewConcat<K>(ks: seq<K>, xs: seq<K>, ys: seq<K>)
    ensures AppendAllNew(ks, xs + ys) == AppendAllNew(AppendAllNew(ks, xs), ys)
    decreases |ys|
  {
    if ys == [] {
      assert xs + ys == xs;
    } else {
      var init := ys[..|ys| - 1];
      assert (xs + ys)[..|xs + ys| - 1] == xs + init;
      AppendAllNewConcat(ks, xs, init);
    }
  }

  /** Elements that are all present already add nothing. */
  lemma {:induction false} AppendAllNewPresent<K>(ks: seq<K>, xs: seq<K>)
    requires forall x :: x in xs ==> x in ks
    ensures AppendAllNew(ks, xs) == ks
    decreases |xs|
  {
    if xs != [] {
      AppendAllNewPresent(ks, xs[..|xs| - 1]);
    }
  }

  /**
   * `Distinct(xs)` holds every element of `xs` once, and lists them in the
   * order in which they first appear in `xs`.
   */
  lemma {:induction false} DistinctFirstAppearance<K>(xs: seq<K>)
    ensures forall x :: x in Distinct(xs) <==> x in xs
    ensures NoDuplicates(Distinct(xs))
    ensures forall i, j :: 0 <= i < j < |Distinct(xs)| ==>
              FirstIndex(xs, Distinct(xs)[i]) < FirstIndex(xs, Distinct(xs)[j])
    decreases |xs|
  {
    AppendAllNewContents([], xs);
    if xs != [] {
      var init, y := xs[..|xs| - 1], xs[|xs| - 1];
      assert xs == init + [y];
      DistinctFirstAppearance(init);
      var d := Distinct(init);
      forall x | x in init
        ensures FirstIndex(xs, x) == FirstIndex(init, x)
      {
        FirstIndexAppend(init, y, x);
      }
      if y !in d {
        assert y !in init;
        assert FirstIndex(xs, y) == |init|;
      }
    }
  }
}
