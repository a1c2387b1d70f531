/**
 * Python's `dict`: key/value pairs kept in insertion order. Assigning to a key
 * that is already present replaces its value in place; a new key goes to the
 * end. Iteration (`keys()`, `values()`) follows that order.
 */
module Dict {
  import opened Wrappers

  datatype Dict<K, V> = Dict(items: seq<(K, V)>)

  function Empty<K, V>(): (d: Dict<K, V>)
    ensures Valid(d) && Keys(d) == []
  {
    Dict([])
  }

  /** No key occurs twice. */
  ghost predicate Valid<K, V>(d: Dict<K, V>) {
    forall i, j :: 0 <= i < j < |d.items| ==> d.items[i].0 != d.items[j].0
  }

  function Keys<K, V>(d: Dict<K, V>): (ks: seq<K>)
    ensures |ks| == |d.items|
    ensures forall i :: 0 <= i < |ks| ==> ks[i] == d.items[i].0
  {
    seq(|d.items|, i requires 0 <= i < |d.items| => d.items[i].0)
  }

  function Values<K, V>(d: Dict<K, V>): (vs: seq<V>)
    ensures |vs| == |d.items|
    ensures forall i :: 0 <= i < |vs| ==> vs[i] == d.items[i].1
  {
    seq(|d.items|, i requires 0 <= i < |d.items| => d.items[i].1)
  }

  /** Position of the first pair with key `k`. */
  function IndexOf<K(==), V>(items: seq<(K, V)>, k: K): (r: Option<nat>)
    ensures r.Some? ==> r.value < |items| && items[r.value].0 == k
    ensures r.Some? ==> forall j :: 0 <= j < r.value ==> items[j].0 != k
    ensures r.None? <==> forall j :: 0 <= j < |items| ==> items[j].0 != k
  {
    if |items| == 0 then None
    else if items[0].0 == k then Some(0)
    else match IndexOf(items[1..], k)
      case None => None
      case Some(i) => Some(i + 1)
  }

  /** `d.get(k)`: the value stored under `k`, or None when `k` is absent. */
  function Get<K(==), V>(d: Dict<K, V>, k: K): (r: Option<V>)
    ensures r.Some? <==> k in Keys(d)
    ensures Valid(d) ==> forall i :: 0 <= i < |d.items| && d.items[i].0 == k ==> r == Some(d.items[i].1)
  {
    match IndexOf(d.items, k)
    case None => None
    case Some(i) => Some(d.items[i].1)
  }

  /** `d[k] = v`. */
  function Set<K(==,!new), V>(d: Dict<K, V>, k: K, v: V): (r: Dict<K, V>)
    ensures Valid(d) ==> Valid(r)
    ensures Get(r, k) == Some(v)
    ensures forall k' :: k' != k ==> Get(r, k') == Get(d, k')
    ensures k in Keys(d) ==> Keys(r) == Keys(d)
    ensures k !in Keys(d) ==> Keys(r) == Keys(d) + [k]
  {
    match IndexOf(d.items, k)
    case None =>
      AppendAssigns(d, k, v);
      Dict(d.items + [(k, v)])
    case Some(i) =>
      ReplaceAssigns(d, k, v, i);
      Dict(d.items[i := (k, v)])
  }

  /** `r` is `d` after `d[k] = v`, as far as lookups and key order tell. */
  ghost predicate Assigned<K(!new), V>(d: Dict<K, V>, k: K, v: V, r: Dict<K, V>) {
    && (Valid(d) ==> Valid(r))
    && Get(r, k) == Some(v)
    && (forall k' :: k' != k ==> Get(r, k') == Get(d, k'))
    && (k in Keys(d) ==> Keys(r) == Keys(d))
    && (k !in Keys(d) ==> Keys(r) == Keys(d) + [k])
  }

  lemma AppendAssigns<K(!new), V>(d: Dict<K, V>, k: K, v: V)
    requires IndexOf(d.items, k).None?
    ensures Assigned(d, k, v, Dict(d.items + [(k, v)]))
  {
    var r := Dict(d.items + [(k, v)]);
    assert r.items[|d.items|].0 == k;
    assert IndexOf(r.items, k) == Some(|d.items|);
    assert Keys(r) == Keys(d) + [k];
    forall k' | k' != k ensures Get(r, k') == Get(d, k') {
      IndexOfAppend(d.items, (k, v), k');
    }
  }

  lemma ReplaceAssigns<K(!new), V>(d: Dict<K, V>, k: K, v: V, i: nat)
    requires IndexOf(d.items, k) == Some(i)
    ensures Assigned(d, k, v, Dict(d.items[i := (k, v)]))
  {
    var r := Dict(d.items[i := (k, v)]);
    assert forall j :: 0 <= j < |d.items| ==> r.items[j].0 == d.items[j].0;
    assert Keys(r) == Keys(d);
    forall k' ensures Get(r, k') == if k' == k then Some(v) else Get(d, k') {
      IndexOfSameKeys(d.items, r.items, k');
    }
  }

  /** Appending a pair with another key does not move any lookup. */
  lemma IndexOfAppend<K, V>(a: seq<(K, V)>, p: (K, V), k: K)
    requires p.0 != k
    ensures IndexOf(a + [p], k) == IndexOf(a, k)
  {
    if |a| > 0 && a[0].0 != k {
      assert (a + [p])[1..] == a[1..] + [p];
      IndexOfAppend(a[1..], p, k);
    }
  }

  /** Lookup positions depend only on the keys. */
  lemma IndexOfSameKeys<K, V>(a: seq<(K, V)>, b: seq<(K, V)>, k: K)
    requires |a| == |b|
    requires forall i :: 0 <= i < |a| ==> a[i].0 == b[i].0
    ensures IndexOf(a, k) == IndexOf(b, k)
  {
    if |a| > 0 && a[0].0 != k {
      IndexOfSameKeys(a[1..], b[1..], k);
    }
  }

  /**
   * The elements of `s` in order of first occurrence: the key order of a dict
   * after assigning the keys of `s` in turn.
   */
  function Distinct<T(==,!new)>(s: seq<T>): (r: seq<T>)
    ensures forall x :: x in r <==> x in s
    ensures forall i, j :: 0 <= i < j < |r| ==> r[i] != r[j]
  {
    if s == [] then []
    else
      var d := Distinct(s[..|s| - 1]);
      assert s == s[..|s| - 1] + [s[|s| - 1]];
      if s[|s| - 1] in d then d else d + [s[|s| - 1]]
  }

  /** The index of the first occurrence of `x` in `s`. */
  function Position<T(==)>(s: seq<T>, x: T): (i: nat)
    requires x in s
    ensures i < |s| && s[i] == x
    ensures forall j :: 0 <= j < i ==> s[j] != x
  {
    if s[0] == x then 0 else 1 + Position(s[1..], x)
  }

  /** A first occurrence inside a prefix is still the first occurrence in the whole. */
  lemma PositionInPrefix<T>(p: seq<T>, y: T, x: T)
    requires x in p
    ensures Position(p + [y], x) == Position(p, x)
  {
    var a := Position(p, x);
    var b := Position(p + [y], x);
    assert (p + [y])[a] == x;
  }

  /** `Distinct(s)` lists the elements of `s` in order of first occurrence. */
  lemma {:induction false} DistinctInFirstOccurrenceOrder<T(!new)>(s: seq<T>, i: nat, j: nat)
    requires i < j < |Distinct(s)|
    ensures Distinct(s)[i] in s && Distinct(s)[j] in s
    ensures Position(s, Distinct(s)[i]) < Position(s, Distinct(s)[j])
  {
    var p := s[..|s| - 1];
    var y := s[|s| - 1];
    assert s == p + [y];
    var d := Distinct(p);
    assert d[i] in d;
    PositionInPrefix(p, y, d[i]);
    if j < |d| {
      assert d[j] in d;
      DistinctInFirstOccurrenceOrder(p, i, j);
      PositionInPrefix(p, y, d[j]);
    } else {
      assert y !in p;
      assert Position(s, y) == |p|;
    }
  }
}
