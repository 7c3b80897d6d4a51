/**
 JavaScript's built-in `Map`: a dictionary that iterates in insertion order.
 Writing to a present key keeps its position; deleting and writing again moves
 it to the end. The caches and the metrics registry rely on exactly that.
 */
module JsMap {
  import Sorting

  datatype Raw<K, V> = Raw(order: seq<K>, entries: map<K, V>)

  ghost predicate Valid<K(!new), V>(m: Raw<K, V>) {
    && (forall k :: k in m.order <==> k in m.entries)
    && Sorting.NoDup(m.order)
  }

  type Map<K(!new), V> = m: Raw<K, V> | Valid(m) ghost witness Raw([], map[])

  function Empty<K(!new), V>(): (m: Map<K, V>)
    ensures m.order == [] && m.entries == map[]
  {
    Raw([], map[])
  }

  /** Removes the only occurrence of `k`, keeping the order of the others. */
  function Without<K(==,!new)>(s: seq<K>, k: K): (r: seq<K>)
    ensures forall x :: x in r <==> x in s && x != k
    ensures k !in s ==> r == s
    ensures Sorting.NoDup(s) ==> Sorting.NoDup(r)
  {
    if s == [] then []
    else
      var rest := Without(s[1..], k);
      assert s == [s[0]] + s[1..];
      assert Sorting.NoDup(s) ==> Sorting.NoDup(s[1..]) && s[0] !in s[1..];
      if s[0] == k then rest else [s[0]] + rest
  }

  function Set<K(==,!new), V>(m: Map<K, V>, k: K, v: V): (r: Map<K, V>)
    ensures r.entries == m.entries[k := v]
    ensures r.order == if k in m.entries then m.order else m.order + [k]
  {
    Raw(if k in m.entries then m.order else m.order + [k], m.entries[k := v])
  }

  function Delete<K(==,!new), V>(m: Map<K, V>, k: K): (r: Map<K, V>)
    ensures r.entries == m.entries - {k}
    ensures r.order == Without(m.order, k)
  {
    Raw(Without(m.order, k), m.entries - {k})
  }

  /** Delete followed by Set: the key becomes the last one in iteration order. */
  function MoveToEnd<K(==,!new), V>(m: Map<K, V>, k: K, v: V): (r: Map<K, V>)
    ensures r.entries == m.entries[k := v]
    ensures r.order == Without(m.order, k) + [k]
  {
    var d := Delete(m, k);
    assert d.entries[k := v] == m.entries[k := v];
    Set(d, k, v)
  }

  function Size<K(!new), V>(m: Map<K, V>): nat { |m.order| }

  lemma {:induction false} SizeIsCardinality<K(!new), V>(m: Map<K, V>)
    ensures |m.order| == |m.entries|
  {
    NoDupCardinality(m.order, m.entries.Keys);
    assert |m.entries| == |m.entries.Keys|;
  }

  lemma {:induction false} NoDupCardinality<K(!new)>(s: seq<K>, keys: set<K>)
    requires Sorting.NoDup(s)
    requires forall k :: k in s <==> k in keys
    ensures |s| == |keys|
  {
    if s == [] {
      assert keys == {};
    } else {
      assert s[0] in keys;
      var rest := keys - {s[0]};
      forall k ensures k in s[1..] <==> k in rest {
        assert s == [s[0]] + s[1..];
      }
      NoDupCardinality(s[1..], rest);
    }
  }

  /** A duplicate-free sequence is no longer than any finite set holding its elements. */
  lemma {:induction false} NoDupBound<K(!new)>(s: seq<K>, bound: set<K>)
    requires Sorting.NoDup(s)
    requires forall k :: k in s ==> k in bound
    ensures |s| <= |bound|
  {
    if s != [] {
      assert s[0] in s;
      forall k | k in s[1..] ensures k in bound - {s[0]} {
        assert k in s;
      }
      NoDupBound(s[1..], bound - {s[0]});
    }
  }
}
