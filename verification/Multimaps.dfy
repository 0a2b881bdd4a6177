/** The containers the configuration engine relies on: optional values, the set multimap of
    github.com/jwangsadinata/go-multimap/setmultimap, and Go's iteration over the keys of a map. */
module Multimaps {

  datatype Option<+T> = None | Some(value: T)

  /** A key disappears as soon as its last value is removed, so no key maps to the empty set. */
  type Multimap<K(==), V(==)> = m: map<K, set<V>> | forall k :: k in m ==> m[k] != {} witness map[]

  function Values<K, V>(m: Multimap<K, V>, k: K): set<V> {
    if k in m then m[k] else {}
  }

  function Put<K, V>(m: Multimap<K, V>, k: K, v: V): Multimap<K, V> {
    m[k := Values(m, k) + {v}]
  }

  function PutAll<K, V>(m: Multimap<K, V>, ks: set<K>, v: V): Multimap<K, V> {
    map k | k in m.Keys + ks :: Values(m, k) + if k in ks then {v} else {}
  }

  function Remove<K, V>(m: Multimap<K, V>, k: K, v: V): Multimap<K, V> {
    var rest := Values(m, k) - {v};
    if rest == {} then m - {k} else m[k := rest]
  }

  function RemoveKey<K, V>(m: Multimap<K, V>, k: K): Multimap<K, V> {
    m - {k}
  }

  /** v is associated with k. */
  predicate Has<K, V>(m: Multimap<K, V>, k: K, v: V) {
    k in m && v in m[k]
  }

  lemma PutHas<K, V>(m: Multimap<K, V>, k: K, v: V, k': K, v': V)
    ensures Has(Put(m, k, v), k', v') <==> Has(m, k', v') || (k' == k && v' == v)
  {
  }

  lemma RemoveHas<K, V>(m: Multimap<K, V>, k: K, v: V, k': K, v': V)
    ensures Has(Remove(m, k, v), k', v') <==> Has(m, k', v') && !(k' == k && v' == v)
  {
    if k' == k && Has(m, k, v') && v' != v {
      assert v' in Values(m, k) - {v};
    }
  }

  lemma RemoveKeyHas<K, V>(m: Multimap<K, V>, k: K, k': K, v': V)
    ensures Has(RemoveKey(m, k), k', v') <==> Has(m, k', v') && k' != k
  {
  }

  /** Two multimaps with the same associations are the same map: no empty key can tell them apart. */
  lemma SameAssociations<K, V>(m: Multimap<K, V>, n: Multimap<K, V>)
    requires forall k :: k in m || k in n ==> Values(m, k) == Values(n, k)
    ensures m == n
  {
  }

  /** order hands out each of the elements once. */
  ghost predicate Lists(order: seq<string>, elements: set<string>) {
    (forall x :: x in order <==> x in elements) && (forall i, j :: 0 <= i < j < |order| ==> order[i] != order[j])
  }

  ghost function Listing(elements: set<string>): (order: seq<string>)
    ensures Lists(order, elements)
  {
    if elements == {} then [] else
      var x :| x in elements;
      [x] + Listing(elements - {x})
  }
}
