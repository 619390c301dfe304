/** Python dictionaries as insertion-ordered association lists: assigning to a
    present key replaces its value in place, a new key goes to the end. */
module Dicts {
  import opened Wrappers
  import Seqs

  type Dict<K, V> = seq<(K, V)>

  /** The keys in iteration order. */
  function KeySeq<K, V>(d: Dict<K, V>): (r: seq<K>)
    ensures |r| == |d|
    ensures forall i :: 0 <= i < |d| ==> r[i] == d[i].0
  {
    if d == [] then [] else [d[0].0] + KeySeq(d[1..])
  }

  predicate DistinctKeys<K(==), V>(d: Dict<K, V>) {
    Seqs.NoDuplicates(KeySeq(d))
  }

  /** `d.get(k)`. */
  function Get<K(==), V>(d: Dict<K, V>, k: K): (r: Option<V>)
    ensures r.Some? <==> k in KeySeq(d)
  {
    if d == [] then None
    else if d[0].0 == k then Some(d[0].1)
    else
      assert KeySeq(d) == [d[0].0] + KeySeq(d[1..]);
      Get(d[1..], k)
  }

  /** `d[k] = v`. */
  function Put<K(==), V>(d: Dict<K, V>, k: K, v: V): (r: Dict<K, V>)
    ensures k in KeySeq(d) ==> KeySeq(r) == KeySeq(d)
    ensures k !in KeySeq(d) ==> KeySeq(r) == KeySeq(d) + [k]
  {
    if d == [] then [(k, v)]
    else if d[0].0 == k then
      var r := [(k, v)] + d[1..];
      assert r[1..] == d[1..];
      r
    else
      var r := [d[0]] + Put(d[1..], k, v);
      assert r[1..] == Put(d[1..], k, v);
      assert KeySeq(d) == [d[0].0] + KeySeq(d[1..]);
      r
  }

  /** After `d[k] = v`, `k` maps to `v` and every other key to what it did. */
  lemma {:induction false} PutGet<K, V>(d: Dict<K, V>, k: K, v: V, k': K)
    ensures Get(Put(d, k, v), k') == if k' == k then Some(v) else Get(d, k')
  {
    if d != [] && d[0].0 != k {
      PutGet(d[1..], k, v, k');
      var r := Put(d, k, v);
      assert r[1..] == Put(d[1..], k, v);
    }
  }

  lemma PutGetAll<K, V>(d: Dict<K, V>, k: K, v: V)
    ensures forall k' :: Get(Put(d, k, v), k') == if k' == k then Some(v) else Get(d, k')
  {
    forall k' ensures Get(Put(d, k, v), k') == if k' == k then Some(v) else Get(d, k') {
      PutGet(d, k, v, k');
    }
  }

  /** Assigning keeps the keys distinct. */
  lemma PutDistinct<K(!new), V>(d: Dict<K, V>, k: K, v: V)
    requires DistinctKeys(d)
    ensures DistinctKeys(Put(d, k, v))
  {
    if k !in KeySeq(d) {
      var ks := KeySeq(d);
      var r := ks + [k];
      forall i, j | 0 <= i < j < |r| ensures r[i] != r[j] {
        if j < |ks| {
          assert r[i] == ks[i] && r[j] == ks[j];
        }
      }
    }
  }

  /** In a dictionary with distinct keys, looking up the key at position `i`
      finds the value at position `i`. */
  lemma {:induction false} GetAt<K, V>(d: Dict<K, V>, i: nat)
    requires DistinctKeys(d) && i < |d|
    ensures Get(d, d[i].0) == Some(d[i].1)
  {
    if i > 0 {
      assert KeySeq(d)[0] != KeySeq(d)[i];
      assert DistinctKeys(d[1..]) by {
        var ks := KeySeq(d[1..]);
        forall a, b | 0 <= a < b < |ks| ensures ks[a] != ks[b] {
          assert ks[a] == KeySeq(d)[a + 1] && ks[b] == KeySeq(d)[b + 1];
        }
      }
      GetAt(d[1..], i - 1);
    }
  }
}
