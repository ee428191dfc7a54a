/**
 * A JavaScript object with string keys seen as an ordered list of entries:
 * assigning to a key that exists replaces its value in place, a new key goes
 * at the end. `Object.entries` and `Object.keys` read the list in that order.
 */
module Assoc {
  import opened Wrappers
  import opened Seqs

  type Entries<K, V> = seq<(K, V)>

  function Keys<K, V>(m: Entries<K, V>): (ks: seq<K>)
    ensures |ks| == |m| && forall i :: 0 <= i < |m| ==> ks[i] == m[i].0
  {
    if m == [] then [] else Keys(m[..|m| - 1]) + [m[|m| - 1].0]
  }

  predicate DistinctKeys<K(==), V>(m: Entries<K, V>) {
    forall i, j :: 0 <= i < j < |m| ==> m[i].0 != m[j].0
  }

  predicate HasKey<K(==), V>(m: Entries<K, V>, k: K) {
    exists i :: 0 <= i < |m| && m[i].0 == k
  }

  /** A key is present exactly when it is among `Object.keys`. */
  lemma HasKeyIffInKeys<K, V>(m: Entries<K, V>, k: K)
    ensures HasKey(m, k) <==> k in Keys(m)
  {
    if HasKey(m, k) {
      var i :| 0 <= i < |m| && m[i].0 == k;
      assert Keys(m)[i] == k;
    }
    if k in Keys(m) {
      var i :| 0 <= i < |Keys(m)| && Keys(m)[i] == k;
      assert m[i].0 == k;
    }
  }

  /** `obj[k]`: the value stored under the first entry for `k`, if any. */
  function Lookup<K(==), V>(m: Entries<K, V>, k: K): (r: Option<V>)
    ensures r.None? <==> !HasKey(m, k)
    ensures r.Some? ==> exists i :: 0 <= i < |m| && m[i] == (k, r.value)
  {
    if m == [] then None
    else if m[0].0 == k then Some(m[0].1)
    else
      var r := Lookup(m[1..], k);
      assert forall i :: 0 < i < |m| ==> m[i] == m[1..][i - 1];
      r
  }

  /** `obj[k] = v` */
  function Put<K(==), V>(m: Entries<K, V>, k: K, v: V): (r: Entries<K, V>)
    ensures HasKey(m, k) ==> |r| == |m|
    ensures !HasKey(m, k) ==> r == m + [(k, v)]
    ensures forall i :: 0 <= i < |m| ==> r[i].0 == m[i].0
  {
    if m == [] then [(k, v)]
    else if m[0].0 == k then [(k, v)] + m[1..]
    else
      assert forall i :: 0 < i < |m| ==> m[i] == m[1..][i - 1];
      [m[0]] + Put(m[1..], k, v)
  }

  /** After `obj[k] = v`, `obj[k]` is `v` and every other key reads as before. */
  lemma {:induction false} LookupPut<K, V>(m: Entries<K, V>, k: K, v: V, j: K)
    ensures Lookup(Put(m, k, v), j) == if j == k then Some(v) else Lookup(m, j)
  {
    if m != [] && m[0].0 != k {
      LookupPut(m[1..], k, v, j);
    }
  }

  /** Assignment keeps the key order: an existing key stays where it was, a new one goes last. */
  lemma KeysPut<K, V>(m: Entries<K, V>, k: K, v: V)
    ensures Keys(Put(m, k, v)) == if HasKey(m, k) then Keys(m) else Keys(m) + [k]
  {
    var r := Put(m, k, v);
    if HasKey(m, k) {
      assert Keys(r) == Keys(m);
    } else {
      assert Keys(r) == Keys(m) + [k];
    }
  }

  /** When the keys are the first-seen list of some sequence, assigning a key extends that list like one more occurrence does. */
  lemma KeysPutDedup<K, V>(m: Entries<K, V>, ids: seq<K>, k: K, v: V)
    requires Keys(m) == Dedup(ids)
    ensures Keys(Put(m, k, v)) == Dedup(ids + [k])
  {
    KeysPut(m, k, v);
    HasKeyIffInKeys(m, k);
    DedupSnoc(ids, k);
  }

  /** Assignment never creates a second entry for a key. */
  lemma PutDistinct<K, V>(m: Entries<K, V>, k: K, v: V)
    requires DistinctKeys(m)
    ensures DistinctKeys(Put(m, k, v))
  {
    KeysPut(m, k, v);
    var r := Put(m, k, v);
    assert Keys(r) == Keys(m) || Keys(r) == Keys(m) + [k];
    assert forall i :: 0 <= i < |r| ==> r[i].0 == Keys(r)[i];
  }

  /** A `reduce` over `Object.entries(m)` that assigns each key `f` of its value. */
  function MapValues<K(==), V, W>(m: Entries<K, V>, f: V -> W): Entries<K, W> {
    if m == [] then []
    else
      var n := |m| - 1;
      Put(MapValues(m[..n], f), m[n].0, f(m[n].1))
  }

  /** Dropping the last entry keeps distinct keys distinct and leaves out the last key. */
  lemma DistinctKeysPrefix<K, V>(m: Entries<K, V>)
    requires m != [] && DistinctKeys(m)
    ensures DistinctKeys(m[..|m| - 1]) && !HasKey(m[..|m| - 1], m[|m| - 1].0)
  {
    var prefix := m[..|m| - 1];
    forall i, j | 0 <= i < j < |prefix| ensures prefix[i].0 != prefix[j].0 {
      assert prefix[i] == m[i] && prefix[j] == m[j];
    }
    forall i | 0 <= i < |prefix| ensures prefix[i].0 != m[|m| - 1].0 {
      assert prefix[i] == m[i];
    }
  }

  /** Mapping the values of an object with distinct keys keeps its keys in order. */
  lemma {:induction false} MapValuesKeys<K, V, W>(m: Entries<K, V>, f: V -> W)
    requires DistinctKeys(m)
    ensures Keys(MapValues(m, f)) == Keys(m)
  {
    if m != [] {
      var n := |m| - 1;
      DistinctKeysPrefix(m);
      MapValuesKeys(m[..n], f);
      KeysPut(MapValues(m[..n], f), m[n].0, f(m[n].1));
      HasKeyIffInKeys(MapValues(m[..n], f), m[n].0);
      HasKeyIffInKeys(m[..n], m[n].0);
      assert Keys(m) == Keys(m[..n]) + [m[n].0];
    }
  }

  /** Appending an entry for a new key leaves every other lookup as it was. */
  lemma LookupSnocNew<K, V>(m: Entries<K, V>, key: K, v: V, k: K)
    requires !HasKey(m, key)
    ensures Lookup(m + [(key, v)], k) == if k == key then Some(v) else Lookup(m, k)
  {
    LookupPut(m, key, v, k);
  }

  /** Each key of an object with distinct keys maps to `f` of its own value. */
  lemma {:induction false} MapValuesLookup<K, V, W>(m: Entries<K, V>, f: V -> W, k: K)
    requires DistinctKeys(m)
    ensures Lookup(MapValues(m, f), k) == match Lookup(m, k) case Some(v) => Some(f(v)) case None => None
  {
    if m != [] {
      var n := |m| - 1;
      DistinctKeysPrefix(m);
      MapValuesLookup(m[..n], f, k);
      LookupPut(MapValues(m[..n], f), m[n].0, f(m[n].1), k);
      LookupSnocNew(m[..n], m[n].0, m[n].1, k);
      assert m == m[..n] + [(m[n].0, m[n].1)];
    }
  }
}
