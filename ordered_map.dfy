/**
 * The insertion-ordered map SceneManager keeps its scenes and cameras in
 * (collection/Map, which is not part of this model): an association list in
 * which `put` of a present key replaces its value where it stands and `put`
 * of a new key appends it; iteration follows the list.
 */
module OrderedMap {
  import opened Wrappers

  type Entries<K, V> = seq<(K, V)>

  predicate HasKey<K(==), V>(m: Entries<K, V>, k: K)
  {
    exists i :: 0 <= i < |m| && m[i].0 == k
  }

  /** No key appears twice. */
  predicate UniqueKeys<K(==), V>(m: Entries<K, V>)
  {
    forall i, j :: 0 <= i < j < |m| ==> m[i].0 != m[j].0
  }

  /** The position of `k`, or -1. */
  function IndexOf<K(==), V>(m: Entries<K, V>, k: K): (i: int)
    ensures -1 <= i < |m|
    ensures i >= 0 ==> m[i].0 == k && forall j :: 0 <= j < i ==> m[j].0 != k
    ensures i == -1 <==> !HasKey(m, k)
  {
    if m == [] then -1
    else if m[0].0 == k then 0
    else var r := IndexOf(m[1..], k); if r == -1 then -1 else r + 1
  }

  /** get: the value stored under `k`, or None (undefined). */
  function Get<K(==), V>(m: Entries<K, V>, k: K): (r: Option<V>)
    ensures r.None? <==> !HasKey(m, k)
    ensures r.Some? ==> exists i :: 0 <= i < |m| && m[i] == (k, r.value)
  {
    var i := IndexOf(m, k);
    if i == -1 then None else Some(m[i].1)
  }

  /** put: replace the value of a present key in place, or append a new entry. */
  function Put<K(==), V>(m: Entries<K, V>, k: K, v: V): (r: Entries<K, V>)
    ensures HasKey(m, k) ==>
      (|r| == |m| && r[IndexOf(m, k)] == (k, v)
       && forall j :: 0 <= j < |m| && j != IndexOf(m, k) ==> r[j] == m[j])
    ensures !HasKey(m, k) ==> r == m + [(k, v)]
  {
    var i := IndexOf(m, k);
    if i == -1 then m + [(k, v)] else m[i := (k, v)]
  }

  /** After put, `k` maps to `v` and every other key keeps its value; keys stay unique. */
  lemma GetPut<K, V>(m: Entries<K, V>, k: K, v: V, other: K)
    requires UniqueKeys(m)
    ensures UniqueKeys(Put(m, k, v))
    ensures Get(Put(m, k, v), k) == Some(v)
    ensures other != k ==> Get(Put(m, k, v), other) == Get(m, other)
  {
    var r := Put(m, k, v);
    if other != k && HasKey(m, other) {
      var i := IndexOf(m, other);
      assert r[i] == m[i];
      IndexOfUnique(r, other, i);
    }
    if other != k && !HasKey(m, other) {
      assert !HasKey(r, other);
    }
    if HasKey(m, k) {
      IndexOfUnique(r, k, IndexOf(m, k));
    } else {
      IndexOfUnique(r, k, |m|);
    }
  }

  /** After put, get of the same key returns the value put, with or without repeated keys. */
  lemma GetPutSame<K, V>(m: Entries<K, V>, k: K, v: V)
    ensures Get(Put(m, k, v), k) == Some(v)
  {
    var r := Put(m, k, v);
    if HasKey(m, k) {
      var i := IndexOf(m, k);
      assert r[i] == (k, v);
      assert forall j :: 0 <= j < i ==> r[j] == m[j];
      IndexOfFirst(r, k, i);
    } else {
      assert r[|m|] == (k, v);
      assert forall j :: 0 <= j < |m| ==> r[j] == m[j];
      IndexOfFirst(r, k, |m|);
    }
  }

  /** The first entry carrying a key is where IndexOf points. */
  lemma {:induction false} IndexOfFirst<K, V>(m: Entries<K, V>, k: K, i: nat)
    requires i < |m| && m[i].0 == k && forall j :: 0 <= j < i ==> m[j].0 != k
    ensures IndexOf(m, k) == i
  {
    if i > 0 {
      IndexOfFirst(m[1..], k, i - 1);
    }
  }

  /** In a list without repeated keys, a key's position is the one entry carrying it. */
  lemma IndexOfUnique<K, V>(m: Entries<K, V>, k: K, i: nat)
    requires UniqueKeys(m) && i < |m| && m[i].0 == k
    ensures IndexOf(m, k) == i
  {
  }
}
