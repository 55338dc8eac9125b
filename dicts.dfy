/**
 * Python dictionaries as association lists: keys are unique and keep the
 * order of their first insertion, and assigning to a present key replaces
 * its value in place.
 */
module Dicts {
  import opened Wrappers

  /** The position of key k, if present. */
  function KeyIndex<K(==), V>(kvs: seq<(K, V)>, k: K): (r: Option<nat>)
    ensures r.Some? ==> (r.value < |kvs| && kvs[r.value].0 == k
      && forall i :: 0 <= i < r.value ==> kvs[i].0 != k)
    ensures r.None? ==> forall i :: 0 <= i < |kvs| ==> kvs[i].0 != k
  {
    if kvs == [] then None
    else if kvs[0].0 == k then Some(0)
    else match KeyIndex(kvs[1..], k)
      case None => None
      case Some(i) => Some(i + 1)
  }

  predicate HasKey<K(==), V>(kvs: seq<(K, V)>, k: K)
  {
    KeyIndex(kvs, k).Some?
  }

  /** d.get(k) */
  function Get<K(==), V>(kvs: seq<(K, V)>, k: K): (r: Option<V>)
    ensures r.Some? <==> HasKey(kvs, k)
  {
    match KeyIndex(kvs, k)
    case None => None
    case Some(i) => Some(kvs[i].1)
  }

  /** d[k] = v */
  function Put<K(==), V>(kvs: seq<(K, V)>, k: K, v: V): (r: seq<(K, V)>)
    ensures HasKey(kvs, k) ==> |r| == |kvs|
    ensures !HasKey(kvs, k) ==> r == kvs + [(k, v)]
    ensures forall i :: 0 <= i < |kvs| ==> r[i].0 == kvs[i].0
  {
    match KeyIndex(kvs, k)
    case None => kvs + [(k, v)]
    case Some(i) => kvs[i := (k, v)]
  }

  /** The keys in insertion order. */
  function Keys<K, V>(kvs: seq<(K, V)>): (ks: seq<K>)
    ensures |ks| == |kvs| && forall i :: 0 <= i < |kvs| ==> ks[i] == kvs[i].0
  {
    if kvs == [] then [] else [kvs[0].0] + Keys(kvs[1..])
  }

  /** Unique keys: what makes a list of pairs a dictionary. */
  predicate UniqueKeys<K(==), V>(kvs: seq<(K, V)>)
  {
    forall i, j :: 0 <= i < j < |kvs| ==> kvs[i].0 != kvs[j].0
  }

  /** Assigning a key makes it map to the new value, leaves every other key alone and keeps keys unique. */
  lemma PutGet<K, V>(kvs: seq<(K, V)>, k: K, v: V, k': K)
    ensures Get(Put(kvs, k, v), k) == Some(v)
    ensures k' != k ==> Get(Put(kvs, k, v), k') == Get(kvs, k')
    ensures UniqueKeys(kvs) ==> UniqueKeys(Put(kvs, k, v))
  {
    var r := Put(kvs, k, v);
    match KeyIndex(kvs, k)
    case None =>
      assert r == kvs + [(k, v)];
      assert forall i :: 0 <= i < |kvs| ==> r[i] == kvs[i];
      assert r[|kvs|].0 == k;
      assert KeyIndex(r, k).Some?;
      if k' != k {
        match KeyIndex(kvs, k')
        case None =>
        case Some(i) => assert r[i] == kvs[i];
      }
    case Some(i) =>
      assert KeyIndex(r, k) == Some(i);
      if k' != k {
        match KeyIndex(kvs, k')
        case None =>
        case Some(j) => assert r[j] == kvs[j];
      }
  }
}
