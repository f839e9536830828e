/** `LinkedHashMap` in insertion order: the keys in the order they were
    first put, next to the key-to-value map. Putting an existing key
    replaces its value and keeps its place; removing a key takes it out of
    the order. */
module LinkedMap {
  import opened JavaLang

  datatype LinkedMap<K, V> = LinkedMap(keys: seq<K>, values: map<K, V>)

  predicate Distinct<K(==)>(s: seq<K>)
  {
    forall i, j :: 0 <= i < j < |s| ==> s[i] != s[j]
  }

  /** The order lists each key of the map exactly once. */
  ghost predicate Valid<K(!new), V>(m: LinkedMap<K, V>)
  {
    && Distinct(m.keys)
    && (forall k :: k in m.keys <==> k in m.values)
  }

  function Empty<K(==,!new), V>(): (r: LinkedMap<K, V>)
    ensures Valid(r) && r.keys == [] && r.values == map[]
  {
    LinkedMap([], map[])
  }

  /** `get`: the value under `k`, or `None` (Java's `null`). */
  function Get<K(==,!new), V>(m: LinkedMap<K, V>, k: K): Option<V>
  {
    if k in m.values then Some(m.values[k]) else None
  }

  /** `put`. */
  function Put<K(==,!new), V>(m: LinkedMap<K, V>, k: K, v: V): (r: LinkedMap<K, V>)
    ensures Get(r, k) == Some(v)
    ensures forall j :: j != k ==> Get(r, j) == Get(m, j)
    ensures k in m.values ==> r.keys == m.keys
    ensures k !in m.values ==> r.keys == m.keys + [k]
  {
    LinkedMap(if k in m.values then m.keys else m.keys + [k], m.values[k := v])
  }

  /** `remove`: drops `k` and its value; the other keys keep their order. */
  function Remove<K(==,!new), V>(m: LinkedMap<K, V>, k: K): (r: LinkedMap<K, V>)
    ensures Get(r, k) == None
    ensures forall j :: j != k ==> Get(r, j) == Get(m, j)
    ensures k !in m.keys ==> r.keys == m.keys
  {
    LinkedMap(RemoveFirst(m.keys, k), m.values - {k})
  }

  lemma PutValid<K(!new), V>(m: LinkedMap<K, V>, k: K, v: V)
    requires Valid(m)
    ensures Valid(Put(m, k, v))
  {
  }

  /** Dropping position `i` of a list without repeats leaves a list without
      repeats holding every other element. */
  lemma DistinctWithout<K>(s: seq<K>, i: nat)
    requires Distinct(s) && i < |s|
    ensures Distinct(s[..i] + s[i + 1..])
    ensures forall j :: j in s[..i] + s[i + 1..] <==> j in s && j != s[i]
  {
    var r := s[..i] + s[i + 1..];
    forall a, b | 0 <= a < b < |r|
      ensures r[a] != r[b]
    {
      assert r[a] == s[if a < i then a else a + 1];
      assert r[b] == s[if b < i then b else b + 1];
    }
    forall j
      ensures j in r <==> j in s && j != s[i]
    {
      if j in r {
        var a :| 0 <= a < |r| && r[a] == j;
        assert s[if a < i then a else a + 1] == j;
      }
      if j in s && j != s[i] {
        var a :| 0 <= a < |s| && s[a] == j;
        assert r[if a < i then a else a - 1] == j;
      }
    }
  }

  lemma RemoveValid<K(!new), V>(m: LinkedMap<K, V>, k: K)
    requires Valid(m)
    ensures Valid(Remove(m, k))
    ensures |Remove(m, k).keys| == |m.keys| - (if k in m.values then 1 else 0)
  {
    if k in m.keys {
      var i :| 0 <= i < |m.keys| && m.keys[i] == k;
      RemoveKeepsOrder(m, k, i);
      DistinctWithout(m.keys, i);
    }
  }

  /** Removing a key takes out exactly its place in the order. */
  lemma RemoveKeepsOrder<K(!new), V>(m: LinkedMap<K, V>, k: K, i: nat)
    requires Valid(m) && i < |m.keys| && m.keys[i] == k
    ensures Remove(m, k).keys == m.keys[..i] + m.keys[i + 1..]
  {
    assert k !in m.keys[..i];
    RemoveFirstSplits(m.keys, k, i);
  }
}
