/**
 * A JavaScript `Map` as the relay uses it for a room's participant table:
 * an association list kept in insertion order, because `Map.forEach`
 * visits entries in that order and `Map.set` on a key that is already
 * present overwrites the value where the entry stands.
 */
module ParticipantTable {
  import opened Wrappers

  type Table<K, V> = seq<(K, V)>

  /** No key occurs twice; every table that `Put` and `Delete` build from the empty one is like this. */
  ghost predicate DistinctKeys<K, V>(t: Table<K, V>)
  {
    forall i, j :: 0 <= i < j < |t| ==> t[i].0 != t[j].0
  }

  /** `Map.get`: the value stored under `k`, if any. */
  function Lookup<K(==, !new), V>(t: Table<K, V>, k: K): (r: Option<V>)
    ensures r.None? <==> forall i :: 0 <= i < |t| ==> t[i].0 != k
    ensures r.Some? ==> (k, r.value) in t
  {
    if t == [] then None
    else if t[0].0 == k then Some(t[0].1)
    else Lookup(t[1..], k)
  }

  /** `Map.set`: overwrite the entry for `k` where it stands, or append a new entry at the end. */
  function Put<K(==, !new), V>(t: Table<K, V>, k: K, v: V): (r: Table<K, V>)
    ensures Lookup(r, k) == Some(v)
    ensures forall k' :: k' != k ==> Lookup(r, k') == Lookup(t, k')
    ensures Lookup(t, k).None? ==> r == t + [(k, v)]
    ensures Lookup(t, k).Some? ==> |r| == |t|
  {
    if t == [] then [(k, v)]
    else if t[0].0 == k then [(k, v)] + t[1..]
    else
      var rest := Put(t[1..], k, v);
      assert ([t[0]] + rest)[1..] == rest;
      [t[0]] + rest
  }

  /** On a table with distinct keys, `Put` of a present key changes that one entry's value and nothing else. */
  lemma {:induction false} PutInPlace<K(!new), V>(t: Table<K, V>, k: K, v: V)
    requires DistinctKeys(t)
    requires Lookup(t, k).Some?
    ensures |Put(t, k, v)| == |t|
    ensures forall i :: 0 <= i < |t| ==> Put(t, k, v)[i] == if t[i].0 == k then (k, v) else t[i]
  {
    var r := Put(t, k, v);
    if t[0].0 == k {
      assert r == [(k, v)] + t[1..];
      forall i | 0 < i < |t| ensures r[i] == t[i] && t[i].0 != k {
        assert t[0].0 != t[i].0;
      }
    } else {
      assert DistinctKeys(t[1..]);
      PutInPlace(t[1..], k, v);
      var rest := Put(t[1..], k, v);
      assert r == [t[0]] + rest;
      forall i | 0 < i < |t| ensures r[i] == if t[i].0 == k then (k, v) else t[i] {
        assert r[i] == rest[i - 1] && t[i] == t[1..][i - 1];
      }
    }
  }

  /** `Put` keeps the keys distinct, so a client id occurs at most once in a room. */
  lemma PutKeepsKeysDistinct<K(!new), V>(t: Table<K, V>, k: K, v: V)
    requires DistinctKeys(t)
    ensures DistinctKeys(Put(t, k, v))
  {
    var r := Put(t, k, v);
    if Lookup(t, k).Some? {
      PutInPlace(t, k, v);
      assert forall i :: 0 <= i < |t| ==> r[i].0 == t[i].0;
    }
  }

  /** `Map.delete`: drop the entry for `k`. */
  function Delete<K(==, !new), V>(t: Table<K, V>, k: K): (r: Table<K, V>)
    ensures Lookup(r, k).None?
    ensures forall k' :: k' != k ==> Lookup(r, k') == Lookup(t, k')
    ensures forall e :: e in r ==> e in t
  {
    if t == [] then []
    else if t[0].0 == k then Delete(t[1..], k)
    else
      var rest := Delete(t[1..], k);
      assert ([t[0]] + rest)[1..] == rest;
      [t[0]] + rest
  }

  /** On a table with distinct keys, `Delete` removes exactly one entry when the key is present, none otherwise, and keeps the keys distinct. */
  lemma {:induction false} DeleteSize<K(!new), V>(t: Table<K, V>, k: K)
    requires DistinctKeys(t)
    ensures |Delete(t, k)| == if Lookup(t, k).Some? then |t| - 1 else |t|
    ensures DistinctKeys(Delete(t, k))
  {
    if t != [] {
      assert DistinctKeys(t[1..]);
      DeleteSize(t[1..], k);
      if t[0].0 == k {
        assert Lookup(t[1..], k).None?;
      } else {
        var rest := Delete(t[1..], k);
        forall j | 0 <= j < |rest| ensures rest[j].0 != t[0].0 {
          assert rest[j] in rest;
          var i :| 0 <= i < |t[1..]| && t[1..][i] == rest[j];
          assert t[i + 1] == rest[j];
        }
      }
    }
  }

  /** Every entry of `Put(t, k, v)` is an entry of `t` or the new one. */
  lemma {:induction false} PutEntries<K(!new), V>(t: Table<K, V>, k: K, v: V)
    ensures forall e :: e in Put(t, k, v) ==> e in t || e == (k, v)
  {
    if t != [] && t[0].0 != k {
      PutEntries(t[1..], k, v);
    }
  }

  /** Deleting a key that was just appended gives back the table it was appended to. */
  lemma {:induction false} DeleteAppended<K(!new), V>(t: Table<K, V>, k: K, v: V)
    requires Lookup(t, k).None?
    ensures Delete(t + [(k, v)], k) == t
  {
    if t != [] {
      assert (t + [(k, v)])[1..] == t[1..] + [(k, v)];
      DeleteAppended(t[1..], k, v);
    }
  }
}
