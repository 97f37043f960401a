/**
 * The `activate` handler's cleanup: of all cache-store names reported by
 * `caches.keys()`, every name other than the current version is deleted.
 */
module CacheReclaim {

  /** The one cache version this worker reads from and writes to. */
  const CACHE_NAME: string := "vec-english-cache-v1"

  /** The names the handler passes to `caches.delete`, in listing order. */
  function StaleCaches(keys: seq<string>): (doomed: seq<string>)
    ensures |doomed| <= |keys|
    ensures forall k :: k in doomed <==> k in keys && k != CACHE_NAME
  {
    if keys == [] then []
    else if keys[0] != CACHE_NAME then [keys[0]] + StaleCaches(keys[1..])
    else StaleCaches(keys[1..])
  }

  /** The names still listed once the named stores have been deleted. */
  function Without(keys: seq<string>, doomed: seq<string>): (left: seq<string>)
    ensures |left| <= |keys|
    ensures forall k :: k in left <==> k in keys && k !in doomed
  {
    if keys == [] then []
    else if keys[0] in doomed then Without(keys[1..], doomed)
    else [keys[0]] + Without(keys[1..], doomed)
  }

  /** The cache-store names left after one activation. */
  function Reclaim(keys: seq<string>): (left: seq<string>)
  {
    Without(keys, StaleCaches(keys))
  }

  /** Only the current version survives, and it survives exactly when it was there. */
  lemma ReclaimKeepsOnlyCurrent(keys: seq<string>)
    ensures forall k :: k in Reclaim(keys) ==> k == CACHE_NAME
    ensures CACHE_NAME in Reclaim(keys) <==> CACHE_NAME in keys
  {
  }

  /** Every listed name is either deleted or kept, never both, never lost. */
  lemma {:induction false} ReclaimPartitions(keys: seq<string>)
    ensures multiset(StaleCaches(keys)) + multiset(Reclaim(keys)) == multiset(keys)
  {
    if keys != [] {
      ReclaimPartitions(keys[1..]);
      assert keys == [keys[0]] + keys[1..];
      var rest := keys[1..];
      if keys[0] != CACHE_NAME {
        assert keys[0] in StaleCaches(keys);
        WithoutSame(rest, StaleCaches(rest), StaleCaches(keys));
      } else {
        assert StaleCaches(keys) == StaleCaches(rest);
      }
    }
  }

  /** Filtering depends only on which of the remaining names are doomed. */
  lemma {:induction false} WithoutSame(keys: seq<string>, d1: seq<string>, d2: seq<string>)
    requires forall k :: k in keys ==> (k in d1 <==> k in d2)
    ensures Without(keys, d1) == Without(keys, d2)
  {
    if keys != [] {
      WithoutSame(keys[1..], d1, d2);
    }
  }

  /** When only the current version is listed, activation deletes nothing. */
  lemma {:induction false} NothingStale(keys: seq<string>)
    requires forall k :: k in keys ==> k == CACHE_NAME
    ensures StaleCaches(keys) == []
    ensures Reclaim(keys) == keys
  {
    if keys != [] {
      assert keys[0] in keys;
      assert forall k :: k in keys[1..] ==> k in keys;
      NothingStale(keys[1..]);
      assert keys == [keys[0]] + keys[1..];
    }
  }

  /** A second activation deletes nothing and changes nothing. */
  lemma ReclaimIdempotent(keys: seq<string>)
    ensures StaleCaches(Reclaim(keys)) == []
    ensures Reclaim(Reclaim(keys)) == Reclaim(keys)
  {
    ReclaimKeepsOnlyCurrent(keys);
    NothingStale(Reclaim(keys));
  }

  /** `caches.keys()` lists each store once; then exactly one store, or none, is left. */
  lemma {:induction false} ReclaimLeavesOne(keys: seq<string>)
    requires forall i, j :: 0 <= i < j < |keys| ==> keys[i] != keys[j]
    ensures Reclaim(keys) == if CACHE_NAME in keys then [CACHE_NAME] else []
  {
    if keys != [] {
      var rest := keys[1..];
      ReclaimLeavesOne(rest);
      if keys[0] == CACHE_NAME {
        assert CACHE_NAME !in rest;
        WithoutSame(rest, StaleCaches(rest), StaleCaches(keys));
        assert StaleCaches(keys) == StaleCaches(rest);
        NothingStale(Reclaim(rest));
      } else {
        assert keys[0] in StaleCaches(keys);
        WithoutSame(rest, StaleCaches(rest), StaleCaches(keys));
      }
    }
  }
}
