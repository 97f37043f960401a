/**
 * The `idbKeyval` helper: a string-keyed object store ("store") inside the
 * IndexedDB database "vec-requests-store", reached through one memoised
 * open of that database.
 */
module KeyvalStore {
  import opened Wrappers
  import opened KeyOrder

  /** How the single `indexedDB.open` request settles. */
  datatype OpenResult = Opened | OpenRejected

  /** How one store operation's promise settles. */
  datatype Settled<+T> = Fulfilled(value: T) | Failed

  class IdbKeyval {
    /** What `indexedDB.open("vec-requests-store", 1)` settles to, whenever it is issued. */
    const openResult: OpenResult
    /** `dbPromise`: null until the first `getDB`, then the memoised open. */
    var dbPromise: Option<OpenResult>
    /** The contents of the object store: queued keys and their payloads. */
    var store: map<string, string>
    /** How many times `indexedDB.open` has been issued. */
    ghost var openCalls: nat

    ghost predicate Valid()
      reads this
    {
      && openCalls == (if dbPromise.Some? then 1 else 0)
      && (dbPromise.Some? ==> dbPromise.value == openResult)
    }

    /** The helper as the worker starts: nothing opened, the store as persisted. */
    constructor (persisted: map<string, string>, openResult: OpenResult)
      ensures Valid()
      ensures this.openResult == openResult && dbPromise == None && store == persisted
      ensures openCalls == 0
    {
      this.openResult := openResult;
      dbPromise := None;
      store := persisted;
      openCalls := 0;
    }

    /**
     * The first call issues the open and memoises it; every later call
     * returns the memoised settlement, a rejected one included.
     */
    method GetDB() returns (db: OpenResult)
      requires Valid()
      modifies this`dbPromise, this`openCalls
      ensures Valid()
      ensures db == openResult && dbPromise == Some(openResult)
      ensures openCalls <= 1
      ensures old(dbPromise).Some? ==> openCalls == old(openCalls)
    {
      if dbPromise.None? {
        dbPromise := Some(openResult);
        openCalls := openCalls + 1;
      }
      db := dbPromise.value;
    }

    /** `set`: upsert `key`; rejects, writing nothing, when the open was rejected. */
    method Set(key: string, val: string) returns (ok: bool)
      requires Valid()
      modifies this
      ensures Valid() && dbPromise == Some(openResult) && openCalls <= 1
      ensures ok == (openResult == Opened)
      ensures store == if ok then old(store)[key := val] else old(store)
    {
      var db := GetDB();
      if db == OpenRejected {
        return false;
      }
      store := store[key := val];
      ok := true;
    }

    /**
     * `get`: the payload stored under `key`.  `idbKeyval.get` returns the
     * IDBRequest of the lookup rather than its result; here the lookup's
     * result itself is returned.
     */
    method Get(key: string) returns (r: Settled<Option<string>>)
      requires Valid()
      modifies this`dbPromise, this`openCalls
      ensures Valid() && dbPromise == Some(openResult) && openCalls <= 1
      ensures r.Fulfilled? <==> openResult == Opened
      ensures r.Fulfilled? ==> r.value == if key in store then Some(store[key]) else None
    {
      var db := GetDB();
      if db == OpenRejected {
        return Failed;
      }
      r := Fulfilled(if key in store then Some(store[key]) else None);
    }

    /** `del`: remove `key` and nothing else. */
    method Del(key: string) returns (ok: bool)
      requires Valid()
      modifies this
      ensures Valid() && dbPromise == Some(openResult) && openCalls <= 1
      ensures ok == (openResult == Opened)
      ensures store == if ok then old(store) - {key} else old(store)
    {
      var db := GetDB();
      if db == OpenRejected {
        return false;
      }
      store := store - {key};
      ok := true;
    }

    /**
     * `keys`: walk a cursor over the store, pushing each key it visits.
     * The cursor visits every key once, in ascending key order.
     */
    method Keys() returns (r: Settled<seq<string>>)
      requires Valid()
      modifies this`dbPromise, this`openCalls
      ensures Valid() && dbPromise == Some(openResult) && openCalls <= 1
      ensures r.Fulfilled? <==> openResult == Opened
      ensures r.Fulfilled? ==> StrictlyAscending(r.value) && KeySet(r.value) == store.Keys
      ensures r.Fulfilled? ==> |r.value| == |store|
    {
      var db := GetDB();
      if db == OpenRejected {
        return Failed;
      }
      var keys: seq<string> := [];
      var unvisited := store.Keys;
      while unvisited != {}
        invariant Valid() && dbPromise == Some(openResult)
        invariant KeySet(keys) + unvisited == store.Keys
        invariant KeySet(keys) !! unvisited
        invariant |keys| + |unvisited| == |store.Keys|
        invariant StrictlyAscending(keys)
        invariant forall i, x :: 0 <= i < |keys| && x in unvisited ==> Precedes(keys[i], x)
        decreases |unvisited|
      {
        LeastExists(unvisited);
        var next :| IsLeast(next, unvisited);
        AscendingAppend(keys, next);
        KeySetAppend(keys, next);
        var keys', unvisited' := keys + [next], unvisited - {next};
        assert |unvisited'| == |unvisited| - 1;
        forall i, x | 0 <= i < |keys'| && x in unvisited'
          ensures Precedes(keys'[i], x)
        {
          if i == |keys| {
            assert keys'[i] == next && x != next;
          } else {
            assert keys'[i] == keys[i];
          }
        }
        keys, unvisited := keys', unvisited';
      }
      r := Fulfilled(keys);
    }
  }

  /**
   * A value put and read back comes back unchanged; after `del` the key
   * reads as absent, and every other key is as before.
   */
  method StoreRoundTrip(db: IdbKeyval, key: string, val: string)
    returns (afterSet: Settled<Option<string>>, afterDel: Settled<Option<string>>)
    requires db.Valid() && db.openResult == Opened
    modifies db
    ensures db.Valid()
    ensures afterSet == Fulfilled(Some(val)) && afterDel == Fulfilled(None)
    ensures db.store == old(db.store) - {key}
  {
    var _ := db.Set(key, val);
    afterSet := db.Get(key);
    var _ := db.Del(key);
    afterDel := db.Get(key);
  }
}
