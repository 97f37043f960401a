/**
 * The `sync` listener and `sendStoredRequests`: snapshot the queued keys,
 * then for each key in turn read its payload, POST it to the upload
 * endpoint and delete the key.  A rejected POST ends the drain; a resolved
 * one leads to deletion whatever its HTTP status.
 */
module SyncDrain {
  import opened Wrappers
  import opened KeyOrder
  import opened KeyvalStore

  /** The background-sync tag that names this application's retry queue. */
  const SYNC_TAG: string := "sync-form-data"

  /** How one replay POST settled: with an HTTP status, or rejected by the network. */
  datatype PostOutcome = Resolved(status: int) | Rejected

  /** How many of `n` queued keys are deleted before the first rejected POST. */
  function DeliveredCount(n: nat, replies: seq<PostOutcome>): (k: nat)
    requires |replies| >= n
    ensures k <= n
    ensures forall i :: 0 <= i < k ==> replies[i].Resolved?
    ensures k < n ==> replies[k].Rejected?
  {
    if n == 0 || replies[0].Rejected? then 0
    else 1 + DeliveredCount(n - 1, replies[1..])
  }

  /** The queue after draining `keys` in order, one loop iteration at a time. */
  function Drain(keys: seq<string>, queue: map<string, string>, replies: seq<PostOutcome>): (left: map<string, string>)
    requires |replies| >= |keys|
  {
    if keys == [] then queue
    else match replies[0]
      case Rejected => queue
      case Resolved(_) => Drain(keys[1..], queue - {keys[0]}, replies[1..])
  }

  /** Draining removes exactly the keys before the first rejected POST. */
  lemma {:induction false} DrainRemovesPrefix(keys: seq<string>, queue: map<string, string>, replies: seq<PostOutcome>)
    requires |replies| >= |keys|
    ensures Drain(keys, queue, replies) == queue - KeySet(keys[..DeliveredCount(|keys|, replies)])
  {
    if keys != [] && replies[0].Resolved? {
      var k := DeliveredCount(|keys|, replies);
      DrainRemovesPrefix(keys[1..], queue - {keys[0]}, replies[1..]);
      assert keys[1..][..k - 1] == keys[1..k];
      assert KeySet(keys[..k]) == {keys[0]} + KeySet(keys[1..k]) by {
        assert keys[..k] == [keys[0]] + keys[1..k];
      }
    } else {
      assert keys[..0] == [];
    }
  }

  /**
   * If the POST of key `i` is the first to reject, the keys before it are
   * gone, and it and every later key keep their payloads; keys outside the
   * snapshot are untouched.
   */
  lemma DrainStopsAtRejection(keys: seq<string>, queue: map<string, string>, replies: seq<PostOutcome>, i: nat)
    requires |replies| >= |keys| && Distinct(keys)
    requires i < |keys| && replies[i].Rejected?
    requires forall j :: 0 <= j < i ==> replies[j].Resolved?
    ensures forall j :: 0 <= j < i ==> keys[j] !in Drain(keys, queue, replies)
    ensures forall j :: i <= j < |keys| && keys[j] in queue ==>
              keys[j] in Drain(keys, queue, replies) && Drain(keys, queue, replies)[keys[j]] == queue[keys[j]]
    ensures forall x :: x in queue && x !in keys ==>
              x in Drain(keys, queue, replies) && Drain(keys, queue, replies)[x] == queue[x]
  {
    var k := DeliveredCount(|keys|, replies);
    assert k == i;
    DrainRemovesPrefix(keys, queue, replies);
    forall j | i <= j < |keys|
      ensures keys[j] !in KeySet(keys[..i])
    {
      DistinctPrefixExcludes(keys, i, j);
    }
  }

  /**
   * A queued snapshot key is deleted exactly when it lies before the first
   * rejected POST, so every deleted key had its own POST resolve.
   */
  lemma DrainDeletesExactlyDelivered(keys: seq<string>, queue: map<string, string>,
                                     replies: seq<PostOutcome>, j: nat)
    requires |replies| >= |keys| && Distinct(keys)
    requires j < |keys| && keys[j] in queue
    ensures keys[j] !in Drain(keys, queue, replies) <==> j < DeliveredCount(|keys|, replies)
    ensures keys[j] !in Drain(keys, queue, replies) ==> replies[j].Resolved?
  {
    var k := DeliveredCount(|keys|, replies);
    DrainRemovesPrefix(keys, queue, replies);
    if j < k {
      assert keys[..k][j] == keys[j];
    } else {
      DistinctPrefixExcludes(keys, k, j);
    }
  }

  /** If every POST resolves, the whole snapshot is removed, whatever the HTTP statuses. */
  lemma DrainAllResolved(keys: seq<string>, queue: map<string, string>, replies: seq<PostOutcome>)
    requires |replies| >= |keys|
    requires forall j :: 0 <= j < |keys| ==> replies[j].Resolved?
    ensures Drain(keys, queue, replies) == queue - KeySet(keys)
  {
  }

  /** Only whether each POST rejected matters; the HTTP status is never consulted. */
  lemma {:induction false} DrainIgnoresStatus(keys: seq<string>, queue: map<string, string>,
                                              r1: seq<PostOutcome>, r2: seq<PostOutcome>)
    requires |r1| >= |keys| && |r2| >= |keys|
    requires forall i :: 0 <= i < |keys| ==> r1[i].Rejected? == r2[i].Rejected?
    ensures Drain(keys, queue, r1) == Drain(keys, queue, r2)
  {
    if keys != [] && r1[0].Resolved? {
      DrainIgnoresStatus(keys[1..], queue - {keys[0]}, r1[1..], r2[1..]);
    }
  }

  lemma ScenarioKeysAscending()
    ensures StrictlyAscending(["req-100", "req-200", "req-300"])
    ensures KeySet(["req-100", "req-200", "req-300"]) == {"req-100", "req-200", "req-300"}
  {
  }

  /**
   * Keys req-100, req-200, req-300 holding A, B, C; the first two POSTs are
   * answered and the third throws.  Only req-300 is left queued.
   */
  lemma DrainScenario(snapshot: seq<string>)
    requires StrictlyAscending(snapshot)
    requires KeySet(snapshot) == {"req-100", "req-200", "req-300"}
    ensures snapshot == ["req-100", "req-200", "req-300"]
    ensures Drain(snapshot, map["req-100" := "A", "req-200" := "B", "req-300" := "C"],
                  [Resolved(200), Resolved(200), Rejected])
            == map["req-300" := "C"]
  {
    var expected := ["req-100", "req-200", "req-300"];
    ScenarioKeysAscending();
    AscendingUnique(snapshot, expected);
    var queue := map["req-100" := "A", "req-200" := "B", "req-300" := "C"];
    var replies := [Resolved(200), Resolved(200), Rejected];
    DrainRemovesPrefix(expected, queue, replies);
    assert DeliveredCount(3, replies) == 2;
    assert expected[..2] == ["req-100", "req-200"];
    assert KeySet(["req-100", "req-200"]) == {"req-100", "req-200"};
    assert queue - {"req-100", "req-200"} == map["req-300" := "C"];
  }

  /** One loop iteration: the next key is still queued, and deleting it extends the deleted prefix. */
  lemma DrainStep(queue: map<string, string>, keys: seq<string>, i: nat)
    requires Distinct(keys) && i < |keys| && keys[i] in queue
    ensures keys[i] in queue - KeySet(keys[..i])
    ensures (queue - KeySet(keys[..i]))[keys[i]] == queue[keys[i]]
    ensures (queue - KeySet(keys[..i])) - {keys[i]} == queue - KeySet(keys[..i + 1])
  {
  }

  /**
   * `sendStoredRequests`, given the settlement of each replay POST in order.
   * Returns the key snapshot, the payloads it POSTed, and whether its promise
   * fulfils (`completed`); it rejects when the database cannot be opened, so
   * that `keys()` rejects and nothing is sent, or when a POST rejects.
   */
  method SendStoredRequests(db: IdbKeyval, replies: seq<PostOutcome>)
    returns (snapshot: seq<string>, sent: seq<string>, completed: bool)
    requires db.Valid()
    requires |replies| >= |db.store|
    modifies db
    ensures db.Valid() && db.dbPromise == Some(db.openResult)
    ensures db.openResult == OpenRejected ==> snapshot == [] && sent == [] && db.store == old(db.store)
    ensures db.openResult == Opened ==>
              StrictlyAscending(snapshot) && KeySet(snapshot) == old(db.store).Keys
    ensures |replies| >= |snapshot|
    ensures db.store == Drain(snapshot, old(db.store), replies)
    ensures var k := DeliveredCount(|snapshot|, replies);
            |sent| == (if k < |snapshot| then k + 1 else k)
    ensures forall i :: 0 <= i < |sent| ==> snapshot[i] in old(db.store) && sent[i] == old(db.store)[snapshot[i]]
    ensures completed <==> db.openResult == Opened && DeliveredCount(|snapshot|, replies) == |snapshot|
  {
    snapshot, sent, completed := [], [], false;
    var listed := db.Keys();
    if listed.Failed? {
      return;
    }
    snapshot := listed.value;
    AscendingIsDistinct(snapshot);
    forall j | 0 <= j < |snapshot|
      ensures snapshot[j] in db.store
    {
      assert snapshot[j] in KeySet(snapshot);
    }
    sent, completed := Replay(db, snapshot, replies);
  }

  /**
   * The body of the `for` loop of `sendStoredRequests`, over a fixed snapshot.
   * `completed` says whether the loop ran to the end rather than stopping at
   * a rejected POST.
   */
  method Replay(db: IdbKeyval, snapshot: seq<string>, replies: seq<PostOutcome>)
    returns (sent: seq<string>, completed: bool)
    requires db.Valid() && db.openResult == Opened && db.dbPromise == Some(db.openResult)
    requires Distinct(snapshot) && |replies| >= |snapshot|
    requires forall j :: 0 <= j < |snapshot| ==> snapshot[j] in db.store
    modifies db
    ensures db.Valid() && db.dbPromise == Some(db.openResult)
    ensures db.store == Drain(snapshot, old(db.store), replies)
    ensures var k := DeliveredCount(|snapshot|, replies);
            |sent| == (if k < |snapshot| then k + 1 else k)
    ensures forall i :: 0 <= i < |sent| ==> sent[i] == old(db.store)[snapshot[i]]
    ensures completed <==> DeliveredCount(|snapshot|, replies) == |snapshot|
  {
    sent := [];
    ghost var queue := db.store;
    var i := 0;
    while i < |snapshot|
      invariant 0 <= i <= |snapshot|
      invariant db.Valid() && db.openResult == Opened && db.dbPromise == Some(db.openResult)
      invariant forall j :: 0 <= j < i ==> replies[j].Resolved?
      invariant db.store == queue - KeySet(snapshot[..i])
      invariant |sent| == i
      invariant forall j :: 0 <= j < i ==> sent[j] == queue[snapshot[j]]
    {
      var key := snapshot[i];
      DrainStep(queue, snapshot, i);
      var data := db.Get(key);
      var payload := data.value.value;
      sent := sent + [payload];
      if replies[i].Rejected? {
        break;
      }
      var _ := db.Del(key);
      i := i + 1;
    }
    completed := i == |snapshot|;
    var k := DeliveredCount(|snapshot|, replies);
    assert i == k;
    DrainRemovesPrefix(snapshot, queue, replies);
  }

  /**
   * The `sync` listener: only the retry queue's tag starts a drain, and the
   * drain is exactly `sendStoredRequests`.  `completed` is whether the
   * promise handed to `waitUntil` fulfils; it is false when no drain starts.
   */
  method OnSync(db: IdbKeyval, tag: string, replies: seq<PostOutcome>)
    returns (drained: bool, snapshot: seq<string>, sent: seq<string>, completed: bool)
    requires db.Valid()
    requires |replies| >= |db.store|
    modifies db
    ensures db.Valid()
    ensures drained == (tag == SYNC_TAG)
    ensures !drained ==> unchanged(db) && snapshot == [] && sent == [] && !completed
    ensures drained ==> db.dbPromise == Some(db.openResult)
    ensures drained && db.openResult == OpenRejected ==>
              snapshot == [] && sent == [] && !completed && db.store == old(db.store)
    ensures drained && db.openResult == Opened ==>
              StrictlyAscending(snapshot) && KeySet(snapshot) == old(db.store).Keys
    ensures drained ==> |replies| >= |snapshot| && db.store == Drain(snapshot, old(db.store), replies)
    ensures drained ==> var k := DeliveredCount(|snapshot|, replies);
              |sent| == (if k < |snapshot| then k + 1 else k)
    ensures drained ==> forall i :: 0 <= i < |sent| ==>
              snapshot[i] in old(db.store) && sent[i] == old(db.store)[snapshot[i]]
    ensures drained ==> (completed <==> db.openResult == Opened && DeliveredCount(|snapshot|, replies) == |snapshot|)
  {
    drained, snapshot, sent, completed := tag == SYNC_TAG, [], [], false;
    if drained {
      snapshot, sent, completed := SendStoredRequests(db, replies);
    }
  }
}
