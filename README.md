# Offline cache and retry-queue service worker, modelled in Dafny

This project models the decision logic of a single service worker
(`service-worker.js`). The worker keeps one versioned static-asset cache
(`vec-english-cache-v1`) and intercepts the page's requests:

- GET requests are served cache-first, then from the network, and fall back
  to a fixed offline text.
- POST requests go to the network first. When the network fails, the body is
  queued in an IndexedDB object store under `req-<Date.now()>`, and the page
  gets a synthetic `{"status":"saved_offline"}` JSON acknowledgement.
- A background-sync event tagged `sync-form-data` drains the queue. It
  re-POSTs each queued body in key order, deletes each key once its POST
  resolves, and stops at the first POST the network rejects.

Browser services are not modelled; they become inputs instead:

- the Cache API lookup, as an `Option<Response>`;
- `fetch`, as a `FetchOutcome`, or for the drain one `PostOutcome` per replay;
- `indexedDB.open`, as the `OpenResult` the store is built with;
- `Date.now()`, as a `nat`.

Modules:

- `CacheReclaim` (`cache_reclaim.dfy`): the `activate` cleanup, as pure
  functions over the listed cache names. `StaleCaches` gives the names passed
  to `caches.delete`; `Reclaim` gives the names left afterwards.
- `Interceptor` (`interceptor.dfy`): the two `fetch` listeners.
  - `ReadPath` and `WritePath` are pure decision functions.
  - `QueueKey` builds the queue key.
  - `SaveRequest` and `OnFetch` are methods that apply a decision to the
    queue store.
- `KeyvalStore` (`keyval_store.dfy`): the `idbKeyval` object, as the class
  `IdbKeyval`.
  - It holds the memoised `dbPromise` and the object store as a
    `map<string, string>`.
  - A ghost counter records how often `indexedDB.open` is issued.
  - `Keys` walks the store the way the cursor does: every key once, in
    ascending key order.
- `KeyOrder` (`key_order.dfy`): IndexedDB's ordering of string keys. It also
  proves that a set of keys has only one ascending listing, so the drain's
  snapshot is fully determined.
- `SyncDrain` (`sync_drain.dfy`): the `sync` listener and
  `sendStoredRequests`.
  - The specification function `Drain` applies one loop iteration per key, with the
    network's answers given as a sequence.
  - The method `Replay` is the `for` loop itself. It is proved equal to
    `Drain`.
  - Lemmas about `Drain` show that exactly a prefix of the snapshot is
    deleted.

Behaviour of the code worth stating plainly:

- The drain deletes a key whenever its POST resolves; `response.ok` is
  never read, so a key answered with status 500 is deleted too
  (service-worker.js:79-84; `SyncDrain.DrainIgnoresStatus`,
  `SyncDrain.DrainAllResolved`).
- The read path never writes to a cache, and its offline fallback is always
  the fixed placeholder text.
- The replay POST uses `application/x-www-form-urlencoded`. This is a
  constant of the left-out request construction.

## Model

| member | source | states |
|---|---|---|
| `KeyvalStore.IdbKeyval.constructor` | service-worker.js:89-90 | the helper starts with `dbPromise` null, no open issued, and the store as persisted |
| `KeyvalStore.IdbKeyval.GetDB` | service-worker.js:91-101 | the first call issues the open and memoises it; later calls return the memoised settlement, a rejected one included, and never open again (`openCalls` stays at most 1) |
| `KeyvalStore.IdbKeyval.Set` | service-worker.js:102-107 | `set` inserts or overwrites `key` and changes no other key; it rejects and writes nothing when the open was rejected |
| `KeyvalStore.IdbKeyval.Get` | service-worker.js:108-111 | `get` yields the stored payload, or absent for a missing key; it rejects when the open was rejected; the store is unchanged |
| `KeyvalStore.IdbKeyval.Del` | service-worker.js:112-117 | `del` removes exactly `key`; it rejects and removes nothing when the open was rejected |
| `KeyvalStore.IdbKeyval.Keys` | service-worker.js:118-130 | the cursor walk returns every stored key exactly once (same set, same count), in strictly ascending key order |
| `KeyvalStore.StoreRoundTrip` | service-worker.js:102-117 | a value put and read back is returned unchanged; after `del` the key reads as absent and every other key is as before |
| `KeyOrder.LeastExists` | service-worker.js:122-127 | a non-empty store always has a first key for the cursor to visit next |
| `KeyOrder.AscendingUnique` | service-worker.js:118-130 | two ascending listings of the same keys are equal, so the snapshot the cursor produces is determined by the store |
| `KeyOrder.PrecedesTotal` | service-worker.js:122-127 | any two different keys are ordered one way or the other |
| `KeyOrder.PrecedesTransitive` | service-worker.js:122-127 | the key order is transitive |
| `CacheReclaim.StaleCaches` | service-worker.js:24-27 | a listed name is passed to `caches.delete` if and only if it differs from `CACHE_NAME` |
| `CacheReclaim.Without` | service-worker.js:25-27 | after the deletions, a name is still listed if and only if it was listed and was not deleted |
| `CacheReclaim.ReclaimKeepsOnlyCurrent` | service-worker.js:22-29 | after activation every remaining name is `CACHE_NAME`, and `CACHE_NAME` remains exactly when it was present |
| `CacheReclaim.ReclaimPartitions` | service-worker.js:24-27 | every listed name is either deleted or kept, as multisets, so no name is lost or duplicated |
| `CacheReclaim.ReclaimIdempotent` | service-worker.js:22-29 | a second activation deletes nothing and leaves the names as the first one left them |
| `CacheReclaim.ReclaimLeavesOne` | service-worker.js:22-29 | when the listing has no repeats, exactly `[CACHE_NAME]` is left if it was present, and nothing otherwise |
| `Interceptor.ReadPath` | service-worker.js:34-46 | only GET is answered; a cache hit is returned without a fetch; a miss always issues the fetch |
| `Interceptor.CacheHitIgnoresNetwork` | service-worker.js:37-39 | on a hit the answer is the cached response, whatever the network would have done |
| `Interceptor.MissReturnsNetworkResponse` | service-worker.js:39-40 | on a miss, the network's response is returned unchanged, whatever its status |
| `Interceptor.MissOfflineServesPlaceholder` | service-worker.js:40-42 | on a miss with the network down, the fixed offline text is served with status 200 |
| `Interceptor.SavedOfflineAck` | service-worker.js:62-64 | the acknowledgement body is `{"status":"saved_offline"}` and its only header is `Content-Type: application/json` |
| `Interceptor.WritePath` | service-worker.js:56-68 | only POST is intercepted; a resolved fetch is forwarded unchanged; a rejected one saves the body under `QueueKey(now)` and acknowledges |
| `Interceptor.QueueKey` | service-worker.js:72 | the queue key is `req-` followed by the timestamp's decimal digits |
| `Interceptor.Decimal` | service-worker.js:72 | the timestamp's rendering is a non-empty string of decimal digits |
| `Interceptor.DecimalValue` | service-worker.js:72 | read back as a decimal number (Horner's rule, `DigitsValue`), the rendering denotes the timestamp itself |
| `Interceptor.DecimalInjective` | service-worker.js:72 | different timestamps render differently |
| `Interceptor.QueueKeyInjective` | service-worker.js:72 | two saves share a queue key if and only if they happen in the same millisecond |
| `Interceptor.SaveCollision` | service-worker.js:71-73 | two saves in the same millisecond overwrite each other; saves in different milliseconds both stay queued |
| `Interceptor.SaveRequest` | service-worker.js:71-73 | `saveRequest` upserts exactly one entry at `QueueKey(now)` holding the body, or writes nothing if the database could not be opened |
| `Interceptor.OnFetch` | service-worker.js:34-68 | other methods pass through untouched; GET leaves the queue unchanged; a forwarded POST leaves the queue unchanged; a failed POST is acknowledged whatever happens to its queue write, adds exactly `QueueKey(now)` with the body, and keeps the memoised database open |
| `SyncDrain.OnSync` | service-worker.js:49-53 | a drain starts if and only if the tag is `sync-form-data`; any other tag leaves the store untouched; with the tag, the outcome is exactly that of `sendStoredRequests` (the full ascending snapshot, the `Drain` of it, the payloads sent, whether the promise fulfils) and the memoised open is kept |
| `SyncDrain.SendStoredRequests` | service-worker.js:75-86 | the snapshot is every queued key, ascending and taken once; the new queue is `Drain` of that snapshot; each POSTed payload is the queued payload of its key; nothing is sent if the database cannot be opened; the promise fulfils exactly when the open succeeded and no POST rejected; the memoised open is kept |
| `SyncDrain.Replay` | service-worker.js:77-85 | the loop leaves the queue as `Drain` says, and POSTs the payloads of the delivered keys plus that of the rejected key, if any; it reports whether it ran to the end, and keeps the memoised open |
| `SyncDrain.DeliveredCount` | service-worker.js:77-85 | the number of keys handled before the loop stops: every earlier POST resolved, and the stopping one rejected |
| `SyncDrain.DrainRemovesPrefix` | service-worker.js:77-85 | the drain removes exactly the keys of the snapshot prefix before the first rejected POST |
| `SyncDrain.DrainStopsAtRejection` | service-worker.js:77-85 | if the POST for key i is the first to reject, keys before i are gone, and key i, every later key and every key outside the snapshot keep their payloads |
| `SyncDrain.DrainDeletesExactlyDelivered` | service-worker.js:79-84 | a queued snapshot key is deleted if and only if it comes before the first rejection, so every deleted key had its own POST resolve |
| `SyncDrain.DrainAllResolved` | service-worker.js:77-85 | when every POST resolves, whatever the statuses, the whole snapshot is removed |
| `SyncDrain.DrainIgnoresStatus` | service-worker.js:79-84 | only whether each POST rejected matters; the HTTP status never changes the outcome |
| `SyncDrain.DrainScenario` | service-worker.js:75-86 | queue `{req-100: A, req-200: B, req-300: C}`, where the third POST throws, ends as `{req-300: C}` |

## Left out

- Install (service-worker.js:12-19): `cache.addAll(ASSETS)` and its all-or-nothing population are the Cache API's behaviour, not this code's logic.
- `skipWaiting` (service-worker.js:18) and `clients.claim` (service-worker.js:30) are lifecycle side effects with no logic of their own.
- The Cache API, `fetch`, `indexedDB.open` and `Response` construction are browser calls. The model takes the results of `caches.match`, `fetch` and `indexedDB.open` as inputs.
- `CacheReclaim.Reclaim`: assumes `caches.keys()` resolves and every `caches.delete` succeeds. A rejected listing or deletion, which would leave stale caches behind and reject the activation's `waitUntil`, is not modelled.
- `caches.match` is an input (`cached: Option<Response>`). No operation in the model writes to a cache, because this code never does.
- `new Response(text)` gets a default `text/plain` content type. The model leaves it out, and `Response.headers` holds only the headers set explicitly.
- Promise interleaving between handlers is not modelled; each handler runs to completion, one invocation at a time.
  - `saveRequest` is not awaited (service-worker.js:61). The model applies its write before the handler returns. The reply is the same whether or not the write succeeds.
  - Two concurrent requests can get the same timestamp key. The model shows only the sequential overwrite (`Interceptor.SaveCollision`).
- `tx.complete` (service-worker.js:106, 116) is undefined on plain IndexedDB transactions, so nothing waits for the commit. The model treats a put or delete as done once it is issued.
- `get` returns the IDBRequest rather than the value (service-worker.js:110). As written, the drain therefore POSTs the string form of that request object (service-worker.js:78, 81) and then deletes the key, so the queued payload never reaches the endpoint and is lost. `KeyvalStore.IdbKeyval.Get` returns the looked-up value instead, so the model's drain POSTs the stored payload.
- Only a rejected database open is modelled as a storage failure. `onupgradeneeded` store creation (service-worker.js:95), failing transactions and failing cursors are not.
- A rejected `request.clone().text()` (service-worker.js:60) is not modelled.
- The upload endpoint URL and content type (service-worker.js:79-82) are constants of the left-out request construction.
- The browser retries a sync whose `waitUntil` promise rejects. That retry is not modelled.
- KeyvalStore.IdbKeyval.Keys: orders keys by Unicode scalar values. IndexedDB compares UTF-16 code units, so the two orders differ only between characters above U+FFFF and characters from U+E000 to U+FFFF.
- SyncDrain.SendStoredRequests: requires one network answer per queued key (`|replies| >= |store|`). This is a property of the input, not a demand the source makes.
- `Date.now()` is taken as a non-negative integer. The model renders it in decimal, as the template literal does for integral timestamps.
- Request methods are compared as given. The browser's upper-casing of standard method names happens before this code runs.
