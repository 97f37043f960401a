/**
 * The two `fetch` listeners: GET requests are served cache-first with a
 * network fallback and a fixed offline placeholder; POST requests go to the
 * network first and, when it fails, their body is queued in the offline
 * store and a synthetic acknowledgement is returned.  The Cache API lookup
 * and the network are inputs: what `caches.match` found, and how `fetch`
 * settled.
 */
module Interceptor {
  import opened Wrappers
  import opened KeyvalStore

  /** A response; `headers` holds the headers set explicitly by this code. */
  datatype Response = Response(status: int, headers: map<string, string>, body: string)

  /** An intercepted request, with its (already normalised) method name. */
  datatype Request = Request(verb: string, url: string, body: string)

  /** How `fetch` of the intercepted request settled. */
  datatype FetchOutcome = Fetched(response: Response) | FetchFailed

  /** What one invocation of a listener leaves the browser with. */
  datatype Reply = PassThrough | RespondWith(response: Response)

  /** What the GET listener decides. `fetched` records whether `fetch` was issued. */
  datatype ReadResult = NotIntercepted | Answered(response: Response, fetched: bool)

  /** What the POST listener decides. */
  datatype WriteResult =
    | Ignored
    | Forwarded(response: Response)
    | SavedOffline(key: string, payload: string, ack: Response)

  /** `new Response(text)`: status 200 and no explicit headers. */
  function TextResponse(text: string): (r: Response)
    ensures r.status == 200 && r.body == text && r.headers == map[]
  {
    Response(200, map[], text)
  }

  const OFFLINE_TEXT: string := "\U{26A0}\U{FE0F} You are offline. Some data may not be sent yet."

  /** The placeholder served for a GET that misses the cache while the network is down. */
  function OfflinePlaceholder(): (r: Response)
    ensures r.body == OFFLINE_TEXT
  {
    TextResponse(OFFLINE_TEXT)
  }

  const SAVED_OFFLINE_JSON: string := "{\"status\":\"saved_offline\"}"

  /** `JSON.stringify({ status: "saved_offline" })` with a JSON content type. */
  function SavedOfflineAck(): (ack: Response)
    ensures ack.body == SAVED_OFFLINE_JSON
    ensures ack.headers == map["Content-Type" := "application/json"]
  {
    Response(200, map["Content-Type" := "application/json"], SAVED_OFFLINE_JSON)
  }

  // ---- GET listener (read path) -------------------------------------------

  /** `cachedResponse || fetch(request).catch(() => placeholder)`, for GET only. */
  function ReadPath(req: Request, cached: Option<Response>, net: FetchOutcome): (r: ReadResult)
    ensures r.NotIntercepted? <==> req.verb != "GET"
    ensures r.Answered? && cached.Some? ==> r == Answered(cached.value, false)
    ensures r.Answered? && cached.None? ==> r.fetched
  {
    if req.verb != "GET" then NotIntercepted
    else match cached
      case Some(hit) => Answered(hit, false)
      case None =>
        match net
        case Fetched(resp) => Answered(resp, true)
        case FetchFailed => Answered(OfflinePlaceholder(), true)
  }

  /** A cache hit never depends on the network: whatever it would do, the answer is the same. */
  lemma CacheHitIgnoresNetwork(req: Request, hit: Response, net1: FetchOutcome, net2: FetchOutcome)
    requires req.verb == "GET"
    ensures ReadPath(req, Some(hit), net1) == ReadPath(req, Some(hit), net2) == Answered(hit, false)
  {
  }

  /** On a miss the network's response, whatever its status, is handed back unchanged. */
  lemma MissReturnsNetworkResponse(req: Request, resp: Response)
    requires req.verb == "GET"
    ensures ReadPath(req, None, Fetched(resp)) == Answered(resp, true)
  {
  }

  /** On a miss with the network down, the fixed placeholder text is served. */
  lemma MissOfflineServesPlaceholder(req: Request)
    requires req.verb == "GET"
    ensures ReadPath(req, None, FetchFailed).response.body == OFFLINE_TEXT
    ensures ReadPath(req, None, FetchFailed).response.status == 200
  {
  }

  // ---- queue keys -------------------------------------------------------

  function DigitChar(d: nat): (c: char)
    requires d < 10
    ensures '0' <= c <= '9'
  {
    ('0' as int + d) as char
  }

  /** The decimal rendering of a non-negative integer, as template literals produce it. */
  function Decimal(n: nat): (s: string)
    ensures |s| >= 1
    ensures n >= 10 ==> |s| >= 2
    ensures forall i :: 0 <= i < |s| ==> '0' <= s[i] <= '9'
    decreases n
  {
    if n < 10 then [DigitChar(n)] else Decimal(n / 10) + [DigitChar(n % 10)]
  }

  /** The number a string of decimal digits denotes, most significant digit first (Horner's rule). */
  function DigitsValue(s: string): (v: int)
    decreases |s|
  {
    if s == [] then 0 else 10 * DigitsValue(s[..|s| - 1]) + (s[|s| - 1] as int - '0' as int)
  }

  /** The rendering denotes the number rendered. */
  lemma {:induction false} DecimalValue(n: nat)
    ensures DigitsValue(Decimal(n)) == n
    decreases n
  {
    if n >= 10 {
      var s := Decimal(n);
      assert s[..|s| - 1] == Decimal(n / 10);
      DecimalValue(n / 10);
    }
  }

  /** Different numbers have different renderings. */
  lemma {:induction false} DecimalInjective(a: nat, b: nat)
    requires Decimal(a) == Decimal(b)
    ensures a == b
    decreases a
  {
    if a >= 10 && b >= 10 {
      var da, db := Decimal(a), Decimal(b);
      assert da[|da| - 1] == DigitChar(a % 10) && db[|db| - 1] == DigitChar(b % 10);
      assert a % 10 == b % 10;
      assert da[..|da| - 1] == Decimal(a / 10);
      assert db[..|db| - 1] == Decimal(b / 10);
      DecimalInjective(a / 10, b / 10);
    } else if a < 10 && b < 10 {
      assert Decimal(a)[0] == DigitChar(a);
    }
  }

  const KEY_PREFIX: string := "req-"

  /** `req-${Date.now()}`: the queue key of a body saved at millisecond `now`. */
  function QueueKey(now: nat): (key: string)
    ensures |key| > |KEY_PREFIX| && key[..|KEY_PREFIX|] == KEY_PREFIX
  {
    KEY_PREFIX + Decimal(now)
  }

  /** Two saves share a key exactly when they happen in the same millisecond. */
  lemma QueueKeyInjective(t1: nat, t2: nat)
    ensures QueueKey(t1) == QueueKey(t2) <==> t1 == t2
  {
    if QueueKey(t1) == QueueKey(t2) {
      assert Decimal(t1) == QueueKey(t1)[|KEY_PREFIX|..];
      assert Decimal(t2) == QueueKey(t2)[|KEY_PREFIX|..];
      DecimalInjective(t1, t2);
    }
  }

  /**
   * Two payloads saved in the same millisecond: the second overwrites the
   * first.  Saved in different milliseconds: both are kept.
   */
  lemma SaveCollision(queue: map<string, string>, t1: nat, t2: nat, p1: string, p2: string)
    ensures t1 == t2 ==> queue[QueueKey(t1) := p1][QueueKey(t2) := p2] == queue[QueueKey(t2) := p2]
    ensures t1 != t2 ==> var q := queue[QueueKey(t1) := p1][QueueKey(t2) := p2];
                         q[QueueKey(t1)] == p1 && q[QueueKey(t2)] == p2
  {
    QueueKeyInjective(t1, t2);
  }

  // ---- POST listener (write path) -------------------------------------------

  /** `fetch(request.clone()).catch(save body, acknowledge)`, for POST only. */
  function WritePath(req: Request, net: FetchOutcome, now: nat): (r: WriteResult)
    ensures r.Ignored? <==> req.verb != "POST"
    ensures r.Forwarded? <==> req.verb == "POST" && net.Fetched?
    ensures r.Forwarded? ==> r.response == net.response
    ensures r.SavedOffline? ==> r.key == QueueKey(now) && r.payload == req.body
    ensures r.SavedOffline? ==> r.ack == SavedOfflineAck()
  {
    if req.verb != "POST" then Ignored
    else match net
      case Fetched(resp) => Forwarded(resp)
      case FetchFailed => SavedOffline(QueueKey(now), req.body, SavedOfflineAck())
  }

  /** `saveRequest(data)`: queue `data` under the key of the current millisecond. */
  method SaveRequest(db: IdbKeyval, data: string, now: nat) returns (ok: bool)
    requires db.Valid()
    modifies db
    ensures db.Valid() && db.dbPromise == Some(db.openResult)
    ensures ok == (db.openResult == Opened)
    ensures db.store == if ok then old(db.store)[QueueKey(now) := data] else old(db.store)
  {
    ok := db.Set(QueueKey(now), data);
  }

  /**
   * One intercepted request passing through both listeners in registration
   * order.  The outcome of the queue write is not awaited and does not
   * affect the reply.
   */
  method OnFetch(db: IdbKeyval, req: Request, cached: Option<Response>, net: FetchOutcome, now: nat)
    returns (reply: Reply)
    requires db.Valid()
    modifies db
    ensures db.Valid()
    ensures req.verb != "GET" && req.verb != "POST" ==> reply == PassThrough && unchanged(db)
    ensures req.verb == "GET" ==> reply == RespondWith(ReadPath(req, cached, net).response) && unchanged(db)
    ensures WritePath(req, net, now).Forwarded? ==>
              reply == RespondWith(net.response) && unchanged(db)
    ensures WritePath(req, net, now).SavedOffline? ==>
              && reply == RespondWith(SavedOfflineAck())
              && db.dbPromise == Some(db.openResult)
              && db.store == (if db.openResult == Opened then old(db.store)[QueueKey(now) := req.body]
                              else old(db.store))
  {
    reply := PassThrough;
    match ReadPath(req, cached, net) {
      case Answered(resp, _) =>
        reply := RespondWith(resp);
      case NotIntercepted =>
    }
    match WritePath(req, net, now) {
      case Forwarded(resp) =>
        reply := RespondWith(resp);
      case SavedOffline(key, payload, ack) =>
        var _ := SaveRequest(db, payload, now);
        reply := RespondWith(ack);
      case Ignored =>
    }
  }
}
