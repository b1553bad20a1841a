/**
 * The background service worker of `service_worker.js`: it answers `translate`
 * requests from a five-minute in-memory cache keyed by the text that is sent to
 * the translation API, and otherwise asks the API and caches what it returns.
 *
 * The clock and the API are parameters: `now` is `Date.now()` when the cache is
 * consulted, `finishedAt` is `Date.now()` once the API call has returned (the
 * source reads the clock twice), and the API's HTTP answer is an oracle value.
 */
module ServiceWorker {
  import opened Wrappers
  import opened Messages
  import Text

  /** `CACHE_DURATION_MS`: five minutes. */
  const CACHE_DURATION_MS: int := 5 * 60 * 1000

  const UNKNOWN_ERROR: string := "Unknown error"
  const MISSING_API_KEY: string := "API key is not set. Please configure it in the popup settings."
  const INVALID_RESPONSE: string := "Invalid API response structure or empty translation."
  const HTTP_ERROR_PREFIX: string := "HTTP error! status: "

  /** A cache value `{ timestamp, result }`. */
  datatype Entry = Entry(timestamp: int, result: string)

  type Cache = map<string, Entry>

  // ---------------------------------------------------------------------------
  // translateText, with the network as an oracle

  /** What `fetch` and the JSON decoding give back, reduced to what `translateText` inspects. */
  datatype ApiResponse =
    | NetworkFailure(message: string)            // fetch itself rejects
    | HttpFailure(status: nat, message: string)  // !response.ok; `error.message` of the body, or ""
    | Completion(content: Option<string>)        // choices[0].message.content, if present

  /** The number a string of decimal digits denotes, most significant digit first. */
  function DigitsValue(s: string): nat
    requires forall i :: 0 <= i < |s| ==> '0' <= s[i] <= '9'
  {
    if s == [] then 0
    else DigitsValue(s[..|s| - 1]) * 10 + (s[|s| - 1] - '0') as nat
  }

  /**
   * Decimal digits of `n`, as template-literal interpolation prints them: the
   * digits denote `n`, and only zero itself starts with `0`.
   */
  function NatToString(n: nat): (s: string)
    ensures |s| > 0 && forall i :: 0 <= i < |s| ==> '0' <= s[i] <= '9'
    ensures DigitsValue(s) == n
    ensures s[0] == '0' <==> n == 0
    ensures n == 0 ==> s == "0"
  {
    var d := ['0' + (n % 10) as char];
    if n < 10 then d
    else
      var prefix := NatToString(n / 10);
      assert (prefix + d)[..|prefix + d| - 1] == prefix;
      prefix + d
  }

  /**
   * `translateText(q)`: fails before any request when no API key is stored,
   * fails with the API's message (or the HTTP status) on an HTTP error, and
   * fails when the completion is missing or trims to nothing, and otherwise
   * gives the trimmed completion.
   */
  function TranslateText(apiKey: string, response: ApiResponse): (r: Result<string, string>)
    ensures apiKey == [] ==> r == Err(MISSING_API_KEY)
    ensures r.Ok? ==> r.value != [] && response.Completion?
    ensures r.Err? ==> r.error != [] || response.NetworkFailure?
    ensures apiKey != [] && response.NetworkFailure? ==> r == Err(response.message)
    ensures apiKey != [] && response.HttpFailure? ==>
      r == Err(if response.message != [] then response.message
               else HTTP_ERROR_PREFIX + NatToString(response.status))
    ensures apiKey != [] && response.Completion? ==>
      (r.Ok? <==> response.content.Some? && Text.Trim(response.content.value) != [])
    ensures r.Ok? ==> response.content.Some? && r.value == Text.Trim(response.content.value)
    ensures apiKey != [] && response.Completion? && r.Err? ==> r.error == INVALID_RESPONSE
  {
    if apiKey == [] then Err(MISSING_API_KEY)
    else match response
      case NetworkFailure(message) => Err(message)
      case HttpFailure(status, message) =>
        Err(if message != [] then message else HTTP_ERROR_PREFIX + NatToString(status))
      case Completion(content) =>
        var translation := if content.Some? then Text.Trim(content.value) else [];
        if translation == [] then Err(INVALID_RESPONSE) else Ok(translation)
  }

  /** A 404 with no error message in the body fails with the status in the text. */
  lemma HttpStatusMessage(apiKey: string)
    requires apiKey != []
    ensures TranslateText(apiKey, HttpFailure(404, "")) == Err("HTTP error! status: 404")
  {
    assert NatToString(4) == "4";
    assert NatToString(40) == NatToString(4) + "0" == "40";
    assert NatToString(404) == NatToString(40) + "4" == "404";
    assert HTTP_ERROR_PREFIX + "404" == "HTTP error! status: 404";
  }

  // ---------------------------------------------------------------------------
  // The onMessage listener

  /** `context || text`: the string that is translated and that keys the cache. */
  function CacheKey(request: Request): (q: string)
    ensures q != [] <==> request.context != [] || request.text != []
    ensures q == request.context || (request.context == [] && q == request.text)
  {
    if request.context != [] then request.context else request.text
  }

  /** A cached entry may be reused while strictly less than five minutes old. */
  predicate IsFresh(entry: Entry, now: int)
  {
    now - entry.timestamp < CACHE_DURATION_MS
  }

  /** Whether the listener acts on a message at all. */
  predicate Handles(request: Request)
  {
    request.kind == TRANSLATE && request.text != []
  }

  /**
   * One run of the listener: the cache afterwards and the reply sent to the tab,
   * if any. `response` is what the API would answer for this request's key.
   */
  function Handle(cache: Cache, request: Request, now: int, apiKey: string,
                  response: ApiResponse, finishedAt: int): (out: (Cache, Option<Reply>))
    ensures out.1.None? <==> !Handles(request)
    ensures out.1.Some? ==> out.1.value.kind == TRANSLATION_RESULT && out.1.value.id == request.id
    ensures out.1.Some? && out.1.value.outcome.Err? ==> out.1.value.outcome.error != []
    ensures cache.Keys <= out.0.Keys
  {
    if !Handles(request) then (cache, None)
    else
      var q := CacheKey(request);
      if q in cache && IsFresh(cache[q], now) then
        (cache, Some(Reply(TRANSLATION_RESULT, request.id, Ok(cache[q].result))))
      else
        match TranslateText(apiKey, response)
        case Ok(result) =>
          (cache[q := Entry(finishedAt, result)], Some(Reply(TRANSLATION_RESULT, request.id, Ok(result))))
        case Err(message) =>
          var error := if message != [] then message else UNKNOWN_ERROR;
          (cache, Some(Reply(TRANSLATION_RESULT, request.id, Err(error))))
  }

  /** The worker's module-level state: the `cache` Map. */
  class Worker {
    var cache: Cache

    constructor ()
      ensures cache == map[]
    {
      cache := map[];
    }

    /** The `chrome.runtime.onMessage` listener, with its async body run to completion. */
    method OnMessage(request: Request, now: int, apiKey: string, response: ApiResponse, finishedAt: int)
      returns (reply: Option<Reply>)
      modifies this
      ensures (cache, reply) == Handle(old(cache), request, now, apiKey, response, finishedAt)
    {
      if request.kind != TRANSLATE {
        return None;
      }
      if request.text == [] {
        return None;
      }
      var q := if request.context != [] then request.context else request.text;
      var result: string;
      if q in cache && now - cache[q].timestamp < CACHE_DURATION_MS {
        result := cache[q].result;
      } else {
        var translated := TranslateText(apiKey, response);
        if translated.Err? {
          var error := if translated.error != [] then translated.error else UNKNOWN_ERROR;
          return Some(Reply(TRANSLATION_RESULT, request.id, Err(error)));
        }
        result := translated.value;
        cache := cache[q := Entry(finishedAt, result)];
      }
      reply := Some(Reply(TRANSLATION_RESULT, request.id, Ok(result)));
    }
  }

  // ---------------------------------------------------------------------------
  // Properties

  /** A message of another type, or one without text, changes nothing and gets no reply. */
  lemma IgnoredRequestsChangeNothing(cache: Cache, request: Request, now: int, apiKey: string,
                                     response: ApiResponse, finishedAt: int)
    requires request.kind != TRANSLATE || request.text == []
    ensures Handle(cache, request, now, apiKey, response, finishedAt) == (cache, None)
  {
  }

  /** A fresh hit is answered from the cache, whatever the API would have said. */
  lemma FreshHitUsesCache(cache: Cache, request: Request, now: int, apiKey: string,
                          response: ApiResponse, finishedAt: int)
    requires Handles(request)
    requires CacheKey(request) in cache && now - cache[CacheKey(request)].timestamp < CACHE_DURATION_MS
    ensures Handle(cache, request, now, apiKey, response, finishedAt)
         == (cache, Some(Reply(TRANSLATION_RESULT, request.id, Ok(cache[CacheKey(request)].result))))
  {
  }

  /**
   * Freshness is strict: an entry exactly five minutes old is stale, so the
   * request goes to the API and, on success, the entry is replaced.
   */
  lemma ExactlyFiveMinutesIsStale(cache: Cache, request: Request, apiKey: string,
                                  response: ApiResponse, finishedAt: int)
    requires Handles(request) && CacheKey(request) in cache
    requires TranslateText(apiKey, response).Ok?
    ensures var now := cache[CacheKey(request)].timestamp + CACHE_DURATION_MS;
      Handle(cache, request, now, apiKey, response, finishedAt).0
        == cache[CacheKey(request) := Entry(finishedAt, TranslateText(apiKey, response).value)]
  {
  }

  /**
   * On a miss or a stale entry a successful translation overwrites the entry for
   * the key with the completion time and the result; every other entry is kept.
   */
  lemma MissStoresResult(cache: Cache, request: Request, now: int, apiKey: string,
                         response: ApiResponse, finishedAt: int)
    requires Handles(request)
    requires CacheKey(request) !in cache || !IsFresh(cache[CacheKey(request)], now)
    requires TranslateText(apiKey, response).Ok?
    ensures var (after, reply) := Handle(cache, request, now, apiKey, response, finishedAt);
      && CacheKey(request) in after
      && after[CacheKey(request)] == Entry(finishedAt, TranslateText(apiKey, response).value)
      && (forall k :: k != CacheKey(request) ==> (k in after <==> k in cache))
      && (forall k :: k != CacheKey(request) && k in cache ==> after[k] == cache[k])
      && reply == Some(Reply(TRANSLATION_RESULT, request.id, TranslateText(apiKey, response)))
  {
  }

  /** A failed translation writes nothing and reports the error, or "Unknown error". */
  lemma FailureWritesNothing(cache: Cache, request: Request, now: int, apiKey: string,
                             response: ApiResponse, finishedAt: int)
    requires Handles(request)
    requires CacheKey(request) !in cache || !IsFresh(cache[CacheKey(request)], now)
    requires TranslateText(apiKey, response).Err?
    ensures var (after, reply) := Handle(cache, request, now, apiKey, response, finishedAt);
      && after == cache
      && reply.Some? && reply.value.outcome.Err?
      && (TranslateText(apiKey, response).error != [] ==>
            reply.value.outcome.error == TranslateText(apiKey, response).error)
      && (TranslateText(apiKey, response).error == [] ==> reply.value.outcome.error == UNKNOWN_ERROR)
  {
  }

  /** Without an API key a miss never touches the cache and always reports the missing key. */
  lemma MissingKeyFailsWithoutCaching(cache: Cache, request: Request, now: int,
                                      response: ApiResponse, finishedAt: int)
    requires Handles(request)
    requires CacheKey(request) !in cache || !IsFresh(cache[CacheKey(request)], now)
    ensures Handle(cache, request, now, [], response, finishedAt)
         == (cache, Some(Reply(TRANSLATION_RESULT, request.id, Err(MISSING_API_KEY))))
  {
  }

  /**
   * An existing entry changes only when a handled request for that key finds it
   * stale and its translation succeeds.
   */
  lemma EntryChangesOnlyOnSuccessfulMiss(cache: Cache, request: Request, now: int, apiKey: string,
                                         response: ApiResponse, finishedAt: int, k: string)
    requires k in cache && Handle(cache, request, now, apiKey, response, finishedAt).0[k] != cache[k]
    ensures Handles(request) && k == CacheKey(request) && !IsFresh(cache[k], now)
    ensures TranslateText(apiKey, response).Ok?
  {
  }

  /** A worker event: one message, with the clock readings and the API's answer for it. */
  datatype Delivery = Delivery(request: Request, now: int, apiKey: string,
                               response: ApiResponse, finishedAt: int)

  /** The cache after the listener has handled `deliveries` in order. */
  function Replay(cache: Cache, deliveries: seq<Delivery>): Cache
    decreases |deliveries|
  {
    if deliveries == [] then cache
    else
      var d := deliveries[0];
      Replay(Handle(cache, d.request, d.now, d.apiKey, d.response, d.finishedAt).0, deliveries[1..])
  }

  /** Entries are never deleted: over any run, every key keeps an entry. */
  lemma {:induction false} ReplayNeverDeletes(cache: Cache, deliveries: seq<Delivery>)
    ensures cache.Keys <= Replay(cache, deliveries).Keys
    decreases |deliveries|
  {
    if deliveries != [] {
      var d := deliveries[0];
      ReplayNeverDeletes(Handle(cache, d.request, d.now, d.apiKey, d.response, d.finishedAt).0, deliveries[1..]);
    }
  }

  /** Every entry in the cache holds a non-empty translation, over any run from empty. */
  lemma {:induction false} ReplayStoresOnlyTranslations(cache: Cache, deliveries: seq<Delivery>)
    requires forall k :: k in cache ==> cache[k].result != []
    ensures forall k :: k in Replay(cache, deliveries) ==> Replay(cache, deliveries)[k].result != []
    decreases |deliveries|
  {
    if deliveries != [] {
      var d := deliveries[0];
      var next := Handle(cache, d.request, d.now, d.apiKey, d.response, d.finishedAt).0;
      ReplayStoresOnlyTranslations(next, deliveries[1..]);
    }
  }
}
