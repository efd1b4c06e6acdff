/** The cache-aside product lookup of backend/services/openFoodFactsService.js
    and its HTTP handler in backend/controllers/lookupController.js. The
    product cache is a map, the OpenFoodFacts client an oracle of HTTP replies. */
module Lookup {
  import opened Wrappers
  import opened Strings
  import opened Errors
  import opened Products

  /** The query parameters `upc`, `ean`, `gtin`, `q`; an absent one is "". */
  datatype LookupParams = LookupParams(upc: string, ean: string, gtin: string, q: string)

  /** The product cache: entries by key, and whether reads or writes currently
      fail. Expiry is the store's business: an expired entry is simply absent. */
  datatype Cache = Cache(entries: map<string, Product>, readFails: bool, writeFails: bool)

  /** What the HTTP client reports: a 2xx reply with its body, an error reply
      with its status, or no reply at all (network failure or timeout). */
  datatype HttpReply<T> = Reply(body: T) | StatusError(status: int) | NoReply {
    /** `error.response?.status` of the error the client throws. */
    function ResponseStatus(): Option<int> {
      if StatusError? then Some(status) else None
    }
  }

  /** The catalogue: the product endpoint (its `data.product`, if any) and the
      search endpoint (its `data.products`, empty when missing). */
  datatype Catalogue = Catalogue(
    byCode: string -> HttpReply<Option<RawProduct>>,
    bySearch: string -> HttpReply<seq<RawProduct>>)

  /** An error thrown inside the service: its `code` and the HTTP status of the
      `response` it carries, if it carries one. */
  datatype Thrown = Thrown(code: ErrorCode, response: Option<int>)

  /** An error the service reports to its caller. */
  datatype ServiceError = ServiceError(code: ErrorCode, message: string)

  /** The result of one lookup: the outcome, the cache afterwards, and how many
      catalogue calls were made. */
  datatype LookupRun = LookupRun(result: Result<Product, ServiceError>, cache: Cache, fetches: nat)

  const MissingParametersMessage := "Missing required parameters. Provide either upc, ean, gtin, or q"

  /** At least one of upc, ean, gtin and q is truthy. */
  predicate HasIdentifier(p: LookupParams) {
    p.upc != "" || p.ean != "" || p.gtin != "" || p.q != ""
  }

  /** `upc || ean || gtin || q`: the cache key, and also the identifier handed
      to the normaliser. */
  function CacheKey(p: LookupParams): (k: string)
    ensures HasIdentifier(p) <==> k != ""
    ensures p.upc != "" ==> k == p.upc
    ensures p.upc == "" && p.ean != "" ==> k == p.ean
    ensures p.upc == "" && p.ean == "" && p.gtin != "" ==> k == p.gtin
    ensures p.upc == "" && p.ean == "" && p.gtin == "" ==> k == p.q
  {
    Or(Or(Or(p.upc, p.ean), p.gtin), p.q)
  }

  /** The error mapping of every catch block in the service: a response status
      of 404 or 429 gives NOT_FOUND or RATE_LIMITED, anything else
      EXTERNAL_SERVICE_ERROR. The rethrown error never carries a response. */
  function Rethrow(response: Option<int>): (t: Thrown)
    ensures t.response.None?
    ensures response.None? ==> t.code == ExternalServiceError
  {
    if response == Some(404) then Thrown(NotFound, None)
    else if response == Some(429) then Thrown(RateLimited, None)
    else Thrown(ExternalServiceError, None)
  }

  /** `getByBarcode`: the product of a 2xx reply. A reply without a product throws
      NOT_FOUND inside the `try`, and the `catch` re-wraps that error like any
      other: having no response it becomes EXTERNAL_SERVICE_ERROR. */
  function GetByBarcode(reply: HttpReply<Option<RawProduct>>): (r: Result<RawProduct, Thrown>)
    ensures r.Success? <==> reply.Reply? && reply.body.Some?
    ensures r.Success? ==> r.value == reply.body.value
    ensures r.Failure? ==> r.error.response.None?
    ensures r.Failure? ==> (r.error.code == NotFound <==> reply == StatusError(404))
    ensures r.Failure? ==> (r.error.code == RateLimited <==> reply == StatusError(429))
  {
    match reply
    case Reply(body) =>
      // the NOT_FOUND thrown here has no response when the catch inspects it
      if body.Some? then Success(body.value) else Failure(Rethrow(None))
    case StatusError(_) => Failure(Rethrow(reply.ResponseStatus()))
    case NoReply => Failure(Rethrow(None))
  }

  /** `searchByText`: the first product of a 2xx reply; an empty result throws
      NOT_FOUND inside the `try`, which the `catch` re-wraps as
      EXTERNAL_SERVICE_ERROR. */
  function SearchByText(reply: HttpReply<seq<RawProduct>>): (r: Result<RawProduct, Thrown>)
    ensures r.Success? <==> reply.Reply? && |reply.body| > 0
    ensures r.Success? ==> r.value == reply.body[0]
    ensures r.Failure? ==> r.error.response.None?
    ensures r.Failure? ==> (r.error.code == NotFound <==> reply == StatusError(404))
    ensures r.Failure? ==> (r.error.code == RateLimited <==> reply == StatusError(429))
  {
    match reply
    case Reply(products) =>
      if |products| > 0 then Success(products[0]) else Failure(Rethrow(None))
    case StatusError(_) => Failure(Rethrow(reply.ResponseStatus()))
    case NoReply => Failure(Rethrow(None))
  }

  /** `getFromCache`: the stored product, or nothing on a miss or a read error. */
  function CacheRead(cache: Cache, key: string): (r: Option<Product>)
    ensures r.Some? <==> !cache.readFails && key in cache.entries
    ensures r.Some? ==> r.value == cache.entries[key]
  {
    if !cache.readFails && key in cache.entries then Some(cache.entries[key]) else None
  }

  /** `setCache`: store the product under the key; a write error is swallowed. */
  function CacheWrite(cache: Cache, key: string, product: Product): (c: Cache)
    ensures c.readFails == cache.readFails && c.writeFails == cache.writeFails
    ensures !cache.writeFails ==> c.entries == cache.entries[key := product]
    ensures cache.writeFails ==> c == cache
  {
    if cache.writeFails then cache else cache.(entries := cache.entries[key := product])
  }

  /** The outer `catch` of `lookupProduct`: it maps by response status again,
      with messages of its own. */
  function ServiceErrorOf(t: Thrown, key: string): (e: ServiceError)
    ensures t.response == Some(404) <==> e.code == NotFound
    ensures t.response == Some(404) ==> e.message == "Product not found: " + key
    ensures t.response == Some(429) <==> e.code == RateLimited
    ensures e.code in {NotFound, RateLimited, ExternalServiceError}
  {
    match Rethrow(t.response).code
    case NotFound => ServiceError(NotFound, "Product not found: " + key)
    case RateLimited => ServiceError(RateLimited, "OpenFoodFacts API rate limit exceeded")
    case _ => ServiceError(ExternalServiceError, "Failed to fetch product from OpenFoodFacts")
  }

  /** The catalogue call of a cache miss: text search when `q` is truthy,
      otherwise the product endpoint asked for `upc || ean || gtin`. */
  function Fetch(params: LookupParams, catalogue: Catalogue): Result<RawProduct, Thrown> {
    if params.q != "" then SearchByText(catalogue.bySearch(params.q))
    else GetByBarcode(catalogue.byCode(Or(Or(params.upc, params.ean), params.gtin)))
  }

  /** `lookupProduct(params)`: validate, read the cache, on a miss fetch
      (search when `q` is truthy, else by barcode), normalise, write the cache. */
  function LookupProduct(params: LookupParams, cache: Cache, catalogue: Catalogue, now: string): (run: LookupRun)
    ensures run.result.Failure? ==> run.result.error.code in {InvalidArgument, ExternalServiceError}
    ensures run.result.Failure? && run.result.error.code == InvalidArgument <==> !HasIdentifier(params)
    ensures !HasIdentifier(params) ==> run.fetches == 0 && run.cache == cache
    ensures HasIdentifier(params) && CacheRead(cache, CacheKey(params)).Some? ==>
      run == LookupRun(Success(cache.entries[CacheKey(params)]), cache, 0)
    ensures HasIdentifier(params) && CacheRead(cache, CacheKey(params)).None? ==> run.fetches == 1
    ensures HasIdentifier(params) && CacheRead(cache, CacheKey(params)).None? ==>
      var raw := Fetch(params, catalogue);
      && (run.result.Success? <==> raw.Success?)
      && (raw.Success? ==> run.result.value == NormalizeProduct(raw.value, CacheKey(params), now))
      && (raw.Failure? ==> run.result.error == ServiceErrorOf(raw.error, CacheKey(params)))
    ensures run.result.Success? && run.fetches == 1 && !cache.writeFails ==>
      run.cache.entries == cache.entries[CacheKey(params) := run.result.value]
    ensures run.cache.entries.Keys <= cache.entries.Keys + {CacheKey(params)}
    ensures run.result.Failure? ==> run.cache == cache
    ensures cache.writeFails ==> run.cache == cache
    ensures run.result.Success? && run.fetches == 1 ==>
      run.cache == CacheWrite(cache, CacheKey(params), run.result.value)
    ensures run.cache.readFails == cache.readFails && run.cache.writeFails == cache.writeFails
  {
    if !HasIdentifier(params) then
      LookupRun(Failure(ServiceError(InvalidArgument, MissingParametersMessage)), cache, 0)
    else
      var key := CacheKey(params);
      match CacheRead(cache, key)
      case Some(hit) => LookupRun(Success(hit), cache, 0)
      case None =>
        match Fetch(params, catalogue)
        case Failure(t) => LookupRun(Failure(ServiceErrorOf(t, key)), cache, 1)
        case Success(raw) =>
          var product := NormalizeProduct(raw, key, now);
          LookupRun(Success(product), CacheWrite(cache, key, product), 1)
  }

  /** Cache-aside idempotence: after a successful lookup, the same lookup is
      answered from the cache with the identical product and no catalogue call,
      whatever the catalogue and the clock say by then. */
  lemma SecondLookupIsCacheHit(
    params: LookupParams, cache: Cache, c1: Catalogue, c2: Catalogue, now1: string, now2: string)
    requires !cache.readFails && !cache.writeFails
    requires LookupProduct(params, cache, c1, now1).result.Success?
    ensures var first := LookupProduct(params, cache, c1, now1);
            var second := LookupProduct(params, first.cache, c2, now2);
      second.result == first.result && second.fetches == 0 && second.cache == first.cache
  {
  }

  /** A failing cache write is never visible in the result. */
  lemma CacheWriteFailureInvisible(params: LookupParams, cache: Cache, catalogue: Catalogue, now: string)
    ensures LookupProduct(params, cache.(writeFails := true), catalogue, now).result
         == LookupProduct(params, cache.(writeFails := false), catalogue, now).result
  {
  }

  /** A failing cache read behaves exactly like a miss. */
  lemma CacheReadFailureIsMiss(params: LookupParams, cache: Cache, catalogue: Catalogue, now: string)
    requires !cache.readFails
    ensures var failing := LookupProduct(params, cache.(readFails := true), catalogue, now);
            var missing := LookupProduct(params, cache.(entries := cache.entries - {CacheKey(params)}), catalogue, now);
      failing.result == missing.result && failing.fetches == missing.fetches
  {
  }

  /** A truthy `q` always goes to text search: the barcode endpoint is not
      consulted even when a barcode is also given. */
  lemma QueryWinsOverBarcode(
    params: LookupParams, cache: Cache, c1: Catalogue, c2: Catalogue, now: string)
    requires params.q != "" && c1.bySearch == c2.bySearch
    ensures LookupProduct(params, cache, c1, now) == LookupProduct(params, cache, c2, now)
  {
  }

  /** Without `q` only the barcode endpoint is consulted, with `upc || ean || gtin`. */
  lemma BarcodeWithoutQuery(
    params: LookupParams, cache: Cache, c1: Catalogue, c2: Catalogue, now: string)
    requires params.q == ""
    requires c1.byCode(Or(Or(params.upc, params.ean), params.gtin)) == c2.byCode(Or(Or(params.upc, params.ean), params.gtin))
    ensures LookupProduct(params, cache, c1, now) == LookupProduct(params, cache, c2, now)
  {
  }

  /** On a miss, an upstream 404 or 429 still reaches the caller as
      EXTERNAL_SERVICE_ERROR: the fetchers' errors carry no response. */
  lemma UpstreamStatusCollapses(params: LookupParams, cache: Cache, catalogue: Catalogue, now: string, status: int)
    requires HasIdentifier(params) && CacheRead(cache, CacheKey(params)).None?
    requires params.q != "" ==> catalogue.bySearch(params.q) == StatusError(status)
    requires params.q == "" ==> catalogue.byCode(CacheKey(params)) == StatusError(status)
    ensures LookupProduct(params, cache, catalogue, now).result
         == Failure(ServiceError(ExternalServiceError, "Failed to fetch product from OpenFoodFacts"))
  {
  }

  // ---------------------------------------------------------------------------
  // The HTTP handler
  // ---------------------------------------------------------------------------

  /** The handler's response, the cache afterwards, and the catalogue calls made. */
  datatype HandlerRun = HandlerRun(response: Result<Product, HttpError>, cache: Cache, fetches: nat)

  /** The handler's mapping of service error codes to HTTP responses: NOT_FOUND
      is 404 and INVALID_ARGUMENT 400, each with the service's message; every
      other code is 500 INTERNAL_ERROR. */
  function HttpErrorOf(e: ServiceError): (h: HttpError)
    ensures h.status == 404 <==> e.code == NotFound
    ensures h.status == 400 <==> e.code == InvalidArgument
    ensures h.status == 500 <==> e.code !in {NotFound, InvalidArgument}
    ensures h.status == 500 ==> h == HttpError(500, "INTERNAL_ERROR", "Failed to lookup product")
    ensures h.status != 500 ==> h.code == e.code.Name() && h.message == e.message
  {
    match e.code
    case NotFound => ErrorResponse(404, NotFound, e.message)
    case InvalidArgument => ErrorResponse(400, InvalidArgument, e.message)
    case _ => ErrorResponse(500, InternalError, "Failed to lookup product")
  }

  /** `GET /v1/lookup` (and the barcode route with a path `code`): 400 when no
      identifier is given at all; otherwise the service is called with the path
      code in place of `upc`, and its product or mapped error is returned. */
  function LookupHandler(query: LookupParams, code: string, cache: Cache, catalogue: Catalogue, now: string)
    : (run: HandlerRun)
    ensures run.response.Failure? && run.response.error.status == 400 <==> !HasIdentifier(query) && code == ""
    ensures run.response.Failure? ==> run.response.error.status in {400, 500}
    ensures HasIdentifier(query) || code != "" ==>
      var service := LookupProduct(query.(upc := Or(code, query.upc)), cache, catalogue, now);
      && run.cache == service.cache
      && run.fetches == service.fetches
      && (service.result.Success? ==> run.response == Success(service.result.value))
      && (service.result.Failure? ==> run.response == Failure(HttpErrorOf(service.result.error)))
  {
    if !HasIdentifier(query) && code == "" then
      HandlerRun(
        Failure(ErrorResponse(400, InvalidArgument, "Missing required parameters. Provide either upc, ean, gtin, q, or code in URL")),
        cache, 0)
    else
      var service := LookupProduct(query.(upc := Or(code, query.upc)), cache, catalogue, now);
      match service.result
      case Success(product) => HandlerRun(Success(product), service.cache, service.fetches)
      case Failure(e) => HandlerRun(Failure(HttpErrorOf(e)), service.cache, service.fetches)
  }

  /** End to end, a product the catalogue does not know (an upstream 404 on a
      cache miss) is answered with 500, never 404. */
  lemma UpstreamNotFoundIs500(query: LookupParams, code: string, cache: Cache, catalogue: Catalogue, now: string)
    requires var params := query.(upc := Or(code, query.upc));
      && HasIdentifier(params)
      && CacheRead(cache, CacheKey(params)).None?
      && (params.q != "" ==> catalogue.bySearch(params.q) == StatusError(404))
      && (params.q == "" ==> catalogue.byCode(CacheKey(params)) == StatusError(404))
    ensures LookupHandler(query, code, cache, catalogue, now).response
         == Failure(HttpError(500, "INTERNAL_ERROR", "Failed to lookup product"))
  {
    var params := query.(upc := Or(code, query.upc));
    UpstreamStatusCollapses(params, cache, catalogue, now, 404);
  }
}
