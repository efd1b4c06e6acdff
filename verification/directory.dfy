/** The company directory endpoint `GET /v1/company[/:id]?ticker=&q=` in its two
    copies (server/ and backend/): one company by id or by ticker, or up to ten
    companies whose name or alias contains a search text. */
module Directory {
  import opened Wrappers
  import opened Strings
  import opened Errors
  import opened Companies

  /** The most documents a search returns (`.limit(10)`). */
  const SearchLimit: nat := 10

  const MissingParameterMessage := "Missing required parameter. Provide either id, ticker, or q"

  /** The request: the path parameter `id` and the query parameters `ticker`
      and `q`; an absent parameter is the empty string, as both are falsy. */
  datatype DirectoryQuery = DirectoryQuery(id: string, ticker: string, q: string)

  /** The response shape of one company: the array fields default to `[]`. */
  datatype CompanyView = CompanyView(
    id: string,
    name: string,
    aliases: seq<string>,
    country: Option<string>,
    tickers: seq<string>,
    domains: seq<string>,
    esgSources: seq<EsgSource>)

  /** A 200 body: one company, or the matches of a search with, in the
      backend copy only, their number. */
  datatype CompanyReply =
    | One(view: CompanyView)
    | Matches(views: seq<CompanyView>, totalResults: Option<nat>)

  /** `formatCompany` / `formatCompanyResponse`. */
  function Format(c: Company): (v: CompanyView)
    ensures v.id == c.id && v.name == c.name && v.country == c.country
    ensures c.aliases.Some? ==> v.aliases == c.aliases.value
    ensures c.tickers.Some? ==> v.tickers == c.tickers.value
    ensures c.domains.Some? ==> v.domains == c.domains.value
    ensures c.esgSources.Some? ==> v.esgSources == c.esgSources.value
  {
    CompanyView(
      c.id, c.name, c.aliases.GetOr([]), c.country, c.tickers.GetOr([]),
      c.domains.GetOr([]), c.esgSources.GetOr([]))
  }

  /** A missing array field and an empty one look the same in a response. */
  predicate SameUpToEmpty<T(==)>(a: Option<seq<T>>, b: Option<seq<T>>) {
    a.GetOr([]) == b.GetOr([])
  }

  /** Formatting loses exactly the difference between a missing array field
      and an empty one: two companies format alike if and only if they agree
      on every scalar field and on every array field up to that difference. */
  lemma FormatIdentifies(c1: Company, c2: Company)
    ensures Format(c1) == Format(c2) <==>
      && c1.id == c2.id && c1.name == c2.name && c1.country == c2.country
      && SameUpToEmpty(c1.aliases, c2.aliases)
      && SameUpToEmpty(c1.tickers, c2.tickers)
      && SameUpToEmpty(c1.domains, c2.domains)
      && SameUpToEmpty(c1.esgSources, c2.esgSources)
  {
  }

  /** The search filter `{$or: [{name: /q/i}, {aliases: /q/i}]}` for a search
      text without regex metacharacters: the name, or one of the aliases,
      contains `q` ignoring case. */
  predicate MatchesQuery(c: Company, q: string) {
    || ContainsIgnoreCase(c.name, q)
    || (c.aliases.Some? && exists k :: 0 <= k < |c.aliases.value| && ContainsIgnoreCase(c.aliases.value[k], q))
  }

  /** Every company of the store, in store order, that the search filter
      accepts. */
  function AllMatches(cs: seq<Company>, q: string): (r: seq<Company>)
    ensures |r| <= |cs|
    ensures forall c :: c in r <==> c in cs && MatchesQuery(c, q)
    decreases |cs|
  {
    if |cs| == 0 then []
    else
      var last := cs[|cs| - 1];
      AllMatches(cs[..|cs| - 1], q) + (if MatchesQuery(last, q) then [last] else [])
  }

  /** Filtering a concatenation filters each part. */
  lemma {:induction false} AllMatchesAppend(a: seq<Company>, b: seq<Company>, q: string)
    ensures AllMatches(a + b, q) == AllMatches(a, q) + AllMatches(b, q)
    decreases |b|
  {
    if |b| > 0 {
      var b0 := b[..|b| - 1];
      AllMatchesAppend(a, b0, q);
      assert (a + b)[..|a + b| - 1] == a + b0;
      assert (a + b)[|a + b| - 1] == b[|b| - 1];
    } else {
      assert a + b == a;
    }
  }

  /** The first `n` elements of `xs`, or all of them when there are fewer. */
  function Take(xs: seq<Company>, n: nat): (r: seq<Company>)
    ensures |r| <= n && |r| <= |xs|
    ensures r == xs[..|r|]
    ensures |xs| <= n ==> r == xs
  {
    if |xs| <= n then xs else xs[..n]
  }

  /** Helper: filtering one more company of the store. */
  lemma AllMatchesStep(cs: seq<Company>, i: nat, q: string)
    requires i < |cs|
    ensures AllMatches(cs[..i + 1], q) ==
      AllMatches(cs[..i], q) + (if MatchesQuery(cs[i], q) then [cs[i]] else [])
  {
    assert cs[..i + 1][..i] == cs[..i];
  }

  /** Helper: the matches of a prefix of the store are a prefix of all matches. */
  lemma AllMatchesOfPrefix(cs: seq<Company>, i: nat, q: string)
    requires i <= |cs|
    ensures var m := AllMatches(cs[..i], q); |m| <= |AllMatches(cs, q)| && AllMatches(cs, q)[..|m|] == m
  {
    AllMatchesAppend(cs[..i], cs[i..], q);
    assert cs[..i] + cs[i..] == cs;
  }

  /** `Company.find(filter).limit(limit)` as the store executes it: scans the
      companies in order and stops as soon as `limit` documents have been
      found. The handlers use the functional form `Search`; with `limit` 10
      this scan returns exactly `Search(cs, q)`. */
  method FindMatches(cs: seq<Company>, q: string, limit: nat) returns (r: seq<Company>)
    ensures r == Take(AllMatches(cs, q), limit)
    ensures forall c :: c in r ==> c in cs && MatchesQuery(c, q)
  {
    r := [];
    var i := 0;
    while i < |cs| && |r| < limit
      invariant 0 <= i <= |cs|
      invariant r == AllMatches(cs[..i], q)
      invariant |r| <= limit
    {
      AllMatchesStep(cs, i, q);
      if MatchesQuery(cs[i], q) {
        r := r + [cs[i]];
      }
      i := i + 1;
    }
    AllMatchesOfPrefix(cs, i, q);
    if i == |cs| {
      assert cs[..i] == cs;
    }
  }

  /** The search result: the first ten matches in store order. */
  function Search(cs: seq<Company>, q: string): (r: seq<Company>)
    ensures |r| <= SearchLimit
    ensures forall c :: c in r ==> c in cs && MatchesQuery(c, q)
    ensures |r| < SearchLimit ==> r == AllMatches(cs, q)
  {
    Take(AllMatches(cs, q), SearchLimit)
  }

  function FormatAll(cs: seq<Company>): (r: seq<CompanyView>)
    ensures |r| == |cs| && forall k :: 0 <= k < |cs| ==> r[k] == Format(cs[k])
    decreases |cs|
  {
    if |cs| == 0 then [] else [Format(cs[0])] + FormatAll(cs[1..])
  }

  predicate HasParameter(query: DirectoryQuery) {
    query.id != "" || query.ticker != "" || query.q != ""
  }

  function NotFoundById(id: string): HttpError {
    ErrorResponse(404, NotFound, "Company not found with ID: " + id)
  }

  function NotFoundByTicker(ticker: string): HttpError {
    ErrorResponse(404, NotFound, "Company not found with ticker: " + ticker)
  }

  /** What both copies answer once the store has answered: by id first, then
      by ticker, then the search; `withTotal` adds the backend's `totalResults`. */
  function Answer(cs: seq<Company>, query: DirectoryQuery, withTotal: bool): (r: Result<CompanyReply, HttpError>)
    requires HasParameter(query)
    ensures query.id != "" ==>
      match FindById(cs, query.id)
      case Some(k) => r == Success(One(Format(cs[k])))
      case None => r == Failure(NotFoundById(query.id))
    ensures query.id == "" && query.ticker != "" ==>
      match FindByTicker(cs, query.ticker)
      case Some(k) => r == Success(One(Format(cs[k])))
      case None => r == Failure(NotFoundByTicker(query.ticker))
    ensures query.id == "" && query.ticker == "" ==>
      && r.Success? && r.value.Matches?
      && r.value.views == FormatAll(Search(cs, query.q))
      && (withTotal <==> r.value.totalResults == Some(|r.value.views|))
      && (!withTotal ==> r.value.totalResults.None?)
  {
    if query.id != "" then
      match FindById(cs, query.id)
      case Some(k) => Success(One(Format(cs[k])))
      case None => Failure(NotFoundById(query.id))
    else if query.ticker != "" then
      match FindByTicker(cs, query.ticker)
      case Some(k) => Success(One(Format(cs[k])))
      case None => Failure(NotFoundByTicker(query.ticker))
    else
      var found := Search(cs, query.q);
      Success(Matches(FormatAll(found), if withTotal then Some(|found|) else None))
  }

  /** `getCompany` in server/: 400 unless some parameter is given, then the
      store queries, whose failure goes through the shared catch block. */
  function ServerGetCompany(store: Store, query: DirectoryQuery): (r: Result<CompanyReply, HttpError>)
    ensures !HasParameter(query) ==>
      r == Failure(ErrorResponse(400, InvalidArgument, MissingParameterMessage))
    ensures HasParameter(query) && store.fault.Some? ==> r == Failure(CaughtByServer(store.fault.value))
    ensures HasParameter(query) && store.fault.None? ==> r == Answer(store.companies, query, false)
    ensures r.Success? && r.value.Matches? ==> r.value.totalResults.None?
    ensures r.Failure? && store.fault.None? ==> r.error.status in {400, 404}
  {
    if !HasParameter(query) then
      Failure(ErrorResponse(400, InvalidArgument, MissingParameterMessage))
    else
      match store.fault
      case Some(f) => Failure(CaughtByServer(f))
      case None => Answer(store.companies, query, false)
  }

  /** `getCompany` in backend/: the same branches, the number of matches in a
      search reply, 400 when no parameter is given, and every thrown error
      answered with 500. */
  function BackendGetCompany(store: Store, query: DirectoryQuery): (r: Result<CompanyReply, HttpError>)
    ensures !HasParameter(query) ==>
      r == Failure(ErrorResponse(400, InvalidArgument, MissingParameterMessage))
    ensures HasParameter(query) && store.fault.Some? ==>
      r == Failure(ErrorResponse(500, InternalError, "Failed to lookup company"))
    ensures HasParameter(query) && store.fault.None? ==> r == Answer(store.companies, query, true)
    ensures r.Success? && r.value.Matches? ==> r.value.totalResults == Some(|r.value.views|)
    ensures r.Failure? ==> r.error.status in {400, 404, 500}
  {
    if !HasParameter(query) then
      Failure(ErrorResponse(400, InvalidArgument, MissingParameterMessage))
    else
      match store.fault
      case Some(_) => Failure(ErrorResponse(500, InternalError, "Failed to lookup company"))
      case None => Answer(store.companies, query, true)
  }

  /** The two copies agree whenever the store answers: the same errors, the
      same company, the same matches; only the backend counts the matches. */
  lemma BackendMatchesServer(store: Store, query: DirectoryQuery)
    requires store.fault.None?
    ensures var s := ServerGetCompany(store, query);
            var b := BackendGetCompany(store, query);
      && (s.Failure? <==> b.Failure?)
      && (s.Failure? ==> s == b)
      && (s.Success? && s.value.One? ==> s == b)
      && (s.Success? && s.value.Matches? ==>
            b == Success(Matches(s.value.views, Some(|s.value.views|))))
  {
  }

  /** An id, when given, decides the answer alone: the ticker and the search
      text are not looked at. */
  lemma IdTakesPrecedence(store: Store, id: string, t1: string, q1: string, t2: string, q2: string)
    requires id != ""
    ensures ServerGetCompany(store, DirectoryQuery(id, t1, q1)) == ServerGetCompany(store, DirectoryQuery(id, t2, q2))
    ensures BackendGetCompany(store, DirectoryQuery(id, t1, q1)) == BackendGetCompany(store, DirectoryQuery(id, t2, q2))
  {
  }

  /** Without an id, a ticker decides the answer and the search text is ignored. */
  lemma TickerTakesPrecedence(store: Store, ticker: string, q1: string, q2: string)
    requires ticker != ""
    ensures ServerGetCompany(store, DirectoryQuery("", ticker, q1)) == ServerGetCompany(store, DirectoryQuery("", ticker, q2))
    ensures BackendGetCompany(store, DirectoryQuery("", ticker, q1)) == BackendGetCompany(store, DirectoryQuery("", ticker, q2))
  {
  }

  /** A ticker lookup does not depend on the case of the ticker asked for; only
      the text of a 404 message echoes it. */
  lemma TickerLookupIgnoresCase(store: Store, t1: string, t2: string)
    requires t1 != "" && t2 != "" && EqualsIgnoreCase(t1, t2)
    ensures var r1 := ServerGetCompany(store, DirectoryQuery("", t1, ""));
            var r2 := ServerGetCompany(store, DirectoryQuery("", t2, ""));
      && (r1.Success? <==> r2.Success?)
      && (r1.Success? ==> r1 == r2)
  {
    FindByTickerIgnoresCase(store.companies, t1, t2);
  }

  /** A search answers every matching company when there are fewer than ten,
      and otherwise exactly ten of them, the first in store order. */
  lemma SearchIsFirstMatches(cs: seq<Company>, q: string)
    ensures var r := Search(cs, q);
      && (|AllMatches(cs, q)| <= SearchLimit ==> r == AllMatches(cs, q))
      && (|AllMatches(cs, q)| > SearchLimit ==> |r| == SearchLimit && r == AllMatches(cs, q)[..SearchLimit])
  {
  }

  /** A store lookup never answers 404 for a company that exists: an id of a
      stored company yields that company. */
  lemma KnownIdIsFound(store: Store, k: nat, ticker: string, q: string)
    requires store.fault.None? && k < |store.companies| && store.companies[k].id != ""
    requires forall i :: 0 <= i < k ==> store.companies[i].id != store.companies[k].id
    ensures ServerGetCompany(store, DirectoryQuery(store.companies[k].id, ticker, q)) ==
      Success(One(Format(store.companies[k])))
  {
    FindByIdFirst(store.companies, store.companies[k].id, k);
  }
}
