# Impactly core in Dafny

This project models the core of an ethical-product finder. The core answers three questions:

- **What is this product?** A cache-aside lookup of OpenFoodFacts records, normalised to one product shape.
- **Who is this company?** Look up a company by database id or stock ticker, or search by name and alias.
- **How good is this company?** An ESG score (environment, social/labour, governance) computed from the company's latest ESG source. The web front end colours the score green, amber or red.

It also models the offline script that fills the company registry from a CSV export of public ESG ratings.

## Modules

- `Wrappers`: `Option` and `Result`.
- `Errors`: the error codes and the `{error: {code, message}}` envelope. Also the shared `catch` block of the `server/` handlers.
- `Strings`: the JavaScript string operations the core relies on:
  - `<` and `>` on strings (`LexLess`, a strict lexicographic order, proved irreflexive, transitive and total);
  - `trim()`;
  - `split`/`join` on one separator;
  - ASCII case mapping;
  - substring search;
  - `a || b` on strings.
- `Companies`: company documents, their ESG sources, and the document store. The store is a sequence of companies in insertion order plus an optional fault; while a fault is present, every query throws it. Also `findById` and the case-insensitive ticker query.
- `Scoring`: the score engine and both `GET /v1/score/:companyId` handlers, `server/` and `backend/`:
  - latest-source selection, a fold that keeps the first of equal dates;
  - weight re-normalisation;
  - half-up rounding;
  - the confidence estimate.
- `Products`: `normalizeProduct` and `resolveCompany` of the OpenFoodFacts service:
  - brand token parsing;
  - barcode-type inference;
  - stub candidate ids.
- `Lookup`: `lookupProduct` of the OpenFoodFacts service, including its cache, its two fetchers and its error mapping, plus the `GET /v1/lookup` handler. The cache is a map with flags for failing reads and writes. The catalogue is an oracle that gives HTTP replies.
- `Directory`: both copies of `getCompany` (`GET /v1/company[/:id]?ticker=&q=`) and the response formatter.
- `Ingest`: the ingestion script:
  - the per-row step (validate, rescale, build, merge or insert);
  - the fold over all rows with its statistics;
  - `unionDedupe`.
- `ScoreBanding`: `score_color` of the product list.

Clocks, date parsing and the database's id generator are parameters: `now` strings, an `elapsedSince` oracle, and `newIds`.

## Where the code and its own tests and error mapping disagree

The model follows the code in each case.

- **All-null latest source.** The score test in server/tests/api.spec.js:224-236 expects a company whose latest source has E, S and G all null to get 404 NOT_FOUND. Both score handlers instead answer 200 with overall 0 and all weights 0; JavaScript's `1/0` is never used because every factor is null. `Scoring.AllNullLatestStillScores` proves this. The ingestion script never writes such a source (`Ingest.IngestRowKeepsNoAllNull`).
- **Upstream 404 and 429.** The outer `catch` of `lookupProduct` (backend/services/openFoodFactsService.js:62-80) maps an error whose response status is 404 to NOT_FOUND and one with 429 to RATE_LIMITED. Those branches are never reached: each fetcher's own `catch` rethrows a new error without a `response`. The outer `catch` therefore sees no status, so every upstream failure becomes EXTERNAL_SERVICE_ERROR, and the lookup handler answers it with 500 (`Lookup.UpstreamStatusCollapses`, `Lookup.UpstreamNotFoundIs500`).
- **Tie-breaking.** Latest-source selection compares dates with a strict `>` (server/controllers/scoreController.js:36), so of two equally dated sources the earlier one is kept, and the result depends on source order (`Scoring.SelectionDependsOnOrder`).

## Model

| member | source | states |
|---|---|---|
| Errors.CaughtByServer | server/controllers/scoreController.js:106-120 | the thrown error's status, code and message are kept when truthy; otherwise they default to 500, INTERNAL_ERROR and a non-empty message |
| Companies.FindById | server/controllers/scoreController.js:9 | the index found holds the id, and nothing is found exactly when no company has that id |
| Companies.FindByTicker | server/controllers/companyController.js:26-28 | the company found holds the ticker up to case and is the first such in store order; nothing is found exactly when no company holds it |
| Companies.FindByTickerIgnoresCase | server/controllers/companyController.js:26-28 | tickers that are equal up to case find the same company |
| Companies.FindByTickerFirst | server/controllers/companyController.js:26-28 | the first company holding the ticker is the one `findOne` returns |
| Companies.FindByIdFirst | server/controllers/companyController.js:21-23 | the first company with the id is the one `findById` returns |
| Scoring.LatestIndex | server/controllers/scoreController.js:30-37 | the `reduce` picks a source that no other source's date (missing dates read as now) exceeds, and every earlier source's date is strictly smaller |
| Scoring.LatestIndexIsFirstLatest | server/controllers/scoreController.js:30-37 | a source is the first latest one if and only if it is the one the fold picks |
| Scoring.EqualAsOfKeepsFirst | server/controllers/scoreController.js:36 | of two sources with equal dates the earlier one is kept |
| Scoring.SelectionDependsOnOrder | server/controllers/scoreController.js:30-37 | swapping two equally dated sources changes the selected source |
| Scoring.AssignWeights | server/controllers/scoreController.js:42-55 | 0.4/0.4/0.2 when all factors are present; otherwise each present factor gets 1/k and each null factor 0; the weights sum to 1 when any factor is present |
| Scoring.RoundHalfUp | server/controllers/scoreController.js:58-62 | `Math.round` lands within half a unit of its argument, with halves going up |
| Scoring.WeightedSumBetweenPresentFactors | server/controllers/scoreController.js:45-62 | the weighted sum lies between the smallest and the largest present factor |
| Scoring.OverallBetweenPresentFactors | server/controllers/scoreController.js:45-62 | the rounded overall score lies between the smallest and the largest present factor |
| Scoring.OverallInRange | server/controllers/scoreController.js:42-62 | factors in 0..100 give an overall score in 0..100; no present factor gives all-zero weights and score 0 |
| Scoring.AllPresentSumStaysOffTies | server/controllers/scoreController.js:42-62 | with all factors present the weighted sum stays at least 0.1 from any rounding tie, so floating-point error in 0.4/0.2 cannot change the result |
| Scoring.Confidence | server/controllers/scoreController.js:65-82 | the confidence is 0.80, 0.85 or 0.90: 0.90 exactly when fresh and complete, 0.80 exactly when neither; the 0.95 cap never binds |
| Scoring.Report | server/controllers/scoreController.js:29-103 | the report carries the first latest source's factors and date, the weights and confidence that follow from them, and an overall in 0..100 for in-range sources |
| Scoring.GetScoreFromStore | backend/controllers/scoreController.js:9-27 | success exactly when the company exists and has at least one ESG source; otherwise 404 NOT_FOUND |
| Scoring.ServerGetScore | server/controllers/scoreController.js:4-121 | a store fault goes through the shared catch; otherwise success iff the company has ESG data, and the report is that of its latest source |
| Scoring.BackendGetScore | backend/controllers/scoreController.js:4-114 | a store fault gives 500 "Failed to get ESG score"; otherwise as in server/, with the company's name in the report |
| Scoring.BackendMatchesServer | backend/controllers/scoreController.js:83-103 | when the store answers, the two copies agree on outcome and errors, and their reports differ only in `companyName` |
| Scoring.AllNullReportScoresZero | server/controllers/scoreController.js:45-62 | an all-null latest source yields overall 0, all-zero weights and no completeness bonus |
| Scoring.AllNullLatestStillScores | server/controllers/scoreController.js:20-62 | a company whose latest source is all-null is answered 200 with overall 0 and all-zero weights, not 404, whatever its older sources hold |
| Products.BrandTokens | backend/services/openFoodFactsService.js:158-159 | every brand token is non-empty, comma-free and trimmed; a comma-free string gives its trim, or nothing when it is blank |
| Products.BrandTokensOfComma | backend/services/openFoodFactsService.js:158-159 | the tokens of `a,b` are the tokens of `a` followed by those of `b`, so `"A, B"` gives A and B and empty pieces contribute nothing |
| Strings.SplitAppend | backend/services/openFoodFactsService.js:158 | `split` at a separator between two strings gives the pieces of each side, in order |
| Products.BrandTokensOfJoin | backend/services/openFoodFactsService.js:159 | joining tokens with commas and parsing again gives the same tokens in order |
| Products.InferBarcode | backend/services/openFoodFactsService.js:161-175 | 12 digits is UPC, 13 digits EAN, anything else GTIN; the value is the identifier, or the record's code when there is no identifier |
| Products.StubIdShape | backend/services/openFoodFactsService.js:215 | candidate ids start with "stub_" and contain no white space and no upper-case letter; for a brand without spaces the id is "stub_" plus the lower-cased brand |
| Products.StubIdOfSpaceRun | backend/services/openFoodFactsService.js:215 | each maximal white-space run of a brand becomes exactly one `_` in its stub id, and the characters before it are only lower-cased |
| Strings.ReplaceSpaceRunsOfRun | backend/services/openFoodFactsService.js:215 | `replace(/\s+/g, '_')` keeps a space-free prefix, turns the maximal run after it into one `_`, and continues with the rest |
| Products.ResolveCompany | backend/services/openFoodFactsService.js:201-220 | always unresolved with no company id, and one candidate per brand in order, each with confidence 0.5 and a stub id |
| Products.CandidateIdsAreStubs | backend/services/openFoodFactsService.js:214-216 | every candidate id starts with "stub_" and contains no white space |
| Products.Assemble | backend/services/openFoodFactsService.js:156-198 | id and record id are `code \|\| identifier`; the name falls back from product name to name to "Unknown Product", the category from categories to category to "Unknown Category"; the first brand token is the brand and the rest are aliases, or "Unknown Brand" with no aliases; the image is `image_url`, else `image_front_url`, and absent iff both are empty; the company resolution is that of the tokens; `lastUpdated` is the record's `last_modified_t` when truthy, else the current time |
| Products.NormalizeProduct | backend/services/openFoodFactsService.js:156-198 | the brand string is `brands \|\| brand`, parsed into tokens; name, brand and category are never empty; the first token is the brand and the rest are aliases; candidates come from the same tokens; the image is `image_url`, else `image_front_url`, and absent iff both are empty; `lastUpdated` is `last_modified_t` when truthy, else the current time |
| Products.NormalizedBrandsRoundTrip | backend/services/openFoodFactsService.js:186-188 | a comma-joined brand list comes back as brand plus aliases in order, with one candidate per token |
| Lookup.CacheKey | backend/services/openFoodFactsService.js:36 | the key is the first truthy of upc, ean, gtin and q, and is empty exactly when none is given |
| Lookup.Rethrow | backend/services/openFoodFactsService.js:95-111 | a fetcher's rethrown error never carries a response; without a status it is EXTERNAL_SERVICE_ERROR |
| Lookup.GetByBarcode | backend/services/openFoodFactsService.js:84-113 | success iff a 2xx reply carries a product; a failure has no response, and is NOT_FOUND iff the reply was 404 and RATE_LIMITED iff it was 429 |
| Lookup.SearchByText | backend/services/openFoodFactsService.js:116-153 | success iff a 2xx reply has at least one product, which is then the first; failures as for the barcode fetcher |
| Lookup.CacheRead | backend/services/openFoodFactsService.js:223-231 | a hit exactly when reads work and the key is stored, and then it is the stored product |
| Lookup.CacheWrite | backend/services/openFoodFactsService.js:234-245 | a working cache stores the product under the key; a failing one is left unchanged, with the error swallowed |
| Lookup.ServiceErrorOf | backend/services/openFoodFactsService.js:62-80 | status 404 iff NOT_FOUND ("Product not found: " + key), 429 iff RATE_LIMITED, otherwise EXTERNAL_SERVICE_ERROR |
| Lookup.LookupProduct | backend/services/openFoodFactsService.js:25-81 | INVALID_ARGUMENT iff no identifier; a cache hit returns the stored product with no fetch; a miss makes one catalogue call (text search when q is truthy, else the product endpoint for upc, ean or gtin), succeeds exactly when that call does, returns the record normalised under the identifier upc‖ean‖gtin‖q and caches it, and otherwise reports the outer catch's error; a failed lookup and a failing cache write leave the cache as it was |
| Lookup.SecondLookupIsCacheHit | backend/services/openFoodFactsService.js:35-40 | after a successful lookup, the same lookup returns the same product from the cache with no fetch, whatever the catalogue says by then |
| Lookup.CacheWriteFailureInvisible | backend/services/openFoodFactsService.js:234-245 | a failing cache write never changes the result |
| Lookup.CacheReadFailureIsMiss | backend/services/openFoodFactsService.js:223-231 | a failing cache read behaves exactly like a miss |
| Lookup.QueryWinsOverBarcode | backend/services/openFoodFactsService.js:45-52 | with a truthy q only the search endpoint matters |
| Lookup.BarcodeWithoutQuery | backend/services/openFoodFactsService.js:48-52 | without q only the barcode endpoint, asked for `upc \|\| ean \|\| gtin`, matters |
| Lookup.UpstreamStatusCollapses | backend/services/openFoodFactsService.js:62-80 | on a miss, any upstream error status reaches the caller as EXTERNAL_SERVICE_ERROR |
| Lookup.HttpErrorOf | backend/controllers/lookupController.js:31-58 | NOT_FOUND is 404 and INVALID_ARGUMENT is 400, each with the service's message; everything else is 500 "Failed to lookup product" |
| Lookup.LookupHandler | backend/controllers/lookupController.js:4-60 | 400 iff no identifier and no path code; otherwise the service runs with the path code in place of upc, its product is returned, and its error is answered with the handler's status mapping |
| Lookup.UpstreamNotFoundIs500 | backend/controllers/lookupController.js:31-58 | a product the catalogue answers 404 for is answered 500 end to end |
| Directory.Format | server/controllers/companyController.js:72-86 | id, name and country are copied; each present array field is copied as it is |
| Directory.FormatIdentifies | backend/controllers/companyController.js:78-92 | two companies format alike iff they agree on every field, up to a missing array versus an empty one |
| Directory.AllMatches | server/controllers/companyController.js:31-36 | exactly the stored companies whose name or an alias contains q ignoring case, in store order |
| Directory.FindMatches | server/controllers/companyController.js:31-36 | the scan with a limit returns exactly the first `limit` matches in store order |
| Directory.Search | server/controllers/companyController.js:31-36 | at most ten matching companies, and all of them when there are fewer than ten |
| Directory.SearchIsFirstMatches | server/controllers/companyController.js:31-36 | beyond ten matches the search returns exactly the first ten |
| Directory.Answer | server/controllers/companyController.js:19-52 | an id is looked up first, then a ticker, each giving the formatted company or a 404 naming it; otherwise the formatted search results |
| Directory.ServerGetCompany | server/controllers/companyController.js:4-68 | 400 without any parameter; a store fault goes through the shared catch; with a parameter and a working store the reply is the id, ticker or search answer, without a count |
| Directory.BackendGetCompany | backend/controllers/companyController.js:4-75 | 400 without any parameter; a store fault gives 500 "Failed to lookup company"; with a parameter and a working store the reply is the id, ticker or search answer, with `totalResults` equal to the number of matches |
| Directory.BackendMatchesServer | backend/controllers/companyController.js:42-54 | when the store answers, both copies give the same errors and the same company, and the same matches apart from the count |
| Directory.IdTakesPrecedence | server/controllers/companyController.js:21-29 | with an id given, ticker and q do not affect the answer |
| Directory.TickerTakesPrecedence | backend/controllers/companyController.js:25-42 | without an id, a ticker decides and q is ignored |
| Directory.TickerLookupIgnoresCase | server/controllers/companyController.js:26-28 | tickers equal up to case give the same success or failure, and the same company |
| Directory.KnownIdIsFound | server/controllers/companyController.js:21-23 | the id of a stored company always finds that company |
| Ingest.Skip | backend/scripts/ingest-esg.js:97-104 | a skip counts one skipped row and keeps the other counts; the reason is appended while fewer than three are kept, and the reasons are unchanged afterwards |
| Ingest.MaxOrZero | backend/scripts/ingest-esg.js:113 | the maximum (clamped at 0, which changes nothing because it is only compared with 100) bounds every present score |
| Ingest.ScaleOne | backend/scripts/ingest-esg.js:115-118 | a present score becomes the integer within half a unit of `x * (100 / max)`, with halves going up; so at most 100 for a score at most the maximum, at least 0 for a non-negative one, and exactly 100 for the maximum |
| Ingest.Rescale | backend/scripts/ingest-esg.js:111-120 | presence is kept; nothing changes unless some score exceeds 100; then every present score is scaled by `100 / max` and rounded, so every score is at most 100 and the maximum becomes exactly 100 |
| Ingest.RescaleInRange | backend/scripts/ingest-esg.js:111-120 | non-negative scores are brought into the schema's range 0..100 |
| Ingest.NewCompany | backend/scripts/ingest-esg.js:132-152 | the inserted document has a non-empty name, that name as its only alias, the ticker, no country, and one source holding the scores |
| Ingest.AddToSet | backend/scripts/ingest-esg.js:161-167 | the existing values stay first and in order, the result holds exactly the old and the added values, and no duplicates are introduced |
| Ingest.AddToSetPresent | backend/scripts/ingest-esg.js:161-167 | adding values that are already present changes nothing |
| Ingest.MaxAsOf | backend/scripts/ingest-esg.js:170-174 | the reduced date is not exceeded by any stored date, and is "" or one of them |
| Ingest.Merge | backend/scripts/ingest-esg.js:159-186 | id, name and country are kept, the ticker joins the tickers after the old ones, and the new source is pushed exactly when its date is strictly later than every stored date |
| Ingest.MergeKeepsExisting | backend/scripts/ingest-esg.js:159-186 | a merge never removes or reorders an existing alias, ticker, domain or source; the row's name, ticker and domains end up among the values |
| Ingest.Classify | backend/scripts/ingest-esg.js:94-192 | skip for a blank ticker, all-null scores, a failing store or an out-of-range insert; otherwise update the first company holding the ticker, or insert when there is none |
| Ingest.Apply | backend/scripts/ingest-esg.js:159-201 | every row is counted once; a skipped row leaves the store alone; only an insert grows the store |
| Ingest.IngestRow | backend/scripts/ingest-esg.js:94-201 | each row adds exactly one to inserted + updated + skipped, at most three reasons are kept, and the store grows by the number of inserts |
| Ingest.IngestRowEffect | backend/scripts/ingest-esg.js:154-192 | a skip leaves the store alone, an insert appends the new document, and an update rewrites only the company found, with the merge |
| Ingest.IngestRowKeepsNoAllNull | backend/scripts/ingest-esg.js:122-130 | no row ever stores a source whose three factors are all null |
| Ingest.IngestRowKeepsRange | backend/scripts/ingest-esg.js:111-192 | with non-negative scores every stored factor stays in 0..100 |
| Ingest.MergeIdempotent | backend/scripts/ingest-esg.js:159-186 | merging the same row twice equals merging it once |
| Ingest.IngestRowTwice | backend/scripts/ingest-esg.js:154-192 | ingesting a row a second time leaves the store unchanged, and counts as an update when the first pass was not skipped |
| Ingest.IngestRowsCounts | backend/scripts/ingest-esg.js:94-202 | over any run of rows, inserted + updated + skipped grows by the number of rows, at most three reasons are kept, the store grows by one company per insert, and no all-null source is written |
| Ingest.IngestAll | backend/scripts/ingest-esg.js:94-202 | the loop equals the per-row fold; inserted + updated + skipped equals the number of rows; at most three reasons; one company per insert; no all-null source ever written |
| Ingest.DistinctMembers | backend/scripts/ingest-esg.js:51 | `Array.from(new Set(xs))` holds exactly the values of xs, without duplicates |
| Ingest.KeptItemsMembers | backend/scripts/ingest-esg.js:44-48 | a value is contributed exactly when some non-empty string item trims to it |
| Ingest.UnionItems | backend/scripts/ingest-esg.js:44-48 | the inner loop extends the distinct list by the new trimmed items, and the seen-set tracks it |
| Ingest.UnionDedupe | backend/scripts/ingest-esg.js:40-52 | the trimmed non-empty string items of all array arguments, first occurrences in order, without duplicates, and nothing else |
| Ingest.BlankItemKeptAsEmpty | backend/scripts/ingest-esg.js:45-46 | a white-space item is truthy, so the empty string (its trim) is part of the union |
| ScoreBanding.ScoreBand | frontend-next/src/components/ProductList.jsx:59-63 | green iff above 80, amber iff in 51..80, red iff at most 50 |
| ScoreBanding.ScoreColor | frontend-next/src/components/ProductList.jsx:59-63 | the colour is the band's colour, one of the three hex values |
| ScoreBanding.BandMonotone | frontend-next/src/components/ProductList.jsx:59-63 | a higher score never gets a worse band |
| ScoreBanding.ColorDeterminesBand | frontend-next/src/components/ProductList.jsx:59-63 | two scores get the same colour iff they are in the same band |
| ScoreBanding.Boundaries | frontend-next/src/components/ProductList.jsx:60-61 | 80 is amber and 81 green; 50 is red and 51 amber |

## Left out

- I/O is not modelled: the database connection, the CSV file stream, HTTP transport, logging and `process.exit`. The store, the cache and the catalogue are values, and their failures are flags or faults.
- The clock and date parsing are parameters. `new Date().toISOString()` is a `now` string. The freshness check receives the elapsed milliseconds from an oracle (`elapsedSince`), which also decides whether the date parses. One `now` stands for every `new Date()` of a request, so in latest-source selection two sources without a date always tie.
- Ingestion rows are taken after the script's own field parsing. `num`, `iso` and `registrableDomainFrom` (ingest-esg.js:9-37) are not modelled; a row holds their results. Scores are integers, so fractional CSV scores are not covered.
- Ingest.Rescale: models `x * (100 / max)` in exact real arithmetic; a floating-point product that lands just below or above a rounding tie may round differently in JavaScript.
- Scoring.Confidence: states confidence in exact hundredths. JavaScript's `0.8 + 0.05 + 0.05` is `0.9000000000000001`, and the model does not carry that error.
- Scoring.AssignWeights: uses exact 0.4 and 0.2 rather than their binary approximations; the other weights that arise, 1 and 0.5, are exact in binary too. `Scoring.AllPresentSumStaysOffTies` shows this cannot change the rounded score when all factors are present.
- Scoring.AssignWeights: an absent factor is assumed stored as `null`, as ingest-esg.js:145-148 writes it. The `!== null` tests (server/controllers/scoreController.js:45,51-53,77) would count an `undefined` factor as present, with weight 1/k and value 0; documents without a stored factor are not modelled.
- Regular-expression metacharacters in a ticker or a search text are not modelled. Ticker and search queries are modelled as case-insensitive equality and substring tests, which is what they are for plain text.
- Strings.LexLess: compares code points, while JavaScript's `<` compares UTF-16 code units. The two orders differ only between characters above U+FFFF and characters in U+E000..U+FFFF, which ISO dates never contain.
- Case mapping is ASCII-only. White space is the common JavaScript subset (see `Strings.IsSpace`).
- Mongoose validation on `Company.create` is modelled only as the 0..100 range check of the scores. The rejected insert is a skip whose reason carries a fixed stand-in message (`Ingest.ValidationFailed`). Mongoose's exact message is not modelled.
- Ingest.Skip: a missing ticker's reason is modelled as the ticker between quotes. `JSON.stringify` escaping, and `undefined` for an absent cell, are not reproduced.
- Ingest.Classify: the collection's unique case-insensitive ticker index is not modelled. Neither is an insert racing another process.
- Directory.ServerGetCompany: `error.details` in the catch block is not modelled (the store fault has no details).
- The `validateObjectId` middleware in front of the id routes is not part of this model. Ids are plain strings, and an id that is not an ObjectId is treated like an unknown one.
- Timestamps (`createdAt`, `updatedAt`, the cache's `updatedAt` and its TTL expiry) are not modelled. An expired cache entry is simply absent from the map.
- The messages of errors thrown inside the OpenFoodFacts fetchers are not modelled, because the outer `catch` replaces them. The outer messages are modelled.
- The OpenFoodFacts base URL, credentials and request options are configuration, not behaviour.
