/** The ESG scoring engine behind `GET /v1/score/:companyId`: pick the latest
    ESG source, weigh its three factors, round the weighted sum, and estimate a
    confidence. Both handler copies are modelled: `ServerGetScore`
    (server/controllers/scoreController.js) and `BackendGetScore`
    (backend/controllers/scoreController.js). */
module Scoring {
  import opened Wrappers
  import opened Strings
  import opened Errors
  import opened Companies

  const MethodologyVersion := "1.0.0"

  /** 24 months of 30 days, in milliseconds: `monthsDiff <= 24` with
      `monthsDiff = elapsed / (1000 * 60 * 60 * 24 * 30)`. */
  const FreshnessWindowMs: int := 24 * (1000 * 60 * 60 * 24 * 30)

  // ---------------------------------------------------------------------------
  // Latest-source selection
  // ---------------------------------------------------------------------------

  /** The `asOf` a source is compared by: a missing or empty one stands for `now`. */
  function ComparisonAsOf(src: EsgSource, now: string): string {
    if src.asOf.Some? && src.asOf.value != "" then src.asOf.value else now
  }

  /** Source `i` is the first of the latest sources: no source has a strictly
      greater `asOf`, and every source before it has a strictly smaller one. */
  ghost predicate IsFirstLatest(sources: seq<EsgSource>, now: string, i: int) {
    && 0 <= i < |sources|
    && (forall j :: 0 <= j < |sources| ==>
          !LexGreater(ComparisonAsOf(sources[j], now), ComparisonAsOf(sources[i], now)))
    && (forall j :: 0 <= j < i ==>
          LexLess(ComparisonAsOf(sources[j], now), ComparisonAsOf(sources[i], now)))
  }

  /** If `x <= y` and `y < z` then `x < z`. */
  lemma LessAfterAtMost(x: string, y: string, z: string)
    requires !LexLess(y, x) && LexLess(y, z)
    ensures LexLess(x, z)
  {
    LexLessTotal(x, y);
    if x != y {
      LexLessTransitive(x, y, z);
    }
  }

  /** One step of the fold: a source that beats the running choice becomes the
      new choice, and what was true of the old choice carries over. */
  lemma LatestStep(sources: seq<EsgSource>, now: string, n: nat, i: nat)
    requires 2 <= n <= |sources| && i < n - 1
    requires forall j :: 0 <= j < n - 1 ==>
      !LexGreater(ComparisonAsOf(sources[j], now), ComparisonAsOf(sources[i], now))
    requires forall j :: 0 <= j < i ==>
      LexLess(ComparisonAsOf(sources[j], now), ComparisonAsOf(sources[i], now))
    ensures var k := if LexGreater(ComparisonAsOf(sources[n - 1], now), ComparisonAsOf(sources[i], now)) then n - 1 else i;
      && (forall j :: 0 <= j < n ==>
            !LexGreater(ComparisonAsOf(sources[j], now), ComparisonAsOf(sources[k], now)))
      && (forall j :: 0 <= j < k ==>
            LexLess(ComparisonAsOf(sources[j], now), ComparisonAsOf(sources[k], now)))
  {
    var last := ComparisonAsOf(sources[n - 1], now);
    var cur := ComparisonAsOf(sources[i], now);
    if LexLess(cur, last) {
      forall j | 0 <= j < n - 1
        ensures LexLess(ComparisonAsOf(sources[j], now), last)
      {
        LessAfterAtMost(ComparisonAsOf(sources[j], now), cur, last);
      }
      forall j | 0 <= j < n
        ensures !LexLess(last, ComparisonAsOf(sources[j], now))
      {
        if j < n - 1 {
          LexLessAsymmetric(ComparisonAsOf(sources[j], now), last);
        } else {
          LexLessIrreflexive(last);
        }
      }
    }
  }

  /** `esgSources.reduce(...)` over the first `n` sources: start from the first
      source and replace the running choice only by a source whose `asOf` is
      strictly greater. The result is the first of the latest sources. */
  function LatestIndex(sources: seq<EsgSource>, now: string, n: nat): (i: nat)
    requires 1 <= n <= |sources|
    ensures i < n
    ensures forall j :: 0 <= j < n ==>
      !LexGreater(ComparisonAsOf(sources[j], now), ComparisonAsOf(sources[i], now))
    ensures forall j :: 0 <= j < i ==>
      LexLess(ComparisonAsOf(sources[j], now), ComparisonAsOf(sources[i], now))
    decreases n
  {
    if n == 1 then
      LexLessIrreflexive(ComparisonAsOf(sources[0], now));
      0
    else
      var i := LatestIndex(sources, now, n - 1);
      LatestStep(sources, now, n, i);
      if LexGreater(ComparisonAsOf(sources[n - 1], now), ComparisonAsOf(sources[i], now)) then n - 1 else i
  }

  /** The fold picks exactly the first latest source, and nothing else is one. */
  lemma LatestIndexIsFirstLatest(sources: seq<EsgSource>, now: string, i: int)
    requires |sources| >= 1
    ensures IsFirstLatest(sources, now, i) <==> i == LatestIndex(sources, now, |sources|)
  {
    var k := LatestIndex(sources, now, |sources|);
  }

  /** Ties go to the earlier source: of two sources with the same `asOf`, the
      first one is selected. */
  lemma EqualAsOfKeepsFirst(a: EsgSource, b: EsgSource, now: string)
    requires ComparisonAsOf(a, now) == ComparisonAsOf(b, now)
    ensures LatestIndex([a, b], now, 2) == 0
  {
    LexLessIrreflexive(ComparisonAsOf(a, now));
  }

  /** The selection depends on the order of the sources: swapping two sources
      with the same `asOf` changes which one is picked. */
  lemma SelectionDependsOnOrder()
    ensures var a := EsgSource("x", Some("2024-01-01"), Factors(Some(10), None, None), "0-100");
            var b := EsgSource("y", Some("2024-01-01"), Factors(Some(90), None, None), "0-100");
            var p := [a, b];
            var q := [b, a];
            p[LatestIndex(p, "", 2)] != q[LatestIndex(q, "", 2)]
  {
    var d := "2024-01-01";
    LexLessIrreflexive(d);
  }

  // ---------------------------------------------------------------------------
  // Weights and the overall score
  // ---------------------------------------------------------------------------

  /** Weights of E, S and G. */
  datatype Weights = Weights(wE: real, wS: real, wG: real)

  const BaseWeights := Weights(0.4, 0.4, 0.2)

  /** How many of the three factors are not null. */
  function PresentCount(f: Factors): (k: nat)
    ensures k <= 3
    ensures k == 3 <==> f.e.Some? && f.s.Some? && f.g.Some?
    ensures k == 0 <==> f.e.None? && f.s.None? && f.g.None?
  {
    (if f.e.Some? then 1 else 0) + (if f.s.Some? then 1 else 0) + (if f.g.Some? then 1 else 0)
  }

  function WeightIfPresent(x: Option<int>, w: real): real {
    if x.Some? then w else 0.0
  }

  /** The weights: the base weights when all three factors are present, else
      an equal share `1/k` for each of the `k` present factors and 0 for the
      null ones. With `k = 0` JavaScript computes `1/0 = Infinity`, which no
      factor takes, so the share used here for that case is irrelevant. */
  function AssignWeights(f: Factors): (w: Weights)
    ensures PresentCount(f) == 3 ==> w == BaseWeights
    ensures f.e.None? ==> w.wE == 0.0
    ensures f.s.None? ==> w.wS == 0.0
    ensures f.g.None? ==> w.wG == 0.0
    ensures PresentCount(f) < 3 ==>
      && (f.e.Some? ==> w.wE * PresentCount(f) as real == 1.0)
      && (f.s.Some? ==> w.wS * PresentCount(f) as real == 1.0)
      && (f.g.Some? ==> w.wG * PresentCount(f) as real == 1.0)
    ensures PresentCount(f) >= 1 ==> w.wE + w.wS + w.wG == 1.0
    ensures PresentCount(f) == 0 ==> w == Weights(0.0, 0.0, 0.0)
  {
    var k := PresentCount(f);
    if k == 3 then BaseWeights
    else
      var share := if k == 0 then 0.0 else 1.0 / k as real;
      assert k == 1 ==> share == 1.0;
      assert k == 2 ==> share == 0.5;
      Weights(WeightIfPresent(f.e, share), WeightIfPresent(f.s, share), WeightIfPresent(f.g, share))
  }

  /** `x || 0` on a factor. */
  function OrZero(x: Option<int>): int {
    x.GetOr(0)
  }

  /** `(E || 0) * wE + (S || 0) * wS + (G || 0) * wG`. */
  function WeightedSum(f: Factors, w: Weights): real {
    OrZero(f.e) as real * w.wE + OrZero(f.s) as real * w.wS + OrZero(f.g) as real * w.wG
  }

  /** `Math.round`: the nearest integer, halves rounded up. */
  function RoundHalfUp(x: real): (n: int)
    ensures n as real - 0.5 <= x < n as real + 0.5
  {
    (x + 0.5).Floor
  }

  /** The overall score of a factor triple. */
  function OverallScore(f: Factors): int {
    RoundHalfUp(WeightedSum(f, AssignWeights(f)))
  }

  function MinOpt(a: Option<int>, b: Option<int>): Option<int> {
    if a.None? then b else if b.None? then a else Some(if a.value <= b.value then a.value else b.value)
  }

  function MaxOpt(a: Option<int>, b: Option<int>): Option<int> {
    if a.None? then b else if b.None? then a else Some(if a.value >= b.value then a.value else b.value)
  }

  /** The smallest and the largest present factor. */
  function MinPresent(f: Factors): Option<int> {
    MinOpt(MinOpt(f.e, f.s), f.g)
  }

  function MaxPresent(f: Factors): Option<int> {
    MaxOpt(MaxOpt(f.e, f.s), f.g)
  }

  /** The weighted sum of the present factors lies between the smallest and the
      largest of them. */
  lemma WeightedSumBetweenPresentFactors(f: Factors)
    requires PresentCount(f) >= 1
    ensures MinPresent(f).Some? && MaxPresent(f).Some?
    ensures MinPresent(f).value as real <= WeightedSum(f, AssignWeights(f)) <= MaxPresent(f).value as real
  {
    var w := AssignWeights(f);
    var lo := MinPresent(f).value as real;
    var hi := MaxPresent(f).value as real;
    var k := PresentCount(f);
    if k < 3 {
      var share := 1.0 / k as real;
      assert f.e.Some? ==> w.wE == share;
      assert f.s.Some? ==> w.wS == share;
      assert f.g.Some? ==> w.wG == share;
    }
  }

  /** The overall score lies between the smallest and the largest present factor. */
  lemma OverallBetweenPresentFactors(f: Factors)
    requires PresentCount(f) >= 1
    ensures MinPresent(f).Some? && MaxPresent(f).Some?
    ensures MinPresent(f).value <= OverallScore(f) <= MaxPresent(f).value
  {
    WeightedSumBetweenPresentFactors(f);
  }

  /** With factors in the schema's range the overall score is in 0..100; with no
      factor at all every weight is 0 and the score is 0. */
  lemma OverallInRange(f: Factors)
    requires FactorsInRange(f)
    ensures 0 <= OverallScore(f) <= 100
    ensures PresentCount(f) == 0 ==> AssignWeights(f) == Weights(0.0, 0.0, 0.0) && OverallScore(f) == 0
  {
    if PresentCount(f) >= 1 {
      OverallBetweenPresentFactors(f);
    }
  }

  /** With all three factors present the weighted sum `(4E + 4S + 2G) / 10` is a
      multiple of 0.2, so it is at least 0.1 away from every rounding tie
      `n + 0.5`. Floating-point error in the base weights therefore cannot
      change `Math.round`'s result. */
  lemma AllPresentSumStaysOffTies(f: Factors, n: int)
    requires PresentCount(f) == 3
    ensures var x := WeightedSum(f, AssignWeights(f));
      x <= n as real + 0.4 || x >= n as real + 0.6
  {
    var e, s, g := f.e.value, f.s.value, f.g.value;
    var m := 4 * e + 4 * s + 2 * g;
    var x := WeightedSum(f, AssignWeights(f));
    assert 10.0 * x == m as real;
    assert m == 2 * (2 * e + 2 * s + g);
    assert m != 10 * n + 5;
    assert m <= 10 * n + 4 || m >= 10 * n + 6;
  }

  // ---------------------------------------------------------------------------
  // Confidence
  // ---------------------------------------------------------------------------

  /** The `+0.05` freshness bonus applies: the latest `asOf` parsed as a date
      (`elapsedMs` is the time since it) and is at most 24 thirty-day months old. */
  predicate IsFresh(elapsedMs: Option<int>) {
    elapsedMs.Some? && elapsedMs.value <= FreshnessWindowMs
  }

  /** Confidence in hundredths: 80, plus 5 when fresh, plus 5 when no factor is
      null, capped at 95. The cap never binds: the result is 80, 85 or 90. */
  function Confidence(elapsedMs: Option<int>, f: Factors): (c: nat)
    ensures 80 <= c <= 95
    ensures c == 80 || c == 85 || c == 90
    ensures c == 90 <==> IsFresh(elapsedMs) && PresentCount(f) == 3
    ensures c == 80 <==> !IsFresh(elapsedMs) && PresentCount(f) < 3
  {
    var c := 80 + (if IsFresh(elapsedMs) then 5 else 0)
                + (if f.e.Some? && f.s.Some? && f.g.Some? then 5 else 0);
    MinInt(c, 95)
  }

  /** `Math.min`. */
  function MinInt(a: int, b: int): int {
    if a <= b then a else b
  }

  // ---------------------------------------------------------------------------
  // The score report and the handlers
  // ---------------------------------------------------------------------------

  /** The 200 response body. Confidence is in hundredths; `companyName` is only
      sent by the backend copy. */
  datatype ScoreReport = ScoreReport(
    companyId: string,
    companyName: Option<string>,
    overall: int,
    breakdown: Factors,
    version: string,
    weights: Weights,
    confidence: nat,
    asOf: Option<string>,
    lastUpdated: string)

  /** The ESG sources of the company with that id; none when it is unknown or
      has no `esgSources` field. */
  function SourcesOf(cs: seq<Company>, companyId: string): seq<EsgSource> {
    match FindById(cs, companyId)
    case None => []
    case Some(i) => cs[i].esgSources.GetOr([])
  }

  /** The company exists and has at least one ESG source. */
  predicate HasEsgData(cs: seq<Company>, companyId: string) {
    |SourcesOf(cs, companyId)| > 0
  }

  /** What a report computed from `sources` must say: the breakdown and `asOf`
      of the first latest source, the weights and confidence that follow from
      them, and an overall score rounded from exactly the reported weights. */
  ghost predicate ReportsLatest(
    rep: ScoreReport, companyId: string, sources: seq<EsgSource>,
    now: string, elapsedSince: string -> Option<int>)
  {
    && rep.companyId == companyId
    && rep.version == MethodologyVersion
    && rep.lastUpdated == now
    && (exists i :: IsFirstLatest(sources, now, i)
          && rep.breakdown == sources[i].raw
          && rep.asOf == sources[i].asOf)
    && rep.weights == AssignWeights(rep.breakdown)
    && rep.overall == RoundHalfUp(WeightedSum(rep.breakdown, rep.weights))
    && rep.confidence == Confidence(ElapsedFor(rep.asOf, elapsedSince), rep.breakdown)
  }

  /** The freshness input: the clock-and-date-parser oracle applied to a truthy
      `asOf`; an absent or empty `asOf` skips the freshness check. */
  function ElapsedFor(asOf: Option<string>, elapsedSince: string -> Option<int>): Option<int> {
    if asOf.Some? && asOf.value != "" then elapsedSince(asOf.value) else None
  }

  /** The report for a company whose ESG sources are `sources`. */
  function Report(
    companyId: string, companyName: Option<string>, sources: seq<EsgSource>,
    now: string, elapsedSince: string -> Option<int>): (rep: ScoreReport)
    requires |sources| >= 1
    ensures ReportsLatest(rep, companyId, sources, now, elapsedSince)
    ensures rep.companyName == companyName
    ensures rep.confidence == 80 || rep.confidence == 85 || rep.confidence == 90
    ensures SourcesInRange(sources) ==> 0 <= rep.overall <= 100
  {
    var i := LatestIndex(sources, now, |sources|);
    var latest := sources[i];
    var f := latest.raw;
    var w := AssignWeights(f);
    LatestIndexIsFirstLatest(sources, now, i);
    OverallInRangeWhenValid(f);
    ScoreReport(
      companyId, companyName, RoundHalfUp(WeightedSum(f, w)), f, MethodologyVersion, w,
      Confidence(ElapsedFor(latest.asOf, elapsedSince), f), latest.asOf, now)
  }

  /** `OverallInRange` as an implication, for use where the range is not known. */
  lemma OverallInRangeWhenValid(f: Factors)
    ensures FactorsInRange(f) ==> 0 <= OverallScore(f) <= 100
  {
    if FactorsInRange(f) {
      OverallInRange(f);
    }
  }

  /** `GET /v1/score/:companyId` in server/: 404 for an unknown company or one
      without ESG sources, otherwise the report (even when every factor of the
      latest source is null). A store failure goes through the catch block. */
  function ServerGetScore(
    store: Store, companyId: string, now: string, elapsedSince: string -> Option<int>)
    : (r: Result<ScoreReport, HttpError>)
    ensures store.fault.Some? ==> r == Failure(CaughtByServer(store.fault.value))
    ensures store.fault.None? ==> (r.Success? <==> HasEsgData(store.companies, companyId))
    ensures store.fault.None? && r.Failure? ==> r.error.status == 404 && r.error.code == "NOT_FOUND"
    ensures r.Success? ==>
      && ReportsLatest(r.value, companyId, SourcesOf(store.companies, companyId), now, elapsedSince)
      && r.value.companyName.None?
    ensures r.Success? && StoreInRange(store.companies) ==> 0 <= r.value.overall <= 100
  {
    match store.fault
    case Some(fault) => Failure(CaughtByServer(fault))
    case None => GetScoreFromStore(store.companies, companyId, false, now, elapsedSince)
  }

  /** `GET /v1/score/:companyId` in backend/: the same algorithm, the company's
      name in the report, and every thrown error answered with 500. */
  function BackendGetScore(
    store: Store, companyId: string, now: string, elapsedSince: string -> Option<int>)
    : (r: Result<ScoreReport, HttpError>)
    ensures store.fault.Some? ==> r == Failure(HttpError(500, "INTERNAL_ERROR", "Failed to get ESG score"))
    ensures store.fault.None? ==> (r.Success? <==> HasEsgData(store.companies, companyId))
    ensures r.Failure? ==> r.error.status in {404, 500}
    ensures r.Success? ==>
      && ReportsLatest(r.value, companyId, SourcesOf(store.companies, companyId), now, elapsedSince)
      && r.value.companyName == Some(store.companies[FindById(store.companies, companyId).value].name)
  {
    match store.fault
    case Some(_) => Failure(ErrorResponse(500, InternalError, "Failed to get ESG score"))
    case None => GetScoreFromStore(store.companies, companyId, true, now, elapsedSince)
  }

  /** The part of both handlers that runs once the store has answered. */
  function GetScoreFromStore(
    cs: seq<Company>, companyId: string, withName: bool, now: string,
    elapsedSince: string -> Option<int>): (r: Result<ScoreReport, HttpError>)
    ensures r.Success? <==> HasEsgData(cs, companyId)
    ensures r.Failure? ==> r.error.status == 404 && r.error.code == "NOT_FOUND"
    ensures r.Success? ==>
      && ReportsLatest(r.value, companyId, SourcesOf(cs, companyId), now, elapsedSince)
      && r.value.companyName == (if withName then Some(cs[FindById(cs, companyId).value].name) else None)
      && (StoreInRange(cs) ==> 0 <= r.value.overall <= 100)
  {
    match FindById(cs, companyId)
    case None => Failure(ErrorResponse(404, NotFound, "Company not found with ID: " + companyId))
    case Some(i) =>
      var c := cs[i];
      if c.esgSources.None? || |c.esgSources.value| == 0 then
        Failure(ErrorResponse(404, NotFound, "No ESG data found for company: " + companyId))
      else
        Success(Report(companyId, if withName then Some(c.name) else None, c.esgSources.value, now, elapsedSince))
  }

  /** The two handler copies agree whenever the store answers: same outcome, same
      errors, and reports that differ only in the backend's `companyName`. */
  lemma BackendMatchesServer(store: Store, companyId: string, now: string, elapsedSince: string -> Option<int>)
    requires store.fault.None?
    ensures var s := ServerGetScore(store, companyId, now, elapsedSince);
            var b := BackendGetScore(store, companyId, now, elapsedSince);
      && (s.Failure? <==> b.Failure?)
      && (s.Failure? ==> s == b)
      && (s.Success? ==> b.value == s.value.(companyName := b.value.companyName))
  {
  }

  /** A report whose latest source is all-null has overall 0, all-zero weights
      and no completeness bonus. */
  lemma AllNullReportScoresZero(
    companyId: string, companyName: Option<string>, sources: seq<EsgSource>,
    now: string, elapsedSince: string -> Option<int>)
    requires |sources| >= 1
    requires PresentCount(sources[LatestIndex(sources, now, |sources|)].raw) == 0
    ensures var rep := Report(companyId, companyName, sources, now, elapsedSince);
      rep.overall == 0 && rep.weights == Weights(0.0, 0.0, 0.0) && rep.confidence <= 85
  {
    var k := LatestIndex(sources, now, |sources|);
    OverallInRange(sources[k].raw);
  }

  /** A company whose latest ESG source has every factor null still scores:
      200 with overall 0 and all-zero weights, not 404, whatever its older
      sources hold. */
  lemma AllNullLatestStillScores(store: Store, companyId: string, now: string, elapsedSince: string -> Option<int>)
    requires store.fault.None? && HasEsgData(store.companies, companyId)
    requires var sources := SourcesOf(store.companies, companyId);
      PresentCount(sources[LatestIndex(sources, now, |sources|)].raw) == 0
    ensures var r := ServerGetScore(store, companyId, now, elapsedSince);
      && r.Success?
      && r.value.overall == 0
      && r.value.weights == Weights(0.0, 0.0, 0.0)
      && r.value.confidence <= 85
  {
    var sources := SourcesOf(store.companies, companyId);
    AllNullReportScoresZero(companyId, None, sources, now, elapsedSince);
    assert ServerGetScore(store, companyId, now, elapsedSince) == Success(Report(companyId, None, sources, now, elapsedSince));
  }
}
