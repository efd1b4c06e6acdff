/** The per-row step of the ESG ingestion script (backend/scripts/ingest-esg.js):
    validate the ticker, rescale the scores, build the company document, then
    merge it into the company that already holds the ticker or insert it; the
    loop over all rows with its statistics; and the `unionDedupe` helper. */
module Ingest {
  import opened Wrappers
  import opened Strings
  import opened Companies
  import Scoring

  /** One CSV row after the script's own field parsing: `ticker` and `name` as
      read ("" when absent), the scores as `num()` returns them, `asOf` as
      `iso()` returns it ("" for null), and the registrable domain of `weburl`
      ("" when the URL is absent or unparsable). */
  datatype Row = Row(
    ticker: string,
    name: string,
    e: Option<int>,
    s: Option<int>,
    g: Option<int>,
    asOf: string,
    domain: string)

  /** Why a row was skipped. */
  datatype SkipReason =
    | MissingTicker(ticker: string)
    | AllScoresNull(ticker: string)
    | ProcessingError(ticker: string, message: string)
  {
    /** The reason as the script logs it. */
    function Message(): string {
      match this
      case MissingTicker(t) => "Missing ticker: \"" + t + "\""
      case AllScoresNull(t) => "All ESG scores null for ticker: " + t
      case ProcessingError(t, m) => "Error processing ticker " + t + ": " + m
    }
  }

  /** The run statistics; only the first few skip reasons are kept. */
  datatype Stats = Stats(inserted: nat, updated: nat, skipped: nat, reasons: seq<SkipReason>) {
    function Total(): nat {
      inserted + updated + skipped
    }
  }

  const NoStats := Stats(0, 0, 0, [])
  const MaxReasons := 3
  const SourceLabel := "kaggle-public-company-esg"
  const ScaleLabel := "0-100"
  const UnknownCompany := "Unknown Company"
  /** Stands in for the message of Mongoose's validation error on `create`. */
  const ValidationFailed := "Company validation failed"

  /** Count a skipped row, keeping its reason while fewer than three are kept. */
  function Skip(st: Stats, reason: SkipReason): (r: Stats)
    ensures r.skipped == st.skipped + 1 && r.inserted == st.inserted && r.updated == st.updated
    ensures |st.reasons| <= MaxReasons ==> |r.reasons| <= MaxReasons
    ensures |r.reasons| >= |st.reasons| && r.reasons[..|st.reasons|] == st.reasons
    ensures |st.reasons| < MaxReasons ==> r.reasons == st.reasons + [reason]
    ensures |st.reasons| >= MaxReasons ==> r.reasons == st.reasons
  {
    var reasons := if |st.reasons| < MaxReasons then st.reasons + [reason] else st.reasons;
    st.(skipped := st.skipped + 1, reasons := reasons)
  }

  // ---------------------------------------------------------------------------
  // Rescaling to 0..100
  // ---------------------------------------------------------------------------

  /** `Math.max(E || 0, S || 0, G || 0)`. */
  function MaxOrZero(f: Factors): (m: int)
    ensures m >= 0
    ensures f.e.Some? ==> f.e.value <= m
    ensures f.s.Some? ==> f.s.value <= m
    ensures f.g.Some? ==> f.g.value <= m
  {
    var e := Scoring.OrZero(f.e);
    var s := Scoring.OrZero(f.s);
    var g := Scoring.OrZero(f.g);
    var es := if e >= s then e else s;
    var m := if es >= g then es else g;
    if m >= 0 then m else 0
  }

  /** The product `x * (100 / maxScore)` lies in 0..100 for 0 <= x <= maxScore
      and is exactly 100 for the maximum. */
  lemma ScaledBounds(x: int, maxScore: int)
    requires maxScore > 100
    ensures var y := x as real * (100.0 / maxScore as real);
      && (x <= maxScore ==> y <= 100.0)
      && (x >= 0 ==> y >= 0.0)
      && (x == maxScore ==> y == 100.0)
  {
    var m := maxScore as real;
    var y := x as real * (100.0 / m);
    assert y == 100.0 * (x as real / m);
    if x <= maxScore {
      assert x as real / m <= 1.0;
    }
  }

  /** `Math.round(x * (100 / maxScore))` for a present score: a score at most
      the maximum lands at most at 100, a non-negative one at least at 0, and
      the maximum itself exactly at 100. */
  function ScaleOne(x: Option<int>, maxScore: int): (r: Option<int>)
    requires maxScore > 100
    ensures r.Some? == x.Some?
    ensures x.Some? && x.value <= maxScore ==> r.value <= 100
    ensures x.Some? && x.value >= 0 ==> r.value >= 0
    ensures x == Some(maxScore) ==> r == Some(100)
    ensures x.Some? ==>
      var y := x.value as real * (100.0 / maxScore as real);
      r.value as real - 0.5 <= y < r.value as real + 0.5
  {
    if x.None? then None
    else
      var y := x.value as real * (100.0 / maxScore as real);
      ScaledBounds(x.value, maxScore);
      var n := Scoring.RoundHalfUp(y);
      assert y <= 100.0 ==> n <= 100;
      assert y >= 0.0 ==> n >= 0;
      assert y == 100.0 ==> n == 100;
      Some(n)
  }

  /** The script's rescaling: when some score exceeds 100 every present score is
      multiplied by `100 / max` and rounded; otherwise nothing changes. */
  function Rescale(f: Factors): (r: Factors)
    ensures r.e.Some? == f.e.Some? && r.s.Some? == f.s.Some? && r.g.Some? == f.g.Some?
    ensures MaxOrZero(f) <= 100 ==> r == f
    ensures r.e.Some? ==> r.e.value <= 100
    ensures r.s.Some? ==> r.s.value <= 100
    ensures r.g.Some? ==> r.g.value <= 100
    ensures MaxOrZero(f) > 100 && f.e == Some(MaxOrZero(f)) ==> r.e == Some(100)
    ensures MaxOrZero(f) > 100 && f.s == Some(MaxOrZero(f)) ==> r.s == Some(100)
    ensures MaxOrZero(f) > 100 && f.g == Some(MaxOrZero(f)) ==> r.g == Some(100)
    ensures MaxOrZero(f) > 100 ==>
      r.e == ScaleOne(f.e, MaxOrZero(f)) && r.s == ScaleOne(f.s, MaxOrZero(f)) && r.g == ScaleOne(f.g, MaxOrZero(f))
  {
    var m := MaxOrZero(f);
    if m > 100 then Factors(ScaleOne(f.e, m), ScaleOne(f.s, m), ScaleOne(f.g, m)) else f
  }

  predicate NonNegative(f: Factors) {
    (f.e.None? || f.e.value >= 0) && (f.s.None? || f.s.value >= 0) && (f.g.None? || f.g.value >= 0)
  }

  /** Rescaling brings non-negative scores into the schema's range 0..100. */
  lemma RescaleInRange(f: Factors)
    requires NonNegative(f)
    ensures FactorsInRange(Rescale(f))
  {
  }

  // ---------------------------------------------------------------------------
  // Building and merging the document
  // ---------------------------------------------------------------------------

  predicate AllNull(f: Factors) {
    f.e.None? && f.s.None? && f.g.None?
  }

  /** None of the sources has all three factors null. */
  predicate NoneAllNull(sources: seq<EsgSource>) {
    forall j :: 0 <= j < |sources| ==> !AllNull(sources[j].raw)
  }

  /** No stored ESG source has all three factors null. */
  predicate NoAllNullSources(cs: seq<Company>) {
    forall i :: 0 <= i < |cs| ==> NoneAllNull(cs[i].esgSources.GetOr([]))
  }

  /** `row.ticker.toUpperCase().trim()`. */
  function CanonicalTicker(ticker: string): string {
    Trim(ToUpper(ticker))
  }

  function Domains(row: Row): seq<string> {
    if row.domain != "" then [row.domain] else []
  }

  /** The document's one ESG source; a null date falls back to the clock. */
  function NewSource(f: Factors, asOf: string, now: string): EsgSource {
    EsgSource(SourceLabel, Some(Or(asOf, now)), f, ScaleLabel)
  }

  /** The document inserted for a ticker no company holds yet. */
  function NewCompany(id: string, row: Row, ticker: string, f: Factors, now: string): (c: Company)
    ensures c.name != "" && c.aliases == Some([c.name]) && c.tickers == Some([ticker])
    ensures c.esgSources.Some? && |c.esgSources.value| == 1 && c.esgSources.value[0].raw == f
    ensures c.country.None?
  {
    var name := Or(row.name, UnknownCompany);
    Company(id, name, Some([name]), Some([ticker]), None, Some(Domains(row)), Some([NewSource(f, row.asOf, now)]))
  }

  predicate NoDuplicates<T(==)>(xs: seq<T>) {
    forall i, j :: 0 <= i < j < |xs| ==> xs[i] != xs[j]
  }

  /** `$addToSet` with `$each`: append, in order, the values not yet present. */
  function AddToSet(xs: seq<string>, each: seq<string>): (r: seq<string>)
    ensures |r| >= |xs| && r[..|xs|] == xs
    ensures forall x :: x in r <==> x in xs || x in each
    ensures NoDuplicates(xs) ==> NoDuplicates(r)
    decreases |each|
  {
    if |each| == 0 then xs
    else AddToSet(if each[0] in xs then xs else xs + [each[0]], each[1..])
  }

  /** Adding values that are all present already changes nothing. */
  lemma {:induction false} AddToSetPresent(xs: seq<string>, each: seq<string>)
    requires forall x :: x in each ==> x in xs
    ensures AddToSet(xs, each) == xs
    decreases |each|
  {
    if |each| > 0 {
      AddToSetPresent(xs, each[1..]);
    }
  }

  /** The `reduce` over the existing sources: the greatest `asOf`, compared as
      strings, starting from "" (an absent `asOf` never wins a comparison). */
  function MaxAsOf(sources: seq<EsgSource>): (m: string)
    ensures forall j :: 0 <= j < |sources| && sources[j].asOf.Some? ==> !LexGreater(sources[j].asOf.value, m)
    ensures m == "" || exists j :: 0 <= j < |sources| && sources[j].asOf == Some(m)
    decreases |sources|
  {
    if |sources| == 0 then ""
    else
      var prev := MaxAsOf(sources[..|sources| - 1]);
      var a := sources[|sources| - 1].asOf;
      if a.Some? && LexGreater(a.value, prev) then
        MaxAsOfStep(sources[..|sources| - 1], prev, a.value);
        LexLessIrreflexive(a.value);
        a.value
      else prev
  }

  /** Helper: a value above the maximum so far is above every earlier one. */
  lemma MaxAsOfStep(sources: seq<EsgSource>, prev: string, a: string)
    requires forall j :: 0 <= j < |sources| && sources[j].asOf.Some? ==> !LexGreater(sources[j].asOf.value, prev)
    requires LexGreater(a, prev)
    ensures forall j :: 0 <= j < |sources| && sources[j].asOf.Some? ==> !LexGreater(sources[j].asOf.value, a)
  {
    forall j | 0 <= j < |sources| && sources[j].asOf.Some?
      ensures !LexGreater(sources[j].asOf.value, a)
    {
      if LexLess(a, sources[j].asOf.value) {
        LexLessTransitive(prev, a, sources[j].asOf.value);
      }
    }
  }

  /** Whether the row's source is pushed: its date is present and later than
      every date the company already has. */
  predicate PushesSource(c: Company, row: Row) {
    row.asOf != "" && LexGreater(row.asOf, MaxAsOf(c.esgSources.GetOr([])))
  }

  /** The update applied to an existing company: `$addToSet` of the name, the
      ticker and the domain, and `$push` of the new source when it is newer. */
  function Merge(c: Company, row: Row, ticker: string, f: Factors, now: string): (m: Company)
    ensures m.id == c.id && m.name == c.name && m.country == c.country
    ensures m.tickers.Some? && ticker in m.tickers.value
    ensures c.tickers.Some? ==> |m.tickers.value| >= |c.tickers.value| && m.tickers.value[..|c.tickers.value|] == c.tickers.value
    ensures PushesSource(c, row) ==>
      m.esgSources == Some(c.esgSources.GetOr([]) + [NewSource(f, row.asOf, now)])
    ensures !PushesSource(c, row) ==> m.esgSources == c.esgSources
    ensures PushesSource(c, row) ==> forall j :: 0 <= j < |c.esgSources.GetOr([])| && c.esgSources.GetOr([])[j].asOf.Some? ==>
      LexLess(c.esgSources.GetOr([])[j].asOf.value, row.asOf)
  {
    var existing := c.esgSources.GetOr([]);
    var name := Or(row.name, UnknownCompany);
    var sources := if PushesSource(c, row) then Some(existing + [NewSource(f, row.asOf, now)]) else c.esgSources;
    if PushesSource(c, row) then
      MaxAsOfStep(existing, MaxAsOf(existing), row.asOf);
      StrictlyAboveMax(existing, row.asOf);
      c.(aliases := Some(AddToSet(c.aliases.GetOr([]), [name])),
         tickers := Some(AddToSet(c.tickers.GetOr([]), [ticker])),
         domains := Some(AddToSet(c.domains.GetOr([]), Domains(row))),
         esgSources := sources)
    else
      c.(aliases := Some(AddToSet(c.aliases.GetOr([]), [name])),
         tickers := Some(AddToSet(c.tickers.GetOr([]), [ticker])),
         domains := Some(AddToSet(c.domains.GetOr([]), Domains(row))),
         esgSources := sources)
  }

  /** Helper: a date above the maximum is strictly above every stored date. */
  lemma StrictlyAboveMax(sources: seq<EsgSource>, a: string)
    requires LexGreater(a, MaxAsOf(sources))
    ensures forall j :: 0 <= j < |sources| && sources[j].asOf.Some? ==> LexLess(sources[j].asOf.value, a)
  {
    var m := MaxAsOf(sources);
    forall j | 0 <= j < |sources| && sources[j].asOf.Some?
      ensures LexLess(sources[j].asOf.value, a)
    {
      var x := sources[j].asOf.value;
      LexLessTotal(x, m);
      if x != m {
        LexLessTransitive(x, m, a);
      }
    }
  }

  // ---------------------------------------------------------------------------
  // One row, and all rows
  // ---------------------------------------------------------------------------

  /** The store and the statistics after one row. */
  datatype Step = Step(store: Store, stats: Stats)

  /** What the loop body does with a row: skip it for one of four reasons,
      update the company at index `k`, or insert a new company. */
  datatype Outcome =
    | SkipMissingTicker
    | SkipAllNull
    | SkipFault
    | SkipInvalid
    | Update(k: nat)
    | Insert
  {
    predicate Skipped() {
      SkipMissingTicker? || SkipAllNull? || SkipFault? || SkipInvalid?
    }
  }

  /** The row has a ticker that is not blank. */
  predicate HasTicker(row: Row) {
    !IsBlank(row.ticker)
  }

  /** At least one of the row's scores is present. */
  predicate HasScores(row: Row) {
    !AllNull(Factors(row.e, row.s, row.g))
  }

  /** The row passes validation and the store answers. */
  predicate Proceeds(store: Store, row: Row) {
    HasTicker(row) && HasScores(row) && store.fault.None?
  }

  /** The decision the loop body takes, in the order the script tests: the
      ticker, the all-null scores, the store (whose failure surfaces as a throw
      from the lookup), the lookup, and for an insert the schema's 0..100 range
      (`Company.create` validates; `findOneAndUpdate` does not). */
  function Classify(store: Store, row: Row): (o: Outcome)
    ensures o == SkipMissingTicker <==> !HasTicker(row)
    ensures o == SkipAllNull <==> HasTicker(row) && !HasScores(row)
    ensures o == SkipFault <==> HasTicker(row) && HasScores(row) && store.fault.Some?
    ensures o.Update? <==> Proceeds(store, row) && FindByTicker(store.companies, CanonicalTicker(row.ticker)).Some?
    ensures o.Update? ==> o.k == FindByTicker(store.companies, CanonicalTicker(row.ticker)).value
    ensures o == Insert <==>
      Proceeds(store, row) && FindByTicker(store.companies, CanonicalTicker(row.ticker)).None?
      && FactorsInRange(Rescale(Factors(row.e, row.s, row.g)))
    ensures o == SkipInvalid <==>
      Proceeds(store, row) && FindByTicker(store.companies, CanonicalTicker(row.ticker)).None?
      && !FactorsInRange(Rescale(Factors(row.e, row.s, row.g)))
  {
    if row.ticker == "" || IsBlank(row.ticker) then SkipMissingTicker
    else if AllNull(Rescale(Factors(row.e, row.s, row.g))) then SkipAllNull
    else if store.fault.Some? then SkipFault
    else
      match FindByTicker(store.companies, CanonicalTicker(row.ticker))
      case Some(k) => Update(k)
      case None => if FactorsInRange(Rescale(Factors(row.e, row.s, row.g))) then Insert else SkipInvalid
  }

  /** The body of the script's `for (const row of records)` loop. `newId` is the
      id the database gives an inserted company. Every row is counted once; a
      skipped row leaves the store alone; an update rewrites the one company
      found and keeps the others; an insert appends one company. */
  function IngestRow(store: Store, st: Stats, row: Row, newId: string, now: string): (r: Step)
    ensures r.stats.Total() == st.Total() + 1
    ensures |st.reasons| <= MaxReasons ==> |r.stats.reasons| <= MaxReasons
    ensures r.store.fault == store.fault
    ensures r.stats.inserted >= st.inserted
    ensures |r.store.companies| == |store.companies| + (r.stats.inserted - st.inserted)
  {
    Apply(store, st, row, Classify(store, row), CanonicalTicker(row.ticker), Rescale(Factors(row.e, row.s, row.g)), newId, now)
  }

  /** The loop body once the outcome `o` is decided, for the row's canonical
      ticker and rescaled factors `f`. */
  function Apply(store: Store, st: Stats, row: Row, o: Outcome, ticker: string, f: Factors, newId: string, now: string): (r: Step)
    requires o.Update? ==> o.k < |store.companies|
    ensures r.stats.Total() == st.Total() + 1
    ensures |st.reasons| <= MaxReasons ==> |r.stats.reasons| <= MaxReasons
    ensures r.store.fault == store.fault
    ensures r.stats.inserted >= st.inserted
    ensures |r.store.companies| == |store.companies| + (r.stats.inserted - st.inserted)
    ensures o.Skipped() ==> r.store == store && r.stats.skipped == st.skipped + 1
  {
    var cs := store.companies;
    if o.Update? then
      Step(store.(companies := cs[o.k := Merge(cs[o.k], row, ticker, f, now)]), st.(updated := st.updated + 1))
    else if o.Insert? then
      Step(store.(companies := cs + [NewCompany(newId, row, ticker, f, now)]), st.(inserted := st.inserted + 1))
    else
      Step(store, Skip(st, SkipReasonFor(o, store, row)))
  }

  /** What one row does to the store: a skipped row leaves it alone; an
      update rewrites the one company found, with the merge, and keeps the
      others; an insert appends the new company. */
  lemma IngestRowEffect(store: Store, st: Stats, row: Row, newId: string, now: string)
    ensures Classify(store, row).Skipped() ==>
      IngestRow(store, st, row, newId, now).store == store
    ensures Classify(store, row).Insert? ==>
      var cs := IngestRow(store, st, row, newId, now).store.companies;
      && |cs| == |store.companies| + 1
      && (forall i :: 0 <= i < |store.companies| ==> cs[i] == store.companies[i])
      && cs[|store.companies|]
         == NewCompany(newId, row, CanonicalTicker(row.ticker), Rescale(Factors(row.e, row.s, row.g)), now)
    ensures Classify(store, row).Update? ==>
      var k := Classify(store, row).k;
      var cs := IngestRow(store, st, row, newId, now).store.companies;
      && |cs| == |store.companies|
      && (forall i :: 0 <= i < |store.companies| && i != k ==> cs[i] == store.companies[i])
      && cs[k] == Merge(store.companies[k], row, CanonicalTicker(row.ticker), Rescale(Factors(row.e, row.s, row.g)), now)
  {
    ApplyEffect(store, st, row, Classify(store, row), CanonicalTicker(row.ticker), Rescale(Factors(row.e, row.s, row.g)), newId, now);
  }

  /** Helper: the effect of the loop body once the outcome is decided. */
  lemma ApplyEffect(store: Store, st: Stats, row: Row, o: Outcome, ticker: string, f: Factors, newId: string, now: string)
    requires o.Update? ==> o.k < |store.companies|
    ensures o.Skipped() ==> Apply(store, st, row, o, ticker, f, newId, now).store == store
    ensures o.Insert? ==>
      var cs := Apply(store, st, row, o, ticker, f, newId, now).store.companies;
      && |cs| == |store.companies| + 1
      && (forall i :: 0 <= i < |store.companies| ==> cs[i] == store.companies[i])
      && cs[|store.companies|] == NewCompany(newId, row, ticker, f, now)
    ensures o.Update? ==>
      var cs := Apply(store, st, row, o, ticker, f, newId, now).store.companies;
      && |cs| == |store.companies|
      && (forall i :: 0 <= i < |store.companies| && i != o.k ==> cs[i] == store.companies[i])
      && cs[o.k] == Merge(store.companies[o.k], row, ticker, f, now)
  {
    ApplyStore(store, st, row, o, ticker, f, newId, now);
  }

  /** The reason logged for a skipped row; a store failure and a rejected
      insert both reach the `catch` block with the thrown error's message. */
  function SkipReasonFor(o: Outcome, store: Store, row: Row): SkipReason {
    match o
    case SkipMissingTicker => MissingTicker(row.ticker)
    case SkipAllNull => AllScoresNull(row.ticker)
    case SkipFault => ProcessingError(row.ticker, if store.fault.Some? then store.fault.value.message else "")
    case _ => ProcessingError(row.ticker, ValidationFailed)
  }

  /** A merge adds at most the row's own source to the company's sources. */
  lemma MergeSources(c: Company, row: Row, ticker: string, f: Factors, now: string)
    ensures var before := c.esgSources.GetOr([]);
            var after := Merge(c, row, ticker, f, now).esgSources.GetOr([]);
      after == before || after == before + [NewSource(f, row.asOf, now)]
  {
  }

  /** A merge removes and changes nothing: the old aliases, tickers, domains and
      sources all stay, in order, at the front of the new ones, and the row's
      name, ticker and domains are among the new values. */
  lemma MergeKeepsExisting(c: Company, row: Row, ticker: string, f: Factors, now: string)
    ensures var m := Merge(c, row, ticker, f, now);
      && m.aliases.Some? && m.tickers.Some? && m.domains.Some?
      && PrefixOf(c.aliases.GetOr([]), m.aliases.value)
      && PrefixOf(c.tickers.GetOr([]), m.tickers.value)
      && PrefixOf(c.domains.GetOr([]), m.domains.value)
      && PrefixOf(c.esgSources.GetOr([]), m.esgSources.GetOr([]))
      && Or(row.name, UnknownCompany) in m.aliases.value
      && ticker in m.tickers.value
      && (forall d :: d in Domains(row) ==> d in m.domains.value)
  {
    var before := c.esgSources.GetOr([]);
    MergeSources(c, row, ticker, f, now);
    assert (before + [NewSource(f, row.asOf, now)])[..|before|] == before;
  }

  /** `xs` is the beginning of `ys`. */
  predicate PrefixOf<T(==)>(xs: seq<T>, ys: seq<T>) {
    |xs| <= |ys| && ys[..|xs|] == xs
  }

  /** Helper: the store an update or an insert produces. */
  lemma ApplyStore(store: Store, st: Stats, row: Row, o: Outcome, ticker: string, f: Factors, newId: string, now: string)
    requires o.Update? ==> o.k < |store.companies|
    ensures var cs := store.companies;
            var r := Apply(store, st, row, o, ticker, f, newId, now);
      && (o.Update? ==> r.store.companies == cs[o.k := Merge(cs[o.k], row, ticker, f, now)])
      && (o.Insert? ==> r.store.companies == cs + [NewCompany(newId, row, ticker, f, now)])
  {
  }

  lemma MergeKeepsNoAllNull(c: Company, row: Row, ticker: string, f: Factors, now: string)
    requires NoneAllNull(c.esgSources.GetOr([])) && !AllNull(f)
    ensures NoneAllNull(Merge(c, row, ticker, f, now).esgSources.GetOr([]))
  {
    MergeSources(c, row, ticker, f, now);
  }

  lemma MergeKeepsRange(c: Company, row: Row, ticker: string, f: Factors, now: string)
    requires SourcesInRange(c.esgSources.GetOr([])) && FactorsInRange(f)
    ensures SourcesInRange(Merge(c, row, ticker, f, now).esgSources.GetOr([]))
  {
    MergeSources(c, row, ticker, f, now);
  }

  /** No row ever stores a source whose three factors are all null. */
  lemma IngestRowKeepsNoAllNull(store: Store, st: Stats, row: Row, newId: string, now: string)
    requires NoAllNullSources(store.companies)
    ensures NoAllNullSources(IngestRow(store, st, row, newId, now).store.companies)
  {
    var o := Classify(store, row);
    ApplyKeepsNoAllNull(store, st, row, o, CanonicalTicker(row.ticker), Rescale(Factors(row.e, row.s, row.g)), newId, now);
  }

  lemma ApplyKeepsNoAllNull(store: Store, st: Stats, row: Row, o: Outcome, ticker: string, f: Factors, newId: string, now: string)
    requires o.Update? ==> o.k < |store.companies|
    requires o.Update? || o.Insert? ==> !AllNull(f)
    requires NoAllNullSources(store.companies)
    ensures NoAllNullSources(Apply(store, st, row, o, ticker, f, newId, now).store.companies)
  {
    var cs := store.companies;
    ApplyStore(store, st, row, o, ticker, f, newId, now);
    if o.Update? {
      UpdateKeepsNoAllNull(cs, o.k, row, ticker, f, now);
    } else if o.Insert? {
      NoAllNullAppend(cs, NewCompany(newId, row, ticker, f, now));
    }
  }

  /** Helper: merging a row with some scores into one company keeps the store
      free of all-null sources. */
  lemma UpdateKeepsNoAllNull(cs: seq<Company>, k: nat, row: Row, ticker: string, f: Factors, now: string)
    requires k < |cs| && NoAllNullSources(cs) && !AllNull(f)
    ensures NoAllNullSources(cs[k := Merge(cs[k], row, ticker, f, now)])
  {
    assert NoneAllNull(cs[k].esgSources.GetOr([]));
    MergeKeepsNoAllNull(cs[k], row, ticker, f, now);
    NoAllNullUpdate(cs, k, Merge(cs[k], row, ticker, f, now));
  }

  /** Helper: merging a row whose factors are in range into one company keeps
      the store in range. */
  lemma UpdateKeepsRange(cs: seq<Company>, k: nat, row: Row, ticker: string, f: Factors, now: string)
    requires k < |cs| && StoreInRange(cs) && FactorsInRange(f)
    ensures StoreInRange(cs[k := Merge(cs[k], row, ticker, f, now)])
  {
    assert SourcesInRange(cs[k].esgSources.GetOr([]));
    MergeKeepsRange(cs[k], row, ticker, f, now);
    InRangeUpdate(cs, k, Merge(cs[k], row, ticker, f, now));
  }

  /** Helper: replacing one company by one without all-null sources keeps the store so. */
  lemma NoAllNullUpdate(cs: seq<Company>, k: nat, c: Company)
    requires k < |cs| && NoAllNullSources(cs) && NoneAllNull(c.esgSources.GetOr([]))
    ensures NoAllNullSources(cs[k := c])
  {
    assert forall i :: 0 <= i < |cs| && i != k ==> cs[k := c][i] == cs[i];
  }

  /** Helper: appending a company without all-null sources keeps the store so. */
  lemma NoAllNullAppend(cs: seq<Company>, c: Company)
    requires NoAllNullSources(cs) && NoneAllNull(c.esgSources.GetOr([]))
    ensures NoAllNullSources(cs + [c])
  {
    assert forall i :: 0 <= i < |cs| ==> (cs + [c])[i] == cs[i];
  }

  /** Helper: replacing one company by one whose sources are in range keeps the store in range. */
  lemma InRangeUpdate(cs: seq<Company>, k: nat, c: Company)
    requires k < |cs| && StoreInRange(cs) && SourcesInRange(c.esgSources.GetOr([]))
    ensures StoreInRange(cs[k := c])
  {
    assert forall i :: 0 <= i < |cs| && i != k ==> cs[k := c][i] == cs[i];
  }

  /** Helper: appending a company whose sources are in range keeps the store in range. */
  lemma InRangeAppend(cs: seq<Company>, c: Company)
    requires StoreInRange(cs) && SourcesInRange(c.esgSources.GetOr([]))
    ensures StoreInRange(cs + [c])
  {
    assert forall i :: 0 <= i < |cs| ==> (cs + [c])[i] == cs[i];
  }

  /** Every stored factor stays within 0..100 when the row's scores are
      non-negative. Inserts are validated by the schema; updates are not, so a
      negative score would reach the store through an update. */
  lemma IngestRowKeepsRange(store: Store, st: Stats, row: Row, newId: string, now: string)
    requires StoreInRange(store.companies)
    requires NonNegative(Factors(row.e, row.s, row.g))
    ensures StoreInRange(IngestRow(store, st, row, newId, now).store.companies)
  {
    var o := Classify(store, row);
    RescaleInRange(Factors(row.e, row.s, row.g));
    ApplyKeepsRange(store, st, row, o, CanonicalTicker(row.ticker), Rescale(Factors(row.e, row.s, row.g)), newId, now);
  }

  lemma ApplyKeepsRange(store: Store, st: Stats, row: Row, o: Outcome, ticker: string, f: Factors, newId: string, now: string)
    requires o.Update? ==> o.k < |store.companies|
    requires o.Update? || o.Insert? ==> FactorsInRange(f)
    requires StoreInRange(store.companies)
    ensures StoreInRange(Apply(store, st, row, o, ticker, f, newId, now).store.companies)
  {
    var cs := store.companies;
    ApplyStore(store, st, row, o, ticker, f, newId, now);
    if o.Update? {
      UpdateKeepsRange(cs, o.k, row, ticker, f, now);
    } else if o.Insert? {
      InRangeAppend(cs, NewCompany(newId, row, ticker, f, now));
    }
  }

  /** Merging the same row a second time changes nothing: every value is in its
      set already, and the pushed date is no longer newer than itself. */
  lemma MergeIdempotent(c: Company, row: Row, ticker: string, f: Factors, now: string)
    ensures Merge(Merge(c, row, ticker, f, now), row, ticker, f, now) == Merge(c, row, ticker, f, now)
  {
    var m := Merge(c, row, ticker, f, now);
    var name := Or(row.name, UnknownCompany);
    AddToSetPresent(m.aliases.value, [name]);
    AddToSetPresent(m.tickers.value, [ticker]);
    AddToSetPresent(m.domains.value, Domains(row));
    NotPushedAgain(c, row, ticker, f, now);
  }

  /** Helper: after a merge, the row's source is no longer newer. */
  lemma NotPushedAgain(c: Company, row: Row, ticker: string, f: Factors, now: string)
    ensures !PushesSource(Merge(c, row, ticker, f, now), row)
  {
    var existing := c.esgSources.GetOr([]);
    if PushesSource(c, row) {
      var pushed := existing + [NewSource(f, row.asOf, now)];
      assert pushed[..|pushed| - 1] == existing;
      assert MaxAsOf(pushed) == row.asOf;
      LexLessIrreflexive(row.asOf);
    }
  }

  /** A freshly inserted company is its own merge with the same row. */
  lemma MergeOfNewCompany(id: string, row: Row, ticker: string, f: Factors, now: string)
    ensures Merge(NewCompany(id, row, ticker, f, now), row, ticker, f, now) == NewCompany(id, row, ticker, f, now)
  {
    var c := NewCompany(id, row, ticker, f, now);
    AddToSetPresent(c.aliases.value, [c.name]);
    AddToSetPresent(c.tickers.value, [ticker]);
    AddToSetPresent(c.domains.value, Domains(row));
    if row.asOf != "" {
      var sources := c.esgSources.value;
      assert sources[..0] == [];
      assert LexLess("", row.asOf);
      assert MaxAsOf(sources) == row.asOf;
      LexLessIrreflexive(row.asOf);
    }
  }

  /** Helper: a company whose tickers include `ticker` holds it up to case. */
  lemma HoldsTicker(c: Company, ticker: string)
    requires c.tickers.Some? && ticker in c.tickers.value
    ensures HasTickerIgnoreCase(c, ticker)
  {
    var w :| 0 <= w < |c.tickers.value| && c.tickers.value[w] == ticker;
  }

  /** Helper: after an update or an insert, the ticker finds the company written,
      and merging the same row into it again changes nothing. */
  lemma ApplyFinds(store: Store, st: Stats, row: Row, o: Outcome, ticker: string, f: Factors, id1: string, now: string)
    returns (k: nat)
    requires o.Update? || o.Insert?
    requires o.Update? ==> FindByTicker(store.companies, ticker) == Some(o.k)
    requires o.Insert? ==> FindByTicker(store.companies, ticker).None?
    ensures var cs1 := Apply(store, st, row, o, ticker, f, id1, now).store.companies;
      && k < |cs1|
      && FindByTicker(cs1, ticker) == Some(k)
      && Merge(cs1[k], row, ticker, f, now) == cs1[k]
  {
    var cs := store.companies;
    k := if o.Update? then o.k else |cs|;
    var c := if o.Update? then Merge(cs[k], row, ticker, f, now) else NewCompany(id1, row, ticker, f, now);
    ApplyEffect(store, st, row, o, ticker, f, id1, now);
    var cs1 := Apply(store, st, row, o, ticker, f, id1, now).store.companies;
    assert k < |cs1| && cs1[k] == c;
    assert forall i :: 0 <= i < k ==> cs1[i] == cs[i];
    HoldsTicker(c, ticker);
    FindByTickerFirst(cs1, ticker, k);
    if o.Update? {
      MergeIdempotent(cs[k], row, ticker, f, now);
    } else {
      MergeOfNewCompany(id1, row, ticker, f, now);
    }
  }

  /** Helper: after a row that updates or inserts, the row's ticker finds the
      company it wrote, and merging the row into it again changes nothing. */
  lemma FirstPassFindsRow(store: Store, st: Stats, row: Row, id1: string, now: string) returns (k: nat)
    requires Classify(store, row).Update? || Classify(store, row).Insert?
    ensures var cs1 := IngestRow(store, st, row, id1, now).store.companies;
      && k < |cs1|
      && Classify(IngestRow(store, st, row, id1, now).store, row) == Update(k)
      && Merge(cs1[k], row, CanonicalTicker(row.ticker), Rescale(Factors(row.e, row.s, row.g)), now) == cs1[k]
  {
    var o := Classify(store, row);
    var ticker := CanonicalTicker(row.ticker);
    var f := Rescale(Factors(row.e, row.s, row.g));
    k := ApplyFinds(store, st, row, o, ticker, f, id1, now);
  }

  /** Ingesting the same row twice leaves the store as the first pass left it;
      the second pass counts as an update when the first was not skipped. */
  lemma IngestRowTwice(store: Store, st: Stats, row: Row, id1: string, id2: string, now: string)
    ensures var first := IngestRow(store, st, row, id1, now);
            var second := IngestRow(first.store, first.stats, row, id2, now);
      && second.store == first.store
      && (first.stats.skipped == st.skipped ==> second.stats.updated == first.stats.updated + 1)
  {
    var o := Classify(store, row);
    if o.Update? || o.Insert? {
      var first := IngestRow(store, st, row, id1, now);
      var k := FirstPassFindsRow(store, st, row, id1, now);
      FixedPointUpdate(first.store, first.stats, row, k, CanonicalTicker(row.ticker), Rescale(Factors(row.e, row.s, row.g)), id2, now);
    }
  }

  /** Helper: updating a company with a merge that changes nothing leaves the
      store as it is. */
  lemma FixedPointUpdate(store: Store, st: Stats, row: Row, k: nat, ticker: string, f: Factors, newId: string, now: string)
    requires k < |store.companies|
    requires Merge(store.companies[k], row, ticker, f, now) == store.companies[k]
    ensures Apply(store, st, row, Update(k), ticker, f, newId, now).store == store
  {
    ApplyStore(store, st, row, Update(k), ticker, f, newId, now);
    assert store.companies[k := store.companies[k]] == store.companies;
  }

  /** The script's loop over all rows, as a fold. */
  function IngestRows(store: Store, st: Stats, rows: seq<Row>, newIds: seq<string>, now: string): Step
    requires |newIds| == |rows|
    decreases |rows|
  {
    if |rows| == 0 then Step(store, st)
    else
      var next := IngestRow(store, st, rows[0], newIds[0], now);
      IngestRows(next.store, next.stats, rows[1..], newIds[1..], now)
  }

  /** What the fold over all rows guarantees: each row is counted once, at most
      three reasons are kept, each insert appends one company, and no all-null
      source is ever written. */
  lemma {:induction false} IngestRowsCounts(store: Store, st: Stats, rows: seq<Row>, newIds: seq<string>, now: string)
    requires |newIds| == |rows|
    ensures var r := IngestRows(store, st, rows, newIds, now);
      && r.stats.inserted + r.stats.updated + r.stats.skipped == st.inserted + st.updated + st.skipped + |rows|
      && (|st.reasons| <= MaxReasons ==> |r.stats.reasons| <= MaxReasons)
      && r.stats.inserted >= st.inserted
      && |r.store.companies| == |store.companies| + (r.stats.inserted - st.inserted)
      && (NoAllNullSources(store.companies) ==> NoAllNullSources(r.store.companies))
    decreases |rows|
  {
    if |rows| > 0 {
      var next := IngestRow(store, st, rows[0], newIds[0], now);
      if NoAllNullSources(store.companies) {
        IngestRowKeepsNoAllNull(store, st, rows[0], newIds[0], now);
      }
      IngestRowsCounts(next.store, next.stats, rows[1..], newIds[1..], now);
    }
  }

  /** The ingestion run: the loop over the rows computes the fold, so every row
      is counted exactly once as inserted, updated or skipped, at most three
      reasons are kept, every insert appends one company, and no all-null
      source is ever written. */
  method IngestAll(store: Store, rows: seq<Row>, newIds: seq<string>, now: string) returns (result: Store, stats: Stats)
    requires |newIds| == |rows|
    ensures Step(result, stats) == IngestRows(store, NoStats, rows, newIds, now)
    ensures stats.inserted + stats.updated + stats.skipped == |rows|
    ensures |stats.reasons| <= MaxReasons
    ensures |result.companies| == |store.companies| + stats.inserted
    ensures NoAllNullSources(store.companies) ==> NoAllNullSources(result.companies)
  {
    IngestRowsCounts(store, NoStats, rows, newIds, now);
    result, stats := store, NoStats;
    var i: int := 0;
    while i < |rows|
      invariant 0 <= i <= |rows|
      invariant IngestRows(result, stats, rows[i..], newIds[i..], now) == IngestRows(store, NoStats, rows, newIds, now)
    {
      var next := IngestRow(result, stats, rows[i], newIds[i], now);
      assert rows[i..][1..] == rows[i + 1..] && newIds[i..][1..] == newIds[i + 1..];
      result, stats := next.store, next.stats;
      i := i + 1;
    }
  }

  // ---------------------------------------------------------------------------
  // unionDedupe
  // ---------------------------------------------------------------------------

  /** An argument of `unionDedupe`: `None` is a value that is not an array; an
      item `None` is an element that is not a string. */
  type Arg = Option<seq<Option<string>>>

  /** Item `item` contributes `x`: it is a non-empty string whose trim is `x`. */
  predicate Contributes(item: Option<string>, x: string) {
    item.Some? && item.value != "" && Trim(item.value) == x
  }

  /** What an item contributes: its trim, when it is a non-empty string. */
  function KeptItem(item: Option<string>): seq<string> {
    if item.Some? && item.value != "" then [Trim(item.value)] else []
  }

  function KeptItems(items: seq<Option<string>>): seq<string>
    decreases |items|
  {
    if |items| == 0 then [] else KeptItems(items[..|items| - 1]) + KeptItem(items[|items| - 1])
  }

  function KeptArg(arg: Arg): seq<string> {
    if arg.Some? then KeptItems(arg.value) else []
  }

  /** The trimmed string items of all array arguments, in order, repeats included. */
  function Kept(args: seq<Arg>): seq<string>
    decreases |args|
  {
    if |args| == 0 then [] else Kept(args[..|args| - 1]) + KeptArg(args[|args| - 1])
  }

  /** `Array.from(new Set(xs))`: the first occurrence of each value, in order. */
  function Distinct(xs: seq<string>): seq<string>
    decreases |xs|
  {
    if |xs| == 0 then []
    else
      var d := Distinct(xs[..|xs| - 1]);
      if xs[|xs| - 1] in d then d else d + [xs[|xs| - 1]]
  }

  lemma {:induction false} DistinctMembers(xs: seq<string>)
    ensures forall x :: x in Distinct(xs) <==> x in xs
    ensures NoDuplicates(Distinct(xs))
    decreases |xs|
  {
    if |xs| > 0 {
      var init := xs[..|xs| - 1];
      DistinctMembers(init);
      assert xs == init + [xs[|xs| - 1]];
    }
  }

  /** Some item of the array contributes `x`. */
  predicate SomeContributes(items: seq<Option<string>>, x: string) {
    exists j :: 0 <= j < |items| && Contributes(items[j], x)
  }

  /** An item is kept exactly when some item of the array is a non-empty string
      whose trim it is. */
  lemma {:induction false} KeptItemsMembers(items: seq<Option<string>>, x: string)
    ensures x in KeptItems(items) <==> SomeContributes(items, x)
    decreases |items|
  {
    if |items| > 0 {
      KeptItemsMembers(items[..|items| - 1], x);
      SomeContributesStep(items, x);
      assert x in KeptItem(items[|items| - 1]) <==> Contributes(items[|items| - 1], x);
    } else {
      assert !SomeContributes(items, x);
    }
  }

  /** Some element of `s` satisfies `p`. */
  predicate ExistsIn<T>(s: seq<T>, p: T -> bool) {
    exists j :: 0 <= j < |s| && p(s[j])
  }

  /** Some element of `s` satisfies `p` exactly when one before the last does or
      the last one does. */
  lemma ExistsSnoc<T>(s: seq<T>, p: T -> bool)
    requires |s| > 0
    ensures ExistsIn(s, p) <==> ExistsIn(s[..|s| - 1], p) || p(s[|s| - 1])
  {
    var init := s[..|s| - 1];
    if ExistsIn(init, p) {
      var j :| 0 <= j < |init| && p(init[j]);
      assert s[j] == init[j];
    }
    if ExistsIn(s, p) {
      var j :| 0 <= j < |s| && p(s[j]);
      if j < |init| {
        assert init[j] == s[j];
      }
    }
  }

  /** Helper: some item contributes `x` exactly when an item before the last
      one does or the last one does. */
  lemma SomeContributesStep(items: seq<Option<string>>, x: string)
    requires |items| > 0
    ensures SomeContributes(items, x) <==>
      SomeContributes(items[..|items| - 1], x) || Contributes(items[|items| - 1], x)
  {
    var p := (item: Option<string>) => Contributes(item, x);
    ExistsSnoc(items, p);
    assert SomeContributes(items, x) <==> ExistsIn(items, p);
    assert SomeContributes(items[..|items| - 1], x) <==> ExistsIn(items[..|items| - 1], p);
  }

  /** Appending one value to a list extends its distinct values by that value
      exactly when it is new. */
  lemma DistinctSnoc(xs: seq<string>, t: string)
    ensures Distinct(xs + [t]) == if t in Distinct(xs) then Distinct(xs) else Distinct(xs) + [t]
  {
    assert (xs + [t])[..|xs|] == xs;
  }

  /** Helper: the kept items of one more item of an array. */
  lemma KeptItemsPrefix(before: seq<string>, items: seq<Option<string>>, j: nat)
    requires j < |items|
    ensures before + KeptItems(items[..j + 1]) == before + KeptItems(items[..j]) + KeptItem(items[j])
  {
    assert items[..j + 1][..j] == items[..j];
  }

  /** Helper: the kept items of one more argument. */
  lemma KeptPrefix(args: seq<Arg>, i: nat)
    requires i < |args|
    ensures Kept(args[..i + 1]) == Kept(args[..i]) + KeptArg(args[i])
  {
    assert args[..i + 1][..i] == args[..i];
  }

  /** Helper: one item's step of the inner loop keeps `r` the distinct values
      seen so far. */
  lemma UnionItemStep(prefix: seq<string>, item: Option<string>, r: seq<string>, seen: set<string>)
    requires r == Distinct(prefix)
    requires forall x :: x in seen <==> x in r
    ensures item.Some? && item.value != "" && Trim(item.value) in seen ==>
      r == Distinct(prefix + KeptItem(item))
    ensures item.Some? && item.value != "" && Trim(item.value) !in seen ==>
      r + [Trim(item.value)] == Distinct(prefix + KeptItem(item))
    ensures !(item.Some? && item.value != "") ==> r == Distinct(prefix + KeptItem(item))
  {
    if item.Some? && item.value != "" {
      DistinctSnoc(prefix, Trim(item.value));
    } else {
      assert prefix + KeptItem(item) == prefix;
    }
  }

  /** The inner loop of `unionDedupe`: adds the kept items of one array to the
      values seen so far. */
  method UnionItems(ghost before: seq<string>, r0: seq<string>, seen0: set<string>, items: seq<Option<string>>)
    returns (r: seq<string>, seen: set<string>)
    requires r0 == Distinct(before)
    requires forall x :: x in seen0 <==> x in r0
    ensures r == Distinct(before + KeptItems(items))
    ensures forall x :: x in seen <==> x in r
  {
    r, seen := r0, seen0;
    var j := 0;
    assert before + KeptItems(items[..0]) == before;
    while j < |items|
      invariant 0 <= j <= |items|
      invariant r == Distinct(before + KeptItems(items[..j]))
      invariant forall x :: x in seen <==> x in r
    {
      KeptItemsPrefix(before, items, j);
      UnionItemStep(before + KeptItems(items[..j]), items[j], r, seen);
      if items[j].Some? && items[j].value != "" {
        var t := Trim(items[j].value);
        if t !in seen {
          r := r + [t];
          seen := seen + {t};
        }
      }
      j := j + 1;
    }
    assert items[..|items|] == items;
  }

  /** `unionDedupe(...arrays)`: every non-empty string item of every array
      argument, trimmed, without repeats, in order of first appearance. */
  method UnionDedupe(args: seq<Arg>) returns (r: seq<string>)
    ensures r == Distinct(Kept(args))
    ensures forall x :: x in r <==> x in Kept(args)
    ensures NoDuplicates(r)
  {
    var seen: set<string> := {};
    r := [];
    var i := 0;
    while i < |args|
      invariant 0 <= i <= |args|
      invariant r == Distinct(Kept(args[..i]))
      invariant forall x :: x in seen <==> x in r
    {
      KeptPrefix(args, i);
      if args[i].Some? {
        r, seen := UnionItems(Kept(args[..i]), r, seen, args[i].value);
      } else {
        assert Kept(args[..i]) + KeptArg(args[i]) == Kept(args[..i]);
      }
      i := i + 1;
    }
    assert args[..|args|] == args;
    DistinctMembers(Kept(args));
  }

  /** A string of white space is a truthy item, so its trim, the empty string,
      is part of the union. */
  lemma BlankItemKeptAsEmpty()
    ensures Distinct(Kept([Some([Some(" ")])])) == [""]
  {
    var args: seq<Arg> := [Some([Some(" ")])];
    assert args[..0] == [];
    var items := [Some(" ")];
    assert items[..0] == [];
    assert Trim(" ") == "";
    assert Kept(args) == [""];
    var xs := [""];
    assert xs[..0] == [];
  }
}
