/** The company registry as the handlers see it: company documents with their
    ESG source history, held in a store whose queries either answer or throw. */
module Companies {
  import opened Wrappers
  import opened Strings
  import opened Errors

  /** The three raw ESG factors of one source; `None` is a stored `null`. */
  datatype Factors = Factors(e: Option<int>, s: Option<int>, g: Option<int>)

  /** One ESG measurement. `asOf` is an ISO-8601 date string, compared as a
      string; it is optional here because the scoring handler copes with its
      absence. `scale` is the label stored beside the factors. */
  datatype EsgSource = EsgSource(source: string, asOf: Option<string>, raw: Factors, scale: string)

  /** A company document. The array fields are optional because the response
      formatters and the scoring handler test for their absence. */
  datatype Company = Company(
    id: string,
    name: string,
    aliases: Option<seq<string>>,
    tickers: Option<seq<string>>,
    country: Option<string>,
    domains: Option<seq<string>>,
    esgSources: Option<seq<EsgSource>>)

  /** The company collection in its natural (insertion) order. When `fault` is
      present the store is failing and every query throws that fault. */
  datatype Store = Store(companies: seq<Company>, fault: Option<Fault>)

  /** A factor lies in the schema's range 0..100 or is null. */
  predicate FactorInRange(x: Option<int>) {
    x.None? || 0 <= x.value <= 100
  }

  predicate FactorsInRange(f: Factors) {
    FactorInRange(f.e) && FactorInRange(f.s) && FactorInRange(f.g)
  }

  /** Every factor of every source lies in the schema's range. */
  predicate SourcesInRange(sources: seq<EsgSource>) {
    forall j :: 0 <= j < |sources| ==> FactorsInRange(sources[j].raw)
  }

  /** Every stored factor of every company respects the schema's 0..100 range. */
  predicate StoreInRange(cs: seq<Company>) {
    forall i :: 0 <= i < |cs| ==> SourcesInRange(cs[i].esgSources.GetOr([]))
  }

  /** `Company.findById(id)`: the position of the company with that id. */
  function FindById(cs: seq<Company>, id: string): (r: Option<nat>)
    ensures r.Some? ==> r.value < |cs| && cs[r.value].id == id
    ensures r.None? <==> forall k :: 0 <= k < |cs| ==> cs[k].id != id
  {
    if |cs| == 0 then None
    else if cs[0].id == id then Some(0)
    else
      match FindById(cs[1..], id)
      case None => None
      case Some(k) => Some(k + 1)
  }

  /** The first company, in store order, with the id is the one found. */
  lemma {:induction false} FindByIdFirst(cs: seq<Company>, id: string, k: nat)
    requires k < |cs| && cs[k].id == id
    requires forall i :: 0 <= i < k ==> cs[i].id != id
    ensures FindById(cs, id) == Some(k)
    decreases k
  {
    if k > 0 {
      FindByIdFirst(cs[1..], id, k - 1);
    }
  }

  /** Does one of the company's tickers equal `ticker`, ignoring case? This is
      the query `{tickers: /^ticker$/i}` for a ticker without regex metacharacters. */
  predicate HasTickerIgnoreCase(c: Company, ticker: string) {
    c.tickers.Some? && exists k :: 0 <= k < |c.tickers.value| && EqualsIgnoreCase(c.tickers.value[k], ticker)
  }

  /** `Company.findOne({tickers: /^ticker$/i})`: the first company, in store
      order, holding a ticker equal to `ticker` up to case. */
  function FindByTicker(cs: seq<Company>, ticker: string): (r: Option<nat>)
    ensures r.Some? ==> r.value < |cs| && HasTickerIgnoreCase(cs[r.value], ticker)
    ensures r.Some? ==> forall k :: 0 <= k < r.value ==> !HasTickerIgnoreCase(cs[k], ticker)
    ensures r.None? <==> forall k :: 0 <= k < |cs| ==> !HasTickerIgnoreCase(cs[k], ticker)
  {
    if |cs| == 0 then None
    else if HasTickerIgnoreCase(cs[0], ticker) then Some(0)
    else
      match FindByTicker(cs[1..], ticker)
      case None => None
      case Some(k) => Some(k + 1)
  }

  /** The ticker query does not depend on the case of the ticker asked for:
      "msft" and "MSFT" find the same company. */
  lemma FindByTickerIgnoresCase(cs: seq<Company>, t1: string, t2: string)
    requires EqualsIgnoreCase(t1, t2)
    ensures FindByTicker(cs, t1) == FindByTicker(cs, t2)
  {
    forall c: Company
      ensures HasTickerIgnoreCase(c, t1) <==> HasTickerIgnoreCase(c, t2)
    {
    }
    if FindByTicker(cs, t1) != FindByTicker(cs, t2) {
      FindByTickerDecided(cs, t1, t2);
    }
  }

  /** Helper: two queries that agree on every company agree on the store. */
  lemma {:induction false} FindByTickerDecided(cs: seq<Company>, t1: string, t2: string)
    requires forall c: Company :: HasTickerIgnoreCase(c, t1) <==> HasTickerIgnoreCase(c, t2)
    ensures FindByTicker(cs, t1) == FindByTicker(cs, t2)
    decreases |cs|
  {
    if |cs| > 0 {
      FindByTickerDecided(cs[1..], t1, t2);
    }
  }

  /** The first company, in store order, holding the ticker is the one found. */
  lemma {:induction false} FindByTickerFirst(cs: seq<Company>, ticker: string, k: nat)
    requires k < |cs| && HasTickerIgnoreCase(cs[k], ticker)
    requires forall i :: 0 <= i < k ==> !HasTickerIgnoreCase(cs[i], ticker)
    ensures FindByTicker(cs, ticker) == Some(k)
    decreases k
  {
    if k > 0 {
      FindByTickerFirst(cs[1..], ticker, k - 1);
    }
  }
}
