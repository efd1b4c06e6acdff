/** The product normaliser of backend/services/openFoodFactsService.js: it maps
    an OpenFoodFacts record and the identifier it was looked up by to the
    canonical product shape, including the placeholder company resolution. */
module Products {
  import opened Wrappers
  import opened Strings

  /** An OpenFoodFacts product record. Text fields are only read through `||`,
      so an absent field is modelled as "" and `last_modified_t` as 0. */
  datatype RawProduct = RawProduct(
    code: string,
    productName: string,
    name: string,
    brands: string,
    brand: string,
    categories: string,
    category: string,
    imageUrl: string,
    imageFrontUrl: string,
    lastModified: int)

  datatype BarcodeType = Upc | Ean | Gtin

  datatype Barcode = Barcode(kind: BarcodeType, value: string)

  /** The three resolution states; only `Unresolved` is produced today. */
  datatype ResolutionKind = Resolved | Ambiguous | Unresolved

  /** A candidate company; `confidence` is in hundredths. */
  datatype Candidate = Candidate(companyId: string, confidence: nat, name: string)

  datatype CompanyResolution = CompanyResolution(
    resolution: ResolutionKind, companyId: Option<string>, candidates: seq<Candidate>)

  /** `source.lastUpdated`: the record's `last_modified_t` (epoch seconds) when
      set, else the evaluation time as an ISO string. */
  datatype Timestamp = EpochSeconds(seconds: int) | IsoTime(iso: string)

  datatype SourceInfo = SourceInfo(name: string, recordId: string, lastUpdated: Timestamp)

  /** The normalised product. */
  datatype Product = Product(
    id: string,
    barcode: Barcode,
    name: string,
    brand: string,
    brandAliases: seq<string>,
    category: string,
    imageUrl: Option<string>,
    company: CompanyResolution,
    source: SourceInfo)

  const SourceName := "OpenFoodFacts"
  const UnknownBrand := "Unknown Brand"

  // ---------------------------------------------------------------------------
  // Brand tokens
  // ---------------------------------------------------------------------------

  function TrimEach(xs: seq<string>): (r: seq<string>)
    ensures |r| == |xs|
    ensures forall k :: 0 <= k < |xs| ==> r[k] == Trim(xs[k])
  {
    if |xs| == 0 then [] else [Trim(xs[0])] + TrimEach(xs[1..])
  }

  /** `.filter(Boolean)` on strings. */
  function NonEmpty(xs: seq<string>): (r: seq<string>)
    ensures forall k :: 0 <= k < |r| ==> r[k] != "" && r[k] in xs
    ensures forall x :: x in xs && x != "" ==> x in r
  {
    if |xs| == 0 then []
    else if xs[0] == "" then NonEmpty(xs[1..])
    else [xs[0]] + NonEmpty(xs[1..])
  }

  /** A brand token: non-empty, without a comma, and without white space at
      either end. */
  predicate IsToken(t: string) {
    t != "" && ',' !in t && !IsSpace(t[0]) && !IsSpace(t[|t| - 1])
  }

  /** Empty, or a brand token. */
  predicate TokenOrEmpty(t: string) {
    t == "" || IsToken(t)
  }

  /** `brands.split(',').map(b => b.trim()).filter(Boolean)`. */
  function BrandTokens(brands: string): (ts: seq<string>)
    ensures forall k :: 0 <= k < |ts| ==> IsToken(ts[k])
    ensures ',' !in brands ==> ts == (if IsBlank(brands) then [] else [Trim(brands)])
  {
    var pieces := Split(brands, ',');
    var trimmed := TrimEach(pieces);
    TrimmedPiecesAreTokens(pieces);
    NonEmptyKeepsTokens(trimmed);
    SinglePieceTokens(brands);
    NonEmpty(trimmed)
  }

  /** A comma splits the brand string into two independently parsed halves:
      the tokens of `"A, B"` are those of `"A"` followed by those of `" B"`,
      and empty pieces such as those of `",,a"` contribute nothing. */
  lemma BrandTokensOfComma(a: string, b: string)
    ensures BrandTokens(a + "," + b) == BrandTokens(a) + BrandTokens(b)
  {
    var pa := Split(a, ',');
    var pb := Split(b, ',');
    SplitAppend(a, ',', b);
    assert Split(a + "," + b, ',') == pa + pb;
    TrimEachAppend(pa, pb);
    NonEmptyAppend(TrimEach(pa), TrimEach(pb));
  }

  /** Helper: trimming each piece distributes over concatenation. */
  lemma {:induction false} TrimEachAppend(xs: seq<string>, ys: seq<string>)
    ensures TrimEach(xs + ys) == TrimEach(xs) + TrimEach(ys)
    decreases |xs|
  {
    if |xs| == 0 {
      assert xs + ys == ys;
    } else {
      assert (xs + ys)[0] == xs[0];
      assert (xs + ys)[1..] == xs[1..] + ys;
      TrimEachAppend(xs[1..], ys);
    }
  }

  /** Helper: a comma-free string is one piece, kept when it is not blank. */
  lemma SinglePieceTokens(brands: string)
    ensures ',' !in brands ==>
      NonEmpty(TrimEach(Split(brands, ','))) == (if IsBlank(brands) then [] else [Trim(brands)])
  {
    if ',' !in brands {
      assert Split(brands, ',') == [brands];
      assert TrimEach([brands]) == [Trim(brands)];
      TrimEmptyIffBlank(brands);
      var t := Trim(brands);
      assert [t][1..] == [];
    }
  }

  /** Helper: `.filter(Boolean)` distributes over concatenation. */
  lemma {:induction false} NonEmptyAppend(xs: seq<string>, ys: seq<string>)
    ensures NonEmpty(xs + ys) == NonEmpty(xs) + NonEmpty(ys)
    decreases |xs|
  {
    if |xs| == 0 {
      assert xs + ys == ys;
    } else {
      assert (xs + ys)[0] == xs[0];
      assert (xs + ys)[1..] == xs[1..] + ys;
      NonEmptyAppend(xs[1..], ys);
    }
  }

  /** Helper: trimming comma-free pieces gives tokens or empty strings. */
  lemma TrimmedPiecesAreTokens(pieces: seq<string>)
    requires forall k :: 0 <= k < |pieces| ==> ',' !in pieces[k]
    ensures forall k :: 0 <= k < |pieces| ==> TokenOrEmpty(TrimEach(pieces)[k])
  {
    forall k | 0 <= k < |pieces|
      ensures TokenOrEmpty(TrimEach(pieces)[k])
    {
      TrimChars(pieces[k]);
    }
  }

  /** Helper: dropping the empty strings from tokens-or-empties leaves tokens. */
  lemma {:induction false} NonEmptyKeepsTokens(xs: seq<string>)
    requires forall k :: 0 <= k < |xs| ==> TokenOrEmpty(xs[k])
    ensures forall k :: 0 <= k < |NonEmpty(xs)| ==> IsToken(NonEmpty(xs)[k])
    decreases |xs|
  {
    if |xs| > 0 {
      NonEmptyKeepsTokens(xs[1..]);
    }
  }

  lemma {:induction false} TrimEachOfTokens(ts: seq<string>)
    requires forall k :: 0 <= k < |ts| ==> IsToken(ts[k])
    ensures TrimEach(ts) == ts
  {
    forall k | 0 <= k < |ts|
      ensures Trim(ts[k]) == ts[k]
    {
      TrimOfTrimmed(ts[k]);
    }
  }

  lemma {:induction false} NonEmptyOfNonEmpty(xs: seq<string>)
    requires forall k :: 0 <= k < |xs| ==> xs[k] != ""
    ensures NonEmpty(xs) == xs
  {
    if |xs| > 0 {
      NonEmptyOfNonEmpty(xs[1..]);
      assert xs == [xs[0]] + xs[1..];
    }
  }

  /** Writing tokens as a comma-separated brand string and parsing it again
      gives back the same tokens, in the same order. */
  lemma BrandTokensOfJoin(ts: seq<string>)
    requires forall k :: 0 <= k < |ts| ==> IsToken(ts[k])
    ensures BrandTokens(Join(ts, ',')) == ts
  {
    if |ts| == 0 {
      assert Split("", ',') == [""];
    } else {
      SplitJoin(ts, ',');
      TrimEachOfTokens(ts);
      NonEmptyOfNonEmpty(ts);
    }
  }

  // ---------------------------------------------------------------------------
  // Barcode type
  // ---------------------------------------------------------------------------

  /** Every character is an ASCII digit (the regex class `\d`). */
  predicate AllDigits(s: string) {
    forall i :: 0 <= i < |s| ==> '0' <= s[i] <= '9'
  }

  /** The barcode of the normalised product: its type comes from the shape of
      the identifier looked up (12 digits: UPC, 13 digits: EAN, anything else:
      GTIN); with no identifier it is a GTIN holding the record's code. */
  function InferBarcode(identifier: string, code: string): (b: Barcode)
    ensures b.kind == Upc <==> |identifier| == 12 && AllDigits(identifier)
    ensures b.kind == Ean <==> |identifier| == 13 && AllDigits(identifier)
    ensures b.kind == Gtin <==> !(AllDigits(identifier) && (|identifier| == 12 || |identifier| == 13))
    ensures identifier != "" ==> b.value == identifier
    ensures identifier == "" ==> b == Barcode(Gtin, code)
  {
    if identifier != "" then
      if |identifier| == 12 && AllDigits(identifier) then Barcode(Upc, identifier)
      else if |identifier| == 13 && AllDigits(identifier) then Barcode(Ean, identifier)
      else Barcode(Gtin, identifier)
    else
      Barcode(Gtin, code)
  }

  // ---------------------------------------------------------------------------
  // Company resolution stub
  // ---------------------------------------------------------------------------

  /** The synthetic candidate id: "stub_" and the lower-cased brand with each
      run of white space replaced by `_`. */
  function StubId(brand: string): string {
    "stub_" + ReplaceSpaceRuns(ToLower(brand))
  }

  /** Stub ids start with "stub_", hold no white space and no upper-case ASCII
      letter, and a brand without white space only gets lower-cased. */
  lemma StubIdShape(brand: string)
    ensures IsPrefix("stub_", StubId(brand))
    ensures NoSpace(StubId(brand))
    ensures forall i :: 0 <= i < |StubId(brand)| ==> !('A' <= StubId(brand)[i] <= 'Z')
    ensures NoSpace(brand) ==> StubId(brand) == "stub_" + ToLower(brand)
  {
    var lower := ToLower(brand);
    var tail := ReplaceSpaceRuns(lower);
    ReplaceSpaceRunsKeepsLower(lower);
    PrefixedKeepsShape("stub_", tail);
    if NoSpace(brand) {
      assert NoSpace(lower);
    }
  }

  /** Each maximal white-space run of the brand becomes one `_` in the stub id:
      `"Ben  & Jerry"` gives `"stub_ben_&_jerry"`. */
  lemma StubIdOfSpaceRun(a: string, w: string, b: string)
    requires NoSpace(a)
    requires |w| > 0 && forall i :: 0 <= i < |w| ==> IsSpace(w[i])
    requires b == "" || !IsSpace(b[0])
    ensures StubId(a + w + b) == StubId(a) + "_" + ReplaceSpaceRuns(ToLower(b))
  {
    var la, lw, lb := ToLower(a), ToLower(w), ToLower(b);
    assert ToLower(a + w + b) == la + lw + lb;
    assert NoSpace(la);
    assert forall i :: 0 <= i < |lw| ==> lw[i] == w[i];
    assert lb == "" || lb[0] == ToLowerChar(b[0]);
    ReplaceSpaceRunsOfRun(la, lw, lb);
  }

  /** Helper: a fixed lower-case, space-free prefix keeps both properties. */
  lemma PrefixedKeepsShape(p: string, t: string)
    requires p == "stub_"
    requires NoSpace(t) && forall i :: 0 <= i < |t| ==> !('A' <= t[i] <= 'Z')
    ensures IsPrefix(p, p + t)
    ensures NoSpace(p + t)
    ensures forall i :: 0 <= i < |p + t| ==> !('A' <= (p + t)[i] <= 'Z')
  {
    assert (p + t)[..|p|] == p;
    forall i | 0 <= i < |p + t|
      ensures !IsSpace((p + t)[i]) && !('A' <= (p + t)[i] <= 'Z')
    {
      if i >= |p| {
        assert (p + t)[i] == t[i - |p|];
      }
    }
  }

  /** Replacing white-space runs by `_` introduces no upper-case letter. */
  lemma {:induction false} ReplaceSpaceRunsKeepsLower(s: string)
    requires forall i :: 0 <= i < |s| ==> !('A' <= s[i] <= 'Z')
    ensures forall i :: 0 <= i < |ReplaceSpaceRuns(s)| ==> !('A' <= ReplaceSpaceRuns(s)[i] <= 'Z')
    decreases |s|
  {
    if |s| > 0 {
      if IsSpace(s[0]) {
        var rest := TrimStart(s);
        assert forall i :: 0 <= i < |rest| ==> rest[i] == s[|s| - |rest| + i];
        ReplaceSpaceRunsKeepsLower(rest);
      } else {
        ReplaceSpaceRunsKeepsLower(s[1..]);
      }
    }
  }

  function Candidates(brands: seq<string>): (cs: seq<Candidate>)
    ensures |cs| == |brands|
    ensures forall k :: 0 <= k < |brands| ==>
      cs[k].name == brands[k] && cs[k].confidence == 50 && cs[k].companyId == StubId(brands[k])
  {
    if |brands| == 0 then [] else [Candidate(StubId(brands[0]), 50, brands[0])] + Candidates(brands[1..])
  }

  /** `resolveCompany`: always unresolved with no company id, one candidate per
      brand token in order, each with confidence 0.5 and the brand's stub id. */
  function ResolveCompany(brands: seq<string>): (r: CompanyResolution)
    ensures r.resolution == Unresolved && r.companyId.None?
    ensures |r.candidates| == |brands|
    ensures forall k :: 0 <= k < |brands| ==>
      r.candidates[k].name == brands[k] && r.candidates[k].confidence == 50
      && r.candidates[k].companyId == StubId(brands[k])
  {
    CompanyResolution(Unresolved, None, Candidates(brands))
  }

  /** Every candidate id is "stub_" followed by text without white space. */
  lemma CandidateIdsAreStubs(brands: seq<string>)
    ensures var r := ResolveCompany(brands);
      forall k :: 0 <= k < |r.candidates| ==>
        IsPrefix("stub_", r.candidates[k].companyId) && NoSpace(r.candidates[k].companyId)
  {
    forall k | 0 <= k < |brands| {
      StubIdShape(brands[k]);
    }
  }

  // ---------------------------------------------------------------------------
  // normalizeProduct
  // ---------------------------------------------------------------------------

  /** The normalised product for a record whose brand string parsed to `tokens`. */
  function Assemble(p: RawProduct, identifier: string, now: string, tokens: seq<string>): (r: Product)
    ensures r.id == r.source.recordId == Or(p.code, identifier)
    ensures r.barcode == InferBarcode(identifier, r.id)
    ensures r.name == (if p.productName != "" then p.productName else if p.name != "" then p.name else "Unknown Product")
    ensures r.category == (if p.categories != "" then p.categories else if p.category != "" then p.category else "Unknown Category")
    ensures |tokens| == 0 ==> r.brand == UnknownBrand && r.brandAliases == []
    ensures |tokens| > 0 ==> [r.brand] + r.brandAliases == tokens
    ensures r.imageUrl.None? <==> p.imageUrl == "" && p.imageFrontUrl == ""
    ensures r.imageUrl.Some? ==> r.imageUrl.value != ""
    ensures p.imageUrl != "" ==> r.imageUrl == Some(p.imageUrl)
    ensures p.imageUrl == "" && p.imageFrontUrl != "" ==> r.imageUrl == Some(p.imageFrontUrl)
    ensures r.company == ResolveCompany(tokens)
    ensures r.source.name == SourceName
    ensures p.lastModified != 0 ==> r.source.lastUpdated == EpochSeconds(p.lastModified)
    ensures p.lastModified == 0 ==> r.source.lastUpdated == IsoTime(now)
  {
    var code := Or(p.code, identifier);
    var image := Or(p.imageUrl, p.imageFrontUrl);
    var brand := if |tokens| > 0 then tokens[0] else UnknownBrand;
    var aliases := if |tokens| > 0 then tokens[1..] else [];
    assert |tokens| > 0 ==> [brand] + aliases == tokens;
    Product(
      code,
      InferBarcode(identifier, code),
      Or(Or(p.productName, p.name), "Unknown Product"),
      brand,
      aliases,
      Or(Or(p.categories, p.category), "Unknown Category"),
      if image != "" then Some(image) else None,
      ResolveCompany(tokens),
      SourceInfo(SourceName, code, if p.lastModified != 0 then EpochSeconds(p.lastModified) else IsoTime(now)))
  }

  /** `normalizeProduct(product, identifier)`, with `now` the evaluation time. */
  function NormalizeProduct(p: RawProduct, identifier: string, now: string): (r: Product)
    ensures r.id == r.source.recordId == Or(p.code, identifier)
    ensures r.barcode == InferBarcode(identifier, r.id)
    ensures r.name != "" && r.category != "" && r.brand != ""
    ensures var ts := BrandTokens(Or(p.brands, p.brand));
      && (|ts| == 0 ==> r.brand == UnknownBrand && r.brandAliases == [])
      && (|ts| > 0 ==> [r.brand] + r.brandAliases == ts)
      && r.company == ResolveCompany(ts)
    ensures r.imageUrl.None? <==> p.imageUrl == "" && p.imageFrontUrl == ""
    ensures p.imageUrl != "" ==> r.imageUrl == Some(p.imageUrl)
    ensures p.imageUrl == "" && p.imageFrontUrl != "" ==> r.imageUrl == Some(p.imageFrontUrl)
    ensures r.source.name == SourceName
    ensures p.lastModified != 0 ==> r.source.lastUpdated == EpochSeconds(p.lastModified)
    ensures p.lastModified == 0 ==> r.source.lastUpdated == IsoTime(now)
  {
    var tokens := BrandTokens(Or(p.brands, p.brand));
    var r := Assemble(p, identifier, now, tokens);
    assert |tokens| > 0 ==> r.brand == ([r.brand] + r.brandAliases)[0] == tokens[0];
    r
  }

  /** A record whose brand string lists tokens comma-separated yields the first
      token as the brand and the rest as aliases, and one candidate per token. */
  lemma NormalizedBrandsRoundTrip(p: RawProduct, identifier: string, now: string, ts: seq<string>)
    requires |ts| >= 1 && forall k :: 0 <= k < |ts| ==> IsToken(ts[k])
    requires p.brands == Join(ts, ',')
    ensures var r := NormalizeProduct(p, identifier, now);
      r.brand == ts[0] && r.brandAliases == ts[1..] && |r.company.candidates| == |ts|
  {
    BrandTokensOfJoin(ts);
    JoinStartsWithFirst(ts);
    assert Or(p.brands, p.brand) == p.brands;
    var r := NormalizeProduct(p, identifier, now);
    assert [r.brand] + r.brandAliases == ts;
    assert r.brand == ([r.brand] + r.brandAliases)[0];
    assert r.brandAliases == ([r.brand] + r.brandAliases)[1..];
  }

  /** A join is at least as long as its first piece. */
  lemma JoinStartsWithFirst(ts: seq<string>)
    requires |ts| >= 1
    ensures |Join(ts, ',')| >= |ts[0]|
  {
    if |ts| > 1 {
      assert Join(ts, ',') == ts[0] + [','] + Join(ts[1..], ',');
    }
  }
}
