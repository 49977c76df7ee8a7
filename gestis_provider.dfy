/**
 * The GESTIS provider without the network: the request URLs, how a failed
 * request is classified, the search-type query keys, and how the parsed
 * article becomes a substance record.
 */
module GestisProvider {

  import opened Outcomes
  import opened RustStr
  import opened GestisTypes
  import opened GestisAssemble

  const BaseUrl := "https://gestis-api.dguv.de/api"
  const SearchSuggestions := "search_suggestions"
  const SearchPath := "search"
  const ArticlePath := "article"

  /* ---------- search types ---------- */

  datatype SearchType = ChemicalName | ChemicalFormula | Numbers | FullText

  /** The query key of a search type. */
  function AsStr(t: SearchType): (r: string)
    ensures r in {"stoffname", "summenformel", "nummern", "volltextsuche"}
  {
    match t
    case ChemicalName => "stoffname"
    case ChemicalFormula => "summenformel"
    case Numbers => "nummern"
    case FullText => "volltextsuche"
  }

  /** The search type a query key stands for. */
  function SearchTypeOf(key: string): Option<SearchType> {
    if key == "stoffname" then Some(ChemicalName)
    else if key == "summenformel" then Some(ChemicalFormula)
    else if key == "nummern" then Some(Numbers)
    else if key == "volltextsuche" then Some(FullText)
    else None
  }

  /** Every key can be read back, so no two search types share one. */
  lemma AsStrRoundTrip(t: SearchType)
    ensures SearchTypeOf(AsStr(t)) == Some(t)
  {
  }

  lemma AsStrInjective(a: SearchType, b: SearchType)
    ensures AsStr(a) == AsStr(b) ==> a == b
  {
    AsStrRoundTrip(a);
    AsStrRoundTrip(b);
  }

  lemma AsStrHasNoAmpersand(t: SearchType)
    ensures '&' !in AsStr(t)
  {
  }

  /* ---------- URLs ---------- */

  /** `get_article`'s URL, which is also the record's source URL. */
  function ArticleUrl(identifier: string): string {
    BaseUrl + "/" + ArticlePath + "/de/" + identifier
  }

  const ArticlePrefix := BaseUrl + "/" + ArticlePath + "/de/"

  /** The identifier is the URL after the fixed prefix. */
  lemma ArticleUrlIdentifier(identifier: string)
    ensures |ArticlePrefix| <= |ArticleUrl(identifier)|
    ensures ArticleUrl(identifier)[..|ArticlePrefix|] == ArticlePrefix
    ensures ArticleUrl(identifier)[|ArticlePrefix|..] == identifier
  {
  }

  lemma ArticleUrlInjective(a: string, b: string)
    ensures ArticleUrl(a) == ArticleUrl(b) ==> a == b
  {
    ArticleUrlIdentifier(a);
    ArticleUrlIdentifier(b);
  }

  /** `get_quick_search_suggestions`' URL. */
  function SuggestionsUrl(t: SearchType, pattern: string): string {
    BaseUrl + "/" + SearchSuggestions + "/de?" + AsStr(t) + "=" + pattern
  }

  const SuggestionsPrefix := BaseUrl + "/" + SearchSuggestions + "/de?"

  /** After the prefix the URL reads `key=pattern`, and the key names the search type. */
  lemma SuggestionsUrlParts(t: SearchType, pattern: string)
    ensures var url := SuggestionsUrl(t, pattern);
      var k := |SuggestionsPrefix| + |AsStr(t)|;
      k < |url| && url[..|SuggestionsPrefix|] == SuggestionsPrefix
      && SearchTypeOf(url[|SuggestionsPrefix|..k]) == Some(t)
      && url[k] == '=' && url[k + 1..] == pattern
  {
    var url := SuggestionsUrl(t, pattern);
    var k := |SuggestionsPrefix| + |AsStr(t)|;
    assert url[|SuggestionsPrefix|..k] == AsStr(t);
    AsStrRoundTrip(t);
  }

  datatype SearchArgument = SearchArgument(searchType: SearchType, pattern: string)

  datatype SearchArguments = SearchArguments(arguments: seq<SearchArgument>, exact: bool)

  function Query(a: SearchArgument): string {
    AsStr(a.searchType) + "=" + a.pattern
  }

  /** One `key=pattern` per argument, in input order. */
  function Queries(args: seq<SearchArgument>): (r: seq<string>)
    ensures |r| == |args|
    ensures forall i :: 0 <= i < |args| ==> r[i] == Query(args[i])
  {
    if args == [] then [] else [Query(args[0])] + Queries(args[1..])
  }

  /** How Rust's `Display` writes a `bool`. */
  function BoolStr(b: bool): string {
    if b then "true" else "false"
  }

  /** The part of the search URL after `?`. */
  function SearchQuery(arguments: SearchArguments): string {
    Join(Queries(arguments.arguments), '&') + "&exact=" + BoolStr(arguments.exact)
  }

  const SearchPrefix := BaseUrl + "/" + SearchPath + "/de?"

  /** `get_search_results`' URL: the fixed search prefix, then the query. */
  function SearchUrl(arguments: SearchArguments): (r: string)
    ensures |SearchPrefix| <= |r| && r[..|SearchPrefix|] == SearchPrefix
    ensures r[|SearchPrefix|..] == SearchQuery(arguments)
  {
    var r := BaseUrl + "/" + SearchPath + "/de?" + Join(Queries(arguments.arguments), '&') + "&exact=" + BoolStr(arguments.exact);
    assert r == SearchPrefix + SearchQuery(arguments);
    r
  }

  /**
   * The search URL read back: after the prefix, splitting at `&` gives the
   * arguments' `key=pattern` pairs in order, then the `exact` flag.
   */
  lemma SearchUrlSplits(arguments: SearchArguments)
    requires arguments.arguments != []
    requires forall i :: 0 <= i < |arguments.arguments| ==> '&' !in arguments.arguments[i].pattern
    ensures var url := SearchUrl(arguments);
      url[..|SearchPrefix|] == SearchPrefix
      && Split(url[|SearchPrefix|..], '&') == Queries(arguments.arguments) + ["exact=" + BoolStr(arguments.exact)]
  {
    SearchQuerySplits(arguments);
  }

  lemma {:induction false} JoinSnoc(parts: seq<string>, x: string, sep: char)
    requires parts != []
    ensures Join(parts + [x], sep) == Join(parts, sep) + [sep] + x
    decreases |parts|
  {
    if |parts| == 1 {
      assert parts + [x] == [parts[0], x];
      assert (parts + [x])[1..] == [x];
    } else {
      assert (parts + [x])[0] == parts[0];
      assert (parts + [x])[1..] == parts[1..] + [x];
      JoinSnoc(parts[1..], x, sep);
    }
  }

  /**
   * When no pattern holds `&` and there is at least one argument, splitting
   * the query at `&` gives the arguments' `key=pattern` pairs in order,
   * followed by the `exact` flag.
   */
  lemma SearchQuerySplits(arguments: SearchArguments)
    requires arguments.arguments != []
    requires forall i :: 0 <= i < |arguments.arguments| ==> '&' !in arguments.arguments[i].pattern
    ensures Split(SearchQuery(arguments), '&')
      == Queries(arguments.arguments) + ["exact=" + BoolStr(arguments.exact)]
  {
    var qs := Queries(arguments.arguments);
    var last := "exact=" + BoolStr(arguments.exact);
    assert SearchQuery(arguments) == Join(qs, '&') + ['&'] + last;
    forall i | 0 <= i < |qs|
      ensures '&' !in qs[i]
    {
      QueryHasNoAmpersand(arguments.arguments[i]);
    }
    SplitSnoc(qs, last, '&');
  }

  lemma SplitSnoc(parts: seq<string>, last: string, sep: char)
    requires parts != []
    requires forall i :: 0 <= i < |parts| ==> sep !in parts[i]
    requires sep !in last
    ensures Split(Join(parts, sep) + [sep] + last, sep) == parts + [last]
  {
    JoinSnoc(parts, last, sep);
    var all := parts + [last];
    assert forall i :: 0 <= i < |all| ==> all[i] == if i < |parts| then parts[i] else last;
    SplitJoin(all, sep);
  }

  lemma QueryHasNoAmpersand(a: SearchArgument)
    requires '&' !in a.pattern
    ensures '&' !in Query(a)
  {
    AsStrHasNoAmpersand(a.searchType);
  }

  /* ---------- requests ---------- */

  type U16 = c: int | 0 <= c < 0x1_0000

  /**
   * What the HTTP call gave: a response whose JSON body decoded to a value
   * (or failed to decode), an error status, or a failure without a status.
   */
  datatype Transport<B> = Delivered(json: Option<B>) | Status(code: U16) | Failed

  datatype SearchError =
    | RateLimit
    | RequestError(code: U16)
    | Logged
    | JsonFailed                // `into_json` could not decode the body
    | ParseFailed(ParseError)   // `parse_response` failed

  /** `make_request`'s classification of the call's outcome. */
  function MakeRequest<B>(t: Transport<B>): (r: Result<Option<B>, SearchError>)
    ensures r.Ok? <==> t.Delivered?
    ensures r.Ok? ==> r.value == t.json
    ensures t.Status? && t.code == 429 ==> r == Err(RateLimit)
    ensures t.Status? && t.code != 429 ==> r == Err(RequestError(t.code))
    ensures t.Failed? ==> r == Err(Logged)
  {
    match t
    case Delivered(json) => Ok(json)
    case Status(code) => if code == 429 then Err(RateLimit) else Err(RequestError(code))
    case Failed => Err(Logged)
  }

  /** The request followed by `into_json`. */
  function Fetch<B>(call: string -> Transport<B>, url: string): (r: Result<B, SearchError>)
    ensures r.Err? ==> r.error in {RateLimit, Logged, JsonFailed} || r.error.RequestError?
  {
    match MakeRequest(call(url))
    case Err(e) => Err(e)
    case Ok(None) => Err(JsonFailed)
    case Ok(Some(b)) => Ok(b)
  }

  /** `get_article`: the article and the URL it was fetched from. */
  function GetArticle(call: string -> Transport<GestisResponse>, identifier: string): (r: Result<(GestisResponse, string), SearchError>)
    ensures r.Ok? <==> call(ArticleUrl(identifier)).Delivered? && call(ArticleUrl(identifier)).json.Some?
    ensures r.Ok? ==> r.value.1 == ArticleUrl(identifier) && call(ArticleUrl(identifier)) == Delivered(Some(r.value.0))
    ensures r.Err? ==> r.error == Fetch(call, ArticleUrl(identifier)).error
  {
    var url := ArticleUrl(identifier);
    match Fetch(call, url)
    case Err(e) => Err(e)
    case Ok(json) => Ok((json, url))
  }

  /** `get_quick_search_suggestions`. */
  function GetQuickSearchSuggestions(call: string -> Transport<seq<string>>, t: SearchType, pattern: string): (r: Result<seq<string>, SearchError>)
    ensures r.Ok? <==> call(SuggestionsUrl(t, pattern)).Delivered? && call(SuggestionsUrl(t, pattern)).json.Some?
    ensures r.Ok? ==> call(SuggestionsUrl(t, pattern)).json == Some(r.value)
  {
    Fetch(call, SuggestionsUrl(t, pattern))
  }

  /** `get_search_results`; the decoded result type is left open. */
  function GetSearchResults<B>(call: string -> Transport<B>, arguments: SearchArguments): (r: Result<B, SearchError>)
    ensures r.Ok? <==> call(SearchUrl(arguments)).Delivered? && call(SearchUrl(arguments)).json.Some?
    ensures r.Ok? ==> call(SearchUrl(arguments)).json == Some(r.value)
  {
    Fetch(call, SearchUrl(arguments))
  }

  /* ---------- the substance record ---------- */

  /** A value as found, with room for the user's change (`Data::new` leaves it empty). */
  datatype Annotated<T> = Annotated(originalData: T, modifiedData: Option<T>)

  function Fresh<T>(v: T): Annotated<T> {
    Annotated(v, None)
  }

  datatype Unit = Litre | Milliliter | Microlitre | Gram | Milligram | Microgram | Pieces | Custom

  datatype Amount = Amount(value: string, unit: Unit)

  /** `lastUpdated` is the time the record was built, given as a number. */
  datatype Source = Source(provider: string, url: string, lastUpdated: int)

  datatype SubstanceData = SubstanceData(
    name: Annotated<string>,
    alternativeNames: seq<string>,
    cas: Annotated<Option<string>>,
    molecularFormula: Annotated<string>,
    molarMass: Annotated<Option<string>>,
    meltingPoint: Annotated<Option<string>>,
    boilingPoint: Annotated<Option<string>>,
    waterHazardClass: Annotated<Option<string>>,
    lethalDose: Annotated<Option<string>>,
    signalWord: Annotated<Option<string>>,
    mak: Annotated<Option<string>>,
    amount: Option<Amount>,
    hPhrases: Annotated<seq<Phrase>>,
    pPhrases: Annotated<seq<Phrase>>,
    symbols: Annotated<seq<Image>>,
    source: Source,
    checked: bool)

  /** The fields the provider's own parser adds to the extracted record. */
  datatype Extras = Extras(cas: Option<string>, molarMass: Option<string>, mak: Option<string>)

  function AliasNames(aliases: seq<Alias>): (r: seq<string>)
    ensures |r| == |aliases|
    ensures forall i :: 0 <= i < |aliases| ==> r[i] == aliases[i].name
  {
    if aliases == [] then [] else [aliases[0].name] + AliasNames(aliases[1..])
  }

  function OrEmpty<T>(o: Option<seq<T>>): (r: seq<T>)
    ensures o.Some? ==> r == o.value
    ensures o.None? ==> r == []
  {
    if o.Some? then o.value else []
  }

  /** The record built from a parsed article. */
  function Record(json: GestisResponse, url: string, data: Data, extras: Extras, now: int): SubstanceData {
    SubstanceData(
      Fresh(json.name), AliasNames(json.aliases), Fresh(extras.cas), Fresh(data.molecularFormula),
      Fresh(extras.molarMass), Fresh(data.meltingPoint), Fresh(data.boilingPoint),
      Fresh(data.waterHazardClass), Fresh(data.lethalDose), Fresh(data.signalWord), Fresh(extras.mak),
      None, Fresh(OrEmpty(data.hPhrases)), Fresh(OrEmpty(data.pPhrases)), Fresh(OrEmpty(data.symbols)),
      Source("gestis", url, now), false)
  }

  /**
   * `get_substance_data`: fetch the article, extract its record, and fill the
   * substance record. `extras` stands for the fields the extractor shown here
   * does not produce, `now` for the clock.
   */
  function GetSubstanceData(call: string -> Transport<GestisResponse>, parse: XmlParser,
                            extras: GestisResponse -> Extras, now: int, identifier: string): (r: Run<Result<SubstanceData, SearchError>>)
    ensures GetArticle(call, identifier).Err? ==> r == Returns(Err(GetArticle(call, identifier).error))
    ensures r.Returns? && r.value.Ok? ==>
      GetArticle(call, identifier).Ok? && SuccessFrom(GetArticle(call, identifier).value.0, parse, extras, now, identifier, r.value.value)
    ensures r.Returns? && r.value.Err? && r.value.error.ParseFailed? ==> GetArticle(call, identifier).Ok?
  {
    match GetArticle(call, identifier)
    case Err(e) => Returns(Err(e))
    case Ok((json, url)) =>
      match Assembled(json, parse)
      case Panics(p) => Panics(p)
      case Returns(Outcome(Err(e), _)) => Returns(Err(ParseFailed(e)))
      case Returns(Outcome(Ok(data), _)) => Returns(Ok(Record(json, url, data, extras(json), now)))
  }

  /** A request that fails ends the call with its classified error. */
  lemma RequestFailurePropagates(call: string -> Transport<GestisResponse>, parse: XmlParser,
                                 extras: GestisResponse -> Extras, now: int, identifier: string, e: SearchError)
    requires GetArticle(call, identifier) == Err(e)
    ensures GetSubstanceData(call, parse, extras, now, identifier) == Returns(Err(e))
  {
  }

  /** When extraction fails, no record is built and the parser's error is returned. */
  lemma ParseFailurePropagates(call: string -> Transport<GestisResponse>, parse: XmlParser,
                               extras: GestisResponse -> Extras, now: int, identifier: string,
                               json: GestisResponse)
    requires call(ArticleUrl(identifier)) == Delivered(Some(json))
    requires Assembled(json, parse).Returns? && Assembled(json, parse).value.result.Err?
    ensures GetSubstanceData(call, parse, extras, now, identifier)
      == Returns(Err(ParseFailed(Assembled(json, parse).value.result.error)))
  {
  }

  /** What a returned record holds. */
  lemma RecordOfSuccess(call: string -> Transport<GestisResponse>, parse: XmlParser,
                        extras: GestisResponse -> Extras, now: int, identifier: string, s: SubstanceData)
    requires GetSubstanceData(call, parse, extras, now, identifier) == Returns(Ok(s))
    ensures exists json :: call(ArticleUrl(identifier)) == Delivered(Some(json)) && SuccessFrom(json, parse, extras, now, identifier, s)
  {
    var json := GetArticle(call, identifier).value.0;
    assert SuccessFrom(json, parse, extras, now, identifier, s);
  }

  /** `s` is the record made from article `json` parsed into a record. */
  predicate SuccessFrom(json: GestisResponse, parse: XmlParser, extras: GestisResponse -> Extras,
                        now: int, identifier: string, s: SubstanceData)
  {
    Assembled(json, parse).Returns? && Assembled(json, parse).value.result.Ok?
    && var d := Assembled(json, parse).value.result.value;
    s.name == Fresh(json.name)
    && s.alternativeNames == AliasNames(json.aliases)
    && s.molecularFormula == Fresh(d.molecularFormula)
    && s.meltingPoint == Fresh(d.meltingPoint) && s.boilingPoint == Fresh(d.boilingPoint)
    && s.waterHazardClass == Fresh(d.waterHazardClass) && s.lethalDose == Fresh(d.lethalDose)
    && s.signalWord == Fresh(d.signalWord) && s.molarMass == Fresh(extras(json).molarMass)
    && s.hPhrases.originalData == (if d.hPhrases.Some? then d.hPhrases.value else [])
    && s.pPhrases.originalData == (if d.pPhrases.Some? then d.pPhrases.value else [])
    && s.symbols.originalData == (if d.symbols.Some? then d.symbols.value else [])
    && s.amount.None? && !s.checked
    && s.source == Source("gestis", ArticleUrl(identifier), now)
    && s.cas == Fresh(extras(json).cas) && s.mak == Fresh(extras(json).mak)
  }
}
