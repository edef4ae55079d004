/** The search-URL rules of `IndeedScraper.build_query_url`: which terms are appended, in
    which order, and which parameter combinations raise instead of producing a URL. */
module QueryUrl {
  import opened Base
  import opened Strings

  /** `IndeedScraper.SortBy` and `IndeedScraper.Country`. */
  const SortDate: string := "date"
  const SortRelevance: string := "relevance"
  const CountryUsa: string := "com"
  const CountryCanada: string := "ca"
  /** The default of the `radius` parameter. */
  const DefaultRadius: int := 50

  /** The keyword arguments of `build_query_url`; `None` is Python's `None`. */
  datatype QueryParams = QueryParams(
    keywords: Option<string>,
    country: Option<string>,
    location: Option<string>,
    sortBy: Option<string>,
    radius: Option<int>,
    pageNumber: Option<int>)

  /** The parameters as they are when the caller passes none of them. */
  function DefaultParams(): QueryParams {
    QueryParams(None, None, None, Some(SortDate), Some(DefaultRadius), None)
  }

  /** Why the call raises: the two required-argument ValueErrors, the unbound `region_code`
      for an unknown country, `None.lower()` for a radius without a location, the ValueError
      for an unknown sort order and the unbound `new_page_num` for a page below 1. */
  datatype QueryError =
    | KeywordsRequired
    | CountryRequired
    | RegionCodeUnbound
    | LocationHasNoLower
    | InvalidSortBy
    | PageOffsetUnbound

  /** The region code bound for a country, or nothing when the country is neither Canada nor the USA. */
  function RegionCode(country: string): (r: Option<string>)
    ensures r.Some? <==> country == CountryCanada || country == CountryUsa
    ensures r.Some? ==> r.value == country
  {
    if country == CountryCanada then Some("ca")
    else if country == CountryUsa then Some("com")
    else None
  }

  function BaseUrl(region: string, keywords: string): string {
    "https://www.indeed." + region + "/jobs?q=" + EncodeSpaces(keywords)
  }

  predicate IsRemote(location: string) {
    Lower(location) == "remote"
  }

  function LocationTerm(location: Option<string>): string {
    if location.Some? then "&l=" + location.value else ""
  }

  function RadiusTerm(radius: Option<int>, location: Option<string>): string {
    if radius.Some? && location.Some? && !IsRemote(location.value)
    then "&radius=" + IntToString(radius.value)
    else ""
  }

  predicate SortValid(sortBy: Option<string>) {
    sortBy.None? || sortBy.value == SortDate || sortBy.value == SortRelevance
  }

  function SortTerm(sortBy: Option<string>): string {
    if sortBy == Some(SortDate) then "&sort=date" else ""
  }

  /** The result offset of a page: the site shows ten results per page. */
  function StartOffset(page: int): nat
    requires page >= 1
  {
    if page == 1 then 0 else (page - 1) * 10
  }

  /** The offset is a multiple of ten that addresses the page back. */
  lemma StartOffsetAddressesPage(page: int)
    requires page >= 1
    ensures StartOffset(page) % 10 == 0 && StartOffset(page) / 10 + 1 == page
  {
  }

  function StartTerm(page: Option<int>): string
    requires page.None? || page.value >= 1
  {
    if page.Some? then "&start=" + NatToString(StartOffset(page.value)) else ""
  }

  /** Exactly the parameter combinations for which a URL is returned. */
  predicate Accepted(p: QueryParams) {
    && p.keywords.Some?
    && p.country.Some? && RegionCode(p.country.value).Some?
    && !(p.radius.Some? && p.location.None?)
    && SortValid(p.sortBy)
    && (p.pageNumber.None? || p.pageNumber.value >= 1)
  }

  /** The outcome of one call: the URL or the error raised, and the last value the call
      wrote into `self.url` before returning or raising (nothing when it raised first). */
  datatype Built = Built(result: Result<string, QueryError>, lastWrite: Option<string>)

  /** `build_query_url`: the URL, or the error raised together with what `self.url` held then. */
  function Build(p: QueryParams): Built
  {
    if p.keywords.None? then Built(Err(KeywordsRequired), None)
    else if p.country.None? then Built(Err(CountryRequired), None)
    else if RegionCode(p.country.value).None? then Built(Err(RegionCodeUnbound), None)
    else
      var base := BaseUrl(RegionCode(p.country.value).value, p.keywords.value);
      if p.radius.Some? && p.location.None? then Built(Err(LocationHasNoLower), Some(base))
      else
        var withRadius := base + LocationTerm(p.location) + RadiusTerm(p.radius, p.location);
        if !SortValid(p.sortBy) then Built(Err(InvalidSortBy), Some(withRadius))
        else
          var withSort := withRadius + SortTerm(p.sortBy);
          if p.pageNumber.Some? && p.pageNumber.value < 1 then
            Built(Err(PageOffsetUnbound), Some(withSort))
          else
            var url := withSort + StartTerm(p.pageNumber);
            Built(Ok(url), Some(url))
  }

  /** Which parameters are refused and with which error, what is written to `self.url`, and
      how an accepted URL is assembled. */
  lemma BuildOutcome(p: QueryParams)
    ensures Build(p).result.Ok? <==> Accepted(p)
    ensures p.keywords.None? ==> Build(p).result == Err(KeywordsRequired)
    ensures p.keywords.Some? && p.country.None? ==> Build(p).result == Err(CountryRequired)
    ensures p.keywords.Some? && p.country.Some? && RegionCode(p.country.value).None? ==>
              Build(p).result == Err(RegionCodeUnbound)
    ensures (p.keywords.Some? && p.country.Some? && RegionCode(p.country.value).Some? &&
             p.radius.Some? && p.location.None?) ==> Build(p).result == Err(LocationHasNoLower)
    ensures (p.keywords.Some? && p.country.Some? && RegionCode(p.country.value).Some? &&
             !(p.radius.Some? && p.location.None?) && !SortValid(p.sortBy)) ==> Build(p).result == Err(InvalidSortBy)
    ensures (p.keywords.Some? && p.country.Some? && RegionCode(p.country.value).Some? &&
             !(p.radius.Some? && p.location.None?) && SortValid(p.sortBy) &&
             p.pageNumber.Some? && p.pageNumber.value < 1) ==> Build(p).result == Err(PageOffsetUnbound)
    // nothing is written to self.url before the country has been resolved
    ensures Build(p).lastWrite.None? <==>
              p.keywords.None? || p.country.None? || RegionCode(p.country.value).None?
    // every value written starts with the host of the country and the encoded keywords
    ensures Build(p).lastWrite.Some? ==>
              StartsWith(Build(p).lastWrite.value, "https://www.indeed." + p.country.value + "/jobs?q=" +
                                            EncodeSpaces(p.keywords.value))
    // a returned URL is the last value written, with its terms in the order q, l, radius, sort, start
    ensures Build(p).result.Ok? ==> Build(p).lastWrite == Some(Build(p).result.value)
    ensures Build(p).result.Ok? ==>
              Build(p).result.value == BaseUrl(p.country.value, p.keywords.value) + LocationTerm(p.location) +
                                RadiusTerm(p.radius, p.location) + SortTerm(p.sortBy) +
                                StartTerm(p.pageNumber)
  {
  }

  /** Called with its defaults the builder raises for the missing keywords; given keywords and
      a known country but no location, the default radius of 50 reaches `location.lower()`
      and raises once the base URL has been written. */
  lemma DefaultsRaise(keywords: string, country: string)
    ensures Build(DefaultParams()) == Built(Err(KeywordsRequired), None)
    ensures RegionCode(country).Some? ==>
              Build(DefaultParams().(keywords := Some(keywords), country := Some(country))) ==
                Built(Err(LocationHasNoLower), Some(BaseUrl(country, keywords)))
  {
    if RegionCode(country).Some? {
      assert RegionCode(country).value == country;
    }
  }

  /** A location term is present exactly when a location is given, and then carries it verbatim. */
  lemma LocationTermPresent(location: Option<string>)
    ensures StartsWith(LocationTerm(location), "&l=") <==> location.Some?
    ensures location.Some? ==> LocationTerm(location)[3..] == location.value
  {
  }

  /** A radius is sent only for a given, non-remote location; a remote search (in any letter
      case) never carries one. */
  lemma RadiusTermPresent(radius: Option<int>, location: Option<string>)
    ensures RadiusTerm(radius, location) != "" <==>
              radius.Some? && location.Some? && Lower(location.value) != "remote"
    ensures location.Some? && Lower(location.value) == "remote" ==> RadiusTerm(radius, location) == ""
  {
  }

  /** The URL for a page is the URL without a page, followed by the start term of that page. */
  lemma PageUrl(p: QueryParams, n: int)
    requires Accepted(p.(pageNumber := None)) && n >= 1
    ensures Accepted(p.(pageNumber := Some(n)))
    ensures Build(p.(pageNumber := Some(n))).result.value ==
              Build(p.(pageNumber := None)).result.value + "&start=" + NatToString(StartOffset(n))
  {
    BuildOutcome(p.(pageNumber := Some(n)));
    BuildOutcome(p.(pageNumber := None));
  }

  /** Different pages give different URLs. */
  lemma {:induction false} PageUrlsDistinct(p: QueryParams, n: int, m: int)
    requires Accepted(p.(pageNumber := None)) && n >= 1 && m >= 1 && n != m
    ensures Build(p.(pageNumber := Some(n))).result.value != Build(p.(pageNumber := Some(m))).result.value
  {
    PageUrl(p, n);
    PageUrl(p, m);
    var prefix := Build(p.(pageNumber := None)).result.value + "&start=";
    var sn, sm := NatToString(StartOffset(n)), NatToString(StartOffset(m));
    StartOffsetAddressesPage(n);
    StartOffsetAddressesPage(m);
    ParseNatToString(StartOffset(n));
    ParseNatToString(StartOffset(m));
    assert sn != sm;
    assert (prefix + sn)[|prefix|..] == sn;
    assert (prefix + sm)[|prefix|..] == sm;
  }
}
