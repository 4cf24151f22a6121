/** The Kiwix catalogue (internal/core/kiwix.go): the download link, size
    and issue date of a catalogue entry, the expected local path of its ZIM
    file, the cache-validity rule and the request defaults. The OPDS feed
    arrives decoded, the cache as read, and RFC 3339 parsing is a parameter. */
module Kiwix {

  import opened Wrappers
  import opened Strings
  import Paths

  // ---------------------------------------------------------------------
  // Time

  type Month = m: int | 1 <= m <= 12 witness 1

  /** A parsed time: the instant it denotes (for ordering, in nanoseconds)
      and the year and month of its own calendar (for formatting). */
  datatype Time = Time(instant: int, year: int, month: Month)

  /** Go's zero `time.Time`: January of year 1, at the earliest instant any
      parsed catalogue date can have. */
  const ZeroInstant := -62135596800 * 1000000000
  const ZeroTime := Time(ZeroInstant, 1, 1)

  /** `time.Parse(time.RFC3339, s)`: a time, or None when `s` does not
      parse. */
  type Parser = string -> Option<Time>

  /** `t.After(u)`. */
  predicate After(t: Time, u: Time) {
    t.instant > u.instant
  }

  /** The year as the layout "2006" prints it: at least four digits, and a
      minus sign for years before year 0. */
  function YearText(year: int): (r: string)
    ensures 0 <= year <= 9999 ==> |r| == 4
  {
    assert Pow10(4) == 10000;
    PadNatFits(year, 4);
    if year < 0 then "-" + PadNat(-year, 4) else PadNat(year, 4)
  }

  /** `t.Format("2006-01")`. */
  function YearMonth(t: Time): (r: string)
    ensures 0 <= t.year <= 9999 ==> |r| == 7 && r[4] == '-'
  {
    assert Pow10(2) == 100;
    PadNatFits(t.month, 2);
    YearText(t.year) + "-" + PadNat(t.month, 2)
  }

  // ---------------------------------------------------------------------
  // Entries

  datatype KiwixLink = KiwixLink(rel: string, href: string, mediaType: string, length: int)

  datatype KiwixEntry = KiwixEntry(
    id: string,
    title: string,
    updated: string,
    summary: string,
    language: string,
    name: string,
    flavour: string,
    category: string,
    tags: string,
    articleCount: int,
    mediaCount: int,
    author: string,
    publisher: string,
    issued: string,
    links: seq<KiwixLink>)

  const OpenAccess := "http://opds-spec.org/acquisition/open-access"
  const ZimType := "application/x-zim"

  predicate IsOpenAccess(link: KiwixLink) {
    link.rel == OpenAccess
  }

  predicate IsZimDownload(link: KiwixLink) {
    link.rel == OpenAccess && link.mediaType == ZimType
  }

  /** The index of the first link with `IsOpenAccess`, or of the first with
      `IsZimDownload` when `zim` is set. */
  function FirstLink(links: seq<KiwixLink>, zim: bool): (r: Option<nat>)
    ensures r.Some? ==> r.value < |links|
                        && (if zim then IsZimDownload(links[r.value]) else IsOpenAccess(links[r.value]))
    ensures r.Some? ==> forall j :: 0 <= j < r.value ==>
                          !(if zim then IsZimDownload(links[j]) else IsOpenAccess(links[j]))
    ensures r.None? ==> forall j :: 0 <= j < |links| ==>
                          !(if zim then IsZimDownload(links[j]) else IsOpenAccess(links[j]))
    decreases |links|
  {
    if links == [] then None
    else if (if zim then IsZimDownload(links[0]) else IsOpenAccess(links[0])) then Some(0)
    else match FirstLink(links[1..], zim)
      case None => None
      case Some(i) => Some(i + 1)
  }

  const Meta4 := ".meta4"

  /** `GetDownloadURL`: the first open-access ZIM link with its ".meta4"
      suffix removed, or "" when the entry has none. */
  function GetDownloadURL(entry: KiwixEntry): string {
    match FirstLink(entry.links, true)
    case None => ""
    case Some(i) => TrimSuffix(entry.links[i].href, Meta4)
  }

  /** The download URL is the first open-access ZIM link's href, and putting
      ".meta4" back onto a stripped URL gives the href again. */
  lemma DownloadURLFromLink(entry: KiwixEntry)
    ensures FirstLink(entry.links, true).None? ==> GetDownloadURL(entry) == ""
    ensures var i := FirstLink(entry.links, true);
            i.Some? ==>
              var href := entry.links[i.value].href;
              (HasSuffix(href, Meta4) ==> GetDownloadURL(entry) + Meta4 == href)
              && (!HasSuffix(href, Meta4) ==> GetDownloadURL(entry) == href)
  {
    var i := FirstLink(entry.links, true);
    if i.Some? {
      var href := entry.links[i.value].href;
      if HasSuffix(href, Meta4) {
        assert href == href[..|href| - |Meta4|] + href[|href| - |Meta4|..];
      }
    }
  }

  /** `GetFileSize`: the length of the first open-access link of any type,
      or 0. */
  function GetFileSize(entry: KiwixEntry): int {
    match FirstLink(entry.links, false)
    case None => 0
    case Some(i) => entry.links[i].length
  }

  /** The size and the download URL come from the same link exactly when
      the first open-access link is the ZIM one; an entry with no
      open-access link has size 0 and no URL. */
  lemma SizeAndURLSameLink(entry: KiwixEntry)
    ensures FirstLink(entry.links, false).None? ==>
              GetFileSize(entry) == 0 && GetDownloadURL(entry) == ""
    ensures FirstLink(entry.links, false).Some? ==>
              (FirstLink(entry.links, true) == FirstLink(entry.links, false)
               <==> entry.links[FirstLink(entry.links, false).value].mediaType == ZimType)
  {
    var a := FirstLink(entry.links, false);
    var z := FirstLink(entry.links, true);
    if a.None? {
      assert z.Some? ==> IsOpenAccess(entry.links[z.value]);
    }
  }

  /** `GetIssuedDate`: `Issued` when it parses, otherwise `Updated` when it
      parses, otherwise the zero time. */
  function GetIssuedDate(entry: KiwixEntry, parse: Parser): (r: Time)
    ensures r == ZeroTime || (entry.issued != "" && parse(entry.issued) == Some(r))
                          || (entry.updated != "" && parse(entry.updated) == Some(r))
    ensures entry.issued != "" && parse(entry.issued).Some? ==> r == parse(entry.issued).value
    ensures (entry.issued == "" || parse(entry.issued).None?) && entry.updated != "" && parse(entry.updated).Some?
            ==> r == parse(entry.updated).value
  {
    if entry.issued != "" && parse(entry.issued).Some? then parse(entry.issued).value
    else if entry.updated != "" && parse(entry.updated).Some? then parse(entry.updated).value
    else ZeroTime
  }

  /** An entry with neither date parseable is dated the zero time. */
  lemma UndatedEntry(entry: KiwixEntry, parse: Parser)
    requires entry.issued == "" || parse(entry.issued).None?
    requires entry.updated == "" || parse(entry.updated).None?
    ensures GetIssuedDate(entry, parse) == ZeroTime
  {
  }

  // ---------------------------------------------------------------------
  // Paths

  const DefaultBase := "Kiwix"

  function BaseDir(basePath: string): (r: string)
    ensures r != []
  {
    if basePath == "" then DefaultBase else basePath
  }

  /** The ZIM file name: "<name>_<flavour>_<YYYY-MM>.zim", or
      "<name>_<YYYY-MM>.zim" without a flavour. */
  function ZimFileName(entry: KiwixEntry, parse: Parser): (r: string)
    ensures r != []
  {
    var dateStr := YearMonth(GetIssuedDate(entry, parse));
    if entry.flavour != "" then entry.name + "_" + entry.flavour + "_" + dateStr + ".zim"
    else entry.name + "_" + dateStr + ".zim"
  }

  /** `GetExpectedKiwixPath`: the file name under the base directory, in a
      sub-directory named after the category when there is one. */
  function GetExpectedKiwixPath(entry: KiwixEntry, basePath: string, parse: Parser): string {
    var base := BaseDir(basePath);
    var dir := if entry.category != "" then Paths.JoinPath([base, entry.category]) else base;
    Paths.JoinPath([dir, ZimFileName(entry, parse)])
  }

  /** The path is "<base>/<category>/<file>" or, without a category,
      "<base>/<file>". */
  lemma KiwixPathShape(entry: KiwixEntry, basePath: string, parse: Parser)
    ensures entry.category != "" ==>
              GetExpectedKiwixPath(entry, basePath, parse)
              == BaseDir(basePath) + "/" + entry.category + "/" + ZimFileName(entry, parse)
    ensures entry.category == "" ==>
              GetExpectedKiwixPath(entry, basePath, parse)
              == BaseDir(basePath) + "/" + ZimFileName(entry, parse)
  {
    var base := BaseDir(basePath);
    if entry.category != "" {
      Paths.JoinPath2(base, entry.category);
      Paths.JoinPath2(base + "/" + entry.category, ZimFileName(entry, parse));
    } else {
      Paths.JoinPath2(base, ZimFileName(entry, parse));
    }
  }

  /** The file name of the ZIM records the month it was issued: an entry
      without a flavour ends in "_<YYYY-MM>.zim". */
  lemma ZimFileNameEndsWithMonth(entry: KiwixEntry, parse: Parser)
    requires entry.flavour == ""
    ensures HasSuffix(ZimFileName(entry, parse), "_" + YearMonth(GetIssuedDate(entry, parse)) + ".zim")
  {
    var d := YearMonth(GetIssuedDate(entry, parse));
    var f := ZimFileName(entry, parse);
    assert f == entry.name + ("_" + d + ".zim");
  }

  // ---------------------------------------------------------------------
  // The cache and the requests

  const NanosPerHour := 3600 * 1000000000
  const CacheTTL := 24 * NanosPerHour

  /** The cache file's content: when it was written, the entries and the
      filters they were fetched with. */
  datatype KiwixCache = KiwixCache(timestamp: int, entries: seq<KiwixEntry>, language: string, category: string)

  /** `loadKiwixCache`: the first `limit` entries of a cache read at `now`,
      if it is at most 24 hours old, was fetched for the same language and
      category and holds at least `limit` entries. `None` stands for a
      cache that is missing or unreadable. */
  function LoadKiwixCache(cache: Option<KiwixCache>, now: int, language: string, category: string,
                          limit: nat): (r: Option<seq<KiwixEntry>>)
    ensures r.Some? <==> cache.Some? && now - cache.value.timestamp <= CacheTTL
                         && cache.value.language == language && cache.value.category == category
                         && |cache.value.entries| >= limit
    ensures r.Some? ==> |r.value| == limit && r.value == cache.value.entries[..limit]
  {
    match cache
    case None => None
    case Some(c) =>
      if now - c.timestamp > CacheTTL then None
      else if c.language != language || c.category != category then None
      else if |c.entries| < limit then None
      else Some(c.entries[..limit])
  }

  const DefaultLanguage := "eng"
  const DefaultLimit := 100

  /** The query parameters of a catalogue request; an absent parameter is
      not sent. */
  datatype Query = Query(count: int, lang: Option<string>, category: Option<string>, q: Option<string>)

  /** The language and limit `FetchKiwixEntries` works with: "eng" for an
      empty language, 100 for a non-positive limit. */
  function FetchDefaults(language: string, limit: int): (r: (string, nat))
    ensures r.0 != "" && r.1 > 0
    ensures language != "" ==> r.0 == language
    ensures limit > 0 ==> r.1 == limit
  {
    (if language == "" then DefaultLanguage else language, if limit <= 0 then DefaultLimit else limit)
  }

  /** The query `FetchKiwixEntries` sends: the defaulted count and language,
      and the category when one is given. */
  function FetchQuery(language: string, category: string, limit: int): (r: Query)
    ensures r.count > 0 && r.lang.Some? && r.q.None?
    ensures r.category.Some? <==> category != ""
  {
    var d := FetchDefaults(language, limit);
    Query(d.1, Some(d.0), if category != "" then Some(category) else None, None)
  }

  /** The query `SearchKiwixEntries` sends: the defaulted count, the search
      text, and the language only when one is given (a search does not
      default the language). */
  function SearchQuery(query: string, language: string, limit: int): (r: Query)
    ensures r.count > 0 && (limit > 0 ==> r.count == limit)
    ensures r.q == Some(query) && r.category.None?
    ensures r.lang.Some? <==> language != ""
  {
    Query(if limit <= 0 then DefaultLimit else limit, if language != "" then Some(language) else None,
          None, Some(query))
  }

  /** One catalogue request: it could not be built, it failed, it got a
      status other than 200, the feed did not decode, or the decoded feed's
      entries. */
  datatype FeedResponse =
    | CreateFailed(createError: string)
    | FetchFailed(fetchError: string)
    | BadStatus(code: int)
    | DecodeFailed(decodeError: string)
    | Feed(entries: seq<KiwixEntry>)

  /** `FetchKiwixEntries`: a matching fresh cache answers; otherwise the
      feed's entries, which are also saved (stamped `savedAt`) with the
      defaulted language and the category. The second component is the
      cache written, if any. */
  function FetchKiwixEntries(language: string, category: string, limit: int,
                             cache: Option<KiwixCache>, now: int,
                             resp: FeedResponse, savedAt: int): (r: (Result<seq<KiwixEntry>>, Option<KiwixCache>))
    ensures var d := FetchDefaults(language, limit);
            var c := LoadKiwixCache(cache, now, d.0, category, d.1);
            (c.Some? ==> r == (Ok(c.value), None))
            && (c.None? ==> (r.0.Ok? <==> resp.Feed?) && (r.1.Some? <==> resp.Feed?))
            && (c.None? && resp.Feed? ==>
                  r == (Ok(resp.entries), Some(KiwixCache(savedAt, resp.entries, d.0, category))))
  {
    var d := FetchDefaults(language, limit);
    match LoadKiwixCache(cache, now, d.0, category, d.1)
    case Some(entries) => (Ok(entries), None)
    case None =>
      match resp
      case CreateFailed(e) => (Err("failed to create request: " + e), None)
      case FetchFailed(e) => (Err("failed to fetch Kiwix catalog: " + e), None)
      case BadStatus(code) => (Err("kiwix API returned status " + IntToString(code)), None)
      case DecodeFailed(e) => (Err("failed to decode Kiwix feed: " + e), None)
      case Feed(entries) => (Ok(entries), Some(KiwixCache(savedAt, entries, d.0, category)))
  }

  /** A fetch that saved its entries is answered from the cache by the same
      request repeated within 24 hours, as long as the feed held at least
      the limit: the repeat yields the first `limit` of those entries. */
  lemma FetchThenCached(language: string, category: string, limit: int, cache: Option<KiwixCache>,
                        now: int, resp: FeedResponse, savedAt: int,
                        later: int, resp2: FeedResponse, savedAt2: int)
    requires FetchKiwixEntries(language, category, limit, cache, now, resp, savedAt).1.Some?
    requires later - savedAt <= CacheTTL
    requires |resp.entries| >= FetchDefaults(language, limit).1
    ensures var saved := FetchKiwixEntries(language, category, limit, cache, now, resp, savedAt).1;
            FetchKiwixEntries(language, category, limit, saved, later, resp2, savedAt2)
            == (Ok(resp.entries[..FetchDefaults(language, limit).1]), None)
  {
  }

  /** `SearchKiwixEntries`: the feed's entries, uncached. */
  function SearchKiwixEntries(resp: FeedResponse): (r: Result<seq<KiwixEntry>>)
    ensures r.Ok? <==> resp.Feed?
    ensures resp.Feed? ==> r.value == resp.entries
    ensures resp.FetchFailed? ==> r == Err("failed to search Kiwix catalog: " + resp.fetchError)
  {
    match resp
    case CreateFailed(e) => Err("failed to create request: " + e)
    case FetchFailed(e) => Err("failed to search Kiwix catalog: " + e)
    case BadStatus(code) => Err("kiwix API returned status " + IntToString(code))
    case DecodeFailed(e) => Err("failed to decode Kiwix feed: " + e)
    case Feed(entries) => Ok(entries)
  }
}
