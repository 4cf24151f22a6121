/** The Project Gutenberg catalogue (internal/core/gutenberg.go): slugs and
    expected paths of books, link selection, the cache-validity rule and the
    pagination of the "top books" listing. HTTP, JSON and the cache file are
    inputs: the server's responses in request order and the cache as read. */
module Gutenberg {

  import opened Wrappers
  import opened Strings
  import Paths
  import Config

  datatype Author = Author(name: string, birthYear: Option<int>, deathYear: Option<int>)

  datatype Book = Book(
    id: int,
    title: string,
    authors: seq<Author>,
    subjects: seq<string>,
    bookshelves: seq<string>,
    languages: seq<string>,
    copyright: Option<bool>,
    mediaType: string,
    formats: map<string, string>,
    downloadCount: int)

  // ---------------------------------------------------------------------
  // Slugs

  /** The characters the slug pattern keeps: `[a-z0-9]`. */
  predicate SlugChar(c: char) {
    'a' <= c <= 'z' || '0' <= c <= '9'
  }

  /** Only slug characters and underscores. */
  predicate SlugText(s: string) {
    forall i :: 0 <= i < |s| ==> SlugChar(s[i]) || s[i] == '_'
  }

  /** No two underscores in a row. */
  predicate NoDoubleUnderscore(s: string) {
    forall i, j :: 0 <= i < |s| && 0 <= j < |s| && j == i + 1 ==> s[i] != '_' || s[j] != '_'
  }

  /** The text after a run of non-slug characters. */
  function SkipRun(s: string): (r: string)
    ensures |r| <= |s| && r == s[|s| - |r|..]
    ensures r == [] || SlugChar(r[0])
    decreases |s|
  {
    if s != [] && !SlugChar(s[0]) then SkipRun(s[1..]) else s
  }

  /** `[^a-z0-9]+` replaced by "_": every maximal run of other characters
      becomes one underscore. */
  function Collapse(s: string): (r: string)
    ensures SlugText(r) && NoDoubleUnderscore(r)
    ensures r == [] <==> s == []
    ensures r != [] ==> (r[0] == '_' <==> !SlugChar(s[0]))
    decreases |s|
  {
    if s == [] then []
    else if SlugChar(s[0]) then
      var rest := Collapse(s[1..]);
      SlugCons(s[0], rest);
      [s[0]] + rest
    else
      var rest := Collapse(SkipRun(s[1..]));
      SlugCons('_', rest);
      "_" + rest
  }

  /** A letter, digit or underscore in front of a slug text, when it does
      not put two underscores together, gives a slug text. */
  lemma SlugCons(c: char, r: string)
    requires SlugChar(c) || c == '_'
    requires SlugText(r) && NoDoubleUnderscore(r)
    requires c == '_' ==> r == [] || r[0] != '_'
    ensures SlugText([c] + r) && NoDoubleUnderscore([c] + r)
  {
    var t := [c] + r;
    assert forall i :: 1 <= i < |t| ==> t[i] == r[i - 1];
  }

  /** The slug characters of a text, in order. */
  function SlugLetters(s: string): string
    decreases |s|
  {
    if s == [] then [] else (if SlugChar(s[0]) then [s[0]] else []) + SlugLetters(s[1..])
  }

  lemma {:induction false} SlugLettersAppend(a: string, b: string)
    ensures SlugLetters(a + b) == SlugLetters(a) + SlugLetters(b)
    decreases |a|
  {
    if a == [] {
      assert a + b == b;
    } else {
      var h := if SlugChar(a[0]) then [a[0]] else [];
      assert (a + b)[0] == a[0] && (a + b)[1..] == a[1..] + b;
      SlugLettersAppend(a[1..], b);
      calc {
        SlugLetters(a + b);
        h + SlugLetters(a[1..] + b);
        h + (SlugLetters(a[1..]) + SlugLetters(b));
        (h + SlugLetters(a[1..])) + SlugLetters(b);
      }
    }
  }

  lemma {:induction false} SkipRunLetters(s: string)
    ensures SlugLetters(SkipRun(s)) == SlugLetters(s)
    decreases |s|
  {
    if s != [] && !SlugChar(s[0]) {
      SkipRunLetters(s[1..]);
    }
  }

  /** Collapsing loses no letter or digit and adds none: the underscores
      are the only change. */
  lemma {:induction false} CollapseKeepsLetters(s: string)
    ensures SlugLetters(Collapse(s)) == SlugLetters(s)
    decreases |s|
  {
    if s != [] {
      if SlugChar(s[0]) {
        CollapseKeepsLetters(s[1..]);
        SlugLettersAppend([s[0]], Collapse(s[1..]));
      } else {
        var rest := SkipRun(s[1..]);
        CollapseKeepsLetters(rest);
        SkipRunLetters(s[1..]);
        SlugLettersAppend("_", Collapse(rest));
      }
    }
  }

  lemma SliceKeepsSlug(s: string, a: nat, b: nat)
    requires a <= b <= |s| && SlugText(s) && NoDoubleUnderscore(s)
    ensures SlugText(s[a..b]) && NoDoubleUnderscore(s[a..b])
  {
    var t := s[a..b];
    assert forall i :: 0 <= i < |t| ==> t[i] == s[a + i];
  }

  /** `strings.Trim(s, "_")` on a collapsed text. */
  function TrimUnderscores(c: string): (r: string)
    requires SlugText(c) && NoDoubleUnderscore(c)
    ensures SlugText(r) && NoDoubleUnderscore(r)
    ensures r == [] || (r[0] != '_' && r[|r| - 1] != '_')
  {
    var left := TrimLeftSet(c, {'_'});
    SliceKeepsSlug(c, |c| - |left|, |c|);
    var t := TrimRightSet(left, {'_'});
    SliceKeepsSlug(left, 0, |t|);
    t
  }

  const MaxSlugLength := 50

  /** The cut to at most 50 characters. */
  function Cut(t: string): (r: string)
    requires SlugText(t) && NoDoubleUnderscore(t)
    ensures |r| <= MaxSlugLength && SlugText(r) && NoDoubleUnderscore(r)
    ensures |t| <= MaxSlugLength ==> r == t
    ensures r == t[..|r|]
  {
    if |t| > MaxSlugLength then
      SliceKeepsSlug(t, 0, MaxSlugLength);
      t[..MaxSlugLength]
    else t
  }

  /** `slugify`: lower-cased, runs of other characters made "_", outer
      underscores trimmed, cut to 50 bytes (the text is ASCII by then, so
      bytes and characters agree). */
  function Slugify(s: string): (r: string)
    ensures |r| <= MaxSlugLength
    ensures SlugText(r) && NoDoubleUnderscore(r)
    ensures r == [] || r[0] != '_'
  {
    Cut(TrimUnderscores(Collapse(Lower(s))))
  }

  lemma {:induction false} TrimLeftLetters(s: string)
    ensures SlugLetters(TrimLeftSet(s, {'_'})) == SlugLetters(s)
    decreases |s|
  {
    if s != [] && s[0] == '_' {
      TrimLeftLetters(s[1..]);
    }
  }

  lemma {:induction false} TrimRightLetters(s: string)
    ensures SlugLetters(TrimRightSet(s, {'_'})) == SlugLetters(s)
    decreases |s|
  {
    if s != [] && s[|s| - 1] == '_' {
      var init := s[..|s| - 1];
      TrimRightLetters(init);
      assert s == init + "_";
      SlugLettersAppend(init, "_");
    }
  }

  /** Trimming the outer underscores keeps every letter and digit. */
  lemma TrimUnderscoresLetters(c: string)
    requires SlugText(c) && NoDoubleUnderscore(c)
    ensures SlugLetters(TrimUnderscores(c)) == SlugLetters(c)
  {
    var left := TrimLeftSet(c, {'_'});
    TrimLeftLetters(c);
    TrimRightLetters(left);
  }

  /** The letters of a prefix are a prefix of the letters. */
  lemma PrefixLetters(t: string, n: nat)
    requires n <= |t|
    ensures SlugLetters(t[..n]) <= SlugLetters(t)
  {
    assert t == t[..n] + t[n..];
    SlugLettersAppend(t[..n], t[n..]);
  }

  /** The slug keeps the letters and digits of the lower-cased title in
      order, losing only those past the 50-character cut: all of them when
      the collapsed, trimmed text fits, which is then the slug itself. The
      slug is empty exactly when the title has no letter or digit. */
  lemma SlugifyKeepsLetters(s: string)
    ensures SlugLetters(Slugify(s)) <= SlugLetters(Lower(s))
    ensures |TrimUnderscores(Collapse(Lower(s)))| <= MaxSlugLength ==>
              Slugify(s) == TrimUnderscores(Collapse(Lower(s)))
              && SlugLetters(Slugify(s)) == SlugLetters(Lower(s))
    ensures Slugify(s) == [] <==> SlugLetters(Lower(s)) == []
  {
    var c := Collapse(Lower(s));
    var t := TrimUnderscores(c);
    var r := Slugify(s);
    CollapseKeepsLetters(Lower(s));
    TrimUnderscoresLetters(c);
    PrefixLetters(t, |r|);
    if r != [] {
      assert SlugChar(r[0]);
      assert SlugLetters(r)[0] == r[0];
    }
    if t != [] {
      assert SlugChar(t[0]);
      assert SlugLetters(t)[0] == t[0];
    }
  }

  /** A text that already has a slug's shape, with no trailing underscore,
      is its own slug. */
  lemma SlugifyFixed(t: string)
    requires SlugText(t) && NoDoubleUnderscore(t) && |t| <= MaxSlugLength
    requires t == [] || (t[0] != '_' && t[|t| - 1] != '_')
    ensures Slugify(t) == t
  {
    LowerFixed(t);
    CollapseFixed(t);
    TrimFixed(t);
  }

  lemma LowerFixed(t: string)
    requires SlugText(t)
    ensures Lower(t) == t
  {
  }

  lemma TrimFixed(t: string)
    requires SlugText(t) && NoDoubleUnderscore(t)
    requires t == [] || (t[0] != '_' && t[|t| - 1] != '_')
    ensures TrimUnderscores(t) == t
  {
    assert TrimLeftSet(t, {'_'}) == t;
    assert TrimRightSet(t, {'_'}) == t;
  }

  lemma {:induction false} CollapseFixed(t: string)
    requires SlugText(t) && NoDoubleUnderscore(t)
    ensures Collapse(t) == t
    decreases |t|
  {
    if t != [] {
      SliceKeepsSlug(t, 1, |t|);
      if !SlugChar(t[0]) {
        assert SkipRun(t[1..]) == t[1..];
      }
      CollapseFixed(t[1..]);
    }
  }

  /** A slug not cut in the middle of a run is stable: slugifying it again
      changes nothing. */
  lemma SlugifyIdempotent(s: string)
    requires var r := Slugify(s); r == [] || r[|r| - 1] != '_'
    ensures Slugify(Slugify(s)) == Slugify(s)
  {
    SlugifyFixed(Slugify(s));
  }

  // ---------------------------------------------------------------------
  // Books and paths

  const Epub := "application/epub+zip"

  /** `GetEPUB3URL`: the EPUB link, or "" when the book has none. */
  function GetEPUB3URL(book: Book): (r: string)
    ensures Epub in book.formats ==> r == book.formats[Epub]
    ensures Epub !in book.formats ==> r == ""
  {
    if Epub in book.formats then book.formats[Epub] else ""
  }

  /** `GetPrimaryAuthor`: the first author's name, or "Unknown". */
  function GetPrimaryAuthor(book: Book): (r: string)
    ensures book.authors != [] ==> r == book.authors[0].name
    ensures book.authors == [] ==> r == "Unknown"
  {
    if |book.authors| > 0 then book.authors[0].name else "Unknown"
  }

  const DefaultBase := "Gutenberg"

  function BaseDir(basePath: string): (r: string)
    ensures r != []
  {
    if basePath == "" then DefaultBase else basePath
  }

  /** The title part of a file name: the title's slug, or "book_<ID>" for a
      title with no letter or digit. */
  function TitleSlug(book: Book): (r: string)
    ensures r != [] && '/' !in r
  {
    var slug := Slugify(book.title);
    NoSlashInSlug(slug);
    NoSlashInNumber(book.id);
    if slug == "" then "book_" + IntToString(book.id) else slug
  }

  lemma NoSlashInSlug(s: string)
    requires SlugText(s)
    ensures '/' !in s
  {
  }

  lemma NoSlashEpub(stem: string)
    requires '/' !in stem
    ensures '/' !in stem + ".epub"
  {
    assert forall k :: 0 <= k < 5 ==> ".epub"[k] != '/';
  }

  lemma NoSlashInNumber(n: int)
    ensures '/' !in "book_" + IntToString(n) && '/' !in IntToString(n) + ".epub"
  {
    var d := NatToString(if n < 0 then -n else n);
    assert '/' !in d;
  }

  /** The author directory: the author's slug, with "unknown_author" in
      place of an empty slug or "unknown". */
  function AuthorDir(book: Book): (r: string)
    ensures r != [] && r != "unknown" && '/' !in r
  {
    var slug := Slugify(GetPrimaryAuthor(book));
    NoSlashInSlug(slug);
    UnknownAuthorName();
    if slug == "" || slug == "unknown" then "unknown_author" else slug
  }

  lemma UnknownAuthorName()
    ensures "unknown_author" != [] && "unknown_author" != "unknown" && '/' !in "unknown_author"
  {
    assert |"unknown_author"| == 14 && |"unknown"| == 7;
    assert forall k :: 0 <= k < 14 ==> "unknown_author"[k] != '/';
  }

  /** The file name under "by_id". */
  function IdFile(book: Book): (r: string)
    ensures r != [] && '/' !in r
  {
    NoSlashInNumber(book.id);
    IntToString(book.id) + ".epub"
  }

  /** The file name under every other scheme. */
  function TitleFile(book: Book): (r: string)
    ensures r != [] && '/' !in r
  {
    NoSlashEpub(TitleSlug(book));
    TitleSlug(book) + ".epub"
  }

  /** `GetExpectedPath`: "by_id" files a book as "<ID>.epub", "flat" as
      "<title>.epub", and "by_author" and every other scheme as
      "<author>/<title>.epub", all under the base directory. */
  function GetExpectedPath(book: Book, basePath: string, organization: string): string
  {
    var base := BaseDir(basePath);
    if organization == "by_id" then Paths.JoinPath([base, IdFile(book)])
    else if organization == "flat" then Paths.JoinPath([base, TitleFile(book)])
    else Paths.JoinPath([base, AuthorDir(book), TitleFile(book)])
  }

  lemma ByIdPath(book: Book, basePath: string)
    ensures GetExpectedPath(book, basePath, "by_id") == BaseDir(basePath) + "/" + IdFile(book)
  {
    Paths.JoinPath2(BaseDir(basePath), IdFile(book));
  }

  lemma FlatPath(book: Book, basePath: string)
    ensures GetExpectedPath(book, basePath, "flat") == BaseDir(basePath) + "/" + TitleFile(book)
  {
    assert "flat"[0] != "by_id"[0];
    Paths.JoinPath2(BaseDir(basePath), TitleFile(book));
  }

  /** "by_author" and every scheme other than "by_id" and "flat" file the
      book under its author. */
  lemma ByAuthorPath(book: Book, basePath: string, organization: string)
    requires organization != "by_id" && organization != "flat"
    ensures GetExpectedPath(book, basePath, organization)
            == BaseDir(basePath) + "/" + AuthorDir(book) + "/" + TitleFile(book)
  {
    Paths.JoinPath3(BaseDir(basePath), AuthorDir(book), TitleFile(book));
  }

  /** A book with no authors is filed under "unknown_author": its primary
      author "Unknown" slugs to "unknown", which is replaced. */
  lemma AnonymousAuthorDir(book: Book)
    requires book.authors == []
    ensures AuthorDir(book) == "unknown_author"
  {
    UnknownSlug();
  }

  lemma UnknownSlug()
    ensures Slugify("Unknown") == "unknown"
  {
    LowerUnknown();
    UnknownShape();
    SlugOfLowered("Unknown", "unknown");
  }

  /** A text whose lower-case form already has a slug's shape slugs to
      that form. */
  lemma SlugOfLowered(s: string, t: string)
    requires Lower(s) == t && SlugText(t) && NoDoubleUnderscore(t) && |t| <= MaxSlugLength
    requires t == [] || (t[0] != '_' && t[|t| - 1] != '_')
    ensures Slugify(s) == t
  {
    CollapseFixed(t);
    TrimFixed(t);
  }

  lemma UnknownShape()
    ensures SlugText("unknown") && NoDoubleUnderscore("unknown")
  {
    var u := "unknown";
    assert u == ['u', 'n', 'k', 'n', 'o', 'w', 'n'];
  }

  lemma LowerUnknown()
    ensures Lower("Unknown") == "unknown"
  {
  }

  /** Under "by_id" two different books never share a path. */
  lemma ByIdPathsDistinct(a: Book, b: Book, basePath: string)
    requires a.id != b.id
    ensures GetExpectedPath(a, basePath, "by_id") != GetExpectedPath(b, basePath, "by_id")
  {
    ByIdPath(a, basePath);
    ByIdPath(b, basePath);
    var pre := BaseDir(basePath) + "/";
    var x, y := IntToString(a.id), IntToString(b.id);
    if pre + IdFile(a) == pre + IdFile(b) {
      assert (pre + IdFile(a))[|pre|..] == IdFile(a);
      assert (pre + IdFile(b))[|pre|..] == IdFile(b);
      assert IdFile(a)[..|x|] == x && IdFile(b)[..|y|] == y;
      IntToStringInjective(a.id, b.id);
    }
  }

  /** The last element of every expected path is the book's file name,
      whatever the base directory holds. */
  lemma ByIdPathBase(book: Book, basePath: string)
    ensures Paths.Base(GetExpectedPath(book, basePath, "by_id")) == IdFile(book)
  {
    ByIdPath(book, basePath);
    Paths.BaseAfterSlash(BaseDir(basePath), IdFile(book));
  }

  lemma TitlePathBase(book: Book, basePath: string, organization: string)
    requires organization != "by_id"
    ensures Paths.Base(GetExpectedPath(book, basePath, organization)) == TitleFile(book)
  {
    if organization == "flat" {
      FlatPath(book, basePath);
      Paths.BaseAfterSlash(BaseDir(basePath), TitleFile(book));
    } else {
      ByAuthorPath(book, basePath, organization);
      Paths.BaseAfterSlash(BaseDir(basePath) + "/" + AuthorDir(book), TitleFile(book));
    }
  }

  /** `BookToSource`: a download source named after the book, fetched with
      the "gutenberg" strategy from the EPUB link. */
  function BookToSource(book: Book): (r: Config.Source)
    ensures r.id == "gutenberg-" + IntToString(book.id) && r.name == book.title
    ensures r.strategy == "gutenberg" && r.url == GetEPUB3URL(book)
  {
    Config.Source("gutenberg-" + IntToString(book.id), book.title, "gutenberg", map[], "", "", [],
                  "", GetEPUB3URL(book), false, map[], map[], map[])
  }

  /** Distinct books become sources with distinct IDs. */
  lemma BookSourceIdsDistinct(a: Book, b: Book)
    requires a.id != b.id
    ensures BookToSource(a).id != BookToSource(b).id
  {
    var x, y := IntToString(a.id), IntToString(b.id);
    if "gutenberg-" + x == "gutenberg-" + y {
      assert ("gutenberg-" + x)[10..] == x && ("gutenberg-" + y)[10..] == y;
      IntToStringInjective(a.id, b.id);
    }
  }

  // ---------------------------------------------------------------------
  // The cache

  const NanosPerHour := 3600 * 1000000000
  const CacheTTL := 24 * NanosPerHour

  /** The cache file's content: when it was written and the books. */
  datatype BookCache = BookCache(timestamp: int, books: seq<Book>)

  /** `loadCache`: the first `limit` books of a cache read at `now` (an
      integer clock in nanoseconds), if it is at most 24 hours old and holds
      at least `limit` books. `None` stands for a cache that is missing or
      unreadable. */
  function LoadCache(cache: Option<BookCache>, now: int, limit: nat): (r: Option<seq<Book>>)
    ensures r.Some? <==> cache.Some? && now - cache.value.timestamp <= CacheTTL
                         && |cache.value.books| >= limit
    ensures r.Some? ==> |r.value| == limit && r.value == cache.value.books[..limit]
  {
    match cache
    case None => None
    case Some(c) =>
      if now - c.timestamp > CacheTTL then None
      else if |c.books| < limit then None
      else Some(c.books[..limit])
  }

  // ---------------------------------------------------------------------
  // Fetching the top books

  const DefaultLimit := 100
  const GutendexBaseURL := "https://gutendex.com/books"

  /** The first page of the popular listing for a language. */
  function TopBooksURL(language: string): (r: string)
    ensures r != [] && HasPrefix(r, GutendexBaseURL)
  {
    GutendexBaseURL + "?languages=" + language + "&sort=popular"
  }

  /** One request: it could not be built, it failed, it got a status other
      than 200, its body did not decode, or it got a page of results with
      the link to the next page. */
  datatype Response =
    | CreateFailed(createError: string)
    | FetchFailed(fetchError: string)
    | BadStatus(code: int)
    | DecodeFailed(decodeError: string)
    | Page(results: seq<Book>, next: Option<string>)

  /** The error `FetchTopBooks` returns for a failed request. */
  function ResponseError(resp: Response): string
    requires !resp.Page?
  {
    match resp
    case CreateFailed(e) => "failed to create request: " + e
    case FetchFailed(e) => "failed to fetch books: " + e
    case BadStatus(code) => "gutendex API returned status " + IntToString(code)
    case DecodeFailed(e) => "failed to decode response: " + e
  }

  /** The URL a page links to next; "" when there is none. */
  function NextURL(resp: Response): string
    requires resp.Page?
  {
    if resp.next.Some? then resp.next.value else ""
  }

  /** A response after which no further request is made whatever the count:
      a failure, or a page without a next link. */
  predicate Ends(resp: Response) {
    !resp.Page? || NextURL(resp) == ""
  }

  /** The responses the server gives, in request order, ending with one that
      ends the listing (a listing that never ends is not modelled). */
  predicate Listing(pages: seq<Response>) {
    |pages| > 0 && Ends(pages[|pages| - 1])
  }

  /** The books of the first `n` responses, in order. */
  function Collected(pages: seq<Response>, n: nat): seq<Book>
    requires n <= |pages|
  {
    if n == 0 then []
    else Collected(pages, n - 1) + (if pages[n - 1].Page? then pages[n - 1].results else [])
  }

  /** Fetching stops after response `k`: it failed, it was the last page,
      or enough books have arrived. */
  predicate StopsAt(pages: seq<Response>, limit: nat, k: nat)
    requires k < |pages|
  {
    Ends(pages[k]) || |Collected(pages, k + 1)| >= limit
  }

  /** The first response from `i` on after which fetching stops. */
  function FirstStop(pages: seq<Response>, limit: nat, i: nat): (k: nat)
    requires Listing(pages) && i < |pages|
    ensures i <= k < |pages| && StopsAt(pages, limit, k)
    ensures forall j :: i <= j < k ==> !StopsAt(pages, limit, j)
    decreases |pages| - i
  {
    if StopsAt(pages, limit, i) then i else FirstStop(pages, limit, i + 1)
  }

  function Truncate<T>(s: seq<T>, n: nat): (r: seq<T>)
    ensures |r| <= n
  {
    if |s| > n then s[..n] else s
  }

  /** What the pagination loop returns for a positive limit: the error of
      the response it stopped at, or the books collected up to it, cut to
      the limit. */
  function TopBooks(pages: seq<Response>, limit: nat): Result<seq<Book>>
    requires Listing(pages)
  {
    var k := FirstStop(pages, limit, 0);
    if pages[k].Page? then Ok(Truncate(Collected(pages, k + 1), limit))
    else Err(ResponseError(pages[k]))
  }

  /** Fewer books than the limit only when the listing ran out: the page
      fetching stopped at had no next link. Otherwise exactly `limit` books,
      the first ones in the server's order. */
  lemma TopBooksCount(pages: seq<Response>, limit: nat)
    requires Listing(pages)
    ensures var r := TopBooks(pages, limit);
            var k := FirstStop(pages, limit, 0);
            r.Ok? ==> |r.value| <= limit
                      && (|r.value| < limit ==> NextURL(pages[k]) == "")
                      && r.value == Collected(pages, k + 1)[..|r.value|]
  {
  }

  /** The stop is the first response that stops: a response earlier than
      every stop and stopping itself is the one `FirstStop` finds. */
  lemma FirstStopIs(pages: seq<Response>, limit: nat, k: nat)
    requires Listing(pages) && k < |pages| && StopsAt(pages, limit, k)
    requires forall j :: 0 <= j < k ==> !StopsAt(pages, limit, j)
    ensures FirstStop(pages, limit, 0) == k
  {
  }

  /** The limit after defaulting: 100 for a non-positive one. */
  function EffectiveLimit(limit: int): (r: nat)
    ensures r > 0 && (limit > 0 ==> r == limit)
  {
    if limit <= 0 then DefaultLimit else limit
  }

  /** The URLs of the first `n` requests: the listing's first page, then
      each page's next link. */
  function Requested(language: string, pages: seq<Response>, n: nat): (r: seq<string>)
    requires n <= |pages| + 1
    requires forall j :: 0 <= j < n - 1 ==> pages[j].Page?
    ensures |r| == n
    ensures n > 0 ==> r[0] == TopBooksURL(language)
    ensures forall k :: 0 < k < n ==> r[k] == NextURL(pages[k - 1])
  {
    if n == 0 then []
    else if n == 1 then [TopBooksURL(language)]
    else Requested(language, pages, n - 1) + [NextURL(pages[n - 2])]
  }

  /** `FetchTopBooks`: a fresh enough cache with enough books answers;
      otherwise pages are fetched, following the next links, until enough
      books have arrived or the listing ends, and the result is cut to the
      limit and written to the cache (stamped `savedAt`). `urls` are the
      URLs requested, in order. The rate limiter's wait before each request
      does not change the result and is not modelled here. */
  method FetchTopBooks(language: string, limit: int, cache: Option<BookCache>, now: int,
                       pages: seq<Response>, savedAt: int)
    returns (r: Result<seq<Book>>, urls: seq<string>, saved: Option<BookCache>)
    requires Listing(pages)
    ensures var lim := EffectiveLimit(limit);
            LoadCache(cache, now, lim).Some? ==>
              r == Ok(LoadCache(cache, now, lim).value) && urls == [] && saved == None
    ensures var lim := EffectiveLimit(limit);
            LoadCache(cache, now, lim).None? ==>
              r == TopBooks(pages, lim)
              && (forall j :: 0 <= j < FirstStop(pages, lim, 0) ==> pages[j].Page?)
              && urls == Requested(language, pages, FirstStop(pages, lim, 0) + 1)
              && saved == (if r.Ok? then Some(BookCache(savedAt, r.value)) else None)
  {
    var lim := EffectiveLimit(limit);
    var cached := LoadCache(cache, now, lim);
    if cached.Some? {
      return Ok(cached.value), [], None;
    }
    r, urls := FetchPages(language, lim, pages);
    saved := if r.Ok? then Some(BookCache(savedAt, r.value)) else None;
  }

  /** The pagination loop of `FetchTopBooks`, for a positive limit. */
  method FetchPages(language: string, lim: nat, pages: seq<Response>)
    returns (r: Result<seq<Book>>, urls: seq<string>)
    requires Listing(pages) && lim > 0
    ensures r == TopBooks(pages, lim)
    ensures forall j :: 0 <= j < FirstStop(pages, lim, 0) ==> pages[j].Page?
    ensures urls == Requested(language, pages, FirstStop(pages, lim, 0) + 1)
  {
    var allBooks: seq<Book> := [];
    var nextURL := TopBooksURL(language);
    urls := [];
    var i := 0;
    while |allBooks| < lim && nextURL != ""
      invariant ReadUpTo(pages, lim, i)
      invariant allBooks == Collected(pages, i)
      invariant nextURL == NextRequest(language, pages, i)
      invariant urls == Requested(language, pages, i)
      decreases |pages| - i
    {
      ReadOn(pages, lim, i);
      RequestedStep(language, pages, i);
      urls := urls + [nextURL];
      if !pages[i].Page? {
        r := Err(ResponseError(pages[i]));
        ErrorExit(language, pages, lim, i);
        return;
      }
      allBooks := allBooks + pages[i].results;
      nextURL := NextURL(pages[i]);
      i := i + 1;
    }
    r := Ok(Truncate(allBooks, lim));
    PagesExit(language, pages, lim, i);
  }

  /** What `FetchPages` promises of its result and its requests. */
  ghost predicate Fetched(language: string, pages: seq<Response>, lim: nat, r: Result<seq<Book>>, urls: seq<string>)
    requires Listing(pages)
  {
    && r == TopBooks(pages, lim)
    && (forall j :: 0 <= j < FirstStop(pages, lim, 0) ==> pages[j].Page?)
    && urls == Requested(language, pages, FirstStop(pages, lim, 0) + 1)
  }

  /** Leaving the loop at a response that is not a page. */
  lemma ErrorExit(language: string, pages: seq<Response>, lim: nat, i: nat)
    requires Listing(pages) && i < |pages| && !pages[i].Page?
    requires forall j :: 0 <= j < i ==> pages[j].Page?
    requires forall j :: 0 <= j < i ==> !StopsAt(pages, lim, j)
    ensures Fetched(language, pages, lim, Err(ResponseError(pages[i])), Requested(language, pages, i + 1))
  {
    FirstStopIs(pages, lim, i);
  }

  /** Leaving the loop after `i` pages, with enough books or no next link. */
  lemma PagesExit(language: string, pages: seq<Response>, lim: nat, i: nat)
    requires Listing(pages) && lim > 0 && ReadUpTo(pages, lim, i)
    requires |Collected(pages, i)| >= lim || NextRequest(language, pages, i) == ""
    ensures Fetched(language, pages, lim, Ok(Truncate(Collected(pages, i), lim)), Requested(language, pages, i))
  {
    PagesDone(pages, lim, i);
  }

  /** The first `i` responses were pages, and none before the last of them
      stopped the loop. */
  ghost predicate ReadUpTo(pages: seq<Response>, lim: nat, i: nat) {
    && i <= |pages|
    && (forall j :: 0 <= j < i ==> pages[j].Page?)
    && (forall j :: 0 <= j < i - 1 ==> !StopsAt(pages, lim, j))
  }

  /** Going round the loop once more: there is a response to read, and the
      last page read did not stop the loop. */
  lemma ReadOn(pages: seq<Response>, lim: nat, i: nat)
    requires Listing(pages) && ReadUpTo(pages, lim, i)
    requires i > 0 ==> |Collected(pages, i)| < lim && NextURL(pages[i - 1]) != ""
    ensures i < |pages|
    ensures forall j :: 0 <= j < i ==> !StopsAt(pages, lim, j)
  {
  }

  /** One more request: the first one asks for the listing, each later
      one for the next link of the page before. */
  lemma RequestedStep(language: string, pages: seq<Response>, i: nat)
    requires i < |pages| && forall j :: 0 <= j < i ==> pages[j].Page?
    ensures Requested(language, pages, i + 1) == Requested(language, pages, i) + [NextRequest(language, pages, i)]
  {
  }

  /** The URL of request `i`: the listing's first page, then the next link
      of the page before. */
  function NextRequest(language: string, pages: seq<Response>, i: nat): string
    requires i <= |pages| && forall j :: 0 <= j < i ==> pages[j].Page?
  {
    if i == 0 then TopBooksURL(language) else NextURL(pages[i - 1])
  }

  /** The loop left with `i` pages read, each one a page, and no stop
      before the last: that page is the stop, and the result is the books
      collected, cut to the limit. */
  lemma PagesDone(pages: seq<Response>, lim: nat, i: nat)
    requires Listing(pages) && lim > 0 && 0 < i <= |pages|
    requires forall j :: 0 <= j < i ==> pages[j].Page?
    requires forall j :: 0 <= j < i - 1 ==> !StopsAt(pages, lim, j)
    requires |Collected(pages, i)| >= lim || NextURL(pages[i - 1]) == ""
    ensures FirstStop(pages, lim, 0) == i - 1
    ensures TopBooks(pages, lim) == Ok(Truncate(Collected(pages, i), lim))
  {
    FirstStopIs(pages, lim, i - 1);
  }
}
