/** The version checker of internal/core/checker.go: for a configured
    source and its local file, whether a newer release exists upstream.
    Everything the checker learns from the network, the file system and
    the regular-expression engine arrives as a parameter: a `Remote` holds
    the replies of the services and the compiled patterns, a `Folder` the
    directory the local file lives in. The two process-wide caches are the
    fields of the class `Checker`. */
module Checker {

  import opened Wrappers
  import opened Strings
  import opened Paths
  import Config
  import Kiwix

  // ---------------------------------------------------------------------
  // Results

  datatype Status = UpToDate | Newer | NotFound | Error

  datatype CheckResult = CheckResult(status: Status, current: string, latest: string,
                                     message: string, resolvedURL: string)

  function Failure(message: string): CheckResult {
    CheckResult(Error, "", "", message, "")
  }

  // ---------------------------------------------------------------------
  // parseRepo

  /** `parseRepo`: "owner/name" split at its only '/'. */
  function ParseRepo(repo: string): (r: Result<(string, string)>)
    ensures r.Ok? <==> Count(repo, '/') == 1
    ensures r.Ok? ==> r.value.0 + "/" + r.value.1 == repo && '/' !in r.value.0 && '/' !in r.value.1
    ensures r.Err? ==> r.error == "invalid repo format: " + repo
  {
    var parts := Split(repo, '/');
    SplitCount(repo, '/');
    SplitPieces(repo, '/');
    SplitJoin(repo, '/');
    if |parts| != 2 then Err("invalid repo format: " + repo)
    else
      assert Join(parts, "/") == parts[0] + "/" + parts[1];
      Ok((parts[0], parts[1]))
  }

  /** Splitting an owner and a name joined by '/' gives them back. */
  lemma ParseRepoJoin(owner: string, name: string)
    requires '/' !in owner && '/' !in name
    ensures ParseRepo(owner + "/" + name) == Ok((owner, name))
  {
    var repo := owner + "/" + name;
    assert repo == owner + ['/'] + name;
    IndexAfter(owner, '/', name);
    assert repo[..|owner|] == owner && repo[|owner| + 1..] == name;
    assert Split(name, '/') == [name];
  }

  // ---------------------------------------------------------------------
  // The verdict ladder

  /** The ladder every resolver ends with: the file the remote release
      would be saved as is present, so the copy is current; otherwise a
      local file of an earlier version was recognised, so a newer one
      exists; otherwise nothing local is known. */
  function Ladder(present: bool, current: string, latest: string, message: string, url: string): (r: CheckResult)
    ensures r.status == UpToDate <==> present
    ensures r.status == Newer <==> !present && current != ""
    ensures r.status == NotFound <==> !present && current == ""
    ensures r.current == (if present then latest else current)
    ensures r.latest == latest && r.resolvedURL == url
    ensures r.message == (if r.status == Newer then message else "")
  {
    if present then CheckResult(UpToDate, latest, latest, "", url)
    else if current != "" then CheckResult(Newer, current, latest, message, url)
    else CheckResult(NotFound, "", latest, "", url)
  }

  // ---------------------------------------------------------------------
  // First matches

  /** The index of the first element that satisfies `p`. */
  function First<T>(xs: seq<T>, p: T -> bool): (r: Option<nat>)
    ensures r.Some? ==> r.value < |xs| && p(xs[r.value])
    ensures r.Some? ==> forall j :: 0 <= j < r.value ==> !p(xs[j])
    ensures r.None? ==> forall j :: 0 <= j < |xs| ==> !p(xs[j])
    decreases |xs|
  {
    if xs == [] then None
    else if p(xs[0]) then Some(0)
    else match First(xs[1..], p)
      case None => None
      case Some(k) => Some(k + 1)
  }

  /** The `for ... { if ... { ...; break } }` loops: a scan from the front
      that stops at the first element satisfying `p`. */
  method FindFirst<T>(xs: seq<T>, p: T -> bool) returns (r: Option<nat>)
    ensures r == First(xs, p)
  {
    var i := 0;
    while i < |xs|
      invariant i <= |xs|
      invariant forall j :: 0 <= j < i ==> !p(xs[j])
    {
      if p(xs[i]) {
        return Some(i);
      }
      i := i + 1;
    }
    return None;
  }

  // ---------------------------------------------------------------------
  // The local directory

  datatype DirEntry = DirEntry(name: string, isDir: bool)

  /** The directory of the local file: its listing (`os.ReadDir`, empty
      when the directory cannot be read) and the names `os.Stat` finds in
      it. The name "." stands for the directory itself, which is what
      `filepath.Join(dir, ".")` cleans to. */
  datatype Folder = Folder(entries: seq<DirEntry>, has: string -> bool)

  /** The entries the detection loops consider: files whose name `accept`s. */
  function FileWith(accept: string -> bool): DirEntry -> bool {
    (e: DirEntry) => !e.isDir && accept(e.name)
  }

  /** The local-version detection loops: the first file of the listing
      that `accept`s decides; its version is what `extract` finds in its
      name, or "" when it finds nothing. Later files are not looked at. */
  function LocalVersion(f: Folder, accept: string -> bool, extract: string -> Option<string>): (r: string)
    ensures r != "" ==> exists k :: 0 <= k < |f.entries| && FileWith(accept)(f.entries[k])
                                    && extract(f.entries[k].name) == Some(r)
  {
    match First(f.entries, FileWith(accept))
    case None => ""
    case Some(k) =>
      match extract(f.entries[k].name)
      case None => ""
      case Some(v) => v
  }

  /** The first accepted file fixes the version even when a later file
      would show one. */
  lemma FirstFileDecides(f: Folder, accept: string -> bool, extract: string -> Option<string>, k: nat)
    requires k < |f.entries| && FileWith(accept)(f.entries[k])
    requires forall j :: 0 <= j < k ==> !FileWith(accept)(f.entries[j])
    ensures LocalVersion(f, accept, extract)
            == (match extract(f.entries[k].name) case None => "" case Some(v) => v)
  {
    var r := First(f.entries, FileWith(accept));
    assert r.Some?;
    assert r.value == k by {
      if r.value < k {
      } else if r.value > k {
      }
    }
  }

  method DetectLocal(f: Folder, accept: string -> bool, extract: string -> Option<string>) returns (current: string)
    ensures current == LocalVersion(f, accept, extract)
  {
    current := "";
    var k := FindFirst(f.entries, FileWith(accept));
    if k.Some? {
      var m := extract(f.entries[k.value].name);
      if m.Some? {
        current := m.value;
      }
    }
  }

  /** A compiled regular expression: whether it matches a text, the
      leftmost match with its groups (`FindStringSubmatch`, empty when there
      is none) and every match with its groups (`FindAllStringSubmatch`). */
  datatype Pattern = Pattern(matches: string -> bool, submatch: string -> seq<string>,
                             all: string -> seq<seq<string>>)

  /** The text of the first group of the leftmost match, when there is a
      match and the pattern has a group. */
  function Group1(re: Pattern): string -> Option<string> {
    (name: string) => var m := re.submatch(name); if |m| > 1 then Some(m[1]) else None
  }

  function Always(v: string): string -> Option<string> {
    (_: string) => Some(v)
  }

  // ---------------------------------------------------------------------
  // String order and sorting (`sort.Strings`)

  /** `a <= b` in Go's string order: byte by byte, which on UTF-8 text is
      the order of code points. */
  predicate NoLater(a: string, b: string)
    decreases |a|
  {
    a == [] || (b != [] && (a[0] < b[0] || (a[0] == b[0] && NoLater(a[1..], b[1..]))))
  }

  lemma {:induction false} NoLaterReflexive(a: string)
    ensures NoLater(a, a)
    decreases |a|
  {
    if a != [] {
      NoLaterReflexive(a[1..]);
    }
  }

  lemma {:induction false} NoLaterTotal(a: string, b: string)
    ensures NoLater(a, b) || NoLater(b, a)
    decreases |a|
  {
    if a != [] && b != [] && a[0] == b[0] {
      NoLaterTotal(a[1..], b[1..]);
    }
  }

  lemma {:induction false} NoLaterTransitive(a: string, b: string, c: string)
    requires NoLater(a, b) && NoLater(b, c)
    ensures NoLater(a, c)
    decreases |a|
  {
    if a != [] && a[0] == b[0] && b[0] == c[0] {
      NoLaterTransitive(a[1..], b[1..], c[1..]);
    }
  }

  lemma {:induction false} NoLaterAntisymmetric(a: string, b: string)
    requires NoLater(a, b) && NoLater(b, a)
    ensures a == b
    decreases |a|
  {
    if a != [] {
      NoLaterAntisymmetric(a[1..], b[1..]);
      assert a == [a[0]] + a[1..] && b == [b[0]] + b[1..];
    }
  }

  predicate Ascending(s: seq<string>) {
    forall i, j :: 0 <= i < j < |s| ==> NoLater(s[i], s[j])
  }

  /** `x` placed into an ascending sequence. */
  function Insert(x: string, s: seq<string>): (r: seq<string>)
    requires Ascending(s)
    ensures Ascending(r)
    ensures multiset(r) == multiset(s) + multiset{x}
    decreases |s|
  {
    if s == [] then [x]
    else if NoLater(x, s[0]) then
      InsertFront(x, s);
      [x] + s
    else
      var t := Insert(x, s[1..]);
      NoLaterTotal(x, s[0]);
      InsertBehind(x, s, t);
      assert s == [s[0]] + s[1..];
      [s[0]] + t
  }

  lemma InsertFront(x: string, s: seq<string>)
    requires Ascending(s) && s != [] && NoLater(x, s[0])
    ensures Ascending([x] + s)
  {
    var r := [x] + s;
    forall i, j | 0 <= i < j < |r|
      ensures NoLater(r[i], r[j])
    {
      if i == 0 {
        if j > 1 {
          NoLaterTransitive(x, s[0], s[j - 1]);
        }
      }
    }
  }

  lemma InsertBehind(x: string, s: seq<string>, t: seq<string>)
    requires Ascending(s) && s != [] && NoLater(s[0], x)
    requires Ascending(t) && multiset(t) == multiset(s[1..]) + multiset{x}
    ensures Ascending([s[0]] + t)
  {
    var r := [s[0]] + t;
    forall i, j | 0 <= i < j < |r|
      ensures NoLater(r[i], r[j])
    {
      if i == 0 {
        var y := t[j - 1];
        assert y in multiset(t);
        if y != x {
          assert y in multiset(s[1..]);
          var k :| 0 <= k < |s[1..]| && s[1..][k] == y;
          assert s[k + 1] == y;
        }
      }
    }
  }

  /** `sort.Strings`: the ascending permutation. */
  function SortStrings(vs: seq<string>): (r: seq<string>)
    ensures Ascending(r)
    ensures multiset(r) == multiset(vs)
    decreases |vs|
  {
    if vs == [] then []
    else
      assert vs == [vs[0]] + vs[1..];
      Insert(vs[0], SortStrings(vs[1..]))
  }

  // ---------------------------------------------------------------------
  // What the checker learns from outside

  datatype Asset = Asset(name: string, downloadURL: string)
  datatype Release = Release(tagName: string, assets: seq<Asset>)

  /** The reply to a HEAD request: a transport error, or a status code and
      the Last-Modified header ("" when absent). */
  datatype HeadReply = HeadFailed(headError: string) | HeadStatus(code: int, lastModified: string)

  /** One Fedora CoreOS artifact: its release and, per format name, the
      location of its disk image. */
  datatype Artifact = Artifact(release: string, formats: map<string, string>)

  /** The Fedora CoreOS stream metadata: a failed request, a body that does
      not decode, or the artifacts per architecture and artifact name. */
  datatype FedoraReply =
    | MetaFailed(fetchError: string)
    | MetaUnparsed
    | Streams(architectures: map<string, map<string, Artifact>>)

  datatype FeedEntry = FeedEntry(name: string, flavour: string, issued: string)

  /** A Kiwix catalogue search: a failed request, a body that does not
      decode, or the entries of the feed. */
  datatype FeedReply =
    | FeedFailed(getError: string)
    | FeedUnparsed(decodeError: string)
    | FeedEntries(entries: seq<FeedEntry>)

  /** The replies of the services and the regular-expression engine:
      `latestRelease` is the GitHub API's latest release of owner/name,
      `compile` is `regexp.Compile` (None for an invalid pattern),
      `mustCompile` is `regexp.MustCompile`, `get` the body of a GET,
      `head` the reply to a HEAD, `fedora` the stream metadata at a URL,
      `feed` the Kiwix catalogue searched for a query at a feed URL, the
      three parsers `time.Parse` with RFC 3339, with "2006-01-02" and
      `http.ParseTime`, and `httpFormat` the `http.TimeFormat` rendering. */
  datatype Remote = Remote(
    latestRelease: (string, string) -> Result<Release>,
    compile: string -> Option<Pattern>,
    mustCompile: string -> Pattern,
    get: string -> Result<string>,
    head: string -> HeadReply,
    fedora: string -> FedoraReply,
    feed: (string, string) -> FeedReply,
    rfc3339: Kiwix.Parser,
    dayDate: Kiwix.Parser,
    httpTime: Kiwix.Parser,
    httpFormat: Kiwix.Time -> string)

  /** A read through one of the process-wide caches (`sync.Map`): the
      stored value when the key is present, and nothing is loaded;
      otherwise what loading gives, stored when it succeeds. Entries are
      never dropped or replaced. */
  function ThroughCache<V>(cache: map<string, V>, key: string, load: Result<V>): (r: (Result<V>, map<string, V>))
    ensures key in cache ==> r == (Ok(cache[key]), cache)
    ensures key !in cache ==> r.0 == load
    ensures forall k :: k in cache ==> k in r.1 && r.1[k] == cache[k]
    ensures r.1.Keys <= cache.Keys + {key}
    ensures r.0.Ok? ==> key in r.1 && r.1[key] == r.0.value
    ensures r.0.Err? ==> r.1 == cache
  {
    if key in cache then (Ok(cache[key]), cache)
    else if load.Ok? then (load, cache[key := load.value])
    else (load, cache)
  }

  // ---------------------------------------------------------------------
  // github_release

  function NamedLike(re: Pattern): Asset -> bool {
    (a: Asset) => re.matches(a.name)
  }

  /** The download URL of the first asset whose name matches, or "". */
  function AssetURL(assets: seq<Asset>, re: Pattern): string {
    match First(assets, NamedLike(re))
    case None => ""
    case Some(k) => assets[k].downloadURL
  }

  /** The verdict on a release once it is known. */
  function ReleaseVerdict(release: Release, assetPattern: string, remote: Remote, f: Folder): CheckResult {
    match remote.compile(assetPattern)
    case None => Failure("Invalid asset_pattern regex")
    case Some(re) =>
      var tag := release.tagName;
      var url := AssetURL(release.assets, re);
      if url == "" then
        CheckResult(Error, "", tag, "No asset found matching pattern '" + assetPattern + "' in release " + tag, "")
      else
        Ladder(f.has(Base(url)), LocalVersion(f, re.matches, Always(tag)), tag, "New release: " + tag, url)
  }

  /** `resolveGithubRelease` against the release cache: the verdict and the
      cache afterwards. A cached release is used as it is; a fetched one
      is stored under its "owner/name". */
  function GithubVerdict(src: Config.Source, cache: map<string, Release>, remote: Remote, f: Folder)
    : (r: (CheckResult, map<string, Release>))
    ensures forall k :: k in cache ==> k in r.1 && r.1[k] == cache[k]
    ensures r.1.Keys <= cache.Keys + {Config.Param(src, "repo")}
    ensures Config.Param(src, "repo") in cache ==> r.1 == cache
    ensures Config.Param(src, "repo") == "" || Config.Param(src, "asset_pattern") == "" ==>
              r == (Failure("Missing repo or asset_pattern params"), cache)
  {
    var repo := Config.Param(src, "repo");
    var assetPattern := Config.Param(src, "asset_pattern");
    if repo == "" || assetPattern == "" then (Failure("Missing repo or asset_pattern params"), cache)
    else match ParseRepo(repo)
      case Err(e) => (Failure(e), cache)
      case Ok(names) =>
        var (fetched, cache2) := ThroughCache(cache, repo, remote.latestRelease(names.0, names.1));
        match fetched
        case Err(e) => (Failure("GitHub API error: " + e), cache2)
        case Ok(release) => (ReleaseVerdict(release, assetPattern, remote, f), cache2)
  }

  /** A release already in the cache is not fetched again: the verdict
      does not depend on what the API would answer. */
  lemma GithubCacheReused(src: Config.Source, cache: map<string, Release>, remote: Remote, f: Folder,
                          api: (string, string) -> Result<Release>)
    requires Config.Param(src, "repo") in cache
    ensures GithubVerdict(src, cache, remote, f) == GithubVerdict(src, cache, remote.(latestRelease := api), f)
    ensures Config.Param(src, "repo") != "" && Config.Param(src, "asset_pattern") != ""
            && ParseRepo(Config.Param(src, "repo")).Ok? ==>
              GithubVerdict(src, cache, remote, f).0
              == ReleaseVerdict(cache[Config.Param(src, "repo")], Config.Param(src, "asset_pattern"), remote, f)
  {
  }

  /** After a successful fetch the next check of the same repository is
      answered from the cache, with the same verdict. */
  lemma GithubFetchThenCached(src: Config.Source, cache: map<string, Release>, remote: Remote, f: Folder,
                              api: (string, string) -> Result<Release>)
    requires GithubVerdict(src, cache, remote, f).0.status != Error
    ensures Config.Param(src, "repo") in GithubVerdict(src, cache, remote, f).1
    ensures var (r, cache2) := GithubVerdict(src, cache, remote, f);
            GithubVerdict(src, cache2, remote.(latestRelease := api), f) == (r, cache2)
  {
  }

  /** The first matching asset is the one offered; when none matches the
      check fails but still reports the release's tag as the latest. */
  lemma GithubAssetChoice(release: Release, assetPattern: string, remote: Remote, f: Folder)
    requires remote.compile(assetPattern).Some?
    ensures var re := remote.compile(assetPattern).value;
            var r := ReleaseVerdict(release, assetPattern, remote, f);
            (forall k :: 0 <= k < |release.assets| ==> !re.matches(release.assets[k].name)) ==>
              r.status == Error && r.latest == release.tagName && r.resolvedURL == ""
    ensures var re := remote.compile(assetPattern).value;
            var r := ReleaseVerdict(release, assetPattern, remote, f);
            r.status != Error ==>
              exists k :: 0 <= k < |release.assets| && re.matches(release.assets[k].name)
                          && r.resolvedURL == release.assets[k].downloadURL != ""
                          && (forall j :: 0 <= j < k ==> !re.matches(release.assets[j].name))
  {
    var re := remote.compile(assetPattern).value;
    var m := First(release.assets, NamedLike(re));
    if m.Some? {
      assert re.matches(release.assets[m.value].name);
      forall j | 0 <= j < m.value
        ensures !re.matches(release.assets[j].name)
      {
        assert !NamedLike(re)(release.assets[j]);
      }
    } else {
      forall k | 0 <= k < |release.assets|
        ensures !re.matches(release.assets[k].name)
      {
        assert !NamedLike(re)(release.assets[k]);
      }
    }
  }

  // ---------------------------------------------------------------------
  // web_scrape

  /** The first group of every match that has one, in order (the loop over
      `FindAllStringSubmatch`). */
  function Captured(ms: seq<seq<string>>): (r: seq<string>)
    ensures |r| <= |ms|
    ensures forall v :: v in r ==> exists m :: m in ms && |m| > 1 && m[1] == v
    ensures forall m :: m in ms && |m| > 1 ==> m[1] in r
    decreases |ms|
  {
    if ms == [] then []
    else
      var m := ms[|ms| - 1];
      var init := ms[..|ms| - 1];
      assert ms == init + [m];
      Captured(init) + (if |m| > 1 then [m[1]] else [])
  }

  method CollectVersions(ms: seq<seq<string>>) returns (versions: seq<string>)
    ensures versions == Captured(ms)
  {
    versions := [];
    for i := 0 to |ms|
      invariant versions == Captured(ms[..i])
    {
      assert ms[..i + 1][..i] == ms[..i];
      if |ms[i]| > 1 {
        versions := versions + [ms[i][1]];
      }
    }
    assert ms[..|ms|] == ms;
  }

  /** The index of the last element that satisfies `p`. */
  function Last<T>(xs: seq<T>, p: T -> bool): (r: Option<nat>)
    ensures r.Some? ==> r.value < |xs| && p(xs[r.value])
    ensures r.Some? ==> forall j :: r.value < j < |xs| ==> !p(xs[j])
    ensures r.None? ==> forall j :: 0 <= j < |xs| ==> !p(xs[j])
    decreases |xs|
  {
    if xs == [] then None
    else if p(xs[|xs| - 1]) then Some(|xs| - 1)
    else Last(xs[..|xs| - 1], p)
  }

  /** The probe loop: from the last version to the first, stopping at the
      first one `serves` accepts. */
  method ProbeNewest(versions: seq<string>, serves: string -> bool) returns (k: Option<nat>)
    ensures k == Last(versions, serves)
  {
    var i := |versions|;
    while i > 0
      invariant 0 <= i <= |versions|
      invariant forall j :: i <= j < |versions| ==> !serves(versions[j])
    {
      i := i - 1;
      if serves(versions[i]) {
        assert Last(versions, serves).Some?;
        return Some(i);
      }
    }
    return None;
  }

  const VersionPlaceholder := "{{version}}"

  /** The group the placeholder becomes in the local-file pattern. */
  const VersionGroup := @"(\d+\.\d+)"

  /** A HEAD that answers 200. */
  predicate Served(reply: HeadReply) {
    reply.HeadStatus? && reply.code == 200
  }

  /** The remote path of a version: the template with every placeholder
      replaced by it. */
  function RemotePath(fileTemplate: string, v: string): string {
    ReplaceAll(fileTemplate, VersionPlaceholder, v)
  }

  function Serves(remote: Remote, baseURL: string, fileTemplate: string): string -> bool {
    (v: string) => Served(remote.head(baseURL + RemotePath(fileTemplate, v)))
  }

  /** The versions the listing offers, ascending as strings. */
  function Listed(body: string, versionPattern: string, remote: Remote): seq<string> {
    SortStrings(Captured(remote.mustCompile(versionPattern).all(body)))
  }

  /** The newest version whose file the server has, or "". */
  function NewestServed(body: string, baseURL: string, versionPattern: string, fileTemplate: string,
                        remote: Remote): string
  {
    var versions := Listed(body, versionPattern, remote);
    match Last(versions, Serves(remote, baseURL, fileTemplate))
    case None => ""
    case Some(k) => versions[k]
  }

  /** The verdict once the listing's body is known. */
  function ListingVerdict(body: string, baseURL: string, versionPattern: string, fileTemplate: string,
                          remote: Remote, f: Folder): CheckResult
  {
    var latest := NewestServed(body, baseURL, versionPattern, fileTemplate, remote);
    if latest == "" then Failure("No valid remote files found for any version")
    else
      var rPath := RemotePath(fileTemplate, latest);
      var reFile := remote.mustCompile(ReplaceAll(Base(fileTemplate), VersionPlaceholder, VersionGroup));
      Ladder(f.has(Base(rPath)), LocalVersion(f, reFile.matches, Group1(reFile)), latest, "", baseURL + rPath)
  }

  /** `resolveWebScrape` against the page cache: the verdict and the cache
      afterwards. */
  function WebVerdict(src: Config.Source, cache: map<string, string>, remote: Remote, f: Folder)
    : (r: (CheckResult, map<string, string>))
    ensures forall k :: k in cache ==> k in r.1 && r.1[k] == cache[k]
    ensures r.1.Keys <= cache.Keys + {Config.Param(src, "base_url")}
    ensures Config.Param(src, "base_url") in cache ==> r.1 == cache
  {
    var baseURL := Config.Param(src, "base_url");
    var versionPattern := Config.Param(src, "version_pattern");
    var fileTemplate := Config.Param(src, "file_template");
    if baseURL == "" || versionPattern == "" || fileTemplate == "" then
      (Failure("Missing web_scrape params"), cache)
    else
      Scrape(baseURL, versionPattern, fileTemplate, cache, remote, f)
  }

  /** The listing page at `baseURL`, fetched once and then kept in the
      cache, judged by `ListingVerdict`; a failed fetch is reported and
      leaves the cache as it was. */
  function Scrape(baseURL: string, versionPattern: string, fileTemplate: string,
                  cache: map<string, string>, remote: Remote, f: Folder)
    : (r: (CheckResult, map<string, string>))
    ensures forall k :: k in cache ==> k in r.1 && r.1[k] == cache[k]
    ensures r.1.Keys <= cache.Keys + {baseURL}
    ensures baseURL in cache ==> r.1 == cache
    ensures r.0.status != Error ==> baseURL in r.1
  {
    var (fetched, cache2) := ThroughCache(cache, baseURL, remote.get(baseURL));
    match fetched
    case Err(e) => (Failure("Failed to scrape: " + e), cache2)
    case Ok(body) => (ListingVerdict(body, baseURL, versionPattern, fileTemplate, remote, f), cache2)
  }

  /** The probe settles on the newest listed version, in string order,
      whose file the server has; the check fails exactly when no version
      other than "" is served. */
  lemma NewestServedIsGreatest(body: string, baseURL: string, versionPattern: string, fileTemplate: string,
                               remote: Remote)
    ensures var captured := Captured(remote.mustCompile(versionPattern).all(body));
            var serves := Serves(remote, baseURL, fileTemplate);
            var latest := NewestServed(body, baseURL, versionPattern, fileTemplate, remote);
            && (latest != "" ==> latest in captured && serves(latest))
            && (forall v :: v in captured && serves(v) ==> NoLater(v, latest))
            && (latest == "" <==> forall v :: v in captured && serves(v) ==> v == "")
  {
    var captured := Captured(remote.mustCompile(versionPattern).all(body));
    var serves := Serves(remote, baseURL, fileTemplate);
    var versions := Listed(body, versionPattern, remote);
    var latest := NewestServed(body, baseURL, versionPattern, fileTemplate, remote);
    var k := Last(versions, serves);
    assert multiset(versions) == multiset(captured);
    forall v | v in captured && serves(v)
      ensures NoLater(v, latest)
    {
      assert v in multiset(versions);
      var j :| 0 <= j < |versions| && versions[j] == v;
      LastIsGreatest(versions, serves, j);
    }
    if latest != "" {
      assert versions[k.value] in multiset(captured);
    }
    if latest == "" {
      forall v | v in captured && serves(v)
        ensures v == ""
      {
        assert NoLater(v, latest);
      }
    }
  }

  /** In an ascending sequence, the last element a predicate accepts is no
      earlier than any other it accepts. */
  lemma LastIsGreatest(xs: seq<string>, p: string -> bool, j: nat)
    requires Ascending(xs) && j < |xs| && p(xs[j])
    ensures Last(xs, p).Some? && NoLater(xs[j], xs[Last(xs, p).value])
  {
    var k := Last(xs, p).value;
    if j == k {
      NoLaterReflexive(xs[j]);
    } else {
      assert j < k;
    }
  }

  // ---------------------------------------------------------------------
  // fedora_coreos

  const FedoraStreamsURL := "https://builds.coreos.fedoraproject.org/streams/"
  const FedoraPrefix := "fedora-coreos-"

  function OrDefault(v: string, fallback: string): (r: string)
    ensures r != "" <== fallback != ""
    ensures v != "" ==> r == v
  {
    if v == "" then fallback else v
  }

  predicate IsDigit(c: char) {
    '0' <= c <= '9'
  }

  /** The length of the run of digits of `s` from `i`. */
  function DigitRun(s: string, i: nat): (n: nat)
    requires i <= |s|
    ensures i + n <= |s|
    ensures forall j :: i <= j < i + n ==> IsDigit(s[j])
    ensures i + n == |s| || !IsDigit(s[i + n])
    decreases |s| - i
  {
    if i < |s| && IsDigit(s[i]) then 1 + DigitRun(s, i + 1) else 0
  }

  /** Where `groups` runs of digits separated by single dots, matched from
      `i`, end. Each run is as long as it can be: a shorter one would leave
      a digit where a dot or the end is required, so this is the only match
      from `i`. */
  function DottedEnd(s: string, i: nat, groups: nat): (r: Option<nat>)
    requires i <= |s| && groups >= 1
    ensures r.Some? ==> i < r.value <= |s|
    decreases groups
  {
    var n := DigitRun(s, i);
    if n == 0 then None
    else if groups == 1 then Some(i + n)
    else if i + n < |s| && s[i + n] == '.' then DottedEnd(s, i + n + 1, groups - 1)
    else None
  }

  /** The version `fedora-coreos-(\d+\.\d+\.\d+\.\d+)` captures in its
      leftmost match starting at `i` or later. */
  function FedoraVersionFrom(name: string, i: nat): (r: Option<string>)
    requires i <= |name|
    decreases |name| - i
  {
    if i + |FedoraPrefix| > |name| then None
    else if name[i..i + |FedoraPrefix|] == FedoraPrefix && DottedEnd(name, i + |FedoraPrefix|, 4).Some? then
      Some(name[i + |FedoraPrefix|..DottedEnd(name, i + |FedoraPrefix|, 4).value])
    else FedoraVersionFrom(name, i + 1)
  }

  function FedoraVersion(): string -> Option<string> {
    (name: string) => FedoraVersionFrom(name, 0)
  }

  function FedoraFile(): string -> bool {
    (name: string) => HasPrefix(name, FedoraPrefix)
  }

  /** The disk location of the ISO image: format "iso", else "live-iso",
      else none (""). */
  function IsoLocation(metal: Artifact): (r: string)
    ensures r != "" ==> ("iso" in metal.formats && r == metal.formats["iso"])
                        || ("live-iso" in metal.formats && r == metal.formats["live-iso"])
  {
    if "iso" in metal.formats then metal.formats["iso"]
    else if "live-iso" in metal.formats then metal.formats["live-iso"]
    else ""
  }

  /** The "metal" artifact of the stream and architecture the source names
      (defaults "stable" and "x86_64"), or the message the check fails
      with. */
  function MetalArtifact(src: Config.Source, remote: Remote): Result<Artifact> {
    var stream := OrDefault(Config.Param(src, "stream"), "stable");
    var arch := OrDefault(Config.Param(src, "arch"), "x86_64");
    match remote.fedora(FedoraStreamsURL + stream + ".json")
    case MetaFailed(e) => Err("Failed to fetch Fedora metadata: " + e)
    case MetaUnparsed => Err("Failed to parse Fedora metadata")
    case Streams(archs) =>
      if arch !in archs then Err("Arch not found: " + arch)
      else if "metal" !in archs[arch] then Err("Metal artifact not found")
      else Ok(archs[arch]["metal"])
  }

  /** The ladder as the repository writes it, whether or not an ISO
      location was found. */
  function MetalVerdictAsWritten(metal: Artifact, f: Folder): CheckResult {
    var url := IsoLocation(metal);
    Ladder(f.has(Base(url)), LocalVersion(f, FedoraFile(), FedoraVersion()), metal.release, "", url)
  }

  /** Without an ISO location the download URL is "", its base is ".", and
      the "file" looked up is the target directory itself: a directory
      that exists makes the check report Up to Date, offering nothing to
      download. */
  lemma MissingIsoReportedCurrent(metal: Artifact, f: Folder)
    requires "iso" !in metal.formats && "live-iso" !in metal.formats
    requires f.has(".")
    ensures MetalVerdictAsWritten(metal, f).status == UpToDate
    ensures MetalVerdictAsWritten(metal, f).resolvedURL == ""
  {
    assert IsoLocation(metal) == "";
    assert Base("") == ".";
  }

  /** The corrected verdict: an artifact without an ISO image is an error,
      so every verdict but Error names the image to download. */
  function MetalVerdict(metal: Artifact, f: Folder): (r: CheckResult)
    ensures r.status != Error ==> r.resolvedURL != "" && r.resolvedURL == IsoLocation(metal)
    ensures r.status == UpToDate <==> IsoLocation(metal) != "" && f.has(Base(IsoLocation(metal)))
    ensures r.status == Newer ==> r.current == LocalVersion(f, FedoraFile(), FedoraVersion()) != ""
    ensures r.status != Error ==> r.latest == metal.release
  {
    if IsoLocation(metal) == "" then Failure("No ISO image found in the metal artifact")
    else MetalVerdictAsWritten(metal, f)
  }

  /** `resolveFedoraCoreOS`, with the ISO check. */
  function FedoraVerdict(src: Config.Source, remote: Remote, f: Folder): CheckResult {
    match MetalArtifact(src, remote)
    case Err(e) => Failure(e)
    case Ok(metal) => MetalVerdict(metal, f)
  }

  lemma {:induction false} DigitRunOf(s: string, i: nat, n: nat)
    requires i + n <= |s|
    requires forall j :: i <= j < i + n ==> IsDigit(s[j])
    requires i + n == |s| || !IsDigit(s[i + n])
    ensures DigitRun(s, i) == n
    decreases n
  {
    if n > 0 {
      DigitRunOf(s, i + 1, n - 1);
    }
  }

  predicate Digits(s: string) {
    s != [] && forall j :: 0 <= j < |s| ==> IsDigit(s[j])
  }

  /** Every character of `s` in `[lo, hi)` is a digit. */
  predicate DigitsIn(s: string, lo: nat, hi: nat) {
    hi <= |s| && forall j :: lo <= j < hi ==> IsDigit(s[j])
  }

  lemma NewDigits(s: string, x: string)
    requires Digits(x)
    ensures DigitsIn(s + x, |s|, |s| + |x|)
  {
    forall j | |s| <= j < |s| + |x|
      ensures IsDigit((s + x)[j])
    {
      assert (s + x)[j] == x[j - |s|];
    }
  }

  lemma KeepDigits(s: string, t: string, lo: nat, hi: nat)
    requires DigitsIn(s, lo, hi)
    ensures DigitsIn(s + t, lo, hi)
  {
    forall j | lo <= j < hi
      ensures IsDigit((s + t)[j])
    {
      assert (s + t)[j] == s[j];
    }
  }

  /** A run of digits from `i` to a dot at `k`: with at least two groups
      to match, the match goes on after the dot. */
  lemma DotGroup(s: string, i: nat, k: nat, groups: nat)
    requires i < k < |s| && s[k] == '.' && groups >= 2
    requires DigitsIn(s, i, k)
    ensures DottedEnd(s, i, groups) == DottedEnd(s, k + 1, groups - 1)
  {
    DigitRunOf(s, i, k - i);
  }

  /** A run of digits from `i` to `e`, not followed by a digit, ends the
      last group at `e`. */
  lemma LastGroup(s: string, i: nat, e: nat)
    requires i < e && DigitsIn(s, i, e)
    requires e == |s| || !IsDigit(s[e])
    ensures DottedEnd(s, i, 1) == Some(e)
  {
    DigitRunOf(s, i, e - i);
  }

  /** Two digit runs separated by a dot at `dc` match `\d+\.\d+` from
      `i` and end where the second run ends. */
  lemma DottedTwoAt(s: string, i: nat, dc: nat, e: nat)
    requires i < dc && dc + 1 < e
    requires DigitsIn(s, i, dc) && DigitsIn(s, dc + 1, e) && s[dc] == '.'
    requires e == |s| || !IsDigit(s[e])
    ensures DottedEnd(s, i, 2) == Some(e)
  {
    DotGroup(s, i, dc, 2);
    LastGroup(s, dc + 1, e);
  }

  /** Three digit runs separated by dots at `db` and `dc`. */
  lemma DottedThreeAt(s: string, i: nat, db: nat, dc: nat, e: nat)
    requires i < db && db + 1 < dc && dc + 1 < e
    requires DigitsIn(s, i, db) && DigitsIn(s, db + 1, dc) && DigitsIn(s, dc + 1, e)
    requires s[db] == '.' && s[dc] == '.'
    requires e == |s| || !IsDigit(s[e])
    ensures DottedEnd(s, i, 3) == Some(e)
  {
    DotGroup(s, i, db, 3);
    DottedTwoAt(s, db + 1, dc, e);
  }

  /** Four digit runs separated by dots at `da`, `db` and `dc` match
      `\d+\.\d+\.\d+\.\d+` and end where the fourth run ends. */
  lemma DottedFourAt(s: string, p: nat, da: nat, db: nat, dc: nat, e: nat)
    requires p < da && da + 1 < db && db + 1 < dc && dc + 1 < e
    requires DigitsIn(s, p, da) && DigitsIn(s, da + 1, db) && DigitsIn(s, db + 1, dc) && DigitsIn(s, dc + 1, e)
    requires s[da] == '.' && s[db] == '.' && s[dc] == '.'
    requires e == |s| || !IsDigit(s[e])
    ensures DottedEnd(s, p, 4) == Some(e)
  {
    DotGroup(s, p, da, 4);
    DottedThreeAt(s, da + 1, db, dc, e);
  }

  /** Appending keeps what a slice from `p` to the end holds. */
  lemma SliceGrow(s: string, t: string, p: nat)
    requires p <= |s|
    ensures (s + t)[p..] == s[p..] + t
  {
  }

  /** A file name made of the prefix, a version of four dotted numbers and
      a rest that does not continue the last number yields that version. */
  lemma {:induction false} FedoraVersionOfName(a: string, b: string, c: string, d: string, rest: string)
    requires Digits(a) && Digits(b) && Digits(c) && Digits(d)
    requires rest == [] || !IsDigit(rest[0])
    ensures FedoraVersion()(FedoraPrefix + a + "." + b + "." + c + "." + d + rest)
            == Some(a + "." + b + "." + c + "." + d)
  {
    var name := FedoraPrefix + a + "." + b + "." + c + "." + d + rest;
    var p := |FedoraPrefix|;
    var da := p + |a|;
    var db := da + 1 + |b|;
    var dc := db + 1 + |c|;
    var e := dc + 1 + |d|;
    VersionRuns(FedoraPrefix, a, b, c, d, rest);
    DottedFourAt(name, p, da, db, dc, e);
    VersionText(FedoraPrefix, a, b, c, d, rest);
    FedoraFromStart(name, e);
  }

  /** In `pre + a.b.c.d + rest`, where the four digit runs, the three dots
      and the end of the last run fall. */
  lemma VersionRuns(pre: string, a: string, b: string, c: string, d: string, rest: string)
    requires Digits(a) && Digits(b) && Digits(c) && Digits(d)
    requires rest == [] || !IsDigit(rest[0])
    ensures var name := pre + a + "." + b + "." + c + "." + d + rest;
            var da := |pre| + |a|;
            var db := da + 1 + |b|;
            var dc := db + 1 + |c|;
            var e := dc + 1 + |d|;
            && DigitsIn(name, |pre|, da) && DigitsIn(name, da + 1, db)
            && DigitsIn(name, db + 1, dc) && DigitsIn(name, dc + 1, e)
            && name[da] == '.' && name[db] == '.' && name[dc] == '.'
            && (e == |name| || !IsDigit(name[e]))
  {
    var p := |pre|;
    var s1 := pre + a;
    var s2 := s1 + ".";
    var s3 := s2 + b;
    var s4 := s3 + ".";
    var s5 := s4 + c;
    var s6 := s5 + ".";
    var s7 := s6 + d;
    var name := s7 + rest;
    NewDigits(pre, a);
    KeepDigits(s1, ".", p, |s1|);
    KeepDigits(s2, b, p, |s1|);
    KeepDigits(s3, ".", p, |s1|);
    KeepDigits(s4, c, p, |s1|);
    KeepDigits(s5, ".", p, |s1|);
    KeepDigits(s6, d, p, |s1|);
    KeepDigits(s7, rest, p, |s1|);
    NewDigits(s2, b);
    KeepDigits(s3, ".", |s2|, |s3|);
    KeepDigits(s4, c, |s2|, |s3|);
    KeepDigits(s5, ".", |s2|, |s3|);
    KeepDigits(s6, d, |s2|, |s3|);
    KeepDigits(s7, rest, |s2|, |s3|);
    NewDigits(s4, c);
    KeepDigits(s5, ".", |s4|, |s5|);
    KeepDigits(s6, d, |s4|, |s5|);
    KeepDigits(s7, rest, |s4|, |s5|);
    NewDigits(s6, d);
    KeepDigits(s7, rest, |s6|, |s7|);
    assert name[|s1|] == s2[|s1|] == '.';
    assert name[|s3|] == s4[|s3|] == '.';
    assert name[|s5|] == s6[|s5|] == '.';
    assert |s7| == |name| || name[|s7|] == rest[0];
  }

  /** In `pre + a.b.c.d + rest`, `pre` comes first and `a.b.c.d` follows. */
  lemma VersionText(pre: string, a: string, b: string, c: string, d: string, rest: string)
    ensures var name := pre + a + "." + b + "." + c + "." + d + rest;
            var e := |pre| + |a| + 1 + |b| + 1 + |c| + 1 + |d|;
            && e <= |name| && name[..|pre|] == pre
            && name[|pre|..e] == a + "." + b + "." + c + "." + d
  {
    var p := |pre|;
    var s1 := pre + a;
    var s2 := s1 + ".";
    var s3 := s2 + b;
    var s4 := s3 + ".";
    var s5 := s4 + c;
    var s6 := s5 + ".";
    var s7 := s6 + d;
    var name := s7 + rest;
    SliceGrow(pre, a, p);
    SliceGrow(s1, ".", p);
    SliceGrow(s2, b, p);
    SliceGrow(s3, ".", p);
    SliceGrow(s4, c, p);
    SliceGrow(s5, ".", p);
    SliceGrow(s6, d, p);
    assert s7[p..] == a + "." + b + "." + c + "." + d;
    assert name[p..|s7|] == s7[p..];
    assert name[..p] == pre;
  }

  /** A name that starts with the prefix followed by four dotted numbers
      ending at `e` yields the text between the prefix and `e`. */
  lemma FedoraFromStart(name: string, e: nat)
    requires |FedoraPrefix| <= |name| && name[..|FedoraPrefix|] == FedoraPrefix
    requires DottedEnd(name, |FedoraPrefix|, 4) == Some(e)
    ensures FedoraVersion()(name) == Some(name[|FedoraPrefix|..e])
  {
  }

  // ---------------------------------------------------------------------
  // kiwix_feed: the search

  /** How the search for a series ended: a query with hits, a failed
      request or feed (with the message the check reports), or no hits
      down to a query without '_'. */
  datatype Search = Hit(query: string, entries: seq<FeedEntry>) | Failed(message: string) | Exhausted

  /** The search loop from `query`: ask the feed, stop on a failure or a
      non-empty answer, otherwise cut the query at its last '_' and ask
      again; with no '_' left the search is exhausted. */
  function SearchFrom(remote: Remote, feedURL: string, query: string): (r: Search)
    ensures r.Hit? ==> HasPrefix(query, r.query) && (r.query == query || query[|r.query|] == '_')
    ensures r.Hit? ==> |r.entries| > 0 && remote.feed(feedURL, r.query) == FeedEntries(r.entries)
    decreases |query|
  {
    match remote.feed(feedURL, query)
    case FeedFailed(e) => Failed(e)
    case FeedUnparsed(e) => Failed("Failed to parse Kiwix feed: " + e)
    case FeedEntries(entries) =>
      if |entries| > 0 then Hit(query, entries)
      else match LastIndexOf(query, '_')
        case None => Exhausted
        case Some(i) =>
          var r := SearchFrom(remote, feedURL, query[..i]);
          assert r.Hit? ==> query[..i][..|r.query|] == query[..|r.query|];
          r
  }

  /** Each retry drops the query's last '_' and what follows it, so the
      queries tried are the series cut at its underscores, longest first;
      a hit for an earlier, longer query ends the search. */
  lemma {:induction false} SearchStopsAtFirstHit(remote: Remote, feedURL: string, query: string, i: nat)
    requires LastIndexOf(query, '_') == Some(i)
    requires remote.feed(feedURL, query) == FeedEntries([])
    ensures SearchFrom(remote, feedURL, query) == SearchFrom(remote, feedURL, query[..i])
  {
  }

  /** The search loop. */
  method SearchSeries(remote: Remote, feedURL: string, series: string) returns (r: Search)
    ensures r == SearchFrom(remote, feedURL, series)
  {
    var searchQuery := series;
    while true
      invariant SearchFrom(remote, feedURL, searchQuery) == SearchFrom(remote, feedURL, series)
      decreases |searchQuery|
    {
      var reply := remote.feed(feedURL, searchQuery);
      if reply.FeedFailed? {
        return Failed(reply.getError);
      }
      if reply.FeedUnparsed? {
        return Failed("Failed to parse Kiwix feed: " + reply.decodeError);
      }
      if |reply.entries| > 0 {
        return Hit(searchQuery, reply.entries);
      }
      var lastUnderscore := LastIndexOf(searchQuery, '_');
      if lastUnderscore.None? {
        return Exhausted;
      }
      searchQuery := searchQuery[..lastUnderscore.value];
    }
  }

  // ---------------------------------------------------------------------
  // kiwix_feed: the newest entry

  /** An entry of the series: its name contains the series, or the query
      that found it when the search had to shorten the series. */
  predicate OfSeries(e: FeedEntry, series: string, query: string) {
    Contains(e.name, series) || (query != series && Contains(e.name, query))
  }

  /** The issue date: RFC 3339, else a plain "2006-01-02" date. */
  function IssuedOn(remote: Remote, issued: string): Option<Kiwix.Time> {
    match remote.rfc3339(issued)
    case Some(t) => Some(t)
    case None => remote.dayDate(issued)
  }

  /** A dated entry of the series. */
  predicate Dated(remote: Remote, e: FeedEntry, series: string, query: string) {
    OfSeries(e, series, query) && IssuedOn(remote, e.issued).Some?
  }

  /** The newest entry among the first `n`: its index and date, after the
      scan that replaces the best entry only with a strictly later one. */
  function NewestUpTo(remote: Remote, entries: seq<FeedEntry>, series: string, query: string, n: nat)
    : (r: Option<(nat, Kiwix.Time)>)
    requires n <= |entries|
    ensures r.Some? ==> r.value.0 < n && Dated(remote, entries[r.value.0], series, query)
                        && IssuedOn(remote, entries[r.value.0].issued) == Some(r.value.1)
    decreases n
  {
    if n == 0 then None
    else
      var best := NewestUpTo(remote, entries, series, query, n - 1);
      var e := entries[n - 1];
      if !OfSeries(e, series, query) then best
      else match IssuedOn(remote, e.issued)
        case None => best
        case Some(t) => if best.None? || Kiwix.After(t, best.value.1) then Some((n - 1, t)) else best
  }

  /** The scan keeps the newest dated entry of the series: no dated entry
      is later, every earlier dated entry is strictly older (a tie keeps
      the first), and there is none exactly when no entry is dated. */
  lemma {:induction false} NewestIsLatest(remote: Remote, entries: seq<FeedEntry>, series: string, query: string,
                                          n: nat)
    requires n <= |entries|
    ensures var r := NewestUpTo(remote, entries, series, query, n);
            r.None? <==> forall j :: 0 <= j < n ==> !Dated(remote, entries[j], series, query)
    ensures var r := NewestUpTo(remote, entries, series, query, n);
            r.Some? ==> forall j :: 0 <= j < n && Dated(remote, entries[j], series, query) ==>
                          !Kiwix.After(IssuedOn(remote, entries[j].issued).value, r.value.1)
    ensures var r := NewestUpTo(remote, entries, series, query, n);
            r.Some? ==> forall j :: 0 <= j < r.value.0 && Dated(remote, entries[j], series, query) ==>
                          Kiwix.After(r.value.1, IssuedOn(remote, entries[j].issued).value)
    decreases n
  {
    if n > 0 {
      NewestIsLatest(remote, entries, series, query, n - 1);
    }
  }

  /** The scan over the feed's entries. */
  method FindNewest(remote: Remote, entries: seq<FeedEntry>, series: string, query: string)
    returns (latest: Option<nat>, latestDate: Kiwix.Time)
    ensures var r := NewestUpTo(remote, entries, series, query, |entries|);
            (latest.None? <==> r.None?) && (r.Some? ==> latest == Some(r.value.0) && latestDate == r.value.1)
  {
    latest := None;
    latestDate := Kiwix.ZeroTime;
    for i := 0 to |entries|
      invariant var r := NewestUpTo(remote, entries, series, query, i);
                (latest.None? <==> r.None?) && (r.Some? ==> latest == Some(r.value.0) && latestDate == r.value.1)
    {
      var e := entries[i];
      if OfSeries(e, series, query) {
        var issued := IssuedOn(remote, e.issued);
        if issued.Some? {
          if latest.None? || Kiwix.After(issued.value, latestDate) {
            latestDate := issued.value;
            latest := Some(i);
          }
        }
      }
    }
  }

  // ---------------------------------------------------------------------
  // kiwix_feed: the verdict

  /** `_(\d{4}-\d{2})\.zim` matches at `i`. */
  predicate ZimDateAt(name: string, i: nat) {
    i + 12 <= |name| && name[i] == '_'
    && IsDigit(name[i + 1]) && IsDigit(name[i + 2]) && IsDigit(name[i + 3]) && IsDigit(name[i + 4])
    && name[i + 5] == '-' && IsDigit(name[i + 6]) && IsDigit(name[i + 7])
    && name[i + 8..i + 12] == ".zim"
  }

  /** The "YYYY-MM" of the leftmost match at `i` or later. */
  function ZimDateFrom(name: string, i: nat): (r: Option<string>)
    requires i <= |name|
    ensures r.Some? ==> |r.value| == 7
    decreases |name| - i
  {
    if i + 12 > |name| then None
    else if ZimDateAt(name, i) then Some(name[i + 1..i + 8])
    else ZimDateFrom(name, i + 1)
  }

  function ZimDate(): string -> Option<string> {
    (name: string) => ZimDateFrom(name, 0)
  }

  /** The files of a series: names starting with the series and '_'. */
  function SeriesFile(series: string): string -> bool {
    (name: string) => HasPrefix(name, series + "_")
  }

  /** The file a release of the series is saved as. */
  function ZimName(series: string, month: string): string {
    series + "_" + month + ".zim"
  }

  /** `resolveKiwixFeed`. */
  function KiwixVerdict(src: Config.Source, remote: Remote, f: Folder): CheckResult {
    var series := Config.Param(src, "series");
    var feedURL := Config.Param(src, "feed_url");
    if series == "" || feedURL == "" then Failure("Missing series or feed_url params")
    else match SearchFrom(remote, feedURL, series)
      case Failed(e) => Failure(e)
      case Exhausted => Failure("No entry found for series '" + series + "' (or prefixes)")
      case Hit(query, entries) =>
        match NewestUpTo(remote, entries, series, query, |entries|)
        case None => Failure("No entry found for series '" + series + "'")
        case Some((_, t)) =>
          var month := Kiwix.YearMonth(t);
          Ladder(f.has(ZimName(series, month)), LocalVersion(f, SeriesFile(series), ZimDate()), month, "", "")
  }

  /** Whatever the verdict, a found release is reported by the year and
      month of the newest dated entry of the series the search found, and
      Up to Date means exactly that the file for that month is present. */
  lemma {:induction false} KiwixReportsNewestMonth(src: Config.Source, remote: Remote, f: Folder)
    requires KiwixVerdict(src, remote, f).status != Error
    ensures var series := Config.Param(src, "series");
            var s := SearchFrom(remote, Config.Param(src, "feed_url"), series);
            var r := KiwixVerdict(src, remote, f);
            && s.Hit?
            && exists k :: 0 <= k < |s.entries| && Dated(remote, s.entries[k], series, s.query)
                 && r.latest == Kiwix.YearMonth(IssuedOn(remote, s.entries[k].issued).value)
                 && (forall j :: 0 <= j < |s.entries| && Dated(remote, s.entries[j], series, s.query) ==>
                       !Kiwix.After(IssuedOn(remote, s.entries[j].issued).value,
                                    IssuedOn(remote, s.entries[k].issued).value))
                 && (r.status == UpToDate <==> f.has(ZimName(series, r.latest)))
  {
    var series := Config.Param(src, "series");
    var s := SearchFrom(remote, Config.Param(src, "feed_url"), series);
    var n := NewestUpTo(remote, s.entries, series, s.query, |s.entries|);
    NewestIsLatest(remote, s.entries, series, s.query, |s.entries|);
    var k := n.value.0;
    assert Dated(remote, s.entries[k], series, s.query);
  }

  // ---------------------------------------------------------------------
  // Direct URLs: checkHTTPHeader

  /** A 200 reply whose Last-Modified header is present and parses: the
      only reply for which the local modification time is read. */
  predicate ComparesTimes(reply: HeadReply, remote: Remote) {
    Served(reply) && reply.lastModified != "" && remote.httpTime(reply.lastModified).Some?
  }

  /** `checkHTTPHeader` for a local file modified at `localTime`. */
  function HeaderVerdict(reply: HeadReply, localTime: Kiwix.Time, remote: Remote): (r: CheckResult)
    ensures r.status == Error <==> !Served(reply)
    ensures r.status == Newer <==> ComparesTimes(reply, remote)
                                   && Kiwix.After(remote.httpTime(reply.lastModified).value, localTime)
    ensures r.status != Error ==> r.status == Newer || r.status == UpToDate
    ensures ComparesTimes(reply, remote) ==> r.latest == reply.lastModified
  {
    match reply
    case HeadFailed(e) => Failure(e)
    case HeadStatus(code, lastModified) =>
      if code != 200 then Failure("HTTP Status: " + IntToString(code))
      else if lastModified != "" && remote.httpTime(lastModified).Some? then
        if Kiwix.After(remote.httpTime(lastModified).value, localTime) then
          CheckResult(Newer, "", lastModified,
                      "Remote: " + lastModified + " (Local: " + remote.httpFormat(localTime) + ")", "")
        else CheckResult(UpToDate, "", lastModified, "", "")
      else CheckResult(UpToDate, "", "", "No specific version changes detected via headers", "")
  }

  /** Without a usable Last-Modified the local time plays no part. */
  lemma HeaderIgnoresTime(reply: HeadReply, t: Kiwix.Time, u: Kiwix.Time, remote: Remote)
    requires !ComparesTimes(reply, remote)
    ensures HeaderVerdict(reply, t, remote) == HeaderVerdict(reply, u, remote)
  {
  }

  /** The direct-URL branch of `CheckVersion` as the repository writes it:
      `info` is the local file's modification time, or None when the file
      is missing (a nil `os.FileInfo`). Reading the time of a missing file
      is a nil dereference, a panic, here None. */
  function DirectAsWritten(url: string, info: Option<Kiwix.Time>, remote: Remote): (r: Option<CheckResult>)
    ensures info.Some? ==> r.Some?
  {
    if url == "" then Some(Failure("No strategy or URL provided"))
    else match info
      case Some(t) => Some(HeaderVerdict(remote.head(url), t, remote))
      case None =>
        if ComparesTimes(remote.head(url), remote) then None
        // the time is not read on this path, so any will do
        else Some(HeaderVerdict(remote.head(url), Kiwix.ZeroTime, remote))
  }

  /** For a source whose strategy is set but unknown, with a URL, and whose
      file is missing, the branch either panics (the server sends a
      Last-Modified) or reports the missing file Up to Date. */
  lemma MissingFileNotReported(url: string, remote: Remote)
    requires url != "" && Served(remote.head(url))
    ensures ComparesTimes(remote.head(url), remote) ==> DirectAsWritten(url, None, remote).None?
    ensures !ComparesTimes(remote.head(url), remote) ==>
              DirectAsWritten(url, None, remote).Some? && DirectAsWritten(url, None, remote).value.status == UpToDate
  {
  }

  /** The corrected branch: a missing local file is reported as not found,
      as it is for a source without a strategy; a present one is compared
      exactly as before. */
  function Direct(url: string, info: Option<Kiwix.Time>, remote: Remote): (r: CheckResult)
    ensures url != "" && info.None? ==> r.status == NotFound
    ensures url == "" ==> r == Failure("No strategy or URL provided")
    ensures info.Some? ==> DirectAsWritten(url, info, remote) == Some(r)
  {
    if url == "" then Failure("No strategy or URL provided")
    else match info
      case None => CheckResult(NotFound, "", "", "", "")
      case Some(t) => HeaderVerdict(remote.head(url), t, remote)
  }

  // ---------------------------------------------------------------------
  // CheckVersion

  /** What `os.Stat` says of the local file. */
  datatype LocalStat = Present(modTime: Kiwix.Time) | Absent | StatFailed(statError: string)

  /** The two process-wide caches: releases by "owner/name" and listing
      bodies by URL. */
  datatype Caches = Caches(releases: map<string, Release>, pages: map<string, string>)

  /** `CheckVersion`: the verdict and the caches afterwards. */
  function Verdict(src: Config.Source, stat: LocalStat, f: Folder, remote: Remote, caches: Caches)
    : (r: (CheckResult, Caches))
  {
    if stat.Absent? && src.strategy == "" then (CheckResult(NotFound, "", "", "", ""), caches)
    else if stat.StatFailed? then (Failure(stat.statError), caches)
    else if src.strategy == "web_scrape" then
      var (r, pages) := WebVerdict(src, caches.pages, remote, f);
      (r, caches.(pages := pages))
    else if src.strategy == "fedora_coreos" then (FedoraVerdict(src, remote, f), caches)
    else if src.strategy == "kiwix_feed" then (KiwixVerdict(src, remote, f), caches)
    else if src.strategy == "github_release" then
      var (r, releases) := GithubVerdict(src, caches.releases, remote, f);
      (r, caches.(releases := releases))
    else (Direct(src.url, if stat.Present? then Some(stat.modTime) else None, remote), caches)
  }

  /** `resolveFedoraCoreOS` as the repository writes it, without the ISO
      check. */
  function FedoraVerdictAsWritten(src: Config.Source, remote: Remote, f: Folder): CheckResult {
    match MetalArtifact(src, remote)
    case Err(e) => Failure(e)
    case Ok(metal) => MetalVerdictAsWritten(metal, f)
  }

  /** The metal artifact was found but offers no ISO image. */
  predicate MissingIso(src: Config.Source, remote: Remote) {
    MetalArtifact(src, remote).Ok? && IsoLocation(MetalArtifact(src, remote).value) == ""
  }

  /** `CheckVersion` as the repository writes it; None where it
      dereferences the missing file's information. */
  function VerdictAsWritten(src: Config.Source, stat: LocalStat, f: Folder, remote: Remote, caches: Caches)
    : Option<(CheckResult, Caches)>
  {
    if stat.Absent? && src.strategy == "" then Some((CheckResult(NotFound, "", "", "", ""), caches))
    else if stat.StatFailed? then Some((Failure(stat.statError), caches))
    else if src.strategy == "web_scrape" then
      var (r, pages) := WebVerdict(src, caches.pages, remote, f);
      Some((r, caches.(pages := pages)))
    else if src.strategy == "fedora_coreos" then Some((FedoraVerdictAsWritten(src, remote, f), caches))
    else if src.strategy == "kiwix_feed" then Some((KiwixVerdict(src, remote, f), caches))
    else if src.strategy == "github_release" then
      var (r, releases) := GithubVerdict(src, caches.releases, remote, f);
      Some((r, caches.(releases := releases)))
    else
      match DirectAsWritten(src.url, if stat.Present? then Some(stat.modTime) else None, remote)
      case None => None
      case Some(r) => Some((r, caches))
  }

  /** The corrected `CheckVersion` differs from the written one only on
      the two inputs of the findings: a Fedora artifact without an ISO
      image, which it reports as an error, and a missing file with an
      unknown strategy and a URL, which it reports as not found. On every
      other input both give the same verdict and caches. */
  lemma {:induction false} VerdictCorrections(src: Config.Source, stat: LocalStat, f: Folder, remote: Remote, caches: Caches)
    ensures var fedoraFix := !stat.StatFailed? && src.strategy == "fedora_coreos" && MissingIso(src, remote);
            var directFix := stat.Absent? && src.strategy != "" && !Known(src.strategy) && src.url != "";
            && (!fedoraFix && !directFix ==>
                  VerdictAsWritten(src, stat, f, remote, caches) == Some(Verdict(src, stat, f, remote, caches)))
            && (fedoraFix ==> Verdict(src, stat, f, remote, caches).0.status == Error
                              && VerdictAsWritten(src, stat, f, remote, caches).Some?)
            && (directFix ==> Verdict(src, stat, f, remote, caches).0.status == NotFound)
  {
    StrategyNames();
    if !stat.StatFailed? && src.strategy == "fedora_coreos" && !MissingIso(src, remote) {
      match MetalArtifact(src, remote)
      case Err(e) =>
      case Ok(metal) => assert IsoLocation(metal) != "";
    }
  }

  predicate Known(strategy: string) {
    strategy in {"web_scrape", "fedora_coreos", "kiwix_feed", "github_release"}
  }

  /** The dispatch: a missing file without a strategy is not found, any
      other failure to inspect it is an error, the four strategies go to
      their resolvers, and anything else is checked by its URL, failing
      when there is none. Only the GitHub resolver touches the release
      cache and only the web scraper the page cache. */
  lemma {:induction false} Dispatch(src: Config.Source, stat: LocalStat, f: Folder, remote: Remote, caches: Caches)
    ensures var r := Verdict(src, stat, f, remote, caches);
            && (stat.Absent? && src.strategy == "" ==> r.0 == CheckResult(NotFound, "", "", "", ""))
            && (stat.StatFailed? ==> r.0 == Failure(stat.statError))
            && (!stat.StatFailed? && !Known(src.strategy) && src.url == "" ==>
                  r.0.status == (if stat.Absent? && src.strategy == "" then NotFound else Error))
            && (!stat.StatFailed? && src.strategy == "fedora_coreos" ==> r.0 == FedoraVerdict(src, remote, f))
            && (!stat.StatFailed? && src.strategy == "kiwix_feed" ==> r.0 == KiwixVerdict(src, remote, f))
            && (src.strategy != "github_release" ==> r.1.releases == caches.releases)
            && (src.strategy != "web_scrape" ==> r.1.pages == caches.pages)
  {
    StrategyNames();
  }

  /** The four strategy names differ from each other and from "". */
  lemma StrategyNames()
    ensures "web_scrape" != "fedora_coreos" && "web_scrape" != "kiwix_feed" && "web_scrape" != "github_release"
    ensures "fedora_coreos" != "kiwix_feed" && "fedora_coreos" != "github_release"
    ensures "kiwix_feed" != "github_release"
    ensures Known("web_scrape") && Known("fedora_coreos") && Known("kiwix_feed") && Known("github_release") && !Known("")
  {
    assert "web_scrape"[0] == 'w' && "fedora_coreos"[0] == 'f';
    assert "kiwix_feed"[0] == 'k' && "github_release"[0] == 'g';
  }

  // ---------------------------------------------------------------------
  // The resolvers, step by step

  /** `resolveFedoraCoreOS`, with the ISO check. */
  method ResolveFedoraCoreOS(src: Config.Source, remote: Remote, f: Folder) returns (r: CheckResult)
    ensures r == FedoraVerdict(src, remote, f)
  {
    var metal := MetalArtifact(src, remote);
    if metal.Err? {
      return Failure(metal.error);
    }
    var downloadURL := IsoLocation(metal.value);
    if downloadURL == "" {
      return Failure("No ISO image found in the metal artifact");
    }
    var current := DetectLocal(f, FedoraFile(), FedoraVersion());
    r := Ladder(f.has(Base(downloadURL)), current, metal.value.release, "", downloadURL);
  }

  /** `resolveKiwixFeed`. */
  method ResolveKiwixFeed(src: Config.Source, remote: Remote, f: Folder) returns (r: CheckResult)
    ensures r == KiwixVerdict(src, remote, f)
  {
    var series := Config.Param(src, "series");
    var feedURL := Config.Param(src, "feed_url");
    if series == "" || feedURL == "" {
      return Failure("Missing series or feed_url params");
    }
    var found := SearchSeries(remote, feedURL, series);
    if found.Failed? {
      return Failure(found.message);
    }
    if found.Exhausted? {
      return Failure("No entry found for series '" + series + "' (or prefixes)");
    }
    var latest, latestDate := FindNewest(remote, found.entries, series, found.query);
    if latest.None? {
      return Failure("No entry found for series '" + series + "'");
    }
    var month := Kiwix.YearMonth(latestDate);
    var current := DetectLocal(f, SeriesFile(series), ZimDate());
    r := Ladder(f.has(ZimName(series, month)), current, month, "", "");
  }

  /** The part of `resolveGithubRelease` after the release is known: the
      asset loop, the local detection loop and the ladder. */
  method JudgeRelease(release: Release, assetPattern: string, remote: Remote, f: Folder) returns (r: CheckResult)
    ensures r == ReleaseVerdict(release, assetPattern, remote, f)
  {
    var tag := release.tagName;
    var re := remote.compile(assetPattern);
    if re.None? {
      return Failure("Invalid asset_pattern regex");
    }
    var k := FindFirst(release.assets, NamedLike(re.value));
    var downloadURL := if k.Some? then release.assets[k.value].downloadURL else "";
    if downloadURL == "" {
      return CheckResult(Error, "", tag, "No asset found matching pattern '" + assetPattern + "' in release " + tag, "");
    }
    var current := DetectLocal(f, re.value.matches, Always(tag));
    r := Ladder(f.has(Base(downloadURL)), current, tag, "New release: " + tag, downloadURL);
  }

  /** The part of `resolveWebScrape` after the listing is read: collect and
      sort the versions, probe them newest first, detect the local
      version and apply the ladder. */
  method ScanListing(body: string, baseURL: string, versionPattern: string, fileTemplate: string,
                     remote: Remote, f: Folder) returns (r: CheckResult)
    ensures r == ListingVerdict(body, baseURL, versionPattern, fileTemplate, remote, f)
  {
    var captured := CollectVersions(remote.mustCompile(versionPattern).all(body));
    var versions := SortStrings(captured);
    var reFile := remote.mustCompile(ReplaceAll(Base(fileTemplate), VersionPlaceholder, VersionGroup));
    var k := ProbeNewest(versions, Serves(remote, baseURL, fileTemplate));
    var latestVersion := if k.Some? then versions[k.value] else "";
    if latestVersion == "" {
      return Failure("No valid remote files found for any version");
    }
    var remotePath := RemotePath(fileTemplate, latestVersion);
    var current := DetectLocal(f, reFile.matches, Group1(reFile));
    r := Ladder(f.has(Base(remotePath)), current, latestVersion, "", baseURL + remotePath);
  }

  /** The checker with its two caches. */
  class Checker {
    var githubCache: map<string, Release>
    var webCache: map<string, string>

    constructor ()
      ensures githubCache == map[] && webCache == map[]
    {
      githubCache := map[];
      webCache := map[];
    }

    /** `resolveGithubRelease`. */
    method ResolveGithubRelease(src: Config.Source, remote: Remote, f: Folder) returns (r: CheckResult)
      modifies this
      ensures (r, githubCache) == GithubVerdict(src, old(githubCache), remote, f)
      ensures webCache == old(webCache)
    {
      var repo := Config.Param(src, "repo");
      var assetPattern := Config.Param(src, "asset_pattern");
      if repo == "" || assetPattern == "" {
        return Failure("Missing repo or asset_pattern params");
      }
      var names := ParseRepo(repo);
      if names.Err? {
        return Failure(names.error);
      }
      var release: Release;
      if repo in githubCache {
        release := githubCache[repo];
      } else {
        var fetched := remote.latestRelease(names.value.0, names.value.1);
        if fetched.Err? {
          return Failure("GitHub API error: " + fetched.error);
        }
        release := fetched.value;
        githubCache := githubCache[repo := release];
      }
      r := JudgeRelease(release, assetPattern, remote, f);
    }

    /** `resolveWebScrape`. */
    method ResolveWebScrape(src: Config.Source, remote: Remote, f: Folder) returns (r: CheckResult)
      modifies this
      ensures (r, webCache) == WebVerdict(src, old(webCache), remote, f)
      ensures githubCache == old(githubCache)
    {
      var baseURL := Config.Param(src, "base_url");
      var versionPattern := Config.Param(src, "version_pattern");
      var fileTemplate := Config.Param(src, "file_template");
      if baseURL == "" || versionPattern == "" || fileTemplate == "" {
        return Failure("Missing web_scrape params");
      }
      r := FetchListing(baseURL, versionPattern, fileTemplate, remote, f);
    }

    /** The listing page at `baseURL`: the cached copy, or a fresh fetch
        that is kept when it succeeds. */
    method CachedPage(baseURL: string, remote: Remote) returns (page: Result<string>)
      modifies this
      ensures (page, webCache) == ThroughCache(old(webCache), baseURL, remote.get(baseURL))
      ensures githubCache == old(githubCache)
    {
      if baseURL in webCache {
        return Ok(webCache[baseURL]);
      }
      page := remote.get(baseURL);
      if page.Ok? {
        webCache := webCache[baseURL := page.value];
      }
    }

    /** The cached fetch of the listing page and its judgement. */
    method FetchListing(baseURL: string, versionPattern: string, fileTemplate: string,
                        remote: Remote, f: Folder) returns (r: CheckResult)
      modifies this
      ensures (r, webCache) == Scrape(baseURL, versionPattern, fileTemplate, old(webCache), remote, f)
      ensures githubCache == old(githubCache)
    {
      var page := CachedPage(baseURL, remote);
      match page
      case Err(e) =>
        r := Failure("Failed to scrape: " + e);
      case Ok(body) =>
        r := ScanListing(body, baseURL, versionPattern, fileTemplate, remote, f);
    }

    /** `CheckVersion`. */
    method CheckVersion(src: Config.Source, stat: LocalStat, f: Folder, remote: Remote) returns (r: CheckResult)
      modifies this
      ensures (r, Caches(githubCache, webCache))
              == Verdict(src, stat, f, remote, Caches(old(githubCache), old(webCache)))
    {
      if stat.Absent? && src.strategy == "" {
        return CheckResult(NotFound, "", "", "", "");
      }
      if stat.StatFailed? {
        return Failure(stat.statError);
      }
      if src.strategy == "web_scrape" {
        r := ResolveWebScrape(src, remote, f);
      } else if src.strategy == "fedora_coreos" {
        r := ResolveFedoraCoreOS(src, remote, f);
      } else if src.strategy == "kiwix_feed" {
        r := ResolveKiwixFeed(src, remote, f);
      } else if src.strategy == "github_release" {
        r := ResolveGithubRelease(src, remote, f);
      } else {
        r := Direct(src.url, if stat.Present? then Some(stat.modTime) else None, remote);
      }
    }
  }
}
