# Lamp core, modelled in Dafny

Lamp keeps a local library of downloads up to date: operating-system images,
tools, e-books from Project Gutenberg and ZIM archives from Kiwix. A YAML
configuration lists categories of sources; each source names a strategy for
finding its newest release (GitHub releases, a scraped web listing, the
Fedora CoreOS stream, the Kiwix OPDS feed, or a plain Last-Modified
comparison). A terminal interface shows one tab per category and downloads
queued items, at most three at a time.

This project models the logic at the heart of that program and proves what
it promises:

- `config.dfy` (module `Config`): the expansion of one templated source over
  the configured OS × arch product. Excluded pairs are skipped,
  placeholders are rendered, duplicates by (OS, effective arch, rendered
  parameters) are dropped keeping the first, and names get their
  " [os/arch]" suffix. It also covers the target path and the standardised
  file name. The nested expansion loops are methods proved equal to a
  declarative specification.
- `checker.dfy` (module `Checker`): `parseRepo` and the `CheckVersion`
  dispatch. It has the four resolvers with their shared Up to Date / Newer /
  Local File Not Found ladder, the Kiwix query-shortening loop, the
  newest-entry scan, newest-first probing of scraped versions and the
  Last-Modified comparison. The two process-wide caches are fields of a
  class.
- `security.dfy` (module `Security`): file-name sanitising, the download-URL
  scheme rule and the regex-pattern guard.
- `ratelimit.dfy` (module `RateLimit`): the token bucket as a class whose
  `Wait` and `Update` change its fields, plus the defaulting in
  `ApplyRateLimitConfig`.
- `verifier.dfy` (module `Verifier`): checksum-spec parsing, the algorithm
  guess from the digest length, and the case-insensitive comparison.
- `downloader.dfy` (module `Downloader`): the single-stream / segmented mode
  rule and the partition of the file into contiguous segments. It also
  covers the read-and-write loop of one segment with its shared byte
  counter, `ProgressWriter.Write`, the status checks, and the destination
  file and progress channel as classes.
- `gutenberg.dfy` and `kiwix.dfy` (modules `Gutenberg`, `Kiwix`): slugs,
  expected paths, link selection, the 24-hour cache rules, request defaults
  and the pagination of the top-books listing.
- `tui.dfy` (module `Tui`): the download gate `ProcessQueue` (a FIFO queue
  and a running count capped at 3), the `D`/`U`/`u` keys, tab wrap-around,
  and the progress, completion, check and verification handlers.
  `updateItemState`, row building and `applyTableFilter` are here too. The
  interface state is a class whose handler methods are proved against
  functions on a snapshot of it.
- `strings.dfy`, `paths.dfy` and `wrappers.dfy` hold the pieces of Go's
  `strings`, `strconv` and `path/filepath` the core relies on, and the
  `Option`/`Result` types that stand for Go's `(value, error)` returns.

Everything the program learns from outside arrives as a value:
- HTTP replies, decoded JSON/XML feeds, directory listings and cache files;
- the compiled regular expressions;
- the hash primitives;
- time parsing and the clock.

Commands the interface hands back to its event loop are returned as values
too. Where a source file relies on an external package, the model states the
package's behaviour it uses (`filepath.Base`, `strings.TrimLeft`, Go's
truncating integer division, the `uint64` conversion) explicitly.

## Model

| member | source | states |
|---|---|---|
| Security.SanitizeFilename | internal/core/security.go:58-90 | accepted exactly when the raw name is non-empty, holds no "..", starts with neither separator, has no drive letter, and the rewritten name is not "", "." or ".."; the result is the rewritten name, holds no separator and no NUL, and is no longer than the input |
| Security.CleanedShape | internal/core/security.go:78-83 | the rewriting leaves no '/', '\' or NUL and never lengthens the name |
| Security.SanitizePointwise | internal/core/security.go:78-83 | for an accepted name without NUL, each separator becomes '_' and every other character is kept in place |
| Security.DotCheckBeforeNulRemoval | internal/core/security.go:63-66 | the ".." test runs before NUL removal: ".\0.x" is accepted and comes out as "..x" |
| Security.SanitizeRejectsEmpty | internal/core/security.go:59-61 | the empty name is refused |
| Security.SanitizeRejectsTraversal | internal/core/security.go:63-66 | "../../../etc/passwd" and ".." are refused |
| Security.SanitizeRejectsAbsolute | internal/core/security.go:68-76 | "/etc/passwd" and a name with a drive letter are refused |
| Security.SanitizeAcceptsPlain | internal/core/security.go:78-89 | every name passing the raw checks, without NUL and other than "." is accepted, separators turned into '_' and all else kept |
| Security.ValidateDownloadURL | internal/core/security.go:95-122 | passes exactly for a non-empty, parseable URL whose scheme is https, or http with host localhost, 127.0.0.1 or ::1 |
| Security.OnlyHttpsOrLoopback | internal/core/security.go:106-121 | any scheme other than https and http fails whatever the host; http passes exactly for a loopback host |
| Security.ValidateRegexPattern | internal/core/security.go:12-47 | the empty pattern passes; a pattern over 500 UTF-8 bytes fails; otherwise it passes exactly when no ReDoS heuristic matches and it compiles |
| Security.LongPatternRefused | internal/core/security.go:17-20 | more than 500 characters is refused before the engine is consulted |
| Security.SafeCompileRegex | internal/core/security.go:50-55 | succeeds with the pattern itself, and fails exactly when validation or compilation fails |
| Security.SafeCompileMatchesValidation | internal/core/security.go:50-55 | with an engine that compiles "", compilation fails exactly when validation fails |
| RateLimit.Quo | internal/core/ratelimit.go:37 | Go's truncating duration division: non-negative for a non-negative elapsed time, at least 1 from one whole period, 0 within one period either side of zero |
| RateLimit.Refill | internal/core/ratelimit.go:34-45 | no whole period elapsed leaves the bucket unchanged; otherwise the refill time becomes now and the count becomes the smaller of the old count plus the periods elapsed and the maximum, so a count within the maximum never drops and one below it grows |
| RateLimit.Settle | internal/core/ratelimit.go:47-65 | the sleep loop ends with at least one token, keeps maximum and period, does nothing to a non-empty bucket and stays within the maximum |
| RateLimit.WaitConsumesOne | internal/core/ratelimit.go:30-69 | Wait takes exactly one token from the settled bucket, leaves a non-negative count below the maximum, and keeps maximum and period |
| RateLimit.WaitWithoutSleep | internal/core/ratelimit.go:39-68 | a bucket holding tokens after the refill does not sleep: one token goes, nothing else changes |
| RateLimit.RefillCapped | internal/core/ratelimit.go:40-43 | a refill never exceeds the maximum |
| RateLimit.Updated | internal/core/ratelimit.go:72-81 | new maximum and period, refill time kept; the count is the smaller of the old count and the new maximum |
| RateLimit.UpdateIdempotent | internal/core/ratelimit.go:72-81 | applying the same settings twice equals applying them once; a count within the new maximum is kept |
| RateLimit.RateLimiter.constructor | internal/core/ratelimit.go:20-27 | the bucket starts full, refilled at the given time |
| RateLimit.RateLimiter.RefillAt | internal/core/ratelimit.go:34-45 | the fields become Refill of the old state |
| RateLimit.RateLimiter.Wait | internal/core/ratelimit.go:30-69 | the fields become Waited of the old state; the count ends non-negative, and within the maximum when it started within it |
| RateLimit.RateLimiter.Update | internal/core/ratelimit.go:72-81 | the fields become Updated of the old state |
| RateLimit.RateDefaults | internal/core/ratelimit.go:85-90 | a non-positive rate becomes 1 and a non-positive burst 1; positive values are kept |
| RateLimit.RateDefaultsIdempotent | internal/core/ratelimit.go:85-90 | defaulting twice is defaulting once |
| RateLimit.RefillPeriod | internal/core/ratelimit.go:92 | the period of a rate is non-negative, at least one second for at most one request per second, at least one nanosecond exactly when the rate is at most 10^9 per second, and 0 above that |
| RateLimit.ApplyRateLimitConfig | internal/core/ratelimit.go:84-97 | each catalogue limiter's fields become Updated of its old state with the defaulted burst and the period of the defaulted rate, also when both are one limiter (updating twice is updating once); both counts end capped by the burst |
| Verifier.ParseSpec | internal/downloader/verifier.go:29-43 | with a ':' the spec splits at its first ':' into a colon-free name and the rest; without one the whole spec is the digest and the name is guessed from its byte length: 32 md5, 40 sha1, anything else sha256 |
| Verifier.AlgorithmNamed | internal/downloader/verifier.go:46-55 | md5, sha1 and sha256 are recognised case-insensitively, each exactly for its own name |
| Verifier.Hex | internal/downloader/verifier.go:61 | two lower-case hex digits per byte |
| Verifier.VerifyFile | internal/downloader/verifier.go:18-67 | an empty checksum passes without reading; an unopenable file fails; otherwise it passes exactly when the algorithm is supported, the read succeeds and the hex digest equals the expected one ignoring case |
| Verifier.UnsupportedRefused | internal/downloader/verifier.go:53-54 | a prefix naming no supported algorithm fails with "unsupported hash algorithm" |
| Verifier.SplitAtColon | internal/downloader/verifier.go:32-34 | a colon-free name followed by ':' splits back into that name and digest |
| Verifier.GuessedAlgorithm | internal/downloader/verifier.go:35-43 | a bare digest of 32, 40 or 64 characters is read as md5, sha1 or sha256 |
| Verifier.BareDigestAccepted | internal/downloader/verifier.go:29-66 | the file's own digest, written bare, passes |
| Verifier.PrefixedDigestAccepted | internal/downloader/verifier.go:32-66 | the file's own digest behind a supported name prefix passes |
| Verifier.OddLengthNeverMatches | internal/downloader/verifier.go:61-64 | a bare expected digest of odd length never matches |
| Verifier.HexIsLower | internal/downloader/verifier.go:61-62 | the computed digest is already lower case, so lowering it changes nothing |
| Downloader.SelectMode | internal/downloader/downloader.go:64-70 | ranged segments exactly when Accept-Ranges is "bytes", the length is positive and at least 1 MiB, and more than one thread is asked for |
| Downloader.SmallFilesSingle | internal/downloader/downloader.go:68-70 | a file under 1 MiB always goes through the single stream |
| Downloader.PlanSegments | internal/downloader/downloader.go:83-95 | exactly `threads` contiguous segments from byte 0 to the last byte, segment i starting at i times `contentLength / threads`, every one but the last of that many bytes, together covering the whole length |
| Downloader.ChunkFits | internal/downloader/downloader.go:84-95 | the chunks before the last one never run past the content length |
| Downloader.ContiguousTotal | internal/downloader/downloader.go:90-95 | contiguous segments cover exactly the bytes from the first start to the last end |
| Downloader.Stop | internal/downloader/downloader.go:167-192 | the read loop stops at the first read that ends the body, with EOF or an error |
| Downloader.ReportsMonotone | internal/downloader/downloader.go:174-184 | the running counts reported never go down and stay between the starting count and the count after the last read |
| Downloader.ProgressWriter.Write | internal/downloader/downloader.go:31-36 | reports all bytes written with no error, adds their number to the running count and reports the new count with the unchanged total |
| Downloader.PlacedTiles | internal/downloader/downloader.go:165-174 | the writes of a segment are non-empty, each starts where the previous one ended, the first at the segment start, and together they span exactly the bytes received |
| Downloader.EndOutcome | internal/downloader/downloader.go:186-191 | the loop succeeds exactly when the stopping read is EOF |
| Downloader.SegmentOutcome | internal/downloader/downloader.go:155-193 | a segment succeeds exactly when the request succeeds, the status is 206 or 200 and the body ends with EOF; another status fails with "segment HTTP <status>" |
| Downloader.Absorb | internal/downloader/downloader.go:169-185 | a non-empty read is written at the offset, added to the shared counter and reported with the counter's new value; an empty read changes nothing |
| Downloader.DownloadSegment | internal/downloader/downloader.go:150-194 | returns SegmentOutcome; a refused response touches nothing; an accepted one writes the received bytes in order from `start`, grows the counter by their number and reports each running count |
| Downloader.ReadSegment | internal/downloader/downloader.go:165-193 | the read loop writes the received bytes from `start`, grows the counter by their number, reports each running count and returns how the body ended |
| Downloader.ReadWhileMore | internal/downloader/downloader.go:167-185 | after the loop, the offset and the counter have advanced by exactly the bytes of the reads before the stopping one |
| Downloader.SegmentStep | internal/downloader/downloader.go:168-185 | one read extends the writes, the counter and the reports by exactly that read's contribution |
| Downloader.DownloadSingle | internal/downloader/downloader.go:113-148 | a request error fails with that error, a status other than 200 with "HTTP <status>", a failure to create the file with that error, each writing and reporting nothing; with 200 and the file created, the file receives the body from offset 0, each non-empty read reports the running count against the announced length, and the result is how the body ended |
| Downloader.CopyBody | internal/downloader/downloader.go:135-147 | the copy writes the whole body from offset 0, reports every running count and ends as the body does |
| Downloader.CopyWhileMore | internal/downloader/downloader.go:146 | the copy loop leaves the progress writer's count equal to the bytes received |
| Downloader.TeeStep | internal/downloader/downloader.go:146 | one read of the tee reader extends the file, the count and the reports by exactly that read |
| Downloader.Tee | internal/downloader/downloader.go:31-36 | a non-empty read is written at the running offset, counted and reported; an empty one changes nothing |
| Downloader.FirstFailure | internal/downloader/downloader.go:100-110 | no failure exactly when every segment succeeds; otherwise the failure is the first one in order, all before it succeeding |
| Downloader.FirstFailureSnoc | internal/downloader/downloader.go:100-105 | a later outcome matters only when no earlier one failed |
| Downloader.DownloadSegments | internal/downloader/downloader.go:83-110 | the segments are fetched in order, the writes made are SegmentWrites (each accepted segment's bytes placed from its planned start, in index order) and the result is the first failure among their outcomes |
| Downloader.SegmentWritesTile | internal/downloader/downloader.go:83-106 | when every segment delivers the bytes planned for it, the segment writes tile the file: non-empty, each starting where the previous ended, from offset 0 to the content length |
| Downloader.DownloadFile | internal/downloader/downloader.go:39-111 | the channel ends closed; an empty URL, a directory failure and a HEAD failure fail with their messages and write nothing; a single-stream download with a status other than 200 fails with "HTTP <status>" and writes nothing, and with 200 writes the body from offset 0 and returns how it ended; a segmented one sizes the file to the content length, writes SegmentWrites and returns the first segment failure |
| Downloader.Dest.WriteAt | internal/downloader/downloader.go:170 | records the write and grows the file to cover it |
| Downloader.Dest.Truncate | internal/downloader/downloader.go:79 | sets the size and keeps the writes |
| Downloader.Channel.Send | internal/downloader/downloader.go:178-184 | appends the report and leaves the channel open or closed as it was |
| Downloader.Channel.Close | internal/downloader/downloader.go:40 | closes the channel and keeps what was sent |
| Downloader.Dest.Recreate | internal/downloader/downloader.go:127 | creating the file empties it: size 0 and no writes |
| Gutenberg.SkipRun | internal/core/gutenberg.go:240-241 | drops the leading run of characters outside `[a-z0-9]`, leaving a suffix that starts with a slug character or is empty |
| Gutenberg.Collapse | internal/core/gutenberg.go:240-241 | replacing each run of `[^a-z0-9]+` by "_" leaves only slug characters and single underscores, is empty only for empty text, and starts with "_" exactly when the text starts outside `[a-z0-9]` |
| Gutenberg.CollapseKeepsLetters | internal/core/gutenberg.go:240-241 | the replacement keeps every letter and digit, in order |
| Gutenberg.SlugLettersAppend | internal/core/gutenberg.go:240-241 | the kept letters and digits of a concatenation are those of its parts, concatenated |
| Gutenberg.SkipRunLetters | internal/core/gutenberg.go:240-241 | skipping a run of other characters loses no letter or digit |
| Gutenberg.TrimUnderscores | internal/core/gutenberg.go:243 | trimming leaves a slug that neither starts nor ends with "_" |
| Gutenberg.Cut | internal/core/gutenberg.go:245-247 | the result is a prefix of at most 50 characters, the whole slug when it fits |
| Gutenberg.Slugify | internal/core/gutenberg.go:236-249 | at most 50 characters, only `[a-z0-9_]`, no double underscore, never starting with "_" |
| Gutenberg.TrimUnderscoresLetters | internal/core/gutenberg.go:242 | trimming the outer underscores keeps every letter and digit |
| Gutenberg.SlugifyKeepsLetters | internal/core/gutenberg.go:236-249 | the slug's letters and digits are a prefix of the lower-cased title's; when the collapsed, trimmed text fits in 50 characters it is the slug and keeps them all; the slug is empty exactly when the title has no letter or digit |
| Gutenberg.SlugifyFixed | internal/core/gutenberg.go:236-249 | a slug already in final form is its own slug |
| Gutenberg.SlugOfLowered | internal/core/gutenberg.go:238-249 | text whose lower-casing is a final-form slug slugifies to that slug |
| Gutenberg.SlugifyIdempotent | internal/core/gutenberg.go:236-249 | slugifying twice is slugifying once, unless the 50-character cut left a trailing "_" |
| Gutenberg.UnknownSlug | internal/core/gutenberg.go:265-268 | the placeholder author "Unknown" slugifies to "unknown" |
| Gutenberg.GetEPUB3URL | internal/core/gutenberg.go:219-225 | the "application/epub+zip" format's URL when present, "" otherwise |
| Gutenberg.GetPrimaryAuthor | internal/core/gutenberg.go:228-233 | the first author's name, "Unknown" when there is none |
| Gutenberg.BaseDir | internal/core/gutenberg.go:253-257 | an empty base path becomes "Gutenberg"; the base is never empty |
| Gutenberg.TitleSlug | internal/core/gutenberg.go:259-262 | the title part is never empty and holds no "/" |
| Gutenberg.AuthorDir | internal/core/gutenberg.go:266-269 | the author directory is never empty, never "unknown" and holds no "/" |
| Gutenberg.AnonymousAuthorDir | internal/core/gutenberg.go:265-269 | a book without authors is filed under "unknown_author" |
| Gutenberg.IdFile | internal/core/gutenberg.go:272 | "<ID>.epub" is never empty and holds no "/" |
| Gutenberg.TitleFile | internal/core/gutenberg.go:259-274 | "<title>.epub" is never empty and holds no "/" |
| Gutenberg.ByIdPath | internal/core/gutenberg.go:271-272 | "by_id" joins the base directory and "<ID>.epub" |
| Gutenberg.FlatPath | internal/core/gutenberg.go:273-274 | "flat" joins the base directory and "<title>.epub" |
| Gutenberg.ByAuthorPath | internal/core/gutenberg.go:264-282 | "by_author" and every unknown scheme join base, author directory and "<title>.epub" |
| Gutenberg.ByIdPathsDistinct | internal/core/gutenberg.go:271-272 | books with different IDs get different "by_id" paths |
| Gutenberg.ByIdPathBase | internal/core/gutenberg.go:271-272 | the last element of a "by_id" path is "<ID>.epub" |
| Gutenberg.TitlePathBase | internal/core/gutenberg.go:264-282 | under every other scheme the last element is "<title>.epub" |
| Gutenberg.BookToSource | internal/core/gutenberg.go:293-300 | the source has ID "gutenberg-<ID>", the title as name, strategy "gutenberg" and the EPUB URL |
| Gutenberg.BookSourceIdsDistinct | internal/core/gutenberg.go:295 | different book IDs give different source IDs |
| Gutenberg.LoadCache | internal/core/gutenberg.go:136-163 | answers exactly when a cache was read, is at most 24 hours old and holds at least `limit` books, with its first `limit` books |
| Gutenberg.TopBooksURL | internal/core/gutenberg.go:76 | the first request goes to the Gutendex books endpoint |
| Gutenberg.FirstStop | internal/core/gutenberg.go:80-112 | the loop stops at the first response that fails, has no next link, or brings the count to the limit |
| Gutenberg.FirstStopIs | internal/core/gutenberg.go:80-112 | that stopping response is unique: any stopping response with none before it is the one |
| Gutenberg.TopBooksCount | internal/core/gutenberg.go:80-117 | a successful fetch returns at most `limit` books, fewer only when the listing ran out, and they are the first books in the server's order |
| Gutenberg.EffectiveLimit | internal/core/gutenberg.go:65-67 | a non-positive limit becomes 100; a positive one is kept |
| Gutenberg.Requested | internal/core/gutenberg.go:76-111 | the requests go to the listing's first page, then to each page's next link, in order |
| Gutenberg.FetchTopBooks | internal/core/gutenberg.go:64-123 | a fresh, large enough cache answers with no request and no save; otherwise the result is that of the pagination loop, the URLs requested are the chain of next links up to the stop, and a success is saved to the cache |
| Gutenberg.FetchPages | internal/core/gutenberg.go:75-117 | the pagination loop returns TopBooks of the responses and requests exactly the chain of next links up to the stop |
| Gutenberg.PagesDone | internal/core/gutenberg.go:80-117 | when the loop condition fails after `i` responses, the stop is response `i - 1` and the result is the books collected, cut to the limit |
| Gutenberg.RequestedStep | internal/core/gutenberg.go:107-111 | each round adds exactly one request, to the URL the previous page linked |
| Kiwix.YearText | internal/core/kiwix.go:302 | the year as the layout "2006" prints it: four characters for years 0 to 9999 |
| Kiwix.YearMonth | internal/core/kiwix.go:302 | the layout "2006-01" gives seven characters with "-" in the middle for years 0 to 9999 |
| Kiwix.FirstLink | internal/core/kiwix.go:72-88 | the index of the first open-access link (of type "application/x-zim" when asked), with no earlier match; none only when no link matches |
| Kiwix.DownloadURLFromLink | internal/core/kiwix.go:71-80 | the download URL is "" without an open-access ZIM link; otherwise it is that link's href with ".meta4" removed, and putting ".meta4" back restores the href |
| Kiwix.SizeAndURLSameLink | internal/core/kiwix.go:71-90 | without an open-access link the size is 0 and the URL ""; the size and the URL come from the same link exactly when the first open-access link is the ZIM one |
| Kiwix.GetIssuedDate | internal/core/kiwix.go:93-109 | `Issued` when it is non-empty and parses, else `Updated` when it is non-empty and parses, else the zero time; never any other time |
| Kiwix.UndatedEntry | internal/core/kiwix.go:93-109 | an entry with neither date parsing gets the zero time |
| Kiwix.BaseDir | internal/core/kiwix.go:291-293 | an empty base path becomes "Kiwix"; the base is never empty |
| Kiwix.ZimFileName | internal/core/kiwix.go:301-309 | the file name is never empty |
| Kiwix.KiwixPathShape | internal/core/kiwix.go:290-312 | the path is "<base>/<category>/<file>", or "<base>/<file>" without a category |
| Kiwix.ZimFileNameEndsWithMonth | internal/core/kiwix.go:301-309 | without a flavour the file name ends in "_<YYYY-MM>.zim" of the issued date |
| Kiwix.LoadKiwixCache | internal/core/kiwix.go:234-266 | answers exactly when a cache was read, is at most 24 hours old, was fetched for the same language and category and holds at least `limit` entries, with its first `limit` entries |
| Kiwix.FetchDefaults | internal/core/kiwix.go:113-118 | an empty language becomes "eng" and a non-positive limit 100; given values are kept |
| Kiwix.FetchQuery | internal/core/kiwix.go:126-133 | the fetch always sends a positive count and a language, never a search text, and a category exactly when one is given |
| Kiwix.SearchQuery | internal/core/kiwix.go:167-176 | the search sends a positive count (the limit when positive), the search text, no category, and a language exactly when one is given |
| Kiwix.FetchKiwixEntries | internal/core/kiwix.go:112-163 | a matching fresh cache answers and nothing is saved; otherwise it succeeds exactly when the feed decodes, and then returns its entries and saves them with the defaulted language and the category |
| Kiwix.FetchThenCached | internal/core/kiwix.go:112-163 | the same fetch repeated within 24 hours of a save is answered from the cache with the first `limit` entries, whatever the server says (the cache is read and written at kiwix.go lines 234-287) |
| Kiwix.SearchKiwixEntries | internal/core/kiwix.go:166-203 | succeeds exactly when the feed decodes, with its entries, uncached; a failed request reports "failed to search Kiwix catalog" |
| Config.IsExcluded | internal/config/config.go:493-501 | a pair is excluded exactly when some entry equals "os/arch", the OS or the arch |
| Config.ScanUses | internal/config/config.go:274-299 | the scan finds that a source uses the OS dimension exactly when a parameter mentions "{{os" or "{{ext", an OS map is given or `force_os_display` is "true", and the arch dimension exactly when a parameter mentions "{{arch", an arch map is given or `arch_override` is set |
| Config.ScanParams | internal/config/config.go:276-283 | the parameter loop sets each flag exactly when some parameter value holds the matching placeholder opening |
| Config.ScanExcludes | internal/config/config.go:302-315 | the exclusion loop forces a dimension exactly when the source uses it or some entry forces it |
| Config.SomeForcesStep | internal/config/config.go:304-315 | one more exclude entry forces a dimension exactly when the earlier ones did or it does |
| Config.ForcesCases | internal/config/config.go:305-314 | an entry with "/" forces both dimensions; for a source using neither, a bare OS name forces the OS dimension and any other bare entry the arch dimension; otherwise nothing |
| Config.SlashExcludeForcesBoth | internal/config/config.go:305-307 | an exclude entry containing "/" makes the source iterate over both OS and arch |
| Config.Ext | internal/config/config.go:447-458 | the extension map wins; otherwise "dmg" exactly for macos and darwin and "zip" for every other OS |
| Config.MappedArch | internal/config/config.go:468-479 | the arch map's "os/arch" entry wins, then its bare-arch entry, else "" |
| Config.RenderPlain | internal/config/config.go:481-490 | a value without "{{" comes out of substitution unchanged |
| Config.SubstitutedKeepsPlain | internal/config/config.go:481-490 | substitution keeps the parameter keys and leaves placeholder-free values as they were |
| Config.SubstituteParams | internal/config/config.go:431-491 | the loop over the parameters yields, key by key, the value with each placeholder replaced in the source's order |
| Config.VariantNaming | internal/config/config.go:374-415 | a variant is named "<name> [os/arch]", "<name> [os]" or "<name> [arch]" after the dimensions used (the arch being `arch_override` when set), keeps name, OS and arch when it uses neither, and carries the substituted parameters |
| Config.Row | internal/config/config.go:342 | one pair per arch, for the given OS, in list order |
| Config.Pairs | internal/config/config.go:341-342 | every pair combines a listed OS with a listed arch |
| Config.PairsLength | internal/config/config.go:341-342 | the product has as many pairs as the OS list length times the arch list length |
| Config.PairsDistinct | internal/config/config.go:341-342 | lists without repeats give a product without repeats |
| Config.Firsts | internal/config/config.go:383-418 | the kept pairs are, in product order, exactly the non-excluded ones whose key no earlier non-excluded pair had |
| Config.FirstsSnoc | internal/config/config.go:383-418 | a new pair is kept exactly when it is not excluded and no earlier kept pair has its key |
| Config.FirstsUnique | internal/config/config.go:385-387 | no two kept pairs share a key |
| Config.FirstsCover | internal/config/config.go:385-387 | every non-excluded pair's key is that of a kept pair at or before it |
| Config.FirstsAll | internal/config/config.go:383-418 | when every pair is first of its key, all pairs are kept |
| Config.BuiltStep | internal/config/config.go:343-418 | one more pair keeps the seen map and key list in step with the kept pairs: an excluded pair or a repeated key changes nothing, a new key is appended with its variant |
| Config.Visit | internal/config/config.go:343-418 | handling one pair extends the seen map and key list exactly as the specification of the kept pairs says |
| Config.ExpandRow | internal/config/config.go:342-419 | the inner loop over the arches handles that OS's row of pairs |
| Config.ExpandProduct | internal/config/config.go:338-420 | the two nested loops handle the whole product in order |
| Config.BuiltIsSpec | internal/config/config.go:422-424 | the variants read off the key list, in order, are exactly the expansion |
| Config.Collect | internal/config/config.go:422-424 | the output lists the seen variants in key order |
| Config.ExpandSource | internal/config/config.go:273-424 | one source expands to itself when it iterates over nothing, otherwise to the variants of its kept pairs in product order |
| Config.ExpandNoExcluded | internal/config/config.go:338-424 | every variant comes from a non-excluded pair, in strictly increasing product order |
| Config.ExpandKeysUnique | internal/config/config.go:383-387 | no two variants share an (OS, effective arch, parameters) key |
| Config.ExpandCovers | internal/config/config.go:383-387 | every non-excluded pair is represented by a variant with its key at or before it |
| Config.ExpandBound | internal/config/config.go:317-342 | an expanding source gives at most the OS list length times the arch list length variants; a non-expanding one gives itself |
| Config.ExpandFullProduct | internal/config/config.go:322-424 | without exclusions or override, and with lists free of repeats, every pair of the product gives a variant |
| Config.ExpandStatic | internal/config/config.go:274-320 | a source without placeholders, maps, switches or exclusions is kept as it is |
| Config.ExpandAllSnoc | internal/config/config.go:273-425 | the expansion of a category counts the variants of its sources, one source after another |
| Config.ExpandCategory | internal/config/config.go:272-426 | the sources of a category expand one after another, in order |
| Config.PlainDimensions | internal/config/config.go:274-315 | a one-parameter source with nothing else set iterates over exactly the dimensions its parameter mentions |
| Config.PlainBoth | internal/config/config.go:322-424 | such a source mentioning both OS and arch gives one variant per pair |
| Config.PlainArchOnly | internal/config/config.go:327-424 | such a source mentioning only the arch gives one variant per arch |
| Config.ExampleFull | internal/config/config.go:270-429 | "{{os}}-{{arch}}" over two OSes and two arches gives four variants |
| Config.ExampleArchOnly | internal/config/config.go:270-429 | "{{arch}}" over two arches gives two variants |
| Config.ExampleStatic | internal/config/config.go:317-320 | a static parameter gives the source itself |
| Config.ExpandExample | internal/config/config.go:270-429 | the three example sources expand to seven entries in total |
| Config.ExpandAllThree | internal/config/config.go:272-426 | three sources expand to the sum of their expansions |
| Config.Config.ExpandSources | internal/config/config.go:270-429 | every category keeps its key, path and language, and its sources become their expansion; nothing else in the configuration changes |
| Config.Config.GetTargetPath | internal/config/config.go:514-518 | an unknown category gives "" (the path of a known one is stated by TargetPathShape and TargetPathLayout) |
| Config.TargetFileName | internal/config/config.go:525-530 | the file name never holds "/", keeps the name's length when there is no URL, and is never empty when there is one |
| Config.TargetPathShape | internal/config/config.go:514-537 | for a known category the path's last element is the file name |
| Config.TargetPathLayout | internal/config/config.go:520-536 | under a non-empty directory (the category's path, else the default root) the path is the directory, then "<os>/" exactly when the OS is set, then the file name |
| Config.StandardName | internal/config/config.go:541-546 | the name part holds no space and no "[" and neither starts nor ends with "_", "-" or " " |
| Config.StandardVersion | internal/config/config.go:565-568 | the version part is never empty and neither starts nor ends with "-", "_", " " or "." |
| Config.StandardExtCases | internal/config/config.go:558-563 | no extension gives "bin"; one leading dot is dropped; any other extension is kept |
| Config.StandardizedHostFallback | internal/config/config.go:548-556 | the host's OS and arch only fill in what the source leaves unset |
| Checker.ParseRepo | internal/core/checker.go:28-34 | succeeds exactly for a repo with one "/", splitting it into the slash-free owner and name around it; otherwise fails with "invalid repo format: <repo>" |
| Checker.ParseRepoJoin | internal/core/checker.go:28-34 | "owner/name" parses back into owner and name |
| Checker.Ladder | internal/core/checker.go:182-200 | the shared end of every resolver: Up to Date exactly when the expected file exists (current then equals latest), otherwise Newer when a local version was detected and Local File Not Found when none was; latest and URL are passed through (the same ladder ends the other resolvers at lines 291-308, 378-395 and 498-513) |
| Checker.First | internal/core/checker.go:154-180 | the index of the first element satisfying the test, with none before it; none when no element does |
| Checker.FindFirst | internal/core/checker.go:154-159 | the breaking loop returns the first match |
| Checker.LocalVersion | internal/core/checker.go:275-289 | a detected local version always comes from a file of the listing that the resolver's test accepts (the same detection runs at lines 364-376 and 484-496) |
| Checker.FirstFileDecides | internal/core/checker.go:278-288 | the first accepted file decides: its extracted version, or "" when extraction fails; later files are not looked at (likewise at lines 368-375 and 488-495) |
| Checker.DetectLocal | internal/core/checker.go:364-376 | the detection loop returns LocalVersion of the listing |
| Checker.NoLaterReflexive | internal/core/checker.go:235 | string order: every string is ordered before or equal to itself |
| Checker.NoLaterTotal | internal/core/checker.go:235 | any two strings are ordered one way or the other |
| Checker.NoLaterTransitive | internal/core/checker.go:235 | the order is transitive |
| Checker.NoLaterAntisymmetric | internal/core/checker.go:235 | strings ordered both ways are equal |
| Checker.Insert | internal/core/checker.go:235 | inserting into an ascending sequence keeps it ascending and adds exactly that element |
| Checker.InsertFront | internal/core/checker.go:235 | an element no later than the head can go in front |
| Checker.InsertBehind | internal/core/checker.go:235 | an element placed after the head keeps the order |
| Checker.SortStrings | internal/core/checker.go:235 | the sorted versions are ascending and a permutation of the captured ones |
| Checker.ThroughCache | internal/core/checker.go:127-143 | a cached key answers from the cache unchanged; otherwise the load decides, a success is stored under the key, a failure leaves the cache as it was, and no other entry changes (the page cache at lines 213-225 follows the same rule) |
| Checker.GithubVerdict | internal/core/checker.go:113-143 | missing "repo" or "asset_pattern" fails with "Missing repo or asset_pattern params"; the cache only grows, by the repo at most, and a cached repo leaves it unchanged |
| Checker.GithubCacheReused | internal/core/checker.go:127-129 | a cached release is used without asking the API, and the verdict is that of the cached release |
| Checker.GithubFetchThenCached | internal/core/checker.go:139-143 | a successful check stores the release, so repeating it gives the same verdict whatever the API now says |
| Checker.GithubAssetChoice | internal/core/checker.go:153-167 | no matching asset gives an error carrying the tag and no URL; any other verdict uses the first matching asset's non-empty download URL |
| Checker.Captured | internal/core/checker.go:228-234 | the versions are exactly the first groups of the matches that have one |
| Checker.CollectVersions | internal/core/checker.go:229-234 | the collection loop keeps each first group, in order |
| Checker.Last | internal/core/checker.go:249-265 | the index of the last element satisfying the test, none after it; none when no element does |
| Checker.ProbeNewest | internal/core/checker.go:249-265 | the backward loop stops at the last version the server serves |
| Checker.WebVerdict | internal/core/checker.go:203-225 | the page cache only grows, by the base URL at most, and is unchanged when that page was cached |
| Checker.Scrape | internal/core/checker.go:212-309 | after a verdict other than an error the page is in the cache; the cache only grows, by the base URL at most |
| Checker.NewestServedIsGreatest | internal/core/checker.go:228-269 | the version chosen was captured and is served, no served captured version sorts after it, and none is chosen exactly when no non-empty captured version is served |
| Checker.LastIsGreatest | internal/core/checker.go:235-265 | in an ascending list the last element passing a test sorts no earlier than any other that passes |
| Checker.OrDefault | internal/core/checker.go:315-320 | a non-empty value is kept; an empty one takes the default |
| Checker.DigitRun | internal/core/checker.go:366 | the length of the maximal run of digits from a position |
| Checker.DottedEnd | internal/core/checker.go:366 | a match of `\d+(\.\d+)*` with the given number of groups ends after its start |
| Checker.IsoLocation | internal/core/checker.go:349-358 | a download URL, when found, is the "iso" format's location, or else the "live-iso" one |
| Checker.MissingIsoReportedCurrent | internal/core/checker.go:349-380 | as written: with neither ISO format the URL is "", its base is ".", and an existing target directory makes the check report Up to Date with nothing to download |
| Checker.MetalVerdict | internal/core/checker.go:349-395 | corrected: a verdict other than an error carries the ISO location, which is never empty, and the metal release as latest; Up to Date exactly when the ISO's file exists; Newer carries the detected local version |
| Checker.DigitRunOf | internal/core/checker.go:366 | a run of `n` digits followed by a non-digit has length `n` |
| Checker.DotGroup | internal/core/checker.go:366 | a digit group followed by "." passes the match on to the next group |
| Checker.LastGroup | internal/core/checker.go:366 | the last group ends at the first non-digit |
| Checker.DottedTwoAt | internal/core/checker.go:366 | two dotted groups end where the second run of digits does |
| Checker.DottedThreeAt | internal/core/checker.go:366 | three dotted groups end where the third run does |
| Checker.DottedFourAt | internal/core/checker.go:366 | four dotted groups end where the fourth run does |
| Checker.FedoraVersionOfName | internal/core/checker.go:366-373 | "fedora-coreos-a.b.c.d…" with four digit groups gives the version "a.b.c.d" |
| Checker.VersionRuns | internal/core/checker.go:366 | the four groups of such a name sit at the expected positions |
| Checker.FedoraFromStart | internal/core/checker.go:366-373 | a name starting with the prefix and four dotted groups gives exactly those groups |
| Checker.SearchFrom | internal/core/checker.go:413-444 | a hit is found with a query that is the series or a prefix of it cut at a "_", and the feed gave entries for that query |
| Checker.SearchStopsAtFirstHit | internal/core/checker.go:429-439 | an empty feed for a query moves the search on to the query cut at its last "_" |
| Checker.SearchSeries | internal/core/checker.go:413-440 | the search loop returns what SearchFrom describes |
| Checker.NewestUpTo | internal/core/checker.go:450-471 | the entry found is of the series and dated, and carries its own issue date |
| Checker.NewestIsLatest | internal/core/checker.go:450-471 | none is found exactly when no entry is of the series and dated; no such entry is later than the one found, and every one before it is strictly earlier |
| Checker.FindNewest | internal/core/checker.go:447-475 | the scan returns the newest entry and its date |
| Checker.ZimDateFrom | internal/core/checker.go:486-492 | a date found in a ZIM name is seven characters, "YYYY-MM" |
| Checker.KiwixReportsNewestMonth | internal/core/checker.go:398-514 | a verdict other than an error follows a search hit, reports the month of a newest dated entry of the series, and is Up to Date exactly when "<series>_<YYYY-MM>.zim" exists |
| Checker.HeaderVerdict | internal/core/checker.go:516-552 | an error exactly when the HEAD fails or the status is not 200; Newer exactly when Last-Modified parses and is after the local time, with it as latest; Up to Date otherwise |
| Checker.HeaderIgnoresTime | internal/core/checker.go:532-551 | without a usable Last-Modified the local time plays no part |
| Checker.DirectAsWritten | internal/core/checker.go:516-552 | as written: a file that exists always gets a verdict (reached from the dispatch at lines 104-109) |
| Checker.MissingFileNotReported | internal/core/checker.go:87-109 | as written: a missing file with an unknown strategy and a URL either dereferences the missing file information (no verdict) or is reported Up to Date (the comparison at lines 534-551 then reads the absent file information) |
| Checker.VerdictCorrections | internal/core/checker.go:85-111 | the corrected Verdict and the as-written VerdictAsWritten agree on every input except the two of the findings: a Fedora artifact without an ISO image, which the corrected one reports as an error, and a missing file with an unknown strategy and a URL, which it reports as not found |
| Checker.Direct | internal/core/checker.go:85-110 | corrected: no URL fails with "No strategy or URL provided"; a missing file is Local File Not Found; for an existing file the verdict is the as-written one |
| Checker.Dispatch | internal/core/checker.go:85-111 | corrected: a missing file without strategy is Local File Not Found; another stat failure is an error; the Fedora and Kiwix strategies go to their resolvers; an unknown strategy without URL is an error; only the GitHub resolver touches the release cache and only the scraper the page cache |
| Checker.ResolveFedoraCoreOS | internal/core/checker.go:311-396 | corrected: the resolver returns FedoraVerdict, which reports a missing ISO image as an error (FedoraVerdictAsWritten is the code as written) |
| Checker.ResolveKiwixFeed | internal/core/checker.go:398-514 | the resolver returns KiwixVerdict |
| Checker.JudgeRelease | internal/core/checker.go:145-200 | the release step returns ReleaseVerdict |
| Checker.ScanListing | internal/core/checker.go:226-309 | the listing step returns ListingVerdict |
| Checker.Checker.ResolveGithubRelease | internal/core/checker.go:113-201 | verdict and release cache become GithubVerdict of the old cache; the page cache is unchanged |
| Checker.Checker.ResolveWebScrape | internal/core/checker.go:203-309 | verdict and page cache become WebVerdict of the old cache; the release cache is unchanged |
| Checker.Checker.CachedPage | internal/core/checker.go:213-225 | reading a page goes through the page cache as ThroughCache says |
| Checker.Checker.FetchListing | internal/core/checker.go:212-309 | verdict and page cache become Scrape of the old cache |
| Checker.Checker.CheckVersion | internal/core/checker.go:85-111 | corrected: verdict and both caches become Verdict of the old caches, the corrected dispatch; VerdictCorrections relates it to the code as written |
| Tui.NormalizeVer | internal/tui/model.go:61-63 | the shown version is the given one with its whole run of leading 'v's removed: it does not start with 'v', and those 'v's followed by it give back the input |
| Tui.NormalizeVerIdempotent | internal/tui/model.go:61-63 | normalizing a normalized version changes nothing |
| Tui.ToRow | internal/tui/model.go:65-90 | the row keeps the source's name; the STATUS cell is a progress bar exactly when the total is known (positive), otherwise "Error: <message>" for Error Checking and the status text for anything else; both versions are normalized |
| Tui.RowsOf | internal/tui/update.go:651-657 | one row per item, in order, each the item's ToRow |
| Tui.Classify | internal/tui/model.go:556-567 | a received value without error becomes a progress message carrying it; a closed channel becomes a download-done message without error, and a value with an error a download-done message with that error; index and category are kept |
| Tui.Messages | internal/tui/model.go:556-567 | the messages one download's channel produces while the handler keeps re-arming the wait: progress messages, then exactly one download-done message at the end |
| Tui.CompletionReportsFirstError | internal/tui/model.go:556-567 | the final download-done message carries no error exactly when no received value had one, and otherwise carries the error of the first value that had one |
| Tui.Uint64 | internal/tui/update.go:373-382 | Go's uint64 conversion: the value modulo 2^64, unchanged for non-negative values below 2^64 and shifted by 2^64 for negative 64-bit values |
| Tui.ApplyProgress | internal/tui/update.go:347-383 | the item takes the reported downloaded and total counts; its category and message never change |
| Tui.ProgressSentinels | internal/tui/update.go:349-370 | total -2: "Resolving URL..." for downloaded 0, otherwise the reported status, versions and (when given) resolved URL; total -1: "Checking available space..." for 0, "Enough space available!" for 1, status kept otherwise; downloaded -1: "Error: Not enough space (<bytes of total> available)"; source and versions change only under -2 |
| Tui.ProgressDownloading | internal/tui/update.go:371-383 | outside the sentinels the status is "Downloading... <percent>% (<done>/<total>)" when the total is known and "Downloading... <done>" otherwise |
| Tui.Completed | internal/tui/update.go:394-408 | a failed download shows "Error: <err>" and keeps its counts; a successful one with a checksum shows "Verifying integrity..." and keeps its counts; one without shows "Finished" with both counts reset to 0; source, category and message are kept |
| Tui.CheckedRow | internal/tui/update.go:330-342 | after a version check the row shows the outcome's status as text (or "Error: <message>" for Error Checking) with the outcome's versions normalized; the source changes only in its URL, and only when a resolved URL was returned |
| Tui.OutcomeRows | internal/tui/update.go:394-430 | a download without checksum ends on "Finished" and a verified one on "Verified & Finished"; a failed download or failed checksum leaves the counts in place, so while the total is known the row shows the bar and not the failure |
| Tui.NextTab | internal/tui/update.go:113-115 | the next tab index, wrapping from the last to the first, always a valid tab |
| Tui.PrevTab | internal/tui/update.go:116-118 | the previous tab index, wrapping from the first to the last, always a valid tab |
| Tui.TabsInverse | internal/tui/update.go:113-118 | right then left, or left then right, returns to the same tab |
| Tui.FindTab | internal/tui/model.go:596-597 | the first tab with the given name, and none exactly when no tab has that name |
| Tui.Locate | internal/tui/model.go:596-604 | an item is found exactly when its category names a tab and its index is in range in that tab's data, and then it lies in the first tab of that name |
| Tui.Where | internal/tui/update.go:168-175 | the indices, in increasing order, of exactly the items the predicate selects |
| Tui.Indices | internal/tui/update.go:130-134 | the list 0..n-1 |
| Tui.WhereAll | internal/tui/update.go:168-175 | when every item is selected, the selected indices are all indices in order |
| Tui.UpdateItem | internal/tui/update.go:639-649 | the board keeps its shape, queue and running count (which item changes is stated by UpdateItemOnly) |
| Tui.UpdateItemOnly | internal/tui/update.go:639-649 | exactly the addressed item of the first tab named by the category changes, by the update, and only that tab's rows are rebuilt; an unknown category or out-of-range index leaves everything as it was |
| Tui.Start | internal/tui/model.go:606-611 | the item now shows "Starting download..." and nothing else changes |
| Tui.DispatchOf | internal/tui/model.go:594-614 | one download command, for the item's current source, exactly when the queued item can be located; none otherwise |
| Tui.DispatchesSameSources | internal/tui/model.go:594-614 | the commands issued for a list of queued items depend only on the items' sources, not on their statuses |
| Tui.Pop | internal/tui/model.go:586-616 | taking one entry off the queue removes its head, raises the running count by one exactly when a command is issued (the safety decrement undoes the raise otherwise) and issues the head's command |
| Tui.Drain | internal/tui/model.go:582-624 | the board keeps its shape (what the gate does is stated by DrainGate, DrainFifo and DrainMarks) |
| Tui.DrainGate | internal/tui/model.go:582-586 | the gate stops only with an empty queue or with the running count at the limit of 3; the count grows by the number of commands issued, and a count within the limit stays within it |
| Tui.PopSameSources | internal/tui/model.go:606-611 | taking one entry off the queue changes no item's source |
| Tui.DispatchesCons | internal/tui/model.go:582-624 | the commands for a queue prefix are the head's command followed by those for the rest |
| Tui.FifoStep | internal/tui/model.go:582-624 | one pop followed by a first-in first-out run is itself a first-in first-out run |
| Tui.DrainFifo | internal/tui/model.go:582-624 | the gate serves the queue in order: the queue left is a suffix of the old one, and the commands issued are those of the entries taken off, in queue order |
| Tui.PopMarks | internal/tui/model.go:606-611 | one pop only marks the started item "Starting download..." and rebuilds only the rows of the tab it belongs to |
| Tui.StartedAppend | internal/tui/model.go:582-624 | an item or tab is touched by two batches of commands exactly when one of the batches touches it |
| Tui.MarksCompose | internal/tui/model.go:582-624 | two runs that each only mark started items compose into one that only marks started items |
| Tui.DrainMarks | internal/tui/model.go:582-624 | the gate changes only the items it starts, which show "Starting download...", and the rows of their tabs; every other item and row stays as it was |
| Tui.Released | internal/tui/update.go:388-391 | the decremented running count, never negative (the same clamp follows the catalog downloads at lines 268-271 and 313-316) |
| Tui.CountStaysInGate | internal/tui/model.go:582-591 | a running count within 0..3 stays within 0..3 through a release and through the gate (the release is the clamp at update.go lines 388-391) |
| Tui.ItemAt | internal/tui/update.go:639-645 | the addressed item exactly when it can be located, taken from the first tab named by its category |
| Tui.DownloadDone | internal/tui/update.go:387-417 | the board keeps its shape (the verification request and the gate are stated by DownloadDoneVerifies) |
| Tui.DownloadDoneVerifies | internal/tui/update.go:387-417 | a verification is requested exactly for a successful download of a located item with a checksum, with that checksum; the running count stays within 0..3, and when a download was running and the queue was not empty, the queue gets shorter |
| Tui.Mark | internal/tui/update.go:166-192 | every selected item becomes "Queued" and every other item is kept as it was |
| Tui.QueueOf | internal/tui/update.go:166-192 | one queue entry per selected index, carrying the item's category and its index |
| Tui.QueueOfWhere | internal/tui/update.go:168-175 | the entries queued for a tab are exactly its selected items, in increasing index order, each with its own category |
| Tui.Enqueue | internal/tui/update.go:166-192 | only the active tab's data changes, to its items with the selected ones marked Queued; only its rows are rebuilt; the running count is kept |
| Tui.EnqueueExact | internal/tui/update.go:166-192 | the old queue is kept as a prefix and what is appended is exactly the selected items of the tab, in index order |
| Tui.RowsAt | internal/tui/update.go:665-672 | one row per kept index, in order, each the ToRow of that item |
| Tui.Kept | internal/tui/update.go:665-672 | the increasing indices of exactly the items whose lower-cased name contains the lower-cased query (all items for an empty query) |
| Tui.Filtered | internal/tui/update.go:660-674 | the filter never shows more rows than there are items; which rows is stated by Kept and RowsAt, which it combines |
| Tui.FilterEmptyKeepsAll | internal/tui/update.go:665-667 | an empty query shows every row, in order |
| Tui.LowerIdempotent | internal/tui/update.go:664 | lower-casing twice is lower-casing once |
| Tui.FilterIgnoresCase | internal/tui/update.go:664-670 | a query and its lower-cased form show the same rows |
| Tui.QueueOfSnoc | internal/tui/update.go:166-192 | queueing one more index appends that item's entry |
| Tui.RowsAtSnoc | internal/tui/update.go:665-672 | keeping one more index appends that item's row |
| Tui.FilterRows | internal/tui/update.go:663-673 | the loop's rows are the rows of the items whose names match the query, in order |
| Tui.Model.constructor | internal/tui/model.go:275-287 | the first tab is active, every tab's rows are its items' rows, the queue is empty, no download runs and no filter is set |
| Tui.Model.KeyRight | internal/tui/update.go:113-115 | the active tab becomes the next one; data, rows, queue and count are untouched |
| Tui.Model.KeyLeft | internal/tui/update.go:116-118 | the active tab becomes the previous one; data, rows, queue and count are untouched |
| Tui.Model.SyncTableRows | internal/tui/update.go:651-657 | only the given tab's rows change, to the rows of its items |
| Tui.Model.UpdateItemState | internal/tui/update.go:639-649 | the model's new board is UpdateItem of the old one, so only the addressed item and its tab's rows change |
| Tui.Model.Lookup | internal/tui/model.go:594-604 | the loop over the tabs finds exactly the tab Locate names |
| Tui.Model.PopOne | internal/tui/model.go:586-616 | one iteration of the gate's loop does what Pop specifies |
| Tui.Model.ProcessQueue | internal/tui/model.go:582-624 | the gate's loop leaves the board and issues the commands Drain specifies, so it keeps the limit of 3, serves the queue in order and only marks the items it starts |
| Tui.Model.EnqueueStep | internal/tui/update.go:168-175 | one iteration of the bulk loop keeps the prefix of items examined so far marked and queued exactly as selected |
| Tui.Model.EnqueueWhere | internal/tui/update.go:166-192 | the bulk loop and the row sync leave the board Enqueue specifies |
| Tui.Model.KeyDownloadMissing | internal/tui/update.go:162-177 | on a catalog tab nothing changes and nothing is issued; otherwise the items Local File Not Found or Not Checked are queued and the gate runs on the result |
| Tui.Model.KeyUpdateNewer | internal/tui/update.go:178-193 | on a catalog tab nothing changes and nothing is issued; otherwise the items with a newer version available are queued and the gate runs on the result |
| Tui.Model.KeyCheckAll | internal/tui/update.go:125-136 | on a catalog tab no check is issued; otherwise one check per item of the active tab, in order, with the item's index, category and source |
| Tui.Model.Release | internal/tui/update.go:388-391 | the running count is decremented but never below 0; data, rows and queue are untouched |
| Tui.Model.OnProgress | internal/tui/update.go:347-385 | the progress handler applies ApplyProgress to the addressed item only |
| Tui.Model.OnCheck | internal/tui/update.go:330-342 | the check handler applies Checked to the addressed item only |
| Tui.Model.OnDownload | internal/tui/update.go:387-417 | the completion handler leaves the board, the verification request and the commands DownloadDone specifies |
| Tui.Model.OnVerify | internal/tui/update.go:419-430 | the verification handler applies Verified to the addressed item only |
| Tui.Model.ApplyTableFilter | internal/tui/update.go:660-674 | an out-of-range tab changes nothing; otherwise only that tab's rows change, to the rows its items show under the current filter |

## Left out

- Network, HTTP and decoding: requests, the GitHub client, JSON and XML decoding and `url.Parse` are not modelled. Replies, decoded feeds, release lists and parsed URL parts are inputs.
- File system: `os.Stat`, `ReadDir`, `MkdirAll`, cache-file reads and writes, `LoadConfig`, `EnsureConfigExists`, `loadEnv` and `expandTilde` are not modelled. A directory is its listing, in the order given, and a test of which names exist in it; a cache is the record read from it, and a save is returned as a value.
- Regular expressions: the regex engine, and the nested-quantifier heuristics of `ValidateRegexPattern`, are function parameters (match and submatch oracles), because their semantics belong to Go's `regexp` package. `slugify`'s fixed character class is written out.
- Hashing: MD5, SHA-1 and SHA-256 are a parameter mapping the file's bytes to a digest, so only the spec parsing, the choice and the comparison are proved.
- Time: `time.Now`, `time.Parse`, `time.Sleep` and RFC 3339 / HTTP-date parsing are parameters or integer clocks. Dates compare as (year, month, rest) in a single zone.
- Concurrency: the mutex, `sync.Map`, `sync.WaitGroup`/`Once`, atomics and goroutines are not modelled. The model is sequential: download segments run one after another in index order, so the "first recorded error" is the failure of the lowest-indexed segment rather than the first in time.
- Downloader.Dest.WriteAt: a write never fails. The write error `downloadSegment` returns (internal/downloader/downloader.go:170-173) and the one `io.Copy` returns (line 146) are not modelled, so a download whose disk writes fail is not reported as failed.
- Checker.Folder: the listing is taken in the order given. `os.ReadDir` sorts it by file name, so the "first" file of `FirstFileDecides` and `LocalVersion` is the first by name; the model does not require the listing to be sorted.
- Checker.Remote: `mustCompile` always yields a pattern. `regexp.MustCompile` panics on an invalid pattern, which a user's `version_pattern` (internal/core/checker.go:226) or a template-derived one (line 245) can be; the model does not capture that panic.
- RateLimit.CanWait: `Wait` is modelled only for a positive period, a positive maximum and a clock that does not run backwards. A zero period makes Go's division at internal/core/ratelimit.go:37 panic, and a non-positive maximum makes `Wait` sleep forever; neither is modelled.
- RateLimit.ApplyRateLimitConfig: a rate above 10^9 per second gives a period of 0 (`RefillPeriod` states it), which Go accepts; the next `Wait` on such a limiter then panics, and the model's `Wait` excludes that state.
- Downloader.Channel.Send: the downloader's sends are non-blocking and drop a value when the buffer is full; the model records every value sent.
- Floating point: the progress-bar drawing, the percentage text (a parameter of `Format`), column resizing and the float-to-duration conversion in `ApplyRateLimitConfig` are not modelled. The refill period is an integer number of nanoseconds.
- Unicode: case folding (`strings.ToLower`, `EqualFold`) is ASCII only, and strings are sequences of characters. Byte-length checks (the 500-byte pattern limit, the drive-letter test) count UTF-8 widths explicitly.
- Paths: `filepath.Join` is modelled as joining the non-empty elements with "/" without the final `Clean`, on a Unix host.
- Config dedup: the deduplication key compares rendered parameter maps for equality; the source prints them with `%v`, which could also merge maps whose printed forms collide.
- Gutenberg.FetchTopBooks: the rate limiter's wait before each request does not change the result and is not modelled. A listing that never ends is not modelled either: the pages are a finite sequence whose last one ends the listing.
- Gutenberg.SlugifyIdempotent: holds only for slugs that do not end in "_", because cutting at 50 characters can leave a trailing "_" that a second pass removes.
- Tui "d" key: downloading the item under the cursor is not modelled. It reads the table widget's cursor and raises the running count without going through the gate.
- Tui catalog tabs: the Gutenberg and Kiwix tab handlers (loading, searching, `handleGutenbergDownload`, `handleKiwixDownload`) are not modelled beyond the clamp of their completion messages, which `Released` states.
- Tui tab kinds: `isDynamicTab` is not part of this model. Which tabs are catalog tabs is the set `dynamic` given to the constructor.
- Tui.Model.KeyCheckAll: the target path, token and thread count passed with each check are not part of the request value; the path is `GetTargetPath`, modelled in `Config`.
- Tui.Model.ProcessQueue: the same holds for the target path, token and threads of each download command.
- Tui.Model.constructor: `NewModel`'s reading of the configuration, sorting of tabs and the table widgets are not modelled. The constructor takes the tabs and their items.
- Tui search mode, window sizes, the file picker, splash screen and view rendering are interface plumbing and are not modelled.
- The command-line entry point, view rendering, the `exec` helpers and the free-space syscalls are not part of this model.
- Download resumption is not modelled: the single-stream download always recreates its file.

## Findings

| source | as written | input that shows it | evidently intended | confidence | as-written member | corrected member |
|---|---|---|---|---|---|---|
| internal/core/checker.go:349-380 | when the metal artifact has neither an "iso" nor a "live-iso" format the ISO location stays "", and the expected file name is `filepath.Base("")`, which is "." | an artifact with only a "raw.xz" format, with an existing target directory: the check stats the directory itself and reports Up to Date with an empty URL | an artifact without an ISO image is an error, so no verdict claims the image is present | not executed | Checker.MissingIsoReportedCurrent | Checker.MetalVerdict |
| internal/core/checker.go:85-110 | a source with an unknown strategy and a URL reaches the Last-Modified comparison (lines 534-551) even when its local file is missing, with no file information | a missing local file whose server answers 200 with a Last-Modified header: the comparison reads the modification time of absent file information and panics; without the header, the missing file is reported Up to Date | a missing local file is reported as Local File Not Found, as it is for a source without a strategy | not executed | Checker.MissingFileNotReported | Checker.Direct |
