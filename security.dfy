/** Input guards (internal/core/security.go): file-name sanitising, the
    download-URL scheme rule and the regex-pattern guard. */
module Security {

  import opened Wrappers
  import opened Strings

  // ---------------------------------------------------------------------
  // File names

  /** Go's `len(s) >= 2 && s[1] == ':'` on the UTF-8 bytes of `s`: byte 1 is
      the second character only when the first is ASCII (a multi-byte first
      character puts a continuation byte there, which is never ':'). */
  predicate DriveLetter(s: string) {
    |s| >= 2 && s[0] as int < 0x80 && s[1] == ':'
  }

  /** The checks made on the raw input before any rewriting. */
  predicate RawAccepted(filename: string) {
    filename != ""
    && !Contains(filename, "..")
    && !HasPrefix(filename, "/") && !HasPrefix(filename, "\\")
    && !DriveLetter(filename)
  }

  /** The rewriting: both separators become "_", NUL characters are
      dropped. */
  function Cleaned(filename: string): string {
    ReplaceAll(ReplaceAll(ReplaceAll(filename, "/", "_"), "\\", "_"), "\0", "")
  }

  /** `SanitizeFilename`. */
  function SanitizeFilename(filename: string): (r: Result<string>)
    ensures r.Ok? <==> RawAccepted(filename) && Cleaned(filename) !in {"", ".", ".."}
    ensures r.Ok? ==> r.value == Cleaned(filename)
    ensures r.Ok? ==> '/' !in r.value && '\\' !in r.value && '\0' !in r.value
    ensures r.Ok? ==> r.value != "" && r.value != "." && r.value != ".."
    ensures r.Ok? ==> |r.value| <= |filename|
  {
    CleanedShape(filename);
    if filename == "" then Err("empty filename")
    else if Contains(filename, "..") then Err("path traversal detected in filename: " + filename)
    else if HasPrefix(filename, "/") || HasPrefix(filename, "\\") then
      Err("absolute path detected in filename: " + filename)
    else if DriveLetter(filename) then Err("drive letter detected in filename: " + filename)
    else
      var cleaned := Cleaned(filename);
      if cleaned == "" || cleaned == "." || cleaned == ".." then Err("invalid filename after sanitization")
      else Ok(cleaned)
  }

  lemma CleanedShape(filename: string)
    ensures '/' !in Cleaned(filename) && '\\' !in Cleaned(filename) && '\0' !in Cleaned(filename)
    ensures |Cleaned(filename)| <= |filename|
  {
    var s1 := ReplaceAll(filename, "/", "_");
    var s2 := ReplaceAll(s1, "\\", "_");
    var s3 := ReplaceAll(s2, "\0", "");
    ReplaceCharLength(filename, '/', '_');
    ReplaceCharLength(s1, '\\', '_');
    RemoveCharShrinks(s2, '\0');
    forall x | x in s3
      ensures x != '/' && x != '\\' && x != '\0'
    {
      ReplaceCharElements(s2, '\0', "", x);
      ReplaceCharElements(s1, '\\', "_", x);
      if x in s1 {
        ReplaceCharElements(filename, '/', "_", x);
      }
    }
  }

  /** For an input without NUL characters the result is the input with each
      separator, and nothing else, turned into "_". */
  lemma SanitizePointwise(filename: string)
    requires '\0' !in filename && SanitizeFilename(filename).Ok?
    ensures var r := SanitizeFilename(filename).value;
            |r| == |filename|
            && forall i :: 0 <= i < |filename| ==>
                 r[i] == if filename[i] in {'/', '\\'} then '_' else filename[i]
  {
    var s1 := ReplaceAll(filename, "/", "_");
    var s2 := ReplaceAll(s1, "\\", "_");
    ReplaceCharPointwise(filename, '/', '_');
    ReplaceCharPointwise(s1, '\\', '_');
    forall x | x in s2
      ensures x != '\0'
    {
      ReplaceCharElements(s1, '\\', "_", x);
      if x in s1 {
        ReplaceCharElements(filename, '/', "_", x);
      }
    }
    ContainsChar(s2, '\0');
    ReplaceAllAbsent(s2, "\0", "");
  }

  /** The ".." check looks at the raw input, before NUL characters are
      dropped: ".\0.x" passes it and comes out as "..x" (which holds no
      separator, so it still names a file in the target directory). */
  lemma DotCheckBeforeNulRemoval()
    ensures SanitizeFilename(".\0.x") == Ok("..x")
  {
    var s := ".\0.x";
    assert !Contains("x", "..");
    NotPrefixAt(".x", "..", 1);
    assert ".x"[1..] == "x";
    assert !Contains(".x", "..");
    NotPrefixAt("\0.x", "..", 0);
    assert "\0.x"[1..] == ".x";
    assert !Contains("\0.x", "..");
    NotPrefixAt(s, "..", 1);
    assert s[1..] == "\0.x";
    assert !Contains(s, "..");
    NotPrefixAt(s, "/", 0);
    NotPrefixAt(s, "\\", 0);
    MissingCharNotContained("\0.x", "/", 0);
    MissingCharNotContained("\0.x", "\\", 0);
    assert ReplaceAll(s, "/", "_") == s by {
      MissingCharNotContained(s, "/", 0);
      ReplaceAllAbsent(s, "/", "_");
    }
    assert ReplaceAll(s, "\\", "_") == s by {
      MissingCharNotContained(s, "\\", 0);
      ReplaceAllAbsent(s, "\\", "_");
    }
    assert ReplaceAll(s, "\0", "") == "." + ReplaceAll("\0.x", "\0", "") by {
      assert s == "." + "\0.x";
      ReplaceCharAppend(".", "\0.x", '\0', "");
      MissingCharNotContained(".", "\0", 0);
      ReplaceAllAbsent(".", "\0", "");
    }
    assert ReplaceAll("\0.x", "\0", "") == ".x" by {
      assert HasPrefix("\0.x", "\0");
      MissingCharNotContained(".x", "\0", 0);
      ReplaceAllAbsent(".x", "\0", "");
    }
    assert RawAccepted(s);
    assert Cleaned(s) == "..x";
  }

  /** The rejections the repository's table lists. */
  lemma SanitizeRejectsEmpty()
    ensures SanitizeFilename("").Err?
  {
  }

  lemma SanitizeRejectsTraversal()
    ensures SanitizeFilename("../../../etc/passwd").Err?
    ensures SanitizeFilename("..").Err?
  {
    assert HasPrefix("../../../etc/passwd", "..");
    assert HasPrefix("..", "..");
  }

  lemma SanitizeRejectsAbsolute()
    ensures SanitizeFilename("/etc/passwd").Err?
    ensures SanitizeFilename("C:\\Windows\\System32\\cmd.exe").Err?
  {
    assert HasPrefix("/etc/passwd", "/");
    assert DriveLetter("C:\\Windows\\System32\\cmd.exe");
  }

  /** Every name that passes the raw checks, holds no NUL and is not "."
      is accepted, with each separator turned into "_" and every other
      character kept: "test-file.zip" stays as it is and
      "some/path/file.txt" becomes "some_path_file.txt". */
  lemma {:induction false} SanitizeAcceptsPlain(filename: string)
    requires RawAccepted(filename) && '\0' !in filename && filename != "."
    ensures SanitizeFilename(filename).Ok?
    ensures var r := SanitizeFilename(filename).value;
            |r| == |filename|
            && forall i :: 0 <= i < |filename| ==>
                 r[i] == if filename[i] in {'/', '\\'} then '_' else filename[i]
  {
    var s1 := ReplaceAll(filename, "/", "_");
    var s2 := ReplaceAll(s1, "\\", "_");
    ReplaceCharPointwise(filename, '/', '_');
    ReplaceCharPointwise(s1, '\\', '_');
    forall x | x in s2
      ensures x != '\0'
    {
      ReplaceCharElements(s1, '\\', "_", x);
      if x in s1 {
        ReplaceCharElements(filename, '/', "_", x);
      }
    }
    ContainsChar(s2, '\0');
    ReplaceAllAbsent(s2, "\0", "");
    var c := Cleaned(filename);
    assert c == s2;
    if |filename| == 1 {
      assert filename == [filename[0]];
      assert c[0] != '.';
    }
    if |filename| == 2 {
      assert filename[..2] == filename;
      assert filename != "..";
      assert c[0] != '.' || c[1] != '.';
    }
  }

  // ---------------------------------------------------------------------
  // Download URLs

  /** The parts of `url.Parse`'s result the rule reads: the scheme and
      `Hostname()` (the host without port or IPv6 brackets). */
  datatype ParsedURL = ParsedURL(scheme: string, hostname: string)

  const LoopbackHosts: set<string> := {"localhost", "127.0.0.1", "::1"}

  /** `ValidateDownloadURL`; `parsed` is what `url.Parse` returns for
      `downloadURL`. */
  function ValidateDownloadURL(downloadURL: string, parsed: Result<ParsedURL>): (r: Outcome)
    ensures r.Pass? <==> downloadURL != "" && parsed.Ok?
                         && (parsed.value.scheme == "https"
                             || (parsed.value.scheme == "http" && parsed.value.hostname in LoopbackHosts))
  {
    if downloadURL == "" then Fail("empty download URL")
    else if parsed.Err? then Fail("invalid URL: " + parsed.error)
    else if parsed.value.scheme == "https" then Pass
    else if parsed.value.scheme == "http" then
      if parsed.value.hostname in LoopbackHosts then Pass
      else Fail("insecure download URL: HTTP is not allowed (use HTTPS): " + downloadURL)
    else Fail("invalid URL scheme '" + parsed.value.scheme + "': only HTTPS is allowed")
  }

  /** Every scheme other than https and http is refused, the empty one
      included, whatever the host; plain http needs a loopback host. */
  lemma OnlyHttpsOrLoopback(downloadURL: string, scheme: string, host: string)
    ensures scheme != "https" && scheme != "http" ==>
              ValidateDownloadURL(downloadURL, Ok(ParsedURL(scheme, host))).Fail?
    ensures downloadURL != "" && scheme == "http" ==>
              (ValidateDownloadURL(downloadURL, Ok(ParsedURL(scheme, host))).Pass? <==> host in LoopbackHosts)
  {
  }

  // ---------------------------------------------------------------------
  // Regex patterns

  /** A compiled pattern. */
  datatype Regex = Regex(pattern: string)

  /** The regex engine, which this model does not contain: `redos` says
      whether one of the three nested-quantifier, alternation and
      nested-group heuristics matches the pattern, and `compileError` gives
      `regexp.Compile`'s error, if any. */
  datatype Engine = Engine(redos: string -> bool, compileError: string -> Option<string>)

  const MaxPatternBytes := 500

  /** `ValidateRegexPattern`. The length limit counts UTF-8 bytes, as Go's
      `len` does. */
  function ValidateRegexPattern(pattern: string, engine: Engine): (r: Outcome)
    ensures pattern == "" ==> r == Pass
    ensures Utf8Len(pattern) > MaxPatternBytes ==> r.Fail?
    ensures r.Pass? <==> pattern == "" || (Utf8Len(pattern) <= MaxPatternBytes && !engine.redos(pattern)
                                          && engine.compileError(pattern).None?)
  {
    if pattern == "" then Pass
    else if Utf8Len(pattern) > MaxPatternBytes then
      Fail("regex pattern too long (" + NatToString(Utf8Len(pattern)) + " chars, max 500)")
    else if engine.redos(pattern) then Fail("potentially unsafe regex pattern detected (possible ReDoS)")
    else match engine.compileError(pattern)
      case Some(e) => Fail("invalid regex pattern: " + e)
      case None => Pass
  }

  /** A pattern longer than 500 characters is refused before the engine is
      consulted (600 NUL bytes in the repository's table). */
  lemma LongPatternRefused(pattern: string, engine: Engine)
    requires |pattern| > MaxPatternBytes
    ensures ValidateRegexPattern(pattern, engine).Fail?
  {
  }

  /** `SafeCompileRegex`: validation, then compilation. */
  function SafeCompileRegex(pattern: string, engine: Engine): (r: Result<Regex>)
    ensures r.Ok? ==> r.value == Regex(pattern)
    ensures r.Err? <==> ValidateRegexPattern(pattern, engine).Fail? || engine.compileError(pattern).Some?
  {
    match ValidateRegexPattern(pattern, engine)
    case Fail(e) => Err(e)
    case Pass =>
      match engine.compileError(pattern)
      case Some(e) => Err(e)
      case None => Ok(Regex(pattern))
  }

  /** With an engine that compiles the empty pattern (as Go's does),
      `SafeCompileRegex` fails exactly when validation does. */
  lemma SafeCompileMatchesValidation(pattern: string, engine: Engine)
    requires engine.compileError("").None?
    ensures SafeCompileRegex(pattern, engine).Err? <==> ValidateRegexPattern(pattern, engine).Fail?
  {
  }
}
