/** Checksum verification (internal/downloader/verifier.go). The hash
    primitives are a parameter; the file is what reading it yields. */
module Verifier {

  import opened Wrappers
  import opened Strings

  type byte = x: int | 0 <= x < 256

  datatype Algorithm = MD5 | SHA1 | SHA256

  /** What opening and reading the file gives: its bytes, a failure to
      open it, or a failure while reading it. */
  datatype FileRead = Content(bytes: seq<byte>) | OpenFailed(openError: string) | ReadFailed(readError: string)

  /** The hash primitives: the digest of some bytes under an algorithm. */
  type Digests = (Algorithm, seq<byte>) -> seq<byte>

  /** The expected checksum split into an algorithm name and a hex digest:
      at the first ':' when there is one, otherwise the algorithm is
      guessed from the length in bytes (32 is md5, 40 is sha1, anything
      else sha256). */
  function ParseSpec(expected: string): (r: (string, string))
    ensures ':' in expected ==> ':' !in r.0 && r.0 + ":" + r.1 == expected
    ensures ':' !in expected ==> r.1 == expected
                                 && r.0 == (if Utf8Len(expected) == 32 then "md5"
                                            else if Utf8Len(expected) == 40 then "sha1" else "sha256")
  {
    match IndexOf(expected, ':')
    case Some(i) =>
      assert expected == expected[..i] + ":" + expected[i + 1..];
      (expected[..i], expected[i + 1..])
    case None =>
      var l := Utf8Len(expected);
      (if l == 32 then "md5" else if l == 40 then "sha1" else "sha256", expected)
  }

  /** The algorithm a name selects, ignoring case. (ASCII lowering is exact
      here: no non-ASCII character lowers to a letter of these names.) */
  function AlgorithmNamed(name: string): (r: Option<Algorithm>)
    ensures r == Some(MD5) <==> EqualFold(name, "md5")
    ensures r == Some(SHA1) <==> EqualFold(name, "sha1")
    ensures r == Some(SHA256) <==> EqualFold(name, "sha256")
  {
    assert Lower("md5") == "md5" && Lower("sha1") == "sha1" && Lower("sha256") == "sha256";
    var l := Lower(name);
    if l == "md5" then Some(MD5)
    else if l == "sha1" then Some(SHA1)
    else if l == "sha256" then Some(SHA256)
    else None
  }

  const HexDigits := "0123456789abcdef"

  /** `hex.EncodeToString`: two lower-case digits per byte. */
  function Hex(bytes: seq<byte>): (r: string)
    ensures |r| == 2 * |bytes|
    ensures forall k :: 0 <= k < |r| ==> r[k] in HexDigits
  {
    if bytes == [] then []
    else [HexDigits[bytes[0] / 16], HexDigits[bytes[0] % 16]] + Hex(bytes[1..])
  }

  /** `VerifyFile`. */
  function VerifyFile(file: FileRead, expected: string, digest: Digests): (r: Outcome)
    ensures expected == "" ==> r == Pass
    ensures expected != "" && file.OpenFailed? ==>
              r == Fail("failed to open file for verification: " + file.openError)
    ensures r.Pass? <==>
              expected == ""
              || (file.Content? && AlgorithmNamed(ParseSpec(expected).0).Some?
                  && EqualFold(Hex(digest(AlgorithmNamed(ParseSpec(expected).0).value, file.bytes)),
                               ParseSpec(expected).1))
  {
    if expected == "" then Pass
    else match file
      case OpenFailed(e) => Fail("failed to open file for verification: " + e)
      case _ =>
        var (algo, hashStr) := ParseSpec(expected);
        match AlgorithmNamed(algo)
        case None => Fail("unsupported hash algorithm: " + algo)
        case Some(a) =>
          match file
          case ReadFailed(e) => Fail("failed to calculate hash: " + e)
          case Content(bytes) =>
            var calculated := Hex(digest(a, bytes));
            if !EqualFold(calculated, hashStr) then
              Fail("checksum mismatch: expected " + hashStr + ", got " + calculated)
            else Pass
  }

  /** An algorithm name that is not md5, sha1 or sha256 in any case is
      refused for any file that opens. */
  lemma UnsupportedRefused(file: FileRead, name: string, hexDigest: string, digest: Digests)
    requires !file.OpenFailed?
    requires !EqualFold(name, "md5") && !EqualFold(name, "sha1") && !EqualFold(name, "sha256")
    requires ':' !in name
    ensures VerifyFile(file, name + ":" + hexDigest, digest) == Fail("unsupported hash algorithm: " + name)
  {
    var e := name + ":" + hexDigest;
    assert e[|name|] == ':';
    SplitAtColon(name, hexDigest);
  }

  /** The spec "<name>:<hex>" splits back into its two parts when the name
      holds no ':'. */
  lemma SplitAtColon(name: string, hexDigest: string)
    requires ':' !in name
    ensures ParseSpec(name + ":" + hexDigest) == (name, hexDigest)
  {
    var e := name + ":" + hexDigest;
    IndexAfter(name, ':', hexDigest);
    assert e[..|name|] == name && e[|name| + 1..] == hexDigest;
  }

  lemma HexDigitsShape()
    ensures forall c :: c in HexDigits ==> c as int < 0x80 && c != ':' && LowerChar(c) == c
  {
    forall c | c in HexDigits
      ensures c as int < 0x80 && c != ':' && LowerChar(c) == c
    {
      var i :| 0 <= i < |HexDigits| && HexDigits[i] == c;
    }
  }

  /** Hex digits are unchanged by lowering, so a digest matches its own
      encoding, in lower or upper case. */
  lemma HexIsLower(bytes: seq<byte>)
    ensures Lower(Hex(bytes)) == Hex(bytes)
  {
    HexDigitsShape();
  }

  /** A digest written bare, with the length its algorithm produces (16
      bytes for md5, 32 for sha256), validates: the length guess picks the
      right algorithm. The repository's table checks this for md5 and
      sha256 of "hello world". */
  lemma BareDigestAccepted(bytes: seq<byte>, a: Algorithm, digest: Digests)
    requires a == MD5 ==> |digest(a, bytes)| == 16
    requires a == SHA1 ==> |digest(a, bytes)| == 20
    requires a == SHA256 ==> |digest(a, bytes)| == 32
    ensures VerifyFile(Content(bytes), Hex(digest(a, bytes)), digest) == Pass
  {
    var h := Hex(digest(a, bytes));
    HexAscii(digest(a, bytes));
    NoColonInHex(digest(a, bytes));
    GuessedAlgorithm(h, a);
    HexIsLower(digest(a, bytes));
  }

  /** Hex text holds no ':'. */
  lemma NoColonInHex(bytes: seq<byte>)
    ensures ':' !in Hex(bytes)
  {
    HexDigitsShape();
  }

  /** A bare digest of 32, 40 or 64 bytes selects md5, sha1 or sha256. */
  lemma GuessedAlgorithm(h: string, a: Algorithm)
    requires ':' !in h
    requires a == MD5 ==> Utf8Len(h) == 32
    requires a == SHA1 ==> Utf8Len(h) == 40
    requires a == SHA256 ==> Utf8Len(h) == 64
    ensures AlgorithmNamed(ParseSpec(h).0) == Some(a)
  {
    assert Lower("md5") == "md5" && Lower("sha1") == "sha1" && Lower("sha256") == "sha256";
  }

  /** Hex text is ASCII, so its length in bytes is its length. */
  lemma HexAscii(bytes: seq<byte>)
    ensures Utf8Len(Hex(bytes)) == 2 * |bytes|
  {
    HexDigitsShape();
    AsciiUtf8Len(Hex(bytes));
  }

  /** The explicit form "<algorithm>:<hex>" validates too, whatever the
      case of the algorithm name. */
  lemma PrefixedDigestAccepted(bytes: seq<byte>, name: string, a: Algorithm, digest: Digests)
    requires ':' !in name && AlgorithmNamed(name) == Some(a)
    ensures VerifyFile(Content(bytes), name + ":" + Hex(digest(a, bytes)), digest) == Pass
  {
    var e := name + ":" + Hex(digest(a, bytes));
    assert e[|name|] == ':';
    SplitAtColon(name, Hex(digest(a, bytes)));
    HexIsLower(digest(a, bytes));
  }

  /** A hex digest of odd length, such as "badchecksum", can never match:
      every encoding has even length. */
  lemma OddLengthNeverMatches(file: FileRead, expected: string, digest: Digests)
    requires expected != "" && ':' !in expected && |expected| % 2 == 1
    ensures VerifyFile(file, expected, digest).Fail?
  {
    if file.Content? {
      var a := AlgorithmNamed(ParseSpec(expected).0);
      if a.Some? {
        var h := Hex(digest(a.value, file.bytes));
        assert |Lower(h)| != |Lower(expected)|;
      }
    }
  }
}
