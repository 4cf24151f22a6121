/** The subset of Go's `strings` and `strconv` behaviour the core relies on,
    over Dafny strings (`seq<char>`). */
module Strings {

  import opened Wrappers

  predicate HasPrefix(s: string, p: string) {
    |p| <= |s| && s[..|p|] == p
  }

  predicate HasSuffix(s: string, p: string) {
    |p| <= |s| && s[|s| - |p|..] == p
  }

  /** `strings.Contains`: some position of `s` starts an occurrence of `sub`
      (the empty string occurs everywhere). */
  predicate Contains(s: string, sub: string)
    decreases |s|
  {
    HasPrefix(s, sub) || (|s| > 0 && Contains(s[1..], sub))
  }

  lemma {:induction false} ContainsAt(s: string, sub: string, i: nat)
    requires i + |sub| <= |s| && s[i..i + |sub|] == sub
    ensures Contains(s, sub)
    decreases i
  {
    if i > 0 {
      assert s[1..][i - 1..i - 1 + |sub|] == s[i..i + |sub|];
      ContainsAt(s[1..], sub, i - 1);
    }
  }

  /** An occurrence of `a + b` is an occurrence of `a`. */
  lemma {:induction false} ContainsPrefixOf(s: string, a: string, b: string)
    requires Contains(s, a + b)
    ensures Contains(s, a)
    decreases |s|
  {
    if !HasPrefix(s, a + b) {
      ContainsPrefixOf(s[1..], a, b);
    } else {
      assert s[..|a|] == (a + b)[..|a|];
    }
  }

  /** A mismatch at position `i` rules out a prefix match. */
  lemma NotPrefixAt(s: string, p: string, i: nat)
    requires i < |p| && i < |s| && s[i] != p[i]
    ensures !HasPrefix(s, p)
  {
    if |p| <= |s| {
      assert s[..|p|][i] == s[i];
    }
  }

  /** A string cannot contain a pattern one of whose characters it lacks. */
  lemma {:induction false} MissingCharNotContained(s: string, sub: string, i: nat)
    requires i < |sub| && sub[i] !in s
    ensures !Contains(s, sub)
    decreases |s|
  {
    if |s| > 0 {
      MissingCharNotContained(s[1..], sub, i);
      if |sub| <= |s| {
        assert s[..|sub|][i] == s[i];
      }
    }
  }

  lemma {:induction false} ContainsChar(s: string, c: char)
    ensures Contains(s, [c]) <==> c in s
    decreases |s|
  {
    if |s| > 0 {
      ContainsChar(s[1..], c);
      assert s == [s[0]] + s[1..];
    }
  }

  /** `strings.ReplaceAll` for a non-empty pattern: a left-to-right scan that
      replaces non-overlapping occurrences. */
  function ReplaceAll(s: string, pat: string, rep: string): string
    requires |pat| > 0
    decreases |s|
  {
    if s == [] then []
    else if HasPrefix(s, pat) then rep + ReplaceAll(s[|pat|..], pat, rep)
    else [s[0]] + ReplaceAll(s[1..], pat, rep)
  }

  /** Replacing a pattern that does not occur leaves the string as it was. */
  lemma {:induction false} ReplaceAllAbsent(s: string, pat: string, rep: string)
    requires |pat| > 0 && !Contains(s, pat)
    ensures ReplaceAll(s, pat, rep) == s
    decreases |s|
  {
    if s != [] {
      ReplaceAllAbsent(s[1..], pat, rep);
      assert s == [s[0]] + s[1..];
    }
  }

  /** Every character left after replacing the one-character pattern `c`
      comes from the input (and is not `c`) or from the replacement. */
  lemma {:induction false} ReplaceCharElements(s: string, c: char, rep: string, x: char)
    requires x in ReplaceAll(s, [c], rep)
    ensures (x in s && x != c) || x in rep
    decreases |s|
  {
    if s != [] {
      if HasPrefix(s, [c]) {
        if x !in rep {
          ReplaceCharElements(s[1..], c, rep, x);
        }
      } else {
        if x != s[0] {
          ReplaceCharElements(s[1..], c, rep, x);
        }
      }
    }
  }

  /** Replacing a one-character pattern distributes over concatenation. */
  lemma {:induction false} ReplaceCharAppend(a: string, b: string, c: char, rep: string)
    ensures ReplaceAll(a + b, [c], rep) == ReplaceAll(a, [c], rep) + ReplaceAll(b, [c], rep)
    decreases |a|
  {
    if a == [] {
      assert a + b == b;
    } else {
      assert (a + b)[1..] == a[1..] + b;
      var h := if a[0] == c then rep else [a[0]];
      ReplaceCharHead(a + b, c, rep);
      ReplaceCharHead(a, c, rep);
      ReplaceCharAppend(a[1..], b, c, rep);
      AppendAssoc(h, ReplaceAll(a[1..], [c], rep), ReplaceAll(b, [c], rep));
    }
  }

  lemma AppendAssoc<T>(x: seq<T>, y: seq<T>, z: seq<T>)
    ensures x + (y + z) == (x + y) + z
  {
  }

  /** Replacing a one-character pattern, one character at a time. */
  lemma ReplaceCharHead(s: string, c: char, rep: string)
    requires s != []
    ensures ReplaceAll(s, [c], rep) == (if s[0] == c then rep else [s[0]]) + ReplaceAll(s[1..], [c], rep)
  {
    assert HasPrefix(s, [c]) <==> s[0] == c;
  }

  /** Replacing one character by another acts position by position. */
  lemma {:induction false} ReplaceCharPointwise(s: string, c: char, d: char)
    ensures |ReplaceAll(s, [c], [d])| == |s|
    ensures forall i :: 0 <= i < |s| ==> ReplaceAll(s, [c], [d])[i] == if s[i] == c then d else s[i]
    decreases |s|
  {
    if s != [] {
      ReplaceCharPointwise(s[1..], c, d);
    }
  }

  /** An occurrence has a position. */
  lemma {:induction false} ContainsWitness(s: string, sub: string) returns (i: nat)
    requires Contains(s, sub)
    ensures i + |sub| <= |s| && s[i..i + |sub|] == sub
    decreases |s|
  {
    if HasPrefix(s, sub) {
      i := 0;
    } else {
      var j := ContainsWitness(s[1..], sub);
      assert s[1..][j..j + |sub|] == s[j + 1..j + 1 + |sub|];
      i := j + 1;
    }
  }

  /** A string with no two `c` in a row does not contain "cc". */
  lemma {:induction false} NoAdjacentNotContained(s: string, c: char)
    requires forall i :: 0 <= i < |s| - 1 ==> s[i] != c || s[i + 1] != c
    ensures !Contains(s, [c, c])
    decreases |s|
  {
    if |s| >= 2 {
      assert s[..2][0] == s[0] && s[..2][1] == s[1];
    }
    if |s| > 0 {
      NoAdjacentNotContained(s[1..], c);
    }
  }

  /** A string with a single `c` has no two `c` in a row. */
  lemma NoDoubledChar(a: string, c: char, b: string)
    requires c !in a && c !in b
    ensures !Contains(a + [c] + b, [c, c])
  {
    var s := a + [c] + b;
    forall i | 0 <= i < |s| - 1
      ensures s[i] != c || s[i + 1] != c
    {
      if i < |a| {
        assert s[i] == a[i];
      } else if i == |a| {
        assert s[i + 1] == b[0];
      } else {
        assert s[i] == b[i - |a| - 1];
      }
    }
    NoAdjacentNotContained(s, c);
  }

  /** Replacing one character by one character keeps the length. */
  lemma {:induction false} ReplaceCharLength(s: string, c: char, d: char)
    ensures |ReplaceAll(s, [c], [d])| == |s|
    decreases |s|
  {
    if s != [] {
      ReplaceCharLength(s[1..], c, d);
    }
  }

  /** Removing a character never lengthens the string, and a string that
      keeps its length had nothing removed. */
  lemma {:induction false} RemoveCharShrinks(s: string, c: char)
    ensures |ReplaceAll(s, [c], [])| <= |s|
    ensures |ReplaceAll(s, [c], [])| == |s| ==> ReplaceAll(s, [c], []) == s
    decreases |s|
  {
    if s != [] {
      RemoveCharShrinks(s[1..], c);
    }
  }

  function LowerChar(c: char): char {
    if 'A' <= c <= 'Z' then (c as int + 32) as char else c
  }

  /** `strings.ToLower`, restricted to ASCII letters. */
  function Lower(s: string): (r: string)
    ensures |r| == |s|
    ensures forall i :: 0 <= i < |s| ==> r[i] == LowerChar(s[i])
  {
    seq(|s|, i requires 0 <= i < |s| => LowerChar(s[i]))
  }

  /** `strings.EqualFold`, restricted to ASCII case folding. */
  predicate EqualFold(a: string, b: string) {
    Lower(a) == Lower(b)
  }

  /** Index of the first occurrence of `c`, or None (`strings.IndexByte`). */
  function IndexOf(s: string, c: char): (r: Option<nat>)
    ensures r.Some? ==> r.value < |s| && s[r.value] == c && c !in s[..r.value]
    ensures r.None? ==> c !in s
    decreases |s|
  {
    if s == [] then None
    else if s[0] == c then Some(0)
    else match IndexOf(s[1..], c)
      case None => None
      case Some(i) => assert s[..i + 1] == [s[0]] + s[1..][..i]; Some(i + 1)
  }

  /** The first `c` of `a + [c] + b` is the one after `a` when `a` has none. */
  lemma {:induction false} IndexAfter(a: string, c: char, b: string)
    requires c !in a
    ensures IndexOf(a + [c] + b, c) == Some(|a|)
    decreases |a|
  {
    if a != [] {
      assert (a + [c] + b)[1..] == a[1..] + [c] + b;
      IndexAfter(a[1..], c, b);
    }
  }

  /** Index of the last occurrence of `c`, or None (`strings.LastIndex`). */
  function LastIndexOf(s: string, c: char): (r: Option<nat>)
    ensures r.Some? ==> r.value < |s| && s[r.value] == c && c !in s[r.value + 1..]
    ensures r.None? ==> c !in s
    decreases |s|
  {
    if s == [] then None
    else if s[|s| - 1] == c then Some(|s| - 1)
    else match LastIndexOf(s[..|s| - 1], c)
      case None => None
      case Some(i) => assert s[i + 1..] == s[..|s| - 1][i + 1..] + [s[|s| - 1]]; Some(i)
  }

  /** `strings.TrimLeft(s, string([c]))`. */
  function TrimLeftChar(s: string, c: char): string
    decreases |s|
  {
    if s != [] && s[0] == c then TrimLeftChar(s[1..], c) else s
  }

  /** `TrimLeftChar` removes exactly the leading run of `c`: what is left
      does not start with `c`, and the input is that run followed by it. */
  lemma {:induction false} TrimLeftCharShape(s: string, c: char)
    ensures var r := TrimLeftChar(s, c);
      |r| <= |s| && (r == [] || r[0] != c) && s == seq(|s| - |r|, _ => c) + r
    decreases |s|
  {
    if s != [] && s[0] == c {
      TrimLeftCharShape(s[1..], c);
      var r := TrimLeftChar(s[1..], c);
      assert s == [c] + s[1..];
      assert [c] + seq(|s| - 1 - |r|, _ => c) == seq(|s| - |r|, _ => c);
      AppendAssoc([c], seq(|s| - 1 - |r|, _ => c), r);
    }
  }

  function TrimLeftSet(s: string, cut: set<char>): (r: string)
    ensures |r| <= |s| && r == s[|s| - |r|..]
    ensures r == [] || r[0] !in cut
    decreases |s|
  {
    if s != [] && s[0] in cut then TrimLeftSet(s[1..], cut) else s
  }

  function TrimRightSet(s: string, cut: set<char>): (r: string)
    ensures |r| <= |s| && r == s[..|r|]
    ensures r == [] || r[|r| - 1] !in cut
    decreases |s|
  {
    if s != [] && s[|s| - 1] in cut then TrimRightSet(s[..|s| - 1], cut) else s
  }

  /** `strings.Trim(s, cutset)`. */
  function Trim(s: string, cut: set<char>): (r: string)
    ensures |r| <= |s|
    ensures forall c :: c in r ==> c in s
    ensures r == [] || (r[0] !in cut && r[|r| - 1] !in cut)
  {
    TrimRightSet(TrimLeftSet(s, cut), cut)
  }

  function TrimPrefix(s: string, p: string): string {
    if HasPrefix(s, p) then s[|p|..] else s
  }

  function TrimSuffix(s: string, p: string): string {
    if HasSuffix(s, p) then s[..|s| - |p|] else s
  }

  /** `strings.Join`. */
  function Join(parts: seq<string>, sep: string): string {
    if parts == [] then []
    else if |parts| == 1 then parts[0]
    else parts[0] + sep + Join(parts[1..], sep)
  }

  /** `strings.Split(s, string([c]))`: the pieces between occurrences of `c`. */
  function Split(s: string, c: char): seq<string>
    decreases |s|
  {
    match IndexOf(s, c)
    case None => [s]
    case Some(i) => [s[..i]] + Split(s[i + 1..], c)
  }

  /** Number of occurrences of `c` in `s`. */
  function Count(s: string, c: char): nat
    decreases |s|
  {
    if s == [] then 0 else (if s[0] == c then 1 else 0) + Count(s[1..], c)
  }

  lemma {:induction false} CountZero(s: string, c: char)
    ensures Count(s, c) == 0 <==> c !in s
    decreases |s|
  {
    if s != [] {
      CountZero(s[1..], c);
      assert s == [s[0]] + s[1..];
    }
  }

  lemma {:induction false} CountAppend(a: string, b: string, c: char)
    ensures Count(a + b, c) == Count(a, c) + Count(b, c)
    decreases |a|
  {
    if a != [] {
      assert (a + b)[1..] == a[1..] + b;
      CountAppend(a[1..], b, c);
    } else {
      assert a + b == b;
    }
  }

  /** Splitting yields one more piece than there are separators. */
  lemma {:induction false} SplitCount(s: string, c: char)
    ensures |Split(s, c)| == Count(s, c) + 1
    decreases |s|
  {
    match IndexOf(s, c)
    case None =>
      CountZero(s, c);
    case Some(i) =>
      var rest := s[i + 1..];
      SplitCount(rest, c);
      assert s == s[..i] + ([c] + rest);
      CountAppend(s[..i], [c] + rest, c);
      CountZero(s[..i], c);
      assert ([c] + rest)[1..] == rest;
  }

  /** No piece of a split holds the separator. */
  lemma {:induction false} SplitPieces(s: string, c: char)
    ensures forall k :: 0 <= k < |Split(s, c)| ==> c !in Split(s, c)[k]
    decreases |s|
  {
    match IndexOf(s, c)
    case None =>
    case Some(i) =>
      SplitPieces(s[i + 1..], c);
  }

  /** Joining the pieces of a split with the separator gives the input back. */
  lemma {:induction false} SplitJoin(s: string, c: char)
    ensures Join(Split(s, c), [c]) == s
    decreases |s|
  {
    match IndexOf(s, c)
    case None =>
    case Some(i) =>
      var rest := s[i + 1..];
      SplitJoin(rest, c);
      SplitCount(rest, c);
      JoinCons(s[..i], Split(rest, c), [c]);
      Around(s, i);
  }

  /** Joining a piece in front of at least one other. */
  lemma JoinCons(x: string, parts: seq<string>, sep: string)
    requires parts != []
    ensures Join([x] + parts, sep) == x + sep + Join(parts, sep)
  {
    assert ([x] + parts)[1..] == parts;
  }

  /** A string is what comes before position `i`, the character there and
      what comes after. */
  lemma Around<T>(s: seq<T>, i: nat)
    requires i < |s|
    ensures s == s[..i] + [s[i]] + s[i + 1..]
  {
  }

  function DigitChar(d: nat): char
    requires d < 10
  {
    ('0' as int + d) as char
  }

  /** Decimal rendering of a natural number (`strconv.Itoa` for n >= 0). */
  function NatToString(n: nat): (r: string)
    ensures |r| > 0
    ensures forall i :: 0 <= i < |r| ==> '0' <= r[i] <= '9'
  {
    if n < 10 then [DigitChar(n)] else NatToString(n / 10) + [DigitChar(n % 10)]
  }

  /** `fmt.Sprintf("%d", i)`. */
  function IntToString(i: int): string {
    if i < 0 then "-" + NatToString(-i) else NatToString(i)
  }

  /** Distinct numbers render differently: the decimal text determines the
      number. */
  lemma {:induction false} NatToStringInjective(a: nat, b: nat)
    requires NatToString(a) == NatToString(b)
    ensures a == b
    decreases a
  {
    if a >= 10 && b >= 10 {
      var x, y := NatToString(a), NatToString(b);
      assert x[..|x| - 1] == NatToString(a / 10) && y[..|y| - 1] == NatToString(b / 10);
      NatToStringInjective(a / 10, b / 10);
      assert x[|x| - 1] == DigitChar(a % 10) && y[|y| - 1] == DigitChar(b % 10);
    }
  }

  lemma IntToStringInjective(a: int, b: int)
    requires IntToString(a) == IntToString(b)
    ensures a == b
  {
    assert IntToString(a)[0] == '-' <==> a < 0;
    assert IntToString(b)[0] == '-' <==> b < 0;
    if a < 0 {
      assert NatToString(-a) == IntToString(a)[1..];
      NatToStringInjective(-a, -b);
    } else {
      NatToStringInjective(a, b);
    }
  }

  /** Decimal rendering left-padded with zeros to at least `width` digits. */
  function PadNat(n: nat, width: nat): (r: string)
    ensures |r| >= width
    decreases width
  {
    var d := NatToString(n);
    if |d| >= width then d else "0" + PadNat(n, width - 1)
  }

  function Pow10(k: nat): (r: nat)
    ensures r >= 1
  {
    if k == 0 then 1 else 10 * Pow10(k - 1)
  }

  /** A number below 10^k has at most k digits. */
  lemma {:induction false} NatToStringDigits(n: nat, k: nat)
    requires k >= 1 && n < Pow10(k)
    ensures |NatToString(n)| <= k
    decreases k
  {
    if n >= 10 {
      NatToStringDigits(n / 10, k - 1);
    }
  }

  /** A number below 10^width pads to exactly `width` digits. */
  lemma PadNatFits(n: int, width: nat)
    ensures 0 <= n < Pow10(width) && width >= 1 ==> |PadNat(n, width)| == width
  {
    if 0 <= n < Pow10(width) && width >= 1 {
      NatToStringDigits(n, width);
      PadNatExact(n, width);
    }
  }

  /** Padding reaches exactly the width when the digits fit in it. */
  lemma {:induction false} PadNatExact(n: nat, width: nat)
    requires |NatToString(n)| <= width
    ensures |PadNat(n, width)| == width
    decreases width
  {
    if |NatToString(n)| < width {
      PadNatExact(n, width - 1);
    }
  }

  /** Number of bytes the UTF-8 encoding of `c` takes: Go's `len` counts
      these, not characters. */
  function Utf8Width(c: char): nat {
    if c as int < 0x80 then 1
    else if c as int < 0x800 then 2
    else if c as int < 0x10000 then 3
    else 4
  }

  /** Go's `len(s)` for a string holding the UTF-8 encoding of `s`. */
  function Utf8Len(s: string): (n: nat)
    ensures n >= |s|
  {
    if s == [] then 0 else Utf8Width(s[0]) + Utf8Len(s[1..])
  }

  /** An ASCII string is as long in bytes as in characters. */
  lemma {:induction false} AsciiUtf8Len(s: string)
    requires forall k :: 0 <= k < |s| ==> s[k] as int < 0x80
    ensures Utf8Len(s) == |s|
    decreases |s|
  {
    if s != [] {
      AsciiUtf8Len(s[1..]);
    }
  }

}
