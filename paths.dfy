/** Go's `path/filepath` on a Unix host: `Base` exactly, `Join` without the
    final `Clean`. */
module Paths {

  import opened Wrappers
  import opened Strings

  function TrimTrailingSlashes(p: string): (r: string)
    ensures |r| <= |p| && r == p[..|r|]
    ensures r == [] || r[|r| - 1] != '/'
    decreases |p|
  {
    if p != [] && p[|p| - 1] == '/' then TrimTrailingSlashes(p[..|p| - 1]) else p
  }

  /** `filepath.Base`: the last element of the path, "." for the empty path and
      "/" for a path made only of slashes. */
  function Base(p: string): (r: string)
    ensures r != []
    ensures '/' in r ==> r == "/"
  {
    if p == [] then "."
    else
      var t := TrimTrailingSlashes(p);
      var last := match LastIndexOf(t, '/')
        case None => t
        case Some(i) => t[i + 1..];
      if last == [] then "/" else last
  }

  /** A path with no separator is its own base. */
  lemma BaseOfName(p: string)
    requires p != [] && '/' !in p
    ensures Base(p) == p
  {
    assert TrimTrailingSlashes(p) == p;
  }

  function NonEmpty(elems: seq<string>): (r: seq<string>)
    ensures forall k :: 0 <= k < |r| ==> r[k] != []
    ensures |r| <= |elems|
  {
    if elems == [] then []
    else (if elems[0] == [] then [] else [elems[0]]) + NonEmpty(elems[1..])
  }

  /** `filepath.Join`: the non-empty elements joined by "/". The lexical
      `Clean` Go applies afterwards is not part of this model. */
  function JoinPath(elems: seq<string>): string {
    Join(NonEmpty(elems), "/")
  }

  lemma {:induction false} NonEmptyAppend(a: seq<string>, b: seq<string>)
    ensures NonEmpty(a + b) == NonEmpty(a) + NonEmpty(b)
    decreases |a|
  {
    if a == [] {
      assert a + b == b;
    } else {
      assert (a + b)[1..] == a[1..] + b;
      NonEmptyAppend(a[1..], b);
    }
  }

  lemma {:induction false} JoinSnoc(parts: seq<string>, last: string, sep: string)
    ensures parts == [] ==> Join(parts + [last], sep) == last
    ensures parts != [] ==> Join(parts + [last], sep) == Join(parts, sep) + sep + last
    decreases |parts|
  {
    if |parts| > 1 {
      assert (parts + [last])[1..] == parts[1..] + [last];
      JoinSnoc(parts[1..], last, sep);
    } else if |parts| == 1 {
      assert (parts + [last])[1..] == [last];
    }
  }

  lemma JoinPathSingle(a: string)
    requires a != []
    ensures JoinPath([a]) == a
  {
    assert [a][1..] == [];
    assert NonEmpty([a]) == [a];
  }

  /** A non-empty first element is followed by one "/" and the join of the
      rest, when the rest has a non-empty element. */
  lemma JoinPathCons(a: string, rest: seq<string>)
    requires a != [] && NonEmpty(rest) != []
    ensures JoinPath([a] + rest) == a + "/" + JoinPath(rest)
  {
    assert ([a] + rest)[0] == a && ([a] + rest)[1..] == rest;
    assert NonEmpty([a] + rest) == [a] + NonEmpty(rest);
    assert ([a] + NonEmpty(rest))[1..] == NonEmpty(rest);
  }

  /** Joining two non-empty elements puts one "/" between them. */
  lemma JoinPath2(a: string, b: string)
    requires a != [] && b != []
    ensures JoinPath([a, b]) == a + "/" + b
  {
    JoinPathSingle(b);
    assert [a, b] == [a] + [b];
    JoinPathCons(a, [b]);
  }

  /** Joining three non-empty elements puts one "/" between each. */
  lemma JoinPath3(a: string, b: string, c: string)
    requires a != [] && b != [] && c != []
    ensures JoinPath([a, b, c]) == a + "/" + b + "/" + c
  {
    JoinPath2(b, c);
    assert [a, b, c] == [a] + [b, c];
    JoinPathCons(a, [b, c]);
  }

  /** The last occurrence of `c` is at `k` when nothing after `k` is `c`. */
  lemma {:induction false} LastIndexAt(s: string, c: char, k: nat)
    requires k < |s| && s[k] == c
    requires forall j :: k < j < |s| ==> s[j] != c
    ensures LastIndexOf(s, c) == Some(k)
    decreases |s|
  {
    if k < |s| - 1 {
      LastIndexAt(s[..|s| - 1], c, k);
    }
  }

  /** The base of `prefix + "/" + name` is `name` when `name` is a plain file
      name. */
  lemma BaseAfterSlash(prefix: string, name: string)
    requires name != [] && '/' !in name
    ensures Base(prefix + "/" + name) == name
  {
    var p := prefix + "/" + name;
    assert p[|p| - 1] == name[|name| - 1];
    assert TrimTrailingSlashes(p) == p;
    assert forall j :: |prefix| < j < |p| ==> p[j] == name[j - |prefix| - 1];
    LastIndexAt(p, '/', |prefix|);
    assert p[|prefix| + 1..] == name;
  }

  /** Joining a plain file name onto any directory elements yields a path
      whose base is that name: the last element of a join is what was
      appended last. */
  lemma BaseOfJoin(dirs: seq<string>, name: string)
    requires name != [] && '/' !in name
    ensures Base(JoinPath(dirs + [name])) == name
  {
    NonEmptyAppend(dirs, [name]);
    assert NonEmpty([name]) == [name];
    JoinSnoc(NonEmpty(dirs), name, "/");
    if NonEmpty(dirs) == [] {
      BaseOfName(name);
    } else {
      BaseAfterSlash(Join(NonEmpty(dirs), "/"), name);
    }
  }
}
