/** Source-template expansion and path naming (internal/config/config.go).

    A templated `Source` is expanded over the configured OS × Arch product:
    excluded pairs are skipped, placeholders in its parameters are rendered,
    duplicates (by OS, effective arch and rendered parameters) are dropped
    keeping the first, and each variant gets a display suffix. */
module Config {

  import opened Wrappers
  import opened Strings
  import Paths

  datatype Source = Source(
    id: string,
    name: string,
    strategy: string,
    params: map<string, string>,
    os: string,
    arch: string,
    exclude: seq<string>,
    checksum: string,
    url: string,
    standardizeName: bool,
    osMap: map<string, string>,
    archMap: map<string, string>,
    extMap: map<string, string>)

  datatype Category = Category(path: string, language: string, sources: seq<Source>)

  /** The `general` section: the OS and Arch lists sources are expanded over,
      and the download and API settings other modules read. */
  datatype General = General(
    osList: seq<string>,
    archList: seq<string>,
    githubToken: string,
    threads: int,
    apiRateLimit: real,
    apiBurst: int)

  /** One point of the OS × Arch product. */
  datatype Target = Target(os: string, arch: string)

  /** The deduplication key of an expanded variant. */
  datatype Key = Key(os: string, arch: string, params: map<string, string>)

  /** Whether the source renders per OS and per arch. */
  datatype Flags = Flags(usesOS: bool, usesArch: bool)

  predicate Distinct<T(==)>(s: seq<T>) {
    forall i, j :: 0 <= i < j < |s| ==> s[i] != s[j]
  }

  /** A parameter, or "" when absent (a Go map read of a missing key). */
  function Param(src: Source, k: string): string {
    if k in src.params then src.params[k] else ""
  }

  function Lookup(m: map<string, string>, k: string): string {
    if k in m then m[k] else ""
  }

  // ---------------------------------------------------------------------
  // Exclusion

  /** `isExcluded`: an entry names the pair "os/arch", the bare OS or the
      bare arch. */
  function IsExcluded(excludes: seq<string>, os: string, arch: string): (r: bool)
    ensures r <==> exists i :: 0 <= i < |excludes| &&
                     (excludes[i] == os + "/" + arch || excludes[i] == os || excludes[i] == arch)
  {
    if excludes == [] then false
    else
      var ex := excludes[0];
      if ex == os + "/" + arch || ex == os || ex == arch then true
      else
        var rest := IsExcluded(excludes[1..], os, arch);
        assert forall i :: 1 <= i < |excludes| ==> excludes[i] == excludes[1..][i - 1];
        rest
  }

  predicate Excluded(src: Source, t: Target) {
    IsExcluded(src.exclude, t.os, t.arch)
  }

  // ---------------------------------------------------------------------
  // Which dimensions a source iterates over

  predicate OSPlaceholder(v: string) {
    Contains(v, "{{os") || Contains(v, "{{ext")
  }

  predicate ArchPlaceholder(v: string) {
    Contains(v, "{{arch")
  }

  /** Some parameter mentions an OS or extension placeholder, an OS map is
      given, or `force_os_display` is "true". */
  predicate UsesOS(src: Source) {
    (exists k :: k in src.params && OSPlaceholder(src.params[k]))
    || |src.osMap| > 0 || Param(src, "force_os_display") == "true"
  }

  /** Some parameter mentions an arch placeholder, an arch map is given, or
      `arch_override` is set. */
  predicate UsesArch(src: Source) {
    (exists k :: k in src.params && ArchPlaceholder(src.params[k]))
    || |src.archMap| > 0 || Param(src, "arch_override") != ""
  }

  function FlagsOf(src: Source): Flags {
    Flags(UsesOS(src), UsesArch(src))
  }

  const OSNames: set<string> := {"linux", "macos", "darwin", "windows"}

  /** An exclude entry with a "/" forces both dimensions; for a source that
      otherwise uses neither, a bare OS name forces the OS dimension. */
  predicate ForcesOS(ex: string, fl: Flags) {
    Contains(ex, "/") || (!fl.usesArch && !fl.usesOS && ex in OSNames)
  }

  /** ... and any other bare entry forces the arch dimension. */
  predicate ForcesArch(ex: string, fl: Flags) {
    Contains(ex, "/") || (!fl.usesArch && !fl.usesOS && ex !in OSNames)
  }

  predicate NeedsOS(src: Source) {
    UsesOS(src) || exists i :: 0 <= i < |src.exclude| && ForcesOS(src.exclude[i], FlagsOf(src))
  }

  predicate NeedsArch(src: Source) {
    UsesArch(src) || exists i :: 0 <= i < |src.exclude| && ForcesArch(src.exclude[i], FlagsOf(src))
  }

  /** The scan of the parameters, maps and override switches that decides
      which placeholders a source uses. */
  method ScanUses(src: Source) returns (usesOS: bool, usesArch: bool)
    ensures usesOS == UsesOS(src) && usesArch == UsesArch(src)
  {
    usesOS, usesArch := ScanParams(src.params);
    if |src.osMap| > 0 {
      usesOS := true;
    }
    if |src.archMap| > 0 {
      usesArch := true;
    }
    if Param(src, "force_os_display") == "true" {
      usesOS := true;
    }
    if Param(src, "arch_override") != "" {
      usesArch := true;
    }
  }

  /** The loop over the parameter values looking for placeholders. */
  method ScanParams(params: map<string, string>) returns (usesOS: bool, usesArch: bool)
    ensures usesOS <==> exists k :: k in params && OSPlaceholder(params[k])
    ensures usesArch <==> exists k :: k in params && ArchPlaceholder(params[k])
  {
    usesOS := false;
    usesArch := false;
    var todo := params.Keys;
    while todo != {}
      invariant todo <= params.Keys
      invariant usesOS <==> exists k :: k in params && k !in todo && OSPlaceholder(params[k])
      invariant usesArch <==> exists k :: k in params && k !in todo && ArchPlaceholder(params[k])
      decreases |todo|
    {
      var k :| k in todo;
      var v := params[k];
      if OSPlaceholder(v) {
        usesOS := true;
      }
      if ArchPlaceholder(v) {
        usesArch := true;
      }
      todo := todo - {k};
    }
  }

  /** The scan of the exclude list that may force extra dimensions. */
  method ScanExcludes(src: Source, fl: Flags) returns (needsOS: bool, needsArch: bool)
    requires fl == FlagsOf(src)
    ensures needsOS == NeedsOS(src) && needsArch == NeedsArch(src)
  {
    needsOS := fl.usesOS;
    needsArch := fl.usesArch;
    var i := 0;
    while i < |src.exclude|
      invariant 0 <= i <= |src.exclude|
      invariant needsOS <==> fl.usesOS || SomeForcesOS(src.exclude, fl, i)
      invariant needsArch <==> fl.usesArch || SomeForcesArch(src.exclude, fl, i)
    {
      var ex := src.exclude[i];
      ForcesCases(ex, fl);
      SomeForcesStep(src.exclude, fl, i);
      if Contains(ex, "/") {
        needsOS := true;
        needsArch := true;
      } else if !fl.usesArch && !fl.usesOS {
        if ex == "linux" || ex == "macos" || ex == "darwin" || ex == "windows" {
          needsOS := true;
        } else {
          needsArch := true;
        }
      }
      i := i + 1;
    }
  }

  /** Some of the first `n` exclude entries force the OS dimension. */
  predicate SomeForcesOS(excludes: seq<string>, fl: Flags, n: nat)
    requires n <= |excludes|
  {
    exists k :: 0 <= k < n && ForcesOS(excludes[k], fl)
  }

  /** Some of the first `n` exclude entries force the arch dimension. */
  predicate SomeForcesArch(excludes: seq<string>, fl: Flags, n: nat)
    requires n <= |excludes|
  {
    exists k :: 0 <= k < n && ForcesArch(excludes[k], fl)
  }

  lemma SomeForcesStep(excludes: seq<string>, fl: Flags, i: nat)
    requires i < |excludes|
    ensures SomeForcesOS(excludes, fl, i + 1) <==> SomeForcesOS(excludes, fl, i) || ForcesOS(excludes[i], fl)
    ensures SomeForcesArch(excludes, fl, i + 1) <==> SomeForcesArch(excludes, fl, i) || ForcesArch(excludes[i], fl)
  {
  }

  lemma ForcesCases(ex: string, fl: Flags)
    ensures ForcesOS(ex, fl)
            <==> Contains(ex, "/")
                 || (!fl.usesArch && !fl.usesOS && (ex == "linux" || ex == "macos" || ex == "darwin" || ex == "windows"))
    ensures ForcesArch(ex, fl)
            <==> Contains(ex, "/")
                 || (!fl.usesArch && !fl.usesOS && !(ex == "linux" || ex == "macos" || ex == "darwin" || ex == "windows"))
  {
  }

  // ---------------------------------------------------------------------
  // Placeholder substitution

  function OSShort(os: string): string {
    if os == "macos" || os == "darwin" then "mac"
    else if os == "windows" then "win"
    else os
  }

  function OSProper(os: string): string {
    if os == "macos" then "macOS"
    else if os == "windows" then "Windows"
    else "Linux"
  }

  /** The `{{ext}}` value: the source's extension map wins, otherwise "dmg"
      for macOS and "zip" for everything else. */
  function Ext(src: Source, os: string): (r: string)
    ensures os in src.extMap ==> r == src.extMap[os]
    ensures os !in src.extMap ==> (r == "dmg" <==> os in {"macos", "darwin"})
    ensures os !in src.extMap && os !in {"macos", "darwin"} ==> r == "zip"
  {
    if os in src.extMap then src.extMap[os]
    else if os == "macos" || os == "darwin" then "dmg"
    else "zip"
  }

  /** The `{{arch_map}}` value: the "os/arch" entry first, then the bare arch
      entry, else "". */
  function MappedArch(src: Source, os: string, arch: string): (r: string)
    ensures os + "/" + arch in src.archMap ==> r == src.archMap[os + "/" + arch]
    ensures os + "/" + arch !in src.archMap && arch in src.archMap ==> r == src.archMap[arch]
    ensures os + "/" + arch !in src.archMap && arch !in src.archMap ==> r == ""
  {
    var composite := os + "/" + arch;
    if composite in src.archMap then src.archMap[composite]
    else Lookup(src.archMap, arch)
  }

  /** One parameter value with every placeholder rendered, in the order the
      replacements are applied. */
  function Render(src: Source, v: string, os: string, arch: string): string {
    var v1 := ReplaceAll(v, "{{os}}", os);
    var v2 := ReplaceAll(v1, "{{os_short}}", OSShort(os));
    var v3 := ReplaceAll(v2, "{{os_proper}}", OSProper(os));
    var v4 := ReplaceAll(v3, "{{arch}}", arch);
    var v5 := ReplaceAll(v4, "{{ext}}", Ext(src, os));
    var v6 := ReplaceAll(v5, "{{os_map}}", Lookup(src.osMap, os));
    ReplaceAll(v6, "{{arch_map}}", MappedArch(src, os, arch))
  }

  /** The rendered parameter map of the variant for (os, arch). */
  function Substituted(src: Source, os: string, arch: string): map<string, string> {
    map k | k in src.params :: Render(src, src.params[k], os, arch)
  }

  lemma PlainAbsent(v: string, rest: string)
    requires !Contains(v, "{{")
    ensures !Contains(v, "{{" + rest)
  {
    if Contains(v, "{{" + rest) {
      ContainsPrefixOf(v, "{{", rest);
    }
  }

  /** A value with no "{{" is not touched by rendering. */
  lemma RenderPlain(src: Source, v: string, os: string, arch: string)
    requires !Contains(v, "{{")
    ensures Render(src, v, os, arch) == v
  {
    assert "{{os}}" == "{{" + "os}}";
    assert "{{os_short}}" == "{{" + "os_short}}";
    assert "{{os_proper}}" == "{{" + "os_proper}}";
    assert "{{arch}}" == "{{" + "arch}}";
    assert "{{ext}}" == "{{" + "ext}}";
    assert "{{os_map}}" == "{{" + "os_map}}";
    assert "{{arch_map}}" == "{{" + "arch_map}}";
    PlainAbsent(v, "os}}");
    PlainAbsent(v, "os_short}}");
    PlainAbsent(v, "os_proper}}");
    PlainAbsent(v, "arch}}");
    PlainAbsent(v, "ext}}");
    PlainAbsent(v, "os_map}}");
    PlainAbsent(v, "arch_map}}");
    ReplaceAllAbsent(v, "{{os}}", os);
    ReplaceAllAbsent(v, "{{os_short}}", OSShort(os));
    ReplaceAllAbsent(v, "{{os_proper}}", OSProper(os));
    ReplaceAllAbsent(v, "{{arch}}", arch);
    ReplaceAllAbsent(v, "{{ext}}", Ext(src, os));
    ReplaceAllAbsent(v, "{{os_map}}", Lookup(src.osMap, os));
    ReplaceAllAbsent(v, "{{arch_map}}", MappedArch(src, os, arch));
  }

  /** Substitution rewrites parameter values only: the keys stay, and a value
      without a placeholder opening is kept as it was. */
  lemma SubstitutedKeepsPlain(src: Source, os: string, arch: string)
    ensures Substituted(src, os, arch).Keys == src.params.Keys
    ensures forall k :: k in src.params && !Contains(src.params[k], "{{") ==>
              Substituted(src, os, arch)[k] == src.params[k]
  {
    forall k | k in src.params && !Contains(src.params[k], "{{")
      ensures Substituted(src, os, arch)[k] == src.params[k]
    {
      RenderPlain(src, src.params[k], os, arch);
    }
  }

  /** `substituteParams`: renders every parameter value of the variant in
      place. */
  method SubstituteParams(src: Source, os: string, arch: string) returns (params: map<string, string>)
    ensures params == Substituted(src, os, arch)
  {
    params := src.params;
    var todo := src.params.Keys;
    while todo != {}
      invariant todo <= src.params.Keys && params.Keys == src.params.Keys
      invariant forall k :: k in params ==>
                  params[k] == if k in todo then src.params[k] else Render(src, src.params[k], os, arch)
      decreases |todo|
    {
      var k :| k in todo;
      params := params[k := Render(src, params[k], os, arch)];
      todo := todo - {k};
    }
  }

  // ---------------------------------------------------------------------
  // One variant

  function EffectiveArch(src: Source, arch: string): string {
    var ov := Param(src, "arch_override");
    if ov != "" then ov else arch
  }

  function KeyOf(src: Source, t: Target): Key {
    Key(t.os, EffectiveArch(src, t.arch), Substituted(src, t.os, t.arch))
  }

  /** The display suffix parts: the OS when it is used and non-empty, then
      the override or the non-empty arch when arch is used. */
  function SuffixParts(src: Source, fl: Flags, t: Target): seq<string> {
    var ov := Param(src, "arch_override");
    (if fl.usesOS && t.os != "" then [t.os] else [])
    + (if fl.usesArch then (if ov != "" then [ov] else if t.arch != "" then [t.arch] else []) else [])
  }

  /** The expanded copy of `src` for one (os, arch) pair. */
  function Variant(src: Source, fl: Flags, t: Target): Source {
    var parts := SuffixParts(src, fl, t);
    src.(params := Substituted(src, t.os, t.arch),
         name := if parts != [] then src.name + " [" + Join(parts, "/") + "]" else src.name,
         os := if fl.usesOS then t.os else src.os,
         arch := if fl.usesArch then EffectiveArch(src, t.arch) else src.arch)
  }

  /** The name suffix and the OS/Arch fields of a variant, case by case. */
  lemma VariantNaming(src: Source, fl: Flags, t: Target)
    ensures !fl.usesOS && !fl.usesArch ==>
              Variant(src, fl, t).name == src.name && Variant(src, fl, t).os == src.os
              && Variant(src, fl, t).arch == src.arch
    ensures fl.usesOS && t.os != "" && fl.usesArch && EffectiveArch(src, t.arch) != "" ==>
              Variant(src, fl, t).name == src.name + " [" + t.os + "/" + EffectiveArch(src, t.arch) + "]"
    ensures fl.usesOS && t.os != "" && !fl.usesArch ==>
              Variant(src, fl, t).name == src.name + " [" + t.os + "]"
    ensures (!fl.usesOS || t.os == "") && fl.usesArch && EffectiveArch(src, t.arch) != "" ==>
              Variant(src, fl, t).name == src.name + " [" + EffectiveArch(src, t.arch) + "]"
    ensures fl.usesOS ==> Variant(src, fl, t).os == t.os
    ensures fl.usesArch ==> Variant(src, fl, t).arch == EffectiveArch(src, t.arch)
    ensures Variant(src, fl, t).params == Substituted(src, t.os, t.arch)
  {
    var parts := SuffixParts(src, fl, t);
    if fl.usesOS && t.os != "" && fl.usesArch && EffectiveArch(src, t.arch) != "" {
      assert parts == [t.os, EffectiveArch(src, t.arch)];
      assert Join(parts, "/") == t.os + "/" + Join([EffectiveArch(src, t.arch)], "/");
    }
  }

  // ---------------------------------------------------------------------
  // The expansion, declaratively

  function Row(os: string, archs: seq<string>): (r: seq<Target>)
    ensures |r| == |archs|
    ensures forall j :: 0 <= j < |r| ==> r[j] == Target(os, archs[j])
  {
    seq(|archs|, j requires 0 <= j < |archs| => Target(os, archs[j]))
  }

  /** The OS × Arch product, OS-outer and Arch-inner. */
  function Pairs(oses: seq<string>, archs: seq<string>): (r: seq<Target>)
    ensures forall p :: 0 <= p < |r| ==> r[p].os in oses && r[p].arch in archs
    decreases |oses|
  {
    if oses == [] then []
    else Pairs(oses[..|oses| - 1], archs) + Row(oses[|oses| - 1], archs)
  }

  /** The product has one pair per OS and Arch combination. */
  lemma {:induction false} PairsLength(oses: seq<string>, archs: seq<string>)
    ensures |Pairs(oses, archs)| == |oses| * |archs|
    decreases |oses|
  {
    if oses != [] {
      PairsLength(oses[..|oses| - 1], archs);
      assert |oses| * |archs| == (|oses| - 1) * |archs| + |archs|;
    }
  }

  // ---------------------------------------------------------------------
  // First occurrences: the `seen` map and `keys` slice of the loops, stated
  // over any sequence of keys, liveness flags and values

  /** Position `p` is live and no earlier live position has its key. */
  predicate IsFirst<K(==)>(ks: seq<K>, live: seq<bool>, p: nat)
    requires |live| == |ks| && p < |ks|
  {
    live[p] && forall q :: 0 <= q < p && live[q] ==> ks[q] != ks[p]
  }

  lemma IsFirstPrefix<K>(ks: seq<K>, live: seq<bool>, n: nat, p: nat)
    requires |live| == |ks| && p < n <= |ks|
    ensures IsFirst(ks[..n], live[..n], p) == IsFirst(ks, live, p)
  {
    assert forall q :: 0 <= q <= p ==> ks[..n][q] == ks[q] && live[..n][q] == live[q];
  }

  /** The positions that are first occurrences, in increasing order. */
  function Firsts<K(==)>(ks: seq<K>, live: seq<bool>): (r: seq<nat>)
    requires |live| == |ks|
    ensures forall k :: 0 <= k < |r| ==> r[k] < |ks| && IsFirst(ks, live, r[k])
    ensures forall k, m :: 0 <= k < m < |r| ==> r[k] < r[m]
    ensures forall p :: 0 <= p < |ks| && IsFirst(ks, live, p) ==> p in r
    ensures |r| <= |ks|
    decreases |ks|
  {
    if ks == [] then []
    else
      var n := |ks| - 1;
      var prev := Firsts(ks[..n], live[..n]);
      forall p | 0 <= p < n
        ensures IsFirst(ks[..n], live[..n], p) == IsFirst(ks, live, p)
      {
        IsFirstPrefix(ks, live, n, p);
      }
      if IsFirst(ks, live, n) then prev + [n] else prev
  }

  lemma FirstsSnoc<K>(ks: seq<K>, live: seq<bool>, k: K, l: bool)
    requires |live| == |ks|
    ensures Firsts(ks + [k], live + [l]) ==
              Firsts(ks, live) + (if IsFirst(ks + [k], live + [l], |ks|) then [|ks|] else [])
    ensures IsFirst(ks + [k], live + [l], |ks|) <==>
              l && !exists q :: 0 <= q < |ks| && live[q] && ks[q] == k
  {
    assert (ks + [k])[..|ks|] == ks;
    assert (live + [l])[..|ks|] == live;
    assert forall q :: 0 <= q < |ks| ==> (ks + [k])[q] == ks[q] && (live + [l])[q] == live[q];
  }

  /** What the loops have built after visiting some pairs with keys `ks`,
      liveness `live` (not excluded) and variants `vs`: `keys` lists the keys
      of the first occurrences in order, and `seen` maps every live key to
      the variant of its first occurrence. */
  ghost predicate Built<K, V>(ks: seq<K>, live: seq<bool>, vs: seq<V>, seen: map<K, V>, keys: seq<K>)
    requires |live| == |ks| == |vs|
  {
    var idx := Firsts(ks, live);
    |keys| == |idx|
    && (forall m :: 0 <= m < |keys| ==>
          keys[m] == ks[idx[m]] && keys[m] in seen && seen[keys[m]] == vs[idx[m]])
    && seen.Keys == LiveKeys(ks, live)
  }

  /** The keys of the live positions. */
  ghost function LiveKeys<K>(ks: seq<K>, live: seq<bool>): set<K>
    requires |live| == |ks|
  {
    set q | 0 <= q < |ks| && live[q] :: ks[q]
  }

  lemma LiveKeysSnoc<K>(ks: seq<K>, live: seq<bool>, k: K, l: bool)
    requires |live| == |ks|
    ensures LiveKeys(ks + [k], live + [l]) == if l then LiveKeys(ks, live) + {k} else LiveKeys(ks, live)
    ensures k in LiveKeys(ks, live) <==> exists q :: 0 <= q < |ks| && live[q] && ks[q] == k
  {
    var ks', live' := ks + [k], live + [l];
    var before, after := LiveKeys(ks, live), LiveKeys(ks', live');
    forall kk | kk in after
      ensures kk in before || (l && kk == k)
    {
      var q :| 0 <= q < |ks'| && live'[q] && ks'[q] == kk;
      if q < |ks| {
        assert live[q] && ks[q] == kk;
      }
    }
    forall kk | kk in before
      ensures kk in after
    {
      var q :| 0 <= q < |ks| && live[q] && ks[q] == kk;
      assert live'[q] && ks'[q] == kk;
    }
    if l {
      assert ks'[|ks|] == k && live'[|ks|];
    }
  }

  /** Visiting one more pair keeps `Built`: a skipped or already-seen pair
      changes nothing, a new key is recorded with its variant. */
  lemma BuiltStep<K, V>(ks: seq<K>, live: seq<bool>, vs: seq<V>, seen: map<K, V>, keys: seq<K>,
                             k: K, l: bool, v: V)
    requires |live| == |ks| == |vs| && Built(ks, live, vs, seen, keys)
    ensures !l || k in seen ==> Built(ks + [k], live + [l], vs + [v], seen, keys)
    ensures l && k !in seen ==> Built(ks + [k], live + [l], vs + [v], seen[k := v], keys + [k])
  {
    FirstsSnoc(ks, live, k, l);
    LiveKeysSnoc(ks, live, k, l);
    var ks', live', vs' := ks + [k], live + [l], vs + [v];
    assert forall q :: 0 <= q < |ks| ==> ks'[q] == ks[q] && vs'[q] == vs[q];
    var idx := Firsts(ks, live);
    if !l || k in seen {
      assert Firsts(ks', live') == idx;
    } else {
      assert Firsts(ks', live') == idx + [|ks|];
    }
  }

  /** Each first occurrence carries a distinct key. */
  lemma FirstsUnique<K>(ks: seq<K>, live: seq<bool>)
    requires |live| == |ks|
    ensures var idx := Firsts(ks, live);
            forall k, m :: 0 <= k < m < |idx| ==> ks[idx[k]] != ks[idx[m]]
  {
    var idx := Firsts(ks, live);
    forall k, m | 0 <= k < m < |idx|
      ensures ks[idx[k]] != ks[idx[m]]
    {
      assert IsFirst(ks, live, idx[m]);
      assert idx[k] < idx[m] && live[idx[k]];
    }
  }

  /** Every live position has a first occurrence of its key at or before
      it. */
  lemma {:induction false} FirstsCover<K>(ks: seq<K>, live: seq<bool>, p: nat)
    requires |live| == |ks| && p < |ks| && live[p]
    ensures exists q :: q in Firsts(ks, live) && q <= p && ks[q] == ks[p]
    decreases p
  {
    if IsFirst(ks, live, p) {
      assert p in Firsts(ks, live);
    } else {
      var q :| 0 <= q < p && live[q] && ks[q] == ks[p];
      FirstsCover(ks, live, q);
    }
  }

  lemma {:induction false} FirstsAll<K>(ks: seq<K>, live: seq<bool>)
    requires |live| == |ks|
    requires forall p :: 0 <= p < |ks| ==> IsFirst(ks, live, p)
    ensures |Firsts(ks, live)| == |ks|
    decreases |ks|
  {
    if ks != [] {
      var n := |ks| - 1;
      forall p | 0 <= p < n
        ensures IsFirst(ks[..n], live[..n], p)
      {
        IsFirstPrefix(ks, live, n, p);
      }
      FirstsAll(ks[..n], live[..n]);
    }
  }

  // ---------------------------------------------------------------------
  // The expansion of one source, declaratively

  function KeysOf(src: Source, P: seq<Target>): (r: seq<Key>)
    ensures |r| == |P| && forall p :: 0 <= p < |P| ==> r[p] == KeyOf(src, P[p])
  {
    seq(|P|, p requires 0 <= p < |P| => KeyOf(src, P[p]))
  }

  function LiveOf(src: Source, P: seq<Target>): (r: seq<bool>)
    ensures |r| == |P| && forall p :: 0 <= p < |P| ==> r[p] == !Excluded(src, P[p])
  {
    seq(|P|, p requires 0 <= p < |P| => !Excluded(src, P[p]))
  }

  function VariantsOf(src: Source, fl: Flags, P: seq<Target>): (r: seq<Source>)
    ensures |r| == |P| && forall p :: 0 <= p < |P| ==> r[p] == Variant(src, fl, P[p])
  {
    seq(|P|, p requires 0 <= p < |P| => Variant(src, fl, P[p]))
  }

  /** The indices of the emitted pairs: not excluded, and no earlier
      non-excluded pair has the same key. */
  function Emitted(src: Source, P: seq<Target>): seq<nat> {
    Firsts(KeysOf(src, P), LiveOf(src, P))
  }

  function OSList(src: Source, g: General): seq<string> {
    if NeedsOS(src) then g.osList else [""]
  }

  function ArchList(src: Source, g: General): seq<string> {
    if NeedsArch(src) then g.archList else [""]
  }

  /** What `expandSources` makes of one source: the source itself when it
      iterates over nothing, otherwise the variants of the emitted pairs in
      product order. */
  function ExpandSpec(src: Source, g: General): seq<Source> {
    if !NeedsOS(src) && !NeedsArch(src) then [src]
    else
      var P := Pairs(OSList(src, g), ArchList(src, g));
      var idx := Emitted(src, P);
      seq(|idx|, k requires 0 <= k < |idx| => Variant(src, FlagsOf(src), P[idx[k]]))
  }

  // ---------------------------------------------------------------------
  // The expansion of one source, as the loops compute it

  lemma PairsStep(oses: seq<string>, archs: seq<string>, i: nat)
    requires i < |oses|
    ensures Pairs(oses[..i + 1], archs) == Pairs(oses[..i], archs) + Row(oses[i], archs)
  {
    var s := oses[..i + 1];
    assert s[..|s| - 1] == oses[..i] && s[|s| - 1] == oses[i];
    assert Pairs(s, archs) == Pairs(s[..|s| - 1], archs) + Row(s[|s| - 1], archs);
  }

  lemma SnocSlice<T>(a: seq<T>, r: seq<T>, j: nat)
    requires j < |r|
    ensures a + r[..j + 1] == (a + r[..j]) + [r[j]]
  {
    assert r[..j + 1] == r[..j] + [r[j]];
  }

  lemma OfSnoc(src: Source, fl: Flags, Q: seq<Target>, t: Target)
    ensures KeysOf(src, Q + [t]) == KeysOf(src, Q) + [KeyOf(src, t)]
    ensures LiveOf(src, Q + [t]) == LiveOf(src, Q) + [!Excluded(src, t)]
    ensures VariantsOf(src, fl, Q + [t]) == VariantsOf(src, fl, Q) + [Variant(src, fl, t)]
  {
    assert forall q :: 0 <= q < |Q| ==> (Q + [t])[q] == Q[q];
  }

  /** One pair of the product: skipped when excluded or when its key was
      already seen; otherwise its variant is recorded under its key. */
  method Visit(src: Source, fl: Flags, t: Target, seen0: map<Key, Source>, keys0: seq<Key>,
               ghost Q: seq<Target>)
    returns (seen: map<Key, Source>, keys: seq<Key>)
    requires Built(KeysOf(src, Q), LiveOf(src, Q), VariantsOf(src, fl, Q), seen0, keys0)
    ensures Built(KeysOf(src, Q + [t]), LiveOf(src, Q + [t]), VariantsOf(src, fl, Q + [t]), seen, keys)
  {
    seen, keys := seen0, keys0;
    BuiltStep(KeysOf(src, Q), LiveOf(src, Q), VariantsOf(src, fl, Q), seen, keys,
              KeyOf(src, t), !Excluded(src, t), Variant(src, fl, t));
    OfSnoc(src, fl, Q, t);
    if !IsExcluded(src.exclude, t.os, t.arch) {
      var params := SubstituteParams(src, t.os, t.arch);
      var key := Key(t.os, EffectiveArch(src, t.arch), params);
      assert key == KeyOf(src, t);
      if key !in seen {
        seen := seen[key := Variant(src, fl, t)];
        keys := keys + [key];
      }
    }
  }

  /** The inner loop of the expansion: the Arch list for one OS. */
  method ExpandRow(src: Source, fl: Flags, os: string, archs: seq<string>,
                   seen0: map<Key, Source>, keys0: seq<Key>, ghost Q0: seq<Target>)
    returns (seen: map<Key, Source>, keys: seq<Key>, ghost Q: seq<Target>)
    requires Built(KeysOf(src, Q0), LiveOf(src, Q0), VariantsOf(src, fl, Q0), seen0, keys0)
    ensures Q == Q0 + Row(os, archs)
    ensures Built(KeysOf(src, Q), LiveOf(src, Q), VariantsOf(src, fl, Q), seen, keys)
  {
    seen, keys, Q := seen0, keys0, Q0;
    var j := 0;
    while j < |archs|
      invariant 0 <= j <= |archs|
      invariant Q == Q0 + Row(os, archs)[..j]
      invariant Built(KeysOf(src, Q), LiveOf(src, Q), VariantsOf(src, fl, Q), seen, keys)
    {
      seen, keys := Visit(src, fl, Target(os, archs[j]), seen, keys, Q);
      SnocSlice(Q0, Row(os, archs), j);
      Q := Q + [Target(os, archs[j])];
      j := j + 1;
    }
    assert Row(os, archs)[..|archs|] == Row(os, archs);
  }

  /** `expandSources` for one source: decides the dimensions, then runs the
      seen-map and key-list loops over the OS × Arch product. */
  method ExpandSource(src: Source, g: General) returns (out: seq<Source>)
    ensures out == ExpandSpec(src, g)
  {
    var usesOS, usesArch := ScanUses(src);
    var fl := Flags(usesOS, usesArch);
    var needsOS, needsArch := ScanExcludes(src, fl);
    if !needsOS && !needsArch {
      return [src];
    }
    var oses := if needsOS then g.osList else [""];
    var archs := if needsArch then g.archList else [""];
    var seen, keys := ExpandProduct(src, fl, oses, archs);
    BuiltIsSpec(src, g, seen, keys);
    out := Collect(seen, keys);
  }

  /** The two nested loops over the OS × Arch product, building the `seen`
      map and the `keys` list. */
  method ExpandProduct(src: Source, fl: Flags, oses: seq<string>, archs: seq<string>)
    returns (seen: map<Key, Source>, keys: seq<Key>)
    ensures var Q := Pairs(oses, archs);
            Built(KeysOf(src, Q), LiveOf(src, Q), VariantsOf(src, fl, Q), seen, keys)
  {
    seen := map[];
    keys := [];
    ghost var Q: seq<Target> := [];
    var i := 0;
    while i < |oses|
      invariant 0 <= i <= |oses|
      invariant Q == Pairs(oses[..i], archs)
      invariant Built(KeysOf(src, Q), LiveOf(src, Q), VariantsOf(src, fl, Q), seen, keys)
    {
      seen, keys, Q := ExpandRow(src, fl, oses[i], archs, seen, keys, Q);
      PairsStep(oses, archs, i);
      i := i + 1;
    }
    assert oses[..|oses|] == oses;
  }

  /** Once the whole product is visited, the recorded variants in key order
      are the expansion. */
  lemma BuiltIsSpec(src: Source, g: General, seen: map<Key, Source>, keys: seq<Key>)
    requires NeedsOS(src) || NeedsArch(src)
    requires var Q := Pairs(OSList(src, g), ArchList(src, g));
             Built(KeysOf(src, Q), LiveOf(src, Q), VariantsOf(src, FlagsOf(src), Q), seen, keys)
    ensures forall m :: 0 <= m < |keys| ==> keys[m] in seen
    ensures |keys| == |ExpandSpec(src, g)|
    ensures forall m :: 0 <= m < |keys| ==> seen[keys[m]] == ExpandSpec(src, g)[m]
  {
  }

  /** The final loop of the expansion: the recorded variants in key order. */
  method Collect<K, V>(seen: map<K, V>, keys: seq<K>) returns (out: seq<V>)
    requires forall m :: 0 <= m < |keys| ==> keys[m] in seen
    ensures |out| == |keys| && forall m :: 0 <= m < |keys| ==> out[m] == seen[keys[m]]
  {
    out := [];
    var m := 0;
    while m < |keys|
      invariant 0 <= m <= |keys|
      invariant |out| == m && forall n :: 0 <= n < m ==> out[n] == seen[keys[n]]
    {
      out := out + [seen[keys[m]]];
      m := m + 1;
    }
  }

  // ---------------------------------------------------------------------
  // Properties of the expansion

  /** No emitted variant comes from an excluded (os, arch) pair, and the
      pairs are visited OS-outer, Arch-inner: emitted indices increase. */
  lemma ExpandNoExcluded(src: Source, g: General)
    requires NeedsOS(src) || NeedsArch(src)
    ensures var P := Pairs(OSList(src, g), ArchList(src, g));
            var idx := Emitted(src, P);
            |ExpandSpec(src, g)| == |idx|
            && (forall k :: 0 <= k < |idx| ==>
                  idx[k] < |P| && !IsExcluded(src.exclude, P[idx[k]].os, P[idx[k]].arch)
                  && ExpandSpec(src, g)[k] == Variant(src, FlagsOf(src), P[idx[k]]))
            && (forall k, m :: 0 <= k < m < |idx| ==> idx[k] < idx[m])
  {
    var P := Pairs(OSList(src, g), ArchList(src, g));
    var idx := Emitted(src, P);
    forall k | 0 <= k < |idx|
      ensures idx[k] < |P| && !Excluded(src, P[idx[k]])
    {
      assert IsFirst(KeysOf(src, P), LiveOf(src, P), idx[k]);
    }
  }

  /** Two emitted variants never share (os, effective arch, rendered
      parameters). */
  lemma ExpandKeysUnique(src: Source, P: seq<Target>)
    ensures var idx := Emitted(src, P);
            forall k, m :: 0 <= k < m < |idx| ==>
              idx[m] < |P| && KeyOf(src, P[idx[k]]) != KeyOf(src, P[idx[m]])
  {
    FirstsUnique(KeysOf(src, P), LiveOf(src, P));
  }

  /** Every non-excluded pair is represented: its key is that of an emitted
      pair at the same or an earlier position (the first occurrence wins). */
  lemma ExpandCovers(src: Source, P: seq<Target>, p: nat)
    requires p < |P| && !Excluded(src, P[p])
    ensures exists q :: q in Emitted(src, P) && q <= p && KeyOf(src, P[q]) == KeyOf(src, P[p])
  {
    FirstsCover(KeysOf(src, P), LiveOf(src, P), p);
  }

  /** At most one variant per pair of the product; a source that iterates
      over nothing is emitted once, unchanged. */
  lemma ExpandBound(src: Source, g: General)
    ensures NeedsOS(src) || NeedsArch(src) ==>
              |ExpandSpec(src, g)| <= |OSList(src, g)| * |ArchList(src, g)|
    ensures !NeedsOS(src) && !NeedsArch(src) ==> ExpandSpec(src, g) == [src]
  {
    PairsLength(OSList(src, g), ArchList(src, g));
  }

  lemma {:induction false} PairsDistinct(oses: seq<string>, archs: seq<string>)
    requires Distinct(oses) && Distinct(archs)
    ensures Distinct(Pairs(oses, archs))
    decreases |oses|
  {
    if oses != [] {
      var init := oses[..|oses| - 1];
      var last := oses[|oses| - 1];
      PairsDistinct(init, archs);
      var prev := Pairs(init, archs);
      var r := Pairs(oses, archs);
      assert r == prev + Row(last, archs);
      assert last !in init;
      forall i, j | 0 <= i < j < |r|
        ensures r[i] != r[j]
      {
        if j >= |prev| && i < |prev| {
          assert r[i] == prev[i] && prev[i].os in init;
        }
      }
    }
  }

  /** With no exclusions, no arch override and duplicate-free OS and Arch
      lists, every pair of the product yields its own variant. */
  lemma ExpandFullProduct(src: Source, g: General)
    requires NeedsOS(src) || NeedsArch(src)
    requires src.exclude == [] && Param(src, "arch_override") == ""
    requires Distinct(OSList(src, g)) && Distinct(ArchList(src, g))
    ensures |ExpandSpec(src, g)| == |OSList(src, g)| * |ArchList(src, g)|
  {
    var P := Pairs(OSList(src, g), ArchList(src, g));
    var ks, live := KeysOf(src, P), LiveOf(src, P);
    PairsDistinct(OSList(src, g), ArchList(src, g));
    forall p | 0 <= p < |P|
      ensures IsFirst(ks, live, p)
    {
      forall q | 0 <= q < p
        ensures ks[q] != ks[p]
      {
        assert P[q] != P[p];
        assert KeyOf(src, P[q]).os == P[q].os && KeyOf(src, P[q]).arch == P[q].arch;
      }
    }
    FirstsAll(ks, live);
    PairsLength(OSList(src, g), ArchList(src, g));
  }

  /** An exclude entry of the form "os/arch" forces iteration over both
      dimensions, whatever the parameters say. */
  lemma SlashExcludeForcesBoth(src: Source, i: nat)
    requires i < |src.exclude| && '/' in src.exclude[i]
    ensures NeedsOS(src) && NeedsArch(src)
  {
    ContainsChar(src.exclude[i], '/');
  }

  /** A source without placeholders, maps, display switches or exclusions is
      passed through unchanged. */
  lemma ExpandStatic(src: Source, g: General)
    requires forall k :: k in src.params ==> !Contains(src.params[k], "{{")
    requires |src.osMap| == 0 && |src.archMap| == 0
    requires Param(src, "force_os_display") != "true" && Param(src, "arch_override") == ""
    requires src.exclude == []
    ensures ExpandSpec(src, g) == [src]
  {
    forall k | k in src.params
      ensures !OSPlaceholder(src.params[k]) && !ArchPlaceholder(src.params[k])
    {
      var v := src.params[k];
      assert "{{os" == "{{" + "os";
      assert "{{ext" == "{{" + "ext";
      assert "{{arch" == "{{" + "arch";
      PlainAbsent(v, "os");
      PlainAbsent(v, "ext");
      PlainAbsent(v, "arch");
    }
    assert !UsesOS(src) && !UsesArch(src);
    assert !NeedsOS(src) && !NeedsArch(src);
  }

  // ---------------------------------------------------------------------
  // Whole configuration

  /** The expansion of a list of sources, in order. */
  function ExpandAll(sources: seq<Source>, g: General): seq<Source>
    decreases |sources|
  {
    if sources == [] then []
    else ExpandAll(sources[..|sources| - 1], g) + ExpandSpec(sources[|sources| - 1], g)
  }

  lemma ExpandAllSnoc(sources: seq<Source>, s: Source, g: General)
    ensures |ExpandAll(sources + [s], g)| == |ExpandAll(sources, g)| + |ExpandSpec(s, g)|
  {
    assert (sources + [s])[..|sources|] == sources;
  }

  method ExpandCategory(sources: seq<Source>, g: General) returns (out: seq<Source>)
    ensures out == ExpandAll(sources, g)
  {
    out := [];
    var i := 0;
    while i < |sources|
      invariant 0 <= i <= |sources|
      invariant out == ExpandAll(sources[..i], g)
    {
      var expanded := ExpandSource(sources[i], g);
      assert sources[..i + 1][..i] == sources[..i];
      out := out + expanded;
      i := i + 1;
    }
    assert sources[..|sources|] == sources;
  }

  /** The loaded configuration: storage root, general section and the
      categories of sources. */
  class Config {
    var defaultRoot: string
    var general: General
    var categories: map<string, Category>

    constructor (defaultRoot: string, general: General, categories: map<string, Category>)
      ensures this.defaultRoot == defaultRoot && this.general == general && this.categories == categories
    {
      this.defaultRoot := defaultRoot;
      this.general := general;
      this.categories := categories;
    }

    /** `expandSources`: every category's source list is replaced by its
        expansion; the category set, paths and languages are kept. */
    method ExpandSources()
      modifies this
      ensures defaultRoot == old(defaultRoot) && general == old(general)
      ensures categories.Keys == old(categories).Keys
      ensures forall c :: c in categories ==>
                categories[c] == old(categories)[c].(sources := ExpandAll(old(categories)[c].sources, general))
    {
      var todo := categories.Keys;
      ghost var original := categories;
      while todo != {}
        invariant todo <= original.Keys && categories.Keys == original.Keys
        invariant defaultRoot == old(defaultRoot) && general == old(general) && original == old(categories)
        invariant forall c :: c in categories ==>
                    categories[c] == if c in todo then original[c]
                                     else original[c].(sources := ExpandAll(original[c].sources, general))
        decreases |todo|
      {
        var c :| c in todo;
        var cat := categories[c];
        var expanded := ExpandCategory(cat.sources, general);
        categories := categories[c := cat.(sources := expanded)];
        todo := todo - {c};
      }
    }

    /** `GetTargetPath`: the category's directory (or the default root), the
        source's OS as a sub-directory when set, and the file name. */
    function GetTargetPath(categoryName: string, src: Source): (r: string)
      reads this
      ensures categoryName !in categories ==> r == ""
    {
      if categoryName !in categories then ""
      else
        var base := if categories[categoryName].path == "" then defaultRoot else categories[categoryName].path;
        var file := TargetFileName(src);
        if src.os != "" then Paths.JoinPath([base, src.os, file]) else Paths.JoinPath([base, file])
    }
  }

  /** The file name part of a target path: the URL's last element, or the
      source name when there is no URL, with "/" replaced by "_". */
  function TargetFileName(src: Source): (r: string)
    ensures '/' !in r
    ensures src.url == "" ==> |r| == |src.name|
    ensures src.url != "" ==> r != []
  {
    var file := if src.url == "" then src.name else Paths.Base(src.url);
    ReplaceCharElementsAll(file, '/', "_");
    ReplaceCharLength(file, '/', '_');
    ReplaceAll(file, "/", "_")
  }

  lemma ReplaceCharElementsAll(s: string, c: char, rep: string)
    requires c !in rep
    ensures c !in ReplaceAll(s, [c], rep)
  {
    if c in ReplaceAll(s, [c], rep) {
      ReplaceCharElements(s, c, rep, c);
    }
  }

  /** The target path of a known category ends in the file name, which is
      its base; the OS sub-directory is present exactly when the OS is set. */
  lemma TargetPathShape(cfg: Config, categoryName: string, src: Source)
    requires categoryName in cfg.categories && TargetFileName(src) != []
    ensures Paths.Base(cfg.GetTargetPath(categoryName, src)) == TargetFileName(src)
  {
    var base := if cfg.categories[categoryName].path == "" then cfg.defaultRoot else cfg.categories[categoryName].path;
    if src.os != "" {
      assert [base, src.os, TargetFileName(src)] == [base, src.os] + [TargetFileName(src)];
      Paths.BaseOfJoin([base, src.os], TargetFileName(src));
    } else {
      assert [base, TargetFileName(src)] == [base] + [TargetFileName(src)];
      Paths.BaseOfJoin([base], TargetFileName(src));
    }
  }

  /** Under a non-empty directory (the category's path, or the default root
      when it has none) the target path is that directory, then the OS
      sub-directory when the OS is set, then the file name. */
  lemma TargetPathLayout(cfg: Config, categoryName: string, src: Source, dir: string)
    requires categoryName in cfg.categories && TargetFileName(src) != []
    requires dir == if cfg.categories[categoryName].path == "" then cfg.defaultRoot
                    else cfg.categories[categoryName].path
    requires dir != []
    ensures src.os != "" ==> cfg.GetTargetPath(categoryName, src) == dir + "/" + src.os + "/" + TargetFileName(src)
    ensures src.os == "" ==> cfg.GetTargetPath(categoryName, src) == dir + "/" + TargetFileName(src)
  {
    if src.os != "" {
      Paths.JoinPath3(dir, src.os, TargetFileName(src));
    } else {
      Paths.JoinPath2(dir, TargetFileName(src));
    }
  }

  // ---------------------------------------------------------------------
  // Standardised file names

  /** The application-name part: spaces removed, cut before "[", trimmed of
      "_", "-" and " ". */
  function StandardName(name: string): (r: string)
    ensures ' ' !in r && '[' !in r
    ensures r == [] || (r[0] !in {'_', '-', ' '} && r[|r| - 1] !in {'_', '-', ' '})
  {
    var n := ReplaceAll(name, " ", "");
    ReplaceCharElementsAll(name, ' ', "");
    var cut := match IndexOf(n, '[')
      case None => n
      case Some(i) => n[..i];
    Trim(cut, {'_', '-', ' '})
  }

  /** The version part: trimmed of "-", "_", " " and ".", "latest" when
      nothing is left. */
  function StandardVersion(version: string): (r: string)
    ensures r != []
    ensures r[0] !in {'-', '_', ' ', '.'} && r[|r| - 1] !in {'-', '_', ' ', '.'}
  {
    var v := Trim(version, {'-', '_', ' ', '.'});
    if v == "" then "latest" else v
  }

  function StandardExt(originalExt: string): string {
    if originalExt == "" then "bin" else TrimPrefix(originalExt, ".")
  }

  /** `GetStandardizedFilename`: "name_os_arch_version.ext", where an unset
      OS or arch falls back to the host's (`hostOS`, `hostArch`, the values
      of Go's `runtime.GOOS` and `runtime.GOARCH`). */
  function GetStandardizedFilename(s: Source, version: string, originalExt: string,
                                   hostOS: string, hostArch: string): string
  {
    var os := if s.os == "" then hostOS else s.os;
    var arch := if s.arch == "" then hostArch else s.arch;
    StandardName(s.name) + "_" + os + "_" + arch + "_" + StandardVersion(version) + "." + StandardExt(originalExt)
  }

  /** The host's OS and arch matter only where the source leaves its own
      unset: a source with both set names the same file on every host, and
      an unset field names the same file as one set to the host's value. */
  lemma StandardizedHostFallback(s: Source, version: string, originalExt: string,
                                 hostOS: string, hostArch: string, otherOS: string, otherArch: string)
    ensures s.os != "" && s.arch != "" ==>
              GetStandardizedFilename(s, version, originalExt, hostOS, hostArch)
              == GetStandardizedFilename(s, version, originalExt, otherOS, otherArch)
    ensures hostOS != "" && hostArch != "" ==>
              GetStandardizedFilename(s, version, originalExt, hostOS, hostArch)
              == GetStandardizedFilename(s.(os := if s.os == "" then hostOS else s.os,
                                             arch := if s.arch == "" then hostArch else s.arch),
                                         version, originalExt, otherOS, otherArch)
  {
    var t := s.(os := if s.os == "" then hostOS else s.os,
                arch := if s.arch == "" then hostArch else s.arch);
    assert t.name == s.name;
  }

  /** The extension is "bin" when none is given and is never dotted when
      one is. */
  lemma StandardExtCases(originalExt: string)
    ensures originalExt == "" ==> StandardExt(originalExt) == "bin"
    ensures originalExt != "" && originalExt[0] == '.' ==> StandardExt(originalExt) == originalExt[1..]
    ensures originalExt != "" && originalExt[0] != '.' ==> StandardExt(originalExt) == originalExt
  {
  }

  // ---------------------------------------------------------------------
  // The repository's expansion example

  function Plain(name: string, p: string): Source {
    Source("", name, "", map["p" := p], "", "", [], "", "", false, map[], map[], map[])
  }

  function ExampleGeneral(): General {
    General(["linux", "macos"], ["amd64", "arm64"], "", 0, 0.0, 0)
  }

  /** A one-parameter source with no maps, switches or exclusions iterates
      over exactly the dimensions its parameter mentions. */
  lemma PlainDimensions(name: string, p: string)
    ensures var src := Plain(name, p);
            src.exclude == [] && Param(src, "arch_override") == ""
            && (NeedsOS(src) <==> OSPlaceholder(p)) && (NeedsArch(src) <==> ArchPlaceholder(p))
  {
    var src := Plain(name, p);
    assert "arch_override" != "p" && "force_os_display" != "p";
    assert Param(src, "arch_override") == "" && Param(src, "force_os_display") == "";
    assert UsesOS(src) <==> OSPlaceholder(p);
    assert UsesArch(src) <==> ArchPlaceholder(p);
  }

  /** The example's OS and Arch lists have no repeats. */
  lemma ExampleListsDistinct()
    ensures Distinct(ExampleGeneral().osList) && Distinct(ExampleGeneral().archList)
    ensures |ExampleGeneral().osList| == 2 && |ExampleGeneral().archList| == 2
  {
    assert "linux"[0] != "macos"[0];
    assert "amd64"[1] != "arm64"[1];
  }

  /** A one-parameter source mentioning both an OS and an arch placeholder
      yields one variant per pair of duplicate-free lists. */
  lemma PlainBoth(name: string, p: string, g: General)
    requires OSPlaceholder(p) && ArchPlaceholder(p)
    requires Distinct(g.osList) && Distinct(g.archList)
    ensures |ExpandSpec(Plain(name, p), g)| == |g.osList| * |g.archList|
  {
    PlainDimensions(name, p);
    ExpandFullProduct(Plain(name, p), g);
  }

  /** ... and one mentioning only an arch placeholder one variant per arch. */
  lemma PlainArchOnly(name: string, p: string, g: General)
    requires !OSPlaceholder(p) && ArchPlaceholder(p)
    requires Distinct(g.archList)
    ensures |ExpandSpec(Plain(name, p), g)| == |g.archList|
  {
    PlainDimensions(name, p);
    var src := Plain(name, p);
    assert OSList(src, g) == [""];
    ExpandFullProduct(src, g);
  }

  lemma FullPlaceholders()
    ensures OSPlaceholder("{{os}}-{{arch}}") && ArchPlaceholder("{{os}}-{{arch}}")
  {
    assert HasPrefix("{{os}}-{{arch}}", "{{os");
    ContainsAt("{{os}}-{{arch}}", "{{arch", 7);
  }

  lemma ArchOnlyPlaceholders()
    ensures !OSPlaceholder("{{arch}}") && ArchPlaceholder("{{arch}}")
  {
    ArchLacksOS();
    ArchLacksExt();
    assert HasPrefix("{{arch}}", "{{arch");
  }

  lemma ArchLacksOS()
    ensures !Contains("{{arch}}", "{{os")
  {
    assert "{{os"[2] == 'o';
    assert 'o' !in "{{arch}}";
    MissingCharNotContained("{{arch}}", "{{os", 2);
  }

  lemma ArchLacksExt()
    ensures !Contains("{{arch}}", "{{ext")
  {
    assert "{{ext"[2] == 'e';
    assert 'e' !in "{{arch}}";
    MissingCharNotContained("{{arch}}", "{{ext", 2);
  }

  lemma ExampleFull()
    ensures |ExpandSpec(Plain("FullApp", "{{os}}-{{arch}}"), ExampleGeneral())| == 4
  {
    FullPlaceholders();
    ExampleListsDistinct();
    PlainBoth("FullApp", "{{os}}-{{arch}}", ExampleGeneral());
  }

  lemma ExampleArchOnly()
    ensures |ExpandSpec(Plain("ArchOnly", "{{arch}}"), ExampleGeneral())| == 2
  {
    ArchOnlyPlaceholders();
    ExampleListsDistinct();
    PlainArchOnly("ArchOnly", "{{arch}}", ExampleGeneral());
  }

  lemma ExampleStatic()
    ensures ExpandSpec(Plain("Static", "static"), ExampleGeneral()) == [Plain("Static", "static")]
  {
    MissingCharNotContained("static", "{{", 0);
    ExpandStatic(Plain("Static", "static"), ExampleGeneral());
  }

  /** Over linux/macos × amd64/arm64, a "{{os}}-{{arch}}" source yields four
      variants, an "{{arch}}" source two and a static one a single entry:
      seven in all. */
  lemma ExpandExample()
    ensures |ExpandAll([Plain("FullApp", "{{os}}-{{arch}}"), Plain("ArchOnly", "{{arch}}"),
                        Plain("Static", "static")], ExampleGeneral())| == 7
  {
    var g := ExampleGeneral();
    var full, archOnly, fixed := Plain("FullApp", "{{os}}-{{arch}}"), Plain("ArchOnly", "{{arch}}"),
                                 Plain("Static", "static");
    ExampleFull();
    ExampleArchOnly();
    ExampleStatic();
    ExpandAllThree(full, archOnly, fixed, g);
  }

  lemma ExpandAllThree(a: Source, b: Source, c: Source, g: General)
    ensures |ExpandAll([a, b, c], g)| == |ExpandSpec(a, g)| + |ExpandSpec(b, g)| + |ExpandSpec(c, g)|
  {
    ExpandAllSnoc([], a, g);
    ExpandAllSnoc([a], b, g);
    ExpandAllSnoc([a, b], c, g);
    assert [] + [a] == [a] && [a] + [b] == [a, b] && [a, b] + [c] == [a, b, c];
  }
}
