/** Archive file names: the writer of release names and the parser that reads versions back. */
module Archives {
  import opened Wrappers
  import opened Separated
  import opened Text
  import opened Versions

  const STRATA_RELEASE_TARGET := "x86_64-unknown-linux-gnu"
  const EXTENSIONS: seq<string> := [".tar.gz", ".tar.xz", ".tgz", ".zip", ".tar"]
  const MARKERS: seq<string> := ["-x86_64-", "-aarch64-", "-arm64-", "-x86_64.", "-aarch64.", "-arm64."]
  const BARE_TARGETS: seq<string> := ["-x86_64", "-aarch64", "-arm64"]

  /** `previous_release_archive_name`. */
  function ArchiveName(version: string): string {
    "strata-" + Normalize(version) + "-" + STRATA_RELEASE_TARGET + ".tar.gz"
  }

  /** The last component that counts for `Path(filename).name`. */
  function LastName(parts: seq<string>): string {
    if parts == [] then ""
    else
      var last := parts[|parts| - 1];
      if last == "" || last == "." then LastName(parts[..|parts| - 1]) else last
  }

  function FileName(filename: string): string {
    LastName(Split(filename, '/'))
  }

  /** Drop the first extension of the list that the name ends with, whatever its case. */
  function DropExtension(name: string, extensions: seq<string>): string {
    if extensions == [] then name
    else if EndsWith(Lower(name), extensions[0]) then name[..|name| - |extensions[0]|]
    else DropExtension(name, extensions[1..])
  }

  /** Group 1 of `^strata-v?(.+)$`: dots do not match newlines, and `$` allows one at the end. */
  function AfterPrefix(name: string): Option<string> {
    if |name| < 7 || Lower(name[..7]) != "strata-" then None
    else
      var rest := name[7..];
      var body := if EndsWith(rest, "\n") then rest[..|rest| - 1] else rest;
      if body == "" || '\n' in body then None
      else if |body| >= 2 && (body[0] == 'v' || body[0] == 'V') then Some(body[1..])
      else Some(body)
  }

  /** `s.find(needle)` from position `i` on. */
  function FindFrom(s: string, needle: string, i: nat): (r: Option<nat>)
    requires i <= |s|
    ensures r.Some? ==> i <= r.value && OccursAt(s, needle, r.value) &&
                        forall j :: i <= j < r.value ==> !OccursAt(s, needle, j)
    ensures r.None? ==> forall j :: i <= j ==> !OccursAt(s, needle, j)
    decreases |s| - i
  {
    if OccursAt(s, needle, i) then Some(i)
    else if i == |s| then None
    else FindFrom(s, needle, i + 1)
  }

  /** Cut at the first marker of the list that occurs at all, else drop a bare target suffix. */
  function CutTarget(rest: string, markers: seq<string>): string {
    if markers == [] then DropBare(rest, BARE_TARGETS)
    else
      match FindFrom(Lower(rest), markers[0], 0)
      case Some(i) => rest[..i]
      case None => CutTarget(rest, markers[1..])
  }

  function DropBare(rest: string, targets: seq<string>): string {
    if targets == [] then rest
    else if EndsWith(Lower(rest), targets[0]) then rest[..|rest| - |targets[0]|]
    else DropBare(rest, targets[1..])
  }

  /** `parse_archive_version`; `None` is the SessionSmokeError. */
  function ParseArchiveVersion(filename: string): Option<string> {
    match AfterPrefix(DropExtension(FileName(filename), EXTENSIONS))
    case None => None
    case Some(rest) =>
      var version := Strip(CutTarget(rest, MARKERS));
      if LooksLikeVersion(version) then Some(version) else None
  }

  // ------------------------------------------------------------------
  // The round trip
  // ------------------------------------------------------------------

  /** A release version that can be part of one file name. */
  ghost predicate NameSafe(n: string) {
    LooksLikeVersion(n) && '/' !in n && '\n' !in n
  }

  /** The target marker does not start before the end of the version. */
  ghost predicate MarkerStartsAfter(n: string) {
    forall i :: 0 <= i < |n| ==> !OccursAt(Lower(n + "-x86_64-"), "-x86_64-", i)
  }

  /** What follows the prefix in a release name, without the extension. */
  ghost function Stem(n: string): string {
    n + "-x86_64-unknown-linux-gnu"
  }

  lemma PlainFileName(name: string)
    requires '/' !in name && |name| > 1
    ensures FileName(name) == name
  {
    SplitOne(name, '/');
  }

  lemma DropTarGz(stem: string)
    ensures DropExtension(stem + ".tar.gz", EXTENSIONS) == stem
  {
    var name := stem + ".tar.gz";
    assert Lower(name)[|stem|..] == ".tar.gz";
    assert name[..|stem|] == stem;
  }

  lemma NameParts(n: string)
    requires NameSafe(n)
    ensures var name := "strata-" + n + "-" + STRATA_RELEASE_TARGET + ".tar.gz";
            DropExtension(FileName(name), EXTENSIONS) == "strata-" + Stem(n)
  {
    var stem := "strata-" + Stem(n);
    assert "strata-" + n + "-" + STRATA_RELEASE_TARGET + ".tar.gz" == stem + ".tar.gz";
    PlainFileName(stem + ".tar.gz");
    DropTarGz(stem);
  }

  lemma PrefixOfName(n: string)
    requires NameSafe(n)
    ensures AfterPrefix("strata-" + Stem(n)) == Some(Stem(n))
  {
    var name := "strata-" + Stem(n);
    assert name[..7] == "strata-" && name[7..] == Stem(n);
    assert Lower("strata-") == "strata-";
    assert Stem(n)[|Stem(n)| - 1] == 'u';
    assert IsDigit(n[0]) && Stem(n)[0] == n[0];
  }

  lemma MarkerInStem(n: string, i: nat)
    requires i <= |n|
    ensures OccursAt(Lower(Stem(n)), "-x86_64-", i) <==> OccursAt(Lower(n + "-x86_64-"), "-x86_64-", i)
    ensures OccursAt(Lower(Stem(n)), "-x86_64-", |n|)
  {
    var a, b := Lower(Stem(n)), Lower(n + "-x86_64-");
    assert b == a[..|n| + 8];
    assert i + 8 <= |b| ==> a[i..i + 8] == b[i..i + 8];
    assert b[|n|..|n| + 8] == "-x86_64-";
  }

  /** Where the parser cuts a release name's stem. */
  lemma CutOfStem(n: string) returns (i: nat)
    ensures i <= |n| && CutTarget(Stem(n), MARKERS) == n[..i]
    ensures i == |n| <==> MarkerStartsAfter(n)
  {
    MarkerInStem(n, |n|);
    var found := FindFrom(Lower(Stem(n)), MARKERS[0], 0);
    i := found.value;
    assert i <= |n|;
    assert Stem(n)[..i] == n[..i];
    if i == |n| {
      forall j | 0 <= j < |n| ensures !OccursAt(Lower(n + "-x86_64-"), "-x86_64-", j) {
        MarkerInStem(n, j);
      }
    } else {
      MarkerInStem(n, i);
    }
  }

  lemma ParseOfName(n: string)
    requires NameSafe(n)
    ensures ParseArchiveVersion("strata-" + n + "-" + STRATA_RELEASE_TARGET + ".tar.gz")
            == var version := Strip(CutTarget(Stem(n), MARKERS));
               if LooksLikeVersion(version) then Some(version) else None
  {
    NameParts(n);
    PrefixOfName(n);
  }

  lemma StripShortens(s: string)
    ensures |Strip(s)| <= |s|
  {
    StripTrims(s);
  }

  /**
   Reading the version back from a release name gives the normalised version
   exactly when the target marker does not start inside it.
   */
  lemma ArchiveRoundTripIff(version: string)
    requires NameSafe(Normalize(version))
    ensures ParseArchiveVersion(ArchiveName(version)) == Some(Normalize(version)) <==> MarkerStartsAfter(Normalize(version))
  {
    var n := Normalize(version);
    NormalizeTrims(version);
    StripTrims(n);
    ParseOfName(n);
    var i := CutOfStem(n);
    StripShortens(n[..i]);
    assert n[..|n|] == n;
  }

  /** A version that spells the target loses its tail: "1.0-x86_64-2" reads back as "1.0". */
  lemma MarkerInsideVersion()
    ensures NameSafe("1.0-x86_64-2") && !MarkerStartsAfter("1.0-x86_64-2")
  {
    var n := "1.0-x86_64-2";
    assert DigitRun(n[1..]) == 0;
    assert Lower(n + "-x86_64-")[3..11] == "-x86_64-";
    assert OccursAt(Lower(n + "-x86_64-"), "-x86_64-", 3);
  }

  // ------------------------------------------------------------------
  // Names by others
  // ------------------------------------------------------------------

  const ARCHITECTURES: seq<string> := ["x86_64", "aarch64", "arm64"]

  /** A version of digits and dots. */
  ghost predicate Numeric(n: string) {
    LooksLikeVersion(n) && forall i :: 0 <= i < |n| ==> IsDigit(n[i]) || n[i] == '.'
  }

  /** An architecture in any case. */
  ghost predicate IsArchitecture(arch: string) {
    Lower(arch) in ARCHITECTURES
  }

  /** Nothing, or a dash or dot and what follows, in which no other architecture is named after a dash. */
  ghost predicate IsRest(os: string) {
    os == "" ||
    ((os[0] == '-' || os[0] == '.') &&
     forall a, i :: a in ARCHITECTURES ==> !OccursAt(Lower(os), "-" + a, i))
  }

  /** What may end a path without changing its name. */
  ghost predicate IsPathEnd(end: string) {
    end == "" || end == "/" || end == "/."
  }

  lemma {:induction false} LastNameOf(parts: seq<string>, name: string, ends: seq<string>)
    requires |name| > 1 && forall i :: 0 <= i < |ends| ==> ends[i] == "" || ends[i] == "."
    ensures LastName(parts + [name] + ends) == name
  {
    var all := parts + [name] + ends;
    if ends == [] {
      assert all[|all| - 1] == name;
    } else {
      assert all[..|all| - 1] == parts + [name] + ends[..|ends| - 1];
      LastNameOf(parts, name, ends[..|ends| - 1]);
    }
  }

  lemma PathEndParts(name: string, end: string)
    requires '/' !in name && IsPathEnd(end)
    ensures Split(name + end, '/') == [name] + if end == "" then [] else [end[1..]]
  {
    SplitOne(name, '/');
    if end == "" {
      assert name + end == name;
    } else {
      SplitFirst(name, '/', end[1..]);
      assert name + end == name + ['/'] + end[1..];
      SplitOne(end[1..], '/');
    }
  }

  lemma DirectoryDropped(dir: string, name: string, end: string)
    requires '/' !in name && |name| > 1 && IsPathEnd(end)
    ensures FileName(dir + "/" + name + end) == name
  {
    SplitConcat(dir, '/', name + end);
    PathEndParts(name, end);
    assert dir + "/" + name + end == dir + ['/'] + (name + end);
    var ends := if end == "" then [] else [end[1..]];
    Assoc(Split(dir, '/'), [name], ends);
    LastNameOf(Split(dir, '/'), name, ends);
  }

  /** Two suffixes of one name agree at each place from the end. */
  lemma SuffixesAgree(name: string, x: string, y: string, q: nat)
    requires EndsWith(name, x) && EndsWith(name, y) && 1 <= q <= |x| && q <= |y|
    ensures x[|x| - q] == y[|y| - q]
  {
    assert name[|name| - |y|..][|y| - q] == name[|name| - q] == name[|name| - |x|..][|x| - q];
  }

  lemma OneExtension(name: string, k: nat, j: nat)
    requires j < k < |EXTENSIONS| && EndsWith(name, EXTENSIONS[k])
    ensures !EndsWith(name, EXTENSIONS[j])
  {
    if EndsWith(name, EXTENSIONS[j]) {
      var q := if k == 1 then 2 else if k == 2 && j == 0 then 3 else if k == 2 then 2 else 1;
      SuffixesAgree(name, EXTENSIONS[j], EXTENSIONS[k], q);
    }
  }

  /** Every extension of the list is dropped, in any case. */
  lemma ExtensionDropped(stem: string, e: string)
    requires Lower(e) in EXTENSIONS
    ensures DropExtension(stem + e, EXTENSIONS) == stem
  {
    var k :| 0 <= k < |EXTENSIONS| && Lower(e) == EXTENSIONS[k];
    var name := Lower(stem + e);
    assert name[|stem|..] == Lower(e);
    forall j | 0 <= j < k ensures !EndsWith(name, EXTENSIONS[j]) {
      OneExtension(name, k, j);
    }
    DropAt(stem, e, EXTENSIONS, k);
  }

  lemma {:induction false} DropAt(stem: string, e: string, extensions: seq<string>, k: nat)
    requires k < |extensions| && Lower(e) == extensions[k]
    requires forall j :: 0 <= j < k ==> !EndsWith(Lower(stem + e), extensions[j])
    ensures DropExtension(stem + e, extensions) == stem
  {
    assert Lower(stem + e)[|stem|..] == Lower(e);
    assert (stem + e)[..|stem|] == stem;
    if k > 0 {
      assert !EndsWith(Lower(stem + e), extensions[0]);
      DropAt(stem, e, extensions[1..], k - 1);
    }
  }

  lemma ThreeParts<T>(a: seq<T>, b: seq<T>, c: seq<T>)
    ensures (a + b + c)[..|a|] == a && (a + b + c)[|a|..] == b + c
  {
  }

  /** The optional v: dropped before a digit, and no newline to drop. */
  lemma VersionGroup(v: string, body: string)
    requires v in ["", "v", "V"] && '\n' !in body && body != "" && IsDigit(body[0])
    ensures '\n' !in v + body && v + body != "" && !EndsWith(v + body, "\n")
    ensures var rest := v + body;
            (if |rest| >= 2 && (rest[0] == 'v' || rest[0] == 'V') then rest[1..] else rest) == body
  {
    var rest := v + body;
    assert rest[|rest| - 1] == body[|body| - 1] && body[|body| - 1] in body;
    assert rest[|rest| - 1..][0] == rest[|rest| - 1];
    if v == "" {
      assert rest == body;
    } else {
      assert rest[1..] == body;
    }
  }

  /** `strata-` in any case, perhaps a v, and then the version. */
  lemma PrefixDropped(prefix: string, v: string, body: string)
    requires Lower(prefix) == "strata-" && v in ["", "v", "V"] && '\n' !in body && body != "" && IsDigit(body[0])
    ensures AfterPrefix(prefix + v + body) == Some(body)
  {
    assert |prefix| == |Lower(prefix)| == 7;
    ThreeParts(prefix, v, body);
    VersionGroup(v, body);
  }

  lemma LowerParts(n: string, arch: string, os: string)
    ensures Lower(n + "-" + arch + os) == Lower(n) + ("-" + (Lower(arch) + Lower(os)))
  {
  }

  lemma OccursFirst(s: string, m: string, i: int)
    requires m != "" && OccursAt(s, m, i)
    ensures s[i] == m[0]
  {
    assert s[i..i + |m|][0] == s[i];
  }

  /** An occurrence beyond the first part is one in the rest. */
  lemma OccursInTail(t: string, s: string, m: string, i: int)
    requires |t| <= i
    ensures OccursAt(t + s, m, i) <==> OccursAt(s, m, i - |t|)
  {
    if 0 <= i - |t| && i + |m| <= |t + s| {
      assert (t + s)[i..i + |m|] == s[i - |t|..i - |t| + |m|];
    }
  }

  lemma OccursParts(s: string, a: string, b: string, i: int)
    ensures OccursAt(s, a + b, i) <==> OccursAt(s, a, i) && OccursAt(s, b, i + |a|)
  {
    if 0 <= i && i + |a + b| <= |s| {
      assert s[i..i + |a + b|] == s[i..i + |a|] + s[i + |a|..i + |a| + |b|];
      if OccursAt(s, a + b, i) {
        assert s[i..i + |a|] == (a + b)[..|a|] && s[i + |a|..i + |a| + |b|] == (a + b)[|a|..];
      }
    }
  }

  /** No architecture starts another, and none has a dash in it. */
  lemma ArchitecturesDiffer(s: string, a: string, b: string)
    requires a in ARCHITECTURES && b in ARCHITECTURES && OccursAt(s, a, 0) && OccursAt(s, b, 0)
    ensures a == b
  {
    assert s[0..|a|][0] == s[0] == s[0..|b|][0];
    assert s[0..|a|][1] == s[1] == s[0..|b|][1];
  }

  /** Right after the dash: the architecture and what comes next decide. */
  lemma AfterDash(arch: string, os: string, a: string, c: char)
    requires arch in ARCHITECTURES && a in ARCHITECTURES
    ensures OccursAt(arch + os, a + [c], 0) <==> a == arch && os != "" && os[0] == c
  {
    var s := arch + os;
    OccursParts(s, a, [c], 0);
    assert s[0..|arch|] == arch;
    if OccursAt(s, a, 0) {
      ArchitecturesDiffer(s, a, arch);
      assert |a| < |s| ==> s[|a|..|a| + 1] == [os[0]];
    }
  }

  lemma NoDash(arch: string)
    requires arch in ARCHITECTURES
    ensures '-' !in arch
  {
  }

  /** A text that starts with a dash does not occur where there is none. */
  lemma NotWithoutDash(x: string, s: string, m: string, i: int)
    requires '-' !in x && m != "" && m[0] == '-' && 0 <= i < |x|
    ensures !OccursAt(x + s, m, i)
  {
    var c := x[i];
    assert c in x && (x + s)[i] == c;
    if OccursAt(x + s, m, i) {
      OccursFirst(x + s, m, i);
    }
  }

  /** After the dash: nothing, by what `os` may hold. */
  lemma NotInRest(arch: string, os: string, a: string, c: char, i: int)
    requires arch in ARCHITECTURES && 0 <= i
    requires forall k :: !OccursAt(os, "-" + a, k)
    ensures !OccursAt(arch + os, "-" + a + [c], i)
  {
    NoDash(arch);
    if i < |arch| {
      NotWithoutDash(arch, os, "-" + a + [c], i);
    } else {
      OccursInTail(arch, os, "-" + a + [c], i);
      OccursParts(os, "-" + a, [c], i - |arch|);
    }
  }

  /** A target marker occurs nowhere but right after the version, and only if it is the one there. */
  lemma MarkerOnlyThere(n: string, arch: string, os: string, a: string, c: char, i: int)
    requires '-' !in n && arch in ARCHITECTURES && a in ARCHITECTURES
    requires forall k :: !OccursAt(os, "-" + a, k)
    ensures OccursAt(n + ("-" + (arch + os)), "-" + a + [c], i)
            <==> i == |n| && a == arch && os != "" && os[0] == c
  {
    var rest := "-" + (arch + os);
    if 0 <= i < |n| {
      NotWithoutDash(n, rest, "-" + a + [c], i);
    } else if i >= |n| {
      OccursInTail(n, rest, "-" + a + [c], i);
      if i == |n| {
        Assoc("-", a, [c]);
        OccursParts(rest, "-", a + [c], 0);
        OccursInTail("-", arch + os, a + [c], 1);
        assert rest[0..1] == "-";
        AfterDash(arch, os, a, c);
      } else {
        OccursInTail("-", arch + os, "-" + a + [c], i - |n|);
        NotInRest(arch, os, a, c, i - |n| - 1);
      }
    }
  }

  /** The marker for an architecture and what follows it. */
  ghost function Marker(a: string, c: char): string {
    "-" + a + [c]
  }

  ghost predicate MarkerBy(m: string, a: string, c: char) {
    a in ARCHITECTURES && (c == '-' || c == '.') && m == Marker(a, c)
  }

  ghost predicate IsMarker(m: string) {
    exists a, c :: MarkerBy(m, a, c)
  }

  /** The markers of the list are those of the three architectures, each with a dash and with a dot. */
  lemma MarkersAre()
    ensures |MARKERS| == 6
    ensures MARKERS[0] == Marker("x86_64", '-') && MARKERS[3] == Marker("x86_64", '.')
    ensures MARKERS[1] == Marker("aarch64", '-') && MARKERS[4] == Marker("aarch64", '.')
    ensures MARKERS[2] == Marker("arm64", '-') && MARKERS[5] == Marker("arm64", '.')
  {
  }

  lemma EachIsMarker(i: nat)
    requires i < |MARKERS|
    ensures IsMarker(MARKERS[i])
  {
    MarkersAre();
    assert MarkerBy(MARKERS[i], ARCHITECTURES[i % 3], if i < 3 then '-' else '.');
  }

  lemma EachHasMarker(a: string, c: char)
    requires a in ARCHITECTURES && (c == '-' || c == '.')
    ensures Marker(a, c) in MARKERS
  {
    MarkersAre();
    var i :| 0 <= i < |ARCHITECTURES| && a == ARCHITECTURES[i];
    assert Marker(a, c) == MARKERS[if c == '-' then i else i + 3];
  }

  lemma BareTargetsAre()
    ensures |BARE_TARGETS| == |ARCHITECTURES|
    ensures forall i :: 0 <= i < |BARE_TARGETS| ==> BARE_TARGETS[i] == "-" + ARCHITECTURES[i]
  {
    assert BARE_TARGETS[0] == "-" + ARCHITECTURES[0] && BARE_TARGETS[1] == "-" + ARCHITECTURES[1];
    assert BARE_TARGETS[2] == "-" + ARCHITECTURES[2];
  }

  /** Where one marker is found. */
  lemma FirstMarker(full: string, n: string, arch: string, os: string, m: string)
    requires Lower(full) == n + ("-" + (arch + os)) && '-' !in n && arch in ARCHITECTURES && IsMarker(m)
    requires forall a, k :: a in ARCHITECTURES ==> !OccursAt(os, "-" + a, k)
    ensures FindFrom(Lower(full), m, 0) == if os != "" && m == Marker(arch, os[0]) then Some(|n|) else None
  {
    var a, c :| MarkerBy(m, a, c);
    var found := FindFrom(Lower(full), m, 0);
    MarkerOnlyThere(n, arch, os, a, c, |n|);
    assert found.None? ==> !OccursAt(Lower(full), m, |n|);
    if found.Some? {
      MarkerOnlyThere(n, arch, os, a, c, found.value);
    }
    if os != "" {
      MarkersDiffer(a, c, arch, os[0]);
    }
  }

  /** A name is cut at the version by the one marker that is there; without one, only a bare target is dropped. */
  lemma {:induction false} CutByMarkers(full: string, n: string, arch: string, os: string, markers: seq<string>)
    requires Lower(full) == n + ("-" + (arch + os)) && '-' !in n && arch in ARCHITECTURES
    requires forall a, k :: a in ARCHITECTURES ==> !OccursAt(os, "-" + a, k)
    requires forall i :: 0 <= i < |markers| ==> IsMarker(markers[i])
    ensures CutTarget(full, markers)
            == if os != "" && Marker(arch, os[0]) in markers then full[..|n|] else DropBare(full, BARE_TARGETS)
  {
    if markers != [] {
      assert IsMarker(markers[0]);
      FirstMarker(full, n, arch, os, markers[0]);
      CutByMarkers(full, n, arch, os, markers[1..]);
      assert markers == [markers[0]] + markers[1..];
    }
  }

  lemma MarkersDiffer(a: string, c: char, b: string, d: char)
    ensures Marker(a, c) == Marker(b, d) <==> a == b && c == d
  {
    var x, y := Marker(a, c), Marker(b, d);
    assert x[1..|x| - 1] == a && y[1..|y| - 1] == b;
    assert x[|x| - 1] == c && y[|y| - 1] == d;
  }

  lemma {:induction false} DropBareAt(full: string, n: string, arch: string, targets: seq<string>, archs: seq<string>)
    requires Lower(full) == n + ("-" + arch) && arch in ARCHITECTURES && |targets| == |archs|
    requires forall i :: 0 <= i < |targets| ==> archs[i] in ARCHITECTURES && targets[i] == "-" + archs[i]
    requires arch in archs
    ensures DropBare(full, targets) == full[..|n|]
  {
    EndsWithDash(n, arch, archs[0]);
    if archs[0] == arch {
      assert EndsWith(Lower(full), targets[0]);
    } else {
      assert archs == [archs[0]] + archs[1..];
      DropBareAt(full, n, arch, targets[1..], archs[1..]);
    }
  }

  lemma EndsWithDash(n: string, arch: string, a: string)
    requires arch in ARCHITECTURES && a in ARCHITECTURES
    ensures EndsWith(n + ("-" + arch), "-" + a) <==> a == arch
  {
    var s := n + ("-" + arch);
    assert s[|s| - |"-" + arch|..] == "-" + arch;
    if EndsWith(s, "-" + a) {
      SuffixesAgree(s, "-" + a, "-" + arch, 3);
    }
  }

  lemma NumericIsPlain(n: string)
    requires Numeric(n)
    ensures '-' !in n && '/' !in n && '\n' !in n && Lower(n) == n && Strip(n) == n && n != "" && IsDigit(n[0])
  {
    StripTrims(n);
  }

  /**
   Names by others: in any directory, with a slash or dot after it or not, with the
   prefix in any case, perhaps a v, a version of digits and dots, any of the three
   architectures in any case, more or nothing after a dash or dot, and any of the
   five extensions in any case, the version is what is read.
   */
  lemma AnyArchiveParses(dir: string, prefix: string, v: string, n: string, arch: string, os: string, e: string,
                         end: string)
    requires Lower(prefix) == "strata-" && v in ["", "v", "V"] && Numeric(n) && IsArchitecture(arch) && IsRest(os)
    requires Lower(e) in [".tar.gz", ".tar.xz", ".tgz", ".zip", ".tar"] && IsPathEnd(end)
    requires '/' !in os && '\n' !in os
    ensures ParseArchiveVersion(dir + "/" + (prefix + v + (n + "-" + arch + os) + e) + end) == Some(n)
  {
    var body := n + "-" + arch + os;
    NumericIsPlain(n);
    PlainParts(prefix, v, n, arch, os, e);
    DirectoryDropped(dir, prefix + v + body + e, end);
    ExtensionDropped(prefix + v + body, e);
    PrefixDropped(prefix, v, body);
    BodyCut(n, arch, os);
  }

  /** A name with the prefix has something to read exactly when one line follows it, a final newline aside. */
  lemma OneLineFollows(prefix: string, body: string, newline: string)
    requires Lower(prefix) == "strata-" && (newline == "" || newline == "\n")
    requires body == "" || body[|body| - 1] != '\n'
    ensures AfterPrefix(prefix + body + newline).Some? <==> body != "" && '\n' !in body
  {
    assert |prefix| == |Lower(prefix)| == 7;
    ThreeParts(prefix, body, newline);
    var rest := body + newline;
    if newline == "" {
      assert rest == body;
      assert body != "" ==> rest[|rest| - 1..][0] == rest[|rest| - 1];
    } else {
      assert rest[..|rest| - 1] == body && rest[|rest| - 1..] == "\n";
    }
  }

  lemma BodyCut(n: string, arch: string, os: string)
    requires Numeric(n) && IsArchitecture(arch) && IsRest(os)
    ensures CutTarget(n + "-" + arch + os, MARKERS) == n
  {
    var body := n + "-" + arch + os;
    NumericIsPlain(n);
    forall i: nat | i < |MARKERS| ensures IsMarker(MARKERS[i]) {
      EachIsMarker(i);
    }
    LowerParts(n, arch, os);
    assert |Lower(os)| == |os| && body[..|n|] == n;
    RestLower(os);
    CutByMarkers(body, n, Lower(arch), Lower(os), MARKERS);
    if os != "" {
      EachHasMarker(Lower(arch), os[0]);
    } else {
      BareTargetsAre();
      assert Lower(arch) + Lower(os) == Lower(arch);
      DropBareAt(body, n, Lower(arch), BARE_TARGETS, ARCHITECTURES);
    }
  }

  lemma RestLower(os: string)
    requires IsRest(os)
    ensures forall a, k :: a in ARCHITECTURES ==> !OccursAt(Lower(os), "-" + a, k)
    ensures os != "" ==> Lower(os)[0] == os[0]
  {
  }

  lemma PlainParts(prefix: string, v: string, n: string, arch: string, os: string, e: string)
    requires Lower(prefix) == "strata-" && v in ["", "v", "V"] && Numeric(n) && IsArchitecture(arch)
    requires Lower(e) in EXTENSIONS && '/' !in os && '\n' !in os
    ensures '/' !in prefix + v + (n + "-" + arch + os) + e && |prefix| == 7
    ensures '\n' !in n + "-" + arch + os && (n + "-" + arch + os)[0] == n[0]
  {
    NumericIsPlain(n);
    LowerKeepsOut(prefix, '/');
    LowerKeepsOut(arch, '/');
    LowerKeepsOut(arch, '\n');
    LowerKeepsOut(e, '/');
  }

  lemma LowerKeepsOut(s: string, c: char)
    requires c !in Lower(s) && LowerChar(c) == c
    ensures c !in s
  {
    forall i | 0 <= i < |s| ensures s[i] != c {
      assert Lower(s)[i] in Lower(s);
    }
  }
}
