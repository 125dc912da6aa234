/**
 The content address of a recipe: which files it covers, the octets fed to the
 hash, and why equal octets mean equal covered files and an equal source pin.
 */
module Recipes {
  import opened Bytes
  import opened Wrappers
  import opened Separated
  import opened Ordering

  /** A path relative to the recipe directory: its components, each the UTF-8 octets of one name. */
  type Name = Octets
  type Path = seq<Name>

  const SLASH: Byte := '/' as int
  const NUL: Byte := 0

  /** A symlink-free recipe directory: its regular files with their contents, and its sub-directories. */
  datatype Tree = Tree(files: map<Path, Octets>, dirs: set<Path>)

  ghost predicate ValidName(n: Name) {
    n != [] && SLASH !in n && NUL !in n
  }

  ghost predicate ValidPath(p: Path) {
    p != [] && forall i :: 0 <= i < |p| ==> ValidName(p[i])
  }

  ghost predicate ValidTree(t: Tree) {
    forall p :: p in t.files ==> ValidPath(p) && p !in t.dirs
  }

  const IMAGE_TOML: Name := Ascii("image.toml")
  const BOOTSTRAP: Name := Ascii("bootstrap.sh")
  const SETUP: Name := Ascii("setup.sh")
  const GREETD_CONFIG: Name := Ascii("greetd-config.toml")
  const HYPRLAND_LUA: Name := Ascii("hyprland.lua")
  const HYPRLAND_CONF: Name := Ascii("hyprland.conf")
  const SKIP_WIZARD: Name := Ascii("skip-wizard.sh")
  const REQUIRED: seq<Name> := [IMAGE_TOML, BOOTSTRAP, SETUP]
  const OPTIONAL: seq<Name> := [GREETD_CONFIG, HYPRLAND_LUA, HYPRLAND_CONF, SKIP_WIZARD]
  const TMPL: Octets := Ascii(".tmpl")
  const CIDATA: Name := Ascii("cidata")

  /** `path.suffix == ".tmpl" or path.name.endswith(".tmpl")`; the first implies the second. */
  predicate IsTemplate(p: Path) {
    p != [] && EndsWith(p[|p| - 1], TMPL)
  }

  predicate UnderCidata(p: Path) {
    |p| >= 2 && p[0] == CIDATA
  }

  predicate ByteLess(a: Byte, b: Byte) { a < b }
  predicate NameLess(a: Name, b: Name) { Lex(ByteLess, a, b) }
  /** The order in which `sorted` puts paths: component by component. */
  predicate PathLess(a: Path, b: Path) { Lex(NameLess, a, b) }

  lemma PathOrder()
    ensures StrictOrder(PathLess)
  {
    assert StrictOrder(ByteLess);
    forall a: Name { LexIrreflexive(ByteLess, a); }
    forall a: Name, b: Name, c: Name | NameLess(a, b) && NameLess(b, c) { LexTransitive(ByteLess, a, b, c); }
    forall a: Name, b: Name { LexTotal(ByteLess, a, b); }
    assert StrictOrder(NameLess);
    forall a: Path { LexIrreflexive(NameLess, a); }
    forall a: Path, b: Path, c: Path | PathLess(a, b) && PathLess(b, c) { LexTransitive(NameLess, a, b, c); }
    forall a: Path, b: Path { LexTotal(NameLess, a, b); }
  }

  /** Names are ordered by the value of their first different octet; a name comes before its extensions. */
  lemma NamesInOrder(common: Name, a: Byte, b: Byte, s: Name, t: Name)
    ensures a < b ==> NameLess(common + [a] + s, common + [b] + t)
    ensures NameLess(common, common + [a] + s)
  {
    LexAt(ByteLess, common, a, b, s, t);
    LexAt(ByteLess, common, a, a, s, s);
  }

  /** Paths are ordered by their first different component; a directory comes before what is in it. */
  lemma PathsInOrder(common: Path, a: Name, b: Name, s: Path, t: Path)
    ensures a != b ==> (PathLess(common + [a] + s, common + [b] + t) <==> NameLess(a, b))
    ensures PathLess(common, common + [a] + s)
  {
    LexAt(NameLess, common, a, b, s, t);
  }

  // ------------------------------------------------------------------
  // Covered files
  // ------------------------------------------------------------------

  /** What `rglob("*")` yields, in whatever order: every file once, and possibly directories. */
  datatype Listing = Listing(root: seq<Path>, cidata: Option<seq<Path>>)

  ghost predicate Lists(l: Listing, t: Tree) {
    && NoDup(l.root) && (forall p :: p in t.files ==> p in l.root)
    && match l.cidata
       case None => forall p :: p in t.files ==> !UnderCidata(p)
       case Some(c) =>
         && NoDup(c) && (forall p :: p in c ==> UnderCidata(p))
         && forall p :: p in t.files && UnderCidata(p) ==> p in c
  }

  function Present(t: Tree, names: seq<Name>): seq<Path> {
    if names == [] then []
    else
      var n := |names| - 1;
      Present(t, names[..n]) + if [names[n]] in t.files then [[names[n]]] else []
  }

  function Fixed(t: Tree): seq<Path> {
    Present(t, REQUIRED) + Present(t, OPTIONAL)
  }

  predicate NewTemplate(t: Tree, p: Path) {
    p in t.files && IsTemplate(p) && p !in Fixed(t)
  }

  predicate NewCidata(t: Tree, p: Path) {
    p in t.files && UnderCidata(p) && !IsTemplate(p) && p !in Fixed(t)
  }

  function Templates(t: Tree, sorted: seq<Path>): seq<Path> {
    Filter(p => NewTemplate(t, p), sorted)
  }

  function CidataIn(t: Tree, s: seq<Path>): seq<Path> {
    Filter(p => NewCidata(t, p), s)
  }

  function CidataFiles(t: Tree, l: Listing): seq<Path> {
    match l.cidata
    case None => []
    case Some(c) => CidataIn(t, Sort(PathLess, c))
  }

  /** The files hashed into the digest, in the order they are fed. */
  function Covered(t: Tree, l: Listing): seq<Path> {
    Fixed(t) + Templates(t, Sort(PathLess, l.root)) + CidataFiles(t, l)
  }

  /** The rules, as a property of one path. */
  predicate Qualifies(p: Path) {
    (|p| == 1 && (p[0] in REQUIRED || p[0] in OPTIONAL)) || IsTemplate(p) || UnderCidata(p)
  }

  lemma FixedNamesDistinct()
    ensures NoDup(REQUIRED) && NoDup(OPTIONAL)
    ensures forall n :: n in OPTIONAL ==> n !in REQUIRED
  {
    assert |REQUIRED[0]| == 10 && |REQUIRED[1]| == 12 && |REQUIRED[2]| == 8;
    assert |OPTIONAL[0]| == 18 && |OPTIONAL[1]| == 12 && |OPTIONAL[2]| == 13 && |OPTIONAL[3]| == 14;
    assert REQUIRED[1][0] != OPTIONAL[1][0];
  }

  lemma {:induction false} PresentHolds(t: Tree, names: seq<Name>, p: Path)
    ensures p in Present(t, names) <==> p in t.files && |p| == 1 && p[0] in names
  {
    if names != [] {
      var n := |names| - 1;
      PresentHolds(t, names[..n], p);
      assert names == names[..n] + [names[n]];
      assert p in Present(t, names) <==> p in Present(t, names[..n]) || (p == [names[n]] && p in t.files);
    }
  }

  lemma {:induction false} PresentDistinct(t: Tree, names: seq<Name>)
    requires NoDup(names)
    ensures NoDup(Present(t, names))
  {
    if names != [] {
      var n := |names| - 1;
      PresentDistinct(t, names[..n]);
      PresentHolds(t, names[..n], [names[n]]);
    }
  }

  lemma FixedHolds(t: Tree, p: Path)
    ensures p in Fixed(t) <==> p in t.files && |p| == 1 && (p[0] in REQUIRED || p[0] in OPTIONAL)
  {
    PresentHolds(t, REQUIRED, p);
    PresentHolds(t, OPTIONAL, p);
  }

  lemma FixedDistinct(t: Tree)
    ensures NoDup(Fixed(t))
  {
    FixedNamesDistinct();
    PresentDistinct(t, REQUIRED);
    PresentDistinct(t, OPTIONAL);
    forall p | p in Present(t, REQUIRED) ensures p !in Present(t, OPTIONAL) {
      PresentHolds(t, REQUIRED, p);
      PresentHolds(t, OPTIONAL, p);
    }
    DistinctConcat(Present(t, REQUIRED), Present(t, OPTIONAL));
  }

  lemma TemplatesHold(t: Tree, sorted: seq<Path>, p: Path)
    ensures p in Templates(t, sorted) <==> NewTemplate(t, p) && p in sorted
  {
    FilterHolds(q => NewTemplate(t, q), sorted, p);
  }

  lemma CidataFilesHold(t: Tree, l: Listing, p: Path)
    requires Lists(l, t)
    ensures p in CidataFiles(t, l) <==> NewCidata(t, p)
  {
    if l.cidata.Some? {
      FilterHolds(q => NewCidata(t, q), Sort(PathLess, l.cidata.value), p);
      SortHolds(PathLess, l.cidata.value, p);
    }
  }

  lemma AscendingDistinct(s: seq<Path>)
    requires Ascending(PathLess, s)
    ensures NoDup(s)
  {
    PathOrder();
  }

  lemma DistinctConcat<T>(a: seq<T>, b: seq<T>)
    requires NoDup(a) && NoDup(b) && forall x :: x in a ==> x !in b
    ensures NoDup(a + b)
  {
    forall i, j | 0 <= i < j < |a + b| ensures (a + b)[i] != (a + b)[j] {
      if i < |a| <= j {
        assert a[i] in a && b[j - |a|] in b;
      }
    }
  }

  lemma PartsAscend(t: Tree, l: Listing)
    requires Lists(l, t)
    ensures Ascending(PathLess, Templates(t, Sort(PathLess, l.root)))
    ensures Ascending(PathLess, CidataFiles(t, l))
  {
    PathOrder();
    SortAscends(PathLess, l.root);
    FilterAscends(PathLess, q => NewTemplate(t, q), Sort(PathLess, l.root));
    if l.cidata.Some? {
      SortAscends(PathLess, l.cidata.value);
      FilterAscends(PathLess, q => NewCidata(t, q), Sort(PathLess, l.cidata.value));
    }
  }

  lemma PartsHold(t: Tree, l: Listing, p: Path)
    requires Lists(l, t)
    ensures p in Fixed(t) <==> p in t.files && |p| == 1 && (p[0] in REQUIRED || p[0] in OPTIONAL)
    ensures p in Templates(t, Sort(PathLess, l.root)) <==> NewTemplate(t, p)
    ensures p in CidataFiles(t, l) <==> NewCidata(t, p)
  {
    FixedHolds(t, p);
    TemplatesHold(t, Sort(PathLess, l.root), p);
    SortHolds(PathLess, l.root, p);
    CidataFilesHold(t, l, p);
  }

  lemma CoveredHolds(t: Tree, l: Listing, p: Path)
    requires Lists(l, t)
    ensures p in Covered(t, l) <==> p in t.files && Qualifies(p)
  {
    PartsHold(t, l, p);
    assert p in Covered(t, l) <==>
           p in Fixed(t) || p in Templates(t, Sort(PathLess, l.root)) || p in CidataFiles(t, l);
  }

  /**
   The covered files are, without repetition, exactly the regular files that
   qualify under some rule, a file that qualifies under two of them included.
   */
  lemma CoveredExactly(t: Tree, l: Listing)
    requires Lists(l, t)
    ensures NoDup(Covered(t, l))
    ensures forall p :: p in Covered(t, l) <==> p in t.files && Qualifies(p)
  {
    var a, b, c := Fixed(t), Templates(t, Sort(PathLess, l.root)), CidataFiles(t, l);
    PartsAscend(t, l);
    AscendingDistinct(b);
    AscendingDistinct(c);
    FixedDistinct(t);
    forall p ensures p in a ==> p !in b && p !in c {
      PartsHold(t, l, p);
    }
    forall p ensures p in b ==> p !in c {
      PartsHold(t, l, p);
    }
    DistinctConcat(a, b);
    DistinctConcat(a + b, c);
    forall p ensures p in Covered(t, l) <==> p in t.files && Qualifies(p) {
      CoveredHolds(t, l, p);
    }
  }

  /** The files covered at the top of a recipe, by name. */
  lemma RequiredSpelled()
    ensures Qualifies([Ascii("image.toml")]) && Qualifies([Ascii("bootstrap.sh")]) && Qualifies([Ascii("setup.sh")])
    ensures |REQUIRED| + |OPTIONAL| == 7
  {
    assert REQUIRED[0] == Ascii("image.toml") && REQUIRED[1] == Ascii("bootstrap.sh") && REQUIRED[2] == Ascii("setup.sh");
  }

  lemma OptionalSpelled()
    ensures Qualifies([Ascii("greetd-config.toml")]) && Qualifies([Ascii("hyprland.lua")])
    ensures Qualifies([Ascii("hyprland.conf")]) && Qualifies([Ascii("skip-wizard.sh")])
  {
    assert OPTIONAL[0] == Ascii("greetd-config.toml") && OPTIONAL[1] == Ascii("hyprland.lua");
    assert OPTIONAL[2] == Ascii("hyprland.conf") && OPTIONAL[3] == Ascii("skip-wizard.sh");
  }

  /** Templates anywhere, and everything under cidata. */
  lemma OthersSpelled(dir: Path, name: Name, rest: Path)
    ensures Qualifies(dir + [name + Ascii(".tmpl")])
    ensures rest != [] ==> Qualifies([Ascii("cidata")] + rest)
  {
    var p := dir + [name + Ascii(".tmpl")];
    assert p[|p| - 1] == name + TMPL;
    assert (name + TMPL)[|name|..] == TMPL;
    assert ([CIDATA] + rest)[0] == CIDATA;
  }

  /** The contents the digest covers. */
  ghost function CoveredContents(t: Tree): map<Path, Octets> {
    map p | p in t.files && Qualifies(p) :: t.files[p]
  }

  lemma {:induction false} PresentDetermined(t: Tree, t': Tree, names: seq<Name>)
    requires forall n :: n in names ==> ([n] in t.files <==> [n] in t'.files)
    ensures Present(t, names) == Present(t', names)
  {
    if names != [] {
      var n := |names| - 1;
      PresentDetermined(t, t', names[..n]);
    }
  }

  lemma SameFixed(t: Tree, t': Tree)
    requires CoveredContents(t).Keys == CoveredContents(t').Keys
    ensures Fixed(t) == Fixed(t')
  {
    forall n | n in REQUIRED || n in OPTIONAL ensures [n] in t.files <==> [n] in t'.files {
      assert Qualifies([n]);
      assert [n] in CoveredContents(t).Keys <==> [n] in t.files;
      assert [n] in CoveredContents(t').Keys <==> [n] in t'.files;
    }
    PresentDetermined(t, t', REQUIRED);
    PresentDetermined(t, t', OPTIONAL);
  }

  lemma SameRules(t: Tree, t': Tree, p: Path)
    requires CoveredContents(t).Keys == CoveredContents(t').Keys
    ensures NewTemplate(t, p) == NewTemplate(t', p) && NewCidata(t, p) == NewCidata(t', p)
  {
    SameFixed(t, t');
    assert p in CoveredContents(t).Keys <==> p in t.files && Qualifies(p);
    assert p in CoveredContents(t').Keys <==> p in t'.files && Qualifies(p);
  }

  /**
   The covered files and their order depend on which covered files exist and on
   nothing else: not on the order directories are listed in, nor on other files.
   */
  lemma CoveredDetermined(t: Tree, l: Listing, t': Tree, l': Listing)
    requires Lists(l, t) && Lists(l', t') && CoveredContents(t).Keys == CoveredContents(t').Keys
    ensures Covered(t, l) == Covered(t', l')
  {
    SameFixed(t, t');
    PartsAscend(t, l);
    PartsAscend(t', l');
    PathOrder();
    forall p
      ensures p in Templates(t, Sort(PathLess, l.root)) <==> p in Templates(t', Sort(PathLess, l'.root))
      ensures p in CidataFiles(t, l) <==> p in CidataFiles(t', l')
    {
      SameRules(t, t', p);
      PartsHold(t, l, p);
      PartsHold(t', l', p);
    }
    AscendingUnique(PathLess, Templates(t, Sort(PathLess, l.root)), Templates(t', Sort(PathLess, l'.root)));
    AscendingUnique(PathLess, CidataFiles(t, l), CidataFiles(t', l'));
  }

  // ------------------------------------------------------------------
  // The loops
  // ------------------------------------------------------------------

  function Elements(s: seq<Path>): set<Path> {
    set p | p in s
  }

  lemma FilterNext(keep: Path -> bool, s: seq<Path>, i: nat)
    requires Ascending(PathLess, s) && i < |s|
    ensures Filter(keep, s[..i + 1]) == Filter(keep, s[..i]) + if keep(s[i]) then [s[i]] else []
    ensures s[i] !in Filter(keep, s[..i])
  {
    assert s[..i + 1][..i] == s[..i];
    AscendingDistinct(s);
    FilterHolds(keep, s[..i], s[i]);
  }

  /** At a path of the sorted listing, the test of the template loop is the rule for new templates. */
  lemma TemplateTurn(t: Tree, sorted: seq<Path>, i: nat, found: seq<Path>)
    requires Ascending(PathLess, sorted) && i < |sorted| && found == Fixed(t) + Templates(t, sorted[..i])
    ensures Templates(t, sorted[..i + 1])
            == Templates(t, sorted[..i]) + if NewTemplate(t, sorted[i]) then [sorted[i]] else []
    ensures sorted[i] in found <==> sorted[i] in Fixed(t)
  {
    FilterNext(q => NewTemplate(t, q), sorted, i);
  }

  /** Likewise for the cidata loop. */
  lemma CidataTurn(t: Tree, l: Listing, sorted: seq<Path>, i: nat, found: seq<Path>)
    requires Lists(l, t) && Ascending(PathLess, sorted) && i < |sorted| && UnderCidata(sorted[i])
    requires found == Fixed(t) + Templates(t, Sort(PathLess, l.root)) + CidataIn(t, sorted[..i])
    ensures CidataIn(t, sorted[..i + 1])
            == CidataIn(t, sorted[..i]) + if NewCidata(t, sorted[i]) then [sorted[i]] else []
    ensures sorted[i] in t.files && sorted[i] !in found <==> NewCidata(t, sorted[i])
  {
    FilterNext(q => NewCidata(t, q), sorted, i);
    PartsHold(t, l, sorted[i]);
  }

  method AppendPresent(t: Tree, names: seq<Name>, found0: seq<Path>, seen0: set<Path>)
    returns (found: seq<Path>, seen: set<Path>)
    requires seen0 == Elements(found0) && NoDup(names)
    requires forall n :: n in names ==> [n] !in seen0
    ensures found == found0 + Present(t, names) && seen == Elements(found)
  {
    found, seen := found0, seen0;
    for i := 0 to |names|
      invariant found == found0 + Present(t, names[..i]) && seen == Elements(found)
    {
      var path := [names[i]];
      PresentHolds(t, names[..i], path);
      assert names[..i + 1][..i] == names[..i];
      if path in t.files {
        if path in seen {
          continue;
        }
        found := found + [path];
        seen := seen + {path};
      }
    }
    assert names[..|names|] == names;
  }

  /** The `*.tmpl` loop. */
  method AppendTemplates(t: Tree, l: Listing, found0: seq<Path>, seen0: set<Path>)
    returns (found: seq<Path>, seen: set<Path>)
    requires found0 == Fixed(t) && seen0 == Elements(found0) && NoDup(l.root)
    ensures found == Fixed(t) + Templates(t, Sort(PathLess, l.root)) && seen == Elements(found)
  {
    found, seen := found0, seen0;
    PathOrder();
    var sorted := Sort(PathLess, l.root);
    SortAscends(PathLess, l.root);
    for i := 0 to |sorted|
      invariant found == Fixed(t) + Templates(t, sorted[..i]) && seen == Elements(found)
    {
      var path := sorted[i];
      TemplateTurn(t, sorted, i, found);
      if path !in t.files || !IsTemplate(path) {
        continue;
      }
      if path in seen {
        continue;
      }
      found := found + [path];
      seen := seen + {path};
    }
    assert sorted[..|sorted|] == sorted;
  }

  lemma CidataSorted(t: Tree, l: Listing)
    requires Lists(l, t) && l.cidata.Some?
    ensures var sorted := Sort(PathLess, l.cidata.value);
            Ascending(PathLess, sorted) && forall i :: 0 <= i < |sorted| ==> UnderCidata(sorted[i])
  {
    PathOrder();
    SortAscends(PathLess, l.cidata.value);
    var sorted := Sort(PathLess, l.cidata.value);
    forall i | 0 <= i < |sorted| ensures UnderCidata(sorted[i]) {
      SortHolds(PathLess, l.cidata.value, sorted[i]);
    }
  }

  /** The `cidata/` loop over the sorted listing. */
  method AppendCidata(t: Tree, ghost l: Listing, sorted: seq<Path>, found0: seq<Path>, seen0: set<Path>)
    returns (found: seq<Path>)
    requires Lists(l, t) && Ascending(PathLess, sorted) && forall i :: 0 <= i < |sorted| ==> UnderCidata(sorted[i])
    requires found0 == Fixed(t) + Templates(t, Sort(PathLess, l.root)) && seen0 == Elements(found0)
    ensures found == found0 + CidataIn(t, sorted)
  {
    found := found0;
    var seen := seen0;
    for i := 0 to |sorted|
      invariant found == found0 + CidataIn(t, sorted[..i]) && seen == Elements(found)
    {
      var path := sorted[i];
      CidataTurn(t, l, sorted, i, found);
      if path !in t.files || path in seen {
        continue;
      }
      found := found + [path];
      seen := seen + {path};
    }
    assert sorted[..|sorted|] == sorted;
  }

  /** `covered_recipe_files` for a symlink-free recipe. */
  method CoveredRecipeFiles(t: Tree, l: Listing) returns (found: seq<Path>)
    requires Lists(l, t)
    ensures found == Covered(t, l)
  {
    var seen: set<Path> := {};
    found := [];
    FixedNamesDistinct();
    found, seen := AppendPresent(t, REQUIRED, found, seen);
    forall n | n in OPTIONAL ensures [n] !in seen {
      PresentHolds(t, REQUIRED, [n]);
    }
    found, seen := AppendPresent(t, OPTIONAL, found, seen);
    found, seen := AppendTemplates(t, l, found, seen);
    if l.cidata.Some? {
      CidataSorted(t, l);
      found := AppendCidata(t, l, Sort(PathLess, l.cidata.value), found, seen);
    }
  }
}
