/**
 What the build driver reads from a recipe directory, from loading the guest to
 the uploads, and why equal content addresses mean equal inputs.
 */
module Inputs {
  import opened Bytes
  import opened Wrappers
  import opened Separated
  import opened Recipes
  import opened Digests

  const SEED_TEMPLATE: Name := Ascii("user-data.yaml") + TMPL
  const SCRIPTS: seq<Name> := [BOOTSTRAP, SETUP]
  const RECIPE_UPLOAD_NAMES: seq<Name> := [SETUP, GREETD_CONFIG, HYPRLAND_LUA, HYPRLAND_CONF]

  const CONFIGURATION: Name := Ascii("user_configuration.json")
  const CREDENTIALS: Name := Ascii("user_credentials.json.tmpl")
  const ENCRYPT: Name := Ascii("user_encrypt_installation.txt")
  const AUTHORIZED_KEYS: Name := Ascii("authorized_keys.tmpl")
  const ISO_CIDATA_REQUIRED: seq<Name> := [CONFIGURATION, CREDENTIALS, ENCRYPT, AUTHORIZED_KEYS]
  const FORBIDDEN_OMARCHY_CIDATA: seq<Name> := [Ascii("tailscale_authkey"), Ascii("user-data"), Ascii("meta-data")]

  /** What the driver takes from the text of image.toml. */
  datatype Manifest = Manifest(
    isoKind: bool,       // source_kind is iso-autoinstall
    isoById: bool,       // the id is that of an ISO guest
    omarchy3: bool,      // the id is omarchy-3
    cidataTable: bool,   // there is a [cidata] table
    complete: bool       // the tables checked after the files are valid
  ) {
    predicate Iso() {
      isoKind || isoById
    }
  }

  datatype Error = Missing(path: Path) | InvalidToml | Forbidden(name: Name)

  datatype Read<+T> = Got(value: T) | Raised(error: Error)

  datatype Seed =
    | CloudInit(template: Octets)
    | Cidata(configuration: Octets, credentials: Octets, encrypt: Octets, keys: Octets)

  /** Everything of the recipe directory that enters a build. */
  datatype BuildInputs = BuildInputs(
    toml: Octets, bootstrap: Octets, seed: Seed, skipWizard: Option<Octets>, uploads: seq<(Path, Octets)>)

  // ------------------------------------------------------------------
  // The reads
  // ------------------------------------------------------------------

  function InCidata(name: Name): Path {
    [CIDATA, name]
  }

  /** `path.exists()`: a file or a directory. */
  predicate Exists(t: Tree, p: Path) {
    p in t.files || p in t.dirs
  }

  function ReadFile(t: Tree, p: Path): Read<Octets> {
    if p in t.files then Got(t.files[p]) else Raised(Missing(p))
  }

  function FirstMissing(t: Tree, paths: seq<Path>): Option<Path> {
    if paths == [] then None
    else if paths[0] !in t.files then Some(paths[0])
    else FirstMissing(t, paths[1..])
  }

  /** The first forbidden name that exists under `cidata/`, as a file or a directory. */
  function FirstForbidden(t: Tree, names: seq<Name>): Option<Name> {
    if names == [] then None
    else if Exists(t, InCidata(names[0])) then Some(names[0])
    else FirstForbidden(t, names[1..])
  }

  const CIDATA_PATHS: seq<Path> :=
    [InCidata(CONFIGURATION), InCidata(CREDENTIALS), InCidata(ENCRYPT), InCidata(AUTHORIZED_KEYS)]

  /** `Guest.load`; `parse` is what reading the text of image.toml yields. */
  function Load(t: Tree, parse: Octets -> Option<Manifest>): Read<Manifest> {
    if [IMAGE_TOML] !in t.files then Raised(Missing([IMAGE_TOML]))
    else
      match parse(t.files[[IMAGE_TOML]])
      case None => Raised(InvalidToml)
      case Some(m) =>
        var needed := [[BOOTSTRAP], [SETUP]] + if m.isoKind then [] else [[SEED_TEMPLATE]];
        if FirstMissing(t, needed).Some? then Raised(Missing(FirstMissing(t, needed).value))
        else if m.isoKind && !m.cidataTable then Raised(InvalidToml)
        else if m.isoKind && FirstMissing(t, CIDATA_PATHS).Some?
        then Raised(Missing(FirstMissing(t, CIDATA_PATHS).value))
        else if !m.complete then Raised(InvalidToml)
        else Got(m)
  }

  /** What `write_omarchy_cidata_files` reads. */
  function CidataOf(t: Tree): Read<Seed> {
    match FirstMissing(t, CIDATA_PATHS)
    case Some(p) => Raised(Missing(p))
    case None =>
      match FirstForbidden(t, FORBIDDEN_OMARCHY_CIDATA)
      case Some(name) => Raised(Forbidden(name))
      case None =>
        FirstMissingNone(t, CIDATA_PATHS);
        assert CIDATA_PATHS[0] in CIDATA_PATHS && CIDATA_PATHS[1] in CIDATA_PATHS;
        assert CIDATA_PATHS[2] in CIDATA_PATHS && CIDATA_PATHS[3] in CIDATA_PATHS;
        Got(Cidata(t.files[CIDATA_PATHS[0]], t.files[CIDATA_PATHS[1]], t.files[CIDATA_PATHS[2]],
                   t.files[CIDATA_PATHS[3]]))
  }

  /** The seed image's recipe files: the cidata payload of ISO guests, the user-data template of the others. */
  function SeedOf(t: Tree, m: Manifest): Read<Seed> {
    if m.Iso() then CidataOf(t)
    else
      match ReadFile(t, [SEED_TEMPLATE])
      case Got(template) => Got(CloudInit(template))
      case Raised(e) => Raised(e)
  }

  /** `skip-wizard.sh`, for the one guest that needs it. */
  function WizardOf(t: Tree, m: Manifest): Read<Option<Octets>> {
    if !m.Iso() || !m.omarchy3 then Got(None)
    else
      match ReadFile(t, [SKIP_WIZARD])
      case Got(script) => Got(Some(script))
      case Raised(e) => Raised(e)
  }

  function Uploads(t: Tree): Read<seq<Path>> {
    if [SETUP] in t.files then Got(Present(t, RECIPE_UPLOAD_NAMES)) else Raised(Missing([SETUP]))
  }

  ghost predicate AllPresent(t: Tree, paths: seq<Path>) {
    forall i :: 0 <= i < |paths| ==> paths[i] in t.files
  }

  /** The paths with their contents. */
  function Contents(t: Tree, paths: seq<Path>): (r: seq<(Path, Octets)>)
    requires AllPresent(t, paths)
    ensures |r| == |paths|
  {
    seq(|paths|, i requires 0 <= i < |paths| => (paths[i], t.files[paths[i]]))
  }

  /** The reads after the seed has been made. */
  function AfterSeed(t: Tree, m: Manifest, seed: Seed): (r: Read<BuildInputs>)
    requires [IMAGE_TOML] in t.files && [BOOTSTRAP] in t.files
    ensures r.Raised? ==> r.error.Missing?
  {
    match WizardOf(t, m)
    case Raised(e) => Raised(e)
    case Got(wizard) =>
      match Uploads(t)
      case Raised(e) => Raised(e)
      case Got(paths) =>
        PresentAllPresent(t, RECIPE_UPLOAD_NAMES);
        Got(BuildInputs(t.files[[IMAGE_TOML]], t.files[[BOOTSTRAP]], seed, wizard, Contents(t, paths)))
  }

  /** A whole build's reads, in order; the first that fails ends it. */
  function InputsOf(t: Tree, parse: Octets -> Option<Manifest>): Read<BuildInputs> {
    match Load(t, parse)
    case Raised(e) => Raised(e)
    case Got(m) =>
      LoadedHasBootstrap(t, parse);
      match SeedOf(t, m)
      case Raised(e) => Raised(e)
      case Got(seed) => AfterSeed(t, m, seed)
  }

  lemma LoadedHasBootstrap(t: Tree, parse: Octets -> Option<Manifest>)
    requires Load(t, parse).Got?
    ensures [BOOTSTRAP] in t.files
  {
    var m := Load(t, parse).value;
    var needed := [[BOOTSTRAP], [SETUP]] + if m.isoKind then [] else [[SEED_TEMPLATE]];
    FirstMissingNone(t, needed);
    assert needed[0] in needed;
  }

  lemma {:induction false} FirstMissingNone(t: Tree, paths: seq<Path>)
    ensures FirstMissing(t, paths) == None <==> forall p :: p in paths ==> p in t.files
  {
    if paths != [] {
      FirstMissingNone(t, paths[1..]);
      assert paths == [paths[0]] + paths[1..];
    }
  }

  lemma PresentAllPresent(t: Tree, names: seq<Name>)
    ensures AllPresent(t, Present(t, names))
  {
    forall i | 0 <= i < |Present(t, names)| ensures Present(t, names)[i] in t.files {
      PresentHolds(t, names, Present(t, names)[i]);
    }
  }

  // ------------------------------------------------------------------
  // The loops
  // ------------------------------------------------------------------

  /** `recipe_files_to_upload`. */
  method RecipeFilesToUpload(t: Tree) returns (r: Read<seq<Path>>)
    ensures r == Uploads(t)
    ensures r.Got? ==> [SETUP] in r.value && forall p :: p in r.value <==>
                         p in t.files && |p| == 1 && p[0] in RECIPE_UPLOAD_NAMES
  {
    var found: seq<Path> := [];
    for i := 0 to |RECIPE_UPLOAD_NAMES|
      invariant found == Present(t, RECIPE_UPLOAD_NAMES[..i])
    {
      var path := [RECIPE_UPLOAD_NAMES[i]];
      assert RECIPE_UPLOAD_NAMES[..i + 1][..i] == RECIPE_UPLOAD_NAMES[..i];
      if path in t.files {
        found := found + [path];
      }
    }
    assert RECIPE_UPLOAD_NAMES[..|RECIPE_UPLOAD_NAMES|] == RECIPE_UPLOAD_NAMES;
    forall p ensures p in found <==> p in t.files && |p| == 1 && p[0] in RECIPE_UPLOAD_NAMES {
      PresentHolds(t, RECIPE_UPLOAD_NAMES, p);
    }
    assert RECIPE_UPLOAD_NAMES[0] == SETUP;
    if [SETUP] !in found {
      return Raised(Missing([SETUP]));
    }
    return Got(found);
  }

  /** `write_omarchy_cidata_files` up to the rendering: four required files, three forbidden names, four reads. */
  method ReadCidata(t: Tree) returns (r: Read<Seed>)
    ensures r == CidataOf(t)
  {
    for i := 0 to |CIDATA_PATHS|
      invariant FirstMissing(t, CIDATA_PATHS) == FirstMissing(t, CIDATA_PATHS[i..])
    {
      assert CIDATA_PATHS[i..][1..] == CIDATA_PATHS[i + 1..];
      if CIDATA_PATHS[i] !in t.files {
        return Raised(Missing(CIDATA_PATHS[i]));
      }
    }
    for i := 0 to |FORBIDDEN_OMARCHY_CIDATA|
      invariant FirstForbidden(t, FORBIDDEN_OMARCHY_CIDATA) == FirstForbidden(t, FORBIDDEN_OMARCHY_CIDATA[i..])
    {
      assert FORBIDDEN_OMARCHY_CIDATA[i..][1..] == FORBIDDEN_OMARCHY_CIDATA[i + 1..];
      if Exists(t, InCidata(FORBIDDEN_OMARCHY_CIDATA[i])) {
        return Raised(Forbidden(FORBIDDEN_OMARCHY_CIDATA[i]));
      }
    }
    FirstMissingNone(t, CIDATA_PATHS);
    assert CIDATA_PATHS[0] in CIDATA_PATHS && CIDATA_PATHS[1] in CIDATA_PATHS;
    assert CIDATA_PATHS[2] in CIDATA_PATHS && CIDATA_PATHS[3] in CIDATA_PATHS;
    return Got(Cidata(t.files[CIDATA_PATHS[0]], t.files[CIDATA_PATHS[1]], t.files[CIDATA_PATHS[2]],
                      t.files[CIDATA_PATHS[3]]));
  }

  ghost predicate HoldsFile(t: Tree, p: Path, data: Octets) {
    p in t.files && t.files[p] == data
  }

  /** The names as the recipes spell them. */
  lemma NamesSpelled()
    ensures IMAGE_TOML == Ascii("image.toml") && BOOTSTRAP == Ascii("bootstrap.sh") && SETUP == Ascii("setup.sh")
    ensures SKIP_WIZARD == Ascii("skip-wizard.sh") && SEED_TEMPLATE == Ascii("user-data.yaml") + Ascii(".tmpl")
    ensures CIDATA == Ascii("cidata")
  {
  }

  lemma CidataNamesSpelled()
    ensures CONFIGURATION == Ascii("user_configuration.json") && CREDENTIALS == Ascii("user_credentials.json.tmpl")
  {
  }

  lemma PayloadNamesSpelled()
    ensures ENCRYPT == Ascii("user_encrypt_installation.txt") && AUTHORIZED_KEYS == Ascii("authorized_keys.tmpl")
  {
  }

  lemma ForbiddenNamesSpelled()
    ensures |FORBIDDEN_OMARCHY_CIDATA| == 3 && FORBIDDEN_OMARCHY_CIDATA[0] == Ascii("tailscale_authkey")
    ensures FORBIDDEN_OMARCHY_CIDATA[1] == Ascii("user-data") && FORBIDDEN_OMARCHY_CIDATA[2] == Ascii("meta-data")
  {
  }

  /** Which file each part of the cidata payload comes from. */
  lemma CidataHolds(t: Tree)
    ensures CidataOf(t).Got? ==>
              var seed := CidataOf(t).value;
              && seed.Cidata?
              && HoldsFile(t, InCidata(CONFIGURATION), seed.configuration)
              && HoldsFile(t, InCidata(CREDENTIALS), seed.credentials)
              && HoldsFile(t, InCidata(ENCRYPT), seed.encrypt)
              && HoldsFile(t, InCidata(AUTHORIZED_KEYS), seed.keys)
  {
    FirstMissingNone(t, CIDATA_PATHS);
    assert CIDATA_PATHS[0] in CIDATA_PATHS && CIDATA_PATHS[1] in CIDATA_PATHS;
    assert CIDATA_PATHS[2] in CIDATA_PATHS && CIDATA_PATHS[3] in CIDATA_PATHS;
  }

  /** Which file each input of a build comes from; the uploads are all the present files of their names. */
  lemma InputsHold(t: Tree, parse: Octets -> Option<Manifest>)
    ensures InputsOf(t, parse).Got? ==>
              var i := InputsOf(t, parse).value;
              && HoldsFile(t, [IMAGE_TOML], i.toml) && HoldsFile(t, [BOOTSTRAP], i.bootstrap)
              && parse(i.toml).Some? && var m := parse(i.toml).value;
              && (i.seed.Cidata? <==> m.isoKind || m.isoById)
              && (i.seed.CloudInit? ==> HoldsFile(t, [SEED_TEMPLATE], i.seed.template))
              && (i.skipWizard.Some? <==> i.seed.Cidata? && m.omarchy3)
              && (i.skipWizard.Some? ==> HoldsFile(t, [SKIP_WIZARD], i.skipWizard.value))
              && (forall u :: u in i.uploads ==> HoldsFile(t, u.0, u.1))
              && (forall n :: n in RECIPE_UPLOAD_NAMES && [n] in t.files ==> ([n], t.files[[n]]) in i.uploads)
  {
    if InputsOf(t, parse).Got? {
      LoadedHasBootstrap(t, parse);
      var paths := Present(t, RECIPE_UPLOAD_NAMES);
      PresentAllPresent(t, RECIPE_UPLOAD_NAMES);
      forall n | n in RECIPE_UPLOAD_NAMES && [n] in t.files ensures ([n], t.files[[n]]) in Contents(t, paths) {
        PresentHolds(t, RECIPE_UPLOAD_NAMES, [n]);
        var k :| 0 <= k < |paths| && paths[k] == [n];
        assert Contents(t, paths)[k] == ([n], t.files[[n]]);
      }
    }
  }

  /** The files a cidata payload consists of. */
  ghost predicate HasCidata(t: Tree) {
    && InCidata(CONFIGURATION) in t.files && InCidata(CREDENTIALS) in t.files
    && InCidata(ENCRYPT) in t.files && InCidata(AUTHORIZED_KEYS) in t.files
  }

  lemma HasCidataIff(t: Tree)
    ensures HasCidata(t) <==> FirstMissing(t, CIDATA_PATHS) == None
  {
    FirstMissingNone(t, CIDATA_PATHS);
    assert CIDATA_PATHS[0] in CIDATA_PATHS && CIDATA_PATHS[1] in CIDATA_PATHS;
    assert CIDATA_PATHS[2] in CIDATA_PATHS && CIDATA_PATHS[3] in CIDATA_PATHS;
  }

  lemma NeededIff(t: Tree, m: Manifest)
    ensures FirstMissing(t, [[BOOTSTRAP], [SETUP]] + if m.isoKind then [] else [[SEED_TEMPLATE]]) == None
            <==> [BOOTSTRAP] in t.files && [SETUP] in t.files && (m.isoKind || [SEED_TEMPLATE] in t.files)
  {
    var needed := [[BOOTSTRAP], [SETUP]] + if m.isoKind then [] else [[SEED_TEMPLATE]];
    FirstMissingNone(t, needed);
    assert needed[0] in needed && needed[1] in needed;
    assert !m.isoKind ==> needed[2] in needed;
  }

  /** When a guest loads: the two scripts, and the seed's files by kind, are there and the tables are valid. */
  lemma LoadsIff(t: Tree, parse: Octets -> Option<Manifest>)
    ensures Load(t, parse).Got?
            <==> [IMAGE_TOML] in t.files && parse(t.files[[IMAGE_TOML]]).Some? &&
                 var m := parse(t.files[[IMAGE_TOML]]).value;
                 && [BOOTSTRAP] in t.files && [SETUP] in t.files && m.complete
                 && (if m.isoKind then m.cidataTable && HasCidata(t) else [SEED_TEMPLATE] in t.files)
    ensures Load(t, parse).Got? ==> Load(t, parse).value == parse(t.files[[IMAGE_TOML]]).value
  {
    HasCidataIff(t);
    if [IMAGE_TOML] in t.files && parse(t.files[[IMAGE_TOML]]).Some? {
      NeededIff(t, parse(t.files[[IMAGE_TOML]]).value);
    }
  }

  /**
   When a build gets its inputs: the guest loads, and an ISO guest has its payload,
   nothing under a forbidden name, and the wizard script if it is the one that
   needs it.
   */
  lemma BuildsIff(t: Tree, parse: Octets -> Option<Manifest>)
    ensures InputsOf(t, parse).Got?
            <==> Load(t, parse).Got? && var m := Load(t, parse).value;
                 m.isoKind || m.isoById ==>
                   && HasCidata(t)
                   && (forall n :: n in FORBIDDEN_OMARCHY_CIDATA ==>
                         InCidata(n) !in t.files && InCidata(n) !in t.dirs)
                   && (m.omarchy3 ==> [SKIP_WIZARD] in t.files)
  {
    LoadsIff(t, parse);
    HasCidataIff(t);
    ForbiddenNone(t, FORBIDDEN_OMARCHY_CIDATA);
    if Load(t, parse).Got? {
      LoadedHasBootstrap(t, parse);
    }
  }

  // ------------------------------------------------------------------
  // The digest covers the reads
  // ------------------------------------------------------------------

  /** The directories agree on one path. */
  ghost predicate SameAt(t: Tree, t': Tree, p: Path) {
    (p in t.files <==> p in t'.files) && (p in t.files && p in t'.files ==> t.files[p] == t'.files[p])
  }

  lemma CoveredSame(t: Tree, t': Tree, p: Path)
    requires CoveredContents(t) == CoveredContents(t') && Qualifies(p)
    ensures SameAt(t, t', p)
  {
    assert p in CoveredContents(t) <==> p in t.files;
    assert p in CoveredContents(t') <==> p in t'.files;
    if p in t.files {
      assert CoveredContents(t)[p] == t.files[p] && CoveredContents(t')[p] == t'.files[p];
    }
  }

  lemma SuffixOf<T>(a: seq<T>, b: seq<T>)
    ensures EndsWith(a + b, b)
  {
  }

  lemma SeedTemplateCovered()
    ensures Qualifies([SEED_TEMPLATE])
  {
    SuffixOf(Ascii("user-data.yaml"), TMPL);
  }

  lemma FixedNamesSame(t: Tree, t': Tree)
    requires CoveredContents(t) == CoveredContents(t')
    ensures forall n :: n in REQUIRED || n in OPTIONAL || n == SEED_TEMPLATE ==> SameAt(t, t', [n])
  {
    forall n | n in REQUIRED || n in OPTIONAL || n == SEED_TEMPLATE ensures SameAt(t, t', [n]) {
      SeedTemplateCovered();
      CoveredSame(t, t', [n]);
    }
  }

  lemma CidataSame(t: Tree, t': Tree, n: Name)
    requires CoveredContents(t) == CoveredContents(t')
    ensures SameAt(t, t', InCidata(n))
  {
    CoveredSame(t, t', InCidata(n));
  }

  lemma {:induction false} MissingSame(t: Tree, t': Tree, paths: seq<Path>)
    requires forall p :: p in paths ==> SameAt(t, t', p)
    ensures FirstMissing(t, paths) == FirstMissing(t', paths)
  {
    if paths != [] {
      assert paths[0] in paths;
      MissingSame(t, t', paths[1..]);
    }
  }

  lemma CidataPathsSame(t: Tree, t': Tree)
    requires CoveredContents(t) == CoveredContents(t')
    ensures forall p :: p in CIDATA_PATHS ==> SameAt(t, t', p)
    ensures FirstMissing(t, CIDATA_PATHS) == FirstMissing(t', CIDATA_PATHS)
  {
    forall p | p in CIDATA_PATHS ensures SameAt(t, t', p) {
      CidataSame(t, t', p[1]);
    }
    MissingSame(t, t', CIDATA_PATHS);
  }

  lemma LoadSame(t: Tree, t': Tree, parse: Octets -> Option<Manifest>)
    requires CoveredContents(t) == CoveredContents(t')
    ensures Load(t, parse) == Load(t', parse)
  {
    FixedNamesSame(t, t');
    CidataPathsSame(t, t');
    assert REQUIRED[0] == IMAGE_TOML && REQUIRED[1] == BOOTSTRAP && REQUIRED[2] == SETUP;
    MissingSame(t, t', [[BOOTSTRAP], [SETUP]] + []);
    MissingSame(t, t', [[BOOTSTRAP], [SETUP]] + [[SEED_TEMPLATE]]);
  }

  lemma WizardSame(t: Tree, t': Tree, m: Manifest)
    requires CoveredContents(t) == CoveredContents(t')
    ensures WizardOf(t, m) == WizardOf(t', m)
  {
    FixedNamesSame(t, t');
    assert OPTIONAL[3] == SKIP_WIZARD;
  }

  lemma UploadNamesFixed(n: Name)
    requires n in RECIPE_UPLOAD_NAMES
    ensures n in REQUIRED || n in OPTIONAL
  {
    assert REQUIRED[2] == SETUP && OPTIONAL[0] == GREETD_CONFIG && OPTIONAL[1] == HYPRLAND_LUA;
    assert OPTIONAL[2] == HYPRLAND_CONF;
  }

  lemma UploadsSame(t: Tree, t': Tree)
    requires CoveredContents(t) == CoveredContents(t')
    ensures Uploads(t) == Uploads(t')
    ensures AllPresent(t, Present(t, RECIPE_UPLOAD_NAMES)) && AllPresent(t', Present(t', RECIPE_UPLOAD_NAMES))
    ensures Contents(t, Present(t, RECIPE_UPLOAD_NAMES)) == Contents(t', Present(t', RECIPE_UPLOAD_NAMES))
  {
    var names := RECIPE_UPLOAD_NAMES;
    FixedNamesSame(t, t');
    forall n | n in names ensures SameAt(t, t', [n]) {
      UploadNamesFixed(n);
    }
    assert names[0] == SETUP;
    PresentDetermined(t, t', names);
    PresentAllPresent(t, names);
    PresentAllPresent(t', names);
    forall i | 0 <= i < |Present(t, names)| ensures SameAt(t, t', Present(t, names)[i]) {
      var p := Present(t, names)[i];
      PresentHolds(t, names, p);
      assert p == [p[0]];
    }
  }

  /** The build gets as far as looking for forbidden cidata names. */
  predicate LooksForForbidden(t: Tree, parse: Octets -> Option<Manifest>) {
    var m := Load(t, parse);
    m.Got? && m.value.Iso() && FirstMissing(t, CIDATA_PATHS).None?
  }

  lemma CidataContentsSame(t: Tree, t': Tree)
    requires CoveredContents(t) == CoveredContents(t') && FirstMissing(t, CIDATA_PATHS) == None
    ensures CidataOf(t) == CidataOf(t')
            <==> FirstForbidden(t, FORBIDDEN_OMARCHY_CIDATA) == FirstForbidden(t', FORBIDDEN_OMARCHY_CIDATA)
    ensures CidataOf(t).Raised? ==> CidataOf(t).error.Forbidden?
  {
    CidataPathsSame(t, t');
    FirstMissingNone(t, CIDATA_PATHS);
    forall i | 0 <= i < 4 ensures CIDATA_PATHS[i] in t.files && SameAt(t, t', CIDATA_PATHS[i]) {
      assert CIDATA_PATHS[i] in CIDATA_PATHS;
    }
  }

  lemma SeedSame(t: Tree, t': Tree, m: Manifest)
    requires CoveredContents(t) == CoveredContents(t')
    ensures SeedOf(t, m) == SeedOf(t', m)
            <==> (m.Iso() && FirstMissing(t, CIDATA_PATHS).None? ==>
                    FirstForbidden(t, FORBIDDEN_OMARCHY_CIDATA) == FirstForbidden(t', FORBIDDEN_OMARCHY_CIDATA))
    ensures SeedOf(t, m) != SeedOf(t', m) ==>
              (SeedOf(t, m).Raised? ==> SeedOf(t, m).error.Forbidden?) &&
              (SeedOf(t', m).Raised? ==> SeedOf(t', m).error.Forbidden?)
  {
    if !m.Iso() {
      FixedNamesSame(t, t');
    } else {
      CidataPathsSame(t, t');
      if FirstMissing(t, CIDATA_PATHS).None? {
        CidataContentsSame(t, t');
        CidataContentsSame(t', t);
      }
    }
  }

  lemma BootstrapSame(t: Tree, t': Tree)
    requires CoveredContents(t) == CoveredContents(t')
    ensures SameAt(t, t', [IMAGE_TOML]) && SameAt(t, t', [BOOTSTRAP])
  {
    FixedNamesSame(t, t');
    assert REQUIRED[0] == IMAGE_TOML && REQUIRED[1] == BOOTSTRAP;
  }

  lemma AfterSeedSame(t: Tree, t': Tree, m: Manifest, seed: Seed)
    requires CoveredContents(t) == CoveredContents(t')
    requires [IMAGE_TOML] in t.files && [BOOTSTRAP] in t.files && [IMAGE_TOML] in t'.files && [BOOTSTRAP] in t'.files
    ensures AfterSeed(t, m, seed) == AfterSeed(t', m, seed)
  {
    BootstrapSame(t, t');
    UploadsSame(t, t');
    WizardSame(t, t', m);
  }

  /** A difference in the forbidden names is not made up for by any later error. */
  lemma SeedShows(t: Tree, t': Tree, parse: Octets -> Option<Manifest>)
    requires CoveredContents(t) == CoveredContents(t') && Load(t, parse) == Load(t', parse) && Load(t, parse).Got?
    requires SeedOf(t, Load(t, parse).value) != SeedOf(t', Load(t, parse).value)
    ensures InputsOf(t, parse) != InputsOf(t', parse)
  {
    var m := Load(t, parse).value;
    LoadedHasBootstrap(t, parse);
    LoadedHasBootstrap(t', parse);
    SeedSame(t, t', m);
  }

  /**
   Recipe directories that the digest cannot tell apart give a build the same
   inputs, or the same error, exactly when they agree on the first forbidden name
   under `cidata/`, in those builds that look for one. Only directories can make
   a difference there, because files under `cidata/` are covered.
   */
  lemma SameCoveredSameInputsIff(t: Tree, t': Tree, parse: Octets -> Option<Manifest>)
    requires CoveredContents(t) == CoveredContents(t')
    ensures InputsOf(t, parse) == InputsOf(t', parse)
            <==> (LooksForForbidden(t, parse) ==>
                    FirstForbidden(t, FORBIDDEN_OMARCHY_CIDATA) == FirstForbidden(t', FORBIDDEN_OMARCHY_CIDATA))
  {
    LoadSame(t, t', parse);
    BootstrapSame(t, t');
    var m := Load(t, parse);
    if m.Got? {
      LoadedHasBootstrap(t, parse);
      SeedSame(t, t', m.value);
      if SeedOf(t, m.value) == SeedOf(t', m.value) && SeedOf(t, m.value).Got? {
        AfterSeedSame(t, t', m.value, SeedOf(t, m.value).value);
      } else if SeedOf(t, m.value) != SeedOf(t', m.value) {
        SeedShows(t, t', parse);
      }
    }
  }

  lemma {:induction false} ForbiddenNone(t: Tree, names: seq<Name>)
    ensures FirstForbidden(t, names) == None <==> forall n :: n in names ==> !Exists(t, InCidata(n))
  {
    if names != [] {
      ForbiddenNone(t, names[1..]);
      assert names == [names[0]] + names[1..];
    }
  }

  /** An empty directory can make that difference: it does not enter the hash, but the build refuses it. */
  lemma EmptyDirectoryMatters(t: Tree, l: Listing, parse: Octets -> Option<Manifest>)
    requires ValidTree(t) && Lists(l, t) && LooksForForbidden(t, parse)
    requires FirstForbidden(t, FORBIDDEN_OMARCHY_CIDATA) == None
    ensures var t' := t.(dirs := t.dirs + {InCidata(FORBIDDEN_OMARCHY_CIDATA[1])});
            && ValidTree(t') && Lists(l, t') && RecipePreimage(t, l) == RecipePreimage(t', l)
            && InputsOf(t, parse) != InputsOf(t', parse)
  {
    var names := FORBIDDEN_OMARCHY_CIDATA;
    var t' := t.(dirs := t.dirs + {InCidata(names[1])});
    ForbiddenNone(t, names);
    assert names[1] in names;
    assert CoveredContents(t) == CoveredContents(t');
    ForbiddenNone(t', names);
    PreimageIffSameCovered(t, l, t', l);
    SameCoveredSameInputsIff(t, t', parse);
  }

  /** No sub-directory of `cidata/` has a forbidden name. */
  ghost predicate NoForbiddenDirs(t: Tree) {
    forall n :: n in FORBIDDEN_OMARCHY_CIDATA ==> InCidata(n) !in t.dirs
  }

  lemma {:induction false} ForbiddenSame(t: Tree, t': Tree, names: seq<Name>)
    requires CoveredContents(t) == CoveredContents(t')
    requires forall n :: n in names ==> InCidata(n) !in t.dirs && InCidata(n) !in t'.dirs
    ensures FirstForbidden(t, names) == FirstForbidden(t', names)
  {
    if names != [] {
      assert names[0] in names;
      CidataSame(t, t', names[0]);
      ForbiddenSame(t, t', names[1..]);
    }
  }

  /** Apart from such directories, what the digest covers determines what a build reads. */
  lemma SameCoveredSameInputs(t: Tree, t': Tree, parse: Octets -> Option<Manifest>)
    requires CoveredContents(t) == CoveredContents(t') && NoForbiddenDirs(t) && NoForbiddenDirs(t')
    ensures InputsOf(t, parse) == InputsOf(t', parse)
  {
    ForbiddenSame(t, t', FORBIDDEN_OMARCHY_CIDATA);
    SameCoveredSameInputsIff(t, t', parse);
  }

  /**
   Equal content addresses mean that a build reads the same from both recipe
   directories, unless one of the two pairs that are compared collides or a
   directory bears a forbidden cidata name.
   */
  lemma SameAddressSameInputs(sha: Octets -> Octets, t: Tree, l: Listing, pin: Octets, t': Tree, l': Listing,
                              pin': Octets, parse: Octets -> Option<Manifest>)
    requires ValidTree(t) && ValidTree(t') && Lists(l, t) && Lists(l', t') && HexDigest(sha)
    requires NoCollision(sha, RecipePreimage(t, l), RecipePreimage(t', l'))
    requires NoCollision(sha, GoldenPreimage(sha, RecipePreimage(t, l), pin),
                         GoldenPreimage(sha, RecipePreimage(t', l'), pin'))
    requires NoForbiddenDirs(t) && NoForbiddenDirs(t')
    requires GoldenDigest(sha, RecipePreimage(t, l), pin) == GoldenDigest(sha, RecipePreimage(t', l'), pin')
    ensures InputsOf(t, parse) == InputsOf(t', parse)
  {
    AddressIffSameRecipe(sha, t, l, pin, t', l', pin');
    SameCoveredSameInputs(t, t', parse);
  }
}
