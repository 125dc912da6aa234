/**
 The golden cache: `image-build`, `run-test` and `image-prune` against one cache
 directory, with every external step free to fail.
 */
module GoldenCache {
  import opened Bytes
  import opened Wrappers
  import opened Recipes
  import opened Digests
  import opened Lifecycle
  import Inputs

  type Id = Octets

  /** A recipe as its content address sees it: the octets fed to the hash, and the source pin. */
  datatype Recipe = Recipe(input: Octets, pin: Octets)

  /** A golden's identity: its file name is `<id>-<digest>.qcow2`. */
  datatype Key = Key(id: Id, digest: Octets)

  /** Where a disk image comes from. */
  datatype Disk = Disk(
    recipe: Recipe,   // the recipe it was built from
    setUp: bool,      // setup.sh succeeded in it
    exited: bool,     // the QEMU process that wrote it has exited
    forced: bool      // that process was sent a kill instead of shutting down in time
  )

  function Address(sha: Octets -> Octets, r: Recipe): Octets {
    GoldenDigest(sha, r.input, r.pin)
  }

  /** The steps of `build_live` that can raise, besides the launch and the power-off. */
  datatype Step =
    | FreeSpace | Bootstrap | FreeSpaceAgain | WorkDisk | PubKey | Seed | Firmware
    | Ready | Upload | Setup | Inventory
    | Unlink | Move | Symlink | Vars | Report

  /** What the outside world does to one build. */
  datatype BuildFate = BuildFate(
    hostOk: bool,
    fails: Step -> bool,
    attempts: nat -> Attempt,
    powerOff: Hooks,
    exitsIn60: bool,
    exitsIn15: bool,          // the second wait, after a kill
    teardown: Teardown
  )

  datatype Op =
    | Edit(id: Id, recipe: Recipe)
    | Build(id: Id, force: bool, fate: BuildFate)
    | Test(id: Id, run: RunFate)
    | Prune(images: bool)

  datatype State = State(
    recipes: map<Id, Recipe>,
    images: map<Key, Disk>,
    keys: set<Octets>,
    downloads: set<Id>,       // sources fetched by bootstrap.sh
    runs: nat                 // run directories kept
  )

  // ------------------------------------------------------------------
  // What each command does to the cache
  // ------------------------------------------------------------------

  function KeyOf(sha: Octets -> Octets, s: State, id: Id): Key
    requires id in s.recipes
  {
    Key(id, Address(sha, s.recipes[id]))
  }

  /** Everything up to the power-off worked. */
  predicate Prepared(fate: BuildFate) {
    && !fate.fails(FreeSpace) && !fate.fails(Bootstrap) && !fate.fails(FreeSpaceAgain)
    && !fate.fails(WorkDisk) && !fate.fails(PubKey) && !fate.fails(Seed) && !fate.fails(Firmware)
    && SpawnResult(fate.attempts, 0).Some?
    && !fate.fails(Ready) && !fate.fails(Upload) && !fate.fails(Setup) && !fate.fails(Inventory)
  }

  /** A build that has the space gets as far as launching QEMU. */
  predicate Starts(fate: BuildFate) {
    && !fate.fails(Bootstrap) && !fate.fails(FreeSpaceAgain) && !fate.fails(WorkDisk) && !fate.fails(PubKey)
    && !fate.fails(Seed) && !fate.fails(Firmware)
  }

  /** The build gets as far as replacing the golden. */
  predicate Finalizes(fate: BuildFate) {
    Prepared(fate) && Cascade(fate.powerOff) != Raised && (fate.exitsIn60 || fate.exitsIn15)
  }

  predicate Forced(fate: BuildFate) {
    Cascade(fate.powerOff) == Kill || !fate.exitsIn60
  }

  /** The old golden, when there is one, can be removed, and the new one moved into place. */
  predicate Installs(fate: BuildFate, present: bool) {
    Finalizes(fate) && !(present && fate.fails(Unlink)) && !fate.fails(Move)
  }

  /** The disk a build leaves: what each flag says is decided by the step it is about. */
  function BuiltDisk(recipe: Recipe, fate: BuildFate): Disk {
    Disk(recipe, !fate.fails(Setup), fate.exitsIn60 || fate.exitsIn15, Forced(fate))
  }

  function AfterInstall(images: map<Key, Disk>, key: Key, recipe: Recipe, fate: BuildFate): map<Key, Disk> {
    if Installs(fate, key in images) then images[key := BuiltDisk(recipe, fate)]
    else if Finalizes(fate) && !(key in images && fate.fails(Unlink)) then images - {key}
    else images
  }

  predicate BuildSucceeds(fate: BuildFate, present: bool) {
    Installs(fate, present) && !fate.fails(Symlink) && !fate.fails(Vars) && !fate.fails(Report)
  }

  function AfterBuildLive(sha: Octets -> Octets, s: State, id: Id, fate: BuildFate): State
    requires id in s.recipes
  {
    var key := KeyOf(sha, s, id);
    s.(images := AfterInstall(s.images, key, s.recipes[id], fate),
       downloads := if fate.fails(FreeSpace) || fate.fails(Bootstrap) then s.downloads else s.downloads + {id},
       runs := if fate.fails(FreeSpace) || BuildSucceeds(fate, key in s.images) then s.runs else s.runs + 1)
  }

  function AfterBuild(sha: Octets -> Octets, s: State, id: Id, force: bool, fate: BuildFate): State {
    if id !in s.recipes || (KeyOf(sha, s, id) in s.images && !force) || !fate.hostOk then s
    else AfterBuildLive(sha, s, id, fate)
  }

  /** The golden a test run boots an overlay of: `require_golden`. */
  function Golden(sha: Octets -> Octets, s: State, id: Id): Option<Disk> {
    if id in s.recipes && KeyOf(sha, s, id) in s.images then Some(s.images[KeyOf(sha, s, id)]) else None
  }

  function After(sha: Octets -> Octets, s: State, op: Op): State {
    match op
    case Edit(id, recipe) => s.(recipes := s.recipes[id := recipe])
    case Build(id, force, fate) => AfterBuild(sha, s, id, force, fate)
    case Test(id, run) => if Golden(sha, s, id).Some? && run.hostOk then s.(runs := s.runs + 1) else s
    case Prune(images) => s.(runs := 0, images := if images then map[] else s.images)
  }

  function Run(sha: Octets -> Octets, s: State, ops: seq<Op>): State {
    if ops == [] then s else After(sha, Run(sha, s, ops[..|ops| - 1]), ops[|ops| - 1])
  }

  // ------------------------------------------------------------------
  // The commands
  // ------------------------------------------------------------------

  class Cache {
    const sha: Octets -> Octets
    const host: Host
    var recipes: map<Id, Recipe>
    var images: map<Key, Disk>
    var keys: set<Octets>
    var downloads: set<Id>
    var runs: nat

    constructor (sha: Octets -> Octets, host: Host)
      ensures this.sha == sha && this.host == host && Contents() == State(map[], map[], {}, {}, 0)
    {
      this.sha, this.host := sha, host;
      recipes, images, keys, downloads, runs := map[], map[], {}, {}, 0;
    }

    ghost function Contents(): State
      reads this
    {
      State(recipes, images, keys, downloads, runs)
    }

    /** Every process launched since `before` has exited or been sent a kill. */
    ghost predicate NoneLeft(before: nat)
      reads host
    {
      before <= |host.procs| && forall i :: before <= i < |host.procs| ==> host.procs[i] != Running
    }

    /** From the source image to the machine; none when a step raises first. */
    method StartMachine(id: Id, fate: BuildFate) returns (machine: Option<nat>)
      modifies this`downloads, host
      ensures downloads == if fate.fails(Bootstrap) then old(downloads) else old(downloads) + {id}
      ensures machine.Some? <==> !fate.fails(Bootstrap) && !fate.fails(FreeSpaceAgain) && !fate.fails(WorkDisk) &&
                                 !fate.fails(PubKey) && !fate.fails(Seed) && !fate.fails(Firmware) &&
                                 SpawnResult(fate.attempts, 0).Some?
      ensures |host.procs| == |old(host.procs)| + if Starts(fate) then Launched(fate.attempts, 0) else 0
      ensures forall i :: 0 <= i < |old(host.procs)| ==> host.procs[i] == old(host.procs)[i]
      ensures machine.Some? ==> |old(host.procs)| <= machine.value < |host.procs|
      ensures forall i :: |old(host.procs)| <= i < |host.procs| && machine != Some(i) ==> host.procs[i] != Running
    {
      if fate.fails(Bootstrap) { return None; }
      downloads := downloads + {id};
      if fate.fails(FreeSpaceAgain) || fate.fails(WorkDisk) || fate.fails(PubKey) || fate.fails(Seed)
         || fate.fails(Firmware) {
        return None;
      }
      machine := host.Spawn(fate.attempts);
    }

    /** From the booted machine to the inventory: the disk is set up once setup.sh has succeeded in it. */
    method SetUpGuest(recipe: Recipe, fate: BuildFate) returns (ok: bool, disk: Disk)
      ensures ok <==> !fate.fails(Ready) && !fate.fails(Upload) && !fate.fails(Setup) && !fate.fails(Inventory)
      ensures disk.recipe == recipe && !disk.exited && !disk.forced
      ensures disk.setUp <==> !fate.fails(Ready) && !fate.fails(Upload) && !fate.fails(Setup)
    {
      disk := Disk(recipe, false, false, false);
      if fate.fails(Ready) || fate.fails(Upload) { return false, disk; }
      if fate.fails(Setup) { return false, disk; }
      disk := disk.(setUp := true);
      return !fate.fails(Inventory), disk;
    }

    /** `machine.shutdown()` and the waits before the golden is replaced; false when one of them raises. */
    method PowerOff(m: nat, fate: BuildFate) returns (ok: bool, forced: bool)
      requires m < |host.procs|
      modifies host
      ensures |host.procs| == |old(host.procs)|
      ensures forall i :: 0 <= i < |host.procs| && i != m ==> host.procs[i] == old(host.procs)[i]
      ensures ok <==> Cascade(fate.powerOff) != Raised && (fate.exitsIn60 || fate.exitsIn15)
      ensures ok ==> host.procs[m] == Exited && forced == Forced(fate)
    {
      var path := host.Shutdown(m, fate.powerOff);
      if path == Raised {
        return false, false;
      }
      forced := path == Kill;
      host.Wait(m, fate.exitsIn60);
      if !fate.exitsIn60 {
        host.KillProc(m);
        forced := true;
        host.Wait(m, fate.exitsIn15);
        if !fate.exitsIn15 {
          return false, forced;
        }
      }
      return true, forced;
    }

    /** Replace the golden and write what goes beside it; false when a step raises. */
    method InstallGolden(key: Key, disk: Disk, fate: BuildFate) returns (ok: bool)
      modifies this`images
      ensures images == if key in old(images) && fate.fails(Unlink) then old(images)
                        else if fate.fails(Move) then old(images) - {key}
                        else old(images)[key := disk]
      ensures ok <==> !(key in old(images) && fate.fails(Unlink)) && !fate.fails(Move) &&
                      !fate.fails(Symlink) && !fate.fails(Vars) && !fate.fails(Report)
    {
      if key in images {
        if fate.fails(Unlink) { return false; }
        images := images - {key};
      }
      if fate.fails(Move) { return false; }
      images := images[key := disk];
      return !fate.fails(Symlink) && !fate.fails(Vars) && !fate.fails(Report);
    }

    /** Power the machine off and replace the golden; the machine is shut down in `finally` while it is still held. */
    method Finish(m: nat, key: Key, disk: Disk, fate: BuildFate) returns (ok: bool)
      requires m < |host.procs|
      modifies this`images, host
      ensures |host.procs| == |old(host.procs)| && host.procs[m] != Running
      ensures forall i :: 0 <= i < |host.procs| && i != m ==> host.procs[i] == old(host.procs)[i]
      ensures var held := Cascade(fate.powerOff) == Raised || !(fate.exitsIn60 || fate.exitsIn15);
              && images == (if held || (key in old(images) && fate.fails(Unlink)) then old(images)
                            else if fate.fails(Move) then old(images) - {key}
                            else old(images)[key := disk.(exited := true, forced := Forced(fate))])
              && (ok <==> !held && !(key in old(images) && fate.fails(Unlink)) && !fate.fails(Move) &&
                          !fate.fails(Symlink) && !fate.fails(Vars) && !fate.fails(Report))
    {
      var forced;
      ok, forced := PowerOff(m, fate);
      if ok {
        ok := InstallGolden(key, disk.(exited := host.procs[m] == Exited, forced := forced), fate);
      } else {
        host.ShutdownMachine(m, fate.teardown);
      }
    }

    /** Everything a build does once it has a machine. */
    method BuildIn(m: nat, key: Key, recipe: Recipe, fate: BuildFate) returns (ok: bool)
      requires m < |host.procs| && SpawnResult(fate.attempts, 0).Some?
      requires !fate.fails(FreeSpace) && !fate.fails(Bootstrap) && !fate.fails(FreeSpaceAgain) && !fate.fails(WorkDisk)
      requires !fate.fails(PubKey) && !fate.fails(Seed) && !fate.fails(Firmware)
      modifies this`images, host
      ensures |host.procs| == |old(host.procs)| && host.procs[m] != Running
      ensures forall i :: 0 <= i < |host.procs| && i != m ==> host.procs[i] == old(host.procs)[i]
      ensures images == AfterInstall(old(images), key, recipe, fate)
      ensures ok == BuildSucceeds(fate, key in old(images))
    {
      var disk;
      ok, disk := SetUpGuest(recipe, fate);
      if !ok {
        host.ShutdownMachine(m, fate.teardown);
        return false;
      }
      ok := Finish(m, key, disk, fate);
    }

    /** `build_live`. */
    method BuildLive(id: Id, fate: BuildFate) returns (ok: bool)
      requires id in recipes
      modifies this`images, this`downloads, this`runs, host
      ensures Contents() == AfterBuildLive(sha, old(Contents()), id, fate)
      ensures ok == BuildSucceeds(fate, KeyOf(sha, old(Contents()), id) in old(images))
      ensures NoneLeft(|old(host.procs)|)
      ensures forall i :: 0 <= i < |old(host.procs)| ==> host.procs[i] == old(host.procs)[i]
      ensures |host.procs| == |old(host.procs)| +
                              if !fate.fails(FreeSpace) && Starts(fate) then Launched(fate.attempts, 0) else 0
    {
      var recipe := recipes[id];
      var key := Key(id, Address(sha, recipe));
      if fate.fails(FreeSpace) {
        return false;
      }
      runs := runs + 1;
      var machine := StartMachine(id, fate);
      if machine.None? {
        return false;
      }
      ok := BuildIn(machine.value, key, recipe, fate);
      if ok {
        runs := runs - 1;
      }
    }

    /** `run_image_build`: the exit status. */
    method ImageBuild(id: Id, force: bool, fate: BuildFate) returns (status: int)
      modifies this, host
      ensures Contents() == AfterBuild(sha, old(Contents()), id, force, fate)
      ensures NoneLeft(|old(host.procs)|)
      ensures status == 0 <==> id in recipes && var present := KeyOf(sha, old(Contents()), id) in old(images);
                               (present && !force) || (fate.hostOk && BuildSucceeds(fate, present))
      ensures status == 2 <==> id !in recipes
      ensures status == 0 ==> KeyOf(sha, Contents(), id) in images
      ensures status == 0 && (force || KeyOf(sha, old(Contents()), id) !in old(images)) ==>
                !fate.fails(Setup) && Contents().images[KeyOf(sha, Contents(), id)] == BuiltDisk(recipes[id], fate)
    {
      if id !in recipes {
        return 2;
      }
      var key := Key(id, Address(sha, recipes[id]));
      if key in images && !force {
        return 0;
      }
      if !fate.hostOk {
        return 1;
      }
      var ok := BuildLive(id, fate);
      return if ok then 0 else 1;
    }

    /** `run_run_test`, as far as the cache and the processes are concerned. */
    method RunTest(id: Id, run: RunFate) returns (status: int, booted: Option<Disk>)
      modifies this`runs, host
      ensures Contents() == After(sha, old(Contents()), Test(id, run))
      ensures booted == if run.hostOk then Golden(sha, old(Contents()), id) else None
      ensures NoneLeft(|old(host.procs)|)
      ensures |host.procs| == |old(host.procs)| +
                              if booted.Some? && run.prepares then Launched(run.attempts, 0) else 0
      ensures status == 0 <==> booted.Some? && run.prepares && SpawnResult(run.attempts, 0).Some? && run.stepsPass
      ensures status == 2 <==> id !in recipes
    {
      if id !in recipes {
        return 2, None;
      }
      var key := Key(id, Address(sha, recipes[id]));
      if key !in images || !run.hostOk {
        return 1, None;
      }
      runs := runs + 1;
      var ok := RunOverlay(host, run);
      return if ok then 0 else 1, Some(images[key]);
    }

    /** `prune`. */
    method PruneCache(goldens: bool)
      modifies this`runs, this`images
      ensures Contents() == After(sha, old(Contents()), Prune(goldens))
      ensures keys == old(keys) && downloads == old(downloads)
    {
      runs := 0;
      if goldens {
        images := map[];
      }
    }
  }

  // ------------------------------------------------------------------
  // Every run
  // ------------------------------------------------------------------

  /** Every golden sits at the address of the recipe it was built from; its setup succeeded and its QEMU had exited. */
  ghost predicate Sound(sha: Octets -> Octets, s: State) {
    forall key :: key in s.images ==> SoundAt(sha, key, s.images[key])
  }

  ghost predicate SoundAt(sha: Octets -> Octets, key: Key, disk: Disk) {
    key.digest == Address(sha, disk.recipe) && disk.setUp && disk.exited
  }

  lemma InstallIsSound(sha: Octets -> Octets, s: State, id: Id, fate: BuildFate)
    requires Sound(sha, s) && id in s.recipes
    ensures Sound(sha, AfterBuildLive(sha, s, id, fate))
  {
    var key, t := KeyOf(sha, s, id), AfterBuildLive(sha, s, id, fate);
    forall k | k in t.images ensures SoundAt(sha, k, t.images[k]) {
      if k != key {
        assert k in s.images && t.images[k] == s.images[k];
      }
    }
  }

  lemma {:induction false} RunIsSound(sha: Octets -> Octets, s: State, ops: seq<Op>)
    requires Sound(sha, s)
    ensures Sound(sha, Run(sha, s, ops))
  {
    if ops != [] {
      var before, last := Run(sha, s, ops[..|ops| - 1]), ops[|ops| - 1];
      RunIsSound(sha, s, ops[..|ops| - 1]);
      if last.Build? && last.id in before.recipes {
        InstallIsSound(sha, before, last.id, last.fate);
      }
    }
  }

  /** No two recipes at one address, for one particular pair. */
  ghost predicate Separates(sha: Octets -> Octets, a: Recipe, b: Recipe) {
    Address(sha, a) == Address(sha, b) ==> a == b
  }

  /**
   In every reachable state, whatever was edited, built, forced, failed, tested
   and pruned before, a test run finds a golden only if it was built from the
   recipe as it is now.
   */
  lemma TestsUseCurrentRecipe(sha: Octets -> Octets, s: State, ops: seq<Op>, id: Id)
    requires Sound(sha, s)
    requires var t := Run(sha, s, ops);
             Golden(sha, t, id).Some? ==> Separates(sha, Golden(sha, t, id).value.recipe, t.recipes[id])
    ensures var t := Run(sha, s, ops);
            Golden(sha, t, id).Some? ==>
              var disk := Golden(sha, t, id).value;
              disk.recipe == t.recipes[id] && disk.setUp && disk.exited
  {
    RunIsSound(sha, s, ops);
  }

  /**
   Build `i` of the history made this golden: it ran when `key` was the address of
   the recipe, its guest was reached and set up, and its process was seen to exit.
   */
  ghost predicate BuiltAt(sha: Octets -> Octets, s: State, ops: seq<Op>, i: nat, key: Key, disk: Disk) {
    && i < |ops| && ops[i].Build? && ops[i].id == key.id
    && var before := Run(sha, s, ops[..i]);
    var fate := ops[i].fate;
    && key.id in before.recipes && key == KeyOf(sha, before, key.id) && disk.recipe == before.recipes[key.id]
    && fate.hostOk && SpawnResult(fate.attempts, 0).Some?
    && !fate.fails(Ready) && !fate.fails(Upload) && !fate.fails(Setup) && !fate.fails(Inventory) && !fate.fails(Move)
    && (fate.exitsIn60 || fate.exitsIn15)
    && (disk.forced <==> Cascade(fate.powerOff) == Kill || !fate.exitsIn60)
  }

  lemma BuiltLast(sha: Octets -> Octets, s: State, ops: seq<Op>, key: Key)
    requires ops != [] && key in Run(sha, s, ops).images
    requires var before := Run(sha, s, ops[..|ops| - 1]);
             !(key in before.images && Run(sha, s, ops).images[key] == before.images[key])
    ensures BuiltAt(sha, s, ops, |ops| - 1, key, Run(sha, s, ops).images[key])
  {
  }

  lemma BuiltEarlier(sha: Octets -> Octets, s: State, ops: seq<Op>, n: nat, i: nat, key: Key, disk: Disk)
    requires n <= |ops| && BuiltAt(sha, s, ops[..n], i, key, disk)
    ensures BuiltAt(sha, s, ops, i, key, disk)
  {
    assert ops[..n][..i] == ops[..i];
  }

  /**
   Where every golden comes from: it was there at the start, unchanged, or one
   particular build of the history made it.
   */
  lemma {:induction false} Provenance(sha: Octets -> Octets, s: State, ops: seq<Op>, key: Key)
    requires key in Run(sha, s, ops).images
    ensures var disk := Run(sha, s, ops).images[key];
            (key in s.images && disk == s.images[key]) || exists i: nat :: BuiltAt(sha, s, ops, i, key, disk)
  {
    if ops != [] {
      var n := |ops| - 1;
      var disk := Run(sha, s, ops).images[key];
      var before := Run(sha, s, ops[..n]);
      if key in before.images && before.images[key] == disk {
        Provenance(sha, s, ops[..n], key);
        if !(key in s.images && disk == s.images[key]) {
          var i: nat :| BuiltAt(sha, s, ops[..n], i, key, disk);
          BuiltEarlier(sha, s, ops, n, i, key, disk);
        }
      } else {
        BuiltLast(sha, s, ops, key);
      }
    }
  }

  /**
   Starting without goldens, a test run boots only what some build before it made
   from the recipe as it is now, with setup done and the process gone.
   */
  lemma TestedGoldenWasBuilt(sha: Octets -> Octets, s: State, ops: seq<Op>, id: Id)
    requires s.images == map[]
    requires var t := Run(sha, s, ops);
             Golden(sha, t, id).Some? ==> Separates(sha, Golden(sha, t, id).value.recipe, t.recipes[id])
    ensures var t := Run(sha, s, ops);
            Golden(sha, t, id).Some? ==>
              exists i: nat :: BuiltAt(sha, s, ops, i, KeyOf(sha, t, id), Golden(sha, t, id).value) &&
                               Run(sha, s, ops[..i]).recipes[id] == t.recipes[id]
  {
    var t := Run(sha, s, ops);
    if Golden(sha, t, id).Some? {
      Provenance(sha, s, ops, KeyOf(sha, t, id));
      TestsUseCurrentRecipe(sha, s, ops, id);
    }
  }

  /**
   The same on the level of files: the golden was built from a recipe directory
   with the same covered files and contents, and the same source pin, as the
   current one, unless one of the two pairs of hash inputs compared collides, and
   a build now would read what that build read, forbidden directory names aside.
   */
  lemma TestsUseCurrentFiles(sha: Octets -> Octets, s: State, ops: seq<Op>, id: Id,
                             built: Tree, builtListing: Listing, now: Tree, nowListing: Listing,
                             parse: Octets -> Option<Inputs.Manifest>)
    requires Sound(sha, s) && HexDigest(sha) && Golden(sha, Run(sha, s, ops), id).Some?
    requires ValidTree(built) && Lists(builtListing, built) && ValidTree(now) && Lists(nowListing, now)
    requires var t := Run(sha, s, ops);
             var disk := Golden(sha, t, id).value;
             && disk.recipe.input == RecipePreimage(built, builtListing)
             && t.recipes[id].input == RecipePreimage(now, nowListing)
             && NoCollision(sha, disk.recipe.input, t.recipes[id].input)
             && NoCollision(sha, GoldenPreimage(sha, disk.recipe.input, disk.recipe.pin),
                            GoldenPreimage(sha, t.recipes[id].input, t.recipes[id].pin))
    ensures CoveredContents(built) == CoveredContents(now)
    ensures Golden(sha, Run(sha, s, ops), id).value.recipe.pin == Run(sha, s, ops).recipes[id].pin
    ensures Inputs.NoForbiddenDirs(built) && Inputs.NoForbiddenDirs(now) ==>
              Inputs.InputsOf(built, parse) == Inputs.InputsOf(now, parse)
  {
    RunIsSound(sha, s, ops);
    var t := Run(sha, s, ops);
    assert SoundAt(sha, KeyOf(sha, t, id), t.images[KeyOf(sha, t, id)]);
    AddressIffSameRecipe(sha, built, builtListing, t.images[KeyOf(sha, t, id)].recipe.pin,
                         now, nowListing, t.recipes[id].pin);
    if Inputs.NoForbiddenDirs(built) && Inputs.NoForbiddenDirs(now) {
      Inputs.SameCoveredSameInputs(built, now, parse);
    }
  }

  /**
   A build succeeds exactly when none of its steps raises, the removal of an old
   golden being one only if there is one, a machine came up, and its process was
   seen to exit after a shutdown that did not raise.
   */
  lemma BuildSucceedsIff(fate: BuildFate, present: bool)
    ensures BuildSucceeds(fate, present)
            <==> && (forall step: Step :: fate.fails(step) ==> step == Unlink && !present)
                 && SpawnResult(fate.attempts, 0).Some? && Cascade(fate.powerOff) != Raised
                 && (fate.exitsIn60 || fate.exitsIn15)
  {
  }

  /** The same commands with every build forced: rebuild every time. */
  function Forcing(ops: seq<Op>): seq<Op> {
    if ops == [] then []
    else
      var last := ops[|ops| - 1];
      Forcing(ops[..|ops| - 1]) + [if last.Build? then last.(force := true) else last]
  }

  lemma {:induction false} ForcingKeepsRecipes(sha: Octets -> Octets, s: State, ops: seq<Op>)
    ensures Run(sha, s, Forcing(ops)).recipes == Run(sha, s, ops).recipes
    ensures Run(sha, s, Forcing(ops)).images.Keys <= Run(sha, s, ops).images.Keys
  {
    if ops != [] {
      var n := |ops| - 1;
      ForcingKeepsRecipes(sha, s, ops[..n]);
      assert Forcing(ops)[..n] == Forcing(ops[..n]) by { ForcingLength(ops[..n]); }
      ForcingLength(ops);
      var f, t := Run(sha, s, Forcing(ops[..n])), Run(sha, s, ops[..n]);
      var forced := Forcing(ops)[n];
      assert Run(sha, s, Forcing(ops)) == After(sha, f, forced);
      ForcingStep(sha, f, t, ops[n]);
    }
  }

  lemma {:induction false} ForcingLength(ops: seq<Op>)
    ensures |Forcing(ops)| == |ops|
  {
    if ops != [] {
      ForcingLength(ops[..|ops| - 1]);
    }
  }

  lemma ForcingStep(sha: Octets -> Octets, f: State, t: State, op: Op)
    requires f.recipes == t.recipes && f.images.Keys <= t.images.Keys
    ensures var op' := if op.Build? then op.(force := true) else op;
            After(sha, f, op').recipes == After(sha, t, op).recipes &&
            After(sha, f, op').images.Keys <= After(sha, t, op).images.Keys
  {
  }

  /** The build would remove a golden and then fail to move the new one into its place. */
  predicate Loses(fate: BuildFate) {
    fate.hostOk && Finalizes(fate) && !fate.fails(Unlink) && fate.fails(Move)
  }

  ghost predicate NeverLoses(ops: seq<Op>) {
    forall i :: 0 <= i < |ops| && ops[i].Build? ==> !Loses(ops[i].fate)
  }

  lemma AgreementStep(sha: Octets -> Octets, f: State, t: State, op: Op)
    requires f.recipes == t.recipes && f.images.Keys == t.images.Keys && (op.Build? ==> !Loses(op.fate))
    ensures var op' := if op.Build? then op.(force := true) else op;
            After(sha, f, op').images.Keys == After(sha, t, op).images.Keys
  {
  }

  /** Without such a build, rebuilding every time ends with exactly the goldens of the incremental cache. */
  lemma {:induction false} AgreementOfKeys(sha: Octets -> Octets, s: State, ops: seq<Op>)
    requires NeverLoses(ops)
    ensures Run(sha, s, Forcing(ops)).images.Keys == Run(sha, s, ops).images.Keys
  {
    if ops != [] {
      var n := |ops| - 1;
      AgreementOfKeys(sha, s, ops[..n]);
      ForcingKeepsRecipes(sha, s, ops[..n]);
      ForcingLength(ops[..n]);
      assert Forcing(ops)[..n] == Forcing(ops[..n]);
      AgreementStep(sha, Run(sha, s, Forcing(ops[..n])), Run(sha, s, ops[..n]), ops[n]);
    }
  }

  /**
   The incremental skip agrees with rebuilding every time: after the same
   commands with the same luck, every golden the rebuilding cache holds is held
   by the incremental one too, built from the same recipe, and when no build
   loses a golden the two hold the same ones.
   */
  lemma IncrementalAgreesWithRebuilding(sha: Octets -> Octets, s: State, ops: seq<Op>, key: Key)
    requires Sound(sha, s)
    requires var f, t := Run(sha, s, Forcing(ops)), Run(sha, s, ops);
             key in f.images && key in t.images ==> Separates(sha, f.images[key].recipe, t.images[key].recipe)
    ensures var f, t := Run(sha, s, Forcing(ops)), Run(sha, s, ops);
            && (key in f.images ==> key in t.images && t.images[key].recipe == f.images[key].recipe)
            && (NeverLoses(ops) ==> (key in f.images <==> key in t.images))
  {
    ForcingKeepsRecipes(sha, s, ops);
    RunIsSound(sha, s, ops);
    RunIsSound(sha, s, Forcing(ops));
    if NeverLoses(ops) {
      AgreementOfKeys(sha, s, ops);
    }
  }

  ghost predicate AllFates(ops: seq<Op>, allowed: BuildFate -> bool) {
    forall i :: 0 <= i < |ops| && ops[i].Build? ==> allowed(ops[i].fate)
  }

  /** The two caches hold the same goldens after `ops`. */
  ghost predicate SameGoldens(sha: Octets -> Octets, s: State, ops: seq<Op>) {
    Run(sha, s, Forcing(ops)).images.Keys == Run(sha, s, ops).images.Keys
  }

  /** A sound cache with one golden, and a build that loses it. */
  lemma LosingRun(sha: Octets -> Octets, id: Id, recipe: Recipe, fate: BuildFate)
    requires Loses(fate)
    ensures var s := State(map[id := recipe], map[Key(id, Address(sha, recipe)) := Disk(recipe, true, true, false)],
                           {}, {}, 0);
            Sound(sha, s) && !SameGoldens(sha, s, [Build(id, false, fate)])
  {
    var key := Key(id, Address(sha, recipe));
    var s := State(map[id := recipe], map[key := Disk(recipe, true, true, false)], {}, {}, 0);
    var ops := [Build(id, false, fate)];
    assert ops[..0] == [] && Forcing(ops) == [Build(id, true, fate)];
    assert Run(sha, s, ops[..0]) == s && Forcing(ops)[..0] == [];
    assert Run(sha, s, ops) == s;
    assert key !in Run(sha, s, Forcing(ops)).images;
  }

  /**
   The exact condition: whatever the outside world is allowed to do to builds, the
   caches agree in every run from every sound cache if and only if none of it
   loses a golden between the unlink and the move.
   */
  lemma AgreementIff(sha: Octets -> Octets, allowed: BuildFate -> bool)
    ensures (forall fate :: allowed(fate) ==> !Loses(fate))
            <==> forall s, ops :: Sound(sha, s) && AllFates(ops, allowed) ==> SameGoldens(sha, s, ops)
  {
    if forall fate :: allowed(fate) ==> !Loses(fate) {
      forall s, ops | Sound(sha, s) && AllFates(ops, allowed) ensures SameGoldens(sha, s, ops) {
        AgreementOfKeys(sha, s, ops);
      }
    } else {
      var fate :| allowed(fate) && Loses(fate);
      LosingRun(sha, [], Recipe([], []), fate);
      assert AllFates([Build([], false, fate)], allowed);
    }
  }

  ghost predicate OnlyTestsAndPrunes(ops: seq<Op>) {
    forall i :: 0 <= i < |ops| ==> ops[i].Test? || ops[i].Prune?
  }

  /** Test runs and prunes never add or change a golden, and leave the keys and downloads alone. */
  lemma {:induction false} TestsAndPrunesAddNothing(sha: Octets -> Octets, s: State, ops: seq<Op>)
    requires OnlyTestsAndPrunes(ops)
    ensures var t := Run(sha, s, ops);
            && (forall key :: key in t.images ==> key in s.images && t.images[key] == s.images[key])
            && t.keys == s.keys && t.downloads == s.downloads && t.recipes == s.recipes
            && ((forall i :: 0 <= i < |ops| ==> ops[i].Test? || !ops[i].images) ==> t.images == s.images)
  {
    if ops != [] {
      TestsAndPrunesAddNothing(sha, s, ops[..|ops| - 1]);
    }
  }

  /** The operation gets as far as making a run directory and does not remove it again. */
  ghost predicate Leaves(sha: Octets -> Octets, s: State, op: Op) {
    match op
    case Build(id, force, fate) =>
      && id in s.recipes && fate.hostOk && !fate.fails(FreeSpace)
      && (force || Golden(sha, s, id).None?)
      && !BuildSucceeds(fate, Golden(sha, s, id).Some?)
    case Test(id, run) => Golden(sha, s, id).Some? && run.hostOk
    case _ => false
  }

  /** The build gets as far as fetching its source. */
  ghost predicate Fetches(sha: Octets -> Octets, s: State, op: Op) {
    && op.Build? && op.id in s.recipes && op.fate.hostOk && (op.force || Golden(sha, s, op.id).None?)
    && !op.fate.fails(FreeSpace) && !op.fate.fails(Bootstrap)
  }

  /**
   Each test run and each build that started and did not succeed leaves one run
   directory, until the next prune; each build that fetched its source leaves the
   download.
   */
  lemma WhatIsLeft(sha: Octets -> Octets, s: State, op: Op)
    ensures After(sha, s, op).runs == if op.Prune? then 0 else s.runs + if Leaves(sha, s, op) then 1 else 0
    ensures After(sha, s, op).downloads == s.downloads + if Fetches(sha, s, op) then {op.id} else {}
    ensures After(sha, s, op).keys == s.keys
  {
  }

  /** Pruning with images leaves no golden to test; without, it leaves every golden. No run directory is left either way. */
  lemma PruneForgets(sha: Octets -> Octets, s: State, ops: seq<Op>, goldens: bool, id: Id)
    ensures var before, after := Run(sha, s, ops), Run(sha, s, ops + [Prune(goldens)]);
            && Golden(sha, after, id) == (if goldens then None else Golden(sha, before, id))
            && after.runs == 0 && after.recipes == before.recipes
            && after.keys == before.keys && after.downloads == before.downloads
  {
    assert (ops + [Prune(goldens)])[..|ops|] == ops;
  }

  /**
   `exited` cannot be strengthened to a clean power-off: a build can succeed and
   keep the disk of a guest that was killed because no transport reached it.
   */
  lemma GoldenOfKilledGuest(sha: Octets -> Octets, id: Id, recipe: Recipe)
    ensures var fate := BuildFate(true, _ => false, _ => Lives, Hooks(No, No, No), true, true,
                                  Teardown(Hooks(No, No, No), true));
            var s := State(map[id := recipe], map[], {}, {}, 0);
            BuildSucceeds(fate, false) &&
            Golden(sha, AfterBuild(sha, s, id, false, fate), id) == Some(Disk(recipe, true, true, true))
  {
    var fate := BuildFate(true, _ => false, _ => Lives, Hooks(No, No, No), true, true,
                          Teardown(Hooks(No, No, No), true));
    assert fate.attempts(0) == Lives;
    assert Prepared(fate);
  }
}
