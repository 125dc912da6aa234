/** `recipe_digest` and `golden_digest`: what is hashed, and what an equal hash input says. */
module Digests {
  import opened Bytes
  import opened Wrappers
  import opened Separated
  import opened Recipes

  const COLON: Byte := ':' as int

  /** One covered file as it is fed to the hash: its POSIX relative path and its contents. */
  datatype Entry = Entry(path: Octets, data: Octets)

  /** `str(n).encode("ascii")`. */
  function Decimal(n: nat): (s: Octets)
    ensures s != [] && forall i :: 0 <= i < |s| ==> 0x30 <= s[i] <= 0x39
  {
    if n < 10 then [0x30 + n] else Decimal(n / 10) + [0x30 + n % 10]
  }

  function ValueOf(s: Octets): int {
    if s == [] then 0 else ValueOf(s[..|s| - 1]) * 10 + (s[|s| - 1] as int - 0x30)
  }

  lemma {:induction false} ValueOfDecimal(n: nat)
    ensures ValueOf(Decimal(n)) == n
  {
    if n >= 10 {
      ValueOfDecimal(n / 10);
      assert Decimal(n)[..|Decimal(n)| - 1] == Decimal(n / 10);
    }
  }

  function FrameOf(e: Entry): Octets {
    e.path + [NUL] + (Decimal(|e.data|) + [NUL] + (e.data + [NUL]))
  }

  function Preimage(es: seq<Entry>): Octets {
    if es == [] then [] else FrameOf(es[0]) + Preimage(es[1..])
  }

  // ------------------------------------------------------------------
  // Unique decodability
  // ------------------------------------------------------------------

  /** The octets before the first NUL and those after it. */
  function Field(s: Octets): (r: Option<(Octets, Octets)>)
    ensures r.Some? ==> |r.value.1| < |s|
  {
    if s == [] then None
    else if s[0] == NUL then Some(([], s[1..]))
    else
      match Field(s[1..])
      case None => None
      case Some((field, rest)) => Some(([s[0]] + field, rest))
  }

  lemma {:induction false} FieldOf(field: Octets, rest: Octets)
    requires NUL !in field
    ensures Field(field + [NUL] + rest) == Some((field, rest))
  {
    var s := field + [NUL] + rest;
    if field == [] {
      assert s[1..] == rest;
    } else {
      FieldOf(field[1..], rest);
      assert s[1..] == field[1..] + [NUL] + rest;
      assert [field[0]] + field[1..] == field;
    }
  }

  function ParseEntry(s: Octets): (r: Option<(Entry, Octets)>)
    ensures r.Some? ==> |r.value.1| < |s|
  {
    match Field(s)
    case None => None
    case Some((path, afterPath)) =>
      match Field(afterPath)
      case None => None
      case Some((digits, rest)) =>
        var n := ValueOf(digits);
        if n < 0 || |rest| <= n || rest[n] != NUL then None
        else Some((Entry(path, rest[..n]), rest[n + 1..]))
  }

  function ParsePreimage(s: Octets): Option<seq<Entry>>
    decreases |s|
  {
    if s == [] then Some([])
    else
      match ParseEntry(s)
      case None => None
      case Some((e, rest)) =>
        match ParsePreimage(rest)
        case None => None
        case Some(es) => Some([e] + es)
  }

  ghost predicate NulFree(es: seq<Entry>) {
    forall i :: 0 <= i < |es| ==> NUL !in es[i].path
  }

  lemma ParseEntryOf(e: Entry, rest: Octets)
    requires NUL !in e.path
    ensures ParseEntry(FrameOf(e) + rest) == Some((e, rest))
  {
    var digits, tail := Decimal(|e.data|), e.data + [NUL] + rest;
    var afterPath := digits + [NUL] + tail;
    assert FrameOf(e) + rest == e.path + [NUL] + afterPath;
    FieldOf(e.path, afterPath);
    FieldOf(digits, tail);
    ValueOfDecimal(|e.data|);
    assert tail[..|e.data|] == e.data && tail[|e.data| + 1..] == rest;
  }

  lemma ParseOneMore(e: Entry, rest: Octets, es: seq<Entry>)
    requires NUL !in e.path && ParsePreimage(rest) == Some(es)
    ensures ParsePreimage(FrameOf(e) + rest) == Some([e] + es)
  {
    ParseEntryOf(e, rest);
  }

  /** A parser recovers the exact list of paths and contents, whatever octets the contents hold. */
  lemma {:induction false} ParseInverts(es: seq<Entry>)
    requires NulFree(es)
    ensures ParsePreimage(Preimage(es)) == Some(es)
  {
    if es != [] {
      ParseInverts(es[1..]);
      ParseOneMore(es[0], Preimage(es[1..]), es[1..]);
      assert [es[0]] + es[1..] == es;
    }
  }

  lemma PreimageInjective(a: seq<Entry>, b: seq<Entry>)
    requires NulFree(a) && NulFree(b)
    ensures Preimage(a) == Preimage(b) <==> a == b
  {
    ParseInverts(a);
    ParseInverts(b);
  }

  // ------------------------------------------------------------------
  // From directories to hash inputs
  // ------------------------------------------------------------------

  /** `path.resolve().relative_to(root).as_posix()`. */
  function Posix(p: Path): Octets
    requires p != []
  {
    Join(p, SLASH)
  }

  lemma PosixInjective(p: Path, q: Path)
    requires ValidPath(p) && ValidPath(q) && Posix(p) == Posix(q)
    ensures p == q
  {
    SplitJoin(p, SLASH);
    SplitJoin(q, SLASH);
  }

  lemma {:induction false} JoinFree(p: Path)
    requires p != [] && forall i :: 0 <= i < |p| ==> NUL !in p[i]
    ensures NUL !in Posix(p)
  {
    if |p| > 1 {
      JoinFree(p[1..]);
    }
  }

  ghost predicate AllIn(paths: seq<Path>, t: Tree) {
    forall i :: 0 <= i < |paths| ==> paths[i] in t.files && paths[i] != []
  }

  function Entries(t: Tree, paths: seq<Path>): (es: seq<Entry>)
    requires AllIn(paths, t)
    ensures |es| == |paths|
  {
    seq(|paths|, i requires 0 <= i < |paths| => Entry(Posix(paths[i]), t.files[paths[i]]))
  }

  lemma CoveredAllIn(t: Tree, l: Listing)
    requires ValidTree(t) && Lists(l, t)
    ensures AllIn(Covered(t, l), t) && NulFree(Entries(t, Covered(t, l)))
  {
    var paths := Covered(t, l);
    CoveredExactly(t, l);
    forall i | 0 <= i < |paths| ensures paths[i] in t.files && paths[i] != [] && NUL !in Posix(paths[i]) {
      assert paths[i] in paths;
      assert ValidPath(paths[i]);
      JoinFree(paths[i]);
    }
  }

  /** What `recipe_digest` hashes for a recipe directory. */
  ghost function RecipePreimage(t: Tree, l: Listing): Octets
    requires ValidTree(t) && Lists(l, t)
  {
    CoveredAllIn(t, l);
    Preimage(Entries(t, Covered(t, l)))
  }

  lemma SameEntries(t: Tree, paths: seq<Path>, t': Tree, paths': seq<Path>)
    requires ValidTree(t) && ValidTree(t') && AllIn(paths, t) && AllIn(paths', t')
    requires Entries(t, paths) == Entries(t', paths')
    ensures paths == paths' && forall p :: p in paths ==> t.files[p] == t'.files[p]
  {
    assert |paths| == |Entries(t, paths)| == |Entries(t', paths')| == |paths'|;
    forall i | 0 <= i < |paths| ensures paths[i] == paths'[i] && t.files[paths[i]] == t'.files[paths[i]] {
      assert Entries(t, paths)[i] == Entries(t', paths')[i];
      PosixInjective(paths[i], paths'[i]);
    }
  }

  lemma SamePathsSameContents(t: Tree, l: Listing, t': Tree, l': Listing)
    requires Lists(l, t) && Lists(l', t')
    requires Covered(t, l) == Covered(t', l')
    requires forall p :: p in Covered(t, l) ==> p in t.files && p in t'.files && t.files[p] == t'.files[p]
    ensures CoveredContents(t) == CoveredContents(t')
  {
    forall p
      ensures p in t.files && Qualifies(p) <==> p in t'.files && Qualifies(p)
      ensures p in t.files && Qualifies(p) ==> t.files[p] == t'.files[p]
    {
      CoveredHolds(t, l, p);
      CoveredHolds(t', l', p);
    }
  }

  lemma SameContentsSameEntries(t: Tree, l: Listing, t': Tree, l': Listing)
    requires Lists(l, t) && Lists(l', t') && CoveredContents(t) == CoveredContents(t')
    requires AllIn(Covered(t, l), t) && AllIn(Covered(t', l'), t')
    ensures Entries(t, Covered(t, l)) == Entries(t', Covered(t', l'))
  {
    CoveredDetermined(t, l, t', l');
    var paths := Covered(t, l);
    forall i | 0 <= i < |paths| ensures t.files[paths[i]] == t'.files[paths[i]] {
      CoveredHolds(t, l, paths[i]);
      assert CoveredContents(t)[paths[i]] == CoveredContents(t')[paths[i]];
    }
  }

  /**
   Two recipe directories feed the hash the same octets exactly when they agree
   on every covered file: its presence, its path and its contents. Files that
   are not covered, and the order directories are listed in, do not matter.
   */
  lemma PreimageIffSameCovered(t: Tree, l: Listing, t': Tree, l': Listing)
    requires ValidTree(t) && ValidTree(t') && Lists(l, t) && Lists(l', t')
    ensures RecipePreimage(t, l) == RecipePreimage(t', l') <==> CoveredContents(t) == CoveredContents(t')
  {
    CoveredAllIn(t, l);
    CoveredAllIn(t', l');
    PreimageInjective(Entries(t, Covered(t, l)), Entries(t', Covered(t', l')));
    if Entries(t, Covered(t, l)) == Entries(t', Covered(t', l')) {
      SameEntries(t, Covered(t, l), t', Covered(t', l'));
      SamePathsSameContents(t, l, t', l');
    }
    if CoveredContents(t) == CoveredContents(t') {
      SameContentsSameEntries(t, l, t', l');
    }
  }

  // ------------------------------------------------------------------
  // The golden's content address
  // ------------------------------------------------------------------

  /** A hash function given by its 64 hexadecimal digits. */
  ghost predicate HexDigest(sha: Octets -> Octets) {
    forall x :: |sha(x)| == 64
  }

  ghost predicate NoCollision(sha: Octets -> Octets, a: Octets, b: Octets) {
    sha(a) == sha(b) ==> a == b
  }

  /** What `golden_digest` hashes, from the recipe's hash input and the pinned source checksum. */
  function GoldenPreimage(sha: Octets -> Octets, recipe: Octets, pin: Octets): Octets {
    sha(recipe) + [COLON] + pin
  }

  function GoldenDigest(sha: Octets -> Octets, recipe: Octets, pin: Octets): Octets {
    sha(GoldenPreimage(sha, recipe, pin))
  }

  /** Unless one of the two pairs that are compared collides, equal addresses mean the same hash input and pin. */
  lemma AddressInjective(sha: Octets -> Octets, a: Octets, pin: Octets, a': Octets, pin': Octets)
    requires HexDigest(sha) && NoCollision(sha, a, a')
    requires NoCollision(sha, GoldenPreimage(sha, a, pin), GoldenPreimage(sha, a', pin'))
    ensures GoldenDigest(sha, a, pin) == GoldenDigest(sha, a', pin') <==> a == a' && pin == pin'
  {
    if GoldenDigest(sha, a, pin) == GoldenDigest(sha, a', pin') {
      var g, g' := GoldenPreimage(sha, a, pin), GoldenPreimage(sha, a', pin');
      assert g[..64] == sha(a) && g'[..64] == sha(a');
      assert g[65..] == pin && g'[65..] == pin';
    }
  }

  /** Equal content addresses mean equal covered files and equal source pins, and conversely. */
  lemma AddressIffSameRecipe(sha: Octets -> Octets, t: Tree, l: Listing, pin: Octets, t': Tree, l': Listing, pin': Octets)
    requires ValidTree(t) && ValidTree(t') && Lists(l, t) && Lists(l', t') && HexDigest(sha)
    requires NoCollision(sha, RecipePreimage(t, l), RecipePreimage(t', l'))
    requires NoCollision(sha, GoldenPreimage(sha, RecipePreimage(t, l), pin),
                         GoldenPreimage(sha, RecipePreimage(t', l'), pin'))
    ensures GoldenDigest(sha, RecipePreimage(t, l), pin) == GoldenDigest(sha, RecipePreimage(t', l'), pin')
            <==> CoveredContents(t) == CoveredContents(t') && pin == pin'
  {
    PreimageIffSameCovered(t, l, t', l');
    AddressInjective(sha, RecipePreimage(t, l), pin, RecipePreimage(t', l'), pin');
  }

  // ------------------------------------------------------------------
  // The mutable hash object
  // ------------------------------------------------------------------

  class Hasher {
    const sha: Octets -> Octets
    var fed: Octets

    constructor (sha: Octets -> Octets)
      ensures this.sha == sha && fed == []
    {
      this.sha := sha;
      fed := [];
    }

    method Update(data: Octets)
      modifies this
      ensures fed == old(fed) + data
    {
      fed := fed + data;
    }

    /** The six `h.update` calls for one file. */
    method Feed(e: Entry)
      modifies this
      ensures fed == old(fed) + FrameOf(e)
    {
      Update(e.path);
      Update([NUL]);
      Update(Decimal(|e.data|));
      Update([NUL]);
      Update(e.data);
      Update([NUL]);
      assert fed == old(fed) + FrameOf(e);
    }
  }

  lemma FedNext(fed: Octets, es: seq<Entry>, i: nat)
    requires i < |es|
    ensures fed + FrameOf(es[i]) + Preimage(es[i + 1..]) == fed + Preimage(es[i..])
  {
    assert es[i..][1..] == es[i + 1..];
  }

  /** The loop of `recipe_digest` over the covered paths. */
  method FeedFiles(h: Hasher, t: Tree, found: seq<Path>)
    requires AllIn(found, t)
    modifies h
    ensures h.fed == old(h.fed) + Preimage(Entries(t, found))
  {
    ghost var es := Entries(t, found);
    assert es[0..] == es;
    for i := 0 to |found|
      invariant h.fed + Preimage(es[i..]) == old(h.fed) + Preimage(es)
    {
      FedNext(h.fed, es, i);
      h.Feed(Entry(Posix(found[i]), t.files[found[i]]));
    }
    assert es[|found|..] == [] && h.fed + [] == h.fed;
  }

  lemma PreimageOf(t: Tree, l: Listing, fed: Octets)
    requires ValidTree(t) && Lists(l, t)
    requires AllIn(Covered(t, l), t) && fed == [] + Preimage(Entries(t, Covered(t, l)))
    ensures fed == RecipePreimage(t, l)
  {
  }

  /** `recipe_digest` once the covered files are listed. */
  method HashFiles(sha: Octets -> Octets, t: Tree, ghost l: Listing, found: seq<Path>) returns (hex: Octets)
    requires ValidTree(t) && Lists(l, t) && found == Covered(t, l)
    ensures hex == sha(RecipePreimage(t, l))
  {
    CoveredAllIn(t, l);
    var h := new Hasher(sha);
    FeedFiles(h, t, found);
    PreimageOf(t, l, h.fed);
    hex := sha(h.fed);
  }

  /** `recipe_digest`. */
  method RecipeDigest(sha: Octets -> Octets, t: Tree, l: Listing) returns (hex: Octets)
    requires ValidTree(t) && Lists(l, t)
    ensures hex == sha(RecipePreimage(t, l))
  {
    var found := CoveredRecipeFiles(t, l);
    hex := HashFiles(sha, t, l, found);
  }

  lemma FedGolden(recipe: Octets, pin: Octets)
    ensures [] + recipe + [COLON] + pin == recipe + [COLON] + pin
  {
  }

  /** `Guest.golden_digest`. */
  method GoldenDigestOf(sha: Octets -> Octets, t: Tree, l: Listing, pin: Octets) returns (hex: Octets)
    requires ValidTree(t) && Lists(l, t)
    ensures hex == GoldenDigest(sha, RecipePreimage(t, l), pin)
  {
    var recipe := RecipeDigest(sha, t, l);
    var h := new Hasher(sha);
    h.Update(recipe);
    h.Update([COLON]);
    h.Update(pin);
    FedGolden(recipe, pin);
    hex := sha(h.fed);
  }

  // ------------------------------------------------------------------
  // File names
  // ------------------------------------------------------------------

  const QCOW2: Octets := Ascii(".qcow2")
  const DASH: Byte := '-' as int

  /** `golden_filename`. */
  function GoldenName(id: Octets, digest: Octets): Octets {
    id + [DASH] + digest + QCOW2
  }

  /** The separators, as text. */
  lemma Spelled(sha: Octets -> Octets, id: Octets, digest: Octets, recipe: Octets, pin: Octets, a: Name, b: Name)
    ensures GoldenName(id, digest) == id + Ascii("-") + digest + Ascii(".qcow2")
    ensures GoldenPreimage(sha, recipe, pin) == sha(recipe) + Ascii(":") + pin
    ensures Posix([a, b]) == a + Ascii("/") + b
    ensures FrameOf(Entry(id, pin)) == id + [0] + (Decimal(|pin|) + [0] + (pin + [0]))
  {
    assert Join([a, b][1..], SLASH) == b;
    assert Ascii("-") == [DASH] && Ascii(":") == [COLON] && Ascii("/") == [SLASH];
  }

  /** The golden's file name tells the guest and the address apart, and is never another guest's symlink name unless that id spells it. */
  lemma GoldenNameInjective(id: Octets, digest: Octets, id': Octets, digest': Octets)
    requires |digest| == |digest'| == 64
    ensures GoldenName(id, digest) == GoldenName(id', digest') <==> id == id' && digest == digest'
    ensures GoldenName(id, digest) == id' + QCOW2 <==> id' == id + [DASH] + digest
  {
    var a, b := GoldenName(id, digest), GoldenName(id', digest');
    var n := |id|;
    assert a[..n] == id && a[n + 1..n + 65] == digest;
    assert b[..|id'|] == id' && b[|id'| + 1..|id'| + 65] == digest';
    assert a[..|a| - |QCOW2|] == id + [DASH] + digest;
    assert (id' + QCOW2)[..|id'|] == id';
  }
}
