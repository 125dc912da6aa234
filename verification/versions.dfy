/** Release versions: normalising, the `--update-from` list, and versions in archive names. */
module Versions {
  import opened Wrappers
  import opened Separated
  import opened Ordering
  import opened Text

  // ------------------------------------------------------------------
  // Normalising
  // ------------------------------------------------------------------

  /** The part of `_strip_v_prefix` after its `strip()`. */
  function DropV(text: string): string {
    if |text| > 1 && (text[0] == 'v' || text[0] == 'V') && IsDigit(text[1]) then text[1..] else text
  }

  /** `_strip_v_prefix`. */
  function StripVPrefix(value: string): string {
    DropV(Strip(value))
  }

  /** `normalize_version`. */
  function Normalize(value: string): string {
    StripVPrefix(Strip(value))
  }

  /** `versions_match`. */
  predicate VersionsMatch(observed: string, intended: string) {
    Normalize(observed) == Normalize(intended)
  }

  lemma NormalizeTrims(value: string)
    ensures Trimmed(Normalize(value)) && Normalize(value) == DropV(Strip(value))
  {
    StripTrims(value);
    StripTrims(Strip(value));
  }

  lemma NormalizedIsFixed(text: string)
    requires Trimmed(text) && DropV(text) == text
    ensures Normalize(text) == text && Strip(text) == text
  {
    StripTrims(text);
  }

  /** Normalising twice is normalising once, so every version matches its normal form. */
  lemma NormalizeIdempotent(value: string)
    ensures Normalize(Normalize(value)) == Normalize(value)
    ensures VersionsMatch(Normalize(value), value)
  {
    NormalizeTrims(value);
    NormalizedIsFixed(Normalize(value));
  }

  /** A leading v, in either case, and white space around it do not matter in front of a digit. */
  lemma PrefixIgnored(value: string, n: string)
    requires Trimmed(n) && n != [] && IsDigit(n[0])
    requires Strip(value) == n || Strip(value) == "v" + n || Strip(value) == "V" + n
    ensures Normalize(value) == n && VersionsMatch(value, n)
  {
    NormalizeTrims(value);
    NormalizedIsFixed(n);
  }

  // ------------------------------------------------------------------
  // --update-from
  // ------------------------------------------------------------------

  function DigitRun(s: string): (n: nat)
    ensures n <= |s|
  {
    if s == [] || !IsDigit(s[0]) then 0 else 1 + DigitRun(s[1..])
  }

  /** `re.match(r"\d+\.\d+", s)`. */
  predicate LooksLikeVersion(s: string) {
    var n := DigitRun(s);
    n > 0 && n + 1 < |s| && s[n] == '.' && IsDigit(s[n + 1])
  }

  lemma {:induction false} DigitRunIs(s: string)
    ensures forall j :: 0 <= j < DigitRun(s) ==> IsDigit(s[j])
    ensures DigitRun(s) < |s| ==> !IsDigit(s[DigitRun(s)])
  {
    if s != [] && IsDigit(s[0]) {
      DigitRunIs(s[1..]);
      forall j | 0 <= j < DigitRun(s) ensures IsDigit(s[j]) {
        assert j > 0 ==> s[j] == s[1..][j - 1];
      }
    }
  }

  /** Digits up to `i`, a dot there, and a digit after it. */
  ghost predicate DotAt(s: string, i: int) {
    0 < i && i + 1 < |s| && s[i] == '.' && IsDigit(s[i + 1]) && forall j :: 0 <= j < i ==> IsDigit(s[j])
  }

  /** Looking like a version is starting with digits, a dot and a digit. */
  lemma LooksLikeIff(s: string)
    ensures LooksLikeVersion(s) <==> exists i :: DotAt(s, i)
  {
    DigitRunIs(s);
    if LooksLikeVersion(s) {
      assert DotAt(s, DigitRun(s));
    }
    if i :| DotAt(s, i) {
      assert DigitRun(s) == i;
    }
  }

  datatype Parsed = Version(text: string) | MissingVersion | BadVersion

  /** `parse_update_from_version`. */
  function ParseVersion(value: string): Parsed {
    var text := Strip(value);
    if text == [] then MissingVersion
    else
      var normalized := Normalize(text);
      if LooksLikeVersion(normalized) then Version(normalized) else BadVersion
  }

  /** `Default` stands for DEFAULT_UPDATE_FROM_VERSIONS. */
  datatype ParsedList = Versions(list: seq<string>) | Default | BadToken(token: string) | EmptyList

  /** The parts that are not blank. */
  function Tokens(parts: seq<string>): seq<string> {
    if parts == [] then []
    else
      var n := |parts| - 1;
      Tokens(parts[..n]) + if Strip(parts[n]) == [] then [] else [Strip(parts[n])]
  }

  /** Each element at its first occurrence. */
  function Firsts(s: seq<string>): seq<string> {
    if s == [] then []
    else
      var n := |s| - 1;
      if s[n] in Firsts(s[..n]) then Firsts(s[..n]) else Firsts(s[..n]) + [s[n]]
  }

  predicate AllParse(tokens: seq<string>) {
    forall i :: 0 <= i < |tokens| ==> ParseVersion(tokens[i]).Version?
  }

  function VersionsOf(tokens: seq<string>): (vs: seq<string>)
    requires AllParse(tokens)
    ensures |vs| == |tokens|
  {
    seq(|tokens|, i requires 0 <= i < |tokens| => ParseVersion(tokens[i]).text)
  }

  /** The token at `i` is no version, and all before it are. */
  predicate BadFirst(tokens: seq<string>, i: nat) {
    i < |tokens| && !ParseVersion(tokens[i]).Version? && AllParse(tokens[..i])
  }

  /** `token` is the first one that is no version. */
  ghost predicate NamesFirstBad(tokens: seq<string>, token: string) {
    exists i: nat :: BadFirst(tokens, i) && token == tokens[i]
  }

  /** Position of the first token that is no version. */
  function FirstBad(tokens: seq<string>): (i: nat)
    requires !AllParse(tokens)
    ensures BadFirst(tokens, i)
  {
    if !ParseVersion(tokens[0]).Version? then 0
    else
      assert !AllParse(tokens[1..]) by { AllParseFirst(tokens); }
      var i := FirstBad(tokens[1..]);
      AllParsePrefix(tokens, i);
      1 + i
  }

  lemma AllParseFirst(tokens: seq<string>)
    requires tokens != [] && ParseVersion(tokens[0]).Version?
    ensures AllParse(tokens) <==> AllParse(tokens[1..])
  {
    if AllParse(tokens[1..]) {
      forall i | 0 <= i < |tokens| ensures ParseVersion(tokens[i]).Version? {
        if i > 0 {
          assert tokens[i] == tokens[1..][i - 1];
        }
      }
    }
  }

  lemma AllParsePrefix(tokens: seq<string>, i: nat)
    requires tokens != [] && ParseVersion(tokens[0]).Version? && i < |tokens[1..]| && AllParse(tokens[1..][..i])
    ensures AllParse(tokens[..i + 1])
  {
    assert tokens[..i + 1][1..] == tokens[1..][..i];
    AllParseFirst(tokens[..i + 1]);
  }

  /** What the tokens of a list stand for. */
  function ListOfTokens(tokens: seq<string>): ParsedList {
    if !AllParse(tokens) then BadToken(tokens[FirstBad(tokens)])
    else if tokens == [] then EmptyList
    else Versions(Firsts(VersionsOf(tokens)))
  }

  lemma BadTokenIsFirst(tokens: seq<string>)
    requires ListOfTokens(tokens).BadToken?
    ensures NamesFirstBad(tokens, ListOfTokens(tokens).token)
  {
    assert BadFirst(tokens, FirstBad(tokens));
  }

  /** The list that a comma-separated text stands for. */
  function ListOf(raw: Option<string>): ParsedList {
    if raw.None? || Strip(raw.value) == [] then Default else ListOfTokens(Tokens(Split(raw.value, ',')))
  }

  lemma {:induction false} FirstsHold(s: seq<string>, v: string)
    ensures v in Firsts(s) <==> v in s
  {
    if s != [] {
      var n := |s| - 1;
      FirstsHold(s[..n], v);
      FirstsHold(s[..n], s[n]);
      assert s == s[..n] + [s[n]];
    }
  }

  lemma TokensSnoc(front: seq<string>, v: string)
    ensures Tokens(front + [v]) == Tokens(front) + if Strip(v) == [] then [] else [Strip(v)]
  {
    assert (front + [v])[..|front|] == front;
  }

  lemma TokensNext(parts: seq<string>, i: nat)
    requires i < |parts|
    ensures Tokens(parts[..i + 1]) == Tokens(parts[..i]) + if Strip(parts[i]) == [] then [] else [Strip(parts[i])]
  {
    TokensSnoc(parts[..i], parts[i]);
    assert parts[..i + 1] == parts[..i] + [parts[i]];
  }

  lemma VersionsNext(tokens: seq<string>, token: string)
    requires AllParse(tokens) && ParseVersion(token).Version?
    ensures AllParse(tokens + [token])
    ensures var v := ParseVersion(token).text;
            VersionsOf(tokens + [token]) == VersionsOf(tokens) + [v] &&
            Firsts(VersionsOf(tokens) + [v]) ==
            if v in Firsts(VersionsOf(tokens)) then Firsts(VersionsOf(tokens)) else Firsts(VersionsOf(tokens)) + [v]
  {
    var v := ParseVersion(token).text;
    assert VersionsOf(tokens + [token]) == VersionsOf(tokens) + [v];
    assert (VersionsOf(tokens) + [v])[..|tokens|] == VersionsOf(tokens);
  }

  lemma {:induction false} LaterTokens(parts: seq<string>, i: nat)
    requires i <= |parts|
    ensures Tokens(parts[..i]) <= Tokens(parts)
    decreases |parts| - i
  {
    if i < |parts| {
      TokensNext(parts, i);
      LaterTokens(parts, i + 1);
    } else {
      assert parts[..i] == parts;
    }
  }

  /** The distinct versions of the first parts. */
  ghost predicate Holds(parts: seq<string>, i: nat, versions: seq<string>) {
    i <= |parts| && AllParse(Tokens(parts[..i])) && versions == Firsts(VersionsOf(Tokens(parts[..i])))
  }

  lemma BlankPart(parts: seq<string>, i: nat, versions: seq<string>)
    requires i < |parts| && Holds(parts, i, versions) && Strip(parts[i]) == []
    ensures Holds(parts, i + 1, versions) && Tokens(parts[..i + 1]) == Tokens(parts[..i])
  {
    TokensNext(parts, i);
  }

  lemma GoodPart(parts: seq<string>, i: nat, versions: seq<string>)
    requires i < |parts| && Holds(parts, i, versions) && Strip(parts[i]) != []
    requires ParseVersion(Strip(parts[i])).Version?
    ensures var v := ParseVersion(Strip(parts[i])).text;
            Holds(parts, i + 1, if v in versions then versions else versions + [v])
    ensures Tokens(parts[..i + 1]) != []
  {
    TokensNext(parts, i);
    VersionsNext(Tokens(parts[..i]), Strip(parts[i]));
  }

  lemma AllParseAt(tokens: seq<string>, n: nat, i: nat)
    requires i < n <= |tokens| && AllParse(tokens[..n])
    ensures ParseVersion(tokens[i]).Version?
  {
    assert tokens[..n][i] == tokens[i];
  }

  lemma BadAt(tokens: seq<string>, i: nat)
    requires BadFirst(tokens, i)
    ensures !AllParse(tokens) && FirstBad(tokens) == i
  {
    if FirstBad(tokens) < i {
      AllParseAt(tokens, i, FirstBad(tokens));
    } else if i < FirstBad(tokens) {
      AllParseAt(tokens, FirstBad(tokens), i);
    }
  }

  lemma BadPart(parts: seq<string>, i: nat, versions: seq<string>)
    requires i < |parts| && Holds(parts, i, versions)
    requires Strip(parts[i]) != [] && !ParseVersion(Strip(parts[i])).Version?
    ensures ListOfTokens(Tokens(parts)) == BadToken(Strip(parts[i]))
  {
    var n := |Tokens(parts[..i])|;
    TokensNext(parts, i);
    LaterTokens(parts, i + 1);
    assert Tokens(parts)[..n] == Tokens(parts[..i + 1])[..n] == Tokens(parts[..i]);
    assert Tokens(parts)[n] == Strip(parts[i]);
    BadAt(Tokens(parts), n);
  }

  /** `parse_update_from_versions`. */
  method ParseUpdateFromVersions(raw: Option<string>) returns (r: ParsedList)
    ensures r == ListOf(raw)
    ensures r.BadToken? ==> raw.Some? && NamesFirstBad(Tokens(Split(raw.value, ',')), r.token)
  {
    if raw.None? || Strip(raw.value) == [] {
      return Default;
    }
    var parts := Split(raw.value, ',');
    r := ParseParts(parts);
    if r.BadToken? {
      BadTokenIsFirst(Tokens(parts));
    }
  }

  /** The loop over the comma-separated parts. */
  method ParseParts(parts: seq<string>) returns (r: ParsedList)
    ensures r == ListOfTokens(Tokens(parts))
  {
    var versions: seq<string> := [];
    var seen: set<string> := {};
    for i := 0 to |parts|
      invariant Holds(parts, i, versions)
      invariant forall v :: v in seen <==> v in versions
      invariant versions == [] <==> Tokens(parts[..i]) == []
    {
      var token := Strip(parts[i]);
      if token == [] {
        BlankPart(parts, i, versions);
        continue;
      }
      var ver := ParseVersion(token);
      if !ver.Version? {
        BadPart(parts, i, versions);
        return BadToken(token);
      }
      GoodPart(parts, i, versions);
      if ver.text in seen {
        continue;
      }
      seen := seen + {ver.text};
      versions := versions + [ver.text];
    }
    assert parts[..|parts|] == parts;
    if versions == [] {
      return EmptyList;
    }
    return Versions(versions);
  }

  /** Position of the first occurrence. */
  function FirstIndex(s: seq<string>, v: string): (i: nat)
    requires v in s
    ensures i < |s| && s[i] == v && v !in s[..i]
  {
    if s[0] == v then 0
    else
      assert s == [s[0]] + s[1..];
      1 + FirstIndex(s[1..], v)
  }

  /** The first occurrence of `a` comes before that of `b`. */
  ghost predicate Before(s: seq<string>, a: string, b: string) {
    a in s && b in s && FirstIndex(s, a) < FirstIndex(s, b)
  }

  lemma {:induction false} FirstsInOrder(s: seq<string>)
    ensures NoDup(Firsts(s))
    ensures forall i, j :: 0 <= i < j < |Firsts(s)| ==> Before(s, Firsts(s)[i], Firsts(s)[j])
  {
    if s != [] {
      var n := |s| - 1;
      var front := Firsts(s[..n]);
      FirstsInOrder(s[..n]);
      FirstsHold(s[..n], s[n]);
      forall i, j | 0 <= i < j < |Firsts(s)|
        ensures Firsts(s)[i] != Firsts(s)[j]
        ensures Before(s, Firsts(s)[i], Firsts(s)[j])
      {
        var a, b := Firsts(s)[i], Firsts(s)[j];
        assert a == front[i];
        FirstsHold(s[..n], a);
        SameFirstIndex(s, n, a);
        if j < |front| {
          assert Before(s[..n], front[i], front[j]);
          SameFirstIndex(s, n, b);
        } else {
          assert b == s[n] && b !in s[..n];
        }
      }
    }
  }

  lemma SameFirstIndex(s: seq<string>, n: nat, v: string)
    requires n <= |s| && v in s[..n]
    ensures v in s && FirstIndex(s, v) == FirstIndex(s[..n], v)
  {
    var i, j := FirstIndex(s[..n], v), FirstIndex(s, v);
    assert s[i] == v;
    assert forall k :: 0 <= k < i ==> s[..n][..i][k] == s[k];
    assert forall k :: 0 <= k < j ==> s[..j][k] == s[k];
  }

  /** A version this parser returns: normal, trimmed, of the right shape. */
  ghost predicate Canonical(v: string) {
    Normalize(v) == v && Strip(v) == v && v != [] && LooksLikeVersion(v)
  }

  lemma ParsedIsCanonical(token: string)
    requires ParseVersion(token).Version?
    ensures Canonical(ParseVersion(token).text)
    ensures Canonical(token) ==> ParseVersion(token).text == token
  {
    NormalizeIdempotent(Strip(token));
    NormalizeTrims(Strip(token));
    StripTrims(Normalize(Strip(token)));
  }

  lemma StripKeepsOut(s: string, c: char)
    requires c !in s
    ensures c !in Strip(s) && c !in Normalize(s)
  {
    StripTrims(s);
    NormalizeTrims(s);
  }

  lemma {:induction false} TokensFree(parts: seq<string>)
    requires Free(parts, ',')
    ensures Free(Tokens(parts), ',')
  {
    if parts != [] {
      var n := |parts| - 1;
      TokensFree(parts[..n]);
      StripKeepsOut(parts[n], ',');
    }
  }

  lemma TokenVersions(tokens: seq<string>, v: string)
    requires AllParse(tokens) && Free(tokens, ',') && v in VersionsOf(tokens)
    ensures Canonical(v) && ',' !in v
  {
    var all := VersionsOf(tokens);
    var k :| 0 <= k < |all| && all[k] == v;
    ParsedIsCanonical(tokens[k]);
    StripKeepsOut(tokens[k], ',');
    StripKeepsOut(Strip(tokens[k]), ',');
  }

  /**
   The list holds distinct canonical versions without commas, in the order of
   their first occurrence among the parsed tokens.
   */
  lemma ListIsCanonical(raw: string)
    requires ListOf(Some(raw)).Versions?
    ensures var vs := ListOf(Some(raw)).list;
            var all := VersionsOf(Tokens(Split(raw, ',')));
            && vs != [] && NoDup(vs) && Free(vs, ',')
            && (forall i :: 0 <= i < |vs| ==> Canonical(vs[i]))
            && (forall v :: v in vs <==> v in all)
            && (forall i, j :: 0 <= i < j < |vs| ==> Before(all, vs[i], vs[j]))
  {
    var tokens := Tokens(Split(raw, ','));
    var all := VersionsOf(tokens);
    var vs := Firsts(all);
    FirstsInOrder(all);
    SplitIsFree(raw, ',');
    TokensFree(Split(raw, ','));
    forall v ensures v in vs <==> v in all {
      FirstsHold(all, v);
    }
    assert all[0] in all;
    forall i | 0 <= i < |vs| ensures Canonical(vs[i]) && ',' !in vs[i] {
      assert vs[i] in all;
      TokenVersions(tokens, vs[i]);
    }
  }

  /** A token that stripping leaves alone. */
  ghost predicate Keeps(v: string) {
    Strip(v) == v && v != []
  }

  lemma OneToken(front: seq<string>, v: string)
    requires Keeps(v) && Tokens(front) == front
    ensures Tokens(front + [v]) == front + [v]
  {
    TokensSnoc(front, v);
  }

  lemma {:induction false} TokensOfTrimmed(vs: seq<string>, i: nat)
    requires i <= |vs| && forall v :: v in vs ==> Keeps(v)
    ensures Tokens(vs[..i]) == vs[..i]
  {
    if i > 0 {
      TokensOfTrimmed(vs, i - 1);
      OneToken(vs[..i - 1], vs[i - 1]);
      assert vs[..i] == vs[..i - 1] + [vs[i - 1]];
    }
  }

  lemma CanonicalTokens(vs: seq<string>)
    requires forall i :: 0 <= i < |vs| ==> Canonical(vs[i])
    ensures Tokens(vs) == vs && AllParse(vs) && VersionsOf(vs) == vs
  {
    forall i | 0 <= i < |vs| ensures ParseVersion(vs[i]) == Version(vs[i]) {
      assert Canonical(vs[i]);
    }
    forall v | v in vs ensures Keeps(v) {
      assert Canonical(v);
    }
    TokensOfTrimmed(vs, |vs|);
    assert vs[..|vs|] == vs;
  }

  lemma {:induction false} FirstsOfDistinct(s: seq<string>)
    requires NoDup(s)
    ensures Firsts(s) == s
  {
    if s != [] {
      var n := |s| - 1;
      FirstsOfDistinct(s[..n]);
      assert s == s[..n] + [s[n]];
    }
  }

  lemma JoinStartsWithFirst(vs: seq<string>)
    requires vs != [] && vs[0] != [] && !IsSpace(vs[0][0])
    ensures Strip(Join(vs, ',')) != []
  {
    var s := Join(vs, ',');
    assert s[0] == vs[0][0];
    assert DropLeading(s) == s;
    TrailingKeepsFirst(s);
  }

  lemma {:induction false} TrailingKeepsFirst(s: string)
    requires s != [] && !IsSpace(s[0])
    ensures DropTrailing(s) != []
  {
    if IsSpace(s[|s| - 1]) {
      TrailingKeepsFirst(s[..|s| - 1]);
    }
  }

  lemma TokensOfCanonical(vs: seq<string>)
    requires vs != [] && NoDup(vs) && forall i :: 0 <= i < |vs| ==> Canonical(vs[i])
    ensures ListOfTokens(Tokens(vs)) == Versions(vs)
  {
    CanonicalTokens(vs);
    FirstsOfDistinct(vs);
  }

  lemma JoinNotBlank(vs: seq<string>)
    requires vs != [] && Canonical(vs[0])
    ensures Strip(Join(vs, ',')) != []
  {
    StripTrims(vs[0]);
    JoinStartsWithFirst(vs);
  }

  lemma ListOfJoined(vs: seq<string>)
    requires vs != [] && NoDup(vs) && Free(vs, ',') && forall i :: 0 <= i < |vs| ==> Canonical(vs[i])
    ensures ListOf(Some(Join(vs, ','))) == Versions(vs)
  {
    SplitJoin(vs, ',');
    TokensOfCanonical(vs);
    JoinNotBlank(vs);
  }

  /** Parsing the comma-joined output returns it unchanged. */
  lemma ListRoundTrip(raw: string)
    requires ListOf(Some(raw)).Versions?
    ensures ListOf(Some(raw)).list != []
    ensures ListOf(Some(Join(ListOf(Some(raw)).list, ','))) == ListOf(Some(raw))
  {
    ListIsCanonical(raw);
    ListOfJoined(ListOf(Some(raw)).list);
  }
}
