/** The string operations the classifiers and parsers use, on ASCII text. */
module Text {
  function LowerChar(c: char): char {
    if 'A' <= c <= 'Z' then (c as int + 32) as char else c
  }

  lemma CapitalAt(place: int)
    requires 0 <= place < 26
    ensures "ABCDEFGHIJKLMNOPQRSTUVWXYZ"[place] as int == 'A' as int + place
  {
  }

  lemma SmallAt(place: int)
    requires 0 <= place < 26
    ensures "abcdefghijklmnopqrstuvwxyz"[place] as int == 'a' as int + place
  {
  }

  /** Lower case of a letter is the letter at the same place of the other alphabet; nothing else changes. */
  lemma LowerLetters(c: char, place: int)
    ensures 0 <= place < 26 ==>
              LowerChar("ABCDEFGHIJKLMNOPQRSTUVWXYZ"[place]) == "abcdefghijklmnopqrstuvwxyz"[place] &&
              LowerChar("abcdefghijklmnopqrstuvwxyz"[place]) == "abcdefghijklmnopqrstuvwxyz"[place]
    ensures c !in "ABCDEFGHIJKLMNOPQRSTUVWXYZ" ==> LowerChar(c) == c
  {
    if 0 <= place < 26 {
      CapitalAt(place);
      SmallAt(place);
    }
    if 'A' <= c <= 'Z' {
      CapitalAt(c as int - 'A' as int);
    }
  }

  /** `s.lower()`. */
  function Lower(s: string): (r: string)
    ensures |r| == |s| && forall i :: 0 <= i < |s| ==> r[i] == LowerChar(s[i])
  {
    seq(|s|, i requires 0 <= i < |s| => LowerChar(s[i]))
  }

  predicate OccursAt(s: string, needle: string, i: int) {
    0 <= i && i + |needle| <= |s| && s[i..i + |needle|] == needle
  }

  /** `needle in s`. */
  predicate Contains(s: string, needle: string) {
    exists i :: 0 <= i <= |s| && OccursAt(s, needle, i)
  }

  predicate IsSpace(c: char) {
    c == ' ' || '\t' <= c <= '\r' || 0x1C as char <= c <= 0x1F as char
  }

  predicate IsDigit(c: char) {
    '0' <= c <= '9'
  }

  /** The white space and the digits of ASCII. */
  lemma CharactersAre(c: char)
    ensures IsSpace(c) <==> c in " \t\n\U{0b}\U{0c}\r\U{1c}\U{1d}\U{1e}\U{1f}"
    ensures IsDigit(c) <==> c in "0123456789"
  {
    var spaces, digits := " \t\n\U{0b}\U{0c}\r\U{1c}\U{1d}\U{1e}\U{1f}", "0123456789";
    if '\t' <= c <= '\r' {
      assert spaces[c as int - 8] == c;
    } else if 0x1C as char <= c <= 0x1F as char {
      assert spaces[c as int - 22] == c;
    } else if c == ' ' {
      assert spaces[0] == c;
    } else if IsDigit(c) {
      assert digits[c as int - '0' as int] == c;
    }
  }

  function DropLeading(s: string): (r: string) {
    if s != [] && IsSpace(s[0]) then DropLeading(s[1..]) else s
  }

  function DropTrailing(s: string): (r: string) {
    if s != [] && IsSpace(s[|s| - 1]) then DropTrailing(s[..|s| - 1]) else s
  }

  /** `s.strip()`. */
  function Strip(s: string): (r: string) {
    DropTrailing(DropLeading(s))
  }

  ghost predicate Trimmed(s: string) {
    s == [] || (!IsSpace(s[0]) && !IsSpace(s[|s| - 1]))
  }

  lemma {:induction false} DropLeadingTrims(s: string)
    ensures var r := DropLeading(s); r == [] || !IsSpace(r[0])
    ensures |DropLeading(s)| <= |s| && DropLeading(s) == s[|s| - |DropLeading(s)|..]
    ensures forall k :: 0 <= k < |s| - |DropLeading(s)| ==> IsSpace(s[k])
  {
    if s != [] && IsSpace(s[0]) {
      DropLeadingTrims(s[1..]);
      forall k | 0 <= k < |s| - |DropLeading(s)| ensures IsSpace(s[k]) {
        if k > 0 { assert IsSpace(s[1..][k - 1]); }
      }
    }
  }

  lemma {:induction false} DropTrailingTrims(s: string)
    ensures DropTrailing(s) <= s
    ensures var r := DropTrailing(s); r == [] || !IsSpace(r[|r| - 1])
    ensures forall k :: |DropTrailing(s)| <= k < |s| ==> IsSpace(s[k])
  {
    if s != [] && IsSpace(s[|s| - 1]) {
      DropTrailingTrims(s[..|s| - 1]);
    }
  }

  /** `r` is `s` without white space at its ends, and nothing else is missing. */
  ghost predicate IsStripOf(r: string, s: string, i: int) {
    && 0 <= i && i + |r| <= |s| && r == s[i..i + |r|]
    && forall k :: 0 <= k < i || i + |r| <= k < |s| ==> IsSpace(s[k])
  }

  lemma StripTrims(s: string)
    ensures Trimmed(Strip(s))
    ensures Trimmed(s) ==> Strip(s) == s
    ensures exists i :: IsStripOf(Strip(s), s, i)
  {
    DropLeadingTrims(s);
    DropTrailingTrims(DropLeading(s));
    var i := |s| - |DropLeading(s)|;
    var lead := DropLeading(s);
    forall k | i + |Strip(s)| <= k < |s| ensures IsSpace(s[k]) {
      assert IsSpace(lead[k - i]);
    }
    assert IsStripOf(Strip(s), s, i);
  }
}
