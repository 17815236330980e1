/**
 Character and string helpers standing in for the parts of Go's `strings`
 package that the cleanup tool uses: `TrimSpace`, `ToLower`, `ToUpper` and
 `LastIndex`, and `IndexOf`, which only serves to parse a delete path back.
 Strings are sequences of Unicode scalar values (runes).
 */
module Text {

  /** Go's `unicode.IsSpace`: the Latin-1 spaces plus the Unicode White_Space set. */
  predicate IsSpace(c: char) {
    || c == ' ' || c == '\t' || c == '\n' || c == '\U{B}' || c == '\U{C}' || c == '\r'
    || c == '\U{85}' || c == '\U{A0}' || c == '\U{1680}'
    || ('\U{2000}' <= c <= '\U{200A}')
    || c == '\U{2028}' || c == '\U{2029}' || c == '\U{202F}' || c == '\U{205F}' || c == '\U{3000}'
  }

  predicate AllSpace(s: string) {
    forall i | 0 <= i < |s| :: IsSpace(s[i])
  }

  /** Number of white-space characters at the front of `s`. */
  function LeadingSpaces(s: string): (k: nat)
    ensures k <= |s|
  {
    if |s| == 0 || !IsSpace(s[0]) then 0 else 1 + LeadingSpaces(s[1..])
  }

  /** The leading run is all white space and stops at a non-space. */
  lemma {:induction false} LeadingSpacesSpec(s: string)
    ensures var k := LeadingSpaces(s);
            && (forall i | 0 <= i < k :: IsSpace(s[i]))
            && (k < |s| ==> !IsSpace(s[k]))
  {
    if |s| > 0 && IsSpace(s[0]) {
      LeadingSpacesSpec(s[1..]);
      var k := LeadingSpaces(s);
      forall i | 1 <= i < k
        ensures IsSpace(s[i])
      {
        assert s[i] == s[1..][i - 1];
      }
      if k < |s| {
        assert s[k] == s[1..][k - 1];
      }
    }
  }

  /** Number of white-space characters at the back of `s`. */
  function TrailingSpaces(s: string): (k: nat)
    ensures k <= |s|
  {
    if |s| == 0 || !IsSpace(s[|s| - 1]) then 0 else 1 + TrailingSpaces(s[..|s| - 1])
  }

  /** The trailing run is all white space and stops at a non-space. */
  lemma {:induction false} TrailingSpacesSpec(s: string)
    ensures var k := TrailingSpaces(s);
            && (forall i | |s| - k <= i < |s| :: IsSpace(s[i]))
            && (k < |s| ==> !IsSpace(s[|s| - k - 1]))
  {
    if |s| > 0 && IsSpace(s[|s| - 1]) {
      var init := s[..|s| - 1];
      TrailingSpacesSpec(init);
      var k := TrailingSpaces(s);
      forall i | |s| - k <= i < |s| - 1
        ensures IsSpace(s[i])
      {
        assert s[i] == init[i];
      }
      if k < |s| {
        assert s[|s| - k - 1] == init[|init| - (k - 1) - 1];
      }
    }
  }

  /** `s` is `r` with white space only around it, `r` starting at index `i`. */
  predicate PaddedAt(s: string, r: string, i: nat) {
    && i + |r| <= |s|
    && s[i..i + |r|] == r
    && AllSpace(s[..i])
    && AllSpace(s[i + |r|..])
  }

  /** Go's `strings.TrimSpace`: drops leading and trailing white space. */
  function TrimSpace(s: string): string {
    var t := s[LeadingSpaces(s)..];
    t[..|t| - TrailingSpaces(t)]
  }

  /** The trimmed string neither starts nor ends with white space, and only
      white space was removed around it. */
  lemma TrimSpaceSpec(s: string)
    ensures var r := TrimSpace(s);
            && (|r| > 0 ==> !IsSpace(r[0]) && !IsSpace(r[|r| - 1]))
            && PaddedAt(s, r, LeadingSpaces(s))
  {
    TrimSpaceEnds(s);
    TrimSpacePadded(s);
  }

  lemma TrimSpaceEnds(s: string)
    ensures var r := TrimSpace(s);
            |r| > 0 ==> !IsSpace(r[0]) && !IsSpace(r[|r| - 1])
  {
    var a := LeadingSpaces(s);
    var t := s[a..];
    var b := TrailingSpaces(t);
    var r := TrimSpace(s);
    LeadingSpacesSpec(s);
    TrailingSpacesSpec(t);
    if |r| > 0 {
      assert r[0] == s[a];
      assert r[|r| - 1] == t[|t| - b - 1];
    }
  }

  lemma TrimSpacePadded(s: string)
    ensures PaddedAt(s, TrimSpace(s), LeadingSpaces(s))
  {
    var a := LeadingSpaces(s);
    var t := s[a..];
    var b := TrailingSpaces(t);
    var r := TrimSpace(s);
    LeadingSpacesSpec(s);
    TrailingSpacesSpec(t);
    assert s[a..a + |r|] == r;
    assert forall i | 0 <= i < |s[..a]| :: s[..a][i] == s[i];
    var post := s[a + |r|..];
    assert forall i | 0 <= i < |post| :: post[i] == t[|t| - b + i];
  }

  /** Trimming a word that neither starts nor ends with white space, whatever
      white space surrounds it, gives the word back. */
  lemma TrimSpaceOfPadded(pre: string, w: string, post: string)
    requires AllSpace(pre) && AllSpace(post)
    requires |w| > 0 && !IsSpace(w[0]) && !IsSpace(w[|w| - 1])
    ensures TrimSpace(pre + w + post) == w
  {
    var s := pre + w + post;
    var a := LeadingSpaces(s);
    LeadingSpacesSpec(s);
    assert s[|pre|] == w[0];
    assert a == |pre|;
    var t := s[a..];
    assert t == w + post;
    var b := TrailingSpaces(t);
    TrailingSpacesSpec(t);
    assert t[|w| - 1] == w[|w| - 1];
    assert b == |post|;
    assert t[..|t| - b] == w;
  }

  /** Go's `unicode.ToLower` restricted to ASCII letters. */
  function LowerChar(c: char): char {
    if 'A' <= c <= 'Z' then (c as int + 32) as char else c
  }

  /** U+017F LATIN SMALL LETTER LONG S, whose upper case is the ASCII 'S'. */
  const LongS: char := '\U{17F}'

  /** U+0131 LATIN SMALL LETTER DOTLESS I, whose upper case is the ASCII 'I'. */
  const DotlessI: char := '\U{131}'

  /** Go's `unicode.ToUpper` for every rune whose upper case is an ASCII letter. */
  function UpperChar(c: char): char {
    if 'a' <= c <= 'z' then (c as int - 32) as char
    else if c == LongS then 'S'
    else if c == DotlessI then 'I'
    else c
  }

  function ToLower(s: string): string {
    seq(|s|, i requires 0 <= i < |s| => LowerChar(s[i]))
  }

  function ToUpper(s: string): string {
    seq(|s|, i requires 0 <= i < |s| => UpperChar(s[i]))
  }

  /** Go's `strings.LastIndex` for a one-character needle: the index of the
      last `c` in `s`, or -1 when `s` has none. */
  function LastIndex(s: string, c: char): (r: int)
    ensures -1 <= r < |s|
  {
    if |s| == 0 then -1
    else if s[|s| - 1] == c then |s| - 1
    else LastIndex(s[..|s| - 1], c)
  }

  /** The index found holds `c`, and no `c` comes after it. */
  lemma {:induction false} LastIndexSpec(s: string, c: char)
    ensures var r := LastIndex(s, c);
            && (r >= 0 ==> s[r] == c)
            && (forall j | r < j < |s| :: s[j] != c)
  {
    if |s| > 0 && s[|s| - 1] != c {
      var init := s[..|s| - 1];
      LastIndexSpec(init, c);
      assert forall j | 0 <= j < |init| :: init[j] == s[j];
    }
  }

  /** The first index of `c` in `s`, or -1; splits a delete path when it is
      parsed back. */
  function IndexOf(s: string, c: char): (r: int)
    ensures -1 <= r < |s|
    ensures r >= 0 ==> s[r] == c
    ensures forall j | 0 <= j < |s| && (r < 0 || j < r) :: s[j] != c
  {
    if |s| == 0 then -1
    else if s[0] == c then 0
    else
      var k := IndexOf(s[1..], c);
      if k < 0 then -1 else k + 1
  }
}
