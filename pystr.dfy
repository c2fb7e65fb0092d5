/** The parts of Python's `str` that the core relies on: `isspace`, `strip` and `lower`. */
module PyStr {

  /** The characters for which Python's `str.isspace()` holds; `str.strip()` with no
      argument removes exactly these from both ends. None of them is a letter or a
      digit. */
  predicate IsWhitespace(ch: char)
    ensures IsWhitespace(ch) ==> !('0' <= ch <= '9') && !('a' <= ch <= 'z') && !('A' <= ch <= 'Z')
  {
    || ('\t' <= ch <= '\r')
    || ('\U{1C}' <= ch <= '\U{1F}')
    || ch == ' '
    || ch == '\U{85}'
    || ch == '\U{A0}'
    || ch == '\U{1680}'
    || ('\U{2000}' <= ch <= '\U{200A}')
    || ch == '\U{2028}'
    || ch == '\U{2029}'
    || ch == '\U{202F}'
    || ch == '\U{205F}'
    || ch == '\U{3000}'
  }

  predicate IsBlank(s: string)
  {
    forall i :: 0 <= i < |s| ==> IsWhitespace(s[i])
  }

  /** Whitespace followed by whitespace is whitespace. */
  lemma BlankConcat(a: string, b: string)
    requires IsBlank(a) && IsBlank(b)
    ensures IsBlank(a + b)
  {
    forall i | 0 <= i < |a + b|
      ensures IsWhitespace((a + b)[i])
    {
      if i < |a| {
        assert (a + b)[i] == a[i];
      } else {
        assert (a + b)[i] == b[i - |a|];
      }
    }
  }

  /** `s.lstrip()`: the suffix of `s` that starts at its first non-whitespace character. */
  function StripLeading(s: string): (r: string)
    ensures |r| <= |s| && r == s[|s| - |r|..]
    ensures IsBlank(s[..|s| - |r|])
    ensures r != [] ==> !IsWhitespace(r[0])
  {
    if s != [] && IsWhitespace(s[0]) then
      var t := s[1..];
      var r := StripLeading(t);
      assert t[|t| - |r|..] == s[|s| - |r|..];
      assert s[..|s| - |r|] == [s[0]] + t[..|t| - |r|];
      assert IsBlank([s[0]]) by { assert [s[0]][0] == s[0]; }
      BlankConcat([s[0]], t[..|t| - |r|]);
      r
    else
      assert IsBlank(s[..0]);
      s
  }

  /** `s.rstrip()`: the prefix of `s` that ends at its last non-whitespace character. */
  function StripTrailing(s: string): (r: string)
    ensures |r| <= |s| && r == s[..|r|]
    ensures IsBlank(s[|r|..])
    ensures r != [] ==> !IsWhitespace(r[|r| - 1])
  {
    if s != [] && IsWhitespace(s[|s| - 1]) then
      var t := s[..|s| - 1];
      var r := StripTrailing(t);
      assert t[..|r|] == s[..|r|];
      assert s[|r|..] == t[|r|..] + [s[|s| - 1]];
      assert IsBlank([s[|s| - 1]]) by { assert [s[|s| - 1]][0] == s[|s| - 1]; }
      BlankConcat(t[|r|..], [s[|s| - 1]]);
      r
    else
      assert IsBlank(s[|s|..]);
      s
  }

  /** `s.strip()`: StripTrailing of what StripLeading keeps, so no longer than either. */
  function Strip(s: string): (r: string)
    ensures |r| <= |StripLeading(s)| <= |s|
  {
    var l := StripLeading(s);
    var r := StripTrailing(l);
    assert |r| <= |l| <= |s|;
    r
  }

  /** A non-empty `s.strip()` starts and ends with a non-whitespace character. */
  lemma StripEnds(s: string)
    ensures Strip(s) != [] ==> !IsWhitespace(Strip(s)[0]) && !IsWhitespace(Strip(s)[|Strip(s)| - 1])
  {
    var l := StripLeading(s);
    var r := StripTrailing(l);
    assert Strip(s) == r;
    if r != [] {
      assert r[0] == l[0];
    }
  }

  /** The string has a character other than whitespace; by StripEmptyIffBlank this is
      the truth value of `s.strip()`. */
  predicate HasContent(s: string)
  {
    !IsBlank(s)
  }

  /** `s.strip()` is empty exactly when every character of `s` is whitespace. */
  lemma StripEmptyIffBlank(s: string)
    ensures Strip(s) == "" <==> IsBlank(s)
    ensures Strip(s) != "" <==> HasContent(s)
  {
    var l := StripLeading(s);
    assert Strip(s) == "" ==> IsBlank(l[0..]);
    assert l != [] ==> l[0] == s[|s| - |l|];
    assert s == s[..|s| - |l|] + l;
  }

  /** `bool(s.strip())`. */
  method StripIsNonEmpty(s: string) returns (b: bool)
    ensures b == HasContent(s)
  {
    StripEmptyIffBlank(s);
    b := Strip(s) != "";
  }

  /** Python's `str.lower()` on one character, for the ASCII letters. */
  function LowerChar(ch: char): (r: char)
    ensures !('A' <= r <= 'Z')
    ensures 'a' <= r <= 'z' ==> r == ch || r as int == ch as int + 32
  {
    if 'A' <= ch <= 'Z' then (ch as int + 32) as char else ch
  }

  /** `s.lower()`, character by character. */
  function Lower(s: string): (r: string)
    ensures |r| == |s|
    ensures forall i :: 0 <= i < |s| ==> r[i] == LowerChar(s[i])
  {
    seq(|s|, i requires 0 <= i < |s| => LowerChar(s[i]))
  }

  predicate IsLower(s: string)
  {
    forall i :: 0 <= i < |s| ==> !('A' <= s[i] <= 'Z')
  }

  /** A string without upper-case letters is its own lower-case form. */
  lemma LowerOfLower(s: string)
    requires IsLower(s)
    ensures Lower(s) == s
  {
  }
}
