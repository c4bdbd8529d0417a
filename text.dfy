/**
 * String operations used by the master-data cleaning step: Python's
 * `str.strip()`, `str.upper()` and the column-name rewrite
 * `.str.strip().str.replace(' ', '_')`.
 */
module Text {

  /** Python's `str.isspace` on a single character, restricted to Latin-1. */
  predicate IsWhitespace(c: char)
    ensures IsWhitespace(c) ==> c <= '\U{00A0}'
    ensures IsWhitespace(c) ==> !('!' <= c <= '~')
  {
    || c == ' ' || c == '\t' || c == '\n' || c == '\r'
    || c == '\U{000B}' || c == '\U{000C}'
    || ('\U{001C}' <= c <= '\U{001F}')
    || c == '\U{0085}' || c == '\U{00A0}'
  }

  /** Every character of `s` at a position in `[lo, hi)` is whitespace. */
  predicate WhitespaceBetween(s: string, lo: int, hi: int) {
    forall k :: lo <= k < hi && 0 <= k < |s| ==> IsWhitespace(s[k])
  }

  /** Neither the first nor the last character is whitespace. */
  predicate Trimmed(s: string) {
    |s| > 0 ==> !IsWhitespace(s[0]) && !IsWhitespace(s[|s| - 1])
  }

  /** `r` is what is left of `s` once `s[..i]` and the rest after `r`, both whitespace, are cut off. */
  predicate StripsTo(s: string, i: int, r: string) {
    && 0 <= i && i + |r| <= |s|
    && s[i..i + |r|] == r
    && WhitespaceBetween(s, 0, i)
    && WhitespaceBetween(s, i + |r|, |s|)
  }

  /** Where `str.lstrip()` cuts: the first position from `i` on that is not whitespace. */
  function SkipStart(s: string, i: nat): (j: nat)
    requires i <= |s|
    ensures i <= j <= |s|
    ensures WhitespaceBetween(s, i, j)
    ensures j < |s| ==> !IsWhitespace(s[j])
    decreases |s| - i
  {
    if i == |s| || !IsWhitespace(s[i]) then i else SkipStart(s, i + 1)
  }

  /**
   * Where `str.rstrip()` cuts `s[lo..j]`: the end of the longest prefix that
   * does not end with whitespace.
   */
  function SkipEnd(s: string, lo: nat, j: nat): (e: nat)
    requires lo <= j <= |s|
    ensures lo <= e <= j
    ensures WhitespaceBetween(s, e, j)
    ensures e > lo ==> !IsWhitespace(s[e - 1])
    decreases j
  {
    if j == lo || !IsWhitespace(s[j - 1]) then j else SkipEnd(s, lo, j - 1)
  }

  /** `str.strip()`. */
  function Strip(s: string): (r: string)
    ensures Trimmed(r)
    ensures StripsTo(s, SkipStart(s, 0), r)
  {
    var i := SkipStart(s, 0);
    s[i..SkipEnd(s, i, |s|)]
  }

  /** One blank on each side of a trimmed string is stripped away. */
  lemma StripPadded(t: string)
    requires Trimmed(t) && t != []
    ensures Strip([' '] + t + [' ']) == t
  {
    var s := [' '] + t + [' '];
    assert SkipStart(s, 1) == 1;
    assert SkipStart(s, 0) == 1;
    assert SkipEnd(s, 1, |s| - 1) == |s| - 1;
    assert SkipEnd(s, 1, |s|) == |s| - 1;
    assert s[1..|s| - 1] == t;
  }

  /** A string without whitespace at its ends is left alone by `Strip`. */
  lemma StripTrimmed(s: string)
    requires Trimmed(s)
    ensures Strip(s) == s
  {
    assert SkipStart(s, 0) == 0;
    assert SkipEnd(s, 0, |s|) == |s|;
  }

  lemma StripIdempotent(s: string)
    ensures Strip(Strip(s)) == Strip(s)
  {
    StripTrimmed(Strip(s));
  }

  /** `str.replace(' ', '_')`. */
  function ReplaceSpaces(s: string): (r: string)
    ensures |r| == |s| && ' ' !in r
    ensures forall k :: 0 <= k < |s| && s[k] != ' ' ==> r[k] == s[k]
    ensures forall k :: 0 <= k < |s| && s[k] == ' ' ==> r[k] == '_'
  {
    seq(|s|, k requires 0 <= k < |s| => if s[k] == ' ' then '_' else s[k])
  }

  /** The column-name rewrite of the loader: strip, then spaces become underscores. */
  function NormalizeColumnName(s: string): (r: string)
    ensures ' ' !in r
    ensures Trimmed(r)
  {
    ReplaceSpaces(Strip(s))
  }

  lemma {:induction false} ReplaceSpacesIdempotent(s: string)
    ensures ReplaceSpaces(ReplaceSpaces(s)) == ReplaceSpaces(s)
  {
    var r := ReplaceSpaces(s);
    var rr := ReplaceSpaces(r);
    assert |rr| == |r|;
    forall k | 0 <= k < |r| ensures rr[k] == r[k] {
    }
  }

  /** A label without spaces and without whitespace at its ends is already normal. */
  lemma NormalizeColumnNameFixesNormal(s: string)
    requires ' ' !in s && Trimmed(s)
    ensures NormalizeColumnName(s) == s
  {
    StripTrimmed(s);
    var r := ReplaceSpaces(s);
    forall k | 0 <= k < |s| ensures r[k] == s[k] {
      assert s[k] in s;
    }
  }

  lemma NormalizeColumnNameIdempotent(s: string)
    ensures NormalizeColumnName(NormalizeColumnName(s)) == NormalizeColumnName(s)
  {
    var n := NormalizeColumnName(s);
    StripTrimmed(n);
    ReplaceSpacesIdempotent(Strip(s));
  }

  /** `str.upper()` on one character, for the ASCII letters. */
  function UpperChar(c: char): (u: char)
    ensures IsWhitespace(u) <==> IsWhitespace(c)
    ensures !('a' <= u <= 'z')
  {
    if 'a' <= c <= 'z' then (c as int - 32) as char else c
  }

  /** `str.upper()`. */
  function Upper(s: string): (r: string)
    ensures |r| == |s|
    ensures forall k :: 0 <= k < |s| ==> r[k] == UpperChar(s[k])
  {
    seq(|s|, k requires 0 <= k < |s| => UpperChar(s[k]))
  }

  /** Every character is already its own upper case. */
  predicate IsUpper(s: string) {
    forall k :: 0 <= k < |s| ==> UpperChar(s[k]) == s[k]
  }

  lemma UpperIsUpper(s: string)
    ensures IsUpper(Upper(s))
  {
    forall k | 0 <= k < |s| ensures UpperChar(Upper(s)[k]) == Upper(s)[k] {
      var c := s[k];
      if 'a' <= c <= 'z' {
        assert 'A' <= UpperChar(c) <= 'Z';
      }
    }
  }

  lemma UpperOfUpper(s: string)
    requires IsUpper(s)
    ensures Upper(s) == s
  {
  }

  /** The EmpID rewrite of the loader: `str(v).upper().strip()`. */
  function NormalizeEmpId(s: string): (r: string)
    ensures Trimmed(r)
    ensures IsUpper(r)
  {
    UpperIsUpper(s);
    StripKeepsUpper(Upper(s));
    Strip(Upper(s))
  }

  /** Stripping only cuts characters off, so an upper-case string stays upper case. */
  lemma StripKeepsUpper(u: string)
    requires IsUpper(u)
    ensures IsUpper(Strip(u))
  {
    var r := Strip(u);
    var i := SkipStart(u, 0);
    forall k | 0 <= k < |r| ensures UpperChar(r[k]) == r[k] {
      assert r[k] == u[i + k];
    }
  }

  lemma NormalizeEmpIdIdempotent(s: string)
    ensures NormalizeEmpId(NormalizeEmpId(s)) == NormalizeEmpId(s)
  {
    var r := NormalizeEmpId(s);
    UpperOfUpper(r);
    StripTrimmed(r);
  }

  /** An already-normal EmpID (upper case, trimmed) is a fixed point. */
  lemma NormalizeEmpIdFixesNormal(s: string)
    requires Trimmed(s) && IsUpper(s)
    ensures NormalizeEmpId(s) == s
  {
    UpperOfUpper(s);
    StripTrimmed(s);
  }
}
