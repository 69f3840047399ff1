/** Character-level facts the validators and the search rely on: what Rust's
    `char::is_whitespace` accepts, the UTF-8 byte length that `str::len` reports,
    ASCII lower-casing and substring search. */
module Text {

  /** Rust's `char::is_whitespace`: the Unicode White_Space property. */
  predicate IsWhitespace(c: char) {
    || ('\U{0009}' <= c <= '\U{000D}')
    || c == '\U{0020}' || c == '\U{0085}' || c == '\U{00A0}' || c == '\U{1680}'
    || ('\U{2000}' <= c <= '\U{200A}')
    || c == '\U{2028}' || c == '\U{2029}' || c == '\U{202F}' || c == '\U{205F}' || c == '\U{3000}'
  }

  /** Every character is whitespace (the reference meaning of `s.trim().is_empty()`,
      see `TrimEmptyIffBlank`). */
  predicate IsBlank(s: string) {
    forall i :: 0 <= i < |s| ==> IsWhitespace(s[i])
  }

  /** `str::trim_start`: drop leading whitespace. */
  function TrimStart(s: string): (r: string)
    ensures |r| <= |s| && r == s[|s| - |r|..]
  {
    if |s| > 0 && IsWhitespace(s[0]) then TrimStart(s[1..]) else s
  }

  /** `str::trim_end`: drop trailing whitespace. */
  function TrimEnd(s: string): (r: string)
    ensures |r| <= |s| && r == s[..|r|]
  {
    if |s| > 0 && IsWhitespace(s[|s| - 1]) then TrimEnd(s[..|s| - 1]) else s
  }

  /** `str::trim`: drop whitespace at both ends. */
  function Trim(s: string): string {
    TrimEnd(TrimStart(s))
  }

  /** Trimming the front leaves nothing exactly when the string is blank, and
      otherwise leaves a string that starts with a non-whitespace character. */
  lemma {:induction false} TrimStartBlank(s: string)
    ensures |TrimStart(s)| == 0 <==> IsBlank(s)
    ensures |TrimStart(s)| > 0 ==> !IsWhitespace(TrimStart(s)[0])
  {
    if |s| > 0 && IsWhitespace(s[0]) {
      TrimStartBlank(s[1..]);
      assert forall i :: 1 <= i < |s| ==> s[i] == s[1..][i - 1];
    }
  }

  /** Trimming the back leaves nothing exactly when the string is blank. */
  lemma {:induction false} TrimEndBlank(s: string)
    ensures |TrimEnd(s)| == 0 <==> IsBlank(s)
  {
    if |s| > 0 && IsWhitespace(s[|s| - 1]) {
      TrimEndBlank(s[..|s| - 1]);
      assert forall i :: 0 <= i < |s| - 1 ==> s[i] == s[..|s| - 1][i];
    }
  }

  /** `s.trim().is_empty()` holds exactly for blank strings. */
  lemma TrimEmptyIffBlank(s: string)
    ensures |Trim(s)| == 0 <==> IsBlank(s)
  {
    TrimStartBlank(s);
    TrimEndBlank(TrimStart(s));
  }

  /** Number of bytes UTF-8 spends on one scalar value. */
  function Utf8Width(c: char): (w: nat)
    ensures 1 <= w <= 4
    ensures w == 1 <==> (c as int) < 0x80
  {
    if (c as int) < 0x80 then 1
    else if (c as int) < 0x800 then 2
    else if (c as int) < 0x10000 then 3
    else 4
  }

  /** `str::len`: the length of the UTF-8 encoding in bytes, not the number of characters. */
  function Utf8Len(s: string): nat {
    if |s| == 0 then 0 else Utf8Len(s[..|s| - 1]) + Utf8Width(s[|s| - 1])
  }

  lemma {:induction false} Utf8LenBounds(s: string)
    ensures |s| <= Utf8Len(s) <= 4 * |s|
  {
    if |s| > 0 {
      Utf8LenBounds(s[..|s| - 1]);
    }
  }

  /** A string of only ASCII characters is as long in bytes as in characters. */
  lemma {:induction false} Utf8LenAscii(s: string)
    requires forall i :: 0 <= i < |s| ==> (s[i] as int) < 0x80
    ensures Utf8Len(s) == |s|
  {
    if |s| > 0 {
      Utf8LenAscii(s[..|s| - 1]);
    }
  }

  lemma {:induction false} Utf8LenAppend(a: string, b: string)
    ensures Utf8Len(a + b) == Utf8Len(a) + Utf8Len(b)
    decreases |b|
  {
    if |b| == 0 {
      assert a + b == a;
    } else {
      assert (a + b)[..|a + b| - 1] == a + b[..|b| - 1];
      Utf8LenAppend(a, b[..|b| - 1]);
    }
  }

  /** A run of `n` spaces. */
  function Spaces(n: nat): (r: string)
    ensures |r| == n
    ensures forall i :: 0 <= i < n ==> r[i] == ' '
  {
    if n == 0 then "" else Spaces(n - 1) + " "
  }

  /** ASCII lower-casing of one character; everything outside 'A'..'Z' is kept. */
  function LowerAscii(c: char): char {
    if 'A' <= c <= 'Z' then (c as int - 'A' as int + 'a' as int) as char else c
  }

  function ToLowerAscii(s: string): (r: string)
    ensures |r| == |s|
    ensures forall i :: 0 <= i < |s| ==> r[i] == LowerAscii(s[i])
  {
    if |s| == 0 then "" else ToLowerAscii(s[..|s| - 1]) + [LowerAscii(s[|s| - 1])]
  }

  predicate IsPrefix(p: string, s: string) {
    |p| <= |s| && s[..|p|] == p
  }

  /** `str::contains`: does `p` occur in `s` starting at some position? */
  predicate Contains(s: string, p: string)
    decreases |s|
  {
    IsPrefix(p, s) || (|s| > 0 && Contains(s[1..], p))
  }

  /** `p` occurs in `s` at position `i`. */
  predicate OccursAt(s: string, p: string, i: int) {
    0 <= i && i + |p| <= |s| && s[i..i + |p|] == p
  }

  /** `Contains` agrees with "`p` occurs at some position of `s`", in both directions. */
  lemma {:induction false} ContainsIffOccurs(s: string, p: string)
    ensures Contains(s, p) <==> exists i :: OccursAt(s, p, i)
    decreases |s|
  {
    if IsPrefix(p, s) {
      assert OccursAt(s, p, 0);
    } else if |s| == 0 {
      assert |p| > 0;
    } else {
      ContainsIffOccurs(s[1..], p);
      if exists i :: OccursAt(s, p, i) {
        var i :| OccursAt(s, p, i);
        assert i != 0;
        assert s[1..][i - 1..i - 1 + |p|] == s[i..i + |p|];
        assert OccursAt(s[1..], p, i - 1);
      }
      if exists j :: OccursAt(s[1..], p, j) {
        var j :| OccursAt(s[1..], p, j);
        assert s[j + 1..j + 1 + |p|] == s[1..][j..j + |p|];
        assert OccursAt(s, p, j + 1);
      }
    }
  }

  /** Every string contains the empty string. */
  lemma ContainsEmpty(s: string)
    ensures Contains(s, "")
  {
    assert IsPrefix("", s);
  }
}
