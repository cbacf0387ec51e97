/**
 * The string primitives the analyzer borrows from Python: `int(s, 16)`, `int(s)`,
 * `str.lower()`, the substring test `a in b`, `str.startswith` and `str(n)`.
 * Strings are sequences of characters; only the ASCII letters have a case.
 */
module Text {
  import opened Wrappers

  // ---------------------------------------------------------------- case

  predicate IsUpper(c: char) { 'A' <= c <= 'Z' }

  function LowerChar(c: char): (r: char)
    ensures !IsUpper(r)
    ensures !IsUpper(c) ==> r == c
  {
    if IsUpper(c) then (c as int + 32) as char else c
  }

  /** No character of `s` is an upper-case letter. */
  predicate IsLowerCase(s: string) {
    forall i :: 0 <= i < |s| ==> !IsUpper(s[i])
  }

  /** Python's `s.lower()`, restricted to ASCII letters. */
  function ToLower(s: string): (r: string)
    ensures |r| == |s| && IsLowerCase(r)
    ensures IsLowerCase(s) ==> r == s
    ensures forall i :: 0 <= i < |s| && s[i] != r[i] ==> IsUpper(s[i])
  {
    seq(|s|, i requires 0 <= i < |s| => LowerChar(s[i]))
  }

  lemma ToLowerIdempotent(s: string)
    ensures ToLower(ToLower(s)) == ToLower(s)
  {
  }

  // ---------------------------------------------------------------- substrings

  predicate StartsWith(s: string, prefix: string) {
    |prefix| <= |s| && s[..|prefix|] == prefix
  }

  /** `sub` occurs in `s` starting at position `i`. */
  predicate OccursAt(s: string, sub: string, i: int) {
    0 <= i && i + |sub| <= |s| && s[i..i + |sub|] == sub
  }

  /** Python's `sub in s`. */
  predicate Contains(s: string, sub: string) {
    exists i | 0 <= i <= |s| - |sub| :: OccursAt(s, sub, i)
  }

  /** Python's `any(x in s for x in subs)`. */
  predicate ContainsAny(s: string, subs: seq<string>) {
    exists j :: 0 <= j < |subs| && Contains(s, subs[j])
  }

  lemma ContainsWitness(s: string, sub: string, i: nat)
    requires OccursAt(s, sub, i)
    ensures Contains(s, sub)
  {
  }

  /**
   * Python's `s.replace(pat, "")` for the two-character pattern `pat`:
   * occurrences are removed left to right without overlapping, and the
   * text that closes up around a removal is not scanned again.
   */
  function RemoveAll(s: string, pat: string): (r: string)
    requires |pat| == 2
    ensures |r| <= |s|
    ensures !Contains(s, pat) ==> r == s
    decreases |s|
  {
    if |s| < 2 then s
    else if s[..2] == pat then
      assert Contains(s, pat) by { ContainsWitness(s, pat, 0); }
      RemoveAll(s[2..], pat)
    else
      var rest := RemoveAll(s[1..], pat);
      assert !Contains(s, pat) ==> !Contains(s[1..], pat) by {
        if Contains(s[1..], pat) {
          var i :| 0 <= i <= |s[1..]| - 2 && OccursAt(s[1..], pat, i);
          assert s[i + 1..i + 3] == s[1..][i..i + 2];
          ContainsWitness(s, pat, i + 1);
        }
      }
      [s[0]] + rest
  }

  /** No two adjacent characters of `a` spell the two-character pattern `pat`. */
  predicate Clean(a: string, pat: string)
    requires |pat| == 2
    decreases |a|
  {
    |a| < 2 || (!(a[0] == pat[0] && a[1] == pat[1]) && Clean(a[1..], pat))
  }

  /** A clean text contains no occurrence of the pattern, and the other way round. */
  lemma {:induction false} CleanIsNoOccurrence(a: string, pat: string)
    requires |pat| == 2
    ensures Clean(a, pat) <==> !Contains(a, pat)
    decreases |a|
  {
    if |a| >= 2 {
      CleanIsNoOccurrence(a[1..], pat);
      if Contains(a[1..], pat) {
        var i :| 0 <= i <= |a[1..]| - 2 && OccursAt(a[1..], pat, i);
        assert a[i + 1..i + 3] == a[1..][i..i + 2];
        ContainsWitness(a, pat, i + 1);
      }
      if a[..2] == pat {
        ContainsWitness(a, pat, 0);
      }
      if Contains(a, pat) && a[..2] != pat {
        var i :| 0 <= i <= |a| - 2 && OccursAt(a, pat, i);
        assert i != 0;
        assert a[1..][i - 1..i + 1] == a[i..i + 2];
        ContainsWitness(a[1..], pat, i - 1);
      }
    }
  }

  /** A text that does not start with the pattern keeps its first character. */
  lemma RemoveAllKeeps(c: char, t: string, pat: string)
    requires |pat| == 2 && |t| >= 1 && !(c == pat[0] && t[0] == pat[1])
    ensures RemoveAll([c] + t, pat) == [c] + RemoveAll(t, pat)
  {
    var s := [c] + t;
    assert s[..2] != pat by {
      assert s[..2][0] == c && s[..2][1] == t[0];
    }
    assert s[1..] == t;
  }

  /** An occurrence at the start is dropped. */
  lemma RemoveAllDrops(pat: string, b: string)
    requires |pat| == 2
    ensures RemoveAll(pat + b, pat) == RemoveAll(b, pat)
  {
    var s := pat + b;
    assert s[..2] == pat && s[2..] == b;
  }

  /** The first character of a clean stretch followed by the pattern is kept. */
  lemma RemoveAllKeepsClean(a: string, pat: string, b: string)
    requires |pat| == 2 && Clean(a, pat) && a != [] && a[|a| - 1] != pat[0]
    ensures RemoveAll(a + pat + b, pat) == [a[0]] + RemoveAll(a[1..] + pat + b, pat)
  {
    var rest := a[1..] + pat + b;
    assert a + pat + b == [a[0]] + rest by {
      assert a == [a[0]] + a[1..];
    }
    if |a| == 1 {
      assert rest[0] == pat[0];
    } else {
      assert rest[0] == a[1];
    }
    RemoveAllKeeps(a[0], rest, pat);
  }

  /**
   * A stretch `a` free of the pattern, which cannot start an occurrence by
   * its last character, is kept; the occurrence after it is dropped; the
   * removal continues on what follows.
   */
  lemma {:induction false} RemoveAllAfterClean(a: string, pat: string, b: string)
    requires |pat| == 2 && Clean(a, pat)
    requires a == [] || a[|a| - 1] != pat[0]
    ensures RemoveAll(a + pat + b, pat) == a + RemoveAll(b, pat)
    decreases |a|
  {
    if a == [] {
      calc {
        RemoveAll(a + pat + b, pat);
        == { assert a + pat + b == pat + b; RemoveAllDrops(pat, b); }
        RemoveAll(b, pat);
        == { assert a + RemoveAll(b, pat) == RemoveAll(b, pat); }
        a + RemoveAll(b, pat);
      }
    } else {
      var tail := a[1..];
      calc {
        RemoveAll(a + pat + b, pat);
        == { RemoveAllKeepsClean(a, pat, b); }
        [a[0]] + RemoveAll(tail + pat + b, pat);
        == { assert tail == [] || tail[|tail| - 1] == a[|a| - 1];
             RemoveAllAfterClean(tail, pat, b); }
        [a[0]] + (tail + RemoveAll(b, pat));
        == { assert a == [a[0]] + tail; }
        a + RemoveAll(b, pat);
      }
    }
  }

  // ---------------------------------------------------------------- hexadecimal

  predicate IsHexDigit(c: char) {
    '0' <= c <= '9' || 'a' <= c <= 'f' || 'A' <= c <= 'F'
  }

  function HexDigitValue(c: char): (d: nat)
    requires IsHexDigit(c)
    ensures d < 16
  {
    if '0' <= c <= '9' then c as int - '0' as int
    else if 'a' <= c <= 'f' then c as int - 'a' as int + 10
    else c as int - 'A' as int + 10
  }

  predicate AllHex(s: string) {
    forall i :: 0 <= i < |s| ==> IsHexDigit(s[i])
  }

  function Pow16(n: nat): (p: nat)
    ensures p >= 1
  {
    if n == 0 then 1 else 16 * Pow16(n - 1)
  }

  /** The value of a string of hex digits, most significant digit first. */
  function HexValue(s: string): (v: nat)
    requires AllHex(s)
    ensures v < Pow16(|s|)
  {
    if |s| == 0 then 0
    else HexValue(s[..|s| - 1]) * 16 + HexDigitValue(s[|s| - 1])
  }

  /** The digits that follow an optional `0x`/`0X` radix marker. */
  function HexBody(s: string): (b: string)
    ensures |b| <= |s| && b == s[|s| - |b|..]
  {
    if |s| >= 2 && s[0] == '0' && (s[1] == 'x' || s[1] == 'X') then s[2..] else s
  }

  /**
   * Python's `int(s, 16)`: an optional `0x` or `0X` marker followed by one
   * or more hex digits; anything else is the `ValueError` case, `None`.
   * (Python also accepts surrounding blanks, a sign and `_` separators;
   * those forms are not accepted here.)
   */
  function ParseHex(s: string): (r: Option<nat>)
    ensures r.Some? <==> |HexBody(s)| > 0 && AllHex(HexBody(s))
    ensures r.Some? ==> r.value < Pow16(|HexBody(s)|)
    ensures r.Some? ==> r.value == HexValue(HexBody(s))
    ensures s == "" ==> r.None?
  {
    var body := HexBody(s);
    if |body| > 0 && AllHex(body) then Some(HexValue(body)) else None
  }

  /** The radix marker never changes the value: `int("0x" + d, 16) == int(d, 16)`. */
  lemma ParseHexMarker(d: string)
    requires |d| > 0 && AllHex(d)
    ensures ParseHex("0x" + d) == ParseHex("0X" + d) == ParseHex(d)
  {
    assert HexBody("0x" + d) == d;
    assert HexBody("0X" + d) == d;
    if |d| >= 2 && d[0] == '0' {
      assert d[1] != 'x' && d[1] != 'X' by { assert IsHexDigit(d[1]); }
    }
  }

  /** A two-digit field such as `"0x04"` reads as `16 * hi + lo`. */
  lemma ParseHexTwoDigits(hi: char, lo: char)
    requires IsHexDigit(hi) && IsHexDigit(lo)
    ensures ParseHex(['0', 'x', hi, lo]) == Some(16 * HexDigitValue(hi) + HexDigitValue(lo))
  {
    var body := [hi, lo];
    assert HexBody(['0', 'x', hi, lo]) == body;
    assert body[..1] == [hi];
    assert [hi][..0] == [];
    assert HexValue([hi]) == HexDigitValue(hi);
    assert HexValue(body) == HexValue([hi]) * 16 + HexDigitValue(lo);
  }

  // ---------------------------------------------------------------- decimal

  predicate IsDigit(c: char) { '0' <= c <= '9' }

  predicate AllDigits(s: string) {
    forall i :: 0 <= i < |s| ==> IsDigit(s[i])
  }

  function DigitValue(c: char): (d: nat)
    requires IsDigit(c)
    ensures d < 10
  {
    c as int - '0' as int
  }

  function DigitChar(d: nat): (c: char)
    requires d < 10
    ensures IsDigit(c) && DigitValue(c) == d
  {
    ('0' as int + d) as char
  }

  function DecValue(s: string): nat
    requires AllDigits(s)
  {
    if |s| == 0 then 0
    else DecValue(s[..|s| - 1]) * 10 + DigitValue(s[|s| - 1])
  }

  /** One or more decimal digits, optionally after a `-` or `+` sign. */
  predicate IsDecimalLiteral(s: string) {
    || (|s| > 0 && AllDigits(s))
    || (|s| > 1 && (s[0] == '-' || s[0] == '+') && AllDigits(s[1..]))
  }

  /**
   * Python's `int(s)`: an optional `-` or `+` sign followed by one or more
   * decimal digits; anything else is the `ValueError` case, `None`.
   */
  function ParseDec(s: string): (r: Option<int>)
    ensures r.Some? <==> IsDecimalLiteral(s)
    ensures r.Some? && r.value < 0 ==> |s| > 0 && s[0] == '-'
  {
    if |s| > 0 && (s[0] == '-' || s[0] == '+') then
      var digits := s[1..];
      if |digits| > 0 && AllDigits(digits) then
        var magnitude: int := DecValue(digits);
        Some(if s[0] == '-' then -magnitude else magnitude)
      else None
    else if |s| > 0 && AllDigits(s) then Some(DecValue(s))
    else None
  }

  /** Python's `str(n)` for a natural number: decimal digits, no leading zero. */
  function NatToString(n: nat): (s: string)
    ensures |s| > 0 && AllDigits(s)
    ensures |s| > 1 ==> s[0] != '0'
  {
    if n < 10 then [DigitChar(n)]
    else NatToString(n / 10) + [DigitChar(n % 10)]
  }

  /** Python's `str(i)` for an integer. */
  function IntToString(i: int): (s: string)
    ensures |s| > 0
    ensures i < 0 <==> s[0] == '-'
  {
    if i < 0 then "-" + NatToString(-i) else NatToString(i)
  }

  lemma {:induction false} DecValueOfNatToString(n: nat)
    ensures DecValue(NatToString(n)) == n
  {
    var s := NatToString(n);
    if n >= 10 {
      var prefix := NatToString(n / 10);
      assert s[..|s| - 1] == prefix;
      DecValueOfNatToString(n / 10);
    } else {
      assert s[..|s| - 1] == [];
    }
  }

  /** `int(str(i)) == i`: the rendered number reads back as itself. */
  lemma IntToStringRoundTrip(i: int)
    ensures ParseDec(IntToString(i)) == Some(i)
  {
    var s := IntToString(i);
    if i < 0 {
      assert s[1..] == NatToString(-i);
      DecValueOfNatToString(-i);
    } else {
      DecValueOfNatToString(i);
    }
  }

  /** Different integers are rendered differently. */
  lemma IntToStringInjective(i: int, j: int)
    requires IntToString(i) == IntToString(j)
    ensures i == j
  {
    IntToStringRoundTrip(i);
    IntToStringRoundTrip(j);
  }
}
