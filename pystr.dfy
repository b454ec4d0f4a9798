/**
 * Models of the few Python string built-ins the core relies on:
 * `str.strip()` with no argument, `str.lower()` and `str(int)` (decimal
 * rendering), together with a decimal parser that serves as the inverse
 * of the rendering.
 */
module PyStr {
  import opened Wrappers

  /** Python's whitespace for `str.strip()` and `str.isspace()`. */
  predicate IsSpace(c: char): (r: bool)
    ensures c == ' ' || c == '\t' || c == '\n' || c == '\r' ==> r
    ensures 'a' <= c <= 'z' || 'A' <= c <= 'Z' || '0' <= c <= '9' ==> !r
  {
    var n := c as int;
    (0x09 <= n <= 0x0D) || (0x1C <= n <= 0x20) || n == 0x85 || n == 0xA0
    || n == 0x1680 || (0x2000 <= n <= 0x200A) || n == 0x2028 || n == 0x2029
    || n == 0x202F || n == 0x205F || n == 0x3000
  }

  /** Every character of `s` is whitespace (this includes the empty string). */
  ghost predicate Spaces(s: string) {
    forall i :: 0 <= i < |s| ==> IsSpace(s[i])
  }

  /** `s` has no whitespace at either end. */
  predicate Trimmed(s: string) {
    s == [] || (!IsSpace(s[0]) && !IsSpace(s[|s| - 1]))
  }

  /** The number of whitespace characters `s` starts with. */
  function LeadingSpaces(s: string): (n: nat)
    ensures n <= |s|
    ensures forall i :: 0 <= i < n ==> IsSpace(s[i])
    ensures n < |s| ==> !IsSpace(s[n])
  {
    if s != [] && IsSpace(s[0]) then 1 + LeadingSpaces(s[1..]) else 0
  }

  /** The number of whitespace characters `s` ends with. */
  function TrailingSpaces(s: string): (n: nat)
    ensures n <= |s|
    ensures forall i :: |s| - n <= i < |s| ==> IsSpace(s[i])
    ensures n < |s| ==> !IsSpace(s[|s| - 1 - n])
  {
    if s != [] && IsSpace(s[|s| - 1]) then 1 + TrailingSpaces(s[..|s| - 1]) else 0
  }

  /** `str.strip()`: the leading whitespace is cut, then the trailing whitespace of what remains. */
  function Strip(s: string): (r: string)
    ensures Trimmed(r)
    ensures LeadingSpaces(s) + |r| <= |s| && r == s[LeadingSpaces(s)..LeadingSpaces(s) + |r|]
    ensures forall i :: 0 <= i < LeadingSpaces(s) ==> IsSpace(s[i])
    ensures forall i :: LeadingSpaces(s) + |r| <= i < |s| ==> IsSpace(s[i])
  {
    var t := s[LeadingSpaces(s)..];
    t[..|t| - TrailingSpaces(t)]
  }

  /** `s` is its stripped form framed by whitespace on both sides. */
  lemma StripFrames(s: string)
    ensures LeadingSpaces(s) + |Strip(s)| <= |s|
    ensures s == s[..LeadingSpaces(s)] + Strip(s) + s[LeadingSpaces(s) + |Strip(s)|..]
    ensures Spaces(s[..LeadingSpaces(s)]) && Spaces(s[LeadingSpaces(s) + |Strip(s)|..])
  {
    StripSplits(s);
    StripCutsLeading(s);
    StripCutsTrailing(s);
  }

  lemma StripSplits(s: string)
    ensures s == s[..LeadingSpaces(s)] + Strip(s) + s[LeadingSpaces(s) + |Strip(s)|..]
  {
    var k := LeadingSpaces(s);
    var t := s[k..];
    var j := k + (|t| - TrailingSpaces(t));
    assert Strip(s) == s[k..j];
    SplitThree(s, k, j);
  }

  lemma StripCutsLeading(s: string)
    ensures Spaces(s[..LeadingSpaces(s)])
  {
    SpacesSlice(s, 0, LeadingSpaces(s));
  }

  lemma StripCutsTrailing(s: string)
    ensures Spaces(s[LeadingSpaces(s) + |Strip(s)|..])
  {
    var k := LeadingSpaces(s);
    var t := s[k..];
    var j := k + (|t| - TrailingSpaces(t));
    assert Strip(s) == s[k..j];
    forall i | j <= i < |s| ensures IsSpace(s[i]) {
      assert s[i] == t[i - k];
    }
    SpacesSlice(s, j, |s|);
  }

  /** A string is the concatenation of its three slices at `k` and `j`. */
  lemma SplitThree(s: string, k: nat, j: nat)
    requires k <= j <= |s|
    ensures s == s[..k] + s[k..j] + s[j..]
  {
    assert s[..j] == s[..k] + s[k..j];
    assert s == s[..j] + s[j..];
  }

  /** A slice whose characters are all whitespace is blank. */
  lemma SpacesSlice(s: string, lo: nat, hi: nat)
    requires lo <= hi <= |s|
    requires forall i :: lo <= i < hi ==> IsSpace(s[i])
    ensures Spaces(s[lo..hi])
    ensures lo == 0 ==> Spaces(s[..hi])
    ensures hi == |s| ==> Spaces(s[lo..])
  {
    assert forall i :: 0 <= i < hi - lo ==> s[lo..hi][i] == s[lo + i];
    assert lo == 0 ==> s[..hi] == s[lo..hi];
    assert hi == |s| ==> s[lo..] == s[lo..hi];
  }

  /** `c` is an ASCII capital letter. */
  predicate IsAsciiUpper(c: char) {
    'A' <= c <= 'Z'
  }

  /** ASCII lower-casing of a single character; every other character is kept. */
  function LowerChar(c: char): (r: char)
    ensures IsAsciiUpper(c) ==> r == "abcdefghijklmnopqrstuvwxyz"[c as int - 'A' as int]
    ensures !IsAsciiUpper(r)
    ensures IsSpace(r) <==> IsSpace(c)
    ensures !IsAsciiUpper(c) ==> r == c
  {
    if IsAsciiUpper(c) then (c as int + 32) as char else c
  }

  /** `str.lower()`, restricted to ASCII letters: each character is lower-cased on its own. */
  function Lower(s: string): (r: string)
    ensures |r| == |s|
    ensures forall i :: 0 <= i < |s| ==> r[i] == LowerChar(s[i])
  {
    if s == [] then [] else [LowerChar(s[0])] + Lower(s[1..])
  }

  /** A string without ASCII capitals is its own lower-case form. */
  lemma LowerIdempotent(s: string)
    ensures Lower(Lower(s)) == Lower(s)
  {
    var l := Lower(s);
    assert forall i :: 0 <= i < |l| ==> Lower(l)[i] == l[i];
  }

  /** Lower-casing neither adds nor removes whitespace at the ends. */
  lemma LowerKeepsTrimmed(s: string)
    requires Trimmed(s)
    ensures Trimmed(Lower(s))
  {
  }

  /** Stripping a string with no whitespace at its ends changes nothing. */
  lemma StripTrimmed(s: string)
    requires Trimmed(s)
    ensures Strip(s) == s
  {
    assert LeadingSpaces(s) == 0;
    assert s[0..] == s;
    assert TrailingSpaces(s) == 0;
  }

  /** Stripping and lower-casing a second time changes nothing. */
  lemma StripLowerIdempotent(s: string)
    ensures Lower(Strip(Lower(Strip(s)))) == Lower(Strip(s))
  {
    var t := Strip(s);
    LowerKeepsTrimmed(t);
    StripTrimmed(Lower(t));
    LowerIdempotent(t);
  }

  /** Stripping a non-blank string framed by whitespace gives back the framed string. */
  lemma StripPadded(p: string, m: string, q: string)
    requires Spaces(p) && Spaces(q)
    requires m != [] && Trimmed(m)
    ensures Strip(p + m + q) == m
  {
    var s := p + m + q;
    assert s[|p|] == m[0];
    assert LeadingSpaces(s) == |p|;
    var t := s[|p|..];
    assert t == m + q;
    assert t[|m| - 1] == m[|m| - 1];
    assert TrailingSpaces(t) == |q|;
    assert t[..|m|] == m;
  }

  /** A blank string strips to the empty string. */
  lemma StripBlank(s: string)
    requires Spaces(s)
    ensures Strip(s) == []
  {
  }

  // Decimal rendering of integers, as `str(n)` and `"{0}".format(n)` produce it.

  predicate IsDigit(c: char) {
    '0' <= c <= '9'
  }

  predicate AllDigits(s: string) {
    forall i :: 0 <= i < |s| ==> IsDigit(s[i])
  }

  function DigitChar(d: nat): (c: char)
    requires d < 10
    ensures IsDigit(c)
  {
    (48 + d) as char
  }

  function DigitValue(c: char): (d: nat)
    requires IsDigit(c)
    ensures d < 10
  {
    c as int - 48
  }

  /** The decimal digits of `n`, most significant first, without leading zeros. */
  function NatToString(n: nat): (s: string)
    ensures s != [] && AllDigits(s)
    ensures s[0] == '0' ==> n == 0
    decreases n
  {
    if n < 10 then [DigitChar(n)] else NatToString(n / 10) + [DigitChar(n % 10)]
  }

  /** The number a string of decimal digits denotes. */
  function DigitsValue(s: string): nat
    requires AllDigits(s)
  {
    if s == [] then 0 else 10 * DigitsValue(s[..|s| - 1]) + DigitValue(s[|s| - 1])
  }

  /** Reads back an optionally negative decimal number; anything else is `None`. */
  function ParseInt(s: string): Option<int> {
    if |s| > 1 && s[0] == '-' && AllDigits(s[1..]) then Some(-(DigitsValue(s[1..]) as int))
    else if s != [] && AllDigits(s) then Some(DigitsValue(s))
    else None
  }

  lemma {:induction false} NatToStringRoundTrip(n: nat)
    ensures DigitsValue(NatToString(n)) == n
    decreases n
  {
    if n >= 10 {
      NatToStringRoundTrip(n / 10);
      var s := NatToString(n);
      assert s[..|s| - 1] == NatToString(n / 10);
    }
  }

  /** `str(n)`: a minus sign in front of the digits of a negative number; reading it back gives `n`. */
  function IntToString(n: int): (s: string)
    ensures s != []
    ensures ParseInt(s) == Some(n)
  {
    if n < 0 then
      NatToStringRoundTrip(-n);
      var s := "-" + NatToString(-n);
      assert s[1..] == NatToString(-n);
      s
    else
      NatToStringRoundTrip(n);
      NatToString(n)
  }

  /** Distinct integers have distinct renderings. */
  lemma IntToStringInjective(a: int, b: int)
    requires IntToString(a) == IntToString(b)
    ensures a == b
  {
  }
}
