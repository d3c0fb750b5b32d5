/**
 * The C library string functions the descriptor parser relies on.
 *
 * A C string is modelled by its characters before the terminating NUL
 * (`NoNul`); the NUL itself sits at index |s| of the memory and is never
 * part of the sequence.
 */
module CString {
  import opened Wrappers

  const INT_MIN: int := -0x8000_0000
  const INT_MAX: int := 0x7fff_ffff
  const LONG_MIN: int := -0x8000_0000_0000_0000
  const LONG_MAX: int := 0x7fff_ffff_ffff_ffff

  /** The characters of a C string: none of them is the terminator. */
  predicate NoNul(s: string) {
    forall i | 0 <= i < |s| :: s[i] != '\0'
  }

  /**
   * strstr(s, "c") for a one-character needle: the index of the first `c`,
   * or None for a NULL result (FindFirst).
   */
  function Find(s: string, c: char): (r: Option<nat>)
    ensures r.Some? ==> r.value < |s| && s[r.value] == c
  {
    if |s| == 0 then None
    else if s[0] == c then Some(0)
    else
      match Find(s[1..], c)
      case None => None
      case Some(k) => Some(k + 1)
  }

  /** Find gives the first occurrence, and None exactly when there is none. */
  lemma {:induction false} FindFirst(s: string, c: char)
    ensures Find(s, c).Some? ==> forall j | 0 <= j < Find(s, c).value :: s[j] != c
    ensures Find(s, c).None? <==> c !in s
  {
    if |s| > 0 && s[0] != c {
      FindFirst(s[1..], c);
      assert s == [s[0]] + s[1..];
    }
  }

  /** The first `c` comes right after a prefix that does not contain it. */
  lemma {:induction false} FindAfter(a: string, c: char, b: string)
    requires c !in a
    ensures Find(a + [c] + b, c) == Some(|a|)
  {
    var s := a + [c] + b;
    if |a| > 0 {
      assert s[0] == a[0];
      assert s[1..] == a[1..] + [c] + b;
      FindAfter(a[1..], c, b);
    }
  }

  /** strncpy(dst, src, n) as seen through dst: at most n characters of src. */
  function Strncpy(src: string, n: nat): (r: string)
    ensures |r| == (if |src| <= n then |src| else n) && r <= src
  {
    if |src| <= n then src else src[..n]
  }

  predicate IsDigit(c: char) {
    '0' <= c <= '9'
  }

  /** isspace(3) in the C locale. */
  predicate IsSpace(c: char) {
    c == ' ' || c == '\t' || c == '\n' || c == '\U{B}' || c == '\U{C}' || c == '\r'
  }

  predicate AllDigits(s: string) {
    forall i | 0 <= i < |s| :: IsDigit(s[i])
  }

  predicate AllSpace(s: string) {
    forall i | 0 <= i < |s| :: IsSpace(s[i])
  }

  /** What strtol(3) skips before the number: leading white space. */
  function SkipSpace(s: string): (r: string)
    ensures |r| <= |s| && r == s[|s| - |r|..]
    ensures |r| > 0 ==> !IsSpace(r[0])
    ensures |s| > 0 && !IsSpace(s[0]) ==> r == s
    ensures AllSpace(s[..|s| - |r|])
  {
    s[SpaceRun(s)..]
  }

  /** The length of the run of white space at the front of s. */
  function SpaceRun(s: string): (n: nat)
    ensures n <= |s| && AllSpace(s[..n])
    ensures n < |s| ==> !IsSpace(s[n])
    ensures |s| > 0 && !IsSpace(s[0]) ==> n == 0
  {
    if |s| > 0 && IsSpace(s[0]) then
      var k := SpaceRun(s[1..]);
      assert s[..k + 1] == [s[0]] + s[1..][..k];
      k + 1
    else 0
  }

  /** The length of the run of decimal digits at the front of s. */
  function DigitRun(s: string): (n: nat)
    ensures n <= |s| && AllDigits(s[..n])
    ensures n < |s| ==> !IsDigit(s[n])
  {
    if |s| > 0 && IsDigit(s[0]) then
      var k := DigitRun(s[1..]);
      assert s[..k + 1] == [s[0]] + s[1..][..k];
      k + 1
    else 0
  }

  /** The value of a string of decimal digits, most significant first. */
  function Value(d: string): nat
    requires AllDigits(d)
  {
    if |d| == 0 then 0 else 10 * Value(d[..|d| - 1]) + (d[|d| - 1] as int - '0' as int)
  }

  /** The conversion of strtol(s, NULL, 10), saturated at the bounds of `long`. */
  function Strtol(s: string): (r: int)
    ensures LONG_MIN <= r <= LONG_MAX
  {
    Convert(SkipSpace(s))
  }

  /** What strtol reads once the white space is skipped: an optional sign, then the leading digits. */
  function Convert(u: string): (r: int)
    ensures LONG_MIN <= r <= LONG_MAX
  {
    var negative := |u| > 0 && u[0] == '-';
    var d := if |u| > 0 && (u[0] == '-' || u[0] == '+') then u[1..] else u;
    var v: int := Magnitude(d);
    Saturate(if negative then -v else v)
  }

  /** The value of the leading digits. */
  function Magnitude(d: string): nat {
    Value(d[..DigitRun(d)])
  }

  /** strtol's clamping to the bounds of `long` on overflow. */
  function Saturate(v: int): (r: int)
    ensures LONG_MIN <= r <= LONG_MAX
    ensures LONG_MIN <= v <= LONG_MAX ==> r == v
    ensures v > LONG_MAX ==> r == LONG_MAX
    ensures v < LONG_MIN ==> r == LONG_MIN
  {
    if v < LONG_MIN then LONG_MIN else if v > LONG_MAX then LONG_MAX else v
  }

  /** Conversion of an integer to a 32-bit `int`: two's-complement wrap-around. */
  function WrapInt(v: int): (r: int)
    ensures INT_MIN <= r <= INT_MAX
    ensures INT_MIN <= v <= INT_MAX ==> r == v
    ensures (r - v) % 0x1_0000_0000 == 0
  {
    (v - INT_MIN) % 0x1_0000_0000 + INT_MIN
  }

  /** atoi(3) as glibc implements it: `(int) strtol(s, NULL, 10)`. */
  function Atoi(s: string): (r: int)
    ensures INT_MIN <= r <= INT_MAX
  {
    WrapInt(Strtol(s))
  }

  /** The decimal spelling of n, without sign or leading zeros. */
  function Decimal(n: nat): (s: string)
    ensures |s| > 0 && AllDigits(s)
    ensures IsDigit(s[0]) && !IsSpace(s[0])
  {
    if n < 10 then [('0' as int + n) as char]
    else Decimal(n / 10) + [('0' as int + n % 10) as char]
  }

  /** Reading back a decimal spelling gives the number. */
  lemma {:induction false} ValueOfDecimal(n: nat)
    ensures Value(Decimal(n)) == n
  {
    var d := Decimal(n);
    if n >= 10 {
      assert d[..|d| - 1] == Decimal(n / 10);
      ValueOfDecimal(n / 10);
    }
  }

  /** The digit run of a digit string followed by a non-digit is the whole digit string. */
  lemma DigitRunOfDigits(d: string, tail: string)
    requires AllDigits(d)
    requires |tail| == 0 || !IsDigit(tail[0])
    ensures DigitRun(d + tail) == |d|
  {
    var s := d + tail;
    assert forall j | 0 <= j < |d| :: s[j] == d[j];
    assert |tail| > 0 ==> s[|d|] == tail[0];
  }

  /** strtol reads a digit string up to the first non-digit. */
  lemma StrtolOfDigits(d: string, tail: string)
    requires |d| > 0 && AllDigits(d) && Value(d) <= LONG_MAX
    requires |tail| == 0 || !IsDigit(tail[0])
    ensures Strtol(d + tail) == Value(d)
  {
    var s := d + tail;
    assert s[0] == d[0];
    StrtolUnsigned(s);
    DigitRunOfDigits(d, tail);
    assert s[..DigitRun(s)] == d;
  }

  /** A text starting with a digit is read as its leading digit run, saturated at LONG_MAX. */
  lemma StrtolUnsigned(s: string)
    requires |s| > 0 && IsDigit(s[0])
    ensures var v := Value(s[..DigitRun(s)]);
      Strtol(s) == if v > LONG_MAX then LONG_MAX else v
  {
    StrtolNoSpace(s);
    assert s[0] != '-' && s[0] != '+';
  }

  /** strtol stops at the first character that is not a digit, so whatever follows the spelling is ignored. */
  lemma StrtolOfDecimal(n: nat, tail: string)
    requires n <= LONG_MAX
    requires |tail| == 0 || !IsDigit(tail[0])
    ensures Strtol(Decimal(n) + tail) == n
  {
    ValueOfDecimal(n);
    StrtolOfDigits(Decimal(n), tail);
  }

  /** atoi gives back every number an `int` can hold from its decimal spelling. */
  lemma AtoiOfDecimal(n: nat, tail: string)
    requires n <= INT_MAX
    requires |tail| == 0 || !IsDigit(tail[0])
    ensures Atoi(Decimal(n) + tail) == n
  {
    StrtolOfDecimal(n, tail);
  }

  /** atoi gives back every number an `int` can hold from its decimal spelling alone. */
  lemma AtoiOfSpelling(n: nat)
    requires n <= INT_MAX
    ensures Atoi(Decimal(n)) == n
  {
    var d := Decimal(n);
    assert d + "" == d;
    AtoiOfDecimal(n, "");
  }

  /** strtol skips a run of white space in front of a text that does not start with one. */
  lemma SkipSpaceOver(ws: string, u: string)
    requires AllSpace(ws)
    requires |u| > 0 && !IsSpace(u[0])
    ensures SkipSpace(ws + u) == u
  {
    SpaceRunOver(ws, u);
    assert (ws + u)[|ws|..] == u;
  }

  /** The white-space run of white space in front of a text that does not start with one is that white space. */
  lemma {:induction false} SpaceRunOver(ws: string, u: string)
    requires AllSpace(ws)
    requires |u| > 0 && !IsSpace(u[0])
    ensures SpaceRun(ws + u) == |ws|
  {
    if |ws| > 0 {
      assert (ws + u)[1..] == ws[1..] + u;
      SpaceRunOver(ws[1..], u);
    } else {
      assert ws + u == u;
    }
  }

  /** Leading white space does not change what strtol reads. */
  lemma StrtolAfterSpace(ws: string, u: string)
    requires AllSpace(ws)
    requires |u| > 0 && !IsSpace(u[0])
    ensures Strtol(ws + u) == Strtol(u)
  {
    SkipSpaceOver(ws, u);
    assert SkipSpace(u) == u;
  }

  /** strtol reads a sign and a digit string of value n in front of a non-digit as n, negated for '-'. */
  lemma StrtolSignedDigits(sign: char, d: string, tail: string, n: nat)
    requires sign == '-' || sign == '+'
    requires |d| > 0 && AllDigits(d) && Value(d) == n && n <= LONG_MAX
    requires |tail| == 0 || !IsDigit(tail[0])
    ensures Strtol([sign] + d + tail) == if sign == '-' then -(n as int) else n
  {
    var u := [sign] + d + tail;
    assert u[0] == sign;
    StrtolNoSpace(u);
    ConvertSigned(sign, d, tail, n);
  }

  /** A text that does not start with white space is converted as it stands. */
  lemma StrtolNoSpace(u: string)
    requires |u| > 0 && !IsSpace(u[0])
    ensures Strtol(u) == Convert(u)
  {
    assert SkipSpace(u) == u;
  }

  /** The sign and digit part of StrtolSignedDigits. */
  lemma ConvertSigned(sign: char, d: string, tail: string, n: nat)
    requires sign == '-' || sign == '+'
    requires |d| > 0 && AllDigits(d) && Value(d) == n && n <= LONG_MAX
    requires |tail| == 0 || !IsDigit(tail[0])
    ensures Convert([sign] + d + tail) == if sign == '-' then -(n as int) else n
  {
    var rest := d + tail;
    assert [sign] + d + tail == [sign] + rest;
    MagnitudeOfDigits(d, tail);
    ConvertSign(sign, rest);
  }

  /** After a sign, strtol reads the leading digits, negated for '-'. */
  lemma ConvertSign(sign: char, rest: string)
    requires sign == '-' || sign == '+'
    ensures Convert([sign] + rest) == Saturate(if sign == '-' then -(Magnitude(rest) as int) else Magnitude(rest))
  {
    var u := [sign] + rest;
    assert u[0] == sign && u[1..] == rest;
  }

  /** The leading digits of a digit string in front of a non-digit are that string. */
  lemma MagnitudeOfDigits(d: string, tail: string)
    requires AllDigits(d)
    requires |tail| == 0 || !IsDigit(tail[0])
    ensures Magnitude(d + tail) == Value(d)
  {
    var rest := d + tail;
    DigitRunOfDigits(d, tail);
    assert rest[..DigitRun(rest)] == d;
  }

  /** Concatenation regrouped after its first part. */
  lemma Regroup(a: string, b: string, c: string, e: string)
    ensures a + b + c + e == a + (b + c + e)
  {
  }

  /** strtol reads white space and a digit string of value n in front of a non-digit as n. */
  lemma StrtolSpacedDigits(ws: string, d: string, tail: string, n: nat)
    requires AllSpace(ws)
    requires |d| > 0 && AllDigits(d) && Value(d) == n && n <= LONG_MAX
    requires |tail| == 0 || !IsDigit(tail[0])
    ensures Strtol(ws + d + tail) == n
  {
    var u := d + tail;
    assert ws + d + tail == ws + u;
    assert u[0] == d[0];
    StrtolAfterSpace(ws, u);
    StrtolOfDigits(d, tail);
  }

  /** strtol reads white space, a sign and a digit string of value n in front of a non-digit as n, negated for '-'. */
  lemma StrtolSpacedSigned(ws: string, sign: char, d: string, tail: string, n: nat)
    requires AllSpace(ws)
    requires sign == '-' || sign == '+'
    requires |d| > 0 && AllDigits(d) && Value(d) == n && n <= LONG_MAX
    requires |tail| == 0 || !IsDigit(tail[0])
    ensures Strtol(ws + [sign] + d + tail) == if sign == '-' then -(n as int) else n
  {
    var u := [sign] + d + tail;
    Regroup(ws, [sign], d, tail);
    assert u[0] == sign;
    StrtolAfterSpace(ws, u);
    StrtolSignedDigits(sign, d, tail, n);
  }

  /** atoi reads "-" and a digit string of value n up to INT_MAX in front of a non-digit as -n. */
  lemma AtoiOfNegative(d: string, tail: string, n: nat)
    requires |d| > 0 && AllDigits(d) && Value(d) == n && n <= INT_MAX
    requires |tail| == 0 || !IsDigit(tail[0])
    ensures Atoi("-" + d + tail) == -(n as int)
  {
    StrtolSignedDigits('-', d, tail, n);
    assert ['-'] + d + tail == "-" + d + tail;
  }

  /** A text that does not start with white space, a sign or a digit converts to 0. */
  lemma AtoiOfNonNumeric(s: string)
    requires |s| == 0 || (!IsSpace(s[0]) && !IsDigit(s[0]) && s[0] != '+' && s[0] != '-')
    ensures Atoi(s) == 0
  {
    assert SkipSpace(s) == s;
  }
}
