/** ASCII case folding and the digit rendering used by C's and Python's
    `%d` / `%x` conversions, with the parsing that inverts them. */
module Strings {

  import opened Wrappers

    /** Upper-case of one character, folding only the ASCII letters. */
  function UpperChar(c: char): (r: char)
    ensures 'a' <= c <= 'z' ==> r as int == c as int - 32
    ensures !('a' <= c <= 'z') ==> r == c
  {
    if 'a' <= c <= 'z' then (c as int - 32) as char else c
  }

  /** Python's str.upper restricted to ASCII. */
  function Upper(s: string): (r: string)
    ensures |r| == |s|
    ensures forall i :: 0 <= i < |s| ==> r[i] == UpperChar(s[i])
  {
    seq(|s|, i requires 0 <= i < |s| => UpperChar(s[i]))
  }

  /** Upper-casing twice is upper-casing once. */
  lemma UpperIdempotent(s: string)
    ensures Upper(Upper(s)) == Upper(s)
  {
  }

  /** Samba's strequal: equality ignoring (ASCII) case. */
  predicate EqualIgnoreCase(a: string, b: string)
  {
    Upper(a) == Upper(b)
  }

  /** The two bases the modelled conversions use: `%d` and `%x`. */
  type Base = b: nat | b == 10 || b == 16 witness 10

  /** Division by the base, spelled out per base so that the arithmetic stays
      linear. */
  lemma DivMod(n: nat, base: Base)
    ensures n == (n / base) * base + n % base
    ensures n >= base ==> 0 < n / base < n
  {
    if base == 10 {
    } else {
    }
  }

  /** The value of a lower-case hexadecimal digit, 16 for any other
      character. */
  function HexValue(c: char): (v: nat)
    ensures v <= 16
  {
    if '0' <= c <= '9' then c as int - '0' as int
    else if 'a' <= c <= 'f' then c as int - 'a' as int + 10
    else 16
  }

  predicate IsDigit(c: char, base: Base)
  {
    HexValue(c) < base
  }

  /** The digit C's and Python's conversions print for d (lower case). */
  function DigitChar(d: nat, base: Base): (c: char)
    requires d < base
    ensures IsDigit(c, base) && HexValue(c) == d
  {
    if d < 10 then ('0' as int + d) as char else ('a' as int + d - 10) as char
  }

  /** The digits of n in the given base, most significant first, without
      padding (`%d` for base 10, `%x` for base 16). */
  function NatDigits(n: nat, base: Base): (s: string)
    ensures |s| >= 1
    ensures forall i :: 0 <= i < |s| ==> IsDigit(s[i], base)
    decreases n
  {
    if n < base then [DigitChar(n, base)]
    else NatDigits(n / base, base) + [DigitChar(n % base, base)]
  }

  /** The value of a string of digits, read most significant first. */
  function DigitsValue(s: string, base: Base): nat
    requires forall i :: 0 <= i < |s| ==> IsDigit(s[i], base)
  {
    if s == [] then 0
    else DigitsValue(s[..|s| - 1], base) * base + HexValue(s[|s| - 1])
  }

  /** Reading the digits back gives the number. */
  lemma {:induction false} NatDigitsRoundTrip(n: nat, base: Base)
    ensures DigitsValue(NatDigits(n, base), base) == n
    decreases n
  {
    var s := NatDigits(n, base);
    if n < base {
            assert s[..0] == [];
    } else {
      var q, r := n / base, n % base;
      var t := NatDigits(q, base);
      DivMod(n, base);
      NatDigitsRoundTrip(q, base);
      assert s == t + [DigitChar(r, base)];
      assert s[..|s| - 1] == t;
      assert DigitsValue(s, base) == DigitsValue(t, base) * base + HexValue(s[|s| - 1]);
      assert DigitsValue(s, base) == q * base + r;
    }
  }

  lemma NatDigitsInjective(m: nat, n: nat, base: Base)
    requires NatDigits(m, base) == NatDigits(n, base)
    ensures m == n
  {
    NatDigitsRoundTrip(m, base);
    NatDigitsRoundTrip(n, base);
  }

  /** Python's `%d` (base 10) or `%x` (base 16) of an integer of any sign. */
  function IntDigits(i: int, base: Base): (s: string)
    ensures |s| >= 1
  {
    if i < 0 then "-" + NatDigits(-i, base) else NatDigits(i, base)
  }

  /** Distinct integers render distinctly. */
  lemma IntDigitsInjective(a: int, b: int, base: Base)
    requires IntDigits(a, base) == IntDigits(b, base)
    ensures a == b
  {
    var s := IntDigits(a, base);
    assert !IsDigit('-', base);
    assert (a < 0) == (s[0] == '-');
    assert (b < 0) == (s[0] == '-');
    if a < 0 {
      assert s[1..] == NatDigits(-a, base) == NatDigits(-b, base);
      NatDigitsInjective(-a, -b, base);
    } else {
      NatDigitsInjective(a, b, base);
    }
  }

  /** The length of the longest run of digits at the start of s. */
  function DigitRun(s: string, base: Base): (k: nat)
    ensures k <= |s|
    ensures forall i :: 0 <= i < k ==> IsDigit(s[i], base)
    ensures k < |s| ==> !IsDigit(s[k], base)
  {
    if s == [] || !IsDigit(s[0], base) then 0 else 1 + DigitRun(s[1..], base)
  }

  /** A number rendered in front of a non-digit is read back whole. */
  lemma {:induction false} DigitRunOfDigits(d: string, rest: string, base: Base)
    requires forall i :: 0 <= i < |d| ==> IsDigit(d[i], base)
    requires rest == [] || !IsDigit(rest[0], base)
    ensures DigitRun(d + rest, base) == |d|
    decreases |d|
  {
    if d == [] {
      assert d + rest == rest;
    } else {
      assert (d + rest)[1..] == d[1..] + rest;
      DigitRunOfDigits(d[1..], rest, base);
    }
  }

  /** Reads a decimal or hexadecimal number from the front of s, returning it
      and what follows; None if s does not start with a digit. */
  function ReadNat(s: string, base: Base): (r: Option<(nat, string)>)
    ensures r.Some? ==> |r.value.1| < |s|
  {
    var k := DigitRun(s, base);
    if k == 0 then None else Some((DigitsValue(s[..k], base), s[k..]))
  }

  lemma ReadNatDigits(n: nat, rest: string, base: Base)
    requires rest == [] || !IsDigit(rest[0], base)
    ensures ReadNat(NatDigits(n, base) + rest, base) == Some((n, rest))
  {
    var d := NatDigits(n, base);
    DigitRunOfDigits(d, rest, base);
    assert (d + rest)[..|d|] == d;
    assert (d + rest)[|d|..] == rest;
    NatDigitsRoundTrip(n, base);
  }

  /** The number of bytes UTF-8 takes for one character (section 3 of
      RFC 3629). */
  function Utf8Width(c: char): (n: nat)
    ensures 1 <= n <= 4
    ensures n == 1 <==> c as int < 0x80
  {
    if c as int < 0x80 then 1
    else if c as int < 0x800 then 2
    else if c as int < 0x1_0000 then 3
    else 4
  }

  /** `strlen` of a string held in UTF-8: its length in bytes. */
  function Utf8Length(s: string): (n: nat)
    ensures |s| <= n <= 4 * |s|
    ensures n == |s| <==> forall i :: 0 <= i < |s| ==> s[i] as int < 0x80
    decreases |s|
  {
    if s == [] then 0 else Utf8Width(s[0]) + Utf8Length(s[1..])
  }

}
