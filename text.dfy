/** Decimal rendering of integers as a JavaScript template literal prints them,
    its inverse on digit strings, and the string suffix test `endsWith`. */
module Text {

  predicate IsDigit(c: char) { '0' <= c <= '9' }

  predicate AllDigits(s: string) { forall i :: 0 <= i < |s| ==> IsDigit(s[i]) }

  function DigitChar(d: nat): (c: char)
    requires d < 10
    ensures IsDigit(c)
  {
    "0123456789"[d]
  }

  function DigitValue(c: char): nat
    requires IsDigit(c)
  {
    (c as int - '0' as int) as nat
  }

  /** `${n}` for a non-negative integer: no sign, no leading zeros. */
  function ShowNat(n: nat): (s: string)
    ensures |s| > 0 && AllDigits(s)
    ensures s[0] == '0' ==> n == 0
  {
    if n < 10 then [DigitChar(n)] else ShowNat(n / 10) + [DigitChar(n % 10)]
  }

  /** `${i}` for any integer: a minus sign before the magnitude when negative. */
  function ShowInt(i: int): (s: string)
    ensures i >= 0 ==> s == ShowNat(i)
    ensures i < 0 ==> |s| > 1 && s[0] == '-' && s[1..] == ShowNat(-i)
  {
    if i < 0 then "-" + ShowNat(-i) else ShowNat(i)
  }

  /** Reads a string of decimal digits, most significant first. */
  function ParseNat(s: string): nat
    requires AllDigits(s)
  {
    if s == [] then 0 else ParseNat(s[..|s| - 1]) * 10 + DigitValue(s[|s| - 1])
  }

  lemma {:induction false} DigitRoundTrip(d: nat)
    requires d < 10
    ensures DigitValue(DigitChar(d)) == d
  {
  }

  /** Reading back what ShowNat prints gives the number printed. */
  lemma {:induction false} ParseShowNat(n: nat)
    ensures ParseNat(ShowNat(n)) == n
  {
    DigitRoundTrip(n % 10);
    if n >= 10 {
      var s := ShowNat(n);
      assert s[..|s| - 1] == ShowNat(n / 10);
      ParseShowNat(n / 10);
    }
  }

  /** A digit string as `${n}` prints one: "0", or no leading zero. */
  predicate Canonical(d: string)
  {
    d == "0" || (d != [] && d[0] != '0')
  }

  lemma ShowNatCanonical(n: nat)
    ensures Canonical(ShowNat(n))
  {
  }

  /** A digit string with a non-zero leading digit reads as a positive number. */
  lemma {:induction false} ParseNatPositive(d: string)
    requires d != [] && AllDigits(d) && d[0] != '0'
    ensures ParseNat(d) > 0
  {
    if |d| > 1 {
      ParseNatPositive(d[..|d| - 1]);
    }
  }

  /** Printing what ParseNat reads from a canonical digit string gives the
      string back. */
  lemma {:induction false} ShowParseNat(d: string)
    requires AllDigits(d) && Canonical(d)
    ensures ShowNat(ParseNat(d)) == d
  {
    var c := d[|d| - 1];
    var v := DigitValue(c);
    assert DigitChar(v) == c;
    if |d| > 1 {
      var init := d[..|d| - 1];
      ParseNatPositive(init);
      ShowParseNat(init);
      var n := ParseNat(d);
      assert n == ParseNat(init) * 10 + v;
      assert n / 10 == ParseNat(init) && n % 10 == v;
      assert d == init + [c];
    }
  }

  /** The longest prefix of `s` made of digits. */
  function DigitPrefix(s: string): (p: string)
    ensures |p| <= |s| && p == s[..|p|] && AllDigits(p)
    ensures |p| < |s| ==> !IsDigit(s[|p|])
  {
    if s == [] || !IsDigit(s[0]) then [] else [s[0]] + DigitPrefix(s[1..])
  }

  /** A digit string followed by a non-digit splits back at that non-digit. */
  lemma {:induction false} DigitPrefixOfDigits(d: string, rest: string)
    requires AllDigits(d)
    requires rest == [] || !IsDigit(rest[0])
    ensures DigitPrefix(d + rest) == d
  {
    if d != [] {
      assert (d + rest)[1..] == d[1..] + rest;
      DigitPrefixOfDigits(d[1..], rest);
    } else {
      assert d + rest == rest;
    }
  }

  /** `s.endsWith(suffix)` */
  predicate EndsWith(s: string, suffix: string) {
    |suffix| <= |s| && s[|s| - |suffix|..] == suffix
  }
}
