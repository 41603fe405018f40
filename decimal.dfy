/** Decimal rendering of naturals (`String(n)`, template literals) and `parseInt(s, 10)`. */
module Decimal {
  import opened Text

  function DigitChar(d: nat): (c: char)
    requires d < 10
    ensures IsDigit(c) && c as int - '0' as int == d
  {
    (48 + d) as char
  }

  function DigitValue(c: char): nat
    requires IsDigit(c)
  {
    c as int - '0' as int
  }

  /** `String(n)` for a natural number: decimal digits without a leading zero. */
  function NatToString(n: nat): (s: string)
    ensures |s| >= 1 && AllDigits(s)
    ensures |s| > 1 ==> s[0] != '0'
    ensures n < 10 <==> |s| == 1
  {
    if n < 10 then [DigitChar(n)] else NatToString(n / 10) + [DigitChar(n % 10)]
  }

  /** Value of a string of decimal digits (leading zeros allowed). */
  function DigitsValue(s: string): nat
    requires AllDigits(s)
  {
    if s == [] then 0 else 10 * DigitsValue(s[..|s| - 1]) + DigitValue(s[|s| - 1])
  }

  /** Reading back the rendering of `n` gives `n`. */
  lemma {:induction false} NatToStringValue(n: nat)
    ensures DigitsValue(NatToString(n)) == n
  {
    if n >= 10 {
      NatToStringValue(n / 10);
      var s := NatToString(n);
      assert s[..|s| - 1] == NatToString(n / 10);
    }
  }

  lemma NatToStringInjective(a: nat, b: nat)
    requires NatToString(a) == NatToString(b)
    ensures a == b
  {
    NatToStringValue(a);
    NatToStringValue(b);
  }

  /** The longest prefix of `s` made of decimal digits. */
  function LeadingDigits(s: string): (r: string)
    ensures r <= s && AllDigits(r)
    ensures |r| == |s| || !IsDigit(s[|r|])
  {
    if s == [] || !IsDigit(s[0]) then [] else [s[0]] + LeadingDigits(s[1..])
  }

  lemma {:induction false} LeadingDigitsOf(a: string, rest: string)
    requires AllDigits(a)
    requires rest == [] || !IsDigit(rest[0])
    ensures LeadingDigits(a + rest) == a
  {
    if a != [] {
      assert (a + rest)[1..] == a[1..] + rest;
      LeadingDigitsOf(a[1..], rest);
    } else {
      assert a + rest == rest;
    }
  }

  /** `parseInt(s, 10)`: skips leading whitespace, reads an optional sign and the digits
      after it; `None` stands for NaN (no digit there). */
  function ParseInt(s: string): (r: Option<int>)
    ensures r.None? <==> LeadingDigits(SkipSign(s[LeadingSpaces(s)..])) == []
  {
    var t := s[LeadingSpaces(s)..];
    var d := LeadingDigits(SkipSign(t));
    if d == [] then None
    else if t[0] == '-' then Some(0 - DigitsValue(d) as int)
    else Some(DigitsValue(d))
  }

  function SkipSign(t: string): string {
    if t != [] && (t[0] == '-' || t[0] == '+') then t[1..] else t
  }

  /** `parseInt` reads a run of digits, whatever non-digit text follows it. */
  lemma ParseIntDigits(a: string, rest: string)
    requires a != [] && AllDigits(a)
    requires rest == [] || !IsDigit(rest[0])
    ensures ParseInt(a + rest) == Some(DigitsValue(a))
  {
    var s := a + rest;
    assert s[0] == a[0];
    assert LeadingSpaces(s) == 0;
    assert SkipSign(s) == s;
    LeadingDigitsOf(a, rest);
  }

  /** `parseInt` reads back a rendered natural, whatever non-digit text follows it. */
  lemma ParseIntNatToString(n: nat, rest: string)
    requires rest == [] || !IsDigit(rest[0])
    ensures ParseInt(NatToString(n) + rest) == Some(n)
  {
    ParseIntDigits(NatToString(n), rest);
    NatToStringValue(n);
  }

  /** `String(n).padStart(2, '0')` for a rendering of at most two digits. */
  function PadStart2(s: string): (r: string)
    ensures |s| >= 2 ==> r == s
    ensures |s| < 2 ==> |r| == 2 && r[2 - |s|..] == s && forall i :: 0 <= i < 2 - |s| ==> r[i] == '0'
  {
    if |s| >= 2 then s else if |s| == 1 then "0" + s else "00"
  }

  /** A number below 100, padded to two digits, reads back as itself. */
  lemma PaddedValue(x: nat)
    requires x < 100
    ensures |PadStart2(NatToString(x))| == 2 && AllDigits(PadStart2(NatToString(x)))
    ensures DigitsValue(PadStart2(NatToString(x))) == x
  {
    var s := NatToString(x);
    NatToStringValue(x);
    if x < 10 {
      var p := PadStart2(s);
      assert p == ['0', s[0]];
      assert p[..1] == ['0'] && ['0'][..0] == [];
      assert s[..0] == [];
    } else {
      assert s == NatToString(x / 10) + [DigitChar(x % 10)];
    }
  }
}
