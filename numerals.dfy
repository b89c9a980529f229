/** Positional rendering of integers, as the formatting libraries do it for
    `{:d}`, `{:x}` and `{:b}` (lower-case digits, a leading '-' for negative
    values, no prefix), and the inverse reading of a digit string. */
module Numerals {

  const DIGITS: string := "0123456789abcdef"

  predicate ValidBase(b: nat) { 2 <= b <= 16 }

  function DigitChar(d: nat): char
    requires d < 16
  {
    DIGITS[d]
  }

  /** Value of digit character `c`, or 16 when it is not a lower-case digit. */
  function DigitValue(c: char): (v: nat)
    ensures v <= 16
    ensures v < 16 ==> DigitChar(v) == c
  {
    if '0' <= c <= '9' then c as int - '0' as int
    else if 'a' <= c <= 'f' then c as int - 'a' as int + 10
    else 16
  }

  lemma DigitRoundTrip(d: nat)
    requires d < 16
    ensures DigitValue(DigitChar(d)) == d
  {
  }

  /** Every character of `s` is a digit of base `b`. */
  predicate IsDigits(s: string, b: nat)
  {
    forall i :: 0 <= i < |s| ==> DigitValue(s[i]) < b
  }

  predicate IsDecimalDigit(c: char) { '0' <= c <= '9' }

  /** Every character of `s` is a decimal digit. */
  predicate AllDecimal(s: string)
  {
    forall i :: 0 <= i < |s| ==> IsDecimalDigit(s[i])
  }

  /** Length of the run of decimal digits `s` starts with
      (`find_first_not_of("0123456789")` with npos mapped to the length). */
  function LeadingDigits(s: string): (n: nat)
    ensures n <= |s| && AllDecimal(s[..n])
    ensures n < |s| ==> !IsDecimalDigit(s[n])
  {
    if |s| == 0 || !IsDecimalDigit(s[0]) then 0
    else
      var rest := LeadingDigits(s[1..]);
      assert s[..rest + 1] == [s[0]] + s[1..][..rest];
      rest + 1
  }

  /** `n` written in base `b` with no leading zeros ("0" for zero). */
  function NatToBase(n: nat, b: nat): (s: string)
    requires ValidBase(b)
    ensures |s| > 0
    decreases n
  {
    if n < b then [DigitChar(n)] else NatToBase(n / b, b) + [DigitChar(n % b)]
  }

  /** The value of the digit string `s` read in base `b`. */
  function BaseValue(s: string, b: nat): nat
    requires ValidBase(b) && IsDigits(s, b)
  {
    if |s| == 0 then 0 else BaseValue(s[..|s| - 1], b) * b + DigitValue(s[|s| - 1])
  }

  lemma AppendDigit(s: string, d: nat, b: nat)
    requires ValidBase(b) && d < b && IsDigits(s, b)
    ensures IsDigits(s + [DigitChar(d)], b)
    ensures (s + [DigitChar(d)])[..|s|] == s
  {
    DigitRoundTrip(d);
  }

  lemma DivModBounds(n: nat, b: nat)
    requires ValidBase(b) && n >= b
    ensures 0 <= n % b < b && 0 < n / b < n
    ensures n == (n / b) * b + n % b
  {
  }

  lemma {:induction false} NatToBaseDigits(n: nat, b: nat)
    requires ValidBase(b)
    ensures IsDigits(NatToBase(n, b), b)
    decreases n
  {
    if n >= b {
      DivModBounds(n, b);
      NatToBaseDigits(n / b, b);
      AppendDigit(NatToBase(n / b, b), n % b, b);
    } else {
      AppendDigit([], n, b);
    }
  }

  /** Reading back what NatToBase wrote gives the number again. */
  lemma {:induction false} NatToBaseRoundTrip(n: nat, b: nat)
    requires ValidBase(b)
    ensures IsDigits(NatToBase(n, b), b)
    ensures BaseValue(NatToBase(n, b), b) == n
    decreases n
  {
    NatToBaseDigits(n, b);
    if n < b {
      BaseValueSnoc([], n, b);
      assert NatToBase(n, b) == [] + [DigitChar(n)];
    } else {
      DivModBounds(n, b);
      NatToBaseRoundTrip(n / b, b);
      BaseValueSnoc(NatToBase(n / b, b), n % b, b);
    }
  }

  /** Appending digit `d` multiplies the value by the base and adds `d`. */
  lemma BaseValueSnoc(p: string, d: nat, b: nat)
    requires ValidBase(b) && d < b && IsDigits(p, b)
    ensures IsDigits(p + [DigitChar(d)], b)
    ensures BaseValue(p + [DigitChar(d)], b) == BaseValue(p, b) * b + d
  {
    AppendDigit(p, d, b);
    DigitRoundTrip(d);
  }

  /** Distinct numbers are written differently. */
  lemma NatToBaseInjective(m: nat, n: nat, b: nat)
    requires ValidBase(b)
    requires NatToBase(m, b) == NatToBase(n, b)
    ensures m == n
  {
    NatToBaseRoundTrip(m, b);
    NatToBaseRoundTrip(n, b);
  }

  function Decimal(n: nat): string
  {
    NatToBase(n, 10)
  }

  lemma DecimalIsDecimalDigits(n: nat)
    ensures forall i :: 0 <= i < |Decimal(n)| ==> IsDecimalDigit(Decimal(n)[i])
    ensures ' ' !in Decimal(n)
  {
    NatToBaseDigits(n, 10);
    var s := Decimal(n);
    forall i | 0 <= i < |s| ensures IsDecimalDigit(s[i]) {
      assert DigitValue(s[i]) < 10;
    }
  }

  /** Signed rendering: a '-' in front of the magnitude for negative values,
      which is what fmt does for `{:d}`, `{:x}` and `{:b}` of a signed cell. */
  function SignedToBase(v: int, b: nat): (s: string)
    requires ValidBase(b)
    ensures |s| > 0
    ensures v < 0 <==> s[0] == '-'
  {
    NatToBaseDigits(if v < 0 then -v else v, b);
    if v < 0 then "-" + NatToBase(-v, b) else NatToBase(v, b)
  }

  function DecDigit(c: char): nat
    requires IsDecimalDigit(c)
  {
    c as int - '0' as int
  }

  /** Value of a string of decimal digits (the digit prefix `stoi`/`strtol` read). */
  function DecimalValue(s: string): nat
    requires forall i :: 0 <= i < |s| ==> IsDecimalDigit(s[i])
  {
    if |s| == 0 then 0 else DecimalValue(s[..|s| - 1]) * 10 + DecDigit(s[|s| - 1])
  }

  /** DecimalValue reads back what Decimal wrote. */
  lemma {:induction false} DecimalRoundTrip(n: nat)
    ensures forall i :: 0 <= i < |Decimal(n)| ==> IsDecimalDigit(Decimal(n)[i])
    ensures DecimalValue(Decimal(n)) == n
    decreases n
  {
    DecimalIsDecimalDigits(n);
    var s := Decimal(n);
    if n < 10 {
      assert s[..|s| - 1] == [];
    } else {
      DecimalRoundTrip(n / 10);
      assert s[..|s| - 1] == Decimal(n / 10);
    }
  }

  /** A run of digits followed by a non-digit has exactly that length. */
  lemma {:induction false} LeadingDigitsExact(s: string, k: nat)
    requires k < |s| && AllDecimal(s[..k]) && !IsDecimalDigit(s[k])
    ensures LeadingDigits(s) == k
    decreases k
  {
    if k > 0 {
      assert IsDecimalDigit(s[..k][0]);
      var t := s[1..];
      var u := t[..k - 1];
      forall i | 0 <= i < |u|
        ensures IsDecimalDigit(u[i])
      {
        assert u[i] == s[..k][i + 1];
      }
      assert t[k - 1] == s[k];
      LeadingDigitsExact(t, k - 1);
    }
  }

  /** Distinct signed values are written differently. */
  lemma SignedToBaseInjective(u: int, v: int, b: nat)
    requires ValidBase(b)
    requires SignedToBase(u, b) == SignedToBase(v, b)
    ensures u == v
  {
    var s := SignedToBase(u, b);
    assert (u < 0 <==> s[0] == '-') && (v < 0 <==> s[0] == '-');
    Magnitude(u, b);
    Magnitude(v, b);
    if u < 0 {
      assert NatToBase(-u, b) == s[1..] == NatToBase(-v, b);
      NatToBaseInjective(-u, -v, b);
    } else {
      assert NatToBase(u, b) == s == NatToBase(v, b);
      NatToBaseInjective(u, v, b);
    }
  }

  /** What follows the sign is the magnitude in base `b`. */
  lemma Magnitude(v: int, b: nat)
    requires ValidBase(b)
    ensures v < 0 ==> SignedToBase(v, b)[1..] == NatToBase(-v, b)
    ensures v >= 0 ==> SignedToBase(v, b) == NatToBase(v, b)
  {
  }
}
