/**
 * Decimal text as the converters use it: Python's `f"{n}"` and
 * `f"{n:05d}"` for non-negative numbers, and `int(text)`.
 */
module Decimal {
  import opened Wrappers

  predicate IsDigit(c: char) {
    '0' <= c <= '9'
  }

  predicate AllDigits(s: string) {
    forall i :: 0 <= i < |s| ==> IsDigit(s[i])
  }

  /** One or more decimal digits. */
  predicate IsDigits(s: string) {
    |s| >= 1 && AllDigits(s)
  }

  /** A digit string as `f"{n}"` writes it: no superfluous leading zero. */
  predicate IsCanonical(s: string) {
    IsDigits(s) && (s[0] == '0' ==> |s| == 1)
  }

  function DigitChar(d: int): (c: char)
    requires 0 <= d < 10
    ensures IsDigit(c)
  {
    ('0' as int + d) as char
  }

  function DigitValue(c: char): int
    requires IsDigit(c)
  {
    c as int - '0' as int
  }

  /** The number a digit string denotes, most significant digit first. */
  function DigitsValue(s: string): nat
    requires AllDigits(s)
  {
    if s == [] then 0 else 10 * DigitsValue(s[..|s| - 1]) + DigitValue(s[|s| - 1])
  }

  /** `f"{n}"`: the canonical decimal text of `n`, read back by `DigitsValue`. */
  function DecimalText(n: nat): (r: string)
    ensures IsCanonical(r)
    ensures DigitsValue(r) == n
  {
    if n < 10 then [DigitChar(n)]
    else
      var t := DecimalText(n / 10);
      var r := t + [DigitChar(n % 10)];
      assert r[..|r| - 1] == t;
      r
  }

  /** One more digit on the right of a number's text. */
  lemma DecimalStep(n: nat, t: string)
    requires n >= 10 && DecimalText(n / 10) == t
    ensures DecimalText(n) == t + [DigitChar(n % 10)]
  {
  }

  function Pow10(k: nat): nat {
    if k == 0 then 1 else 10 * Pow10(k - 1)
  }

  lemma {:induction false} DecimalTextLength(n: nat, k: nat)
    requires 1 <= k && n < Pow10(k)
    ensures |DecimalText(n)| <= k
  {
    if n >= 10 {
      DecimalTextLength(n / 10, k - 1);
    }
  }

  function Zeros(k: nat): (z: string)
    ensures |z| == k && AllDigits(z)
  {
    seq(k, _ => '0')
  }

  lemma {:induction false} ZerosValue(k: nat)
    ensures DigitsValue(Zeros(k)) == 0
  {
    if k > 0 {
      assert Zeros(k)[..k - 1] == Zeros(k - 1);
      ZerosValue(k - 1);
    }
  }

  /** Leading zeros do not change the number a digit string denotes. */
  lemma {:induction false} LeadingZeros(k: nat, t: string)
    requires AllDigits(t)
    ensures AllDigits(Zeros(k) + t) && DigitsValue(Zeros(k) + t) == DigitsValue(t)
  {
    var s := Zeros(k) + t;
    if t == [] {
      assert s == Zeros(k);
      ZerosValue(k);
    } else {
      assert s[..|s| - 1] == Zeros(k) + t[..|t| - 1];
      LeadingZeros(k, t[..|t| - 1]);
    }
  }

  /** `f"{n:0{width}d}"` for `n >= 0`: the decimal text, zero-filled on the left to `width`. */
  function Padded(n: nat, width: nat): (r: string)
    ensures IsDigits(r) && DigitsValue(r) == n
    ensures |r| >= width
    ensures |r| > width ==> r == DecimalText(n)
  {
    var t := DecimalText(n);
    if |t| >= width then t
    else
      LeadingZeros(width - |t|, t);
      Zeros(width - |t|) + t
  }

  /** The digits of `f"{id:05d}"` for an id of at most five digits. */
  lemma PaddedFive(n: nat)
    requires n < 100000
    ensures |Padded(n, 5)| == 5
  {
    DecimalTextLength(n, 5);
  }

  /**
   * `int(s)` for the texts this model admits: an optional sign and one or
   * more ASCII decimal digits, leading zeros allowed.
   */
  function ParseInt(s: string): (r: Option<int>)
    ensures r.Some? <==> IsDigits(s) || (|s| >= 2 && (s[0] == '-' || s[0] == '+') && IsDigits(s[1..]))
    ensures r.Some? && r.value < 0 ==> s[0] == '-'
  {
    if |s| >= 1 && (s[0] == '-' || s[0] == '+') then
      if IsDigits(s[1..]) then
        Some(if s[0] == '-' then -(DigitsValue(s[1..]) as int) else DigitsValue(s[1..]))
      else None
    else if IsDigits(s) then Some(DigitsValue(s))
    else None
  }

  /** `int` reads back every digit string, in particular `f"{n}"` and `f"{n:05d}"`. */
  lemma ParseDigits(s: string)
    requires IsDigits(s)
    ensures ParseInt(s) == Some(DigitsValue(s))
  {
  }

  /** `int("-" + a)` is the negated number of the digits `a`. */
  lemma ParseMinus(a: string)
    requires IsDigits(a)
    ensures ParseInt("-" + a) == Some(-(DigitsValue(a) as int))
  {
    assert ("-" + a)[1..] == a;
  }

  /** `int("+" + a)` is the number of the digits `a`: a plus sign changes nothing. */
  lemma ParsePlus(a: string)
    requires IsDigits(a)
    ensures ParseInt("+" + a) == ParseInt(a) == Some(DigitsValue(a))
  {
    assert ("+" + a)[1..] == a;
  }
}
