/**
 * Hexadecimal text as the converters use it: Python's `bytes.fromhex`
 * and `bytes.hex()` (followed by `.upper()` on the encoding side).
 */
module Hex {
  import opened Wrappers
  import opened Text

  type Byte = b: int | 0 <= b < 256

  /** The digits `bytes.fromhex` accepts once the text is lower-cased. */
  predicate IsHexDigit(c: char) {
    '0' <= c <= '9' || 'a' <= c <= 'f'
  }

  predicate IsHexText(s: string) {
    forall i :: 0 <= i < |s| ==> IsHexDigit(s[i])
  }

  predicate IsUpperHexText(s: string) {
    forall i :: 0 <= i < |s| ==> '0' <= s[i] <= '9' || 'A' <= s[i] <= 'F'
  }

  function HexValue(c: char): (v: int)
    requires IsHexDigit(c)
    ensures 0 <= v < 16
  {
    if c <= '9' then c as int - '0' as int else c as int - 'a' as int + 10
  }

  function HexDigit(v: int): (c: char)
    requires 0 <= v < 16
    ensures IsHexDigit(c) && HexValue(c) == v
  {
    if v < 10 then ('0' as int + v) as char else ('a' as int + v - 10) as char
  }

  lemma HexDigitOfValue(c: char)
    requires IsHexDigit(c)
    ensures HexDigit(HexValue(c)) == c
  {
  }

  /** The byte written by the digit pair starting at character `2 * i`. */
  function PairValue(s: string, i: nat): Byte
    requires 2 * i + 1 < |s| && IsHexText(s)
  {
    16 * HexValue(s[2 * i]) + HexValue(s[2 * i + 1])
  }

  /**
   * `bytes.fromhex(s)` for text without whitespace: it succeeds exactly when
   * the text is an even number of hex digits, and then byte `i` is the pair
   * of digits at `2 * i`, high nibble first.
   */
  function FromHex(s: string): (r: Option<seq<Byte>>)
    ensures r.Some? <==> |s| % 2 == 0 && IsHexText(s)
    ensures r.Some? ==> |r.value| == |s| / 2
    ensures r.Some? ==> forall i :: 0 <= i < |r.value| ==> r.value[i] == PairValue(s, i)
  {
    if |s| == 0 then Some([])
    else if |s| == 1 || !IsHexDigit(s[0]) || !IsHexDigit(s[1]) then None
    else
      match FromHex(s[2..])
      case None => None
      case Some(rest) =>
        assert forall i :: 1 <= i < |s| / 2 ==> PairValue(s, i) == PairValue(s[2..], i - 1);
        Some([16 * HexValue(s[0]) + HexValue(s[1])] + rest)
  }

  /** `data.hex()`: two lower-case digits per byte, high nibble first. */
  function ToHex(b: seq<Byte>): (s: string)
    ensures |s| == 2 * |b| && IsHexText(s)
  {
    if b == [] then [] else [HexDigit(b[0] / 16), HexDigit(b[0] % 16)] + ToHex(b[1..])
  }

  /** `bytes.fromhex` reads back what `bytes.hex()` writes. */
  lemma {:induction false} FromHexToHex(b: seq<Byte>)
    ensures FromHex(ToHex(b)) == Some(b)
  {
    if b != [] {
      var s := ToHex(b);
      assert s[2..] == ToHex(b[1..]);
      FromHexToHex(b[1..]);
      assert [b[0]] + b[1..] == b;
    }
  }

  lemma PairSplit(hi: int, lo: int)
    requires 0 <= hi < 16 && 0 <= lo < 16
    ensures (16 * hi + lo) / 16 == hi && (16 * hi + lo) % 16 == lo
  {
  }

  /** `FromHex` and `ToHex` are inverse in the other direction too. */
  lemma {:induction false} ToHexFromHex(s: string, b: seq<Byte>)
    requires FromHex(s) == Some(b)
    ensures ToHex(b) == s
  {
    if s != [] {
      var rest := FromHex(s[2..]);
      assert rest.Some? && b == [16 * HexValue(s[0]) + HexValue(s[1])] + rest.value;
      assert b[1..] == rest.value;
      ToHexFromHex(s[2..], b[1..]);
      PairSplit(HexValue(s[0]), HexValue(s[1]));
      HexDigitOfValue(s[0]);
      HexDigitOfValue(s[1]);
      assert ToHex(b) == [s[0], s[1]] + s[2..];
    }
  }

  /** Upper-casing lower-case hex text yields the upper-case digits, and lower-casing undoes it. */
  lemma UpperHex(s: string)
    requires IsHexText(s)
    ensures IsUpperHexText(Upper(s)) && ' ' !in Upper(s)
    ensures Lower(Upper(s)) == s
  {
    forall i | 0 <= i < |s| ensures Lower(Upper(s))[i] == s[i] {
      if 'a' <= s[i] <= 'f' {
        assert ToUpperChar(s[i]) as int == s[i] as int - 32;
      }
    }
    assert forall c :: c in Upper(s) ==> exists i :: 0 <= i < |s| && Upper(s)[i] == c;
  }

  /** Lower-case hex text holds no space and is its own lower-case form. */
  lemma LowerHexText(s: string)
    requires IsHexText(s)
    ensures ' ' !in s && Lower(s) == s
  {
    assert forall c :: c in s ==> exists i :: 0 <= i < |s| && s[i] == c;
  }

  lemma {:induction false} ToHexAppend(a: seq<Byte>, b: seq<Byte>)
    ensures ToHex(a + b) == ToHex(a) + ToHex(b)
  {
    if a != [] {
      assert (a + b)[0] == a[0] && (a + b)[1..] == a[1..] + b;
      ToHexAppend(a[1..], b);
      var d := [HexDigit(a[0] / 16), HexDigit(a[0] % 16)];
      assert ToHex(a + b) == d + ToHex(a[1..] + b);
      assert ToHex(a) == d + ToHex(a[1..]);
    } else {
      assert a + b == b;
    }
  }
}
