/** number-to-hex.py: the stand-alone encoder from FC/ID text to a frame. */
module NumberToHex {
  import opened Text
  import opened Decimal
  import opened Hex
  import opened CardFrame

  /** `encode_card`: parse and check the key, then build the frame and render it. */
  method EncodeCard(text: string) returns (r: Result<string>)
    ensures r == Encode(text)
  {
    var key := ParseKey(text);
    if key.Err? {
      return Err(key.error);
    }
    var data := AssembleFrame(key.value);
    r := Ok(Upper(ToHex(data)));
  }

  /** A digit string holds no "/" and does not start or end with white space. */
  lemma DigitsAlone(s: string)
    requires IsDigits(s)
    ensures '/' !in s && !IsSpace(s[0]) && !IsSpace(s[|s| - 1])
  {
  }

  /**
   * Two digit strings around "/" give a frame exactly when FC is at most 255
   * and ID at most 65535; otherwise the range error, never a truncated byte.
   */
  lemma DigitKeysRange(a: string, b: string)
    requires IsDigits(a) && IsDigits(b)
    ensures Encode(a + "/" + b).Ok? <==> DigitsValue(a) <= 255 && DigitsValue(b) <= 65535
    ensures Encode(a + "/" + b).Err? ==> Encode(a + "/" + b).error == OutOfRange
  {
    DigitsAlone(a);
    DigitsAlone(b);
    ParseDigits(a);
    ParseDigits(b);
    ParseKeyParts(a, b);
  }

  /** A sign before digits leaves no "/" and no whitespace at either end. */
  lemma SignedDigits(sign: char, a: string)
    requires IsDigits(a) && (sign == '-' || sign == '+')
    ensures '/' !in [sign] + a
    ensures !IsSpace(([sign] + a)[0]) && !IsSpace(([sign] + a)[|a|])
  {
    var m := [sign] + a;
    assert forall i :: 1 <= i < |m| ==> m[i] == a[i - 1];
  }

  /** A negative FC is refused as out of range. */
  lemma NegativeFcRejected(a: string, b: string)
    requires IsDigits(a) && IsDigits(b) && DigitsValue(a) > 0
    ensures Encode("-" + a + "/" + b) == Err(OutOfRange)
  {
    var m := "-" + a;
    assert "-" + a + "/" + b == m + "/" + b;
    DigitsAlone(b);
    ParseDigits(b);
    SignedDigits('-', a);
    ParseMinus(a);
    ParseKeyParts(m, b);
  }

  /** A negative ID is refused as out of range. */
  lemma NegativeIdRejected(a: string, b: string)
    requires IsDigits(a) && IsDigits(b) && DigitsValue(b) > 0
    ensures Encode(a + "/" + "-" + b) == Err(OutOfRange)
  {
    var m := "-" + b;
    assert a + "/" + "-" + b == a + "/" + m;
    DigitsAlone(a);
    ParseDigits(a);
    SignedDigits('-', b);
    ParseMinus(b);
    ParseKeyParts(a, m);
  }

  /** `int()` accepts a plus sign, so "+114/+42241" encodes like "114/42241". */
  lemma PlusSignsAccepted(a: string, b: string)
    requires IsDigits(a) && IsDigits(b)
    ensures Encode("+" + a + "/" + "+" + b) == Encode(a + "/" + b)
  {
    var m, n := "+" + a, "+" + b;
    assert "+" + a + "/" + "+" + b == m + "/" + n;
    assert ParseKey(m + "/" + n) == ParseKey(a + "/" + b) by {
      SignedDigits('+', a);
      SignedDigits('+', b);
      ParsePlus(a);
      ParsePlus(b);
      DigitsAlone(a);
      DigitsAlone(b);
      ParseKeyParts(m, n);
      ParseKeyParts(a, b);
    }
  }

  /** Whitespace typed around the key, as `strip()` removes it, does not change the frame. */
  lemma PaddedInput(w: string, t: string, w': string)
    requires AllSpace(w) && AllSpace(w')
    ensures Encode(w + t + w') == Encode(t)
  {
    ParseKeyPadding(w, t, w');
  }
}
