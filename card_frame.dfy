/**
 * The card frame the encoders write: eight bytes, written as sixteen hex
 * digits,
 *
 *   bytes 0-3  fixed prefix 66 00 53 00
 *   byte  4    facility code (FC), 0..255
 *   bytes 5-6  card ID, big-endian, 0..65535
 *   byte  7    terminator 01
 *
 * and the card key "FC/ID" that names it. The decoders are more lenient:
 * they accept seven or more bytes with any prefix and terminator, or none,
 * and read only bytes 4-6. The decoding and encoding steps
 * that all converter variants share are defined here once; the variants
 * differ only in how they format the key and word their errors.
 */
module CardFrame {
  import opened Wrappers
  import opened Text
  import opened Decimal
  import opened Hex
  import opened Bits

  /** The failures the converters report as "Ошибка..." texts. */
  datatype ErrorKind =
    | BadLength    // fewer than 14 hex characters, or an odd number of them
    | NotHex       // `bytes.fromhex` rejected the text
    | TooFewBytes  // fewer than 7 bytes after parsing
    | WrongFormat  // the text does not split on "/" into exactly two parts
    | NotInteger   // `int()` rejected one of the parts
    | OutOfRange   // FC outside 0..255 or ID outside 0..65535

  datatype Result<+T> = Ok(value: T) | Err(error: ErrorKind)

  datatype CardKey = CardKey(fc: int, id: int)

  predicate InRange(k: CardKey) {
    0 <= k.fc <= 255 && 0 <= k.id <= 65535
  }

  const MinHexChars := 14
  const MinBytes := 7
  const Prefix: seq<Byte> := [0x66, 0x00, 0x53, 0x00]
  const Terminator: Byte := 0x01

  /** `hex_string.replace(" ", "").lower()`: no spaces, no upper-case letters, and normalizing again changes nothing. */
  function Normalize(s: string): (r: string)
    ensures |r| <= |s| && ' ' !in r && Lower(r) == r
  {
    var t := RemoveSpaces(s);
    LowerTwice(t);
    assert forall i :: 0 <= i < |t| ==> Lower(t)[i] != ' ';
    Lower(t)
  }

  /** `(hi << 8) | lo`: the two bytes as one big-endian number. */
  function BigEndian(hi: Byte, lo: Byte): (v: int)
    ensures v == 256 * (hi as int) + lo
  {
    assert Pow2(8) == 256;
    ShiftLeftMul(hi, 8);
    OrOfShifted(hi, lo, 8);
    BitOr(ShiftLeft(hi, 8), lo)
  }

  /** Normalized text the decoders accept: at least 14 hex digits, an even number of them. */
  predicate IsFrameText(s: string) {
    |s| >= MinHexChars && |s| % 2 == 0 && IsHexText(s)
  }

  /**
   * The decoding common to every `hex_to_fc_id` variant: normalize, check the
   * length, parse the bytes, take FC from byte 4 and the ID from bytes 5-6.
   */
  function ReadCard(hex: string): (r: Result<CardKey>)
    ensures r.Ok? <==> IsFrameText(Normalize(hex))
    ensures r == Err(BadLength) <==> |Normalize(hex)| < MinHexChars || |Normalize(hex)| % 2 != 0
    ensures r.Err? ==> r.error == BadLength || r.error == NotHex
    ensures r.Ok? ==> InRange(r.value)
    ensures r.Ok? ==> r.value.fc == PairValue(Normalize(hex), 4)
    ensures r.Ok? ==> r.value.id == 256 * PairValue(Normalize(hex), 5) + PairValue(Normalize(hex), 6)
  {
    var s := Normalize(hex);
    if |s| < MinHexChars || |s| % 2 != 0 then Err(BadLength)
    else
      match FromHex(s)
      case None => Err(NotHex)
      case Some(data) =>
        if |data| < MinBytes then assert false; Err(TooFewBytes)
        else Ok(CardKey(data[4], BigEndian(data[5], data[6])))
  }

  /** The decoders look only at bytes 4-6: texts that agree there read the same. */
  lemma ReadCardFieldBytes(s: string, t: string)
    requires IsFrameText(Normalize(s)) && IsFrameText(Normalize(t))
    requires Normalize(s)[8..14] == Normalize(t)[8..14]
    ensures ReadCard(s) == ReadCard(t)
  {
    var a, b := Normalize(s), Normalize(t);
    assert forall j :: 8 <= j < 14 ==> a[j] == a[8..14][j - 8] == b[8..14][j - 8] == b[j];
    SamePair(a, b, 4);
    SamePair(a, b, 5);
    SamePair(a, b, 6);
  }

  /** Two texts with the same digits at `2 * i` and `2 * i + 1` have the same byte `i`. */
  lemma SamePair(a: string, b: string, i: nat)
    requires IsHexText(a) && IsHexText(b) && 2 * i + 1 < |a| && 2 * i + 1 < |b|
    requires a[2 * i] == b[2 * i] && a[2 * i + 1] == b[2 * i + 1]
    ensures PairValue(a, i) == PairValue(b, i)
  {
  }

  /** Letter case does not matter to the decoders. */
  lemma ReadCardIgnoresCase(s: string, t: string)
    requires Lower(s) == Lower(t)
    ensures ReadCard(s) == ReadCard(t)
  {
    LowerRemoveSpaces(s);
    LowerRemoveSpaces(t);
  }

  /** A space anywhere in the input does not matter to the decoders. */
  lemma ReadCardIgnoresSpaces(a: string, b: string)
    ensures ReadCard(a + " " + b) == ReadCard(a + b)
  {
    assert Normalize(a + " " + b) == Normalize(a + b) by {
      RemoveSpacesAppend(a + " ", b);
      RemoveSpacesAppend(a, " ");
      RemoveSpacesAppend(a, b);
      assert RemoveSpaces(" ") == [];
    }
    SameNormalForm(a + " " + b, a + b);
  }

  /** Every frame of seven or more bytes decodes, in either letter case, to its bytes 4-6. */
  lemma ReadAnyFrame(data: seq<Byte>)
    requires |data| >= MinBytes
    ensures ReadCard(ToHex(data)) == Ok(CardKey(data[4], 256 * (data[5] as int) + data[6]))
    ensures ReadCard(Upper(ToHex(data))) == ReadCard(ToHex(data))
  {
    var t := ToHex(data);
    UpperHex(t);
    LowerHexText(t);
    RemoveSpacesKeeps(t);
    RemoveSpacesKeeps(Upper(t));
    assert Normalize(t) == t;
    assert Normalize(Upper(t)) == t;
    FromHexToHex(data);
    assert IsFrameText(t);
    assert data[4] == PairValue(t, 4) && data[5] == PairValue(t, 5) && data[6] == PairValue(t, 6);
    var r := ReadCard(t);
    assert r.Ok?;
    assert r.value.fc == data[4];
    assert r.value.id == 256 * (data[5] as int) + data[6];
    assert r.value == CardKey(data[4], 256 * (data[5] as int) + data[6]);
  }

  /**
   * The decimal key text; `f"{fc}/{card_id}"` in the unpadded variants.
   */
  function KeyText(k: CardKey): string
    requires InRange(k)
  {
    DecimalText(k.fc) + "/" + DecimalText(k.id)
  }

  /**
   * The key text is two canonical numbers around one "/", and the encoders
   * read it back as the key it was made from.
   */
  lemma ParseKeyText(k: CardKey)
    requires InRange(k)
    ensures ParseKey(KeyText(k)) == Ok(k)
    ensures var parts := Split(KeyText(k), '/');
      |parts| == 2 && IsCanonical(parts[0]) && IsCanonical(parts[1])
  {
    ParseKeyDigits(DecimalText(k.fc), DecimalText(k.id));
    SplitDigits(DecimalText(k.fc), DecimalText(k.id));
  }

  /**
   * The parsing common to every `fc_id_to_hex` variant: strip, split on "/",
   * read both parts with `int()`, check the ranges.
   */
  function ParseKey(text: string): (r: Result<CardKey>)
    ensures r == Err(WrongFormat) <==> Count(Strip(text), '/') != 1
    ensures r.Err? ==> r.error == WrongFormat || r.error == NotInteger || r.error == OutOfRange
    ensures r.Ok? ==> InRange(r.value)
  {
    var parts := Split(Strip(text), '/');
    if |parts| != 2 then Err(WrongFormat)
    else
      match (ParseInt(parts[0]), ParseInt(parts[1]))
      case (Some(fc), Some(id)) =>
        if 0 <= fc <= 255 && 0 <= id <= 65535 then Ok(CardKey(fc, id)) else Err(OutOfRange)
      case _ => Err(NotInteger)
  }

  /**
   * For text of the form `a/b` (no whitespace around it): a part `int()`
   * rejects gives NotInteger; otherwise the key is accepted exactly when both
   * numbers are in range, and OutOfRange is reported when either is not.
   */
  lemma ParseKeyParts(a: string, b: string)
    requires '/' !in a && '/' !in b
    requires a == [] || !IsSpace(a[0])
    requires b == [] || !IsSpace(b[|b| - 1])
    ensures ParseInt(a).None? || ParseInt(b).None? ==> ParseKey(a + "/" + b) == Err(NotInteger)
    ensures ParseInt(a).Some? && ParseInt(b).Some? ==>
      var k := CardKey(ParseInt(a).value, ParseInt(b).value);
      ParseKey(a + "/" + b) == if InRange(k) then Ok(k) else Err(OutOfRange)
  {
    KeyTextParts(a, b);
  }

  /** `a/b` without surrounding whitespace is left alone by `strip` and splits into `a` and `b`. */
  lemma KeyTextParts(a: string, b: string)
    requires '/' !in a && '/' !in b
    requires a == [] || !IsSpace(a[0])
    requires b == [] || !IsSpace(b[|b| - 1])
    ensures Split(Strip(a + "/" + b), '/') == [a, b]
  {
    var s := a + "/" + b;
    assert s[0] == (if a == [] then '/' else a[0]);
    assert s[|s| - 1] == (if b == [] then '/' else b[|b| - 1]);
    StripKeeps(s);
    SplitPair(a, b, '/');
  }

  /** Two digit strings joined by "/" split back into the two of them. */
  lemma SplitDigits(a: string, b: string)
    requires AllDigits(a) && AllDigits(b)
    ensures Split(a + "/" + b, '/') == [a, b]
  {
    assert '/' !in a && '/' !in b by {
      assert forall c :: c in a ==> exists i :: 0 <= i < |a| && a[i] == c;
      assert forall c :: c in b ==> exists i :: 0 <= i < |b| && b[i] == c;
    }
    SplitPair(a, b, '/');
  }

  /** The encoders read back any pair of digit strings whose numbers are in range. */
  lemma ParseKeyDigits(a: string, b: string)
    requires IsDigits(a) && IsDigits(b)
    requires InRange(CardKey(DigitsValue(a), DigitsValue(b)))
    ensures ParseKey(a + "/" + b) == Ok(CardKey(DigitsValue(a), DigitsValue(b)))
  {
    assert '/' !in a && '/' !in b by {
      assert forall c :: c in a ==> exists i :: 0 <= i < |a| && a[i] == c;
      assert forall c :: c in b ==> exists i :: 0 <= i < |b| && b[i] == c;
    }
    KeyTextParts(a, b);
    ParseDigits(a);
    ParseDigits(b);
  }

  /** Whitespace typed before or after the key does not change how it parses. */
  lemma ParseKeyPadding(w: string, t: string, w': string)
    requires AllSpace(w) && AllSpace(w')
    ensures ParseKey(w + t + w') == ParseKey(t)
  {
    StripPadding(w, t, w');
    SameStripped(w + t + w', t);
  }

  /** The encoders see only the stripped input. */
  lemma SameStripped(s: string, t: string)
    requires Strip(s) == Strip(t)
    ensures ParseKey(s) == ParseKey(t)
  {
  }

  /** The frame of a key, written with arithmetic: the reference for `AssembleFrame`. */
  function Frame(k: CardKey): (f: seq<Byte>)
    requires InRange(k)
    ensures |f| == 8 && f[..4] == Prefix && f[7] == Terminator
    ensures f[4] == k.fc && 256 * (f[5] as int) + f[6] == k.id
  {
    Prefix + [k.fc, k.id / 256, k.id % 256, Terminator]
  }

  /**
   * The `bytearray` the encoders build step by step, with the source's
   * `(card_id >> 8) & 0xFF` and `card_id & 0xFF` for the two ID bytes.
   */
  method AssembleFrame(k: CardKey) returns (data: seq<Byte>)
    requires InRange(k)
    ensures data == Frame(k)
  {
    IdBytes(k.id);
    var hi: Byte := BitAnd(ShiftRight(k.id, 8), 0xFF);
    var lo: Byte := BitAnd(k.id, 0xFF);
    data := [];
    data := data + Prefix;       // fixed part
    data := data + [k.fc];       // FC
    data := data + [hi];         // high byte of the ID
    data := data + [lo];         // low byte of the ID
    data := data + [Terminator]; // terminating byte
  }

  /** `(card_id >> 8) & 0xFF` and `card_id & 0xFF` are the high and low byte of a 16-bit ID. */
  lemma IdBytes(id: nat)
    requires id <= 65535
    ensures BitAnd(ShiftRight(id, 8), 0xFF) == id / 256 < 256
    ensures BitAnd(id, 0xFF) == id % 256
  {
    assert Pow2(8) == 256;
    ShiftRightDiv(id, 8);
    AndMask(id / 256, 8);
    AndMask(id, 8);
  }

  /** The encoders' output text for a key: `data.hex().upper()`. */
  function FrameText(k: CardKey): (r: string)
    requires InRange(k)
    ensures |r| == 16 && IsUpperHexText(r)
    ensures Lower(r) == ToHex(Frame(k))
  {
    UpperHex(ToHex(Frame(k)));
    Upper(ToHex(Frame(k)))
  }

  /** The fixed bytes as `bytes.hex().upper()` writes them. */
  lemma FixedBytesText()
    ensures Upper(ToHex(Prefix)) == "66005300"
    ensures Upper(ToHex([Terminator])) == "01"
  {
    assert ToHex([0x00]) == "00";
    assert ToHex([0x53, 0x00]) == "53" + ToHex([0x00]);
    assert ToHex([0x00, 0x53, 0x00]) == "00" + ToHex([0x53, 0x00]);
    assert ToHex(Prefix) == "66" + ToHex([0x00, 0x53, 0x00]);
    assert ToHex([Terminator]) == "01";
  }

  /**
   * The encoded text is sixteen upper-case hex digits, starts with 66005300,
   * ends with 01, and decodes back to the key it was made from.
   */
  lemma FrameTextShape(k: CardKey)
    requires InRange(k)
    ensures |FrameText(k)| == 16 && IsUpperHexText(FrameText(k))
    ensures FrameText(k)[..8] == "66005300" && FrameText(k)[14..] == "01"
    ensures ReadCard(FrameText(k)) == Ok(k)
  {
    assert |FrameText(k)| == 16 && IsUpperHexText(FrameText(k)) by {
      UpperHex(ToHex(Frame(k)));
    }
    assert FrameText(k)[..8] == "66005300" && FrameText(k)[14..] == "01" by {
      FrameTextPieces(k);
    }
    FrameTextReads(k);
  }

  /** The encoded text of a key decodes to that key. */
  lemma FrameTextReads(k: CardKey)
    requires InRange(k)
    ensures ReadCard(FrameText(k)) == Ok(k)
  {
    var f := Frame(k);
    assert CardKey(f[4], 256 * (f[5] as int) + f[6]) == k;
    ReadAnyFrame(f);
  }

  /** The frame text is the fixed prefix text, six digits for FC and the ID, and the terminator text. */
  lemma FrameTextPieces(k: CardKey)
    requires InRange(k)
    ensures FrameText(k) == "66005300" + Upper(ToHex([k.fc, k.id / 256, k.id % 256])) + "01"
  {
    var middle: seq<Byte> := [k.fc, k.id / 256, k.id % 256];
    assert Frame(k) == Prefix + middle + [Terminator];
    ToHexAppend(Prefix + middle, [Terminator]);
    ToHexAppend(Prefix, middle);
    UpperAppend(ToHex(Prefix) + ToHex(middle), ToHex([Terminator]));
    UpperAppend(ToHex(Prefix), ToHex(middle));
    FixedBytesText();
  }

  /**
   * A sixteen-digit frame text with the fixed prefix and terminator, in any
   * letter case and without spaces, decodes to a key whose frame text is the
   * upper-cased input: decoding then encoding gives the input back.
   */
  lemma StandardFrameRoundTrip(s: string)
    requires |s| == 16 && ' ' !in s && IsHexText(Lower(s))
    requires Lower(s)[..8] == "66005300" && Lower(s)[14..] == "01"
    ensures ReadCard(s).Ok? && FrameText(ReadCard(s).value) == Upper(s)
  {
    var t := Lower(s);
    assert ReadCard(s) == ReadCard(t) by {
      RemoveSpacesKeeps(s);
      LowerHexText(t);
      NormalizeKeeps(t);
      SameNormalForm(s, t);
    }
    assert Upper(t) == Upper(s) by {
      UpperLower(s);
    }
    StandardTextKey(t);
  }

  /** The same for a text already in normal form. */
  lemma StandardTextKey(t: string)
    requires |t| == 16 && IsHexText(t) && t[..8] == "66005300" && t[14..] == "01"
    ensures ReadCard(t).Ok? && FrameText(ReadCard(t).value) == Upper(t)
  {
    StandardBytes(t);
    var d := FromHex(t).value;
    assert ToHex(d) == t by {
      ToHexFromHex(t, d);
    }
    var k := CardKey(d[4], 256 * (d[5] as int) + d[6]);
    assert ReadCard(t) == Ok(k) by {
      ReadAnyFrame(d);
    }
    FrameOfBytes(d);
  }

  /** Eight bytes with the fixed prefix and terminator are the frame of the key in bytes 4-6. */
  lemma FrameOfBytes(d: seq<Byte>)
    requires |d| == 8 && d[..4] == Prefix && d[7] == Terminator
    ensures Frame(CardKey(d[4], 256 * (d[5] as int) + d[6])) == d
  {
    var id := 256 * (d[5] as int) + d[6];
    DivModUnique(id, 256, d[5], d[6]);
    assert d == d[..4] + [d[4], d[5], d[6], d[7]];
  }

  /** The decoders see only the normal form of their input. */
  lemma SameNormalForm(s: string, t: string)
    requires Normalize(s) == Normalize(t)
    ensures ReadCard(s) == ReadCard(t)
  {
  }

  /** Sixteen hex digits with the fixed prefix and terminator are eight bytes 66 00 53 00 ... 01. */
  lemma StandardBytes(t: string)
    requires |t| == 16 && IsHexText(t) && t[..8] == "66005300" && t[14..] == "01"
    ensures FromHex(t).Some? && |FromHex(t).value| == 8
    ensures FromHex(t).value[..4] == Prefix && FromHex(t).value[7] == Terminator
  {
    var d := FromHex(t).value;
    assert t[0] == '6' && t[1] == '6' && t[2] == '0' && t[3] == '0' by {
      assert forall i :: 0 <= i < 8 ==> t[i] == t[..8][i];
    }
    assert t[4] == '5' && t[5] == '3' && t[6] == '0' && t[7] == '0' by {
      assert forall i :: 0 <= i < 8 ==> t[i] == t[..8][i];
    }
    assert t[14] == '0' && t[15] == '1' by {
      assert t[14] == t[14..][0] && t[15] == t[14..][1];
    }
    assert d[0] == PairValue(t, 0) == 0x66;
    assert d[1] == PairValue(t, 1) == 0x00;
    assert d[2] == PairValue(t, 2) == 0x53;
    assert d[3] == PairValue(t, 3) == 0x00;
    assert d[7] == PairValue(t, 7) == 0x01;
    assert d[..4] == [d[0], d[1], d[2], d[3]];
  }

  /** A text without spaces or upper-case letters is its own normal form. */
  lemma NormalizeKeeps(s: string)
    requires ' ' !in s && Lower(s) == s
    ensures Normalize(s) == s
  {
    RemoveSpacesKeeps(s);
  }

  /**
   * The fields of the sample frame 66 00 53 00 72 a5 01 01, with or without
   * its terminator. The text is a parameter so that one proof serves both.
   */
  lemma SampleFields(t: string)
    requires t == "6600530072a50101" || t == "6600530072a501"
    ensures IsFrameText(t) && Lower(t) == t && ' ' !in t
    ensures PairValue(t, 4) == 114 && PairValue(t, 5) == 0xA5 && PairValue(t, 6) == 0x01
  {
  }

  /** The sample frame holds FC 114 (0x72) and ID 42241 (0xA501). */
  lemma ReadSampleFrame()
    ensures ReadCard("6600530072A50101") == Ok(CardKey(114, 42241))
  {
    var s := "6600530072A50101";
    var t := "6600530072a50101";
    assert ' ' !in s && Lower(s) == t;
    RemoveSpacesKeeps(s);
    SampleFields(t);
  }

  /** The sample key is written 114/42241. */
  lemma SampleKeyText()
    ensures KeyText(CardKey(114, 42241)) == "114/42241"
  {
    DecimalStep(11, "1");
    DecimalStep(114, "11");
    DecimalStep(42, "4");
    DecimalStep(422, "42");
    DecimalStep(4224, "422");
    DecimalStep(42241, "4224");
  }

  /** The same frame without its terminator is accepted too. */
  lemma ReadSevenByteFrame()
    ensures ReadCard("6600530072a501") == Ok(CardKey(114, 42241))
  {
    SampleFields("6600530072a501");
    NormalizeKeeps("6600530072a501");
  }

  /** Different in-range keys never give the same frame text. */
  lemma FrameTextInjective(k1: CardKey, k2: CardKey)
    requires InRange(k1) && InRange(k2)
    requires FrameText(k1) == FrameText(k2)
    ensures k1 == k2
  {
    FrameTextShape(k1);
    FrameTextShape(k2);
  }

  /**
   * What every `fc_id_to_hex` variant returns: the parse error, or the frame
   * text, which is sixteen upper-case hex digits with the fixed prefix and
   * terminator and decodes back to the key that was typed.
   */
  function Encode(text: string): (r: Result<string>)
    ensures r.Err? <==> ParseKey(text).Err?
    ensures r.Err? ==> r.error == ParseKey(text).error
    ensures r.Ok? ==> |r.value| == 16 && IsUpperHexText(r.value)
    ensures r.Ok? ==> r.value[..8] == "66005300" && r.value[14..] == "01"
    ensures r.Ok? ==> ReadCard(r.value) == ParseKey(text)
  {
    match ParseKey(text)
    case Err(e) => Err(e)
    case Ok(k) => FrameTextShape(k); Ok(FrameText(k))
  }
}
