/**
 * rfid_converter_gui.py: the two conversions behind the desktop form. This
 * decoder pads the ID to five digits, and the form tells a result from an
 * error by the word "Ошибка" at the start of the text it gets back.
 */
module RfidConverterGui {
  import opened Text
  import opened Decimal
  import opened Hex
  import opened CardFrame

  /** `f"{fc}/{card_id:05d}"` */
  function PaddedKeyText(k: CardKey): string
    requires InRange(k)
  {
    DecimalText(k.fc) + "/" + Padded(k.id, 5)
  }

  /**
   * The padded key text is the canonical FC, "/", and the ID in exactly five
   * digits, and the encoders read it back as the key it was made from.
   */
  lemma ParsePaddedKeyText(k: CardKey)
    requires InRange(k)
    ensures ParseKey(PaddedKeyText(k)) == Ok(k)
    ensures var parts := Split(PaddedKeyText(k), '/');
      |parts| == 2 && IsCanonical(parts[0]) && IsDigits(parts[1]) && |parts[1]| == 5
  {
    PaddedFive(k.id);
    ParseKeyDigits(DecimalText(k.fc), Padded(k.id, 5));
    SplitDigits(DecimalText(k.fc), Padded(k.id, 5));
  }

  /**
   * `hex_to_fc_id`: fails exactly when the shared decoding does; otherwise
   * the text is the canonical FC, "/", and the ID in exactly five digits,
   * and the encoder reads it back as the key decoded.
   */
  function HexToFcId(hex: string): (r: Result<string>)
    ensures r.Err? <==> ReadCard(hex).Err?
    ensures r.Err? ==> r.error == ReadCard(hex).error
    ensures r.Ok? ==> ParseKey(r.value) == ReadCard(hex)
    ensures r.Ok? ==> var parts := Split(r.value, '/');
      |parts| == 2 && IsCanonical(parts[0]) && IsDigits(parts[1]) && |parts[1]| == 5
  {
    match ReadCard(hex)
    case Err(e) => Err(e)
    case Ok(k) => ParsePaddedKeyText(k); Ok(PaddedKeyText(k))
  }

  /** `fc_id_to_hex`: parse and check the key, then build the frame and render it. */
  method FcIdToHex(text: string) returns (r: Result<string>)
    ensures r == Encode(text)
  {
    var key := ParseKey(text);
    if key.Err? {
      return Err(key.error);
    }
    var data := AssembleFrame(key.value);
    r := Ok(Upper(ToHex(data)));
  }

  /** The word every error text of this file starts with. */
  const ErrorMark := "Ошибка"

  /**
   * The error texts of `hex_to_fc_id` and `fc_id_to_hex`; where the source
   * appends the text of a caught exception, that text is not modelled.
   */
  function ErrorText(e: ErrorKind): (m: string)
    ensures ErrorMark <= m
  {
    match e
    case BadLength => ErrorMark + ": строка должна содержать минимум 14–16 hex-символов (7–8 байт)"
    case TooFewBytes => ErrorMark + ": недостаточно байтов для разбора"
    case NotHex => ErrorMark + " при разборе HEX: "
    case WrongFormat => ErrorMark + ": используйте формат FC/ID, например 114/42241"
    case NotInteger => ErrorMark + " при генерации HEX: "
    case OutOfRange => ErrorMark + ": FC должен быть 0–255, ID — 0–65535"
  }

  /** The text a conversion hands to the form. */
  function Shown(r: Result<string>): string {
    match r
    case Ok(v) => v
    case Err(e) => ErrorText(e)
  }

  /** The form's `startswith("Ошибка")` test tells decoding errors from results exactly. */
  lemma DecodeErrorMark(hex: string)
    ensures ErrorMark <= Shown(HexToFcId(hex)) <==> HexToFcId(hex).Err?
  {
    var r := HexToFcId(hex);
    if r.Ok? {
      var k := ReadCard(hex).value;
      assert r.value[0] == DecimalText(k.fc)[0];
      assert IsDigit(r.value[0]);
      assert ErrorMark[0] == 'О';
    }
  }

  /** The same test tells encoding errors from results exactly. */
  lemma EncodeErrorMark(text: string)
    ensures ErrorMark <= Shown(Encode(text)) <==> Encode(text).Err?
  {
    var r := Encode(text);
    if r.Ok? {
      assert r.value[0] == r.value[..8][0] == '6';
      assert ErrorMark[0] == 'О';
    }
  }

  /**
   * A key typed with or without zero padding encodes to the same frame, and
   * decoding that frame gives the padded key text.
   */
  lemma EncodeThenDecode(k: CardKey)
    requires InRange(k)
    ensures Encode(PaddedKeyText(k)) == Encode(KeyText(k)) && Encode(KeyText(k)).Ok?
    ensures HexToFcId(Encode(KeyText(k)).value) == Ok(PaddedKeyText(k))
  {
    ParseKeyText(k);
    ParsePaddedKeyText(k);
    FrameTextShape(k);
  }

  /**
   * Decoding a sixteen-digit frame text with the fixed prefix and terminator
   * and encoding the padded result gives back the input, upper-cased.
   */
  lemma DecodeThenEncode(s: string)
    requires |s| == 16 && ' ' !in s && IsHexText(Lower(s))
    requires Lower(s)[..8] == "66005300" && Lower(s)[14..] == "01"
    ensures HexToFcId(s).Ok? && Encode(HexToFcId(s).value) == Ok(Upper(s))
  {
    StandardFrameRoundTrip(s);
    ParsePaddedKeyText(ReadCard(s).value);
  }

  /** The form's HEX sample decodes to 114/42241, whose ID already has five digits. */
  lemma SampleFrame()
    ensures HexToFcId("6600530072A50101") == Ok("114/42241")
  {
    ReadSampleFrame();
    SampleKeyText();
    assert Padded(42241, 5) == DecimalText(42241);
  }

  /** FC 130 with ID 9023 is shown as 130/09023. */
  lemma PaddedSampleText()
    ensures PaddedKeyText(CardKey(130, 9023)) == "130/09023"
  {
    assert DecimalText(13) == DecimalText(1) + "3";
    assert DecimalText(130) == "130";
    assert DecimalText(902) == DecimalText(90) + "2";
    assert DecimalText(9023) == "9023";
    assert Padded(9023, 5) == Zeros(1) + "9023";
  }

  /** The form's FC/ID sample 130/09023, with its zero-padded ID, round-trips. */
  lemma SampleKey()
    ensures Encode("130/09023").Ok? && HexToFcId(Encode("130/09023").value) == Ok("130/09023")
  {
    PaddedSampleText();
    EncodeThenDecode(CardKey(130, 9023));
  }
}
