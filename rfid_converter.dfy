/** rfid_converter.py: the console converter; its key text is not padded. */
module RfidConverter {
  import opened Text
  import opened Decimal
  import opened Hex
  import opened CardFrame

  /**
   * `hex_to_fc_id`: the key text of the card in the frame. It fails exactly
   * when the shared decoding does; otherwise the text is two canonical
   * numbers around one "/", and the encoders read it back as the key decoded.
   */
  function HexToFcId(hex: string): (r: Result<string>)
    ensures r.Err? <==> ReadCard(hex).Err?
    ensures r.Err? ==> r.error == ReadCard(hex).error
    ensures r.Ok? ==> ParseKey(r.value) == ReadCard(hex)
    ensures r.Ok? ==> var parts := Split(r.value, '/');
      |parts| == 2 && IsCanonical(parts[0]) && IsCanonical(parts[1])
  {
    match ReadCard(hex)
    case Err(e) => Err(e)
    case Ok(k) => ParseKeyText(k); Ok(KeyText(k))
  }

  /** `fc_id_to_hex`: parse and check the key, then build the frame and render it. */
  method FcIdToHex(text: string) returns (r: Result<string>)
    ensures r == Encode(text)
  {
    var key := ParseKey(text);
    if key.Err? {
      return Err(key.error);
    }
    var data := AssembleFrame(key.value);
    r := Ok(Upper(ToHex(data)));
  }

  /** Encoding an in-range key and decoding the result gives back its key text. */
  lemma EncodeThenDecode(k: CardKey)
    requires InRange(k)
    ensures Encode(KeyText(k)).Ok?
    ensures HexToFcId(Encode(KeyText(k)).value) == Ok(KeyText(k))
  {
    ParseKeyText(k);
    FrameTextShape(k);
  }

  /**
   * Decoding a sixteen-digit frame text with the fixed prefix and terminator
   * and encoding the result gives back the input, upper-cased.
   */
  lemma DecodeThenEncode(s: string)
    requires |s| == 16 && ' ' !in s && IsHexText(Lower(s))
    requires Lower(s)[..8] == "66005300" && Lower(s)[14..] == "01"
    ensures HexToFcId(s).Ok? && Encode(HexToFcId(s).value) == Ok(Upper(s))
  {
    StandardFrameRoundTrip(s);
    ParseKeyText(ReadCard(s).value);
  }

  /** The sample frame of the console prompt, as a user types it. */
  lemma SampleFrame()
    ensures HexToFcId("6600530072A50101") == Ok("114/42241")
  {
    ReadSampleFrame();
    SampleKeyText();
  }

  /** Seven bytes are enough: the terminator is never looked at. */
  lemma SevenByteFrame()
    ensures HexToFcId("6600530072a501") == Ok("114/42241")
  {
    ReadSevenByteFrame();
    SampleKeyText();
  }

  /**
   * Too short, and not hex: both are reported, neither raises. The texts are
   * parameters so that the solver does not unfold the literals everywhere.
   */
  lemma MalformedFrames(short: string, letters: string)
    requires short == "abc" && letters == "zz00530072a50101"
    ensures HexToFcId(short) == Err(BadLength)
    ensures HexToFcId(letters) == Err(NotHex)
  {
    assert ' ' !in short && ' ' !in letters;
    RemoveSpacesKeeps(short);
    RemoveSpacesKeeps(letters);
    assert Normalize(letters)[0] == 'z';
  }
}
