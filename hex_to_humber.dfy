/** doc/hex-to-humber.py: the stand-alone decoder from a frame to FC/ID text. */
module HexToHumber {
  import opened Text
  import opened Decimal
  import opened Hex
  import opened CardFrame
  import RfidConverter

  /**
   * `extract_card_info`: fails exactly when the shared decoding does, with
   * its error; otherwise the text is two canonical numbers around one "/",
   * and the encoders read it back as the key in the frame.
   */
  function ExtractCardInfo(hex: string): (r: Result<string>)
    ensures r.Err? <==> ReadCard(hex).Err?
    ensures r.Err? ==> r.error == ReadCard(hex).error
    ensures r.Ok? ==> ParseKey(r.value) == ReadCard(hex)
    ensures r.Ok? ==> var parts := Split(r.value, '/');
      |parts| == 2 && IsCanonical(parts[0]) && IsCanonical(parts[1])
  {
    var key := ReadCard(hex);
    if key.Err? then Err(key.error)
    else
      ParseKeyText(key.value);
      Ok(KeyText(key.value))
  }

  /** This script and the console converter decode every input alike. */
  lemma SameAsConverter(hex: string)
    ensures ExtractCardInfo(hex) == RfidConverter.HexToFcId(hex)
  {
  }

  /**
   * Any frame of seven or more bytes, rendered in either letter case, gives
   * byte 4 as FC and bytes 5-6 big-endian as ID, whatever the other bytes are.
   */
  lemma AnyFrame(data: seq<Byte>)
    requires |data| >= MinBytes
    ensures ExtractCardInfo(ToHex(data)) == Ok(KeyText(CardKey(data[4], 256 * (data[5] as int) + data[6])))
    ensures ExtractCardInfo(Text.Upper(ToHex(data))) == ExtractCardInfo(ToHex(data))
  {
    ReadAnyFrame(data);
  }

  /** The sample frame 66 00 53 00 72 A5 01 01 decodes to 114/42241. */
  lemma SampleFrame()
    ensures ExtractCardInfo("6600530072A50101") == Ok("114/42241")
  {
    ReadSampleFrame();
    SampleKeyText();
  }
}
