# RFID frame ⇄ FC/ID converter, in Dafny

This project models the conversion logic of a small RFID credential tool.
The encoders write a card frame as a hex string holding eight bytes:

- the fixed prefix `66 00 53 00` (bytes 0–3);
- the facility code, FC (byte 4);
- the card ID, big-endian (bytes 5–6);
- the terminator `01` (byte 7).

The decoders are more lenient than that. They accept seven or more bytes with any prefix and any terminator, or none, and read only bytes 4–6.

The tool converts such a frame to the text `FC/ID` and back. The repository has four copies of this logic:

- the console converter `rfid_converter.py`;
- the desktop form's `rfid_converter_gui.py`, which pads the ID to five digits;
- the stand-alone encoder `number-to-hex.py`;
- the stand-alone decoder `doc/hex-to-humber.py`.

Modules:

- `Wrappers`, `Text`, `Decimal`, `Hex` and `Bits` model the Python built-ins the conversions rely on:
  - `str.replace(" ", "")`, `lower`, `upper`, `strip` and `split`, and the `f"{n}"` and `f"{n:05d}"` formats;
  - `int()`;
  - `bytes.fromhex` and `bytes.hex`;
  - `<<`, `>>`, `&` and `|` on non-negative integers.
- `CardFrame` holds what all copies share:
  - `ReadCard`, the decoding with its error cases;
  - `ParseKey`, the parsing and range check of `FC/ID`;
  - `Frame`, the byte layout written with arithmetic;
  - `AssembleFrame`, the `bytearray` build with the source's bit operations, proved equal to `Frame`;
  - `Encode`, the result of every encoder.
- `RfidConverter`, `RfidConverterGui`, `NumberToHex` and `HexToHumber` model one source file each. Each is proved against the shared definitions.

Errors are values. The Python functions return an error text that starts with "Ошибка" instead of raising. The model gives each failure an `ErrorKind`:

- `BadLength`: too short or an odd length;
- `NotHex`: `bytes.fromhex` raised;
- `TooFewBytes`: fewer than 7 bytes;
- `WrongFormat`: not exactly one "/";
- `NotInteger`: `int()` raised;
- `OutOfRange`: FC outside 0–255 or ID outside 0–65535.

`RfidConverterGui.ErrorText` renders the desktop form's message texts. The form separates results from errors with `startswith("Ошибка")`, and the model proves that this test is exact.

The source checks for fewer than seven bytes after the length check. That branch is reachable in the source but not in the model. `bytes.fromhex` skips whitespace between digit pairs, and `replace(" ", "")` removes only spaces, so fourteen characters with tabs among them can make fewer than seven bytes. The model's `FromHex` does not skip whitespace (see "Left out"). Every text it accepts holds only hex digits, so fourteen or more of them always make at least seven bytes, and `ReadCard` proves the branch unreachable.

## Model

| member | source | states |
|---|---|---|
| CardFrame.ReadCard | rfid_converter.py:1-18 | Succeeds exactly when the input, with spaces removed and lower-cased, has at least 14 hex digits and an even number of them. Fails with the length error exactly when it is shorter than 14 or odd, and with the hex error otherwise. On success FC is byte 4 and the ID is 256·byte 5 + byte 6, both in range |
| CardFrame.BigEndian | rfid_converter.py:14 | `(hi << 8) OR lo` equals 256·hi + lo for two bytes |
| CardFrame.ReadCardFieldBytes | rfid_converter.py:13-14 | Two accepted frames that agree in hex digits 8–13 (bytes 4–6) decode to the same key, whatever their prefix, terminator or extra bytes |
| CardFrame.ReadCardIgnoresCase | rfid_converter.py:3 | Inputs equal after lower-casing decode alike |
| CardFrame.ReadCardIgnoresSpaces | rfid_converter.py:3 | A space anywhere in the input does not change the decoding |
| CardFrame.ReadAnyFrame | rfid_converter.py:1-16 | The hex rendering of any byte sequence of length 7 or more, lower or upper case, decodes to byte 4 and bytes 5–6 big-endian |
| CardFrame.ReadSampleFrame | rfid_converter.py:55 | The prompt's sample `6600530072A50101` decodes to FC 114, ID 42241 |
| CardFrame.ReadSevenByteFrame | rfid_converter.py:5 | A 14-digit frame without a terminator is accepted and decodes to FC 114, ID 42241 |
| CardFrame.ParseKey | rfid_converter.py:21-31 | After stripping, the text fails with the format error exactly when it does not hold exactly one "/". Every error is the format, integer or range error, and a key that is returned is in range. `ParseKeyParts` gives the result for every stripped `a/b`, and `ParseKeyPadding` carries it over to text with whitespace around it |
| CardFrame.ParseKeyPadding | rfid_converter.py:23 | Whitespace before and after the typed key does not change the parse |
| CardFrame.ParseKeyParts | rfid_converter.py:27-31 | For `a/b`: a part `int()` rejects gives the integer error. Otherwise the key is returned exactly when both numbers are in range, and the range error is returned when either is not |
| CardFrame.ParseKeyDigits | rfid_converter.py:27-28 | Any two digit strings around "/", leading zeros allowed, whose values are in range parse to those values |
| CardFrame.ParseKeyText | rfid_converter.py:16 | `KeyText`, the unpadded `f"{fc}/{card_id}"`, is two canonical decimals around one "/", and it parses back to the key |
| CardFrame.Normalize | rfid_converter.py:3 | `replace(" ", "").lower()` is no longer than the input, holds no space and no upper-case letter |
| CardFrame.FrameText | rfid_converter.py:40 | `data.hex().upper()` of a frame is 16 upper-case hex digits, and lower-casing it gives back `hex()` of the frame |
| CardFrame.Frame | rfid_converter.py:33-38 | The frame is 8 bytes: the prefix 66 00 53 00, then FC, then the two ID bytes that recombine big-endian to the ID, then 01 |
| CardFrame.AssembleFrame | rfid_converter.py:33-38 | Building the bytearray with `+=`, `append`, `>> 8` and `& 0xFF` yields exactly `Frame(k)` |
| CardFrame.IdBytes | rfid_converter.py:36-37 | For an ID up to 65535, `(card_id >> 8) & 0xFF` is the quotient by 256, below 256, and `card_id & 0xFF` is the remainder |
| CardFrame.FrameOfBytes | rfid_converter.py:33-38 | Every eight bytes with the fixed prefix and terminator are the frame of the key held in bytes 4–6 |
| CardFrame.FrameTextReads | rfid_converter.py:1-16 | Decoding the encoded text of a key gives that key |
| CardFrame.StandardTextKey | rfid_converter.py:1-40 | A lower-case 16-digit frame with the fixed prefix and terminator decodes to a key whose encoded text is the frame upper-cased |
| CardFrame.KeyTextParts | rfid_converter.py:23 | `a/b` with no whitespace at its ends and no "/" in `a` or `b` is left alone by `strip` and splits into `[a, b]` |
| CardFrame.FixedBytesText | rfid_converter.py:34 | The fixed bytes render as `66005300` and `01` |
| CardFrame.FrameTextShape | rfid_converter.py:40 | The rendered frame has 16 upper-case hex digits, starts with `66005300`, ends with `01`, and decodes back to the key |
| CardFrame.StandardFrameRoundTrip | rfid_converter.py:1-40 | A 16-digit frame with the fixed prefix and terminator decodes, and re-rendering the key gives back the input upper-cased |
| CardFrame.FrameTextInjective | rfid_converter.py:33-40 | Distinct keys give distinct frames |
| CardFrame.Encode | rfid_converter.py:21-42 | Fails exactly when the parse fails, with the same error. Otherwise the result is 16 upper-case hex digits with the fixed prefix and terminator, and it decodes to the parsed key |
| RfidConverter.HexToFcId | rfid_converter.py:1-18 | Fails exactly when decoding fails, with the same error. Otherwise the text is two canonical decimals around one "/" and parses back to the decoded key |
| RfidConverter.FcIdToHex | rfid_converter.py:21-42 | The imperative encoder returns exactly `Encode(text)` |
| RfidConverter.EncodeThenDecode | rfid_converter.py:1-42 | Encoding the key text of an in-range key, then decoding, gives the same text back |
| RfidConverter.DecodeThenEncode | rfid_converter.py:1-42 | Decoding a standard 16-digit frame, then encoding, gives the input upper-cased |
| RfidConverter.SampleFrame | rfid_converter.py:55 | `6600530072A50101` gives `114/42241` |
| RfidConverter.SevenByteFrame | rfid_converter.py:5-10 | `6600530072a501` (7 bytes) gives `114/42241` |
| RfidConverter.MalformedFrames | rfid_converter.py:5-8 | `abc` gives the length error, and a 16-character text containing `z` gives the hex error |
| RfidConverterGui.HexToFcId | rfid_converter_gui.py:44-62 | Like the console decoder, except that the ID part is exactly five digits |
| RfidConverterGui.ParsePaddedKeyText | rfid_converter_gui.py:60 | `PaddedKeyText`, `f"{fc}/{card_id:05d}"`, is the canonical FC, "/" and the ID in exactly five digits, and it parses back to the key |
| RfidConverterGui.FcIdToHex | rfid_converter_gui.py:65-86 | The form's imperative encoder returns exactly `Encode(text)` |
| RfidConverterGui.ErrorText | rfid_converter_gui.py:49-86 | Every error message starts with "Ошибка" |
| RfidConverterGui.DecodeErrorMark | rfid_converter_gui.py:197-203 | On `Shown`, the text the form gets back from the decoder (the result, or the error message), the `startswith("Ошибка")` test holds exactly for errors |
| RfidConverterGui.EncodeErrorMark | rfid_converter_gui.py:211-217 | On `Shown` of the encoder's result, the same test holds exactly for errors |
| RfidConverterGui.EncodeThenDecode | rfid_converter_gui.py:60 | A key typed with or without zero padding encodes to the same frame, and decoding it gives the padded key text |
| RfidConverterGui.DecodeThenEncode | rfid_converter_gui.py:44-86 | Decoding a standard 16-digit frame, then encoding the padded text, gives the input upper-cased |
| RfidConverterGui.SampleFrame | rfid_converter_gui.py:151 | The form's HEX sample gives `114/42241` |
| RfidConverterGui.PaddedSampleText | rfid_converter_gui.py:179 | FC 130 with ID 9023 is shown as `130/09023` |
| RfidConverterGui.SampleKey | rfid_converter_gui.py:179 | The form's FC/ID sample `130/09023` encodes, and decoding the frame gives `130/09023` back |
| NumberToHex.EncodeCard | number-to-hex.py:1-25 | The imperative encoder returns exactly `Encode(text)` |
| NumberToHex.DigitKeysRange | number-to-hex.py:8-12 | For two digit strings, a frame is produced exactly when FC ≤ 255 and ID ≤ 65535. Otherwise the range error is returned, never a truncated byte |
| NumberToHex.NegativeFcRejected | number-to-hex.py:11-12 | A negative FC is refused with the range error |
| NumberToHex.NegativeIdRejected | number-to-hex.py:11-12 | A negative ID is refused with the range error |
| NumberToHex.PlusSignsAccepted | number-to-hex.py:8-9 | `int()` accepts a plus sign, so `+a/+b` encodes exactly like `a/b` |
| NumberToHex.PaddedInput | number-to-hex.py:4 | Whitespace before and after the input, as `strip()` removes it, does not change the result |
| HexToHumber.ExtractCardInfo | doc/hex-to-humber.py:1-23 | Fails exactly when decoding fails, with the same error. Otherwise the text is two canonical decimals around one "/" and parses back to the decoded key |
| HexToHumber.SameAsConverter | doc/hex-to-humber.py:1-23 | This decoder and the console decoder agree on every input |
| HexToHumber.AnyFrame | doc/hex-to-humber.py:17-21 | Any frame of 7 or more bytes, in either letter case, gives byte 4 and bytes 5–6 as text |
| HexToHumber.SampleFrame | doc/hex-to-humber.py:17-21 | `6600530072A50101` gives `114/42241` |
| Text.RemoveSpaces | rfid_converter.py:3 | The result has no space and is no longer than the input |
| Text.RemoveSpacesKeeps | rfid_converter.py:3 | Text without spaces is unchanged |
| Text.LowerRemoveSpaces | rfid_converter.py:3 | Removing spaces and lower-casing commute |
| Text.Lower | rfid_converter.py:3 | `lower()` keeps the length, leaves no upper-case letter, keeps every other character, and maps each character to one with the same upper-case form |
| Text.Upper | rfid_converter.py:40 | `upper()` keeps the length, leaves no lower-case letter, keeps every other character, and maps each character to one with the same lower-case form |
| Text.LowerTwice | rfid_converter.py:3 | Lower-casing twice is lower-casing once |
| Text.UpperLower | rfid_converter.py:40 | Upper-casing after lower-casing is the same as upper-casing alone |
| Text.TrimStart | rfid_converter.py:23 | The result is a suffix of the input, everything before it is whitespace (Python's `str.isspace` set), and it does not start with whitespace |
| Text.TrimEnd | rfid_converter.py:23 | The result is a prefix of the input, everything after it is whitespace, and it does not end with whitespace |
| Text.Strip | rfid_converter.py:23 | The result is a slice of the input, everything before and after the slice is whitespace, and it neither starts nor ends with whitespace |
| Text.StripKeeps | rfid_converter.py:23 | Text that neither starts nor ends with whitespace is unchanged |
| Text.StripPadding | rfid_converter.py:23 | Whitespace added before and after a text does not change what `strip()` gives |
| Text.Split | rfid_converter.py:23 | `split("/")` gives one more part than there are separators, and no part contains the separator |
| Text.JoinSplit | rfid_converter.py:23 | Joining the parts of a split with the separator gives back the text |
| Text.SplitPair | rfid_converter.py:23-24 | `a/b` with no "/" in `a` or `b` splits into exactly `[a, b]` |
| Decimal.DecimalText | rfid_converter.py:16 | `f"{n}"` is canonical decimal: no leading zero, and it reads back as n |
| Decimal.Padded | rfid_converter_gui.py:60 | `f"{n:05d}"` is all digits, reads back as n, and has at least the width. It is longer than the width only when it is the plain decimal text |
| Decimal.PaddedFive | rfid_converter_gui.py:60 | An ID below 100000 is padded to exactly five digits |
| Decimal.ParseInt | rfid_converter.py:27-28 | `int()` succeeds exactly on an optional sign followed by digits, and a negative value comes only from "-" |
| Decimal.ParseMinus | rfid_converter.py:27-28 | `int()` reads "-" followed by digits as the negated value of the digits |
| Decimal.ParsePlus | rfid_converter.py:27-28 | `int()` reads "+" followed by digits as the value of the digits, the same as without the sign |
| Decimal.LeadingZeros | rfid_converter.py:27-28 | Leading zeros do not change the value `int()` reads |
| Hex.FromHex | rfid_converter.py:8 | `bytes.fromhex` on lower-case text, which is all it is given after `lower()`, succeeds exactly on an even number of lower-case hex digits, gives half as many bytes, and byte i is digit pair i |
| Hex.ToHex | rfid_converter.py:40 | `bytes.hex()` gives two lower-case hex digits per byte |
| Hex.FromHexToHex | rfid_converter.py:8 | `fromhex` reads back every `hex()` rendering |
| Hex.ToHexFromHex | rfid_converter.py:8 | A text `fromhex` accepts is exactly the `hex()` rendering of its bytes |
| Hex.UpperHex | rfid_converter.py:40 | Upper-casing a rendering gives upper-case hex digits without spaces, and lower-casing restores it |
| Bits.OrOfShifted | rfid_converter.py:14 | `BitOr`, Python's bitwise OR defined bit by bit: `(x << k) OR lo` equals x·2^k + lo when lo < 2^k |
| Bits.ShiftLeftMul | rfid_converter.py:14 | `ShiftLeft`, Python's `<<` defined as repeated doubling: `x << k` is x·2^k |
| Bits.ShiftRightDiv | rfid_converter.py:36 | `ShiftRight`, Python's `>>` defined as repeated halving: `x >> k` is floor division of x by 2^k |
| Bits.AndMask | rfid_converter.py:36-37 | `BitAnd`, Python's `&` defined bit by bit: `v & (2^k − 1)` equals v mod 2^k, so `& 0xFF` keeps the low byte |

## Left out

- The Tkinter window: widgets, clipboard paste, status bar and automatic conversion while typing. Only the `startswith("Ошибка")` test the form applies to results is modelled.
- The console loops (`input`, `print`, `exit`) of the three scripts.
- The text of a caught exception, appended to some error messages: it comes from the Python runtime.
- The exact error texts of the three console scripts: they are errors by kind only. The desktop form's texts are modelled.
- Decimal.ParseInt: does not model underscores between digits, non-ASCII digits, or whitespace around a part, which `int()` also accepts. Such parts are reported as the integer error.
- Decimal.ParseInt: does not model the 4300-digit limit of current CPython's `int()` on decimal text (`sys.int_info.default_max_str_digits`), where leading zeros count. A longer part raises ValueError, which the source reports as the integer error. The model reads digit strings of any length, so for `"1" * 4301 + "/5"` it gives the range error, and `"0" * 4300 + "1/5"` encodes.
- Decimal.LeadingZeros: the digits of each part it reads, without the sign and with leading zeros, must number at most 4300 for the promise to hold in CPython, because of that limit.
- Decimal.ParseMinus: the digits of each part it reads, without the sign and with leading zeros, must number at most 4300 for the promise to hold in CPython, because of that limit. Past it, `int()` raises instead of reading the negated value.
- Decimal.ParsePlus: the digits of each part it reads, without the sign and with leading zeros, must number at most 4300 for the promise to hold in CPython, because of that limit. Past it, `int()` raises instead of reading the value.
- CardFrame.ParseKeyDigits: the digits of each part it reads, without the sign and with leading zeros, must number at most 4300 for the promise to hold in CPython, because of that limit.
- NumberToHex.DigitKeysRange: the digits of each part it reads, without the sign and with leading zeros, must number at most 4300 for the promise to hold in CPython, because of that limit. Past it, the source gives the integer error, not the range error.
- NumberToHex.NegativeFcRejected: the digits of each part it reads, without the sign and with leading zeros, must number at most 4300 for the promise to hold in CPython, because of that limit. Past it, the source gives the integer error, not the range error.
- NumberToHex.NegativeIdRejected: the digits of each part it reads, without the sign and with leading zeros, must number at most 4300 for the promise to hold in CPython, because of that limit. Past it, the source gives the integer error, not the range error.
- Hex.FromHex: does not model `bytes.fromhex` skipping whitespace other than spaces (tabs, newlines) between digit pairs. Spaces are removed before it is called. Other whitespace is reported as the hex error. This changes results in two ways. First, it makes the fewer-than-seven-bytes branch unreachable in the model: `66005300` followed by six tabs gives that error in the source and the hex error in the model. Second, it turns some source successes into the hex error: `66005300\t\t72a501` decodes to `114/42241` in the source.
- Text.Lower and Text.Upper: change ASCII letters only, not the Unicode case mappings of `str.lower` and `str.upper`. Those can change a string's length, for example for 'İ'.
- A table of per-card prefixes and a hash-derived fallback prefix are not in the code of these four files. Every encoder here writes the fixed prefix `66 00 53 00`, and the model follows the code.
- A 16-digit minimum for decoding is not in the code of these four files. All decoders accept 14 or more digits, and the model follows the code.
