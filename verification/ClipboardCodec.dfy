/** The text formats of the clipboard channel. */
module ClipboardCodec {
  import opened Basics

  type Byte = x: int | 0 <= x < 0x100

  type CodeUnit = x: int | 0 <= x < 0x1_0000

  /** A string as UTF-16 code units. */
  type Text = seq<CodeUnit>

  const CF_TEXT := 1
  const CF_OEMTEXT := 7
  const CF_UNICODETEXT := 13
  const MAXIMUM_TEXT_BYTES := 16 * 1024 * 1024
  const BYTE_ORDER_MARK := 0xFEFF

  /** The conversion to and from the 8-bit encoding of the locale. */
  datatype Locale = Locale(toLocal: Text -> seq<Byte>, fromLocal: seq<Byte> -> Text)

  /** Little-endian code units. */
  function Units(text: Text): seq<Byte> {
    seq(2 * |text|, i requires 0 <= i < 2 * |text| =>
      if i % 2 == 0 then text[i / 2] % 0x100 else text[i / 2] / 0x100)
  }

  function FromUnits(bytes: seq<Byte>): Text
    requires |bytes| % 2 == 0
  {
    seq(|bytes| / 2, i requires 0 <= i < |bytes| / 2 => (bytes[2 * i] as int) + 0x100 * (bytes[2 * i + 1] as int))
  }

  /** The UTF-16 decoder takes a byte order mark at the start as such. */
  function WithoutMark(text: Text): Text {
    if |text| > 0 && text[0] == BYTE_ORDER_MARK then text[1..] else text
  }

  function WithoutTrailingNuls(text: Text): Text {
    if |text| > 0 && text[|text| - 1] == 0 then WithoutTrailingNuls(text[..|text| - 1]) else text
  }

  /** The text and its terminating NUL; nothing for an unknown format. */
  function Encode(text: Text, format: uint32, locale: Locale): seq<Byte> {
    if format == CF_UNICODETEXT then Units(text + [0])
    else if format == CF_TEXT || format == CF_OEMTEXT then locale.toLocal(text) + [0]
    else []
  }

  method EncodeClipboardText(text: Text, format: uint32, locale: Locale) returns (encoded: seq<Byte>)
    ensures encoded == Encode(text, format, locale)
  {
    if format == CF_UNICODETEXT {
      encoded := Units(text);
      encoded := encoded + [0, 0];
      assert encoded == Units(text + [0]);
      return;
    }
    if format == CF_TEXT || format == CF_OEMTEXT {
      encoded := locale.toLocal(text);
      encoded := encoded + [0];
      return;
    }
    return [];
  }

  /** What decoding answers: nothing for absent or oversized data, an odd number of bytes, or an unknown format. */
  function Decode(data: Option<seq<Byte>>, format: uint32, locale: Locale): Option<Text> {
    if data.None? || |data.value| > MAXIMUM_TEXT_BYTES then None
    else if format == CF_UNICODETEXT then
      if |data.value| % 2 != 0 then None else Some(WithoutTrailingNuls(WithoutMark(FromUnits(data.value))))
    else if format == CF_TEXT || format == CF_OEMTEXT then Some(WithoutTrailingNuls(locale.fromLocal(data.value)))
    else None
  }

  method DecodeClipboardText(data: Option<seq<Byte>>, format: uint32, locale: Locale) returns (r: Option<Text>)
    ensures r == Decode(data, format, locale)
  {
    if data.None? || |data.value| > MAXIMUM_TEXT_BYTES {
      return None;
    }
    var text: Text;
    if format == CF_UNICODETEXT {
      if |data.value| % 2 != 0 {
        return None;
      }
      text := WithoutMark(FromUnits(data.value));
    } else if format == CF_TEXT || format == CF_OEMTEXT {
      text := locale.fromLocal(data.value);
    } else {
      return None;
    }
    ghost var converted := text;
    while |text| > 0 && text[|text| - 1] == 0
      invariant WithoutTrailingNuls(text) == WithoutTrailingNuls(converted)
      decreases |text|
    {
      text := text[..|text| - 1];
    }
    return Some(text);
  }

  /** Chopping leaves the longest prefix that does not end in a NUL. */
  lemma {:induction false} ChoppedText(text: Text)
    ensures var r := WithoutTrailingNuls(text);
            && |r| <= |text| && r == text[..|r|]
            && (r == [] || r[|r| - 1] != 0)
            && forall i :: |r| <= i < |text| ==> text[i] == 0
  {
    if |text| > 0 && text[|text| - 1] == 0 {
      ChoppedText(text[..|text| - 1]);
    }
  }

  lemma UnitsRoundTrip(text: Text)
    ensures |Units(text)| == 2 * |text| && FromUnits(Units(text)) == text
  {
  }

  /** Encoding and decoding Unicode text: refused exactly when it exceeds the limit, otherwise the text without a
      leading byte order mark and without trailing NULs. */
  lemma UnicodeRoundTrip(text: Text, locale: Locale)
    ensures Decode(Some(Encode(text, CF_UNICODETEXT, locale)), CF_UNICODETEXT, locale) ==
            if 2 * |text| + 2 > MAXIMUM_TEXT_BYTES then None
            else Some(WithoutTrailingNuls(WithoutMark(text)))
  {
    UnitsRoundTrip(text + [0]);
    if |text| > 0 {
      assert WithoutMark(text + [0]) == WithoutMark(text) + [0];
    }
    var kept := WithoutMark(text + [0]);
    assert kept[..|kept| - 1] == WithoutMark(text);
  }

  /** The text comes back unchanged exactly if it is within the limit, does not start with a byte order mark and does
      not end in a NUL. */
  lemma UnicodeTextSurvivesIff(text: Text, locale: Locale)
    ensures Decode(Some(Encode(text, CF_UNICODETEXT, locale)), CF_UNICODETEXT, locale) == Some(text) <==>
              && 2 * |text| + 2 <= MAXIMUM_TEXT_BYTES
              && (text == [] || (text[0] != BYTE_ORDER_MARK && text[|text| - 1] != 0))
  {
    UnicodeRoundTrip(text, locale);
    UnchangedIff(text);
  }

  lemma UnchangedIff(text: Text)
    ensures WithoutTrailingNuls(WithoutMark(text)) == text <==>
              text == [] || (text[0] != BYTE_ORDER_MARK && text[|text| - 1] != 0)
  {
    ChoppedText(WithoutMark(text));
  }

  /** 8-bit text comes back without its trailing NULs if the locale can represent it and it is within the limit. */
  lemma LocalTextRoundTrip(text: Text, format: uint32, locale: Locale)
    requires format == CF_TEXT || format == CF_OEMTEXT
    requires locale.fromLocal(locale.toLocal(text) + [0]) == text + [0]
    ensures Decode(Some(Encode(text, format, locale)), format, locale) ==
            if |locale.toLocal(text)| + 1 > MAXIMUM_TEXT_BYTES then None else Some(WithoutTrailingNuls(text))
  {
  }

  /** Unicode text goes out as UTF-16, low byte first, and ends with two zero bytes. */
  lemma UnicodeIsLittleEndian(text: Text, locale: Locale, i: nat)
    requires i < |text|
    ensures var data := Encode(text, 13, locale);
            && |data| == 2 * |text| + 2
            && data[2 * i] == text[i] % 256 && data[2 * i + 1] == text[i] / 256
            && data[2 * |text|] == data[2 * |text| + 1] == 0
  {
    var data := Encode(text, 13, locale);
    UnicodeEnds(text, locale);
    assert (text + [0])[i] == text[i];
    assert data[2 * i] == (text + [0])[i] % 256;
  }

  lemma UnicodeEnds(text: Text, locale: Locale)
    ensures var data := Encode(text, 13, locale);
            |data| == 2 * |text| + 2 && data[2 * |text|] == data[2 * |text| + 1] == 0
  {
    assert (text + [0])[|text|] == 0;
  }

  /** 8-bit text goes out in the locale's encoding and ends with a zero byte; no other format has data. */
  lemma OtherFormats(text: Text, format: uint32, locale: Locale)
    ensures format in {1, 7} ==> Encode(text, format, locale) == locale.toLocal(text) + [0]
    ensures format !in {1, 7, 13} ==> Encode(text, format, locale) == []
    ensures Encode(text, 13, locale) != []
  {
  }

  /** Data is refused exactly if it is absent, larger than 16 MiB, in no text format, or Unicode of an odd size. */
  lemma DecodingIsRefusedIff(data: Option<seq<Byte>>, format: uint32, locale: Locale)
    ensures Decode(data, format, locale).None? <==>
              || data.None? || |data.value| > 16_777_216
              || format !in {1, 7, 13}
              || (format == 13 && |data.value| % 2 == 1)
  {
  }

  /** 8-bit data decodes to what the locale makes of it, without the NULs at the end. */
  lemma LocalDataDecodesTo(data: seq<Byte>, format: uint32, locale: Locale)
    requires format in {1, 7} && |data| <= 16_777_216
    ensures var text := locale.fromLocal(data);
            exists n :: 0 <= n <= |text| && Decode(Some(data), format, locale) == Some(text[..n])
              && (forall i :: n <= i < |text| ==> text[i] == 0) && (n > 0 ==> text[n - 1] != 0)
  {
    var text := locale.fromLocal(data);
    ChoppedText(text);
    var n := |WithoutTrailingNuls(text)|;
    assert text[..n] == WithoutTrailingNuls(text);
  }
}
