/** The `rgb8_fromstr_radix_16` field codec: an RGB colour written as bare hex text ("f2f2f2", no
    `#`). Decoding reads the text as hex bytes through the `Helper` newtype and keeps it only when
    there are exactly three bytes; encoding writes the channels r, g, b as lower-case hex. */
module Rgb8FromStrRadix16 {
  import opened Serde
  import opened Hex

  /** `rgb::RGB8`: three 8-bit channels. */
  datatype Rgb8 = Rgb8(r: Byte, g: Byte, b: Byte)

  /** The channels in the order `as_slice` lists them. */
  function Channels(c: Rgb8): seq<Byte>
  {
    [c.r, c.g, c.b]
  }

  /** `deserialize`: the value must be hex text of exactly three bytes. */
  function Deserialize(j: Json): (res: Result<Rgb8>)
    ensures res.Ok? ==> j.JString? && Hex.Decode(j.s) == Ok(Channels(res.value))
    ensures j.JString? && Hex.Decode(j.s).Ok? && |Hex.Decode(j.s).value| != 3 ==> res == Err(NotAColor)
    ensures j.JString? && Hex.Decode(j.s).Err? ==> res == Err(Hex.Decode(j.s).error)
    ensures !j.JString? ==> res == Err(InvalidType)
  {
    match j
    case JString(s) =>
      var bytes :- Hex.Decode(s);
      if |bytes| != 3 then Err(NotAColor)
      else
        assert bytes == [bytes[0], bytes[1], bytes[2]];
        Ok(Rgb8(bytes[0], bytes[1], bytes[2]))
    case _ => Err(InvalidType)
  }

  /** `serialize`: the channel bytes as hex text. */
  function Serialize(c: Rgb8): (j: Json)
    ensures j.JString? && |j.s| == 6 && forall i | 0 <= i < 6 :: IsLowerHexDigit(j.s[i])
    ensures Deserialize(j) == Ok(c)
  {
    var text := Hex.Encode(Channels(c));
    DecodeEncode(Channels(c));
    JString(text)
  }

  /** A colour string is accepted exactly when it is six hex digits; the channels are then the
      digit pairs, high nibble first. */
  lemma AcceptsExactlySixHexDigits(s: string)
    ensures Deserialize(JString(s)).Ok? <==> |s| == 6 && AllHexDigits(s)
    ensures Deserialize(JString(s)).Ok? ==>
              var c := Deserialize(JString(s)).value;
              && c.r == 16 * DigitValue(s[0]) + DigitValue(s[1])
              && c.g == 16 * DigitValue(s[2]) + DigitValue(s[3])
              && c.b == 16 * DigitValue(s[4]) + DigitValue(s[5])
  {
    var d := Hex.Decode(s);
    if d.Ok? && |d.value| == 3 {
      assert d.value[1] == 16 * DigitValue(s[2 * 1]) + DigitValue(s[2 * 1 + 1]);
      assert d.value[2] == 16 * DigitValue(s[2 * 2]) + DigitValue(s[2 * 2 + 1]);
    }
  }

  /** Text that is not six hex digits is refused, whichever check catches it. */
  lemma RejectsOtherText(s: string)
    requires |s| != 6 || !AllHexDigits(s)
    ensures Deserialize(JString(s)).Err?
    ensures |s| % 2 != 0 ==> Deserialize(JString(s)) == Err(OddLength)
    ensures |s| % 2 == 0 && AllHexDigits(s) ==> Deserialize(JString(s)) == Err(NotAColor)
  {
    AcceptsExactlySixHexDigits(s);
  }

  /** Re-encoding a decoded colour gives the original text in lower case. */
  lemma SerializeNormalizes(s: string, c: Rgb8)
    requires Deserialize(JString(s)) == Ok(c)
    ensures AllHexDigits(s) && Serialize(c) == JString(Lowercase(s))
  {
    EncodeDecode(s, Channels(c));
  }

  /** The crate's `from_json` test: "f2f2f2" is the colour (242, 242, 242). */
  lemma FromJson()
    ensures Deserialize(JString("f2f2f2")) == Ok(Rgb8(242, 242, 242))
  {
    AcceptsExactlySixHexDigits("f2f2f2");
  }

  /** The crate's `to_json` test: (242, 242, 242) is written "f2f2f2". */
  lemma ToJson()
    ensures Serialize(Rgb8(242, 242, 242)) == JString("f2f2f2")
  {
    var text := "f2f2f2";
    FromJson();
    SerializeNormalizes(text, Rgb8(242, 242, 242));
    assert Serialize(Rgb8(242, 242, 242)) == JString(Lowercase(text));
    SampleIsLowerCase();
  }

  lemma SampleIsLowerCase()
    ensures AllHexDigits("f2f2f2") && Lowercase("f2f2f2") == "f2f2f2"
  {
    var text := "f2f2f2";
    assert text == ['f', '2', 'f', '2', 'f', '2'];
    LowercaseKeepsLower(text);
  }

  /** The crate's `from_notcolor_json` test: four bytes of hex are not a colour. */
  lemma FromNotColorJson()
    ensures Deserialize(JString("f2f2f2f2")) == Err(NotAColor)
  {
    RejectsOtherText("f2f2f2f2");
  }
}
