/** Base16 text as the `hex` crate reads and writes it for the colour helper (base16 in the sense
    of section 8 of RFC 4648): two digits per byte, high nibble first, upper or lower case accepted
    on decode, lower case written on encode, no prefix. */
module Hex {
  import opened Serde

  type Byte = b: int | 0 <= b < 256

  predicate IsHexDigit(c: char)
  {
    '0' <= c <= '9' || 'a' <= c <= 'f' || 'A' <= c <= 'F'
  }

  predicate IsLowerHexDigit(c: char)
  {
    '0' <= c <= '9' || 'a' <= c <= 'f'
  }

  predicate AllHexDigits(s: string)
  {
    forall i | 0 <= i < |s| :: IsHexDigit(s[i])
  }

  /** The value of one hex digit, as the crate's `val` computes it. */
  function DigitValue(c: char): (v: nat)
    requires IsHexDigit(c)
    ensures v < 16
  {
    if '0' <= c <= '9' then c as int - '0' as int
    else if 'a' <= c <= 'f' then c as int - 'a' as int + 10
    else c as int - 'A' as int + 10
  }

  /** The lower-case digit for a nibble. */
  function LowerDigit(v: nat): (c: char)
    requires v < 16
    ensures IsLowerHexDigit(c) && DigitValue(c) == v
  {
    if v < 10 then ('0' as int + v) as char else ('a' as int + v - 10) as char
  }

  /** A lower-case digit is the only lower-case digit with its value. */
  lemma LowerDigitUnique(c: char, d: char)
    requires IsLowerHexDigit(c) && IsLowerHexDigit(d) && DigitValue(c) == DigitValue(d)
    ensures c == d
  {
  }

  /** A byte has one pair of nibbles. */
  lemma NibblesUnique(a: nat, b: nat, c: nat, d: nat)
    requires a < 16 && b < 16 && c < 16 && d < 16 && 16 * a + b == 16 * c + d
    ensures a == c && b == d
  {
  }

  /** Hex text with its upper-case digits made lower case. */
  function Lowercase(s: string): (t: string)
    requires AllHexDigits(s)
    ensures |t| == |s|
    ensures forall i | 0 <= i < |s| :: IsLowerHexDigit(t[i]) && DigitValue(t[i]) == DigitValue(s[i])
  {
    if s == [] then [] else [LowerDigit(DigitValue(s[0]))] + Lowercase(s[1..])
  }

  /** Text already in lower case is its own lower case. */
  lemma {:induction false} LowercaseKeepsLower(s: string)
    requires forall i | 0 <= i < |s| :: IsLowerHexDigit(s[i])
    ensures AllHexDigits(s) && Lowercase(s) == s
  {
    if s != [] {
      LowercaseKeepsLower(s[1..]);
      LowerDigitUnique(LowerDigit(DigitValue(s[0])), s[0]);
    }
  }

  /** `Vec::<u8>::from_hex`: an odd number of digits fails first; otherwise the text is read two digits
      at a time from the front and the first non-hex character fails with its position. */
  function Decode(s: string): (r: Result<seq<Byte>>)
    ensures r.Ok? <==> |s| % 2 == 0 && AllHexDigits(s)
    ensures r.Ok? ==> |r.value| * 2 == |s|
    ensures r.Ok? ==> forall i | 0 <= i < |r.value| :: r.value[i] == 16 * DigitValue(s[2 * i]) + DigitValue(s[2 * i + 1])
    ensures |s| % 2 != 0 ==> r == Err(OddLength)
    ensures |s| % 2 == 0 && r.Err? ==> r.error.InvalidHexCharacter? && FirstNonHex(s, r.error.index) && r.error.c == s[r.error.index]
  {
    if |s| % 2 != 0 then Err(OddLength) else DecodePairs(s, 0)
  }

  /** `k` is the position of the first non-hex character of `s`. */
  predicate FirstNonHex(s: string, k: nat)
  {
    k < |s| && !IsHexDigit(s[k]) && forall i | 0 <= i < k :: IsHexDigit(s[i])
  }

  function DecodePairs(s: string, from: nat): (r: Result<seq<Byte>>)
    requires from <= |s| && (|s| - from) % 2 == 0
    ensures r.Ok? <==> forall i | from <= i < |s| :: IsHexDigit(s[i])
    ensures r.Ok? ==> |r.value| * 2 == |s| - from
    ensures r.Ok? ==> forall i | 0 <= i < |r.value| ::
              r.value[i] == 16 * DigitValue(s[from + 2 * i]) + DigitValue(s[from + 2 * i + 1])
    ensures r.Err? ==>
              && r.error.InvalidHexCharacter? && from <= r.error.index < |s| && r.error.c == s[r.error.index]
              && !IsHexDigit(s[r.error.index]) && (forall i | from <= i < r.error.index :: IsHexDigit(s[i]))
    decreases |s| - from
  {
    if from == |s| then Ok([])
    else if !IsHexDigit(s[from]) then Err(InvalidHexCharacter(s[from], from))
    else if !IsHexDigit(s[from + 1]) then Err(InvalidHexCharacter(s[from + 1], from + 1))
    else
      var rest :- DecodePairs(s, from + 2);
      var r := [16 * DigitValue(s[from]) + DigitValue(s[from + 1])] + rest;
      assert forall i | 1 <= i < |r| :: r[i] == rest[i - 1] && from + 2 + 2 * (i - 1) == from + 2 * i;
      Ok(r)
  }

  /** One byte as two lower-case digits, high nibble first. */
  function EncodeByte(b: Byte): (p: string)
    ensures |p| == 2 && IsLowerHexDigit(p[0]) && IsLowerHexDigit(p[1])
    ensures 16 * DigitValue(p[0]) + DigitValue(p[1]) == b
  {
    [LowerDigit(b / 16), LowerDigit(b % 16)]
  }

  /** `ToHex::encode_hex`: each byte as two lower-case digits, high nibble first. */
  function Encode(bytes: seq<Byte>): (s: string)
    ensures |s| == 2 * |bytes|
    ensures forall i | 0 <= i < |s| :: IsLowerHexDigit(s[i])
  {
    if bytes == [] then "" else EncodeByte(bytes[0]) + Encode(bytes[1..])
  }

  /** Digit pair `i` of the encoding denotes byte `i`. */
  lemma {:induction false} EncodePairs(bytes: seq<Byte>)
    ensures forall i | 0 <= i < |bytes| ::
              16 * DigitValue(Encode(bytes)[2 * i]) + DigitValue(Encode(bytes)[2 * i + 1]) == bytes[i]
  {
    if bytes != [] {
      var p, rest := EncodeByte(bytes[0]), Encode(bytes[1..]);
      EncodePairs(bytes[1..]);
      assert Encode(bytes) == p + rest;
      forall i | 1 <= i < |bytes|
        ensures 16 * DigitValue(Encode(bytes)[2 * i]) + DigitValue(Encode(bytes)[2 * i + 1]) == bytes[i]
      {
        assert Encode(bytes)[2 * i] == rest[2 * (i - 1)];
        assert Encode(bytes)[2 * i + 1] == rest[2 * (i - 1) + 1];
        assert bytes[i] == bytes[1..][i - 1];
      }
    }
  }

  /** Decoding what was encoded gives the bytes back. */
  lemma {:induction false} DecodeEncode(bytes: seq<Byte>)
    ensures Decode(Encode(bytes)) == Ok(bytes)
  {
    var s := Encode(bytes);
    EncodePairs(bytes);
    assert AllHexDigits(s) by {
      forall i | 0 <= i < |s| ensures IsHexDigit(s[i]) { assert IsLowerHexDigit(s[i]); }
    }
    var r := Decode(s);
    assert r.Ok?;
    assert |r.value| == |bytes|;
    forall i | 0 <= i < |bytes| ensures r.value[i] == bytes[i] {
      assert r.value[i] == 16 * DigitValue(s[2 * i]) + DigitValue(s[2 * i + 1]);
    }
    assert r.value == bytes;
  }

  /** Encoding what was decoded gives the text back in lower case. */
  lemma {:induction false} EncodeDecode(s: string, bytes: seq<Byte>)
    requires Decode(s) == Ok(bytes)
    ensures AllHexDigits(s) && Encode(bytes) == Lowercase(s)
  {
    var e, l := Encode(bytes), Lowercase(s);
    forall j | 0 <= j < |s| ensures e[j] == l[j] {
      DigitAgrees(s, bytes, j);
    }
  }

  lemma DigitAgrees(s: string, bytes: seq<Byte>, j: nat)
    requires Decode(s) == Ok(bytes) && j < |s|
    ensures AllHexDigits(s) && Encode(bytes)[j] == Lowercase(s)[j]
  {
    var i := j / 2;
    assert j == 2 * i || j == 2 * i + 1;
    PairAgrees(s, bytes, i);
  }

  lemma PairAgrees(s: string, bytes: seq<Byte>, i: nat)
    requires Decode(s) == Ok(bytes) && i < |bytes|
    ensures AllHexDigits(s)
    ensures Encode(bytes)[2 * i] == Lowercase(s)[2 * i] && Encode(bytes)[2 * i + 1] == Lowercase(s)[2 * i + 1]
  {
    var e, l := Encode(bytes), Lowercase(s);
    EncodePairs(bytes);
    assert bytes[i] == 16 * DigitValue(s[2 * i]) + DigitValue(s[2 * i + 1]);
    assert bytes[i] == 16 * DigitValue(e[2 * i]) + DigitValue(e[2 * i + 1]);
    NibblesUnique(DigitValue(e[2 * i]), DigitValue(e[2 * i + 1]), DigitValue(s[2 * i]), DigitValue(s[2 * i + 1]));
    LowerDigitUnique(e[2 * i], l[2 * i]);
    LowerDigitUnique(e[2 * i + 1], l[2 * i + 1]);
  }
}
