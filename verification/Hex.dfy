/** Hexadecimal text (section 8 of RFC 4648), written in lower case and read in either case. */
module Hex {
  import opened Bytes

  /** The ASCII code of a digit below 16: '0' is 48 and 'a' is 97. */
  function Digit(n: byte): byte
    requires n < 16
  {
    if n < 10 then 48 + n else 87 + n
  }

  function DigitValue(c: byte): Option<byte> {
    if 48 <= c <= 57 then Some(c - 48)
    else if 97 <= c <= 102 then Some(c - 87)
    else if 65 <= c <= 70 then Some(c - 55)
    else None
  }

  function Encode(bytes: seq<byte>): (text: seq<byte>)
    ensures |text| == 2 * |bytes|
  {
    seq(2 * |bytes|, i requires 0 <= i < 2 * |bytes| => DigitOf(bytes[i / 2], i % 2 == 0))
  }

  /** The high or the low digit of a byte. */
  function DigitOf(b: byte, high: bool): byte {
    if high then Digit(b >> 4) else Digit(b & 15)
  }

  lemma EncodeCons(b: byte, rest: seq<byte>)
    ensures Encode([b] + rest) == [Digit(b >> 4), Digit(b & 15)] + Encode(rest)
  {
    var s, t := Encode([b] + rest), [Digit(b >> 4), Digit(b & 15)] + Encode(rest);
    forall i | 0 <= i < |s|
      ensures s[i] == t[i]
    {
      if i >= 2 {
        assert ([b] + rest)[i / 2] == rest[(i - 2) / 2];
      }
    }
  }

  /** None on an odd length or on a character that is not a hexadecimal digit. */
  function Decode(text: seq<byte>): (bytes: Option<seq<byte>>)
    ensures bytes.Some? ==> |text| == 2 * |bytes.value|
  {
    if text == [] then Some([])
    else if |text| == 1 then None
    else
      var (hi, lo) := (DigitValue(text[0]), DigitValue(text[1]));
      var rest := Decode(text[2..]);
      if hi.None? || lo.None? || rest.None? then None
      else Some([(hi.value << 4) | lo.value] + rest.value)
  }

  const LOWER := "0123456789abcdef"

  /** The text of a byte is its two digits, the high one first, in lower case. */
  lemma EncodeAt(bytes: seq<byte>, i: nat)
    requires i < |bytes|
    ensures Encode(bytes)[2 * i] as char == LOWER[bytes[i] as nat / 16]
    ensures Encode(bytes)[2 * i + 1] as char == LOWER[bytes[i] as nat % 16]
  {
    DigitIs(bytes[i]);
    assert 2 * i / 2 == i && (2 * i + 1) / 2 == i;
  }

  lemma DigitIs(b: byte)
    ensures Digit(b >> 4) as char == LOWER[b as nat / 16]
    ensures Digit(b & 15) as char == LOWER[b as nat % 16]
  {
    Nibbles(b);
  }

  lemma Nibbles(b: byte)
    ensures (b >> 4) as nat == b as nat / 16
    ensures (b & 15) as nat == b as nat % 16
  {
  }

  lemma DigitRoundTrip(b: byte)
    ensures DigitValue(Digit(b >> 4)) == Some(b >> 4)
    ensures DigitValue(Digit(b & 15)) == Some(b & 15)
    ensures ((b >> 4) << 4) | (b & 15) == b
  {
  }

  lemma {:induction false} RoundTrip(bytes: seq<byte>)
    ensures Decode(Encode(bytes)) == Some(bytes)
  {
    if bytes != [] {
      var text, rest := Encode(bytes), bytes[1..];
      DigitRoundTrip(bytes[0]);
      RoundTrip(rest);
      assert bytes == [bytes[0]] + rest;
      EncodeCons(bytes[0], rest);
      assert text[2..] == Encode(rest);
    }
  }

  /** The digits 'A' to 'F' in lower case. */
  function Lowered(text: seq<byte>): seq<byte> {
    seq(|text|, i requires 0 <= i < |text| => if 65 <= text[i] <= 70 then text[i] + 32 else text[i])
  }

  lemma DigitValueIff(c: byte, v: byte)
    ensures DigitValue(c) == Some(v) <==> v < 16 && (if 65 <= c <= 70 then c + 32 else c) == Digit(v)
  {
  }

  lemma DecodedPair(c: byte, d: byte, b: byte)
    ensures (DigitValue(c) == Some(b >> 4) && DigitValue(d) == Some(b & 15)) <==>
      (DigitValue(c).Some? && DigitValue(d).Some? && (DigitValue(c).value << 4) | DigitValue(d).value == b)
  {
  }

  /** A text decodes to `bytes` exactly when, in lower case, it is their encoding. */
  lemma {:induction false} DecodeIff(text: seq<byte>, bytes: seq<byte>)
    ensures Decode(text) == Some(bytes) <==> Lowered(text) == Encode(bytes)
    decreases |text|
  {
    if |text| < 2 {
      assert |Lowered(text)| == |text|;
    } else if bytes == [] {
      assert |Lowered(text)| >= 2;
    } else {
      DecodeIff(text[2..], bytes[1..]);
      DecodeIffStep(text, bytes);
    }
  }

  lemma DecodeIffStep(text: seq<byte>, bytes: seq<byte>)
    requires |text| >= 2 && bytes != []
    requires Decode(text[2..]) == Some(bytes[1..]) <==> Lowered(text[2..]) == Encode(bytes[1..])
    ensures Decode(text) == Some(bytes) <==> Lowered(text) == Encode(bytes)
  {
    var b := bytes[0];
    DecodeSome(text, bytes);
    PairIff(text[0], text[1], b);
    assert bytes == [b] + bytes[1..];
    EncodeCons(b, bytes[1..]);
    LoweredPair(text, b >> 4, b & 15, Encode(bytes[1..]));
  }

  lemma PairIff(c: byte, d: byte, b: byte)
    ensures (DigitValue(c).Some? && DigitValue(d).Some? && (DigitValue(c).value << 4) | DigitValue(d).value == b) <==>
      (if 65 <= c <= 70 then c + 32 else c) == Digit(b >> 4) && (if 65 <= d <= 70 then d + 32 else d) == Digit(b & 15)
  {
    DigitValueIff(c, b >> 4);
    DigitValueIff(d, b & 15);
    DecodedPair(c, d, b);
  }

  lemma DecodeSome(text: seq<byte>, bytes: seq<byte>)
    requires |text| >= 2 && bytes != []
    ensures Decode(text) == Some(bytes) <==>
      && DigitValue(text[0]).Some? && DigitValue(text[1]).Some?
      && (DigitValue(text[0]).value << 4) | DigitValue(text[1]).value == bytes[0]
      && Decode(text[2..]) == Some(bytes[1..])
  {
    assert bytes == [bytes[0]] + bytes[1..];
  }

  lemma LoweredPair(text: seq<byte>, hi: byte, lo: byte, rest: seq<byte>)
    requires |text| >= 2 && hi < 16 && lo < 16
    ensures Lowered(text) == [Digit(hi), Digit(lo)] + rest <==>
      && (if 65 <= text[0] <= 70 then text[0] + 32 else text[0]) == Digit(hi)
      && (if 65 <= text[1] <= 70 then text[1] + 32 else text[1]) == Digit(lo)
      && Lowered(text[2..]) == rest
  {
    var l := Lowered(text);
    assert l == [l[0], l[1]] + l[2..];
    assert l[2..] == Lowered(text[2..]);
    assert ([Digit(hi), Digit(lo)] + rest)[2..] == rest;
  }
}
