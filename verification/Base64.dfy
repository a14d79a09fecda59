/** Base64 with padding, in the strict form that the `STANDARD` engine reads (section 4 of RFC 4648). */
module Base64 {
  import opened Bytes

  const PAD: byte := 61
  const DOLLAR: byte := 36

  /** The ASCII code of the digit for a six-bit value. */
  function Digit(v: byte): byte
    requires v < 64
  {
    if v < 26 then 65 + v
    else if v < 52 then 71 + v
    else if v < 62 then v - 4
    else if v == 62 then 43
    else 47
  }

  function DigitValue(c: byte): Option<byte> {
    if 65 <= c <= 90 then Some(c - 65)
    else if 97 <= c <= 122 then Some(c - 71)
    else if 48 <= c <= 57 then Some(c + 4)
    else if c == 43 then Some(62)
    else if c == 47 then Some(63)
    else None
  }

  function Group1(x: byte): seq<byte> {
    [Digit(x >> 2), Digit((x & 3) << 4), PAD, PAD]
  }

  function Group2(x: byte, y: byte): seq<byte> {
    [Digit(x >> 2), Digit(((x & 3) << 4) | (y >> 4)), Digit((y & 15) << 2), PAD]
  }

  function Group3(x: byte, y: byte, z: byte): seq<byte> {
    [Digit(x >> 2), Digit(((x & 3) << 4) | (y >> 4)), Digit(((y & 15) << 2) | (z >> 6)), Digit(z & 63)]
  }

  function Encode(s: seq<byte>): (t: seq<byte>)
    ensures |t| == (|s| + 2) / 3 * 4
  {
    if s == [] then []
    else if |s| == 1 then Group1(s[0])
    else if |s| == 2 then Group2(s[0], s[1])
    else Group3(s[0], s[1], s[2]) + Encode(s[3..])
  }

  /** The three bytes of four digits. */
  function Ungroup(c0: byte, c1: byte, c2: byte, c3: byte): Option<seq<byte>> {
    var (a, b, c, d) := (DigitValue(c0), DigitValue(c1), DigitValue(c2), DigitValue(c3));
    if a.None? || b.None? || c.None? || d.None? then None
    else Some([(a.value << 2) | (b.value >> 4), (b.value << 4) | (c.value >> 2), (c.value << 6) | d.value])
  }

  /** The one or two bytes of a last group that ends in '='; its spare bits must be zero. */
  function UngroupLast(c0: byte, c1: byte, c2: byte): Option<seq<byte>> {
    var (a, b, c) := (DigitValue(c0), DigitValue(c1), DigitValue(c2));
    if a.None? || b.None? then None
    else if c2 == PAD then
      if b.value & 15 == 0 then Some([(a.value << 2) | (b.value >> 4)]) else None
    else if c.None? || c.value & 3 != 0 then None
    else Some([(a.value << 2) | (b.value >> 4), (b.value << 4) | (c.value >> 2)])
  }

  /** None on a bad length, a foreign character, padding in the middle, or non-zero spare bits. */
  function Decode(t: seq<byte>): Option<seq<byte>> {
    if t == [] then Some([])
    else if |t| < 4 then None
    else if |t| == 4 && t[3] == PAD then UngroupLast(t[0], t[1], t[2])
    else
      var (group, rest) := (Ungroup(t[0], t[1], t[2], t[3]), Decode(t[4..]));
      if group.None? || rest.None? then None else Some(group.value + rest.value)
  }

  lemma DigitRoundTrip(v: byte)
    requires v < 64
    ensures DigitValue(Digit(v)) == Some(v)
    ensures Digit(v) != PAD && Digit(v) != DOLLAR
  {
  }

  lemma Bits1(x: byte)
    ensures x >> 2 < 64 && (x & 3) << 4 < 64
    ensures ((x >> 2) << 2) | (((x & 3) << 4) >> 4) == x
    ensures ((x & 3) << 4) & 15 == 0
  {
  }

  lemma Bits2(x: byte, y: byte)
    ensures x >> 2 < 64 && ((x & 3) << 4) | (y >> 4) < 64 && (y & 15) << 2 < 64
    ensures ((x >> 2) << 2) | ((((x & 3) << 4) | (y >> 4)) >> 4) == x
    ensures ((((x & 3) << 4) | (y >> 4)) << 4) | (((y & 15) << 2) >> 2) == y
    ensures ((y & 15) << 2) & 3 == 0
  {
  }

  lemma Bits3(x: byte, y: byte, z: byte)
    ensures ((y & 15) << 2) | (z >> 6) < 64 && z & 63 < 64
    ensures ((((x & 3) << 4) | (y >> 4)) << 4) | ((((y & 15) << 2) | (z >> 6)) >> 2) == y
    ensures ((((y & 15) << 2) | (z >> 6)) << 6) | (z & 63) == z
  {
  }

  // What a group of digits decodes to, given their values.

  lemma DecodeOne(a: byte, b: byte)
    requires a < 64 && b < 64 && b & 15 == 0
    ensures Decode([Digit(a), Digit(b), PAD, PAD]) == Some([(a << 2) | (b >> 4)])
  {
    DigitRoundTrip(a);
    DigitRoundTrip(b);
  }

  lemma DecodeTwo(a: byte, b: byte, c: byte)
    requires a < 64 && b < 64 && c < 64 && c & 3 == 0
    ensures Decode([Digit(a), Digit(b), Digit(c), PAD]) == Some([(a << 2) | (b >> 4), (b << 4) | (c >> 2)])
  {
    DigitRoundTrip(a);
    DigitRoundTrip(b);
    DigitRoundTrip(c);
  }

  lemma DecodeThree(a: byte, b: byte, c: byte, d: byte, rest: seq<byte>)
    requires a < 64 && b < 64 && c < 64 && d < 64 && Decode(rest).Some?
    ensures Decode([Digit(a), Digit(b), Digit(c), Digit(d)] + rest)
         == Some([(a << 2) | (b >> 4), (b << 4) | (c >> 2), (c << 6) | d] + Decode(rest).value)
  {
    var t := [Digit(a), Digit(b), Digit(c), Digit(d)] + rest;
    assert t[0] == Digit(a) && t[1] == Digit(b) && t[2] == Digit(c) && t[3] == Digit(d) && t[4..] == rest;
    DigitRoundTrip(a);
    DigitRoundTrip(b);
    DigitRoundTrip(c);
    DigitRoundTrip(d);
  }

  lemma Group1Decodes(x: byte)
    ensures Decode(Group1(x)) == Some([x]) && DOLLAR !in Group1(x)
  {
    Bits1(x);
    DecodeOne(x >> 2, (x & 3) << 4);
    DigitRoundTrip(x >> 2);
    DigitRoundTrip((x & 3) << 4);
  }

  lemma Group2Decodes(x: byte, y: byte)
    ensures Decode(Group2(x, y)) == Some([x, y])
  {
    Bits2(x, y);
    DecodeTwo(x >> 2, ((x & 3) << 4) | (y >> 4), (y & 15) << 2);
  }

  lemma Group3Decodes(x: byte, y: byte, z: byte, rest: seq<byte>)
    requires Decode(rest).Some?
    ensures Decode(Group3(x, y, z) + rest) == Some([x, y, z] + Decode(rest).value)
  {
    Bits2(x, y);
    Bits3(x, y, z);
    DecodeThree(x >> 2, ((x & 3) << 4) | (y >> 4), ((y & 15) << 2) | (z >> 6), z & 63, rest);
  }

  lemma {:induction false} RoundTrip(s: seq<byte>)
    ensures Decode(Encode(s)) == Some(s)
  {
    if |s| == 1 {
      Group1Decodes(s[0]);
      assert s == [s[0]];
    } else if |s| == 2 {
      Group2Decodes(s[0], s[1]);
      assert s == [s[0], s[1]];
    } else if |s| >= 3 {
      RoundTrip(s[3..]);
      Group3Decodes(s[0], s[1], s[2], Encode(s[3..]));
      assert s == [s[0], s[1], s[2]] + s[3..];
    }
  }

  lemma GroupsWithoutDollar(x: byte, y: byte, z: byte)
    ensures DOLLAR !in Group2(x, y) && DOLLAR !in Group3(x, y, z)
  {
    Bits2(x, y);
    Bits3(x, y, z);
    DigitRoundTrip(x >> 2);
    DigitRoundTrip(((x & 3) << 4) | (y >> 4));
    DigitRoundTrip((y & 15) << 2);
    DigitRoundTrip(((y & 15) << 2) | (z >> 6));
    DigitRoundTrip(z & 63);
  }

  /** No base64 text contains the '$' that separates the fields of a workspace key. */
  lemma {:induction false} NoDollar(s: seq<byte>)
    ensures DOLLAR !in Encode(s)
  {
    if |s| == 1 {
      Group1Decodes(s[0]);
    } else if |s| == 2 {
      GroupsWithoutDollar(s[0], s[1], 0);
    } else if |s| >= 3 {
      GroupsWithoutDollar(s[0], s[1], s[2]);
      NoDollar(s[3..]);
    }
  }

  // ---- Which text it is ---------------------------------------------------

  /** The alphabet of table 1 of RFC 4648. */
  function Letter(v: nat): char
    requires v < 64
  {
    if v < 26 then ('A' as nat + v) as char
    else if v < 52 then ('a' as nat + (v - 26)) as char
    else if v < 62 then ('0' as nat + (v - 52)) as char
    else if v == 62 then '+'
    else '/'
  }

  lemma DigitIs(v: byte)
    requires v < 64
    ensures Digit(v) as char == Letter(v as nat)
  {
  }

  /** Three bytes are the four 6-bit digits of the 24 bits they make up. */
  lemma Group3Is(x: byte, y: byte, z: byte)
    ensures var n: bv24 := (x as bv24 << 16) | (y as bv24 << 8) | z as bv24;
            Group3(x, y, z) ==
              [Digit((n >> 18) as byte), Digit(((n >> 12) & 63) as byte), Digit(((n >> 6) & 63) as byte), Digit((n & 63) as byte)]
  {
    Digits24(x, y, z);
  }

  lemma Digits24(x: byte, y: byte, z: byte)
    ensures var n: bv24 := (x as bv24 << 16) | (y as bv24 << 8) | z as bv24;
            && n >> 18 < 64
            && (n >> 18) as byte == x >> 2
            && ((n >> 12) & 63) as byte == ((x & 3) << 4) | (y >> 4)
            && ((n >> 6) & 63) as byte == ((y & 15) << 2) | (z >> 6)
            && (n & 63) as byte == z & 63
  {
  }

  /** One or two bytes left over are padded with zero bits, and the text with '='. */
  lemma ShortGroupsAre(x: byte, y: byte)
    ensures Group1(x) == Group3(x, 0, 0)[..2] + [61, 61]
    ensures Group2(x, y) == Group3(x, y, 0)[..3] + [61]
  {
    Bits2(x, y);
    Bits3(x, y, 0);
    assert ((x & 3) << 4) | (0 >> 4) == (x & 3) << 4;
    assert ((y & 15) << 2) | (0 >> 6) == (y & 15) << 2;
  }

  lemma AfterFirst(g: seq<byte>, t: seq<byte>, i: nat)
    requires |g| == 4 && 0 < i && 4 * i <= |t|
    ensures (g + t)[4 * i..4 * i + 4] == t[4 * (i - 1)..4 * (i - 1) + 4]
  {
  }

  /** The text is that of the groups of three, and of the rest. */
  lemma {:induction false} EncodeAt(s: seq<byte>, i: nat)
    requires 3 * i < |s|
    ensures 4 * i + 4 <= |Encode(s)|
    ensures Encode(s)[4 * i..4 * i + 4] ==
      if |s| == 3 * i + 1 then Group1(s[3 * i])
      else if |s| == 3 * i + 2 then Group2(s[3 * i], s[3 * i + 1])
      else Group3(s[3 * i], s[3 * i + 1], s[3 * i + 2])
  {
    if i > 0 {
      EncodeAt(s[3..], i - 1);
      EncodeCons(s[0], s[1], s[2], s[3..]);
      assert s == [s[0], s[1], s[2]] + s[3..];
      AfterFirst(Group3(s[0], s[1], s[2]), Encode(s[3..]), i);
    }
  }

  // ---- Only encodings decode ----------------------------------------------

  lemma DigitOfValue(c: byte)
    requires DigitValue(c).Some?
    ensures DigitValue(c).value < 64 && Digit(DigitValue(c).value) == c
  {
  }

  lemma Regroup3(a: byte, b: byte, c: byte, d: byte)
    requires a < 64 && b < 64 && c < 64 && d < 64
    ensures var (x, y, z) := ((a << 2) | (b >> 4), (b << 4) | (c >> 2), (c << 6) | d);
            && x >> 2 == a
            && ((x & 3) << 4) | (y >> 4) == b
            && ((y & 15) << 2) | (z >> 6) == c
            && z & 63 == d
  {
  }

  lemma Regroup2(a: byte, b: byte, c: byte)
    requires a < 64 && b < 64 && c < 64 && c & 3 == 0
    ensures var (x, y) := ((a << 2) | (b >> 4), (b << 4) | (c >> 2));
            x >> 2 == a && ((x & 3) << 4) | (y >> 4) == b && (y & 15) << 2 == c
  {
  }

  lemma Regroup1(a: byte, b: byte)
    requires a < 64 && b < 64 && b & 15 == 0
    ensures var x := (a << 2) | (b >> 4); x >> 2 == a && (x & 3) << 4 == b
  {
  }

  lemma OnlyGroup1(t: seq<byte>)
    requires |t| == 4 && t[2] == PAD && t[3] == PAD && Decode(t).Some?
    ensures t == Encode(Decode(t).value)
  {
    DigitOfValue(t[0]);
    DigitOfValue(t[1]);
    Regroup1(DigitValue(t[0]).value, DigitValue(t[1]).value);
    assert t == [t[0], t[1], t[2], t[3]];
  }

  lemma OnlyGroup2(t: seq<byte>)
    requires |t| == 4 && t[2] != PAD && t[3] == PAD && Decode(t).Some?
    ensures t == Encode(Decode(t).value)
  {
    DigitOfValue(t[0]);
    DigitOfValue(t[1]);
    DigitOfValue(t[2]);
    Regroup2(DigitValue(t[0]).value, DigitValue(t[1]).value, DigitValue(t[2]).value);
    assert t == [t[0], t[1], t[2], t[3]];
  }

  lemma GroupOfDigits(a: byte, b: byte, c: byte, d: byte)
    requires a < 64 && b < 64 && c < 64 && d < 64
    ensures Group3((a << 2) | (b >> 4), (b << 4) | (c >> 2), (c << 6) | d) == [Digit(a), Digit(b), Digit(c), Digit(d)]
  {
    Regroup3(a, b, c, d);
  }

  lemma EncodeCons(x: byte, y: byte, z: byte, rest: seq<byte>)
    ensures Encode([x, y, z] + rest) == Group3(x, y, z) + Encode(rest)
  {
    assert ([x, y, z] + rest)[3..] == rest;
  }

  lemma DigitsOf(c0: byte, c1: byte, c2: byte, c3: byte) returns (a: byte, b: byte, c: byte, d: byte)
    requires Ungroup(c0, c1, c2, c3).Some?
    ensures a < 64 && b < 64 && c < 64 && d < 64
    ensures Ungroup(c0, c1, c2, c3) == Some([(a << 2) | (b >> 4), (b << 4) | (c >> 2), (c << 6) | d])
    ensures c0 == Digit(a) && c1 == Digit(b) && c2 == Digit(c) && c3 == Digit(d)
  {
    DigitOfValue(c0);
    DigitOfValue(c1);
    DigitOfValue(c2);
    DigitOfValue(c3);
    a, b, c, d := DigitValue(c0).value, DigitValue(c1).value, DigitValue(c2).value, DigitValue(c3).value;
  }

  lemma Regrouped(c0: byte, c1: byte, c2: byte, c3: byte) returns (x: byte, y: byte, z: byte)
    requires Ungroup(c0, c1, c2, c3).Some?
    ensures Ungroup(c0, c1, c2, c3) == Some([x, y, z]) && Group3(x, y, z) == [c0, c1, c2, c3]
  {
    var a, b, c, d := DigitsOf(c0, c1, c2, c3);
    x, y, z := (a << 2) | (b >> 4), (b << 4) | (c >> 2), (c << 6) | d;
    GroupOfDigits(a, b, c, d);
  }

  lemma OnlyGroup3(t: seq<byte>, rest: seq<byte>)
    requires |t| >= 4 && Ungroup(t[0], t[1], t[2], t[3]).Some? && t[4..] == Encode(rest)
    ensures t == Encode(Ungroup(t[0], t[1], t[2], t[3]).value + rest)
  {
    var x, y, z := Regrouped(t[0], t[1], t[2], t[3]);
    EncodeCons(x, y, z, rest);
    assert t == [t[0], t[1], t[2], t[3]] + t[4..];
  }

  /** A text that decodes is the encoding of what it decodes to. */
  lemma {:induction false} OnlyEncodings(t: seq<byte>)
    requires Decode(t).Some?
    ensures t == Encode(Decode(t).value)
    decreases |t|
  {
    if t != [] {
      if |t| == 4 && t[3] == PAD {
        PaddedTail(t);
      } else {
        OnlyEncodings(t[4..]);
        OnlyGroup3(t, Decode(t[4..]).value);
      }
    }
  }

  lemma PaddedTail(t: seq<byte>)
    requires |t| == 4 && t[3] == PAD && Decode(t).Some?
    ensures t == Encode(Decode(t).value)
  {
    if t[2] == PAD {
      OnlyGroup1(t);
    } else {
      OnlyGroup2(t);
    }
  }

  /** Decoding and encoding are inverse on everything that decodes. */
  lemma DecodeIff(t: seq<byte>, s: seq<byte>)
    ensures Decode(t) == Some(s) <==> t == Encode(s)
  {
    RoundTrip(s);
    if Decode(t).Some? {
      OnlyEncodings(t);
    }
  }
}
