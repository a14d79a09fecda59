/** The two percent-encoders (`src/api.rs`, `src/sso.rs`; sections 2.1 and 2.3 of RFC 3986). */
module Percent {
  import opened Bytes
  import Hex

  const SLASH: byte := 47
  const PERCENT: byte := 37

  /** Letters, digits, '-', '_', '.' and '~'. */
  predicate Unreserved(b: byte) {
    || 65 <= b <= 90
    || 97 <= b <= 122
    || 48 <= b <= 57
    || b == 45 || b == 95 || b == 46 || b == 126
  }

  function UpperDigit(n: byte): byte
    requires n < 16
  {
    if n < 10 then 48 + n else 55 + n
  }

  predicate Kept(b: byte, keepSlash: bool) {
    Unreserved(b) || (keepSlash && b == SLASH)
  }

  function Code(b: byte, keepSlash: bool): seq<byte> {
    if Kept(b, keepSlash) then [b] else [PERCENT, UpperDigit(b >> 4), UpperDigit(b & 15)]
  }

  function Encoded(s: seq<byte>, keepSlash: bool): seq<byte> {
    if s == [] then [] else Encoded(s[..|s| - 1], keepSlash) + Code(s[|s| - 1], keepSlash)
  }

  /** The decoder of RFC 3986: None on a '%' without two hexadecimal digits behind it. */
  function Decode(t: seq<byte>): Option<seq<byte>> {
    if t == [] then Some([])
    else if t[0] != PERCENT then
      var rest := Decode(t[1..]);
      if rest.None? then None else Some([t[0]] + rest.value)
    else if |t| < 3 then None
    else
      var (hi, lo) := (Hex.DigitValue(t[1]), Hex.DigitValue(t[2]));
      var rest := Decode(t[3..]);
      if hi.None? || lo.None? || rest.None? then None
      else Some([(hi.value << 4) | lo.value] + rest.value)
  }

  /** Only kept characters and '%' followed by two upper-case hexadecimal digits. */
  predicate IsEncoding(t: seq<byte>, keepSlash: bool) {
    if t == [] then true
    else if t[0] != PERCENT then Kept(t[0], keepSlash) && IsEncoding(t[1..], keepSlash)
    else |t| >= 3 && IsUpperDigit(t[1]) && IsUpperDigit(t[2]) && IsEncoding(t[3..], keepSlash)
  }

  predicate IsUpperDigit(c: byte) {
    48 <= c <= 57 || 65 <= c <= 70
  }

  // ---- The encoders -------------------------------------------------------

  method EncodePath(path: seq<byte>) returns (out: seq<byte>)
    ensures out == Encoded(path, true)
  {
    out := [];
    for i := 0 to |path|
      invariant out == Encoded(path[..i], true)
    {
      var b := path[i];
      assert path[..i + 1][..i] == path[..i];
      if Unreserved(b) || b == SLASH {
        out := out + [b];
      } else {
        out := out + [PERCENT, UpperDigit(b >> 4), UpperDigit(b & 15)];
      }
    }
    assert path[..|path|] == path;
  }

  /** `str::replace` of every '/' by "%2F". */
  function ReplaceSlash(t: seq<byte>): seq<byte> {
    if t == [] then []
    else ReplaceSlash(t[..|t| - 1]) + if t[|t| - 1] == SLASH then [PERCENT, 50, 70] else [t[|t| - 1]]
  }

  /** A whole segment, '/' included; the encoder of the login url gives the same text. */
  method EncodeSegment(segment: seq<byte>) returns (out: seq<byte>)
    ensures out == Encoded(segment, false)
  {
    var path := EncodePath(segment);
    out := ReplaceSlash(path);
    ReplacedPath(segment);
  }

  method UrlEncode(s: seq<byte>) returns (out: seq<byte>)
    ensures out == Encoded(s, false)
  {
    out := [];
    for i := 0 to |s|
      invariant out == Encoded(s[..i], false)
    {
      var b := s[i];
      assert s[..i + 1][..i] == s[..i];
      if Unreserved(b) {
        out := out + [b];
      } else {
        out := out + [PERCENT, UpperDigit(b >> 4), UpperDigit(b & 15)];
      }
    }
    assert s[..|s|] == s;
  }

  // ---- What the encodings are ---------------------------------------------

  lemma {:induction false} ReplacePlus(a: seq<byte>, b: seq<byte>)
    ensures ReplaceSlash(a + b) == ReplaceSlash(a) + ReplaceSlash(b)
  {
    if b == [] {
      assert a + b == a;
    } else {
      var n := |b| - 1;
      ReplacePlus(a, b[..n]);
      assert (a + b)[..|a + b| - 1] == a + b[..n];
    }
  }

  lemma ReplaceOne(b: byte)
    ensures ReplaceSlash([b]) == if b == SLASH then [PERCENT, 50, 70] else [b]
  {
    assert [b][..0] == [];
  }

  lemma ReplacedCode(b: byte)
    ensures ReplaceSlash(Code(b, true)) == Code(b, false)
  {
    if Kept(b, true) {
      ReplaceOne(b);
    } else {
      var (hi, lo) := (UpperDigit(b >> 4), UpperDigit(b & 15));
      ReplaceOne(PERCENT);
      ReplaceOne(hi);
      ReplaceOne(lo);
      ReplacePlus([PERCENT], [hi]);
      ReplacePlus([PERCENT] + [hi], [lo]);
      assert Code(b, true) == [PERCENT] + [hi] + [lo];
    }
  }

  /** Encoding a path and replacing its slashes is encoding it as a segment. */
  lemma {:induction false} ReplacedPath(s: seq<byte>)
    ensures ReplaceSlash(Encoded(s, true)) == Encoded(s, false)
  {
    if s != [] {
      var n := |s| - 1;
      ReplacedPath(s[..n]);
      ReplacePlus(Encoded(s[..n], true), Code(s[n], true));
      ReplacedCode(s[n]);
    }
  }

  lemma EncodedSnoc(s: seq<byte>, b: byte, keepSlash: bool)
    ensures Encoded(s + [b], keepSlash) == Encoded(s, keepSlash) + Code(b, keepSlash)
  {
    assert (s + [b])[..|s|] == s;
  }

  lemma {:induction false} EncodedPlus(a: seq<byte>, b: seq<byte>, keepSlash: bool)
    ensures Encoded(a + b, keepSlash) == Encoded(a, keepSlash) + Encoded(b, keepSlash)
  {
    if b == [] {
      assert a + b == a;
    } else {
      var n := |b| - 1;
      EncodedPlus(a, b[..n], keepSlash);
      assert (a + b)[..|a + b| - 1] == a + b[..n];
      PlusAssociates(Encoded(a, keepSlash), Encoded(b[..n], keepSlash), Code(b[n], keepSlash));
    }
  }

  lemma EncodedCons(b: byte, s: seq<byte>, keepSlash: bool)
    ensures Encoded([b] + s, keepSlash) == Code(b, keepSlash) + Encoded(s, keepSlash)
  {
    EncodedPlus([b], s, keepSlash);
    EncodedSnoc([], b, keepSlash);
    assert [] + [b] == [b];
  }

  lemma CodeDecodes(b: byte, keepSlash: bool, rest: seq<byte>)
    ensures Decode(Code(b, keepSlash) + rest) ==
      if Decode(rest).None? then None else Some([b] + Decode(rest).value)
    ensures IsEncoding(rest, keepSlash) ==> IsEncoding(Code(b, keepSlash) + rest, keepSlash)
  {
    var t := Code(b, keepSlash) + rest;
    if Kept(b, keepSlash) {
      assert t[1..] == rest;
    } else {
      assert t[1] == UpperDigit(b >> 4) && t[2] == UpperDigit(b & 15) && t[3..] == rest;
      assert Hex.DigitValue(UpperDigit(b >> 4)) == Some(b >> 4) && Hex.DigitValue(UpperDigit(b & 15)) == Some(b & 15);
      assert ((b >> 4) << 4) | (b & 15) == b;
    }
  }

  /** Decoding inverts both encoders, and their output is a proper encoding. */
  lemma {:induction false} RoundTrip(s: seq<byte>, keepSlash: bool)
    ensures Decode(Encoded(s, keepSlash)) == Some(s)
    ensures IsEncoding(Encoded(s, keepSlash), keepSlash)
  {
    if s != [] {
      assert s == [s[0]] + s[1..];
      RoundTrip(s[1..], keepSlash);
      EncodedCons(s[0], s[1..], keepSlash);
      CodeDecodes(s[0], keepSlash, Encoded(s[1..], keepSlash));
    }
  }

  /** The encoding of a segment never splits the path. */
  lemma {:induction false} NoSlash(t: seq<byte>)
    requires IsEncoding(t, false)
    ensures SLASH !in t
  {
    if t != [] && t[0] != PERCENT {
      NoSlash(t[1..]);
    } else if t != [] {
      NoSlash(t[3..]);
      assert t == t[..3] + t[3..];
    }
  }

  lemma SegmentIsOneSegment(segment: seq<byte>)
    ensures SLASH !in Encoded(segment, false)
  {
    RoundTrip(segment, false);
    NoSlash(Encoded(segment, false));
  }

  // ---- Which text it is ---------------------------------------------------

  const UPPER := "0123456789ABCDEF"

  /** `code` is what stands for `b`: itself, or '%' and its two digits in upper case. */
  ghost predicate IsCode(b: byte, keepSlash: bool, code: seq<byte>) {
    var c := b as char;
    if 'A' <= c <= 'Z' || 'a' <= c <= 'z' || '0' <= c <= '9' || c == '-' || c == '_' || c == '.' || c == '~' || (keepSlash && c == '/')
    then code == [b]
    else |code| == 3 && code[0] as char == '%' && code[1] as char == UPPER[b as nat / 16] && code[2] as char == UPPER[b as nat % 16]
  }

  lemma CodeIs(b: byte, keepSlash: bool)
    ensures IsCode(b, keepSlash, Code(b, keepSlash))
  {
    Hex.Nibbles(b);
    UpperDigitIs(b >> 4);
    UpperDigitIs(b & 15);
  }

  lemma UpperDigitIs(n: byte)
    requires n < 16
    ensures UpperDigit(n) as char == UPPER[n as nat]
  {
  }

  lemma CodeUnique(b: byte, keepSlash: bool, code: seq<byte>)
    requires IsCode(b, keepSlash, code)
    ensures code == Code(b, keepSlash)
  {
    CodeIs(b, keepSlash);
  }

  /** The encoding is the codes of the bytes, one behind the other. */
  lemma {:induction false} EncodedIs(s: seq<byte>, keepSlash: bool, codes: seq<seq<byte>>)
    requires |codes| == |s| && forall i :: 0 <= i < |s| ==> IsCode(s[i], keepSlash, codes[i])
    ensures Encoded(s, keepSlash) == Concat(codes)
  {
    if s != [] {
      var n := |s| - 1;
      EncodedIs(s[..n], keepSlash, codes[..n]);
      CodeUnique(s[n], keepSlash, codes[n]);
    }
  }
}
