/** Decryption of a workspace's mnemonic (`src/crypto.rs`): OpenPGP, or OpenPGP and Kyber together. */
module WorkspaceKey {
  import opened Bytes
  import Base64
  import Hex

  const KYBER512_SK_LEN := 1632

  /** "SHlicmlkTW9kZQ==", the base64 of "HybridMode". */
  const HYBRID_MODE_PREFIX: seq<byte> := [83, 72, 108, 105, 99, 109, 108, 107, 84, 87, 57, 107, 90, 81, 61, 61]

  const HYBRID_MODE: seq<byte> := [72, 121, 98, 114, 105, 100, 77, 111, 100, 101]

  datatype KeyError =
    | BadBase64
    | BadUtf8
    | BadHex
    | LengthMismatch
    | MalformedHybridKey
    | NoKyberKey
    | BadKyberKey(length: nat)
    | KyberFailed
    | PgpFailed

  /** The library primitives; `xof` is the extendable output of blake3 for a secret. */
  datatype Library = Library(
    utf8: seq<byte> -> bool,
    pgpDecrypt: (seq<byte>, seq<byte>) -> Option<seq<byte>>,
    decapsulate: (seq<byte>, seq<byte>) -> Option<seq<byte>>,
    xof: seq<byte> -> nat -> byte
  )

  /** The pieces between the '$' separators. */
  function Split(s: seq<byte>): (pieces: seq<seq<byte>>)
    ensures pieces != []
  {
    if s == [] then [[]]
    else
      var rest := Split(s[1..]);
      if s[0] == Base64.DOLLAR then [[]] + rest else [[s[0]] + rest[0]] + rest[1..]
  }

  function Blake3Extend(lib: Library, secret: seq<byte>, n: nat): seq<byte> {
    seq(n, i requires 0 <= i < n => lib.xof(secret)(i))
  }

  function Xor(a: seq<byte>, b: seq<byte>): seq<byte>
    requires |a| == |b|
  {
    seq(|a|, i requires 0 <= i < |a| => a[i] ^ b[i])
  }

  function XorHex(a: seq<byte>, b: seq<byte>): Result<seq<byte>, KeyError> {
    if |a| != |b| then Err(LengthMismatch)
    else
      var (x, y) := (Hex.Decode(a), Hex.Decode(b));
      if x.None? || y.None? then Err(BadHex) else Ok(Hex.Encode(Xor(x.value, y.value)))
  }

  /** The raw Kyber key from its base64, or from the base64 of its base64. */
  function KyberSecretKeyRaw(stored: seq<byte>): Result<seq<byte>, KeyError> {
    match Base64.Decode(stored)
    case None => Err(BadBase64)
    case Some(once) =>
      if |once| == KYBER512_SK_LEN then Ok(once)
      else
        match Base64.Decode(once)
        case None => Err(BadKyberKey(|once|))
        case Some(twice) => if |twice| == KYBER512_SK_LEN then Ok(twice) else Err(BadKyberKey(|once|))
  }

  /** `from_utf8` of a base64 text. */
  function DecodeText(lib: Library, t: seq<byte>): Result<seq<byte>, KeyError> {
    match Base64.Decode(t)
    case None => Err(BadBase64)
    case Some(bytes) => if lib.utf8(bytes) then Ok(bytes) else Err(BadUtf8)
  }

  function PgpDecrypt(lib: Library, message: seq<byte>, armored: seq<byte>): Result<seq<byte>, KeyError> {
    match lib.pgpDecrypt(message, armored)
    case None => Err(PgpFailed)
    case Some(plain) => Ok(plain)
  }

  function Unmask(lib: Library, masked: seq<byte>, secret: seq<byte>): Result<seq<byte>, KeyError> {
    match XorHex(masked, Hex.Encode(Blake3Extend(lib, secret, |masked| / 2)))
    case Err(e) => Err(e)
    case Ok(xored) =>
      match Hex.Decode(xored)
      case None => Err(BadHex)
      case Some(bytes) => if lib.utf8(bytes) then Ok(bytes) else Err(BadUtf8)
  }

  function DecryptHybrid(lib: Library, parts: seq<seq<byte>>, armored: seq<byte>, kyberKey: Option<seq<byte>>)
    : Result<seq<byte>, KeyError>
  {
    if |parts| != 3 then Err(MalformedHybridKey)
    else if kyberKey.None? then Err(NoKyberKey)
    else
      match Base64.Decode(parts[1])
      case None => Err(BadBase64)
      case Some(ct) =>
        match KyberSecretKeyRaw(kyberKey.value)
        case Err(e) => Err(e)
        case Ok(sk) =>
          match lib.decapsulate(ct, sk)
          case None => Err(KyberFailed)
          case Some(secret) =>
            match DecodeText(lib, parts[2])
            case Err(e) => Err(e)
            case Ok(message) =>
              match PgpDecrypt(lib, message, armored)
              case Err(e) => Err(e)
              case Ok(masked) => Unmask(lib, masked, secret)
  }

  function DecryptWorkspaceKey(lib: Library, blob: seq<byte>, eccKey: seq<byte>, kyberKey: Option<seq<byte>>)
    : Result<seq<byte>, KeyError>
  {
    match DecodeText(lib, eccKey)
    case Err(e) => Err(e)
    case Ok(armored) =>
      var parts := Split(blob);
      if parts[0] == HYBRID_MODE_PREFIX then DecryptHybrid(lib, parts, armored, kyberKey)
      else
        match DecodeText(lib, blob)
        case Err(e) => Err(e)
        case Ok(message) => PgpDecrypt(lib, message, armored)
  }

  // ---- The sender's side --------------------------------------------------

  /** The text that is encrypted with OpenPGP in hybrid mode. */
  function Mask(lib: Library, mnemonic: seq<byte>, secret: seq<byte>): seq<byte> {
    Hex.Encode(Xor(mnemonic, Blake3Extend(lib, secret, |mnemonic|)))
  }

  function HybridBlob(kyberCt: seq<byte>, message: seq<byte>): seq<byte> {
    HYBRID_MODE_PREFIX + [Base64.DOLLAR] + (Base64.Encode(kyberCt) + [Base64.DOLLAR] + Base64.Encode(message))
  }

  // ---- Round trips --------------------------------------------------------

  lemma {:induction false} SplitFirst(a: seq<byte>, rest: seq<byte>)
    requires Base64.DOLLAR !in a
    ensures Split(a + [Base64.DOLLAR] + rest) == [a] + Split(rest)
  {
    var s := a + [Base64.DOLLAR] + rest;
    if a == [] {
      assert s[1..] == rest;
    } else {
      assert s[1..] == a[1..] + [Base64.DOLLAR] + rest;
      SplitFirst(a[1..], rest);
      assert a == [a[0]] + a[1..];
    }
  }

  lemma {:induction false} SplitLast(a: seq<byte>)
    requires Base64.DOLLAR !in a
    ensures Split(a) == [a]
  {
    if a != [] {
      SplitLast(a[1..]);
      assert a == [a[0]] + a[1..];
    }
  }

  lemma HybridBlobSplits(kyberCt: seq<byte>, message: seq<byte>)
    ensures Split(HybridBlob(kyberCt, message)) == [HYBRID_MODE_PREFIX, Base64.Encode(kyberCt), Base64.Encode(message)]
  {
    var (ct, m) := (Base64.Encode(kyberCt), Base64.Encode(message));
    Base64.NoDollar(kyberCt);
    Base64.NoDollar(message);
    SplitFirst(HYBRID_MODE_PREFIX, ct + [Base64.DOLLAR] + m);
    SplitFirst(ct, m);
    SplitLast(m);
  }

  /** Both stored forms of a Kyber key give the key back. */
  lemma KyberKeyRoundTrip(sk: seq<byte>)
    requires |sk| == KYBER512_SK_LEN
    ensures KyberSecretKeyRaw(Base64.Encode(sk)) == Ok(sk)
    ensures KyberSecretKeyRaw(Base64.Encode(Base64.Encode(sk))) == Ok(sk)
  {
    Base64.RoundTrip(sk);
    Base64.RoundTrip(Base64.Encode(sk));
  }

  lemma XorTwice(a: seq<byte>, b: seq<byte>)
    requires |a| == |b|
    ensures Xor(Xor(a, b), b) == a
  {
    var once := Xor(a, b);
    forall i | 0 <= i < |a|
      ensures Xor(once, b)[i] == a[i]
    {
      assert once[i] == a[i] ^ b[i];
    }
  }

  /** The extended secret has the length of the mask, so unmasking inverts masking. */
  lemma UnmaskInvertsMask(lib: Library, mnemonic: seq<byte>, secret: seq<byte>)
    ensures Unmask(lib, Mask(lib, mnemonic, secret), secret) ==
      if lib.utf8(mnemonic) then Ok(mnemonic) else Err(BadUtf8)
  {
    var pad := Blake3Extend(lib, secret, |mnemonic|);
    var masked := Xor(mnemonic, pad);
    assert |Mask(lib, mnemonic, secret)| / 2 == |mnemonic|;
    Hex.RoundTrip(masked);
    Hex.RoundTrip(pad);
    XorTwice(mnemonic, pad);
    Hex.RoundTrip(mnemonic);
  }

  /** In hybrid mode every mnemonic comes back, with the Kyber key stored either way. */
  lemma HybridRoundTrip(lib: Library, mnemonic: seq<byte>, armored: seq<byte>, sk: seq<byte>, storedKyber: seq<byte>,
                        kyberCt: seq<byte>, secret: seq<byte>, message: seq<byte>)
    requires lib.utf8(mnemonic) && lib.utf8(armored) && lib.utf8(message)
    requires |sk| == KYBER512_SK_LEN
    requires storedKyber == Base64.Encode(sk) || storedKyber == Base64.Encode(Base64.Encode(sk))
    requires lib.decapsulate(kyberCt, sk) == Some(secret)
    requires lib.pgpDecrypt(message, armored) == Some(Mask(lib, mnemonic, secret))
    ensures DecryptWorkspaceKey(lib, HybridBlob(kyberCt, message), Base64.Encode(armored), Some(storedKyber)) == Ok(mnemonic)
  {
    Base64.RoundTrip(armored);
    Base64.RoundTrip(kyberCt);
    Base64.RoundTrip(message);
    HybridBlobSplits(kyberCt, message);
    KyberKeyRoundTrip(sk);
    UnmaskInvertsMask(lib, mnemonic, secret);
  }

  lemma PrefixIsHybridMode()
    ensures Base64.Encode(HYBRID_MODE) == HYBRID_MODE_PREFIX
  {
    assert HYBRID_MODE[3..] == [114, 105, 100, 77, 111, 100, 101];
    assert HYBRID_MODE[3..][3..] == [77, 111, 100, 101];
    assert HYBRID_MODE[3..][3..][3..] == [101];
  }

  /**
   In OpenPGP-only mode the message comes back exactly unless its text is "HybridMode", which is
   the one message whose base64 reads as the prefix of the other mode.
   */
  lemma EccOnlyRoundTrip(lib: Library, mnemonic: seq<byte>, armored: seq<byte>, message: seq<byte>, kyberKey: Option<seq<byte>>)
    requires lib.utf8(armored) && lib.utf8(message)
    requires lib.pgpDecrypt(message, armored) == Some(mnemonic)
    ensures DecryptWorkspaceKey(lib, Base64.Encode(message), Base64.Encode(armored), kyberKey) == Ok(mnemonic)
       <==> message != HYBRID_MODE
  {
    Base64.RoundTrip(armored);
    Base64.RoundTrip(message);
    Base64.RoundTrip(HYBRID_MODE);
    Base64.NoDollar(message);
    SplitLast(Base64.Encode(message));
    PrefixIsHybridMode();
  }

  const DASH: byte := 45

  /**
   An armored message opens with the five dashes of its header line (section 6.2 of RFC 9580), so
   every message that OpenPGP can have produced comes back.
   */
  lemma ArmoredRoundTrip(lib: Library, mnemonic: seq<byte>, armored: seq<byte>, message: seq<byte>, kyberKey: Option<seq<byte>>)
    requires lib.utf8(armored) && lib.utf8(message)
    requires lib.pgpDecrypt(message, armored) == Some(mnemonic)
    requires [DASH, DASH, DASH, DASH, DASH] <= message
    ensures DecryptWorkspaceKey(lib, Base64.Encode(message), Base64.Encode(armored), kyberKey) == Ok(mnemonic)
  {
    EccOnlyRoundTrip(lib, mnemonic, armored, message, kyberKey);
  }

  // ---- Exactly which inputs are decrypted, and to what --------------------

  /** What `KyberSecretKeyRaw` makes of a text that decodes. */
  lemma KyberOfDecoded(stored: seq<byte>, once: seq<byte>, sk: seq<byte>)
    requires Base64.Decode(stored) == Some(once)
    ensures KyberSecretKeyRaw(stored) == Ok(sk) <==> |sk| == 1632 && (once == sk || (|once| != 1632 && Base64.Decode(once) == Some(sk)))
  {
  }

  /** The raw key is one of the right length whose base64, or base64 of base64, was stored; nothing else. */
  lemma KyberKeyIff(stored: seq<byte>, sk: seq<byte>)
    ensures KyberSecretKeyRaw(stored) == Ok(sk) <==>
      |sk| == 1632 && (stored == Base64.Encode(sk) || stored == Base64.Encode(Base64.Encode(sk)))
  {
    var text := Base64.Encode(sk);
    Base64.DecodeIff(stored, sk);
    Base64.DecodeIff(stored, text);
    if Base64.Decode(stored).Some? {
      var once := Base64.Decode(stored).value;
      KyberOfDecoded(stored, once, sk);
      Base64.DecodeIff(once, sk);
      assert |sk| == 1632 ==> |text| != 1632;
    }
  }

  /** The fields joined by '$'. */
  function Joined(pieces: seq<seq<byte>>): seq<byte>
    requires pieces != []
  {
    if |pieces| == 1 then pieces[0] else pieces[0] + [Base64.DOLLAR] + Joined(pieces[1..])
  }

  lemma {:induction false} SplitJoins(s: seq<byte>)
    ensures Joined(Split(s)) == s
  {
    if s != [] {
      SplitJoins(s[1..]);
      SplitJoinsStep(s[0], s[1..]);
      assert s == [s[0]] + s[1..];
    }
  }

  lemma JoinedCons(field: seq<byte>, fields: seq<seq<byte>>)
    ensures Joined([field] + fields) == if fields == [] then field else field + [Base64.DOLLAR] + Joined(fields)
  {
    assert ([field] + fields)[1..] == fields;
  }

  lemma SplitJoinsStep(c: byte, rest: seq<byte>)
    requires Joined(Split(rest)) == rest
    ensures Joined(Split([c] + rest)) == [c] + rest
  {
    var pieces := Split(rest);
    assert ([c] + rest)[1..] == rest;
    if c == Base64.DOLLAR {
      JoinedCons([], pieces);
    } else {
      var first, others := pieces[0], pieces[1..];
      assert pieces == [first] + others;
      JoinedCons(first, others);
      JoinedCons([c] + first, others);
      if others != [] {
        PlusAssociates([c], first + [Base64.DOLLAR], Joined(others));
        PlusAssociates([c], first, [Base64.DOLLAR]);
      }
    }
  }

  /**
   What takes part in a hybrid decryption: the armored key, the Kyber ciphertext, key and secret, the
   OpenPGP message, and the bytes `masked` whose hexadecimal text it holds.
   */
  datatype HybridParts = HybridParts(armored: seq<byte>, kyberCt: seq<byte>, sk: seq<byte>, secret: seq<byte>,
                                     message: seq<byte>, plain: seq<byte>, masked: seq<byte>)

  /** `result` is each masked byte combined by exclusive-or with the byte of the extended secret. */
  ghost predicate Decrypts(lib: Library, blob: seq<byte>, eccKey: seq<byte>, kyberKey: Option<seq<byte>>,
                           p: HybridParts, result: seq<byte>)
  {
    && eccKey == Base64.Encode(p.armored) && lib.utf8(p.armored)
    && blob == HYBRID_MODE_PREFIX + [36] + Base64.Encode(p.kyberCt) + [36] + Base64.Encode(p.message)
    && lib.utf8(p.message)
    && |p.sk| == 1632
    && (kyberKey == Some(Base64.Encode(p.sk)) || kyberKey == Some(Base64.Encode(Base64.Encode(p.sk))))
    && lib.decapsulate(p.kyberCt, p.sk) == Some(p.secret)
    && lib.pgpDecrypt(p.message, p.armored) == Some(p.plain)
    && Hex.Lowered(p.plain) == Hex.Encode(p.masked)
    && |result| == |p.masked|
    && (forall i :: 0 <= i < |result| ==> result[i] == p.masked[i] ^ lib.xof(p.secret)(i))
    && lib.utf8(result)
  }

  /** The text before the first '$'. */
  predicate IsHybrid(blob: seq<byte>) {
    blob == HYBRID_MODE_PREFIX || HYBRID_MODE_PREFIX + [36] <= blob
  }

  lemma {:induction false} FirstField(s: seq<byte>, a: seq<byte>)
    requires Base64.DOLLAR !in a
    ensures Split(s)[0] == a <==> s == a || a + [Base64.DOLLAR] <= s
    decreases |s|
  {
    if s == [] {
    } else if a == [] {
      assert (s[0] == Base64.DOLLAR) <==> a + [Base64.DOLLAR] <= s;
    } else {
      FirstField(s[1..], a[1..]);
      FirstFieldStep(s, a);
    }
  }

  lemma FirstFieldStep(s: seq<byte>, a: seq<byte>)
    requires s != [] && a != [] && Base64.DOLLAR !in a
    requires Split(s[1..])[0] == a[1..] <==> s[1..] == a[1..] || a[1..] + [Base64.DOLLAR] <= s[1..]
    ensures Split(s)[0] == a <==> s == a || a + [Base64.DOLLAR] <= s
  {
    assert s == [s[0]] + s[1..] && a == [a[0]] + a[1..];
    assert a + [Base64.DOLLAR] == [a[0]] + (a[1..] + [Base64.DOLLAR]);
    Peel(a[0], a[1..] + [Base64.DOLLAR], s[0], s[1..]);
  }

  lemma Peel<T>(x: T, a: seq<T>, y: T, b: seq<T>)
    ensures [x] + a <= [y] + b <==> x == y && a <= b
    ensures [x] + a == [y] + b <==> x == y && a == b
  {
    var s, t := [x] + a, [y] + b;
    assert s[0] == x && t[0] == y && s[1..] == a && t[1..] == b;
    if s <= t {
      assert t[..|s|] == s && t[..|s|][1..] == b[..|a|];
    }
    if x == y && a <= b {
      assert t[..|s|] == [y] + b[..|a|];
    }
  }

  lemma HybridByPrefix(blob: seq<byte>)
    ensures Split(blob)[0] == HYBRID_MODE_PREFIX <==> IsHybrid(blob)
  {
    FirstField(blob, HYBRID_MODE_PREFIX);
  }

  lemma XorHexIs(a: seq<byte>, b: seq<byte>, x: seq<byte>, y: seq<byte>)
    requires Hex.Decode(a) == Some(x) && Hex.Decode(b) == Some(y) && |x| == |y|
    ensures XorHex(a, b) == Ok(Hex.Encode(Xor(x, y)))
  {
  }

  lemma UnmaskIs(lib: Library, plain: seq<byte>, secret: seq<byte>, masked: seq<byte>)
    requires Hex.Decode(plain) == Some(masked)
    ensures var bytes := Xor(masked, Blake3Extend(lib, secret, |masked|));
            Unmask(lib, plain, secret) == if lib.utf8(bytes) then Ok(bytes) else Err(BadUtf8)
  {
    var pad := Blake3Extend(lib, secret, |masked|);
    assert |plain| / 2 == |masked|;
    Hex.RoundTrip(pad);
    XorHexIs(plain, Hex.Encode(pad), masked, pad);
    Hex.RoundTrip(Xor(masked, pad));
  }

  lemma UnmaskIff(lib: Library, plain: seq<byte>, secret: seq<byte>, masked: seq<byte>, result: seq<byte>)
    requires Hex.Lowered(plain) == Hex.Encode(masked)
    ensures Unmask(lib, plain, secret) == Ok(result) <==>
      && |result| == |masked|
      && (forall i :: 0 <= i < |result| ==> result[i] == masked[i] ^ lib.xof(secret)(i))
      && lib.utf8(result)
  {
    Hex.DecodeIff(plain, masked);
    UnmaskIs(lib, plain, secret, masked);
    XorIs(lib, masked, secret, result);
  }

  lemma XorIs(lib: Library, masked: seq<byte>, secret: seq<byte>, result: seq<byte>)
    ensures Xor(masked, Blake3Extend(lib, secret, |masked|)) == result <==>
      |result| == |masked| && forall i :: 0 <= i < |result| ==> result[i] == masked[i] ^ lib.xof(secret)(i)
  {
  }

  /** A hybrid key that decrypts is made of such parts. */
  lemma HybridOnly(lib: Library, blob: seq<byte>, eccKey: seq<byte>, kyberKey: Option<seq<byte>>, result: seq<byte>)
    returns (p: HybridParts)
    requires IsHybrid(blob) && DecryptWorkspaceKey(lib, blob, eccKey, kyberKey) == Ok(result)
    ensures Decrypts(lib, blob, eccKey, kyberKey, p, result)
  {
    HybridByPrefix(blob);
    var parts := Split(blob);
    var ct, sk := Base64.Decode(parts[1]).value, KyberSecretKeyRaw(kyberKey.value).value;
    var armored, message := DecodeText(lib, eccKey).value, DecodeText(lib, parts[2]).value;
    var secret, plain := lib.decapsulate(ct, sk).value, lib.pgpDecrypt(message, armored).value;
    var masked := UnmaskedText(lib, plain, secret);
    p := HybridParts(armored, ct, sk, secret, message, plain, masked);
    UnmaskIff(lib, plain, secret, masked, result);
    KyberKeyIff(kyberKey.value, sk);
    Base64.OnlyEncodings(eccKey);
    Base64.OnlyEncodings(parts[1]);
    Base64.OnlyEncodings(parts[2]);
    ThreeFields(blob);
  }

  lemma UnmaskedText(lib: Library, plain: seq<byte>, secret: seq<byte>) returns (masked: seq<byte>)
    requires Unmask(lib, plain, secret).Ok?
    ensures Hex.Lowered(plain) == Hex.Encode(masked)
  {
    masked := Hex.Decode(plain).value;
    Hex.DecodeIff(plain, masked);
  }

  lemma ThreeFields(blob: seq<byte>)
    requires |Split(blob)| == 3
    ensures blob == Split(blob)[0] + [36] + Split(blob)[1] + [36] + Split(blob)[2]
  {
    var f := Split(blob);
    SplitJoins(blob);
    assert f == [f[0], f[1], f[2]] && f[1..] == [f[1], f[2]] && f[1..][1..] == [f[2]];
    assert Joined(f[1..]) == f[1] + [36] + Joined(f[1..][1..]);
    assert Joined(f) == f[0] + [36] + Joined(f[1..]);
  }

  lemma TextRoundTrip(lib: Library, text: seq<byte>)
    requires lib.utf8(text)
    ensures DecodeText(lib, Base64.Encode(text)) == Ok(text)
  {
    Base64.RoundTrip(text);
  }

  lemma HybridSteps(lib: Library, parts: seq<seq<byte>>, kyberKey: Option<seq<byte>>, p: HybridParts)
    requires |parts| == 3 && kyberKey.Some?
    requires Base64.Decode(parts[1]) == Some(p.kyberCt) && KyberSecretKeyRaw(kyberKey.value) == Ok(p.sk)
    requires lib.decapsulate(p.kyberCt, p.sk) == Some(p.secret)
    requires DecodeText(lib, parts[2]) == Ok(p.message) && lib.pgpDecrypt(p.message, p.armored) == Some(p.plain)
    ensures DecryptHybrid(lib, parts, p.armored, kyberKey) == Unmask(lib, p.plain, p.secret)
  {
  }

  lemma ModeStep(lib: Library, blob: seq<byte>, eccKey: seq<byte>, kyberKey: Option<seq<byte>>, armored: seq<byte>)
    requires DecodeText(lib, eccKey) == Ok(armored) && Split(blob)[0] == HYBRID_MODE_PREFIX
    ensures DecryptWorkspaceKey(lib, blob, eccKey, kyberKey) == DecryptHybrid(lib, Split(blob), armored, kyberKey)
  {
  }

  /** And everything made of such parts decrypts to that result. */
  lemma HybridAll(lib: Library, blob: seq<byte>, eccKey: seq<byte>, kyberKey: Option<seq<byte>>, p: HybridParts, result: seq<byte>)
    requires Decrypts(lib, blob, eccKey, kyberKey, p, result)
    ensures DecryptWorkspaceKey(lib, blob, eccKey, kyberKey) == Ok(result)
  {
    BlobOfParts(blob, p);
    TextRoundTrip(lib, p.armored);
    TextRoundTrip(lib, p.message);
    Base64.RoundTrip(p.kyberCt);
    KyberKeyIff(kyberKey.value, p.sk);
    ModeStep(lib, blob, eccKey, kyberKey, p.armored);
    HybridSteps(lib, Split(blob), kyberKey, p);
    UnmaskIff(lib, p.plain, p.secret, p.masked, result);
  }

  lemma BlobOfParts(blob: seq<byte>, p: HybridParts)
    requires blob == HYBRID_MODE_PREFIX + [36] + Base64.Encode(p.kyberCt) + [36] + Base64.Encode(p.message)
    ensures Split(blob) == [HYBRID_MODE_PREFIX, Base64.Encode(p.kyberCt), Base64.Encode(p.message)]
  {
    var front, ct, m := HYBRID_MODE_PREFIX + [36], Base64.Encode(p.kyberCt), Base64.Encode(p.message);
    PlusAssociates(front, ct, [36]);
    PlusAssociates(front, ct + [36], m);
    HybridBlobSplits(p.kyberCt, p.message);
  }

  /** Any other key decrypts exactly as one base64 OpenPGP message. */
  lemma EccOnlyIff(lib: Library, blob: seq<byte>, eccKey: seq<byte>, kyberKey: Option<seq<byte>>,
                   armored: seq<byte>, message: seq<byte>, result: seq<byte>)
    requires !IsHybrid(blob) && eccKey == Base64.Encode(armored) && blob == Base64.Encode(message)
    ensures DecryptWorkspaceKey(lib, blob, eccKey, kyberKey) == Ok(result) <==>
      lib.utf8(armored) && lib.utf8(message) && lib.pgpDecrypt(message, armored) == Some(result)
  {
    HybridByPrefix(blob);
    Base64.RoundTrip(armored);
    Base64.RoundTrip(message);
  }

  /** And text that is not base64 at all does not decrypt. */
  lemma EccOnlyNeedsBase64(lib: Library, blob: seq<byte>, eccKey: seq<byte>, kyberKey: Option<seq<byte>>)
    requires DecryptWorkspaceKey(lib, blob, eccKey, kyberKey).Ok?
    ensures exists armored :: eccKey == Base64.Encode(armored)
    ensures !IsHybrid(blob) ==> exists message :: blob == Base64.Encode(message)
  {
    HybridByPrefix(blob);
    Base64.OnlyEncodings(eccKey);
    if !IsHybrid(blob) {
      Base64.OnlyEncodings(blob);
    }
  }

  /** With a readable OpenPGP key, a hybrid blob of the wrong shape or without a Kyber key has its own error. */
  lemma HybridRefusals(lib: Library, blob: seq<byte>, armored: seq<byte>, kyberKey: Option<seq<byte>>)
    requires IsHybrid(blob) && lib.utf8(armored)
    ensures var r := DecryptWorkspaceKey(lib, blob, Base64.Encode(armored), kyberKey);
            && (Dollars(blob) != 2 <==> r == Err(MalformedHybridKey))
            && (Dollars(blob) == 2 && kyberKey.None? ==> r == Err(NoKyberKey))
            && (r == Err(NoKyberKey) ==> kyberKey.None?)
  {
    HybridByPrefix(blob);
    Base64.RoundTrip(armored);
    FieldCount(blob);
    if |Split(blob)| == 3 && kyberKey.Some? {
      OtherErrors(lib, Split(blob), armored, kyberKey);
    }
  }

  lemma OtherErrors(lib: Library, parts: seq<seq<byte>>, armored: seq<byte>, kyberKey: Option<seq<byte>>)
    requires |parts| == 3 && kyberKey.Some?
    ensures DecryptHybrid(lib, parts, armored, kyberKey) != Err(NoKyberKey)
    ensures DecryptHybrid(lib, parts, armored, kyberKey) != Err(MalformedHybridKey)
  {
  }

  function Dollars(s: seq<byte>): nat {
    if s == [] then 0 else (if s[0] == 36 then 1 else 0) + Dollars(s[1..])
  }

  lemma {:induction false} FieldCount(s: seq<byte>)
    ensures |Split(s)| == Dollars(s) + 1
  {
    if s != [] {
      FieldCount(s[1..]);
    }
  }

  lemma HybridModeText()
    ensures |HYBRID_MODE| == 10 && forall i :: 0 <= i < 10 ==> HYBRID_MODE[i] as char == "HybridMode"[i]
  {
  }
}
