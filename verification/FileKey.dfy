/** Derivation of a file's AES key from the account mnemonic (`src/crypto.rs`). */
module FileKey {
  import opened Bytes
  import opened CtrMode
  import Hex

  type Digest64 = d: seq<byte> | |d| == 64 witness seq(64, _ => 0)

  /** The library primitives: mnemonic parsing with its seed, and the hash functions. */
  datatype Primitives = Primitives(
    seed: seq<byte> -> Option<Digest64>,
    sha512: seq<byte> -> Digest64,
    sha256: seq<byte> -> seq<byte>,
    ripemd160: seq<byte> -> seq<byte>,
    cipher: BlockCipher
  )

  datatype KeyError = InvalidMnemonic | InvalidBucket

  function GenerateFileKey(lib: Primitives, mnemonic: seq<byte>, bucket: seq<byte>, index: seq<byte>)
    : Result<Key, KeyError>
  {
    var seed := lib.seed(mnemonic);
    if seed.None? then Err(InvalidMnemonic)
    else
      var bucketBytes := Hex.Decode(bucket);
      if bucketBytes.None? then Err(InvalidBucket)
      else
        var bucketKey := lib.sha512(seed.value + bucketBytes.value);
        var fileKey := lib.sha512(bucketKey[..32] + index);
        Ok(fileKey[..32])
  }

  /** The shard hash sent with a finish request: hex of ripemd160 of sha256. */
  function ShardHash(lib: Primitives, content: seq<byte>): seq<byte> {
    Hex.Encode(lib.ripemd160(lib.sha256(content)))
  }

  function ShardHasher(lib: Primitives): seq<byte> -> seq<byte> {
    (content: seq<byte>) => ShardHash(lib, content)
  }

  /**
   The derivation against hashes known only by their answers: the seed and the bucket's bytes hash to
   the bucket key, and its first half and the index hash to the file key.
   */
  lemma KeyDerivation(lib: Primitives, mnemonic: seq<byte>, bucketBytes: seq<byte>, index: seq<byte>,
                      seed: Digest64, h1: Digest64, h2: Digest64)
    requires lib.seed(mnemonic) == Some(seed)
    requires lib.sha512(seed + bucketBytes) == h1 && lib.sha512(h1[..32] + index) == h2
    ensures GenerateFileKey(lib, mnemonic, Hex.Encode(bucketBytes), index) == Ok(h2[..32])
  {
    Hex.RoundTrip(bucketBytes);
  }

  /** The key that the mnemonic's seed, the bucket and the index determine. */
  ghost predicate DerivedKey(lib: Primitives, mnemonic: seq<byte>, bucket: seq<byte>, index: seq<byte>, key: seq<byte>) {
    var (seed, bucketBytes) := (lib.seed(mnemonic), Hex.Decode(bucket));
    seed != None && bucketBytes != None && key == lib.sha512(lib.sha512(seed.value + bucketBytes.value)[..32] + index)[..32]
  }

  lemma KeyIs(lib: Primitives, mnemonic: seq<byte>, bucket: seq<byte>, index: seq<byte>)
    ensures GenerateFileKey(lib, mnemonic, bucket, index).Ok? ==>
      DerivedKey(lib, mnemonic, bucket, index, GenerateFileKey(lib, mnemonic, bucket, index).value)
    ensures GenerateFileKey(lib, mnemonic, bucket, index) == Err(InvalidMnemonic) <==> lib.seed(mnemonic) == None
    ensures GenerateFileKey(lib, mnemonic, bucket, index) == Err(InvalidBucket) <==>
      lib.seed(mnemonic) != None && Hex.Decode(bucket) == None
  {
  }

  /** When there is no key, and why. */
  lemma KeyErrors(lib: Primitives, mnemonic: seq<byte>, bucket: seq<byte>, index: seq<byte>)
    ensures GenerateFileKey(lib, mnemonic, bucket, index) == Err(InvalidMnemonic) <==> lib.seed(mnemonic) == None
    ensures GenerateFileKey(lib, mnemonic, bucket, index) == Err(InvalidBucket) <==>
      lib.seed(mnemonic) != None && forall b :: Hex.Lowered(bucket) != Hex.Encode(b)
  {
    if Hex.Decode(bucket).Some? {
      Hex.DecodeIff(bucket, Hex.Decode(bucket).value);
    }
    forall b | Hex.Lowered(bucket) == Hex.Encode(b)
      ensures Hex.Decode(bucket) == Some(b)
    {
      Hex.DecodeIff(bucket, b);
    }
  }

  /** Some hash tells the keys of any two indices apart: the index goes into the key. */
  lemma IndexMatters(lib: Primitives, mnemonic: seq<byte>, bucketBytes: seq<byte>, i1: seq<byte>, i2: seq<byte>)
    returns (sha512: seq<byte> -> Digest64)
    requires lib.seed(mnemonic).Some? && i1 != i2
    ensures var (other, bucket) := (lib.(sha512 := sha512), Hex.Encode(bucketBytes));
            GenerateFileKey(other, mnemonic, bucket, i1) != GenerateFileKey(other, mnemonic, bucket, i2)
  {
    var a, b := Filled(1), Filled(2);
    sha512 := (x: seq<byte>) => if |x| >= 32 && x[32..] == i1 then a else b;
    var other, seed := lib.(sha512 := sha512), lib.seed(mnemonic).value;
    var h1 := sha512(seed + bucketBytes);
    assert (h1[..32] + i1)[32..] == i1 && (h1[..32] + i2)[32..] == i2;
    KeyDerivation(other, mnemonic, bucketBytes, i1, seed, h1, a);
    KeyDerivation(other, mnemonic, bucketBytes, i2, seed, h1, b);
    assert a[..32][0] != b[..32][0];
  }

  /** And so does the bucket. */
  lemma BucketMatters(lib: Primitives, mnemonic: seq<byte>, b1: seq<byte>, b2: seq<byte>, index: seq<byte>)
    returns (sha512: seq<byte> -> Digest64)
    requires lib.seed(mnemonic).Some? && b1 != b2
    ensures var other := lib.(sha512 := sha512);
            GenerateFileKey(other, mnemonic, Hex.Encode(b1), index) != GenerateFileKey(other, mnemonic, Hex.Encode(b2), index)
  {
    var seed := lib.seed(mnemonic).value;
    var a, b := Filled(seed[0] ^ 1), Filled(seed[0] ^ 2);
    sha512 := (x: seq<byte>) => if x == seed + b1 || (x != [] && x[0] == seed[0] ^ 1) then a else b;
    var other := lib.(sha512 := sha512);
    assert (seed + b1)[64..] == b1 && (seed + b2)[64..] == b2;
    FirstBytesDiffer(seed[0]);
    assert (seed + b2)[0] == seed[0] && (a[..32] + index)[0] == seed[0] ^ 1 && (b[..32] + index)[0] == seed[0] ^ 2;
    assert (seed + b1)[0] == seed[0];
    KeyDerivation(other, mnemonic, b1, index, seed, a, a);
    KeyDerivation(other, mnemonic, b2, index, seed, b, b);
    assert a[..32][0] != b[..32][0];
  }

  function Filled(b: byte): (d: Digest64) {
    seq(64, _ => b)
  }

  lemma FirstBytesDiffer(b: byte)
    ensures b ^ 1 != b && b ^ 2 != b && b ^ 1 != b ^ 2
  {
  }

  /** The shard hash against digests known only by their answers. */
  lemma ShardHashIs(lib: Primitives, content: seq<byte>, inner: seq<byte>, outer: seq<byte>)
    requires lib.sha256(content) == inner && lib.ripemd160(inner) == outer
    ensures ShardHash(lib, content) == Hex.Encode(outer)
  {
  }
}
