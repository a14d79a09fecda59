/**
 The streaming AES-256-CTR state of `src/crypto.rs`: counter mode with one 128-bit
 big-endian counter (section 6.5 of NIST SP 800-38A).

 The block cipher is a parameter. It maps a key and a counter block, given as the 128-bit
 integer that the block's 16 bytes spell in big-endian order, to 16 keystream bytes.
 */
module CtrMode {
  import opened Bytes
  import opened Slicing

  const BLOCK := 16
  const TWO_128 := 0x1_0000_0000_0000_0000_0000_0000_0000_0000

  type Key = k: seq<byte> | |k| == 32 witness seq(32, _ => 0)
  type Iv = b: seq<byte> | |b| == 16 witness seq(16, _ => 0)
  type Block = b: seq<byte> | |b| == BLOCK witness seq(16, _ => 0)
  type BlockCipher = (Key, nat) -> Block

  /** The byte of the keystream at each position. */
  type Keystream = nat -> byte

  function BigEndian(s: seq<byte>): nat {
    if s == [] then 0 else 256 * BigEndian(s[..|s| - 1]) + s[|s| - 1] as nat
  }

  function CounterAt(iv: Iv, block: nat): nat {
    (BigEndian(iv) + block) % TWO_128
  }

  function KeystreamOf(cipher: BlockCipher, key: Key, iv: Iv): Keystream {
    (p: nat) => cipher(key, CounterAt(iv, p / BLOCK))[p % BLOCK]
  }

  /** `data` combined with the keystream, its first byte at keystream position `p`. */
  function Crypt(ks: Keystream, p: nat, data: seq<byte>): (r: seq<byte>)
    ensures |r| == |data|
  {
    seq(|data|, i requires 0 <= i < |data| => data[i] ^ ks(p + i))
  }

  /** One continuous stream handed over piece by piece. */
  function CryptPieces(ks: Keystream, p: nat, pieces: seq<seq<byte>>): seq<seq<byte>> {
    if pieces == [] then []
    else
      var n := |pieces| - 1;
      CryptPieces(ks, p, pieces[..n]) + [Crypt(ks, p + |Concat(pieces[..n])|, pieces[n])]
  }

  // ---- Laws of the stream -------------------------------------------------

  lemma CryptPlus(ks: Keystream, p: nat, a: seq<byte>, b: seq<byte>)
    ensures Crypt(ks, p, a + b) == Crypt(ks, p, a) + Crypt(ks, p + |a|, b)
  {
    forall i | 0 <= i < |a + b|
      ensures Crypt(ks, p, a + b)[i] == (Crypt(ks, p, a) + Crypt(ks, p + |a|, b))[i]
    {
      if i >= |a| {
        assert p + i == p + |a| + (i - |a|);
      }
    }
  }

  /** However a stream is cut into pieces, the pieces encrypt to the encrypted stream. */
  lemma {:induction false} AnySplitIsOneStream(ks: Keystream, p: nat, pieces: seq<seq<byte>>)
    ensures Concat(CryptPieces(ks, p, pieces)) == Crypt(ks, p, Concat(pieces))
  {
    if pieces != [] {
      var n := |pieces| - 1;
      AnySplitIsOneStream(ks, p, pieces[..n]);
      ConcatSnoc(CryptPieces(ks, p, pieces[..n]), Crypt(ks, p + |Concat(pieces[..n])|, pieces[n]));
      CryptPlus(ks, p, Concat(pieces[..n]), pieces[n]);
    }
  }

  /** Seeking to `a` and processing a slice gives the slice of one continuous pass. */
  lemma SeekIsSlice(ks: Keystream, p: nat, data: seq<byte>, a: nat, b: nat)
    requires a <= b <= |data|
    ensures Crypt(ks, p + a, data[a..b]) == Crypt(ks, p, data)[a..b]
  {
    var slice, all := Crypt(ks, p + a, data[a..b]), Crypt(ks, p, data);
    forall i | 0 <= i < b - a
      ensures slice[i] == all[a..b][i]
    {
      assert all[a..b][i] == all[a + i] == data[a + i] ^ ks(p + (a + i));
      assert data[a..b][i] == data[a + i];
      assert p + a + i == p + (a + i);
    }
  }

  lemma XorTwice(a: byte, k: byte)
    ensures (a ^ k) ^ k == a
  {
  }

  /** Decryption is encryption from the same position. */
  lemma CryptTwice(ks: Keystream, p: nat, data: seq<byte>)
    ensures Crypt(ks, p, Crypt(ks, p, data)) == data
  {
    var once := Crypt(ks, p, data);
    forall i | 0 <= i < |data|
      ensures Crypt(ks, p, once)[i] == data[i]
    {
      assert once[i] == data[i] ^ ks(p + i);
      XorTwice(data[i], ks(p + i));
    }
  }

  /** Decrypting any window of the ciphertext yields that window of the plaintext. */
  lemma DecryptWindow(ks: Keystream, plain: seq<byte>, a: nat, b: nat)
    requires a <= b <= |plain|
    ensures Crypt(ks, a, Crypt(ks, 0, plain)[a..b]) == plain[a..b]
  {
    SeekIsSlice(ks, 0, Crypt(ks, 0, plain), a, b);
    CryptTwice(ks, 0, plain);
  }

  // ---- The counter --------------------------------------------------------

  function Pow256(n: nat): (p: nat)
    ensures p > 0
  {
    if n == 0 then 1 else 256 * Pow256(n - 1)
  }

  lemma {:induction false} BigEndianBound(s: seq<byte>)
    ensures BigEndian(s) < Pow256(|s|)
  {
    if s != [] {
      BigEndianBound(s[..|s| - 1]);
    }
  }

  /** `n` is the number whose base-256 digits are the bytes of `s`, the highest first. */
  ghost predicate SpelledBy(n: nat, s: seq<byte>) {
    && n < Pow256(|s|)
    && forall k :: 0 <= k < |s| ==> s[k] as nat == n / Pow256(|s| - 1 - k) % 256
  }

  /** The digits of a number with its last one cut off. */
  lemma ShiftedDigit(n: nat, j: nat)
    ensures n / Pow256(j + 1) == n / 256 / Pow256(j)
  {
    var m, d := n / 256, Pow256(j);
    var q, r := m / d, m % d;
    assert n == 256 * (q * d + r) + n % 256;
    assert 256 * (q * d + r) == q * (256 * d) + 256 * r;
    QuotientUnique(n, 256 * d, q, 256 * r + n % 256);
  }

  lemma {:induction false} BigEndianSpelled(s: seq<byte>)
    ensures SpelledBy(BigEndian(s), s)
  {
    BigEndianBound(s);
    if s != [] {
      var m := |s| - 1;
      var n, front := BigEndian(s), s[..m];
      BigEndianSpelled(front);
      assert n / 256 == BigEndian(front) && n % 256 == s[m] as nat;
      forall k | 0 <= k < |s|
        ensures s[k] as nat == n / Pow256(m - k) % 256
      {
        if k < m {
          ShiftedDigit(n, m - k - 1);
          assert s[k] == front[k];
        }
      }
    }
  }

  lemma {:induction false} SpelledOnce(n: nat, s: seq<byte>)
    requires SpelledBy(n, s)
    ensures n == BigEndian(s)
  {
    if s != [] {
      var m := |s| - 1;
      var front := s[..m];
      forall k | 0 <= k < m
        ensures front[k] as nat == n / 256 / Pow256(m - 1 - k) % 256
      {
        ShiftedDigit(n, m - 1 - k);
        assert front[k] == s[k];
      }
      SpelledOnce(n / 256, front);
      assert s[m] as nat == n / Pow256(0) % 256;
    }
  }

  /**
   Byte `i` is combined by exclusive-or with its byte of the cipher blocks of the nonce, the nonce
   plus one, and so on modulo 2^128; a buffer of zeros turns into those blocks.
   */
  ghost predicate XorsBlocks(cipher: BlockCipher, key: Key, iv: Iv, p: nat, data: seq<byte>, data': seq<byte>) {
    && |data'| == |data|
    && forall i :: 0 <= i < |data| ==>
         data'[i] == data[i] ^ cipher(key, (BigEndian(iv) + (p + i) / 16) % 0x1_0000_0000_0000_0000_0000_0000_0000_0000)[(p + i) % 16]
  }

  /** That is what encrypting does, and nothing else does it. */
  lemma CryptXorsBlocks(cipher: BlockCipher, key: Key, iv: Iv, p: nat, data: seq<byte>, data': seq<byte>)
    ensures XorsBlocks(cipher, key, iv, p, data, data') <==> data' == Crypt(KeystreamOf(cipher, key, iv), p, data)
  {
    var c := Crypt(KeystreamOf(cipher, key, iv), p, data);
    forall i | 0 <= i < |data|
      ensures c[i] == data[i] ^ cipher(key, (BigEndian(iv) + (p + i) / 16) % TWO_128)[(p + i) % 16]
    {
      assert KeystreamOf(cipher, key, iv)(p + i) == cipher(key, CounterAt(iv, (p + i) / BLOCK))[(p + i) % BLOCK];
    }
  }

  /** The same with the nonce given by its digits: byte `i` of an encrypted buffer. */
  lemma CryptByNonce(cipher: BlockCipher, key: Key, iv: Iv, p: nat, data: seq<byte>, nonce: nat, i: nat)
    requires SpelledBy(nonce, iv) && i < |data|
    ensures Crypt(KeystreamOf(cipher, key, iv), p, data)[i]
         == data[i] ^ cipher(key, (nonce + (p + i) / 16) % 0x1_0000_0000_0000_0000_0000_0000_0000_0000)[(p + i) % 16]
  {
    SpelledOnce(nonce, iv);
    CryptXorsBlocks(cipher, key, iv, p, data, Crypt(KeystreamOf(cipher, key, iv), p, data));
  }

  lemma NonceFits(iv: Iv)
    ensures BigEndian(iv) < TWO_128
    ensures CounterAt(iv, 0) == BigEndian(iv)
  {
    BigEndianBound(iv);
    assert Pow256(4) == 0x1_0000_0000;
    assert Pow256(8) == 0x1_0000_0000_0000_0000;
    assert Pow256(12) == 0x1_0000_0000_0000_0000_0000_0000;
    assert Pow256(16) == TWO_128;
  }

  /** The counter is incremented modulo 2^128, across the wrap as well. */
  lemma NextCounter(iv: Iv, block: nat)
    ensures CounterAt(iv, block + 1) == (CounterAt(iv, block) + 1) % TWO_128
  {
  }

  /** After 2^128 blocks the counter, and with it the keystream, starts over. */
  lemma KeystreamWraps(cipher: BlockCipher, key: Key, iv: Iv, p: nat)
    ensures KeystreamOf(cipher, key, iv)(p + BLOCK * TWO_128) == KeystreamOf(cipher, key, iv)(p)
  {
    var q := p + BLOCK * TWO_128;
    assert q / BLOCK == p / BLOCK + TWO_128 && q % BLOCK == p % BLOCK;
    assert CounterAt(iv, p / BLOCK + TWO_128) == CounterAt(iv, p / BLOCK);
  }

  lemma NextPosition(p: nat)
    ensures p % BLOCK == BLOCK - 1 ==> (p + 1) / BLOCK == p / BLOCK + 1 && (p + 1) % BLOCK == 0
    ensures p % BLOCK != BLOCK - 1 ==> (p + 1) / BLOCK == p / BLOCK && (p + 1) % BLOCK == p % BLOCK + 1
  {
  }

  /** The machine itself: a counter and an offset into the current keystream block. */
  class Ctr {
    const cipher: BlockCipher
    const key: Key
    const iv: Iv
    var counter: nat
    var offset: nat
    /** How many keystream bytes lie before the next one. */
    ghost var pos: nat

    ghost predicate Valid()
      reads this
    {
      counter == CounterAt(iv, pos / BLOCK) && offset == pos % BLOCK
    }

    function Ks(): Keystream {
      KeystreamOf(cipher, key, iv)
    }

    constructor (cipher: BlockCipher, key: Key, iv: Iv)
      ensures Valid() && pos == 0
      ensures this.cipher == cipher && this.key == key && this.iv == iv
    {
      this.cipher, this.key, this.iv := cipher, key, iv;
      counter, offset, pos := BigEndian(iv), 0, 0;
      NonceFits(iv);
    }

    /** Moves to byte `p` of the keystream without producing the bytes before it. */
    method Seek(p: nat)
      requires p <= U64_MAX
      modifies this
      ensures Valid() && pos == p
    {
      counter := (BigEndian(iv) + p / BLOCK) % TWO_128;
      offset := p % BLOCK;
      pos := p;
    }

    /** Produces the next keystream byte. */
    method Next() returns (k: byte)
      requires Valid()
      modifies this
      ensures Valid() && pos == old(pos) + 1
      ensures k == Ks()(old(pos))
    {
      k := cipher(key, counter)[offset];
      NextPosition(pos);
      NextCounter(iv, pos / BLOCK);
      if offset + 1 == BLOCK {
        counter, offset := (counter + 1) % TWO_128, 0;
      } else {
        offset := offset + 1;
      }
      pos := pos + 1;
    }

    /** Combines `data` with the next keystream bytes, in place. */
    method Apply(data: array<byte>)
      requires Valid()
      modifies this, data
      ensures Valid() && pos == old(pos) + data.Length
      ensures data[..] == Crypt(Ks(), old(pos), old(data[..]))
      ensures XorsBlocks(cipher, key, iv, old(pos), old(data[..]), data[..])
    {
      for i := 0 to data.Length
        invariant Valid() && pos == old(pos) + i
        invariant forall j :: 0 <= j < i ==> data[j] == old(data[j]) ^ Ks()(old(pos) + j)
        invariant forall j :: i <= j < data.Length ==> data[j] == old(data[j])
      {
        var k := Next();
        data[i] := data[i] ^ k;
      }
      assert data[..] == Crypt(Ks(), old(pos), old(data[..]));
      CryptXorsBlocks(cipher, key, iv, old(pos), old(data[..]), data[..]);
    }
  }

  /** Combines a copy of `bytes` with the next keystream bytes. */
  method ApplyToCopy(ctr: Ctr, bytes: seq<byte>) returns (r: seq<byte>)
    requires ctr.Valid()
    modifies ctr
    ensures ctr.Valid() && ctr.pos == old(ctr.pos) + |bytes|
    ensures r == Crypt(ctr.Ks(), old(ctr.pos), bytes)
  {
    var buf := new byte[|bytes|](k requires 0 <= k < |bytes| => bytes[k]);
    assert buf[..] == bytes;
    ctr.Apply(buf);
    r := buf[..];
  }

  /** One-shot in-place encryption, the same operation as decryption. */
  method Aes256CtrApply(cipher: BlockCipher, key: Key, iv: Iv, data: array<byte>)
    modifies data
    ensures data[..] == Crypt(KeystreamOf(cipher, key, iv), 0, old(data[..]))
    ensures XorsBlocks(cipher, key, iv, 0, old(data[..]), data[..])
  {
    var ctr := new Ctr(cipher, key, iv);
    ctr.Apply(data);
  }
}
