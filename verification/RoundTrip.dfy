/** Upload and download are inverse, and the fast download path refines the slow one. */
module RoundTrip {
  import opened Bytes
  import opened CtrMode
  import opened StableSort
  import opened FileKey
  import opened Slicing
  import opened MultipartTheorems
  import opened Upload
  import opened Download
  import Hex

  // ---- The fast path refines the slow one ---------------------------------

  /** What the slow path writes: everything decrypted from byte 0, `start` bytes dropped, the rest cut. */
  function DecryptAndSkip(ks: Keystream, pieces: seq<seq<byte>>, start: nat, end: nat): seq<byte>
    requires start <= end
  {
    var plain := Crypt(ks, 0, Concat(pieces));
    var rest := plain[Min(start, |plain|)..];
    rest[..Min(end - start, |rest|)]
  }

  lemma SkipIsClip<T>(s: seq<T>, start: nat, end: nat)
    requires start <= end
    ensures var rest := s[Min(start, |s|)..]; rest[..Min(end - start, |rest|)] == Clip(s, start, end)
  {
  }

  /**
   For positive sizes that are true below `end`, the answers to the planned requests, decrypted as
   one stream from `start` on, are what decrypt-and-skip gives. The left side is what
   `Download.FastPath` writes, and the window on the right is what `Download.SlowPath` writes.
   */
  lemma FastRefinesSlow(ks: Keystream, storage: Storage, shards: seq<Shard>, sizes: seq<nat>, start: nat, end: nat)
    requires |sizes| == |shards| && Positive(sizes) && start < end && TrueBelow(storage, shards, sizes, end)
    ensures Crypt(ks, start, Delivered(storage, PlanRequests(shards, sizes, start, end, 0)))
         == DecryptAndSkip(ks, PiecesOf(storage, shards), start, end)
         == Clip(Crypt(ks, 0, Concat(PiecesOf(storage, shards))), start, end)
  {
    FastIsWindow(ks, storage, shards, sizes, start, end);
    SkipIsClip(Crypt(ks, 0, Concat(PiecesOf(storage, shards))), start, end);
  }

  // ---- Upload, then download ----------------------------------------------

  /** `shards` lists, in any order, a split of `content` whose parts are known by `index`. */
  ghost predicate ListsSplitOf(storage: Storage, shards: seq<Shard>, ordered: seq<Shard>, content: seq<byte>) {
    && (forall i, j :: 0 <= i < j < |ordered| ==> ordered[i].index < ordered[j].index)
    && multiset(shards) == multiset(ordered)
    && Concat(PiecesOf(storage, ordered)) == content
  }

  /** `plaintext[min(s, n)..min(s + len, n))`, or all of it. */
  function PlainWindow(plaintext: seq<byte>, range: Option<(nat, nat)>): seq<byte> {
    match range
    case None => plaintext
    case Some((start, len)) => plaintext[Min(start, |plaintext|)..Min(start + len, |plaintext|)]
  }

  lemma OpensUploaded(lib: Primitives, mnemonic: seq<byte>, bucket: seq<byte>, index: seq<byte>, key: Key, iv: Iv, links: Links)
    requires |index| == 32 && iv == index[..16] && GenerateFileKey(lib, mnemonic, bucket, index) == Ok(key)
    requires links.version.GetOr(1) != 1 && links.index == Hex.Encode(index)
    ensures OpenFile(lib, mnemonic, bucket, links) == Ok((key, iv))
  {
    Hex.RoundTrip(index);
  }

  lemma WindowOfUploaded(lib: Primitives, storage: Storage, key: Key, iv: Iv, plaintext: seq<byte>,
                         links: Links, ordered: seq<Shard>, range: Option<(nat, nat)>)
    requires |plaintext| == links.size <= U64_MAX
    requires ListsSplitOf(storage, links.shards, ordered, Crypt(KeystreamOf(lib.cipher, key, iv), 0, plaintext))
    ensures WindowContent(lib, storage, key, iv, links, range) == PlainWindow(plaintext, range)
  {
    assert StrictlyAscending(ShardIndex, ordered);
    SortRestores(ShardIndex, links.shards, ordered);
    CryptTwice(KeystreamOf(lib.cipher, key, iv), 0, plaintext);
  }

  /**
   The receipt of an upload and any listing of its object give back any window of the plaintext.
   `Upload` proves that both upload paths return this receipt, and `Download` that the writer gets
   this window.
   */
  lemma UploadThenDownload(lib: Primitives, storage: Storage, mnemonic: seq<byte>, bucket: seq<byte>, index: seq<byte>,
                           key: Key, iv: Iv, plaintext: seq<byte>, receipt: Receipt,
                           links: Links, ordered: seq<Shard>, range: Option<(nat, nat)>)
    requires |index| == 32 && iv == index[..16] && GenerateFileKey(lib, mnemonic, bucket, index) == Ok(key)
    requires receipt == ReceiptOf(lib, key, iv, index, plaintext)
    requires |plaintext| == links.size <= U64_MAX && links.version.GetOr(1) != 1 && links.index == receipt.indexHex
    requires ListsSplitOf(storage, links.shards, ordered, receipt.content)
    ensures OpenFile(lib, mnemonic, bucket, links) == Ok((key, iv))
    ensures WindowContent(lib, storage, key, iv, links, range) == PlainWindow(plaintext, range)
  {
    OpensUploaded(lib, mnemonic, bucket, index, key, iv, links);
    WindowOfUploaded(lib, storage, key, iv, plaintext, links, ordered, range);
  }

  /** The true lengths of the shards, or some of them left out. */
  ghost predicate TrueLengths(storage: Storage, ordered: seq<Shard>) {
    (forall s :: s in ordered ==> s.size == |storage(s.url)|) || exists s :: s in ordered && s.size == 0
  }

  lemma SizesOfTrueLengths(storage: Storage, size: nat, ordered: seq<Shard>)
    requires TrueLengths(storage, ordered) && SizesKnown(ordered) && size == |Concat(PiecesOf(storage, ordered))|
    ensures forall i :: 0 <= i < |ordered| ==> SizesOf(size, ordered)[i] == |storage(ordered[i].url)|
    ensures Total(SizesOf(size, ordered)) == size
  {
    if |ordered| == 1 {
      LonePiece(PiecesOf(storage, ordered));
    }
    TotalIsLength(SizesOf(size, ordered), PiecesOf(storage, ordered));
  }

  lemma LonePiece(pieces: seq<seq<byte>>)
    requires |pieces| == 1
    ensures |Concat(pieces)| == |pieces[0]|
  {
    ConcatSnoc([], pieces[0]);
    assert pieces == [] + [pieces[0]];
  }

  lemma TotalIsLength(sizes: seq<nat>, pieces: seq<seq<byte>>)
    requires |sizes| == |pieces| && forall i :: 0 <= i < |pieces| ==> sizes[i] == |pieces[i]|
    ensures Total(sizes) == |Concat(pieces)|
  {
    OffsetIsLength(sizes, pieces, |pieces|);
    assert pieces[..|pieces|] == pieces && sizes[..|pieces|] == sizes;
  }

  /** A listing that states the true shard lengths, or leaves some out, is all that a download relies on. */
  lemma TrueLengthsAreHonest(storage: Storage, links: Links, ordered: seq<Shard>, content: seq<byte>, range: Option<(nat, nat)>)
    requires ListsSplitOf(storage, links.shards, ordered, content) && links.size == |content| <= U64_MAX
    requires TrueLengths(storage, ordered)
    ensures InOrder(links) == ordered && Fits64(links, range)
    ensures SizesHonest(storage, links.size, InOrder(links), WindowOf(links.size, range).1)
  {
    assert StrictlyAscending(ShardIndex, ordered);
    SortRestores(ShardIndex, links.shards, ordered);
    if SizesKnown(ordered) {
      SizesOfTrueLengths(storage, links.size, ordered);
      EndsAtMostTotal(SizesOf(links.size, ordered), WindowOf(links.size, range).1);
    }
  }

  lemma EndsAtMostTotal(sizes: seq<nat>, end: nat)
    requires Total(sizes) <= U64_MAX
    ensures EndsFit(sizes, end)
  {
    forall i | 0 <= i < |sizes| && Visited(sizes, end, i)
      ensures Offset(sizes, i) + sizes[i] <= U64_MAX
    {
      OffsetStep(sizes, i);
      OffsetAtMostTotal(sizes, i + 1);
    }
  }

  /** A server that lists an uploaded object truthfully, in whatever shards and order. */
  ghost predicate Serves(links: Links, storage: Storage, ordered: seq<Shard>, receipt: Receipt) {
    && links.version.GetOr(1) != 1 && links.index == receipt.indexHex && links.size == |receipt.content|
    && ListsSplitOf(storage, links.shards, ordered, receipt.content)
    && TrueLengths(storage, ordered)
  }

  lemma ServedWindow(lib: Primitives, mnemonic: seq<byte>, bucket: seq<byte>, index: seq<byte>, key: Key, iv: Iv,
                     plaintext: seq<byte>, receipt: Receipt, links: Links, storage: Storage, ordered: seq<Shard>,
                     range: Option<(nat, nat)>)
    requires |index| == 32 && iv == index[..16] && GenerateFileKey(lib, mnemonic, bucket, index) == Ok(key)
    requires receipt == ReceiptOf(lib, key, iv, index, plaintext) && Serves(links, storage, ordered, receipt)
    requires |plaintext| <= U64_MAX
    ensures OpenFile(lib, mnemonic, bucket, links) == Ok((key, iv))
    ensures Fits64(links, range) && SizesHonest(storage, links.size, InOrder(links), WindowOf(links.size, range).1)
    ensures WindowContent(lib, storage, key, iv, links, range) == PlainWindow(plaintext, range)
  {
    UploadThenDownload(lib, storage, mnemonic, bucket, index, key, iv, plaintext, receipt, links, ordered, range);
    TrueLengthsAreHonest(storage, links, ordered, receipt.content, range);
  }

  method Store(lib: Primitives, bucket: seq<byte>, mnemonic: seq<byte>, index: seq<byte>, input: seq<byte>,
               start: nat -> Option<seq<Slot>>, faults: Faults)
    returns (receipt: Option<Receipt>)
    requires |index| == 32
    ensures var key := GenerateFileKey(lib, mnemonic, bucket, index);
            && (receipt.Some? ==> key.Ok? && receipt.value == ReceiptOf(lib, key.value, index[..16], index, input))
            && (key.Ok? && Granted(start, |input|) && faults == NO_FAULTS ==> receipt.Some?)
  {
    var r, progress := UploadStreamToNetwork(lib, bucket, mnemonic, index, input, |input|, start, faults);
    receipt := if r.Ok? then Some(r.value) else None;
  }

  /** The key and the iv behind a receipt. */
  lemma KeyBehind(lib: Primitives, bucket: seq<byte>, mnemonic: seq<byte>, index: seq<byte>, input: seq<byte>, receipt: Receipt)
    returns (key: Key, iv: Iv)
    requires |index| == 32
    requires var key := GenerateFileKey(lib, mnemonic, bucket, index);
             key.Ok? && receipt == ReceiptOf(lib, key.value, index[..16], index, input)
    ensures iv == index[..16] && GenerateFileKey(lib, mnemonic, bucket, index) == Ok(key)
    ensures receipt == ReceiptOf(lib, key, iv, index, input)
  {
    key, iv := GenerateFileKey(lib, mnemonic, bucket, index).value, index[..16];
  }

  method FetchStored(lib: Primitives, bucket: seq<byte>, mnemonic: seq<byte>, links: Links, storage: Storage,
                     range: Option<(nat, nat)>, netReliable: bool, outReliable: bool, ghost key: Key, ghost iv: Iv)
    returns (fetched: bool, data: seq<byte>)
    requires Fits64(links, range) && OpenFile(lib, mnemonic, bucket, links) == Ok((key, iv))
    requires SizesHonest(storage, links.size, InOrder(links), WindowOf(links.size, range).1)
    ensures data <= WindowContent(lib, storage, key, iv, links, range)
    ensures fetched ==> data == WindowContent(lib, storage, key, iv, links, range)
    ensures netReliable && outReliable ==> fetched
  {
    var net := new Network(storage, netReliable);
    var out := new Writer(outReliable);
    var failure := DownloadFileToWriter(lib, net, mnemonic, bucket, Some(links), out, range);
    fetched, data := failure.None?, out.data;
    ghost var window := WindowContent(lib, storage, key, iv, links, range);
    assert [] + window == window;
  }

  /**
   End to end: an upload and, if it succeeded, a download of any window of the stored file, over
   any chunking, interleaving, shard listing and network behaviour. Success means the window of
   the original input, and even a failed download wrote nothing but a front part of it. Where
   nothing outside fails, both succeed.
   */
  method StoreThenFetch(lib: Primitives, bucket: seq<byte>, mnemonic: seq<byte>, index: seq<byte>, input: seq<byte>,
                        start: nat -> Option<seq<Slot>>, faults: Faults, serve: Receipt -> (Links, Storage),
                        ghost order: Receipt -> seq<Shard>, range: Option<(nat, nat)>, netReliable: bool, outReliable: bool)
    returns (stored: bool, fetched: bool, data: seq<byte>)
    requires |index| == 32 && |input| <= U64_MAX
    requires forall r: Receipt :: |r.content| <= U64_MAX ==> Serves(serve(r).0, serve(r).1, order(r), r)
    ensures stored && fetched ==> data == PlainWindow(input, range)
    ensures stored ==> data <= PlainWindow(input, range)
    ensures GenerateFileKey(lib, mnemonic, bucket, index).Ok? && Granted(start, |input|) && faults == NO_FAULTS ==> stored
    ensures stored && netReliable && outReliable ==> fetched
  {
    fetched, data := false, [];
    var receipt := Store(lib, bucket, mnemonic, index, input, start, faults);
    stored := receipt.Some?;
    if stored {
      ghost var key, iv := KeyBehind(lib, bucket, mnemonic, index, input, receipt.value);
      var (links, storage) := serve(receipt.value);
      assert Serves(serve(receipt.value).0, serve(receipt.value).1, order(receipt.value), receipt.value);
      ServedWindow(lib, mnemonic, bucket, index, key, iv, input, receipt.value, links, storage, order(receipt.value), range);
      fetched, data := FetchStored(lib, bucket, mnemonic, links, storage, range, netReliable, outReliable, key, iv);
    }
  }
}
