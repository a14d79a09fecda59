/** The download of `src/transfer.rs`: a byte window of a stored file, decrypted into a writer. */
module Download {
  import opened Bytes
  import opened CtrMode
  import opened StableSort
  import opened FileKey
  import Hex

  datatype Shard = Shard(index: int, url: string, size: nat)
  datatype Links = Links(version: Option<nat>, index: seq<byte>, size: nat, shards: seq<Shard>)

  /** `IndexTooShort` stands for the panic of slicing the iv out of an index below 16 bytes. */
  datatype DownloadError =
    | NetworkFailed
    | WriteFailed
    | UnsupportedVersion
    | InvalidIndex
    | IndexTooShort
    | KeyFailed(error: KeyError)

  /** What the storage holds under each url. */
  type Storage = string -> seq<byte>

  datatype Request = Whole(url: string) | Range(url: string, first: nat, last: nat)

  // ---- The network and the writer -----------------------------------------

  /** A streamed body: the chunks that arrived, and whether the body ended without an error. */
  datatype Response = Response(chunks: seq<seq<byte>>, complete: bool) {
    ghost predicate Carries(body: seq<byte>) {
      Concat(chunks) <= body && (complete ==> Concat(chunks) == body)
    }
  }

  class Network {
    const storage: Storage
    /** An unreliable network may refuse any request and break off any body. */
    const reliable: bool
    var log: seq<Request>

    constructor (storage: Storage, reliable: bool)
      ensures this.storage == storage && this.reliable == reliable && log == []
    {
      this.storage, this.reliable, log := storage, reliable, [];
    }

    /** Any chunking of the body, cut short by an error or not. */
    method Deliver(body: seq<byte>) returns (r: Response)
      ensures r.Carries(body) && (!r.complete ==> !reliable)
    {
      var chunks: seq<seq<byte>> := [];
      var sent, pauses: nat := 0, *;
      while sent < |body| || pauses > 0
        invariant sent <= |body| && Concat(chunks) == body[..sent]
        decreases |body| - sent + pauses
      {
        var n: nat;
        if {
          case sent < |body| => n :| 0 < n <= |body| - sent;
          case pauses > 0 => n, pauses := 0, pauses - 1;
          case sent < |body| && !reliable => return Response(chunks, false);
        }
        ConcatSnoc(chunks, body[sent..sent + n]);
        assert body[..sent + n] == body[..sent] + body[sent..sent + n];
        chunks := chunks + [body[sent..sent + n]];
        sent := sent + n;
      }
      var broken: bool := *;
      r := Response(chunks, !(broken && !reliable));
    }

    /** GET of a whole shard. */
    method GetShard(url: string) returns (r: Option<Response>)
      modifies this
      ensures log == old(log) + [Whole(url)]
      ensures r.None? || !r.value.complete ==> !reliable
      ensures r.Some? ==> r.value.Carries(storage(url))
    {
      log := log + [Whole(url)];
      if {
        case !reliable => r := None;
        case true =>
          var response := Deliver(storage(url));
          r := Some(response);
      }
    }

    /** GET of an inclusive byte range; a range that starts behind the body is refused. */
    method GetRange(url: string, first: nat, last: nat) returns (r: Option<Response>)
      requires first <= last
      modifies this
      ensures log == old(log) + [Range(url, first, last)]
      ensures r.None? || !r.value.complete ==> !reliable || first >= |storage(url)|
      ensures r.Some? ==> first < |storage(url)| && r.value.Carries(Clip(storage(url), first, last + 1))
    {
      log := log + [Range(url, first, last)];
      if {
        case !reliable || first >= |storage(url)| => r := None;
        case first < |storage(url)| =>
          var response := Deliver(Clip(storage(url), first, last + 1));
          r := Some(response);
      }
    }
  }

  class Writer {
    /** On an unreliable writer any write may fail. */
    const reliable: bool
    var data: seq<byte>

    constructor (reliable: bool)
      ensures data == [] && this.reliable == reliable
    {
      data, this.reliable := [], reliable;
    }

    /** A failed write may have written any part of the front of the bytes. */
    method WriteAll(bytes: seq<byte>) returns (ok: bool)
      modifies this
      ensures old(data) <= data <= old(data) + bytes
      ensures ok ==> data == old(data) + bytes
      ensures !ok ==> !reliable
    {
      if {
        case true => data, ok := data + bytes, true;
        case !reliable =>
          var n: nat :| n <= |bytes|;
          data, ok := data + bytes[..n], false;
      }
    }
  }

  /** A transfer that has started fails only where the network or the writer may. */
  predicate Explained(failure: Option<DownloadError>, networkMayFail: bool, writerMayFail: bool) {
    match failure
    case None => true
    case Some(NetworkFailed) => networkMayFail
    case Some(WriteFailed) => writerMayFail
    case Some(_) => false
  }

  // ---- What a download means ----------------------------------------------

  function ShardIndex(s: Shard): int {
    s.index
  }

  function InOrder(links: Links): seq<Shard> {
    SortByKey(ShardIndex, links.shards)
  }

  /** The order is that of the indices the server gave; shards of equal index keep theirs. */
  lemma InOrderIs(links: Links)
    ensures multiset(InOrder(links)) == multiset(links.shards)
    ensures forall k :: WithKey(ShardIndex, InOrder(links), k) == WithKey(ShardIndex, links.shards, k)
    ensures forall i, j :: 0 <= i < j < |InOrder(links)| ==> InOrder(links)[i].index <= InOrder(links)[j].index
  {
    SortSorts(ShardIndex, links.shards);
    forall k
      ensures WithKey(ShardIndex, InOrder(links), k) == WithKey(ShardIndex, links.shards, k)
    {
      SortIsStable(ShardIndex, links.shards, k);
    }
    forall i, j | 0 <= i < j < |InOrder(links)|
      ensures InOrder(links)[i].index <= InOrder(links)[j].index
    {
      assert ShardIndex(InOrder(links)[i]) <= ShardIndex(InOrder(links)[j]);
    }
  }

  function PiecesOf(storage: Storage, shards: seq<Shard>): seq<seq<byte>> {
    seq(|shards|, i requires 0 <= i < |shards| => storage(shards[i].url))
  }

  function ContentOf(storage: Storage, links: Links): seq<byte> {
    Concat(PiecesOf(storage, InOrder(links)))
  }

  function SaturatingAdd(a: nat, b: nat): nat {
    Min(a + b, U64_MAX)
  }

  /** The exclusive byte window asked for, clamped to the announced size. */
  function WindowOf(size: nat, range: Option<(nat, nat)>): (w: (nat, nat))
    requires size <= U64_MAX
    ensures w.0 <= w.1 <= size
    ensures range.None? ==> w == (0, size)
    ensures range.Some? ==> w == (Min(range.value.0, size), Min(range.value.0 + range.value.1, size))
  {
    match range
    case Some((start, len)) => (Min(start, size), Min(SaturatingAdd(Min(start, size), len), size))
    case None => (0, size)
  }

  predicate SizesKnown(shards: seq<Shard>) {
    |shards| == 1 || forall s :: s in shards ==> s.size > 0
  }

  /** The sizes the fast path computes with: a lone shard is taken to span the file. */
  function SizesOf(size: nat, shards: seq<Shard>): (sizes: seq<nat>)
    ensures |sizes| == |shards|
  {
    if |shards| == 1 then [size] else seq(|shards|, i requires 0 <= i < |shards| => shards[i].size)
  }

  function Total(sizes: seq<nat>): nat {
    if sizes == [] then 0 else Total(sizes[..|sizes| - 1]) + sizes[|sizes| - 1]
  }

  function Offset(sizes: seq<nat>, i: nat): nat
    requires i <= |sizes|
  {
    Total(sizes[..i])
  }

  /** The shards that start below `end` have the sizes given. */
  ghost predicate TrueBelow(storage: Storage, shards: seq<Shard>, sizes: seq<nat>, end: nat)
    requires |sizes| == |shards|
  {
    forall i :: 0 <= i < |shards| && Offset(sizes, i) < end ==> sizes[i] == |storage(shards[i].url)|
  }

  /** Where the sizes are relied on, they are the lengths of the bodies. */
  ghost predicate SizesHonest(storage: Storage, size: nat, shards: seq<Shard>, end: nat) {
    SizesKnown(shards) ==> TrueBelow(storage, shards, SizesOf(size, shards), end)
  }

  /** The fast path looks at a shard unless it has seen one start behind the window. */
  ghost predicate Visited(sizes: seq<nat>, end: nat, i: nat)
    requires i <= |sizes|
  {
    i == 0 || Offset(sizes, i - 1) < end
  }

  /** The shard ends that the fast path computes are 64-bit. */
  ghost predicate EndsFit(sizes: seq<nat>, end: nat) {
    forall i {:trigger Visited(sizes, end, i)} :: 0 <= i < |sizes| && Visited(sizes, end, i) ==> Offset(sizes, i) + sizes[i] <= U64_MAX
  }

  /** The announced length is 64-bit, and so are the shard ends that the fast path computes. */
  ghost predicate Fits64(links: Links, range: Option<(nat, nat)>) {
    && links.size <= U64_MAX
    && (SizesKnown(InOrder(links)) ==> EndsFit(SizesOf(links.size, InOrder(links)), WindowOf(links.size, range).1))
  }

  /** The keystream position, and the end of the output, when the shards below `base` are done. */
  function Reached(start: nat, end: nat, base: nat): nat {
    Min(end, Max(start, base))
  }

  /** Bytes `lo` to `hi`, exclusive, of shard number `shard` in index order. */
  datatype Fetch = Fetch(shard: nat, lo: nat, hi: nat)

  /** What the fast path fetches from the shards from `i` on, the first of which starts at `base`. */
  function Plan(sizes: seq<nat>, start: nat, end: nat, i: nat, base: nat): seq<Fetch>
    requires start < end && i <= |sizes|
    decreases |sizes| - i
  {
    if i == |sizes| then []
    else
      var shardEnd := base + sizes[i];
      if shardEnd <= start then Plan(sizes, start, end, i + 1, shardEnd)
      else if base >= end then []
      else
        [Fetch(i, Max(start, base) - base, Min(end, shardEnd) - base)]
        + Plan(sizes, start, end, i + 1, shardEnd)
  }

  /** A fetch of the full shard asks for no range. */
  function RequestOf(shards: seq<Shard>, sizes: seq<nat>, f: Fetch): Request
    requires |sizes| == |shards| && f.shard < |shards| && f.lo < f.hi
  {
    var url := shards[f.shard].url;
    if f.lo == 0 && f.hi == sizes[f.shard] then Whole(url) else Range(url, f.lo, f.hi - 1)
  }

  ghost predicate InShards(sizes: seq<nat>, plan: seq<Fetch>) {
    forall f :: f in plan ==> f.shard < |sizes| && f.lo < f.hi <= sizes[f.shard]
  }

  function RequestsOf(shards: seq<Shard>, sizes: seq<nat>, plan: seq<Fetch>): seq<Request>
    requires |sizes| == |shards| && InShards(sizes, plan)
  {
    seq(|plan|, k requires 0 <= k < |plan| => RequestOf(shards, sizes, plan[k]))
  }

  // ---- The fast path covers the window exactly ----------------------------

  ghost predicate Positive(sizes: seq<nat>) {
    forall k :: 0 <= k < |sizes| ==> sizes[k] > 0
  }

  lemma OffsetStep(sizes: seq<nat>, i: nat)
    requires i < |sizes|
    ensures Offset(sizes, i + 1) == Offset(sizes, i) + sizes[i]
  {
    assert sizes[..i + 1][..i] == sizes[..i];
  }

  /** The fetches lie in their shards and follow one another without gap or overlap, `from` to `to`. */
  ghost predicate Covers(sizes: seq<nat>, plan: seq<Fetch>, from: nat, to: nat) {
    if plan == [] then from == to
    else
      && plan[0].shard < |sizes|
      && plan[0].lo < plan[0].hi <= sizes[plan[0].shard]
      && Offset(sizes, plan[0].shard) + plan[0].lo == from
      && Covers(sizes, plan[1..], Offset(sizes, plan[0].shard) + plan[0].hi, to)
  }

  function FetchedBytes(plan: seq<Fetch>): int {
    if plan == [] then 0 else plan[0].hi - plan[0].lo + FetchedBytes(plan[1..])
  }

  lemma {:induction false} PlanInShards(sizes: seq<nat>, start: nat, end: nat, i: nat, base: nat)
    requires start < end && i <= |sizes| && Positive(sizes)
    ensures InShards(sizes, Plan(sizes, start, end, i, base))
    decreases |sizes| - i
  {
    if i < |sizes| {
      PlanInShards(sizes, start, end, i + 1, base + sizes[i]);
    }
  }

  lemma CoversCons(sizes: seq<nat>, f: Fetch, rest: seq<Fetch>, from: nat, to: nat)
    requires f.shard < |sizes| && f.lo < f.hi <= sizes[f.shard]
    requires Offset(sizes, f.shard) + f.lo == from
    requires Covers(sizes, rest, Offset(sizes, f.shard) + f.hi, to)
    ensures Covers(sizes, [f] + rest, from, to)
  {
    assert ([f] + rest)[1..] == rest;
  }

  lemma ReachedStep(start: nat, end: nat, base: nat, n: nat)
    requires start < end && n > 0
    ensures base + n <= start ==> Reached(start, end, base) == Reached(start, end, base + n) == start
    ensures base >= end ==> Reached(start, end, base) == end
    ensures start < base + n && base < end ==>
      Reached(start, end, base) == Max(start, base) < Min(end, base + n) == Reached(start, end, base + n)
  {
  }

  lemma OverlapCovers(sizes: seq<nat>, start: nat, end: nat, i: nat, base: nat, to: nat)
    requires start < end && i < |sizes| && base == Offset(sizes, i) && start < base + sizes[i] && base < end && sizes[i] > 0
    requires Covers(sizes, Plan(sizes, start, end, i + 1, base + sizes[i]), Min(end, base + sizes[i]), to)
    ensures Covers(sizes, Plan(sizes, start, end, i, base), Max(start, base), to)
  {
    var f := Fetch(i, Max(start, base) - base, Min(end, base + sizes[i]) - base);
    CoversCons(sizes, f, Plan(sizes, start, end, i + 1, base + sizes[i]), Max(start, base), to);
  }

  lemma {:induction false} PlanCoversFrom(sizes: seq<nat>, start: nat, end: nat, i: nat, base: nat, total: nat)
    requires start < end && i <= |sizes| && Positive(sizes)
    requires base == Offset(sizes, i) && total == Total(sizes)
    ensures Covers(sizes, Plan(sizes, start, end, i, base), Reached(start, end, base), Reached(start, end, total))
    decreases |sizes| - i
  {
    if i == |sizes| {
      assert sizes[..i] == sizes;
    } else {
      var next := base + sizes[i];
      OffsetStep(sizes, i);
      ReachedStep(start, end, base, sizes[i]);
      if next <= start {
        PlanCoversFrom(sizes, start, end, i + 1, next, total);
      } else if base >= end {
        OffsetAtMostTotal(sizes, i);
      } else {
        PlanCoversFrom(sizes, start, end, i + 1, next, total);
        OverlapCovers(sizes, start, end, i, base, Reached(start, end, total));
      }
    }
  }

  lemma {:induction false} OffsetGrows(sizes: seq<nat>, i: nat, j: nat)
    requires i <= j <= |sizes|
    ensures Offset(sizes, i) <= Offset(sizes, j)
  {
    if i < j {
      OffsetGrows(sizes, i, j - 1);
      OffsetStep(sizes, j - 1);
    }
  }

  lemma OffsetAtMostTotal(sizes: seq<nat>, i: nat)
    requires i <= |sizes|
    ensures Offset(sizes, i) <= Total(sizes)
  {
    OffsetGrows(sizes, i, |sizes|);
    assert sizes[..|sizes|] == sizes;
  }

  lemma {:induction false} CoverBytes(sizes: seq<nat>, plan: seq<Fetch>, from: nat, to: nat)
    requires Covers(sizes, plan, from, to)
    ensures from <= to && FetchedBytes(plan) == to - from
  {
    if plan != [] {
      CoverBytes(sizes, plan[1..], Offset(sizes, plan[0].shard) + plan[0].hi, to);
    }
  }

  /**
   For positive sizes that reach the end of the window, the requests of the fast path are
   contiguous, disjoint and cover exactly the window, so exactly its bytes are fetched.
   */
  lemma PlanIsExact(sizes: seq<nat>, start: nat, end: nat)
    requires start < end <= Total(sizes) && Positive(sizes)
    ensures var plan := Plan(sizes, start, end, 0, 0);
            Covers(sizes, plan, start, end) && FetchedBytes(plan) == end - start
  {
    PlanCoversFrom(sizes, start, end, 0, 0, Total(sizes));
    CoverBytes(sizes, Plan(sizes, start, end, 0, 0), start, end);
  }

  // ---- Decrypting a body into the writer ----------------------------------

  /** `now` is `before` and some front part of `wanted`. */
  ghost predicate Wrote(before: seq<byte>, now: seq<byte>, wanted: seq<byte>) {
    before <= now <= before + wanted
  }

  lemma WroteMore(before: seq<byte>, mid: seq<byte>, now: seq<byte>, front: seq<byte>, more: seq<byte>, wanted: seq<byte>)
    requires mid == before + front && Wrote(mid, now, more) && front + more <= wanted
    ensures Wrote(before, now, wanted)
  {
    assert mid + more == before + (front + more);
  }

  method DrainChunk(chunk: seq<byte>, ctr: Ctr, out: Writer) returns (ok: bool)
    requires ctr.Valid()
    modifies ctr, out
    ensures ctr.Valid() && ctr.pos == old(ctr.pos) + |chunk|
    ensures Wrote(old(out.data), out.data, Crypt(ctr.Ks(), old(ctr.pos), chunk))
    ensures ok ==> out.data == old(out.data) + Crypt(ctr.Ks(), old(ctr.pos), chunk)
    ensures !ok ==> !out.reliable
  {
    var bytes := ApplyToCopy(ctr, chunk);
    ok := out.WriteAll(bytes);
  }

  /** Decrypts a response into the writer; what was written before an error is the front of the body. */
  method Drain(r: Response, ghost body: seq<byte>, ctr: Ctr, out: Writer) returns (failure: Option<DownloadError>)
    requires ctr.Valid() && r.Carries(body)
    modifies ctr, out
    ensures ctr.Valid() && Explained(failure, !r.complete, !out.reliable)
    ensures Wrote(old(out.data), out.data, Crypt(ctr.Ks(), old(ctr.pos), body))
    ensures failure.None? ==>
      && ctr.pos == old(ctr.pos) + |body|
      && out.data == old(out.data) + Crypt(ctr.Ks(), old(ctr.pos), body)
  {
    ghost var ks, p, before := ctr.Ks(), ctr.pos, out.data;
    NoChunkWritten(r.chunks, ks, p, before);
    for i := 0 to |r.chunks|
      invariant ctr.Valid() && ChunksWritten(r.chunks, i, ks, p, ctr.pos, before, out.data)
    {
      ghost var mid := out.data;
      var ok := DrainChunk(r.chunks[i], ctr, out);
      ChunkWritten(r.chunks, i, ks, p, body, before, mid, out.data);
      if !ok {
        return Some(WriteFailed);
      }
    }
    FrontWritten(r.chunks, ks, p, body, before);
    failure := if r.complete then None else Some(NetworkFailed);
  }

  /** The first `i` chunks were decrypted from keystream position `p` on and written. */
  ghost predicate ChunksWritten(chunks: seq<seq<byte>>, i: nat, ks: Keystream, p: nat, pos: nat, before: seq<byte>, now: seq<byte>)
    requires i <= |chunks|
  {
    && pos == p + |Concat(chunks[..i])|
    && now == before + Crypt(ks, p, Concat(chunks[..i]))
  }

  lemma NoChunkWritten(chunks: seq<seq<byte>>, ks: Keystream, p: nat, before: seq<byte>)
    ensures ChunksWritten(chunks, 0, ks, p, p, before, before)
  {
  }

  lemma ChunkWritten(chunks: seq<seq<byte>>, i: nat, ks: Keystream, p: nat, body: seq<byte>,
                     before: seq<byte>, mid: seq<byte>, now: seq<byte>)
    requires i < |chunks| && Concat(chunks) <= body
    requires mid == before + Crypt(ks, p, Concat(chunks[..i]))
    requires Wrote(mid, now, Crypt(ks, p + |Concat(chunks[..i])|, chunks[i]))
    ensures Wrote(before, now, Crypt(ks, p, body))
    ensures now == mid + Crypt(ks, p + |Concat(chunks[..i])|, chunks[i]) ==>
      ChunksWritten(chunks, i + 1, ks, p, p + |Concat(chunks[..i])| + |chunks[i]|, before, now)
  {
    var done := Concat(chunks[..i]);
    var (front, more) := (Crypt(ks, p, done), Crypt(ks, p + |done|, chunks[i]));
    ConcatTake(chunks, i);
    CryptPlus(ks, p, done, chunks[i]);
    FrontOfBody(chunks, i + 1, ks, p, body);
    WroteMore(before, mid, now, front, more, Crypt(ks, p, body));
    PlusAssociates(before, front, more);
  }

  lemma FrontWritten(chunks: seq<seq<byte>>, ks: Keystream, p: nat, body: seq<byte>, before: seq<byte>)
    requires Concat(chunks) <= body
    ensures Wrote(before, before + Crypt(ks, p, Concat(chunks[..|chunks|])), Crypt(ks, p, body))
    ensures Concat(chunks[..|chunks|]) == Concat(chunks)
  {
    assert chunks[..|chunks|] == chunks;
    PrefixCrypt(ks, p, Concat(chunks), body);
  }

  lemma FrontOfBody(chunks: seq<seq<byte>>, i: nat, ks: Keystream, p: nat, body: seq<byte>)
    requires i <= |chunks| && Concat(chunks) <= body
    ensures Crypt(ks, p, Concat(chunks[..i])) <= Crypt(ks, p, body)
  {
    ConcatPrefix(chunks, i);
    PrefixCrypt(ks, p, Concat(chunks[..i]), body);
  }

  lemma {:induction false} ConcatPrefix<T>(pieces: seq<seq<T>>, i: nat)
    requires i <= |pieces|
    ensures Concat(pieces[..i]) <= Concat(pieces)
  {
    assert pieces == pieces[..i] + pieces[i..];
    ConcatPlus(pieces[..i], pieces[i..]);
  }

  lemma PrefixCrypt(ks: Keystream, p: nat, a: seq<byte>, b: seq<byte>)
    requires a <= b
    ensures Crypt(ks, p, a) <= Crypt(ks, p, b)
  {
    assert b == a + b[|a|..];
    CryptPlus(ks, p, a, b[|a|..]);
  }

  // ---- The fast path ------------------------------------------------------

  ghost function PlanRequests(shards: seq<Shard>, sizes: seq<nat>, start: nat, end: nat, i: nat): seq<Request>
    requires |sizes| == |shards| && Positive(sizes) && start < end && i <= |shards|
  {
    PlanInShards(sizes, start, end, i, Offset(sizes, i));
    RequestsOf(shards, sizes, Plan(sizes, start, end, i, Offset(sizes, i)))
  }

  /** The request for the overlap of the window with a shard that starts at `base`. */
  function OverlapRequest(url: string, base: nat, ssize: nat, start: nat, end: nat): Request
    requires start < end && start < base + ssize && base < end && ssize > 0
  {
    var (lo, hi) := (Max(start, base) - base, Min(end, base + ssize) - base);
    if lo == 0 && hi == ssize then Whole(url) else Range(url, lo, hi - 1)
  }

  /** The request, if any, for the overlap of shard `i` with the window. */
  ghost function OverlapRequests(shards: seq<Shard>, sizes: seq<nat>, start: nat, end: nat, i: nat): seq<Request>
    requires |sizes| == |shards| && Positive(sizes) && start < end && i < |shards| && Offset(sizes, i) < end
  {
    if Offset(sizes, i) + sizes[i] <= start then []
    else [OverlapRequest(shards[i].url, Offset(sizes, i), sizes[i], start, end)]
  }

  lemma PlanRequestsStep(shards: seq<Shard>, sizes: seq<nat>, start: nat, end: nat, i: nat)
    requires |sizes| == |shards| && Positive(sizes) && start < end && i < |shards|
    ensures Offset(sizes, i) >= end ==> PlanRequests(shards, sizes, start, end, i) == []
    ensures Offset(sizes, i) < end ==>
      PlanRequests(shards, sizes, start, end, i)
        == OverlapRequests(shards, sizes, start, end, i) + PlanRequests(shards, sizes, start, end, i + 1)
  {
    OffsetStep(sizes, i);
    PlanInShards(sizes, start, end, i, Offset(sizes, i));
    PlanInShards(sizes, start, end, i + 1, Offset(sizes, i + 1));
  }

  /** The requests `done` and the requests still planned are together the plan. */
  ghost predicate OnPlan(shards: seq<Shard>, sizes: seq<nat>, start: nat, end: nat, i: nat, done: seq<Request>, plan: seq<Request>)
    requires |sizes| == |shards| && Positive(sizes) && start < end && i <= |shards|
  {
    done + PlanRequests(shards, sizes, start, end, i) == plan
  }

  lemma PlanDone(shards: seq<Shard>, sizes: seq<nat>, start: nat, end: nat, done: seq<Request>, plan: seq<Request>)
    requires |sizes| == |shards| && Positive(sizes) && start < end
    requires OnPlan(shards, sizes, start, end, |shards|, done, plan)
    ensures done == plan
  {
    assert PlanRequests(shards, sizes, start, end, |shards|) == [];
  }

  lemma StaysOnPlan(shards: seq<Shard>, sizes: seq<nat>, start: nat, end: nat, i: nat, done: seq<Request>, plan: seq<Request>)
    requires |sizes| == |shards| && Positive(sizes) && start < end && i < |shards|
    requires OnPlan(shards, sizes, start, end, i, done, plan)
    ensures Offset(sizes, i) >= end ==> done == plan
    ensures Offset(sizes, i) < end ==>
      && OnPlan(shards, sizes, start, end, i + 1, done + OverlapRequests(shards, sizes, start, end, i), plan)
      && Visited(sizes, end, i + 1)
  {
    PlanRequestsStep(shards, sizes, start, end, i);
    if Offset(sizes, i) < end {
      PlusAssociates(done, OverlapRequests(shards, sizes, start, end, i), PlanRequests(shards, sizes, start, end, i + 1));
    }
  }

  lemma {:induction false} OffsetIsLength(sizes: seq<nat>, pieces: seq<seq<byte>>, i: nat)
    requires |sizes| == |pieces| && i <= |pieces|
    requires forall k :: 0 <= k < i ==> sizes[k] == |pieces[k]|
    ensures Offset(sizes, i) == |Concat(pieces[..i])|
  {
    if i > 0 {
      OffsetIsLength(sizes, pieces, i - 1);
      OffsetStep(sizes, i - 1);
      ConcatTake(pieces, i - 1);
    }
  }

  lemma PieceAt(pieces: seq<seq<byte>>, i: nat)
    requires i < |pieces|
    ensures var base := |Concat(pieces[..i])|;
            base + |pieces[i]| <= |Concat(pieces)| && Concat(pieces)[base..base + |pieces[i]|] == pieces[i]
  {
    ConcatTake(pieces, i);
    ConcatPrefix(pieces, i + 1);
    var front, base := Concat(pieces[..i + 1]), |Concat(pieces[..i])|;
    assert front[base..] == pieces[i];
    SliceOfPrefix(front, Concat(pieces), base, |front|);
  }

  /** What the storage answers to a request; a range is cut at the end of the body. */
  function BodyOf(storage: Storage, r: Request): seq<byte> {
    match r
    case Whole(url) => storage(url)
    case Range(url, first, last) => if first <= last then Clip(storage(url), first, last + 1) else []
  }

  /** The answers to a list of requests, one behind the other. */
  function Delivered(storage: Storage, requests: seq<Request>): seq<byte> {
    Concat(seq(|requests|, i requires 0 <= i < |requests| => BodyOf(storage, requests[i])))
  }

  lemma DeliveredPlus(storage: Storage, a: seq<Request>, b: seq<Request>)
    ensures Delivered(storage, a + b) == Delivered(storage, a) + Delivered(storage, b)
  {
    var x := seq(|a|, i requires 0 <= i < |a| => BodyOf(storage, a[i]));
    var y := seq(|b|, i requires 0 <= i < |b| => BodyOf(storage, b[i]));
    ConcatPlus(x, y);
    assert seq(|a + b|, i requires 0 <= i < |a + b| => BodyOf(storage, (a + b)[i])) == x + y;
  }

  lemma DeliveredOne(storage: Storage, r: Request)
    ensures Delivered(storage, [r]) == BodyOf(storage, r)
  {
    var bodies := seq(|[r]|, i requires 0 <= i < |[r]| => BodyOf(storage, [r][i]));
    assert bodies == [] + [BodyOf(storage, r)];
    ConcatSnoc([], BodyOf(storage, r));
  }

  /** A range that starts behind its body is refused. */
  ghost predicate Refused(storage: Storage, requests: seq<Request>) {
    exists r :: r in requests && r.Range? && r.first >= |storage(r.url)|
  }

  /** The requests `done` were served in full, and their answers decrypted from `start` on and written. */
  ghost predicate Fetched(storage: Storage, done: seq<Request>, ks: Keystream, start: nat, pos: nat, before: seq<byte>, now: seq<byte>) {
    && !Refused(storage, done)
    && pos == start + |Delivered(storage, done)|
    && now == before + Crypt(ks, start, Delivered(storage, done))
  }

  lemma NothingFetched(storage: Storage, ks: Keystream, start: nat, before: seq<byte>)
    ensures Fetched(storage, [], ks, start, start, before, before)
  {
  }

  /** What one request brings: its answer, or a front part of it when the network or the writer fails. */
  ghost predicate Served(storage: Storage, r: Request, ks: Keystream, failure: Option<DownloadError>,
                         netReliable: bool, outReliable: bool, p: nat, p': nat, data: seq<byte>, data': seq<byte>)
  {
    var bytes := Crypt(ks, p, BodyOf(storage, r));
    && Explained(failure, !netReliable || Refused(storage, [r]), !outReliable)
    && Wrote(data, data', bytes)
    && (failure.None? ==> !Refused(storage, [r]) && p' == p + |bytes| && data' == data + bytes)
  }

  lemma CryptSnoc(storage: Storage, done: seq<Request>, r: Request, ks: Keystream, start: nat)
    ensures |Delivered(storage, done + [r])| == |Delivered(storage, done)| + |BodyOf(storage, r)|
    ensures Crypt(ks, start, Delivered(storage, done + [r]))
         == Crypt(ks, start, Delivered(storage, done)) + Crypt(ks, start + |Delivered(storage, done)|, BodyOf(storage, r))
  {
    DeliveredPlus(storage, done, [r]);
    DeliveredOne(storage, r);
    CryptPlus(ks, start, Delivered(storage, done), BodyOf(storage, r));
  }

  lemma RefusedPlus(storage: Storage, a: seq<Request>, b: seq<Request>)
    ensures Refused(storage, a + b) <==> Refused(storage, a) || Refused(storage, b)
  {
    assert forall r :: r in a + b <==> r in a || r in b;
  }

  lemma FetchedMore(storage: Storage, done: seq<Request>, r: Request, ks: Keystream, start: nat,
                    failure: Option<DownloadError>, netReliable: bool, outReliable: bool,
                    p: nat, p': nat, before: seq<byte>, mid: seq<byte>, now: seq<byte>)
    requires Fetched(storage, done, ks, start, p, before, mid)
    requires Served(storage, r, ks, failure, netReliable, outReliable, p, p', mid, now)
    ensures Wrote(before, now, Crypt(ks, start, Delivered(storage, done + [r])))
    ensures failure.None? ==> Fetched(storage, done + [r], ks, start, p', before, now)
  {
    CryptSnoc(storage, done, r, ks, start);
    RefusedPlus(storage, done, [r]);
    Appended(before, mid, now, Crypt(ks, start, Delivered(storage, done)), Crypt(ks, p, BodyOf(storage, r)));
  }

  lemma Appended(before: seq<byte>, mid: seq<byte>, now: seq<byte>, front: seq<byte>, more: seq<byte>)
    requires mid == before + front && Wrote(mid, now, more)
    ensures Wrote(before, now, front + more)
    ensures now == mid + more ==> now == before + (front + more)
  {
    PlusAssociates(before, front, more);
  }

  /** What was written for the first requests is a front part of what all of them bring. */
  lemma FrontOfRequests(storage: Storage, done: seq<Request>, rest: seq<Request>, ks: Keystream, start: nat,
                        before: seq<byte>, now: seq<byte>)
    requires Wrote(before, now, Crypt(ks, start, Delivered(storage, done)))
    ensures Wrote(before, now, Crypt(ks, start, Delivered(storage, done + rest)))
  {
    DeliveredPlus(storage, done, rest);
    CryptPlus(ks, start, Delivered(storage, done), Delivered(storage, rest));
    var front := Crypt(ks, start, Delivered(storage, done));
    assert before + front <= before + Crypt(ks, start, Delivered(storage, done + rest));
  }

  /** A whole or a range GET of a shard, drained into the writer. */
  method FetchInto(net: Network, url: string, whole: bool, first: nat, last: nat, ctr: Ctr, out: Writer)
    returns (failure: Option<DownloadError>)
    requires ctr.Valid() && first <= last
    modifies net, ctr, out
    ensures ctr.Valid()
    ensures var r := if whole then Whole(url) else Range(url, first, last);
            && net.log == old(net.log) + [r]
            && Served(net.storage, r, ctr.Ks(), failure, net.reliable, out.reliable,
                      old(ctr.pos), ctr.pos, old(out.data), out.data)
  {
    ghost var request := if whole then Whole(url) else Range(url, first, last);
    assert request in [request];
    var r: Option<Response>;
    if whole {
      r := net.GetShard(url);
    } else {
      r := net.GetRange(url, first, last);
    }
    if r.None? {
      return Some(NetworkFailed);
    }
    failure := Drain(r.value, BodyOf(net.storage, request), ctr, out);
  }

  /** The overlap of the shard at `base` with the window. */
  method FetchOverlap(net: Network, url: string, base: nat, ssize: nat, start: nat, end: nat, ctr: Ctr, out: Writer)
    returns (failure: Option<DownloadError>)
    requires ctr.Valid() && start < end && start < base + ssize && base < end && ssize > 0
    modifies net, ctr, out
    ensures ctr.Valid()
    ensures var r := OverlapRequest(url, base, ssize, start, end);
            && net.log == old(net.log) + [r]
            && Served(net.storage, r, ctr.Ks(), failure, net.reliable, out.reliable,
                      old(ctr.pos), ctr.pos, old(out.data), out.data)
  {
    var ovStart, ovEnd := Max(start, base), Min(end, base + ssize);
    var localStart: nat, localEndIncl: nat := ovStart - base, ovEnd - base - 1;
    var whole := localStart == 0 && ovEnd == base + ssize;
    assert (if whole then Whole(url) else Range(url, localStart, localEndIncl)) == OverlapRequest(url, base, ssize, start, end);
    failure := FetchInto(net, url, whole, localStart, localEndIncl, ctr, out);
  }

  /** One iteration of the fast path adds the requests for the overlap, if any, to those `done`. */
  method FastStep(net: Network, shards: seq<Shard>, ghost sizes: seq<nat>, i: nat, base: nat, ssize: nat,
                  start: nat, end: nat, ctr: Ctr, out: Writer, ghost before: seq<byte>, ghost done: seq<Request>)
    returns (failure: Option<DownloadError>)
    requires ctr.Valid() && start < end && i < |shards| == |sizes| && Positive(sizes)
    requires base == Offset(sizes, i) && ssize == sizes[i] && base < end
    requires Fetched(net.storage, done, ctr.Ks(), start, ctr.pos, before, out.data)
    modifies net, ctr, out
    ensures ctr.Valid()
    ensures var made := OverlapRequests(shards, sizes, start, end, i);
            && net.log == old(net.log) + made
            && Explained(failure, !net.reliable || Refused(net.storage, made), !out.reliable)
            && Wrote(before, out.data, Crypt(ctr.Ks(), start, Delivered(net.storage, done + made)))
            && (failure.None? ==> Fetched(net.storage, done + made, ctr.Ks(), start, ctr.pos, before, out.data))
  {
    ghost var made, mid, p := OverlapRequests(shards, sizes, start, end, i), out.data, ctr.pos;
    failure := None;
    if base + ssize > start {
      failure := FetchOverlap(net, shards[i].url, base, ssize, start, end, ctr, out);
      FetchedMore(net.storage, done, made[0], ctr.Ks(), start, failure, net.reliable, out.reliable,
                  p, ctr.pos, before, mid, out.data);
    } else {
      assert done + made == done;
    }
  }

  /** The loop of the fast path: the requests are the plan, and their answers are what is written. */
  method FastLoop(net: Network, shards: seq<Shard>, size: nat, start: nat, end: nat, ctr: Ctr, out: Writer,
                  ghost sizes: seq<nat>)
    returns (failure: Option<DownloadError>)
    requires ctr.Valid() && start < end && ctr.pos == start
    requires sizes == SizesOf(size, shards) && Positive(sizes) && EndsFit(sizes, end)
    modifies net, ctr, out
    ensures FastResult(net.storage, PlanRequests(shards, sizes, start, end, 0), ctr.Ks(), start, failure,
                       net.reliable, out.reliable, old(net.log), net.log, old(out.data), out.data)
  {
    ghost var before, log, plan := out.data, net.log, PlanRequests(shards, sizes, start, end, 0);
    ghost var done: seq<Request> := [];
    NothingFetched(net.storage, ctr.Ks(), start, before);
    var base, i := 0, 0;
    while i < |shards|
      invariant i <= |shards| && ctr.Valid() && base == Offset(sizes, i) && Visited(sizes, end, i)
      invariant net.log == log + done && OnPlan(shards, sizes, start, end, i, done, plan)
      invariant Fetched(net.storage, done, ctr.Ks(), start, ctr.pos, before, out.data)
    {
      var ssize := if |shards| == 1 then size else shards[i].size;
      assert base + ssize <= U64_MAX;
      StaysOnPlan(shards, sizes, start, end, i, done, plan);
      if base + ssize > start && base >= end {
        PlanFetched(net.storage, plan, ctr.Ks(), start, ctr.pos, net.reliable, out.reliable, log, before, out.data);
        return None;
      }
      ghost var made := OverlapRequests(shards, sizes, start, end, i);
      PlusAssociates(log, done, made);
      failure := FastStep(net, shards, sizes, i, base, ssize, start, end, ctr, out, before, done);
      if failure.Some? {
        PlanCutShort(net.storage, done, made, PlanRequests(shards, sizes, start, end, i + 1), ctr.Ks(), start, failure,
                     net.reliable, out.reliable, log, before, out.data);
        return;
      }
      done := done + made;
      OffsetStep(sizes, i);
      base, i := base + ssize, i + 1;
    }
    PlanDone(shards, sizes, start, end, done, plan);
    PlanFetched(net.storage, plan, ctr.Ks(), start, ctr.pos, net.reliable, out.reliable, log, before, out.data);
    failure := None;
  }

  lemma PlanFetched(storage: Storage, plan: seq<Request>, ks: Keystream, start: nat, pos: nat,
                    netReliable: bool, outReliable: bool, log: seq<Request>, before: seq<byte>, now: seq<byte>)
    requires Fetched(storage, plan, ks, start, pos, before, now)
    ensures FastResult(storage, plan, ks, start, None, netReliable, outReliable, log, log + plan, before, now)
  {
  }

  lemma PlanCutShort(storage: Storage, done: seq<Request>, made: seq<Request>, rest: seq<Request>, ks: Keystream, start: nat,
                     failure: Option<DownloadError>, netReliable: bool, outReliable: bool,
                     log: seq<Request>, before: seq<byte>, now: seq<byte>)
    requires failure.Some? && Explained(failure, !netReliable || Refused(storage, made), !outReliable)
    requires Wrote(before, now, Crypt(ks, start, Delivered(storage, done + made)))
    ensures FastResult(storage, done + made + rest, ks, start, failure, netReliable, outReliable,
                       log, log + (done + made), before, now)
  {
    FrontOfRequests(storage, done + made, rest, ks, start, before, now);
    assert log + (done + made) <= log + (done + made + rest);
    RefusedPlus(storage, done, made);
    RefusedPlus(storage, done + made, rest);
  }

  /**
   What the fast path does with its planned requests, whether or not the sizes are true: their
   answers are decrypted as one stream from `start` on. It fails only where the network or the
   writer may, or where the storage refuses a range, and then it does fail.
   */
  ghost predicate FastResult(storage: Storage, plan: seq<Request>, ks: Keystream, start: nat, failure: Option<DownloadError>,
                             netReliable: bool, outReliable: bool,
                             log: seq<Request>, log': seq<Request>, data: seq<byte>, data': seq<byte>)
  {
    var bytes := Crypt(ks, start, Delivered(storage, plan));
    && log <= log' <= log + plan
    && Explained(failure, !netReliable || Refused(storage, plan), !outReliable)
    && Wrote(data, data', bytes)
    && (failure.None? ==> log' == log + plan && data' == data + bytes && !Refused(storage, plan))
  }

  /** Seeks to the window and fetches no more than the shards' overlaps with it. */
  method FastPath(net: Network, shards: seq<Shard>, size: nat, start: nat, end: nat, ctr: Ctr, out: Writer)
    returns (failure: Option<DownloadError>)
    requires ctr.Valid() && start < end <= size <= U64_MAX
    requires SizesKnown(shards) && EndsFit(SizesOf(size, shards), end)
    modifies net, ctr, out
    ensures Positive(SizesOf(size, shards))
    ensures FastResult(net.storage, PlanRequests(shards, SizesOf(size, shards), start, end, 0), ctr.Ks(), start, failure,
                       net.reliable, out.reliable, old(net.log), net.log, old(out.data), out.data)
  {
    ctr.Seek(start);
    failure := FastLoop(net, shards, size, start, end, ctr, out, SizesOf(size, shards));
  }

  // ---- With true sizes the fast path writes the window --------------------

  lemma TrueOffset(storage: Storage, shards: seq<Shard>, sizes: seq<nat>, end: nat, i: nat)
    requires |sizes| == |shards| && i <= |sizes| && TrueBelow(storage, shards, sizes, end) && Visited(sizes, end, i)
    ensures Offset(sizes, i) == |Concat(PiecesOf(storage, shards)[..i])|
  {
    forall k | 0 <= k < i
      ensures sizes[k] == |PiecesOf(storage, shards)[k]|
    {
      OffsetGrows(sizes, k, i - 1);
    }
    OffsetIsLength(sizes, PiecesOf(storage, shards), i);
  }

  lemma ClipInside<T>(s: seq<T>, lo: nat, hi: nat)
    requires lo <= hi <= |s|
    ensures Clip(s, lo, hi) == s[lo..hi]
    ensures s[0..|s|] == s
  {
  }

  lemma OverlapBody(storage: Storage, url: string, base: nat, ssize: nat, start: nat, end: nat)
    requires start < end && start < base + ssize && base < end && ssize > 0 && ssize == |storage(url)|
    ensures var r := OverlapRequest(url, base, ssize, start, end);
            && BodyOf(storage, r) == storage(url)[Max(start, base) - base..Min(end, base + ssize) - base]
            && !(r.Range? && r.first >= |storage(r.url)|)
  {
    ClipInside(storage(url), Max(start, base) - base, Min(end, base + ssize) - base);
  }

  lemma RefusedOne(storage: Storage, r: Request)
    ensures Refused(storage, [r]) <==> r.Range? && r.first >= |storage(r.url)|
  {
    assert r in [r];
  }

  /** The answer to an overlap request, where the size is true. */
  lemma OverlapDelivers(storage: Storage, url: string, base: nat, ssize: nat, start: nat, end: nat)
    requires start < end && start < base + ssize && base < end && ssize > 0 && ssize == |storage(url)|
    ensures var r := OverlapRequest(url, base, ssize, start, end);
            && Delivered(storage, [r]) == storage(url)[Max(start, base) - base..Min(end, base + ssize) - base]
            && !Refused(storage, [r])
  {
    var r := OverlapRequest(url, base, ssize, start, end);
    OverlapBody(storage, url, base, ssize, start, end);
    DeliveredOne(storage, r);
    RefusedOne(storage, r);
  }

  lemma PieceSlice(pieces: seq<seq<byte>>, i: nat, lo: nat, hi: nat)
    requires i < |pieces| && lo <= hi <= |pieces[i]|
    ensures var base := |Concat(pieces[..i])|;
            base + |pieces[i]| <= |Concat(pieces)| && pieces[i][lo..hi] == Concat(pieces)[base + lo..base + hi]
  {
    PieceAt(pieces, i);
    SliceOfSlice(Concat(pieces), |Concat(pieces[..i])|, |pieces[i]|, lo, hi);
  }

  /** The body of shard `i` is the part of `content` that its size says. */
  ghost predicate Placed(storage: Storage, shards: seq<Shard>, sizes: seq<nat>, i: nat, content: seq<byte>)
    requires |sizes| == |shards| && i < |sizes|
  {
    && Offset(sizes, i) + sizes[i] <= |content|
    && content[Offset(sizes, i)..Offset(sizes, i) + sizes[i]] == storage(shards[i].url)
  }

  lemma ShardPlaced(storage: Storage, shards: seq<Shard>, sizes: seq<nat>, end: nat, i: nat)
    requires |sizes| == |shards| && i < |sizes| && TrueBelow(storage, shards, sizes, end)
    requires Visited(sizes, end, i) && Offset(sizes, i) < end
    ensures Placed(storage, shards, sizes, i, Concat(PiecesOf(storage, shards)))
  {
    TrueOffset(storage, shards, sizes, end, i);
    PieceAt(PiecesOf(storage, shards), i);
  }

  lemma PartOfPlaced<T>(content: seq<T>, base: nat, body: seq<T>, from: nat, to: nat)
    requires base + |body| <= |content| && content[base..base + |body|] == body
    requires base <= from <= to <= base + |body|
    ensures body[from - base..to - base] == content[from..to]
  {
    SliceOfSlice(content, base, |body|, from - base, to - base);
  }

  /** The overlap fetched from such a shard is that part of the content. */
  lemma OverlapIsSlice(storage: Storage, shards: seq<Shard>, sizes: seq<nat>, start: nat, end: nat, i: nat, content: seq<byte>)
    requires |sizes| == |shards| && i < |sizes| && Positive(sizes) && start < end
    requires Placed(storage, shards, sizes, i, content)
    requires Offset(sizes, i) < end && start < Offset(sizes, i) + sizes[i]
    ensures Delivered(storage, OverlapRequests(shards, sizes, start, end, i))
         == content[Max(start, Offset(sizes, i))..Min(end, Offset(sizes, i) + sizes[i])]
    ensures !Refused(storage, OverlapRequests(shards, sizes, start, end, i))
  {
    var base := Offset(sizes, i);
    OverlapDelivers(storage, shards[i].url, base, sizes[i], start, end);
    PartOfPlaced(content, base, storage(shards[i].url), Max(start, base), Min(end, base + sizes[i]));
  }

  /** Behind the last shard nothing is left of the window. */
  lemma DeliveredNone(storage: Storage, shards: seq<Shard>, sizes: seq<nat>, start: nat, end: nat)
    requires |sizes| == |shards| && start < end
    requires TrueBelow(storage, shards, sizes, end) && Visited(sizes, end, |sizes|)
    ensures Clip(Concat(PiecesOf(storage, shards)), Reached(start, end, Offset(sizes, |sizes|)), end) == []
  {
    TrueOffset(storage, shards, sizes, end, |sizes|);
    assert PiecesOf(storage, shards)[..|sizes|] == PiecesOf(storage, shards);
  }

  /** The overlap of shard `i` is what it adds to the window of `content`. */
  ghost predicate Adds(storage: Storage, shards: seq<Shard>, sizes: seq<nat>, start: nat, end: nat, i: nat, content: seq<byte>)
    requires |sizes| == |shards| && i < |sizes| && Positive(sizes) && start < end && Offset(sizes, i) < end
  {
    var made := OverlapRequests(shards, sizes, start, end, i);
    && !Refused(storage, made)
    && Delivered(storage, made) + Clip(content, Reached(start, end, Offset(sizes, i) + sizes[i]), end)
       == Clip(content, Reached(start, end, Offset(sizes, i)), end)
  }

  lemma NothingDelivered(storage: Storage)
    ensures Delivered(storage, []) == [] && !Refused(storage, [])
  {
  }

  lemma OverlapAdds(storage: Storage, shards: seq<Shard>, sizes: seq<nat>, start: nat, end: nat, i: nat, content: seq<byte>)
    requires |sizes| == |shards| && i < |sizes| && Positive(sizes) && start < end && Offset(sizes, i) < end
    requires Placed(storage, shards, sizes, i, content)
    ensures Adds(storage, shards, sizes, start, end, i, content)
  {
    var base := Offset(sizes, i);
    var next := base + sizes[i];
    ReachedStep(start, end, base, sizes[i]);
    if start < next {
      OverlapIsSlice(storage, shards, sizes, start, end, i, content);
      ClipJoins(content, Max(start, base), Min(end, next), end);
    } else {
      NothingDelivered(storage);
    }
  }

  lemma PlanAdds(storage: Storage, shards: seq<Shard>, sizes: seq<nat>, start: nat, end: nat, i: nat, content: seq<byte>)
    requires |sizes| == |shards| && i < |sizes| && Positive(sizes) && start < end && Offset(sizes, i) < end
    requires Adds(storage, shards, sizes, start, end, i, content)
    requires var rest := PlanRequests(shards, sizes, start, end, i + 1);
             && !Refused(storage, rest)
             && Delivered(storage, rest) == Clip(content, Reached(start, end, Offset(sizes, i) + sizes[i]), end)
    ensures Delivered(storage, PlanRequests(shards, sizes, start, end, i))
         == Clip(content, Reached(start, end, Offset(sizes, i)), end)
    ensures !Refused(storage, PlanRequests(shards, sizes, start, end, i))
  {
    var made, rest := OverlapRequests(shards, sizes, start, end, i), PlanRequests(shards, sizes, start, end, i + 1);
    PlanRequestsStep(shards, sizes, start, end, i);
    DeliveredPlus(storage, made, rest);
    RefusedPlus(storage, made, rest);
  }

  lemma PlanEnds(storage: Storage, shards: seq<Shard>, sizes: seq<nat>, start: nat, end: nat, i: nat, content: seq<byte>)
    requires |sizes| == |shards| && i <= |sizes| && Positive(sizes) && start < end
    requires i == |sizes| || Offset(sizes, i) >= end
    requires i == |sizes| ==> Clip(content, Reached(start, end, Offset(sizes, i)), end) == []
    ensures Delivered(storage, PlanRequests(shards, sizes, start, end, i))
         == Clip(content, Reached(start, end, Offset(sizes, i)), end)
    ensures !Refused(storage, PlanRequests(shards, sizes, start, end, i))
  {
    if i < |sizes| {
      PlanRequestsStep(shards, sizes, start, end, i);
    }
    assert PlanRequests(shards, sizes, start, end, i) == [];
  }

  /** From any shard on, the answers are what is left of the window. */
  lemma {:induction false} DeliveredFrom(storage: Storage, shards: seq<Shard>, sizes: seq<nat>, start: nat, end: nat, i: nat,
                                         content: seq<byte>)
    requires |sizes| == |shards| && i <= |sizes| && Positive(sizes) && start < end && Visited(sizes, end, i)
    requires forall k {:trigger Visited(sizes, end, k)} :: 0 <= k < |sizes| && Visited(sizes, end, k) && Offset(sizes, k) < end ==>
      Adds(storage, shards, sizes, start, end, k, content)
    requires Visited(sizes, end, |sizes|) ==> Clip(content, Reached(start, end, Offset(sizes, |sizes|)), end) == []
    ensures Delivered(storage, PlanRequests(shards, sizes, start, end, i))
         == Clip(content, Reached(start, end, Offset(sizes, i)), end)
    ensures !Refused(storage, PlanRequests(shards, sizes, start, end, i))
    decreases |sizes| - i
  {
    if i < |sizes| && Offset(sizes, i) < end {
      OffsetStep(sizes, i);
      DeliveredFrom(storage, shards, sizes, start, end, i + 1, content);
      PlanAdds(storage, shards, sizes, start, end, i, content);
    } else {
      PlanEnds(storage, shards, sizes, start, end, i, content);
    }
  }

  lemma ClipJoins<T>(s: seq<T>, a: nat, b: nat, c: nat)
    requires a <= b <= c && b <= |s|
    ensures s[a..b] + Clip(s, b, c) == Clip(s, a, c)
  {
  }

  lemma ClipCrypt(ks: Keystream, content: seq<byte>, start: nat, end: nat)
    requires start <= end
    ensures Crypt(ks, start, Clip(content, start, end)) == Clip(Crypt(ks, 0, content), start, end)
  {
    if start < |content| {
      SeekIsSlice(ks, 0, content, start, Min(end, |content|));
    }
  }

  lemma WindowDelivered(storage: Storage, shards: seq<Shard>, sizes: seq<nat>, start: nat, end: nat)
    requires |sizes| == |shards| && Positive(sizes) && start < end && TrueBelow(storage, shards, sizes, end)
    ensures Delivered(storage, PlanRequests(shards, sizes, start, end, 0)) == Clip(Concat(PiecesOf(storage, shards)), start, end)
    ensures !Refused(storage, PlanRequests(shards, sizes, start, end, 0))
  {
    var content := Concat(PiecesOf(storage, shards));
    forall k | 0 <= k < |sizes| && Visited(sizes, end, k) && Offset(sizes, k) < end
      ensures Adds(storage, shards, sizes, start, end, k, content)
    {
      ShardPlaced(storage, shards, sizes, end, k);
      OverlapAdds(storage, shards, sizes, start, end, k, content);
    }
    if Visited(sizes, end, |sizes|) {
      DeliveredNone(storage, shards, sizes, start, end);
    }
    DeliveredFrom(storage, shards, sizes, start, end, 0, content);
  }

  /** With true sizes below `end`, the fast path writes the window of the plaintext, and no request is refused. */
  lemma FastIsWindow(ks: Keystream, storage: Storage, shards: seq<Shard>, sizes: seq<nat>, start: nat, end: nat)
    requires |sizes| == |shards| && Positive(sizes) && start < end && TrueBelow(storage, shards, sizes, end)
    ensures Crypt(ks, start, Delivered(storage, PlanRequests(shards, sizes, start, end, 0)))
         == Clip(Crypt(ks, 0, Concat(PiecesOf(storage, shards))), start, end)
    ensures !Refused(storage, PlanRequests(shards, sizes, start, end, 0))
  {
    WindowDelivered(storage, shards, sizes, start, end);
    ClipCrypt(ks, Concat(PiecesOf(storage, shards)), start, end);
  }

  // ---- The slow path ------------------------------------------------------

  /** The part of the window that lies in the first `q` bytes. */
  function Seen(plain: seq<byte>, q: nat, start: nat, end: nat): seq<byte>
    requires start <= end && q <= |plain|
  {
    plain[Min(start, q)..Min(end, q)]
  }

  /** The state of the slow loop when the first `q` bytes of the file have been decrypted. */
  ghost predicate SkippedTo(q: nat, data: seq<byte>, toSkip: nat, remaining: nat,
                            before: seq<byte>, plain: seq<byte>, start: nat, end: nat)
    requires start <= end
  {
    && q <= |plain|
    && data == before + Seen(plain, q, start, end)
    && toSkip == start - Min(start, q)
    && remaining == end - start - (Min(end, q) - Min(start, q))
  }

  lemma FrontOfWindow(plain: seq<byte>, q: nat, start: nat, end: nat)
    requires start <= end && q <= |plain|
    ensures Seen(plain, q, start, end) <= Clip(plain, start, end)
    ensures q >= end || q == |plain| ==> Seen(plain, q, start, end) == Clip(plain, start, end)
  {
  }

  lemma ClipStep(plain: seq<byte>, q: nat, n: nat, start: nat, end: nat, skip: nat, left: nat)
    requires start <= end && q + n <= |plain|
    requires skip == start - Min(start, q)
    requires left == end - start - (Min(end, q) - Min(start, q))
    ensures Seen(plain, q, start, end) + Clip(plain[q..q + n], skip, skip + left) == Seen(plain, q + n, start, end)
  {
    ClipOfSlice(plain, q, n, skip, skip + left);
    Glue(plain, Min(start, q), Min(end, q), q + Min(skip, n), q + Min(skip + left, n), Min(start, q + n), Min(end, q + n));
  }

  /** Two slices that meet, or one of which is empty. */
  lemma Glue<T>(s: seq<T>, a: nat, b: nat, lo: nat, hi: nat, from: nat, to: nat)
    requires a <= b <= |s| && lo <= hi <= |s| && from <= to <= |s|
    requires (a == b && lo == from && hi == to) || (lo == hi && a == from && b == to) || (b == lo && a == from && hi == to)
    ensures s[a..b] + s[lo..hi] == s[from..to]
  {
  }

  lemma ClipOfSlice(plain: seq<byte>, q: nat, n: nat, a: nat, b: nat)
    requires a <= b && q + n <= |plain|
    ensures Clip(plain[q..q + n], a, b) == plain[q + Min(a, n)..q + Min(b, n)]
  {
    SliceOfSlice(plain, q, n, Min(a, n), Min(b, n));
  }

  /** One chunk, the front of it skipped and no more than what remains kept. */
  lemma SkipStep(plain: seq<byte>, q: nat, n: nat, data: seq<byte>, toSkip: nat, remaining: nat,
                 before: seq<byte>, start: nat, end: nat, slice: seq<byte>)
    requires start <= end && q + n <= |plain|
    requires SkippedTo(q, data, toSkip, remaining, before, plain, start, end)
    requires slice == Clip(plain[q..q + n], toSkip, toSkip + remaining)
    ensures SkippedTo(q + n, data + slice, toSkip - Min(toSkip, n), remaining - |slice|, before, plain, start, end)
    ensures data + slice <= before + Clip(plain, start, end)
  {
    ClipStep(plain, q, n, start, end, toSkip, remaining);
    SkipLengths(q, n, start, end, toSkip, remaining);
    FrontOfWindow(plain, q + n, start, end);
    Extended(before, data, Seen(plain, q, start, end), slice, Seen(plain, q + n, start, end), Clip(plain, start, end));
  }

  lemma SkipLengths(q: nat, n: nat, start: nat, end: nat, toSkip: nat, remaining: nat)
    requires start <= end && toSkip == start - Min(start, q) && remaining == end - start - (Min(end, q) - Min(start, q))
    ensures var kept := Min(toSkip + remaining, n) - Min(toSkip, n);
            && toSkip - Min(toSkip, n) == start - Min(start, q + n)
            && 0 <= kept <= remaining
            && remaining - kept == end - start - (Min(end, q + n) - Min(start, q + n))
  {
  }

  lemma Extended<T>(before: seq<T>, data: seq<T>, done: seq<T>, slice: seq<T>, now: seq<T>, whole: seq<T>)
    requires data == before + done && done + slice == now && now <= whole
    ensures data + slice == before + now <= before + whole
  {
    PlusAssociates(before, done, slice);
  }

  /** Drops what is still to skip from the front, and what is not wanted any more from the back. */
  method CutChunk(bytes: seq<byte>, skip: nat, left: nat) returns (slice: seq<byte>, toSkip: nat, remaining: nat)
    ensures slice == Clip(bytes, skip, skip + left)
    ensures toSkip == skip - Min(skip, |bytes|) && remaining == left - |slice|
  {
    slice, toSkip, remaining := bytes, skip, left;
    if toSkip > 0 {
      var drop := Min(toSkip, |slice|);
      slice := slice[drop..];
      toSkip := toSkip - drop;
    }
    var take := Min(remaining, |slice|);
    slice := slice[..take];
    remaining := remaining - take;
  }

  lemma SliceWritten(before: seq<byte>, data: seq<byte>, now: seq<byte>, slice: seq<byte>, window: seq<byte>)
    requires before <= data <= now <= data + slice <= before + window
    ensures Wrote(before, now, window)
  {
  }

  /** Decrypts the chunk that `content` holds at the position of the keystream. */
  method DecryptNext(chunk: seq<byte>, ctr: Ctr, ghost content: seq<byte>) returns (bytes: seq<byte>)
    requires ctr.Valid()
    requires ctr.pos + |chunk| <= |content| && chunk == content[ctr.pos..ctr.pos + |chunk|]
    modifies ctr
    ensures ctr.Valid() && ctr.pos == old(ctr.pos) + |chunk|
    ensures bytes == Crypt(ctr.Ks(), 0, content)[old(ctr.pos)..ctr.pos]
  {
    SeekIsSlice(ctr.Ks(), 0, content, ctr.pos, ctr.pos + |chunk|);
    bytes := ApplyToCopy(ctr, chunk);
  }

  /** Writes what lies in the window of the plaintext bytes from `q` on. */
  method TakeBytes(bytes: seq<byte>, skip: nat, left: nat, out: Writer,
                   ghost plain: seq<byte>, ghost q: nat, ghost before: seq<byte>, ghost start: nat, ghost end: nat)
    returns (ok: bool, toSkip: nat, remaining: nat)
    requires start <= end && q + |bytes| <= |plain| && bytes == plain[q..q + |bytes|]
    requires SkippedTo(q, out.data, skip, left, before, plain, start, end)
    modifies out
    ensures Wrote(before, out.data, Clip(plain, start, end))
    ensures !ok ==> !out.reliable
    ensures ok ==> SkippedTo(q + |bytes|, out.data, toSkip, remaining, before, plain, start, end)
  {
    ghost var data := out.data;
    var slice: seq<byte>;
    slice, toSkip, remaining := CutChunk(bytes, skip, left);
    SkipStep(plain, q, |bytes|, data, skip, left, before, start, end, slice);
    ok := true;
    if slice != [] {
      ok := out.WriteAll(slice);
    }
    SliceWritten(before, data, out.data, slice, Clip(plain, start, end));
  }

  /** Decrypts one chunk and writes what lies in the window. */
  method SkipAndTake(chunk: seq<byte>, skip: nat, left: nat, ctr: Ctr, out: Writer,
                     ghost content: seq<byte>, ghost before: seq<byte>, ghost start: nat, ghost end: nat)
    returns (ok: bool, toSkip: nat, remaining: nat)
    requires ctr.Valid() && start <= end
    requires ctr.pos + |chunk| <= |content| && chunk == content[ctr.pos..ctr.pos + |chunk|]
    requires SkippedTo(ctr.pos, out.data, skip, left, before, Crypt(ctr.Ks(), 0, content), start, end)
    modifies ctr, out
    ensures ctr.Valid() && ctr.pos == old(ctr.pos) + |chunk|
    ensures Wrote(before, out.data, Clip(Crypt(ctr.Ks(), 0, content), start, end))
    ensures !ok ==> !out.reliable
    ensures ok ==> SkippedTo(ctr.pos, out.data, toSkip, remaining, before, Crypt(ctr.Ks(), 0, content), start, end)
  {
    ghost var q := ctr.pos;
    var bytes := DecryptNext(chunk, ctr, content);
    ok, toSkip, remaining := TakeBytes(bytes, skip, left, out, Crypt(ctr.Ks(), 0, content), q, before, start, end);
  }

  lemma ChunkOfBody(chunks: seq<seq<byte>>, i: nat, body: seq<byte>, a: nat)
    requires i < |chunks| && Concat(chunks) <= body && a == |Concat(chunks[..i])|
    ensures a + |chunks[i]| <= |body| && chunks[i] == body[a..a + |chunks[i]|]
  {
    PieceAt(chunks, i);
    SliceOfPrefix(Concat(chunks), body, a, a + |chunks[i]|);
  }

  lemma ChunkOfContent(pieces: seq<seq<byte>>, k: nat, chunks: seq<seq<byte>>, i: nat, base: nat, a: nat)
    requires k < |pieces| && i < |chunks| && Concat(chunks) <= pieces[k]
    requires base == |Concat(pieces[..k])| && a == |Concat(chunks[..i])|
    ensures base + a + |chunks[i]| <= |Concat(pieces)| && chunks[i] == Concat(pieces)[base + a..base + a + |chunks[i]|]
  {
    ChunkOfBody(chunks, i, pieces[k], a);
    PieceSlice(pieces, k, a, a + |chunks[i]|);
  }

  /** Nothing remains exactly when the end of the window has been decrypted. */
  lemma DoneBehind(q: nat, data: seq<byte>, toSkip: nat, remaining: nat,
                   before: seq<byte>, plain: seq<byte>, start: nat, end: nat)
    requires start < end && SkippedTo(q, data, toSkip, remaining, before, plain, start, end)
    ensures remaining == 0 <==> end <= q
  {
  }

  lemma WithinShard(pieces: seq<seq<byte>>, k: nat, chunks: seq<seq<byte>>, i: nat)
    requires k < |pieces| && i <= |chunks| && Concat(chunks) <= pieces[k]
    ensures |Concat(pieces[..k])| + |Concat(chunks[..i])| <= |Concat(pieces[..k + 1])|
  {
    ConcatPrefix(chunks, i);
    ConcatTake(pieces, k);
  }

  /** The slow path is done with the first `k` shards: they reach the end, and no fewer do. */
  ghost predicate StopsAt(storage: Storage, shards: seq<Shard>, end: nat, k: nat) {
    && k <= |shards|
    && (k == |shards| || end <= |Concat(PiecesOf(storage, shards)[..k])|)
    && (k > 0 ==> |Concat(PiecesOf(storage, shards)[..k - 1])| < end)
  }

  /** One shard of the slow path, left early once nothing remains to be written. */
  method SkipShard(r: Response, ghost pieces: seq<seq<byte>>, ghost k: nat, skip: nat, left: nat, ctr: Ctr, out: Writer,
                   ghost before: seq<byte>, ghost start: nat, ghost end: nat)
    returns (failure: Option<DownloadError>, toSkip: nat, remaining: nat)
    requires ctr.Valid() && start <= end && k < |pieces| && r.Carries(pieces[k]) && left > 0
    requires ctr.pos == |Concat(pieces[..k])|
    requires SkippedTo(ctr.pos, out.data, skip, left, before, Crypt(ctr.Ks(), 0, Concat(pieces)), start, end)
    modifies ctr, out
    ensures ctr.Valid() && Explained(failure, !r.complete, !out.reliable)
    ensures Wrote(before, out.data, Clip(Crypt(ctr.Ks(), 0, Concat(pieces)), start, end))
    ensures failure.None? ==>
      && SkippedTo(ctr.pos, out.data, toSkip, remaining, before, Crypt(ctr.Ks(), 0, Concat(pieces)), start, end)
      && (remaining > 0 ==> ctr.pos == |Concat(pieces[..k + 1])|)
      && (remaining == 0 ==> end <= |Concat(pieces[..k + 1])|)
  {
    ghost var base, plain := ctr.pos, Crypt(ctr.Ks(), 0, Concat(pieces));
    toSkip, remaining := skip, left;
    for i := 0 to |r.chunks|
      invariant ctr.Valid() && ctr.pos == base + |Concat(r.chunks[..i])| && remaining > 0
      invariant SkippedTo(ctr.pos, out.data, toSkip, remaining, before, plain, start, end)
    {
      ChunkOfContent(pieces, k, r.chunks, i, base, |Concat(r.chunks[..i])|);
      ConcatTake(r.chunks, i);
      var ok;
      ok, toSkip, remaining := SkipAndTake(r.chunks[i], toSkip, remaining, ctr, out, Concat(pieces), before, start, end);
      if !ok {
        return Some(WriteFailed), toSkip, remaining;
      }
      if remaining == 0 {
        DoneBehind(ctr.pos, out.data, toSkip, remaining, before, plain, start, end);
        WithinShard(pieces, k, r.chunks, i + 1);
        return None, toSkip, remaining;
      }
    }
    FrontOfWindow(plain, ctr.pos, start, end);
    ConcatTake(pieces, k);
    assert r.chunks[..|r.chunks|] == r.chunks;
    failure := if r.complete then None else Some(NetworkFailed);
  }

  function WholeRequests(shards: seq<Shard>): seq<Request> {
    seq(|shards|, i requires 0 <= i < |shards| => Whole(shards[i].url))
  }

  lemma WholeNext(shards: seq<Shard>, k: nat, log: seq<Request>)
    requires k < |shards|
    ensures log + WholeRequests(shards[..k]) + [Whole(shards[k].url)] == log + WholeRequests(shards[..k + 1])
    ensures log + WholeRequests(shards[..k + 1]) <= log + WholeRequests(shards)
  {
    assert WholeRequests(shards[..k + 1]) == WholeRequests(shards[..k]) + [Whole(shards[k].url)];
  }

  /** Decrypts from byte 0 on, skips up to the window and stops behind it. */
  method SlowPath(net: Network, shards: seq<Shard>, start: nat, end: nat, ctr: Ctr, out: Writer)
    returns (failure: Option<DownloadError>)
    requires ctr.Valid() && ctr.pos == 0 && start < end
    modifies net, ctr, out
    ensures Explained(failure, !net.reliable, !out.reliable)
    ensures old(net.log) <= net.log <= old(net.log) + WholeRequests(shards)
    ensures failure.None? ==>
      exists k: nat :: StopsAt(net.storage, shards, end, k) && net.log == old(net.log) + WholeRequests(shards[..k])
    ensures var window := Clip(Crypt(ctr.Ks(), 0, Concat(PiecesOf(net.storage, shards))), start, end);
            && Wrote(old(out.data), out.data, window)
            && (failure.None? ==> out.data == old(out.data) + window)
  {
    ghost var pieces := PiecesOf(net.storage, shards);
    ghost var plain, before, log := Crypt(ctr.Ks(), 0, Concat(pieces)), out.data, net.log;
    var toSkip, remaining := start, end - start;
    for k := 0 to |shards|
      invariant ctr.Valid() && ctr.pos == |Concat(pieces[..k])| && remaining > 0
      invariant net.log == log + WholeRequests(shards[..k])
      invariant k > 0 ==> |Concat(pieces[..k - 1])| < end
      invariant SkippedTo(ctr.pos, out.data, toSkip, remaining, before, plain, start, end)
    {
      FrontOfWindow(plain, ctr.pos, start, end);
      DoneBehind(ctr.pos, out.data, toSkip, remaining, before, plain, start, end);
      var r := net.GetShard(shards[k].url);
      WholeNext(shards, k, log);
      if r.None? {
        return Some(NetworkFailed);
      }
      failure, toSkip, remaining := SkipShard(r.value, pieces, k, toSkip, remaining, ctr, out, before, start, end);
      if failure.Some? {
        return;
      }
      if remaining == 0 {
        FrontOfWindow(plain, ctr.pos, start, end);
        assert StopsAt(net.storage, shards, end, k + 1);
        return;
      }
    }
    assert pieces[..|shards|] == pieces && shards[..|shards|] == shards;
    FrontOfWindow(plain, ctr.pos, start, end);
    assert StopsAt(net.storage, shards, end, |shards|);
    failure := None;
  }

  // ---- The whole download -------------------------------------------------

  /** The requests for a window: its exact cover when the sizes are known, else every shard. */
  ghost function Requests(shards: seq<Shard>, size: nat, start: nat, end: nat): seq<Request>
    requires start <= end <= size
  {
    if start == end then []
    else if SizesKnown(shards) then PlanRequests(shards, SizesOf(size, shards), start, end, 0)
    else WholeRequests(shards)
  }

  /** The key and iv of a file, or why there is none. */
  function OpenFile(lib: Primitives, mnemonic: seq<byte>, bucket: seq<byte>, links: Links)
    : Result<(Key, Iv), DownloadError>
  {
    if links.version.GetOr(1) == 1 then Err(UnsupportedVersion)
    else
      match Hex.Decode(links.index)
      case None => Err(InvalidIndex)
      case Some(index) =>
        if |index| < 16 then Err(IndexTooShort)
        else
          match GenerateFileKey(lib, mnemonic, bucket, index)
          case Err(e) => Err(KeyFailed(e))
          case Ok(key) => Ok((key, index[..16]))
  }

  /**
   A file that cannot be opened ends the download with its own error, in the order in which the errors
   are found. Version 1, and a file that states no version, come first. Any other error is one of the
   transfer.
   */
  ghost predicate NeedsKey(lib: Primitives, mnemonic: seq<byte>, bucket: seq<byte>, links: Links, failure: Option<DownloadError>) {
    var index := Hex.Decode(links.index);
    if links.version == None || links.version == Some(1) then failure == Some(UnsupportedVersion)
    else if index == None then failure == Some(InvalidIndex)
    else if |index.value| < 16 then failure == Some(IndexTooShort)
    else if lib.seed(mnemonic) == None then failure == Some(KeyFailed(InvalidMnemonic))
    else if Hex.Decode(bucket) == None then failure == Some(KeyFailed(InvalidBucket))
    else failure == None || failure == Some(NetworkFailed) || failure == Some(WriteFailed)
  }

  /** A file opens, with that key and iv, when there is no such reason. */
  ghost predicate OpensWith(lib: Primitives, mnemonic: seq<byte>, bucket: seq<byte>, links: Links, key: seq<byte>, iv: seq<byte>) {
    var index := Hex.Decode(links.index);
    && links.version != None && links.version != Some(1)
    && index != None && |index.value| >= 16
    && iv == index.value[..16]
    && DerivedKey(lib, mnemonic, bucket, index.value, key)
  }

  lemma OpenFileIs(lib: Primitives, mnemonic: seq<byte>, bucket: seq<byte>, links: Links)
    ensures var file := OpenFile(lib, mnemonic, bucket, links);
            if file.Ok? then OpensWith(lib, mnemonic, bucket, links, file.value.0, file.value.1)
            else !file.error.NetworkFailed? && !file.error.WriteFailed? && NeedsKey(lib, mnemonic, bucket, links, Some(file.error))
  {
  }

  lemma OpensAtMostOnce(lib: Primitives, mnemonic: seq<byte>, bucket: seq<byte>, links: Links, key: Key, iv: Iv)
    requires OpensWith(lib, mnemonic, bucket, links, key, iv)
    ensures OpenFile(lib, mnemonic, bucket, links) == Ok((key, iv))
  {
  }

  // ---- Which requests a window takes --------------------------------------

  /** One shard: the whole of it for the whole file, else the window as a range. Its size is not looked at. */
  lemma LoneShardRequest(shards: seq<Shard>, size: nat, start: nat, end: nat)
    requires |shards| == 1 && start < end <= size
    ensures Requests(shards, size, start, end) ==
      [if start == 0 && end == size then Whole(shards[0].url) else Range(shards[0].url, start, end - 1)]
  {
    var sizes := SizesOf(size, shards);
    PlanRequestsStep(shards, sizes, start, end, 0);
    assert PlanRequests(shards, sizes, start, end, 1) == [];
  }

  /** Several shards of which one has no size: all of them, whole, in the order of their indices. */
  lemma UnknownSizesRequests(shards: seq<Shard>, size: nat, start: nat, end: nat)
    requires |shards| != 1 && (exists s :: s in shards && s.size == 0) && start < end <= size
    ensures |Requests(shards, size, start, end)| == |shards|
    ensures forall i :: 0 <= i < |shards| ==> Requests(shards, size, start, end)[i] == Whole(shards[i].url)
  {
  }

  /** Several shards of known sizes: of each one what it shares with the window. */
  lemma KnownSizesRequests(shards: seq<Shard>, size: nat, start: nat, end: nat, r: Request)
    requires |shards| != 1 && (forall s :: s in shards ==> s.size > 0) && start < end <= size
    ensures r in Requests(shards, size, start, end) <==> exists i :: 0 <= i < |shards| && AsksFor(shards, start, end, i, r)
  {
    var sizes := SizesOf(size, shards);
    PlanAsks(shards, sizes, start, end, 0, r);
  }

  /** `r` is the request for the bytes that shard `i` shares with the window, if there are any. */
  ghost predicate AsksFor(shards: seq<Shard>, start: nat, end: nat, i: nat, r: Request)
    requires i < |shards|
  {
    var base := Total(seq(|shards|, k requires 0 <= k < |shards| => shards[k].size)[..i]);
    var (url, n) := (shards[i].url, shards[i].size);
    && start < base + n && base < end
    && r == if start <= base && base + n <= end then Whole(url)
            else Range(url, Max(start, base) - base, Min(end, base + n) - base - 1)
  }

  lemma {:induction false} PlanAsks(shards: seq<Shard>, sizes: seq<nat>, start: nat, end: nat, from: nat, r: Request)
    requires |shards| != 1 && sizes == SizesOf(0, shards) && Positive(sizes) && start < end && from <= |shards|
    ensures r in PlanRequests(shards, sizes, start, end, from) <==>
      exists i :: from <= i < |shards| && AsksFor(shards, start, end, i, r)
    decreases |shards| - from
  {
    if from == |shards| {
      assert PlanRequests(shards, sizes, start, end, from) == [];
    } else {
      PlanRequestsStep(shards, sizes, start, end, from);
      AsksIs(shards, sizes, start, end, from, r);
      if Offset(sizes, from) < end {
        PlanAsks(shards, sizes, start, end, from + 1, r);
      } else {
        forall i | from <= i < |shards|
          ensures !AsksFor(shards, start, end, i, r)
        {
          OffsetGrows(sizes, from, i);
          AsksIs(shards, sizes, start, end, i, r);
        }
      }
    }
  }

  lemma AsksIs(shards: seq<Shard>, sizes: seq<nat>, start: nat, end: nat, i: nat, r: Request)
    requires |shards| != 1 && sizes == SizesOf(0, shards) && Positive(sizes) && start < end && i < |shards|
    ensures AsksFor(shards, start, end, i, r) <==>
      Offset(sizes, i) < end && r in OverlapRequests(shards, sizes, start, end, i)
  {
  }

  /** The decrypted window of the stored shards in index order. */
  function WindowContent(lib: Primitives, storage: Storage, key: Key, iv: Iv, links: Links, range: Option<(nat, nat)>)
    : seq<byte>
    requires links.size <= U64_MAX
  {
    var (start, end) := WindowOf(links.size, range);
    Clip(Crypt(KeystreamOf(lib.cipher, key, iv), 0, ContentOf(storage, links)), start, end)
  }

  /** What a successful download writes, for any sizes. */
  ghost function Output(ks: Keystream, storage: Storage, shards: seq<Shard>, size: nat, start: nat, end: nat): seq<byte>
    requires start <= end <= size
  {
    if SizesKnown(shards) then Crypt(ks, start, Delivered(storage, Requests(shards, size, start, end)))
    else Clip(Crypt(ks, 0, Concat(PiecesOf(storage, shards))), start, end)
  }

  /**
   Where the sizes are true or not known, the output is the window and no request is refused; it is
   shorter than asked for exactly when the stored content ends before the window does.
   */
  lemma OutputIsWindow(ks: Keystream, storage: Storage, shards: seq<Shard>, size: nat, start: nat, end: nat)
    requires start <= end <= size && SizesHonest(storage, size, shards, end)
    ensures var content := Concat(PiecesOf(storage, shards));
            && Output(ks, storage, shards, size, start, end) == Clip(Crypt(ks, 0, content), start, end)
            && (|Output(ks, storage, shards, size, start, end)| == end - start <==> start == end || end <= |content|)
    ensures !Refused(storage, Requests(shards, size, start, end))
  {
    if start < end && SizesKnown(shards) {
      FastIsWindow(ks, storage, shards, SizesOf(size, shards), start, end);
    }
  }

  /** How a download of an opened file ends, for any sizes. */
  ghost predicate DownloadResult(ks: Keystream, storage: Storage, shards: seq<Shard>, size: nat, start: nat, end: nat,
                                 failure: Option<DownloadError>, netReliable: bool, outReliable: bool,
                                 log: seq<Request>, log': seq<Request>, data: seq<byte>, data': seq<byte>)
    requires start <= end <= size
  {
    var requests, bytes := Requests(shards, size, start, end), Output(ks, storage, shards, size, start, end);
    && log <= log' <= log + requests
    && (failure.None? && SizesKnown(shards) ==> log' == log + requests && !Refused(storage, requests))
    && (failure.None? && !SizesKnown(shards) && start < end ==>
          exists k: nat :: StopsAt(storage, shards, end, k) && log' == log + WholeRequests(shards[..k]))
    && Explained(failure, !netReliable || Refused(storage, requests), !outReliable)
    && Wrote(data, data', bytes)
    && (failure.None? ==> data' == data + bytes)
  }

  /**
   Streams the window into the writer. The bytes are those of the window, whichever path is taken;
   an error on the way leaves only a front part of them. With known sizes nothing outside the
   window is requested.
   */
  method DownloadFileToWriter(lib: Primitives, net: Network, mnemonic: seq<byte>, bucket: seq<byte>,
                              links: Option<Links>, out: Writer, range: Option<(nat, nat)>)
    returns (failure: Option<DownloadError>)
    requires links.Some? ==> Fits64(links.value, range)
    modifies net, out
    ensures links.None? ==> failure == Some(NetworkFailed)
    ensures links.Some? ==> NeedsKey(lib, mnemonic, bucket, links.value, failure)
    ensures links.None? || (failure.Some? && !failure.value.NetworkFailed? && !failure.value.WriteFailed?) ==>
      out.data == old(out.data) && net.log == old(net.log)
    ensures links.Some? ==>
      var file := OpenFile(lib, mnemonic, bucket, links.value);
      var (start, end) := WindowOf(links.value.size, range);
      if file.Err? then failure == Some(file.error)
      else
        var ks := KeystreamOf(lib.cipher, file.value.0, file.value.1);
        && DownloadResult(ks, net.storage, InOrder(links.value), links.value.size, start, end,
                          failure, net.reliable, out.reliable, old(net.log), net.log, old(out.data), out.data)
        && (SizesHonest(net.storage, links.value.size, InOrder(links.value), end) ==>
              var window := WindowContent(lib, net.storage, file.value.0, file.value.1, links.value, range);
              && Wrote(old(out.data), out.data, window)
              && Explained(failure, !net.reliable, !out.reliable)
              && (failure.None? ==> out.data == old(out.data) + window)
              && (|window| == end - start <==> start == end || end <= |ContentOf(net.storage, links.value)|))
  {
    if links.None? {
      return Some(NetworkFailed);
    }
    var file := OpenFile(lib, mnemonic, bucket, links.value);
    OpenFileIs(lib, mnemonic, bucket, links.value);
    if file.Err? {
      return Some(file.error);
    }
    var size := links.value.size;
    var shards := InOrder(links.value);
    var (start, end) := WindowOf(size, range);
    failure := Stream(net, shards, size, start, end, lib.cipher, file.value.0, file.value.1, out);
    if SizesHonest(net.storage, size, shards, end) {
      OutputIsWindow(KeystreamOf(lib.cipher, file.value.0, file.value.1), net.storage, shards, size, start, end);
    }
  }

  /** The choice between the paths, unless the window is empty. */
  method Stream(net: Network, shards: seq<Shard>, size: nat, start: nat, end: nat,
                cipher: BlockCipher, key: Key, iv: Iv, out: Writer)
    returns (failure: Option<DownloadError>)
    requires start <= end <= size <= U64_MAX
    requires SizesKnown(shards) ==> EndsFit(SizesOf(size, shards), end)
    modifies net, out
    ensures DownloadResult(KeystreamOf(cipher, key, iv), net.storage, shards, size, start, end,
                           failure, net.reliable, out.reliable, old(net.log), net.log, old(out.data), out.data)
  {
    if end <= start {
      NothingAsked(KeystreamOf(cipher, key, iv), net.storage, shards, size, start);
      return None;
    }
    var ctr := new Ctr(cipher, key, iv);
    if SizesKnown(shards) {
      failure := FastPath(net, shards, size, start, end, ctr, out);
    } else {
      failure := SlowPath(net, shards, start, end, ctr, out);
    }
  }

  lemma NothingAsked(ks: Keystream, storage: Storage, shards: seq<Shard>, size: nat, at: nat)
    requires at <= size
    ensures Requests(shards, size, at, at) == [] && Output(ks, storage, shards, size, at, at) == []
  {
  }
}
