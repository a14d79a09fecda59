/**
 The uploads of `src/transfer.rs`, imperatively. Every nondeterministic choice (`*`, `:|`) stands
 for the reader, the network or the scheduler, so a contract holds for every chunking of the input
 and every interleaving of the PUT tasks.
 */
module Upload {
  import opened Bytes
  import opened CtrMode
  import opened StableSort
  import opened Slicing
  import opened Multipart
  import opened MultipartTheorems
  import opened FileKey
  import Hex

  const READ_CHUNK := 1024 * 1024
  const MULTIPART_THRESHOLD := 100 * 1024 * 1024
  const PART_SIZE := 15 * 1024 * 1024
  const UPLOAD_CONCURRENCY := 10

  datatype Slot = Slot(url: Option<string>, urls: Option<seq<string>>, uploadId: Option<string>)

  datatype UploadError =
    | KeyFailed(error: KeyError)
    | StartFailed
    | NoSlot
    | NoUploadUrl
    | NoUploadUrls
    | NoUploadId
    | TransferFailed(outcome: Outcome)

  /**
   What the reader, the PUTs and the finish request may do to an upload from outside. A fault that
   is not granted here does not happen; one that is granted may happen at any time, or never.
   */
  datatype Faults = Faults(reader: bool, puts: bool, refusal: bool)

  const NO_FAULTS := Faults(false, false, false)

  /** A transfer that did not succeed has its cause in a fault, or in input beyond its urls. */
  predicate Blamed(o: Outcome, faults: Faults, overflow: bool) {
    match o
    case Finished(ok) => !ok && faults.refusal
    case ReadError => faults.reader
    case NoUrl => overflow
    case PartError => faults.puts
  }

  /** What the storage holds after a successful upload, and what the finish request said of it. */
  datatype Receipt = Receipt(content: seq<byte>, indexHex: seq<byte>, hash: seq<byte>)

  /** The url in the reply to the request for one slot. */
  function SingleSlot(reply: Option<seq<Slot>>): Result<string, UploadError> {
    if reply.None? then Err(StartFailed)
    else if reply.value == [] then Err(NoSlot)
    else if reply.value[0].url.None? then Err(NoUploadUrl)
    else Ok(reply.value[0].url.value)
  }

  /** Without a single url the upload ends with its own error; any other error is one of the transfer. */
  ghost predicate NeedsUrl(reply: Option<seq<Slot>>, r: Result<Receipt, UploadError>) {
    if reply == None then r == Err(StartFailed)
    else if |reply.value| == 0 then r == Err(NoSlot)
    else if reply.value[0].url == None then r == Err(NoUploadUrl)
    else r.Err? ==> r.error.TransferFailed?
  }

  lemma SingleSlotIs(reply: Option<seq<Slot>>)
    ensures SingleSlot(reply) ==
      if reply == None then Err(StartFailed)
      else if |reply.value| == 0 then Err(NoSlot)
      else if reply.value[0].url == None then Err(NoUploadUrl)
      else Ok(reply.value[0].url.value)
  {
  }

  /** Without part urls and an upload id likewise. */
  ghost predicate NeedsUrls(reply: Option<seq<Slot>>, r: Result<Receipt, UploadError>) {
    if reply == None then r == Err(StartFailed)
    else if |reply.value| == 0 then r == Err(NoSlot)
    else if reply.value[0].urls == None then r == Err(NoUploadUrls)
    else if reply.value[0].uploadId == None then r == Err(NoUploadId)
    else r.Err? ==> r.error.TransferFailed?
  }

  /** All urls of the first slot count, and only those. */
  lemma MultipartSlotsIs(reply: Option<seq<Slot>>)
    ensures MultipartSlots(reply) ==
      if reply == None then Err(StartFailed)
      else if |reply.value| == 0 then Err(NoSlot)
      else if reply.value[0].urls == None then Err(NoUploadUrls)
      else if reply.value[0].uploadId == None then Err(NoUploadId)
      else Ok(|reply.value[0].urls.value|)
  {
  }

  /** What the final state of a run says about its outcome. */
  lemma OutcomeOf(c: Config, s: State, size: nat)
    requires c.Valid() && Reachable(c, s) && s.phase.Returned?
    ensures s.progress <= |c.input|
    ensures s.phase == Returned(Finished(true)) ==>
      && |s.finishes| == 1
      && s.finishes[0].hash == c.hash(c.Ciphertext())
      && Assemble(s.stored, s.finishes[0].parts) == Some(c.Ciphertext())
      && s.progress == |c.input|
      && |c.input| <= c.urls * c.partSize
    ensures s.phase == Returned(NoUrl) ==> |c.input| > c.urls * c.partSize
    ensures s.phase == Returned(NoUrl) && c.urls == NumParts(size, c.partSize) ==>
      |c.input| != size || DivCeil(size, c.partSize) >= U32_LIMIT
  {
    ReachableInv(c, s);
    ProgressIsUploaded(c, s);
    if s.phase.outcome == Finished(true) {
      FinishIsComplete(c, s);
      FinishNeedsSlots(c, s);
    } else if s.phase.outcome == NoUrl {
      NoUrlMeansOverflow(c, s);
      if DivCeil(size, c.partSize) < U32_LIMIT {
        SlotsMatchSize(size, c.partSize, c.urls);
      }
    }
  }

  /** One multipart upload: the locals of the dispatcher and what its PUT tasks share. */
  class Uploader {
    const c: Config
    const ctr: Ctr
    var consumed: nat
    var partBuf: seq<byte>
    var hasher: seq<byte>
    var partNumber: nat
    var handles: seq<Task>
    var free: nat
    var parts: seq<PartRef>
    var progress: nat
    var stored: map<nat, StoredPart>
    var finishes: seq<FinishRequest>
    const faults: Faults
    ghost var phase: Phase

    ghost function Abs(): State
      reads this
    {
      State(phase, consumed, partBuf, hasher, partNumber, handles, free, parts, progress, stored, finishes)
    }

    ghost predicate NoneFailed(tasks: seq<Task>) {
      forall i :: 0 <= i < |tasks| ==> !tasks[i].status.Failed?
    }

    ghost predicate Valid()
      reads this, ctr
    {
      && c.Valid()
      && ctr.Valid() && ctr.Ks() == c.ks && ctr.pos == consumed
      && Reachable(c, Abs())
      && (!faults.puts ==> NoneFailed(handles))
    }

    constructor (lib: Primitives, key: Key, iv: Iv, input: seq<byte>, urls: nat,
                 partSize: nat, readChunk: nat, permits: nat, faults: Faults)
      requires 0 < partSize && 0 < readChunk && 0 < permits
      ensures Valid() && fresh(this) && fresh(ctr)
      ensures c == Config(partSize, readChunk, permits, urls, KeystreamOf(lib.cipher, key, iv), ShardHasher(lib), input)
      ensures Abs() == Init(c) && this.faults == faults
    {
      c := Config(partSize, readChunk, permits, urls, KeystreamOf(lib.cipher, key, iv), ShardHasher(lib), input);
      ctr := new Ctr(lib.cipher, key, iv);
      consumed, partBuf, hasher, partNumber := 0, [], [], 1;
      handles, free, parts, progress := [], permits, [], 0;
      stored, finishes, phase := map[], [], Reading;
      this.faults := faults;
      new;
      InitReachable(c);
    }

    /** What a step of the PUT tasks leaves alone. */
    twostate predicate Undisturbed()
      reads this, ctr
    {
      && phase == old(phase)
      && consumed == old(consumed) && partBuf == old(partBuf) && hasher == old(hasher)
      && partNumber == old(partNumber) && parts == old(parts) && finishes == old(finishes)
      && |handles| == |old(handles)|
      && ctr.pos == old(ctr.pos)
    }

    // ---- The PUT tasks ----------------------------------------------------

    /** How the PUT of task `i` ends. */
    method PutEnds(i: nat) returns (a: Action)
      requires i < |handles| && IsLive(handles[i])
      ensures Settles(a) && a.i == i && Enabled(c, Abs(), a)
      ensures a.PutFails? ==> faults.puts
    {
      if {
        case true => var etag: string := *; a := PutSucceeds(i, etag);
        case faults.puts => var kept: Option<string> := *; a := PutFails(i, kept);
        case handles[i].status.Cancelling? => var kept: Option<string> := *; a := AbortLands(i, kept);
      }
    }

    method SettlePut(i: nat)
      requires Valid() && i < |handles| && IsLive(handles[i])
      modifies this`handles, this`free, this`stored, this`progress
      ensures Valid() && Undisturbed()
      ensures free == old(free) + 1 && !IsLive(handles[i])
    {
      ghost var before := Abs();
      var a := PutEnds(i);
      RecordPut(i, a);
      StepReachable(c, before, a);
    }

    /** The permit returns, and what the PUT left behind becomes visible. */
    method RecordPut(i: nat, a: Action)
      requires i < |handles| && Settles(a) && a.i == i && Enabled(c, Abs(), a)
      modifies this`handles, this`free, this`stored, this`progress
      ensures Abs() == Apply(c, old(Abs()), a)
      ensures |handles| == |old(handles)| && !IsLive(handles[i])
      ensures !a.PutFails? && NoneFailed(old(handles)) ==> NoneFailed(handles)
    {
      var t := handles[i];
      var kept := if a.PutSucceeds? then Some(a.etag) else a.kept;
      var status := if a.PutSucceeds? then Succeeded(a.etag) else if a.PutFails? then Failed else Aborted;
      handles := handles[i := t.(status := status)];
      stored := if kept.Some? then stored[t.part := StoredPart(t.body, kept.value)] else stored;
      free := free + 1;
      progress := progress + if a.PutSucceeds? then |t.body| else 0;
    }

    method SettleAnyPut()
      requires Valid() && Sum(LiveOne, handles) > 0
      modifies this`handles, this`free, this`stored, this`progress
      ensures Valid() && Undisturbed()
      ensures free == old(free) + 1
    {
      ghost var live := LiveTask(handles);
      var i: nat :| i < |handles| && IsLive(handles[i]);
      SettlePut(i);
    }

    /** Any number of PUTs end while the dispatcher is between two of its steps. */
    method Yield()
      requires Valid()
      modifies this`handles, this`free, this`stored, this`progress
      ensures Valid() && Undisturbed()
      ensures free >= old(free)
    {
      var n: nat := *;
      while n > 0
        invariant Valid() && Undisturbed() && free >= old(free)
      {
        if Sum(LiveOne, handles) > 0 {
          SettleAnyPut();
        }
        n := n - 1;
      }
    }

    // ---- The dispatcher ---------------------------------------------------

    /** Reads the next chunk: 0 is the end of the input, None an I/O error. */
    method ReadSome() returns (n: Option<nat>)
      requires Valid() && phase == Reading
      ensures n.None? ==> faults.reader
      ensures n.Some? && n.value > 0 ==> Enabled(c, Abs(), Read(n.value))
      ensures n == Some(0) ==> Enabled(c, Abs(), ReadEnd)
    {
      ReachableInv(c, Abs());
      if {
        case faults.reader => n := None;
        case consumed == |c.input| => n := Some(0);
        case consumed < |c.input| =>
          var k: nat :| 0 < k <= c.readChunk && consumed + k <= |c.input|;
          n := Some(k);
      }
    }

    /** The next chunk as read, encrypted in place. */
    method EncryptNext(n: nat) returns (chunk: seq<byte>)
      requires c.ks == ctr.Ks() && ctr.Valid() && ctr.pos == consumed && consumed + n <= |c.input|
      modifies ctr
      ensures ctr.Valid() && ctr.pos == consumed + n
      ensures chunk == Crypt(c.ks, consumed, c.input[consumed..consumed + n])
    {
      chunk := ApplyToCopy(ctr, c.input[consumed..consumed + n]);
    }

    /** Encrypts and hashes the chunk and appends it to the part buffer. */
    method TakeChunk(n: nat)
      requires Valid() && n > 0 && Enabled(c, Abs(), Read(n))
      modifies this, ctr
      ensures Valid() && phase == Slicing && consumed == old(consumed) + n
    {
      ghost var before := Abs();
      var chunk := EncryptNext(n);
      AppendChunk(n, chunk);
      StepReachable(c, before, Read(n));
    }

    method AppendChunk(n: nat, chunk: seq<byte>)
      requires Enabled(c, Abs(), Read(n))
      requires chunk == Crypt(c.ks, consumed, c.input[consumed..consumed + n])
      modifies this`hasher, this`partBuf, this`consumed, this`phase
      ensures Abs() == Apply(c, old(Abs()), Read(n))
    {
      hasher := hasher + chunk;
      partBuf := partBuf + chunk;
      consumed, phase := consumed + n, Slicing;
    }

    /** Takes one full part off the front of the buffer. */
    method CutPart() returns (body: seq<byte>)
      requires Valid() && phase == Slicing && |partBuf| >= c.partSize
      modifies this`partBuf, this`phase
      ensures Valid() && phase == Dispatching(body, false)
      ensures |body| == c.partSize && body + partBuf == old(partBuf)
    {
      ghost var before := Abs();
      var rest := partBuf[c.partSize..];
      body := partBuf[..c.partSize];
      partBuf, phase := rest, Dispatching(body, false);
      StepReachable(c, before, Slice);
      assert Abs() == Apply(c, before, Slice);
    }

    /** Waits for a permit: PUTs go on until one is free. */
    method AcquirePermit()
      requires Valid()
      modifies this`handles, this`free, this`stored, this`progress
      ensures Valid() && Undisturbed() && free > 0
    {
      Yield();
      ReachableInv(c, Abs());
      if free == 0 {
        SettleAnyPut();
      }
    }

    /**
     Looks up the part's url, waits for a permit and spawns its PUT. The part number moves on here,
     as the caller does after every part that is not the last.
     */
    method DispatchPart(body: seq<byte>, last: bool) returns (ok: bool)
      requires Valid() && phase == Dispatching(body, last)
      modifies this`handles, this`free, this`stored, this`progress, this`partNumber, this`phase
      ensures Valid()
      ensures ok <==> old(partNumber) <= c.urls
      ensures ok ==>
        && phase == (if last then Joining else Slicing)
        && |handles| == |old(handles)| + 1
        && handles[|old(handles)|] == Task(old(partNumber), body, Running)
      ensures !ok ==> phase == Returned(NoUrl) && handles == old(handles)
    {
      if partNumber > c.urls {
        ghost var before := Abs();
        phase := Returned(NoUrl);
        StepReachable(c, before, UrlMissing);
        return false;
      }
      AcquirePermit();
      Spawn(body, last);
      ok := true;
    }

    method Spawn(body: seq<byte>, last: bool)
      requires Valid() && phase == Dispatching(body, last) && free > 0 && partNumber <= c.urls
      modifies this`handles, this`free, this`partNumber, this`phase
      ensures Valid() && phase == if last then Joining else Slicing
      ensures handles == old(handles) + [Task(old(partNumber), body, Running)]
    {
      ghost var before := Abs();
      free := free - 1;
      handles := handles + [Task(partNumber, body, Running)];
      partNumber := if last then partNumber else partNumber + 1;
      phase := if last then Joining else Slicing;
      assert Abs() == Apply(c, before, Action.Spawn);
      StepReachable(c, before, Action.Spawn);
    }

    /** The inner loop: full parts leave the buffer until less than one is left. */
    method DispatchFullParts() returns (ok: bool)
      requires Valid() && phase == Slicing
      modifies this
      ensures Valid() && consumed == old(consumed) && ctr.pos == old(ctr.pos)
      ensures ok ==> phase == Reading
      ensures !ok ==> phase == Returned(NoUrl)
    {
      while |partBuf| >= c.partSize
        invariant Valid() && phase == Slicing && consumed == old(consumed)
        decreases |partBuf|
      {
        var body := CutPart();
        ok := DispatchPart(body, false);
        if !ok {
          return;
        }
      }
      ghost var before := Abs();
      phase := Reading;
      StepReachable(c, before, SliceDone);
      ok := true;
    }

    /** The outer loop and the last part. None when every part was dispatched. */
    method ReadAndDispatch() returns (failure: Option<Outcome>)
      requires Valid() && phase == Reading
      modifies this, ctr
      ensures Valid()
      ensures failure.None? ==> phase == Joining
      ensures failure.Some? ==> phase == Returned(failure.value)
      ensures failure.Some? ==> Blamed(failure.value, faults, failure.value.NoUrl?)
    {
      while true
        invariant Valid() && phase == Reading
        decreases |c.input| - consumed
      {
        Yield();
        ReachableInv(c, Abs());
        var n := ReadSome();
        if n.None? {
          ghost var before := Abs();
          phase := Returned(ReadError);
          StepReachable(c, before, ReadFails);
          return Some(ReadError);
        }
        if n.value == 0 {
          break;
        }
        TakeChunk(n.value);
        var ok := DispatchFullParts();
        if !ok {
          return Some(NoUrl);
        }
      }
      failure := DispatchLast();
    }

    method DispatchLast() returns (failure: Option<Outcome>)
      requires Valid() && phase == Reading && consumed == |c.input|
      modifies this
      ensures Valid()
      ensures failure.None? ==> phase == Joining
      ensures failure.Some? ==> phase == Returned(NoUrl) && failure.value == NoUrl
    {
      ghost var before := Abs();
      StepReachable(c, before, ReadEnd);
      if partBuf != [] {
        var body := partBuf;
        partBuf, phase := [], Dispatching(body, true);
        var ok := DispatchPart(body, true);
        if !ok {
          return Some(NoUrl);
        }
      } else {
        phase := Joining;
      }
      failure := None;
    }

    /** Awaits the next handle, whose task settles meanwhile. */
    method AwaitNext()
      requires Valid() && phase == Joining && |parts| < |handles|
      modifies this`handles, this`free, this`stored, this`progress
      ensures Valid() && Undisturbed()
      ensures handles[|parts|].status.Succeeded? || handles[|parts|].status.Failed?
    {
      Yield();
      if IsLive(handles[|parts|]) {
        SettlePut(|parts|);
      }
      ReachableInv(c, Abs());
    }

    /** Awaits the handles in order; true when all of them succeeded. */
    method JoinAll() returns (ok: bool)
      requires Valid() && phase == Joining
      modifies this
      ensures Valid()
      ensures ok ==> phase == Joining && |parts| == |handles|
      ensures !ok ==> phase == Aborting(|parts| + 1) && |parts| < |handles| && faults.puts
    {
      ReachableInv(c, Abs());
      while |parts| < |handles|
        invariant Valid() && phase == Joining && |parts| <= |handles|
        decreases |handles| - |parts|
      {
        AwaitNext();
        ok := JoinNext();
        if !ok {
          return;
        }
      }
      ok := true;
    }

    method JoinNext() returns (ok: bool)
      requires Valid() && phase == Joining && |parts| < |handles|
      requires handles[|parts|].status.Succeeded? || handles[|parts|].status.Failed?
      modifies this`parts, this`phase
      ensures Valid()
      ensures ok <==> handles[|old(parts)|].status.Succeeded?
      ensures ok ==>
        && phase == Joining
        && parts == old(parts) + [PartRef(|old(parts)| + 1, handles[|old(parts)|].status.etag)]
      ensures !ok ==> phase == Aborting(|parts| + 1) && parts == old(parts)
    {
      ghost var before := Abs();
      ReachableInv(c, before);
      var t := handles[|parts|];
      ok := t.status.Succeeded?;
      if ok {
        parts := parts + [PartRef(t.part, t.status.etag)];
        StepReachable(c, before, Join);
      } else {
        phase := Aborting(|parts| + 1);
        StepReachable(c, before, JoinFails);
      }
    }

    /** Aborts every handle behind the failed one. */
    method AbortRest()
      requires Valid() && phase == Aborting(|parts| + 1) && |parts| < |handles|
      modifies this
      ensures Valid() && phase == Returned(PartError)
    {
      for next := |parts| + 1 to |handles|
        invariant Valid() && phase == Aborting(next) && |handles| == |old(handles)|
      {
        Yield();
        Abort(next);
      }
      ghost var before := Abs();
      phase := Returned(PartError);
      StepReachable(c, before, AbortsDone);
    }

    method Abort(next: nat)
      requires Valid() && phase == Aborting(next) && next < |handles|
      modifies this`handles, this`phase
      ensures Valid() && phase == Aborting(next + 1) && |handles| == |old(handles)|
    {
      ghost var before := Abs();
      var t := handles[next];
      if t.status.Running? {
        handles := handles[next := t.(status := Cancelling)];
      }
      phase := Aborting(next + 1);
      assert Abs() == Apply(c, before, AbortNext);
      StepReachable(c, before, AbortNext);
    }

    /** Sends the finish request, which the server may accept or refuse. */
    method SendFinish() returns (ok: bool)
      requires Valid() && phase == Joining && |parts| == |handles|
      modifies this
      ensures Valid() && phase == Returned(Finished(ok)) && (!ok ==> faults.refusal)
      ensures finishes == old(finishes) + [FinishRequest(c.hash(old(hasher)), SortByKey(ByPartNumber, old(parts)))]
    {
      ghost var before := Abs();
      var sorted := SortByKey(ByPartNumber, parts);
      finishes := finishes + [FinishRequest(c.hash(hasher), sorted)];
      ok := true;
      if faults.refusal {
        ok := *;
      }
      phase := Returned(Finished(ok));
      StepReachable(c, before, Finish(ok));
      assert Abs() == Apply(c, before, Finish(ok));
    }

    /** The whole upload. It always returns, in a reachable final state of the protocol. */
    method Run() returns (outcome: Outcome)
      requires Valid() && phase == Reading
      modifies this, ctr
      ensures Valid() && phase == Returned(outcome)
      ensures outcome == Finished(true) || Blamed(outcome, faults, outcome.NoUrl?)
    {
      var failure := ReadAndDispatch();
      if failure.Some? {
        return failure.value;
      }
      var joined := JoinAll();
      if !joined {
        ReachableInv(c, Abs());
        AbortRest();
        return PartError;
      }
      var ok := SendFinish();
      outcome := Finished(ok);
    }

    /** Runs the upload and reports what the storage assembled and the hash it was sent. */
    method Transfer(ghost size: nat) returns (outcome: Outcome, content: seq<byte>, hash: seq<byte>)
      requires Valid() && phase == Reading
      modifies this, ctr
      ensures Valid() && phase == Returned(outcome)
      ensures outcome == Finished(true) || Blamed(outcome, faults, |c.input| > c.urls * c.partSize)
      ensures progress <= |c.input|
      ensures outcome == Finished(true) ==>
        && content == c.Ciphertext() && hash == c.hash(content)
        && progress == |c.input| && |c.input| <= c.urls * c.partSize
      ensures outcome == NoUrl && c.urls == NumParts(size, c.partSize) ==>
        |c.input| != size || DivCeil(size, c.partSize) >= U32_LIMIT
    {
      outcome := Run();
      OutcomeOf(c, Abs(), size);
      content, hash := [], [];
      if outcome == Finished(true) {
        content := Assemble(stored, finishes[0].parts).value;
        hash := finishes[0].hash;
      }
    }
  }

  // ---- The entry points ---------------------------------------------------

  /** The number of part urls in the reply to the request for slots. */
  function MultipartSlots(reply: Option<seq<Slot>>): Result<nat, UploadError> {
    if reply.None? then Err(StartFailed)
    else if reply.value == [] then Err(NoSlot)
    else if reply.value[0].urls.None? then Err(NoUploadUrls)
    else if reply.value[0].uploadId.None? then Err(NoUploadId)
    else Ok(|reply.value[0].urls.value|)
  }

  /**
   Multipart upload of what `input` holds, `start` being the server's answer to the number of
   slots asked for. Success means that the storage assembled exactly the encrypted input; input
   beyond the slots is an error, and without faults the only one; and a server that grants the
   slots asked for is never the cause of a missing url when the input has the announced size.
   */
  method UploadMultipart(lib: Primitives, key: Key, iv: Iv, index: seq<byte>, input: seq<byte>, size: nat,
                         start: nat -> Option<seq<Slot>>, partSize: nat, readChunk: nat, permits: nat, faults: Faults)
    returns (r: Result<Receipt, UploadError>, progress: nat)
    requires 0 < partSize && 0 < readChunk && 0 < permits
    ensures r.Ok? ==> r.value == ReceiptOf(lib, key, iv, index, input) && progress == |input|
    ensures progress <= |input|
    ensures NeedsUrls(start(NumParts(size, partSize)), r)
    ensures var slots := MultipartSlots(start(NumParts(size, partSize)));
            && (slots.Err? ==> r == Err(slots.error))
            && (slots.Ok? && |input| > slots.value * partSize ==> r.Err?)
            && (slots.Ok? && r.Err? ==>
                  r.error.TransferFailed? && Blamed(r.error.outcome, faults, |input| > slots.value * partSize))
            && (slots == Ok(NumParts(size, partSize)) && |input| == size && DivCeil(size, partSize) < U32_LIMIT ==>
                  r != Err(TransferFailed(NoUrl)))
  {
    var slots := MultipartSlots(start(NumParts(size, partSize)));
    MultipartSlotsIs(start(NumParts(size, partSize)));
    if slots.Err? {
      return Err(slots.error), 0;
    }
    var u := new Uploader(lib, key, iv, input, slots.value, partSize, readChunk, permits, faults);
    var outcome, content, hash := u.Transfer(size);
    progress := u.progress;
    r := if outcome == Finished(true) then Ok(Receipt(content, Hex.Encode(index), hash))
         else Err(TransferFailed(outcome));
  }

  /** The next read of a streamed single PUT: 0 is the end of the input, None an I/O error. */
  method ReadOrGiveUp(readChunk: nat, left: nat, readerFaulty: bool) returns (n: Option<nat>)
    requires 0 < readChunk
    ensures n.None? ==> readerFaulty
    ensures n.Some? ==> n.value <= readChunk && n.value <= left && (n.value == 0 <==> left == 0)
  {
    if {
      case readerFaulty => n := None;
      case left == 0 => n := Some(0);
      case left > 0 =>
        var k: nat :| 0 < k <= readChunk && k <= left;
        n := Some(k);
    }
  }

  lemma CryptNext(ks: Keystream, input: seq<byte>, p: nat, n: nat)
    requires p + n <= |input|
    ensures Crypt(ks, 0, input[..p + n]) == Crypt(ks, 0, input[..p]) + Crypt(ks, p, input[p..p + n])
  {
    assert input[..p + n] == input[..p] + input[p..p + n];
    CryptPlus(ks, 0, input[..p], input[p..p + n]);
  }

  /**
   What a single PUT of announced length `size` leaves behind: the storage holds no more than that
   length, and the hash is of the chunks that the client took, which cover it.
   */
  ghost predicate SingleReceipt(lib: Primitives, key: Key, iv: Iv, index: seq<byte>, input: seq<byte>, size: nat,
                                taken: nat, receipt: Receipt)
  {
    && Min(size, |input|) <= taken <= |input|
    && receipt == Receipt(Crypt(KeystreamOf(lib.cipher, key, iv), 0, input)[..Min(size, |input|)],
                          Hex.Encode(index),
                          ShardHash(lib, Crypt(KeystreamOf(lib.cipher, key, iv), 0, input[..taken])))
  }

  lemma FrontIsWhole<T>(front: seq<T>, whole: seq<T>, n: nat)
    requires n <= |whole| && front == whole[..n]
    ensures front == whole <==> n == |whole|
  {
  }

  /** The receipt of a single PUT is that of the whole input exactly when the announced size holds it. */
  lemma SingleIsWhole(lib: Primitives, key: Key, iv: Iv, index: seq<byte>, input: seq<byte>, size: nat,
                      taken: nat, receipt: Receipt)
    requires SingleReceipt(lib, key, iv, index, input, size, taken, receipt)
    ensures |input| <= size <==> receipt.content == ReceiptOf(lib, key, iv, index, input).content
    ensures |input| <= size ==> taken == |input| && receipt == ReceiptOf(lib, key, iv, index, input)
  {
    FrontIsWhole(receipt.content, Crypt(KeystreamOf(lib.cipher, key, iv), 0, input), Min(size, |input|));
    FrontIsWhole(input[..taken], input, taken);
  }

  /**
   Upload through one presigned url, the body streamed straight through the cipher. The PUT
   announces `size` as its length; input of any other length may make it fail.
   */
  method UploadSingle(lib: Primitives, key: Key, iv: Iv, index: seq<byte>, input: seq<byte>, size: nat,
                      start: nat -> Option<seq<Slot>>, readChunk: nat, faults: Faults)
    returns (r: Result<Receipt, UploadError>, progress: nat)
    requires 0 < readChunk
    ensures SingleSlot(start(1)).Err? ==> r == Err(SingleSlot(start(1)).error)
    ensures NeedsUrl(start(1), r)
    ensures r.Ok? ==> SingleReceipt(lib, key, iv, index, input, size, progress, r.value)
    ensures r.Ok? && |input| <= size ==> r.value == ReceiptOf(lib, key, iv, index, input) && progress == |input|
    ensures progress <= |input|
    ensures SingleSlot(start(1)).Ok? && r.Err? ==>
      r.error.TransferFailed? && Blamed(r.error.outcome, faults.(puts := faults.puts || |input| != size), false)
  {
    var slot := SingleSlot(start(1));
    SingleSlotIs(start(1));
    if slot.Err? {
      return Err(slot.error), 0;
    }
    var ctr := new Ctr(lib.cipher, key, iv);
    var failed, body, hasher;
    failed, body, hasher, progress := StreamBody(ctr, input, size, readChunk, faults.reader);
    if failed {
      return Err(TransferFailed(ReadError)), progress;
    }
    if {
      case faults.puts || |input| != size => r := Err(TransferFailed(PartError));
      case faults.refusal => r := Err(TransferFailed(Finished(false)));
      case true =>
        r := Ok(Receipt(body, Hex.Encode(index), ShardHash(lib, hasher)));
        SingleIsWhole(lib, key, iv, index, input, size, progress, r.value);
    }
  }

  /**
   The body producer, which reads, encrypts, hashes and counts chunk by chunk, and the client that
   draws on it: it sends `size` bytes at most and may stop drawing once it has that many.
   */
  method StreamBody(ctr: Ctr, input: seq<byte>, size: nat, readChunk: nat, readerFaulty: bool)
    returns (failed: bool, body: seq<byte>, hasher: seq<byte>, progress: nat)
    requires 0 < readChunk && ctr.Valid() && ctr.pos == 0
    modifies ctr
    ensures progress <= |input| && (failed ==> readerFaulty)
    ensures hasher == Crypt(ctr.Ks(), 0, input[..progress])
    ensures !failed ==> Min(size, |input|) <= progress && body == Crypt(ctr.Ks(), 0, input)[..Min(size, |input|)]
  {
    ghost var ks := ctr.Ks();
    body, hasher, progress := [], [], 0;
    while true
      invariant ctr.Valid() && ctr.pos == progress <= |input|
      invariant hasher == Crypt(ks, 0, input[..progress])
      invariant body == hasher[..Min(size, progress)]
      decreases |input| - progress
    {
      if progress >= size {
        var done: bool := *;
        if done {
          break;
        }
      }
      var n := ReadOrGiveUp(readChunk, |input| - progress, readerFaulty);
      if n.None? {
        return true, body, hasher, progress;
      }
      if n.value == 0 {
        break;
      }
      var chunk := ApplyToCopy(ctr, input[progress..progress + n.value]);
      CryptNext(ks, input, progress, n.value);
      hasher := hasher + chunk;
      progress := progress + n.value;
      body := body + chunk[..Min(size - |body|, |chunk|)];
    }
    failed := false;
    CryptFront(ks, input, progress, Min(size, |input|));
  }

  lemma CryptFront(ks: Keystream, input: seq<byte>, p: nat, n: nat)
    requires n <= p <= |input|
    ensures Crypt(ks, 0, input[..p])[..n] == Crypt(ks, 0, input)[..n]
  {
    SeekIsSlice(ks, 0, input, 0, p);
    assert input[0..p] == input[..p];
    SliceOfSlice(Crypt(ks, 0, input), 0, p, 0, n);
  }

  /**
   The object that an upload leaves behind, from the answers of the hashes: the input combined byte by
   byte with the cipher blocks that count on from the first half of the index, under the first half of
   the second digest.
   */
  lemma ContentIs(lib: Primitives, mnemonic: seq<byte>, bucketBytes: seq<byte>, index: seq<byte>, input: seq<byte>,
                  seed: Digest64, h1: Digest64, h2: Digest64, key: Key)
    requires |index| == 32
    requires GenerateFileKey(lib, mnemonic, Hex.Encode(bucketBytes), index) == Ok(key)
    requires lib.seed(mnemonic) == Some(seed)
    requires lib.sha512(seed + bucketBytes) == h1 && lib.sha512(h1[..32] + index) == h2
    ensures XorsBlocks(lib.cipher, h2[..32], index[..16], 0, input, ReceiptOf(lib, key, index[..16], index, input).content)
  {
    KeyDerivation(lib, mnemonic, bucketBytes, index, seed, h1, h2);
    ReceiptEncrypts(lib, key, index[..16], index, input);
  }

  lemma ReceiptEncrypts(lib: Primitives, key: Key, iv: Iv, index: seq<byte>, input: seq<byte>)
    ensures XorsBlocks(lib.cipher, key, iv, 0, input, ReceiptOf(lib, key, iv, index, input).content)
  {
    CryptXorsBlocks(lib.cipher, key, iv, 0, input, ReceiptOf(lib, key, iv, index, input).content);
  }

  /** The parameters in numbers: the most that is held in memory, and the largest file with enough slots. */
  lemma EntryBounds(c: Config, s: State, size: nat)
    requires c.Valid() && Reachable(c, s)
    requires c.partSize == PART_SIZE && c.readChunk == READ_CHUNK && c.permits == UPLOAD_CONCURRENCY
    ensures HeldBytes(s) < 11 * 15728640 + 1048576
    ensures DivCeil(size, PART_SIZE) < U32_LIMIT <==> size <= 4294967295 * 15728640
    ensures MULTIPART_THRESHOLD == 104857600
  {
    MemoryBounded(c, s);
    DivCeilAtMost(size, PART_SIZE, 4294967295);
  }

  /** What an upload under a given key promises, above and below the threshold. */
  ghost predicate Uploaded(lib: Primitives, key: Key, iv: Iv, index: seq<byte>, input: seq<byte>, size: nat,
                           start: nat -> Option<seq<Slot>>, faults: Faults, r: Result<Receipt, UploadError>, progress: nat)
  {
    && progress <= |input|
    && (size > MULTIPART_THRESHOLD ==>
          && NeedsUrls(start(NumParts(size, PART_SIZE)), r)
          && (var slots := MultipartSlots(start(NumParts(size, PART_SIZE)));
              slots.Ok? && r.Err? ==> Blamed(r.error.outcome, faults, |input| > slots.value * PART_SIZE)))
    && (size <= MULTIPART_THRESHOLD ==>
          && NeedsUrl(start(1), r)
          && (SingleSlot(start(1)).Ok? && r.Err? ==>
                Blamed(r.error.outcome, faults.(puts := faults.puts || |input| != size), false))
          && (r.Ok? ==> SingleReceipt(lib, key, iv, index, input, size, progress, r.value)))
    && (r.Ok? && (size > MULTIPART_THRESHOLD || |input| <= size) ==>
          r.value == ReceiptOf(lib, key, iv, index, input) && progress == |input|)
  }

  /** The server hands out the slots that an upload of `size` bytes asks for. */
  predicate Granted(start: nat -> Option<seq<Slot>>, size: nat) {
    if size > MULTIPART_THRESHOLD
    then MultipartSlots(start(NumParts(size, PART_SIZE))) == Ok(NumParts(size, PART_SIZE)) && DivCeil(size, PART_SIZE) < U32_LIMIT
    else SingleSlot(start(1)).Ok?
  }

  ghost predicate Whole(lib: Primitives, key: Key, iv: Iv, index: seq<byte>, input: seq<byte>, size: nat,
                        start: nat -> Option<seq<Slot>>, faults: Faults, r: Result<Receipt, UploadError>)
  {
    |input| == size ==>
      && (r.Ok? ==> r.value == ReceiptOf(lib, key, iv, index, input))
      && (Granted(start, size) && faults == NO_FAULTS ==> r.Ok?)
  }

  /** An upload of the announced size leaves the receipt of the input, and succeeds where nothing may fail. */
  lemma UploadedWhole(lib: Primitives, key: Key, iv: Iv, index: seq<byte>, input: seq<byte>, start: nat -> Option<seq<Slot>>,
                      faults: Faults, r: Result<Receipt, UploadError>, progress: nat)
    requires Uploaded(lib, key, iv, index, input, |input|, start, faults, r, progress)
    ensures Whole(lib, key, iv, index, input, |input|, start, faults, r)
  {
    if Granted(start, |input|) && |input| > MULTIPART_THRESHOLD {
      SlotsMatchSize(|input|, PART_SIZE, NumParts(|input|, PART_SIZE));
      MultipartSlotsIs(start(NumParts(|input|, PART_SIZE)));
    } else {
      SingleSlotIs(start(1));
    }
  }

  method UploadUnder(lib: Primitives, key: Key, iv: Iv, index: seq<byte>, input: seq<byte>, size: nat,
                     start: nat -> Option<seq<Slot>>, faults: Faults)
    returns (r: Result<Receipt, UploadError>, progress: nat)
    ensures Uploaded(lib, key, iv, index, input, size, start, faults, r, progress)
    ensures Whole(lib, key, iv, index, input, size, start, faults, r)
    ensures r.Err? ==> !r.error.KeyFailed?
  {
    if size > MULTIPART_THRESHOLD {
      r, progress := UploadMultipart(lib, key, iv, index, input, size, start, PART_SIZE, READ_CHUNK, UPLOAD_CONCURRENCY, faults);
      MultipartSlotsIs(start(NumParts(size, PART_SIZE)));
    } else {
      r, progress := UploadSingle(lib, key, iv, index, input, size, start, READ_CHUNK, faults);
      SingleSlotIs(start(1));
    }
    if |input| == size {
      UploadedWhole(lib, key, iv, index, input, start, faults, r, progress);
    }
  }

  /**
   Encrypts and uploads a stream, in parts above the threshold. The index is drawn at random, and its
   first half is the iv.
   */
  method UploadStreamToNetwork(lib: Primitives, bucket: seq<byte>, mnemonic: seq<byte>, index: seq<byte>,
                               input: seq<byte>, size: nat, start: nat -> Option<seq<Slot>>, faults: Faults)
    returns (r: Result<Receipt, UploadError>, progress: nat)
    requires |index| == 32
    ensures
      if lib.seed(mnemonic).None? then r == Err(KeyFailed(InvalidMnemonic))
      else if Hex.Decode(bucket).None? then r == Err(KeyFailed(InvalidBucket))
      else r.Err? ==> !r.error.KeyFailed?
    ensures var key := GenerateFileKey(lib, mnemonic, bucket, index);
            if key.Err? then r == Err(KeyFailed(key.error)) && progress == 0
            else
              && DerivedKey(lib, mnemonic, bucket, index, key.value)
              && Uploaded(lib, key.value, index[..16], index, input, size, start, faults, r, progress)
              && Whole(lib, key.value, index[..16], index, input, size, start, faults, r)
  {
    progress := 0;
    var key := GenerateFileKey(lib, mnemonic, bucket, index);
    KeyIs(lib, mnemonic, bucket, index);
    if key.Err? {
      return Err(KeyFailed(key.error)), 0;
    }
    r, progress := UploadUnder(lib, key.value, index[..16], index, input, size, start, faults);
  }

  /** The object, index and hash that either upload leaves behind for an input. */
  function ReceiptOf(lib: Primitives, key: Key, iv: Iv, index: seq<byte>, input: seq<byte>): Receipt {
    var content := Crypt(KeystreamOf(lib.cipher, key, iv), 0, input);
    Receipt(content, Hex.Encode(index), ShardHash(lib, content))
  }
}
