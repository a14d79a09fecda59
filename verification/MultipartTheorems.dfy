/** What every run of the multipart upload guarantees, whatever the interleaving. */
module MultipartTheorems {
  import opened Bytes
  import opened CtrMode
  import opened Slicing
  import opened Multipart

  // ---- Safety of the finish request ---------------------------------------

  lemma AssembleSnoc(stored: map<nat, StoredPart>, front: seq<PartRef>, p: PartRef)
    requires Assemble(stored, front).Some? && p.partNumber in stored && stored[p.partNumber].etag == p.etag
    requires front != [] ==> front[|front| - 1].partNumber < p.partNumber
    ensures Assemble(stored, front + [p]) == Some(Assemble(stored, front).value + stored[p.partNumber].body)
  {
    assert (front + [p])[..|front|] == front;
  }

  lemma {:induction false} AssembleJoined(s: State, k: nat)
    requires JoinInv(s) && StoredInv(s) && k <= |s.parts|
    ensures Assemble(s.stored, s.parts[..k]) == Some(Concat(Bodies(s.tasks)[..k]))
  {
    if k > 0 {
      AssembleJoined(s, k - 1);
      assert s.parts[..k] == s.parts[..k - 1] + [s.parts[k - 1]];
      AssembleSnoc(s.stored, s.parts[..k - 1], s.parts[k - 1]);
      ConcatTake(Bodies(s.tasks), k - 1);
    }
  }

  /**
   A finish request is sent only after every dispatched PUT succeeded. It lists the parts 1..k in
   order with the ETags of their own bodies; those bodies are the slices of the encrypted input,
   and the storage accepts the list and assembles exactly that ciphertext, which is also what was
   hashed and what the progress sink was told.
   */
  lemma FinishIsComplete(c: Config, s: State)
    requires c.Valid() && Reachable(c, s) && s.finishes != []
    ensures s.phase.Returned? && s.phase.outcome.Finished?
    ensures |s.finishes| == 1 && s.finishes[0] == FinishRequest(c.hash(c.Ciphertext()), s.parts)
    ensures Bodies(s.tasks) == PartsOf(c.Ciphertext(), c.partSize)
    ensures |s.parts| == |s.tasks|
    ensures forall k :: 0 <= k < |s.tasks| ==>
      s.tasks[k].status.Succeeded? && s.parts[k] == PartRef(k + 1, s.tasks[k].status.etag)
    ensures Assemble(s.stored, s.parts) == Some(c.Ciphertext())
    ensures s.progress == |c.input|
  {
    ReachableInv(c, s);
    assert c.input[..s.consumed] == c.input;
    var bodies := Bodies(s.tasks);
    SlicedIsPartsOf(bodies, c.partSize);
    AssembleJoined(s, |s.parts|);
    assert s.parts[..|s.parts|] == s.parts && bodies[..|s.parts|] == bodies;
    AllSucceededBytes(s.tasks);
  }

  /** A finished multipart upload stored and hashed what a single streamed PUT would have sent. */
  lemma SingleAndMultipartAgree(c: Config, s: State, chunks: seq<seq<byte>>)
    requires c.Valid() && Reachable(c, s) && s.finishes != [] && Concat(chunks) == c.input
    ensures var sent := Concat(CryptPieces(c.ks, 0, chunks));
            Assemble(s.stored, s.finishes[0].parts) == Some(sent) && s.finishes[0].hash == c.hash(sent)
  {
    FinishIsComplete(c, s);
    AnySplitIsOneStream(c.ks, 0, chunks);
  }

  lemma {:induction false} AllSucceededBytes(tasks: seq<Task>)
    requires forall t :: t in tasks ==> t.status.Succeeded?
    ensures Sum(SucceededBytes, tasks) == |Concat(Bodies(tasks))|
  {
    if tasks != [] {
      var n := |tasks| - 1;
      AllSucceededBytes(tasks[..n]);
      assert Bodies(tasks)[..n] == Bodies(tasks[..n]);
    }
  }

  /** Once a finish request was sent it stays the only one. */
  lemma FinishAtMostOnce(c: Config, s: State, a: Action)
    requires c.Valid() && Reachable(c, s) && Enabled(c, s, a)
    ensures |s.finishes| <= 1
    ensures s.finishes != [] ==> Apply(c, s, a).finishes == s.finishes
  {
    ReachableInv(c, s);
  }

  // ---- Bounded memory and permits -----------------------------------------

  /** Ciphertext in the part buffer, in the body waiting for a permit, and in live PUTs. */
  function HeldBytes(s: State): nat {
    |s.partBuf| + (if s.phase.Dispatching? then |s.phase.body| else 0) + Sum(LiveBytes, s.tasks)
  }

  lemma {:induction false} LiveBytesBound(tasks: seq<Task>, size: nat)
    requires forall t :: t in tasks ==> |t.body| <= size
    ensures Sum(LiveBytes, tasks) <= Sum(LiveOne, tasks) * size
  {
    if tasks != [] {
      var n := |tasks| - 1;
      LiveBytesBound(tasks[..n], size);
      var live := Sum(LiveOne, tasks[..n]);
      assert (live + 1) * size == live * size + size;
    }
  }

  lemma MemoryBounded(c: Config, s: State)
    requires c.Valid() && Reachable(c, s)
    ensures s.free + Sum(LiveOne, s.tasks) == c.permits
    ensures HeldBytes(s) < (c.permits + 1) * c.partSize + c.readChunk
  {
    ReachableInv(c, s);
    var live := Sum(LiveOne, s.tasks);
    LiveBytesBound(s.tasks, c.partSize);
    assert (c.permits + 1) * c.partSize == c.permits * c.partSize + c.partSize;
    if live < c.permits {
      MulGap(live, c.permits, c.partSize);
    }
  }

  // ---- No deadlock, and termination ---------------------------------------

  lemma {:induction false} LiveTask(tasks: seq<Task>) returns (i: nat)
    requires Sum(LiveOne, tasks) > 0
    ensures i < |tasks| && IsLive(tasks[i])
  {
    var n := |tasks| - 1;
    if IsLive(tasks[n]) {
      i := n;
    } else {
      i := LiveTask(tasks[..n]);
    }
  }

  lemma {:induction false} NoLiveTask(tasks: seq<Task>, i: nat)
    requires Sum(LiveOne, tasks) == 0 && i < |tasks|
    ensures !IsLive(tasks[i])
  {
    var n := |tasks| - 1;
    if i < n {
      NoLiveTask(tasks[..n], i);
    }
  }

  predicate AtRest(s: State) {
    s.phase.Returned? && Sum(LiveOne, s.tasks) == 0
  }

  /** The upload is stuck only when it has returned and no PUT is left running. */
  lemma NoDeadlock(c: Config, s: State)
    requires c.Valid() && Reachable(c, s)
    ensures (exists a :: Enabled(c, s, a)) <==> !AtRest(s)
  {
    ReachableInv(c, s);
    if Sum(LiveOne, s.tasks) > 0 {
      var i := LiveTask(s.tasks);
      assert Enabled(c, s, PutFails(i, None));
    } else {
      forall i: nat | i < |s.tasks|
        ensures !IsLive(s.tasks[i])
      {
        NoLiveTask(s.tasks, i);
      }
      if !s.phase.Returned? {
        var a := DispatcherStep(c, s);
      }
    }
  }

  /** With no PUT running, the dispatcher itself can always go on. */
  lemma DispatcherStep(c: Config, s: State) returns (a: Action)
    requires c.Valid() && Inv(c, s) && !s.phase.Returned? && Sum(LiveOne, s.tasks) == 0
    ensures Enabled(c, s, a) && !Settles(a) && !a.ReadFails? && (a.Finish? ==> a.ok)
  {
    match s.phase
    case Reading => a := if s.consumed < |c.input| then Read(1) else ReadEnd;
    case Slicing => a := if |s.partBuf| >= c.partSize then Slice else SliceDone;
    case Dispatching(_, _) => a := if s.partNumber > c.urls then UrlMissing else Spawn;
    case Joining =>
      if |s.parts| < |s.tasks| {
        NoLiveTask(s.tasks, |s.parts|);
        a := if s.tasks[|s.parts|].status.Succeeded? then Join else JoinFails;
      } else {
        a := Finish(true);
      }
    case Aborting(next) => a := if next < |s.tasks| then AbortNext else AbortsDone;
  }

  function Unread(c: Config, s: State): nat {
    if s.consumed <= |c.input| then |c.input| - s.consumed else 0
  }

  function Undispatched(s: State): nat {
    |s.partBuf| + if s.phase.Dispatching? then |s.phase.body| else 0
  }

  function Rank(s: State): nat {
    match s.phase
    case Slicing => 5
    case Reading => 4
    case Dispatching(_, _) => 3
    case Joining => 2
    case Aborting(_) => 1
    case Returned(_) => 0
  }

  function Unjoined(s: State): nat {
    if s.phase.Joining? && |s.parts| <= |s.tasks| then |s.tasks| - |s.parts|
    else if s.phase.Aborting? && s.phase.next <= |s.tasks| then |s.tasks| - s.phase.next
    else 0
  }

  /** (unread bytes, undispatched bytes, PUTs pending, phase, handles unjoined), lexicographic. */
  ghost predicate Decreases(c: Config, s: State, t: State) {
    var (u, d, p, r, j) := (Unread(c, s), Undispatched(s), Sum(Pending, s.tasks), Rank(s), Unjoined(s));
    var (u', d', p', r', j') := (Unread(c, t), Undispatched(t), Sum(Pending, t.tasks), Rank(t), Unjoined(t));
    u' < u || (u' == u && (d' < d || (d' == d && (p' < p || (p' == p && (r' < r || (r' == r && j' < j)))))))
  }

  lemma TaskStepDecreases(c: Config, s: State, a: Action)
    requires Enabled(c, s, a) && Settles(a)
    ensures Decreases(c, s, Apply(c, s, a))
  {
    SumUpdate(Pending, s.tasks, a.i, Apply(c, s, a).tasks[a.i]);
  }

  lemma AbortDecreases(c: Config, s: State)
    requires Enabled(c, s, AbortNext)
    ensures Decreases(c, s, Apply(c, s, AbortNext))
  {
    var i := s.phase.next;
    if s.tasks[i].status.Running? {
      SumUpdate(Pending, s.tasks, i, Apply(c, s, AbortNext).tasks[i]);
    }
  }

  lemma DispatcherStepDecreases(c: Config, s: State, a: Action)
    requires c.Valid() && s.consumed <= |c.input| && Enabled(c, s, a) && !Settles(a) && !a.AbortNext?
    requires s.phase.Dispatching? ==> s.phase.body != []
    ensures Decreases(c, s, Apply(c, s, a))
  {
  }

  lemma StepDecreases(c: Config, s: State, a: Action)
    requires c.Valid() && Reachable(c, s) && Enabled(c, s, a)
    ensures Decreases(c, s, Apply(c, s, a))
  {
    ReachableInv(c, s);
    if Settles(a) {
      TaskStepDecreases(c, s, a);
    } else if a.AbortNext? {
      AbortDecreases(c, s);
    } else {
      DispatcherStepDecreases(c, s, a);
    }
  }

  /** No infinite sequence of steps: every run comes to rest, whatever is scheduled. */
  lemma {:induction false} NoInfiniteRun(c: Config, run: nat -> State, n: nat)
    requires c.Valid() && Reachable(c, run(n))
    ensures exists i: nat :: i >= n && !Next(c, run(i), run(i + 1))
    decreases Unread(c, run(n)), Undispatched(run(n)), Sum(Pending, run(n).tasks), Rank(run(n)), Unjoined(run(n))
  {
    if Next(c, run(n), run(n + 1)) {
      var a :| Enabled(c, run(n), a) && run(n + 1) == Apply(c, run(n), a);
      StepReachable(c, run(n), a);
      StepDecreases(c, run(n), a);
      NoInfiniteRun(c, run, n + 1);
    }
  }

  // ---- Part slots ---------------------------------------------------------

  /** The slots asked for: `size.div_ceil(PART_SIZE) as u32`. */
  function NumParts(size: nat, partSize: nat): nat
    requires partSize > 0
  {
    DivCeil(size, partSize) % U32_LIMIT
  }

  lemma {:induction false} FullBytes(tasks: seq<Task>, size: nat)
    requires forall t :: t in tasks ==> |t.body| == size
    ensures |Concat(Bodies(tasks))| == |tasks| * size
  {
    if tasks != [] {
      var n := |tasks| - 1;
      FullBytes(tasks[..n], size);
      assert Bodies(tasks)[..n] == Bodies(tasks[..n]);
      assert (n + 1) * size == n * size + size;
    }
  }

  lemma DispatchedIsFront(c: Config, s: State)
    requires PhaseInv(c, s)
    ensures Concat(Bodies(s.tasks)) <= s.absorbed
  {
    if s.phase.Dispatching? {
      PlusAssociates(Concat(Bodies(s.tasks)), s.phase.body, s.partBuf);
    }
  }

  lemma AbsorbedIsFront(c: Config, s: State)
    requires StreamInv(c, s)
    ensures s.absorbed <= c.Ciphertext()
  {
    var a, b := c.input[..s.consumed], c.input[s.consumed..];
    assert c.input == a + b;
    CryptPlus(c.ks, 0, a, b);
  }

  /**
   The parts dispatched so far are a proper slicing of a front of the ciphertext; at the head of the
   read loop they are all full and the buffer holds less than one part.
   */
  lemma PartsAreSlices(c: Config, s: State)
    requires c.Valid() && Reachable(c, s)
    ensures Sliced(Bodies(s.tasks), c.partSize)
    ensures Concat(Bodies(s.tasks)) <= s.absorbed <= c.Ciphertext()
    ensures s.phase.Reading? ==>
      && |s.partBuf| < c.partSize
      && |Concat(Bodies(s.tasks))| == |s.tasks| * c.partSize
      && Concat(Bodies(s.tasks)) + s.partBuf == s.absorbed
  {
    ReachableInv(c, s);
    DispatchedIsFront(c, s);
    AbsorbedIsFront(c, s);
    if s.phase.Reading? {
      FullBytes(s.tasks, c.partSize);
    }
  }

  /** Every url lookup succeeds when the input fits into the slots the server returned. */
  lemma EveryUrlFound(c: Config, s: State)
    requires c.Valid() && Reachable(c, s) && |c.input| <= c.urls * c.partSize
    ensures !Enabled(c, s, UrlMissing)
  {
    if s.phase.Dispatching? {
      WaitingPart(c, s);
      if s.partNumber > c.urls {
        MulMonotone(c.urls, |s.tasks|, c.partSize);
      }
    }
  }

  /** A part that waits for a permit comes behind full parts. */
  lemma WaitingPart(c: Config, s: State)
    requires c.Valid() && Reachable(c, s) && s.phase.Dispatching?
    ensures s.partNumber == |s.tasks| + 1 && |s.tasks| * c.partSize < |c.input|
  {
    ReachableInv(c, s);
    FullBytes(s.tasks, c.partSize);
  }

  /** An upload that ran out of urls had more input than its slots hold. */
  lemma NoUrlMeansOverflow(c: Config, s: State)
    requires c.Valid() && Reachable(c, s) && s.phase == Returned(NoUrl)
    ensures |c.input| > c.urls * c.partSize
    ensures s.finishes == []
  {
    ReachableInv(c, s);
    FullBytes(s.tasks, c.partSize);
  }

  /** The upload can finish only if the input fits into the slots. */
  lemma FinishNeedsSlots(c: Config, s: State)
    requires c.Valid() && Reachable(c, s) && s.finishes != []
    ensures |s.tasks| == DivCeil(|c.input|, c.partSize)
    ensures |c.input| <= c.urls * c.partSize
  {
    ReachableInv(c, s);
    FinishIsComplete(c, s);
    PartCount(c.Ciphertext(), c.partSize);
    DivCeilAtMost(|c.input|, c.partSize, c.urls);
  }

  ghost predicate Healthy(s: State) {
    && (s.phase.Reading? || s.phase.Slicing? || s.phase.Dispatching? || s.phase.Joining?)
    && forall i :: 0 <= i < |s.tasks| ==> s.tasks[i].status.Running? || s.tasks[i].status.Succeeded?
  }

  lemma HealthyStep(c: Config, s: State) returns (a: Action)
    requires c.Valid() && Reachable(c, s) && Healthy(s) && |c.input| <= c.urls * c.partSize
    ensures Enabled(c, s, a) && (a == Finish(true) || Healthy(Apply(c, s, a)))
  {
    if Sum(LiveOne, s.tasks) > 0 {
      var i := LiveTask(s.tasks);
      a := PutSucceeds(i, "");
    } else {
      ReachableInv(c, s);
      a := DispatcherStep(c, s);
      EveryUrlFound(c, s);
    }
  }

  /** As long as nothing has failed, the upload can still be driven to success. */
  lemma {:induction false} FinishFrom(c: Config, s: State) returns (t: State)
    requires c.Valid() && Reachable(c, s) && Healthy(s) && |c.input| <= c.urls * c.partSize
    ensures Reachable(c, t) && t.phase == Returned(Finished(true))
    decreases Unread(c, s), Undispatched(s), Sum(Pending, s.tasks), Rank(s), Unjoined(s)
  {
    var a := HealthyStep(c, s);
    t := Took(c, s, a);
    if !a.Finish? {
      StepDecreases(c, s, a);
      t := FinishFrom(c, t);
    }
  }

  /** Some schedule finishes the upload exactly when the input fits into the slots. */
  lemma CanFinishIffFits(c: Config)
    requires c.Valid()
    ensures (exists s :: Reachable(c, s) && s.phase == Returned(Finished(true)))
       <==> |c.input| <= c.urls * c.partSize
  {
    if |c.input| <= c.urls * c.partSize {
      InitReachable(c);
      var s := FinishFrom(c, Init(c));
    }
    forall s | Reachable(c, s) && s.phase == Returned(Finished(true))
      ensures |c.input| <= c.urls * c.partSize
    {
      ReachableInv(c, s);
      FinishNeedsSlots(c, s);
    }
  }

  /**
   For a reader that yields the announced size, below 2^32 parts, the slots asked for are exactly
   enough: one fewer and the input does not fit.
   */
  lemma SlotsMatchSize(size: nat, partSize: nat, urls: nat)
    requires partSize > 0 && DivCeil(size, partSize) < U32_LIMIT
    ensures size <= urls * partSize <==> NumParts(size, partSize) <= urls
  {
    DivCeilAtMost(size, partSize, urls);
  }

  /** From 2^32 parts on, the number asked for is what is left of it in 32 bits. */
  lemma SlotsWrapAround(size: nat, partSize: nat) returns (q: nat)
    requires partSize > 0
    ensures NumParts(size, partSize) < 0x1_0000_0000
    ensures DivCeil(size, partSize) == q * 0x1_0000_0000 + NumParts(size, partSize)
  {
    q := DivCeil(size, partSize) / U32_LIMIT;
  }

  // ---- Failure of a part --------------------------------------------------

  /**
   After a join failure: every handle before the failed one was joined as a success, the failed one
   is the first in join order, every later PUT is cancelled or already over, and no finish
   request was sent.
   */
  lemma JoinFailure(c: Config, s: State)
    requires c.Valid() && Reachable(c, s) && s.phase == Returned(PartError)
    ensures |s.parts| < |s.tasks| && s.tasks[|s.parts|].status.Failed?
    ensures forall k :: 0 <= k < |s.parts| ==> s.tasks[k].status.Succeeded?
    ensures forall k :: |s.parts| < k < |s.tasks| ==> !s.tasks[k].status.Running?
    ensures s.finishes == []
  {
    ReachableInv(c, s);
  }

  /** In every state the progress reported is what the successful PUTs carried. */
  lemma ProgressIsUploaded(c: Config, s: State)
    requires c.Valid() && Reachable(c, s)
    ensures s.progress == Sum(SucceededBytes, s.tasks) <= |c.input|
  {
    ReachableInv(c, s);
    SucceededAtMostAll(s.tasks);
  }

  lemma {:induction false} SucceededAtMostAll(tasks: seq<Task>)
    ensures Sum(SucceededBytes, tasks) <= |Concat(Bodies(tasks))|
  {
    if tasks != [] {
      var n := |tasks| - 1;
      SucceededAtMostAll(tasks[..n]);
      assert Bodies(tasks)[..n] == Bodies(tasks[..n]);
    }
  }

  /** An upload that has not got as far as finishing never sends a finish request. */
  lemma NoFinishOnError(c: Config, s: State)
    requires c.Valid() && Reachable(c, s)
    ensures s.finishes != [] <==> s.phase.Returned? && s.phase.outcome.Finished?
  {
    ReachableInv(c, s);
  }

  // ---- PUTs that outlive the upload ---------------------------------------

  ghost predicate LeavesPut(s: State) {
    s.phase.Returned? && exists i :: 0 <= i < |s.tasks| && s.tasks[i].status.Running?
  }

  /** An uncancelled PUT left behind is that of a full part, and the join was never reached. */
  lemma PutsLeftRunning(c: Config, s: State)
    requires c.Valid() && Reachable(c, s) && LeavesPut(s)
    ensures s.phase.outcome.ReadError? || s.phase.outcome.NoUrl?
    ensures c.urls >= 1 && |c.input| >= c.partSize
    ensures s.phase.outcome.NoUrl? ==> |c.input| > c.urls * c.partSize
  {
    LeavesPutBefore(c, s);
    FullPartsRead(c, s);
    MulMonotone(1, |s.tasks|, c.partSize);
    if s.phase.outcome.NoUrl? {
      NoUrlMeansOverflow(c, s);
    }
  }

  lemma LeavesPutBefore(c: Config, s: State)
    requires c.Valid() && Reachable(c, s) && LeavesPut(s)
    ensures s.phase.outcome.ReadError? || s.phase.outcome.NoUrl?
    ensures 1 <= |s.tasks| <= c.urls
  {
    ReachableInv(c, s);
  }

  lemma FullPartsRead(c: Config, s: State)
    requires c.Valid() && Reachable(c, s) && (s.phase == Returned(ReadError) || s.phase == Returned(NoUrl))
    ensures |s.tasks| * c.partSize <= |c.input|
  {
    ReachableInv(c, s);
    FullBytes(s.tasks, c.partSize);
  }

  lemma BufferedAtRead(c: Config, s: State)
    requires c.Valid() && Reachable(c, s) && s.phase.Reading?
    ensures |s.tasks| * c.partSize + |s.partBuf| == s.consumed && |s.partBuf| < c.partSize
    ensures s.partNumber == |s.tasks| + 1
  {
    ReachableInv(c, s);
    PartsAreSlices(c, s);
  }

  ghost predicate LastRuns(s: State) {
    s.tasks != [] ==> s.tasks[|s.tasks| - 1].status.Running?
  }

  /** Waits for a permit. */
  lemma PermitFreed(c: Config, s: State) returns (t: State)
    requires c.Valid() && Reachable(c, s)
    ensures Reachable(c, t) && t.free > 0 && |t.tasks| == |s.tasks|
    ensures t == s.(tasks := t.tasks, free := t.free, progress := t.progress, stored := t.stored)
  {
    t := s;
    ReachableInv(c, s);
    if s.free == 0 {
      var i := LiveTask(s.tasks);
      t := Took(c, s, PutSucceeds(i, ""));
    }
  }

  /** One byte further, with the PUT of the newest part still running. */
  lemma ReadOne(c: Config, s: State) returns (t: State)
    requires c.Valid() && Reachable(c, s) && s.phase.Reading? && LastRuns(s)
    requires s.consumed < |c.input| && s.consumed < c.urls * c.partSize
    ensures Reachable(c, t) && t.phase.Reading? && LastRuns(t) && t.consumed == s.consumed + 1
  {
    BufferedAtRead(c, s);
    t := Took(c, s, Read(1));
    if |t.partBuf| >= c.partSize {
      if c.urls < s.partNumber {
        MulMonotone(c.urls, |s.tasks|, c.partSize);
      }
      t := Took(c, t, Slice);
      t := PermitFreed(c, t);
      t := Took(c, t, Spawn);
    }
    t := Took(c, t, SliceDone);
  }

  lemma MulMonotone(p: nat, q: nat, d: nat)
    requires p <= q
    ensures p * d <= q * d
  {
    if p < q {
      MulGap(p, q, d);
    }
  }

  lemma {:induction false} ReadTo(c: Config, n: nat) returns (s: State)
    requires c.Valid() && n <= |c.input| && n <= c.urls * c.partSize
    ensures Reachable(c, s) && s.phase.Reading? && LastRuns(s) && s.consumed == n
  {
    if n == 0 {
      s := Init(c);
      InitReachable(c);
    } else {
      s := ReadTo(c, n - 1);
      s := ReadOne(c, s);
    }
  }

  /** With all urls used, what is left of the input runs into the missing one. */
  lemma {:induction false} RunsOut(c: Config, s: State) returns (t: State)
    requires c.Valid() && Reachable(c, s) && s.phase.Reading? && s.tasks != [] && LastRuns(s)
    requires |s.tasks| == c.urls && (s.partBuf != [] || s.consumed < |c.input|)
    ensures Reachable(c, t) && t.phase == Returned(NoUrl) && LeavesPut(t)
    decreases |c.input| - s.consumed
  {
    ReachableInv(c, s);
    if s.consumed == |c.input| {
      t := Took(c, s, ReadEnd);
      t := Took(c, t, UrlMissing);
      return;
    }
    t := Took(c, s, Read(1));
    if |t.partBuf| >= c.partSize {
      t := Took(c, t, Slice);
      t := Took(c, t, UrlMissing);
    } else {
      t := Took(c, t, SliceDone);
      t := RunsOut(c, t);
    }
  }

  lemma ReadErrorLeavesPut(c: Config) returns (s: State)
    requires c.Valid() && c.urls >= 1 && |c.input| >= c.partSize
    ensures Reachable(c, s) && s.phase == Returned(ReadError) && LeavesPut(s)
  {
    MulMonotone(1, c.urls, c.partSize);
    s := ReadTo(c, c.partSize);
    BufferedAtRead(c, s);
    s := Took(c, s, ReadFails);
  }

  lemma MissingUrlLeavesPut(c: Config) returns (s: State)
    requires c.Valid() && c.urls >= 1 && |c.input| > c.urls * c.partSize
    ensures Reachable(c, s) && s.phase == Returned(NoUrl) && LeavesPut(s)
  {
    s := ReadTo(c, c.urls * c.partSize);
    BufferedAtRead(c, s);
    SameQuotient(|s.tasks|, |s.partBuf|, c.urls, 0, c.partSize);
    s := RunsOut(c, s);
  }

  /**
   An upload can return with an uncancelled PUT exactly when it has a url and one full part of
   input. A read error can then do it, and a missing url can exactly when the input also exceeds
   the urls; no other return can.
   */
  lemma LeavesPutIff(c: Config)
    requires c.Valid()
    ensures (exists s :: Reachable(c, s) && LeavesPut(s)) <==> c.urls >= 1 && |c.input| >= c.partSize
    ensures (exists s :: Reachable(c, s) && LeavesPut(s) && s.phase == Returned(ReadError))
       <==> c.urls >= 1 && |c.input| >= c.partSize
    ensures (exists s :: Reachable(c, s) && LeavesPut(s) && s.phase == Returned(NoUrl))
       <==> c.urls >= 1 && |c.input| > c.urls * c.partSize
    ensures forall s :: Reachable(c, s) && LeavesPut(s) ==> s.phase.outcome.ReadError? || s.phase.outcome.NoUrl?
  {
    forall s | Reachable(c, s) && LeavesPut(s)
      ensures s.phase.outcome.ReadError? || s.phase.outcome.NoUrl?
      ensures c.urls >= 1 && |c.input| >= c.partSize
      ensures s.phase.outcome.NoUrl? ==> |c.input| > c.urls * c.partSize
    {
      PutsLeftRunning(c, s);
    }
    if c.urls >= 1 && |c.input| >= c.partSize {
      var s := ReadErrorLeavesPut(c);
    }
    if c.urls >= 1 && |c.input| > c.urls * c.partSize {
      var s := MissingUrlLeavesPut(c);
    }
  }

  lemma Took(c: Config, s: State, a: Action) returns (t: State)
    requires Reachable(c, s) && Enabled(c, s, a)
    ensures Reachable(c, t) && t == Apply(c, s, a)
  {
    t := Apply(c, s, a);
    StepReachable(c, s, a);
  }
}
