/**
 The multipart upload of `src/transfer.rs` as a transition system.

 One dispatcher reads, encrypts, slices and spawns; every spawned PUT runs concurrently and may
 settle at any moment, in any order. A run interleaves the steps of the dispatcher with those of
 the PUT tasks. `Config.input` is the byte sequence that the reader yields before its end.
 */
module Multipart {
  import opened Bytes
  import opened CtrMode
  import opened StableSort

  datatype Config = Config(
    partSize: nat,
    readChunk: nat,
    permits: nat,
    urls: nat,
    ks: Keystream,
    hash: seq<byte> -> seq<byte>,
    input: seq<byte>
  ) {
    ghost predicate Valid() {
      0 < partSize && 0 < readChunk && 0 < permits
    }

    function Ciphertext(): seq<byte> {
      Crypt(ks, 0, input)
    }
  }

  /** `Cancelling`: `abort` was called, but the task may still complete its last poll. */
  datatype Status = Running | Cancelling | Succeeded(etag: string) | Failed | Aborted

  datatype Task = Task(part: nat, body: seq<byte>, status: Status)
  datatype PartRef = PartRef(partNumber: nat, etag: string)
  datatype StoredPart = StoredPart(body: seq<byte>, etag: string)
  datatype FinishRequest = FinishRequest(hash: seq<byte>, parts: seq<PartRef>)

  datatype Outcome = Finished(ok: bool) | ReadError | NoUrl | PartError

  datatype Phase =
    | Reading                                  // at the read of the outer loop
    | Slicing                                  // at the test of the inner loop
    | Dispatching(body: seq<byte>, last: bool) // in `dispatch_part`, before the permit
    | Joining                                  // awaiting the handle of part |parts| + 1
    | Aborting(next: nat)                      // in the abort loop, at handle `next`
    | Returned(outcome: Outcome)

  datatype State = State(
    phase: Phase,
    consumed: nat,
    partBuf: seq<byte>,
    absorbed: seq<byte>,
    partNumber: nat,
    tasks: seq<Task>,
    free: nat,
    parts: seq<PartRef>,
    progress: nat,
    stored: map<nat, StoredPart>,
    finishes: seq<FinishRequest>
  )

  function Init(c: Config): State {
    State(Reading, 0, [], [], 1, [], c.permits, [], 0, map[], [])
  }

  /**
   `kept` on a PUT that does not succeed is the ETag under which the storage kept the body
   although the client never saw the reply.
   */
  datatype Action =
    | Read(n: nat)
    | ReadEnd
    | ReadFails
    | Slice
    | SliceDone
    | UrlMissing
    | Spawn
    | PutSucceeds(i: nat, etag: string)
    | PutFails(i: nat, kept: Option<string>)
    | AbortLands(i: nat, kept: Option<string>)
    | Join
    | JoinFails
    | AbortNext
    | AbortsDone
    | Finish(ok: bool)

  predicate IsLive(t: Task) {
    t.status.Running? || t.status.Cancelling?
  }

  predicate Enabled(c: Config, s: State, a: Action) {
    match a
    case Read(n) =>
      s.phase.Reading? && 0 < n <= c.readChunk && s.consumed + n <= |c.input|
    case ReadEnd => s.phase.Reading? && s.consumed == |c.input|
    case ReadFails => s.phase.Reading?
    case Slice => s.phase.Slicing? && |s.partBuf| >= c.partSize
    case SliceDone => s.phase.Slicing? && |s.partBuf| < c.partSize
    case UrlMissing => s.phase.Dispatching? && s.partNumber > c.urls
    case Spawn => s.phase.Dispatching? && s.partNumber <= c.urls && s.free > 0
    case PutSucceeds(i, _) => i < |s.tasks| && IsLive(s.tasks[i])
    case PutFails(i, _) => i < |s.tasks| && IsLive(s.tasks[i])
    case AbortLands(i, _) => i < |s.tasks| && s.tasks[i].status.Cancelling?
    case Join =>
      s.phase.Joining? && |s.parts| < |s.tasks| && s.tasks[|s.parts|].status.Succeeded?
    case JoinFails =>
      s.phase.Joining? && |s.parts| < |s.tasks| && s.tasks[|s.parts|].status.Failed?
    case AbortNext => s.phase.Aborting? && s.phase.next < |s.tasks|
    case AbortsDone => s.phase.Aborting? && s.phase.next >= |s.tasks|
    case Finish(_) => s.phase.Joining? && |s.parts| >= |s.tasks|
  }

  function ByPartNumber(p: PartRef): int {
    p.partNumber
  }

  /** Task `i` ends with `status`, its permit returns, and the storage may keep the body. */
  function Settle(s: State, i: nat, status: Status, kept: Option<string>): State
    requires i < |s.tasks|
  {
    var t := s.tasks[i];
    s.(tasks := s.tasks[i := t.(status := status)],
       free := s.free + 1,
       stored := if kept.Some? then s.stored[t.part := StoredPart(t.body, kept.value)] else s.stored)
  }

  function Apply(c: Config, s: State, a: Action): State
    requires Enabled(c, s, a)
  {
    match a
    case Read(n) =>
      var chunk := Crypt(c.ks, s.consumed, c.input[s.consumed..s.consumed + n]);
      s.(phase := Slicing, consumed := s.consumed + n,
         absorbed := s.absorbed + chunk, partBuf := s.partBuf + chunk)
    case ReadEnd =>
      if s.partBuf == [] then s.(phase := Joining)
      else s.(phase := Dispatching(s.partBuf, true), partBuf := [])
    case ReadFails => s.(phase := Returned(ReadError))
    case Slice =>
      s.(phase := Dispatching(s.partBuf[..c.partSize], false), partBuf := s.partBuf[c.partSize..])
    case SliceDone => s.(phase := Reading)
    case UrlMissing => s.(phase := Returned(NoUrl))
    case Spawn =>
      s.(phase := if s.phase.last then Joining else Slicing,
         free := s.free - 1,
         tasks := s.tasks + [Task(s.partNumber, s.phase.body, Running)],
         partNumber := if s.phase.last then s.partNumber else s.partNumber + 1)
    case PutSucceeds(i, etag) =>
      Settle(s, i, Succeeded(etag), Some(etag)).(progress := s.progress + |s.tasks[i].body|)
    case PutFails(i, kept) => Settle(s, i, Failed, kept)
    case AbortLands(i, kept) => Settle(s, i, Aborted, kept)
    case Join =>
      var t := s.tasks[|s.parts|];
      s.(parts := s.parts + [PartRef(t.part, t.status.etag)])
    case JoinFails => s.(phase := Aborting(|s.parts| + 1))
    case AbortNext =>
      var i := s.phase.next;
      var t := s.tasks[i];
      s.(phase := Aborting(i + 1),
         tasks := if t.status.Running? then s.tasks[i := t.(status := Cancelling)] else s.tasks)
    case AbortsDone => s.(phase := Returned(PartError))
    case Finish(ok) =>
      s.(phase := Returned(Finished(ok)),
         finishes := s.finishes + [FinishRequest(c.hash(s.absorbed), SortByKey(ByPartNumber, s.parts))])
  }

  ghost predicate Next(c: Config, s: State, t: State) {
    exists a :: Enabled(c, s, a) && t == Apply(c, s, a)
  }

  /** A finite run of the upload from its initial state. */
  ghost predicate IsRun(c: Config, run: seq<State>) {
    && run != []
    && run[0] == Init(c)
    && forall i :: 0 <= i < |run| - 1 ==> Next(c, run[i], run[i + 1])
  }

  /**
   What the storage assembles for a finish request: it accepts a list of ascending part numbers
   whose ETags are the ones it returned for the bodies it holds, and joins those bodies.
   */
  function Assemble(stored: map<nat, StoredPart>, parts: seq<PartRef>): Option<seq<byte>> {
    if parts == [] then Some([])
    else
      var n := |parts| - 1;
      var p := parts[n];
      var front := Assemble(stored, parts[..n]);
      if front.None? || p.partNumber !in stored || stored[p.partNumber].etag != p.etag
         || (n > 0 && parts[n - 1].partNumber >= p.partNumber) then None
      else Some(front.value + stored[p.partNumber].body)
  }

  // ---- Sums over the task list --------------------------------------------

  function Sum(f: Task -> nat, tasks: seq<Task>): nat {
    if tasks == [] then 0 else Sum(f, tasks[..|tasks| - 1]) + f(tasks[|tasks| - 1])
  }

  function LiveOne(t: Task): nat {
    if IsLive(t) then 1 else 0
  }

  function LiveBytes(t: Task): nat {
    if IsLive(t) then |t.body| else 0
  }

  function SucceededBytes(t: Task): nat {
    if t.status.Succeeded? then |t.body| else 0
  }

  /** Steps a PUT task can still take. */
  function Pending(t: Task): nat {
    if t.status.Running? then 2 else if t.status.Cancelling? then 1 else 0
  }

  function Bodies(tasks: seq<Task>): seq<seq<byte>> {
    seq(|tasks|, i requires 0 <= i < |tasks| => tasks[i].body)
  }

  lemma SumSnoc(f: Task -> nat, tasks: seq<Task>, t: Task)
    ensures Sum(f, tasks + [t]) == Sum(f, tasks) + f(t)
  {
    assert (tasks + [t])[..|tasks|] == tasks;
  }

  lemma {:induction false} SumUpdate(f: Task -> nat, tasks: seq<Task>, i: nat, t: Task)
    requires i < |tasks|
    ensures Sum(f, tasks[i := t]) + f(tasks[i]) == Sum(f, tasks) + f(t)
  {
    var n := |tasks| - 1;
    if i == n {
      assert tasks[i := t][..n] == tasks[..n];
    } else {
      SumUpdate(f, tasks[..n], i, t);
      assert tasks[i := t][..n] == tasks[..n][i := t];
    }
  }

  // ---- The invariant ------------------------------------------------------

  ghost predicate StreamInv(c: Config, s: State) {
    && s.consumed <= |c.input|
    && s.absorbed == Crypt(c.ks, 0, c.input[..s.consumed])
  }

  /** Part numbers follow the task order, and the parts so far are properly sliced. */
  ghost predicate TaskInv(c: Config, s: State) {
    && |s.tasks| <= c.urls
    && (forall i :: 0 <= i < |s.tasks| ==>
          && s.tasks[i].part == i + 1
          && 0 < |s.tasks[i].body| <= c.partSize
          && (i < |s.tasks| - 1 ==> |s.tasks[i].body| == c.partSize))
  }

  ghost predicate AllFull(c: Config, s: State) {
    && s.partNumber == |s.tasks| + 1
    && (forall i :: 0 <= i < |s.tasks| ==> |s.tasks[i].body| == c.partSize)
  }

  ghost predicate AllDispatched(c: Config, s: State) {
    && s.consumed == |c.input|
    && Concat(Bodies(s.tasks)) == s.absorbed
  }

  /** Where the ciphertext read so far is: dispatched, waiting for a permit, or buffered. */
  ghost predicate PhaseInv(c: Config, s: State) {
    var sent := Concat(Bodies(s.tasks));
    match s.phase
    case Reading =>
      && AllFull(c, s)
      && sent + s.partBuf == s.absorbed
      && |s.partBuf| < c.partSize
    case Slicing =>
      && AllFull(c, s)
      && sent + s.partBuf == s.absorbed
      && |s.partBuf| < c.partSize + c.readChunk
    case Dispatching(body, last) =>
      && AllFull(c, s)
      && sent + body + s.partBuf == s.absorbed
      && |body| + |s.partBuf| < c.partSize + c.readChunk
      && if last then 0 < |body| < c.partSize && s.partBuf == [] && s.consumed == |c.input|
         else |body| == c.partSize
    case Joining => AllDispatched(c, s) && s.partBuf == []
    case Aborting(_) => AllDispatched(c, s) && s.partBuf == []
    case Returned(o) =>
      && (o.Finished? || o.PartError? ==> AllDispatched(c, s) && s.partBuf == [])
      && (o.ReadError? || o.NoUrl? ==>
            AllFull(c, s) && sent <= s.absorbed && |s.partBuf| < c.partSize + c.readChunk)
      && (o.NoUrl? ==> |s.tasks| == c.urls && |sent| < |s.absorbed|)
  }

  ghost predicate CountInv(c: Config, s: State) {
    && s.free + Sum(LiveOne, s.tasks) == c.permits
    && s.progress == Sum(SucceededBytes, s.tasks)
  }

  /** Every part whose PUT succeeded is held under the ETag its own body was given. */
  ghost predicate StoredInv(s: State) {
    forall i :: 0 <= i < |s.tasks| && s.tasks[i].status.Succeeded? ==>
      && i + 1 in s.stored
      && s.stored[i + 1] == StoredPart(s.tasks[i].body, s.tasks[i].status.etag)
  }

  ghost predicate JoinInv(s: State) {
    && |s.parts| <= |s.tasks|
    && (forall k :: 0 <= k < |s.parts| ==>
          && s.tasks[k].status.Succeeded?
          && s.parts[k] == PartRef(k + 1, s.tasks[k].status.etag))
    && (s.phase.Reading? || s.phase.Slicing? || s.phase.Dispatching? ==> s.parts == [])
  }

  /** The first failed handle stopped the join, and handles up to `upTo` behind it were aborted. */
  ghost predicate FailedAt(s: State, upTo: nat) {
    && |s.parts| < upTo <= |s.tasks|
    && s.tasks[|s.parts|].status.Failed?
    && forall i :: |s.parts| < i < upTo ==> !s.tasks[i].status.Running?
  }

  ghost predicate AbortInv(s: State) {
    && (s.phase.Aborting? ==> FailedAt(s, s.phase.next))
    && (s.phase == Returned(PartError) ==> FailedAt(s, |s.tasks|))
    && (forall i :: 0 <= i < |s.tasks| && (s.tasks[i].status.Cancelling? || s.tasks[i].status.Aborted?) ==>
          s.phase.Aborting? || s.phase == Returned(PartError))
  }

  ghost predicate FinishInv(c: Config, s: State) {
    if s.phase.Returned? && s.phase.outcome.Finished?
    then |s.parts| == |s.tasks| && s.finishes == [FinishRequest(c.hash(s.absorbed), s.parts)]
    else s.finishes == []
  }

  ghost predicate Inv(c: Config, s: State) {
    && StreamInv(c, s)
    && TaskInv(c, s)
    && PhaseInv(c, s)
    && CountInv(c, s)
    && StoredInv(s)
    && JoinInv(s)
    && AbortInv(s)
    && FinishInv(c, s)
  }

  // ---- Every step keeps the invariant -------------------------------------

  lemma InitInv(c: Config)
    requires c.Valid()
    ensures Inv(c, Init(c))
  {
  }

  lemma ReadKeepsInv(c: Config, s: State, n: nat)
    requires c.Valid() && Inv(c, s) && Enabled(c, s, Read(n))
    ensures Inv(c, Apply(c, s, Read(n)))
  {
    var a, b := c.input[..s.consumed], c.input[s.consumed..s.consumed + n];
    CryptPlus(c.ks, 0, a, b);
    assert c.input[..s.consumed + n] == a + b;
    var t := Apply(c, s, Read(n));
    assert t.tasks == s.tasks;
    assert Concat(Bodies(s.tasks)) + (s.partBuf + Crypt(c.ks, s.consumed, b))
        == (Concat(Bodies(s.tasks)) + s.partBuf) + Crypt(c.ks, s.consumed, b);
  }

  lemma SliceKeepsInv(c: Config, s: State)
    requires c.Valid() && Inv(c, s) && Enabled(c, s, Slice)
    ensures Inv(c, Apply(c, s, Slice))
  {
    var sent, body, rest := Concat(Bodies(s.tasks)), s.partBuf[..c.partSize], s.partBuf[c.partSize..];
    assert s.partBuf == body + rest;
    assert sent + s.partBuf == sent + body + rest;
  }

  lemma ReadEndKeepsInv(c: Config, s: State)
    requires c.Valid() && Inv(c, s) && Enabled(c, s, ReadEnd)
    ensures Inv(c, Apply(c, s, ReadEnd))
  {
    var sent := Concat(Bodies(s.tasks));
    assert sent + [] == sent;
    assert sent + s.partBuf + [] == sent + s.partBuf;
  }

  lemma LeaveKeepsInv(c: Config, s: State, a: Action)
    requires c.Valid() && Inv(c, s) && Enabled(c, s, a)
    requires a.ReadFails? || a.SliceDone? || a.UrlMissing?
    ensures Inv(c, Apply(c, s, a))
  {
    if a.UrlMissing? {
      var sent := Concat(Bodies(s.tasks));
      assert sent + s.phase.body + s.partBuf == sent + (s.phase.body + s.partBuf);
    }
  }

  lemma SpawnKeepsCounts(c: Config, s: State)
    requires CountInv(c, s) && Enabled(c, s, Spawn)
    ensures CountInv(c, Apply(c, s, Spawn))
  {
    var task := Task(s.partNumber, s.phase.body, Running);
    SumSnoc(LiveOne, s.tasks, task);
    SumSnoc(SucceededBytes, s.tasks, task);
  }

  lemma SpawnKeepsBytes(c: Config, s: State)
    requires c.Valid() && TaskInv(c, s) && PhaseInv(c, s) && Enabled(c, s, Spawn)
    ensures TaskInv(c, Apply(c, s, Spawn)) && PhaseInv(c, Apply(c, s, Spawn))
  {
    var task := Task(s.partNumber, s.phase.body, Running);
    var t := Apply(c, s, Spawn);
    assert Bodies(t.tasks) == Bodies(s.tasks) + [task.body];
    ConcatSnoc(Bodies(s.tasks), task.body);
  }

  lemma SpawnKeepsRest(c: Config, s: State)
    requires Enabled(c, s, Spawn) && StreamInv(c, s) && StoredInv(s) && JoinInv(s) && AbortInv(s) && FinishInv(c, s)
    ensures var t := Apply(c, s, Spawn);
            StreamInv(c, t) && StoredInv(t) && JoinInv(t) && AbortInv(t) && FinishInv(c, t)
  {
  }

  lemma SpawnKeepsInv(c: Config, s: State)
    requires c.Valid() && Inv(c, s) && Enabled(c, s, Spawn)
    ensures Inv(c, Apply(c, s, Spawn))
  {
    SpawnKeepsCounts(c, s);
    SpawnKeepsBytes(c, s);
    SpawnKeepsRest(c, s);
  }

  predicate Settles(a: Action) {
    a.PutSucceeds? || a.PutFails? || a.AbortLands?
  }

  lemma SettleKeepsCounts(c: Config, s: State, a: Action)
    requires CountInv(c, s) && Enabled(c, s, a) && Settles(a)
    ensures CountInv(c, Apply(c, s, a))
  {
    var t := Apply(c, s, a);
    SumUpdate(LiveOne, s.tasks, a.i, t.tasks[a.i]);
    SumUpdate(SucceededBytes, s.tasks, a.i, t.tasks[a.i]);
  }

  /** Tasks that differ in their status only. */
  ghost predicate SameBodies(tasks: seq<Task>, tasks': seq<Task>) {
    && |tasks| == |tasks'|
    && forall i :: 0 <= i < |tasks| ==> tasks[i].part == tasks'[i].part && tasks[i].body == tasks'[i].body
  }

  lemma StatusKeepsBytes(c: Config, s: State, t: State)
    requires TaskInv(c, s) && PhaseInv(c, s) && SameBodies(s.tasks, t.tasks)
    requires t == s.(tasks := t.tasks, free := t.free, progress := t.progress, stored := t.stored)
    ensures TaskInv(c, t) && PhaseInv(c, t)
  {
    assert Bodies(t.tasks) == Bodies(s.tasks);
  }

  lemma SettleKeepsBytes(c: Config, s: State, a: Action)
    requires TaskInv(c, s) && PhaseInv(c, s) && Enabled(c, s, a) && Settles(a)
    ensures TaskInv(c, Apply(c, s, a)) && PhaseInv(c, Apply(c, s, a))
  {
    StatusKeepsBytes(c, s, Apply(c, s, a));
  }

  lemma SettleKeepsRest(c: Config, s: State, a: Action)
    requires Enabled(c, s, a) && Settles(a)
    requires TaskInv(c, s) && StreamInv(c, s) && StoredInv(s) && JoinInv(s) && AbortInv(s) && FinishInv(c, s)
    ensures var t := Apply(c, s, a);
            StreamInv(c, t) && StoredInv(t) && JoinInv(t) && AbortInv(t) && FinishInv(c, t)
  {
  }

  lemma JoinKeepsInv(c: Config, s: State)
    requires c.Valid() && Inv(c, s) && Enabled(c, s, Join)
    ensures Inv(c, Apply(c, s, Join))
  {
  }

  lemma StopKeepsInv(c: Config, s: State, a: Action)
    requires c.Valid() && Inv(c, s) && Enabled(c, s, a) && (a.JoinFails? || a.AbortsDone?)
    ensures Inv(c, Apply(c, s, a))
  {
  }

  lemma AbortKeepsCounts(c: Config, s: State)
    requires CountInv(c, s) && Enabled(c, s, AbortNext)
    ensures CountInv(c, Apply(c, s, AbortNext))
  {
    var t := Apply(c, s, AbortNext);
    var i := s.phase.next;
    if s.tasks[i].status.Running? {
      SumUpdate(LiveOne, s.tasks, i, t.tasks[i]);
      SumUpdate(SucceededBytes, s.tasks, i, t.tasks[i]);
    }
  }

  lemma AbortKeepsBytes(c: Config, s: State)
    requires TaskInv(c, s) && PhaseInv(c, s) && Enabled(c, s, AbortNext)
    ensures TaskInv(c, Apply(c, s, AbortNext)) && PhaseInv(c, Apply(c, s, AbortNext))
  {
    assert Bodies(Apply(c, s, AbortNext).tasks) == Bodies(s.tasks);
  }

  lemma AbortKeepsRest(c: Config, s: State)
    requires Enabled(c, s, AbortNext)
    requires StreamInv(c, s) && StoredInv(s) && JoinInv(s) && AbortInv(s) && FinishInv(c, s)
    ensures var t := Apply(c, s, AbortNext);
            StreamInv(c, t) && StoredInv(t) && JoinInv(t) && AbortInv(t) && FinishInv(c, t)
  {
  }

  lemma AbortKeepsInv(c: Config, s: State)
    requires Inv(c, s) && Enabled(c, s, AbortNext)
    ensures Inv(c, Apply(c, s, AbortNext))
  {
    AbortKeepsCounts(c, s);
    AbortKeepsBytes(c, s);
    AbortKeepsRest(c, s);
  }

  lemma FinishKeepsInv(c: Config, s: State, ok: bool)
    requires c.Valid() && Inv(c, s) && Enabled(c, s, Finish(ok))
    ensures Inv(c, Apply(c, s, Finish(ok)))
  {
    SortOfAscending(ByPartNumber, s.parts);
  }

  lemma TaskStepKeepsInv(c: Config, s: State, a: Action)
    requires Inv(c, s) && Enabled(c, s, a) && Settles(a)
    ensures Inv(c, Apply(c, s, a))
  {
    SettleKeepsCounts(c, s, a);
    SettleKeepsBytes(c, s, a);
    SettleKeepsRest(c, s, a);
  }

  lemma DispatcherStepKeepsInv(c: Config, s: State, a: Action)
    requires c.Valid() && Inv(c, s) && Enabled(c, s, a) && !Settles(a)
    ensures Inv(c, Apply(c, s, a))
  {
    match a
    case Read(n) => ReadKeepsInv(c, s, n);
    case ReadEnd => ReadEndKeepsInv(c, s);
    case Slice => SliceKeepsInv(c, s);
    case Spawn => SpawnKeepsInv(c, s);
    case Join => JoinKeepsInv(c, s);
    case AbortNext => AbortKeepsInv(c, s);
    case Finish(ok) => FinishKeepsInv(c, s, ok);
    case _ =>
      if a.JoinFails? || a.AbortsDone? {
        StopKeepsInv(c, s, a);
      } else {
        LeaveKeepsInv(c, s, a);
      }
  }

  lemma StepKeepsInv(c: Config, s: State, a: Action)
    requires c.Valid() && Inv(c, s) && Enabled(c, s, a)
    ensures Inv(c, Apply(c, s, a))
  {
    if Settles(a) {
      TaskStepKeepsInv(c, s, a);
    } else {
      DispatcherStepKeepsInv(c, s, a);
    }
  }

  lemma {:induction false} RunKeepsInv(c: Config, run: seq<State>, i: nat)
    requires c.Valid() && IsRun(c, run) && i < |run|
    ensures Inv(c, run[i])
  {
    if i == 0 {
      InitInv(c);
    } else {
      RunKeepsInv(c, run, i - 1);
      assert Next(c, run[i - 1], run[i - 1 + 1]);
      var a :| Enabled(c, run[i - 1], a) && run[i] == Apply(c, run[i - 1], a);
      StepKeepsInv(c, run[i - 1], a);
    }
  }

  ghost predicate Reachable(c: Config, s: State) {
    exists run :: IsRun(c, run) && run[|run| - 1] == s
  }

  lemma InitReachable(c: Config)
    ensures Reachable(c, Init(c))
  {
    assert IsRun(c, [Init(c)]);
  }

  lemma StepReachable(c: Config, s: State, a: Action)
    requires Reachable(c, s) && Enabled(c, s, a)
    ensures Reachable(c, Apply(c, s, a))
  {
    var run :| IsRun(c, run) && run[|run| - 1] == s;
    assert IsRun(c, run + [Apply(c, s, a)]);
  }

  lemma ReachableInv(c: Config, s: State)
    requires c.Valid() && Reachable(c, s)
    ensures Inv(c, s)
  {
    var run :| IsRun(c, run) && run[|run| - 1] == s;
    RunKeepsInv(c, run, |run| - 1);
  }
}
