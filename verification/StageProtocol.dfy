/**
 * `stage`: transfer, read back, mark, dispatch once.  Any number of processes run on the same
 * output path, every process may crash between any two steps, and every device call may fail or
 * time out after it was issued.
 */
module StageProtocol {
  import opened Octets
  import opened Sequences

  type Pid = nat
  type Digest = nat
  /** SHA-256, of which only equality of digests is observed. */
  type Hash = seq<Byte> -> Digest

  datatype Phase = NotInvoked | ResultUnknown | ResponseReceived

  datatype Receipt = Receipt(phase: Phase, stageInvoked: bool, apkVerified: bool, failed: bool)

  /** The output path: absent, being written, or holding a whole receipt. */
  datatype File = Absent | Torn | Saved(receipt: Receipt)

  /** The next step of a process.  `Put`, `Get` carry the number of the file, kernel 0 or manifest 1. */
  datatype Point =
    | Create | WriteInitial | AskPath | AskDigest | Put(n: nat) | Get(n: nat)
    | Mark | MarkTruncated | Dispatch | Record | RecordTruncated
    | Fail | FailTruncated | Ended

  datatype Process = Process(at: Point, receipt: Receipt, code: seq<Byte>, manifest: seq<Byte>)

  /** A device call and whether it was answered well; a dispatch also notes what the output path held. */
  datatype Call =
    | PathCall(pid: Pid, ok: bool)
    | DigestCall(pid: Pid, ok: bool)
    | PutCall(pid: Pid, n: nat, data: seq<Byte>, ok: bool)
    | GetCall(pid: Pid, n: nat, readback: Option<seq<Byte>>)
    | DispatchCall(pid: Pid, durable: File, ok: bool)

  /** `owner` remembers which process created the output path. */
  datatype World = World(file: File, processes: map<Pid, Process>, calls: seq<Call>, owner: Option<Pid>)

  datatype Action =
    | Launch(pid: Pid, code: seq<Byte>, manifest: seq<Byte>)
    | Step(pid: Pid, succeeds: bool, readback: seq<Byte>)
    | Crash(pid: Pid)

  const FRESH: Receipt := Receipt(NotInvoked, false, false, false)

  function FileData(q: Process, n: nat): seq<Byte> {
    if n == 0 then q.code else q.manifest
  }

  predicate Matches(sha: Hash, data: seq<Byte>, readback: seq<Byte>) {
    |readback| == |data| && sha(readback) == sha(data)
  }

  function With(w: World, pid: Pid, q: Process): World {
    w.(processes := w.processes[pid := q])
  }

  function Called(w: World, pid: Pid, q: Process, c: Call): World {
    w.(processes := w.processes[pid := q], calls := w.calls + [c])
  }

  /** One step of process `pid`; `ok` and `readback` are what the device or disk answers. */
  function StepOf(sha: Hash, w: World, pid: Pid, ok: bool, readback: seq<Byte>): World
    requires pid in w.processes
  {
    var q := w.processes[pid];
    match q.at
    case Create =>
      if w.file.Absent? then With(w, pid, q.(at := WriteInitial)).(file := Torn, owner := Some(pid))
      else With(w, pid, q.(at := Ended))
    case WriteInitial =>
      if ok then With(w, pid, q.(at := AskPath)).(file := Saved(q.receipt)) else With(w, pid, q.(at := Ended))
    case AskPath => Called(w, pid, q.(at := if ok then AskDigest else Fail), PathCall(pid, ok))
    case AskDigest =>
      Called(w, pid,
             if ok then q.(at := Put(0), receipt := q.receipt.(apkVerified := true)) else q.(at := Fail),
             DigestCall(pid, ok))
    case Put(n) => Called(w, pid, q.(at := if ok then Get(n) else Fail), PutCall(pid, n, FileData(q, n), ok))
    case Get(n) =>
      var good := ok && Matches(sha, FileData(q, n), readback);
      Called(w, pid, q.(at := if !good then Fail else if n == 0 then Put(1) else Mark),
             GetCall(pid, n, if ok then Some(readback) else None))
    case Mark =>
      var marked := q.(receipt := q.receipt.(phase := ResultUnknown, stageInvoked := true));
      if ok then With(w, pid, marked.(at := MarkTruncated)).(file := Torn) else With(w, pid, marked.(at := Fail))
    case MarkTruncated =>
      if ok then With(w, pid, q.(at := Dispatch)).(file := Saved(q.receipt)) else With(w, pid, q.(at := Fail))
    case Dispatch =>
      Called(w, pid,
             if ok then q.(at := Record, receipt := q.receipt.(phase := ResponseReceived)) else q.(at := Fail),
             DispatchCall(pid, w.file, ok))
    case Record => if ok then With(w, pid, q.(at := RecordTruncated)).(file := Torn) else With(w, pid, q.(at := Fail))
    case RecordTruncated =>
      if ok then With(w, pid, q.(at := Ended)).(file := Saved(q.receipt)) else With(w, pid, q.(at := Fail))
    case Fail =>
      var failed := q.(receipt := q.receipt.(failed := true));
      if ok then With(w, pid, failed.(at := FailTruncated)).(file := Torn) else With(w, pid, failed.(at := Ended))
    case FailTruncated =>
      if ok then With(w, pid, q.(at := Ended)).(file := Saved(q.receipt)) else With(w, pid, q.(at := Ended))
    case Ended => w
  }

  predicate Enabled(w: World, a: Action) {
    match a
    case Launch(pid, _, _) => pid !in w.processes
    case Step(pid, _, _) => pid in w.processes
    case Crash(pid) => pid in w.processes
  }

  function Next(sha: Hash, w: World, a: Action): World
    requires Enabled(w, a)
  {
    match a
    case Launch(pid, code, manifest) => With(w, pid, Process(Create, FRESH, code, manifest))
    case Step(pid, ok, readback) => StepOf(sha, w, pid, ok, readback)
    case Crash(pid) => With(w, pid, w.processes[pid].(at := Ended))
  }

  predicate Legal(sha: Hash, w: World, actions: seq<Action>)
    decreases |actions|
  {
    actions == [] || (Enabled(w, actions[0]) && Legal(sha, Next(sha, w, actions[0]), actions[1..]))
  }

  function Run(sha: Hash, w: World, actions: seq<Action>): World
    requires Legal(sha, w, actions)
    decreases |actions|
  {
    if actions == [] then w else Run(sha, Next(sha, w, actions[0]), actions[1..])
  }

  const START: World := World(Absent, map[], [], None)

  ghost predicate Reachable(sha: Hash, w: World) {
    exists actions :: Legal(sha, START, actions) && w == Run(sha, START, actions)
  }

  // ---------------------------------------------------------------- what every run keeps

  /** How many calls a process has issued before each point; None where it depends on the run. */
  function Issued(at: Point): Option<nat> {
    match at
    case Create | WriteInitial | AskPath => Some(0)
    case AskDigest => Some(1)
    case Put(n) => if n == 0 then Some(2) else Some(4)
    case Get(n) => if n == 0 then Some(3) else Some(5)
    case Mark | MarkTruncated | Dispatch => Some(6)
    case Record | RecordTruncated => Some(7)
    case Fail | FailTruncated | Ended => None
  }

  ghost predicate GoodReadback(sha: Hash, put: Call, get: Call, n: nat) {
    && put.PutCall? && put.n == n && get.GetCall? && get.n == n
    && get.readback.Some? && Matches(sha, put.data, get.readback.value)
  }

  /** The calls of any run, for every process together: path, digest, two put/get pairs, dispatch. */
  ghost predicate CallShape(sha: Hash, calls: seq<Call>) {
    && |calls| <= 7
    && (|calls| > 0 ==> calls[0].PathCall?)
    && (|calls| > 1 ==> calls[1].DigestCall?)
    && (|calls| > 2 ==> calls[2].PutCall? && calls[2].n == 0)
    && (|calls| > 3 ==> calls[3].GetCall? && calls[3].n == 0)
    && (|calls| > 4 ==> GoodReadback(sha, calls[2], calls[3], 0) && calls[4].PutCall? && calls[4].n == 1)
    && (|calls| > 5 ==> calls[5].GetCall? && calls[5].n == 1)
    && (|calls| > 6 ==>
          && GoodReadback(sha, calls[4], calls[5], 1) && calls[6].DispatchCall?
          && calls[6].durable.Saved? && calls[6].durable.receipt.stageInvoked
          && calls[6].durable.receipt.phase == ResultUnknown)
  }

  /** The process that created the output path, while it has not ended. */
  ghost predicate OwnerAt(sha: Hash, w: World, pid: Pid)
    requires pid in w.processes
  {
    var q := w.processes[pid];
    && (Issued(q.at).Some? ==> |w.calls| == Issued(q.at).value)
    && (q.at.Put? || q.at.Get? ==> q.at.n <= 1)
    && (q.at.Get? ==> w.calls[|w.calls| - 1] == PutCall(pid, q.at.n, FileData(q, q.at.n), true))
    && (q.at == Put(1) || q.at == Get(1) || (|w.calls| == 6 && Issued(q.at).Some?) ==>
          GoodReadback(sha, w.calls[2], w.calls[3], 0))
    && (|w.calls| == 6 && Issued(q.at).Some? ==> GoodReadback(sha, w.calls[4], w.calls[5], 1))
    && (q.receipt.stageInvoked <==> q.receipt.phase != NotInvoked)
    && (q.at.MarkTruncated? || q.at.Dispatch? ==> q.receipt.phase == ResultUnknown)
    && (q.at.Dispatch? ==> w.file == Saved(q.receipt))
    && (|w.calls| == 7 ==> q.receipt.stageInvoked)
  }

  /** The kernel is written before the manifest, each as it was validated. */
  predicate WritesItsFiles(calls: seq<Call>, q: Process) {
    && (|calls| > 2 ==> calls[2].PutCall? && calls[2].data == q.code)
    && (|calls| > 4 ==> calls[4].PutCall? && calls[4].data == q.manifest)
  }

  ghost predicate Inv(sha: Hash, w: World) {
    && (w.file.Absent? <==> w.owner.None?)
    && (w.owner.None? ==> w.calls == [])
    && (w.owner.Some? ==> w.owner.value in w.processes)
    && (forall i :: 0 <= i < |w.calls| ==> w.owner == Some(w.calls[i].pid))
    && (forall pid :: pid in w.processes ==>
          w.processes[pid].at.Create? || w.processes[pid].at.Ended? || w.owner == Some(pid))
    && (forall pid :: pid in w.processes && w.owner != Some(pid) ==> w.processes[pid].receipt == FRESH)
    && CallShape(sha, w.calls)
    && (w.owner.Some? && !w.processes[w.owner.value].at.Ended? ==> OwnerAt(sha, w, w.owner.value))
    && (w.owner.Some? ==> !w.processes[w.owner.value].at.Create?)
    && (w.owner.Some? ==> WritesItsFiles(w.calls, w.processes[w.owner.value]))
    && (|w.calls| == 7 && w.file.Saved? ==> w.file.receipt.stageInvoked)
    && (w.file.Saved? ==> (w.file.receipt.stageInvoked <==> w.file.receipt.phase != NotInvoked))
  }

  lemma LaunchKeepsInv(sha: Hash, w: World, a: Action)
    requires a.Launch? && Enabled(w, a) && Inv(sha, w)
    ensures Inv(sha, Next(sha, w, a))
  {
  }

  lemma CrashKeepsInv(sha: Hash, w: World, a: Action)
    requires a.Crash? && Enabled(w, a) && Inv(sha, w)
    ensures Inv(sha, Next(sha, w, a))
  {
  }

  lemma CreateKeepsInv(sha: Hash, w: World, pid: Pid, ok: bool, readback: seq<Byte>)
    requires pid in w.processes && Inv(sha, w) && (w.processes[pid].at.Create? || w.processes[pid].at.Ended?)
    ensures Inv(sha, StepOf(sha, w, pid, ok, readback))
  {
  }

  lemma SaveKeepsInv(sha: Hash, w: World, pid: Pid, ok: bool, readback: seq<Byte>)
    requires pid in w.processes && Inv(sha, w)
    requires w.processes[pid].at in {WriteInitial, MarkTruncated}
    ensures Inv(sha, StepOf(sha, w, pid, ok, readback))
  {
  }

  lemma LastSaveKeepsInv(sha: Hash, w: World, pid: Pid, ok: bool, readback: seq<Byte>)
    requires pid in w.processes && Inv(sha, w)
    requires w.processes[pid].at in {RecordTruncated, FailTruncated}
    ensures Inv(sha, StepOf(sha, w, pid, ok, readback))
  {
  }

  lemma MarkKeepsInv(sha: Hash, w: World, pid: Pid, ok: bool, readback: seq<Byte>)
    requires pid in w.processes && Inv(sha, w) && w.processes[pid].at.Mark?
    ensures Inv(sha, StepOf(sha, w, pid, ok, readback))
  {
  }

  lemma TruncateKeepsInv(sha: Hash, w: World, pid: Pid, ok: bool, readback: seq<Byte>)
    requires pid in w.processes && Inv(sha, w) && w.processes[pid].at.Record?
    ensures Inv(sha, StepOf(sha, w, pid, ok, readback))
  {
  }

  lemma FailKeepsInv(sha: Hash, w: World, pid: Pid, ok: bool, readback: seq<Byte>)
    requires pid in w.processes && Inv(sha, w) && w.processes[pid].at.Fail?
    ensures Inv(sha, StepOf(sha, w, pid, ok, readback))
  {
  }

  lemma AskKeepsInv(sha: Hash, w: World, pid: Pid, ok: bool, readback: seq<Byte>)
    requires pid in w.processes && Inv(sha, w) && w.processes[pid].at in {AskPath, AskDigest}
    ensures Inv(sha, StepOf(sha, w, pid, ok, readback))
  {
  }

  lemma DispatchKeepsInv(sha: Hash, w: World, pid: Pid, ok: bool, readback: seq<Byte>)
    requires pid in w.processes && Inv(sha, w) && w.processes[pid].at.Dispatch?
    ensures Inv(sha, StepOf(sha, w, pid, ok, readback))
  {
  }

  lemma PutKeepsInv(sha: Hash, w: World, pid: Pid, ok: bool, readback: seq<Byte>)
    requires pid in w.processes && Inv(sha, w) && w.processes[pid].at.Put?
    ensures Inv(sha, StepOf(sha, w, pid, ok, readback))
  {
  }

  lemma GetKeepsInv(sha: Hash, w: World, pid: Pid, ok: bool, readback: seq<Byte>)
    requires pid in w.processes && Inv(sha, w) && w.processes[pid].at.Get?
    ensures Inv(sha, StepOf(sha, w, pid, ok, readback))
  {
  }

  lemma StepKeepsInv(sha: Hash, w: World, pid: Pid, ok: bool, readback: seq<Byte>)
    requires pid in w.processes && Inv(sha, w)
    ensures Inv(sha, StepOf(sha, w, pid, ok, readback))
  {
    hide Inv, StepOf;
    match w.processes[pid].at
    case Create | Ended => CreateKeepsInv(sha, w, pid, ok, readback);
    case WriteInitial | MarkTruncated => SaveKeepsInv(sha, w, pid, ok, readback);
    case RecordTruncated | FailTruncated => LastSaveKeepsInv(sha, w, pid, ok, readback);
    case Mark => MarkKeepsInv(sha, w, pid, ok, readback);
    case Record => TruncateKeepsInv(sha, w, pid, ok, readback);
    case Fail => FailKeepsInv(sha, w, pid, ok, readback);
    case AskPath | AskDigest => AskKeepsInv(sha, w, pid, ok, readback);
    case Put(_) => PutKeepsInv(sha, w, pid, ok, readback);
    case Get(_) => GetKeepsInv(sha, w, pid, ok, readback);
    case Dispatch => DispatchKeepsInv(sha, w, pid, ok, readback);
  }

  lemma {:induction false} RunKeepsInv(sha: Hash, w: World, actions: seq<Action>)
    requires Legal(sha, w, actions) && Inv(sha, w)
    ensures Inv(sha, Run(sha, w, actions))
    decreases |actions|
  {
    hide Inv, StepOf;
    if actions != [] {
      var a := actions[0];
      match a {
        case Launch(_, _, _) => LaunchKeepsInv(sha, w, a);
        case Step(pid, ok, readback) => StepKeepsInv(sha, w, pid, ok, readback);
        case Crash(_) => CrashKeepsInv(sha, w, a);
      }
      RunKeepsInv(sha, Next(sha, w, a), actions[1..]);
    }
  }

  lemma ReachableHasInv(sha: Hash, w: World)
    requires Reachable(sha, w)
    ensures Inv(sha, w)
  {
    var actions :| Legal(sha, START, actions) && w == Run(sha, START, actions);
    RunKeepsInv(sha, START, actions);
  }

  // ---------------------------------------------------------------- the theorems

  /** compute-stage is dispatched at most once, over all processes, crashes and reruns together. */
  lemma DispatchedAtMostOnce(sha: Hash, w: World, i: nat, j: nat)
    requires Reachable(sha, w) && i < |w.calls| && j < |w.calls|
    requires w.calls[i].DispatchCall? && w.calls[j].DispatchCall?
    ensures i == j
  {
    ReachableHasInv(sha, w);
  }

  /**
   * A dispatch happens only after the same process wrote both files and read back bytes of the same
   * length and digest, and only while the durable receipt already says that the stage was invoked
   * with unknown result.
   */
  lemma DispatchIsPrepared(sha: Hash, w: World, i: nat)
    requires Reachable(sha, w) && i < |w.calls| && w.calls[i].DispatchCall?
    ensures i == 6
    ensures GoodReadback(sha, w.calls[2], w.calls[3], 0) && GoodReadback(sha, w.calls[4], w.calls[5], 1)
    ensures forall k :: 0 <= k < 7 ==> w.calls[k].pid == w.calls[6].pid
    ensures w.calls[6].pid in w.processes
    ensures w.calls[2].data == w.processes[w.calls[6].pid].code
    ensures w.calls[4].data == w.processes[w.calls[6].pid].manifest
    ensures w.calls[i].durable.Saved? && w.calls[i].durable.receipt.stageInvoked
    ensures w.calls[i].durable.receipt.phase == ResultUnknown
  {
    ReachableHasInv(sha, w);
  }

  /** Some two different byte strings of one length have the same digest. */
  ghost predicate Collides(sha: Hash) {
    exists a, b :: Confused(sha, a, b)
  }

  /** The read-back check takes `b` for `a`. */
  predicate Confused(sha: Hash, a: seq<Byte>, b: seq<Byte>) {
    a != b && |a| == |b| && sha(a) == sha(b)
  }

  /** The calls before the dispatch read back exactly the bytes that were validated. */
  predicate ExactReadbacks(calls: seq<Call>, q: Process) {
    && |calls| >= 6 && calls[2].PutCall? && calls[3].GetCall? && calls[4].PutCall? && calls[5].GetCall?
    && calls[2].data == q.code && calls[3].readback == Some(q.code)
    && calls[4].data == q.manifest && calls[5].readback == Some(q.manifest)
  }

  /** In `w`, whatever was dispatched had been read back byte for byte. */
  ghost predicate DispatchesExact(w: World) {
    forall i :: 0 <= i < |w.calls| && w.calls[i].DispatchCall? ==>
      w.calls[i].pid in w.processes && ExactReadbacks(w.calls, w.processes[w.calls[i].pid])
  }

  lemma {:induction false} RunConcat(sha: Hash, w: World, a: seq<Action>, b: seq<Action>)
    requires Legal(sha, w, a) && Legal(sha, Run(sha, w, a), b)
    ensures Legal(sha, w, a + b) && Run(sha, w, a + b) == Run(sha, Run(sha, w, a), b)
    decreases |a|
  {
    hide StepOf;
    if a == [] {
      assert a + b == b;
    } else {
      RunConcat(sha, Next(sha, w, a[0]), a[1..], b);
      assert (a + b)[0] == a[0] && (a + b)[1..] == a[1..] + b;
    }
  }

  /** One more step of process 0 after a run from the start. */
  lemma Extend(sha: Hash, w: World, readback: seq<Byte>)
    requires Reachable(sha, w) && 0 in w.processes
    ensures Reachable(sha, StepOf(sha, w, 0, true, readback))
  {
    hide StepOf;
    var actions :| Legal(sha, START, actions) && w == Run(sha, START, actions);
    var step := [Step(0, true, readback)];
    assert step[1..] == [];
    assert Legal(sha, w, step) && Run(sha, w, step) == StepOf(sha, w, 0, true, readback);
    RunConcat(sha, START, actions, step);
  }

  lemma Launched(sha: Hash, code: seq<Byte>, manifest: seq<Byte>)
    ensures Reachable(sha, Next(sha, START, Launch(0, code, manifest)))
  {
    var launch := [Launch(0, code, manifest)];
    var w0 := Next(sha, START, launch[0]);
    assert launch[1..] == [] && Run(sha, w0, []) == w0;
    assert Legal(sha, START, launch) && Run(sha, START, launch) == w0;
  }

  /** A process that validated `code` and `manifest` and is about to write its first file. */
  lemma ReadyToPut(sha: Hash, code: seq<Byte>, manifest: seq<Byte>) returns (w: World)
    ensures Reachable(sha, w) && 0 in w.processes
    ensures w.processes[0] == Process(Put(0), FRESH.(apkVerified := true), code, manifest)
    ensures w.calls == [PathCall(0, true), DigestCall(0, true)]
  {
    hide Reachable;
    var w0 := Next(sha, START, Launch(0, code, manifest));
    Launched(sha, code, manifest);
    Extend(sha, w0, []);
    var w1 := StepOf(sha, w0, 0, true, []);
    Extend(sha, w1, []);
    var w2 := StepOf(sha, w1, 0, true, []);
    Extend(sha, w2, []);
    var w3 := StepOf(sha, w2, 0, true, []);
    Extend(sha, w3, []);
    w := StepOf(sha, w3, 0, true, []);
  }

  /** One file is written and the device answers `readback`, which the check takes for the file. */
  lemma PutAndGet(sha: Hash, w: World, n: nat, readback: seq<Byte>) returns (w': World)
    requires Reachable(sha, w) && 0 in w.processes && n <= 1 && w.processes[0].at == Put(n)
    requires Matches(sha, FileData(w.processes[0], n), readback)
    ensures Reachable(sha, w') && 0 in w'.processes
    ensures w'.processes[0] == w.processes[0].(at := if n == 0 then Put(1) else Mark)
    ensures w'.calls == w.calls + [PutCall(0, n, FileData(w.processes[0], n), true), GetCall(0, n, Some(readback))]
  {
    hide Reachable, Matches;
    Extend(sha, w, []);
    var w1 := StepOf(sha, w, 0, true, []);
    Extend(sha, w1, readback);
    w' := StepOf(sha, w1, 0, true, readback);
  }

  lemma MarkAndDispatch(sha: Hash, w: World) returns (w': World)
    requires Reachable(sha, w) && 0 in w.processes && w.processes[0].at == Mark
    ensures Reachable(sha, w') && 0 in w'.processes
    ensures w'.processes[0] ==
            w.processes[0].(at := Record,
                            receipt := w.processes[0].receipt.(phase := ResponseReceived, stageInvoked := true))
    ensures |w'.calls| == |w.calls| + 1 && w'.calls[..|w.calls|] == w.calls
    ensures var marked := w.processes[0].receipt.(phase := ResultUnknown, stageInvoked := true);
            w'.calls[|w.calls|] == DispatchCall(0, Saved(marked), true)
  {
    hide Reachable;
    Extend(sha, w, []);
    var w1 := StepOf(sha, w, 0, true, []);
    Extend(sha, w1, []);
    var w2 := StepOf(sha, w1, 0, true, []);
    Extend(sha, w2, []);
    w' := StepOf(sha, w2, 0, true, []);
  }

  /**
   * A run that dispatches a kernel of which the device holds other bytes: `a` was validated and
   * written, `b` was read back.
   */
  lemma CollisionIsDispatched(sha: Hash, a: seq<Byte>, b: seq<Byte>, manifest: seq<Byte>) returns (w: World)
    requires Confused(sha, a, b)
    ensures Reachable(sha, w) && |w.calls| == 7 && w.calls[6].DispatchCall?
    ensures w.calls[2] == PutCall(0, 0, a, true) && w.calls[3] == GetCall(0, 0, Some(b))
    ensures !DispatchesExact(w)
  {
    hide Reachable, StepOf;
    var w1 := ReadyToPut(sha, a, manifest);
    var w2 := PutAndGet(sha, w1, 0, b);
    var w3 := PutAndGet(sha, w2, 1, manifest);
    w := MarkAndDispatch(sha, w3);
    assert w.calls[2] == w3.calls[2] && w.calls[3] == w3.calls[3];
  }

  lemma MatchIsExact(sha: Hash, put: Call, get: Call, n: nat)
    requires !Collides(sha) && GoodReadback(sha, put, get, n)
    ensures get.readback == Some(put.data)
  {
    assert !Confused(sha, put.data, get.readback.value);
  }

  /**
   * Every dispatch of every run had read back exactly the validated bytes if and only if no two
   * different byte strings of the same length share a digest.
   */
  lemma ReadbackIsExact(sha: Hash)
    ensures (forall w | Reachable(sha, w) :: DispatchesExact(w)) <==> !Collides(sha)
  {
    if Collides(sha) {
      var a, b :| Confused(sha, a, b);
      var w := CollisionIsDispatched(sha, a, b, []);
    } else {
      forall w | Reachable(sha, w) ensures DispatchesExact(w) {
        forall i | 0 <= i < |w.calls| && w.calls[i].DispatchCall?
          ensures w.calls[i].pid in w.processes && ExactReadbacks(w.calls, w.processes[w.calls[i].pid])
        {
          DispatchIsPrepared(sha, w, i);
          MatchIsExact(sha, w.calls[2], w.calls[3], 0);
          MatchIsExact(sha, w.calls[4], w.calls[5], 1);
        }
      }
    }
  }

  /** All device calls are made by the process that created the output path. */
  lemma RerunsMakeNoDeviceCall(sha: Hash, w: World, i: nat)
    requires Reachable(sha, w) && i < |w.calls|
    ensures w.owner == Some(w.calls[i].pid) && !w.file.Absent?
  {
    ReachableHasInv(sha, w);
  }

  /** Once the output path exists, a process that has not created it can only stop. */
  lemma LaterProcessOnlyStops(sha: Hash, w: World, pid: Pid, ok: bool, readback: seq<Byte>)
    requires Reachable(sha, w) && pid in w.processes && !w.file.Absent? && w.owner != Some(pid)
    ensures var w' := StepOf(sha, w, pid, ok, readback);
            w'.calls == w.calls && w'.file == w.file && w'.owner == w.owner && w'.processes[pid].at.Ended?
  {
    ReachableHasInv(sha, w);
  }

  /** A receipt that says "not invoked" is proof that nothing was dispatched. */
  lemma NotInvokedMeansNotDispatched(sha: Hash, w: World, i: nat)
    requires Reachable(sha, w) && i < |w.calls|
    requires w.file.Saved? && (!w.file.receipt.stageInvoked || w.file.receipt.phase == NotInvoked)
    ensures !w.calls[i].DispatchCall?
  {
    ReachableHasInv(sha, w);
  }
}
