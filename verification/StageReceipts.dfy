/** What the receipt on the output path says about the calls that were made. */
module StageReceipts {
  import opened Octets
  import opened Sequences
  import opened StageProtocol

  /** The device's digest of the installed package was the expected one. */
  predicate Verified(calls: seq<Call>) {
    |calls| >= 2 && calls[1].DigestCall? && calls[1].ok
  }

  /** Both files were written and read back well. */
  ghost predicate Transferred(sha: Hash, calls: seq<Call>) {
    |calls| >= 6 && GoodReadback(sha, calls[2], calls[3], 0) && GoodReadback(sha, calls[4], calls[5], 1)
  }

  /** The dispatch was answered. */
  predicate Answered(calls: seq<Call>) {
    |calls| == 7 && calls[6].DispatchCall? && calls[6].ok
  }

  /** The phase that the calls call for, once the transfer was marked or not. */
  function PhaseOf(calls: seq<Call>, marked: bool): Phase {
    if Answered(calls) then ResponseReceived else if marked then ResultUnknown else NotInvoked
  }

  predicate PastMark(at: Point) {
    at.MarkTruncated? || at.Dispatch? || at.Record? || at.RecordTruncated?
  }

  /** What the creating process holds in memory. */
  ghost predicate InMemory(sha: Hash, calls: seq<Call>, q: Process) {
    && (q.receipt.apkVerified <==> Verified(calls))
    && (q.at.Put? || q.at.Get? || q.at.Mark? || PastMark(q.at) ==> Verified(calls))
    && (q.at.Mark? || PastMark(q.at) ==> Transferred(sha, calls))
    && (q.at.Get? && q.at.n == 1 ==> |calls| == 5)
    && (q.receipt.stageInvoked <==> PastMark(q.at) || ((q.at.Fail? || q.at.FailTruncated?) && Transferred(sha, calls)))
    && q.receipt.phase == PhaseOf(calls, q.receipt.stageInvoked)
    && (q.at.Record? || q.at.RecordTruncated? ==> Answered(calls))
    && (Answered(calls) ==> Transferred(sha, calls))
    && (q.receipt.failed <==> q.at.FailTruncated?)
  }

  /** What a saved receipt says, and for a failed one that it says all there is to say. */
  ghost predicate OnDisk(sha: Hash, calls: seq<Call>, r: Receipt) {
    && (r.apkVerified ==> Verified(calls))
    && (r.stageInvoked ==> Transferred(sha, calls))
    && (r.phase == ResponseReceived ==> Answered(calls))
    && (r.failed ==>
          && (r.apkVerified <==> Verified(calls)) && (r.stageInvoked <==> Transferred(sha, calls))
          && r.phase == PhaseOf(calls, r.stageInvoked))
    && (!r.failed ==>
          || r == Receipt(NotInvoked, false, false, false)
          || r == Receipt(ResultUnknown, true, true, false)
          || r == Receipt(ResponseReceived, true, true, false))
  }

  ghost predicate ReceiptInv(sha: Hash, w: World) {
    w.owner.Some? && w.owner.value in w.processes ==>
      var q := w.processes[w.owner.value];
      && (!q.at.Ended? ==> InMemory(sha, w.calls, q))
      && (w.file.Saved? ==> OnDisk(sha, w.calls, w.file.receipt))
      && (w.file.Saved? && w.file.receipt.failed ==> q.at.Ended?)
      && (w.file.Saved? && q.at.Record? ==> w.file.receipt == Receipt(ResultUnknown, true, true, false))
  }

  // ---------------------------------------------------------------- every step keeps it

  lemma StrangerKeepsReceipts(sha: Hash, w: World, a: Action)
    requires Inv(sha, w) && ReceiptInv(sha, w) && Enabled(w, a)
    requires match a case Launch(_, _, _) => true case Step(pid, _, _) => w.owner != Some(pid) case Crash(_) => true
    ensures ReceiptInv(sha, Next(sha, w, a))
  {
    hide CallShape, OwnerAt, InMemory, OnDisk, WritesItsFiles;
    if a.Step? && w.processes[a.pid].at.Create? && w.file.Absent? {
      FreshReceipt(sha, w, a);
    }
  }

  lemma FreshReceipt(sha: Hash, w: World, a: Action)
    requires Inv(sha, w) && Enabled(w, a) && a.Step? && w.processes[a.pid].at.Create? && w.file.Absent?
    ensures ReceiptInv(sha, Next(sha, w, a))
  {
    hide OwnerAt, WritesItsFiles;
  }

  /** One step of the creating process, from its point and the calls so far. */
  lemma OwnerKeepsReceipts(sha: Hash, w: World, pid: Pid, ok: bool, readback: seq<Byte>)
    requires Inv(sha, w) && ReceiptInv(sha, w) && w.owner == Some(pid)
    ensures ReceiptInv(sha, StepOf(sha, w, pid, ok, readback))
  {
    hide Matches, WritesItsFiles;
    var q := w.processes[pid];
    if q.at.Ended? {
    } else if q.at.Put? || q.at.Get? {
      TransferKeepsReceipts(sha, w, pid, ok, readback);
    } else if q.at.AskPath? || q.at.AskDigest? || q.at.Dispatch? {
      CallKeepsReceipts(sha, w, pid, ok, readback);
    } else {
      SaveKeepsReceipts(sha, w, pid, ok, readback);
    }
  }

  lemma TransferKeepsReceipts(sha: Hash, w: World, pid: Pid, ok: bool, readback: seq<Byte>)
    requires Inv(sha, w) && ReceiptInv(sha, w) && w.owner == Some(pid)
    requires w.processes[pid].at.Put? || w.processes[pid].at.Get?
    ensures ReceiptInv(sha, StepOf(sha, w, pid, ok, readback))
  {
    hide Matches, WritesItsFiles;
  }

  lemma CallKeepsReceipts(sha: Hash, w: World, pid: Pid, ok: bool, readback: seq<Byte>)
    requires Inv(sha, w) && ReceiptInv(sha, w) && w.owner == Some(pid)
    requires w.processes[pid].at.AskPath? || w.processes[pid].at.AskDigest? || w.processes[pid].at.Dispatch?
    ensures ReceiptInv(sha, StepOf(sha, w, pid, ok, readback))
  {
    hide GoodReadback, WritesItsFiles;
  }

  lemma SaveKeepsReceipts(sha: Hash, w: World, pid: Pid, ok: bool, readback: seq<Byte>)
    requires Inv(sha, w) && ReceiptInv(sha, w) && w.owner == Some(pid)
    requires var at := w.processes[pid].at;
             at.WriteInitial? || at.Mark? || (PastMark(at) && !at.Dispatch?) || at.Fail? || at.FailTruncated?
    ensures ReceiptInv(sha, StepOf(sha, w, pid, ok, readback))
  {
    hide GoodReadback, WritesItsFiles;
  }

  lemma {:induction false} RunKeepsReceipts(sha: Hash, w: World, actions: seq<Action>)
    requires Legal(sha, w, actions) && Inv(sha, w) && ReceiptInv(sha, w)
    ensures ReceiptInv(sha, Run(sha, w, actions))
    decreases |actions|
  {
    hide Inv, ReceiptInv, StepOf;
    if actions != [] {
      var a := actions[0];
      OneKeepsInv(sha, w, a);
      if a.Step? && w.owner == Some(a.pid) {
        OwnerKeepsReceipts(sha, w, a.pid, a.succeeds, a.readback);
      } else {
        StrangerKeepsReceipts(sha, w, a);
      }
      RunKeepsReceipts(sha, Next(sha, w, a), actions[1..]);
    }
  }

  lemma OneKeepsInv(sha: Hash, w: World, a: Action)
    requires Inv(sha, w) && Enabled(w, a)
    ensures Inv(sha, Next(sha, w, a))
  {
    hide Inv, StepOf;
    assert [a][1..] == [] && Run(sha, Next(sha, w, a), []) == Next(sha, w, a);
    RunKeepsInv(sha, w, [a]);
  }

  lemma ReachableHasReceipts(sha: Hash, w: World)
    requires Reachable(sha, w)
    ensures ReceiptInv(sha, w) && Inv(sha, w)
  {
    hide StepOf;
    ReachableHasInv(sha, w);
    var actions :| Legal(sha, START, actions) && w == Run(sha, START, actions);
    RunKeepsReceipts(sha, START, actions);
  }

  // ---------------------------------------------------------------- the theorems

  /**
   * In every run a saved receipt is true: it says "verified", "invoked" or "response received" only
   * after the digest was right, both files were read back well, or the dispatch was answered.  A
   * failed receipt says each of these exactly when it is so; another one has one of three values.
   */
  lemma ReceiptIsTrue(sha: Hash, w: World)
    requires Reachable(sha, w) && w.file.Saved?
    ensures OnDisk(sha, w.calls, w.file.receipt)
    ensures w.file.receipt.failed ==> w.owner.Some? && w.owner.value in w.processes && w.processes[w.owner.value].at.Ended?
  {
    hide OnDisk, InMemory;
    ReachableHasReceipts(sha, w);
  }

  /** A process about to dispatch whose next three steps succeed leaves the receipt of a received response. */
  lemma AnsweredDispatchIsRecorded(sha: Hash, w: World, pid: Pid, r1: seq<Byte>, r2: seq<Byte>, r3: seq<Byte>)
    requires Reachable(sha, w) && w.owner == Some(pid) && pid in w.processes && w.processes[pid].at.Dispatch?
    ensures var w1 := StepOf(sha, w, pid, true, r1);
            && pid in w1.processes
            && var w2 := StepOf(sha, w1, pid, true, r2);
               && pid in w2.processes
               && var w3 := StepOf(sha, w2, pid, true, r3);
                  && w3.file == Saved(Receipt(ResponseReceived, true, true, false))
                  && w3.calls == w.calls + [DispatchCall(pid, Saved(Receipt(ResultUnknown, true, true, false)), true)]
                  && pid in w3.processes && w3.processes[pid].at.Ended?
  {
    hide CallShape, WritesItsFiles, GoodReadback;
    ReachableHasReceipts(sha, w);
  }

  /**
   * A device call that fails, or a read-back that does not match, ends in a receipt that says so and
   * otherwise keeps what was known, once the receipt can be saved.
   */
  lemma FailureIsRecorded(sha: Hash, w: World, pid: Pid, ok: bool, r1: seq<Byte>, r2: seq<Byte>, r3: seq<Byte>)
    requires Reachable(sha, w) && w.owner == Some(pid) && pid in w.processes
    requires var at := w.processes[pid].at; at.AskPath? || at.AskDigest? || at.Put? || at.Get? || at.Dispatch?
    requires ok ==> w.processes[pid].at.Get? &&
                    var data := FileData(w.processes[pid], w.processes[pid].at.n);
                    |r1| != |data| || sha(r1) != sha(data)
    ensures var w1 := StepOf(sha, w, pid, ok, r1);
            && pid in w1.processes
            && var w2 := StepOf(sha, w1, pid, true, r2);
               && pid in w2.processes
               && var w3 := StepOf(sha, w2, pid, true, r3);
                  && w3.file == Saved(w.processes[pid].receipt.(failed := true))
                  && |w3.calls| == |w.calls| + 1
                  && pid in w3.processes && w3.processes[pid].at.Ended?
  {
  }

  /** For every kernel and manifest a run exists that stages them: seven calls, and the final receipt. */
  lemma StagingSucceeds(sha: Hash, code: seq<Byte>, manifest: seq<Byte>) returns (w: World)
    ensures Reachable(sha, w) && w.file == Saved(Receipt(ResponseReceived, true, true, false))
    ensures w.calls == [
              PathCall(0, true), DigestCall(0, true),
              PutCall(0, 0, code, true), GetCall(0, 0, Some(code)),
              PutCall(0, 1, manifest, true), GetCall(0, 1, Some(manifest)),
              DispatchCall(0, Saved(Receipt(ResultUnknown, true, true, false)), true)]
  {
    hide Reachable;
    var w1 := ReadyToPut(sha, code, manifest);
    var w2 := PutAndGet(sha, w1, 0, code);
    var w3 := PutAndGet(sha, w2, 1, manifest);
    var w4 := MarkAndDispatch(sha, w3);
    Extend(sha, w4, []);
    var w5 := StepOf(sha, w4, 0, true, []);
    Extend(sha, w5, []);
    w := StepOf(sha, w5, 0, true, []);
  }
}
