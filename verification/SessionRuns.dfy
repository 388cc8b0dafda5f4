/** What every run of the relay session keeps, and the theorems about whole runs. */
module SessionRuns {
  import opened Sequences
  import opened SessionModel

  // ---------------------------------------------------------------- one step

  /**
   * The delivery loop drops a prefix of the queue: each dropped key had expired when it was
   * read, and a returned key had not.
   */
  lemma {:induction false} ScanSpec(jobs: map<Key, Job>, pending: seq<Key>, ticks: seq<real>) returns (n: nat)
    requires |pending| <= |ticks|
    ensures n <= |pending| && Scan(jobs, pending, ticks).1 == pending[n..]
    ensures match Scan(jobs, pending, ticks).0
            case None => n == |pending|
            case Some(key) => n > 0 && key == pending[n - 1] && key in jobs && jobs[key].expires > ticks[n - 1]
    ensures forall i :: 0 <= i < (if Scan(jobs, pending, ticks).0.Some? then n - 1 else n) && pending[i] in jobs
              ==> jobs[pending[i]].expires <= ticks[i]
  {
    if pending == [] {
      n := 0;
    } else if pending[0] in jobs && jobs[pending[0]].expires > ticks[0] {
      n := 1;
    } else {
      var m := ScanSpec(jobs, pending[1..], ticks[1..]);
      n := m + 1;
      assert pending[1..][m..] == pending[n..];
      forall i | 0 <= i < (if Scan(jobs, pending, ticks).0.Some? then n - 1 else n) && pending[i] in jobs
        ensures jobs[pending[i]].expires <= ticks[i]
      {
        if i > 0 {
          assert pending[i] == pending[1..][i - 1] && ticks[i] == ticks[1..][i - 1];
        }
      }
    }
  }

  lemma HistorySnoc(trace: seq<Transition>, t: Transition, key: Key)
    ensures History(trace + [t], key) == History(trace, key) + About(t, key)
    ensures EnqueuedKeys(trace + [t]) == EnqueuedKeys(trace) + AcceptedBy(t)
    ensures DeliveredKeys(trace + [t]) == DeliveredKeys(trace) + DeliveredBy(t)
  {
    assert (trace + [t])[..|trace|] == trace;
  }

  lemma TickBounds(a: Action, i: nat)
    requires a.Poll? && Ascending(Readings(a)) && i < |a.ticks|
    ensures a.clock.live <= a.clock.now <= a.ticks[i] <= EndOf(a)
  {
    var r := Readings(a);
    assert r[0] <= r[1] <= r[i + 2] <= r[|r| - 1];
  }

  lemma ClockAdvances(w: World, a: Action)
    requires Enabled(w, a)
    ensures w.clock <= a.clock.live <= a.clock.now <= EndOf(a)
  {
    var r := Readings(a);
    assert r[0] <= r[1] <= r[|r| - 1];
  }

  /** A step that drops a prefix of the queue keeps what each job keeps. */
  lemma DroppedPrefix(pending: seq<Key>, n: nat, k: Key)
    requires n <= |pending|
    ensures k in pending[n..] ==> k in pending
    ensures k in pending && k !in pending[n..] ==> exists i :: 0 <= i < n && pending[i] == k
    ensures Distinct(pending) && n > 0 ==> pending[n - 1] !in pending[n..]
    ensures Distinct(pending) ==> Distinct(pending[n..])
  {
    assert pending == pending[..n] + pending[n..];
    if k in pending[..n] {
      var i :| 0 <= i < n && pending[..n][i] == k;
      assert pending[i] == k;
    }
  }

  /** What a successful poll does to one job. */
  lemma PollKeepsJob(w: World, a: Action, k: Key)
    requires a.Poll? && Enabled(w, a) && StateInvariant(w.state, w.clock) && k in w.state.jobs
    requires PollSucceeds(Next(w, a).trace[|w.trace|])
    ensures var s' := Next(w, a).state;
            k in s'.jobs && JobInvariant(s'.jobs[k], k in s'.pending, s'.revoked, EndOf(a))
  {
    hide Scan;
    var s := w.state;
    var n := ScanSpec(s.jobs, s.pending, a.ticks);
    ClockAdvances(w, a);
    DroppedPrefix(s.pending, n, k);
    assert JobInvariant(s.jobs[k], k in s.pending, s.revoked, w.clock);
    if k in s.pending && k !in s.pending[n..] {
      var i :| 0 <= i < n && s.pending[i] == k;
      TickBounds(a, i);
    }
  }

  lemma PollKeepsState(w: World, a: Action)
    requires a.Poll? && Enabled(w, a) && StateInvariant(w.state, w.clock)
    ensures StateInvariant(Next(w, a).state, EndOf(a))
  {
    hide Scan, JobInvariant;
    var s, s' := w.state, Next(w, a).state;
    var n := ScanSpec(s.jobs, s.pending, a.ticks);
    assert s'.jobs.Keys == s.jobs.Keys;
    assert |s'.jobs| == |s'.jobs.Keys| == |s.jobs|;
    DroppedPrefix(s.pending, n, "");
    if PollSucceeds(Next(w, a).trace[|w.trace|]) {
      forall k | k in s.jobs ensures JobInvariant(s'.jobs[k], k in s'.pending, s'.revoked, EndOf(a)) {
        PollKeepsJob(w, a, k);
      }
    } else {
      forall k | k in s.jobs ensures JobInvariant(s'.jobs[k], k in s'.pending, s'.revoked, EndOf(a)) {
        RejectedPollKeepsJob(w, a, k);
      }
    }
  }

  lemma RejectedPollKeepsJob(w: World, a: Action, k: Key)
    requires a.Poll? && Enabled(w, a) && StateInvariant(w.state, w.clock) && k in w.state.jobs
    requires !PollSucceeds(Next(w, a).trace[|w.trace|])
    ensures var s' := Next(w, a).state;
            k in s'.jobs && JobInvariant(s'.jobs[k], k in s'.pending, s'.revoked, EndOf(a))
  {
    hide Scan;
    ClockAdvances(w, a);
    assert JobInvariant(w.state.jobs[k], k in w.state.pending, w.state.revoked, w.clock);
  }

  /** Time passing harms no job. */
  lemma LaterJob(j: Job, queued: bool, revoked: bool, clock: real, later: real)
    requires JobInvariant(j, queued, revoked, clock) && clock <= later
    ensures JobInvariant(j, queued, revoked, later)
  {
  }

  lemma EnqueueKeepsState(w: World, a: Action)
    requires a.Enqueue? && Enabled(w, a) && StateInvariant(w.state, w.clock) && a.key !in w.state.jobs
    ensures StateInvariant(Next(w, a).state, EndOf(a))
  {
    ClockAdvances(w, a);
    var s, s' := w.state, Next(w, a).state;
    forall k | k in s'.jobs ensures JobInvariant(s'.jobs[k], k in s'.pending, s'.revoked, EndOf(a)) {
      if k in s.jobs {
        LaterJob(s.jobs[k], k in s.pending, s.revoked, w.clock, EndOf(a));
      }
    }
  }

  lemma FinishKeepsState(w: World, a: Action)
    requires a.Finish? && Enabled(w, a) && StateInvariant(w.state, w.clock)
    ensures StateInvariant(Next(w, a).state, EndOf(a))
    ensures |Next(w, a).state.jobs| == |w.state.jobs| - 1
  {
    hide JobInvariant;
    ClockAdvances(w, a);
    var s, s' := w.state, Next(w, a).state;
    assert (s.jobs - {a.key}).Keys == s.jobs.Keys - {a.key};
    forall k | k in s'.jobs ensures JobInvariant(s'.jobs[k], k in s'.pending, s'.revoked, EndOf(a)) {
      LaterJob(s.jobs[k], k in s.pending, s.revoked, w.clock, EndOf(a));
    }
  }

  lemma OthersKeepState(w: World, a: Action)
    requires a.AskIdentity? || a.Reply? || a.Revoke?
    requires Enabled(w, a) && StateInvariant(w.state, w.clock)
    ensures StateInvariant(Next(w, a).state, EndOf(a))
    ensures Next(w, a).state.jobs.Keys == w.state.jobs.Keys
  {
    ClockAdvances(w, a);
    var s, s' := w.state, Next(w, a).state;
    assert s'.jobs.Keys == s.jobs.Keys;
    assert |s'.jobs| == |s'.jobs.Keys| == |s.jobs|;
    forall k | k in s'.jobs ensures JobInvariant(s'.jobs[k], k in s'.pending, s'.revoked, EndOf(a)) {
      assert JobInvariant(s.jobs[k], k in s.pending, s.revoked, w.clock);
    }
  }

  lemma StepKeepsState(w: World, a: Action)
    requires Enabled(w, a) && StateInvariant(w.state, w.clock) && HistoryInvariant(w.state, w.trace)
    ensures StateInvariant(Next(w, a).state, Next(w, a).clock)
  {
    match a
    case Poll(_, _, _) => PollKeepsState(w, a);
    case Enqueue(_, _, _, key) =>
      assert KeyInvariant(w.state, History(w.trace, key), key);
      EnqueueKeepsState(w, a);
    case Finish(_, _) => FinishKeepsState(w, a);
    case _ => OthersKeepState(w, a);
  }

  /** The four ways a poll can end. */
  lemma PollCases(s: State, a: Action) returns (n: nat)
    requires a.Poll? && CanStep(s, a)
    ensures n <= |s.pending|
    ensures var (s', o) := PollStep(s, a.clock, a.claim, a.ticks);
            || (s' == s && o.Rejected? && o.reason != DeviceEpochChanged)
            || (s' == Retire(s) && o == Rejected(DeviceEpochChanged))
            || (s'.pending == [] && s'.jobs == s.jobs && s'.revoked == s.revoked && o == Idle)
            || (n > 0 && s'.pending == s.pending[n..] && s'.revoked == s.revoked
                && s.pending[n - 1] in s.jobs
                && s.jobs[s.pending[n - 1]].expires > a.ticks[n - 1]
                && a.claim.Claim? && a.claim.epoch.Some?
                && s'.jobs == s.jobs[s.pending[n - 1] := s.jobs[s.pending[n - 1]].(delivered := true)]
                && o == Dispatched(s.pending[n - 1], s.jobs[s.pending[n - 1]].request))
  {
    n := ScanSpec(s.jobs, s.pending, a.ticks);
  }

  lemma PollKeepsKey(s: State, a: Action, clock: real, h: seq<KeyEvent>, k: Key)
    requires a.Poll? && CanStep(s, a) && Ascending(Readings(a)) && StateInvariant(s, clock)
    requires KeyInvariant(s, h, k)
    ensures var (s', o) := PollStep(s, a.clock, a.claim, a.ticks);
            KeyInvariant(s', h + About(Transition(s, a, o, s'), k), k)
  {
    var n := PollCases(s, a);
    var (s', o) := PollStep(s, a.clock, a.claim, a.ticks);
    if o.Dispatched? {
      TickBounds(a, n - 1);
      assert s.pending[n - 1] in s.pending;
    }
    assert h + [] == h;
  }

  lemma CallKeepsKey(s: State, a: Action, clock: real, h: seq<KeyEvent>, k: Key)
    requires !a.Poll? && CanStep(s, a) && StateInvariant(s, clock) && KeyInvariant(s, h, k)
    requires a.Enqueue? && a.key == k ==> h == []
    ensures KeyInvariant(Step(s, a).0, h + About(Transition(s, a, Step(s, a).1, Step(s, a).0), k), k)
  {
    if a.Finish? {
      FinishKeepsKey(s, a, clock, h, k);
    } else if a.Enqueue? {
      EnqueueKeepsKey(s, a, h, k);
    } else {
      hide FinishedHistory;
      assert h + [] == h;
    }
  }

  /** The finish of a waiter turns an open history into a finished one. */
  lemma CloseHistory(h: seq<KeyEvent>, j: Job, at: real, retired: bool)
    requires OpenHistory(h, j) && (j.response.None? ==> j.expires <= at || retired)
    ensures FinishedHistory(h + [Closed(at, retired, j.response)])
  {
  }

  lemma FinishKeepsKey(s: State, a: Action, clock: real, h: seq<KeyEvent>, k: Key)
    requires a.Finish? && CanStep(s, a) && StateInvariant(s, clock) && KeyInvariant(s, h, k)
    ensures KeyInvariant(Step(s, a).0, h + About(Transition(s, a, Step(s, a).1, Step(s, a).0), k), k)
  {
    hide OpenHistory, FinishedHistory;
    assert h + [] == h;
    if a.key == k {
      CloseHistory(h, s.jobs[k], a.clock.now, s.revoked);
    }
  }

  lemma EnqueueKeepsKey(s: State, a: Action, h: seq<KeyEvent>, k: Key)
    requires a.Enqueue? && KeyInvariant(s, h, k) && (a.key == k ==> h == [])
    ensures KeyInvariant(Step(s, a).0, h + About(Transition(s, a, Step(s, a).1, Step(s, a).0), k), k)
  {
    hide FinishedHistory;
    assert h + [] == h;
  }

  /** One step extends the history of each key exactly as its lifecycle allows. */
  lemma StepKeepsKey(w: World, a: Action, k: Key)
    requires Enabled(w, a) && StateInvariant(w.state, w.clock)
    requires KeyInvariant(w.state, History(w.trace, k), k)
    ensures KeyInvariant(Next(w, a).state, History(Next(w, a).trace, k), k)
  {
    HistorySnoc(w.trace, Next(w, a).trace[|w.trace|], k);
    if a.Poll? {
      PollKeepsKey(w.state, a, w.clock, History(w.trace, k), k);
    } else {
      CallKeepsKey(w.state, a, w.clock, History(w.trace, k), k);
    }
  }

  lemma StepKeepsHistory(w: World, a: Action)
    requires Enabled(w, a) && StateInvariant(w.state, w.clock) && HistoryInvariant(w.state, w.trace)
    ensures HistoryInvariant(Next(w, a).state, Next(w, a).trace)
  {
    forall k ensures KeyInvariant(Next(w, a).state, History(Next(w, a).trace, k), k) {
      assert KeyInvariant(w.state, History(w.trace, k), k);
      StepKeepsKey(w, a, k);
    }
  }

  lemma DropIsSubsequence<T>(s: seq<T>, n: nat)
    requires n <= |s|
    ensures Subsequence(s[n..], s)
  {
    if n == 0 {
      SubsequenceSelf(s);
    } else {
      DropIsSubsequence(s[1..], n - 1);
      TailIsSubsequence(s);
      assert s[n..] == s[1..][n - 1..];
      SubsequenceTransitive(s[n..], s[1..], s);
    }
  }

  lemma PollQueueOrder(s: State, a: Action)
    requires a.Poll? && CanStep(s, a)
    ensures var (s', o) := PollStep(s, a.clock, a.claim, a.ticks);
            Subsequence((if o.Dispatched? then [o.key] else []) + s'.pending, s.pending)
  {
    var n := PollCases(s, a);
    var (s', o) := PollStep(s, a.clock, a.claim, a.ticks);
    if o.Dispatched? {
      DropIsSubsequence(s.pending, n - 1);
      assert [o.key] + s.pending[n..] == s.pending[n - 1..];
    } else {
      assert [] + s'.pending == s'.pending;
      SubsequenceSelf(s.pending);
    }
  }

  /** Whatever a step delivers or leaves queued was queued before, in the same order. */
  lemma StepQueueOrder(s: State, a: Action)
    requires CanStep(s, a) && !Step(s, a).1.Accepted?
    ensures var (s', o) := Step(s, a);
            Subsequence((if o.Dispatched? then [o.key] else []) + s'.pending, s.pending)
  {
    hide Subsequence, RemoveFirst, PollStep;
    if a.Poll? {
      PollQueueOrder(s, a);
    } else if a.Finish? {
      RemoveFirstIsSubsequence(s.pending, a.key);
      assert [] + RemoveFirst(s.pending, a.key) == RemoveFirst(s.pending, a.key);
    } else if a.Revoke? {
      NothingIsSubsequence(s.pending);
      assert [] + Step(s, a).0.pending == [];
    } else {
      assert Step(s, a).0.pending == s.pending && [] + s.pending == s.pending;
      SubsequenceSelf(s.pending);
    }
  }

  lemma NothingIsSubsequence<T>(s: seq<T>)
    ensures Subsequence([], s)
  {
  }

  lemma AcceptanceQueues(s: State, a: Action)
    requires CanStep(s, a) && Step(s, a).1.Accepted?
    ensures Step(s, a).0.pending == s.pending + [Step(s, a).1.key]
  {
    if a.Poll? {
      var n := PollCases(s, a);
    }
  }

  lemma QueueKeepsOrder(
    o: Outcome, pending: seq<Key>, pending': seq<Key>, delivered: seq<Key>, accepted: seq<Key>)
    requires Subsequence(delivered + pending, accepted)
    requires o.Accepted? ==> pending' == pending + [o.key]
    requires !o.Accepted? ==> Subsequence((if o.Dispatched? then [o.key] else []) + pending', pending)
    ensures Subsequence((delivered + if o.Dispatched? then [o.key] else []) + pending',
                        accepted + if o.Accepted? then [o.key] else [])
  {
    var d := if o.Dispatched? then [o.key] else [];
    if o.Accepted? {
      assert (delivered + d) + pending' == (delivered + pending) + [o.key];
      SubsequenceExtend(delivered + pending, accepted, o.key);
    } else {
      SubsequencePrefix(delivered, d + pending', pending);
      assert (delivered + d) + pending' == delivered + (d + pending');
      SubsequenceTransitive((delivered + d) + pending', delivered + pending, accepted);
      assert accepted + [] == accepted;
    }
  }

  lemma StepKeepsSubsequence(s: State, a: Action, delivered: seq<Key>, accepted: seq<Key>)
    requires CanStep(s, a) && Subsequence(delivered + s.pending, accepted)
    ensures var (s', o) := Step(s, a);
            var t := Transition(s, a, o, s');
            Subsequence((delivered + DeliveredBy(t)) + s'.pending, accepted + AcceptedBy(t))
  {
    if Step(s, a).1.Accepted? {
      AcceptanceQueues(s, a);
    } else {
      StepQueueOrder(s, a);
    }
    QueueKeepsOrder(Step(s, a).1, s.pending, Step(s, a).0.pending, delivered, accepted);
  }

  lemma OnlyAcceptanceOpensHistory(w: World, a: Action, k: Key)
    requires Enabled(w, a) && StateInvariant(w.state, w.clock)
    requires KeyInvariant(w.state, History(w.trace, k), k)
    ensures var t := Next(w, a).trace[|w.trace|];
            History(w.trace, k) == [] ==> (About(t, k) != [] <==> k in AcceptedBy(t))
  {
    if a.Poll? {
      var n := PollCases(w.state, a);
    }
  }

  lemma AcceptedKeyIsFresh(w: World, a: Action)
    requires Enabled(w, a)
    ensures var t := Next(w, a).trace[|w.trace|]; t.outcome.Accepted? ==> History(w.trace, t.outcome.key) == []
  {
    if a.Poll? {
      var n := PollCases(w.state, a);
    }
  }

  lemma StepKeepsOpened(w: World, a: Action, k: Key)
    requires Enabled(w, a) && StateInvariant(w.state, w.clock)
    requires KeyInvariant(w.state, History(w.trace, k), k)
    requires k in EnqueuedKeys(w.trace) <==> History(w.trace, k) != []
    ensures k in EnqueuedKeys(Next(w, a).trace) <==> History(Next(w, a).trace, k) != []
  {
    var t := Next(w, a).trace[|w.trace|];
    HistorySnoc(w.trace, t, k);
    OnlyAcceptanceOpensHistory(w, a, k);
    AcceptedKeyIsFresh(w, a);
  }

  lemma StepKeepsOrder(w: World, a: Action)
    requires Enabled(w, a) && StateInvariant(w.state, w.clock) && HistoryInvariant(w.state, w.trace)
    requires OrderInvariant(w.state, w.trace)
    ensures OrderInvariant(Next(w, a).state, Next(w, a).trace)
  {
    var w' := Next(w, a);
    var t := w'.trace[|w.trace|];
    StepKeepsSubsequence(w.state, a, DeliveredKeys(w.trace), EnqueuedKeys(w.trace));
    HistorySnoc(w.trace, t, "");
    AcceptedKeyIsFresh(w, a);
    forall k ensures k in EnqueuedKeys(w'.trace) <==> History(w'.trace, k) != [] {
      assert k in EnqueuedKeys(w.trace) <==> History(w.trace, k) != [];
      assert KeyInvariant(w.state, History(w.trace, k), k);
      StepKeepsOpened(w, a, k);
    }
  }

  lemma StepKeepsEpoch(w: World, a: Action)
    requires Enabled(w, a) && EpochInvariant(w.state, w.trace)
    ensures EpochInvariant(Next(w, a).state, Next(w, a).trace)
  {
    var w' := Next(w, a);
    forall i | 0 <= i < |w'.trace| && PollSucceeds(w'.trace[i])
      ensures w'.trace[i].action.Poll? && w'.trace[i].action.claim.Claim? && w'.state.identity.Some?
        && w'.trace[i].action.claim.epoch == Some(w'.state.identity.value.epoch)
    {
      if i < |w.trace| {
        assert w'.trace[i] == w.trace[i];
      }
    }
  }

  lemma RevokedByStep(s: State, a: Action)
    requires CanStep(s, a)
    ensures var (s', o) := Step(s, a); s'.revoked <==> s.revoked || RevokesNow(Transition(s, a, o, s'))
  {
    hide Scan;
  }

  lemma StepKeepsRevocation(w: World, a: Action)
    requires Enabled(w, a) && RevocationInvariant(w.state, w.trace)
    ensures RevocationInvariant(Next(w, a).state, Next(w, a).trace)
  {
    hide Step, RevokesNow;
    RevokedByStep(w.state, a);
    var w' := Next(w, a);
    var n := |w.trace|;
    assert w'.trace[n] == Transition(w.state, a, Step(w.state, a).1, Step(w.state, a).0);
    assert forall i :: 0 <= i < n ==> w'.trace[i] == w.trace[i];
    if w.state.revoked {
      var j :| 0 <= j < n && RevokesNow(w.trace[j]);
      assert RevokesNow(w'.trace[j]);
    }
  }

  lemma StepKeepsInv(w: World, a: Action)
    requires Enabled(w, a) && Inv(w)
    ensures Inv(Next(w, a))
  {
    StepKeepsState(w, a);
    StepKeepsHistory(w, a);
    StepKeepsOrder(w, a);
    StepKeepsEpoch(w, a);
    StepKeepsRevocation(w, a);
  }

  // ---------------------------------------------------------------- whole runs

  lemma {:induction false} RunKeepsInv(w: World, actions: seq<Action>)
    requires Legal(w, actions) && Inv(w)
    ensures Inv(Run(w, actions))
    decreases |actions|
  {
    if actions != [] {
      StepKeepsInv(w, actions[0]);
      RunKeepsInv(Next(w, actions[0]), actions[1..]);
    }
  }

  lemma ReachableHasInv(w: World)
    requires Reachable(w)
    ensures Inv(w)
  {
    var c, actions :| Produces(c, actions, w);
    assert Inv(Start(c));
    RunKeepsInv(Start(c), actions);
  }

  /** Every state of every run satisfies the session invariant. */
  lemma ReachableStateInvariant(w: World)
    requires Reachable(w)
    ensures StateInvariant(w.state, w.clock)
  {
    ReachableHasInv(w);
  }

  /**
   * Exactly one outcome per accepted request.  In every run each key was never accepted, or is
   * still in `jobs` with an open history, or is closed with one of the three finished histories.
   */
  lemma EveryRequestHasOneOutcome(w: World, key: Key)
    requires Reachable(w)
    ensures var h := History(w.trace, key);
            && (h == [] <==> key !in EnqueuedKeys(w.trace))
            && (key in w.state.jobs ==> h != [] && OpenHistory(h, w.state.jobs[key]))
            && (key !in w.state.jobs && h != [] ==> FinishedHistory(h))
  {
    ReachableHasInv(w);
    assert KeyInvariant(w.state, History(w.trace, key), key);
  }

  /** Deliveries are duplicate-free and follow the order of acceptance. */
  lemma DeliveryIsFifoAndAtMostOnce(w: World)
    requires Reachable(w)
    ensures Distinct(DeliveredKeys(w.trace))
    ensures Subsequence(DeliveredKeys(w.trace), EnqueuedKeys(w.trace))
  {
    ReachableHasInv(w);
    var delivered, accepted := DeliveredKeys(w.trace), EnqueuedKeys(w.trace);
    PrefixIsSubsequence(delivered, w.state.pending);
    SubsequenceTransitive(delivered, delivered + w.state.pending, accepted);
    SubsequenceDistinct(delivered, accepted);
  }

  lemma {:induction false} PrefixIsSubsequence<T>(a: seq<T>, b: seq<T>)
    ensures Subsequence(a, a + b)
    decreases |b|
  {
    if b == [] {
      assert a + b == a;
      SubsequenceSelf(a);
    } else {
      PrefixIsSubsequence(a, b[..|b| - 1]);
      SubsequenceWeaken(a, a + b[..|b| - 1], b[|b| - 1]);
      assert a + b[..|b| - 1] + [b[|b| - 1]] == a + b;
    }
  }

  lemma IdlePollEmptiesQueue(s: State, poll: Action)
    requires poll.Poll? && CanStep(s, poll) && Step(s, poll).1.Idle?
    ensures Step(s, poll).0.pending == [] && Step(s, poll).0.revoked == s.revoked == false
  {
    var n := PollCases(s, poll);
  }

  /** A poll that succeeds with nothing to do leaves no undelivered job with time remaining. */
  lemma IdlePollLeavesNothingWaiting(w: World, poll: Action, key: Key)
    requires Reachable(w) && poll.Poll? && Enabled(w, poll)
    requires Step(w.state, poll).1.Idle? && key in Step(w.state, poll).0.jobs
    ensures Step(w.state, poll).0.jobs[key].delivered || Step(w.state, poll).0.jobs[key].expires <= EndOf(poll)
  {
    ReachableHasInv(w);
    PollKeepsState(w, poll);
    IdlePollEmptiesQueue(w.state, poll);
    assert Next(w, poll).state == Step(w.state, poll).0;
  }

  /** All polls of a run that succeeded, with or without a delivery, claimed one device epoch. */
  lemma OneEpochPerRun(w: World, i: nat, j: nat)
    requires Reachable(w) && i < |w.trace| && j < |w.trace|
    requires PollSucceeds(w.trace[i]) && PollSucceeds(w.trace[j])
    ensures w.trace[i].action.Poll? && w.trace[i].action.claim.Claim?
    ensures w.trace[j].action.Poll? && w.trace[j].action.claim.Claim?
    ensures w.trace[i].action.claim.epoch == w.trace[j].action.claim.epoch
  {
    ReachableHasInv(w);
  }

  /** A session is revoked exactly when some earlier step revoked it, at every point of every run. */
  lemma RevokedOnlyByRevocation(w: World, i: nat)
    requires Reachable(w) && i < |w.trace|
    ensures w.trace[i].before.revoked <==> exists j :: 0 <= j < i && RevokesNow(w.trace[j])
  {
    ReachableHasInv(w);
  }

  // ---------------------------------------------------------------- revocation is absorbing

  function Finishes(actions: seq<Action>): nat {
    if actions == [] then 0 else (if actions[0].Finish? then 1 else 0) + Finishes(actions[1..])
  }

  /** Calls that a retired session answers with `scope_retired`. */
  predicate NeedsLiveSession(a: Action) {
    a.Poll? || a.AskIdentity? || a.Reply? || (a.Enqueue? && Admissible(a.body))
  }

  lemma RetiredCall(w: World, a: Action)
    requires w.state.revoked && CanStep(w.state, a)
    ensures Next(w, a).state.revoked
    ensures var t := Next(w, a).trace[|w.trace|];
            && t.action == a && (NeedsLiveSession(a) ==> t.outcome == Rejected(ScopeRetired))
            && !PollSucceeds(t) && !t.outcome.Known? && !t.outcome.Accepted?
  {
  }

  lemma RetiredStep(w: World, a: Action)
    requires Inv(w) && w.state.revoked && Enabled(w, a)
    ensures Next(w, a).state.revoked
    ensures Next(w, a).state.jobs.Keys <= w.state.jobs.Keys
    ensures |Next(w, a).state.jobs| == |w.state.jobs| - (if a.Finish? then 1 else 0)
  {
    if a.Finish? {
      FinishKeepsState(w, a);
    } else {
      assert Next(w, a).state.jobs.Keys == w.state.jobs.Keys;
      assert |Next(w, a).state.jobs| == |Next(w, a).state.jobs.Keys|;
    }
  }

  /** The transitions of a run from `w`, in order, are those of `actions`. */
  lemma {:induction false} TraceOfRun(w: World, actions: seq<Action>)
    requires Legal(w, actions)
    ensures |Run(w, actions).trace| == |w.trace| + |actions|
    ensures Run(w, actions).trace[..|w.trace|] == w.trace
    decreases |actions|
  {
    if actions == [] {
      assert w.trace[..|w.trace|] == w.trace;
    } else {
      var w1 := Next(w, actions[0]);
      TraceOfRun(w1, actions[1..]);
      var tr := Run(w, actions).trace;
      assert tr[..|w.trace|] == tr[..|w1.trace|][..|w.trace|] == w1.trace[..|w.trace|];
    }
  }

  /** No call that needs a live session succeeds after revocation. */
  lemma {:induction false} NothingSucceedsOnceRevoked(w: World, actions: seq<Action>, i: nat)
    requires w.state.revoked && Legal(w, actions) && i < |actions|
    ensures |Run(w, actions).trace| == |w.trace| + |actions|
    ensures var t := Run(w, actions).trace[|w.trace| + i];
            && t.action == actions[i] && (NeedsLiveSession(t.action) ==> t.outcome == Rejected(ScopeRetired))
            && !PollSucceeds(t) && !t.outcome.Known? && !t.outcome.Accepted?
    decreases |actions|
  {
    var w1 := Next(w, actions[0]);
    TraceOfRun(w, actions);
    RetiredCall(w, actions[0]);
    if i == 0 {
      TraceOfRun(w1, actions[1..]);
      var tr := Run(w1, actions[1..]).trace;
      assert tr[|w.trace|] == tr[..|w1.trace|][|w.trace|] == w1.trace[|w.trace|];
    } else {
      NothingSucceedsOnceRevoked(w1, actions[1..], i - 1);
    }
  }

  lemma {:induction false} RetiredRun(w: World, actions: seq<Action>)
    requires Inv(w) && w.state.revoked && Legal(w, actions)
    ensures var w' := Run(w, actions);
            && w'.state.revoked && w'.state.pending == []
            && w'.state.jobs.Keys <= w.state.jobs.Keys
            && |w'.state.jobs| + Finishes(actions) == |w.state.jobs| <= MAX_JOBS
            && forall k, c :: k in w'.state.jobs ==> CanStep(w'.state, Finish(c, k))
    decreases |actions|
  {
    if actions != [] {
      StepKeepsInv(w, actions[0]);
      RetiredStep(w, actions[0]);
      RetiredRun(Next(w, actions[0]), actions[1..]);
    }
  }

  /**
   * After revocation no job is added, every remaining waiter may finish at once, and each
   * finish removes one job: the session drains in at most eight finishes.
   */
  lemma RevocationIsAbsorbing(w: World, actions: seq<Action>)
    requires Reachable(w) && w.state.revoked && Legal(w, actions)
    ensures var w' := Run(w, actions);
            && w'.state.revoked && w'.state.pending == []
            && w'.state.jobs.Keys <= w.state.jobs.Keys
            && |w'.state.jobs| + Finishes(actions) == |w.state.jobs| <= MAX_JOBS
            && forall k, c :: k in w'.state.jobs ==> CanStep(w'.state, Finish(c, k))
  {
    ReachableHasInv(w);
    RetiredRun(w, actions);
  }

  /**
   * Epoch fencing over runs.  Once a poll of a run succeeded, a live well-formed poll with another
   * epoch is answered `device_epoch_changed`, and the session is retired in every continuation.
   */
  lemma EpochChangeRetires(w: World, i: nat, a: Action, later: seq<Action>)
    requires Reachable(w) && i < |w.trace| && PollSucceeds(w.trace[i])
    requires a.Poll? && Enabled(w, a) && Live(w.state, a.clock) && ClaimMatches(w.state, a.claim)
    requires w.trace[i].action.Poll? && w.trace[i].action.claim.Claim?
    requires a.claim.epoch != w.trace[i].action.claim.epoch
    requires Legal(Next(w, a), later)
    ensures Next(w, a).trace[|w.trace|].outcome == Rejected(DeviceEpochChanged)
    ensures var w' := Run(Next(w, a), later);
            && w'.state.revoked && w'.state.pending == [] && w'.state.jobs.Keys <= w.state.jobs.Keys
            && forall j :: |w.trace| < j < |w'.trace| ==> !PollSucceeds(w'.trace[j])
  {
    hide Inv, Step, Live, ClaimMatches;
    ReachableHasInv(w);
    StepKeepsInv(w, a);
    EpochFence(w, i, a);
    RetiredRun(Next(w, a), later);
    NoPollSucceedsLater(Next(w, a), later);
    TraceOfRun(Next(w, a), later);
  }

  lemma NoPollSucceedsLater(w: World, later: seq<Action>)
    requires w.state.revoked && Legal(w, later)
    ensures var w' := Run(w, later); forall j :: |w.trace| <= j < |w'.trace| ==> !PollSucceeds(w'.trace[j])
  {
    var w' := Run(w, later);
    TraceOfRun(w, later);
    forall j | |w.trace| <= j < |w'.trace| ensures !PollSucceeds(w'.trace[j]) {
      NothingSucceedsOnceRevoked(w, later, j - |w.trace|);
    }
  }

  lemma EpochFence(w: World, i: nat, a: Action)
    requires Inv(w) && i < |w.trace| && PollSucceeds(w.trace[i])
    requires a.Poll? && Enabled(w, a) && Live(w.state, a.clock) && ClaimMatches(w.state, a.claim)
    requires w.trace[i].action.Poll? && w.trace[i].action.claim.Claim?
    requires a.claim.epoch != w.trace[i].action.claim.epoch
    ensures Next(w, a).trace[|w.trace|].outcome == Rejected(DeviceEpochChanged)
    ensures Next(w, a).state.revoked && Next(w, a).state.jobs.Keys == w.state.jobs.Keys
  {
    assert w.state.identity.Some? && w.trace[i].action.claim.epoch == Some(w.state.identity.value.epoch);
  }

  /**
   * From every reachable world the waiter of every open job can finish without waiting beyond the
   * job's time, and whenever it finishes the job is gone with one of the finished histories.
   */
  lemma WaiterIsNeverStuck(w: World, key: Key) returns (finish: Action)
    requires Reachable(w) && key in w.state.jobs
    ensures finish.Finish? && finish.key == key && Enabled(w, finish)
    ensures finish.clock.now == w.clock || finish.clock.now == w.state.jobs[key].expires
    ensures forall a: Action | a.Finish? && a.key == key && Enabled(w, a) ::
              key !in Next(w, a).state.jobs && FinishedHistory(History(Next(w, a).trace, key))
  {
    var expires := w.state.jobs[key].expires;
    var now := if w.state.jobs[key].event || expires < w.clock then w.clock else expires;
    finish := Finish(Clock(0.0, now, now), key);
    forall a: Action | a.Finish? && a.key == key && Enabled(w, a)
      ensures key !in Next(w, a).state.jobs && FinishedHistory(History(Next(w, a).trace, key))
    {
      FinishCloses(w, key, a);
    }
  }

  lemma FinishCloses(w: World, key: Key, a: Action)
    requires Reachable(w) && key in w.state.jobs && a.Finish? && a.key == key && Enabled(w, a)
    ensures key !in Next(w, a).state.jobs && FinishedHistory(History(Next(w, a).trace, key))
  {
    hide StateInvariant, OrderInvariant, EpochInvariant, RevocationInvariant, FinishedHistory;
    ReachableHasInv(w);
    assert KeyInvariant(w.state, History(w.trace, key), key);
    StepKeepsKey(w, a, key);
    HistorySnoc(w.trace, Next(w, a).trace[|w.trace|], key);
  }
}
