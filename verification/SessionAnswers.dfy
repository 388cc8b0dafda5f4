/**
 * What each call of a session is answered, told from the scope and from what happened before.
 * The statements speak of the trace only: no field of the session appears in them.
 */
module SessionAnswers {
  import opened Sequences
  import opened SessionModel
  import opened SessionRuns

  // ---------------------------------------------------------------- facts about a trace

  /** `i` is the last poll that succeeded. */
  predicate LastPoll(trace: seq<Transition>, i: nat) {
    && i < |trace| && PollSucceeds(trace[i]) && trace[i].action.Poll?
    && forall j | i < j < |trace| :: !PollSucceeds(trace[j])
  }

  /** The session was not revoked, and neither of its clocks has run out at `k`. */
  predicate InScope(c: Scope, trace: seq<Transition>, k: Clock) {
    && (forall j | 0 <= j < |trace| ::
          !trace[j].action.Revoke? && trace[j].outcome != Rejected(DeviceEpochChanged))
    && k.wall < c.expiresAt && k.live < c.deadline
  }

  /** The device polled successfully at most fifteen seconds before `now`. */
  ghost predicate Online(trace: seq<Transition>, now: real) {
    exists i: nat :: LastPoll(trace, i) && now - trace[i].action.clock.now <= 15.0
  }

  /** A decimal number without leading zero, of at most twenty digits. */
  predicate Decimal(s: string) {
    && 1 <= |s| <= 20 && s[0] in "123456789"
    && forall k | 0 <= k < |s| :: s[k] in "0123456789"
  }

  predicate WellFormed(c: Scope, claim: Claim) {
    && claim.Claim? && claim.version == 1 && claim.device == c.device && claim.enabled == true
    && claim.epoch.Some? && Decimal(claim.epoch.value)
  }

  /** Some earlier successful poll claimed another epoch. */
  predicate OtherEpoch(trace: seq<Transition>, epoch: Option<string>) {
    exists i | 0 <= i < |trace| ::
      PollSucceeds(trace[i]) && trace[i].action.Poll? && trace[i].action.claim.Claim?
      && trace[i].action.claim.epoch != epoch
  }

  /** An object of at most 65536 encoded bytes. */
  predicate Envelope(body: Payload) {
    body.isObject == true && body.encodedBytes <= 65536
  }

  /** How many waiters have finished. */
  function Finished(trace: seq<Transition>): nat {
    if trace == [] then 0
    else Finished(trace[..|trace| - 1]) + if trace[|trace| - 1].action.Finish? then 1 else 0
  }

  // ---------------------------------------------------------------- the session remembers them

  ghost predicate Remembers(c: Scope, w: World) {
    && w.state.device == c.device && w.state.expiresAt == c.expiresAt && w.state.deadline == c.deadline
    && (w.state.identity.None? ==> forall i | 0 <= i < |w.trace| :: !PollSucceeds(w.trace[i]))
    && (w.state.identity.Some? ==> exists i: nat :: LastPoll(w.trace, i))
    && (forall i: nat | LastPoll(w.trace, i) :: RemembersPoll(c, w.state, w.trace[i].action))
    && |w.state.jobs| + Finished(w.trace) == |EnqueuedKeys(w.trace)|
  }

  ghost predicate RemembersPoll(c: Scope, s: State, a: Action)
    requires a.Poll?
  {
    && s.lastPoll == a.clock.now && a.claim.Claim? && a.claim.epoch.Some?
    && s.identity == Some(Identity(1, c.device, a.claim.epoch.value, true))
  }

  lemma SnocFacts(trace: seq<Transition>, t: Transition)
    ensures Finished(trace + [t]) == Finished(trace) + if t.action.Finish? then 1 else 0
    ensures PollSucceeds(t) && t.action.Poll? ==> LastPoll(trace + [t], |trace|)
    ensures forall i: nat | LastPoll(trace + [t], i) :: if PollSucceeds(t) then i == |trace| else LastPoll(trace, i)
    ensures !PollSucceeds(t) ==> forall i: nat | LastPoll(trace, i) :: LastPoll(trace + [t], i)
  {
    var trace' := trace + [t];
    assert trace'[..|trace'| - 1] == trace;
    assert trace'[|trace|] == t && forall i | 0 <= i < |trace| :: trace'[i] == trace[i];
  }

  /** Only a successful poll changes what is remembered of polls; no call changes the scope. */
  lemma StepRemembers(s: State, a: Action)
    requires CanStep(s, a)
    ensures var (s', o) := Step(s, a);
            && s'.device == s.device && s'.expiresAt == s.expiresAt && s'.deadline == s.deadline
            && (o.Idle? || o.Dispatched? ==>
                  && a.Poll? && a.claim.Claim? && a.claim.epoch.Some? && a.claim.version == 1
                  && s'.lastPoll == a.clock.now
                  && s'.identity == Some(Identity(1, s.device, a.claim.epoch.value, true)))
            && (!(o.Idle? || o.Dispatched?) ==> s'.lastPoll == s.lastPoll && s'.identity == s.identity)
  {
    hide Scan;
  }

  /** Only acceptance adds a job and only a finish removes one. */
  lemma StepKeys(s: State, a: Action)
    requires CanStep(s, a)
    ensures var (s', o) := Step(s, a);
            && (a.Finish? ==> s'.jobs.Keys == s.jobs.Keys - {a.key} && a.key in s.jobs)
            && (o.Accepted? ==> a.Enqueue? && o.key == a.key && s'.jobs.Keys == s.jobs.Keys + {a.key})
            && (!a.Finish? && !o.Accepted? ==> s'.jobs.Keys == s.jobs.Keys)
  {
    hide Scan;
  }

  lemma StepCounts(w: World, a: Action)
    requires Enabled(w, a) && Inv(w)
    ensures var t := Next(w, a).trace[|w.trace|];
            |Next(w, a).state.jobs| + (if a.Finish? then 1 else 0) == |w.state.jobs| + |AcceptedBy(t)|
  {
    hide Step, StateInvariant, OrderInvariant, EpochInvariant, RevocationInvariant, OpenHistory, FinishedHistory;
    var s, s' := w.state, Next(w, a).state;
    StepKeys(s, a);
    assert |s'.jobs| == |s'.jobs.Keys| && |s.jobs| == |s.jobs.Keys|;
    if a.Enqueue? {
      assert KeyInvariant(s, History(w.trace, a.key), a.key);
      FreshKey(w, a);
    }
  }

  lemma FreshKey(w: World, a: Action)
    requires Enabled(w, a) && a.Enqueue? && KeyInvariant(w.state, History(w.trace, a.key), a.key)
    ensures a.key !in w.state.jobs
  {
  }

  lemma NextRemembers(c: Scope, w: World, a: Action)
    requires Enabled(w, a) && Inv(w) && Remembers(c, w)
    ensures Remembers(c, Next(w, a))
  {
    hide Step, Inv, RemembersPoll, PollSucceeds, LastPoll;
    var w' := Next(w, a);
    var t := w'.trace[|w.trace|];
    assert w'.trace == w.trace + [t];
    StepRemembers(w.state, a);
    StepCounts(w, a);
    SnocFacts(w.trace, t);
    HistorySnoc(w.trace, t, "");
    PollRemembered(c, w, a);
    forall i: nat | LastPoll(w'.trace, i) ensures i < |w'.trace| && w'.trace[i].action.Poll? {
      LastPollIsPoll(w'.trace, i);
    }
    if w'.state.identity.Some? && !PollSucceeds(t) {
      var i: nat :| LastPoll(w.trace, i);
      assert LastPoll(w'.trace, i);
    }
    forall i: nat | LastPoll(w'.trace, i) ensures RemembersPoll(c, w'.state, w'.trace[i].action) {
      if !PollSucceeds(t) {
        LastPollIsPoll(w.trace, i);
        assert w'.trace[i] == w.trace[i];
      }
    }
  }

  lemma LastPollIsPoll(trace: seq<Transition>, i: nat)
    requires LastPoll(trace, i)
    ensures i < |trace| && trace[i].action.Poll?
  {
  }

  lemma PollRemembered(c: Scope, w: World, a: Action)
    requires Enabled(w, a) && Remembers(c, w)
    ensures var (t, s') := (Next(w, a).trace[|w.trace|], Next(w, a).state);
            && (PollSucceeds(t) ==> t.action == a && a.Poll? && RemembersPoll(c, s', a) && s'.identity.Some?)
            && (!PollSucceeds(t) ==>
                  && s'.identity == w.state.identity
                  && forall i: nat | LastPoll(w.trace, i) :: RemembersPoll(c, s', w.trace[i].action))
            && (s'.identity.None? ==> !PollSucceeds(t) && w.state.identity.None?)
  {
    hide Step;
    StepRemembers(w.state, a);
  }

  lemma {:induction false} RunRemembers(c: Scope, w: World, actions: seq<Action>)
    requires Legal(w, actions) && Inv(w) && Remembers(c, w)
    ensures Remembers(c, Run(w, actions))
    decreases |actions|
  {
    hide Remembers, Inv, Step;
    if actions != [] {
      StepKeepsInv(w, actions[0]);
      NextRemembers(c, w, actions[0]);
      RunRemembers(c, Next(w, actions[0]), actions[1..]);
    }
  }

  lemma ProducedRemembers(c: Scope, actions: seq<Action>, w: World)
    requires Produces(c, actions, w)
    ensures Remembers(c, w) && Inv(w)
  {
    hide Run;
    assert Inv(Start(c)) && Remembers(c, Start(c));
    RunKeepsInv(Start(c), actions);
    RunRemembers(c, Start(c), actions);
  }

  lemma LiveIff(c: Scope, w: World, k: Clock)
    requires Remembers(c, w) && Inv(w)
    ensures Live(w.state, k) <==> InScope(c, w.trace, k)
  {
    hide StateInvariant, HistoryInvariant, OrderInvariant, EpochInvariant;
    if w.state.revoked {
      var j :| 0 <= j < |w.trace| && RevokesNow(w.trace[j]);
    } else {
      forall j | 0 <= j < |w.trace| ensures !RevokesNow(w.trace[j]) {}
    }
  }

  lemma OfflineIff(c: Scope, w: World, now: real)
    requires Remembers(c, w)
    ensures Offline(w.state, now) <==> !Online(w.trace, now)
  {
    if w.state.identity.Some? {
      var i: nat :| LastPoll(w.trace, i);
      forall j: nat | LastPoll(w.trace, j) ensures i == j {}
    }
  }

  lemma DigitIff(d: char)
    ensures d in "0123456789" <==> '0' <= d <= '9'
    ensures d in "123456789" <==> '0' < d <= '9'
  {
  }

  lemma DecimalIff(e: string)
    ensures EpochShape(e) <==> Decimal(e)
  {
    forall k | 0 <= k < |e| ensures e[k] in "0123456789" <==> '0' <= e[k] <= '9' {
      DigitIff(e[k]);
    }
    if e != "" {
      DigitIff(e[0]);
    }
  }

  lemma ClaimIff(c: Scope, w: World, claim: Claim)
    requires Remembers(c, w)
    ensures ClaimMatches(w.state, claim) <==> WellFormed(c, claim)
  {
    if claim.Claim? && claim.epoch.Some? {
      DecimalIff(claim.epoch.value);
    }
  }

  lemma EpochIff(c: Scope, w: World, epoch: string)
    requires Remembers(c, w) && Inv(w)
    ensures w.state.identity.Some? && w.state.identity.value.epoch != epoch <==> OtherEpoch(w.trace, Some(epoch))
  {
    hide StateInvariant, HistoryInvariant, OrderInvariant, RevocationInvariant;
    if w.state.identity.Some? {
      var i: nat :| LastPoll(w.trace, i);
      assert PollSucceeds(w.trace[i]) && RemembersPoll(c, w.state, w.trace[i].action);
    }
  }

  // ---------------------------------------------------------------- the answers

  function Answer(w: World, a: Action): Outcome
    requires CanStep(w.state, a)
  {
    Next(w, a).trace[|w.trace|].outcome
  }

  /**
   * An identity read is answered with what the last successful poll claimed if and only if the
   * session is in scope and that poll was at most fifteen seconds ago.
   */
  lemma AnswerToIdentityRead(c: Scope, actions: seq<Action>, w: World, a: Action)
    requires Produces(c, actions, w) && a.AskIdentity? && Enabled(w, a)
    ensures !InScope(c, w.trace, a.clock) ==> Answer(w, a) == Rejected(ScopeRetired)
    ensures InScope(c, w.trace, a.clock) && !Online(w.trace, a.clock.now) ==> Answer(w, a) == Rejected(DeviceOffline)
    ensures InScope(c, w.trace, a.clock) && Online(w.trace, a.clock.now) ==>
              exists i: nat :: LastPoll(w.trace, i) && w.trace[i].action.claim.Claim?
                && w.trace[i].action.claim.epoch.Some?
                && Answer(w, a) == Known(Identity(1, c.device, w.trace[i].action.claim.epoch.value, true))
    ensures Next(w, a).state == w.state
  {
    hide Produces, Inv, InScope;
    ProducedRemembers(c, actions, w);
    LiveIff(c, w, a.clock);
    OfflineIff(c, w, a.clock.now);
    if Online(w.trace, a.clock.now) {
      var i: nat :| LastPoll(w.trace, i) && a.clock.now - w.trace[i].action.clock.now <= 15.0;
      assert RemembersPoll(c, w.state, w.trace[i].action);
    }
  }

  /**
   * An enqueue is accepted if and only if its body is an envelope, the session is in scope, the device
   * is online and fewer than eight accepted requests are unfinished; each refusal has its reason.
   */
  lemma AnswerToEnqueue(c: Scope, actions: seq<Action>, w: World, a: Action)
    requires Produces(c, actions, w) && a.Enqueue? && Enabled(w, a)
    ensures var open := |EnqueuedKeys(w.trace)| - Finished(w.trace);
            Answer(w, a) ==
            if !Envelope(a.body) then Rejected(InvalidEnvelope)
            else if !InScope(c, w.trace, a.clock) then Rejected(ScopeRetired)
            else if !Online(w.trace, a.clock.now) then Rejected(DeviceOffline)
            else if open >= 8 then Rejected(QueueFull)
            else Accepted(a.key)
  {
    hide Produces, Inv, InScope, Online;
    ProducedRemembers(c, actions, w);
    LiveIff(c, w, a.clock);
    OfflineIff(c, w, a.clock.now);
  }

  /**
   * A poll succeeds if and only if the session is in scope, the claim is well formed and no earlier
   * successful poll claimed another epoch; each refusal has its reason.
   */
  lemma AnswerToPoll(c: Scope, actions: seq<Action>, w: World, a: Action)
    requires Produces(c, actions, w) && a.Poll? && Enabled(w, a)
    ensures !InScope(c, w.trace, a.clock) ==> Answer(w, a) == Rejected(ScopeRetired)
    ensures InScope(c, w.trace, a.clock) && !WellFormed(c, a.claim) ==> Answer(w, a) == Rejected(DeviceIdentityMismatch)
    ensures InScope(c, w.trace, a.clock) && WellFormed(c, a.claim) ==>
              if OtherEpoch(w.trace, a.claim.epoch) then Answer(w, a) == Rejected(DeviceEpochChanged)
              else Answer(w, a).Idle? || Answer(w, a).Dispatched?
  {
    hide Produces, Inv, InScope, Scan, WellFormed, OtherEpoch;
    ProducedRemembers(c, actions, w);
    LiveIff(c, w, a.clock);
    ClaimIff(c, w, a.claim);
    if ClaimMatches(w.state, a.claim) {
      EpochIff(c, w, a.claim.epoch.value);
    }
  }

  /** The request was accepted and handed out, and neither answered nor given up. */
  predicate Awaiting(h: seq<KeyEvent>, now: real) {
    |h| == 2 && h[0].Queued? && h[1].Handed? && now < h[0].expires
  }

  /**
   * A reply is accepted if and only if the session is in scope, its key was handed out and is still
   * awaiting an answer in time, and its body is an envelope; each refusal has its reason.
   */
  lemma AnswerToReply(c: Scope, actions: seq<Action>, w: World, a: Action)
    requires Produces(c, actions, w) && a.Reply? && Enabled(w, a)
    ensures Answer(w, a) ==
            if !InScope(c, w.trace, a.clock) then Rejected(ScopeRetired)
            else if !Awaiting(History(w.trace, a.key), a.clock.now) then Rejected(RequestRetired)
            else if !Envelope(a.body) then Rejected(InvalidResponse)
            else Done
  {
    hide Produces, InScope, OrderInvariant, EpochInvariant, RevocationInvariant;
    ProducedRemembers(c, actions, w);
    LiveIff(c, w, a.clock);
    if !w.state.revoked {
      AwaitingIff(w, a.key, a.clock.now);
    }
  }

  lemma AwaitingIff(w: World, key: Key, now: real)
    requires Inv(w) && !w.state.revoked
    ensures var jobs := w.state.jobs;
            Awaiting(History(w.trace, key), now) <==>
            key in jobs && jobs[key].delivered && !jobs[key].event && now < jobs[key].expires
  {
    hide OrderInvariant, EpochInvariant, RevocationInvariant;
    assert KeyInvariant(w.state, History(w.trace, key), key);
    if key in w.state.jobs {
      assert JobInvariant(w.state.jobs[key], key in w.state.pending, w.state.revoked, w.clock);
    }
  }

  // ---------------------------------------------------------------- which request a poll delivers

  predicate Before(s: seq<Key>, x: Key, y: Key) {
    exists i, j | 0 <= i < j < |s| :: s[i] == x && s[j] == y
  }

  /** A subsequence keeps the order of its elements. */
  lemma {:induction false} SubsequenceKeepsOrder(a: seq<Key>, b: seq<Key>, i: nat, j: nat)
    requires Subsequence(a, b) && i < j < |a|
    ensures Before(b, a[i], a[j])
    decreases |b|
  {
    var b' := b[..|b| - 1];
    if a[|a| - 1] == b[|b| - 1] {
      var a' := a[..|a| - 1];
      if j < |a'| {
        SubsequenceKeepsOrder(a', b', i, j);
        var k, l :| 0 <= k < l < |b'| && b'[k] == a'[i] && b'[l] == a'[j];
        assert b[k] == a[i] && b[l] == a[j];
      } else {
        assert a[i] in a' by { assert a'[i] == a[i]; }
        SubsequenceMember(a', b', a[i]);
        var k :| 0 <= k < |b'| && b'[k] == a[i];
        assert b[k] == a[i] && b[|b| - 1] == a[j];
      }
    } else {
      SubsequenceKeepsOrder(a, b', i, j);
      var k, l :| 0 <= k < l < |b'| && b'[k] == a[i] && b'[l] == a[j];
      assert b[k] == a[i] && b[l] == a[j];
    }
  }

  lemma OrderIsStrict(s: seq<Key>, x: Key, y: Key)
    requires Distinct(s) && Before(s, x, y)
    ensures !Before(s, y, x)
  {
  }

  /**
   * A poll that delivers hands out a request that was accepted and never handed out, with its own
   * body and with time left; every request accepted before it and still only queued has expired.
   */
  lemma PollDeliversOldest(w: World, a: Action, other: Key)
    requires Reachable(w) && a.Poll? && Enabled(w, a) && Answer(w, a).Dispatched?
    ensures var h := History(w.trace, Answer(w, a).key);
            |h| == 1 && h[0].Queued? && h[0].request == Answer(w, a).request && a.clock.now < h[0].expires
    ensures Before(EnqueuedKeys(w.trace), other, Answer(w, a).key) && |History(w.trace, other)| == 1
              && History(w.trace, other)[0].Queued? ==>
              History(w.trace, other)[0].expires <= EndOf(a)
  {
    ReachableHasInv(w);
    var n := PollCases(w.state, a);
    var m := ScanSpec(w.state.jobs, w.state.pending, a.ticks);
    DeliveredIsQueued(w, a, n);
    var key := Answer(w, a).key;
    if Before(EnqueuedKeys(w.trace), other, key) && |History(w.trace, other)| == 1
       && History(w.trace, other)[0].Queued? {
      QueuedOnlyIff(w, other);
      EarlierHasExpired(w, a, other, key);
    }
  }

  lemma DeliveredIsQueued(w: World, a: Action, n: nat)
    requires Inv(w) && a.Poll? && Enabled(w, a) && Answer(w, a).Dispatched?
    requires 0 < n <= |w.state.pending| && Answer(w, a).key == w.state.pending[n - 1]
    requires var key := w.state.pending[n - 1];
             && key in w.state.jobs && w.state.jobs[key].expires > a.ticks[n - 1]
             && Answer(w, a).request == w.state.jobs[key].request
    ensures var h := History(w.trace, Answer(w, a).key);
            |h| == 1 && h[0].Queued? && h[0].request == Answer(w, a).request && a.clock.now < h[0].expires
  {
    hide Step, OrderInvariant, EpochInvariant, RevocationInvariant;
    var key := w.state.pending[n - 1];
    assert key in w.state.pending;
    assert KeyInvariant(w.state, History(w.trace, key), key);
    assert JobInvariant(w.state.jobs[key], true, w.state.revoked, w.clock);
    TickBounds(a, n - 1);
  }

  /** A history of one event belongs to an open job that was not handed out. */
  lemma QueuedOnlyIff(w: World, key: Key)
    requires Inv(w) && |History(w.trace, key)| == 1
    ensures key in w.state.jobs && !w.state.jobs[key].delivered
    ensures History(w.trace, key)[0] == Queued(w.state.jobs[key].request, w.state.jobs[key].expires)
  {
    hide StateInvariant, OrderInvariant, EpochInvariant, RevocationInvariant;
    assert KeyInvariant(w.state, History(w.trace, key), key);
  }

  lemma EarlierHasExpired(w: World, a: Action, other: Key, key: Key)
    requires Inv(w) && a.Poll? && Enabled(w, a) && Answer(w, a).Dispatched? && Answer(w, a).key == key
    requires Before(EnqueuedKeys(w.trace), other, key) && other in w.state.jobs && !w.state.jobs[other].delivered
    ensures w.state.jobs[other].expires <= EndOf(a)
  {
    hide HistoryInvariant, EpochInvariant, RevocationInvariant, Before;
    ClockAdvances(w, a);
    var s := w.state;
    var m := ScanSpec(s.jobs, s.pending, a.ticks);
    assert JobInvariant(s.jobs[other], other in s.pending, s.revoked, w.clock);
    if other in s.pending {
      var i :| 0 <= i < |s.pending| && s.pending[i] == other;
      PendingInOrder(w);
      if i > m - 1 {
        SubsequenceKeepsOrder(s.pending, EnqueuedKeys(w.trace), m - 1, i);
        OrderIsStrict(EnqueuedKeys(w.trace), other, key);
      } else if i == m - 1 {
        OrderIsStrict(EnqueuedKeys(w.trace), other, key);
      } else {
        TickBounds(a, i);
      }
    }
  }

  lemma PendingInOrder(w: World)
    requires OrderInvariant(w.state, w.trace)
    ensures Subsequence(w.state.pending, EnqueuedKeys(w.trace)) && Distinct(EnqueuedKeys(w.trace))
  {
    var delivered, pending := DeliveredKeys(w.trace), w.state.pending;
    DropIsSubsequence(delivered + pending, |delivered|);
    assert (delivered + pending)[|delivered|..] == pending;
    SubsequenceTransitive(pending, delivered + pending, EnqueuedKeys(w.trace));
  }
}
