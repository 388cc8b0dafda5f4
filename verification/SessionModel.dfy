/**
 * The experiment control relay's `Session` as a step machine.  Every lock-protected
 * body is one atomic step on `State`; a run interleaves steps of any number of
 * browsers, waiters and device calls.  Clock readings and job keys are parameters.
 */
module SessionModel {
  import opened Sequences

  type Key = string

  const MAX_BODY: nat := 65536
  const MAX_JOBS: nat := 8
  const OFFLINE_AFTER: real := 15.0

  /** A JSON body: whether it is an object, its encoded size, and its opaque content. */
  datatype Payload = Payload(isObject: bool, encodedBytes: nat, content: string)

  predicate Admissible(body: Payload) {
    body.isObject && body.encodedBytes <= MAX_BODY
  }

  /** The `identity` a device sends; `epoch` is None when it is not a string. */
  datatype Claim =
    | NotAnObject
    | Claim(version: int, device: string, enabled: bool, epoch: Option<string>)

  datatype Identity = Identity(version: int, device: string, epoch: string, enabled: bool)

  datatype Job = Job(request: Payload, expires: real, event: bool, response: Option<Payload>, delivered: bool)

  datatype State = State(
    device: string, expiresAt: real, deadline: real,
    jobs: map<Key, Job>, pending: seq<Key>,
    identity: Option<Identity>, lastPoll: real, revoked: bool)

  /** Readings of one lock body: wall clock, monotonic clock in `_live`, monotonic clock after it. */
  datatype Clock = Clock(wall: real, live: real, now: real)

  datatype Action =
    | Poll(clock: Clock, claim: Claim, ticks: seq<real>)
    | AskIdentity(clock: Clock)
    | Enqueue(clock: Clock, body: Payload, timeout: real, key: Key)
    | Finish(clock: Clock, key: Key)
    | Reply(clock: Clock, key: Key, body: Payload)
    | Revoke(clock: Clock)

  datatype Reason =
    | ScopeRetired | DeviceIdentityMismatch | DeviceEpochChanged | DeviceOffline | InvalidEnvelope
    | QueueFull | OutcomeUnknown | RequestRetired | InvalidResponse

  datatype Outcome =
    | Idle
    | Dispatched(key: Key, request: Payload)
    | Known(identity: Identity)
    | Accepted(key: Key)
    | Answered(response: Payload)
    | Done
    | Rejected(reason: Reason)

  // ---------------------------------------------------------------- the steps

  predicate Live(s: State, c: Clock) {
    !s.revoked && c.wall < s.expiresAt && c.live < s.deadline
  }

  predicate Digits(s: string) {
    forall i :: 0 <= i < |s| ==> '0' <= s[i] <= '9'
  }

  predicate EpochShape(e: string) {
    1 <= |e| <= 20 && e[0] != '0' && Digits(e)
  }

  predicate ClaimMatches(s: State, c: Claim) {
    c.Claim? && c.version == 1 && c.device == s.device && c.enabled && c.epoch.Some? && EpochShape(c.epoch.value)
  }

  /** `_revoke`: every waiter is woken and nothing stays queued. */
  function Retire(s: State): State {
    s.(revoked := true, jobs := map k | k in s.jobs :: s.jobs[k].(event := true), pending := [])
  }

  /** The delivery loop of `poll`: discard queued keys until one still has time left at its own reading. */
  function Scan(jobs: map<Key, Job>, pending: seq<Key>, ticks: seq<real>): (r: (Option<Key>, seq<Key>))
    requires |pending| <= |ticks|
    ensures r.0.Some? ==> r.0.value in jobs
  {
    if pending == [] then (None, [])
    else if pending[0] in jobs && jobs[pending[0]].expires > ticks[0] then (Some(pending[0]), pending[1..])
    else Scan(jobs, pending[1..], ticks[1..])
  }

  function PollStep(s: State, c: Clock, claim: Claim, ticks: seq<real>): (State, Outcome)
    requires |s.pending| <= |ticks|
  {
    if !Live(s, c) then (s, Rejected(ScopeRetired))
    else if !ClaimMatches(s, claim) then (s, Rejected(DeviceIdentityMismatch))
    else if s.identity.Some? && s.identity.value.epoch != claim.epoch.value then
      (Retire(s), Rejected(DeviceEpochChanged))
    else
      var bound := s.(
        identity := Some(Identity(claim.version, claim.device, claim.epoch.value, claim.enabled)),
        lastPoll := c.now);
      match Scan(s.jobs, s.pending, ticks)
      case (None, rest) => (bound.(pending := rest), Idle)
      case (Some(key), rest) =>
        (bound.(pending := rest, jobs := s.jobs[key := s.jobs[key].(delivered := true)]),
         Dispatched(key, s.jobs[key].request))
  }

  predicate Offline(s: State, now: real) {
    s.identity.None? || now - s.lastPoll > OFFLINE_AFTER
  }

  function IdentityStep(s: State, c: Clock): Outcome {
    if !Live(s, c) then Rejected(ScopeRetired)
    else if Offline(s, c.now) then Rejected(DeviceOffline)
    else Known(s.identity.value)
  }

  function EnqueueStep(s: State, c: Clock, body: Payload, timeout: real, key: Key): (State, Outcome) {
    if !Admissible(body) then (s, Rejected(InvalidEnvelope))
    else if !Live(s, c) then (s, Rejected(ScopeRetired))
    else if Offline(s, c.now) then (s, Rejected(DeviceOffline))
    else if |s.jobs| >= MAX_JOBS then (s, Rejected(QueueFull))
    else
      (s.(jobs := s.jobs[key := Job(body, c.now + timeout, false, None, false)], pending := s.pending + [key]),
       Accepted(key))
  }

  /** The lock body of `wait`. */
  function FinishStep(s: State, key: Key): (State, Outcome)
    requires key in s.jobs
  {
    (s.(jobs := s.jobs - {key}, pending := RemoveFirst(s.pending, key)),
     if s.jobs[key].response.Some? then Answered(s.jobs[key].response.value) else Rejected(OutcomeUnknown))
  }

  function ReplyStep(s: State, c: Clock, key: Key, body: Payload): (State, Outcome) {
    if !Live(s, c) then (s, Rejected(ScopeRetired))
    else if key !in s.jobs || !s.jobs[key].delivered || s.jobs[key].event || s.jobs[key].expires <= c.now then
      (s, Rejected(RequestRetired))
    else if !Admissible(body) then (s, Rejected(InvalidResponse))
    else (s.(jobs := s.jobs[key := s.jobs[key].(response := Some(body), event := true)]), Done)
  }

  predicate CanStep(s: State, a: Action) {
    match a
    case Poll(_, _, ticks) => |ticks| == |s.pending|
    case Finish(c, key) => key in s.jobs && (s.jobs[key].event || s.jobs[key].expires <= c.now)
    case _ => true
  }

  function Step(s: State, a: Action): (State, Outcome)
    requires CanStep(s, a)
  {
    match a
    case Poll(c, claim, ticks) => PollStep(s, c, claim, ticks)
    case AskIdentity(c) => (s, IdentityStep(s, c))
    case Enqueue(c, body, timeout, key) => EnqueueStep(s, c, body, timeout, key)
    case Finish(_, key) => FinishStep(s, key)
    case Reply(c, key, body) => ReplyStep(s, c, key, body)
    case Revoke(_) => (Retire(s), Done)
  }

  // ---------------------------------------------------------------- runs

  datatype Transition = Transition(before: State, action: Action, outcome: Outcome, after: State)

  /** A session together with the last monotonic reading and everything that happened so far. */
  datatype World = World(state: State, clock: real, trace: seq<Transition>)

  predicate Ascending(s: seq<real>) {
    forall i, j :: 0 <= i <= j < |s| ==> s[i] <= s[j]
  }

  function Readings(a: Action): (r: seq<real>)
    ensures |r| >= 2
  {
    [a.clock.live, a.clock.now] + if a.Poll? then a.ticks else []
  }

  function EndOf(a: Action): real {
    var r := Readings(a);
    r[|r| - 1]
  }

  /** The monotonic clock never goes back, keys are fresh, and a waiter finishes once woken or timed out. */
  predicate Enabled(w: World, a: Action) {
    && w.clock <= a.clock.live
    && Ascending(Readings(a))
    && CanStep(w.state, a)
    && (a.Enqueue? ==> History(w.trace, a.key) == [])
  }

  function Next(w: World, a: Action): World
    requires CanStep(w.state, a)
  {
    var (after, outcome) := Step(w.state, a);
    World(after, EndOf(a), w.trace + [Transition(w.state, a, outcome, after)])
  }

  predicate Legal(w: World, actions: seq<Action>)
    decreases |actions|
  {
    actions == [] || (Enabled(w, actions[0]) && Legal(Next(w, actions[0]), actions[1..]))
  }

  function Run(w: World, actions: seq<Action>): World
    requires Legal(w, actions)
    decreases |actions|
  {
    if actions == [] then w else Run(Next(w, actions[0]), actions[1..])
  }

  datatype Scope = Scope(device: string, expiresAt: real, deadline: real, created: real)

  /** A session as constructed from its private scope. */
  function Start(c: Scope): World {
    World(State(c.device, c.expiresAt, c.deadline, map[], [], None, 0.0, false), c.created, [])
  }

  predicate Produces(c: Scope, actions: seq<Action>, w: World) {
    Legal(Start(c), actions) && w == Run(Start(c), actions)
  }

  /** Some run of some session ends in `w`. */
  ghost predicate Reachable(w: World) {
    exists c, actions :: Produces(c, actions, w)
  }

  // ---------------------------------------------------------------- what a run did to one key

  datatype KeyEvent =
    | Queued(request: Payload, expires: real)
    | Handed(request: Payload, epoch: string, at: real)
    | Replied(response: Payload, at: real)
    | Closed(at: real, retired: bool, answer: Option<Payload>)

  /** What transition `t` did to `key`: nothing, or one event. */
  function About(t: Transition, key: Key): (r: seq<KeyEvent>)
    ensures |r| <= 1
  {
    match t.action
    case Enqueue(c, body, timeout, _) =>
      if t.outcome == Accepted(key) then [Queued(body, c.now + timeout)] else []
    case Poll(c, claim, _) =>
      if t.outcome.Dispatched? && t.outcome.key == key && claim.Claim? && claim.epoch.Some? then
        [Handed(t.outcome.request, claim.epoch.value, c.now)]
      else []
    case Reply(c, k, body) =>
      if k == key && t.outcome.Done? then [Replied(body, c.now)] else []
    case Finish(c, k) =>
      if k == key then
        [Closed(c.now, t.before.revoked, if t.outcome.Answered? then Some(t.outcome.response) else None)]
      else []
    case _ => []
  }

  /** The run projected to one key. */
  function History(trace: seq<Transition>, key: Key): seq<KeyEvent> {
    if trace == [] then []
    else History(trace[..|trace| - 1], key) + About(trace[|trace| - 1], key)
  }

  /** The history of a job whose waiter has not finished. */
  predicate OpenHistory(h: seq<KeyEvent>, j: Job) {
    && |h| == 1 + (if j.delivered then 1 else 0) + (if j.response.Some? then 1 else 0)
    && h[0] == Queued(j.request, j.expires)
    && (j.response.Some? ==> j.delivered)
    && (j.delivered ==> h[1].Handed? && h[1].request == j.request && h[1].at < j.expires)
    && (j.response.Some? ==> h[2].Replied? && h[2].response == j.response.value && h[2].at < j.expires)
  }

  /**
   * The history of a job whose waiter has finished.  It is one of: queued, closed; queued,
   * handed out, closed; queued, handed out, replied, closed.  The waiter was answered exactly
   * in the last case, with that reply; otherwise the job had expired or the session was revoked.
   */
  predicate FinishedHistory(h: seq<KeyEvent>) {
    && 2 <= |h| <= 4
    && h[0].Queued?
    && h[|h| - 1].Closed?
    && (|h| >= 3 ==> h[1].Handed? && h[1].request == h[0].request && h[1].at < h[0].expires)
    && (|h| == 4 ==> h[2].Replied? && h[2].at < h[0].expires && h[3].answer == Some(h[2].response))
    && (|h| < 4 ==> h[|h| - 1].answer == None && (h[0].expires <= h[|h| - 1].at || h[|h| - 1].retired))
  }

  function AcceptedBy(t: Transition): seq<Key> {
    if t.outcome.Accepted? then [t.outcome.key] else []
  }

  function DeliveredBy(t: Transition): seq<Key> {
    if t.outcome.Dispatched? then [t.outcome.key] else []
  }

  function EnqueuedKeys(trace: seq<Transition>): seq<Key> {
    if trace == [] then [] else EnqueuedKeys(trace[..|trace| - 1]) + AcceptedBy(trace[|trace| - 1])
  }

  function DeliveredKeys(trace: seq<Transition>): seq<Key> {
    if trace == [] then [] else DeliveredKeys(trace[..|trace| - 1]) + DeliveredBy(trace[|trace| - 1])
  }

  predicate RevokesNow(t: Transition) {
    t.action.Revoke? || t.outcome == Rejected(DeviceEpochChanged)
  }

  // ---------------------------------------------------------------- invariants

  /** What every job keeps: queued, delivered, expired or retired, and woken only by a reply or a revocation. */
  predicate JobInvariant(j: Job, queued: bool, revoked: bool, clock: real) {
    && (queued ==> !j.delivered)
    && (queued || j.delivered || j.expires <= clock || revoked)
    && (j.response.Some? ==> j.delivered && j.event)
    && (j.event && j.response.None? ==> revoked)
    && (revoked ==> j.event)
  }

  /** What every reachable session state keeps. */
  ghost predicate StateInvariant(s: State, clock: real) {
    && |s.jobs| <= MAX_JOBS
    && Distinct(s.pending)
    && (forall k :: k in s.pending ==> k in s.jobs)
    && (forall k :: k in s.jobs ==> JobInvariant(s.jobs[k], k in s.pending, s.revoked, clock))
    && (s.revoked ==> s.pending == [])
  }

  ghost predicate HistoryInvariant(s: State, trace: seq<Transition>) {
    forall k :: KeyInvariant(s, History(trace, k), k)
  }

  ghost predicate KeyInvariant(s: State, h: seq<KeyEvent>, k: Key) {
    if k in s.jobs then OpenHistory(h, s.jobs[k]) else h == [] || FinishedHistory(h)
  }

  ghost predicate OrderInvariant(s: State, trace: seq<Transition>) {
    && Distinct(EnqueuedKeys(trace))
    && (forall k :: k in EnqueuedKeys(trace) <==> History(trace, k) != [])
    && Subsequence(DeliveredKeys(trace) + s.pending, EnqueuedKeys(trace))
  }

  /** A poll that passed the identity checks, whether or not it had something to deliver. */
  predicate PollSucceeds(t: Transition) {
    t.outcome.Idle? || t.outcome.Dispatched?
  }

  ghost predicate EpochInvariant(s: State, trace: seq<Transition>) {
    forall i :: 0 <= i < |trace| && PollSucceeds(trace[i]) ==>
      trace[i].action.Poll? && trace[i].action.claim.Claim? && s.identity.Some?
      && trace[i].action.claim.epoch == Some(s.identity.value.epoch)
  }

  ghost predicate RevocationInvariant(s: State, trace: seq<Transition>) {
    && (s.revoked <==> exists j :: 0 <= j < |trace| && RevokesNow(trace[j]))
    && forall i :: 0 <= i < |trace| ==>
         (trace[i].before.revoked <==> exists j :: 0 <= j < i && RevokesNow(trace[j]))
  }

  ghost predicate Inv(w: World) {
    && StateInvariant(w.state, w.clock)
    && HistoryInvariant(w.state, w.trace)
    && OrderInvariant(w.state, w.trace)
    && EpochInvariant(w.state, w.trace)
    && RevocationInvariant(w.state, w.trace)
  }
}
