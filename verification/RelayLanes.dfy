/**
 * The relay server: connections authenticate, claim a slot of their lane under the lock, and the
 * connection that completes a lane starts its forwarder.  Every handler and forwarder is a thread;
 * a run is any interleaving of their steps.
 */
module RelayLanes {
  import opened Octets
  import opened Sequences
  import opened RelayCodec

  type Conn = nat

  datatype Key = Key(session: seq<Byte>, channel: seq<Byte>)

  datatype Role = Sender | Receiver

  /** A connection: all the bytes its peer sends, those not yet received, and those sent to it. */
  datatype Peer = Peer(stream: seq<Byte>, remaining: seq<Byte>, delivered: seq<Byte>)

  /** Where a handler thread stands. */
  datatype Handler =
    | Authenticating
    | Claiming(role: Role, key: Key)
    | Starting(key: Key)
    | Waiting(key: Key)
    | Gone

  /** Where a forwarder thread stands: about to receive, send, or make one of its counter updates. */
  datatype Forwarder = AtRecv | AtSend(chunk: seq<Byte>) | AtBytes(size: nat) | AtChunks | AtDone | Finished

  /** `sent` records the sizes of the chunks whose send succeeded. */
  datatype Lane = Lane(
    sender: Option<Conn>, receiver: Option<Conn>, done: bool, error: bool, bytes: nat, chunks: nat,
    forwarder: Option<Forwarder>, sent: seq<nat>)

  const EMPTY_LANE: Lane := Lane(None, None, false, false, 0, 0, None, [])

  datatype Claim = Claim(key: Key, role: Role, conn: Conn)

  /** `claims` and `starts` record every slot write and every forwarder start. */
  datatype World = World(
    peers: map<Conn, Peer>, handlers: map<Conn, Handler>, lanes: map<Key, Lane>, claims: seq<Claim>, starts: seq<Key>)

  datatype Action =
    | Accept(conn: Conn, stream: seq<Byte>)
    | Authenticate(conn: Conn)
    | ClaimSlot(conn: Conn)
    | StartForward(conn: Conn)
    | Leave(conn: Conn)
    | Receive(key: Key, size: nat)
    | Deliver(key: Key, size: nat, ok: bool)
    | CountBytes(key: Key)
    | CountChunk(key: Key)
    | Break(key: Key)
    | Complete(key: Key)

  const START: World := World(map[], map[], map[], [], [])

  // ---------------------------------------------------------------- steps

  function Slot(l: Lane, r: Role): Option<Conn> {
    if r.Sender? then l.sender else l.receiver
  }

  function Fill(l: Lane, r: Role, c: Conn): Lane {
    if r.Sender? then l.(sender := Some(c)) else l.(receiver := Some(c))
  }

  predicate Paired(l: Lane) {
    l.sender.Some? && l.receiver.Some?
  }

  predicate Forwarding(w: World, key: Key) {
    && key in w.lanes && w.lanes[key].forwarder.Some? && Paired(w.lanes[key])
    && w.lanes[key].sender.value in w.peers && w.lanes[key].receiver.value in w.peers
  }

  predicate Enabled(w: World, a: Action) {
    match a
    case Accept(c, _) => c !in w.peers && c !in w.handlers
    case Authenticate(c) => c in w.peers && c in w.handlers && w.handlers[c].Authenticating?
    case ClaimSlot(c) => c in w.handlers && w.handlers[c].Claiming?
    case StartForward(c) => c in w.handlers && w.handlers[c].Starting? && w.handlers[c].key in w.lanes
    case Leave(c) => c in w.handlers && !w.handlers[c].Claiming?
    case Receive(k, size) =>
      && Forwarding(w, k) && w.lanes[k].forwarder.value.AtRecv? && size <= COPY_BUFFER_BYTES
      && size <= |w.peers[w.lanes[k].sender.value].remaining|
      && (size == 0 ==> w.peers[w.lanes[k].sender.value].remaining == [])
    case Deliver(k, size, ok) =>
      && Forwarding(w, k) && w.lanes[k].forwarder.value.AtSend? && size <= |w.lanes[k].forwarder.value.chunk|
      && (ok ==> size == |w.lanes[k].forwarder.value.chunk|)
    case CountBytes(k) => Forwarding(w, k) && w.lanes[k].forwarder.value.AtBytes?
    case CountChunk(k) => Forwarding(w, k) && w.lanes[k].forwarder.value.AtChunks?
    case Break(k) => Forwarding(w, k) && w.lanes[k].forwarder.value.AtRecv?
    case Complete(k) => Forwarding(w, k) && w.lanes[k].forwarder.value.AtDone?
  }

  /** The lock body of `_handle`. */
  function ClaimStep(w: World, c: Conn, role: Role, key: Key): World {
    var lane := if key in w.lanes then w.lanes[key] else EMPTY_LANE;
    if Slot(lane, role).Some? then
      w.(lanes := w.lanes[key := lane.(error := true, done := true)], handlers := w.handlers[c := Gone])
    else
      var filled := Fill(lane, role, c);
      w.(lanes := w.lanes[key := filled],
         handlers := w.handlers[c := if Paired(filled) then Starting(key) else Waiting(key)],
         claims := w.claims + [Claim(key, role, c)])
  }

  function SetForwarder(w: World, key: Key, f: Forwarder): World
    requires key in w.lanes
  {
    w.(lanes := w.lanes[key := w.lanes[key].(forwarder := Some(f))])
  }

  /** `size` bytes, or the end of the stream when it is 0, arrive from the sender. */
  function ReceiveStep(w: World, key: Key, size: nat): World
    requires Enabled(w, Receive(key, size))
  {
    if size == 0 then SetForwarder(w, key, AtDone)
    else
      var s := w.lanes[key].sender.value;
      var p := w.peers[s];
      SetForwarder(w, key, AtSend(p.remaining[..size])).(
        peers := w.peers[s := p.(remaining := p.remaining[size..])])
  }

  /** `size` bytes of the chunk reach the receiver, and the send then succeeds or raises. */
  function DeliverStep(w: World, key: Key, size: nat, ok: bool): World
    requires Enabled(w, Deliver(key, size, ok))
  {
    var r := w.lanes[key].receiver.value;
    var p := w.peers[r];
    var chunk := w.lanes[key].forwarder.value.chunk;
    var sent := w.(peers := w.peers[r := p.(delivered := p.delivered + chunk[..size])]);
    if ok then
      var l := w.lanes[key];
      sent.(lanes := w.lanes[key := l.(forwarder := Some(AtBytes(size)), sent := l.sent + [size])])
    else sent.(lanes := sent.lanes[key := sent.lanes[key].(forwarder := Some(AtDone), error := true)])
  }

  function AuthenticateStep(token: Text, w: World, c: Conn): World
    requires Enabled(w, Authenticate(c))
  {
    match TakeAuthentication(w.peers[c].stream, token)
    case Failed(_) => w.(handlers := w.handlers[c := Gone])
    case Ok(a, rest) =>
      w.(handlers := w.handlers[c := Claiming(if a.role == ROLE_SENDER then Sender else Receiver,
                                              Key(a.session, a.channel))],
         peers := w.peers[c := w.peers[c].(remaining := rest)])
  }

  /** A handler ends: refused, finished waiting, or unable to start the forwarder it should start. */
  function LeaveStep(w: World, c: Conn): World
    requires c in w.handlers
  {
    var left := w.(handlers := w.handlers[c := Gone]);
    if w.handlers[c].Starting? && w.handlers[c].key in w.lanes then
      left.(lanes := w.lanes[w.handlers[c].key := w.lanes[w.handlers[c].key].(error := true, done := true)])
    else left
  }

  function Next(token: Text, w: World, a: Action): World
    requires Enabled(w, a)
  {
    match a
    case Accept(c, stream) =>
      w.(peers := w.peers[c := Peer(stream, stream, [])], handlers := w.handlers[c := Authenticating])
    case Authenticate(c) => AuthenticateStep(token, w, c)
    case ClaimSlot(c) => ClaimStep(w, c, w.handlers[c].role, w.handlers[c].key)
    case StartForward(c) =>
      var key := w.handlers[c].key;
      SetForwarder(w, key, AtRecv).(handlers := w.handlers[c := Waiting(key)], starts := w.starts + [key])
    case Leave(c) => LeaveStep(w, c)
    case Receive(key, size) => ReceiveStep(w, key, size)
    case Deliver(key, size, ok) => DeliverStep(w, key, size, ok)
    case CountBytes(key) =>
      var l := w.lanes[key];
      w.(lanes := w.lanes[key := l.(bytes := l.bytes + l.forwarder.value.size, forwarder := Some(AtChunks))])
    case CountChunk(key) =>
      var l := w.lanes[key];
      w.(lanes := w.lanes[key := l.(chunks := l.chunks + 1, forwarder := Some(AtRecv))])
    case Break(key) => w.(lanes := w.lanes[key := w.lanes[key].(forwarder := Some(AtDone), error := true)])
    case Complete(key) => w.(lanes := w.lanes[key := w.lanes[key].(forwarder := Some(Finished), done := true)])
  }

  predicate Legal(token: Text, w: World, actions: seq<Action>)
    decreases |actions|
  {
    actions == [] || (Enabled(w, actions[0]) && Legal(token, Next(token, w, actions[0]), actions[1..]))
  }

  function Run(token: Text, w: World, actions: seq<Action>): World
    requires Legal(token, w, actions)
    decreases |actions|
  {
    if actions == [] then w else Run(token, Next(token, w, actions[0]), actions[1..])
  }

  ghost predicate Reachable(token: Text, w: World) {
    exists actions :: Legal(token, START, actions) && w == Run(token, START, actions)
  }

  // ---------------------------------------------------------------- invariants

  /** A peer that sends `stream` authenticates for this role and key. */
  predicate AuthenticatedAs(token: Text, stream: seq<Byte>, role: Role, key: Key) {
    var a := TakeAuthentication(stream, token);
    a.Ok? && Key(a.value.session, a.value.channel) == key && (role.Sender? <==> a.value.role == ROLE_SENDER)
  }

  /** What it sends after its prelude. */
  function Payload(token: Text, stream: seq<Byte>): seq<Byte> {
    var a := TakeAuthentication(stream, token);
    if a.Ok? then a.rest else []
  }

  ghost predicate HandlerInv(token: Text, w: World, c: Conn)
    requires c in w.handlers
  {
    && c in w.peers
    && match w.handlers[c]
       case Authenticating => w.peers[c].delivered == []
       case Claiming(role, key) =>
         && AuthenticatedAs(token, w.peers[c].stream, role, key) && w.peers[c].delivered == []
         && w.peers[c].remaining == Payload(token, w.peers[c].stream)
       case Starting(key) => key in w.lanes && Paired(w.lanes[key]) && w.lanes[key].forwarder.None?
       case _ => true
  }

  predicate Unclaimed(w: World, c: Conn) {
    c in w.handlers && (w.handlers[c].Authenticating? || w.handlers[c].Claiming?)
  }

  /** Handlers before the claim hold no slot, and at most one handler is about to start each forwarder. */
  ghost predicate HandlersInv(token: Text, w: World) {
    && (forall c :: c in w.handlers ==> HandlerInv(token, w, c))
    && (forall c :: c in w.peers ==> c in w.handlers)
    && (forall c, d | c in w.handlers && d in w.handlers && w.handlers[c].Starting? && w.handlers[d].Starting? ::
          w.handlers[c].key == w.handlers[d].key ==> c == d)
    && (forall c, i | 0 <= i < |w.claims| && c in w.handlers ::
          w.handlers[c].Authenticating? || w.handlers[c].Claiming? ==> w.claims[i].conn != c)
  }

  predicate SlotsClaimed(l: Lane, k: Key, claims: seq<Claim>) {
    && (l.sender.Some? ==> Claim(k, Sender, l.sender.value) in claims)
    && (l.receiver.Some? ==> Claim(k, Receiver, l.receiver.value) in claims)
  }

  /** Slots hold exactly what was claimed, by connections that authenticated for them. */
  ghost predicate ClaimsInv(token: Text, w: World) {
    && (forall i :: 0 <= i < |w.claims| ==>
          && w.claims[i].key in w.lanes && Slot(w.lanes[w.claims[i].key], w.claims[i].role) == Some(w.claims[i].conn)
          && w.claims[i].conn in w.peers
          && AuthenticatedAs(token, w.peers[w.claims[i].conn].stream, w.claims[i].role, w.claims[i].key))
    && (forall k :: k in w.lanes ==> SlotsClaimed(w.lanes[k], k, w.claims))
    && (forall i, j :: 0 <= i < j < |w.claims| ==>
          w.claims[i].key != w.claims[j].key || w.claims[i].role != w.claims[j].role)
  }

  ghost predicate StartsInv(w: World) {
    && Distinct(w.starts)
    && (forall k :: k in w.starts <==> k in w.lanes && w.lanes[k].forwarder.Some?)
    && (forall k :: k in w.lanes && w.lanes[k].forwarder.Some? ==> Paired(w.lanes[k]))
  }

  function Sum(sizes: seq<nat>): nat {
    if sizes == [] then 0 else Sum(sizes[..|sizes| - 1]) + sizes[|sizes| - 1]
  }

  predicate ChunkSizes(sizes: seq<nat>) {
    forall i :: 0 <= i < |sizes| ==> 0 < sizes[i] <= COPY_BUFFER_BYTES
  }

  /** The counters count exactly the chunks of `sizes`. */
  predicate Counts(l: Lane, sizes: seq<nat>) {
    l.bytes == Sum(sizes) && l.chunks == |sizes|
  }

  /** Where the counters stand between the sends that have succeeded. */
  predicate CountsInv(l: Lane) {
    && ChunkSizes(l.sent)
    && match l.forwarder
       case Some(AtBytes(size)) =>
         l.sent != [] && l.sent[|l.sent| - 1] == size && Counts(l, l.sent[..|l.sent| - 1])
       case Some(AtChunks) => l.sent != [] && l.bytes == Sum(l.sent) && l.chunks == |l.sent| - 1
       case _ => Counts(l, l.sent)
  }

  /** Where the sender's payload is: delivered, in the forwarder's hands, or still to be received. */
  ghost predicate FlowInv(l: Lane, payload: seq<Byte>, remaining: seq<Byte>, delivered: seq<Byte>) {
    match l.forwarder
    case None => remaining == payload && delivered == []
    case Some(AtRecv) => delivered + remaining == payload && l.bytes == |delivered|
    case Some(AtSend(chunk)) =>
      delivered + chunk + remaining == payload && l.bytes == |delivered| && 0 < |chunk| <= COPY_BUFFER_BYTES
    case Some(AtBytes(size)) => delivered + remaining == payload && l.bytes + size == |delivered|
    case Some(AtChunks) => delivered + remaining == payload && l.bytes == |delivered|
    case Some(AtDone) | Some(Finished) => delivered <= payload && l.bytes <= |delivered|
  }

  ghost predicate LaneInv(token: Text, w: World, k: Key)
    requires k in w.lanes
  {
    var l := w.lanes[k];
    && (l.sender.Some? ==> l.sender.value in w.peers)
    && (l.receiver.Some? ==> l.receiver.value in w.peers)
    && CountsInv(l) && (l.forwarder.None? ==> l.sent == [])
    && (!Paired(l) ==>
          && l.forwarder.None?
          && (l.sender.Some? ==>
                w.peers[l.sender.value].remaining == Payload(token, w.peers[l.sender.value].stream))
          && (l.receiver.Some? ==> w.peers[l.receiver.value].delivered == []))
    && (Paired(l) ==>
          FlowInv(l, Payload(token, w.peers[l.sender.value].stream), w.peers[l.sender.value].remaining,
                  w.peers[l.receiver.value].delivered))
  }

  ghost predicate Inv(token: Text, w: World) {
    && HandlersInv(token, w) && ClaimsInv(token, w) && StartsInv(w)
    && forall k :: k in w.lanes ==> LaneInv(token, w, k)
  }

  // ---------------------------------------------------------------- every step keeps them

  /** A connection holds a slot only in the lane and role it authenticated for. */
  lemma SlotHolder(token: Text, w: World, k: Key, r: Role, c: Conn)
    requires ClaimsInv(token, w) && k in w.lanes && Slot(w.lanes[k], r) == Some(c)
    ensures c in w.peers && AuthenticatedAs(token, w.peers[c].stream, r, k)
    ensures exists i :: 0 <= i < |w.claims| && w.claims[i].conn == c
  {
    hide AuthenticatedAs;
    assert Claim(k, r, c) in w.claims;
    var i :| 0 <= i < |w.claims| && w.claims[i] == Claim(k, r, c);
  }

  lemma OneSlotEach(token: Text, w: World, k: Key, r: Role, k': Key, r': Role, c: Conn)
    requires ClaimsInv(token, w) && k in w.lanes && k' in w.lanes
    requires Slot(w.lanes[k], r) == Some(c) && Slot(w.lanes[k'], r') == Some(c)
    ensures k == k' && r == r'
  {
    hide TakeAuthentication, ClaimsInv;
    SlotHolder(token, w, k, r, c);
    SlotHolder(token, w, k', r', c);
  }

  lemma UnclaimedHoldsNoSlot(token: Text, w: World, k: Key, r: Role, c: Conn)
    requires HandlersInv(token, w) && ClaimsInv(token, w) && Unclaimed(w, c) && k in w.lanes
    ensures Slot(w.lanes[k], r) != Some(c)
  {
    hide AuthenticatedAs, HandlerInv, ClaimsInv;
    if Slot(w.lanes[k], r) == Some(c) {
      SlotHolder(token, w, k, r, c);
      assert false;
    }
  }

  // Frames: what a step must leave alone for each part of the invariant to carry over.

  ghost predicate SlotsKept(w: World, w': World) {
    && w'.lanes.Keys == w.lanes.Keys && w'.claims == w.claims
    && (forall k :: k in w.lanes ==> w'.lanes[k].sender == w.lanes[k].sender && w'.lanes[k].receiver == w.lanes[k].receiver)
  }

  ghost predicate StreamsKept(w: World, w': World) {
    forall c :: c in w.peers ==> c in w'.peers && w'.peers[c].stream == w.peers[c].stream
  }

  lemma ClaimsFrame(token: Text, w: World, w': World)
    requires ClaimsInv(token, w) && SlotsKept(w, w') && StreamsKept(w, w')
    ensures ClaimsInv(token, w')
  {
    hide AuthenticatedAs;
  }

  lemma LaneFrame(token: Text, w: World, w': World, k: Key)
    requires k in w.lanes && LaneInv(token, w, k) && StreamsKept(w, w') && k in w'.lanes
    requires var (l, l') := (w.lanes[k], w'.lanes[k]);
             && l'.sender == l.sender && l'.receiver == l.receiver && l'.forwarder == l.forwarder
             && l'.bytes == l.bytes && l'.chunks == l.chunks && l'.sent == l.sent
             && (l.sender.Some? ==>
                   && l.sender.value in w.peers
                   && w'.peers[l.sender.value].remaining == w.peers[l.sender.value].remaining)
             && (l.receiver.Some? ==>
                   && l.receiver.value in w.peers
                   && w'.peers[l.receiver.value].delivered == w.peers[l.receiver.value].delivered)
    ensures LaneInv(token, w', k)
  {
    hide Payload;
  }

  // ---- handler steps

  lemma AcceptKeepsInv(token: Text, w: World, c: Conn, stream: seq<Byte>)
    requires Inv(token, w) && Enabled(w, Accept(c, stream))
    ensures Inv(token, Next(token, w, Accept(c, stream)))
  {
    hide AuthenticatedAs, Payload, FlowInv, ClaimsInv, LaneInv;
    var w' := Next(token, w, Accept(c, stream));
    ClaimsFrame(token, w, w');
    forall k | k in w'.lanes ensures LaneInv(token, w', k) {
      LanePeers(token, w, k);
      LaneFrame(token, w, w', k);
    }
    AcceptedIsNew(token, w, c);
  }

  lemma LanePeers(token: Text, w: World, k: Key)
    requires k in w.lanes && LaneInv(token, w, k)
    ensures w.lanes[k].sender.Some? ==> w.lanes[k].sender.value in w.peers
    ensures w.lanes[k].receiver.Some? ==> w.lanes[k].receiver.value in w.peers
  {
  }

  lemma AcceptedIsNew(token: Text, w: World, c: Conn)
    requires ClaimsInv(token, w) && c !in w.peers
    ensures forall i :: 0 <= i < |w.claims| ==> w.claims[i].conn != c
  {
  }

  lemma AuthenticateKeepsHandlers(token: Text, w: World, c: Conn)
    requires HandlersInv(token, w) && Enabled(w, Authenticate(c))
    ensures HandlersInv(token, AuthenticateStep(token, w, c))
  {
    hide TakeAuthentication;
  }

  lemma AuthenticateKeepsInv(token: Text, w: World, c: Conn)
    requires Inv(token, w) && Enabled(w, Authenticate(c))
    ensures Inv(token, Next(token, w, Authenticate(c)))
  {
    hide TakeAuthentication, LaneInv, ClaimsInv, HandlersInv;
    var w' := AuthenticateStep(token, w, c);
    AuthenticateKeepsHandlers(token, w, c);
    ClaimsFrame(token, w, w');
    forall k | k in w'.lanes ensures LaneInv(token, w', k) {
      UnclaimedHoldsNoSlot(token, w, k, Sender, c);
      UnclaimedHoldsNoSlot(token, w, k, Receiver, c);
      LanePeers(token, w, k);
      LaneFrame(token, w, w', k);
    }
  }

  lemma LeaveKeepsHandlers(token: Text, w: World, c: Conn)
    requires HandlersInv(token, w) && Enabled(w, Leave(c))
    ensures HandlersInv(token, LeaveStep(w, c))
  {
    hide AuthenticatedAs, Payload;
  }

  lemma LeaveKeepsInv(token: Text, w: World, c: Conn)
    requires Inv(token, w) && Enabled(w, Leave(c))
    ensures Inv(token, Next(token, w, Leave(c)))
  {
    hide LaneInv, ClaimsInv, HandlersInv;
    var w' := LeaveStep(w, c);
    LeaveKeepsHandlers(token, w, c);
    ClaimsFrame(token, w, w');
    forall k | k in w'.lanes ensures LaneInv(token, w', k) {
      LanePeers(token, w, k);
      LaneFrame(token, w, w', k);
    }
  }

  lemma StartKeepsHandlers(token: Text, w: World, c: Conn)
    requires HandlersInv(token, w) && Enabled(w, StartForward(c))
    ensures HandlersInv(token, Next(token, w, StartForward(c)))
    ensures Paired(w.lanes[w.handlers[c].key]) && w.lanes[w.handlers[c].key].forwarder.None?
  {
    hide AuthenticatedAs, Payload;
    assert HandlerInv(token, w, c);
  }

  lemma StartKeepsInv(token: Text, w: World, c: Conn)
    requires Inv(token, w) && Enabled(w, StartForward(c))
    ensures Inv(token, Next(token, w, StartForward(c)))
  {
    hide LaneInv, ClaimsInv, HandlersInv, Payload;
    var w' := Next(token, w, StartForward(c));
    var key := w.handlers[c].key;
    StartKeepsHandlers(token, w, c);
    ClaimsFrame(token, w, w');
    forall k | k in w'.lanes ensures LaneInv(token, w', k) {
      LanePeers(token, w, k);
      if k == key {
        StartLane(token, w, w', k);
      } else {
        LaneFrame(token, w, w', k);
      }
    }
  }

  lemma StartLane(token: Text, w: World, w': World, k: Key)
    requires k in w.lanes && LaneInv(token, w, k) && Paired(w.lanes[k]) && w.lanes[k].forwarder.None?
    requires w'.peers == w.peers && k in w'.lanes && w'.lanes[k] == w.lanes[k].(forwarder := Some(AtRecv))
    ensures LaneInv(token, w', k)
  {
    hide Payload;
  }

  // ---- forwarder steps

  predicate Forwards(a: Action) {
    a.Receive? || a.Deliver? || a.CountBytes? || a.CountChunk? || a.Break? || a.Complete?
  }

  /** A forwarder step touches its own lane and the unread or delivered bytes of that lane's two peers. */
  ghost predicate ForwardOnly(w: World, w': World, key: Key)
    requires key in w.lanes
  {
    && w'.handlers == w.handlers && w'.starts == w.starts && SlotsKept(w, w') && StreamsKept(w, w')
    && (forall k :: k in w.lanes ==> w'.lanes[k].forwarder.Some? == w.lanes[k].forwarder.Some?)
    && (forall k :: k in w.lanes && k != key ==> w'.lanes[k] == w.lanes[k])
    && w'.peers.Keys == w.peers.Keys
    && (forall c :: c in w.peers && Some(c) != w.lanes[key].sender ==> w'.peers[c].remaining == w.peers[c].remaining)
    && (forall c :: c in w.peers && Some(c) != w.lanes[key].receiver ==> w'.peers[c].delivered == w.peers[c].delivered)
  }

  /** A step that replaces one lane and the peers, keeping what a forwarder may not touch. */
  lemma ForwardFrameOf(w: World, key: Key, l: Lane, peers: map<Conn, Peer>)
    requires key in w.lanes && peers.Keys == w.peers.Keys
    requires l.sender == w.lanes[key].sender && l.receiver == w.lanes[key].receiver
    requires l.forwarder.Some? && w.lanes[key].forwarder.Some?
    requires forall c | c in w.peers :: peers[c].stream == w.peers[c].stream
    requires forall c | c in w.peers && Some(c) != l.sender :: peers[c].remaining == w.peers[c].remaining
    requires forall c | c in w.peers && Some(c) != l.receiver :: peers[c].delivered == w.peers[c].delivered
    ensures ForwardOnly(w, w.(lanes := w.lanes[key := l], peers := peers), key)
  {
  }

  lemma ReceiveFrame(w: World, key: Key, size: nat)
    requires Enabled(w, Receive(key, size))
    ensures ForwardOnly(w, ReceiveStep(w, key, size), key)
  {
    hide ForwardOnly;
    var w' := ReceiveStep(w, key, size);
    ForwardFrameOf(w, key, w'.lanes[key], w'.peers);
  }

  lemma DeliverFrame(w: World, key: Key, size: nat, ok: bool)
    requires Enabled(w, Deliver(key, size, ok))
    ensures ForwardOnly(w, DeliverStep(w, key, size, ok), key)
  {
    hide ForwardOnly;
    var w' := DeliverStep(w, key, size, ok);
    ForwardFrameOf(w, key, w'.lanes[key], w'.peers);
  }

  lemma ForwardFrame(token: Text, w: World, a: Action)
    requires Enabled(w, a) && Forwards(a)
    ensures ForwardOnly(w, Next(token, w, a), a.key)
  {
    hide ReceiveStep, DeliverStep, ForwardOnly;
    if a.Receive? {
      ReceiveFrame(w, a.key, a.size);
    } else if a.Deliver? {
      DeliverFrame(w, a.key, a.size, a.ok);
    } else {
      ForwardFrameOf(w, a.key, Next(token, w, a).lanes[a.key], w.peers);
    }
  }

  lemma HandlerFrame(token: Text, w: World, w': World, key: Key, c: Conn)
    requires key in w.lanes && ForwardOnly(w, w', key) && c in w.handlers && HandlerInv(token, w, c)
    requires Unclaimed(w, c) ==> w.lanes[key].sender != Some(c) && w.lanes[key].receiver != Some(c)
    ensures HandlerInv(token, w', c)
  {
    hide AuthenticatedAs, Payload;
  }

  lemma ForwardKeepsHandlers(token: Text, w: World, a: Action)
    requires HandlersInv(token, w) && ClaimsInv(token, w) && Enabled(w, a) && Forwards(a)
    ensures HandlersInv(token, Next(token, w, a))
  {
    hide Next, ClaimsInv, AuthenticatedAs, Payload, HandlerInv;
    ForwardFrame(token, w, a);
    var w' := Next(token, w, a);
    forall c | c in w'.handlers ensures HandlerInv(token, w', c) {
      if Unclaimed(w, c) {
        UnclaimedHoldsNoSlot(token, w, a.key, Sender, c);
        UnclaimedHoldsNoSlot(token, w, a.key, Receiver, c);
      }
      HandlerFrame(token, w, w', a.key, c);
    }
  }

  lemma OtherLaneKept(token: Text, w: World, a: Action, k: Key)
    requires ClaimsInv(token, w) && Enabled(w, a) && Forwards(a) && k in w.lanes && k != a.key && LaneInv(token, w, k)
    ensures k in Next(token, w, a).lanes && LaneInv(token, Next(token, w, a), k)
  {
    hide Next, ClaimsInv, Payload, FlowInv, LaneInv;
    var w' := Next(token, w, a);
    ForwardFrame(token, w, a);
    LanePeers(token, w, k);
    var l := w.lanes[k];
    if l.sender.Some? && l.sender == w.lanes[a.key].sender {
      OneSlotEach(token, w, k, Sender, a.key, Sender, l.sender.value);
    }
    if l.receiver.Some? && l.receiver == w.lanes[a.key].receiver {
      OneSlotEach(token, w, k, Receiver, a.key, Receiver, l.receiver.value);
    }
    LaneFrame(token, w, w', k);
  }

  lemma ReceiveKeepsLane(token: Text, w: World, key: Key, size: nat)
    requires Enabled(w, Receive(key, size)) && LaneInv(token, w, key)
    requires w.lanes[key].sender != w.lanes[key].receiver
    ensures LaneInv(token, ReceiveStep(w, key, size), key)
  {
    hide Payload;
    var s := w.lanes[key].sender.value;
    var remaining := w.peers[s].remaining;
    var delivered := w.peers[w.lanes[key].receiver.value].delivered;
    if size > 0 {
      assert remaining == remaining[..size] + remaining[size..];
      assert delivered + remaining == delivered + remaining[..size] + remaining[size..];
    }
  }

  lemma DeliverKeepsLane(token: Text, w: World, key: Key, size: nat, ok: bool)
    requires Enabled(w, Deliver(key, size, ok)) && LaneInv(token, w, key)
    requires w.lanes[key].sender != w.lanes[key].receiver
    ensures LaneInv(token, DeliverStep(w, key, size, ok), key)
  {
    hide Payload;
    var remaining := w.peers[w.lanes[key].sender.value].remaining;
    var delivered := w.peers[w.lanes[key].receiver.value].delivered;
    var chunk := w.lanes[key].forwarder.value.chunk;
    assert chunk[..|chunk|] == chunk;
    assert delivered + chunk + remaining == (delivered + chunk[..size]) + (chunk[size..] + remaining);
  }

  lemma CountKeepsLane(token: Text, w: World, a: Action)
    requires Enabled(w, a) && Forwards(a) && !a.Receive? && !a.Deliver? && LaneInv(token, w, a.key)
    ensures LaneInv(token, Next(token, w, a), a.key)
  {
    hide Payload;
  }

  lemma DifferentPeers(token: Text, w: World, key: Key)
    requires ClaimsInv(token, w) && key in w.lanes && Paired(w.lanes[key])
    ensures w.lanes[key].sender != w.lanes[key].receiver
  {
    hide ClaimsInv;
    if w.lanes[key].sender == w.lanes[key].receiver {
      OneSlotEach(token, w, key, Sender, key, Receiver, w.lanes[key].sender.value);
    }
  }

  lemma ForwardKeepsOwnLane(token: Text, w: World, a: Action)
    requires ClaimsInv(token, w) && Enabled(w, a) && Forwards(a) && LaneInv(token, w, a.key)
    ensures a.key in Next(token, w, a).lanes && LaneInv(token, Next(token, w, a), a.key)
  {
    hide ClaimsInv, LaneInv, ReceiveStep, DeliverStep;
    DifferentPeers(token, w, a.key);
    ForwardFrame(token, w, a);
    match a
    case Receive(key, size) => ReceiveKeepsLane(token, w, key, size);
    case Deliver(key, size, ok) => DeliverKeepsLane(token, w, key, size, ok);
    case _ => CountKeepsLane(token, w, a);
  }

  lemma ForwardKeepsInv(token: Text, w: World, a: Action)
    requires Inv(token, w) && Enabled(w, a) && Forwards(a)
    ensures Inv(token, Next(token, w, a))
  {
    hide Next, ClaimsInv, HandlersInv, LaneInv;
    var w' := Next(token, w, a);
    ForwardFrame(token, w, a);
    ForwardKeepsHandlers(token, w, a);
    ClaimsFrame(token, w, w');
    forall k | k in w'.lanes ensures LaneInv(token, w', k) {
      if k == a.key {
        ForwardKeepsOwnLane(token, w, a);
      } else {
        OtherLaneKept(token, w, a, k);
      }
    }
  }

  // ---- the claim

  lemma ClaimKeepsClaims(token: Text, w: World, c: Conn)
    requires ClaimsInv(token, w) && HandlersInv(token, w) && Enabled(w, ClaimSlot(c))
    ensures ClaimsInv(token, ClaimStep(w, c, w.handlers[c].role, w.handlers[c].key))
  {
    hide AuthenticatedAs, Payload;
    assert HandlerInv(token, w, c);
  }

  lemma ClaimKeepsHandlers(token: Text, w: World, c: Conn)
    requires ClaimsInv(token, w) && HandlersInv(token, w) && Enabled(w, ClaimSlot(c))
    requires forall k :: k in w.lanes && w.lanes[k].forwarder.Some? ==> Paired(w.lanes[k])
    ensures HandlersInv(token, ClaimStep(w, c, w.handlers[c].role, w.handlers[c].key))
  {
    hide AuthenticatedAs, Payload, ClaimsInv;
    var w' := ClaimStep(w, c, w.handlers[c].role, w.handlers[c].key);
    forall d | d in w'.handlers ensures HandlerInv(token, w', d) {
      assert HandlerInv(token, w, d);
    }
  }

  lemma ClaimKeepsStarts(w: World, c: Conn, role: Role, key: Key)
    requires StartsInv(w)
    ensures StartsInv(ClaimStep(w, c, role, key))
  {
  }

  lemma ClaimKeepsLane(token: Text, w: World, c: Conn, role: Role, key: Key)
    requires c in w.peers && (key in w.lanes ==> LaneInv(token, w, key))
    requires w.peers[c].remaining == Payload(token, w.peers[c].stream) && w.peers[c].delivered == []
    ensures LaneInv(token, ClaimStep(w, c, role, key), key)
  {
    hide Payload;
  }

  lemma ClaimKeepsInv(token: Text, w: World, c: Conn)
    requires Inv(token, w) && Enabled(w, ClaimSlot(c))
    ensures Inv(token, Next(token, w, ClaimSlot(c)))
  {
    hide ClaimsInv, HandlersInv, LaneInv, StartsInv, Payload, AuthenticatedAs;
    var role, key := w.handlers[c].role, w.handlers[c].key;
    var w' := ClaimStep(w, c, role, key);
    ClaimKeepsClaims(token, w, c);
    StartsArePaired(w);
    ClaimKeepsHandlers(token, w, c);
    ClaimKeepsStarts(w, c, role, key);
    ClaimantIsReady(token, w, c);
    forall k | k in w'.lanes ensures LaneInv(token, w', k) {
      if k == key {
        ClaimKeepsLane(token, w, c, role, key);
      } else {
        LanePeers(token, w, k);
        LaneFrame(token, w, w', k);
      }
    }
  }

  lemma StartsArePaired(w: World)
    requires StartsInv(w)
    ensures forall k :: k in w.lanes && w.lanes[k].forwarder.Some? ==> Paired(w.lanes[k])
  {
  }

  lemma ClaimantIsReady(token: Text, w: World, c: Conn)
    requires HandlersInv(token, w) && Enabled(w, ClaimSlot(c))
    ensures c in w.peers && w.peers[c].remaining == Payload(token, w.peers[c].stream) && w.peers[c].delivered == []
  {
    hide AuthenticatedAs, Payload;
    assert HandlerInv(token, w, c);
  }

  // ---------------------------------------------------------------- whole runs

  lemma StepKeepsInv(token: Text, w: World, a: Action)
    requires Inv(token, w) && Enabled(w, a)
    ensures Inv(token, Next(token, w, a))
  {
    hide Inv, Next;
    match a
    case Accept(c, stream) => AcceptKeepsInv(token, w, c, stream);
    case Authenticate(c) => AuthenticateKeepsInv(token, w, c);
    case ClaimSlot(c) => ClaimKeepsInv(token, w, c);
    case StartForward(c) => StartKeepsInv(token, w, c);
    case Leave(c) => LeaveKeepsInv(token, w, c);
    case _ => ForwardKeepsInv(token, w, a);
  }

  lemma {:induction false} RunKeepsInv(token: Text, w: World, actions: seq<Action>)
    requires Legal(token, w, actions) && Inv(token, w)
    ensures Inv(token, Run(token, w, actions))
    decreases |actions|
  {
    hide Inv, Next;
    if actions != [] {
      StepKeepsInv(token, w, actions[0]);
      RunKeepsInv(token, Next(token, w, actions[0]), actions[1..]);
    }
  }

  lemma ReachableHasInv(token: Text, w: World)
    requires Reachable(token, w)
    ensures Inv(token, w)
  {
    var actions :| Legal(token, START, actions) && w == Run(token, START, actions);
    assert Inv(token, START);
    hide Inv, Next;
    RunKeepsInv(token, START, actions);
  }

  /** Each slot of each lane is written at most once, by a connection that authenticated for it. */
  lemma SlotsAreWrittenOnce(token: Text, w: World, i: nat, j: nat)
    requires Reachable(token, w) && i < |w.claims| && j < |w.claims|
    requires w.claims[i].key == w.claims[j].key && w.claims[i].role == w.claims[j].role
    ensures i == j
    ensures w.claims[i].conn in w.peers
    ensures AuthenticatedAs(token, w.peers[w.claims[i].conn].stream, w.claims[i].role, w.claims[i].key)
    ensures w.claims[i].key in w.lanes && Slot(w.lanes[w.claims[i].key], w.claims[i].role) == Some(w.claims[i].conn)
  {
    hide AuthenticatedAs, LaneInv, HandlersInv;
    ReachableHasInv(token, w);
  }

  /** Each lane's forwarder is started at most once, and only between two peers of that lane's key. */
  lemma ForwarderStartsOnce(token: Text, w: World, k: Key)
    requires Reachable(token, w) && k in w.starts
    ensures Distinct(w.starts) && k in w.lanes && Paired(w.lanes[k])
    ensures w.lanes[k].sender.value in w.peers && w.lanes[k].receiver.value in w.peers
    ensures AuthenticatedAs(token, w.peers[w.lanes[k].sender.value].stream, Sender, k)
    ensures AuthenticatedAs(token, w.peers[w.lanes[k].receiver.value].stream, Receiver, k)
  {
    hide AuthenticatedAs, LaneInv, HandlersInv, ClaimsInv;
    ReachableHasInv(token, w);
    SlotHolder(token, w, k, Sender, w.lanes[k].sender.value);
    SlotHolder(token, w, k, Receiver, w.lanes[k].receiver.value);
  }

  /** How far chunks of these sizes stay below the copy buffer size, all together. */
  function Shortfall(sizes: seq<nat>): int {
    if sizes == [] then 0
    else Shortfall(sizes[..|sizes| - 1]) + COPY_BUFFER_BYTES - sizes[|sizes| - 1]
  }

  lemma {:induction false} SumAndShortfall(sizes: seq<nat>)
    requires ChunkSizes(sizes)
    ensures Sum(sizes) + Shortfall(sizes) == COPY_BUFFER_BYTES * |sizes| && Shortfall(sizes) >= 0
  {
    if sizes != [] {
      SumAndShortfall(sizes[..|sizes| - 1]);
    }
  }

  /** The two counter updates of the forwarder are in progress. */
  predicate MidCount(l: Lane) {
    l.forwarder == Some(AtChunks)
  }

  lemma CounterBound(l: Lane)
    requires CountsInv(l)
    ensures !MidCount(l) ==> l.bytes <= COPY_BUFFER_BYTES * l.chunks
    ensures MidCount(l) ==>
              (l.bytes <= COPY_BUFFER_BYTES * l.chunks <==> l.sent[|l.sent| - 1] <= Shortfall(l.sent[..|l.sent| - 1]))
  {
    SumAndShortfall(l.sent);
    if l.sent != [] {
      SumAndShortfall(l.sent[..|l.sent| - 1]);
    }
  }

  /**
   * At every moment the receiver of a paired lane holds a prefix of what its sender sent after the
   * prelude.  Outside the two updates the counters count exactly the chunks sent, and the byte
   * counter is within its bound in the chunk counter.  Between them the bound holds if and only if
   * the chunk not yet counted fits into what the counted chunks fell short of the copy buffer.
   */
  lemma ReceiverHoldsPrefixOfPayload(token: Text, w: World, k: Key)
    requires Reachable(token, w) && k in w.lanes && Paired(w.lanes[k])
    ensures w.lanes[k].sender.value in w.peers && w.lanes[k].receiver.value in w.peers
    ensures var l := w.lanes[k];
            var delivered := w.peers[l.receiver.value].delivered;
            && delivered <= Payload(token, w.peers[l.sender.value].stream)
            && l.bytes <= |delivered|
            && (!MidCount(l) ==> l.bytes <= COPY_BUFFER_BYTES * l.chunks)
            && (MidCount(l) ==>
                  && l.chunks == |l.sent| - 1 && Counts(l.(chunks := l.chunks + 1), l.sent)
                  && (l.bytes <= COPY_BUFFER_BYTES * l.chunks <==>
                      l.sent[|l.sent| - 1] <= Shortfall(l.sent[..|l.sent| - 1])))
  {
    hide Payload, HandlersInv, ClaimsInv, StartsInv;
    ReachableHasInv(token, w);
    assert LaneInv(token, w, k);
    CounterBound(w.lanes[k]);
    var payload := Payload(token, w.peers[w.lanes[k].sender.value].stream);
    var delivered := w.peers[w.lanes[k].receiver.value].delivered;
    if w.lanes[k].forwarder.Some? && w.lanes[k].forwarder.value.AtSend? {
      var chunk := w.lanes[k].forwarder.value.chunk;
      assert delivered <= delivered + chunk + w.peers[w.lanes[k].sender.value].remaining;
    }
  }

  // ---------------------------------------------------------------- the bound can fail between the updates

  lemma {:induction false} RunSnoc(token: Text, w: World, actions: seq<Action>, a: Action)
    requires Legal(token, w, actions) && Enabled(Run(token, w, actions), a)
    ensures Legal(token, w, actions + [a])
    ensures Run(token, w, actions + [a]) == Next(token, Run(token, w, actions), a)
    decreases |actions|
  {
    hide Next, Enabled;
    if actions == [] {
      assert [a][1..] == [];
    } else {
      RunSnoc(token, Next(token, w, actions[0]), actions[1..], a);
      assert (actions + [a])[1..] == actions[1..] + [a];
    }
  }

  lemma ReachableNext(token: Text, w: World, a: Action)
    requires Reachable(token, w) && Enabled(w, a)
    ensures Reachable(token, Next(token, w, a))
  {
    hide Next, Enabled;
    var actions :| Legal(token, START, actions) && w == Run(token, START, actions);
    RunSnoc(token, START, actions, a);
  }

  lemma TwoAccepted(token: Text, s: seq<Byte>, r: seq<Byte>) returns (w: World)
    ensures Reachable(token, w) && w.lanes == map[] && w.claims == []
    ensures 0 in w.peers && 1 in w.peers && 0 in w.handlers && 1 in w.handlers
    ensures w.peers[0].stream == s && w.peers[1].stream == r
    ensures w.handlers[0].Authenticating? && w.handlers[1].Authenticating?
  {
    assert Legal(token, START, []) && START == Run(token, START, []);
    hide Reachable;
    var w1 := Next(token, START, Accept(0, s));
    ReachableNext(token, START, Accept(0, s));
    w := Next(token, w1, Accept(1, r));
    ReachableNext(token, w1, Accept(1, r));
  }

  lemma TwoAuthenticated(token: Text, session: Text, channel: Text, payload: seq<Byte>) returns (w: World)
    requires Ascii(token) && FieldSize(|token|) && FieldSize(|session|) && FieldSize(|channel|)
    ensures Reachable(token, w) && w.lanes == map[] && w.claims == []
    ensures 0 in w.peers && 1 in w.peers && 0 in w.handlers && 1 in w.handlers
    ensures w.peers[0].remaining == payload
    ensures w.handlers[0] == Claiming(Sender, Key(session, channel))
    ensures w.handlers[1] == Claiming(Receiver, Key(session, channel))
  {
    hide ValidUtf8, TakeAuthentication, PreludeBytes, Reachable;
    var s, r := Prelude(ROLE_SENDER, session, channel, token), Prelude(ROLE_RECEIVER, session, channel, token);
    PreludeRoundTrip(s, payload);
    PreludeRoundTrip(r, []);
    var w1 := TwoAccepted(token, PreludeBytes(s) + payload, PreludeBytes(r) + []);
    var w2 := Next(token, w1, Authenticate(0));
    ReachableNext(token, w1, Authenticate(0));
    w := Next(token, w2, Authenticate(1));
    ReachableNext(token, w2, Authenticate(1));
  }

  /** Two connections with the same session and channel, claimed in either order and about to forward. */
  lemma PairedLaneIsReachable(token: Text, session: Text, channel: Text, payload: seq<Byte>, first: Role)
    returns (w: World)
    requires Ascii(token) && FieldSize(|token|) && FieldSize(|session|) && FieldSize(|channel|)
    ensures Reachable(token, w)
    ensures var key := Key(session, channel);
            && key in w.lanes
            && w.lanes[key] == EMPTY_LANE.(sender := Some(0), receiver := Some(1), forwarder := Some(AtRecv))
            && 0 in w.peers && 1 in w.peers && w.peers[0].remaining == payload
            && w.claims == (if first.Sender? then [Claim(key, Sender, 0), Claim(key, Receiver, 1)]
                            else [Claim(key, Receiver, 1), Claim(key, Sender, 0)])
  {
    hide ValidUtf8, Reachable, AuthenticateStep, ReceiveStep, DeliverStep, LeaveStep;
    var key := Key(session, channel);
    var c: nat, d: nat := if first.Sender? then 0 else 1, if first.Sender? then 1 else 0;
    var w4 := TwoAuthenticated(token, session, channel, payload);
    var w5 := Next(token, w4, ClaimSlot(c));
    ReachableNext(token, w4, ClaimSlot(c));
    assert w5.lanes[key] == Fill(EMPTY_LANE, first, c);
    var w6 := Next(token, w5, ClaimSlot(d));
    ReachableNext(token, w5, ClaimSlot(d));
    assert w6.handlers[d] == Starting(key);
    w := Next(token, w6, StartForward(d));
    ReachableNext(token, w6, StartForward(d));
  }

  /** A lane about to receive, with `sent` sent and counted and `remaining` still to come from its sender. */
  predicate AtRest(w: World, key: Key, sent: seq<nat>, remaining: seq<Byte>) {
    && key in w.lanes && 0 in w.peers && 1 in w.peers && w.peers[0].remaining == remaining
    && w.lanes[key].sender == Some(0) && w.lanes[key].receiver == Some(1)
    && w.lanes[key].forwarder == Some(AtRecv) && w.lanes[key].sent == sent
  }

  /** From there a chunk of any size can be received, sent and counted in bytes. */
  lemma OneMoreChunk(token: Text, w: World, key: Key, sent: seq<nat>, remaining: seq<Byte>, size: nat)
    returns (mid: World, rest: World)
    requires Reachable(token, w) && AtRest(w, key, sent, remaining)
    requires 0 < size <= COPY_BUFFER_BYTES && size <= |remaining|
    ensures Reachable(token, mid) && key in mid.lanes && MidCount(mid.lanes[key]) && mid.lanes[key].sent == sent + [size]
    ensures Reachable(token, rest) && AtRest(rest, key, sent + [size], remaining[size..])
  {
    hide Reachable;
    var w1 := Next(token, w, Receive(key, size));
    ReachableNext(token, w, Receive(key, size));
    assert w1.lanes[key].forwarder == Some(AtSend(remaining[..size]));
    var w2 := Next(token, w1, Deliver(key, size, true));
    ReachableNext(token, w1, Deliver(key, size, true));
    assert w2.lanes[key].forwarder == Some(AtBytes(size)) && w2.lanes[key].sent == sent + [size];
    mid := Next(token, w2, CountBytes(key));
    ReachableNext(token, w2, CountBytes(key));
    rest := Next(token, mid, CountChunk(key));
    ReachableNext(token, mid, CountChunk(key));
  }

  lemma {:induction false} AnyChunksAreSent(
    token: Text, session: Text, channel: Text, sizes: seq<nat>, tail: seq<Byte>) returns (w: World)
    requires Ascii(token) && FieldSize(|token|) && FieldSize(|session|) && FieldSize(|channel|) && ChunkSizes(sizes)
    ensures Reachable(token, w) && AtRest(w, Key(session, channel), sizes, tail)
    decreases |sizes|
  {
    if sizes == [] {
      w := PairedLaneIsReachable(token, session, channel, tail, Sender);
    } else {
      var init, last := sizes[..|sizes| - 1], sizes[|sizes| - 1];
      var chunk: seq<Byte> := seq(last, i => 0);
      var w0 := AnyChunksAreSent(token, session, channel, init, chunk + tail);
      assert (chunk + tail)[last..] == tail && init + [last] == sizes;
      var mid: World;
      mid, w := OneMoreChunk(token, w0, Key(session, channel), init, chunk + tail, last);
    }
  }

  /** Every sequence of chunk sizes occurs between the two updates of its last chunk. */
  lemma EveryMidCountIsReachable(token: Text, session: Text, channel: Text, sizes: seq<nat>) returns (w: World)
    requires Ascii(token) && FieldSize(|token|) && FieldSize(|session|) && FieldSize(|channel|)
    requires sizes != [] && ChunkSizes(sizes)
    ensures var key := Key(session, channel);
            Reachable(token, w) && key in w.lanes && MidCount(w.lanes[key]) && w.lanes[key].sent == sizes
  {
    hide Reachable;
    var init, last := sizes[..|sizes| - 1], sizes[|sizes| - 1];
    var chunk: seq<Byte> := seq(last, i => 0);
    var w0 := AnyChunksAreSent(token, session, channel, init, chunk);
    assert init + [last] == sizes;
    var rest: World;
    w, rest := OneMoreChunk(token, w0, Key(session, channel), init, chunk, last);
  }

  /** Between the updates of the very first chunk the byte counter exceeds its bound in the chunk counter. */
  lemma BoundFailsMidCount(token: Text, session: Text, channel: Text) returns (w: World)
    requires Ascii(token) && FieldSize(|token|) && FieldSize(|session|) && FieldSize(|channel|)
    ensures var key := Key(session, channel);
            && Reachable(token, w) && key in w.lanes && MidCount(w.lanes[key])
            && w.lanes[key].bytes > COPY_BUFFER_BYTES * w.lanes[key].chunks
  {
    hide Reachable, HandlersInv, ClaimsInv, StartsInv, FlowInv, Payload;
    w := EveryMidCountIsReachable(token, session, channel, [1]);
    ReachableHasInv(token, w);
    assert LaneInv(token, w, Key(session, channel));
    assert [1][..0] == [] && Sum([1]) == Sum([]) + 1;
  }
}
