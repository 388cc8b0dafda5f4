/** What becomes of a lane once both its peers are there. */
module RelayProgress {
  import opened Sequences
  import opened RelayCodec
  import opened RelayLanes

  predicate StartingOn(w: World, c: Conn, k: Key) {
    c in w.handlers && w.handlers[c] == Starting(k)
  }

  /** A paired lane without forwarder has failed, or some handler is about to start one. */
  ghost predicate Served(w: World, k: Key)
    requires k in w.lanes
  {
    Paired(w.lanes[k]) && w.lanes[k].forwarder.None? ==> w.lanes[k].error || exists c :: StartingOn(w, c, k)
  }

  /** A forwarder that ended without error has passed everything on, and an ended one is done. */
  ghost predicate PassedOn(token: Text, w: World, k: Key)
    requires k in w.lanes
  {
    var l := w.lanes[k];
    && (l.forwarder == Some(Finished) ==> l.done)
    && (l.forwarder == Some(AtDone) || l.forwarder == Some(Finished) ==>
          && Paired(l) && l.sender.value in w.peers && l.receiver.value in w.peers
          && (!l.error ==>
                && w.peers[l.receiver.value].delivered == Payload(token, w.peers[l.sender.value].stream)
                && l.bytes == |w.peers[l.receiver.value].delivered|))
  }

  ghost predicate Progress(token: Text, w: World) {
    forall k :: k in w.lanes ==> Served(w, k) && PassedOn(token, w, k)
  }

  // ---------------------------------------------------------------- every step keeps it

  /** Lanes that a step leaves alone, or only marks as failed. */
  lemma LaneKept(token: Text, w: World, w': World, k: Key)
    requires k in w.lanes && k in w'.lanes && Served(w, k) && PassedOn(token, w, k) && LaneInv(token, w, k)
    requires w'.lanes[k] == w.lanes[k] || w'.lanes[k] == w.lanes[k].(error := true, done := true)
    requires forall c | c in w.peers ::
               c in w'.peers && w'.peers[c].stream == w.peers[c].stream
               && (w.lanes[k].receiver == Some(c) ==> w'.peers[c].delivered == w.peers[c].delivered)
    requires !w'.lanes[k].error ==> forall c | StartingOn(w, c, k) :: StartingOn(w', c, k)
    ensures Served(w', k) && PassedOn(token, w', k)
  {
    hide Payload, FlowInv;
    if c :| StartingOn(w, c, k) {
      assert !w'.lanes[k].error ==> StartingOn(w', c, k);
    }
  }

  lemma QuietKeepsProgress(token: Text, w: World, a: Action)
    requires Inv(token, w) && Progress(token, w) && Enabled(w, a) && (a.Accept? || a.Authenticate?)
    ensures Progress(token, Next(token, w, a))
  {
    hide TakeAuthentication, HandlersInv, ClaimsInv, StartsInv, LaneInv, Served, PassedOn;
    var w' := Next(token, w, a);
    forall k | k in w'.lanes ensures Served(w', k) && PassedOn(token, w', k) {
      LaneKept(token, w, w', k);
    }
  }

  lemma LeaveKeepsProgress(token: Text, w: World, c: Conn)
    requires Inv(token, w) && Progress(token, w) && Enabled(w, Leave(c))
    ensures Progress(token, Next(token, w, Leave(c)))
  {
    hide HandlersInv, ClaimsInv, StartsInv, LaneInv, Served, PassedOn;
    var w' := Next(token, w, Leave(c));
    forall k | k in w'.lanes ensures Served(w', k) && PassedOn(token, w', k) {
      LaneKept(token, w, w', k);
    }
  }

  lemma StartKeepsProgress(token: Text, w: World, c: Conn)
    requires Inv(token, w) && Progress(token, w) && Enabled(w, StartForward(c))
    ensures Progress(token, Next(token, w, StartForward(c)))
  {
    hide HandlersInv, ClaimsInv, StartsInv, LaneInv;
    var w' := Next(token, w, StartForward(c));
    forall k | k in w'.lanes ensures Served(w', k) && PassedOn(token, w', k) {
      if k != w.handlers[c].key {
        LaneKept(token, w, w', k);
      }
    }
  }

  lemma ClaimKeepsProgress(token: Text, w: World, c: Conn)
    requires Inv(token, w) && Progress(token, w) && Enabled(w, ClaimSlot(c))
    ensures Progress(token, Next(token, w, ClaimSlot(c)))
  {
    hide HandlersInv, ClaimsInv, StartsInv, LaneInv, Served, PassedOn;
    var w' := Next(token, w, ClaimSlot(c));
    forall k | k in w'.lanes ensures Served(w', k) && PassedOn(token, w', k) {
      if k != w.handlers[c].key {
        LaneKept(token, w, w', k);
      } else {
        ClaimedLane(token, w, c);
      }
    }
  }

  /** Whoever completes the lane is about to start its forwarder, whichever role that is. */
  lemma ClaimedLane(token: Text, w: World, c: Conn)
    requires Inv(token, w) && Progress(token, w) && Enabled(w, ClaimSlot(c))
    ensures var (w', k) := (Next(token, w, ClaimSlot(c)), w.handlers[c].key);
            k in w'.lanes && Served(w', k) && PassedOn(token, w', k)
  {
    hide HandlersInv, ClaimsInv, Payload, FlowInv;
    var (w', k) := (Next(token, w, ClaimSlot(c)), w.handlers[c].key);
    if Paired(w'.lanes[k]) && !w'.lanes[k].error {
      assert StartingOn(w', c, k);
    }
  }

  lemma ForwardKeepsProgress(token: Text, w: World, a: Action)
    requires Inv(token, w) && Progress(token, w) && Enabled(w, a) && Forwards(a)
    ensures Progress(token, Next(token, w, a))
  {
    hide HandlersInv, ClaimsInv, StartsInv, LaneInv, Served, PassedOn, Next;
    var w' := Next(token, w, a);
    ForwardFrame(token, w, a);
    forall k | k in w'.lanes ensures Served(w', k) && PassedOn(token, w', k) {
      if k != a.key {
        OtherReceiver(token, w, a, k);
        LaneKept(token, w, w', k);
      } else {
        OwnLane(token, w, a);
      }
    }
  }

  lemma OtherReceiver(token: Text, w: World, a: Action, k: Key)
    requires Inv(token, w) && Enabled(w, a) && Forwards(a) && k in w.lanes && k != a.key
    ensures var w' := Next(token, w, a);
            forall c | c in w.peers && w.lanes[k].receiver == Some(c) ::
              c in w'.peers && w'.peers[c].delivered == w.peers[c].delivered
  {
    hide HandlersInv, ClaimsInv, StartsInv, LaneInv, Next;
    ForwardFrame(token, w, a);
    if w.lanes[k].receiver.Some? && w.lanes[k].receiver == w.lanes[a.key].receiver {
      OneSlotEach(token, w, k, Receiver, a.key, Receiver, w.lanes[k].receiver.value);
    }
  }

  /** A forwarder ends without error only at the end of its sender's stream. */
  lemma OwnLane(token: Text, w: World, a: Action)
    requires Inv(token, w) && Progress(token, w) && Enabled(w, a) && Forwards(a)
    ensures var (w', k) := (Next(token, w, a), a.key); k in w'.lanes && Served(w', k) && PassedOn(token, w', k)
  {
    hide HandlersInv, ClaimsInv, StartsInv, Payload;
    assert LaneInv(token, w, a.key) && PassedOn(token, w, a.key);
    var l := w.lanes[a.key];
    if a.Receive? && a.size == 0 {
      assert w.peers[l.receiver.value].delivered + [] == w.peers[l.receiver.value].delivered;
    }
  }

  lemma StepKeepsProgress(token: Text, w: World, a: Action)
    requires Inv(token, w) && Progress(token, w) && Enabled(w, a)
    ensures Progress(token, Next(token, w, a))
  {
    hide Inv, Progress, Next, Enabled;
    match a
    case Accept(_, _) => QuietKeepsProgress(token, w, a);
    case Authenticate(_) => QuietKeepsProgress(token, w, a);
    case ClaimSlot(c) => ClaimKeepsProgress(token, w, c);
    case StartForward(c) => StartKeepsProgress(token, w, c);
    case Leave(c) => LeaveKeepsProgress(token, w, c);
    case _ => ForwardKeepsProgress(token, w, a);
  }

  lemma {:induction false} RunKeepsProgress(token: Text, w: World, actions: seq<Action>)
    requires Legal(token, w, actions) && Inv(token, w) && Progress(token, w)
    ensures Progress(token, Run(token, w, actions))
    decreases |actions|
  {
    hide Inv, Progress, Next, Enabled;
    if actions != [] {
      StepKeepsInv(token, w, actions[0]);
      StepKeepsProgress(token, w, actions[0]);
      RunKeepsProgress(token, Next(token, w, actions[0]), actions[1..]);
    }
  }

  lemma NothingAtStart(token: Text)
    ensures Inv(token, START) && Progress(token, START)
  {
  }

  lemma ReachableHasProgress(token: Text, w: World)
    requires Reachable(token, w)
    ensures Progress(token, w) && Inv(token, w)
  {
    hide Inv, Progress;
    ReachableHasInv(token, w);
    NothingAtStart(token);
    var actions :| Legal(token, START, actions) && w == Run(token, START, actions);
    RunKeepsProgress(token, START, actions);
  }

  // ---------------------------------------------------------------- the theorems

  /**
   * In every run, once both peers of a lane are there, the lane has a forwarder, or has failed, or
   * exactly one handler is about to start the forwarder and can do so.
   */
  lemma PairedLaneIsServed(token: Text, w: World, k: Key)
    requires Reachable(token, w) && k in w.lanes && Paired(w.lanes[k])
    ensures || w.lanes[k].forwarder.Some?
            || w.lanes[k].error
            || exists c ::
                 && StartingOn(w, c, k) && (forall d | StartingOn(w, d, k) :: d == c) && Enabled(w, StartForward(c))
                 && Next(token, w, StartForward(c)).lanes[k] == w.lanes[k].(forwarder := Some(AtRecv))
  {
    hide ClaimsInv, StartsInv, LaneInv, PassedOn;
    ReachableHasProgress(token, w);
    assert Served(w, k);
    if w.lanes[k].forwarder.None? && !w.lanes[k].error {
      var c :| StartingOn(w, c, k);
      OneStarter(token, w, c, k);
    }
  }

  lemma OneStarter(token: Text, w: World, c: Conn, k: Key)
    requires HandlersInv(token, w) && StartingOn(w, c, k)
    ensures forall d | StartingOn(w, d, k) :: d == c
  {
    hide HandlerInv;
  }

  /** A finished lane without error has delivered exactly what its sender sent after the prelude, and counted it. */
  lemma FinishedLaneIsComplete(token: Text, w: World, k: Key)
    requires Reachable(token, w) && k in w.lanes && w.lanes[k].forwarder == Some(Finished)
    ensures w.lanes[k].done && Paired(w.lanes[k])
    ensures w.lanes[k].sender.value in w.peers && w.lanes[k].receiver.value in w.peers
    ensures !w.lanes[k].error ==>
              && w.peers[w.lanes[k].receiver.value].delivered == Payload(token, w.peers[w.lanes[k].sender.value].stream)
              && w.lanes[k].bytes == |Payload(token, w.peers[w.lanes[k].sender.value].stream)|
  {
    hide Inv, Payload;
    ReachableHasProgress(token, w);
    assert PassedOn(token, w, k);
  }

  /**
   * In every run a claim of a role that was claimed before fails the lane and ends its handler; the
   * first claim of a role is recorded, and its handler starts the forwarder exactly when it completes
   * the lane.
   */
  lemma SecondClaimIsRefused(token: Text, w: World, c: Conn)
    requires Reachable(token, w) && c in w.handlers && w.handlers[c].Claiming?
    ensures var (role, key) := (w.handlers[c].role, w.handlers[c].key);
            var w' := Next(token, w, ClaimSlot(c));
            var taken := exists i :: 0 <= i < |w.claims| && w.claims[i].key == key && w.claims[i].role == role;
            var other := exists i :: 0 <= i < |w.claims| && w.claims[i].key == key && w.claims[i].role != role;
            && key in w'.lanes
            && (taken ==> w'.claims == w.claims && w'.lanes[key].error && w'.lanes[key].done && w'.handlers[c] == Gone)
            && (!taken ==>
                  && w'.claims == w.claims + [Claim(key, role, c)]
                  && w'.handlers[c] == if other then Starting(key) else Waiting(key))
  {
    hide HandlersInv, StartsInv, LaneInv, AuthenticatedAs;
    ReachableHasInv(token, w);
    var key := w.handlers[c].key;
    ClaimedIff(token, w, key, Sender);
    ClaimedIff(token, w, key, Receiver);
  }

  /** A slot is filled exactly when it was claimed. */
  lemma ClaimedIff(token: Text, w: World, key: Key, role: Role)
    requires ClaimsInv(token, w)
    ensures (exists i :: 0 <= i < |w.claims| && w.claims[i].key == key && w.claims[i].role == role) <==>
            key in w.lanes && Slot(w.lanes[key], role).Some?
  {
    hide AuthenticatedAs;
    if key in w.lanes && Slot(w.lanes[key], role).Some? {
      var claim := Claim(key, role, Slot(w.lanes[key], role).value);
      assert claim in w.claims;
      var i :| 0 <= i < |w.claims| && w.claims[i] == claim;
    }
  }
}
