/** The relay session as the source runs it: an object whose lock bodies update its fields in place. */
module SessionObject {
  import opened Sequences
  import opened SessionModel

  class JobCell {
    const request: Payload
    const expires: real
    var event: bool
    var response: Option<Payload>
    var delivered: bool

    constructor (request: Payload, expires: real)
      ensures this.request == request && this.expires == expires
      ensures !event && response == None && !delivered
    {
      this.request := request;
      this.expires := expires;
      event, response, delivered := false, None, false;
    }

    function View(): Job
      reads this
    {
      Job(request, expires, event, response, delivered)
    }
  }

  class Session {
    const device: string
    const expiresAt: real
    const deadline: real
    var jobs: map<Key, JobCell>
    var pending: seq<Key>
    var identity: Option<Identity>
    var lastPoll: real
    var revoked: bool

    /** Different keys hold different jobs. */
    ghost predicate Valid()
      reads this
    {
      forall a, b :: a in jobs && b in jobs && a != b ==> jobs[a] != jobs[b]
    }

    /** The value the step machine works on. */
    ghost function Abstract(): State
      reads this, jobs.Values
    {
      State(device, expiresAt, deadline, map k | k in jobs :: jobs[k].View(), pending, identity, lastPoll, revoked)
    }

    lemma SizeOfAbstract()
      ensures |Abstract().jobs| == |jobs|
    {
      assert Abstract().jobs.Keys == jobs.Keys;
    }

    constructor (device: string, expiresAt: real, deadline: real)
      ensures Valid() && forall t :: Abstract() == Start(Scope(device, expiresAt, deadline, t)).state
    {
      this.device, this.expiresAt, this.deadline := device, expiresAt, deadline;
      jobs, pending, identity, lastPoll, revoked := map[], [], None, 0.0, false;
    }

    method Poll(c: Clock, claim: Claim, ticks: seq<real>) returns (o: Outcome)
      requires Valid() && |ticks| == |pending|
      modifies this, jobs.Values
      ensures Valid() && jobs == old(jobs)
      ensures (Abstract(), o) == PollStep(old(Abstract()), c, claim, ticks)
    {
      if revoked || c.wall >= expiresAt || c.live >= deadline {
        return Rejected(ScopeRetired);
      }
      if !(claim.Claim? && claim.version == 1 && claim.device == device && claim.enabled
           && claim.epoch.Some? && EpochShape(claim.epoch.value)) {
        return Rejected(DeviceIdentityMismatch);
      }
      if identity.Some? && identity.value.epoch != claim.epoch.value {
        RevokeAll();
        return Rejected(DeviceEpochChanged);
      }
      identity := Some(Identity(claim.version, claim.device, claim.epoch.value, claim.enabled));
      lastPoll := c.now;
      assert Abstract() == old(Abstract()).(identity := identity, lastPoll := lastPoll);
      o := Deliver(ticks);
    }

    /** The delivery loop of `poll`. */
    method Deliver(ticks: seq<real>) returns (o: Outcome)
      requires Valid() && |ticks| == |pending|
      modifies this`pending, jobs.Values
      ensures match Scan(old(Abstract()).jobs, old(pending), ticks)
              case (None, rest) => o == Idle && Abstract() == old(Abstract()).(pending := rest)
              case (Some(key), rest) =>
                && key in jobs && o == Dispatched(key, jobs[key].request)
                && Abstract() == old(Abstract()).(
                     pending := rest, jobs := old(Abstract()).jobs[key := old(jobs[key].View()).(delivered := true)])
    {
      ghost var s := Abstract();
      var i := 0;
      while pending != []
        invariant i + |pending| == |ticks|
        invariant forall k :: k in jobs ==> unchanged(jobs[k])
        invariant Scan(s.jobs, pending, ticks[i..]) == Scan(s.jobs, s.pending, ticks)
        decreases |pending|
      {
        var key := pending[0];
        pending := pending[1..];
        assert ticks[i..][1..] == ticks[i + 1..];
        if key in jobs && jobs[key].expires > ticks[i] {
          jobs[key].delivered := true;
          assert Abstract().jobs == s.jobs[key := s.jobs[key].(delivered := true)];
          return Dispatched(key, jobs[key].request);
        }
        i := i + 1;
      }
      assert Abstract().jobs == s.jobs;
      return Idle;
    }

    method DeviceIdentity(c: Clock) returns (o: Outcome)
      ensures o == IdentityStep(Abstract(), c)
    {
      if revoked || c.wall >= expiresAt || c.live >= deadline {
        return Rejected(ScopeRetired);
      }
      if identity.None? || c.now - lastPoll > OFFLINE_AFTER {
        return Rejected(DeviceOffline);
      }
      return Known(identity.value);
    }

    method Enqueue(c: Clock, body: Payload, timeout: real, key: Key) returns (o: Outcome, job: JobCell?)
      requires Valid() && key !in jobs
      modifies this
      ensures Valid()
      ensures (Abstract(), o) == EnqueueStep(old(Abstract()), c, body, timeout, key)
      ensures o.Accepted? ==> job != null && fresh(job) && jobs == old(jobs)[key := job]
      ensures !o.Accepted? ==> jobs == old(jobs)
    {
      job := null;
      if !Admissible(body) {
        return Rejected(InvalidEnvelope), job;
      }
      if revoked || c.wall >= expiresAt || c.live >= deadline {
        return Rejected(ScopeRetired), job;
      }
      if identity.None? || c.now - lastPoll > OFFLINE_AFTER {
        return Rejected(DeviceOffline), job;
      }
      SizeOfAbstract();
      if |jobs| >= MAX_JOBS {
        return Rejected(QueueFull), job;
      }
      ghost var s := Abstract();
      job := new JobCell(body, c.now + timeout);
      jobs := jobs[key := job];
      pending := pending + [key];
      assert Abstract().jobs == s.jobs[key := Job(body, c.now + timeout, false, None, false)];
      return Accepted(key), job;
    }

    /** The lock body of `wait`, entered by the waiter that holds `job`. */
    method Finish(key: Key, job: JobCell) returns (o: Outcome)
      requires Valid() && key in jobs && jobs[key] == job
      modifies this
      ensures Valid() && jobs == old(jobs) - {key}
      ensures (Abstract(), o) == FinishStep(old(Abstract()), key)
    {
      ghost var s := Abstract();
      jobs := jobs - {key};
      pending := RemoveFirst(pending, key);
      assert Abstract().jobs == s.jobs - {key};
      if job.response.Some? {
        return Answered(job.response.value);
      }
      return Rejected(OutcomeUnknown);
    }

    method Reply(c: Clock, key: Key, body: Payload) returns (o: Outcome)
      requires Valid()
      modifies jobs.Values
      ensures (Abstract(), o) == ReplyStep(old(Abstract()), c, key, body)
    {
      if revoked || c.wall >= expiresAt || c.live >= deadline {
        return Rejected(ScopeRetired);
      }
      if key !in jobs || !jobs[key].delivered || jobs[key].event || jobs[key].expires <= c.now {
        return Rejected(RequestRetired);
      }
      if !Admissible(body) {
        return Rejected(InvalidResponse);
      }
      ghost var s := Abstract();
      jobs[key].response := Some(body);
      jobs[key].event := true;
      assert Abstract().jobs == s.jobs[key := s.jobs[key].(response := Some(body), event := true)];
      return Done;
    }

    /** The loop of `_revoke`: every job's event is set, in any order. */
    method WakeAll()
      requires Valid()
      modifies jobs.Values
      ensures forall k | k in jobs :: jobs[k].View() == old(jobs[k].View()).(event := true)
    {
      var todo := jobs.Keys;
      while todo != {}
        invariant todo <= jobs.Keys
        invariant forall k | k in jobs ::
                    jobs[k].View() == if k in todo then old(jobs[k].View()) else old(jobs[k].View()).(event := true)
        decreases |todo|
      {
        var k :| k in todo;
        jobs[k].event := true;
        todo := todo - {k};
      }
    }

    method RevokeAll()
      requires Valid()
      modifies this, jobs.Values
      ensures Valid() && jobs == old(jobs)
      ensures Abstract() == Retire(old(Abstract()))
    {
      revoked := true;
      WakeAll();
      pending := [];
    }
  }
}
