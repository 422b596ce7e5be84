/**
 The provider object itself: fields changed only inside lock sections, slow work outside
 them while every other caller may move. Each call is proved to walk along the events of the
 issuance protocol, so what holds of all runs holds of it.
 */
module RefreshingProvider {
  import opened CredentialIdentity
  import opened IssuanceProtocol
  import opened IssuanceSafety

  predicate Concerns(e: Event, pid: Pid) {
    !e.Revoke? && e.pid == pid
  }

  lemma OthersLeaveAlone(s: System, e: Event, pid: Pid)
    requires !Concerns(e, pid)
    ensures pid in Next(s, e).callers <==> pid in s.callers
    ensures pid in s.callers ==> Next(s, e).callers[pid] == s.callers[pid]
  {
  }

  /** A step that is not the caller's own leaves it where it is and, while it is inside, the status too unless it revokes. */
  lemma OtherStepRight(s: System, e: Event, pid: Pid)
    requires OneInside(s) && !Concerns(e, pid)
    ensures pid in Next(s, e).callers <==> pid in s.callers
    ensures pid in s.callers ==> Next(s, e).callers[pid] == s.callers[pid]
    ensures Next(s, e).binding == s.binding
    ensures Within(s, pid) ==> Next(s, e).status == if e.Revoke? then Revoked else s.status
  {
    OthersLeaveAlone(s, e, pid);
    BindingStays(s, e);
    if Within(s, pid) && !e.Revoke? {
      OthersOnlyRevoke(s, e, pid);
    }
  }

  /** An event that keeps a call from succeeding: a revocation, a clock that cannot be read, a check or an answer that fails. */
  predicate Trouble(e: Event, pid: Pid, given: bool) {
    || e.Revoke?
    || (e.pid == pid && (
          || ((e.Open? || e.Tick?) && !given && e.reading.None?)
          || (e.Check? && !e.available.Fine?)
          || (e.Answered? && (e.reply.ReplyRevoked? || e.reply.ReplyFails?))))
  }

  /** Who is refused at the door: a scope not bound, a revoked, unconfigured or blocked provider, or one that is busy. */
  function RefusedBy(capable: bool, status: Status, busy: bool): Option<Answer> {
    if !capable then Some(ScopeRefused)
    else match status
      case Revoked => Some(RevokedRefused)
      case Unconfigured => Some(AuthRefused)
      case BlockedAuth => Some(AuthRefused)
      case _ => if busy then Some(InProgressRefused) else None
  }

  /** How a call ends: a revocation wins, then its failure, and a snapshot is of the checked grant at the last time. */
  predicate FinishedAs(answer: Answer, status: Status, phase: Phase, local: Local) {
    && (answer == RevokedRefused <==> status == Revoked || (phase.Failing? && phase.failure == SourceRevoked))
    && (answer == Interrupted ==> phase.Failing? && phase.interrupted)
    && (answer == AuthRefused ==> phase.Failing? && !phase.interrupted)
    && (answer.Snapshot? <==> status != Revoked && !phase.Failing?)
    && (answer.Snapshot? ==> local.result == Some(answer.issued.grant) && answer.issued.now == local.now
                             && answer.issued.minimum == local.minimum && answer.issued.refreshed == local.refreshed)
    && !answer.ScopeRefused? && !answer.InProgressRefused?
  }

  /** One call: whose it is, where in the trace it began, and whether it was given its time. */
  datatype CallId = CallId(pid: Pid, from: nat, given: bool)

  ghost predicate CalmIn(trace: seq<Event>, call: CallId) {
    forall k :: call.from <= k < |trace| ==> !Trouble(trace[k], call.pid, call.given)
  }

  lemma CalmOneMore(trace: seq<Event>, e: Event, call: CallId)
    requires call.from <= |trace|
    ensures CalmIn(trace + [e], call) <==> CalmIn(trace, call) && !Trouble(e, call.pid, call.given)
  {
    var more := trace + [e];
    if CalmIn(more, call) {
      assert more[|trace|] == e;
      forall k | call.from <= k < |trace| ensures !Trouble(trace[k], call.pid, call.given) {
        assert more[k] == trace[k];
      }
    }
  }

  class Provider {
    const binding: Binding
    const configured: bool
    ghost const startMono: real

    var status: Status
    var busy: bool
    var failure: Option<Failure>
    var grant: Option<Grant>
    var generation: nat
    var anchor: Option<Anchor>

    /** Everything that has happened, and where it has led all callers. */
    ghost var trace: seq<Event>
    var world: System

    ghost predicate Valid()
      reads this
    {
      && binding.Valid() && world == Run(Start(binding, configured, startMono), trace)
      && Agrees()
    }

    /** The fields are those of the protocol's provider. */
    ghost predicate Agrees()
      reads this
    {
      && status == world.status && busy == world.busy && failure == world.failure
      && grant == world.grant && generation == world.generation && anchor == world.anchor
      && binding == world.binding
    }

    /** Since the call began nothing has kept it from succeeding. */
    ghost predicate Calm(call: CallId)
      reads this
    {
      CalmIn(trace, call)
    }

    /** The call is under way, and it is calm exactly while the provider is not revoked. */
    ghost predicate Steady(call: CallId)
      reads this
    {
      call.from <= |trace| && Within(world, call.pid) && (Calm(call) <==> status != Revoked)
    }

    ghost predicate At(pid: Pid, pc: Pc)
      reads this
    {
      pid in world.callers && world.callers[pid] == pc
    }

    constructor (binding: Binding, configured: bool, mono: real)
      requires binding.Valid()
      ensures Valid() && trace == [] && this.binding == binding && this.configured == configured
      ensures world == Start(binding, configured, mono)
    {
      this.binding, this.configured, this.startMono := binding, configured, mono;
      status := if configured then RefreshRequired else Unconfigured;
      busy, failure, grant, generation, anchor := false, None, None, 0, None;
      world, trace := Start(binding, configured, mono), [];
    }

    ghost method Record(e: Event)
      requires binding.Valid() && world == Next(Run(Start(binding, configured, startMono), trace), e) && Agrees()
      modifies this`trace
      ensures Valid() && trace == old(trace) + [e]
    {
      assert (trace + [e])[..|trace + [e]| - 1] == trace;
      trace := trace + [e];
    }

    /** Any number of steps of the other callers, revocations among them. */
    method Interference(pid: Pid, ghost call: CallId)
      requires Valid() && call.pid == pid
      modifies this
      ensures Valid() && old(trace) <= trace
      ensures pid in world.callers <==> pid in old(world).callers
      ensures pid in world.callers ==> world.callers[pid] == old(world).callers[pid]
      ensures old(Steady(call)) ==> Steady(call)
    {
      var steps: seq<Event> := *;
      for i := 0 to |steps|
        invariant Valid() && old(trace) <= trace
        invariant pid in world.callers <==> pid in old(world).callers
        invariant pid in world.callers ==> world.callers[pid] == old(world).callers[pid]
        invariant old(Steady(call)) ==> Steady(call)
      {
        if !Concerns(steps[i], pid) {
          OtherStep(pid, steps[i], call);
        }
      }
    }

    /** One step of the protocol that is not this call's own. */
    method Advance(e: Event)
      requires Valid() && Next(world, e).binding == binding
      modifies this
      ensures Valid() && trace == old(trace) + [e] && world == Next(old(world), e)
    {
      world := Next(world, e);
      status, busy, failure := world.status, world.busy, world.failure;
      grant, generation, anchor := world.grant, world.generation, world.anchor;
      Record(e);
    }

    /** One step of another caller, or a revocation. */
    method OtherStep(pid: Pid, e: Event, ghost call: CallId)
      requires Valid() && call.pid == pid && !Concerns(e, pid)
      modifies this
      ensures Valid() && trace == old(trace) + [e]
      ensures pid in world.callers <==> pid in old(world).callers
      ensures pid in world.callers ==> world.callers[pid] == old(world).callers[pid]
      ensures old(Steady(call)) ==> Steady(call)
    {
      RunGood(binding, configured, startMono, trace);
      OtherStepRight(world, e, pid);
      if call.from <= |trace| {
        CalmOneMore(trace, e, call);
      }
      Advance(e);
    }

    /** `revoke`. */
    method RevokeNow()
      requires Valid()
      modifies this
      ensures Valid() && trace == old(trace) + [Revoke] && status == Revoked && grant == None
    {
      status := Revoked;
      failure := Some(RevokedHere);
      grant := None;
      world := Next(world, Revoke);
      Record(Revoke);
    }

    /** The first lock section of `snapshot`: admission, and then the caller owns the provider. */
    method EnterSection(pid: Pid, minimum: nat, epoch: Option<nat>, capable: bool)
      returns (refused: Option<Answer>, cached: Option<Grant>)
      requires Valid() && pid !in world.callers
      modifies this
      ensures Valid() && trace == old(trace) + [Enter(pid, minimum, epoch, capable)]
      ensures At(pid, match refused
                      case Some(answer) => Out(answer)
                      case None => Inside(Opening, Local(minimum, epoch, cached, None, 0, None, false)))
      ensures refused == RefusedBy(capable, old(status), old(busy)) && cached == if refused.None? then old(grant) else None
      ensures refused.None? ==> Steady(CallId(pid, |trace|, epoch.Some?))
    {
      cached := None;
      if !capable {
        refused := Some(ScopeRefused);
      } else if status == Revoked {
        refused := Some(RevokedRefused);
      } else if status == Unconfigured || status == BlockedAuth {
        refused := Some(AuthRefused);
      } else if busy {
        refused := Some(InProgressRefused);
      } else {
        refused := None;
        busy := true;
        cached := grant;
      }
      world := Next(world, Enter(pid, minimum, epoch, capable));
      Record(Enter(pid, minimum, epoch, capable));
    }

    /** A step between the lock sections: it changes what the caller holds and nothing shared. */
    method Work(e: Event)
      requires Valid() && (e.Open? || e.Tick? || e.Check? || e.Answered?)
      modifies this`world, this`trace
      ensures Valid() && trace == old(trace) + [e] && world == Next(old(world), e)
    {
      WorkIsPrivate(world, e);
      world := Next(world, e);
      Record(e);
    }

    /** Reading both clocks; the monotonic one is never behind a reading made before. */
    method ReadClocks() returns (mono: real, reading: Option<nat>)
      ensures mono >= world.mono
    {
      var later: real := *;
      mono := if later >= world.mono then later else world.mono;
      reading := *;
    }

    /** The middle lock section of a call that must refresh. */
    method RefreshSection(pid: Pid, local: Local, ghost call: CallId) returns (revoked: bool)
      requires Valid() && At(pid, Inside(Deciding, local)) && RefreshNeeded(local.cached, local.now, local.minimum)
      requires Steady(call) && call.pid == pid
      modifies this
      ensures Valid() && trace == old(trace) + [Decide(pid)] && Steady(call)
      ensures revoked <==> old(status) == Revoked
      ensures At(pid, Inside(if revoked then Failing(SourceRevoked, false) else Asking, local))
    {
      revoked := status == Revoked;
      if !revoked {
        status := RefreshRequired;
        grant := None;
        status := Refreshing;
      }
      DecideIsDecided(world, pid, local);
      world := Decided(world, pid, local);
      CalmOneMore(trace, Decide(pid), call);
      Record(Decide(pid));
    }

    method KeepCached(pid: Pid, local: Local, ghost call: CallId)
      requires Valid() && At(pid, Inside(Deciding, local)) && !RefreshNeeded(local.cached, local.now, local.minimum)
      requires Steady(call) && call.pid == pid
      modifies this`world, this`trace
      ensures Valid() && trace == old(trace) + [Decide(pid)] && Steady(call)
      ensures At(pid, Inside(LastCheck, local.(result := local.cached)))
    {
      DecideIsDecided(world, pid, local);
      world := Decided(world, pid, local);
      CalmOneMore(trace, Decide(pid), call);
      Record(Decide(pid));
    }

    /** The last lock section: revocation wins, then failure, and only then success. */
    method FinishSection(pid: Pid, phase: Phase, local: Local) returns (answer: Answer)
      requires Valid() && At(pid, Inside(phase, local))
      requires phase.Failing? || (phase == Closing && local.result.Some? && local.clock.Some?)
      modifies this
      ensures Valid() && trace == old(trace) + [Finish(pid)] && At(pid, Out(answer))
      ensures FinishedAs(answer, old(status), phase, local)
      ensures answer.Snapshot? ==> world.returned == old(world).returned + [answer.issued]
    {
      busy := false;
      if status == Revoked || (phase.Failing? && phase.failure == SourceRevoked) {
        status, failure, grant := Revoked, Some(SourceRevoked), None;
        answer := RevokedRefused;
      } else if phase.Failing? {
        status, failure, grant := BlockedAuth, Some(RefreshFailed), None;
        answer := if phase.interrupted then Interrupted else AuthRefused;
      } else {
        grant, anchor := local.result, Some(local.clock.value.anchor);
        if local.refreshed {
          generation := generation + 1;
        }
        status := if generation > 1 then ReadyRotated else Ready;
        failure := None;
        answer := Snapshot(Issued(local.result.value, local.now, local.minimum, local.refreshed));
      }
      FinishIsFinished(world, pid, phase, local);
      world := Finished(world, pid, phase, local);
      Record(Finish(pid));
    }

    // ----- the work between the lock sections

    /** The call's own start of time, or the anchor of the last success. */
    method OpenClock(pid: Pid, local: Local, ghost call: CallId) returns (phase: Phase, after: Local)
      requires Valid() && At(pid, Inside(Opening, local)) && Steady(call) && call.pid == pid && call.given == local.epoch.Some?
      modifies this
      ensures Valid() && old(trace) <= trace && At(pid, Inside(phase, after))
      ensures after == local.(clock := after.clock)
      ensures if phase.Failing? then !Calm(call) && phase == Failing(RefreshFailed, false)
              else Steady(call) && phase == FirstTime && after.clock.Some? && after.clock.value.given == call.given
    {
      Interference(pid, call);
      var mono, reading := ReadClocks();
      OpenIsOpened(world, pid, local, mono, reading);
      var pc := Opened(local, anchor, mono, reading);
      CalmOneMore(trace, Open(pid, mono, reading), call);
      Work(Open(pid, mono, reading));
      phase, after := pc.phase, pc.local;
    }

    /** `now = max(now, current_time())`, and after the last one the check of the grant. */
    method TakeTime(pid: Pid, phase: Phase, local: Local, ghost call: CallId) returns (next: Phase, after: Local)
      requires Valid() && At(pid, Inside(phase, local)) && local.clock.Some? && local.clock.value.given == call.given
      requires phase == FirstTime || phase == SecondTime || phase == LastTime
      requires Steady(call) && call.pid == pid
      modifies this
      ensures Valid() && old(trace) <= trace && At(pid, Inside(next, after))
      ensures next.Failing? ==> next == Failing(RefreshFailed, false)
      ensures phase != LastTime ==> after == local.(clock := after.clock, now := after.now)
      ensures phase == LastTime ==> after == local.(clock := after.clock, now := after.now, result := after.result)
      ensures !next.Failing? ==> Steady(call) && after.clock.Some? && after.clock.value.given == call.given && after.now >= local.now
      ensures phase != LastTime ==> if next.Failing? then !Calm(call) else next == if phase == FirstTime then FirstCheck else Deciding
      ensures phase == LastTime ==>
                if next.Failing? then !Calm(call) || local.result.None? || !Usable(binding, local.result.value, after.now, local.minimum)
                else next == Closing && local.result.Some? && Usable(binding, local.result.value, after.now, local.minimum)
                     && after.result == Some(Normalised(binding, local.result.value))
    {
      Interference(pid, call);
      var mono, reading := ReadClocks();
      TickIsTicked(world, pid, phase, local, mono, reading);
      var time := CurrentTime(local.clock.value, mono, reading);
      CalmOneMore(trace, Tick(pid, mono, reading), call);
      Work(Tick(pid, mono, reading));
      if time.None? {
        return Failing(RefreshFailed, false), local;
      }
      after := local.(clock := Some(time.value.0), now := Max(local.now, time.value.1));
      var pc := AfterTick(binding, phase, after);
      next, after := pc.phase, pc.local;
    }

    /** `source.assert_available()`. */
    method AskAvailable(pid: Pid, phase: Phase, local: Local, ghost call: CallId) returns (next: Phase)
      requires Valid() && At(pid, Inside(phase, local)) && (phase == FirstCheck || phase == LastCheck)
      requires Steady(call) && call.pid == pid
      modifies this
      ensures Valid() && old(trace) <= trace && At(pid, Inside(next, local))
      ensures exists available :: Check(pid, available) in trace && CheckedAs(available, phase, next)
      ensures if next.Failing? then !Calm(call) else Steady(call)
    {
      Interference(pid, call);
      var available: Availability := *;
      CheckIsChecked(world, pid, phase, local, available);
      CalmOneMore(trace, Check(pid, available), call);
      Work(Check(pid, available));
      assert trace[|trace| - 1] == Check(pid, available);
      match available {
        case Fine => next := if phase == FirstCheck then SecondTime else LastTime;
        case Odd => next := Failing(RefreshFailed, false);
        case SaysRevoked => next := Failing(SourceRevoked, false);
        case Fails(interrupted) => next := Failing(RefreshFailed, interrupted);
      }
    }

    /** `source.refresh_access(...)`, asked at most once in a call. */
    method AskRefresh(pid: Pid, local: Local, ghost call: CallId) returns (next: Phase, after: Local, ghost reply: SourceReply)
      requires Valid() && At(pid, Inside(Asking, local)) && Steady(call) && call.pid == pid
      modifies this
      ensures Valid() && old(trace) <= trace && At(pid, Inside(next, after))
      ensures Answered(pid, reply) in trace && RepliedAs(reply, local, next, after)
      ensures if next.Failing? then !Calm(call) else Steady(call)
    {
      Interference(pid, call);
      var answer: SourceReply := *;
      AnswerIsReplied(world, pid, local, answer);
      CalmOneMore(trace, Answered(pid, answer), call);
      Work(Answered(pid, answer));
      reply := answer;
      assert trace[|trace| - 1] == Answered(pid, answer);
      after := local;
      match answer {
        case Grants(g) => next, after := LastCheck, local.(result := Some(g), refreshed := true);
        case NoGrant => next, after := LastCheck, local.(result := None, refreshed := true);
        case ReplyRevoked => next := Failing(SourceRevoked, false);
        case ReplyFails(interrupted) => next := Failing(RefreshFailed, interrupted);
      }
    }

    /** From the first reading of time to the decision. */
    method Prepare(pid: Pid, start: Local, ghost call: CallId) returns (phase: Phase, local: Local)
      requires Valid() && At(pid, Inside(Opening, start)) && Steady(call) && call.pid == pid && call.given == start.epoch.Some?
      modifies this
      ensures Valid() && old(trace) <= trace && At(pid, Inside(phase, local))
      ensures local == start.(clock := local.clock, now := local.now)
      ensures if phase.Failing? then !Calm(call)
              else Steady(call) && phase == Deciding && local.clock.Some? && local.clock.value.given == call.given
    {
      phase, local := OpenClock(pid, start, call);
      if !phase.Failing? {
        phase, local := TakeTime(pid, FirstTime, local, call);
      }
      if !phase.Failing? {
        phase := AskAvailable(pid, FirstCheck, local, call);
      }
      if !phase.Failing? {
        phase, local := TakeTime(pid, SecondTime, local, call);
      }
    }

    /** A new grant through the middle lock section. */
    method ObtainNew(pid: Pid, start: Local, ghost call: CallId) returns (phase: Phase, local: Local, ghost asked: Option<SourceReply>)
      requires Valid() && At(pid, Inside(Deciding, start)) && !WillLast(start.cached, start.now, start.minimum)
      requires Steady(call) && call.pid == pid
      modifies this
      ensures Valid() && old(trace) <= trace && At(pid, Inside(phase, local))
      ensures local == start.(result := local.result, refreshed := local.refreshed)
      ensures if phase.Failing? then !Calm(call) else Steady(call) && phase == LastCheck && asked.Some?
      ensures asked.Some? ==> Answered(pid, asked.value) in trace
      ensures !phase.Failing? ==> ObtainedAs(asked, start.cached, local)
    {
      asked := None;
      var revoked := RefreshSection(pid, start, call);
      if revoked {
        return Failing(SourceRevoked, false), start, asked;
      }
      ghost var reply;
      phase, local, reply := AskRefresh(pid, start, call);
      asked := Some(reply);
    }

    /** The cached grant, or a new one where it would not last. */
    method Obtain(pid: Pid, start: Local, ghost call: CallId) returns (phase: Phase, local: Local, ghost asked: Option<SourceReply>)
      requires Valid() && At(pid, Inside(Deciding, start)) && start.clock.Some? && !start.refreshed
      requires Steady(call) && call.pid == pid
      modifies this
      ensures Valid() && old(trace) <= trace && At(pid, Inside(phase, local))
      ensures local == start.(result := local.result, refreshed := local.refreshed)
      ensures if phase.Failing? then !Calm(call) else Steady(call) && phase == LastCheck
      ensures asked.Some? ==> Answered(pid, asked.value) in trace
      ensures asked.Some? ==> !WillLast(start.cached, start.now, start.minimum)
      ensures asked.None? ==> !Calm(call) || WillLast(start.cached, start.now, start.minimum)
      ensures !phase.Failing? ==> ObtainedAs(asked, start.cached, local)
    {
      Interference(pid, call);
      if RefreshNeeded(start.cached, start.now, start.minimum) {
        phase, local, asked := ObtainNew(pid, start, call);
      } else {
        asked := None;
        KeepCached(pid, start, call);
        phase, local := LastCheck, start.(result := start.cached);
      }
    }

    /**
     `snapshot`: whatever others do meanwhile, the call ends in one answer, and it has followed the
     protocol to it. Who is not refused at the door is answered a snapshot exactly if no trouble
     came up and the grant it ends with, asked for exactly where the cached one would not last, is
     usable at the last time; and that snapshot is one the protocol has returned.
     */
    method TakeSnapshot(pid: Pid, required: set<string>, minimum: nat, epoch: Option<nat>)
      returns (answer: Answer, ghost door: Door, ghost story: Story)
      requires Valid() && pid !in world.callers
      modifies this
      ensures Valid() && old(trace) <= trace && At(pid, Out(answer))
      ensures var refused := RefusedBy(required <= (set c | c in binding.capabilities), door.status, door.busy);
              if refused.Some? then answer == refused.value
              else Told(answer, pid, minimum, epoch.Some?, story) && story.cached == door.grant
      ensures answer.Snapshot? ==>
                && required <= (set c | c in binding.capabilities)
                && answer.issued in world.returned && answer.issued.minimum == minimum
                && Usable(binding, answer.issued.grant, answer.issued.now, minimum)
    {
      var capable := required <= (set c | c in binding.capabilities);
      Interference(pid, CallId(pid, |trace|, epoch.Some?));
      door := Door(status, busy, grant);
      story := Story(0, None, None, 0, 0);
      var refused, cached := EnterSection(pid, minimum, epoch, capable);
      if refused.Some? {
        return refused.value, door, story;
      }
      answer, story := IssueInside(pid, Local(minimum, epoch, cached, None, 0, None, false));
    }

    /** The answer of an admitted call by what happened in it. */
    ghost predicate Told(answer: Answer, pid: Pid, minimum: nat, given: bool, story: Story)
      reads this
    {
      && story.from <= |trace|
      && (story.asked.Some? ==> Answered(pid, story.asked.value) in trace && !WillLast(story.cached, story.decided, minimum))
      && (Calm(CallId(pid, story.from, given)) && story.asked.None? ==> WillLast(story.cached, story.decided, minimum))
      && (answer.Snapshot? <==>
            Calm(CallId(pid, story.from, given)) && Offered(story).Some? && Usable(binding, Offered(story).value, story.last, minimum))
      && (answer.Snapshot? ==>
            && answer.issued.now == story.last && answer.issued.refreshed == story.asked.Some?
            && answer.issued.grant == Normalised(binding, Offered(story).value))
    }

    method IssueInside(pid: Pid, start: Local) returns (answer: Answer, ghost story: Story)
      requires Valid() && At(pid, Inside(Opening, start)) && start.result.None? && !start.refreshed
      requires Steady(CallId(pid, |trace|, start.epoch.Some?))
      modifies this
      ensures Valid() && old(trace) <= trace && At(pid, Out(answer))
      ensures Told(answer, pid, start.minimum, start.epoch.Some?, story) && story.cached == start.cached
      ensures answer.Snapshot? ==>
                && answer.issued in world.returned && answer.issued.minimum == start.minimum
                && Usable(binding, answer.issued.grant, answer.issued.now, start.minimum)
    {
      ghost var call := CallId(pid, |trace|, start.epoch.Some?);
      var phase, local := Prepare(pid, start, call);
      story := Story(call.from, local.cached, None, local.now, local.now);
      if phase.Failing? {
        answer := EndCall(pid, phase, local, call);
        return;
      }
      ghost var asked;
      phase, local, asked := Obtain(pid, local, call);
      story := story.(asked := asked);
      if phase.Failing? {
        answer := EndCall(pid, phase, local, call);
        return;
      }
      ghost var last;
      answer, last := Recheck(pid, local, call);
      story := story.(last := last);
    }

    /** Availability and time are checked again after the slow work, and then the grant. */
    method Recheck(pid: Pid, start: Local, ghost call: CallId) returns (answer: Answer, ghost last: nat)
      requires Valid() && At(pid, Inside(LastCheck, start)) && start.clock.Some? && start.clock.value.given == call.given
      requires Steady(call) && call.pid == pid
      modifies this
      ensures Valid() && old(trace) <= trace && At(pid, Out(answer))
      ensures answer.Snapshot? <==> Calm(call) && start.result.Some? && Usable(binding, start.result.value, last, start.minimum)
      ensures answer.Snapshot? ==>
                && answer.issued in world.returned && answer.issued.minimum == start.minimum && answer.issued.now == last
                && answer.issued.refreshed == start.refreshed && answer.issued.grant == Normalised(binding, start.result.value)
                && Usable(binding, answer.issued.grant, answer.issued.now, start.minimum)
    {
      var phase := AskAvailable(pid, LastCheck, start, call);
      var local := start;
      if !phase.Failing? {
        phase, local := TakeTime(pid, LastTime, start, call);
      }
      last := local.now;
      answer := EndCall(pid, phase, local, call);
    }

    method EndCall(pid: Pid, phase: Phase, local: Local, ghost call: CallId) returns (answer: Answer)
      requires Valid() && At(pid, Inside(phase, local)) && call.pid == pid && call.from <= |trace|
      requires if phase.Failing? then true else Steady(call) && phase == Closing && local.result.Some? && local.clock.Some?
      modifies this
      ensures Valid() && old(trace) <= trace && At(pid, Out(answer))
      ensures answer.Snapshot? <==> !phase.Failing? && Calm(call)
      ensures answer.Snapshot? ==>
                && answer.issued in world.returned && local.result == Some(answer.issued.grant)
                && answer.issued.now == local.now && answer.issued.minimum == local.minimum && answer.issued.refreshed == local.refreshed
                && Usable(binding, answer.issued.grant, answer.issued.now, local.minimum)
    {
      Interference(pid, call);
      ghost var before := world.returned;
      answer := FinishSection(pid, phase, local);
      if answer.Snapshot? {
        LastIsUsable(binding, configured, startMono, trace, before, answer.issued);
      }
    }
  }

  /** The provider as the call found it at the first lock section. */
  datatype Door = Door(status: Status, busy: bool, grant: Option<Grant>)

  /** What a call met: where it began, the cached grant, the answer asked for, and its time at the decision and at the end. */
  datatype Story = Story(from: nat, cached: Option<Grant>, asked: Option<SourceReply>, decided: nat, last: nat)

  /** The grant a call ends with. */
  function Offered(story: Story): Option<Grant> {
    match story.asked
    case None => story.cached
    case Some(reply) => if reply.Grants? then Some(reply.grant) else None
  }

  /** The cached grant is there, has not expired, and lasts for the time asked from now. */
  predicate WillLast(cached: Option<Grant>, now: nat, minimum: nat) {
    cached.Some? && now < cached.value.expires && now + minimum <= cached.value.expires
  }

  predicate CheckedAs(available: Availability, phase: Phase, next: Phase) {
    && (available.Fine? ==> next == if phase == FirstCheck then SecondTime else LastTime)
    && (available.Odd? ==> next == Failing(RefreshFailed, false))
    && (available.SaysRevoked? ==> next == Failing(SourceRevoked, false))
    && (available.Fails? ==> next == Failing(RefreshFailed, available.interrupted))
  }

  predicate RepliedAs(reply: SourceReply, local: Local, next: Phase, after: Local) {
    && (reply.Grants? ==> next == LastCheck && after == local.(result := Some(reply.grant), refreshed := true))
    && (reply.NoGrant? ==> next == LastCheck && after == local.(result := None, refreshed := true))
    && (reply.ReplyRevoked? ==> next == Failing(SourceRevoked, false) && after == local)
    && (reply.ReplyFails? ==> next == Failing(RefreshFailed, reply.interrupted) && after == local)
  }

  predicate ObtainedAs(asked: Option<SourceReply>, cached: Option<Grant>, local: Local) {
    && (asked.None? ==> local.result == cached && !local.refreshed)
    && (asked.Some? ==> local.refreshed && local.result == (if asked.value.Grants? then Some(asked.value.grant) else None))
  }

  lemma LastIsUsable(binding: Binding, configured: bool, mono: real, trace: seq<Event>, before: seq<Issued>, last: Issued)
    requires binding.Valid() && Run(Start(binding, configured, mono), trace).returned == before + [last]
    ensures last in Run(Start(binding, configured, mono), trace).returned
    ensures Usable(binding, last.grant, last.now, last.minimum)
  {
    SnapshotsAreSound(binding, configured, mono, trace);
    var returned := Run(Start(binding, configured, mono), trace).returned;
    assert returned[|before|] == last;
    assert IssuedOk(binding, returned, |before|);
  }

  lemma WorkIsPrivate(s: System, e: Event)
    requires e.Open? || e.Tick? || e.Check? || e.Answered?
    ensures var t := Next(s, e);
            && t.status == s.status && t.busy == s.busy && t.failure == s.failure && t.grant == s.grant
            && t.generation == s.generation && t.anchor == s.anchor && t.binding == s.binding && t.returned == s.returned
  {
  }
}
