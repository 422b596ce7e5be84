/** What holds of every run of the access-only provider. */
module IssuanceSafety {
  import opened CredentialIdentity
  import opened IssuanceProtocol
  import RotationProtocol

  predicate Within(s: System, pid: Pid) {
    pid in s.callers && s.callers[pid].Inside?
  }

  predicate Terminal(s: System) {
    s.status == Revoked || s.status == BlockedAuth
  }

  /** At most one caller is between the lock sections, and `busy` says whether there is one. */
  ghost predicate OneInside(s: System) {
    && (s.busy <==> exists pid :: Within(s, pid))
    && (forall p, q :: Within(s, p) && Within(s, q) ==> p == q)
    && (s.status == BlockedAuth ==> !s.busy)
  }

  /** Moving one caller that was inside, and nobody else. */
  lemma MoveInside(s: System, t: System, pid: Pid, pc: Pc)
    requires OneInside(s) && Within(s, pid) && t.callers == s.callers[pid := pc]
    requires t.busy == pc.Inside? && (t.status == BlockedAuth ==> !t.busy)
    ensures OneInside(t)
  {
    forall p | p != pid ensures !Within(t, p) {
      assert Within(t, p) ==> Within(s, p);
    }
    if pc.Inside? {
      assert Within(t, pid);
    }
  }

  lemma EnterOneInside(s: System, e: Event)
    requires OneInside(s) && e.Enter? && e.pid !in s.callers
    ensures OneInside(Next(s, e))
  {
    var t := Next(s, e);
    forall p | p != e.pid ensures Within(t, p) <==> Within(s, p) {
    }
    if t.callers[e.pid].Inside? {
      assert Within(t, e.pid);
    } else if s.busy {
      var p :| Within(s, p);
      assert Within(t, p);
    }
  }

  lemma NextOneInside(s: System, e: Event)
    requires OneInside(s)
    ensures OneInside(Next(s, e))
  {
    var t := Next(s, e);
    if e.Revoke? {
      forall p ensures Within(t, p) <==> Within(s, p) {
      }
    } else if e.Enter? {
      if e.pid !in s.callers {
        EnterOneInside(s, e);
      }
    } else if Within(s, e.pid) && t != s {
      assert s.busy;
      MoveInside(s, t, e.pid, t.callers[e.pid]);
    }
  }

  // ----- terminal states

  /** Blocked and revoked never go back, a revocation is never undone, and nothing is returned any more. */
  lemma NextTerminal(s: System, e: Event)
    requires OneInside(s)
    ensures Terminal(s) ==> Terminal(Next(s, e)) && Next(s, e).returned == s.returned
    ensures s.status == Revoked ==> Next(s, e).status == Revoked
  {
    if s.status == BlockedAuth && !e.Revoke? && !e.Enter? && e.pid in s.callers {
      assert !Within(s, e.pid);
    }
  }

  // ----- time

  predicate LastTimeUpTo(times: seq<nat>, bound: nat) {
    times == [] || times[|times| - 1] <= bound
  }

  ghost predicate NeverFalling(times: seq<nat>) {
    forall i, j :: 0 <= i < j < |times| ==> times[i] <= times[j]
  }

  /** Every time used so far is at most what the anchor, if there is one, says now. */
  predicate Behind(times: seq<nat>, anchor: Option<Anchor>, mono: real) {
    match anchor
    case None => times == []
    case Some(a) => a.mono <= mono && LastTimeUpTo(times, Floor(a, mono))
  }

  /** The clock of the call inside keeps every time already used behind it. */
  ghost predicate ClockOk(s: System, phase: Phase, l: Local) {
    if phase == Opening then l.now == 0 && l.clock.None? && Behind(s.times, s.anchor, s.mono)
    else if phase.Failing? then true
    else
      && l.clock.Some? && Behind(s.times, Some(l.clock.value.anchor), s.mono)
      && l.now <= Floor(l.clock.value.anchor, s.mono)
      && (phase == Closing ==> s.times != [] && s.times[|s.times| - 1] == l.now)
  }

  ghost predicate TimesOk(s: System) {
    && NeverFalling(s.times)
    && (!s.busy && !Terminal(s) ==> Behind(s.times, s.anchor, s.mono))
    && forall pid :: Within(s, pid) ==> ClockOk(s, s.callers[pid].phase, s.callers[pid].local)
  }

  lemma FloorIsMonotone(a: Anchor, early: real, late: real)
    requires early <= late
    ensures Floor(a, early) <= Floor(a, late)
  {
    assert (early - a.mono).Floor <= (late - a.mono).Floor by {
      assert early - a.mono <= late - a.mono;
    }
  }

  lemma StillBehind(times: seq<nat>, anchor: Option<Anchor>, early: real, late: real)
    requires Behind(times, anchor, early) && early <= late
    ensures Behind(times, anchor, late)
  {
    if anchor.Some? {
      FloorIsMonotone(anchor.value, early, late);
    }
  }

  /** Each reading is at least every time used before, whatever the wall clock says. */
  lemma CurrentTimeNeverBack(c: Clock, early: real, late: real, reading: Option<nat>, times: seq<nat>)
    requires Behind(times, Some(c.anchor), early) && early <= late && CurrentTime(c, late, reading).Some?
    ensures var (after, time) := CurrentTime(c, late, reading).value;
            && LastTimeUpTo(times, time) && time == Floor(after.anchor, late)
            && after.anchor.mono <= late && Floor(c.anchor, early) <= time
  {
    FloorIsMonotone(c.anchor, early, late);
    assert (late - late).Floor == 0;
  }

  lemma NeverFallingOneMore(times: seq<nat>, time: nat)
    requires NeverFalling(times) && LastTimeUpTo(times, time)
    ensures NeverFalling(times + [time])
  {
    var more := times + [time];
    forall i | 0 <= i < |times| ensures times[i] <= time {
      assert times[i] <= times[|times| - 1];
    }
  }

  lemma OpenTimes(s: System, e: Event)
    requires OneInside(s) && TimesOk(s) && e.Open? && Within(s, e.pid) && s.callers[e.pid].phase == Opening && e.mono >= s.mono
    ensures TimesOk(Next(s, e))
  {
    var t := Next(s, e);
    var l := s.callers[e.pid].local;
    StillBehind(s.times, s.anchor, s.mono, e.mono);
    forall p | Within(t, p) ensures ClockOk(t, t.callers[p].phase, t.callers[p].local) {
      assert Within(s, p);
    }
  }

  lemma TickTimes(s: System, e: Event)
    requires OneInside(s) && TimesOk(s) && e.Tick? && Within(s, e.pid) && e.mono >= s.mono
    requires var Inside(phase, l) := s.callers[e.pid];
             (phase == FirstTime || phase == SecondTime || phase == LastTime) && l.clock.Some?
    ensures TimesOk(Next(s, e))
  {
    var t := Next(s, e);
    var Inside(phase, l) := s.callers[e.pid];
    var c := l.clock.value;
    if CurrentTime(c, e.mono, e.reading).Some? {
      CurrentTimeNeverBack(c, s.mono, e.mono, e.reading, s.times);
      NeverFallingOneMore(s.times, CurrentTime(c, e.mono, e.reading).value.1);
    }
    forall p | Within(t, p) ensures ClockOk(t, t.callers[p].phase, t.callers[p].local) {
      assert Within(s, p);
    }
  }

  /** A step of the caller inside that touches neither clock nor lock. */
  lemma MoveTimes(s: System, t: System, pid: Pid, phase: Phase, l: Local)
    requires OneInside(s) && TimesOk(s) && Within(s, pid) && s.busy == t.busy
    requires t.callers == s.callers[pid := Inside(phase, l)]
    requires t.times == s.times && t.anchor == s.anchor && t.mono == s.mono
    requires ClockOk(t, phase, l)
    ensures TimesOk(t)
  {
    forall p | Within(t, p) ensures ClockOk(t, t.callers[p].phase, t.callers[p].local) {
      assert Within(s, p);
    }
  }

  lemma EnterTimes(s: System, e: Event)
    requires OneInside(s) && TimesOk(s) && e.Enter? && e.pid !in s.callers
    ensures TimesOk(Next(s, e))
  {
    var t := Next(s, e);
    forall p | Within(t, p) ensures ClockOk(t, t.callers[p].phase, t.callers[p].local) {
      assert p == e.pid || Within(s, p);
    }
  }

  lemma FinishTimes(s: System, e: Event)
    requires OneInside(s) && TimesOk(s) && e.Finish? && Within(s, e.pid) && Next(s, e) != s
    ensures TimesOk(Next(s, e))
  {
    var t := Next(s, e);
    assert s.busy;
    forall p ensures !Within(t, p) {
      assert p != e.pid && Within(t, p) ==> Within(s, p);
    }
  }

  lemma RevokeTimes(s: System)
    requires TimesOk(s)
    ensures TimesOk(Next(s, Revoke))
  {
    var t := Next(s, Revoke);
    forall p | Within(t, p) ensures ClockOk(t, t.callers[p].phase, t.callers[p].local) {
      assert Within(s, p);
    }
  }

  lemma WorkTimes(s: System, e: Event)
    requires OneInside(s) && TimesOk(s) && (e.Check? || e.Decide? || e.Answered?) && Next(s, e) != s
    ensures TimesOk(Next(s, e))
  {
    ChangeMeansWorking(s, e);
    var Inside(phase, l) := s.callers[e.pid];
    assert Within(s, e.pid) && ClockOk(s, phase, l);
    if e.Check? {
      CheckIsChecked(s, e.pid, phase, l, e.available);
      var Inside(next, after) := Checked(s, e.pid, phase, l, e.available).callers[e.pid];
      MoveTimes(s, Checked(s, e.pid, phase, l, e.available), e.pid, next, after);
    } else if e.Decide? {
      DecideIsDecided(s, e.pid, l);
      var Inside(next, after) := Decided(s, e.pid, l).callers[e.pid];
      MoveTimes(s, Decided(s, e.pid, l), e.pid, next, after);
    } else {
      AnswerIsReplied(s, e.pid, l, e.reply);
      var Inside(next, after) := Replied(s, e.pid, l, e.reply).callers[e.pid];
      MoveTimes(s, Replied(s, e.pid, l, e.reply), e.pid, next, after);
    }
  }

  lemma NextTimes(s: System, e: Event)
    requires OneInside(s) && TimesOk(s)
    ensures TimesOk(Next(s, e))
  {
    var t := Next(s, e);
    if t != s && !e.Revoke? {
      ChangeMeansWorking(s, e);
    }
    if t == s {
    } else if e.Open? {
      OpenTimes(s, e);
    } else if e.Tick? {
      TickTimes(s, e);
    } else if e.Enter? {
      EnterTimes(s, e);
    } else if e.Finish? {
      FinishTimes(s, e);
    } else if e.Revoke? {
      RevokeTimes(s);
    } else {
      WorkTimes(s, e);
    }
  }

  // ----- what is returned

  function Refreshes(returned: seq<Issued>): nat {
    if returned == [] then 0
    else Refreshes(returned[..|returned| - 1]) + (if returned[|returned| - 1].refreshed then 1 else 0)
  }

  predicate Owned(binding: Binding, g: Grant) {
    g.provider == binding.provider && g.account == binding.account && g.capabilities == binding.capabilities
  }

  /** The last snapshot returned hands out this grant. */
  predicate LastHandedOut(returned: seq<Issued>, g: Grant) {
    returned != [] && returned[|returned| - 1].grant == g
  }

  /** Usable at the time it was checked, of this identity; without a refresh it is the grant handed out before. */
  ghost predicate IssuedOk(binding: Binding, returned: seq<Issued>, i: nat)
    requires i < |returned|
  {
    && Usable(binding, returned[i].grant, returned[i].now, returned[i].minimum) && Owned(binding, returned[i].grant)
    && (!returned[i].refreshed ==> i > 0 && returned[i].grant == returned[i - 1].grant)
  }

  ghost predicate HoldsOk(s: System, phase: Phase, l: Local) {
    && (phase == Opening || phase == FirstTime || phase == FirstCheck || phase == SecondTime || phase == Deciding || phase == Asking
        ==> !l.refreshed && l.result == None)
    && (l.cached.Some? ==> LastHandedOut(s.returned, l.cached.value) && Owned(s.binding, l.cached.value))
    && (l.result.Some? && !l.refreshed ==> l.result == l.cached)
    && (phase == Closing ==> l.result.Some? && Owned(s.binding, l.result.value)
                             && Usable(s.binding, l.result.value, l.now, l.minimum)
                             && (!l.refreshed ==> l.result == l.cached))
  }

  ghost predicate ReturnsOk(s: System) {
    && s.generation == Refreshes(s.returned)
    && (s.status == Ready ==> s.generation <= 1) && (s.status == ReadyRotated ==> s.generation > 1)
    && (s.grant.Some? ==> LastHandedOut(s.returned, s.grant.value) && Owned(s.binding, s.grant.value))
    && (forall i :: 0 <= i < |s.returned| ==> IssuedOk(s.binding, s.returned, i))
    && (forall pid :: Within(s, pid) ==> HoldsOk(s, s.callers[pid].phase, s.callers[pid].local))
  }

  lemma NormalisedIsUsable(binding: Binding, g: Grant, now: nat, minimum: nat)
    requires binding.Valid() && Usable(binding, g, now, minimum)
    ensures Usable(binding, Normalised(binding, g), now, minimum) && Owned(binding, Normalised(binding, g))
    ensures Owned(binding, g) ==> Normalised(binding, g) == g
  {
  }

  lemma MoveReturns(s: System, t: System, pid: Pid, phase: Phase, l: Local)
    requires OneInside(s) && ReturnsOk(s) && Within(s, pid)
    requires t.callers == s.callers[pid := Inside(phase, l)] && t.binding == s.binding
    requires t.returned == s.returned && t.generation == s.generation
    requires (t.status == s.status || t.status == Refreshing) && (t.grant == s.grant || t.grant == None)
    requires HoldsOk(s, phase, l)
    ensures ReturnsOk(t)
  {
    forall p | Within(t, p) ensures HoldsOk(t, t.callers[p].phase, t.callers[p].local) {
      assert Within(s, p);
    }
  }

  lemma NobodyElse(s: System, pid: Pid, callers: map<Pid, Pc>)
    requires OneInside(s) && Within(s, pid) && pid in callers && !callers[pid].Inside?
    requires callers == s.callers[pid := callers[pid]]
    ensures forall p :: p in callers ==> !callers[p].Inside?
  {
    forall p | p in callers && p != pid ensures !callers[p].Inside? {
      assert Within(s, p) <==> callers[p].Inside?;
    }
  }

  lemma IssuedOneMore(binding: Binding, returned: seq<Issued>, issued: Issued)
    requires forall i :: 0 <= i < |returned| ==> IssuedOk(binding, returned, i)
    requires Usable(binding, issued.grant, issued.now, issued.minimum) && Owned(binding, issued.grant)
    requires !issued.refreshed ==> LastHandedOut(returned, issued.grant)
    ensures forall i :: 0 <= i < |returned| + 1 ==> IssuedOk(binding, returned + [issued], i)
    ensures Refreshes(returned + [issued]) == Refreshes(returned) + (if issued.refreshed then 1 else 0)
  {
    var more := returned + [issued];
    assert more[..|more| - 1] == returned;
    forall i | 0 <= i < |more| ensures IssuedOk(binding, more, i) {
      if i < |returned| {
        assert IssuedOk(binding, returned, i);
      }
    }
  }

  lemma FinishReturns(s: System, e: Event)
    requires OneInside(s) && ReturnsOk(s) && e.Finish? && Within(s, e.pid) && Next(s, e) != s
    ensures ReturnsOk(Next(s, e))
  {
    ChangeMeansWorking(s, e);
    var Inside(phase, l) := s.callers[e.pid];
    assert HoldsOk(s, phase, l);
    FinishIsFinished(s, e.pid, phase, l);
    FinishedReturns(s, e.pid, phase, l);
  }

  lemma FinishedReturns(s: System, pid: Pid, phase: Phase, l: Local)
    requires OneInside(s) && ReturnsOk(s) && Working(s, pid, phase, l) && HoldsOk(s, phase, l)
    requires phase == Closing || phase.Failing?
    ensures ReturnsOk(Finished(s, pid, phase, l))
  {
    var t := Finished(s, pid, phase, l);
    assert Within(s, pid);
    NobodyElse(s, pid, t.callers);
    if t.returned == s.returned {
      ReturnsUnchanged(s, t);
    } else {
      IssuedReturns(s, t, phase, l);
    }
  }

  lemma IssuedReturns(s: System, t: System, phase: Phase, l: Local)
    requires ReturnsOk(s) && phase == Closing && HoldsOk(s, phase, l)
    requires t.binding == s.binding && t.returned == s.returned + [Issued(l.result.value, l.now, l.minimum, l.refreshed)]
    requires t.generation == s.generation + (if l.refreshed then 1 else 0) && t.grant == l.result
    requires t.status == if t.generation > 1 then ReadyRotated else Ready
    requires forall p :: p in t.callers ==> !t.callers[p].Inside?
    ensures ReturnsOk(t)
  {
    var issued := Issued(l.result.value, l.now, l.minimum, l.refreshed);
    IssuedOneMore(s.binding, s.returned, issued);
    ReturnsOneMore(s, t, issued);
  }

  lemma ReturnsUnchanged(s: System, t: System)
    requires ReturnsOk(s) && t.binding == s.binding && t.returned == s.returned && t.generation == s.generation
    requires t.grant == None && t.status != Ready && t.status != ReadyRotated
    requires forall p :: p in t.callers ==> !t.callers[p].Inside?
    ensures ReturnsOk(t)
  {
  }

  lemma ReturnsOneMore(s: System, t: System, issued: Issued)
    requires t.binding == s.binding && t.returned == s.returned + [issued]
    requires t.generation == Refreshes(t.returned) && t.grant == Some(issued.grant) && Owned(s.binding, issued.grant)
    requires t.status == if t.generation > 1 then ReadyRotated else Ready
    requires forall i :: 0 <= i < |t.returned| ==> IssuedOk(t.binding, t.returned, i)
    requires forall p :: p in t.callers ==> !t.callers[p].Inside?
    ensures ReturnsOk(t)
  {
  }

  lemma EnterReturns(s: System, e: Event)
    requires OneInside(s) && ReturnsOk(s) && e.Enter? && e.pid !in s.callers
    ensures ReturnsOk(Next(s, e))
  {
    var t := Next(s, e);
    forall p | Within(t, p) ensures HoldsOk(t, t.callers[p].phase, t.callers[p].local) {
      assert p == e.pid || Within(s, p);
    }
  }

  lemma TickReturns(s: System, e: Event)
    requires s.binding.Valid() && OneInside(s) && ReturnsOk(s) && e.Tick? && Within(s, e.pid) && Next(s, e) != s
    ensures ReturnsOk(Next(s, e))
  {
    var t := Next(s, e);
    var Inside(phase, l) := t.callers[e.pid];
    if phase == Closing {
      NormalisedIsUsable(s.binding, s.callers[e.pid].local.result.value, l.now, l.minimum);
    }
    MoveReturns(s, t, e.pid, phase, l);
  }

  lemma OpenReturns(s: System, e: Event)
    requires OneInside(s) && ReturnsOk(s) && e.Open? && Within(s, e.pid) && Next(s, e) != s
    ensures ReturnsOk(Next(s, e))
  {
    var Inside(phase, l) := Next(s, e).callers[e.pid];
    MoveReturns(s, Next(s, e), e.pid, phase, l);
  }

  lemma CheckReturns(s: System, e: Event)
    requires OneInside(s) && ReturnsOk(s) && e.Check? && Within(s, e.pid) && Next(s, e) != s
    ensures ReturnsOk(Next(s, e))
  {
    ChangeMeansWorking(s, e);
    var Inside(phase, l) := s.callers[e.pid];
    CheckIsChecked(s, e.pid, phase, l, e.available);
    var t := Checked(s, e.pid, phase, l, e.available);
    var Inside(next, after) := t.callers[e.pid];
    assert HoldsOk(s, phase, l);
    MoveReturns(s, t, e.pid, next, after);
  }

  lemma DecideReturns(s: System, e: Event)
    requires OneInside(s) && ReturnsOk(s) && e.Decide? && Within(s, e.pid) && Next(s, e) != s
    ensures ReturnsOk(Next(s, e))
  {
    ChangeMeansWorking(s, e);
    var Inside(phase, l) := s.callers[e.pid];
    DecideIsDecided(s, e.pid, l);
    var t := Decided(s, e.pid, l);
    var Inside(next, after) := t.callers[e.pid];
    assert HoldsOk(s, phase, l);
    MoveReturns(s, t, e.pid, next, after);
  }

  lemma AnswerReturns(s: System, e: Event)
    requires OneInside(s) && ReturnsOk(s) && e.Answered? && Within(s, e.pid) && Next(s, e) != s
    ensures ReturnsOk(Next(s, e))
  {
    ChangeMeansWorking(s, e);
    var Inside(phase, l) := s.callers[e.pid];
    AnswerIsReplied(s, e.pid, l, e.reply);
    var t := Replied(s, e.pid, l, e.reply);
    var Inside(next, after) := t.callers[e.pid];
    assert HoldsOk(s, phase, l);
    MoveReturns(s, t, e.pid, next, after);
  }

  lemma RevokeReturns(s: System)
    requires OneInside(s) && ReturnsOk(s)
    ensures ReturnsOk(Next(s, Revoke))
  {
    var t := Next(s, Revoke);
    forall p | Within(t, p) ensures HoldsOk(t, t.callers[p].phase, t.callers[p].local) {
      assert Within(s, p);
    }
  }

  lemma NextReturns(s: System, e: Event)
    requires s.binding.Valid() && OneInside(s) && ReturnsOk(s)
    ensures ReturnsOk(Next(s, e))
  {
    if Next(s, e) != s {
      if e.Tick? {
        TickReturns(s, e);
      } else if e.Enter? {
        EnterReturns(s, e);
      } else if e.Finish? {
        FinishReturns(s, e);
      } else if e.Revoke? {
        RevokeReturns(s);
      } else if e.Open? {
        OpenReturns(s, e);
      } else if e.Check? {
        CheckReturns(s, e);
      } else if e.Decide? {
        DecideReturns(s, e);
      } else {
        AnswerReturns(s, e);
      }
    }
  }

  // ----- every run

  /** Snapshots are returned in time order, none later than the last time used. */
  ghost predicate InTimeOrder(s: System) {
    && (forall i :: 0 <= i < |s.returned| ==> s.times != [] && s.returned[i].now <= s.times[|s.times| - 1])
    && (forall i, j :: 0 <= i < j < |s.returned| ==> s.returned[i].now <= s.returned[j].now)
  }

  lemma TimesGrow(s: System, t: System, time: nat)
    requires InTimeOrder(s) && t.returned == s.returned && t.times == s.times + [time] && NeverFalling(t.times)
    ensures InTimeOrder(t)
  {
    forall i | 0 <= i < |s.returned| ensures s.returned[i].now <= time {
      assert s.returned[i].now <= s.times[|s.times| - 1];
      assert t.times[|s.times| - 1] == s.times[|s.times| - 1] && t.times[|s.times|] == time;
    }
  }

  lemma ReturnedGrow(s: System, t: System, issued: Issued)
    requires InTimeOrder(s) && t.times == s.times && t.returned == s.returned + [issued]
    requires s.times != [] && s.times[|s.times| - 1] == issued.now
    ensures InTimeOrder(t)
  {
  }

  lemma NextInTimeOrder(s: System, e: Event)
    requires OneInside(s) && TimesOk(s) && TimesOk(Next(s, e)) && InTimeOrder(s)
    ensures InTimeOrder(Next(s, e))
  {
    OnlyTickAndFinish(s, e);
    if Next(s, e) != s && (e.Tick? || e.Finish?) {
      ChangeMeansWorking(s, e);
      var Inside(phase, l) := s.callers[e.pid];
      assert Within(s, e.pid) && ClockOk(s, phase, l);
      if e.Tick? {
        TickIsTicked(s, e.pid, phase, l, e.mono, e.reading);
        if CurrentTime(l.clock.value, e.mono, e.reading).Some? {
          TimesGrow(s, Next(s, e), Max(l.now, CurrentTime(l.clock.value, e.mono, e.reading).value.1));
        }
      } else {
        FinishIsFinished(s, e.pid, phase, l);
        if Next(s, e).returned != s.returned {
          ReturnedGrow(s, Next(s, e), Issued(l.result.value, l.now, l.minimum, l.refreshed));
        }
      }
    }
  }

  ghost predicate Good(s: System) {
    s.binding.Valid() && OneInside(s) && TimesOk(s) && ReturnsOk(s) && InTimeOrder(s)
  }

  lemma BindingStays(s: System, e: Event)
    ensures Next(s, e).binding == s.binding
  {
  }

  lemma NextGood(s: System, e: Event)
    requires Good(s)
    ensures Good(Next(s, e))
  {
    BindingStays(s, e);
    NextOneInside(s, e);
    NextTimes(s, e);
    NextReturns(s, e);
    NextInTimeOrder(s, e);
  }

  lemma {:induction false} RunKeepsGood(s: System, events: seq<Event>)
    requires Good(s)
    ensures Good(Run(s, events)) && Run(s, events).binding == s.binding
    decreases |events|
  {
    if events != [] {
      RunKeepsGood(s, events[..|events| - 1]);
      var before := Run(s, events[..|events| - 1]);
      NextGood(before, events[|events| - 1]);
      BindingStays(before, events[|events| - 1]);
    }
  }

  lemma RunGood(binding: Binding, configured: bool, mono: real, events: seq<Event>)
    requires binding.Valid()
    ensures Good(Run(Start(binding, configured, mono), events)) && Run(Start(binding, configured, mono), events).binding == binding
  {
    RunKeepsGood(Start(binding, configured, mono), events);
  }

  lemma {:induction false} RunConcat(s: System, early: seq<Event>, late: seq<Event>)
    ensures Run(s, early + late) == Run(Run(s, early), late)
    decreases |late|
  {
    if late == [] {
      assert early + late == early;
    } else {
      RunConcat(s, early, late[..|late| - 1]);
      assert (early + late)[..|early + late| - 1] == early + late[..|late| - 1];
    }
  }

  /** In every run at most one caller is between the lock sections. */
  lemma OneCallerInside(binding: Binding, configured: bool, mono: real, events: seq<Event>, p: Pid, q: Pid)
    requires binding.Valid()
    requires Within(Run(Start(binding, configured, mono), events), p) && Within(Run(Start(binding, configured, mono), events), q)
    ensures p == q
  {
    RunGood(binding, configured, mono, events);
  }

  ghost predicate Ended(before: System, after: System) {
    && Terminal(after) && after.returned == before.returned
    && (before.status == Revoked ==> after.status == Revoked)
  }

  lemma {:induction false} TerminalStays(s: System, late: seq<Event>)
    requires Good(s) && Terminal(s)
    ensures Ended(s, Run(s, late))
    decreases |late|
  {
    if late != [] {
      TerminalStays(s, late[..|late| - 1]);
      RunKeepsGood(s, late[..|late| - 1]);
      NextTerminal(Run(s, late[..|late| - 1]), late[|late| - 1]);
    }
  }

  /** Once blocked or revoked, a provider stays so for the rest of any run and returns nothing more. */
  lemma TerminalIsFinal(binding: Binding, configured: bool, mono: real, early: seq<Event>, late: seq<Event>)
    requires binding.Valid() && Terminal(Run(Start(binding, configured, mono), early))
    ensures Ended(Run(Start(binding, configured, mono), early), Run(Start(binding, configured, mono), early + late))
  {
    RunGood(binding, configured, mono, early);
    TerminalStays(Run(Start(binding, configured, mono), early), late);
    RunConcat(Start(binding, configured, mono), early, late);
  }

  /** After a revoke nothing is ever returned again. */
  lemma RevokeIsFinal(binding: Binding, configured: bool, mono: real, early: seq<Event>, late: seq<Event>)
    requires binding.Valid()
    ensures var before := Run(Start(binding, configured, mono), early);
            var after := Run(Start(binding, configured, mono), early + [Revoke] + late);
            after.status == Revoked && after.returned == before.returned
  {
    assert (early + [Revoke])[..|early + [Revoke]| - 1] == early;
    assert Terminal(Run(Start(binding, configured, mono), early + [Revoke]));
    TerminalIsFinal(binding, configured, mono, early + [Revoke], late);
  }

  /**
   In every run: the generation is the number of refreshes that were returned; every time used
   for a lifetime check is at least the one before; every snapshot was usable when it was
   checked, in time order, and one that needed no refresh repeats the grant before it.
   */
  lemma SnapshotsAreSound(binding: Binding, configured: bool, mono: real, events: seq<Event>)
    requires binding.Valid()
    ensures var s := Run(Start(binding, configured, mono), events);
            && s.generation == Refreshes(s.returned) && NeverFalling(s.times)
            && (forall i :: 0 <= i < |s.returned| ==> IssuedOk(binding, s.returned, i))
            && (forall i, j :: 0 <= i < j < |s.returned| ==> s.returned[i].now <= s.returned[j].now)
  {
    RunGood(binding, configured, mono, events);
  }

  // ----- what the validation and the clock mean

  /** A grant is usable exactly if it is of what is bound, has been issued, and lasts long enough from now. */
  lemma UsableExactly(binding: Binding, g: Grant, now: nat, minimum: nat)
    requires binding.Valid()
    ensures Usable(binding, g, now, minimum) <==>
              RotationProtocol.Grants(binding, g) && g.issued <= now < g.expires && now + minimum <= g.expires
  {
    NonBlankExactly(g.token);
    ScopeExactly(g.capabilities, binding.capabilities);
  }

  /** `n` is what is left of `elapsed` in whole seconds, never below zero. */
  ghost predicate WholeSeconds(n: nat, elapsed: real) {
    if elapsed < 0.0 then n == 0 else n as real <= elapsed < n as real + 1.0
  }

  /** The time read is the later of the believed time carried forward and the wall clock, which a call given its epoch replaces. */
  lemma CurrentTimeExactly(c: Clock, mono: real, reading: Option<nat>, carried: nat, own: nat)
    requires WholeSeconds(carried, mono - c.anchor.mono) && WholeSeconds(own, mono - c.startMono)
    ensures CurrentTime(c, mono, reading).Some? <==> c.given || reading.Some?
    ensures CurrentTime(c, mono, reading).Some? ==>
              var wall := if c.given then c.startEpoch + own else reading.value;
              var floor := c.anchor.epoch + carried;
              CurrentTime(c, mono, reading).value ==
                (if wall > floor then (c.(anchor := Anchor(wall, mono)), wall) else (c, floor))
  {
    FloorOf(mono - c.anchor.mono, carried);
    FloorOf(mono - c.startMono, own);
  }

  lemma FloorOf(elapsed: real, n: nat)
    requires WholeSeconds(n, elapsed)
    ensures Max(0, elapsed.Floor) == n
  {
  }

  /** A call that has its time asks the source exactly if nothing is cached or it will not last, and else goes on with the cached grant. */
  lemma DecideAsksExactly(s: System, pid: Pid, l: Local)
    requires Working(s, pid, Deciding, l) && s.status != Revoked
    ensures var t := Next(s, Decide(pid));
            if l.cached.None? || l.cached.value.expires <= l.now || l.cached.value.expires < l.now + l.minimum
            then t.callers[pid] == Inside(Asking, l) && t.status == Refreshing && t.grant == None
            else t == s.(callers := s.callers[pid := Inside(LastCheck, l.(result := l.cached))])
  {
  }

  // ----- how calls end

  /** A call that failed leaves the provider blocked, or revoked, without a grant, and its time is not believed. */
  ghost predicate LeavesClosed(s: System, t: System, pid: Pid, phase: Phase)
    requires phase.Failing?
  {
    && pid in t.callers && t.grant == None && t.anchor == s.anchor && t.generation == s.generation && t.returned == s.returned
    && (if s.status == Revoked || phase.failure == SourceRevoked
        then t.status == Revoked && t.failure == Some(SourceRevoked) && t.callers[pid] == Out(RevokedRefused)
        else t.status == BlockedAuth && t.failure == Some(RefreshFailed)
             && t.callers[pid] == Out(if phase.interrupted then Interrupted else AuthRefused))
  }

  /** A call that succeeded leaves its grant for the next, counts the refresh, and believes its time. */
  ghost predicate LeavesOpen(s: System, t: System, pid: Pid, l: Local)
    requires l.result.Some? && l.clock.Some?
  {
    && pid in t.callers && t.grant == l.result && t.failure == None && t.anchor == Some(l.clock.value.anchor)
    && t.generation == (if l.refreshed then s.generation + 1 else s.generation)
    && t.status == (if t.generation >= 2 then ReadyRotated else Ready)
    && t.callers[pid] == Out(Snapshot(Issued(l.result.value, l.now, l.minimum, l.refreshed)))
    && t.returned == s.returned + [Issued(l.result.value, l.now, l.minimum, l.refreshed)]
  }

  /** The last lock section frees the provider and leaves it open exactly if the call succeeded and nobody revoked. */
  lemma FinishExactly(s: System, pid: Pid, phase: Phase, l: Local)
    requires Working(s, pid, phase, l)
    requires if phase.Failing? then phase.failure != RevokedHere else phase == Closing && l.result.Some? && l.clock.Some?
    ensures var t := Next(s, Finish(pid));
            && !t.busy && t.binding == s.binding && t.times == s.times && t.mono == s.mono
            && (if phase.Failing? then LeavesClosed(s, t, pid, phase)
                else if s.status == Revoked then LeavesClosed(s, t, pid, Failing(SourceRevoked, false))
                else LeavesOpen(s, t, pid, l))
  {
    FinishIsFinished(s, pid, phase, l);
  }

  /** One failed call ends issuance for good: whatever follows, nothing is returned again. */
  lemma FailedCallIsFinal(binding: Binding, configured: bool, mono: real, early: seq<Event>, late: seq<Event>, pid: Pid, l: Local, phase: Phase)
    requires binding.Valid() && Working(Run(Start(binding, configured, mono), early), pid, phase, l)
    requires phase.Failing? && phase.failure != RevokedHere
    ensures var before := Run(Start(binding, configured, mono), early);
            var after := Run(Start(binding, configured, mono), early + [Finish(pid)] + late);
            (after.status == BlockedAuth || after.status == Revoked) && after.returned == before.returned
  {
    var before := Run(Start(binding, configured, mono), early);
    assert (early + [Finish(pid)])[..|early + [Finish(pid)]| - 1] == early;
    FinishExactly(before, pid, phase, l);
    var ended := Run(Start(binding, configured, mono), early + [Finish(pid)]);
    assert ended == Next(before, Finish(pid)) && Terminal(ended);
    TerminalIsFinal(binding, configured, mono, early + [Finish(pid)], late);
  }

  // ----- what other callers can change

  /** While one caller is inside, the others change nothing shared unless they revoke. */
  lemma OthersOnlyRevoke(s: System, e: Event, pid: Pid)
    requires OneInside(s) && Within(s, pid) && !e.Revoke? && e.pid != pid
    ensures var t := Next(s, e);
            t.status == s.status && t.grant == s.grant && t.anchor == s.anchor && t.binding == s.binding && t.mono == s.mono
  {
    if e.pid in s.callers {
      assert !Within(s, e.pid);
    }
    assert s.busy;
  }
}
