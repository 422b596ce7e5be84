/**
 The access-only provider: callers pass through two lock sections with slow work between
 them, and a local revoke may fall anywhere. A run is any sequence of events of any number
 of callers; the monotonic clock never goes back, the wall clock may say anything.
 */
module IssuanceProtocol {
  import opened CredentialIdentity
  import RotationProtocol

  type Pid = nat
  type Grant = RotationProtocol.Grant

  datatype Status = Unconfigured | RefreshRequired | Refreshing | Ready | ReadyRotated | BlockedAuth | Revoked

  datatype Failure = RevokedHere | SourceRevoked | RefreshFailed

  /** A time believed at a reading of the monotonic clock. */
  datatype Anchor = Anchor(epoch: nat, mono: real)

  /** The clock of one call; a call given its own epoch ignores the wall clock. */
  datatype Clock = Clock(anchor: Anchor, startEpoch: nat, startMono: real, given: bool)

  datatype Phase =
    | Opening | FirstTime | FirstCheck | SecondTime | Deciding | Asking | LastCheck | LastTime | Closing
    | Failing(failure: Failure, interrupted: bool)

  /** What one call holds between the lock sections. */
  datatype Local = Local(minimum: nat, epoch: Option<nat>, cached: Option<Grant>, clock: Option<Clock>,
                         now: nat, result: Option<Grant>, refreshed: bool)

  datatype Answer =
    | Snapshot(issued: Issued)
    | ScopeRefused | RevokedRefused | AuthRefused | InProgressRefused | Interrupted

  datatype Pc = Inside(phase: Phase, local: Local) | Out(answer: Answer)

  /** One returned snapshot: the grant, the time it was checked at, the lifetime asked for. */
  datatype Issued = Issued(grant: Grant, now: nat, minimum: nat, refreshed: bool)

  datatype System = System(
    binding: Binding,
    status: Status,
    busy: bool,
    failure: Option<Failure>,
    grant: Option<Grant>,
    generation: nat,
    anchor: Option<Anchor>,
    callers: map<Pid, Pc>,
    mono: real,
    times: seq<nat>,
    returned: seq<Issued>)

  datatype Availability = Fine | Odd | SaysRevoked | Fails(interrupted: bool)

  datatype SourceReply = Grants(grant: Grant) | NoGrant | ReplyRevoked | ReplyFails(interrupted: bool)

  datatype Event =
    | Enter(pid: Pid, minimum: nat, epoch: Option<nat>, capable: bool)
    | Open(pid: Pid, mono: real, reading: Option<nat>)
    | Tick(pid: Pid, mono: real, reading: Option<nat>)
    | Check(pid: Pid, available: Availability)
    | Decide(pid: Pid)
    | Answered(pid: Pid, reply: SourceReply)
    | Finish(pid: Pid)
    | Revoke

  // ----- time

  function Max(a: int, b: int): int {
    if a < b then b else a
  }

  /** The anchored time carried forward by the monotonic clock, whole seconds, never back. */
  function Floor(a: Anchor, mono: real): nat {
    a.epoch + Max(0, (mono - a.mono).Floor)
  }

  /** `current_time`: the wall clock where it is ahead of the floor, and then it is the new anchor. */
  function CurrentTime(c: Clock, mono: real, reading: Option<nat>): Option<(Clock, nat)> {
    if !c.given && reading.None? then None
    else
      var floor := Floor(c.anchor, mono);
      var wall: nat := if c.given then c.startEpoch + Max(0, (mono - c.startMono).Floor) else reading.value;
      if wall > floor then Some((c.(anchor := Anchor(wall, mono)), wall)) else Some((c, floor))
  }

  /** Without an anchor of an earlier success, the call starts its own. */
  function Opened(l: Local, anchor: Option<Anchor>, mono: real, reading: Option<nat>): Pc {
    if l.epoch.None? && reading.None? then Inside(Failing(RefreshFailed, false), l)
    else
      var start := if l.epoch.Some? then l.epoch.value else reading.value;
      var from := if anchor.Some? then anchor.value else Anchor(start, mono);
      Inside(FirstTime, l.(clock := Some(Clock(from, start, mono, l.epoch.Some?))))
  }

  // ----- grants

  /** `_validate_grant` without its type checks. */
  predicate Usable(binding: Binding, g: Grant, now: nat, minimum: nat) {
    && g.provider == binding.provider && g.account == binding.account
    && Capabilities(g.capabilities) == Some(binding.capabilities) && NonBlank(g.token)
    && 0 <= g.issued < g.expires
    && g.issued <= now && g.expires > now && g.expires - now >= minimum
  }

  function Normalised(binding: Binding, g: Grant): Grant {
    g.(provider := binding.provider, account := binding.account, capabilities := binding.capabilities)
  }

  /** No cached grant, or one that will not last. */
  predicate RefreshNeeded(cached: Option<Grant>, now: nat, minimum: nat) {
    cached.None? || cached.value.expires <= now || cached.value.expires - now < minimum
  }

  // ----- steps

  /** `_assert_issuance_allowed`. */
  function Admission(s: System): Option<Answer> {
    if s.status == Revoked then Some(RevokedRefused)
    else if s.status == Unconfigured || s.status == BlockedAuth then Some(AuthRefused)
    else if s.busy then Some(InProgressRefused)
    else None
  }

  function Entered(s: System, pid: Pid, minimum: nat, epoch: Option<nat>, capable: bool): System {
    if !capable then s.(callers := s.callers[pid := Out(ScopeRefused)])
    else if Admission(s).Some? then s.(callers := s.callers[pid := Out(Admission(s).value)])
    else
      var local := Local(minimum, epoch, s.grant, None, 0, None, false);
      s.(busy := true, callers := s.callers[pid := Inside(Opening, local)])
  }

  function At(s: System, pid: Pid, phase: Phase, local: Local): System {
    s.(callers := s.callers[pid := Inside(phase, local)])
  }

  function AfterTick(binding: Binding, phase: Phase, l: Local): Pc {
    if phase == FirstTime then Inside(FirstCheck, l)
    else if phase == SecondTime then Inside(Deciding, l)
    else if l.result.Some? && Usable(binding, l.result.value, l.now, l.minimum) then
      Inside(Closing, l.(result := Some(Normalised(binding, l.result.value))))
    else Inside(Failing(RefreshFailed, false), l)
  }

  function Ticked(s: System, pid: Pid, phase: Phase, l: Local, mono: real, reading: Option<nat>): System
    requires l.clock.Some?
  {
    match CurrentTime(l.clock.value, mono, reading)
    case None => At(s, pid, Failing(RefreshFailed, false), l).(mono := mono)
    case Some((clock, time)) =>
      var after := l.(clock := Some(clock), now := Max(l.now, time));
      s.(mono := mono, times := s.times + [after.now],
         callers := s.callers[pid := AfterTick(s.binding, phase, after)])
  }

  function Checked(s: System, pid: Pid, phase: Phase, l: Local, available: Availability): System {
    match available
    case Fine => At(s, pid, if phase == FirstCheck then SecondTime else LastTime, l)
    case Odd => At(s, pid, Failing(RefreshFailed, false), l)
    case SaysRevoked => At(s, pid, Failing(SourceRevoked, false), l)
    case Fails(interrupted) => At(s, pid, Failing(RefreshFailed, interrupted), l)
  }

  /** The middle lock section, or the cached grant where it will last. */
  function Decided(s: System, pid: Pid, l: Local): System {
    if !RefreshNeeded(l.cached, l.now, l.minimum) then At(s, pid, LastCheck, l.(result := l.cached))
    else if s.status == Revoked then At(s, pid, Failing(SourceRevoked, false), l)
    else At(s, pid, Asking, l).(status := Refreshing, grant := None)
  }

  function Replied(s: System, pid: Pid, l: Local, reply: SourceReply): System {
    match reply
    case Grants(g) => At(s, pid, LastCheck, l.(result := Some(g), refreshed := true))
    case NoGrant => At(s, pid, LastCheck, l.(result := None, refreshed := true))
    case ReplyRevoked => At(s, pid, Failing(SourceRevoked, false), l)
    case ReplyFails(interrupted) => At(s, pid, Failing(RefreshFailed, interrupted), l)
  }

  /** The last lock section. */
  function Finished(s: System, pid: Pid, phase: Phase, l: Local): System {
    var free := s.(busy := false);
    if s.status == Revoked || (phase.Failing? && phase.failure == SourceRevoked) then
      free.(status := Revoked, failure := Some(SourceRevoked), grant := None,
            callers := s.callers[pid := Out(RevokedRefused)])
    else if phase.Failing? || l.result.None? || l.clock.None? then
      free.(status := BlockedAuth, failure := Some(RefreshFailed), grant := None,
            callers := s.callers[pid := Out(if phase.Failing? && phase.interrupted then Interrupted else AuthRefused)])
    else
      var generation := s.generation + (if l.refreshed then 1 else 0);
      var issued := Issued(l.result.value, l.now, l.minimum, l.refreshed);
      free.(status := if generation > 1 then ReadyRotated else Ready, failure := None, grant := l.result,
            anchor := Some(l.clock.value.anchor), generation := generation,
            returned := s.returned + [issued], callers := s.callers[pid := Out(Snapshot(issued))])
  }

  function Next(s: System, e: Event): System {
    if e.Revoke? then s.(status := Revoked, failure := Some(RevokedHere), grant := None)
    else if e.Enter? then (if e.pid in s.callers then s else Entered(s, e.pid, e.minimum, e.epoch, e.capable))
    else if e.pid !in s.callers || s.callers[e.pid].Out? then s
    else
      var Inside(phase, l) := s.callers[e.pid];
      match e
      case Open(pid, mono, reading) =>
        if phase != Opening || mono < s.mono then s
        else s.(mono := mono, callers := s.callers[pid := Opened(l, s.anchor, mono, reading)])
      case Tick(pid, mono, reading) =>
        if !(phase == FirstTime || phase == SecondTime || phase == LastTime) || l.clock.None? || mono < s.mono then s
        else Ticked(s, pid, phase, l, mono, reading)
      case Check(pid, available) =>
        if phase == FirstCheck || phase == LastCheck then Checked(s, pid, phase, l, available) else s
      case Decide(pid) => if phase == Deciding then Decided(s, pid, l) else s
      case Answered(pid, reply) => if phase == Asking then Replied(s, pid, l, reply) else s
      case Finish(pid) => if phase == Closing || phase.Failing? then Finished(s, pid, phase, l) else s
  }

  // ----- what each event does where it can happen

  predicate Working(s: System, pid: Pid, phase: Phase, l: Local) {
    pid in s.callers && s.callers[pid] == Inside(phase, l)
  }

  predicate Timed(phase: Phase) {
    phase == FirstTime || phase == SecondTime || phase == LastTime
  }

  lemma OpenIsOpened(s: System, pid: Pid, l: Local, mono: real, reading: Option<nat>)
    requires Working(s, pid, Opening, l) && mono >= s.mono
    ensures Next(s, Open(pid, mono, reading))
         == s.(mono := mono, callers := s.callers[pid := Opened(l, s.anchor, mono, reading)])
  {
  }

  lemma TickIsTicked(s: System, pid: Pid, phase: Phase, l: Local, mono: real, reading: Option<nat>)
    requires Working(s, pid, phase, l) && Timed(phase) && l.clock.Some? && mono >= s.mono
    ensures Next(s, Tick(pid, mono, reading)) == Ticked(s, pid, phase, l, mono, reading)
  {
  }

  lemma CheckIsChecked(s: System, pid: Pid, phase: Phase, l: Local, available: Availability)
    requires Working(s, pid, phase, l) && (phase == FirstCheck || phase == LastCheck)
    ensures Next(s, Check(pid, available)) == Checked(s, pid, phase, l, available)
  {
  }

  lemma DecideIsDecided(s: System, pid: Pid, l: Local)
    requires Working(s, pid, Deciding, l)
    ensures Next(s, Decide(pid)) == Decided(s, pid, l)
  {
  }

  lemma AnswerIsReplied(s: System, pid: Pid, l: Local, reply: SourceReply)
    requires Working(s, pid, Asking, l)
    ensures Next(s, Answered(pid, reply)) == Replied(s, pid, l, reply)
  {
  }

  lemma FinishIsFinished(s: System, pid: Pid, phase: Phase, l: Local)
    requires Working(s, pid, phase, l) && (phase == Closing || phase.Failing?)
    ensures Next(s, Finish(pid)) == Finished(s, pid, phase, l)
  {
  }

  /** An event that changes anything is a revocation, an entry, or a step of a caller in the right phase. */
  lemma ChangeMeansWorking(s: System, e: Event)
    requires Next(s, e) != s && !e.Revoke?
    ensures if e.Enter? then e.pid !in s.callers
            else
              && e.pid in s.callers && s.callers[e.pid].Inside?
              && var Inside(phase, l) := s.callers[e.pid];
                 && (e.Open? ==> phase == Opening && e.mono >= s.mono)
                 && (e.Tick? ==> Timed(phase) && l.clock.Some? && e.mono >= s.mono)
                 && (e.Check? ==> phase == FirstCheck || phase == LastCheck)
                 && (e.Decide? ==> phase == Deciding) && (e.Answered? ==> phase == Asking)
                 && (e.Finish? ==> phase == Closing || phase.Failing?)
  {
  }

  /** Only a reading of time uses a time, and only the last lock section returns anything. */
  lemma OnlyTickAndFinish(s: System, e: Event)
    ensures !e.Tick? ==> Next(s, e).times == s.times
    ensures !e.Finish? ==> Next(s, e).returned == s.returned
  {
  }

  function Start(binding: Binding, configured: bool, mono: real): System {
    System(binding, if configured then RefreshRequired else Unconfigured, false, None, None, 0, None, map[], mono, [], [])
  }

  function Run(s: System, events: seq<Event>): System
    decreases |events|
  {
    if events == [] then s else Next(Run(s, events[..|events| - 1]), events[|events| - 1])
  }
}
