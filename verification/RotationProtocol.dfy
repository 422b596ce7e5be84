/**
 Any number of hosts and operators share one versioned record through compare-and-swap.
 A run is any sequence of events: each event is one effect of one process (a read, a
 swap with the outcome the caller sees, one exchange with the provider), the landing of
 a write whose caller was left in doubt, or the death of a process. `Next` is total, so
 a run is nothing but a list of events; an event that cannot happen leaves the system as
 it was. All results are for every run.
 */
module RotationProtocol {
  import opened CredentialIdentity
  import opened SecretRecords

  type Pid = nat

  /** An access grant as the provider returns it, not yet trusted. */
  datatype Grant = Grant(provider: string, account: string, capabilities: seq<string>,
                         token: string, issued: int, expires: int)

  datatype Reply =
    | Rejected
    | Raised(interrupt: Option<Interrupt>)
    | Malformed
    | Answered(grant: Grant, rotated: string)

  /** A grant of exactly what is bound: its identity, the same capabilities by name, a token with ink in it, a lifetime. */
  ghost predicate Grants(binding: Binding, grant: Grant) {
    && grant.provider == binding.provider && grant.account == binding.account
    && SameNames(grant.capabilities, binding.capabilities) && HasInk(grant.token)
    && grant.issued >= 0 && grant.expires > grant.issued
  }

  /** `_validate_exchange_result`: exact identity and scope, usable lifetime, a rotated secret. */
  predicate AcceptableReply(binding: Binding, minimumTtl: nat, reply: Reply) {
    && reply.Answered?
    && reply.grant.provider == binding.provider && reply.grant.account == binding.account
    && Capabilities(reply.grant.capabilities) == Some(binding.capabilities)
    && NonBlank(reply.grant.token)
    && 0 <= reply.grant.issued < reply.grant.expires
    && reply.grant.expires - reply.grant.issued >= minimumTtl
    && NonBlank(reply.rotated)
  }

  /** A submitted swap: it takes effect only if the record is at `expected` when it lands. */
  datatype Write = Write(expected: nat, replacement: Record)

  /** One request to the provider, with the record and the lifetime it was made for, and the reply. */
  datatype Call = Call(attempt: string, version: nat, generation: nat, secret: Option<string>, ttl: nat, reply: Reply)

  datatype Outcome =
    | Granted(grant: Grant, rotated: string, claimed: Record, attempt: string, ttl: nat)
    | Saved(record: Record)
    | Failed(error: Error)
    | Dead

  /** Where a process stands between two effects. */
  datatype Pc =
    | Claiming(current: Record, attempt: string, ttl: nat)
    | ClaimUnsure(current: Record, attempt: string, ttl: nat)
    | Exchanging(claimed: Record, attempt: string, ttl: nat)
    | Blocking(current: Record, attempt: string, to: RecordState, why: FailureCode, error: Error)
    | BlockUnsure(current: Record, attempt: string, to: RecordState, why: FailureCode, error: Error)
    | Committing(claimed: Record, attempt: string, ttl: nat, grant: Grant, rotated: string)
    | CommitUnsure(claimed: Record, attempt: string, ttl: nat, grant: Grant, rotated: string)
    | CommitLost(claimed: Record, attempt: string)
    | Recovering(current: Record, replacement: Record)
    | Revoking(current: Record)
    | RevokeUnsure(conflict: bool)
    | Done(outcome: Outcome)

  datatype System = System(
    history: seq<Record>,
    flight: set<Write>,
    procs: map<Pid, Pc>,
    calls: seq<Call>)
  {
    function Current(): Record
      requires history != []
    {
      history[|history| - 1]
    }
  }

  /**
   What the caller of a swap sees. `Acknowledged` and `Refused` are the store's verdicts;
   after `InDoubt` and `Broken` (any other error) the write may land at any later time or
   never.
   */
  datatype CasOutcome = Acknowledged | Refused | InDoubt | Broken

  datatype Event =
    | BeginRefresh(pid: Pid, attempt: string, ttl: nat, readable: bool)
    | BeginRecovery(pid: Pid, expected: nat, attempt: string, rotated: Option<string>, readable: bool)
    | BeginRevoke(pid: Pid, readable: bool)
    | Swap(pid: Pid, outcome: CasOutcome)
    | Read(pid: Pid, readable: bool)
    | Exchange(pid: Pid, reply: Reply)
    | Die(pid: Pid)
    | Land(write: Write)

  // ----- effects on the store

  /** A swap reaches the store: it replaces the record only at the version it expects. */
  function Apply(s: System, w: Write): System
    requires s.history != []
  {
    if s.Current().version == w.expected then s.(history := s.history + [w.replacement]) else s
  }

  /** The store's part of a swap whose caller sees `outcome`; None where that cannot happen. */
  function Submit(s: System, w: Write, outcome: CasOutcome): Option<System>
    requires s.history != []
  {
    match outcome
    case Acknowledged => if s.Current().version == w.expected then Some(Apply(s, w)) else None
    case Refused => if s.Current().version != w.expected then Some(s) else None
    case InDoubt => Some(s.(flight := s.flight + {w}))
    case Broken => Some(s.(flight := s.flight + {w}))
  }

  // ----- what each process does next

  const UNREADABLE: Pc := Done(Failed(AuthBlocked(SecretStoreUnavailable)))

  /** `refresh_access` up to its claim. */
  function OpenRefresh(current: Record, attempt: string, ttl: nat): Pc {
    match current.state
    case Revoked => Done(Failed(CredentialRevoked))
    case Refreshing => Done(Failed(InProgress))
    case BlockedAmbiguous => Done(Failed(AuthBlocked(OutcomeAmbiguous)))
    case BlockedAuth => Done(Failed(AuthBlocked(AuthUnavailable)))
    case Ready =>
      if SafeAttemptId(attempt) then Claiming(current, attempt, ttl)
      else Done(Failed(AuthBlocked(RefreshAttemptInvalid)))
  }

  /** Both recoveries up to their swap; `rotated` tells them apart. */
  function OpenRecovery(current: Record, expected: nat, attempt: string, rotated: Option<string>): Pc {
    if current.version != expected then Done(Failed(VersionConflict))
    else if current.state != BlockedAmbiguous || current.last != Some(attempt) then
      Done(Failed(AuthBlocked(AmbiguousRecoveryPreconditionFailed)))
    else if rotated.Some? then Recovering(current, current.RecoveredRotated(rotated.value))
    else Recovering(current, current.RecoveredNotApplied())
  }

  function OpenRevoke(current: Record): Pc {
    if current.state == Revoked then Done(Saved(current)) else Revoking(current)
  }

  /** The swap a process at `pc` is about to submit. */
  function PendingWrite(pc: Pc): Option<Write> {
    match pc
    case Claiming(cur, a, _) => Some(Write(cur.version, cur.Claimed(a)))
    case Blocking(cur, a, to, why, _) => Some(Write(cur.version, cur.Blocked(a, to, why)))
    case Committing(cur, a, _, _, rotated) => Some(Write(cur.version, cur.Committed(a, rotated)))
    case Recovering(cur, replacement) => Some(Write(cur.version, replacement))
    case Revoking(cur) => Some(Write(cur.version, cur.RevokedNow()))
    case _ => None
  }

  function AfterSwap(pc: Pc, outcome: CasOutcome): Pc
    requires PendingWrite(pc).Some?
  {
    if outcome == Broken then Done(Failed(StoreFailure))
    else match pc
      case Claiming(cur, a, ttl) =>
        (match outcome
         case Acknowledged => Exchanging(cur.Claimed(a), a, ttl)
         case Refused => Done(Failed(InProgress))
         case _ => ClaimUnsure(cur, a, ttl))
      case Blocking(cur, a, to, why, error) =>
        if outcome == Acknowledged then Done(Failed(error)) else BlockUnsure(cur, a, to, why, error)
      case Committing(cur, a, ttl, grant, rotated) =>
        (match outcome
         case Acknowledged => Done(Granted(grant, rotated, cur, a, ttl))
         case Refused => CommitLost(cur, a)
         case _ => CommitUnsure(cur, a, ttl, grant, rotated))
      case Recovering(cur, replacement) =>
        (match outcome
         case Acknowledged => Done(Saved(replacement))
         case Refused => Done(Failed(VersionConflict))
         case _ => Done(Failed(AuthBlocked(RecoveryPersistenceAmbiguous))))
      case Revoking(cur) =>
        if outcome == Acknowledged then Done(Saved(cur.RevokedNow())) else RevokeUnsure(outcome == Refused)
  }

  /** The process is about to read back a swap that was not acknowledged. */
  predicate Unsure(pc: Pc) {
    pc.ClaimUnsure? || pc.BlockUnsure? || pc.CommitUnsure? || pc.CommitLost? || pc.RevokeUnsure?
  }

  /** The read that follows a swap whose outcome was not an acknowledgement. */
  function AfterRead(pc: Pc, observed: Record): Pc
    requires Unsure(pc)
  {
    match pc
    case ClaimUnsure(cur, a, ttl) =>
      if observed.state == Refreshing && observed.active == Some(a) && observed.version == cur.version + 1
      then Exchanging(observed, a, ttl)
      else Done(Failed(AuthBlocked(RefreshClaimAmbiguous)))
    case BlockUnsure(_, a, to, why, error) =>
      if observed.state == to && observed.last == Some(a) && observed.failure == Some(why)
      then Done(Failed(error))
      else Done(Failed(AuthBlocked(RefreshRecoveryStateUncertain)))
    case CommitUnsure(cur, a, ttl, grant, rotated) =>
      if && observed.state == Ready && observed.version == cur.version + 1
         && observed.generation == cur.generation + 1
         && observed.last == Some(a) && observed.secret == Some(rotated)
      then Done(Granted(grant, rotated, cur, a, ttl))
      else if observed.state == Refreshing && observed.active == Some(a)
      then Blocking(observed, a, BlockedAmbiguous, StoreCommitAmbiguous,
                    AuthBlocked(RefreshPersistenceAmbiguous))
      else Done(Failed(AuthBlocked(RefreshPersistenceAmbiguous)))
    case CommitLost(_, _) =>
      if observed.state == Revoked then Done(Failed(CredentialRevoked))
      else Done(Failed(AuthBlocked(RefreshPersistenceConflict)))
    case RevokeUnsure(conflict) =>
      if observed.state == Revoked && observed.secret == None then Done(Saved(observed))
      else if conflict then Done(Failed(AuthBlocked(RevokePersistenceConflict)))
      else Done(Failed(AuthBlocked(RevokePersistenceAmbiguous)))
  }

  function AfterExchange(binding: Binding, claimed: Record, attempt: string, ttl: nat, reply: Reply): Pc {
    match reply
    case Rejected =>
      Blocking(claimed, attempt, BlockedAuth, RefreshRejected, AuthBlocked(RejectedByProvider))
    case Raised(interrupt) =>
      Blocking(claimed, attempt, BlockedAmbiguous, RefreshOutcomeAmbiguous,
               if interrupt.Some? then Interrupted(interrupt.value)
               else AuthBlocked(OutcomeAmbiguous))
    case _ =>
      if AcceptableReply(binding, ttl, reply) then Committing(claimed, attempt, ttl, reply.grant, reply.rotated)
      else Blocking(claimed, attempt, BlockedAmbiguous, RefreshResponseInvalid,
                    AuthBlocked(OutcomeAmbiguous))
  }

  // ----- runs

  /** A process takes its first step under a number no process has used. */
  function Enter(s: System, pid: Pid, readable: bool, first: Pc): System {
    if pid in s.procs then s
    else s.(procs := s.procs[pid := if readable then first else UNREADABLE])
  }

  function Next(s: System, e: Event): System
    requires s.history != []
  {
    match e
    case BeginRefresh(pid, a, ttl, readable) => Enter(s, pid, readable, OpenRefresh(s.Current(), a, ttl))
    case BeginRecovery(pid, expected, a, rotated, readable) =>
      if !SafeAttemptId(a) || (rotated.Some? && !NonBlank(rotated.value)) then s
      else Enter(s, pid, readable, OpenRecovery(s.Current(), expected, a, rotated))
    case BeginRevoke(pid, readable) => Enter(s, pid, readable, OpenRevoke(s.Current()))
    case Swap(pid, outcome) =>
      if pid !in s.procs || PendingWrite(s.procs[pid]).None? then s
      else (match Submit(s, PendingWrite(s.procs[pid]).value, outcome)
            case None => s
            case Some(t) => t.(procs := s.procs[pid := AfterSwap(s.procs[pid], outcome)]))
    case Read(pid, readable) =>
      if pid !in s.procs || !Unsure(s.procs[pid]) then s
      else s.(procs := s.procs[pid := if readable then AfterRead(s.procs[pid], s.Current()) else UNREADABLE])
    case Exchange(pid, reply) =>
      if pid !in s.procs || !s.procs[pid].Exchanging? then s
      else
        var Exchanging(claimed, a, ttl) := s.procs[pid];
        s.(procs := s.procs[pid := AfterExchange(claimed.binding, claimed, a, ttl, reply)],
           calls := s.calls + [Call(a, claimed.version, claimed.generation, claimed.secret, ttl, reply)])
    case Die(pid) =>
      if pid !in s.procs || s.procs[pid].Done? then s else s.(procs := s.procs[pid := Done(Dead)])
    case Land(w) =>
      if w in s.flight then Apply(s, w).(flight := s.flight - {w}) else s
  }

  /** A freshly seeded record, no process, nothing in flight. */
  function Start(binding: Binding, secret: string): System {
    System([Record(binding, 0, Ready, Some(secret), 0, None, None, None)], {}, map[], [])
  }

  function Run(s: System, events: seq<Event>): (t: System)
    requires s.history != []
    ensures t.history != []
    decreases |events|
  {
    if events == [] then s
    else
      var before := Run(s, events[..|events| - 1]);
      Next(before, events[|events| - 1])
  }
}
