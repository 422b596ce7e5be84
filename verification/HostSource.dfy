/**
 The program each host and operator runs, and the reference store. Between any two of its
 effects every other process may take any number of steps. Each method is proved to walk
 exactly along the events of the protocol, so everything proved of all runs holds of it.
 */
module HostSource {
  import opened CredentialIdentity
  import opened SecretRecords
  import opened RotationProtocol
  import opened RotationSafety

  predicate Concerns(e: Event, pid: Pid) {
    !e.Land? && e.pid == pid
  }

  /** Other processes never move this one. */
  lemma OthersLeaveAlone(s: System, e: Event, pid: Pid)
    requires s.history != [] && !Concerns(e, pid)
    ensures pid in Next(s, e).procs <==> pid in s.procs
    ensures pid in s.procs ==> Next(s, e).procs[pid] == s.procs[pid]
  {
  }

  /** Wherever a run has taken a process, what it relies on holds. */
  lemma PcHolds(binding: Binding, secret: string, trace: seq<Event>, pid: Pid)
    requires NonBlank(secret) && pid in Run(Start(binding, secret), trace).procs
    ensures var s := Run(Start(binding, secret), trace);
            PcOk(s.history, s.procs[pid]) && HistoryOk(s.history)
  {
    StartSafe(binding, secret);
    RunSafe(Start(binding, secret), trace);
  }

  lemma SwapPutsReplacement(s: System, pid: Pid, outcome: CasOutcome)
    requires s.history != [] && pid in s.procs && PendingWrite(s.procs[pid]).Some?
    requires Submit(s, PendingWrite(s.procs[pid]).value, outcome).Some?
    requires PcOk(s.history, s.procs[pid]) && HistoryOk(s.history)
    ensures Next(s, Swap(pid, outcome)).procs[pid] == AfterSwap(s.procs[pid], outcome)
    ensures outcome == Acknowledged ==>
              Held(Next(s, Swap(pid, outcome)).history, PendingWrite(s.procs[pid]).value.replacement)
  {
    PendingWriteOk(s.history, s.procs[pid]);
  }

  lemma RecordHolds(binding: Binding, secret: string, trace: seq<Event>, r: Record)
    requires NonBlank(secret) && Held(Run(Start(binding, secret), trace).history, r)
    ensures r.binding == binding && r.WellFormed()
    ensures r.state == Revoked ==> r == Run(Start(binding, secret), trace).Current()
  {
    StartSafe(binding, secret);
    RunSafe(Start(binding, secret), trace);
    var h := Run(Start(binding, secret), trace).history;
    HeldIsWellFormed(h, r);
    RevokedIsLast(h);
  }

  lemma CurrentIsHeld(binding: Binding, secret: string, trace: seq<Event>)
    requires NonBlank(secret)
    ensures var s := Run(Start(binding, secret), trace);
            Held(s.history, s.Current())
  {
    StartSafe(binding, secret);
    RunSafe(Start(binding, secret), trace);
  }

  lemma HistoryOnlyGrows(binding: Binding, secret: string, early: seq<Event>, late: seq<Event>)
    requires NonBlank(secret) && early <= late
    ensures Run(Start(binding, secret), early).history <= Run(Start(binding, secret), late).history
  {
    VersionsNeverChange(binding, secret, early, late[|early|..]);
    assert early + late[|early|..] == late;
  }

  /** The shared system as one process meets it; `trace` is everything that has happened. */
  class Shared {
    const binding: Binding
    ghost const secret: string
    ghost var trace: seq<Event>
    var system: System

    ghost predicate Valid()
      reads this
    {
      NonBlank(secret) && system == Run(Start(binding, secret), trace)
    }

    constructor (binding: Binding, secret: string)
      requires NonBlank(secret)
      ensures Valid() && this.binding == binding && this.secret == secret && trace == []
    {
      this.binding, this.secret := binding, secret;
      system, trace := Start(binding, secret), [];
    }

    /** One event happens. */
    method Happen(e: Event)
      requires Valid()
      modifies this
      ensures Valid() && trace == old(trace) + [e] && system == Next(old(system), e)
    {
      assert (trace + [e])[..|trace + [e]| - 1] == trace;
      system := Next(system, e);
      trace := trace + [e];
    }

    /** Any number of steps of the others. */
    method Interference(pid: Pid)
      requires Valid()
      modifies this
      ensures Valid() && old(trace) <= trace
      ensures pid in system.procs <==> pid in old(system).procs
      ensures pid in system.procs ==> system.procs[pid] == old(system).procs[pid]
    {
      var steps: seq<Event> := *;
      for i := 0 to |steps|
        invariant Valid() && old(trace) <= trace
        invariant pid in system.procs <==> pid in old(system).procs
        invariant pid in system.procs ==> system.procs[pid] == old(system).procs[pid]
      {
        if !Concerns(steps[i], pid) {
          OthersLeaveAlone(system, steps[i], pid);
          Happen(steps[i]);
        }
      }
    }

    /** `_read` as the first effect of an operation; `entry` says which operation begins. */
    method ReadFirst(entry: Event) returns (r: Result<Record>)
      requires Valid()
      requires match entry
               case BeginRefresh(pid, _, _, readable) => readable && pid !in system.procs
               case BeginRecovery(pid, _, a, rotated, readable) =>
                 readable && pid !in system.procs && SafeAttemptId(a) && (rotated.Some? ==> NonBlank(rotated.value))
               case BeginRevoke(pid, readable) => readable && pid !in system.procs
               case _ => false
      modifies this
      ensures Valid() && old(trace) <= trace && entry.pid in system.procs
      ensures match r
              case Err(e) => Done(Failed(e)) == UNREADABLE == system.procs[entry.pid]
              case Ok(record) =>
                Held(system.history, record) && record == system.Current()
                && system.procs[entry.pid] == match entry
                   case BeginRefresh(_, a, ttl, _) => OpenRefresh(record, a, ttl)
                   case BeginRecovery(_, expected, a, rotated, _) => OpenRecovery(record, expected, a, rotated)
                   case _ => OpenRevoke(record)
    {
      Interference(entry.pid);
      var reachable: bool := *;
      CurrentIsHeld(binding, secret, trace);
      r := if reachable then Ok(system.Current()) else Err(AuthBlocked(SecretStoreUnavailable));
      match entry {
        case BeginRefresh(pid, a, ttl, _) => Happen(BeginRefresh(pid, a, ttl, reachable));
        case BeginRecovery(pid, expected, a, rotated, _) => Happen(BeginRecovery(pid, expected, a, rotated, reachable));
        case BeginRevoke(pid, _) => Happen(BeginRevoke(pid, reachable));
      }
    }

    /** `_read` after a swap that was not acknowledged. */
    method ReadBack(pid: Pid) returns (r: Result<Record>)
      requires Valid() && pid in system.procs && Unsure(system.procs[pid])
      modifies this
      ensures Valid() && old(trace) <= trace && pid in system.procs
      ensures match r
              case Err(e) => Done(Failed(e)) == UNREADABLE == system.procs[pid]
              case Ok(record) => Held(system.history, record)
                                 && system.procs[pid] == AfterRead(old(system).procs[pid], record)
    {
      Interference(pid);
      var reachable: bool := *;
      CurrentIsHeld(binding, secret, trace);
      r := if reachable then Ok(system.Current()) else Err(AuthBlocked(SecretStoreUnavailable));
      Happen(Read(pid, reachable));
    }

    /** `compare_and_swap` over a store that may leave its caller in doubt. */
    method CompareAndSwap(pid: Pid, expected: nat, replacement: Record) returns (outcome: CasOutcome)
      requires Valid() && pid in system.procs
      requires PendingWrite(system.procs[pid]) == Some(Write(expected, replacement))
      modifies this
      ensures Valid() && old(trace) <= trace && pid in system.procs
      ensures system.procs[pid] == AfterSwap(old(system).procs[pid], outcome)
      ensures Swap(pid, outcome) in trace && (outcome == Acknowledged ==> Held(system.history, replacement))
    {
      Interference(pid);
      var w := Write(expected, replacement);
      assert Submit(system, w, InDoubt).Some?;
      outcome :| Submit(system, w, outcome).Some?;
      PcHolds(binding, secret, trace, pid);
      SwapPutsReplacement(system, pid, outcome);
      Happen(Swap(pid, outcome));
    }

    /** The one request to the provider. */
    method AskProvider(pid: Pid) returns (reply: Reply)
      requires Valid() && pid in system.procs && system.procs[pid].Exchanging?
      modifies this
      ensures Valid() && old(trace) <= trace && pid in system.procs
      ensures var Exchanging(claimed, a, ttl) := old(system).procs[pid];
              && system.procs[pid] == AfterExchange(claimed.binding, claimed, a, ttl, reply)
              && Exchange(pid, reply) in trace
              && Call(a, claimed.version, claimed.generation, claimed.secret, ttl, reply) in system.calls
    {
      Interference(pid);
      reply := *;
      Happen(Exchange(pid, reply));
    }
  }

  /** The process has been granted access, and the history holds its claim and its commit. */
  ghost predicate GrantedTo(s: System, pid: Pid, grant: Grant, attempt: string, ttl: nat) {
    && pid in s.procs && s.procs[pid].Done? && s.procs[pid].outcome.Granted?
    && var Granted(g, rotated, claimed, a, t) := s.procs[pid].outcome;
       && g == grant && a == attempt && t == ttl
       && Owned(s.history, claimed, attempt) && Held(s.history, claimed.Committed(attempt, rotated))
  }

  // ----- what the answers of the store and the provider must lead to

  /** The record read back is this process's own claim. */
  predicate ShowsClaim(observed: Record, current: Record, attempt: string) {
    observed.version == current.version + 1 && observed.state == Refreshing && observed.active == Some(attempt)
  }

  predicate ShowsBlock(observed: Record, attempt: string, to: RecordState, why: FailureCode) {
    observed.state == to && observed.last == Some(attempt) && observed.failure == Some(why)
  }

  predicate ShowsCommit(observed: Record, current: Record, attempt: string, rotated: string) {
    && observed.version == current.version + 1 && observed.generation == current.generation + 1
    && observed.state == Ready && observed.secret == Some(rotated) && observed.last == Some(attempt)
  }

  /** A swap took effect: acknowledged, or shown by reading back after it was not. */
  ghost predicate Settled(outcome: CasOutcome, observed: Option<Record>, shown: Record -> bool) {
    outcome == Acknowledged || (outcome != Broken && observed.Some? && shown(observed.value))
  }

  /** The block a failed request is recorded as, and the error raised once it is. */
  datatype Verdict = Verdict(to: RecordState, why: FailureCode, error: Error)

  /** What a reply that cannot be used must be recorded and reported as. */
  ghost predicate Deserves(reply: Reply, v: Verdict) {
    && (reply.Rejected? ==> v == Verdict(BlockedAuth, RefreshRejected, AuthBlocked(RejectedByProvider)))
    && (reply.Raised? ==>
          && v.to == BlockedAmbiguous && v.why == RefreshOutcomeAmbiguous
          && v.error == (if reply.interrupt.Some? then Interrupted(reply.interrupt.value) else AuthBlocked(OutcomeAmbiguous)))
    && (reply.Malformed? || reply.Answered? ==>
          v == Verdict(BlockedAmbiguous, RefreshResponseInvalid, AuthBlocked(OutcomeAmbiguous)))
  }

  /**
   How a refresh ends once its claim is owned, by the provider's reply, the outcome of the swap
   that followed it and the record read back where it was not acknowledged.
   */
  ghost predicate Concludes(r: Result<Grant>, claimed: Record, attempt: string, usable: bool, reply: Reply,
                            outcome: CasOutcome, observed: Option<Record>)
    requires usable ==> reply.Answered?
  {
    && (r.Ok? ==> usable && r.value == reply.grant)
    && (outcome == Broken ==> r == Err(StoreFailure))
    && (outcome != Broken && outcome != Acknowledged && observed.None? ==> r == Err(AuthBlocked(SecretStoreUnavailable)))
    && (if usable then ConcludesUsable(r, claimed, attempt, reply, outcome, observed)
        else forall v :: Deserves(reply, v) ==> ConcludesFailed(r, attempt, v, outcome, observed))
  }

  /** A commit in doubt that was not shown: its own error, unless the record still held could not be blocked. */
  predicate InDoubtError(observed: Record, attempt: string, error: Error) {
    || error == AuthBlocked(RefreshPersistenceAmbiguous)
    || (observed.state == Refreshing && observed.active == Some(attempt)
        && error in {StoreFailure, AuthBlocked(SecretStoreUnavailable), AuthBlocked(RefreshRecoveryStateUncertain)})
  }

  ghost predicate ConcludesUsable(r: Result<Grant>, claimed: Record, attempt: string, reply: Reply, outcome: CasOutcome,
                                  observed: Option<Record>)
    requires reply.Answered?
  {
    && (outcome == Acknowledged ==> r == Ok(reply.grant))
    && (outcome == InDoubt && observed.Some? ==>
          if ShowsCommit(observed.value, claimed, attempt, reply.rotated) then r == Ok(reply.grant)
          else r.Err? && InDoubtError(observed.value, attempt, r.error))
    && (outcome == Refused && observed.Some? ==>
          r == Err(if observed.value.state == Revoked then CredentialRevoked else AuthBlocked(RefreshPersistenceConflict)))
  }

  ghost predicate ConcludesFailed(r: Result<Grant>, attempt: string, v: Verdict, outcome: CasOutcome, observed: Option<Record>) {
    && (outcome == Acknowledged ==> r == Err(v.error))
    && (outcome != Broken && outcome != Acknowledged && observed.Some? ==>
          r == Err(if ShowsBlock(observed.value, attempt, v.to, v.why) then v.error
                   else AuthBlocked(RefreshRecoveryStateUncertain)))
  }

  /** What a refresh was answered: the record first read, the claim's swap, the reply, the swap after it. */
  datatype Heard = Heard(first: Option<Record>, claim: Option<CasOutcome>, reply: Option<Reply>, last: Option<CasOutcome>)

  /** The error a refresh of a record in this state ends with, before anything is claimed. */
  predicate StateForbids(state: RecordState, error: Error) {
    || (state == Revoked && error == CredentialRevoked)
    || (state == Refreshing && error == InProgress)
    || (state == BlockedAmbiguous && error == AuthBlocked(OutcomeAmbiguous))
    || (state == BlockedAuth && error == AuthBlocked(AuthUnavailable))
  }

  /** How a refresh ends by what it was answered. */
  ghost predicate Refreshes(r: Result<Grant>, binding: Binding, ttl: nat, attempt: string, heard: Heard) {
    && (heard.first.None? ==> r == Err(AuthBlocked(SecretStoreUnavailable)))
    && (heard.first.Some? && heard.first.value.state != Ready ==> r.Err? && StateForbids(heard.first.value.state, r.error))
    && (heard.first.Some? && heard.first.value.state == Ready ==>
          if SafeAttemptId(attempt) then heard.claim.Some? else r == Err(AuthBlocked(RefreshAttemptInvalid)))
    && (heard.claim == Some(Refused) ==> r == Err(InProgress))
    && (heard.claim == Some(Broken) ==> r == Err(StoreFailure))
    && (heard.claim == Some(Acknowledged) ==> heard.reply.Some?)
    && (heard.reply.None? ==> r.Err? && r != Err(AuthBlocked(RejectedByProvider)))
    && (heard.reply.Some? ==> heard.last.Some? && EndsBy(r, AcceptableReply(binding, ttl, heard.reply.value), heard.reply.value, heard.last.value))
  }

  /** How a refresh ends by the reply and the swap after it. */
  ghost predicate EndsBy(r: Result<Grant>, usable: bool, reply: Reply, last: CasOutcome)
    requires usable ==> reply.Answered?
  {
    && (r.Ok? ==> usable && r.value == reply.grant)
    && (usable && last == Acknowledged ==> r == Ok(reply.grant))
    && (!usable && last == Acknowledged ==> forall v :: Deserves(reply, v) ==> r == Err(v.error))
    && (r == Err(AuthBlocked(RejectedByProvider)) ==> reply.Rejected?)
  }

  lemma EndsByConcludes(r: Result<Grant>, claimed: Record, attempt: string, usable: bool, reply: Reply,
                        outcome: CasOutcome, observed: Option<Record>)
    requires usable ==> reply.Answered?
    requires Concludes(r, claimed, attempt, usable, reply, outcome, observed)
    ensures EndsBy(r, usable, reply, outcome)
  {
    var interrupted := if reply.Raised? && reply.interrupt.Some? then Interrupted(reply.interrupt.value) else AuthBlocked(OutcomeAmbiguous);
    var v := if reply.Rejected? then Verdict(BlockedAuth, RefreshRejected, AuthBlocked(RejectedByProvider))
             else if reply.Raised? then Verdict(BlockedAmbiguous, RefreshOutcomeAmbiguous, interrupted)
             else Verdict(BlockedAmbiguous, RefreshResponseInvalid, AuthBlocked(OutcomeAmbiguous));
    assert Deserves(reply, v);
  }

  predicate RecoverEnds(r: Result<Record>, outcome: CasOutcome) {
    match outcome
    case Acknowledged => r.Ok?
    case Refused => r == Err(VersionConflict)
    case InDoubt => r == Err(AuthBlocked(RecoveryPersistenceAmbiguous))
    case Broken => r == Err(StoreFailure)
  }

  /** How a recovery ends by the record it read and the outcome of its swap. */
  predicate RecoverFollows(r: Result<Record>, expected: nat, attempt: string, first: Option<Record>, outcome: Option<CasOutcome>) {
    if first.None? then r == Err(AuthBlocked(SecretStoreUnavailable))
    else if first.value.version != expected then r == Err(VersionConflict)
    else if !(first.value.state == BlockedAmbiguous && first.value.last == Some(attempt)) then
      r == Err(AuthBlocked(AmbiguousRecoveryPreconditionFailed))
    else outcome.Some? && RecoverEnds(r, outcome.value)
  }

  /** How a revocation ends by the record it read, the outcome of its swap and the record read back. */
  predicate RevokeFollows(r: Result<Record>, first: Option<Record>, outcome: Option<CasOutcome>, observed: Option<Record>) {
    if first.None? then r == Err(AuthBlocked(SecretStoreUnavailable))
    else if first.value.state == Revoked then r == Ok(first.value)
    else
      && outcome.Some?
      && (outcome.value == Acknowledged ==> r.Ok?) && (outcome.value == Broken ==> r == Err(StoreFailure))
      && (outcome.value == Refused || outcome.value == InDoubt ==>
            if observed.None? then r == Err(AuthBlocked(SecretStoreUnavailable))
            else if observed.value.state == Revoked && observed.value.secret == None then r == Ok(observed.value)
            else r == Err(AuthBlocked(if outcome.value == InDoubt then RevokePersistenceAmbiguous else RevokePersistenceConflict)))
  }

  /** `VersionedHostCredentialSource`: one binding, one shared store. */
  class Source {
    const store: Shared

    constructor (store: Shared)
      ensures this.store == store
    {
      this.store := store;
    }

    /** The claim is owned on success: by acknowledgement, or by reading back one's own attempt. */
    method Claim(pid: Pid, current: Record, attempt: string, ghost ttl: nat)
      returns (r: Result<Record>, ghost outcome: CasOutcome, ghost observed: Option<Record>)
      requires store.Valid() && pid in store.system.procs
      requires store.system.procs[pid] == Claiming(current, attempt, ttl)
      modifies store
      ensures store.Valid() && old(store.trace) <= store.trace && pid in store.system.procs
      ensures match r
              case Ok(claimed) => store.system.procs[pid] == Exchanging(claimed, attempt, ttl)
                                  && Owned(store.system.history, claimed, attempt)
              case Err(e) => store.system.procs[pid] == Done(Failed(e))
      ensures Swap(pid, outcome) in store.trace
      ensures r.Ok? <==> outcome == Acknowledged || (outcome == InDoubt && observed.Some? && ShowsClaim(observed.value, current, attempt))
      ensures outcome == Refused ==> r == Err(InProgress)
      ensures outcome == Broken ==> r == Err(StoreFailure)
      ensures outcome == InDoubt && r.Err? ==>
                r == Err(AuthBlocked(if observed.None? then SecretStoreUnavailable else RefreshClaimAmbiguous))
    {
      var claimed := current.(version := current.version + 1, state := Refreshing,
                              active := Some(attempt), failure := None);
      var swapped := store.CompareAndSwap(pid, current.version, claimed);
      outcome, observed := swapped, None;
      match swapped {
        case Broken => r := Err(StoreFailure);
        case Refused => r := Err(InProgress);
        case InDoubt =>
          var seen := store.ReadBack(pid);
          observed := if seen.Ok? then Some(seen.value) else None;
          if seen.Err? {
            r := Err(seen.error);
          } else if && seen.value.state == Refreshing && seen.value.active == Some(attempt)
                    && seen.value.version == claimed.version {
            r := Ok(seen.value);
            PcHolds(store.binding, store.secret, store.trace, pid);
          } else {
            r := Err(AuthBlocked(RefreshClaimAmbiguous));
          }
        case Acknowledged =>
          r := Ok(claimed);
          PcHolds(store.binding, store.secret, store.trace, pid);
      }
    }

    /** Record a block; on success the caller goes on to raise `error`. */
    method Block(pid: Pid, current: Record, attempt: string, to: RecordState, why: FailureCode, ghost error: Error)
      returns (r: Result<Record>, ghost outcome: CasOutcome, ghost observed: Option<Record>)
      requires store.Valid() && pid in store.system.procs
      requires store.system.procs[pid] == Blocking(current, attempt, to, why, error)
      modifies store
      ensures store.Valid() && old(store.trace) <= store.trace && pid in store.system.procs
      ensures match r
              case Ok(blocked) =>
                && store.system.procs[pid] == Done(Failed(error)) && Held(store.system.history, blocked)
                && ShowsBlock(blocked, attempt, to, why)
              case Err(e) => store.system.procs[pid] == Done(Failed(e))
      ensures Swap(pid, outcome) in store.trace
      ensures r.Ok? <==> Settled(outcome, observed, seen => ShowsBlock(seen, attempt, to, why))
      ensures outcome == Broken ==> r == Err(StoreFailure)
      ensures outcome != Broken && r.Err? ==>
                r == Err(AuthBlocked(if observed.None? then SecretStoreUnavailable else RefreshRecoveryStateUncertain))
    {
      var blocked := current.(version := current.version + 1, state := to, active := None,
                              last := Some(attempt), failure := Some(why));
      var swapped := store.CompareAndSwap(pid, current.version, blocked);
      outcome, observed := swapped, None;
      if swapped == Broken {
        return Err(StoreFailure), outcome, observed;
      }
      if swapped == Acknowledged {
        return Ok(blocked), outcome, observed;
      }
      r := store.ReadBack(pid);
      observed := if r.Ok? then Some(r.value) else None;
      if r.Ok? && !(r.value.state == to && r.value.last == Some(attempt) && r.value.failure == Some(why)) {
        r := Err(AuthBlocked(RefreshRecoveryStateUncertain));
      }
    }

    method CommitSuccess(pid: Pid, current: Record, attempt: string, ghost ttl: nat, grant: Grant, rotated: string)
      returns (r: Result<Record>, ghost outcome: CasOutcome, ghost observed: Option<Record>)
      requires store.Valid() && pid in store.system.procs
      requires store.system.procs[pid] == Committing(current, attempt, ttl, grant, rotated)
      modifies store
      ensures store.Valid() && old(store.trace) <= store.trace && pid in store.system.procs
      ensures match r
              case Ok(saved) => store.system.procs[pid] == Done(Granted(grant, rotated, current, attempt, ttl))
                                && Owned(store.system.history, current, attempt)
                                && Held(store.system.history, saved) && saved == current.Committed(attempt, rotated)
              case Err(e) => store.system.procs[pid] == Done(Failed(e))
      ensures Swap(pid, outcome) in store.trace
      ensures r.Ok? <==> outcome == Acknowledged
                         || (outcome == InDoubt && observed.Some? && ShowsCommit(observed.value, current, attempt, rotated))
      ensures outcome == Broken ==> r == Err(StoreFailure)
      ensures outcome != Broken && outcome != Acknowledged && observed.None? ==> r == Err(AuthBlocked(SecretStoreUnavailable))
      ensures outcome == InDoubt && observed.Some? && r.Err? ==> InDoubtError(observed.value, attempt, r.error)
      ensures outcome == Refused && observed.Some? ==>
                r == Err(if observed.value.state == Revoked then CredentialRevoked else AuthBlocked(RefreshPersistenceConflict))
    {
      var committed := current.(version := current.version + 1, state := Ready, secret := Some(rotated),
                                generation := current.generation + 1, active := None,
                                last := Some(attempt), failure := None);
      var swapped := store.CompareAndSwap(pid, current.version, committed);
      outcome, observed := swapped, None;
      match swapped {
        case Broken => r := Err(StoreFailure);
        case Acknowledged =>
          PcHolds(store.binding, store.secret, store.trace, pid);
          r := Ok(committed);
        case Refused =>
          r := store.ReadBack(pid);
          observed := if r.Ok? then Some(r.value) else None;
          if r.Ok? {
            r := Err(if r.value.state == Revoked then CredentialRevoked
                     else AuthBlocked(RefreshPersistenceConflict));
          }
        case InDoubt => r, observed := SettleCommit(pid, current, attempt, ttl, grant, rotated, committed);
      }
    }

    /** The commit is in doubt: it counts only if reading back shows one's own record, and a record still held is blocked. */
    method SettleCommit(pid: Pid, current: Record, attempt: string, ghost ttl: nat, ghost grant: Grant, rotated: string,
                        committed: Record)
      returns (r: Result<Record>, ghost observed: Option<Record>)
      requires store.Valid() && pid in store.system.procs
      requires store.system.procs[pid] == CommitUnsure(current, attempt, ttl, grant, rotated)
      requires committed == current.Committed(attempt, rotated)
      modifies store
      ensures store.Valid() && old(store.trace) <= store.trace && pid in store.system.procs
      ensures match r
              case Ok(saved) => store.system.procs[pid] == Done(Granted(grant, rotated, current, attempt, ttl))
                                && Owned(store.system.history, current, attempt)
                                && Held(store.system.history, saved) && saved == committed
              case Err(e) => store.system.procs[pid] == Done(Failed(e))
      ensures observed.None? ==> r == Err(AuthBlocked(SecretStoreUnavailable))
      ensures r.Ok? <==> observed.Some? && ShowsCommit(observed.value, current, attempt, rotated)
      ensures observed.Some? && r.Err? ==> InDoubtError(observed.value, attempt, r.error)
      ensures r == Err(AuthBlocked(RefreshPersistenceAmbiguous))
                && observed.Some? && observed.value.state == Refreshing && observed.value.active == Some(attempt) ==>
                exists blocked :: Held(store.system.history, blocked) && ShowsBlock(blocked, attempt, BlockedAmbiguous, StoreCommitAmbiguous)
    {
      r := store.ReadBack(pid);
      observed := if r.Ok? then Some(r.value) else None;
      if r.Err? {
        return;
      }
      var seen := r.value;
      if && seen.state == Ready && seen.version == committed.version
         && seen.generation == committed.generation && seen.last == Some(attempt)
         && seen.secret == Some(rotated) {
        PcHolds(store.binding, store.secret, store.trace, pid);
        assert Held(store.system.history, committed);
        return;
      }
      if seen.state == Refreshing && seen.active == Some(attempt) {
        ghost var outcome, shown;
        r, outcome, shown := Block(pid, seen, attempt, BlockedAmbiguous, StoreCommitAmbiguous, AuthBlocked(RefreshPersistenceAmbiguous));
        if r.Err? {
          return;
        }
      }
      r := Err(AuthBlocked(RefreshPersistenceAmbiguous));
    }

    /** Recording a failed request and raising its error. */
    method BlockAndRaise(pid: Pid, claimed: Record, attempt: string, to: RecordState, why: FailureCode, error: Error)
      returns (r: Result<Grant>, ghost outcome: CasOutcome, ghost observed: Option<Record>)
      requires store.Valid() && pid in store.system.procs
      requires store.system.procs[pid] == Blocking(claimed, attempt, to, why, error)
      modifies store
      ensures store.Valid() && old(store.trace) <= store.trace && pid in store.system.procs
      ensures r.Err? && store.system.procs[pid] == Done(Failed(r.error)) && Swap(pid, outcome) in store.trace
      ensures outcome == Broken ==> r == Err(StoreFailure)
      ensures outcome != Broken && outcome != Acknowledged && observed.None? ==> r == Err(AuthBlocked(SecretStoreUnavailable))
      ensures ConcludesFailed(r, attempt, Verdict(to, why, error), outcome, observed)
    {
      var blocked;
      blocked, outcome, observed := Block(pid, claimed, attempt, to, why, error);
      r := Err(if blocked.Err? then blocked.error else error);
    }

    /**
     The rest of `refresh_access` once the claim is owned: ask once, then commit or block. How it
     ends follows from the reply and from what the store answered to the swap after it.
     */
    method ExchangeAndCommit(pid: Pid, claimed: Record, attempt: string, minimumTtl: nat)
      returns (r: Result<Grant>, ghost reply: Reply, ghost outcome: CasOutcome, ghost observed: Option<Record>)
      requires store.Valid() && pid in store.system.procs
      requires store.system.procs[pid] == Exchanging(claimed, attempt, minimumTtl)
      requires claimed.binding == store.binding
      modifies store
      ensures store.Valid() && old(store.trace) <= store.trace && pid in store.system.procs
      ensures match r
              case Ok(grant) => GrantedTo(store.system, pid, grant, attempt, minimumTtl)
              case Err(e) => store.system.procs[pid] == Done(Failed(e))
      ensures Exchange(pid, reply) in store.trace && Swap(pid, outcome) in store.trace
      ensures Concludes(r, claimed, attempt, AcceptableReply(store.binding, minimumTtl, reply), reply, outcome, observed)
    {
      var answer := store.AskProvider(pid);
      reply := answer;
      if answer.Rejected? {
        r, outcome, observed := BlockAndRaise(pid, claimed, attempt, BlockedAuth, RefreshRejected, AuthBlocked(RejectedByProvider));
        return;
      }
      if answer.Raised? {
        var error := if answer.interrupt.Some? then Interrupted(answer.interrupt.value)
                     else AuthBlocked(OutcomeAmbiguous);
        r, outcome, observed := BlockAndRaise(pid, claimed, attempt, BlockedAmbiguous, RefreshOutcomeAmbiguous, error);
        return;
      }
      if !AcceptableReply(store.binding, minimumTtl, answer) {
        r, outcome, observed := BlockAndRaise(pid, claimed, attempt, BlockedAmbiguous, RefreshResponseInvalid, AuthBlocked(OutcomeAmbiguous));
        return;
      }
      var saved;
      saved, outcome, observed := CommitSuccess(pid, claimed, attempt, minimumTtl, answer.grant, answer.rotated);
      r := if saved.Err? then Err(saved.error) else Ok(answer.grant);
    }

    /**
     `refresh_access` with the attempt id its factory drew. For another binding or a negative
     lifetime nothing is done. A grant is returned only once its own ready record with the rotated
     secret is in the history, next to its claim; and how the call ends follows from what it was
     answered.
     */
    method RefreshAccess(pid: Pid, binding: Binding, seconds: int, attempt: string)
      returns (r: Result<Grant>, ghost heard: Heard)
      requires store.Valid() && pid !in store.system.procs
      modifies store
      ensures store.Valid() && old(store.trace) <= store.trace
      ensures pid !in store.system.procs <==> binding != store.binding || seconds < 0
      ensures pid !in store.system.procs ==>
                && store.trace == old(store.trace)
                && r == Err(if binding != store.binding then AuthBlocked(BindingMismatch) else InvalidArgument)
      ensures pid in store.system.procs ==>
                match r
                case Ok(grant) =>
                  && GrantedTo(store.system, pid, grant, attempt, seconds)
                  && AcceptableReply(store.binding, seconds, Answered(grant, store.system.procs[pid].outcome.rotated))
                case Err(e) => store.system.procs[pid] == Done(Failed(e))
      ensures pid in store.system.procs ==>
                && Refreshes(r, store.binding, seconds, attempt, heard)
                && (heard.reply.Some? ==> Exchange(pid, heard.reply.value) in store.trace)
    {
      heard := Heard(None, None, None, None);
      if binding != store.binding {
        return Err(AuthBlocked(BindingMismatch)), heard;
      }
      if seconds < 0 {
        return Err(InvalidArgument), heard;
      }
      r, heard := RefreshBound(pid, seconds, attempt);
    }

    /** `refresh_access` from reading the record on. */
    method RefreshBound(pid: Pid, minimumTtl: nat, attempt: string) returns (r: Result<Grant>, ghost heard: Heard)
      requires store.Valid() && pid !in store.system.procs
      modifies store
      ensures store.Valid() && old(store.trace) <= store.trace && pid in store.system.procs
      ensures match r
              case Ok(grant) =>
                && GrantedTo(store.system, pid, grant, attempt, minimumTtl)
                && AcceptableReply(store.binding, minimumTtl, Answered(grant, store.system.procs[pid].outcome.rotated))
              case Err(e) => store.system.procs[pid] == Done(Failed(e))
      ensures Refreshes(r, store.binding, minimumTtl, attempt, heard)
      ensures heard.reply.Some? ==> Exchange(pid, heard.reply.value) in store.trace
    {
      heard := Heard(None, None, None, None);
      var first := store.ReadFirst(BeginRefresh(pid, attempt, minimumTtl, true));
      if first.Err? {
        return Err(first.error), heard;
      }
      var current := first.value;
      heard := heard.(first := Some(current));
      if current.state == Revoked {
        return Err(CredentialRevoked), heard;
      }
      if current.state == Refreshing {
        return Err(InProgress), heard;
      }
      if current.state == BlockedAmbiguous {
        return Err(AuthBlocked(OutcomeAmbiguous)), heard;
      }
      if current.state != Ready {
        return Err(AuthBlocked(AuthUnavailable)), heard;
      }
      if !SafeAttemptId(attempt) {
        return Err(AuthBlocked(RefreshAttemptInvalid)), heard;
      }
      r, heard := ClaimAndExchange(pid, current, attempt, minimumTtl);
    }

    method ClaimAndExchange(pid: Pid, current: Record, attempt: string, minimumTtl: nat)
      returns (r: Result<Grant>, ghost heard: Heard)
      requires store.Valid() && pid in store.system.procs && current.state == Ready && SafeAttemptId(attempt)
      requires store.system.procs[pid] == Claiming(current, attempt, minimumTtl)
      modifies store
      ensures store.Valid() && old(store.trace) <= store.trace && pid in store.system.procs
      ensures match r
              case Ok(grant) =>
                && GrantedTo(store.system, pid, grant, attempt, minimumTtl)
                && AcceptableReply(store.binding, minimumTtl, Answered(grant, store.system.procs[pid].outcome.rotated))
              case Err(e) => store.system.procs[pid] == Done(Failed(e))
      ensures Refreshes(r, store.binding, minimumTtl, attempt, heard) && heard.first == Some(current)
      ensures heard.reply.Some? ==> Exchange(pid, heard.reply.value) in store.trace
    {
      var claim;
      ghost var swapped, seen;
      claim, swapped, seen := Claim(pid, current, attempt, minimumTtl);
      heard := Heard(Some(current), Some(swapped), None, None);
      if claim.Err? {
        return Err(claim.error), heard;
      }
      RecordHolds(store.binding, store.secret, store.trace, claim.value);
      ghost var reply, last, observed;
      r, reply, last, observed := ExchangeAndCommit(pid, claim.value, attempt, minimumTtl);
      heard := heard.(reply := Some(reply), last := Some(last));
      EndsByConcludes(r, claim.value, attempt, AcceptableReply(store.binding, minimumTtl, reply), reply, last, observed);
      if r.Ok? {
        PcHolds(store.binding, store.secret, store.trace, pid);
        RecordHolds(store.binding, store.secret, store.trace, store.system.procs[pid].outcome.claimed);
      }
    }

    method RecoverCas(pid: Pid, current: Record, replacement: Record) returns (r: Result<Record>, ghost outcome: CasOutcome)
      requires store.Valid() && pid in store.system.procs
      requires store.system.procs[pid] == Recovering(current, replacement)
      modifies store
      ensures store.Valid() && old(store.trace) <= store.trace && pid in store.system.procs
      ensures match r
              case Ok(saved) => saved == replacement && Held(store.system.history, saved)
                                && store.system.procs[pid] == Done(Saved(saved))
              case Err(e) => store.system.procs[pid] == Done(Failed(e))
      ensures Swap(pid, outcome) in store.trace && RecoverEnds(r, outcome)
    {
      var swapped := store.CompareAndSwap(pid, current.version, replacement);
      outcome := swapped;
      match swapped {
        case Acknowledged => r := Ok(replacement);
        case Refused => r := Err(VersionConflict);
        case InDoubt => r := Err(AuthBlocked(RecoveryPersistenceAmbiguous));
        case Broken => r := Err(StoreFailure);
      }
    }

    /**
     Both operator recoveries: `rotated` is None after proof that the refresh did not apply,
     and the proven rotated secret otherwise. The recovered record follows a block that was
     recorded under exactly this attempt and version; and a record so blocked is recovered
     whenever its swap is acknowledged.
     */
    method Recover(pid: Pid, expected: nat, attempt: string, rotated: Option<string>)
      returns (r: Result<Record>, ghost first: Option<Record>, ghost outcome: Option<CasOutcome>)
      requires store.Valid() && pid !in store.system.procs
      modifies store
      ensures store.Valid() && old(store.trace) <= store.trace
      ensures !SafeAttemptId(attempt) ==> r == Err(AuthBlocked(RefreshAttemptInvalid)) && store.trace == old(store.trace)
      ensures SafeAttemptId(attempt) && rotated.Some? && !NonBlank(rotated.value) ==>
                r == Err(InvalidArgument) && store.trace == old(store.trace)
      ensures SafeAttemptId(attempt) && (rotated.Some? ==> NonBlank(rotated.value)) ==>
                RecoverFollows(r, expected, attempt, first, outcome)
      ensures outcome.Some? ==> Swap(pid, outcome.value) in store.trace
      ensures r.Ok? ==>
                && Held(store.system.history, r.value) && r.value.version == expected + 1 && r.value.state == Ready
                && var before := store.system.history[expected];
                   && before.state == BlockedAmbiguous && before.last == Some(attempt)
                   && r.value.generation == before.generation + (if rotated.Some? then 1 else 0)
                   && r.value.secret == (if rotated.Some? then rotated else before.secret)
    {
      first, outcome := None, None;
      if !SafeAttemptId(attempt) {
        return Err(AuthBlocked(RefreshAttemptInvalid)), first, outcome;
      }
      if rotated.Some? && !NonBlank(rotated.value) {
        return Err(InvalidArgument), first, outcome;
      }
      r := store.ReadFirst(BeginRecovery(pid, expected, attempt, rotated, true));
      if r.Err? {
        return;
      }
      var current := r.value;
      first := Some(current);
      if current.version != expected {
        return Err(VersionConflict), first, outcome;
      }
      if current.state != BlockedAmbiguous || current.last != Some(attempt) {
        return Err(AuthBlocked(AmbiguousRecoveryPreconditionFailed)), first, outcome;
      }
      ghost var seen := store.trace;
      var replacement :=
        if rotated.Some? then
          current.(version := current.version + 1, state := Ready, secret := rotated,
                   generation := current.generation + 1, active := None, failure := None)
        else current.(version := current.version + 1, state := Ready, active := None, failure := None);
      ghost var swapped;
      r, swapped := RecoverCas(pid, current, replacement);
      outcome := Some(swapped);
      HistoryOnlyGrows(store.binding, store.secret, seen, store.trace);
    }

    /**
     Revocation: on success the record of the history it returns is revoked and holds no secret;
     and it succeeds when its swap is acknowledged or reading back shows it.
     */
    method Revoke(pid: Pid)
      returns (r: Result<Record>, ghost first: Option<Record>, ghost outcome: Option<CasOutcome>, ghost observed: Option<Record>)
      requires store.Valid() && pid !in store.system.procs
      modifies store
      ensures store.Valid() && old(store.trace) <= store.trace && pid in store.system.procs
      ensures match r
              case Ok(record) => record.state == Revoked && record.secret == None
                                 && record == store.system.Current()
              case Err(e) => store.system.procs[pid] == Done(Failed(e))
      ensures outcome.Some? ==> Swap(pid, outcome.value) in store.trace
      ensures RevokeFollows(r, first, outcome, observed)
    {
      first, outcome, observed := None, None, None;
      r := store.ReadFirst(BeginRevoke(pid, true));
      if r.Err? {
        return;
      }
      first := Some(r.value);
      if r.value.state == Revoked {
        RecordHolds(store.binding, store.secret, store.trace, r.value);
        return;
      }
      var current := r.value;
      var replacement := current.(version := current.version + 1, state := Revoked, secret := None,
                                  active := None, failure := Some(SourceRevoked));
      var swapped := store.CompareAndSwap(pid, current.version, replacement);
      outcome := Some(swapped);
      if swapped == Broken {
        return Err(StoreFailure), first, outcome, observed;
      }
      if swapped == Acknowledged {
        RecordHolds(store.binding, store.secret, store.trace, replacement);
        return Ok(replacement), first, outcome, observed;
      }
      r := store.ReadBack(pid);
      observed := if r.Ok? then Some(r.value) else None;
      if r.Ok? && r.value.state == Revoked && r.value.secret == None {
        RecordHolds(store.binding, store.secret, store.trace, r.value);
      } else if r.Ok? {
        r := Err(AuthBlocked(if swapped == InDoubt then RevokePersistenceAmbiguous
                             else RevokePersistenceConflict));
      }
    }
  }
}
