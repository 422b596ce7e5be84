/**
 What a recorded block says about the provider. In every run the failure code of a blocked record
 is the one its own request was answered with: rejected only if the provider rejected, ambiguous
 only if the request raised, invalid only if the answer could not be trusted, and a commit in
 doubt only if it could.
 */
module RotationReplies {
  import opened CredentialIdentity
  import opened SecretRecords
  import opened RotationProtocol
  import opened RotationSafety
  import opened RotationExchanges

  // ----- which answers can be trusted

  /** The provider granted what is bound, for long enough, with a new secret: an answer to be trusted. */
  ghost predicate Trusted(binding: Binding, ttl: nat, reply: Reply) {
    && reply.Answered? && Grants(binding, reply.grant) && HasInk(reply.rotated)
    && reply.grant.expires >= reply.grant.issued + ttl
  }

  /** The validation of an answer accepts exactly the grants to be trusted. */
  lemma AcceptableExactly(binding: Binding, ttl: nat, reply: Reply)
    requires binding.Valid()
    ensures AcceptableReply(binding, ttl, reply) <==> Trusted(binding, ttl, reply)
  {
    if reply.Answered? {
      NonBlankExactly(reply.rotated);
      NonBlankExactly(reply.grant.token);
      ScopeExactly(reply.grant.capabilities, binding.capabilities);
    }
  }

  // ----- what each failure code stands for

  ghost predicate Means(why: FailureCode, binding: Binding, ttl: nat, reply: Reply) {
    match why
    case RefreshRejected => reply.Rejected?
    case RefreshOutcomeAmbiguous => reply.Raised?
    case RefreshResponseInvalid => reply.Malformed? || (reply.Answered? && !Trusted(binding, ttl, reply))
    case StoreCommitAmbiguous => Trusted(binding, ttl, reply)
    case SourceRevoked => false
  }

  /** This request explains a block: made under its attempt, at the version before unless a commit was in doubt. */
  ghost predicate Explains(c: Call, version: nat, attempt: string, why: FailureCode, binding: Binding) {
    && c.attempt == attempt && (why != StoreCommitAmbiguous ==> c.version == version)
    && Means(why, binding, c.ttl, c.reply)
  }

  ghost predicate Explained(calls: seq<Call>, version: nat, attempt: string, why: FailureCode, binding: Binding) {
    exists k :: 0 <= k < |calls| && Explains(calls[k], version, attempt, why, binding)
  }

  predicate IsBlocked(r: Record) {
    r.state == BlockedAuth || r.state == BlockedAmbiguous
  }

  ghost predicate WriteExplained(calls: seq<Call>, expected: nat, r: Record, binding: Binding) {
    IsBlocked(r) ==> r.last.Some? && r.failure.Some? && Explained(calls, expected, r.last.value, r.failure.value, binding)
  }

  ghost predicate PcExplained(calls: seq<Call>, pc: Pc, binding: Binding) {
    match pc
    case Blocking(cur, a, _, why, _) => Explained(calls, cur.version, a, why, binding)
    case BlockUnsure(cur, a, _, why, _) => Explained(calls, cur.version, a, why, binding)
    case _ => true
  }

  ghost predicate AllExplained(s: System, binding: Binding) {
    && (forall i :: 0 < i < |s.history| ==> WriteExplained(s.calls, i - 1, s.history[i], binding))
    && (forall w :: w in s.flight ==> WriteExplained(s.calls, w.expected, w.replacement, binding))
    && (forall p :: p in s.procs ==> PcExplained(s.calls, s.procs[p], binding))
  }

  // ----- one event

  lemma MoreCallsExplain(s: System, calls: seq<Call>, binding: Binding)
    requires AllExplained(s, binding) && s.calls <= calls
    ensures AllExplained(s.(calls := calls), binding)
  {
    forall version, a, why | Explained(s.calls, version, a, why, binding) ensures Explained(calls, version, a, why, binding) {
      var k :| 0 <= k < |s.calls| && Explains(s.calls[k], version, a, why, binding);
      assert Explains(calls[k], version, a, why, binding);
    }
  }

  lemma MoveExplained(s: System, pid: Pid, pc: Pc, binding: Binding)
    requires AllExplained(s, binding) && PcExplained(s.calls, pc, binding)
    ensures AllExplained(s.(procs := s.procs[pid := pc]), binding)
  {
  }

  lemma PendingExplained(calls: seq<Call>, pc: Pc, binding: Binding)
    requires PcExplained(calls, pc, binding) && PendingWrite(pc).Some?
    requires pc.Recovering? ==> !IsBlocked(pc.replacement)
    ensures WriteExplained(calls, PendingWrite(pc).value.expected, PendingWrite(pc).value.replacement, binding)
    ensures forall outcome :: PcExplained(calls, AfterSwap(pc, outcome), binding)
  {
  }

  lemma ApplyExplained(s: System, w: Write, binding: Binding)
    requires Safe(s) && AllExplained(s, binding) && WriteExplained(s.calls, w.expected, w.replacement, binding)
    ensures AllExplained(Apply(s, w), binding)
  {
  }

  lemma SubmitExplained(s: System, w: Write, outcome: CasOutcome, binding: Binding)
    requires Safe(s) && AllExplained(s, binding) && WriteExplained(s.calls, w.expected, w.replacement, binding)
    requires Submit(s, w, outcome).Some?
    ensures AllExplained(Submit(s, w, outcome).value, binding)
  {
    ApplyExplained(s, w, binding);
  }

  /** The exchange is where a block gets its reason: the reply just logged. */
  lemma ExchangeExplained(s: System, pid: Pid, reply: Reply, binding: Binding)
    requires Safe(s) && AllExplained(s, binding) && binding.Valid() && s.history[0].binding == binding
    requires pid in s.procs && s.procs[pid].Exchanging?
    ensures AllExplained(Next(s, Exchange(pid, reply)), binding)
  {
    var Exchanging(claimed, a, ttl) := s.procs[pid];
    assert PcOk(s.history, s.procs[pid]);
    AcceptableExactly(binding, ttl, reply);
    var call := Call(a, claimed.version, claimed.generation, claimed.secret, ttl, reply);
    var calls := s.calls + [call];
    MoreCallsExplain(s, calls, binding);
    var pc := AfterExchange(claimed.binding, claimed, a, ttl, reply);
    assert calls[|s.calls|] == call;
    if pc.Blocking? {
      assert Explains(calls[|s.calls|], claimed.version, a, pc.why, binding);
    }
    MoveExplained(s.(calls := calls), pid, pc, binding);
  }

  /** A commit in doubt is blocked only under an answer that was trusted. */
  lemma ReadExplained(s: System, pid: Pid, binding: Binding)
    requires Safe(s) && AllExplained(s, binding) && binding.Valid() && s.history[0].binding == binding && AnswersLogged(s)
    requires pid in s.procs && Unsure(s.procs[pid])
    ensures PcExplained(s.calls, AfterRead(s.procs[pid], s.Current()), binding)
  {
    var pc := s.procs[pid];
    assert PcOk(s.history, pc) && PcExplained(s.calls, pc, binding);
    if pc.CommitUnsure? {
      CommitReadExplained(s, pid, binding);
    }
  }

  lemma CommitReadExplained(s: System, pid: Pid, binding: Binding)
    requires Safe(s) && binding.Valid() && s.history[0].binding == binding && AnswersLogged(s)
    requires pid in s.procs && s.procs[pid].CommitUnsure?
    ensures PcExplained(s.calls, AfterRead(s.procs[pid], s.Current()), binding)
  {
    var pc := s.procs[pid];
    assert PcOk(s.history, pc);
    if AfterRead(pc, s.Current()).Blocking? {
      var call := AnsweredCall(pc).value;
      AcceptableExactly(binding, pc.ttl, Answered(pc.grant, pc.rotated));
      var k :| 0 <= k < |s.calls| && s.calls[k] == call;
      assert Explains(s.calls[k], s.Current().version, pc.attempt, StoreCommitAmbiguous, binding);
    }
  }

  lemma SwapExplained(s: System, pid: Pid, outcome: CasOutcome, binding: Binding)
    requires Safe(s) && AllExplained(s, binding) && pid in s.procs && PendingWrite(s.procs[pid]).Some?
    requires Submit(s, PendingWrite(s.procs[pid]).value, outcome).Some?
    ensures AllExplained(Next(s, Swap(pid, outcome)), binding)
  {
    var pc := s.procs[pid];
    assert PcOk(s.history, pc) && PcExplained(s.calls, pc, binding);
    PendingExplained(s.calls, pc, binding);
    SubmitExplained(s, PendingWrite(pc).value, outcome, binding);
    MoveExplained(Submit(s, PendingWrite(pc).value, outcome).value, pid, AfterSwap(pc, outcome), binding);
  }

  lemma NextExplained(s: System, e: Event, binding: Binding)
    requires Safe(s) && AllExplained(s, binding) && binding.Valid() && s.history[0].binding == binding && AnswersLogged(s)
    ensures AllExplained(Next(s, e), binding)
  {
    match e
    case Swap(pid, outcome) =>
      if pid in s.procs && PendingWrite(s.procs[pid]).Some? && Submit(s, PendingWrite(s.procs[pid]).value, outcome).Some? {
        SwapExplained(s, pid, outcome, binding);
      }
    case Read(pid, readable) =>
      if pid in s.procs && Unsure(s.procs[pid]) {
        ReadExplained(s, pid, binding);
        MoveExplained(s, pid, if readable then AfterRead(s.procs[pid], s.Current()) else UNREADABLE, binding);
      }
    case Exchange(pid, reply) =>
      if pid in s.procs && s.procs[pid].Exchanging? {
        ExchangeExplained(s, pid, reply, binding);
      }
    case Land(w) =>
      if w in s.flight {
        ApplyExplained(s, w, binding);
      }
    case _ =>
  }

  lemma {:induction false} RunExplained(binding: Binding, secret: string, events: seq<Event>)
    requires NonBlank(secret) && binding.Valid()
    ensures AllExplained(Run(Start(binding, secret), events), binding)
    decreases |events|
  {
    if events != [] {
      var before := events[..|events| - 1];
      RunExplained(binding, secret, before);
      StartSafe(binding, secret);
      RunSafe(Start(binding, secret), before);
      RunAnswersLogged(binding, secret, before);
      NextExplained(Run(Start(binding, secret), before), events[|events| - 1], binding);
    }
  }

  /**
   In every run, a blocked record at a version was written for a request made under its attempt, at
   the version before where the request itself failed, and its failure code is what was answered.
   */
  lemma BlocksAreExplained(binding: Binding, secret: string, events: seq<Event>, i: nat)
    requires NonBlank(secret) && binding.Valid()
    requires var h := Run(Start(binding, secret), events).history; 0 < i < |h| && IsBlocked(h[i])
    ensures var s := Run(Start(binding, secret), events);
            && s.history[i].last.Some? && s.history[i].failure.Some?
            && Explained(s.calls, i - 1, s.history[i].last.value, s.history[i].failure.value, binding)
            && (s.history[i].state == BlockedAuth <==> s.history[i].failure == Some(RefreshRejected))
  {
    RunExplained(binding, secret, events);
    StartSafe(binding, secret);
    RunSafe(Start(binding, secret), events);
    var h := Run(Start(binding, secret), events).history;
    assert Edge(h[i - 1], h[i]);
  }

  // ----- one claim for each attempt id

  ghost predicate ClaimBy(r: Record, a: string) {
    r.state == Refreshing && r.active == Some(a)
  }

  /** This attempt id has claimed at most this version, in the history or in flight. */
  ghost predicate ClaimsOnly(s: System, a: string, version: nat) {
    && (forall i :: 0 <= i < |s.history| && ClaimBy(s.history[i], a) ==> i == version)
    && (forall w :: w in s.flight && ClaimBy(w.replacement, a) ==> w.expected + 1 == version)
  }

  ghost predicate NeverClaims(s: System, a: string) {
    && (forall i :: 0 <= i < |s.history| ==> !ClaimBy(s.history[i], a))
    && (forall w :: w in s.flight ==> !ClaimBy(w.replacement, a))
  }

  /** Every attempt id claims at most one version, unused ones none, and one about to claim has not yet. */
  ghost predicate ClaimsOnce(s: System, used: seq<string>) {
    && (forall a :: NeverClaims(s, a) || (a in used && exists version :: ClaimsOnly(s, a, version)))
    && (forall p :: p in s.procs && s.procs[p].Claiming? ==> NeverClaims(s, s.procs[p].attempt))
  }

  lemma SameClaims(s: System, t: System, used: seq<string>, more: seq<string>)
    requires ClaimsOnce(s, used) && forall a :: a in used ==> a in more
    requires t.history == s.history && t.flight <= s.flight
    requires forall p :: p in t.procs && t.procs[p].Claiming? ==> NeverClaims(s, t.procs[p].attempt)
    ensures ClaimsOnce(t, more)
  {
    forall a ensures NeverClaims(t, a) || (a in more && exists version :: ClaimsOnly(t, a, version)) {
      if !NeverClaims(s, a) {
        var version :| ClaimsOnly(s, a, version);
        assert ClaimsOnly(t, a, version);
      }
    }
    forall p | p in t.procs && t.procs[p].Claiming? ensures NeverClaims(t, t.procs[p].attempt) {
      assert NeverClaims(s, t.procs[p].attempt);
    }
  }

  /** A record that claims nothing is added to the history. */
  lemma OtherRecord(s: System, t: System, r: Record, a: string)
    requires t.history == s.history + [r] && t.flight <= s.flight && !ClaimBy(r, a)
    ensures NeverClaims(s, a) ==> NeverClaims(t, a)
    ensures forall version :: ClaimsOnly(s, a, version) ==> ClaimsOnly(t, a, version)
  {
  }

  /** A write that is submitted: in the history if acknowledged, in flight if in doubt. */
  lemma SubmittedClaims(s: System, w: Write, outcome: CasOutcome, a: string)
    requires Safe(s) && WriteOk(s.history, w) && Submit(s, w, outcome).Some?
    ensures var t := Submit(s, w, outcome).value;
            && (NeverClaims(s, a) && !ClaimBy(w.replacement, a) ==> NeverClaims(t, a))
            && (NeverClaims(s, a) ==> ClaimsOnly(t, a, w.expected + 1))
            && (!ClaimBy(w.replacement, a) ==> forall version :: ClaimsOnly(s, a, version) ==> ClaimsOnly(t, a, version))
  {
    var t := Submit(s, w, outcome).value;
    if outcome == Acknowledged {
      assert s.Current() == s.history[|s.history| - 1];
      assert t.history == s.history + [w.replacement];
    }
  }

  lemma SwapClaimsOnce(s: System, pid: Pid, outcome: CasOutcome, used: seq<string>)
    requires Safe(s) && ClaimsOnce(s, used) && OneAskEach(s, used) && pid in s.procs && PendingWrite(s.procs[pid]).Some?
    requires Submit(s, PendingWrite(s.procs[pid]).value, outcome).Some?
    ensures ClaimsOnce(Next(s, Swap(pid, outcome)), used)
  {
    var pc := s.procs[pid];
    var w := PendingWrite(pc).value;
    assert PcOk(s.history, pc);
    PendingWriteOk(s.history, pc);
    var t := Submit(s, w, outcome).value;
    forall a ensures NeverClaims(t, a) || (a in used && exists version :: ClaimsOnly(t, a, version)) {
      SwapOneClaim(s, pid, outcome, used, a);
    }
    forall p | p in s.procs && s.procs[p].Claiming? && p != pid ensures NeverClaims(t, s.procs[p].attempt) {
      OthersNotClaimed(s, pid, p, used);
      SubmittedClaims(s, w, outcome, s.procs[p].attempt);
    }
    SwappedClaims(s, pid, outcome, used);
  }

  lemma SwapOneClaim(s: System, pid: Pid, outcome: CasOutcome, used: seq<string>, a: string)
    requires Safe(s) && ClaimsOnce(s, used) && OneAskEach(s, used) && pid in s.procs && PendingWrite(s.procs[pid]).Some?
    requires WriteOk(s.history, PendingWrite(s.procs[pid]).value)
    requires Submit(s, PendingWrite(s.procs[pid]).value, outcome).Some?
    ensures var t := Submit(s, PendingWrite(s.procs[pid]).value, outcome).value;
            NeverClaims(t, a) || (a in used && exists version :: ClaimsOnly(t, a, version))
  {
    var pc := s.procs[pid];
    var w := PendingWrite(pc).value;
    var t := Submit(s, w, outcome).value;
    SubmittedClaims(s, w, outcome, a);
    assert PcOk(s.history, pc);
    if ClaimBy(w.replacement, a) {
      assert pc.Claiming? && pc.attempt == a;
      assert ClaimsOnly(t, a, w.expected + 1);
    } else if !NeverClaims(s, a) {
      var version :| ClaimsOnly(s, a, version);
      assert ClaimsOnly(t, a, version);
    }
  }

  /** Of two processes about to write, one about to claim has an attempt id the other does not claim. */
  lemma OthersNotClaimed(s: System, pid: Pid, p: Pid, used: seq<string>)
    requires Safe(s) && ClaimsOnce(s, used) && OneAskEach(s, used) && pid in s.procs && PendingWrite(s.procs[pid]).Some?
    requires p in s.procs && s.procs[p].Claiming? && p != pid
    ensures NeverClaims(s, s.procs[p].attempt) && !ClaimBy(PendingWrite(s.procs[pid]).value.replacement, s.procs[p].attempt)
  {
    assert PcOk(s.history, s.procs[pid]);
  }

  /** Only the swapping process moves, and not to another claim. */
  lemma SwappedClaims(s: System, pid: Pid, outcome: CasOutcome, used: seq<string>)
    requires s.history != [] && pid in s.procs && PendingWrite(s.procs[pid]).Some?
    requires Submit(s, PendingWrite(s.procs[pid]).value, outcome).Some?
    requires var t := Submit(s, PendingWrite(s.procs[pid]).value, outcome).value;
             && (forall a :: NeverClaims(t, a) || (a in used && exists version :: ClaimsOnly(t, a, version)))
             && forall p :: p in s.procs && s.procs[p].Claiming? && p != pid ==> NeverClaims(t, s.procs[p].attempt)
    ensures ClaimsOnce(Next(s, Swap(pid, outcome)), used)
  {
    var t, n := Submit(s, PendingWrite(s.procs[pid]).value, outcome).value, Next(s, Swap(pid, outcome));
    assert n.history == t.history && n.flight == t.flight;
    assert !AfterSwap(s.procs[pid], outcome).Claiming?;
    forall a {
      SameClaim(t, n, a);
    }
  }

  lemma SameClaim(s: System, t: System, a: string)
    requires t.history == s.history && t.flight == s.flight
    ensures NeverClaims(t, a) <==> NeverClaims(s, a)
    ensures forall version :: ClaimsOnly(s, a, version) ==> ClaimsOnly(t, a, version)
  {
  }

  lemma LandClaimsOnce(s: System, w: Write, used: seq<string>)
    requires Safe(s) && ClaimsOnce(s, used) && w in s.flight
    ensures ClaimsOnce(Next(s, Land(w)), used)
  {
    var t := Next(s, Land(w));
    assert WriteOk(s.history, w);
    if s.Current().version == w.expected {
      assert t.history == s.history + [w.replacement];
      forall a ensures NeverClaims(t, a) || (a in used && exists version :: ClaimsOnly(t, a, version)) {
        LandedClaims(s, t, w, a);
        if !NeverClaims(s, a) {
          var version :| ClaimsOnly(s, a, version);
          assert ClaimsOnly(t, a, version);
        }
      }
      forall p | p in t.procs && t.procs[p].Claiming? ensures NeverClaims(t, t.procs[p].attempt) {
        LandedClaims(s, t, w, t.procs[p].attempt);
      }
    } else {
      SameClaims(s, t, used, used);
    }
  }

  lemma LandedClaims(s: System, t: System, w: Write, a: string)
    requires w in s.flight && t.history == s.history + [w.replacement] && t.flight <= s.flight && |s.history| == w.expected + 1
    ensures NeverClaims(s, a) ==> NeverClaims(t, a)
    ensures forall version :: ClaimsOnly(s, a, version) ==> ClaimsOnly(t, a, version)
  {
  }

  lemma OnlySwapAndLandWrite(s: System, e: Event)
    requires s.history != [] && !e.Swap? && !e.Land?
    ensures Next(s, e).history == s.history && Next(s, e).flight == s.flight
  {
  }

  lemma OtherClaimsOnce(s: System, e: Event, used: seq<string>)
    requires s.history != [] && ClaimsOnce(s, used) && OneAskEach(s, used) && !e.Swap? && !e.Land?
    requires e.BeginRefresh? && SafeAttemptId(e.attempt) ==> e.attempt !in used
    ensures ClaimsOnce(Next(s, e), used + (if e.BeginRefresh? then [e.attempt] else []))
  {
    var t := Next(s, e);
    OnlySwapAndLandWrite(s, e);
    forall p | p in t.procs && t.procs[p].Claiming? ensures NeverClaims(s, t.procs[p].attempt) {
      StillClaiming(s, e, p, used);
    }
    SameClaims(s, t, used, used + (if e.BeginRefresh? then [e.attempt] else []));
  }

  /** A process about to claim was about to before, or has just begun under an id not used yet. */
  lemma StillClaiming(s: System, e: Event, p: Pid, used: seq<string>)
    requires s.history != [] && ClaimsOnce(s, used) && !e.Swap?
    requires e.BeginRefresh? && SafeAttemptId(e.attempt) ==> e.attempt !in used
    requires p in Next(s, e).procs && Next(s, e).procs[p].Claiming?
    ensures NeverClaims(s, Next(s, e).procs[p].attempt)
  {
    MayAskComesFromMayAsk(s, e, p);
    if p in s.procs {
      ClaimingIsOld(s, e, p);
    }
  }

  lemma ClaimingIsOld(s: System, e: Event, p: Pid)
    requires s.history != [] && !e.Swap? && p in s.procs && p in Next(s, e).procs && Next(s, e).procs[p].Claiming?
    ensures s.procs[p] == Next(s, e).procs[p]
  {
  }

  lemma NextClaimsOnce(s: System, e: Event, used: seq<string>)
    requires Safe(s) && ClaimsOnce(s, used) && OneAskEach(s, used)
    requires e.BeginRefresh? && SafeAttemptId(e.attempt) ==> e.attempt !in used
    ensures ClaimsOnce(Next(s, e), used + (if e.BeginRefresh? then [e.attempt] else []))
  {
    if e.Swap? {
      if e.pid in s.procs && PendingWrite(s.procs[e.pid]).Some? && Submit(s, PendingWrite(s.procs[e.pid]).value, e.outcome).Some? {
        SwapClaimsOnce(s, e.pid, e.outcome, used);
      }
    } else if e.Land? {
      if e.write in s.flight {
        LandClaimsOnce(s, e.write, used);
      }
    } else {
      OtherClaimsOnce(s, e, used);
    }
  }

  lemma {:induction false} RunClaimsOnce(binding: Binding, secret: string, events: seq<Event>)
    requires NonBlank(secret) && DistinctAttempts(events)
    ensures ClaimsOnce(Run(Start(binding, secret), events), AttemptIds(events))
    decreases |events|
  {
    if events == [] {
      assert forall a :: NeverClaims(Start(binding, secret), a);
    } else {
      var before := events[..|events| - 1];
      LastAttemptIsNew(events);
      RunClaimsOnce(binding, secret, before);
      RunOneAskEach(binding, secret, before);
      StartSafe(binding, secret);
      RunSafe(Start(binding, secret), before);
      NextClaimsOnce(Run(Start(binding, secret), before), events[|events| - 1], AttemptIds(before));
    }
  }

  /** Where no acceptable attempt id is given out twice, the request explaining a block is the one made at the version before. */
  lemma BlocksAnswerTheirClaim(binding: Binding, secret: string, events: seq<Event>, i: nat)
    requires NonBlank(secret) && binding.Valid() && DistinctAttempts(events)
    requires var h := Run(Start(binding, secret), events).history; 0 < i < |h| && IsBlocked(h[i])
    ensures var s := Run(Start(binding, secret), events);
            exists k :: 0 <= k < |s.calls| && s.calls[k].version == i - 1 && Some(s.calls[k].attempt) == s.history[i].last
                        && s.history[i].failure.Some? && Means(s.history[i].failure.value, binding, s.calls[k].ttl, s.calls[k].reply)
  {
    var s := Run(Start(binding, secret), events);
    BlocksAreExplained(binding, secret, events, i);
    RunClaimsOnce(binding, secret, events);
    StartSafe(binding, secret);
    RunSafe(Start(binding, secret), events);
    var a := s.history[i].last.value;
    var k :| 0 <= k < |s.calls| && Explains(s.calls[k], i - 1, a, s.history[i].failure.value, binding);
    assert Edge(s.history[i - 1], s.history[i]) && CallOk(s.history, s.calls[k]);
    assert ClaimBy(s.history[i - 1], a) && ClaimBy(s.history[s.calls[k].version], a);
    assert !NeverClaims(s, a);
    var version :| ClaimsOnly(s, a, version);
  }
}
