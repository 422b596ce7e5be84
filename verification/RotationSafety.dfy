/**
 What holds of the shared record, and of every process, after any run.
 */
module RotationSafety {
  import opened CredentialIdentity
  import opened SecretRecords
  import opened RotationProtocol

  /** Version numbers count up from the seed and successive records follow the edges. */
  ghost predicate HistoryOk(h: seq<Record>) {
    && h != [] && h[0].version == 0 && h[0].generation == 0 && h[0].state == Ready && h[0].failure == None && h[0].WellFormed()
    && (forall i :: 0 <= i < |h| ==> h[i].version == i && h[i].binding == h[0].binding)
    && (forall i :: 0 < i < |h| ==> Edge(h[i - 1], h[i]))
  }

  /** The record the store held at its own version number. */
  ghost predicate Held(h: seq<Record>, r: Record) {
    r.version < |h| && h[r.version] == r
  }

  ghost predicate Owned(h: seq<Record>, r: Record, attempt: string) {
    Held(h, r) && r.state == Refreshing && r.active == Some(attempt)
  }

  /** A write that may only ever follow an edge from the version it expects. */
  ghost predicate WriteOk(h: seq<Record>, w: Write) {
    w.expected < |h| && Edge(h[w.expected], w.replacement)
  }

  ghost predicate CallOk(h: seq<Record>, c: Call) {
    && c.version < |h|
    && h[c.version].state == Refreshing && h[c.version].active == Some(c.attempt)
    && h[c.version].generation == c.generation && h[c.version].secret == c.secret
  }

  ghost predicate BlockOk(to: RecordState, why: FailureCode) {
    || (to == BlockedAuth && why == RefreshRejected)
    || (to == BlockedAmbiguous && why in {RefreshOutcomeAmbiguous, RefreshResponseInvalid, StoreCommitAmbiguous})
  }

  ghost predicate PcOk(h: seq<Record>, pc: Pc) {
    match pc
    case Claiming(cur, a, _) => Held(h, cur) && cur.state == Ready && SafeAttemptId(a)
    case ClaimUnsure(cur, a, _) => Held(h, cur) && cur.state == Ready && SafeAttemptId(a)
    case Exchanging(cur, a, _) => Owned(h, cur, a)
    case Blocking(cur, a, to, why, _) => Owned(h, cur, a) && BlockOk(to, why)
    case BlockUnsure(cur, a, to, why, _) => Owned(h, cur, a) && BlockOk(to, why)
    case Committing(cur, a, ttl, grant, rotated) =>
      Owned(h, cur, a) && AcceptableReply(cur.binding, ttl, Answered(grant, rotated))
    case CommitUnsure(cur, a, ttl, grant, rotated) =>
      Owned(h, cur, a) && AcceptableReply(cur.binding, ttl, Answered(grant, rotated))
    case CommitLost(cur, a) => Owned(h, cur, a)
    case Recovering(cur, replacement) => Held(h, cur) && cur.state == BlockedAmbiguous && Edge(cur, replacement)
    case Revoking(cur) => Held(h, cur) && cur.state != Revoked
    case RevokeUnsure(_) => true
    case Done(Granted(grant, rotated, cur, a, ttl)) =>
      && Owned(h, cur, a) && AcceptableReply(cur.binding, ttl, Answered(grant, rotated))
      && Held(h, cur.Committed(a, rotated))
    case Done(Saved(r)) => Held(h, r)
    case Done(_) => true
  }

  ghost predicate Safe(s: System) {
    && HistoryOk(s.history)
    && (forall w :: w in s.flight ==> WriteOk(s.history, w))
    && (forall p :: p in s.procs ==> PcOk(s.history, s.procs[p]))
    && (forall k :: 0 <= k < |s.calls| ==> CallOk(s.history, s.calls[k]))
  }

  // ----- one step

  lemma HeldIsWellFormed(h: seq<Record>, r: Record)
    requires HistoryOk(h) && Held(h, r)
    ensures r.WellFormed() && (r.state == Ready ==> r.failure == None)
  {
    if r.version > 0 {
      assert Edge(h[r.version - 1], h[r.version]);
    }
  }

  /** Every swap a process submits follows an edge from the record it read. */
  lemma PendingWriteOk(h: seq<Record>, pc: Pc)
    requires HistoryOk(h) && PcOk(h, pc) && PendingWrite(pc).Some?
    ensures WriteOk(h, PendingWrite(pc).value)
    ensures PendingWrite(pc).value.replacement.version == PendingWrite(pc).value.expected + 1
  {
    match pc
    case Claiming(cur, _, _) => HeldIsWellFormed(h, cur);
    case Blocking(cur, _, _, _, _) => HeldIsWellFormed(h, cur);
    case Committing(cur, _, _, _, _) => HeldIsWellFormed(h, cur);
    case Recovering(cur, _) => HeldIsWellFormed(h, cur);
    case Revoking(cur) => HeldIsWellFormed(h, cur);
  }

  lemma HistoryGrows(h: seq<Record>, w: Write)
    requires HistoryOk(h) && WriteOk(h, w) && h[|h| - 1].version == w.expected
    ensures HistoryOk(h + [w.replacement])
  {
    var g := h + [w.replacement];
    forall i | 0 < i < |g| ensures Edge(g[i - 1], g[i]) {
      if i < |h| {
        assert Edge(h[i - 1], h[i]);
      }
    }
  }

  lemma ApplySafe(s: System, w: Write)
    requires Safe(s) && WriteOk(s.history, w)
    ensures Safe(Apply(s, w)) && s.history <= Apply(s, w).history
  {
    var t := Apply(s, w);
    if s.Current().version == w.expected {
      HistoryGrows(s.history, w);
    }
    forall p | p in t.procs ensures PcOk(t.history, t.procs[p]) {
      PcStaysOk(s.history, t.history, s.procs[p]);
    }
  }

  /** What a process relies on stays true however far the record moves on. */
  lemma PcStaysOk(h: seq<Record>, g: seq<Record>, pc: Pc)
    requires h <= g && PcOk(h, pc)
    ensures PcOk(g, pc)
  {
  }

  lemma SubmitSafe(s: System, w: Write, outcome: CasOutcome)
    requires Safe(s) && WriteOk(s.history, w) && Submit(s, w, outcome).Some?
    ensures var t := Submit(s, w, outcome).value;
            Safe(t) && s.history <= t.history && t.procs == s.procs && t.calls == s.calls
  {
    ApplySafe(s, w);
  }

  /** An acknowledged swap puts the replacement in the history at its own version. */
  lemma AfterSwapOk(s: System, pc: Pc, outcome: CasOutcome)
    requires Safe(s) && PcOk(s.history, pc) && PendingWrite(pc).Some?
    requires Submit(s, PendingWrite(pc).value, outcome).Some?
    ensures PcOk(Submit(s, PendingWrite(pc).value, outcome).value.history, AfterSwap(pc, outcome))
  {
    var w := PendingWrite(pc).value;
    PendingWriteOk(s.history, pc);
    SubmitSafe(s, w, outcome);
    var t := Submit(s, w, outcome).value;
    if outcome == Acknowledged {
      assert t.history == s.history + [w.replacement];
      assert Held(t.history, w.replacement);
    }
    PcStaysOk(s.history, t.history, pc);
  }

  /** Reading back a commit: only the reader's own commit can look like it. */
  lemma AfterReadOk(h: seq<Record>, pc: Pc)
    requires HistoryOk(h) && PcOk(h, pc)
    requires Unsure(pc)
    ensures PcOk(h, AfterRead(pc, h[|h| - 1]))
  {
    var seen := h[|h| - 1];
    assert Held(h, seen);
    match pc
    case CommitUnsure(cur, a, _, grant, rotated) =>
      if seen.version == cur.version + 1 && seen.state == Ready {
        assert Edge(h[cur.version], h[cur.version + 1]);
        if seen.secret == Some(rotated) && seen.last == Some(a) {
          assert seen == cur.Committed(a, rotated);
        }
      }
    case _ =>
  }

  /** Moving one process to a place it may be keeps the system safe. */
  lemma MoveSafe(s: System, pid: Pid, pc: Pc)
    requires Safe(s) && PcOk(s.history, pc)
    ensures Safe(s.(procs := s.procs[pid := pc]))
  {
  }

  lemma OpenOk(h: seq<Record>, e: Event)
    requires HistoryOk(h)
    ensures e.BeginRefresh? ==> PcOk(h, OpenRefresh(h[|h| - 1], e.attempt, e.ttl))
    ensures e.BeginRecovery? && (e.rotated.Some? ==> NonBlank(e.rotated.value)) ==>
              PcOk(h, OpenRecovery(h[|h| - 1], e.expected, e.attempt, e.rotated))
    ensures e.BeginRevoke? ==> PcOk(h, OpenRevoke(h[|h| - 1]))
  {
    assert Held(h, h[|h| - 1]);
    HeldIsWellFormed(h, h[|h| - 1]);
  }

  lemma EnterSafe(s: System, pid: Pid, readable: bool, first: Pc)
    requires Safe(s) && PcOk(s.history, first)
    ensures Safe(Enter(s, pid, readable, first)) && Enter(s, pid, readable, first).history == s.history
  {
    MoveSafe(s, pid, if readable then first else UNREADABLE);
  }

  lemma SwapSafe(s: System, pid: Pid, outcome: CasOutcome)
    requires Safe(s) && pid in s.procs && PendingWrite(s.procs[pid]).Some?
    requires Submit(s, PendingWrite(s.procs[pid]).value, outcome).Some?
    ensures Safe(Next(s, Swap(pid, outcome))) && s.history <= Next(s, Swap(pid, outcome)).history
  {
    var pc := s.procs[pid];
    PendingWriteOk(s.history, pc);
    SubmitSafe(s, PendingWrite(pc).value, outcome);
    AfterSwapOk(s, pc, outcome);
    MoveSafe(Submit(s, PendingWrite(pc).value, outcome).value, pid, AfterSwap(pc, outcome));
  }

  lemma ExchangeSafe(s: System, pid: Pid, reply: Reply)
    requires Safe(s) && pid in s.procs && s.procs[pid].Exchanging?
    ensures Safe(Next(s, Exchange(pid, reply))) && Next(s, Exchange(pid, reply)).history == s.history
  {
    var Exchanging(claimed, a, ttl) := s.procs[pid];
    assert PcOk(s.history, s.procs[pid]);
    MoveSafe(s, pid, AfterExchange(claimed.binding, claimed, a, ttl, reply));
  }

  /** Every event keeps the system safe, and the history only ever gets longer. */
  lemma NextSafe(s: System, e: Event)
    requires Safe(s)
    ensures Safe(Next(s, e)) && s.history <= Next(s, e).history
  {
    OpenOk(s.history, e);
    match e
    case BeginRefresh(pid, a, ttl, readable) => EnterSafe(s, pid, readable, OpenRefresh(s.Current(), a, ttl));
    case BeginRecovery(pid, expected, a, rotated, readable) =>
      if SafeAttemptId(a) && (rotated.Some? ==> NonBlank(rotated.value)) {
        EnterSafe(s, pid, readable, OpenRecovery(s.Current(), expected, a, rotated));
      }
    case BeginRevoke(pid, readable) => EnterSafe(s, pid, readable, OpenRevoke(s.Current()));
    case Swap(pid, outcome) =>
      if pid in s.procs && PendingWrite(s.procs[pid]).Some? && Submit(s, PendingWrite(s.procs[pid]).value, outcome).Some? {
        SwapSafe(s, pid, outcome);
      }
    case Read(pid, readable) =>
      if pid in s.procs && Unsure(s.procs[pid]) {
        AfterReadOk(s.history, s.procs[pid]);
        MoveSafe(s, pid, if readable then AfterRead(s.procs[pid], s.Current()) else UNREADABLE);
      }
    case Exchange(pid, reply) =>
      if pid in s.procs && s.procs[pid].Exchanging? {
        ExchangeSafe(s, pid, reply);
      }
    case Die(pid) => MoveSafe(s, pid, Done(Dead));
    case Land(w) =>
      if w in s.flight {
        ApplySafe(s, w);
      }
  }

  // ----- whole runs

  lemma StartSafe(binding: Binding, secret: string)
    requires NonBlank(secret)
    ensures Safe(Start(binding, secret))
  {
  }

  /** The invariant over every run. */
  lemma {:induction false} RunSafe(s: System, events: seq<Event>)
    requires Safe(s)
    ensures Safe(Run(s, events)) && s.history <= Run(s, events).history
    decreases |events|
  {
    if events != [] {
      RunSafe(s, events[..|events| - 1]);
      NextSafe(Run(s, events[..|events| - 1]), events[|events| - 1]);
    }
  }

  lemma {:induction false} RunConcat(s: System, first: seq<Event>, more: seq<Event>)
    requires s.history != []
    ensures Run(s, first + more) == Run(Run(s, first), more)
    decreases |more|
  {
    if more == [] {
      assert first + more == first;
    } else {
      var k := |more| - 1;
      assert (first + more)[..|first + more| - 1] == first + more[..k];
      RunConcat(s, first, more[..k]);
    }
  }

  /**
   In every run each version number has held exactly one record, whatever happened later,
   and successive records follow the edges.
   */
  lemma VersionsNeverChange(binding: Binding, secret: string, first: seq<Event>, more: seq<Event>)
    requires NonBlank(secret)
    ensures var early := Run(Start(binding, secret), first).history;
            var late := Run(Start(binding, secret), first + more).history;
            && early <= late
            && (forall v :: 0 <= v < |late| ==> late[v].version == v && late[v].WellFormed())
            && (forall v :: 0 < v < |late| ==> Edge(late[v - 1], late[v]))
  {
    var s := Start(binding, secret);
    StartSafe(binding, secret);
    RunSafe(s, first);
    RunConcat(s, first, more);
    RunSafe(Run(s, first), more);
    RunSafe(s, first + more);
    var late := Run(s, first + more).history;
    forall v | 0 <= v < |late| ensures late[v].WellFormed() {
      HeldIsWellFormed(late, late[v]);
    }
  }

  lemma RevokedIsLast(h: seq<Record>)
    requires HistoryOk(h)
    ensures forall i :: 0 <= i < |h| - 1 ==> h[i].state != Revoked
  {
    forall i | 0 <= i < |h| - 1 ensures h[i].state != Revoked {
      assert Edge(h[i], h[i + 1]) by {
        var k := i + 1;
        assert Edge(h[k - 1], h[k]);
      }
    }
  }

  /** Once revoked, the record never changes again and no longer holds a secret. */
  lemma RevokedIsFinal(binding: Binding, secret: string, first: seq<Event>, more: seq<Event>)
    requires NonBlank(secret)
    requires Run(Start(binding, secret), first).Current().state == Revoked
    ensures Run(Start(binding, secret), first + more).history == Run(Start(binding, secret), first).history
    ensures Run(Start(binding, secret), first).Current().secret == None
  {
    VersionsNeverChange(binding, secret, first, more);
    var early := Run(Start(binding, secret), first).history;
    var late := Run(Start(binding, secret), first + more).history;
    RunSafe(Start(binding, secret), first + more);
    RevokedIsLast(late);
    HeldIsWellFormed(late, early[|early| - 1]);
  }

  lemma GrantHeld(s: System, pid: Pid)
    requires Safe(s) && pid in s.procs && s.procs[pid].Done? && s.procs[pid].outcome.Granted?
    ensures var Granted(grant, rotated, claimed, attempt, ttl) := s.procs[pid].outcome;
            && claimed.version + 1 < |s.history|
            && s.history[claimed.version] == claimed
            && claimed.state == Refreshing && claimed.active == Some(attempt)
            && s.history[claimed.version + 1] == claimed.Committed(attempt, rotated)
            && claimed.binding == s.history[0].binding
            && AcceptableReply(claimed.binding, ttl, Answered(grant, rotated))
  {
    var Granted(grant, rotated, claimed, attempt, ttl) := s.procs[pid].outcome;
    assert PcOk(s.history, s.procs[pid]);
    assert Held(s.history, claimed);
  }

  /**
   A returned grant is backed by the store: right after the record it claimed, the history
   holds its own ready record with the rotated secret on the next generation, and the grant
   has the bound identity, scope and at least the requested lifetime.
   */
  lemma GrantIsDurable(binding: Binding, secret: string, events: seq<Event>, pid: Pid)
    requires NonBlank(secret)
    requires var s := Run(Start(binding, secret), events);
             pid in s.procs && s.procs[pid].Done? && s.procs[pid].outcome.Granted?
    ensures var s := Run(Start(binding, secret), events);
            var Granted(grant, rotated, claimed, attempt, ttl) := s.procs[pid].outcome;
            && claimed.version + 1 < |s.history|
            && s.history[claimed.version] == claimed
            && claimed.state == Refreshing && claimed.active == Some(attempt)
            && s.history[claimed.version + 1] == claimed.Committed(attempt, rotated)
            && claimed.binding == binding && AcceptableReply(binding, ttl, Answered(grant, rotated))
  {
    StartSafe(binding, secret);
    RunSafe(Start(binding, secret), events);
    GrantHeld(Run(Start(binding, secret), events), pid);
  }
}
