/** What fencing guarantees of every run: calls are covered by accepted saves, and old leases stay out. */
module LeaseSafety {
  import opened CredentialIdentity
  import opened LeaseProtocol

  /** The lease belongs to the process that claimed its generation. */
  ghost predicate LeaseOk(s: System, pid: Pid, lease: Lease) {
    1 <= lease.generation <= |s.claims| && s.claims[lease.generation - 1] == pid && lease.revision <= s.server.revision
  }

  ghost predicate SaveOk(s: System, save: Save) {
    LeaseOk(s, save.pid, save.lease) && (save.change.Attempt? ==> save.status == Running)
  }

  /** A save still to be answered or acted on has not been acted on. */
  ghost predicate Fresh(s: System, save: Save) {
    save in s.accepted && save !in s.invoked && save.lease.revision < s.server.revision
  }

  ghost predicate PcOk(s: System, pid: Pid, pc: Pc) {
    match pc
    case Holding(lease) => LeaseOk(s, pid, lease)
    case Waiting(save) => SaveOk(s, save) && save.pid == pid
    case MayInvoke(save) => SaveOk(s, save) && save.pid == pid && save.change.Attempt? && Fresh(s, save) && save !in s.answered
    case Out => true
  }

  /** Saves were accepted one revision after another, each by the process of its generation. */
  ghost predicate AcceptedOk(s: System) {
    && (forall i :: 0 <= i < |s.accepted| ==> SaveOk(s, s.accepted[i]) && s.accepted[i].lease.revision < s.server.revision)
    && (forall i, j :: 0 <= i < j < |s.accepted| ==>
          && s.accepted[i].lease.revision < s.accepted[j].lease.revision
          && s.accepted[i].lease.generation <= s.accepted[j].lease.generation)
  }

  ghost predicate InvokedOk(s: System) {
    && (forall i :: 0 <= i < |s.invoked| ==> s.invoked[i] in s.accepted && s.invoked[i].change.Attempt?)
    && (forall i, j :: 0 <= i < j < |s.invoked| ==> s.invoked[i] != s.invoked[j])
  }

  ghost predicate Safe(s: System) {
    && s.server.generation == |s.claims| && AcceptedOk(s) && InvokedOk(s)
    && (forall save :: save in s.flight ==> SaveOk(s, save))
    && (forall save :: save in s.answered ==> SaveOk(s, save) && Fresh(s, save))
    && (forall pid :: pid in s.procs ==> PcOk(s, pid, s.procs[pid]))
  }

  // ----- one step

  /** Facts about leases and saves survive when claims and revision only grow. */
  lemma GrowKeepsSafe(s: System, t: System)
    requires Safe(s) && s.claims <= t.claims && s.server.revision <= t.server.revision && t.server.generation == |t.claims|
    requires t.flight == s.flight && t.answered == s.answered && t.procs == s.procs
    requires t.accepted == s.accepted && t.invoked == s.invoked
    ensures Safe(t)
  {
  }

  /** Moving one process. */
  lemma MoveSafe(s: System, pid: Pid, pc: Pc)
    requires Safe(s) && PcOk(s, pid, pc)
    ensures Safe(s.(procs := s.procs[pid := pc]))
  {
  }

  lemma ClaimSafe(s: System, e: Event)
    requires Safe(s) && e.Claim?
    ensures Safe(Next(s, e))
  {
    var t := Next(s, e);
    if t != s {
      var grown := s.(server := t.server, claims := t.claims);
      GrowKeepsSafe(s, grown);
      MoveSafe(grown, e.pid, t.procs[e.pid]);
      assert t == grown.(procs := grown.procs[e.pid := t.procs[e.pid]]);
    }
  }

  lemma SendSafe(s: System, e: Event)
    requires Safe(s) && e.Send?
    ensures Safe(Next(s, e))
  {
    var t := Next(s, e);
    if t != s {
      var save := t.procs[e.pid].save;
      assert PcOk(s, e.pid, s.procs[e.pid]);
      MoveSafe(s, e.pid, Waiting(save));
    }
  }

  lemma AcceptSafe(s: System, save: Save)
    requires Safe(s) && save in s.flight && Fences(s.server, save.lease)
    ensures Safe(Next(s, Arrive(save)))
  {
    var t := Next(s, Arrive(save));
    assert save !in s.accepted;
    AcceptedGrows(s, t, save);
    forall w | w in t.answered ensures SaveOk(t, w) && Fresh(t, w) {
      if w == save {
        assert t.accepted[|s.accepted|] == save;
      } else {
        assert w in s.answered;
      }
    }
    forall pid | pid in t.procs ensures PcOk(t, pid, t.procs[pid]) {
      assert PcOk(s, pid, s.procs[pid]);
    }
  }

  lemma AcceptedGrows(s: System, t: System, save: Save)
    requires Safe(s) && SaveOk(s, save) && save.lease.revision == s.server.revision && save.lease.generation == s.server.generation
    requires t.accepted == s.accepted + [save] && t.invoked == s.invoked && t.claims == s.claims
    requires t.server.revision == s.server.revision + 1
    ensures AcceptedOk(t) && InvokedOk(t)
    ensures forall w :: w in s.accepted ==> w in t.accepted
  {
    forall w | w in s.accepted ensures w in t.accepted {
      var i :| 0 <= i < |s.accepted| && s.accepted[i] == w;
      assert t.accepted[i] == w;
    }
  }

  lemma ArriveSafe(s: System, e: Event)
    requires Safe(s) && e.Arrive?
    ensures Safe(Next(s, e))
  {
    if e.save in s.flight && Fences(s.server, e.save.lease) {
      AcceptSafe(s, e.save);
    }
  }

  lemma AnswerSafe(s: System, e: Event)
    requires Safe(s) && e.Answer?
    ensures Safe(Next(s, e))
  {
    var t := Next(s, e);
    if t != s {
      var rest := s.(answered := t.answered);
      assert PcOk(s, e.pid, s.procs[e.pid]);
      assert Safe(rest);
      MoveSafe(rest, e.pid, t.procs[e.pid]);
      assert t == rest.(procs := rest.procs[e.pid := t.procs[e.pid]]);
    }
  }

  lemma InvokeSafe(s: System, e: Event)
    requires Safe(s) && e.Invoke?
    ensures Safe(Next(s, e))
  {
    var t := Next(s, e);
    if t != s {
      var save := s.procs[e.pid].save;
      assert PcOk(s, e.pid, s.procs[e.pid]);
      forall pid | pid in t.procs ensures PcOk(t, pid, t.procs[pid]) {
        if pid != e.pid {
          assert PcOk(s, pid, s.procs[pid]);
        }
      }
    }
  }

  lemma NextSafe(s: System, e: Event)
    requires Safe(s)
    ensures Safe(Next(s, e))
  {
    match e
    case Claim(_, _, _) => ClaimSafe(s, e);
    case Send(_, _, _) => SendSafe(s, e);
    case Arrive(_) => ArriveSafe(s, e);
    case Answer(_) => AnswerSafe(s, e);
    case Refuse(pid) => MoveSafe(s, pid, Out);
    case Invoke(_) => InvokeSafe(s, e);
    case Expire => GrowKeepsSafe(s, Next(s, e));
    case Reconcile(_, _) => GrowKeepsSafe(s, Next(s, e));
    case Requeue(_) => GrowKeepsSafe(s, Next(s, e));
    case Die(pid) => MoveSafe(s, pid, Out);
  }

  // ----- every run

  lemma {:induction false} RunSafe(s: System, events: seq<Event>)
    requires Safe(s)
    ensures Safe(Run(s, events))
    decreases |events|
  {
    if events != [] {
      RunSafe(s, events[..|events| - 1]);
      NextSafe(Run(s, events[..|events| - 1]), events[|events| - 1]);
    }
  }

  ghost function Attempts(saves: seq<Save>, step: Step): nat {
    if saves == [] then 0
    else Attempts(saves[..|saves| - 1], step) + (if saves[|saves| - 1].change == Attempt(step) then 1 else 0)
  }

  ghost function AttemptSet(saves: seq<Save>, step: Step): set<Save> {
    set save | save in saves && save.change == Attempt(step)
  }

  lemma {:induction false} AttemptsCount(saves: seq<Save>, step: Step)
    requires forall i, j :: 0 <= i < j < |saves| ==> saves[i] != saves[j]
    ensures Attempts(saves, step) == |AttemptSet(saves, step)|
    decreases |saves|
  {
    if saves == [] {
      assert AttemptSet(saves, step) == {};
    } else {
      var n := |saves| - 1;
      AttemptsCount(saves[..n], step);
      assert saves == saves[..n] + [saves[n]];
      assert saves[n] !in saves[..n];
      assert AttemptSet(saves, step)
          == AttemptSet(saves[..n], step) + (if saves[n].change == Attempt(step) then {saves[n]} else {});
    }
  }

  lemma FewerInSubset(a: set<Save>, b: set<Save>)
    requires a <= b
    ensures |a| <= |b|
  {
    assert b == a + (b - a);
  }

  lemma SafeCovers(s: System, step: Step)
    requires Safe(s)
    ensures Attempts(s.invoked, step) <= Attempts(s.accepted, step)
  {
    forall i, j | 0 <= i < j < |s.accepted| ensures s.accepted[i] != s.accepted[j] {
      assert s.accepted[i].lease.revision < s.accepted[j].lease.revision;
    }
    AttemptsCount(s.invoked, step);
    AttemptsCount(s.accepted, step);
    FewerInSubset(AttemptSet(s.invoked, step), AttemptSet(s.accepted, step));
  }

  /**
   In every run, with any number of workers, delayed requests, lost answers and deaths, the
   action of a step is called at most once for each accepted save of an attempt of it.
   */
  lemma CallsCovered(limits: map<Step, nat>, events: seq<Event>, step: Step)
    ensures Attempts(Run(Start(limits), events).invoked, step) <= Attempts(Run(Start(limits), events).accepted, step)
  {
    RunSafe(Start(limits), events);
    SafeCovers(Run(Start(limits), events), step);
  }

  /** All saves accepted in one generation come from the one process that claimed it. */
  lemma OneWriterPerGeneration(limits: map<Step, nat>, events: seq<Event>, i: nat, j: nat)
    requires var accepted := Run(Start(limits), events).accepted;
             i < |accepted| && j < |accepted| && accepted[i].lease.generation == accepted[j].lease.generation
    ensures var accepted := Run(Start(limits), events).accepted;
            accepted[i].pid == accepted[j].pid && (i < j ==> accepted[i].lease.revision < accepted[j].lease.revision)
  {
    RunSafe(Start(limits), events);
  }

  // ----- fencing

  /** From here on nothing of generation `g` or before is accepted. */
  ghost predicate FencedOff(s: System, g: nat) {
    s.server.generation > g || (s.server.generation == g && s.server.status != Running)
  }

  lemma StaysFencedOff(s: System, e: Event, g: nat)
    requires FencedOff(s, g)
    ensures FencedOff(Next(s, e), g) && s.accepted <= Next(s, e).accepted
    ensures forall i :: |s.accepted| <= i < |Next(s, e).accepted| ==> Next(s, e).accepted[i].lease.generation > g
  {
  }

  ghost predicate OnlyNewer(before: seq<Save>, after: seq<Save>, g: nat) {
    before <= after && forall i :: |before| <= i < |after| ==> after[i].lease.generation > g
  }

  lemma {:induction false} FencedRun(s: System, g: nat, events: seq<Event>)
    requires FencedOff(s, g)
    ensures FencedOff(Run(s, events), g) && OnlyNewer(s.accepted, Run(s, events).accepted, g)
    decreases |events|
  {
    if events != [] {
      FencedRun(s, g, events[..|events| - 1]);
      StaysFencedOff(Run(s, events[..|events| - 1]), events[|events| - 1], g);
    }
  }

  lemma {:induction false} RunConcat(s: System, early: seq<Event>, late: seq<Event>)
    ensures Run(s, early + late) == Run(Run(s, early), late)
    decreases |late|
  {
    if late == [] {
      assert early + late == early;
    } else {
      RunConcat(s, early, late[..|late| - 1]);
      assert (early + late)[..|early + late| - 1] == early + late[..|late| - 1];
    }
  }

  /** Once an expired lease has been reconciled, no save of that lease or an older one is ever accepted. */
  lemma ReconciledLeaseIsFenced(limits: map<Step, nat>, early: seq<Event>, revision: nat, generation: nat, late: seq<Event>)
    requires Next(Run(Start(limits), early), Reconcile(revision, generation)) != Run(Start(limits), early)
    ensures var before := Run(Start(limits), early).accepted;
            OnlyNewer(before, Run(Start(limits), early + [Reconcile(revision, generation)] + late).accepted, generation)
  {
    var s := Run(Start(limits), early);
    var e := Reconcile(revision, generation);
    assert (early + [e])[..|early + [e]| - 1] == early;
    assert Run(Start(limits), early + [e]) == Next(s, e);
    FencedRun(Next(s, e), generation, late);
    RunConcat(Start(limits), early + [e], late);
  }
}
