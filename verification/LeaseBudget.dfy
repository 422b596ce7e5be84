/**
 What the checkpoints on the leased store add up to: however many workers come and go, the calls
 of a step stay within the attempts its specification allows for each time an operator gave them
 back, and a completed task has every step done.
 */
module LeaseBudget {
  import opened CredentialIdentity
  import opened LeaseProtocol
  import opened LeaseSafety

  ghost predicate Called(s: System, step: Step) {
    exists k :: 0 <= k < |s.invoked| && s.invoked[k].change == Attempt(step)
  }

  /** A lease of the row's revision carries the row's progress. */
  ghost predicate Current(server: Server, lease: Lease) {
    lease.revision <= server.revision && (lease.revision == server.revision ==> lease.progress == server.progress)
  }

  /** A save as a runner sends it, whatever has happened since. */
  ghost predicate SaveRight(s: System, save: Save) {
    && Current(s.server, save.lease)
    && (save.change.Attempt? ==> Count(save.lease.progress.attempts, save.change.step) < Count(s.limits, save.change.step))
    && (save.change.Complete? ==> Called(s, save.change.step))
    && (save.status == Completed ==>
          save.change.NoChange? && forall step :: step in s.limits ==> step in save.lease.progress.completed)
  }

  ghost predicate PcRight(s: System, pc: Pc) {
    match pc
    case Holding(lease) => Current(s.server, lease)
    case Waiting(save) => SaveRight(s, save)
    case MayInvoke(save) => save.change.Attempt? && Current(s.server, Renewed(save))
    case Out => true
  }

  /** The row's attempts are within the limits and, with the attempts given back, cover the saved ones. */
  ghost predicate StepWithin(s: System, step: Step) {
    && Count(s.server.progress.attempts, step) <= Count(s.limits, step)
    && Attempts(s.accepted, step)
       <= Count(s.server.progress.attempts, step) + Count(s.limits, step) * Count(s.server.resets, step)
  }

  /** A completed step was called, or the operator said it was applied and verified. */
  ghost predicate StepDone(s: System, step: Step) {
    step in s.server.progress.completed && (Called(s, step) || step in s.server.applied)
  }

  ghost predicate RowRight(s: System) {
    && (forall step :: StepWithin(s, step))
    && (forall step :: step in s.server.progress.completed ==> StepDone(s, step))
    && (s.server.status == Completed ==> forall step :: step in s.limits ==> step in s.server.progress.completed)
  }

  ghost predicate HoldersRight(s: System) {
    && (forall save :: save in s.flight ==> SaveRight(s, save))
    && (forall save :: save in s.answered ==> Current(s.server, Renewed(save)))
    && (forall pid :: pid in s.procs ==> PcRight(s, s.procs[pid]))
  }

  ghost predicate Budgeted(s: System) {
    RowRight(s) && HoldersRight(s)
  }

  // ----- one event

  lemma MoveRight(s: System, pid: Pid, pc: Pc)
    requires Budgeted(s) && PcRight(s, pc)
    ensures Budgeted(s.(procs := s.procs[pid := pc]))
  {
    var t := s.(procs := s.procs[pid := pc]);
    assert forall step :: StepWithin(s, step) ==> StepWithin(t, step);
    assert forall step :: StepDone(s, step) ==> StepDone(t, step);
    assert forall save :: SaveRight(s, save) ==> SaveRight(t, save);
    assert forall p :: PcRight(s, p) ==> PcRight(t, p);
  }

  /** A row on a higher revision leaves no older lease current. */
  lemma NewRow(s: System, t: System)
    requires HoldersRight(s) && t.server.revision > s.server.revision && t.limits == s.limits
    requires t.flight <= s.flight && t.answered == s.answered && t.procs == s.procs && t.invoked == s.invoked
    ensures HoldersRight(t)
  {
    forall save | SaveRight(s, save) ensures SaveRight(t, save) {
    }
  }

  lemma ClaimRight(s: System, e: Event)
    requires Budgeted(s) && e.Claim?
    ensures Budgeted(Next(s, e))
  {
    var t := Next(s, e);
    if t != s {
      var grown := s.(server := t.server, claims := t.claims);
      NewRow(s, grown);
      assert forall step :: StepWithin(s, step) ==> StepWithin(grown, step);
      assert forall step :: StepDone(s, step) ==> StepDone(grown, step);
      MoveRight(grown, e.pid, t.procs[e.pid]);
      assert t == grown.(procs := grown.procs[e.pid := t.procs[e.pid]]);
    }
  }

  lemma SendRight(s: System, e: Event)
    requires Budgeted(s) && e.Send?
    ensures Budgeted(Next(s, e))
  {
    var t := Next(s, e);
    if t != s {
      var save := t.procs[e.pid].save;
      assert PcRight(s, s.procs[e.pid]);
      assert SaveRight(s, save);
      MoveRight(s, e.pid, Waiting(save));
      var moved := s.(procs := s.procs[e.pid := Waiting(save)]);
      assert t == moved.(flight := moved.flight + {save});
      FlightRight(moved, save);
    }
  }

  lemma FlightRight(s: System, save: Save)
    requires Budgeted(s) && SaveRight(s, save)
    ensures Budgeted(s.(flight := s.flight + {save}))
  {
    var t := s.(flight := s.flight + {save});
    assert forall step :: StepWithin(s, step) ==> StepWithin(t, step);
    assert forall step :: StepDone(s, step) ==> StepDone(t, step);
    assert forall w :: SaveRight(s, w) ==> SaveRight(t, w);
    assert forall p :: PcRight(s, p) ==> PcRight(t, p);
  }

  lemma AcceptWithin(s: System, t: System, save: Save, step: Step)
    requires StepWithin(s, step) && SaveRight(s, save) && save.lease.progress == s.server.progress
    requires t.limits == s.limits && t.server.resets == s.server.resets && t.accepted == s.accepted + [save]
    requires t.server.progress == Changed(save.lease.progress, save.change)
    ensures StepWithin(t, step)
  {
    assert t.accepted[..|s.accepted|] == s.accepted;
  }

  lemma AcceptDone(s: System, t: System, save: Save, step: Step)
    requires forall done :: done in s.server.progress.completed ==> StepDone(s, done)
    requires SaveRight(s, save) && save.lease.progress == s.server.progress
    requires t.server.applied == s.server.applied && t.invoked == s.invoked
    requires t.server.progress == Changed(save.lease.progress, save.change)
    requires step in t.server.progress.completed
    ensures StepDone(t, step)
  {
    if step in s.server.progress.completed {
      assert StepDone(s, step);
    }
  }

  lemma AcceptRight(s: System, save: Save)
    requires Budgeted(s) && save in s.flight && Fences(s.server, save.lease)
    ensures Budgeted(Next(s, Arrive(save)))
  {
    var t := Next(s, Arrive(save));
    assert SaveRight(s, save);
    forall step ensures StepWithin(t, step) {
      AcceptWithin(s, t, save, step);
    }
    forall step | step in t.server.progress.completed ensures StepDone(t, step) {
      AcceptDone(s, t, save, step);
    }
    NewRow(s, t.(answered := s.answered));
    forall w | w in t.answered ensures Current(t.server, Renewed(w)) {
      assert w == save || w in s.answered;
    }
    AnsweredRight(t.(answered := s.answered), t);
  }

  lemma AnsweredRight(s: System, t: System)
    requires HoldersRight(s) && t == s.(answered := t.answered)
    requires forall save :: save in t.answered ==> Current(t.server, Renewed(save))
    ensures HoldersRight(t)
  {
    assert forall w :: SaveRight(s, w) ==> SaveRight(t, w);
    assert forall p :: PcRight(s, p) ==> PcRight(t, p);
  }

  lemma DropFlight(s: System, save: Save)
    requires Budgeted(s)
    ensures Budgeted(s.(flight := s.flight - {save}))
  {
    var t := s.(flight := s.flight - {save});
    assert forall step :: StepWithin(s, step) ==> StepWithin(t, step);
    assert forall step :: StepDone(s, step) ==> StepDone(t, step);
    assert forall w :: SaveRight(s, w) ==> SaveRight(t, w);
    assert forall p :: PcRight(s, p) ==> PcRight(t, p);
  }

  lemma AnswerRight(s: System, e: Event)
    requires Budgeted(s) && e.Answer?
    ensures Budgeted(Next(s, e))
  {
    var t := Next(s, e);
    if t != s {
      var save := s.procs[e.pid].save;
      MoveRight(s, e.pid, t.procs[e.pid]);
      var moved := s.(procs := t.procs);
      AnsweredRight(moved, t);
      assert forall step :: StepWithin(moved, step) ==> StepWithin(t, step);
      assert forall step :: StepDone(moved, step) ==> StepDone(t, step);
    }
  }

  lemma InvokeRight(s: System, e: Event)
    requires Budgeted(s) && e.Invoke?
    ensures Budgeted(Next(s, e))
  {
    var t := Next(s, e);
    if t != s {
      assert PcRight(s, s.procs[e.pid]);
      MoveRight(s, e.pid, t.procs[e.pid]);
      var moved := s.(procs := t.procs);
      MoreCalled(moved, t);
    }
  }

  lemma MoreCalled(s: System, t: System)
    requires Budgeted(s) && s.invoked <= t.invoked && t == s.(invoked := t.invoked)
    ensures Budgeted(t)
  {
    forall step | Called(s, step) ensures Called(t, step) {
      var k :| 0 <= k < |s.invoked| && s.invoked[k].change == Attempt(step);
      assert t.invoked[k].change == Attempt(step);
    }
    assert forall step :: StepWithin(s, step) ==> StepWithin(t, step);
    assert forall step :: StepDone(s, step) ==> StepDone(t, step);
    assert forall w :: SaveRight(s, w) ==> SaveRight(t, w);
    assert forall p :: PcRight(s, p) ==> PcRight(t, p);
  }

  /** Giving the attempts back is paid for by the record of it. */
  lemma DecidedWithin(s: System, t: System, decision: Decision, step: Step)
    requires StepWithin(s, step) && t.limits == s.limits && t.accepted == s.accepted
    requires t.server.progress == Decided(s.server, decision).progress && t.server.resets == Decided(s.server, decision).resets
    ensures StepWithin(t, step)
  {
    var limit, r := Count(s.limits, step), Count(s.server.resets, step);
    assert limit * (r + 1) == limit + limit * r;
  }

  lemma RequeueRight(s: System, e: Event)
    requires Budgeted(s) && e.Requeue?
    ensures Budgeted(Next(s, e))
  {
    var t := Next(s, e);
    if t != s {
      NewRow(s, t);
      forall step ensures StepWithin(t, step) {
        DecidedWithin(s, t, e.decision, step);
      }
      forall step | step in t.server.progress.completed ensures StepDone(t, step) {
        if step in s.server.progress.completed {
          assert StepDone(s, step);
        }
      }
    }
  }

  lemma ReconcileRight(s: System, e: Event)
    requires Budgeted(s) && (e.Reconcile? || e.Expire?)
    ensures Budgeted(Next(s, e))
  {
    var t := Next(s, e);
    assert forall step :: StepWithin(s, step) ==> StepWithin(t, step);
    assert forall step :: StepDone(s, step) ==> StepDone(t, step);
    if e.Reconcile? && t != s {
      NewRow(s, t);
    } else {
      assert forall w :: SaveRight(s, w) ==> SaveRight(t, w);
      assert forall p :: PcRight(s, p) ==> PcRight(t, p);
    }
  }

  lemma NextBudgeted(s: System, e: Event)
    requires Budgeted(s)
    ensures Budgeted(Next(s, e))
  {
    match e
    case Claim(_, _, _) => ClaimRight(s, e);
    case Send(_, _, _) => SendRight(s, e);
    case Arrive(save) =>
      if save in s.flight && Fences(s.server, save.lease) {
        AcceptRight(s, save);
      } else {
        DropFlight(s, save);
      }
    case Answer(_) => AnswerRight(s, e);
    case Refuse(pid) => MoveRight(s, pid, Out);
    case Invoke(_) => InvokeRight(s, e);
    case Expire => ReconcileRight(s, e);
    case Reconcile(_, _) => ReconcileRight(s, e);
    case Requeue(_) => RequeueRight(s, e);
    case Die(pid) => MoveRight(s, pid, Out);
  }

  // ----- every run

  lemma {:induction false} RunBudgeted(limits: map<Step, nat>, events: seq<Event>)
    ensures Budgeted(Run(Start(limits), events)) && Run(Start(limits), events).limits == limits
    decreases |events|
  {
    if events != [] {
      RunBudgeted(limits, events[..|events| - 1]);
      NextBudgeted(Run(Start(limits), events[..|events| - 1]), events[|events| - 1]);
    }
  }

  lemma CoveredWithin(s: System, step: Step)
    requires StepWithin(s, step) && Attempts(s.invoked, step) <= Attempts(s.accepted, step)
    ensures Attempts(s.invoked, step) <= Count(s.limits, step) * (1 + Count(s.server.resets, step))
  {
    var limit, r := Count(s.limits, step), Count(s.server.resets, step);
    assert limit * (1 + r) == limit + limit * r;
  }

  /**
   In every run on the leased store, calls of a step stay within the attempts its specification
   allows, once and once more for each time an operator recorded it as not applied.
   */
  lemma CallsWithinLimit(limits: map<Step, nat>, events: seq<Event>, step: Step)
    ensures var s := Run(Start(limits), events);
            Attempts(s.invoked, step) <= Count(limits, step) * (1 + Count(s.server.resets, step))
  {
    var s := Run(Start(limits), events);
    RunBudgeted(limits, events);
    CallsCovered(limits, events, step);
    CoveredWithin(s, step);
  }

  /** In every run a completed task has each step of its specification called, or decided as applied. */
  lemma CompletedMeansDone(limits: map<Step, nat>, events: seq<Event>, step: Step)
    requires Run(Start(limits), events).server.status == Completed && step in limits
    ensures StepDone(Run(Start(limits), events), step)
  {
    RunBudgeted(limits, events);
  }
}
