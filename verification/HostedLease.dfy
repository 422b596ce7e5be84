/**
 The worker's side of the lease: a state store that replaces its lease on every save, the retry
 loop that saves an attempt before it calls the action, and one turn of the read-only worker from
 its claim to the release of the lease. Each method is proved to walk along the events of the
 lease protocol.
 */
module HostedLease {
  import opened CredentialIdentity
  import opened LeaseProtocol
  import opened LeaseSafety
  import TaskModel

  type StepSpec = TaskModel.StepSpec
  type ActionResult = TaskModel.ActionResult
  type VerifyResult = TaskModel.VerifyResult
  type Evidence = TaskModel.Evidence
  type TaskSpec = TaskModel.TaskSpec

  /** The attempts the specification allows each step. */
  function Limits(steps: seq<StepSpec>): map<Step, nat> {
    if steps == [] then map[]
    else
      var last := steps[|steps| - 1];
      Limits(steps[..|steps| - 1])[last.id := if last.maxAttempts < 0 then 0 else last.maxAttempts]
  }

  lemma {:induction false} LimitsMean(steps: seq<StepSpec>)
    requires forall i, j :: 0 <= i < j < |steps| ==> steps[i].id != steps[j].id
    ensures forall step :: step in Limits(steps) ==> exists i :: 0 <= i < |steps| && steps[i].id == step
    ensures forall i :: 0 <= i < |steps| && steps[i].maxAttempts >= 0 ==>
              Count(Limits(steps), steps[i].id) == steps[i].maxAttempts
    decreases |steps|
  {
    if steps != [] {
      var n := |steps| - 1;
      LimitsMean(steps[..n]);
      assert forall i :: 0 <= i < n ==> steps[..n][i] == steps[i];
    }
  }

  /** The steps whose action the process has called, in order. */
  function CallsBy(saves: seq<Save>, pid: Pid): seq<Step> {
    if saves == [] then []
    else
      var last := saves[|saves| - 1];
      CallsBy(saves[..|saves| - 1], pid) + (if last.pid == pid && last.change.Attempt? then [last.change.step] else [])
  }

  lemma CallsOneMore(saves: seq<Save>, save: Save, pid: Pid)
    ensures CallsBy(saves + [save], pid)
         == CallsBy(saves, pid) + (if save.pid == pid && save.change.Attempt? then [save.change.step] else [])
  {
    assert (saves + [save])[..|saves|] == saves;
  }

  lemma {:induction false} CallsShow(s: System, saves: seq<Save>, pid: Pid, step: Step)
    requires saves <= s.invoked && step in CallsBy(saves, pid)
    ensures HasCalled(s, pid, step)
    decreases |saves|
  {
    var n := |saves| - 1;
    if saves[n].pid == pid && saves[n].change == Attempt(step) {
      assert s.invoked[n] == saves[n];
    } else {
      CallsShow(s, saves[..n], pid, step);
    }
  }

  predicate Concerns(e: Event, pid: Pid) {
    match e
    case Claim(p, _, _) => p == pid
    case Send(p, _, _) => p == pid
    case Answer(p) => p == pid
    case Refuse(p) => p == pid
    case Invoke(p) => p == pid
    case Die(p) => p == pid
    case _ => false
  }

  lemma OthersLeaveAlone(s: System, e: Event, pid: Pid)
    requires Safe(s) && !Concerns(e, pid)
    ensures pid in Next(s, e).procs <==> pid in s.procs
    ensures pid in s.procs ==> Next(s, e).procs[pid] == s.procs[pid]
    ensures s.accepted <= Next(s, e).accepted && CallsBy(Next(s, e).invoked, pid) == CallsBy(s.invoked, pid)
  {
    if e.Invoke? && e.pid in s.procs && s.procs[e.pid].MayInvoke? {
      assert PcOk(s, e.pid, s.procs[e.pid]);
      CallsOneMore(s.invoked, s.procs[e.pid].save, pid);
    }
  }

  lemma NextKeepsLimits(s: System, e: Event)
    ensures Next(s, e).limits == s.limits
  {
  }

  lemma RunOneMore(limits: map<Step, nat>, events: seq<Event>, e: Event)
    ensures Run(Start(limits), events + [e]) == Next(Run(Start(limits), events), e)
  {
    assert (events + [e])[..|events + [e]| - 1] == events;
  }

  /** The task's queue row and everyone who uses it. */
  class Queue {
    const spec: TaskSpec
    ghost var trace: seq<Event>
    var system: System

    /** How the actions called here ended, one after another, and what each step's last call and verifier came to;
        written only where an action or a verifier is called. */
    ghost var ends: seq<(Step, ActionResult)>
    ghost var evidence: Evidence
    /** A save was not answered, or an exception escaped. */
    ghost var cut: bool

    ghost predicate Valid()
      reads this
    {
      spec.Valid() && system == Run(Start(Limits(spec.steps)), trace) && system.limits == Limits(spec.steps)
    }

    ghost predicate At(pid: Pid, pc: Pc)
      reads this
    {
      pid in system.procs && system.procs[pid] == pc
    }

    ghost function Calls(pid: Pid): seq<Step>
      reads this
    {
      CallsBy(system.invoked, pid)
    }

    constructor (spec: TaskSpec)
      requires spec.Valid()
      ensures this.spec == spec && Valid() && trace == [] && ends == [] && !cut
    {
      this.spec := spec;
      ends, evidence, cut := [], TaskModel.NO_EVIDENCE, false;
      system, trace := Start(Limits(spec.steps)), [];
    }

    method Happen(e: Event)
      requires Valid()
      modifies this`trace, this`system
      ensures Valid() && trace == old(trace) + [e] && system == Next(old(system), e)
    {
      RunOneMore(Limits(spec.steps), trace, e);
      NextKeepsLimits(system, e);
      system := Next(system, e);
      trace := trace + [e];
    }

    /** Any number of steps of the server, of operators and of other workers. */
    method Interference(pid: Pid)
      requires Valid()
      modifies this`trace, this`system
      ensures Valid() && old(trace) <= trace && old(system).accepted <= system.accepted
      ensures pid in system.procs <==> pid in old(system).procs
      ensures pid in system.procs ==> system.procs[pid] == old(system).procs[pid]
      ensures Calls(pid) == old(Calls(pid))
    {
      var steps: seq<Event> := *;
      for i := 0 to |steps|
        invariant Valid() && old(trace) <= trace && old(system).accepted <= system.accepted
        invariant pid in system.procs <==> pid in old(system).procs
        invariant pid in system.procs ==> system.procs[pid] == old(system).procs[pid]
        invariant Calls(pid) == old(Calls(pid))
      {
        if !Concerns(steps[i], pid) {
          RunSafe(Start(Limits(spec.steps)), trace);
          OthersLeaveAlone(system, steps[i], pid);
          Happen(steps[i]);
        }
      }
    }

    /** `claim`: a lease, or nothing to do, or an answer that never came. */
    method TryClaim(pid: Pid, worker: string) returns (lease: Option<Lease>)
      requires Valid() && pid !in system.procs
      modifies this`trace, this`system, this`cut
      ensures Valid() && old(trace) <= trace && Calls(pid) == old(Calls(pid))
      ensures lease.Some? ==> At(pid, Holding(lease.value)) && lease.value.worker == worker && cut == old(cut)
      ensures lease.None? ==> cut || system.server.status != Queued
    {
      Interference(pid);
      if system.server.status != Queued {
        return None;
      }
      var delivered: bool := *;
      Happen(Claim(pid, worker, delivered));
      if !delivered {
        cut := true;
        return None;
      }
      lease := Some(system.procs[pid].lease);
    }

    /** A save on its way, and whether an answer to it has come back. */
    method SendSave(pid: Pid, lease: Lease, change: Change, status: Status) returns (answered: bool)
      requires Valid() && At(pid, Holding(lease)) && Sends(system, pid, lease, change, status)
      modifies this`trace, this`system
      ensures Valid() && old(trace) <= trace && Calls(pid) == old(Calls(pid))
      ensures At(pid, Waiting(Save(pid, lease, change, status)))
      ensures answered ==> Save(pid, lease, change, status) in system.answered
    {
      Happen(Send(pid, change, status));
      Interference(pid);
      answered := *;
      answered := answered && Save(pid, lease, change, status) in system.answered;
    }

    /** An answered save was accepted, and the worker goes on. */
    method TakeAnswer(pid: Pid, ghost save: Save)
      requires Valid() && At(pid, Waiting(save)) && save in system.answered && save.pid == pid
      modifies this`trace, this`system
      ensures Valid() && old(trace) <= trace && Calls(pid) == old(Calls(pid)) && save in system.accepted
      ensures At(pid, if save.status != Running then Out
                      else if save.change.Attempt? then MayInvoke(save) else Holding(Renewed(save)))
    {
      RunSafe(Start(Limits(spec.steps)), trace);
      Happen(Answer(pid));
    }

    /** A save and its answer: only an accepted save is ever answered with success. */
    method RequestSave(pid: Pid, lease: Lease, change: Change, status: Status) returns (saved: bool)
      requires Valid() && At(pid, Holding(lease)) && Sends(system, pid, lease, change, status)
      modifies this`trace, this`system, this`cut
      ensures cut <==> old(cut) || !saved
      ensures Valid() && old(trace) <= trace && Calls(pid) == old(Calls(pid))
      ensures var save := Save(pid, lease, change, status);
              if saved then
                && save in system.accepted
                && At(pid, if status != Running then Out
                           else if change.Attempt? then MayInvoke(save) else Holding(Renewed(save)))
              else At(pid, Out)
    {
      var save := Save(pid, lease, change, status);
      var answered := SendSave(pid, lease, change, status);
      if answered {
        TakeAnswer(pid, save);
        return true;
      }
      HearNothing(pid);
      return false;
    }

    /** The save is refused, or its answer never comes. */
    method HearNothing(pid: Pid)
      requires Valid() && pid in system.procs && system.procs[pid].Waiting?
      modifies this`trace, this`system, this`cut
      ensures Valid() && old(trace) <= trace && At(pid, Out) && Calls(pid) == old(Calls(pid)) && cut
    {
      Happen(Refuse(pid));
      cut := true;
    }

    /** The action of a step, called by the worker that saved the attempt. */
    method CallAction(pid: Pid, step: Step, ghost save: Save) returns (r: ActionResult)
      requires Valid() && At(pid, MayInvoke(save)) && save.change == Attempt(step) && save.pid == pid
      modifies this
      ensures Valid() && old(trace) <= trace && At(pid, Holding(Renewed(save)))
      ensures Calls(pid) == old(Calls(pid)) + [step]
      ensures ends == old(ends) + [(step, r)] && evidence == TaskModel.AfterEnd(old(evidence), step, r)
      ensures cut <==> old(cut) || r.Escaped?
    {
      CallsOneMore(system.invoked, save, pid);
      Happen(Invoke(pid));
      r := *;
      ends, evidence, cut := ends + [(step, r)], TaskModel.AfterEnd(evidence, step, r), cut || r.Escaped?;
    }

    /** The verifier of a step. */
    method CallVerifier(step: Step) returns (r: VerifyResult)
      modifies this`evidence, this`cut
      ensures evidence == old(evidence).(verdicts := old(evidence).verdicts[step := r])
      ensures cut <==> old(cut) || r.VerifierEscaped?
    {
      r := *;
      evidence, cut := evidence.(verdicts := evidence.verdicts[step := r]), cut || r.VerifierEscaped?;
    }

    /** Writing to the activity ledger, or merging artifacts: it may raise. */
    method MayRaise() returns (fine: bool)
      modifies this`cut
      ensures cut <==> old(cut) || !fine
    {
      fine := *;
      cut := cut || !fine;
    }

    /** The process ends without another word to the queue. */
    method Lose(pid: Pid)
      requires Valid() && pid in system.procs
      modifies this`trace, this`system
      ensures Valid() && old(trace) <= trace && At(pid, Out) && Calls(pid) == old(Calls(pid))
    {
      Happen(Die(pid));
    }
  }

  /** A step is done, ends the run with a saved status, or the worker is gone. */
  datatype StepEnd = Succeeded | Ended(status: Status) | Gone

  datatype WorkerEnd = NotAuthorized | Empty | Finished(status: Status) | Lost

  ghost predicate WithinLimits(calls: seq<Step>, spec: TaskSpec) {
    forall step :: step in calls ==> multiset(calls)[step] <= Count(Limits(spec.steps), step)
  }

  /** Each step was called exactly as often as new attempts of it were saved. */
  ghost predicate CallsAreAttempts(calls: seq<Step>, before: map<Step, nat>, after: map<Step, nat>) {
    forall step :: multiset(calls)[step] + Count(before, step) == Count(after, step)
  }

  ghost predicate Squared(calls: seq<Step>, spec: TaskSpec, before: Progress, after: Progress) {
    WithinLimits(calls, spec) && CallsAreAttempts(calls, before.attempts, after.attempts)
  }

  lemma OneMoreCall(calls: seq<Step>, spec: TaskSpec, before: Progress, after: Progress, step: Step)
    requires Squared(calls, spec, before, after) && Count(after.attempts, step) < Count(Limits(spec.steps), step)
    ensures Squared(calls + [step], spec, before, Changed(after, Attempt(step)))
  {
    assert multiset(calls + [step]) == multiset(calls) + multiset{step};
    forall other | other in calls + [step] ensures multiset(calls + [step])[other] <= Count(Limits(spec.steps), other) {
      if other != step {
        assert other in calls;
      }
    }
  }

  /** Only this step's attempts have moved, from none to `n`. */
  ghost predicate OnlyTried(step: Step, before: Progress, after: Progress, n: nat) {
    && after.completed == before.completed && Count(after.attempts, step) == n
    && (forall other :: other != step ==> Count(after.attempts, other) == Count(before.attempts, other))
  }

  lemma TriedOneMore(step: Step, before: Progress, after: Progress, n: nat)
    requires OnlyTried(step, before, after, n)
    ensures OnlyTried(step, before, Changed(after, Attempt(step)), n + 1)
  {
  }

  /** `HostedLeaseStateStore`: every save goes through the queue and replaces the lease. */
  class LeaseStateStore {
    const queue: Queue
    const pid: Pid
    ghost const claimed: Lease
    ghost const before: seq<Step>
    var lease: Lease

    ghost predicate Tracked()
      reads queue
    {
      queue.Valid() && before <= queue.Calls(pid) && WithinLimits(Calls(), queue.spec)
    }

    /** The worker's calls under this lease. */
    ghost function Calls(): seq<Step>
      requires before <= queue.Calls(pid)
      reads queue
    {
      queue.Calls(pid)[|before|..]
    }

    ghost predicate Holds()
      reads this, queue
    {
      && Tracked() && queue.At(pid, Holding(lease)) && Squared(Calls(), queue.spec, claimed.progress, lease.progress)
    }

    /** Nothing more will come from this worker. */
    ghost predicate Over()
      reads queue
    {
      Tracked() && queue.At(pid, Out)
    }

    constructor (queue: Queue, pid: Pid, lease: Lease)
      requires queue.Valid() && queue.At(pid, Holding(lease))
      ensures this.queue == queue && this.pid == pid && this.lease == claimed == lease && before == queue.Calls(pid)
      ensures Holds() && Calls() == []
    {
      this.queue, this.pid, this.lease := queue, pid, lease;
      claimed, before := lease, queue.Calls(pid);
    }

    /** `save_state` of a running state: nothing new, or a step completed after its call. */
    method SaveRunning(change: Change) returns (saved: bool)
      requires Holds() && !change.Attempt?
      requires change.Complete? ==> change.step !in lease.progress.completed && change.step in Calls()
      modifies this, queue
      ensures Tracked() && Calls() == old(Calls())
      ensures if saved then Holds() && lease.progress == Changed(old(lease).progress, change) else Over() && queue.cut
      ensures queue.ends == old(queue.ends) && queue.evidence == old(queue.evidence)
    {
      if change.Complete? {
        CallsShow(queue.system, queue.system.invoked, pid, change.step);
      }
      saved := queue.RequestSave(pid, lease, change, Running);
      if saved {
        lease := Renewed(Save(pid, lease, change, Running));
      }
    }

    /** `save_state` of a state that ends the run: the lease is given up. */
    method SaveFinal(status: Status) returns (saved: bool)
      requires Holds() && (status == Blocked || status == Failed || status == Completed)
      requires status == Completed ==> forall step :: step in Limits(queue.spec.steps) ==> step in lease.progress.completed
      modifies queue
      ensures Over() && Calls() == old(Calls())
      ensures if saved then Save(pid, lease, NoChange, status) in queue.system.accepted else queue.cut
      ensures queue.ends == old(queue.ends) && queue.evidence == old(queue.evidence)
    {
      saved := queue.RequestSave(pid, lease, NoChange, status);
    }

    /** The end of a run: its status is saved, if the save is answered, and then logged. */
    method End(status: Status) returns (r: StepEnd)
      requires Holds() && (status == Blocked || status == Failed || status == Completed)
      requires status == Completed ==> forall step :: step in Limits(queue.spec.steps) ==> step in lease.progress.completed
      modifies queue
      ensures Over() && Calls() == old(Calls()) && (r == Ended(status) || r == Gone)
      ensures if r == Ended(status) then Save(pid, lease, NoChange, status) in queue.system.accepted else queue.cut
      ensures queue.ends == old(queue.ends) && queue.evidence == old(queue.evidence)
    {
      var saved := SaveFinal(status);
      var logged := queue.MayRaise();
      r := if saved && logged then Ended(status) else Gone;
    }

    /** Writing to the activity ledger, which may raise; then the worker is gone. */
    method AppendEvent() returns (alive: bool)
      requires Holds()
      modifies queue
      ensures Tracked() && Calls() == old(Calls())
      ensures if alive then Holds() else Over() && queue.cut
      ensures queue.ends == old(queue.ends) && queue.evidence == old(queue.evidence)
    {
      alive := queue.MayRaise();
      if !alive {
        queue.Lose(pid);
      }
    }

    /** The attempt is saved and logged; then the action may be called. */
    method SaveAttempt(step: Step) returns (ready: bool)
      requires Holds() && Count(lease.progress.attempts, step) < Count(Limits(queue.spec.steps), step)
      modifies this, queue
      ensures Tracked() && Calls() == old(Calls()) && (!ready ==> Over() && queue.cut)
      ensures queue.ends == old(queue.ends) && queue.evidence == old(queue.evidence)
      ensures ready ==> var save := Save(pid, old(lease), Attempt(step), Running);
                        queue.At(pid, MayInvoke(save)) && lease == Renewed(save)
    {
      var save := Save(pid, lease, Attempt(step), Running);
      ready := queue.RequestSave(pid, lease, Attempt(step), Running);
      if !ready {
        return;
      }
      lease := Renewed(save);
      ready := LogAttempt(save);
    }

    /** The saved attempt is logged. */
    method LogAttempt(ghost save: Save) returns (ready: bool)
      requires Tracked() && queue.At(pid, MayInvoke(save))
      modifies queue
      ensures Tracked() && Calls() == old(Calls())
      ensures if ready then queue.At(pid, MayInvoke(save)) else Over() && queue.cut
      ensures queue.ends == old(queue.ends) && queue.evidence == old(queue.evidence)
    {
      ready := queue.MayRaise();
      if !ready {
        queue.Lose(pid);
      }
    }

    /** Calling the action whose attempt was saved squares calls and attempts. */
    method Call(step: Step, ghost save: Save) returns (end: ActionResult)
      requires Tracked() && queue.At(pid, MayInvoke(save)) && save.change == Attempt(step) && save.pid == pid
      requires lease == Renewed(save) && Squared(Calls() + [step], queue.spec, claimed.progress, lease.progress)
      modifies queue
      ensures Holds() && Calls() == old(Calls()) + [step]
      ensures queue.ends == old(queue.ends) + [(step, end)] && queue.evidence == TaskModel.AfterEnd(old(queue.evidence), step, end)
      ensures end.Escaped? ==> queue.cut
    {
      ghost var calls := Calls();
      end := queue.CallAction(pid, step, save);
      assert Calls() == calls + [step];
    }

    /** One attempt: the action is called only after the save of its attempt was accepted. */
    method AttemptOnce(step: Step) returns (r: Option<ActionResult>)
      requires Holds() && Count(lease.progress.attempts, step) < Count(Limits(queue.spec.steps), step)
      modifies this, queue
      ensures Tracked() && Calls() == if r.Some? then old(Calls()) + [step] else old(Calls())
      ensures if r.Some? then Holds() && lease.progress == Changed(old(lease).progress, Attempt(step)) else Over() && queue.cut
      ensures if r.Some? then && queue.ends == old(queue.ends) + [(step, r.value)] && (r.value.Escaped? ==> queue.cut)
                              && queue.evidence == TaskModel.AfterEnd(old(queue.evidence), step, r.value)
              else queue.ends == old(queue.ends) && queue.evidence == old(queue.evidence)
    {
      OneMoreCall(Calls(), queue.spec, claimed.progress, lease.progress, step);
      ghost var save := Save(pid, lease, Attempt(step), Running);
      var ready := SaveAttempt(step);
      if !ready {
        return None;
      }
      var end := Call(step, save);
      return Some(end);
    }

    /** After an action that raised: the run ends, or the loop goes on. */
    method AfterRaise(step: StepSpec, attempt: nat) returns (r: Option<StepEnd>)
      requires Holds()
      modifies queue
      ensures Tracked() && Calls() == old(Calls())
      ensures r.None? ==> Holds()
      ensures r.Some? ==> Over() && (r.value.Ended? ==> SavedAs(queue, pid, r.value.status))
      ensures r != Some(Succeeded) && queue.ends == old(queue.ends) && queue.evidence == old(queue.evidence)
      ensures if r == Some(Gone) then queue.cut
              else if !step.retrySafe then r == Some(Ended(Blocked))
              else if attempt >= step.maxAttempts then r == Some(Ended(Failed)) else r.None?
    {
      var logged := AppendEvent();
      if !logged {
        return Some(Gone);
      }
      if !step.retrySafe {
        var end := End(Blocked);
        return Some(end);
      }
      if attempt >= step.maxAttempts {
        var end := End(Failed);
        return Some(end);
      }
      return None;
    }

    /** What follows a call: the step succeeded, the run ends, or the action is called again. */
    method AfterCall(step: StepSpec, attempt: nat, end: ActionResult) returns (r: Option<StepEnd>)
      requires Holds() && (end.Escaped? ==> queue.cut)
      modifies queue
      ensures Tracked() && Calls() == old(Calls())
      ensures queue.ends == old(queue.ends) && queue.evidence == old(queue.evidence)
      ensures CallAnswered(step, attempt, end, r, queue.cut)
      ensures r.None? ==> Holds()
      ensures r.Some? ==> if r.value.Succeeded? then Holds() else Over() && (r.value.Ended? ==> SavedAs(queue, pid, r.value.status))
    {
      match end {
        case Returned => return Some(Succeeded);
        case BlockedAction =>
          var blocked := End(Blocked);
          return Some(blocked);
        case Escaped =>
          queue.Lose(pid);
          return Some(Gone);
        case RaisedError(_) =>
          r := AfterRaise(step, attempt);
      }
    }

    /** The loop so far: `n` calls of the step, all of which raised, and nothing else has moved. */
    ghost predicate Trying(step: StepSpec, progress: Progress, calls: seq<Step>, n: nat)
      reads this, queue
    {
      Holds() && OnlyTried(step.id, progress, lease.progress, n) && Calls() == calls + Repeated(step.id, n)
    }

    /** One turn of the loop. */
    method TryOnce(step: StepSpec, attempt: nat, ghost progress: Progress, ghost calls: seq<Step>)
      returns (r: Option<StepEnd>, ghost end: Option<ActionResult>, ghost n: nat)
      requires Trying(step, progress, calls, attempt) && step.Valid() && attempt < step.maxAttempts
      requires Count(Limits(queue.spec.steps), step.id) == step.maxAttempts
      modifies this, queue
      ensures Tracked() && n == (if end.Some? then attempt + 1 else attempt) && Calls() == calls + Repeated(step.id, n)
      ensures Logged(step.id, old(queue.ends), queue.ends, old(queue.evidence), queue.evidence, end)
      ensures if end.Some? then CallAnswered(step, n, end.value, r, queue.cut) else r == Some(Gone) && queue.cut
      ensures r.None? || r.value.Succeeded? ==> Trying(step, progress, calls, n)
      ensures r.Some? && !r.value.Succeeded? ==> Over() && (r.value.Ended? ==> SavedAs(queue, pid, r.value.status))
    {
      var result := CallAgain(step, attempt, progress, calls);
      end, n := result, if result.Some? then attempt + 1 else attempt;
      if result.None? {
        return Some(Gone), end, n;
      }
      r := AfterCallAgain(step, attempt + 1, progress, calls, result.value);
    }

    /** What follows it. */
    method AfterCallAgain(step: StepSpec, n: nat, ghost progress: Progress, ghost calls: seq<Step>, end: ActionResult)
      returns (r: Option<StepEnd>)
      requires Trying(step, progress, calls, n) && (end.Escaped? ==> queue.cut)
      modifies queue
      ensures Tracked() && Calls() == calls + Repeated(step.id, n)
      ensures queue.ends == old(queue.ends) && queue.evidence == old(queue.evidence)
      ensures CallAnswered(step, n, end, r, queue.cut)
      ensures r.None? || r.value.Succeeded? ==> Trying(step, progress, calls, n)
      ensures r.Some? && !r.value.Succeeded? ==> Over() && (r.value.Ended? ==> SavedAs(queue, pid, r.value.status))
    {
      r := AfterCall(step, n, end);
    }

    /** The call of that turn. */
    method CallAgain(step: StepSpec, attempt: nat, ghost progress: Progress, ghost calls: seq<Step>) returns (r: Option<ActionResult>)
      requires Trying(step, progress, calls, attempt) && step.Valid() && attempt < step.maxAttempts
      requires Count(Limits(queue.spec.steps), step.id) == step.maxAttempts
      modifies this, queue
      ensures Logged(step.id, old(queue.ends), queue.ends, old(queue.evidence), queue.evidence, r)
      ensures if r.Some? then Trying(step, progress, calls, attempt + 1) && (r.value.Escaped? ==> queue.cut)
              else Over() && queue.cut && Calls() == calls + Repeated(step.id, attempt)
    {
      RepeatedOneMore(calls, step.id, attempt);
      TriedOneMore(step.id, progress, lease.progress, attempt);
      r := AttemptOnce(step.id);
    }

    /**
     The retry loop of one step not attempted before. How it ends is told by how its calls ended: it succeeds
     when a call returns, and is called again only after raising, if it is retry-safe and has attempts left.
     */
    method TryStep(step: StepSpec) returns (r: StepEnd, ghost n: nat)
      requires Holds() && step.Valid() && Count(Limits(queue.spec.steps), step.id) == step.maxAttempts
      requires Count(lease.progress.attempts, step.id) == 0
      modifies this, queue
      ensures Tracked() && n <= step.maxAttempts && Calls() == old(Calls()) + Repeated(step.id, n)
      ensures if r.Succeeded? then n > 0 && Trying(step, old(lease.progress), old(Calls()), n) else Over()
      ensures StepAnswered(step, old(queue.ends), queue.ends, n, r, queue.cut)
      ensures Learned(step.id, old(queue.evidence), queue.evidence, queue.ends, n)
      ensures r.Ended? ==> SavedAs(queue, pid, r.status)
    {
      ghost var progress, calls, before, known := lease.progress, Calls(), queue.ends, queue.evidence;
      n := 0;
      var attempt := 0;
      while true
        invariant attempt == n < step.maxAttempts && Trying(step, progress, calls, n)
        invariant AllRaised(step, before, queue.ends, n) && Learned(step.id, known, queue.evidence, queue.ends, n)
        decreases step.maxAttempts - attempt
      {
        var next;
        next, n := TryAgain(step, attempt, progress, calls, before, known);
        if next.Some? {
          return next.value, n;
        }
        attempt := attempt + 1;
      }
    }

    /** One turn of the loop, added to the turns before it. */
    method TryAgain(step: StepSpec, attempt: nat, ghost progress: Progress, ghost calls: seq<Step>, ghost before: Ends, ghost known: Evidence)
      returns (r: Option<StepEnd>, ghost n: nat)
      requires Trying(step, progress, calls, attempt) && step.Valid() && attempt < step.maxAttempts
      requires Count(Limits(queue.spec.steps), step.id) == step.maxAttempts
      requires AllRaised(step, before, queue.ends, attempt) && Learned(step.id, known, queue.evidence, queue.ends, attempt)
      modifies this, queue
      ensures Tracked() && attempt <= n <= attempt + 1 && Calls() == calls + Repeated(step.id, n)
      ensures Learned(step.id, known, queue.evidence, queue.ends, n)
      ensures r.None? ==> n == attempt + 1 < step.maxAttempts && AllRaised(step, before, queue.ends, n)
      ensures r.Some? ==> StepAnswered(step, before, queue.ends, n, r.value, queue.cut)
      ensures r.None? || r.value.Succeeded? ==> Trying(step, progress, calls, n)
      ensures r.Some? && !r.value.Succeeded? ==> Over() && (r.value.Ended? ==> SavedAs(queue, pid, r.value.status))
    {
      ghost var ends, evidence := queue.ends, queue.evidence;
      ghost var end;
      r, end, n := TryOnce(step, attempt, progress, calls);
      LoopStep(step, before, ends, queue.ends, known, evidence, queue.evidence, attempt, end, r, queue.cut);
    }

    /** The saved result is verified, if the step has a verifier. */
    method Verify(step: StepSpec) returns (r: Option<StepEnd>)
      requires Holds()
      modifies queue
      ensures Tracked() && Calls() == old(Calls()) && queue.ends == old(queue.ends)
      ensures r.None? ==> Holds()
      ensures r.Some? ==> Over() && r.value != Succeeded && (r.value.Ended? ==> SavedAs(queue, pid, Blocked))
      ensures queue.evidence.ends == old(queue.evidence).ends && OnlyAbout(step.id, old(queue.evidence), queue.evidence)
      ensures VerdictAnswered(step, queue.evidence, if r.Some? then r.value else Succeeded, queue.cut)
    {
      if step.Verifier().None? {
        return None;
      }
      var verdict := queue.CallVerifier(step.id);
      r := AfterVerdict(verdict);
    }

    /** What follows the verifier's answer. */
    method AfterVerdict(verdict: VerifyResult) returns (r: Option<StepEnd>)
      requires Holds() && (verdict.VerifierEscaped? ==> queue.cut)
      modifies queue
      ensures Tracked() && Calls() == old(Calls()) && queue.ends == old(queue.ends) && queue.evidence == old(queue.evidence)
      ensures r.None? ==> Holds() && verdict.Passed?
      ensures r.Some? ==> Over() && if r == Some(Gone) then queue.cut
                                   else r == Some(Ended(Blocked)) && SavedAs(queue, pid, Blocked)
                                        && (verdict.NotPassed? || verdict.VerifierRaised?)
    {
      match verdict {
        case VerifierEscaped =>
          queue.Lose(pid);
          return Some(Gone);
        case Passed =>
          var logged := AppendEvent();
          return if logged then None else Some(Gone);
        case _ =>
          var blocked := End(Blocked);
          return Some(blocked);
      }
    }

    /** The artifacts are merged and saved, the result is verified, and the step is saved as completed. */
    method Conclude(step: StepSpec) returns (r: StepEnd)
      requires Holds() && step.id !in lease.progress.completed && step.id in Calls()
      modifies this, queue
      ensures Tracked() && Calls() == old(Calls()) && queue.ends == old(queue.ends)
      ensures if r.Succeeded? then Holds() && lease.progress == Changed(old(lease).progress, Complete(step.id)) else Over()
      ensures r.Ended? ==> SavedAs(queue, pid, Blocked)
      ensures queue.evidence.ends == old(queue.evidence).ends && OnlyAbout(step.id, old(queue.evidence), queue.evidence)
      ensures VerdictAnswered(step, queue.evidence, r, queue.cut)
    {
      var merged := queue.MayRaise();  // a conflicting artifact update escapes
      if !merged {
        queue.Lose(pid);
        return Gone;
      }
      var saved := SaveRunning(NoChange);
      if !saved {
        return Gone;
      }
      var verified := Verify(step);
      if verified.Some? {
        return verified.value;
      }
      saved := SaveRunning(Complete(step.id));
      if !saved {
        return Gone;
      }
      r := Succeeded;
    }

    /** A step saved as completed is logged as such. */
    method ConcludeAndLog(step: StepSpec) returns (r: StepEnd)
      requires Holds() && step.id !in lease.progress.completed && step.id in Calls()
      modifies this, queue
      ensures Tracked() && Calls() == old(Calls()) && queue.ends == old(queue.ends)
      ensures if r.Succeeded? then Holds() && lease.progress == Changed(old(lease).progress, Complete(step.id)) else Over()
      ensures r.Ended? ==> SavedAs(queue, pid, Blocked)
      ensures queue.evidence.ends == old(queue.evidence).ends && OnlyAbout(step.id, old(queue.evidence), queue.evidence)
      ensures VerdictAnswered(step, queue.evidence, r, queue.cut)
    {
      r := Conclude(step);
      if r.Succeeded? {
        var logged := AppendEvent();
        if !logged {
          return Gone;
        }
      }
    }

    /** What follows a call that returned: the step is saved as completed once it is verified. */
    method Finish(step: StepSpec, ghost progress: Progress, ghost calls: seq<Step>, ghost n: nat) returns (r: StepEnd)
      requires Trying(step, progress, calls, n) && n > 0 && step.id !in progress.completed
      requires TaskModel.LastEnd(queue.evidence, step.id, TaskModel.Returned)
      modifies this, queue
      ensures Tracked() && Calls() == old(Calls())
      ensures if r.Succeeded? then Holds() && StepRun(step.id, progress, lease.progress) else Over()
      ensures r.Ended? ==> SavedAs(queue, pid, r.status)
      ensures OnlyAbout(step.id, old(queue.evidence), queue.evidence)
      ensures RunAnswered(step, queue.ends, queue.evidence, r, queue.cut)
    {
      RepeatedHas(calls, step.id, n);
      r := ConcludeAndLog(step);
    }

    /** One step that is neither completed nor attempted. */
    method RunStep(step: StepSpec) returns (r: StepEnd, ghost n: nat)
      requires Holds() && step.Valid() && Count(Limits(queue.spec.steps), step.id) == step.maxAttempts
      requires Count(lease.progress.attempts, step.id) == 0 && step.id !in lease.progress.completed
      modifies this, queue
      ensures Tracked() && Calls() == old(Calls()) + Repeated(step.id, n) && n <= step.maxAttempts
      ensures if r.Succeeded? then Holds() && n > 0 && StepRun(step.id, old(lease.progress), lease.progress) else Over()
      ensures r.Ended? ==> SavedAs(queue, pid, r.status)
      ensures OnlyAbout(step.id, old(queue.evidence), queue.evidence)
      ensures RunAnswered(step, queue.ends, queue.evidence, r, queue.cut)
    {
      ghost var progress, calls, ends := lease.progress, Calls(), queue.ends;
      r, n := TryStep(step);
      TriedAnswers(step, ends, queue.ends, n, queue.evidence, r, queue.cut);
      if r.Succeeded? {
        r := Finish(step, progress, calls, n);
      }
    }

    /** The pass so far: `i` steps skipped or run and accounted for. */
    ghost predicate Passing(i: nat, start: Progress)
      reads this, queue
    {
      && Holds() && PassSoFar(queue.spec.steps, i, start, lease.progress, Calls())
      && ProvedBefore(queue.spec.steps, i, start, lease.progress, queue.evidence)
    }

    /** A completed step is skipped, and that is logged. */
    method SkipAt(i: nat, ghost start: Progress) returns (r: StepEnd)
      requires Passing(i, start) && i < |queue.spec.steps| && queue.spec.steps[i].id in lease.progress.completed
      modifies queue
      ensures Tracked() && OnlyUndone(start, Calls())
      ensures if r.Succeeded? then Passing(i + 1, start) else r == Gone && Over() && queue.cut
    {
      SkipStep(queue.spec.steps, i, start, lease.progress, Calls());
      SkippedToo(queue.spec.steps, i, start, lease.progress, queue.evidence);
      var logged := AppendEvent();
      r := if logged then Succeeded else Gone;
    }

    /** A step still to do is run. */
    method RunAt(i: nat, ghost start: Progress) returns (r: StepEnd)
      requires Passing(i, start) && i < |queue.spec.steps| && queue.spec.steps[i].id !in lease.progress.completed
      modifies this, queue
      ensures Tracked() && OnlyUndone(start, Calls())
      ensures if r.Succeeded? then Passing(i + 1, start) else Over()
      ensures r.Ended? ==> SavedAs(queue, pid, r.status)
      ensures !r.Succeeded? ==> PassAnswered(queue.spec.steps, start, queue.ends, queue.evidence, r, queue.cut)
    {
      ghost var now, calls, evidence := lease.progress, Calls(), queue.evidence;
      var steps := queue.spec.steps;
      LimitsMean(steps);
      ghost var n;
      r, n := RunStep(steps[i]);
      UndoneStep(steps, i, start, now, calls, n);
      ProvedToo(steps, i, start, now, lease.progress, evidence, queue.evidence);
      if r.Succeeded? {
        RanStep(steps, i, start, now, lease.progress, calls, n);
      }
    }

    /** The pass over the steps: completed ones are skipped, the others run. */
    method RunSteps() returns (r: StepEnd)
      requires Passing(0, lease.progress)
      modifies this, queue
      ensures Tracked() && OnlyUndone(old(lease.progress), Calls())
      ensures if r.Succeeded? then Passing(|queue.spec.steps|, old(lease.progress)) else Over()
      ensures r.Ended? ==> SavedAs(queue, pid, r.status)
      ensures PassAnswered(queue.spec.steps, old(lease.progress), queue.ends, queue.evidence, r, queue.cut)
    {
      ghost var start := lease.progress;
      for i := 0 to |queue.spec.steps|
        invariant Passing(i, start)
      {
        if queue.spec.steps[i].id in lease.progress.completed {
          r := SkipAt(i, start);
        } else {
          r := RunAt(i, start);
        }
        if !r.Succeeded? {
          return;
        }
      }
      r := Succeeded;
      assert queue.spec.steps[..|queue.spec.steps|] == queue.spec.steps;
    }

    /** The task is saved as running, and that is logged. */
    method Begin() returns (begun: bool)
      requires Holds()
      modifies this, queue
      ensures Tracked() && Calls() == old(Calls())
      ensures if begun then Holds() && lease.progress == old(lease).progress else Over() && queue.cut
    {
      begun := SaveRunning(NoChange);
      if begun {
        begun := AppendEvent();
      }
    }

    /** `AgentRunner.run` over the lease: a step begun and not completed blocks the task before any call. */
    method RunTask() returns (r: StepEnd)
      requires Holds() && Calls() == [] && lease == claimed
      modifies this, queue
      ensures Over() && OnlyUndone(old(lease.progress), Calls()) && !r.Succeeded? && (r.Ended? ==> SavedAs(queue, pid, r.status))
      ensures Interrupted(old(lease.progress)) ==> Calls() == []
      ensures r == Ended(Completed) ==> AllDone(queue.spec.steps, old(lease.progress), Calls())
      ensures TurnAnswered(queue.spec.steps, old(lease.progress), queue.ends, queue.evidence, r, queue.cut)
    {
      var interrupted := Interrupted(lease.progress);
      if interrupted {
        r := End(Blocked);
        return;
      }
      var begun := Begin();
      if !begun {
        return Gone;
      }
      r := RunSteps();
      if r.Succeeded? {
        LimitsMean(queue.spec.steps);
        PassDone(queue.spec.steps, old(lease.progress), lease.progress, Calls());
        r := End(Completed);
      }
    }
  }

  // ----- what the answers of actions and verifiers lead to

  type Ends = seq<(Step, ActionResult)>

  /** What the `attempt`th call of a step leads to. Only a lost save or an escaped exception leads elsewhere. */
  ghost predicate CallAnswered(step: StepSpec, attempt: nat, end: ActionResult, r: Option<StepEnd>, cut: bool) {
    if r == Some(Gone) then cut
    else
      && !end.Escaped?
      && (r == Some(Succeeded) <==> end.Returned?)
      && (r == Some(Ended(Blocked)) <==> end.BlockedAction? || (end.RaisedError? && !step.retrySafe))
      && (r == Some(Ended(Failed)) <==> end.RaisedError? && step.retrySafe && attempt >= step.maxAttempts)
      && (r.None? <==> end.RaisedError? && step.retrySafe && attempt < step.maxAttempts)
  }

  /** One call logged, or nothing. */
  ghost predicate Logged(step: Step, ends: Ends, ends': Ends, ev: Evidence, ev': Evidence, end: Option<ActionResult>) {
    if end.Some? then ends' == ends + [(step, end.value)] && ev' == TaskModel.AfterEnd(ev, step, end.value)
    else ends' == ends && ev' == ev
  }

  /** The step was called `n` times more, and raised each time. */
  ghost predicate RaisedTimes(step: Step, before: Ends, after: Ends, n: nat) {
    && |after| == |before| + n && before <= after
    && forall k :: |before| <= k < |after| ==> after[k].0 == step && after[k].1.RaisedError?
  }

  /** How a step's `n` calls ended: all but the last raised, and the last decides. */
  ghost predicate StepAnswered(step: StepSpec, before: Ends, after: Ends, n: nat, r: StepEnd, cut: bool) {
    && |after| == |before| + n && (n > 1 ==> step.retrySafe)
    && (n == 0 ==> r == Gone && cut && after == before)
    && (n > 0 ==>
          && RaisedTimes(step.id, before, after[..|after| - 1], n - 1) && after[|after| - 1].0 == step.id
          && CallAnswered(step, n, after[|after| - 1].1, Some(r), cut))
  }

  /** Nothing is learned of other steps. */
  ghost predicate OnlyAbout(step: Step, ev: Evidence, ev': Evidence) {
    ev'.ends - {step} == ev.ends - {step} && ev'.verdicts - {step} == ev.verdicts - {step}
  }

  ghost predicate AllRaised(step: StepSpec, before: Ends, after: Ends, n: nat) {
    RaisedTimes(step.id, before, after, n) && (n > 0 ==> step.retrySafe)
  }

  /** Nothing is learned of other steps, and of this one how its last call ended. */
  ghost predicate Learned(step: Step, ev: Evidence, ev': Evidence, ends: Ends, n: nat) {
    OnlyAbout(step, ev, ev') && (n > 0 ==> ends != [] && TaskModel.LastEnd(ev', step, ends[|ends| - 1].1))
  }

  lemma LoopStep(step: StepSpec, before: Ends, ends: Ends, after: Ends, known: Evidence, ev: Evidence, ev': Evidence,
                 attempt: nat, end: Option<ActionResult>, r: Option<StepEnd>, cut: bool)
    requires AllRaised(step, before, ends, attempt) && Learned(step.id, known, ev, ends, attempt)
    requires Logged(step.id, ends, after, ev, ev', end)
    requires if end.Some? then CallAnswered(step, attempt + 1, end.value, r, cut) else r == Some(Gone) && cut
    ensures var n := if end.Some? then attempt + 1 else attempt;
            && Learned(step.id, known, ev', after, n)
            && (r.None? ==> AllRaised(step, before, after, n) && n == attempt + 1 < step.maxAttempts)
            && (r.Some? ==> StepAnswered(step, before, after, n, r.value, cut))
  {
    if end.Some? {
      assert after[..|after| - 1] == ends;
    } else if attempt > 0 {
      assert after == before + ends[|before|..];
    }
  }

  /** What the verifier's answer leads to. */
  ghost predicate VerdictAnswered(step: StepSpec, ev: Evidence, r: StepEnd, cut: bool) {
    if r == Gone then cut
    else if step.Verifier().None? then r == Succeeded
    else
      && step.id in ev.verdicts && !ev.verdicts[step.id].VerifierEscaped?
      && (r == Succeeded <==> ev.verdicts[step.id].Passed?)
      && (r == Ended(Blocked) <==> ev.verdicts[step.id].NotPassed? || ev.verdicts[step.id].VerifierRaised?)
  }

  /** Why a step ends the run: its last calls used up the attempts, or its action or verifier blocked it. */
  ghost predicate StopsAt(step: StepSpec, status: Status, ends: Ends, ev: Evidence) {
    && step.id in ev.ends
    && match status
       case Failed =>
         step.retrySafe && 0 < step.maxAttempts <= |ends|
         && RaisedTimes(step.id, ends[..|ends| - step.maxAttempts], ends, step.maxAttempts)
       case Blocked =>
         || ev.ends[step.id].BlockedAction?
         || (ev.ends[step.id].RaisedError? && !step.retrySafe)
         || (ev.ends[step.id].Returned? && step.Verifier().Some? && step.id in ev.verdicts
             && (ev.verdicts[step.id].NotPassed? || ev.verdicts[step.id].VerifierRaised?))
       case _ => false
  }

  ghost predicate RunAnswered(step: StepSpec, ends: Ends, ev: Evidence, r: StepEnd, cut: bool) {
    match r
    case Gone => cut
    case Succeeded => TaskModel.Proved(step, ev)
    case Ended(status) => StopsAt(step, status, ends, ev)
  }

  lemma TriedAnswers(step: StepSpec, before: Ends, after: Ends, n: nat, ev: Evidence, r: StepEnd, cut: bool)
    requires StepAnswered(step, before, after, n, r, cut) && n <= step.maxAttempts && step.Valid()
    requires n > 0 ==> after != [] && TaskModel.LastEnd(ev, step.id, after[|after| - 1].1)
    ensures r.Succeeded? ==> TaskModel.LastEnd(ev, step.id, TaskModel.Returned)
    ensures !r.Succeeded? ==> RunAnswered(step, after, ev, r, cut)
  {
    if r == Ended(Failed) {
      assert after[..|after| - step.maxAttempts] == before;
    }
  }

  /** What every step not completed when the lease was claimed came to in a finished pass. */
  ghost predicate AllProved(steps: seq<StepSpec>, claimed: Progress, ev: Evidence) {
    forall j :: 0 <= j < |steps| ==> steps[j].id in claimed.completed || TaskModel.Proved(steps[j], ev)
  }

  /** The first step that neither was completed before nor is proved now stopped the run. */
  ghost predicate StoppedSomewhere(steps: seq<StepSpec>, claimed: Progress, status: Status, ends: Ends, ev: Evidence) {
    exists i :: 0 <= i < |steps| && steps[i].id !in claimed.completed && StopsAt(steps[i], status, ends, ev)
                && AllProved(steps[..i], claimed, ev)
  }

  ghost predicate PassAnswered(steps: seq<StepSpec>, claimed: Progress, ends: Ends, ev: Evidence, r: StepEnd, cut: bool) {
    match r
    case Gone => cut
    case Succeeded => AllProved(steps, claimed, ev)
    case Ended(status) => StoppedSomewhere(steps, claimed, status, ends, ev)
  }

  /** How a turn over a claimed task ends. */
  ghost predicate TurnAnswered(steps: seq<StepSpec>, claimed: Progress, ends: Ends, ev: Evidence, r: StepEnd, cut: bool) {
    match r
    case Gone => cut
    case Succeeded => false
    case Ended(status) =>
      if Interrupted(claimed) then status == Blocked
      else if status == Completed then AllProved(steps, claimed, ev)
      else StoppedSomewhere(steps, claimed, status, ends, ev)
  }

  /** The first `i` steps are accounted for, and no later one has been completed since the claim. */
  ghost predicate ProvedBefore(steps: seq<StepSpec>, i: nat, claimed: Progress, now: Progress, ev: Evidence) {
    && i <= |steps| && AllProved(steps[..i], claimed, ev)
    && forall j :: i <= j < |steps| && steps[j].id in now.completed ==> steps[j].id in claimed.completed
  }

  lemma ProvedToo(steps: seq<StepSpec>, i: nat, claimed: Progress, now: Progress, after: Progress, ev: Evidence, ev': Evidence)
    requires i < |steps| && ProvedBefore(steps, i, claimed, now, ev) && OnlyAbout(steps[i].id, ev, ev')
    requires forall j, k :: 0 <= j < k < |steps| ==> steps[j].id != steps[k].id
    ensures AllProved(steps[..i], claimed, ev')
    ensures StepRun(steps[i].id, now, after) && TaskModel.Proved(steps[i], ev') ==> ProvedBefore(steps, i + 1, claimed, after, ev')
  {
    forall j | 0 <= j < i ensures steps[j].id in claimed.completed || TaskModel.Proved(steps[j], ev') {
      assert steps[..i][j] == steps[j];
      assert steps[j].id in ev.ends ==> steps[j].id in ev.ends - {steps[i].id};
      assert steps[j].id in ev.verdicts ==> steps[j].id in ev.verdicts - {steps[i].id};
    }
  }

  lemma SkippedToo(steps: seq<StepSpec>, i: nat, claimed: Progress, now: Progress, ev: Evidence)
    requires i < |steps| && ProvedBefore(steps, i, claimed, now, ev) && steps[i].id in now.completed
    ensures ProvedBefore(steps, i + 1, claimed, now, ev)
  {
    assert forall j :: 0 <= j < i ==> steps[..i][j] == steps[j];
  }

  // ----- one pass over the steps

  /** Some step was begun and not completed. */
  predicate Interrupted(p: Progress) {
    exists step :: step in p.attempts && p.attempts[step] > 0 && step !in p.completed
  }

  /** Only steps still to do when the lease was claimed were called. */
  ghost predicate OnlyUndone(claimed: Progress, calls: seq<Step>) {
    forall k :: 0 <= k < |calls| ==> calls[k] !in claimed.completed
  }

  ghost predicate PassSoFar(steps: seq<StepSpec>, i: nat, claimed: Progress, now: Progress, calls: seq<Step>) {
    && i <= |steps| && OnlyUndone(claimed, calls)
    && (forall id :: id in claimed.completed ==> id in now.completed)
    && (forall id :: id in now.completed ==> id in claimed.completed || id in calls)
    && (forall j :: 0 <= j < i ==> steps[j].id in now.completed)
    && (forall j :: i <= j < |steps| ==> steps[j].id in now.completed || Count(now.attempts, steps[j].id) == 0)
  }

  /** Every step was completed before, or called. */
  ghost predicate AllDone(steps: seq<StepSpec>, claimed: Progress, calls: seq<Step>) {
    forall j :: 0 <= j < |steps| ==> steps[j].id in claimed.completed || steps[j].id in calls
  }

  lemma SkipStep(steps: seq<StepSpec>, i: nat, claimed: Progress, now: Progress, calls: seq<Step>)
    requires i < |steps| && PassSoFar(steps, i, claimed, now, calls)
    ensures steps[i].id in now.completed ==> PassSoFar(steps, i + 1, claimed, now, calls)
  {
  }

  lemma UndoneStep(steps: seq<StepSpec>, i: nat, claimed: Progress, now: Progress, calls: seq<Step>, n: nat)
    requires i < |steps| && PassSoFar(steps, i, claimed, now, calls) && steps[i].id !in now.completed
    ensures OnlyUndone(claimed, calls + Repeated(steps[i].id, n))
  {
  }

  lemma RanStep(steps: seq<StepSpec>, i: nat, claimed: Progress, now: Progress, after: Progress, calls: seq<Step>, n: nat)
    requires i < |steps| && PassSoFar(steps, i, claimed, now, calls) && steps[i].id !in now.completed && n > 0
    requires StepRun(steps[i].id, now, after) && forall j, k :: 0 <= j < k < |steps| ==> steps[j].id != steps[k].id
    ensures PassSoFar(steps, i + 1, claimed, after, calls + Repeated(steps[i].id, n))
  {
    UndoneStep(steps, i, claimed, now, calls, n);
    RepeatedHas(calls, steps[i].id, n);
    assert forall id :: id in calls ==> id in calls + Repeated(steps[i].id, n);
  }

  lemma PassDone(steps: seq<StepSpec>, claimed: Progress, now: Progress, calls: seq<Step>)
    requires PassSoFar(steps, |steps|, claimed, now, calls)
    ensures AllDone(steps, claimed, calls)
  {
  }

  function Repeated(step: Step, n: nat): seq<Step> {
    seq(n, _ => step)
  }

  lemma RepeatedOneMore(calls: seq<Step>, step: Step, n: nat)
    ensures calls + Repeated(step, n) + [step] == calls + Repeated(step, n + 1)
  {
  }

  lemma RepeatedHas(calls: seq<Step>, step: Step, n: nat)
    requires n > 0
    ensures step in calls + Repeated(step, n)
  {
    assert Repeated(step, n)[0] == step;
  }

  /** The step is completed, and only its own attempts have moved. */
  ghost predicate StepRun(step: Step, before: Progress, after: Progress) {
    && after.completed == before.completed + [step]
    && forall other :: other != step ==> Count(after.attempts, other) == Count(before.attempts, other)
  }

  // ----- one turn of the worker

  /** Every action and verifier is registered, and only reads. */
  predicate ReadOnly(spec: TaskSpec, registry: map<string, bool>) {
    forall i :: 0 <= i < |spec.steps| ==>
      && spec.steps[i].action in registry && registry[spec.steps[i].action]
      && (spec.steps[i].Verifier().Some? ==>
            spec.steps[i].Verifier().value in registry && registry[spec.steps[i].Verifier().value])
  }

  /** The turn may call actions: it was allowed to, claimed a task with nothing interrupted, and may run all of it. */
  predicate MayRun(authorized: bool, inScope: bool, spec: TaskSpec, registry: map<string, bool>, claimed: Option<Lease>) {
    authorized && claimed.Some? && inScope && ReadOnly(spec, registry) && !Interrupted(claimed.value.progress)
  }

  ghost predicate SavedAs(queue: Queue, pid: Pid, status: Status)
    reads queue
  {
    exists save :: save in queue.system.accepted && save.pid == pid && save.status == status
  }

  /** From the claim to the release of the lease. */
  method RunClaimed(queue: Queue, pid: Pid, lease: Lease, runnable: bool) returns (r: WorkerEnd, ghost calls: seq<Step>)
    requires queue.Valid() && queue.At(pid, Holding(lease))
    modifies queue
    ensures queue.Valid() && queue.Calls(pid) == old(queue.Calls(pid)) + calls && queue.At(pid, Out)
    ensures WithinLimits(calls, queue.spec) && OnlyUndone(lease.progress, calls)
    ensures !runnable || Interrupted(lease.progress) ==> calls == []
    ensures if r.Lost? then queue.cut
            else && r.Finished? && SavedAs(queue, pid, r.status) && (!runnable ==> r.status == Blocked)
                 && (runnable ==> TurnAnswered(queue.spec.steps, lease.progress, queue.ends, queue.evidence, Ended(r.status), queue.cut))
    ensures r == Finished(Completed) ==> runnable && AllDone(queue.spec.steps, lease.progress, calls)
  {
    calls := [];
    var store := new LeaseStateStore(queue, pid, lease);
    var logged := store.AppendEvent();
    if !logged {
      return Lost, calls;
    }
    var end: StepEnd;
    if runnable {
      end := store.RunTask();
    } else {
      end := store.End(Blocked);
    }
    calls := store.Calls();
    r := match end case Ended(status) => Finished(status) case _ => Lost;
  }

  /**
   `run_next`. Without authorisation nothing is claimed. A task out of scope, with an unregistered
   or writing action, or interrupted, is released as blocked before any call. Otherwise only steps
   still to do are called, within their limits, and the turn ends as their actions and verifiers answered:
   completed exactly when each of them returned and passed.
   */
  method RunNext(queue: Queue, pid: Pid, worker: string, authorized: bool, inScope: bool, registry: map<string, bool>)
    returns (r: WorkerEnd, claimed: Option<Lease>, ghost calls: seq<Step>)
    requires queue.Valid() && pid !in queue.system.procs
    modifies queue
    ensures queue.Valid() && queue.Calls(pid) == old(queue.Calls(pid)) + calls
    ensures r.NotAuthorized? <==> !authorized
    ensures !authorized ==> queue.trace == old(queue.trace)
    ensures !MayRun(authorized, inScope, queue.spec, registry, claimed) ==> calls == []
    ensures WithinLimits(calls, queue.spec)
    ensures claimed.Some? ==> queue.At(pid, Out) && OnlyUndone(claimed.value.progress, calls)
    ensures r.Finished? ==> claimed.Some? && SavedAs(queue, pid, r.status)
    ensures r == Finished(Completed) ==> inScope && ReadOnly(queue.spec, registry)
    ensures r == Finished(Completed) ==> AllDone(queue.spec.steps, claimed.value.progress, calls)
    ensures r.Empty? ==> claimed.None? && (queue.cut || queue.system.server.status != Queued)
    ensures r.Lost? ==> claimed.Some? && queue.cut
    ensures r.Finished? ==> if !inScope || !ReadOnly(queue.spec, registry) then r.status == Blocked
                            else TurnAnswered(queue.spec.steps, claimed.value.progress, queue.ends, queue.evidence, Ended(r.status), queue.cut)
  {
    calls, claimed := [], None;
    if !authorized {
      return NotAuthorized, claimed, calls;
    }
    claimed := queue.TryClaim(pid, worker);
    if claimed.None? {
      return Empty, claimed, calls;
    }
    r, calls := RunClaimed(queue, pid, claimed.value, inScope && ReadOnly(queue.spec, registry));
  }
}
