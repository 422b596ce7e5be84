/**
 One queued task shared by any number of workers under a fenced lease. The server side is an
 assumed contract, the one the client checks its answers against: a save is accepted only for
 the current revision, generation and owner of an unexpired running lease, and an operator who
 queues a blocked task again retains attempts and completed steps, save for the one step decided
 on. Requests may be delayed, answers may be lost, workers may die anywhere. A run is any
 sequence of events.
 */
module LeaseProtocol {
  import opened CredentialIdentity

  type Pid = nat
  type Step = string

  datatype Status = Queued | Running | Blocked | Completed | Failed

  /** What a checkpoint says of the steps. */
  datatype Progress = Progress(attempts: map<Step, nat>, completed: seq<Step>)

  function Count(m: map<Step, nat>, step: Step): nat {
    if step in m then m[step] else 0
  }

  /** How the saved checkpoint differs from the one the lease came with. */
  datatype Change = Attempt(step: Step) | Complete(step: Step) | NoChange

  function Changed(p: Progress, change: Change): Progress {
    match change
    case Attempt(step) => p.(attempts := p.attempts[step := Count(p.attempts, step) + 1])
    case Complete(step) => p.(completed := p.completed + [step])
    case NoChange => p
  }

  /** The queue row; `resets` and `applied` are the operator's decisions on record. */
  datatype Server = Server(status: Status, revision: nat, generation: nat, owner: Option<string>, expired: bool,
                           progress: Progress, resets: map<Step, nat>, applied: set<Step>)

  /** What a worker believes it holds. */
  datatype Lease = Lease(worker: string, revision: nat, generation: nat, progress: Progress)

  datatype Save = Save(pid: Pid, lease: Lease, change: Change, status: Status)

  /** A worker process between two effects: about to save, waiting for an answer, or free to act. */
  datatype Pc = Holding(lease: Lease) | Waiting(save: Save) | MayInvoke(save: Save) | Out

  /** `limits` gives the attempts the specification allows each of its steps; `claims` lists who claimed
      each generation, `accepted` the saves taken, `invoked` the saves acted on. */
  datatype System = System(
    limits: map<Step, nat>,
    server: Server,
    flight: set<Save>,
    answered: set<Save>,
    procs: map<Pid, Pc>,
    claims: seq<Pid>,
    accepted: seq<Save>,
    invoked: seq<Save>)

  /** An operator's decision on queueing a blocked task again. */
  datatype Decision = Retain | NotApplied(step: Step) | AppliedAndVerified(step: Step)

  datatype Event =
    | Claim(pid: Pid, worker: string, delivered: bool)
    | Send(pid: Pid, change: Change, status: Status)
    | Arrive(save: Save)
    | Answer(pid: Pid)
    | Refuse(pid: Pid)
    | Invoke(pid: Pid)
    | Expire
    | Reconcile(revision: nat, generation: nat)
    | Requeue(decision: Decision)
    | Die(pid: Pid)

  predicate Fences(server: Server, lease: Lease) {
    && server.status == Running && !server.expired
    && server.revision == lease.revision && server.generation == lease.generation && server.owner == Some(lease.worker)
  }

  /** The server takes a save: the lease lives on in a running save and is released otherwise. */
  function TakeSave(server: Server, save: Save): Server {
    var taken := server.(revision := server.revision + 1, progress := Changed(save.lease.progress, save.change));
    if save.status == Running then taken
    else taken.(status := save.status, owner := None, expired := false)
  }

  /** What the client checks of an answer: the next revision of the same generation. */
  function Renewed(save: Save): Lease {
    save.lease.(revision := save.lease.revision + 1, progress := Changed(save.lease.progress, save.change))
  }

  /** The process has called the action of the step. */
  predicate HasCalled(s: System, pid: Pid, step: Step) {
    exists k :: 0 <= k < |s.invoked| && s.invoked[k].pid == pid && s.invoked[k].change == Attempt(step)
  }

  /** The saves the runner makes: attempts within the limit, completion after a call, an end when all is done. */
  predicate Sends(s: System, pid: Pid, lease: Lease, change: Change, status: Status) {
    && status != Queued && (!change.NoChange? ==> status == Running)
    && (change.Attempt? ==> Count(lease.progress.attempts, change.step) < Count(s.limits, change.step))
    && (change.Complete? ==> change.step !in lease.progress.completed && HasCalled(s, pid, change.step))
    && (status == Completed ==> forall step :: step in s.limits ==> step in lease.progress.completed)
  }

  function Decided(server: Server, decision: Decision): Server {
    match decision
    case Retain => server
    case NotApplied(step) =>
      server.(progress := server.progress.(attempts := server.progress.attempts - {step}),
              resets := server.resets[step := Count(server.resets, step) + 1])
    case AppliedAndVerified(step) =>
      server.(progress := if step in server.progress.completed then server.progress
                          else server.progress.(completed := server.progress.completed + [step]),
              applied := server.applied + {step})
  }

  function Next(s: System, e: Event): System {
    match e
    case Claim(pid, worker, delivered) =>
      if pid in s.procs || s.server.status != Queued then s
      else
        var server := s.server.(status := Running, revision := s.server.revision + 1,
                                generation := s.server.generation + 1, owner := Some(worker), expired := false);
        var lease := Lease(worker, server.revision, server.generation, server.progress);
        s.(server := server, claims := s.claims + [pid], procs := s.procs[pid := if delivered then Holding(lease) else Out])
    case Send(pid, change, status) =>
      if pid !in s.procs || !s.procs[pid].Holding? || !Sends(s, pid, s.procs[pid].lease, change, status) then s
      else
        var save := Save(pid, s.procs[pid].lease, change, status);
        s.(flight := s.flight + {save}, procs := s.procs[pid := Waiting(save)])
    case Arrive(save) =>
      if save !in s.flight then s
      else
        var rest := s.(flight := s.flight - {save});
        if !Fences(s.server, save.lease) then rest
        else rest.(server := TakeSave(s.server, save), answered := s.answered + {save},
                   accepted := s.accepted + [save])
    case Answer(pid) =>
      if pid !in s.procs || !s.procs[pid].Waiting? || s.procs[pid].save !in s.answered then s
      else
        var save := s.procs[pid].save;
        s.(answered := s.answered - {save},
           procs := s.procs[pid := if save.status != Running then Out
                                   else if save.change.Attempt? then MayInvoke(save)
                                   else Holding(Renewed(save))])
    case Refuse(pid) =>
      if pid !in s.procs || !s.procs[pid].Waiting? then s else s.(procs := s.procs[pid := Out])
    case Invoke(pid) =>
      if pid !in s.procs || !s.procs[pid].MayInvoke? then s
      else s.(procs := s.procs[pid := Holding(Renewed(s.procs[pid].save))], invoked := s.invoked + [s.procs[pid].save])
    case Expire => if s.server.status == Running then s.(server := s.server.(expired := true)) else s
    case Reconcile(revision, generation) =>
      if s.server.status == Running && s.server.expired && s.server.revision == revision && s.server.generation == generation
      then s.(server := s.server.(status := Blocked, revision := revision + 1, owner := None, expired := false))
      else s
    case Requeue(decision) =>
      if s.server.status != Blocked then s
      else s.(server := Decided(s.server, decision).(status := Queued, revision := s.server.revision + 1))
    case Die(pid) => if pid in s.procs then s.(procs := s.procs[pid := Out]) else s
  }

  function Start(limits: map<Step, nat>): System {
    System(limits, Server(Queued, 0, 0, None, false, Progress(map[], []), map[], {}), {}, {}, map[], [], [], [])
  }

  function Run(s: System, events: seq<Event>): System
    decreases |events|
  {
    if events == [] then s else Next(Run(s, events[..|events| - 1]), events[|events| - 1])
  }
}
