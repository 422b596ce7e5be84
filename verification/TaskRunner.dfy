/**
 The resumable runner over its file store. The process may die, or an exception escape, at
 every effect: after it, the file holds what it held before the effect or what the effect
 wrote. Each operation keeps the file's guarantees on every such path.
 */
module TaskRunner {
  import opened CredentialIdentity
  import opened TaskModel

  /** The state object the runner edits; `Snapshot` is what saving it writes. */
  class TaskState {
    var status: Status
    var completed: seq<string>
    var attempts: map<string, nat>
    var blockedReason: Option<Reason>
    var lastError: Option<SafeError>
    var reconciliations: seq<Reconciliation>
    var fingerprint: Option<TaskSpec>

    function Snapshot(): Checkpoint
      reads this
    {
      Checkpoint(status, completed, attempts, blockedReason, lastError, reconciliations, fingerprint)
    }

    constructor (c: Checkpoint)
      ensures Snapshot() == c
    {
      status, completed, attempts := c.status, c.completed, c.attempts;
      blockedReason, lastError := c.blockedReason, c.lastError;
      reconciliations, fingerprint := c.reconciliations, c.fingerprint;
    }
  }

  const FRESH: Checkpoint := Checkpoint(Pending, [], map[], None, None, [], None)

  /** One task's state file, with what really happened to its actions. */
  class FileStore {
    var file: Option<Checkpoint>
    ghost var invoked: map<string, nat>
    /** Written only by the calls of actions and verifiers. */
    ghost var evidence: Evidence
    /** The process died, or an exception escaped from a run. */
    ghost var cut: bool

    ghost predicate Valid()
      reads this
    {
      Durable(file, invoked, evidence)
    }

    constructor ()
      ensures Valid() && file == None && invoked == map[] && evidence == NO_EVIDENCE && !cut
    {
      file, invoked, evidence, cut := None, map[], NO_EVIDENCE, false;
    }

    method Load() returns (state: TaskState)
      ensures fresh(state)
      ensures state.Snapshot() == if file.Some? then file.value else FRESH
    {
      state := new TaskState(if file.Some? then file.value else FRESH);
    }

    /** Atomic replacement: dying in it leaves the old file or the new one. */
    method Save(state: TaskState) returns (alive: bool)
      modifies this`file, this`cut
      ensures alive ==> file == Some(state.Snapshot())
      ensures file == old(file) || file == Some(state.Snapshot())
      ensures cut <==> old(cut) || !alive
    {
      alive := *;
      cut := cut || !alive;
      var replaced: bool := *;
      if alive || replaced {
        file := Some(state.Snapshot());
      }
    }

    /** The activity ledger takes no part in the guarantees, but writing to it may raise. */
    method AppendEvent() returns (alive: bool)
      modifies this`cut
      ensures cut <==> old(cut) || !alive
    {
      alive := *;
      cut := cut || !alive;
    }

    /** Artifacts are merged into the state; a conflicting update escapes. */
    method MergeArtifacts() returns (merged: bool)
      modifies this`cut
      ensures cut <==> old(cut) || !merged
    {
      merged := *;
      cut := cut || !merged;
    }
  }

  /** Everything but the last error is the same: the file keeps the state's guarantees. */
  ghost predicate SameProgress(c: Checkpoint, d: Checkpoint) {
    && c.completed == d.completed && c.attempts == d.attempts && c.status == d.status
    && c.reconciliations == d.reconciliations && c.fingerprint == d.fingerprint
  }

  /** The next checkpoint of the same task: nothing completed or reconciled is ever forgotten. */
  ghost predicate Follows(before: Option<Checkpoint>, after: Option<Checkpoint>) {
    before.Some? ==>
      && after.Some? && before.value.completed <= after.value.completed
      && before.value.reconciliations <= after.value.reconciliations
      && before.value.fingerprint == after.value.fingerprint
  }

  /** How a turn of the retry loop, or the whole step, ends. */
  datatype StepResult = Succeeded | Retry | Stopped | Dead

  datatype RunOutcome =
    | Ended(status: Status, completed: seq<string>, executed: seq<string>, skipped: seq<string>)
    | Rejected
    | Crashed

  /** Steps attempted but not completed; their outcome outside is unknown. */
  function Unresolved(c: Checkpoint): set<string> {
    set id | id in c.attempts && c.attempts[id] > 0 && id !in c.completed
  }

  /** No other step's attempts have changed. */
  ghost predicate SameElsewhere(after: map<string, nat>, before: map<string, nat>, step: string) {
    forall id :: id != step ==> Count(after, id) == Count(before, id)
  }

  /** Nothing but the attempts of one step has moved. */
  ghost predicate OnlyAttempted(store: FileStore, state: TaskState, spec: TaskSpec, done: seq<string>,
                                start: map<string, nat>, step: string)
    reads store, state
  {
    Live(store, state, spec) && state.completed == done && SameElsewhere(state.attempts, start, step)
  }

  lemma OneMoreAttempt(before: map<string, nat>, start: map<string, nat>, step: string)
    requires SameElsewhere(before, start, step)
    ensures SameElsewhere(before[step := Count(before, step) + 1], start, step)
  {
  }

  /** A running state that agrees with the file and keeps its guarantees. */
  ghost predicate Live(store: FileStore, state: TaskState, spec: TaskSpec)
    reads store, state
  {
    && state.status == Running && state.fingerprint == Some(spec) && spec.Valid()
    && Sound(state.Snapshot(), store.invoked, store.evidence)
    && store.file.Some? && SameProgress(store.file.value, state.Snapshot())
  }

  lemma SameProgressSound(c: Checkpoint, d: Checkpoint, invoked: map<string, nat>, ev: Evidence)
    requires SameProgress(c, d) && Sound(d, invoked, ev)
    ensures Sound(c, invoked, ev)
  {
    forall i | 0 <= i < |c.fingerprint.value.steps|
      ensures Budget(c, c.fingerprint.value.steps[i]) == Budget(d, d.fingerprint.value.steps[i]) {
    }
  }

  lemma LiveIsValid(store: FileStore, state: TaskState, spec: TaskSpec)
    requires Live(store, state, spec)
    ensures store.Valid()
  {
    SameProgressSound(store.file.value, state.Snapshot(), store.invoked, store.evidence);
  }

  /** Why a run stopped at this step, by how its last call and its verifier ended. */
  predicate StoppedAt(step: StepSpec, c: Checkpoint, ev: Evidence, actions: set<string>) {
    || (c.status == Failed && step.retrySafe && Count(c.attempts, step.id) >= step.maxAttempts
        && c.lastError.Some? && LastEnd(ev, step.id, RaisedError(c.lastError.value)))
    || (c.status == Blocked && c.blockedReason.Some? && BlockedFor(c.blockedReason.value, step, c.lastError, ev, actions))
  }

  predicate BlockedFor(reason: Reason, step: StepSpec, error: Option<SafeError>, ev: Evidence, actions: set<string>) {
    match reason
    case InterruptedSteps(_) => false
    case ActionUnavailable(action) => action == step.action && action !in actions
    case ActionBlocked => LastEnd(ev, step.id, BlockedAction)
    case ActionError => !step.retrySafe && error.Some? && LastEnd(ev, step.id, RaisedError(error.value))
    case VerifierUnavailable(action) => step.Verifier() == Some(action) && action !in actions
    case VerificationError => error.Some? && LastVerdict(ev, step.id, VerifierRaised(error.value))
    case VerificationFailed(action) => step.Verifier() == Some(action) && LastVerdict(ev, step.id, NotPassed)
  }

  /** How one turn of the retry loop ends, by how the call ended. */
  ghost predicate TurnFollows(r: StepResult, step: StepSpec, c: Checkpoint, ev: Evidence, actions: set<string>) {
    && (r.Succeeded? ==> LastEnd(ev, step.id, Returned))
    && (r.Retry? ==> step.retrySafe && step.id in ev.ends && ev.ends[step.id].RaisedError?)
    && (r.Stopped? ==> StoppedAt(step, c, ev, actions))
  }

  ghost predicate StoppedSomewhere(spec: TaskSpec, c: Checkpoint, ev: Evidence, actions: set<string>) {
    exists i :: 0 <= i < |spec.steps| && StoppedAt(spec.steps[i], c, ev, actions)
  }

  /** How a run that acts ends: completed, or stopped at a step for what came of it, unless it was cut. */
  ghost predicate RunFollows(r: RunOutcome, spec: TaskSpec, store: FileStore, actions: set<string>)
    reads store
  {
    && (r.Crashed? ==> store.cut)
    && (r.Ended? && r.status != Completed ==> store.file.Some? && StoppedSomewhere(spec, store.file.value, store.evidence, actions))
  }

  /** The loop is over: the step succeeded, or the run stopped here, or was cut. */
  ghost predicate TurnEnds(r: StepResult, step: StepSpec, store: FileStore, state: TaskState, actions: set<string>)
    reads store, state
  {
    && TurnFollows(r, step, state.Snapshot(), store.evidence, actions) && (r.Dead? ==> store.cut)
    && (r.Stopped? ==> store.file == Some(state.Snapshot()) && state.status in {Blocked, Failed})
  }

  class Runner {
    const store: FileStore
    const actions: set<string>

    constructor (store: FileStore, actions: set<string>)
      ensures this.store == store && this.actions == actions
    {
      this.store, this.actions := store, actions;
    }

    /** The action is called: from here on it may have had its effect, whatever is returned. */
    method CallAction(id: string) returns (r: ActionResult)
      modifies store`invoked, store`evidence, store`cut
      ensures store.invoked == old(store.invoked)[id := Count(old(store.invoked), id) + 1]
      ensures store.evidence == AfterEnd(old(store.evidence), id, r)
      ensures store.cut <==> old(store.cut) || r.Escaped?
    {
      r := *;
      store.invoked := store.invoked[id := Count(store.invoked, id) + 1];
      store.evidence := AfterEnd(store.evidence, id, r);
      store.cut := store.cut || r.Escaped?;
    }

    method CallVerifier(id: string) returns (r: VerifyResult)
      modifies store`evidence, store`cut
      ensures store.evidence == old(store.evidence).(verdicts := old(store.evidence).verdicts[id := r])
      ensures store.cut <==> old(store.cut) || r.VerifierEscaped?
    {
      r := *;
      store.evidence := store.evidence.(verdicts := store.evidence.verdicts[id := r]);
      store.cut := store.cut || r.VerifierEscaped?;
    }

    method Block(state: TaskState, reason: Reason, error: Option<SafeError>) returns (alive: bool)
      modifies state, store`file, store`cut
      ensures state.Snapshot() == old(state.Snapshot()).(status := Blocked, blockedReason := Some(reason), lastError := error)
      ensures alive ==> store.file == Some(state.Snapshot())
      ensures store.file == old(store.file) || store.file == Some(state.Snapshot())
      ensures !alive ==> store.cut
    {
      state.status := Blocked;
      state.blockedReason := Some(reason);
      state.lastError := error;
      alive := store.Save(state);
      if alive {
        alive := store.AppendEvent();
      }
    }

    /** Put the next attempt on disk: after this the file allows one more call than were made. */
    method PersistAttempt(spec: TaskSpec, i: nat, state: TaskState) returns (alive: bool)
      requires Live(store, state, spec) && i < |spec.steps|
      requires Count(state.attempts, spec.steps[i].id) < spec.steps[i].maxAttempts
      modifies state`attempts, store`file, store`cut
      ensures store.Valid() && Follows(old(store.file), store.file)
      ensures state.attempts == old(state.attempts)[spec.steps[i].id := Count(old(state.attempts), spec.steps[i].id) + 1]
      ensures if alive then Live(store, state, spec) && Count(store.invoked, spec.steps[i].id) < Budget(state.Snapshot(), spec.steps[i])
              else store.cut
    {
      var step := spec.steps[i];
      ghost var before := state.Snapshot();
      state.attempts := state.attempts[step.id := Count(state.attempts, step.id) + 1];
      AttemptSound(before, state.Snapshot(), store.invoked, store.evidence, i);
      SameProgressSound(store.file.value, before, store.invoked, store.evidence);
      alive := store.Save(state);
      if alive {
        alive := store.AppendEvent();
      }
    }

    /** The action raised: only a retry-safe step with attempts left may go round again. */
    method AfterError(spec: TaskSpec, i: nat, state: TaskState, error: SafeError) returns (r: StepResult)
      requires Live(store, state, spec) && i < |spec.steps|
      requires Count(state.attempts, spec.steps[i].id) <= spec.steps[i].maxAttempts
      requires LastEnd(store.evidence, spec.steps[i].id, RaisedError(error))
      modifies state, store`file, store`cut
      ensures store.Valid() && Follows(old(store.file), store.file) && r != Succeeded
      ensures TurnFollows(r, spec.steps[i], state.Snapshot(), store.evidence, actions) && (r.Dead? ==> store.cut)
      ensures r.Retry? ==>
                && spec.steps[i].retrySafe && Count(state.attempts, spec.steps[i].id) < spec.steps[i].maxAttempts
                && Live(store, state, spec) && state.completed == old(state.completed) && state.attempts == old(state.attempts)
      ensures r.Stopped? ==> store.file == Some(state.Snapshot()) && state.status in {Blocked, Failed}
    {
      var step := spec.steps[i];
      SameProgressSound(store.file.value, state.Snapshot(), store.invoked, store.evidence);
      state.lastError := Some(error);
      SameProgressSound(state.Snapshot(), store.file.value, store.invoked, store.evidence);
      var alive := store.AppendEvent();
      if !alive {
        return Dead;
      }
      if !step.retrySafe {
        r := BlockStep(spec, state, ActionError, Some(error));
        return;
      }
      if Count(state.attempts, step.id) >= step.maxAttempts {
        r := FailStep(spec, state);
        return;
      }
      return Retry;
    }

    /** The call itself, within what the file allows. */
    method CallStep(spec: TaskSpec, i: nat, state: TaskState) returns (r: ActionResult)
      requires Live(store, state, spec) && i < |spec.steps| && spec.steps[i].id !in state.completed
      requires Count(store.invoked, spec.steps[i].id) < Budget(state.Snapshot(), spec.steps[i])
      modifies store`invoked, store`evidence, store`cut
      ensures Live(store, state, spec) && LastEnd(store.evidence, spec.steps[i].id, r) && (r.Escaped? ==> store.cut)
    {
      CallSoundAll(state.Snapshot(), store.invoked, store.evidence, i);
      r := CallAction(spec.steps[i].id);
    }

    /**
     One turn of the retry loop. The attempt is on disk before the action is called, so the
     calls never exceed what the file allows, even if the process dies during the call.
     */
    method AttemptOnce(spec: TaskSpec, i: nat, state: TaskState) returns (r: StepResult)
      requires Live(store, state, spec) && i < |spec.steps| && spec.steps[i].id !in state.completed
      requires Count(state.attempts, spec.steps[i].id) < spec.steps[i].maxAttempts
      modifies state, store`file, store`invoked, store`evidence, store`cut
      ensures store.Valid() && Follows(old(store.file), store.file)
      ensures r.Succeeded? || r.Retry? ==>
                && Live(store, state, spec) && state.completed == old(state.completed)
                && state.attempts == old(state.attempts)[spec.steps[i].id := Count(old(state.attempts), spec.steps[i].id) + 1]
      ensures r.Retry? ==> Count(state.attempts, spec.steps[i].id) < spec.steps[i].maxAttempts
      ensures TurnEnds(r, spec.steps[i], store, state, actions)
    {
      var alive := PersistAttempt(spec, i, state);
      if !alive {
        return Dead;
      }
      var result := CallStep(spec, i, state);
      r := AfterCall(spec, i, state, result);
    }

    /** What follows a call: only a return lets the step go on, only an error lets it go round again. */
    method AfterCall(spec: TaskSpec, i: nat, state: TaskState, result: ActionResult) returns (r: StepResult)
      requires Live(store, state, spec) && i < |spec.steps| && LastEnd(store.evidence, spec.steps[i].id, result)
      requires Count(state.attempts, spec.steps[i].id) <= spec.steps[i].maxAttempts && (result.Escaped? ==> store.cut)
      modifies state, store`file, store`cut
      ensures store.Valid() && Follows(old(store.file), store.file)
      ensures r.Succeeded? || r.Retry? ==>
                && Live(store, state, spec) && state.completed == old(state.completed) && state.attempts == old(state.attempts)
      ensures r.Retry? ==> Count(state.attempts, spec.steps[i].id) < spec.steps[i].maxAttempts
      ensures TurnEnds(r, spec.steps[i], store, state, actions)
    {
      SameProgressSound(store.file.value, state.Snapshot(), store.invoked, store.evidence);
      match result {
        case Returned => r := Succeeded;
        case Escaped => r := Dead;
        case BlockedAction => r := BlockHere(spec, i, state, ActionBlocked, None);
        case RaisedError(error) => r := AfterError(spec, i, state, error);
      }
    }

    method BlockStep(spec: TaskSpec, state: TaskState, reason: Reason, error: Option<SafeError>) returns (r: StepResult)
      requires Live(store, state, spec)
      modifies state, store`file, store`cut
      ensures store.Valid() && Follows(old(store.file), store.file)
      ensures r == Dead || r == Stopped
      ensures r == Stopped ==> store.file == Some(state.Snapshot()) && state.status == Blocked
                               && state.blockedReason == Some(reason) && state.lastError == error
      ensures r.Dead? ==> store.cut
    {
      ghost var before := state.Snapshot();
      SameProgressSound(store.file.value, before, store.invoked, store.evidence);
      StatusSound(before, before.(status := Blocked, blockedReason := Some(reason), lastError := error),
                  store.invoked, store.evidence);
      var alive := Block(state, reason, error);
      return if alive then Stopped else Dead;
    }

    /** The same for a reason that lies in this step. */
    method BlockHere(spec: TaskSpec, i: nat, state: TaskState, reason: Reason, error: Option<SafeError>) returns (r: StepResult)
      requires Live(store, state, spec) && i < |spec.steps|
      requires BlockedFor(reason, spec.steps[i], error, store.evidence, actions)
      modifies state, store`file, store`cut
      ensures store.Valid() && Follows(old(store.file), store.file)
      ensures r == Dead || r == Stopped
      ensures r == Stopped ==> store.file == Some(state.Snapshot()) && state.status == Blocked
      ensures r == Stopped ==> StoppedAt(spec.steps[i], state.Snapshot(), store.evidence, actions)
      ensures r.Dead? ==> store.cut
    {
      r := BlockStep(spec, state, reason, error);
    }

    method FailStep(spec: TaskSpec, state: TaskState) returns (r: StepResult)
      requires Live(store, state, spec)
      modifies state, store`file, store`cut
      ensures store.Valid() && Follows(old(store.file), store.file)
      ensures r == Dead || r == Stopped
      ensures r == Stopped ==> store.file == Some(state.Snapshot()) && state.status == Failed
                               && state.lastError == old(state.lastError) && state.attempts == old(state.attempts)
      ensures r.Dead? ==> store.cut
    {
      ghost var before := state.Snapshot();
      SameProgressSound(store.file.value, before, store.invoked, store.evidence);
      state.status := Failed;
      state.blockedReason := None;
      StatusSound(before, state.Snapshot(), store.invoked, store.evidence);
      var alive := store.Save(state);
      if alive {
        alive := store.AppendEvent();
      }
      return if alive then Stopped else Dead;
    }

    /** The retry loop of one step, which has not been attempted before. */
    method AttemptStep(spec: TaskSpec, i: nat, state: TaskState) returns (r: StepResult)
      requires Live(store, state, spec) && i < |spec.steps| && spec.steps[i].id !in state.completed
      requires Count(state.attempts, spec.steps[i].id) == 0
      modifies state, store`file, store`invoked, store`evidence, store`cut
      ensures store.Valid() && Follows(old(store.file), store.file) && r != Retry
      ensures r == Succeeded ==>
                && Live(store, state, spec) && state.completed == old(state.completed)
                && SameElsewhere(state.attempts, old(state.attempts), spec.steps[i].id)
      ensures TurnEnds(r, spec.steps[i], store, state, actions)
    {
      var step := spec.steps[i];
      ghost var start, done := state.attempts, state.completed;
      r := Retry;
      while r == Retry
        invariant store.Valid() && Follows(old(store.file), store.file)
        invariant r == Retry || r == Succeeded ==> OnlyAttempted(store, state, spec, done, start, step.id)
        invariant r == Retry ==> Count(state.attempts, step.id) < step.maxAttempts
        invariant r != Retry ==> TurnEnds(r, step, store, state, actions)
        decreases r == Retry, step.maxAttempts - Count(state.attempts, step.id)
      {
        OneMoreAttempt(state.attempts, start, step.id);
        r := AttemptOnce(spec, i, state);
      }
    }

    /** Artifacts and the verifier: the step counts as done only when both went through. */
    method VerifyStep(spec: TaskSpec, i: nat, state: TaskState) returns (r: StepResult)
      requires Live(store, state, spec) && i < |spec.steps| && spec.steps[i].id !in state.completed
      requires LastEnd(store.evidence, spec.steps[i].id, Returned)
      modifies state, store`file, store`evidence, store`cut
      ensures store.Valid() && Follows(old(store.file), store.file) && r != Retry
      ensures r.Succeeded? ==>
                && Live(store, state, spec) && Proved(spec.steps[i], store.evidence)
                && state.completed == old(state.completed) && state.attempts == old(state.attempts)
      ensures r.Stopped? ==> store.file == Some(state.Snapshot()) && state.status == Blocked
      ensures r.Stopped? ==> StoppedAt(spec.steps[i], state.Snapshot(), store.evidence, actions)
      ensures r.Dead? ==> store.cut
    {
      SameProgressSound(store.file.value, state.Snapshot(), store.invoked, store.evidence);
      var merged := store.MergeArtifacts();
      if !merged {
        return Dead;
      }
      var alive := store.Save(state);
      if !alive {
        return Dead;
      }
      if spec.steps[i].Verifier().None? {
        return Succeeded;
      }
      var verifier := spec.steps[i].Verifier().value;
      if verifier !in actions {
        r := BlockStep(spec, state, VerifierUnavailable(verifier), None);
        return;
      }
      r := RunVerifier(spec, i, state);
    }

    /** The verifier is asked about a step that is not completed. */
    method AskVerifier(spec: TaskSpec, i: nat, state: TaskState) returns (r: VerifyResult)
      requires Live(store, state, spec) && i < |spec.steps| && spec.steps[i].id !in state.completed
      requires LastEnd(store.evidence, spec.steps[i].id, Returned)
      modifies store`evidence, store`cut
      ensures Live(store, state, spec) && LastVerdict(store.evidence, spec.steps[i].id, r)
      ensures LastEnd(store.evidence, spec.steps[i].id, Returned) && (r.VerifierEscaped? ==> store.cut)
    {
      ghost var before := store.evidence;
      r := CallVerifier(spec.steps[i].id);
      VerdictSound(state.Snapshot(), store.invoked, before, spec.steps[i].id, r);
    }

    /** The verifier: only a pass lets the step go on. */
    method RunVerifier(spec: TaskSpec, i: nat, state: TaskState) returns (r: StepResult)
      requires Live(store, state, spec) && i < |spec.steps| && spec.steps[i].id !in state.completed
      requires LastEnd(store.evidence, spec.steps[i].id, Returned) && spec.steps[i].Verifier().Some?
      modifies state, store`file, store`evidence, store`cut
      ensures store.Valid() && Follows(old(store.file), store.file) && r != Retry
      ensures r.Succeeded? ==>
                && Live(store, state, spec) && Proved(spec.steps[i], store.evidence)
                && state.completed == old(state.completed) && state.attempts == old(state.attempts)
      ensures r.Stopped? ==> store.file == Some(state.Snapshot()) && state.status == Blocked
      ensures r.Stopped? ==> StoppedAt(spec.steps[i], state.Snapshot(), store.evidence, actions)
      ensures r.Dead? ==> store.cut
    {
      var verdict := AskVerifier(spec, i, state);
      SameProgressSound(store.file.value, state.Snapshot(), store.invoked, store.evidence);
      match verdict {
        case VerifierEscaped => return Dead;
        case VerifierRaised(error) => r := BlockHere(spec, i, state, VerificationError, Some(error));
        case NotPassed => r := BlockHere(spec, i, state, VerificationFailed(spec.steps[i].Verifier().value), None);
        case Passed =>
          var alive := store.AppendEvent();
          r := if alive then Succeeded else Dead;
      }
    }

    /** One step not completed before: attempt, verify, record. */
    method PerformStep(spec: TaskSpec, i: nat, state: TaskState) returns (r: StepResult)
      requires Live(store, state, spec) && i < |spec.steps|
      requires spec.steps[i].id !in state.completed && Count(state.attempts, spec.steps[i].id) == 0
      modifies state, store`file, store`invoked, store`evidence, store`cut
      ensures store.Valid() && Follows(old(store.file), store.file) && r != Retry
      ensures r.Succeeded? ==>
                && Live(store, state, spec) && state.completed == old(state.completed) + [spec.steps[i].id]
                && SameElsewhere(state.attempts, old(state.attempts), spec.steps[i].id)
      ensures r.Stopped? ==> store.file == Some(state.Snapshot()) && state.status in {Blocked, Failed}
      ensures r.Stopped? ==> StoppedAt(spec.steps[i], state.Snapshot(), store.evidence, actions)
      ensures r.Dead? ==> store.cut
    {
      r := AttemptStep(spec, i, state);
      if r.Succeeded? {
        r := VerifyStep(spec, i, state);
      }
      if r.Succeeded? {
        r := RecordStep(spec, i, state);
      }
    }

    /** Record a step whose action returned and whose verifier passed. */
    method RecordStep(spec: TaskSpec, i: nat, state: TaskState) returns (r: StepResult)
      requires Live(store, state, spec) && i < |spec.steps|
      requires spec.steps[i].id !in state.completed && Proved(spec.steps[i], store.evidence)
      modifies state, store`file, store`cut
      ensures store.Valid() && Follows(old(store.file), store.file) && (r.Succeeded? || (r.Dead? && store.cut))
      ensures r.Succeeded? ==>
                && Live(store, state, spec) && state.completed == old(state.completed) + [spec.steps[i].id]
                && state.attempts == old(state.attempts)
    {
      ghost var before := state.Snapshot();
      LiveIsValid(store, state, spec);
      state.completed := state.completed + [spec.steps[i].id];
      state.lastError := None;
      CompletedSound(before, state.Snapshot(), store.invoked, store.evidence, i);
      var alive := store.Save(state);
      if alive {
        alive := store.AppendEvent();
      }
      r := if alive then Succeeded else Dead;
    }

    /** One step of the pass: skip it if it is completed, otherwise perform it. */
    method TakeStep(spec: TaskSpec, i: nat, state: TaskState, ghost done: seq<string>,
                    executed: seq<string>, skipped: seq<string>)
      returns (r: StepResult, executed': seq<string>, skipped': seq<string>)
      requires Live(store, state, spec) && i < |spec.steps| && AttemptsResolved(state.attempts, state.completed)
      requires PassSoFar(StepIds(spec.steps), i, done, executed, skipped, state.completed)
      modifies state, store`file, store`invoked, store`evidence, store`cut
      ensures store.Valid() && Follows(old(store.file), store.file) && r != Retry
      ensures r.Succeeded? ==>
                && Live(store, state, spec) && AttemptsResolved(state.attempts, state.completed)
                && PassSoFar(StepIds(spec.steps), i + 1, done, executed', skipped', state.completed)
      ensures r.Stopped? ==> store.file == Some(state.Snapshot()) && state.status in {Blocked, Failed}
      ensures r.Stopped? ==> StoppedAt(spec.steps[i], state.Snapshot(), store.evidence, actions)
      ensures r.Dead? ==> store.cut
    {
      executed', skipped' := executed, skipped;
      NextOfPass(StepIds(spec.steps), i, done, executed, skipped, state.completed);
      SameProgressSound(store.file.value, state.Snapshot(), store.invoked, store.evidence);
      if spec.steps[i].id in state.completed {
        skipped' := skipped + [spec.steps[i].id];
        var alive := store.AppendEvent();
        r := if alive then Succeeded else Dead;
      } else if spec.steps[i].action !in actions {
        r := BlockStep(spec, state, ActionUnavailable(spec.steps[i].action), None);
      } else {
        r := PerformStep(spec, i, state);
        executed' := executed + [spec.steps[i].id];
      }
    }

    /** The pass over the steps of a run that is under way. */
    method PerformSteps(spec: TaskSpec, state: TaskState) returns (r: StepResult, executed: seq<string>, skipped: seq<string>)
      requires Live(store, state, spec) && AttemptsResolved(state.attempts, state.completed)
      modifies state, store`file, store`invoked, store`evidence, store`cut
      ensures store.Valid() && Follows(old(store.file), store.file) && r != Retry
      ensures r.Succeeded? ==>
                && Live(store, state, spec)
                && PassSoFar(StepIds(spec.steps), |spec.steps|, old(state.completed), executed, skipped, state.completed)
      ensures r.Stopped? ==> store.file == Some(state.Snapshot()) && state.status in {Blocked, Failed}
      ensures r.Stopped? ==> StoppedSomewhere(spec, state.Snapshot(), store.evidence, actions)
      ensures r.Dead? ==> store.cut
    {
      ghost var done := state.completed;
      LiveIsValid(store, state, spec);
      executed, skipped := [], [];
      r := Succeeded;
      for i := 0 to |spec.steps|
        invariant r == Succeeded && store.Valid() && Follows(old(store.file), store.file)
        invariant Live(store, state, spec) && AttemptsResolved(state.attempts, state.completed)
        invariant PassSoFar(StepIds(spec.steps), i, done, executed, skipped, state.completed)
      {
        r, executed, skipped := TakeStep(spec, i, state, done, executed, skipped);
        if r != Succeeded {
          return;
        }
      }
    }

    method BeginRun(spec: TaskSpec, state: TaskState) returns (alive: bool)
      requires store.file == Some(state.Snapshot()) && state.fingerprint == Some(spec) && spec.Valid()
      requires Sound(state.Snapshot(), store.invoked, store.evidence) && state.status in {Pending, Running}
      requires Unresolved(state.Snapshot()) == {}
      modifies state, store`file, store`cut
      ensures store.Valid() && Follows(old(store.file), store.file)
      ensures state.completed == old(state.completed)
      ensures alive ==> Live(store, state, spec) && AttemptsResolved(state.attempts, state.completed)
      ensures !alive ==> store.cut
    {
      forall id | Count(state.attempts, id) > 0 ensures id in state.completed {
        assert id !in Unresolved(state.Snapshot());
      }
      StatusSound(state.Snapshot(), state.Snapshot().(status := Running, blockedReason := None, lastError := None),
                  store.invoked, store.evidence);
      state.status, state.blockedReason, state.lastError := Running, None, None;
      alive := store.Save(state);
      if alive {
        alive := store.AppendEvent();
      }
    }

    /** The part of a run that acts: mark it running, pass over the steps, mark it completed. */
    method RunSteps(spec: TaskSpec, state: TaskState) returns (r: RunOutcome)
      requires store.file == Some(state.Snapshot()) && state.fingerprint == Some(spec) && spec.Valid()
      requires Sound(state.Snapshot(), store.invoked, store.evidence) && state.status in {Pending, Running}
      requires Unresolved(state.Snapshot()) == {}
      modifies state, store`file, store`invoked, store`evidence, store`cut
      ensures store.Valid() && Follows(old(store.file), store.file) && r != Rejected
      ensures RunFollows(r, spec, store, actions)
      ensures r.Ended? ==> EndedAs(store.file, r)
      ensures r.Ended? && r.status == Completed ==>
                && r.executed == Dropped(StepIds(spec.steps), old(state.completed))
                && r.skipped == Kept(StepIds(spec.steps), old(state.completed))
    {
      var alive := BeginRun(spec, state);
      if !alive {
        return Crashed;
      }
      r := PassAndFinish(spec, state);
    }

    method PassAndFinish(spec: TaskSpec, state: TaskState) returns (r: RunOutcome)
      requires Live(store, state, spec) && AttemptsResolved(state.attempts, state.completed)
      modifies state, store`file, store`invoked, store`evidence, store`cut
      ensures store.Valid() && Follows(old(store.file), store.file) && r != Rejected
      ensures RunFollows(r, spec, store, actions)
      ensures r.Ended? ==> EndedAs(store.file, r)
      ensures r.Ended? && r.status == Completed ==>
                && r.executed == Dropped(StepIds(spec.steps), old(state.completed))
                && r.skipped == Kept(StepIds(spec.steps), old(state.completed))
    {
      ghost var started := state.completed;
      var result, executed, skipped := PerformSteps(spec, state);
      if result == Dead {
        return Crashed;
      }
      if result == Stopped {
        return Ended(state.status, state.completed, executed, skipped);
      }
      PassFinished(StepIds(spec.steps), started, executed, skipped, state.completed);
      r := FinishRun(spec, state, executed, skipped);
    }

    method FinishRun(spec: TaskSpec, state: TaskState, executed: seq<string>, skipped: seq<string>) returns (r: RunOutcome)
      requires Live(store, state, spec)
      requires forall i :: 0 <= i < |spec.steps| ==> StepIds(spec.steps)[i] in state.completed
      modifies state, store`file, store`cut
      ensures store.Valid() && Follows(old(store.file), store.file)
      ensures r == Crashed ==> store.cut
      ensures r == Crashed || (r == Ended(Completed, state.completed, executed, skipped)
                                  && state.status == Completed && store.file == Some(state.Snapshot()))
    {
      ghost var before := state.Snapshot();
      LiveIsValid(store, state, spec);
      forall i | 0 <= i < |spec.steps| ensures spec.steps[i].id in state.completed {
        assert StepIds(spec.steps)[i] == spec.steps[i].id;
      }
      state.status, state.blockedReason, state.lastError := Completed, None, None;
      AllDoneSound(before, state.Snapshot(), store.invoked, store.evidence);
      var alive := store.Save(state);
      if alive {
        alive := store.AppendEvent();
      }
      return if alive then Ended(state.status, state.completed, executed, skipped) else Crashed;
    }

    /**
     `_run_locked`. Nothing is invoked from a terminal or unresolved state, from a file of
     another specification, or from one without any; a completing run accounts for every
     step; and what the file guarantees survives every way of ending.
     */
    method RunLocked(spec: TaskSpec) returns (r: RunOutcome)
      requires store.Valid()
      modifies store
      ensures store.Valid() && Follows(old(store.file), store.file)
      ensures MustNotAct(old(store.file), spec) ==> store.invoked == old(store.invoked) && store.evidence == old(store.evidence)
      ensures old(store.file).Some?
              && (Terminal(old(store.file).value.status) || old(store.file).value.fingerprint != Some(spec)) ==>
                store.file == old(store.file)
      ensures r.Rejected? <==> !spec.Valid() || (old(store.file).Some? && old(store.file).value.fingerprint != Some(spec))
      ensures r.Ended? ==> EndedAs(store.file, r)
      ensures r.Crashed? ==> store.cut
      ensures !MustNotAct(old(store.file), spec) ==> RunFollows(r, spec, store, actions)
      ensures r.Ended? && old(store.file).Some? && Terminal(old(store.file).value.status) ==> r.status == old(store.file).value.status
      ensures r.Ended? && Interrupted(old(store.file)) ==>
                r.status == Blocked && store.file.value.blockedReason == Some(InterruptedSteps(Unresolved(old(store.file).value)))
      ensures r.Ended? && r.status == Completed && !MustNotAct(old(store.file), spec) ==>
                && r.executed == Dropped(StepIds(spec.steps), Done(old(store.file)))
                && r.skipped == Kept(StepIds(spec.steps), Done(old(store.file)))
    {
      if !spec.Valid() {
        return Rejected;
      }
      var existed := store.file.Some?;
      var state := store.Load();
      if existed && state.fingerprint != Some(spec) {
        return Rejected;
      }
      if !existed {
        state.fingerprint := Some(spec);
        NothingInvokedSound(state.Snapshot(), spec);
        var alive := store.Save(state);
        if !alive {
          return Crashed;
        }
      }
      if Terminal(state.status) {
        var alive := store.AppendEvent();
        return if alive then Ended(state.status, state.completed, [], []) else Crashed;
      }
      var unresolved := Unresolved(state.Snapshot());
      if unresolved != {} {
        StatusSound(state.Snapshot(),
                    state.Snapshot().(status := Blocked, blockedReason := Some(InterruptedSteps(unresolved)), lastError := None),
                    store.invoked, store.evidence);
        var alive := Block(state, InterruptedSteps(unresolved), None);
        return if alive then Ended(state.status, state.completed, [], []) else Crashed;
      }
      r := RunSteps(spec, state);
    }

    /**
     The operator's reconciliation of a blocked task. `not_applied` gives the step its
     attempts back, `applied_and_verified` marks it completed, and the decision is on record.
     */
    method ReconcileBlockedStep(step: string, resolution: Resolution, note: string) returns (accepted: bool)
      requires store.Valid()
      modifies store`file, store`cut
      ensures store.Valid() && Follows(old(store.file), store.file)
      ensures accepted ==>
                && old(store.file).Some? && old(store.file).value.status == Blocked && NonBlank(step) && NonBlank(note)
                && store.file == Some(Reconciled(old(store.file).value, step, resolution))
      ensures store.file == old(store.file)
              || (old(store.file).Some? && store.file == Some(Reconciled(old(store.file).value, step, resolution)))
    {
      if !NonBlank(step) || !NonBlank(note) {
        return false;
      }
      var state := store.Load();
      if state.status != Blocked {
        return false;
      }
      var merged: bool := *;  // a conflicting artifact update escapes
      if !merged {
        return false;
      }
      DurableReconciled(store.file, store.invoked, store.evidence, step, resolution);
      state.reconciliations := state.reconciliations + [Reconciliation(step, resolution)];
      match resolution {
        case NotApplied =>
          state.status, state.blockedReason, state.lastError := Pending, None, None;
          state.attempts := state.attempts - {step};
        case AppliedAndVerified =>
          if step !in state.completed {
            state.completed := state.completed + [step];
          }
          state.status, state.blockedReason, state.lastError := Pending, None, None;
        case NeedsManualAction =>
          state.status := Blocked;
      }
      accepted := store.Save(state);
    }

    /**
     A task's whole life: any sequence of runs, under any specifications, and of
     reconciliations, each of which may die anywhere. Completed steps and decisions are
     never forgotten, and the bound on calls holds at the end.
     */
    method Lifetime(ops: seq<Operation>)
      requires store.Valid()
      modifies store
      ensures store.Valid() && Follows(old(store.file), store.file)
      ensures store.file.Some? && store.file.value.fingerprint.Some? ==>
                forall step :: step in store.file.value.fingerprint.value.steps ==>
                  && CallsBounded(store.file.value, step, store.invoked)
                  && (store.file.value.status == Completed ==> TrulyDone(store.file.value, step, store.evidence))
    {
      for k := 0 to |ops|
        invariant store.Valid() && Follows(old(store.file), store.file)
      {
        match ops[k] {
          case Run(spec) => var _ := RunLocked(spec);
          case Reconcile(step, resolution, note) => var _ := ReconcileBlockedStep(step, resolution, note);
        }
      }
      if store.file.Some? && store.file.value.fingerprint.Some? {
        forall step | step in store.file.value.fingerprint.value.steps
          ensures CallsBounded(store.file.value, step, store.invoked)
          ensures store.file.value.status == Completed ==> TrulyDone(store.file.value, step, store.evidence) {
          InvocationBound(store.file.value, store.invoked, store.evidence, step);
        }
      }
    }
  }

  /** The outcome reports the terminal state that is on disk. */
  predicate EndedAs(file: Option<Checkpoint>, r: RunOutcome) {
    r.Ended? && file.Some? && r.status == file.value.status && r.completed == file.value.completed && Terminal(r.status)
  }

  datatype Operation = Run(spec: TaskSpec) | Reconcile(step: string, resolution: Resolution, note: string)

  /** The states from which a run of `spec` may call nothing. */
  predicate MustNotAct(file: Option<Checkpoint>, spec: TaskSpec) {
    || !spec.Valid()
    || (file.Some? && (file.value.fingerprint != Some(spec) || Terminal(file.value.status) || Unresolved(file.value) != {}))
  }

  /** A task under way with a step begun and not completed. */
  predicate Interrupted(file: Option<Checkpoint>) {
    file.Some? && !Terminal(file.value.status) && Unresolved(file.value) != {}
  }

  function Done(file: Option<Checkpoint>): seq<string> {
    if file.Some? then file.value.completed else []
  }

  /** The checkpoint a reconciliation writes. */
  function Reconciled(c: Checkpoint, step: string, resolution: Resolution): Checkpoint {
    var recorded := c.(reconciliations := c.reconciliations + [Reconciliation(step, resolution)]);
    match resolution
    case NotApplied =>
      recorded.(status := Pending, blockedReason := None, lastError := None, attempts := c.attempts - {step})
    case AppliedAndVerified =>
      recorded.(status := Pending, blockedReason := None, lastError := None,
                completed := if step in c.completed then c.completed else c.completed + [step])
    case NeedsManualAction => recorded.(status := Blocked)
  }

  lemma BudgetReconciled(c: Checkpoint, step: string, resolution: Resolution, spec: StepSpec)
    requires Count(c.attempts, spec.id) <= spec.maxAttempts
    ensures Budget(Reconciled(c, step, resolution), spec) >= Budget(c, spec)
  {
    var r := Reconciliation(step, resolution);
    var n := NotAppliedCount(c.reconciliations, spec.id);
    NotAppliedCountOneMore(c.reconciliations, r, spec.id);
    assert spec.maxAttempts * (n + 1) == spec.maxAttempts * n + spec.maxAttempts;
  }

  lemma CompletedReconciled(c: Checkpoint, step: string, resolution: Resolution, steps: seq<StepSpec>, ev: Evidence)
    requires NoRepeats(c.completed)
    requires forall id :: id in c.completed ==> StepProved(steps, id, ev) || Reconciliation(id, AppliedAndVerified) in c.reconciliations
    ensures var after := Reconciled(c, step, resolution);
            && NoRepeats(after.completed)
            && forall id :: id in after.completed ==>
                 StepProved(steps, id, ev) || Reconciliation(id, AppliedAndVerified) in after.reconciliations
  {
    var after := Reconciled(c, step, resolution);
    assert after.reconciliations[|c.reconciliations|] == Reconciliation(step, resolution);
  }

  /** A reconciliation keeps the guarantees: a reset of the attempts is paid for by its record. */
  lemma ReconciledSound(c: Checkpoint, invoked: map<string, nat>, ev: Evidence, step: string, resolution: Resolution)
    requires Sound(c, invoked, ev) && c.status != Completed
    ensures Sound(Reconciled(c, step, resolution), invoked, ev)
  {
    var after := Reconciled(c, step, resolution);
    var steps := c.fingerprint.value.steps;
    forall i | 0 <= i < |steps| ensures Count(invoked, steps[i].id) <= Budget(after, steps[i]) {
      BudgetReconciled(c, step, resolution, steps[i]);
    }
    CompletedReconciled(c, step, resolution, steps, ev);
  }

  lemma DurableReconciled(file: Option<Checkpoint>, invoked: map<string, nat>, ev: Evidence,
                          step: string, resolution: Resolution)
    requires Durable(file, invoked, ev)
    ensures file.Some? && file.value.status == Blocked ==>
              && Durable(Some(Reconciled(file.value, step, resolution)), invoked, ev)
              && Follows(file, Some(Reconciled(file.value, step, resolution)))
  {
    if file.Some? && file.value.status == Blocked && file.value.fingerprint.Some? {
      ReconciledSound(file.value, invoked, ev, step, resolution);
    }
  }

  lemma NothingInvokedSound(c: Checkpoint, spec: TaskSpec)
    requires spec.Valid() && c == FRESH.(fingerprint := Some(spec))
    ensures Sound(c, map[], NO_EVIDENCE)
  {
    forall i | 0 <= i < |spec.steps| ensures Budget(c, spec.steps[i]) >= 0 {
      assert NotAppliedCount(c.reconciliations, spec.steps[i].id) == 0;
    }
  }

  lemma AllDoneSound(before: Checkpoint, after: Checkpoint, invoked: map<string, nat>, ev: Evidence)
    requires Sound(before, invoked, ev)
    requires after == before.(status := Completed, blockedReason := None, lastError := None)
    requires forall i :: 0 <= i < |before.fingerprint.value.steps| ==> before.fingerprint.value.steps[i].id in before.completed
    ensures Sound(after, invoked, ev)
  {
    forall i | 0 <= i < |after.fingerprint.value.steps|
      ensures Budget(after, after.fingerprint.value.steps[i]) == Budget(before, before.fingerprint.value.steps[i]) {
    }
  }

  /** Every step ever attempted is completed. */
  ghost predicate AttemptsResolved(attempts: map<string, nat>, completed: seq<string>) {
    forall id :: Count(attempts, id) > 0 ==> id in completed
  }

  /** The account of a pass over the first `i` steps that began with `done` completed. */
  ghost predicate PassSoFar(ids: seq<string>, i: nat, done: seq<string>, executed: seq<string>, skipped: seq<string>,
                            completed: seq<string>) {
    && i <= |ids| && completed == done + executed
    && executed == Dropped(ids[..i], done) && skipped == Kept(ids[..i], done)
    && forall j :: 0 <= j < i ==> ids[j] in completed
  }

  lemma PassFinished(ids: seq<string>, done: seq<string>, executed: seq<string>, skipped: seq<string>, completed: seq<string>)
    requires PassSoFar(ids, |ids|, done, executed, skipped, completed)
    ensures executed == Dropped(ids, done) && skipped == Kept(ids, done)
    ensures forall j :: 0 <= j < |ids| ==> ids[j] in completed
  {
    assert ids[..|ids|] == ids;
  }

  lemma NextOfPass(ids: seq<string>, i: nat, done: seq<string>, executed: seq<string>, skipped: seq<string>,
                   completed: seq<string>)
    requires i < |ids| && NoRepeats(ids) && PassSoFar(ids, i, done, executed, skipped, completed)
    ensures if ids[i] in completed then PassSoFar(ids, i + 1, done, executed, skipped + [ids[i]], completed)
            else PassSoFar(ids, i + 1, done, executed + [ids[i]], skipped, completed + [ids[i]])
  {
    DroppedAreIds(ids[..i], done);
    assert ids[..i + 1][..i] == ids[..i];
    if ids[i] !in completed {
      assert completed + [ids[i]] == done + (executed + [ids[i]]);
    }
  }

  /** What comes of a step not completed says nothing about those that are. */
  lemma OthersStayProved(steps: seq<StepSpec>, completed: seq<string>, before: Evidence, after: Evidence, id: string)
    requires id !in completed && after.ends - {id} == before.ends - {id} && after.verdicts - {id} == before.verdicts - {id}
    ensures forall other :: other in completed && StepProved(steps, other, before) ==> StepProved(steps, other, after)
  {
    forall other | other in completed && StepProved(steps, other, before) ensures StepProved(steps, other, after) {
      var i :| 0 <= i < |steps| && steps[i].id == other && Proved(steps[i], before);
      assert other in before.ends - {id} && (before.ends - {id})[other] == before.ends[other];
      assert other in before.verdicts ==> other in before.verdicts - {id} && (before.verdicts - {id})[other] == before.verdicts[other];
      assert Proved(steps[i], after);
    }
  }

  lemma VerdictSound(c: Checkpoint, invoked: map<string, nat>, ev: Evidence, id: string, verdict: VerifyResult)
    requires Sound(c, invoked, ev) && id !in c.completed
    ensures Sound(c, invoked, ev.(verdicts := ev.verdicts[id := verdict]))
  {
    OthersStayProved(c.fingerprint.value.steps, c.completed, ev, ev.(verdicts := ev.verdicts[id := verdict]), id);
  }

  lemma CompletedSound(before: Checkpoint, after: Checkpoint, invoked: map<string, nat>, ev: Evidence, i: nat)
    requires Sound(before, invoked, ev) && before.status != Completed
    requires i < |before.fingerprint.value.steps| && Proved(before.fingerprint.value.steps[i], ev)
    requires before.fingerprint.value.steps[i].id !in before.completed
    requires after == before.(completed := before.completed + [before.fingerprint.value.steps[i].id], lastError := None)
    ensures Sound(after, invoked, ev)
  {
    forall j | 0 <= j < |after.fingerprint.value.steps|
      ensures Budget(after, after.fingerprint.value.steps[j]) == Budget(before, before.fingerprint.value.steps[j]) {
    }
    assert StepProved(after.fingerprint.value.steps, before.fingerprint.value.steps[i].id, ev);
  }

  /** A state may stop being completed, or stop running, without losing anything. */
  lemma StatusSound(before: Checkpoint, after: Checkpoint, invoked: map<string, nat>, ev: Evidence)
    requires Sound(before, invoked, ev) && after.status != Completed
    requires after == before.(status := after.status, blockedReason := after.blockedReason, lastError := after.lastError)
    ensures Sound(after, invoked, ev)
  {
    forall i | 0 <= i < |after.fingerprint.value.steps|
      ensures Budget(after, after.fingerprint.value.steps[i]) == Budget(before, before.fingerprint.value.steps[i]) {
    }
  }

  /** Recording one more attempt, still within the budget, keeps the guarantees and leaves room for a call. */
  lemma AttemptSound(before: Checkpoint, after: Checkpoint, invoked: map<string, nat>, ev: Evidence, i: nat)
    requires Sound(before, invoked, ev) && i < |before.fingerprint.value.steps|
    requires var step := before.fingerprint.value.steps[i];
             && Count(before.attempts, step.id) < step.maxAttempts
             && after == before.(attempts := before.attempts[step.id := Count(before.attempts, step.id) + 1])
    ensures Sound(after, invoked, ev)
    ensures var step := before.fingerprint.value.steps[i];
            Count(invoked, step.id) < Budget(after, step)
  {
    var steps := before.fingerprint.value.steps;
    forall j | 0 <= j < |steps| ensures Budget(after, steps[j]) == Budget(before, steps[j]) + (if j == i then 1 else 0) {
    }
  }

  lemma CallSoundAll(c: Checkpoint, invoked: map<string, nat>, ev: Evidence, i: nat)
    requires Sound(c, invoked, ev) && i < |c.fingerprint.value.steps|
    requires Count(invoked, c.fingerprint.value.steps[i].id) < Budget(c, c.fingerprint.value.steps[i])
    requires c.fingerprint.value.steps[i].id !in c.completed
    ensures var id := c.fingerprint.value.steps[i].id;
            forall end :: Sound(c, invoked[id := Count(invoked, id) + 1], AfterEnd(ev, id, end))
  {
    forall end {
      CallSound(c, invoked, ev, i, end);
    }
  }

  /** One more call of a step with room for it. */
  lemma InvokedSound(c: Checkpoint, invoked: map<string, nat>, ev: Evidence, i: nat)
    requires Sound(c, invoked, ev) && i < |c.fingerprint.value.steps|
    requires Count(invoked, c.fingerprint.value.steps[i].id) < Budget(c, c.fingerprint.value.steps[i])
    ensures var id := c.fingerprint.value.steps[i].id;
            Sound(c, invoked[id := Count(invoked, id) + 1], ev)
  {
    var steps := c.fingerprint.value.steps;
    assert StepIds(steps)[i] == steps[i].id;
  }

  lemma EndSound(c: Checkpoint, invoked: map<string, nat>, ev: Evidence, id: string, end: ActionResult)
    requires Sound(c, invoked, ev) && id !in c.completed
    ensures Sound(c, invoked, AfterEnd(ev, id, end))
  {
    OthersStayProved(c.fingerprint.value.steps, c.completed, ev, AfterEnd(ev, id, end), id);
  }

  /** A call within the budget keeps the guarantees, however it ends. */
  lemma CallSound(c: Checkpoint, invoked: map<string, nat>, ev: Evidence, i: nat, end: ActionResult)
    requires Sound(c, invoked, ev) && i < |c.fingerprint.value.steps|
    requires Count(invoked, c.fingerprint.value.steps[i].id) < Budget(c, c.fingerprint.value.steps[i])
    requires c.fingerprint.value.steps[i].id !in c.completed
    ensures var id := c.fingerprint.value.steps[i].id;
            Sound(c, invoked[id := Count(invoked, id) + 1], AfterEnd(ev, id, end))
  {
    var id := c.fingerprint.value.steps[i].id;
    InvokedSound(c, invoked, ev, i);
    EndSound(c, invoked[id := Count(invoked, id) + 1], ev, id, end);
  }
}
