/**
 Task specifications, the checkpoint a task keeps on disk, and what that checkpoint
 guarantees about the actions that were really invoked.
 */
module TaskModel {
  import opened CredentialIdentity

  datatype StepSpec = StepSpec(id: string, action: string, verify: Option<string>, retrySafe: bool, maxAttempts: int) {
    /** An empty verifier name counts as none. */
    function Verifier(): Option<string> {
      if verify == Some("") then None else verify
    }

    /** `StepSpec.validate`: an action that is not retry-safe has a single attempt. */
    predicate Valid() {
      NonBlank(id) && NonBlank(action) && maxAttempts >= 1 && (!retrySafe ==> maxAttempts == 1)
    }
  }

  /** `rest` stands for the title, goal, inputs and every other field of the definition. */
  datatype TaskSpec = TaskSpec(taskId: string, allowed: seq<string>, steps: seq<StepSpec>, rest: string) {
    predicate Valid() {
      && NonBlank(taskId) && steps != []
      && (forall i, j :: 0 <= i < j < |allowed| ==> allowed[i] != allowed[j])
      && (forall i :: 0 <= i < |steps| ==>
            && steps[i].Valid() && steps[i].action in allowed
            && (steps[i].Verifier().Some? ==> steps[i].Verifier().value in allowed))
      && (forall i, j :: 0 <= i < j < |steps| ==> steps[i].id != steps[j].id)
    }
  }

  datatype Status = Pending | Running | Completed | Blocked | Failed

  predicate Terminal(s: Status) {
    s == Completed || s == Blocked || s == Failed
  }

  datatype Reason =
    | InterruptedSteps(steps: set<string>)
    | ActionUnavailable(action: string)
    | ActionBlocked
    | ActionError
    | VerifierUnavailable(action: string)
    | VerificationError
    | VerificationFailed(action: string)

  datatype SafeError = SafeCode(code: string) | ActionRedacted | VerificationRedacted

  datatype Resolution = NotApplied | AppliedAndVerified | NeedsManualAction

  datatype Reconciliation = Reconciliation(step: string, resolution: Resolution)

  /** The saved state. The digest of the specification is injective, so it is kept as the specification. */
  datatype Checkpoint = Checkpoint(
    status: Status,
    completed: seq<string>,
    attempts: map<string, nat>,
    blockedReason: Option<Reason>,
    lastError: Option<SafeError>,
    reconciliations: seq<Reconciliation>,
    fingerprint: Option<TaskSpec>)

  function Count(m: map<string, nat>, id: string): nat {
    if id in m then m[id] else 0
  }

  /** How often the operator recorded that the step's action had not been applied. */
  function NotAppliedCount(records: seq<Reconciliation>, id: string): nat {
    if records == [] then 0
    else NotAppliedCount(records[..|records| - 1], id)
         + (if records[|records| - 1] == Reconciliation(id, NotApplied) then 1 else 0)
  }

  lemma NotAppliedCountOneMore(records: seq<Reconciliation>, r: Reconciliation, id: string)
    ensures NotAppliedCount(records + [r], id)
         == NotAppliedCount(records, id) + (if r == Reconciliation(id, NotApplied) then 1 else 0)
  {
    assert (records + [r])[..|records + [r]| - 1] == records;
  }

  datatype ActionResult = Returned | BlockedAction | RaisedError(error: SafeError) | Escaped
  datatype VerifyResult = Passed | NotPassed | VerifierRaised(error: SafeError) | VerifierEscaped

  /** How the last call of each step's action ended, and what its verifier has said since. */
  datatype Evidence = Evidence(ends: map<string, ActionResult>, verdicts: map<string, VerifyResult>)

  const NO_EVIDENCE: Evidence := Evidence(map[], map[])

  /** A new call leaves nothing of what the verifier said before. */
  function AfterEnd(ev: Evidence, id: string, end: ActionResult): Evidence {
    Evidence(ev.ends[id := end], ev.verdicts - {id})
  }

  predicate LastEnd(ev: Evidence, id: string, end: ActionResult) {
    id in ev.ends && ev.ends[id] == end
  }

  predicate LastVerdict(ev: Evidence, id: string, verdict: VerifyResult) {
    id in ev.verdicts && ev.verdicts[id] == verdict
  }

  /** The action returned when it was last called, and the verifier, if there is one, has passed it since. */
  predicate Proved(step: StepSpec, ev: Evidence) {
    LastEnd(ev, step.id, Returned) && (step.Verifier().Some? ==> LastVerdict(ev, step.id, Passed))
  }

  ghost predicate StepProved(steps: seq<StepSpec>, id: string, ev: Evidence) {
    exists i :: 0 <= i < |steps| && steps[i].id == id && Proved(steps[i], ev)
  }

  ghost predicate NoRepeats(names: seq<string>) {
    forall i, j :: 0 <= i < j < |names| ==> names[i] != names[j]
  }

  function StepIds(steps: seq<StepSpec>): (ids: seq<string>)
    ensures |ids| == |steps| && forall i :: 0 <= i < |steps| ==> ids[i] == steps[i].id
  {
    seq(|steps|, i requires 0 <= i < |steps| => steps[i].id)
  }

  /** What the attempts of one step allow: those since the last reset, and a full budget for each reset. */
  function Budget(c: Checkpoint, step: StepSpec): int {
    Count(c.attempts, step.id) + step.maxAttempts * NotAppliedCount(c.reconciliations, step.id)
  }

  /**
   What a checkpoint on disk guarantees, whatever crashed. `invoked` counts the calls of
   each step's action that were ever begun; `ev` is what those calls and the verifiers ended in.
   */
  ghost predicate Sound(c: Checkpoint, invoked: map<string, nat>, ev: Evidence) {
    && c.fingerprint.Some? && c.fingerprint.value.Valid()
    && var steps := c.fingerprint.value.steps;
       && NoRepeats(c.completed)
       && (forall i :: 0 <= i < |steps| ==>
             && Count(c.attempts, steps[i].id) <= steps[i].maxAttempts
             && Count(invoked, steps[i].id) <= Budget(c, steps[i]))
       && (forall id :: id in invoked ==> id in StepIds(steps))
       && (forall id :: id in c.completed ==>
             StepProved(steps, id, ev) || Reconciliation(id, AppliedAndVerified) in c.reconciliations)
       && (c.status == Completed ==> forall i :: 0 <= i < |steps| ==> steps[i].id in c.completed)
  }

  /** A file from before specifications were pinned carries no guarantee, and no run acts on it. */
  ghost predicate Durable(file: Option<Checkpoint>, invoked: map<string, nat>, ev: Evidence) {
    match file
    case None => invoked == map[] && ev == NO_EVIDENCE
    case Some(c) => c.fingerprint.None? || Sound(c, invoked, ev)
  }

  /** A full attempt budget, and one more for each not-applied reconciliation; one call each if not retry-safe. */
  ghost predicate CallsBounded(c: Checkpoint, step: StepSpec, invoked: map<string, nat>) {
    && Count(invoked, step.id) <= step.maxAttempts * (1 + NotAppliedCount(c.reconciliations, step.id))
    && (!step.retrySafe ==> Count(invoked, step.id) <= 1 + NotAppliedCount(c.reconciliations, step.id))
  }

  /** Completed for a reason: it ran and was verified, or the operator said it was applied and verified. */
  ghost predicate TrulyDone(c: Checkpoint, step: StepSpec, ev: Evidence) {
    step.id in c.completed && (Proved(step, ev) || Reconciliation(step.id, AppliedAndVerified) in c.reconciliations)
  }

  lemma OneFullBudget(attempts: int, n: nat)
    ensures attempts * (1 + n) == attempts + attempts * n
    ensures attempts == 1 ==> attempts * n == n
  {
  }

  /** The bound on calls, and what a completed status on disk implies of every step. */
  lemma InvocationBound(c: Checkpoint, invoked: map<string, nat>, ev: Evidence, step: StepSpec)
    requires Sound(c, invoked, ev) && step in c.fingerprint.value.steps
    ensures CallsBounded(c, step, invoked)
    ensures c.status == Completed ==> TrulyDone(c, step, ev)
  {
    var i :| 0 <= i < |c.fingerprint.value.steps| && c.fingerprint.value.steps[i] == step;
    OneFullBudget(step.maxAttempts, NotAppliedCount(c.reconciliations, step.id));
    assert Count(invoked, step.id) <= Budget(c, step);
  }

  // ----- one run's account of the steps

  function Kept(ids: seq<string>, done: seq<string>): seq<string> {
    if ids == [] then []
    else Kept(ids[..|ids| - 1], done) + (if ids[|ids| - 1] in done then [ids[|ids| - 1]] else [])
  }

  function Dropped(ids: seq<string>, done: seq<string>): seq<string> {
    if ids == [] then []
    else Dropped(ids[..|ids| - 1], done) + (if ids[|ids| - 1] in done then [] else [ids[|ids| - 1]])
  }

  /** `whole` is made of `a` and `b`, each in its own order. */
  ghost predicate Interleaves(a: seq<string>, b: seq<string>, whole: seq<string>)
    decreases |whole|
  {
    if whole == [] then a == [] && b == []
    else
      var last := whole[|whole| - 1];
      || (a != [] && a[|a| - 1] == last && Interleaves(a[..|a| - 1], b, whole[..|whole| - 1]))
      || (b != [] && b[|b| - 1] == last && Interleaves(a, b[..|b| - 1], whole[..|whole| - 1]))
  }

  /** The steps a completing run executed and skipped are together the specification's, in order. */
  lemma {:induction false} ExecutedAndSkipped(ids: seq<string>, done: seq<string>)
    ensures Interleaves(Dropped(ids, done), Kept(ids, done), ids)
    ensures forall id :: id in ids ==> (id in Kept(ids, done) <==> id in done)
    decreases |ids|
  {
    if ids != [] {
      var n := |ids| - 1;
      ExecutedAndSkipped(ids[..n], done);
      var kept, dropped := Kept(ids[..n], done), Dropped(ids[..n], done);
      if ids[n] in done {
        var b := kept + [ids[n]];
        assert b[..|b| - 1] == kept;
        assert Dropped(ids, done) == dropped && Kept(ids, done) == b;
      } else {
        var a := dropped + [ids[n]];
        assert a[..|a| - 1] == dropped;
        assert Dropped(ids, done) == a && Kept(ids, done) == kept;
      }
      forall id | id in ids ensures id in Kept(ids, done) <==> id in done {
        var k :| 0 <= k < |ids| && ids[k] == id;
        if k < n {
          assert ids[..n][k] == id;
        }
        KeptOnlyDone(ids, done);
      }
    }
  }

  lemma {:induction false} DroppedAreIds(ids: seq<string>, done: seq<string>)
    ensures forall id :: id in Dropped(ids, done) ==> id in ids && id !in done
    decreases |ids|
  {
    if ids != [] {
      DroppedAreIds(ids[..|ids| - 1], done);
    }
  }

  lemma {:induction false} KeptOnlyDone(ids: seq<string>, done: seq<string>)
    ensures forall id :: id in Kept(ids, done) ==> id in done
    decreases |ids|
  {
    if ids != [] {
      KeptOnlyDone(ids[..|ids| - 1], done);
    }
  }
}
