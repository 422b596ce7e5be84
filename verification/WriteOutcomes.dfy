/**
 How a swap's outcome is reported through the database backend, the child process that
 runs it under a deadline, and the durable store. Every call to the driver, the child and
 the operating system may fail, before or after it took effect; `Session.fate` is what the
 server really made of the write, and each layer's verdict is proved against it.
 */
module WriteOutcomes {
  import opened CredentialIdentity
  import opened SecretRecords
  import opened SecretEncoding
  import Protocol = RotationProtocol

  /** What the server has made, or may still make, of one operation's write. */
  datatype Fate =
    | Untouched                 // no write was submitted
    | Pending(record: Raw)      // written in an open transaction that was not asked to commit
    | Refused                   // the server compared the version and wrote nothing
    | Committed(record: Raw)
    | InDoubt(record: Raw)      // asked to commit, answer lost: may hold now, later or never
    | RolledBack

  /** A raised exception: which kind, and what its SQLSTATE and primary message say. */
  datatype Fault = Fault(interrupt: Option<Interrupt>, sqlstateP0002: bool, versionConflictMessage: bool)

  datatype Row = OneColumn(value: Raw) | NoRow | OtherShape

  /**
   What the driver has answered: the faults raised before the rollback, the rows fetched, whether a
   statement was executed, whether the version check refused it, and whether the rollback failed.
   */
  datatype Answers = Answers(faults: seq<Fault>, rows: seq<Row>, executed: bool, refused: bool, unrolled: bool)

  const NOTHING_ASKED: Answers := Answers([], [], false, false, false)

  /**
   One connection and the server behind it; `rowVersion` is the version its row lock sees. `log` and
   `disturbed`, whether anything outside the database went wrong, are written only by the methods here.
   */
  class Session {
    const rowVersion: nat
    var fate: Fate
    ghost var log: Answers
    ghost var disturbed: bool

    ghost predicate Unused()
      reads this
    {
      fate == Untouched && log == NOTHING_ASKED && !disturbed
    }

    constructor (rowVersion: nat)
      ensures this.rowVersion == rowVersion && Unused()
    {
      this.rowVersion := rowVersion;
      fate := Untouched;
      log, disturbed := NOTHING_ASKED, false;
    }

    /** A step that does not touch the server: connecting, the autocommit flag, a cursor. */
    method LocalStep() returns (fault: Option<Fault>)
      modifies this`log
      ensures log == old(log).(faults := old(log).faults + Raised(fault))
    {
      fault := *;
      log := log.(faults := log.faults + Raised(fault));
    }

    /** Closing, whatever happens. */
    method Close()
    {
    }

    method ExecuteRead() returns (fault: Option<Fault>)
      modifies this`log
      ensures log == old(log).(executed := true, faults := old(log).faults + Raised(fault))
    {
      fault := *;
      log := log.(executed := true, faults := log.faults + Raised(fault));
    }

    /** The server's compare-and-swap: the exact conflict error is only ever its version check. */
    method ExecuteCas(expected: nat, record: Raw) returns (fault: Option<Fault>)
      requires fate == Untouched
      modifies this`fate, this`log
      ensures log == if fault.Some? && IsConflict(fault.value) then old(log).(executed := true, refused := true)
                     else old(log).(executed := true, faults := old(log).faults + Raised(fault))
      ensures fault.None? ==> rowVersion == expected && fate == Pending(record)
      ensures fault.Some? && IsConflict(fault.value) ==> fate == Refused && rowVersion != expected
      ensures fate in {Untouched, Pending(record), Refused}
    {
      var reached, answered: bool := *, *;
      fault := *;
      if rowVersion != expected {
        fate := if reached then Refused else Untouched;
        fault := Some(Fault(None, reached && answered, reached && answered));
      } else {
        fate := if reached || fault.None? then Pending(record) else Untouched;
        if fault.Some? {
          fault := Some(fault.value.(versionConflictMessage := false));
        }
      }
      log := if fault.Some? && IsConflict(fault.value) then log.(executed := true, refused := true)
             else log.(executed := true, faults := log.faults + Raised(fault));
    }

    method Fetch() returns (fault: Option<Fault>, row: Row)
      modifies this`log
      ensures log == if fault.Some? then old(log).(faults := old(log).faults + [fault.value])
                     else old(log).(rows := old(log).rows + [row])
    {
      fault := *;
      row := *;
      log := if fault.Some? then log.(faults := log.faults + [fault.value]) else log.(rows := log.rows + [row]);
    }

    /** A commit that raises may have taken effect, may still take effect, or not. */
    method Commit() returns (fault: Option<Fault>)
      modifies this`fate, this`log
      ensures log == old(log).(faults := old(log).faults + Raised(fault))
      ensures old(fate).Pending? ==>
                if fault.None? then fate == Committed(old(fate).record)
                else fate in {Committed(old(fate).record), InDoubt(old(fate).record), RolledBack}
      ensures !old(fate).Pending? ==> fate == old(fate)
    {
      fault := *;
      log := log.(faults := log.faults + Raised(fault));
      if fate.Pending? {
        var lost: bool := *;
        var answered: bool := *;
        fate := if fault.None? || answered then Committed(fate.record)
                else if lost then RolledBack else InDoubt(fate.record);
      }
    }

    method Rollback() returns (fault: Option<Fault>)
      modifies this`fate, this`log
      ensures log == old(log).(unrolled := fault.Some?)
      ensures fate == if old(fate).Pending? && fault.None? then RolledBack else old(fate)
    {
      fault := *;
      log := log.(unrolled := fault.Some?);
      if fault.None? && fate.Pending? {
        fate := RolledBack;
      }
    }

    /** Something outside the database that may go wrong: the spawn, the exit, the shared memory. */
    method Outside() returns (fine: bool)
      modifies this`disturbed
      ensures disturbed <==> old(disturbed) || !fine
    {
      fine := *;
      disturbed := disturbed || !fine;
    }

    /** The process running the operation is killed: the write may be anywhere. */
    method Cut()
      modifies this`fate
    {
      fate := *;
    }
  }

  function Raised(fault: Option<Fault>): seq<Fault> {
    match fault
    case None => []
    case Some(f) => [f]
  }

  /** Only the exact error of the version check proves a conflict. */
  predicate IsConflict(fault: Fault) {
    fault.sqlstateP0002 && fault.versionConflictMessage
  }

  /** What a backend call returns or raises. */
  datatype Verdict =
    | Returned(record: Raw)
    | Conflict
    | Ambiguous
    | Unavailable
    | Broken(interrupt: Interrupt)

  /**
   The promise every layer keeps about a write of `payload`: a returned record is committed
   and is that payload; a conflict was refused by the server's version check, so it did not
   and will not apply; unavailable, or an interrupt let through, means nothing was submitted.
   */
  ghost predicate Sound(verdict: Verdict, payload: Raw, fate: Fate) {
    match verdict
    case Returned(record) => record == payload && fate == Committed(payload)
    case Conflict => fate == Refused
    case Ambiguous => true
    case Unavailable => fate == Untouched
    case Broken(_) => fate == Untouched
  }

  /** A write reported done found the version it expected, and one reported refused did not. */
  ghost predicate AgreesWithRow(verdict: Verdict, rowVersion: nat, expected: int) {
    (verdict.Returned? ==> rowVersion == expected) && (verdict.Conflict? ==> rowVersion != expected)
  }

  /** A read never reports a write outcome and never touches the record. */
  ghost predicate SoundRead(verdict: Verdict, fate: Fate) {
    !verdict.Conflict? && !verdict.Ambiguous? && fate == Untouched
  }

  /** A returned record passes the strict check of the binding. */
  ghost predicate Strict(verdict: Verdict, binding: Binding) {
    verdict.Returned? ==> StrictRecord(verdict.record, binding) == Some(verdict.record)
  }

  /** What every layer promises of any request. */
  ghost predicate Promised(verdict: Verdict, request: Request, fate: Fate, rowVersion: nat, binding: Binding) {
    && (request.WriteRequest? ==> Sound(verdict, request.replacement, fate) && AgreesWithRow(verdict, rowVersion, request.expected))
    && (request.ReadRequest? ==> SoundRead(verdict, fate))
    && Strict(verdict, binding)
  }

  datatype Request = ReadRequest(key: Binding) | WriteRequest(key: Binding, expected: int, replacement: Raw)

  predicate ValidRequest(request: Request, binding: Binding) {
    && request.key == binding
    && (request.WriteRequest? ==>
          && 0 <= request.expected < MAX_BIGINT
          && StrictRecord(request.replacement, binding).Some?
          && request.replacement[Version].value == request.expected + 1)
  }

  /** A write is asked for exactly as the encoding of a storable record of the binding, one version on. */
  lemma ValidWriteExactly(key: Binding, expected: int, raw: Raw, binding: Binding)
    requires binding.Valid()
    ensures ValidRequest(WriteRequest(key, expected, raw), binding) <==>
              && key == binding && 0 <= expected < MAX_BIGINT
              && exists r :: Storable(r, binding) && Encode(r) == raw && r.version == expected + 1
  {
    StrictRecordExact(raw, binding);
  }

  /** The strict check gives back what it was given. */
  lemma StrictKeeps(raw: Raw, binding: Binding)
    ensures StrictRecord(raw, binding).Some? ==> StrictRecord(raw, binding) == Some(raw)
  {
  }

  /** The rows fetched are one column with a record of the binding, for a write its replacement, and no other row. */
  ghost predicate RowsSay(rows: seq<Row>, request: Request, binding: Binding) {
    && |rows| == 2 && rows[0].OneColumn? && rows[1] == NoRow
    && StrictRecord(rows[0].value, binding) == Some(rows[0].value)
    && (request.WriteRequest? ==> rows[0].value == request.replacement)
  }

  /** Nothing was raised, and the rows say what is stored. */
  ghost predicate Served(a: Answers, request: Request, binding: Binding) {
    a.faults == [] && !a.refused && RowsSay(a.rows, request, binding)
  }

  /**
   The verdict of one operation by what the driver answered to it: the record of the row exactly
   where nothing was raised; a conflict exactly where the version check refused and the rollback
   went through; a write once executed is otherwise ambiguous; and nothing else was ever submitted.
   */
  ghost predicate FollowsFrom(verdict: Verdict, a: Answers, request: Request, binding: Binding) {
    && (!ValidRequest(request, binding) ==> verdict == Unavailable)
    && (verdict.Returned? <==> ValidRequest(request, binding) && Served(a, request, binding))
    && (verdict.Returned? ==> |a.rows| > 0 && a.rows[0] == OneColumn(verdict.record))
    && Classified(verdict, a, request.WriteRequest?)
    && (verdict.Ambiguous? ==> request.WriteRequest? && a.executed)
    && (verdict.Broken? ==> a.faults != [] && a.faults[0].interrupt == Some(verdict.interrupt))
    && (verdict.Unavailable? ==> a.faults == [] || a.faults[0].interrupt.None?)
  }

  /** A conflict is a refusal rolled back, and a write once executed is never reported as unavailable. */
  predicate Classified(verdict: Verdict, a: Answers, write: bool) {
    && (verdict.Conflict? <==> write && a.refused && !a.unrolled)
    && (write && a.executed ==> verdict.Returned? || verdict.Conflict? || verdict.Ambiguous?)
  }

  /** The same through a child that started, answered and stopped as it should: there an interrupt is one more failure. */
  ghost predicate FollowsThrough(verdict: Verdict, a: Answers, request: Request, binding: Binding) {
    && (verdict.Returned? <==> Served(a, request, binding))
    && (verdict.Returned? ==> |a.rows| > 0 && a.rows[0] == OneColumn(verdict.record))
    && Classified(verdict, a, request.WriteRequest?)
    && (verdict.Ambiguous? ==>
          request.WriteRequest? && (a.executed || (a.faults != [] && a.faults[0].interrupt.Some?)))
    && !verdict.Broken?
  }

  /**
   What holds of an operation under the deadline: the promise on the write's fate; nothing submitted by a
   quarantined backend or for an invalid request; and otherwise, if nothing outside the database went wrong,
   the verdict the driver's answers give.
   */
  ghost predicate OperateRight(verdict: Verdict, request: Request, fate: Fate, rowVersion: nat, a: Answers, disturbed: bool,
                               before: bool, after: bool, binding: Binding) {
    && Promised(verdict, request, fate, rowVersion, binding)
    && (before || !ValidRequest(request, binding) ==> fate == Untouched && (verdict == Unavailable || verdict.Broken?))
    && (verdict.Returned? ==> RowIs(a, request, binding, verdict.record))
    && (!disturbed && !before && ValidRequest(request, binding) ==> !after && FollowsThrough(verdict, a, request, binding))
  }

  /** Nothing was raised, and this is the record of the one row. */
  ghost predicate RowIs(a: Answers, request: Request, binding: Binding, record: Raw) {
    Served(a, request, binding) && |a.rows| > 0 && a.rows[0] == OneColumn(record)
  }

  /** What one try has come to before the rollback. */
  datatype Tried = Tried(connected: bool, submitted: bool, committed: bool, conflict: bool, failure: Option<Fault>, result: Raw)

  /** A failed check, which raises no driver error. */
  const CHECK_FAILED: Option<Fault> := Some(Fault(None, false, false))

  /** The failure is the one fault on record, or a failed check of one's own. */
  ghost predicate Accounts(failure: Option<Fault>, faults: seq<Fault>) {
    faults == Raised(failure) || (faults == [] && failure == CHECK_FAILED)
  }

  /** What came of reading the row back, by the faults raised and the rows fetched. */
  ghost predicate RowRead(failure: Option<Fault>, result: Raw, faults: seq<Fault>, rows: seq<Row>, request: Request, binding: Binding) {
    && (failure.None? <==> faults == [] && RowsSay(rows, request, binding))
    && (failure.None? ==> |rows| > 0 && rows[0] == OneColumn(result))
    && Accounts(failure, faults)
  }

  lemma FaultIsRead(fault: Fault, rows: seq<Row>, request: Request, binding: Binding)
    ensures RowRead(Some(fault), map[], [fault], rows, request, binding)
  {
  }

  lemma OddRowRead(row: Row, request: Request, binding: Binding)
    requires !row.OneColumn?
    ensures RowRead(CHECK_FAILED, map[], [], [row], request, binding)
  {
  }

  lemma TwoRowsRead(value: Raw, more: Row, request: Request, binding: Binding)
    ensures var strict := StrictRecord(value, binding);
            if !more.NoRow? || strict.None? || (request.WriteRequest? && strict.value != request.replacement)
            then RowRead(CHECK_FAILED, map[], [], [OneColumn(value), more], request, binding)
            else RowRead(None, strict.value, [], [OneColumn(value), more], request, binding)
  {
    StrictKeeps(value, binding);
    var rows := [OneColumn(value), more];
    assert |rows| == 2 && rows[0].value == value && rows[1] == more;
  }

  /** `PostgresSecretBackend`: one fresh session and at most one swap for each operation. */
  class Backend {
    const binding: Binding

    constructor (binding: Binding)
      ensures this.binding == binding
    {
      this.binding := binding;
    }

    /** Reading the row back: exactly one, of one column, holding a record of the binding, for a write the one written. */
    method ReadRow(session: Session, request: Request) returns (failure: Option<Fault>, result: Raw)
      requires session.log.faults == [] && session.log.rows == []
      modifies session`log
      ensures session.log == old(session.log).(faults := session.log.faults, rows := session.log.rows)
      ensures RowRead(failure, result, session.log.faults, session.log.rows, request, binding)
    {
      result := map[];
      var row, more: Row;
      failure, row := session.Fetch();
      if failure.Some? {
        FaultIsRead(failure.value, [], request, binding);
        return;
      }
      assert session.log.rows == [row];
      if !row.OneColumn? {
        OddRowRead(row, request, binding);
        return CHECK_FAILED, result;
      }
      failure, more := session.Fetch();
      if failure.Some? {
        FaultIsRead(failure.value, [row], request, binding);
        return;
      }
      assert session.log.rows == [OneColumn(row.value), more];
      TwoRowsRead(row.value, more, request, binding);
      if !more.NoRow? {
        return CHECK_FAILED, result;
      }
      var strict := StrictRecord(row.value, binding);
      if strict.None? || (request.WriteRequest? && strict.value != request.replacement) {
        return CHECK_FAILED, result;
      }
      result := strict.value;
    }

    /** The statement: a swap is submitted from here on. */
    method Execute(session: Session, request: Request) returns (failure: Option<Fault>, conflict: bool)
      requires session.fate == Untouched && ValidRequest(request, binding)
      modifies session`fate, session`log
      ensures session.log == if conflict then old(session.log).(executed := true, refused := true)
                             else old(session.log).(executed := true, faults := old(session.log).faults + Raised(failure))
      ensures conflict ==> failure.Some? && request.WriteRequest? && session.fate == Refused && session.rowVersion != request.expected
      ensures if request.WriteRequest?
              then && (failure.None? ==> session.rowVersion == request.expected && session.fate == Pending(request.replacement))
                   && session.fate in {Untouched, Pending(request.replacement), Refused}
              else session.fate == Untouched
    {
      if request.WriteRequest? {
        failure := session.ExecuteCas(request.expected, request.replacement);
        conflict := failure.Some? && IsConflict(failure.value);
      } else {
        failure := session.ExecuteRead();
        conflict := false;
      }
    }

    /** Connecting, with the session's flags checked. */
    method Connect(session: Session) returns (failure: Option<Fault>, connected: bool)
      requires session.log == NOTHING_ASKED
      modifies session`log
      ensures session.log == NOTHING_ASKED.(faults := Raised(failure)) && (failure.None? ==> connected)
    {
      connected := false;
      failure := session.LocalStep();  // connect
      if failure.None? {
        connected := true;
        failure := session.LocalStep();  // the autocommit flag, the cursor
      }
    }

    /** From the request's checks to the commit. */
    method Try(session: Session, request: Request) returns (t: Tried)
      requires session.Unused()
      modifies session`fate, session`log
      ensures TriedRight(t, session.log, session.fate, session.rowVersion, request, binding)
    {
      t := Tried(false, false, false, false, CHECK_FAILED, map[]);
      if !ValidRequest(request, binding) {
        return;
      }
      var failure, connected := Connect(session);
      t := t.(connected := connected, failure := failure);
      if failure.Some? {
        return;
      }
      var conflict;
      failure, conflict := Execute(session, request);
      t := t.(submitted := request.WriteRequest?, failure := failure, conflict := conflict);
      if failure.Some? {
        return;
      }
      var result;
      failure, result := ReadRow(session, request);
      t := t.(failure := failure, result := result);
      if failure.Some? {
        return;
      }
      failure := session.Commit();
      t := t.(failure := failure, committed := failure.None?);
    }

    method Operate(session: Session, request: Request) returns (verdict: Verdict)
      requires session.Unused() && binding.Valid()
      modifies session
      ensures request.WriteRequest? ==> Sound(verdict, request.replacement, session.fate)
      ensures request.ReadRequest? ==> SoundRead(verdict, session.fate)
      ensures request.WriteRequest? ==> AgreesWithRow(verdict, session.rowVersion, request.expected)
      ensures Strict(verdict, binding) && FollowsFrom(verdict, session.log, request, binding) && !session.disturbed
    {
      var t := Try(session, request);
      ghost var a, fate := session.log, session.fate;
      var rolledBack := false;
      if t.connected {
        if !t.committed {
          var fault := session.Rollback();
          rolledBack := fault.None?;
        }
        session.Close();
      }
      verdict := Concluded(t, rolledBack);
      ConcludedRight(t, a, fate, session.rowVersion, request, binding, rolledBack, session.log, session.fate);
    }
  }

  /** What a try and its rollback are reported as. */
  function Concluded(t: Tried, rolledBack: bool): Verdict {
    if t.failure.None? then Returned(t.result)
    else if t.submitted then (if t.conflict && rolledBack then Conflict else Ambiguous)
    else if t.failure.value.interrupt.Some? then Broken(t.failure.value.interrupt.value)
    else Unavailable
  }

  /** What a try has come to, by what was answered and what the server made of the write. */
  ghost predicate TriedRight(t: Tried, a: Answers, fate: Fate, rowVersion: nat, request: Request, binding: Binding) {
    && !a.unrolled && (t.conflict <==> a.refused)
    && (t.submitted <==> request.WriteRequest? && a.executed)
    && (t.conflict ==> request.WriteRequest? && rowVersion != request.expected && fate == Refused && t.failure.Some?)
    && (t.committed <==> t.failure.None?)
    && (t.failure.None? <==> ValidRequest(request, binding) && Served(a, request, binding))
    && (t.committed ==> t.connected && |a.rows| > 0 && a.rows[0] == OneColumn(t.result))
    && (!a.refused ==> Accounts(t.failure, a.faults))
    && (!ValidRequest(request, binding) ==> t.failure == CHECK_FAILED && a.faults == [])
    && (a.executed ==> ValidRequest(request, binding) && t.connected)
    && (if request.WriteRequest?
        then && (t.committed ==> rowVersion == request.expected && fate == Committed(request.replacement))
             && (!a.executed ==> fate == Untouched)
        else fate == Untouched)
  }

  lemma ConcludedRight(t: Tried, a: Answers, fate: Fate, rowVersion: nat, request: Request, binding: Binding,
                       rolledBack: bool, after: Answers, end: Fate)
    requires TriedRight(t, a, fate, rowVersion, request, binding)
    requires if t.connected && !t.committed
             then && after == a.(unrolled := !rolledBack)
                  && end == if fate.Pending? && rolledBack then RolledBack else fate
             else after == a && end == fate && !rolledBack
    ensures var verdict := Concluded(t, rolledBack);
            && (request.WriteRequest? ==> Sound(verdict, request.replacement, end) && AgreesWithRow(verdict, rowVersion, request.expected))
            && (request.ReadRequest? ==> SoundRead(verdict, end))
            && Strict(verdict, binding) && FollowsFrom(verdict, after, request, binding)
  {
  }

  /** The child's answer as the parent finds it in shared memory. */
  datatype Message =
    | Reply(status: Status, record: Option<Raw>)
    | Garbage

  datatype Status = StatusOk | StatusConflict | StatusAmbiguous | StatusUnavailable | StatusUnknown

  /** The message that says a verdict: an interrupt of a write may have come after it was submitted. */
  predicate Says(message: Message, verdict: Verdict, write: bool) {
    && message.Reply?
    && (verdict.Returned? ==> message == Reply(StatusOk, Some(verdict.record)))
    && (verdict.Conflict? ==> message == Reply(StatusConflict, None))
    && (verdict.Ambiguous? ==> message == Reply(StatusAmbiguous, None))
    && (verdict.Unavailable? ==> message == Reply(StatusUnavailable, None))
    && (verdict.Broken? ==> message == Reply(if write then StatusAmbiguous else StatusUnavailable, None))
  }

  /** `ProcessDeadlinePostgresSecretBackend`: the backend in a child that may be killed. */
  class DeadlineBackend {
    const binding: Binding
    var quarantined: bool

    constructor (binding: Binding)
      ensures this.binding == binding && !quarantined
    {
      this.binding, quarantined := binding, false;
    }

    /** The child: run the backend, publish one bounded message. */
    method Child(session: Session, request: Request) returns (message: Message, ghost verdict: Verdict)
      requires session.Unused() && binding.Valid()
      modifies session
      ensures message.Reply?
      ensures request.WriteRequest? ==>
                match message.status
                case StatusOk => && message.record == Some(request.replacement) && session.rowVersion == request.expected
                                 && session.fate == Committed(request.replacement)
                case StatusConflict => && message.record.None? && session.fate == Refused
                                       && session.rowVersion != request.expected
                case StatusAmbiguous => message.record.None?
                case StatusUnavailable => message.record.None? && session.fate == Untouched
                case StatusUnknown => false
      ensures request.ReadRequest? ==> session.fate == Untouched
      ensures message.status == StatusOk ==>
                message.record.Some? && RowIs(session.log, request, binding, message.record.value)
      ensures !session.disturbed ==>
                FollowsFrom(verdict, session.log, request, binding) && Says(message, verdict, request.WriteRequest?)
    {
      var write := request.WriteRequest?;
      var readable := session.Outside();
      if !readable {
        // The request did not parse: `write` is still false.
        return Reply(StatusUnavailable, None), Unavailable;
      }
      var backend := new Backend(binding);
      var result := backend.Operate(session, request);
      verdict := result;
      match result {
        case Returned(record) => message := Reply(StatusOk, Some(record));
        case Conflict => message := Reply(StatusConflict, None);
        case Ambiguous => message := Reply(StatusAmbiguous, None);
        case Unavailable => message := Reply(StatusUnavailable, None);
        case Broken(_) => message := Reply(if write then StatusAmbiguous else StatusUnavailable, None);
      }
      var fits := session.Outside();
      if !fits {
        message := Reply(if write then StatusAmbiguous else StatusUnavailable, None);
      }
    }

    /** The parent reads the message; what it cannot make sense of leaves the status as it was. */
    method Interpret(message: Message, request: Request, before: Status) returns (status: Status, result: Raw)
      requires before == if request.WriteRequest? then StatusAmbiguous else StatusUnavailable
      ensures status == StatusOk ==>
                && message.Reply? && message.status == StatusOk && message.record == Some(result)
                && StrictRecord(result, binding) == Some(result) && (request.WriteRequest? ==> result == request.replacement)
      ensures && message.Reply? && message.status == StatusOk && message.record.Some?
              && StrictRecord(message.record.value, binding) == Some(message.record.value)
              && (request.WriteRequest? ==> message.record.value == request.replacement)
              ==> status == StatusOk
      ensures message.Reply? && message.record.None? && message.status in {StatusUnavailable, StatusConflict, StatusAmbiguous} ==>
                status == if request.WriteRequest? then message.status else StatusUnavailable
      ensures status != StatusOk && status != before ==> request.WriteRequest? && message == Reply(status, None)
    {
      status, result := before, map[];
      if message == Garbage {
        return;
      }
      if message.status == StatusOk && message.record.Some? {
        var strict := StrictRecord(message.record.value, binding);
        StrictKeeps(message.record.value, binding);
        if strict.None? || (request.WriteRequest? && strict.value != request.replacement) {
          return;
        }
        return StatusOk, strict.value;
      }
      if message.record.None? && message.status in {StatusUnavailable, StatusConflict, StatusAmbiguous} {
        status := if request.WriteRequest? then message.status else StatusUnavailable;
      }
    }

    method Operate(session: Session, request: Request) returns (verdict: Verdict)
      requires session.Unused() && binding.Valid()
      modifies this, session
      ensures old(quarantined) ==> quarantined
      ensures OperateRight(verdict, request, session.fate, session.rowVersion, session.log, session.disturbed,
                           old(quarantined), quarantined, binding)
    {
      ghost var before := quarantined;
      var status, result, started, spawned, interrupt := Launch(session, request);
      ghost var disturbed := session.disturbed;
      var reaped := true;
      if spawned {
        reaped := session.Outside();
      }
      quarantined := quarantined || !reaped;
      if quarantined {
        verdict := Answer(if started && request.WriteRequest? then StatusAmbiguous else StatusUnavailable, result, interrupt);
      } else {
        verdict := Answer(status, result, interrupt);
      }
      Reaped(status, result, started, interrupt, request, session.fate, session.rowVersion, session.log, disturbed, before, reaped);
    }

    /** What is known before the child is reaped. */
    ghost predicate LaunchRight(status: Status, result: Raw, started: bool, interrupt: Option<Interrupt>, request: Request,
                                fate: Fate, rowVersion: nat, a: Answers, disturbed: bool, quarantined: bool) {
      && (started ==> ValidRequest(request, binding) && !quarantined)
      && (!started ==> fate == Untouched && status == StatusUnavailable)
      && Promised(Answer(status, result, interrupt), request, fate, rowVersion, binding)
      && (request.ReadRequest? ==> fate == Untouched)
      && (status == StatusOk ==> RowIs(a, request, binding, result))
      && (!disturbed && !quarantined && ValidRequest(request, binding) ==>
            started && FollowsThrough(Answer(status, result, interrupt), a, request, binding))
    }

    /** A child that was not reaped quarantines the backend: no more is reported than that a write may have been made. */
    lemma Reaped(status: Status, result: Raw, started: bool, interrupt: Option<Interrupt>, request: Request,
                 fate: Fate, rowVersion: nat, a: Answers, disturbed: bool, before: bool, reaped: bool)
      requires LaunchRight(status, result, started, interrupt, request, fate, rowVersion, a, disturbed, before)
      ensures var after := before || !reaped;
              var killed := if started && request.WriteRequest? then StatusAmbiguous else StatusUnavailable;
              OperateRight(if after then Answer(killed, result, interrupt) else Answer(status, result, interrupt),
                           request, fate, rowVersion, a, disturbed || !reaped, before, after, binding)
    {
      QuarantinePromises(started, result, interrupt, request, fate, rowVersion);
    }

    /** Up to the child's answer, if it comes to one; `started` says that the request was accepted. */
    method Launch(session: Session, request: Request)
      returns (status: Status, result: Raw, started: bool, spawned: bool, interrupt: Option<Interrupt>)
      requires session.Unused() && binding.Valid()
      modifies session
      ensures LaunchRight(status, result, started, interrupt, request, session.fate, session.rowVersion, session.log,
                          session.disturbed, quarantined)
    {
      status, result, started, spawned, interrupt := StatusUnavailable, map[], false, false, None;
      var write := request.WriteRequest?;
      var safe := session.Outside();      // spawn environment, request size, memory
      if !safe || quarantined || !ValidRequest(request, binding) {
        if !safe {
          interrupt := *;
        }
        return;
      }
      started := true;
      status := if write then StatusAmbiguous else StatusUnavailable;
      var launched := session.Outside();
      var clean := session.Outside();
      spawned := *;
      if !launched || !clean {
        if spawned || launched {
          spawned := true;
          if write {
            session.Cut();
          }
        }
        if !launched && !write {
          interrupt := *;
        }
        return;
      }
      spawned := true;
      status, result := AskChild(session, request, status);
    }

    /** A quarantine reports no more than that nothing was started, or that a write may have been. */
    lemma QuarantinePromises(started: bool, result: Raw, interrupt: Option<Interrupt>, request: Request, fate: Fate, rowVersion: nat)
      requires !started || request.ReadRequest? ==> fate == Untouched
      ensures Promised(Answer(if started && request.WriteRequest? then StatusAmbiguous else StatusUnavailable, result, interrupt),
                       request, fate, rowVersion, binding)
    {
    }

    /** What the parent returns or raises in the end. */
    function Answer(status: Status, result: Raw, interrupt: Option<Interrupt>): Verdict {
      if status == StatusOk then Returned(result)
      else if status == StatusConflict then Conflict
      else if status == StatusAmbiguous then Ambiguous
      else if interrupt.Some? then Broken(interrupt.value)
      else Unavailable
    }

    /** The child is run and its message read. */
    method AskChild(session: Session, request: Request, before: Status) returns (status: Status, result: Raw)
      requires session.Unused() && binding.Valid() && ValidRequest(request, binding)
      requires before == if request.WriteRequest? then StatusAmbiguous else StatusUnavailable
      modifies session
      ensures status in {StatusOk, StatusConflict, StatusAmbiguous, StatusUnavailable}
      ensures request.WriteRequest? ==>
                && Sound(Answer(status, result, None), request.replacement, session.fate)
                && AgreesWithRow(Answer(status, result, None), session.rowVersion, request.expected)
      ensures request.ReadRequest? ==> session.fate == Untouched && status in {StatusOk, StatusUnavailable}
      ensures status == StatusOk ==> RowIs(session.log, request, binding, result) && StrictRecord(result, binding) == Some(result)
      ensures !session.disturbed ==> FollowsThrough(Answer(status, result, None), session.log, request, binding)
    {
      var message;
      ghost var said;
      message, said := Child(session, request);
      var legible := session.Outside();
      if !legible {
        message := Garbage;
      }
      status, result := Interpret(message, request, before);
    }
  }

  /** What the durable store's swap returns or raises. */
  datatype StoreVerdict =
    | Stored(record: Record)
    | VersionChanged
    | WriteAmbiguous
    | StoreError
    | StoreInterrupted(interrupt: Interrupt)
    | BadArgument

  /** How the rotation protocol sees the store's answer; all other errors are one broken swap. */
  function SeenAs(verdict: StoreVerdict): Protocol.CasOutcome {
    match verdict
    case Stored(_) => Protocol.Acknowledged
    case VersionChanged => Protocol.Refused
    case WriteAmbiguous => Protocol.InDoubt
    case _ => Protocol.Broken
  }

  /** The server's row lock saw the expected version where a record is returned, another where it refused. */
  lemma ProtocolAllows(verdict: StoreVerdict, rowVersion: nat, expected: nat, replacement: Record)
    requires verdict.Stored? ==> rowVersion == expected
    requires verdict.VersionChanged? ==> rowVersion != expected
    ensures forall s: Protocol.System ::
              s.history != [] && s.Current().version == rowVersion ==>
                Protocol.Submit(s, Protocol.Write(expected, replacement), SeenAs(verdict)).Some?
  {
  }

  /** A storable replacement makes a valid request, and the rows say it exactly where they hold its encoding. */
  lemma WriteIsServed(rows: seq<Row>, expected: nat, replacement: Record, binding: Binding)
    requires binding.Valid() && Storable(replacement, binding)
    requires replacement.version == expected + 1 && expected < MAX_BIGINT
    ensures var request := WriteRequest(binding, expected, Encode(replacement));
            && ValidRequest(request, binding)
            && (RowsSay(rows, request, binding) <==> rows == [OneColumn(Encode(replacement)), NoRow])
  {
    EncodingIsStrict(replacement, binding);
    EncodedTypes(replacement);
  }

  lemma ReadIsServed(rows: seq<Row>, record: Record, binding: Binding)
    requires binding.Valid() && Storable(record, binding) && rows == [OneColumn(Encode(record)), NoRow]
    ensures RowsSay(rows, ReadRequest(binding), binding)
  {
    EncodingIsStrict(record, binding);
  }

  /** A record the strict check lets through is the encoding of exactly one storable record, and decodes to it. */
  lemma StrictDecodes(raw: Raw, binding: Binding) returns (record: Record)
    requires binding.Valid() && StrictRecord(raw, binding).Some?
    ensures Storable(record, binding) && Encode(record) == raw && Decode(raw, binding) == Some(record)
  {
    StrictRecordExact(raw, binding);
    record :| Storable(record, binding) && Encode(record) == raw;
    DecodeEncode(record);
  }

  lemma EncodedOnce(a: Record, b: Record)
    requires a.WellFormed() && b.WellFormed() && a.binding == b.binding && a.binding.Valid() && Encode(a) == Encode(b)
    ensures a == b
  {
    DecodeEncode(a);
    DecodeEncode(b);
  }

  /** Where nothing outside went wrong, a swap's verdict follows from what the driver answered. */
  lemma SwapVerdict(answer: Verdict, verdict: StoreVerdict, a: Answers, expected: nat, replacement: Record, binding: Binding)
    requires binding.Valid() && Storable(replacement, binding)
    requires replacement.version == expected + 1 && expected < MAX_BIGINT
    requires FollowsThrough(answer, a, WriteRequest(binding, expected, Encode(replacement)), binding)
    requires answer.Returned? ==> verdict == Stored(replacement)
    requires answer.Conflict? ==> verdict == VersionChanged
    requires answer.Ambiguous? ==> verdict == WriteAmbiguous
    requires answer.Unavailable? ==> verdict == StoreError
    ensures SwapFollows(verdict, a, Encode(replacement))
  {
    WriteIsServed(a.rows, expected, replacement, binding);
  }

  /** The verdict of a swap by what the driver answered, where nothing outside the database went wrong. */
  ghost predicate SwapFollows(verdict: StoreVerdict, a: Answers, payload: Raw) {
    && (verdict.Stored? <==> a.faults == [] && !a.refused && a.rows == [OneColumn(payload), NoRow])
    && (verdict.VersionChanged? <==> a.refused && !a.unrolled)
    && (a.executed && !verdict.Stored? && !verdict.VersionChanged? ==> verdict == WriteAmbiguous)
  }

  /** The answer to a read by what the driver answered; `spoiled` says that something outside the database went wrong. */
  ghost predicate ReadFollows(verdict: StoreVerdict, a: Answers, binding: Binding, spoiled: bool) {
    && (verdict.Stored? || verdict.StoreError? || verdict.StoreInterrupted?)
    && (verdict.Stored? ==> Storable(verdict.record, binding) && a.rows == [OneColumn(Encode(verdict.record)), NoRow])
    && (!spoiled && a.faults == [] && !a.refused ==> forall record :: OnlyRow(a.rows, record, binding) ==> verdict == Stored(record))
  }

  ghost predicate OnlyRow(rows: seq<Row>, record: Record, binding: Binding) {
    Storable(record, binding) && rows == [OneColumn(Encode(record)), NoRow]
  }

  /** A fault-free read of one storable row is answered, and with that record only. */
  lemma ReadVerdict(verdict: StoreVerdict, answer: Verdict, a: Answers, binding: Binding, spoiled: bool)
    requires binding.Valid() && (!spoiled ==> FollowsThrough(answer, a, ReadRequest(binding), binding))
    requires answer.Returned? ==> Served(a, ReadRequest(binding), binding) && a.rows[0] == OneColumn(answer.record)
    requires answer.Returned? ==> verdict.Stored? && Storable(verdict.record, binding) && Encode(verdict.record) == answer.record
    requires !answer.Returned? ==> verdict.StoreError? || verdict.StoreInterrupted?
    ensures ReadFollows(verdict, a, binding, spoiled)
  {
    if !spoiled && a.faults == [] && !a.refused {
      forall record | OnlyRow(a.rows, record, binding) ensures verdict == Stored(record) {
        ReadIsServed(a.rows, record, binding);
        assert answer.Returned?;
        EncodedOnce(record, verdict.record);
      }
    }
  }

  /** `DurableVersionedSecretStore` over the deadline backend. */
  class DurableStore {
    const backend: DeadlineBackend

    constructor (backend: DeadlineBackend)
      ensures this.backend == backend
    {
      this.backend := backend;
    }

    /**
     The verdict the rotation protocol relies on. A stored record is the replacement and is
     committed; a version change means it was refused for good; over this backend even an
     unclassified error means the write was never submitted; and whatever the answer, the
     protocol allows it of a store at the version the server's row lock saw.
     */
    method CompareAndSwap(session: Session, expected: nat, replacement: Record) returns (verdict: StoreVerdict)
      requires session.Unused() && backend.binding.Valid() && replacement.WellFormed()
      modifies backend, session
      ensures match verdict
              case Stored(record) => record == replacement && session.fate == Committed(Encode(replacement))
              case VersionChanged => session.fate == Refused
              case WriteAmbiguous => true
              case StoreError => session.fate == Untouched
              case StoreInterrupted(_) => session.fate == Untouched
              case BadArgument =>
                session.fate == Untouched
                && (replacement.binding != backend.binding || replacement.version != expected + 1)
      ensures forall s: Protocol.System ::
                s.history != [] && s.Current().version == session.rowVersion ==>
                  Protocol.Submit(s, Protocol.Write(expected, replacement), SeenAs(verdict)).Some?
      ensures replacement.binding != backend.binding || replacement.version != expected + 1 ==> verdict == BadArgument
      ensures !session.disturbed && !old(backend.quarantined) && verdict != BadArgument
              && Storable(replacement, backend.binding) && expected < MAX_BIGINT ==>
                SwapFollows(verdict, session.log, Encode(replacement))
    {
      if replacement.binding != backend.binding || replacement.version != expected + 1 {
        ProtocolAllows(BadArgument, session.rowVersion, expected, replacement);
        return BadArgument;
      }
      var payload := Encode(replacement);
      var answer := backend.Operate(session, WriteRequest(backend.binding, expected, payload));
      match answer {
        case Conflict => verdict := VersionChanged;
        case Ambiguous => verdict := WriteAmbiguous;
        case Unavailable => verdict := StoreError;
        case Broken(interrupt) => verdict := StoreInterrupted(interrupt);
        case Returned(raw) =>
          DecodeEncode(replacement);
          var stored := Decode(raw, backend.binding);
          verdict := if stored == Some(replacement) then Stored(replacement) else StoreError;
      }
      if Storable(replacement, backend.binding) && expected < MAX_BIGINT {
        WriteIsServed(session.log.rows, expected, replacement, backend.binding);
        if !session.disturbed && !old(backend.quarantined) {
          SwapVerdict(answer, verdict, session.log, expected, replacement, backend.binding);
        }
      }
      ProtocolAllows(verdict, session.rowVersion, expected, replacement);
    }

    /**
     A read returns the record whose encoding is the row that was fetched, and it does so whenever
     that row was the only one, holds a storable record, and nothing went wrong on the way.
     */
    method ReadRecord(session: Session) returns (verdict: StoreVerdict)
      requires session.Unused() && backend.binding.Valid()
      modifies backend, session
      ensures ReadFollows(verdict, session.log, backend.binding, session.disturbed || old(backend.quarantined))
    {
      var answer := backend.Operate(session, ReadRequest(backend.binding));
      match answer {
        case Returned(raw) =>
          ghost var record := StrictDecodes(raw, backend.binding);
          verdict := Stored(Decode(raw, backend.binding).value);
        case Broken(interrupt) => verdict := StoreInterrupted(interrupt);
        case _ => verdict := StoreError;
      }
      ReadVerdict(verdict, answer, session.log, backend.binding, session.disturbed || old(backend.quarantined));
    }
  }
}
