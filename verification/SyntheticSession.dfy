/**
 The workbench's saved session: what a valid session is, a store that replaces one file
 atomically, and a workbench whose memory changes only after its session was saved. The
 process may die at any effect; nobody else writes the file.
 */
module SyntheticSession {
  import opened CredentialIdentity

  type Key = nat

  /** A captured prediction, by the parts the session checks; `rest` is everything else in it. */
  datatype Snapshot = Snapshot(raceNumber: int, riders: nat, start: int, rest: string)

  datatype History = History(snapshot: Snapshot, result: string)

  datatype Session = Session(
    scheduled: int,
    series: nat,
    snapshots: map<Key, Snapshot>,
    histories: map<Key, History>,
    current: Option<Key>)

  const MAX_SERIES: nat := 1000000
  const MAX_SNAPSHOTS: nat := 20

  predicate GeneratedRace(s: Snapshot, scheduled: int, series: nat) {
    && (s.riders == 7 || s.riders == 9)
    && (s.raceNumber - s.riders) % 10 == 0 && 0 <= (s.raceNumber - s.riders) / 10 <= series
    && ((s.raceNumber - s.riders) / 10 == series ==> s.start == scheduled)
  }

  /** `validate_session`. */
  predicate ValidSession(v: Session) {
    && v.series <= MAX_SERIES && |v.snapshots| <= MAX_SNAPSHOTS
    && v.histories.Keys <= v.snapshots.Keys
    && (match v.current case Some(key) => key in v.snapshots case None => v.snapshots == map[])
    && (forall key :: key in v.snapshots ==> GeneratedRace(v.snapshots[key], v.scheduled, v.series))
    && (forall key :: key in v.histories ==> v.histories[key].snapshot == v.snapshots[key])
  }

  datatype SaveResult = Saved | Invalid | TooLarge | RestartRequired | SaveFailed(uncertain: bool) | Died

  /** What a save asks of the disk, in order. */
  datatype Stage = Measuring | Reading | Writing | Replacing | Syncing

  type Effects = seq<(Stage, EffectResult)>

  /** The file's bytes are an injective encoding of the session, so it is kept as the session. */
  class Disk {
    var file: Option<Session>
    /** How each effect went; written only by the effects themselves. */
    ghost var log: Effects

    constructor (file: Option<Session>)
      ensures this.file == file
    {
      this.file, log := file, [];
    }

    /** Whether the encoded session stays within the size limit. */
    method Measure() returns (fits: bool)
      modifies this`log
      ensures log == old(log) + [(Measuring, if fits then Done else Raised)]
    {
      fits := *;
      log := log + [(Measuring, if fits then Done else Raised)];
    }

    /** An effect that may fail or be the last one of the process, and leaves the file alone. */
    method Effect(stage: Stage) returns (r: EffectResult)
      modifies this`log
      ensures log == old(log) + [(stage, r)]
    {
      r := *;
      log := log + [(stage, r)];
    }

    /** Atomic replacement. Dying or failing in it leaves the old file or the new one. */
    method Replace(next: Session) returns (r: EffectResult)
      modifies this
      ensures r.Done? ==> file == Some(next)
      ensures r.Raised? ==> file == old(file)
      ensures file == old(file) || file == Some(next)
      ensures log == old(log) + [(Replacing, r)]
    {
      r := *;
      log := log + [(Replacing, r)];
      var landed: bool := *;
      if r.Done? || (r.Stopped? && landed) {
        file := Some(next);
      }
    }

    /** Forcing the directory out: until it is done, a stop may still bring the old file back. */
    method SyncDirectory(before: Option<Session>, next: Session) returns (r: EffectResult)
      requires file == Some(next)
      modifies this
      ensures r.Done? ==> file == Some(next)
      ensures file == before || file == Some(next)
      ensures log == old(log) + [(Syncing, r)]
    {
      r := *;
      log := log + [(Syncing, r)];
      var lost: bool := *;
      if !r.Done? && lost {
        file := before;
      }
    }
  }

  datatype EffectResult = Done | Raised | Stopped

  const STAGES: seq<Stage> := [Measuring, Reading, Writing, Replacing, Syncing]

  /** Effect after effect, each after the one before it went well; the last of them tells the answer. */
  ghost predicate SaveAnswers(effects: Effects, r: SaveResult) {
    && 1 <= |effects| <= 5 && (forall i :: 0 <= i < |effects| ==> effects[i].0 == STAGES[i])
    && (forall i :: 0 <= i < |effects| - 1 ==> effects[i].1.Done?)
    && var last := effects[|effects| - 1];
       match last.1
       case Done => last.0 == Syncing && r == Saved
       case Stopped => r == Died
       case Raised => r == if last.0 == Measuring then TooLarge else SaveFailed(last.0 == Syncing)
  }

  /** What a commit answers: nothing is saved after a failure, nor an invalid session; otherwise the disk decides. */
  ghost predicate CommitAnswers(failed: bool, next: Session, before: Effects, after: Effects, r: OpResult) {
    if failed then r == NotSaved(RestartRequired) && after == before
    else if !ValidSession(next) then r == NotSaved(Invalid) && after == before
    else before <= after && !r.Refused? && SaveAnswers(after[|before|..], if r.Ok? then Saved else r.why)
  }

  /** `SessionStore` after its constructor: the lock is held and the file was read. */
  class SessionStore {
    const disk: Disk
    var failed: bool
    var expected: Option<Session>

    /** Until a save fails, the file is what was last read or saved. */
    ghost predicate Valid()
      reads this, disk
    {
      && (expected.Some? ==> ValidSession(expected.value))
      && (disk.file.Some? ==> ValidSession(disk.file.value))
      && (!failed ==> disk.file == expected)
    }

    constructor (disk: Disk)
      requires disk.file.Some? ==> ValidSession(disk.file.value)
      ensures this.disk == disk && Valid() && !failed && expected == disk.file
    {
      this.disk := disk;
      failed, expected := false, disk.file;
    }

    /**
     `save`. Acknowledged, the file is the new session. Otherwise it is the old one or the new
     one, and it is the old one unless the replacement was reached; after a failure every
     later save refuses.
     */
    method Save(payload: Session) returns (r: SaveResult)
      requires Valid()
      modifies this, disk
      ensures r != Died ==> Valid()
      ensures disk.file == old(disk.file) || disk.file == Some(payload)
      ensures disk.file != old(disk.file) ==> ValidSession(payload)
      ensures r.Saved? ==> disk.file == Some(payload) == expected && !failed
      ensures !r.Saved? ==> expected == old(expected)
      ensures old(failed) ==> r == RestartRequired
      ensures r.Invalid? <==> !old(failed) && !ValidSession(payload)
      ensures r.Invalid? || r.TooLarge? || r.RestartRequired? ==> failed == old(failed) && disk.file == old(disk.file)
      ensures r.SaveFailed? ==> failed && (!r.uncertain ==> disk.file == old(disk.file))
      ensures CommitAnswers(old(failed), payload, old(disk.log), disk.log, if r.Saved? then Ok else NotSaved(r))
    {
      if failed {
        return RestartRequired;
      }
      if !ValidSession(payload) {
        return Invalid;
      }
      var fits := disk.Measure();
      if !fits {
        return TooLarge;
      }
      r := WriteThrough(payload, old(disk.log));
    }

    /** From reading the file back to forcing out the directory. */
    method WriteThrough(payload: Session, ghost log: Effects) returns (r: SaveResult)
      requires Valid() && !failed && ValidSession(payload) && disk.log == log + [(Measuring, Done)]
      modifies this, disk
      ensures r != Died ==> Valid()
      ensures disk.file == old(disk.file) || disk.file == Some(payload)
      ensures r.Saved? || r.SaveFailed? || r.Died?
      ensures r.Saved? ==> disk.file == Some(payload) == expected && !failed
      ensures !r.Saved? ==> expected == old(expected)
      ensures r.SaveFailed? ==> failed && (!r.uncertain ==> disk.file == old(disk.file))
      ensures log <= disk.log && SaveAnswers(disk.log[|log|..], r)
    {
      var read := disk.Effect(Reading);
      if read.Stopped? {
        return Died;
      }
      if read.Raised? || disk.file != expected {
        failed := true;
        return SaveFailed(false);
      }
      // The partial file is created, written and forced out beside the session file.
      var written := disk.Effect(Writing);
      if written.Stopped? {
        return Died;
      }
      if written.Raised? {
        failed := true;
        return SaveFailed(false);
      }
      r := PutInPlace(payload, log);
    }

    /** Once the partial file is written: the replacement, and forcing out the directory. */
    method PutInPlace(payload: Session, ghost log: Effects) returns (r: SaveResult)
      requires Valid() && !failed && ValidSession(payload)
      requires disk.log == log + [(Measuring, Done), (Reading, Done), (Writing, Done)]
      modifies this, disk
      ensures r != Died ==> Valid()
      ensures disk.file == old(disk.file) || disk.file == Some(payload)
      ensures r.Saved? || r.SaveFailed? || r.Died?
      ensures r.Saved? ==> disk.file == Some(payload) == expected && !failed
      ensures !r.Saved? ==> expected == old(expected)
      ensures r.SaveFailed? ==> failed && (!r.uncertain ==> disk.file == old(disk.file))
      ensures log <= disk.log && SaveAnswers(disk.log[|log|..], r)
    {
      var before := disk.file;
      var replaced := disk.Replace(payload);
      if replaced.Stopped? {
        return Died;
      }
      if replaced.Raised? {
        failed := true;
        return SaveFailed(false);
      }
      var synced := disk.SyncDirectory(before, payload);
      if synced.Stopped? {
        return Died;
      }
      if synced.Raised? {
        failed := true;
        return SaveFailed(true);
      }
      expected := Some(payload);
      return Saved;
    }
  }

  // ----- the workbench

  datatype OpResult = Ok | Refused | NotSaved(why: SaveResult)

  function Fresh(now: int): Session {
    Session(now + 3600, 0, map[], map[], None)
  }

  /** The fields of the workbench, and the store when a directory was given. */
  class Workbench {
    const store: SessionStore?
    var scheduled: int
    var series: nat
    var snapshots: map<Key, Snapshot>
    var histories: map<Key, History>
    var current: Option<Key>

    /** What `_payload()` would save: all that is in memory. */
    function Memory(): Session
      reads this
    {
      Session(scheduled, series, snapshots, histories, current)
    }

    /** Memory is a valid session; with a store, it is the last session read or acknowledged, if there is one. */
    ghost predicate Valid()
      reads this, store, if store == null then {} else {store.disk}
    {
      && ValidSession(Memory())
      && (store != null ==> store.Valid() && (store.expected.Some? ==> store.expected.value == Memory()))
    }

    constructor (store: SessionStore?, now: int)
      requires store != null ==> store.Valid() && !store.failed
      ensures Valid() && this.store == store
      ensures Memory() == if store != null && store.expected.Some? then store.expected.value else Fresh(now)
    {
      var s := if store != null && store.expected.Some? then store.expected.value else Fresh(now);
      this.store := store;
      scheduled, series, snapshots, histories, current := s.scheduled, s.series, s.snapshots, s.histories, s.current;
    }

    /** `_commit`: memory takes the new session exactly when it was saved. */
    method Commit(next: Session) returns (r: OpResult)
      requires Valid()
      modifies this, store, if store == null then {} else {store.disk}
      ensures r != NotSaved(Died) && (store != null || ValidSession(next)) ==> Valid()
      ensures Memory() == if r.Ok? then next else old(Memory())
      ensures !r.Refused? && (r == NotSaved(Invalid) ==> store != null && !ValidSession(next))
      ensures store == null ==> r.Ok?
      ensures store != null ==> CommitAnswers(old(store.failed), next, old(store.disk.log), store.disk.log, r)
      ensures store != null ==> FileFollows(old(store.failed), old(store.expected), old(store.disk.file), store, next, r)
    {
      if store != null {
        var saved := store.Save(next);
        if !saved.Saved? {
          return NotSaved(saved);
        }
      }
      scheduled, series, snapshots, histories, current :=
        next.scheduled, next.series, next.snapshots, next.histories, next.current;
      return Ok;
    }

    /** `select`. */
    method Select(key: Key) returns (r: OpResult)
      requires Valid()
      modifies this, store, if store == null then {} else {store.disk}
      ensures r != NotSaved(Died) ==> Valid()
      ensures r.Refused? <==> key !in old(snapshots)
      ensures store == null && !r.Refused? ==> r.Ok?
      ensures r != NotSaved(Invalid)
      ensures Memory() == if r.Ok? then old(Memory()).(current := Some(key)) else old(Memory())
      ensures store != null ==> FileFollows(old(store.failed), old(store.expected), old(store.disk.file), store,
                                            Selected(old(Memory()), key), r)
      ensures store != null && !r.Refused? ==>
                CommitAnswers(old(store.failed), Selected(old(Memory()), key), old(store.disk.log), store.disk.log, r)
    {
      if key !in snapshots {
        return Refused;
      }
      SelectedIsValid(Memory(), key);
      r := Commit(Selected(Memory(), key));
    }

    /**
     `predict`, with the key drawn and the prediction made. A passed schedule starts the next
     series; only there can the session fail its own check, at the cap of the series.
     */
    method Predict(riders: nat, now: int, key: Key, rest: string) returns (r: OpResult)
      requires Valid() && key !in snapshots
      modifies this, store, if store == null then {} else {store.disk}
      ensures r != NotSaved(Died) && (store != null || old(series) < MAX_SERIES) ==> Valid()
      ensures r.Refused? <==> (riders != 7 && riders != 9)
                              || (|old(snapshots)| >= MAX_SNAPSHOTS && (store != null ==> !old(store.failed)))
      ensures store == null && !r.Refused? ==> r.Ok?
      ensures r == NotSaved(Invalid) ==> old(series) == MAX_SERIES && now >= old(scheduled)
      ensures Memory() == if r.Ok? then Predicted(old(Memory()), riders, now, key, rest) else old(Memory())
      ensures store != null ==> FileFollows(old(store.failed), old(store.expected), old(store.disk.file), store,
                                            Predicted(old(Memory()), riders, now, key, rest), r)
      ensures store != null && !r.Refused? ==>
                CommitAnswers(old(store.failed), Predicted(old(Memory()), riders, now, key, rest), old(store.disk.log), store.disk.log, r)
    {
      if riders != 7 && riders != 9 {
        return Refused;
      }
      if store != null && store.failed {
        return NotSaved(RestartRequired);
      }
      if |snapshots| >= MAX_SNAPSHOTS {
        return Refused;
      }
      PredictedIsValid(Memory(), riders, now, key, rest);
      r := Commit(Predicted(Memory(), riders, now, key, rest));
    }

    /** `settle` and `hold`, once the result has been accepted for the snapshot. */
    method Settle(key: Key, result: string) returns (r: OpResult)
      requires Valid()
      modifies this, store, if store == null then {} else {store.disk}
      ensures r != NotSaved(Died) ==> Valid()
      ensures r.Refused? <==> key !in old(snapshots) || key in old(histories)
      ensures store == null && !r.Refused? ==> r.Ok?
      ensures r != NotSaved(Invalid)
      ensures Memory() == if r.Ok? then Settled(old(Memory()), key, result) else old(Memory())
      ensures store != null ==> FileFollows(old(store.failed), old(store.expected), old(store.disk.file), store,
                                            Settled(old(Memory()), key, result), r)
      ensures store != null && !r.Refused? ==>
                CommitAnswers(old(store.failed), Settled(old(Memory()), key, result), old(store.disk.log), store.disk.log, r)
    {
      if key !in snapshots || key in histories {
        return Refused;
      }
      SettledIsValid(Memory(), key, result);
      r := Commit(Settled(Memory(), key, result));
    }
  }

  function Selected(s: Session, key: Key): Session {
    s.(current := Some(key))
  }

  function Predicted(s: Session, riders: nat, now: int, key: Key, rest: string): Session {
    var scheduled := if now >= s.scheduled then now + 3600 else s.scheduled;
    var series := if now >= s.scheduled then s.series + 1 else s.series;
    s.(scheduled := scheduled, series := series, current := Some(key),
       snapshots := s.snapshots[key := Snapshot(series * 10 + riders, riders, scheduled, rest)])
  }

  function Settled(s: Session, key: Key, result: string): Session {
    if key !in s.snapshots then s
    else s.(histories := s.histories[key := History(s.snapshots[key], result)], current := Some(key))
  }

  lemma SelectedIsValid(s: Session, key: Key)
    requires ValidSession(s) && key in s.snapshots
    ensures ValidSession(Selected(s, key))
  {
  }

  lemma SeriesOfNumber(series: nat, riders: nat)
    ensures (series * 10 + riders - riders) % 10 == 0 && (series * 10 + riders - riders) / 10 == series
  {
  }

  /** Raising the series or keeping the schedule leaves earlier snapshots as they should be. */
  lemma EarlierStillGenerated(s: Session, t: Session, k: Key)
    requires k in s.snapshots && GeneratedRace(s.snapshots[k], s.scheduled, s.series)
    requires t.series > s.series || (t.series == s.series && t.scheduled == s.scheduled)
    ensures GeneratedRace(s.snapshots[k], t.scheduled, t.series)
  {
  }

  lemma CountOneMore(m: map<Key, Snapshot>, key: Key, snapshot: Snapshot)
    requires key !in m
    ensures |m[key := snapshot]| == |m| + 1
  {
    assert m[key := snapshot].Keys == m.Keys + {key};
    assert |m[key := snapshot]| == |m[key := snapshot].Keys| && |m| == |m.Keys|;
  }

  /** A prediction keeps the session valid exactly when it does not need a series beyond the cap. */
  lemma PredictedIsValid(s: Session, riders: nat, now: int, key: Key, rest: string)
    requires ValidSession(s) && (riders == 7 || riders == 9) && |s.snapshots| < MAX_SNAPSHOTS && key !in s.snapshots
    ensures ValidSession(Predicted(s, riders, now, key, rest)) <==> s.series < MAX_SERIES || now < s.scheduled
  {
    var t := Predicted(s, riders, now, key, rest);
    CountOneMore(s.snapshots, key, t.snapshots[key]);
    SeriesOfNumber(t.series, riders);
    forall k | k in t.snapshots ensures GeneratedRace(t.snapshots[k], t.scheduled, t.series) {
      if k != key {
        EarlierStillGenerated(s, t, k);
      }
    }
  }

  /**
   A prediction adds one snapshot of a race that has not started, numbered by its series and size, and keeps
   every earlier one; only when the schedule has passed does it start the next series, an hour from now.
   */
  lemma PredictedExactly(s: Session, riders: nat, now: int, key: Key, rest: string)
    requires ValidSession(s) && key !in s.snapshots
    ensures var t := Predicted(s, riders, now, key, rest); var shot := t.snapshots[key];
            && t.snapshots.Keys == s.snapshots.Keys + {key} && (forall k :: k in s.snapshots ==> t.snapshots[k] == s.snapshots[k])
            && t.histories == s.histories && t.current == Some(key)
            && shot.riders == riders && shot.rest == rest && now < shot.start == t.scheduled
            && shot.raceNumber == 10 * t.series + riders
            && (now < s.scheduled ==> t.series == s.series && t.scheduled == s.scheduled)
            && (s.scheduled <= now ==> t.series == s.series + 1 && t.scheduled == now + 3600)
  {
  }

  /** A result is recorded with the snapshot as it was captured, and nothing else of the session changes but the selection. */
  lemma SettledExactly(s: Session, key: Key, result: string)
    requires key in s.snapshots
    ensures var t := Settled(s, key, result);
            && t.histories.Keys == s.histories.Keys + {key} && t.histories[key] == History(s.snapshots[key], result)
            && (forall k :: k in s.histories && k != key ==> t.histories[k] == s.histories[k])
            && t.snapshots == s.snapshots && t.scheduled == s.scheduled && t.series == s.series && t.current == Some(key)
  {
  }

  /** A snapshot's number tells its series: none beyond the present one, and that one at the present schedule. */
  lemma GeneratedExactly(s: Snapshot, scheduled: int, series: nat)
    ensures GeneratedRace(s, scheduled, series) <==>
              && (s.riders == 7 || s.riders == 9)
              && exists n: nat :: n <= series && s.raceNumber == Numbered(n, s.riders) && (n == series ==> s.start == scheduled)
  {
    if GeneratedRace(s, scheduled, series) {
      var n := (s.raceNumber - s.riders) / 10;
      assert s.raceNumber == Numbered(n, s.riders);
    }
  }

  function Numbered(series: nat, riders: nat): int {
    10 * series + riders
  }

  lemma SettledIsValid(s: Session, key: Key, result: string)
    requires ValidSession(s) && key in s.snapshots
    ensures ValidSession(Settled(s, key, result))
  {
  }

  /** A save of `next` that failed or died without an answer that tells whether it took effect. */
  predicate LeftInDoubt(r: OpResult) {
    r == NotSaved(Died) || r == NotSaved(SaveFailed(true))
  }

  /**
   The file is the old one or, where the save was acknowledged or left in doubt, the valid new
   session; acknowledged it is the new one. Where saving had failed before, nothing is saved.
   */
  ghost predicate FileFollows(failed: bool, expected: Option<Session>, file: Option<Session>, store: SessionStore,
                              next: Session, r: OpResult)
    reads store, store.disk
  {
    && (store.disk.file == file || (store.disk.file == Some(next) && (r.Ok? || LeftInDoubt(r))))
    && (r.Ok? ==> store.disk.file == Some(next) && !store.failed)
    && store.expected == (if r.Ok? then Some(next) else expected)
    && (r.Ok? || LeftInDoubt(r) ==> ValidSession(next))
    && (r == NotSaved(SaveFailed(true)) ==> store.failed)
    && (failed ==> store.failed && (r.Refused? || r == NotSaved(RestartRequired)))
  }

  // ----- a whole life

  datatype Op =
    | DoSelect(key: Key)
    | DoPredict(riders: nat, now: int, key: Key, rest: string)
    | DoSettle(key: Key, result: string)
    | Reopen(now: int)

  /** What became known of the file: a save acknowledged, a save left in doubt, what an opening found. */
  datatype Note = Acknowledged(session: Session) | InDoubt(session: Session) | Found(file: Option<Session>)

  /** The session that counts: the last one acknowledged, or what an opening found since. */
  function Established(first: Option<Session>, log: seq<Note>): Option<Session> {
    if log == [] then first
    else match log[|log| - 1]
      case Acknowledged(s) => Some(s)
      case Found(file) => file
      case InDoubt(_) => Established(first, log[..|log| - 1])
  }

  /** The session whose save was left in doubt, until an opening finds out. */
  function Doubted(log: seq<Note>): Option<Session> {
    if log != [] && log[|log| - 1].InDoubt? then Some(log[|log| - 1].session) else None
  }

  /** The file may hold this: the established session, or the one in doubt. */
  predicate MayHold(first: Option<Session>, log: seq<Note>, file: Option<Session>) {
    file == Established(first, log) || (file.Some? && file == Doubted(log))
  }

  /** After a save in doubt nothing is saved until an opening, and an opening finds what the file may hold. */
  predicate TrueNote(first: Option<Session>, log: seq<Note>, note: Note) {
    if note.Found? then MayHold(first, log, note.file) else ValidSession(note.session) && Doubted(log).None?
  }

  predicate TrueLog(first: Option<Session>, log: seq<Note>) {
    log == [] || (TrueLog(first, log[..|log| - 1]) && TrueNote(first, log[..|log| - 1], log[|log| - 1]))
  }

  /** Memory is the established session; so is the file, unless a save failed. */
  ghost predicate Accounted(bench: Workbench, dead: bool, first: Option<Session>, log: seq<Note>)
    reads bench, bench.store, if bench.store == null then {} else {bench.store.disk}
  {
    && bench.store != null && TrueLog(first, log)
    && MayHold(first, log, bench.store.disk.file) && (bench.store.disk.file.Some? ==> ValidSession(bench.store.disk.file.value))
    && (!dead ==>
          && bench.Valid() && bench.store.expected == Established(first, log)
          && (Doubted(log).Some? ==> bench.store.failed))
  }

  lemma OneMoreNote(first: Option<Session>, log: seq<Note>, note: Note)
    ensures note.Acknowledged? ==> Established(first, log + [note]) == Some(note.session)
    ensures note.InDoubt? ==> Established(first, log + [note]) == Established(first, log)
    ensures note.Found? ==> Established(first, log + [note]) == note.file
    ensures Doubted(log + [note]) == if note.InDoubt? then Some(note.session) else None
    ensures TrueLog(first, log + [note]) <==> TrueLog(first, log) && TrueNote(first, log, note)
  {
    assert (log + [note])[..|log + [note]| - 1] == log;
  }

  function LastAcknowledged(first: Option<Session>, log: seq<Note>): Option<Session> {
    if log == [] then first
    else if log[|log| - 1].Acknowledged? then Some(log[|log| - 1].session)
    else LastAcknowledged(first, log[..|log| - 1])
  }

  /** Its save was left in doubt, and nothing has been acknowledged since. */
  ghost predicate DoubtedSince(log: seq<Note>, i: nat) {
    i < |log| && log[i].InDoubt? && forall k :: i <= k < |log| ==> !log[k].Acknowledged?
  }

  /** What counts is the last acknowledged session, or one left in doubt since then that an opening found. */
  lemma {:induction false} EstablishedSource(first: Option<Session>, log: seq<Note>)
    requires TrueLog(first, log)
    ensures Established(first, log) == LastAcknowledged(first, log)
            || exists i: nat :: DoubtedSince(log, i) && Established(first, log) == Some(log[i].session)
    decreases |log|
  {
    if log != [] && !log[|log| - 1].Acknowledged? {
      var n := |log| - 1;
      var before := log[..n];
      EstablishedSource(first, before);
      if i: nat :| DoubtedSince(before, i) && Established(first, before) == Some(before[i].session) {
        assert DoubtedSince(log, i);
      }
      if log[n].Found? && Doubted(before).Some? {
        assert DoubtedSince(log, n - 1);
      }
    }
  }

  /** The session an operation asks for. */
  function Asked(s: Session, op: Op): Session {
    match op
    case DoSelect(key) => Selected(s, key)
    case DoPredict(riders, now, key, rest) => Predicted(s, riders, now, key, rest)
    case DoSettle(key, result) => Settled(s, key, result)
    case Reopen(_) => s
  }

  /** What an operation needs of the session before anything is saved; a drawn key is a new one. */
  predicate Admits(s: Session, failed: bool, op: Op) {
    match op
    case DoSelect(key) => key in s.snapshots
    case DoPredict(riders, _, key, _) =>
      key !in s.snapshots && (riders == 7 || riders == 9) && (|s.snapshots| < MAX_SNAPSHOTS || failed)
    case DoSettle(key, _) => key in s.snapshots && key !in s.histories
    case Reopen(_) => false
  }

  /** One operation of an open workbench. */
  method Perform(bench: Workbench, op: Op) returns (r: OpResult)
    requires !op.Reopen? && bench.store != null && bench.Valid()
    modifies bench, bench.store, bench.store.disk
    ensures r != NotSaved(Died) ==> bench.Valid()
    ensures r.Refused? <==> !Admits(old(bench.Memory()), old(bench.store.failed), op)
    ensures bench.Memory() == if r.Ok? then Asked(old(bench.Memory()), op) else old(bench.Memory())
    ensures FileFollows(old(bench.store.failed), old(bench.store.expected), old(bench.store.disk.file), bench.store,
                        Asked(old(bench.Memory()), op), r)
    ensures !r.Refused? ==>
              CommitAnswers(old(bench.store.failed), Asked(old(bench.Memory()), op), old(bench.store.disk.log), bench.store.disk.log, r)
  {
    match op {
      case DoSelect(key) => r := bench.Select(key);
      case DoPredict(riders, now, key, rest) =>
        if key in bench.snapshots {
          return Refused;
        }
        r := bench.Predict(riders, now, key, rest);
      case DoSettle(key, result) => r := bench.Settle(key, result);
    }
  }

  /** An operation with what it makes known of the file; dead, the workbench must be reopened. */
  method Operate(bench: Workbench, op: Op, ghost first: Option<Session>, ghost log: seq<Note>)
    returns (dead: bool, ghost r: OpResult, ghost after: seq<Note>)
    requires !op.Reopen? && Accounted(bench, false, first, log)
    modifies bench, bench.store, bench.store.disk
    ensures Accounted(bench, dead, first, after) && (dead <==> r == NotSaved(Died))
    ensures after == log + NotesOf(Asked(old(bench.Memory()), op), r)
    ensures r.Refused? <==> !Admits(old(bench.Memory()), old(bench.store.failed), op)
    ensures !r.Refused? ==>
              CommitAnswers(old(bench.store.failed), Asked(old(bench.Memory()), op), old(bench.store.disk.log), bench.store.disk.log, r)
    ensures old(bench.store.failed) ==> after == log && bench.store.disk.file == old(bench.store.disk.file)
    ensures bench.Memory() == if r.Ok? then Asked(old(bench.Memory()), op) else old(bench.Memory())
  {
    ghost var asked := Asked(bench.Memory(), op);
    var result := Perform(bench, op);
    r, dead := result, result == NotSaved(Died);
    after := log + NotesOf(asked, result);
    OneMoreNote(first, log, if r.Ok? then Acknowledged(asked) else InDoubt(asked));
    assert log + [] == log;
  }

  /** What an answer makes known of the file. */
  function NotesOf(asked: Session, r: OpResult): seq<Note> {
    if r.Ok? then [Acknowledged(asked)] else if LeftInDoubt(r) then [InDoubt(asked)] else []
  }

  /**
   The life of a session directory: any operations, each of which may die anywhere, and
   reopenings. The file is always absent or valid, and it is the established session or the one
   whose save was left in doubt; an open workbench has the established session in memory, and
   while no save has failed the file is that session too.
   */
  method Lifetime(disk: Disk, ops: seq<Op>, now: int) returns (bench: Workbench, dead: bool, ghost log: seq<Note>)
    requires disk.file.Some? ==> ValidSession(disk.file.value)
    modifies disk
    ensures bench.store != null && bench.store.disk == disk && Accounted(bench, dead, old(disk.file), log)
    ensures !dead && Established(old(disk.file), log).Some? ==> bench.Memory() == Established(old(disk.file), log).value
    ensures !dead && !bench.store.failed ==> disk.file == Established(old(disk.file), log)
  {
    bench := OpenBench(disk, now);
    dead, log := false, [];
    for i := 0 to |ops|
      invariant fresh(bench) && bench.store != null && fresh(bench.store) && bench.store.disk == disk
      invariant Accounted(bench, dead, old(disk.file), log)
    {
      if ops[i].Reopen? {
        bench := OpenBench(disk, ops[i].now);
        OneMoreNote(old(disk.file), log, Found(disk.file));
        dead, log := false, log + [Found(disk.file)];
      } else if !dead {
        ghost var r;
        dead, r, log := Operate(bench, ops[i], old(disk.file), log);
      }
    }
  }

  /** Opening the directory restores exactly what the file holds. */
  method OpenBench(disk: Disk, now: int) returns (bench: Workbench)
    requires disk.file.Some? ==> ValidSession(disk.file.value)
    ensures fresh(bench) && bench.store != null && fresh(bench.store) && bench.store.disk == disk
    ensures bench.Valid() && !bench.store.failed && bench.store.expected == disk.file
    ensures bench.Memory() == if disk.file.Some? then disk.file.value else Fresh(now)
  {
    var store := new SessionStore(disk);
    bench := new Workbench(store, now);
  }
}
