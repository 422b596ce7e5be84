/**
 Installing the package, one effect after another. Where it stops is decided outside: after any
 number of effects, the next one untouched or left half done. A rollback can clear exactly some
 of what such stops leave.
 */
module CustodyInstall {
  import opened CredentialIdentity
  import opened CustodyPackage

  // The effects of an installation, in order.
  const STATE: nat := 0
  const RECEIPT: nat := 1
  const ACCOUNT: nat := 2
  const NEXT: nat := 3
  const REPLACE: nat := 4
  const OPT: nat := 5
  const ETC: nat := 6
  const GATES: nat := 7
  const UNIT: nat := 8
  const RELOAD: nat := 9
  const EFFECTS: nat := 10

  /**
   `done` effects finished, and whether the next one was left half done. `first` is the group of a
   half-made object, `odd` the account an unfinished `useradd` left, `owner` the user and group id
   a finished one gave.
   */
  datatype Stop = Stop(done: nat, half: bool, first: nat, odd: (Option<User>, Option<Group>), owner: (nat, nat))

  /** The account `useradd` is asked for, with its group. */
  predicate RightAccount(user: Option<User>, group: Option<Group>, id: nat) {
    && user.Some? && user.value.sound && user.value.tag == id && group == Some(Group(user.value.gid, true))
  }

  /** An unfinished `useradd` leaves something, and not yet the account it was asked for. */
  predicate Unfinished(stop: Stop, id: nat) {
    stop.odd != (None, None) && !RightAccount(stop.odd.0, stop.odd.1, id)
  }

  /** One effect in full. */
  function Made(h: Host, id: nat, owner: (nat, nat), k: nat): Host {
    if k == STATE then h.(state := Dir(0, true, false))
    else if k == RECEIPT then h.(receipt := Readable(Receipt(id, None)))
    else if k == ACCOUNT then h.(user := Some(User(id, owner.0, owner.1, true)), group := Some(Group(owner.1, true)))
    else if k == NEXT then h.(next := true)
    else if k == REPLACE then h.(next := false, receipt := Readable(Receipt(id, Some(owner))))
    else if k == OPT then h.(opt := Dir(0, true, false))
    else if k == ETC then h.(etc := Dir(owner.1, true, false))
    else if k == GATES then h.(gates := File(owner.1, true))
    else if k == UNIT then h.(unit := File(0, true))
    else if k == RELOAD then h.(view := Own)
    else h
  }

  /** One effect left half done; a replacement or a reload happens or does not. */
  function HalfMade(h: Host, stop: Stop, k: nat): Host {
    if k == STATE then h.(state := Dir(stop.first, false, false))
    else if k == RECEIPT then h.(receipt := Unreadable)
    else if k == ACCOUNT then h.(user := stop.odd.0, group := stop.odd.1)
    else if k == NEXT then h.(next := true)
    else if k == OPT then h.(opt := Dir(stop.first, false, false))
    else if k == ETC then h.(etc := Dir(stop.first, false, false))
    else if k == GATES then h.(gates := File(stop.first, false))
    else if k == UNIT then h.(unit := File(stop.first, false))
    else h
  }

  function After(h: Host, id: nat, owner: (nat, nat), n: nat): Host {
    if n == 0 then h else Made(After(h, id, owner, n - 1), id, owner, n - 1)
  }

  /** The host an installation leaves that stops there. */
  function InstallTo(h: Host, id: nat, stop: Stop): Host {
    if stop.done >= EFFECTS then After(h, id, stop.owner, EFFECTS)
    else if stop.half then HalfMade(After(h, id, stop.owner, stop.done), stop, stop.done)
    else After(h, id, stop.owner, stop.done)
  }

  /** The first `n` effects, object by object. */
  lemma AfterMeans(h: Host, id: nat, owner: (nat, nat), n: nat)
    requires n <= EFFECTS
    ensures After(h, id, owner, n) == Host(
              if n > STATE then Dir(0, true, false) else h.state,
              if n > REPLACE then Readable(Receipt(id, Some(owner)))
              else if n > RECEIPT then Readable(Receipt(id, None)) else h.receipt,
              if n > REPLACE then false else if n > NEXT then true else h.next,
              if n > ACCOUNT then Some(User(id, owner.0, owner.1, true)) else h.user,
              if n > ACCOUNT then Some(Group(owner.1, true)) else h.group,
              if n > OPT then Dir(0, true, false) else h.opt,
              if n > ETC then Dir(owner.1, true, false) else h.etc,
              if n > GATES then File(owner.1, true) else h.gates,
              if n > UNIT then File(0, true) else h.unit,
              if n > RELOAD then Own else h.view)
  {
    if n > 0 {
      AfterMeans(h, id, owner, n - 1);
    }
  }

  /** Stops a rollback can clear: the receipt stands, nothing is half done, and no successor of the receipt is waiting. */
  predicate Clearable(stop: Stop) {
    stop.done > RECEIPT && stop.done != REPLACE && (stop.half ==> stop.done >= RELOAD)
  }

  /**
   A rollback goes ahead exactly after the stops that left the receipt standing and nothing half
   done. Between writing the receipt's successor and putting it in place it does not.
   */
  lemma RollbackGoesAhead(h: Host, id: nat, stop: Stop)
    requires Fresh(h) && Consistent(h) && Unfinished(stop, id)
    ensures Validates(InstallTo(h, id, stop)) <==> Clearable(stop)
  {
    AfterMeans(h, id, stop.owner, if stop.done >= EFFECTS then EFFECTS else stop.done);
  }

  datatype InstallEnd = Installed | NotInstalled

  /** The installing side of the machine. */
  class Installer {
    const m: Machine
    const stop: Stop

    constructor (m: Machine, stop: Stop)
      ensures this.m == m && this.stop == stop
    {
      this.m, this.stop := m, stop;
    }

    /** One effect: in full, or where the installation stops not at all or half done. */
    method Effect(k: nat, id: nat) returns (done: bool)
      modifies m`h
      ensures done <==> k < stop.done
      ensures m.h == if k < stop.done then Made(old(m.h), id, stop.owner, k)
                     else if k == stop.done && stop.half then HalfMade(old(m.h), stop, k) else old(m.h)
    {
      done := k < stop.done;
      if done {
        m.h := Made(m.h, id, stop.owner, k);
      } else if k == stop.done && stop.half {
        m.h := HalfMade(m.h, stop, k);
      }
    }

    /** The state directory, the receipt under its id, the account. */
    method Begin(id: nat) returns (done: bool)
      modifies m`h
      ensures done <==> stop.done > ACCOUNT
      ensures m.h == if done then After(old(m.h), id, stop.owner, NEXT) else InstallTo(old(m.h), id, stop)
    {
      ghost var before := m.h;
      done := Effect(STATE, id);
      if done {
        assert m.h == After(before, id, stop.owner, RECEIPT);
        done := Effect(RECEIPT, id);
      }
      if done {
        assert m.h == After(before, id, stop.owner, ACCOUNT);
        done := Effect(ACCOUNT, id);
      }
    }

    /** The completed receipt is written apart and put in place. */
    method Complete(id: nat, ghost before: Host) returns (done: bool)
      requires m.h == After(before, id, stop.owner, NEXT) && stop.done > ACCOUNT
      modifies m`h
      ensures done <==> stop.done > REPLACE
      ensures m.h == if done then After(before, id, stop.owner, OPT) else InstallTo(before, id, stop)
    {
      done := Effect(NEXT, id);
      if done {
        done := Effect(REPLACE, id);
      }
    }

    /** Directories, then files, each by the group the receipt names where it needs one. */
    method LayOut(id: nat, ghost before: Host) returns (done: bool)
      requires m.h == After(before, id, stop.owner, OPT) && stop.done > REPLACE
      modifies m`h
      ensures done <==> stop.done > UNIT
      ensures m.h == if done then After(before, id, stop.owner, RELOAD) else InstallTo(before, id, stop)
    {
      done := Effect(OPT, id);
      if done {
        assert m.h == After(before, id, stop.owner, ETC);
        done := Effect(ETC, id);
      }
      if done {
        assert m.h == After(before, id, stop.owner, GATES);
        done := Effect(GATES, id);
      }
      if done {
        assert m.h == After(before, id, stop.owner, UNIT);
        done := Effect(UNIT, id);
      }
    }

    /** `apply` after its approval: it leaves what its stop says, and unstopped everything verifies. */
    method Install(id: nat) returns (end: InstallEnd)
      requires Fresh(m.h) && Consistent(m.h)
      modifies m`h
      ensures m.h == InstallTo(old(m.h), id, stop)
      ensures end.Installed? <==> stop.done >= EFFECTS
      ensures end.Installed? ==> Verified(m.h)
    {
      ghost var before := m.h;
      AfterMeans(before, id, stop.owner, NEXT);
      AfterMeans(before, id, stop.owner, EFFECTS);
      var done := Begin(id);
      if !done || Identity(m.h, Receipt(id, None), false).None? {
        return NotInstalled;
      }
      done := Complete(id, before);
      if !done {
        return NotInstalled;
      }
      done := LayOut(id, before);
      if !done {
        return NotInstalled;
      }
      done := Effect(RELOAD, id);
      return if done && Verified(m.h) then Installed else NotInstalled;
    }
  }

  /** `verify`: everything present, matching the receipt and the fixed contents. */
  predicate Verified(h: Host) {
    && ReadReceipt(h).Some? && ReadReceipt(h).value.owner.Some?
    && Identity(h, ReadReceipt(h).value, false).Some?
    && FilesMatch(h, Identity(h, ReadReceipt(h).value, false).value, false)
    && h.view == Own
  }

  /**
   An installation that stops anywhere, then one rollback that may stop anywhere: the rollback
   goes ahead exactly where the stop left nothing half done, otherwise the host stays as the
   installation left it; it removes only what matched; and if it finishes, the host is fresh.
   */
  method InstallThenRollBack(m: Machine, id: nat, stop: Stop) returns (end: End)
    requires Fresh(m.h) && Consistent(m.h) && Unfinished(stop, id)
    modifies m
    ensures !Clearable(stop) ==> end == Stopped && m.h == InstallTo(old(m.h), id, stop)
    ensures Clearable(stop) ==>
              var between := InstallTo(old(m.h), id, stop);
              Validates(between) &&
              var r := ReadReceipt(between).value;
              OnlyRemoves(between, m.h, r, Identity(between, r, true).value)
    ensures end == RolledBack ==> Fresh(m.h)
    ensures Clearable(stop) ==> EndsBy(end, old(m.troubles), m.troubles)
  {
    RollbackGoesAhead(m.h, id, stop);
    var installer := new Installer(m, stop);
    var _ := installer.Install(id);
    end := RemoveOwned(m);
  }
}
