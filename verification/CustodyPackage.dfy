/**
 The identity-and-files package of a host: an installation that may stop at any effect, and a
 rollback that validates everything it owns before it deletes anything. No other process
 changes the objects meanwhile, but what is found on the host may be anything.
 */
module CustodyPackage {
  import opened CredentialIdentity

  /** The receipt written first and completed once the identity exists. */
  datatype Receipt = Receipt(id: nat, owner: Option<(nat, nat)>)

  /** `sound` covers the account's lock, home, shell, ranges and groups. */
  datatype User = User(tag: nat, uid: nat, gid: nat, sound: bool)
  datatype Group = Group(gid: nat, empty: bool)

  /** A directory with its owning group, whether type, owner and mode are right, and whether foreign entries are in it. */
  datatype Dir = NoDir | Dir(gid: nat, right: bool, foreign: bool)

  /** A file with its owning group, and whether type, owner, mode, links and bytes are exactly the fixed ones. */
  datatype File = NoFile | File(gid: nat, exact: bool)

  datatype ReceiptFile = NoReceipt | Unreadable | Readable(receipt: Receipt)

  /** What the service manager shows of the unit: nothing, this very unit inactive, or something else. */
  datatype UnitView = NotFound | Own | Other

  datatype Host = Host(
    state: Dir, receipt: ReceiptFile, next: bool,
    user: Option<User>, group: Option<Group>,
    opt: Dir, etc: Dir, gates: File, unit: File, view: UnitView)

  // ----- the checks

  /** `fresh`, as far as this package's own objects go. */
  predicate Fresh(h: Host) {
    && h.user == None && h.group == None && h.opt == NoDir && h.etc == NoDir && h.unit == NoFile && h.state == NoDir
    && h.view == NotFound
  }

  /** Nothing lies below a directory that does not exist. */
  predicate Consistent(h: Host) {
    && (h.etc == NoDir ==> h.gates == NoFile)
    && (h.state == NoDir ==> h.receipt == NoReceipt && !h.next)
  }

  /** `receipt`: the state directory and the receipt are right and alone. */
  function ReadReceipt(h: Host): Option<Receipt> {
    if h.state == NoDir || !h.state.right || h.state.gid != 0 || h.state.foreign || h.next || !h.receipt.Readable? then None
    else Some(h.receipt.receipt)
  }

  /** `identity(r, partial)`: the group to own the files by, or nothing where it stops. */
  function Identity(h: Host, r: Receipt, partial: bool): Option<Option<nat>> {
    match h.user
    case None =>
      if !partial then None
      else if h.group.Some? && !(r.owner.Some? && r.owner.value.1 == h.group.value.gid && h.group.value.empty) then None
      else Some(if r.owner.Some? then Some(r.owner.value.1) else None)
    case Some(user) =>
      if user.tag != r.id || !user.sound then None
      else if h.group.None? || h.group.value.gid != user.gid || !h.group.value.empty then None
      else if r.owner.Some? && r.owner.value != (user.uid, user.gid) then None
      else Some(Some(user.gid))
  }

  predicate DirMatches(d: Dir, gid: Option<nat>) {
    d.Dir? && gid.Some? && d.gid == gid.value && d.right && !d.foreign
  }

  predicate FileMatches(f: File, gid: Option<nat>) {
    f.File? && gid.Some? && f.gid == gid.value && f.exact
  }

  /** `files(gid, partial)`. */
  predicate FilesMatch(h: Host, gid: Option<nat>, partial: bool) {
    && ((partial && h.opt == NoDir) || DirMatches(h.opt, Some(0)))
    && ((partial && h.etc == NoDir) || DirMatches(h.etc, gid))
    && ((partial && h.gates == NoFile) || FileMatches(h.gates, gid))
    && ((partial && h.unit == NoFile) || FileMatches(h.unit, Some(0)))
  }

  /** Everything `remove_owned` checks before its first deletion. */
  predicate Validates(h: Host) {
    && ReadReceipt(h).Some?
    && Identity(h, ReadReceipt(h).value, true).Some?
    && FilesMatch(h, Identity(h, ReadReceipt(h).value, true).value, true)
    && h.view != Other
  }

  /** The group the files must belong to: the user's, and without a user the one the receipt names. */
  function OwnGroup(h: Host, r: Receipt): Option<nat> {
    if h.user.Some? then Some(h.user.value.gid) else if r.owner.Some? then Some(r.owner.value.1) else None
  }

  /** The account is the receipt's, alone in its group; or the user is gone and at most its empty group is left. */
  ghost predicate AccountIsOurs(h: Host, r: Receipt) {
    if h.user.Some? then
      var uid, gid := h.user.value.uid, h.user.value.gid;
      h.user.value == User(r.id, uid, gid, true) && h.group == Some(Group(gid, true)) && (r.owner == None || r.owner == Some((uid, gid)))
    else h.group == None || (r.owner.Some? && h.group == Some(Group(r.owner.value.1, true)))
  }

  /**
   What a rollback goes ahead on, object by object: the receipt right and alone in its directory, the account
   its own, and each file, directory and unit either absent or exactly as installed.
   */
  lemma ValidatesExactly(h: Host, r: Receipt)
    ensures Validates(h) && ReadReceipt(h) == Some(r) <==>
              && h.state == Dir(0, true, false) && h.receipt == Readable(r) && !h.next && AccountIsOurs(h, r)
              && (h.opt == NoDir || h.opt == Dir(0, true, false)) && (h.unit == NoFile || h.unit == File(0, true))
              && (h.etc == NoDir || (OwnGroup(h, r).Some? && h.etc == Dir(OwnGroup(h, r).value, true, false)))
              && (h.gates == NoFile || (OwnGroup(h, r).Some? && h.gates == File(OwnGroup(h, r).value, true)))
              && (h.view == NotFound || h.view == Own)
  {
    if ReadReceipt(h) == Some(r) {
      assert Identity(h, r, true).Some? <==> AccountIsOurs(h, r);
      assert Identity(h, r, true).Some? ==> Identity(h, r, true).value == OwnGroup(h, r);
    }
  }

  // ----- what a rollback may do

  predicate UserOwned(u: User, r: Receipt) {
    u.tag == r.id && u.sound && (r.owner.Some? ==> r.owner.value == (u.uid, u.gid))
  }

  /** The receipt is the same one, or it now also names the user it belongs to. */
  predicate ReceiptFollows(before: Host, r: Receipt, after: Receipt) {
    || after == r
    || (before.user.Some? && UserOwned(before.user.value, r)
        && after == r.(owner := Some((before.user.value.uid, before.user.value.gid))))
  }

  /** Nothing was created but the receipt's successor, and whatever is gone matched the receipt and the fixed contents. */
  predicate OnlyRemoves(before: Host, after: Host, r: Receipt, gid: Option<nat>) {
    && (after.opt == before.opt || (after.opt == NoDir && DirMatches(before.opt, Some(0))))
    && (after.etc == before.etc || (after.etc == NoDir && DirMatches(before.etc, gid)))
    && (after.gates == before.gates || (after.gates == NoFile && FileMatches(before.gates, gid)))
    && (after.unit == before.unit || (after.unit == NoFile && FileMatches(before.unit, Some(0))))
    && (after.user == before.user || (after.user == None && before.user.Some? && UserOwned(before.user.value, r)))
    && (after.group == before.group
        || (after.group == None && before.group.Some? && before.group.value.empty && gid == Some(before.group.value.gid)))
    && (after.receipt == before.receipt || after.receipt == NoReceipt
        || (after.receipt.Readable? && ReceiptFollows(before, r, after.receipt.receipt)))
    && (after.state == before.state || (after.state == NoDir && DirMatches(before.state, Some(0))))
  }

  datatype Effect = Done | Raised | Died

  function Trouble(e: Effect): seq<Effect> {
    if e.Done? then [] else [e]
  }

  datatype End = RolledBack | Stopped | Killed

  /** The host as the program acts on it; every effect may fail or be the last. */
  class Machine {
    var h: Host
    /** The effects that failed on their own account; written only by the effects themselves. */
    ghost var troubles: seq<Effect>

    constructor (h: Host)
      ensures this.h == h && troubles == []
    {
      this.h, troubles := h, [];
    }

    method UnlinkGates() returns (e: Effect)
      modifies this
      ensures h == old(h) || h == old(h).(gates := NoFile)
      ensures e.Done? ==> h == old(h).(gates := NoFile)
      ensures troubles == old(troubles) + Trouble(e)
    {
      e := *;
      troubles := troubles + Trouble(e);
      if e.Done? {
        h := h.(gates := NoFile);
      }
    }

    method UnlinkUnit() returns (e: Effect)
      modifies this
      ensures h == old(h) || h == old(h).(unit := NoFile)
      ensures e.Done? ==> h == old(h).(unit := NoFile)
      ensures troubles == old(troubles) + Trouble(e)
    {
      e := *;
      troubles := troubles + Trouble(e);
      if e.Done? {
        h := h.(unit := NoFile);
      }
    }

    /** `rmdir` removes only an empty directory. */
    method RemoveEtc() returns (e: Effect)
      modifies this
      ensures h == old(h) || (h == old(h).(etc := NoDir) && old(h.gates) == NoFile && old(h.etc).Dir? && !old(h.etc).foreign)
      ensures e.Done? ==> h.etc == NoDir
      ensures if old(h.gates) != NoFile || old(h.etc) == NoDir || old(h.etc).foreign
              then e == Raised && troubles == old(troubles) else troubles == old(troubles) + Trouble(e)
    {
      if h.gates != NoFile || h.etc == NoDir || h.etc.foreign {
        return Raised;
      }
      e := *;
      troubles := troubles + Trouble(e);
      if e.Done? {
        h := h.(etc := NoDir);
      }
    }

    method RemoveOpt() returns (e: Effect)
      modifies this
      ensures h == old(h) || (h == old(h).(opt := NoDir) && old(h.opt).Dir? && !old(h.opt).foreign)
      ensures e.Done? ==> h.opt == NoDir
      ensures if old(h.opt) == NoDir || old(h.opt).foreign
              then e == Raised && troubles == old(troubles) else troubles == old(troubles) + Trouble(e)
    {
      if h.opt == NoDir || h.opt.foreign {
        return Raised;
      }
      e := *;
      troubles := troubles + Trouble(e);
      if e.Done? {
        h := h.(opt := NoDir);
      }
    }

    /** The service manager rereads the unit file. */
    method Reload() returns (e: Effect)
      modifies this
      ensures h == old(h).(view := h.view)
      ensures e.Done? && h.unit == NoFile ==> h.view == NotFound || h.view == Other
      ensures old(h.view) != Other && h.unit == NoFile && e.Done? ==> h.view == NotFound
      ensures troubles == old(troubles) + Trouble(e)
    {
      e := *;
      troubles := troubles + Trouble(e);
      var stale: bool := *;
      if e.Done? {
        h := h.(view := if h.unit.File? then (if h.unit.exact then Own else Other)
                        else if h.view == Other && stale then Other else NotFound);
      }
    }

    /** The successor is written apart and put in place in one step. */
    method SaveReceipt(r: Receipt) returns (e: Effect)
      modifies this
      ensures h == old(h).(receipt := h.receipt, next := h.next)
      ensures h.receipt == old(h.receipt) || h.receipt == Readable(r)
      ensures e.Done? ==> h.receipt == Readable(r) && h.next == old(h.next)
      ensures h.receipt != old(h.receipt) ==> !h.next
      ensures if old(h.next) then e == Raised && troubles == old(troubles) else troubles == old(troubles) + Trouble(e)
    {
      if h.next {
        return Raised;
      }
      var written: Effect := *;
      if !written.Done? {
        troubles := troubles + Trouble(written);
        var left: bool := *;
        h := h.(next := left);
        return written;
      }
      h := h.(next := true);
      var replaced: Effect := *;
      if !replaced.Done? {
        troubles := troubles + Trouble(replaced);
        return replaced;
      }
      h := h.(next := false, receipt := Readable(r));
      e := *;
      troubles := troubles + Trouble(e);
    }

    /** `userdel`, which may take the emptied group along. */
    method RemoveUser() returns (e: Effect)
      modifies this
      ensures h == old(h).(user := h.user, group := h.group)
      ensures h.user == old(h.user) || h.user == None
      ensures h.group == old(h.group) || (h.group == None && h.user == None && old(h.user).Some? && old(h.group).Some?
                                          && old(h.group).value.gid == old(h.user).value.gid)
      ensures e.Done? ==> h.user == None
      ensures troubles == old(troubles) + Trouble(e)
    {
      e := *;
      troubles := troubles + Trouble(e);
      var gone, along: bool := *, *;
      if e.Done? || gone {
        if h.user.Some? && h.group.Some? && h.group.value.gid == h.user.value.gid && along {
          h := h.(group := None);
        }
        h := h.(user := None);
      }
    }

    method RemoveGroup() returns (e: Effect)
      modifies this
      ensures h == old(h) || h == old(h).(group := None)
      ensures e.Done? ==> h.group == None
      ensures troubles == old(troubles) + Trouble(e)
    {
      e := *;
      troubles := troubles + Trouble(e);
      if e.Done? {
        h := h.(group := None);
      }
    }

    method UnlinkReceipt() returns (e: Effect)
      modifies this
      ensures h == old(h) || h == old(h).(receipt := NoReceipt)
      ensures e.Done? ==> h.receipt == NoReceipt
      ensures troubles == old(troubles) + Trouble(e)
    {
      e := *;
      troubles := troubles + Trouble(e);
      if e.Done? {
        h := h.(receipt := NoReceipt);
      }
    }

    method RemoveState() returns (e: Effect)
      modifies this
      ensures h == old(h) || (h == old(h).(state := NoDir) && old(h.receipt) == NoReceipt && !old(h.next)
                              && old(h.state).Dir? && !old(h.state).foreign)
      ensures e.Done? ==> h.state == NoDir
      ensures if old(h.receipt) != NoReceipt || old(h.next) || old(h.state) == NoDir || old(h.state).foreign
              then e == Raised && troubles == old(troubles) else troubles == old(troubles) + Trouble(e)
    {
      if h.receipt != NoReceipt || h.next || h.state == NoDir || h.state.foreign {
        return Raised;
      }
      e := *;
      troubles := troubles + Trouble(e);
      if e.Done? {
        h := h.(state := NoDir);
      }
    }
  }

  // ----- rollback

  /** The objects other than files and directories are as they were. */
  predicate SameRecords(a: Host, b: Host) {
    a.state == b.state && a.receipt == b.receipt && a.next == b.next && a.user == b.user && a.group == b.group
  }

  predicate FilesGone(h: Host) {
    h.opt == NoDir && h.etc == NoDir && h.gates == NoFile && h.unit == NoFile && h.view == NotFound
  }

  /** The two files, where they are. */
  method UnlinkFiles(m: Machine) returns (e: Effect)
    modifies m
    ensures m.h == old(m.h).(gates := m.h.gates, unit := m.h.unit)
    ensures (m.h.gates == old(m.h.gates) || m.h.gates == NoFile) && (m.h.unit == old(m.h.unit) || m.h.unit == NoFile)
    ensures e.Done? ==> m.h.gates == NoFile && m.h.unit == NoFile
    ensures m.troubles == old(m.troubles) + Trouble(e)
  {
    e := Done;
    if m.h.gates != NoFile {
      e := m.UnlinkGates();
    }
    if e.Done? && m.h.unit != NoFile {
      e := m.UnlinkUnit();
    }
  }

  /** The two directories, where they are and once they are empty. */
  method RemoveDirs(m: Machine) returns (e: Effect)
    requires m.h.gates == NoFile && (m.h.etc.Dir? ==> !m.h.etc.foreign) && (m.h.opt.Dir? ==> !m.h.opt.foreign)
    modifies m
    ensures m.h == old(m.h).(etc := m.h.etc, opt := m.h.opt)
    ensures (m.h.etc == old(m.h.etc) || m.h.etc == NoDir) && (m.h.opt == old(m.h.opt) || m.h.opt == NoDir)
    ensures e.Done? ==> m.h.etc == NoDir && m.h.opt == NoDir
    ensures m.troubles == old(m.troubles) + Trouble(e)
  {
    e := Done;
    if m.h.etc != NoDir {
      e := m.RemoveEtc();
    }
    if e.Done? && m.h.opt != NoDir {
      e := m.RemoveOpt();
    }
  }

  /** The first half of `remove_owned`: files, directories, reload, and the check that the unit is gone. */
  method RemoveFiles(m: Machine, r: Receipt, gid: Option<nat>) returns (e: Effect)
    requires Validates(m.h) && ReadReceipt(m.h) == Some(r) && Identity(m.h, r, true) == Some(gid)
    modifies m
    ensures OnlyRemoves(old(m.h), m.h, r, gid) && SameRecords(old(m.h), m.h)
    ensures e.Done? ==> FilesGone(m.h)
    ensures m.troubles == old(m.troubles) + Trouble(e)
  {
    e := UnlinkFiles(m);
    if e.Done? {
      e := RemoveDirs(m);
    }
    if e.Done? {
      e := m.Reload();
    }
    if e.Done? && m.h.view != NotFound {
      e := Raised;
    }
  }

  predicate IdentityGone(h: Host) {
    h.user == None && h.group == None
  }

  /** Files and directories, the state directory and the receipt's place are as they were. */
  predicate SameFiles(a: Host, b: Host) {
    a.opt == b.opt && a.etc == b.etc && a.gates == b.gates && a.unit == b.unit && a.view == b.view && a.state == b.state
  }

  /** The user, once the receipt names it: removed only if it is still the one validated. */
  method RemoveOwnedUser(m: Machine, r: Receipt, gid: Option<nat>) returns (e: Effect, complete: Receipt)
    requires Identity(m.h, r, true) == Some(gid) && m.h.receipt == Readable(r) && !m.h.next
    modifies m
    ensures OnlyRemoves(old(m.h), m.h, r, gid) && SameFiles(old(m.h), m.h)
    ensures e.Done? ==> !m.h.next && m.h.user == None && m.h.receipt == Readable(complete)
    ensures e.Done? ==> m.h.group == None || (complete.owner.Some? && complete.owner.value.1 == m.h.group.value.gid && m.h.group.value.empty
                                              && gid == Some(m.h.group.value.gid))
    ensures m.troubles == old(m.troubles) + Trouble(e)
  {
    complete := r;
    e := Done;
    if m.h.user.None? {
      return;
    }
    var user := m.h.user.value;
    complete := r.(owner := Some((user.uid, user.gid)));
    e := m.SaveReceipt(complete);
    if !e.Done? {
      return;
    }
    if Identity(m.h, complete, false).None? {
      e := Raised;
      return;
    }
    e := m.RemoveUser();
  }

  /** The second half: user, group, and the check that both are gone. */
  method RemoveIdentity(m: Machine, r: Receipt, gid: Option<nat>) returns (e: Effect)
    requires Identity(m.h, r, true) == Some(gid) && m.h.receipt == Readable(r) && !m.h.next
    modifies m
    ensures OnlyRemoves(old(m.h), m.h, r, gid) && SameFiles(old(m.h), m.h)
    ensures e.Done? ==> IdentityGone(m.h) && !m.h.next && m.h.receipt.Readable?
    ensures m.troubles == old(m.troubles) + Trouble(e)
  {
    var complete;
    e, complete := RemoveOwnedUser(m, r, gid);
    if !e.Done? {
      return;
    }
    if m.h.group.Some? {
      if Identity(m.h, complete, true).None? {
        e := Raised;
        return;
      }
      e := m.RemoveGroup();
    }
  }

  /** How a rollback that goes ahead ends is told by its effects alone: none of its own later checks ever stops it. */
  ghost predicate EndsBy(end: End, before: seq<Effect>, after: seq<Effect>) {
    match end
    case RolledBack => after == before
    case Stopped => after == before + [Raised]
    case Killed => after == before + [Died]
  }

  /** `remove_owned`. It stops on an unchanged host, or removes only what it validated; finishing, the host is fresh. */
  method RemoveOwned(m: Machine) returns (end: End)
    modifies m
    ensures !Validates(old(m.h)) ==> m.h == old(m.h) && end == Stopped
    ensures Validates(old(m.h)) ==> EndsBy(end, old(m.troubles), m.troubles)
    ensures Validates(old(m.h)) ==>
              var r := ReadReceipt(old(m.h)).value;
              OnlyRemoves(old(m.h), m.h, r, Identity(old(m.h), r, true).value)
    ensures end == RolledBack ==> Fresh(m.h)
  {
    if !Validates(m.h) {
      return Stopped;
    }
    var r := ReadReceipt(m.h).value;
    var gid := Identity(m.h, r, true).value;
    var e := RemoveFiles(m, r, gid);
    if !e.Done? {
      return if e == Died then Killed else Stopped;
    }
    e := RemoveIdentity(m, r, gid);
    if !e.Done? {
      return if e == Died then Killed else Stopped;
    }
    e := m.UnlinkReceipt();
    if !e.Done? {
      return if e == Died then Killed else Stopped;
    }
    e := m.RemoveState();
    if !e.Done? {
      return if e == Died then Killed else Stopped;
    }
    return RolledBack;
  }
}
