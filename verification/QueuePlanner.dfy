/**
 Planning claims for one owner's queue: a decision per entry in queue order, and no more
 proposed claims than free places.
 */
module QueuePlanner {
  import opened CredentialIdentity
  import opened SortedLists

  datatype Status = Queued | Running | Blocked | Completed | Failed

  datatype Entry = Entry(owner: string, task: string, key: string, revision: nat, status: Status,
                         created: int, notBefore: int, attempts: nat, maxAttempts: nat, lease: Option<int>)
  {
    /** `validate`, once the counters are known not to be negative. */
    predicate Valid() {
      && NonBlank(owner) && NonBlank(task) && NonBlank(key)
      && maxAttempts >= 1 && attempts <= maxAttempts && (lease.Some? ==> status == Running)
    }
  }

  datatype Disposition = Skip | Reconcile | Wait | ProposeClaim
  datatype Reason = TerminalState | OutcomeUnknown | ActiveLease | BudgetExhausted | NotDue | CapacityExhausted | RequiresAtomicClaim
  datatype Decision = Decision(task: string, revision: nat, disposition: Disposition, reason: Reason)

  /** Earlier creation first, then the task id. */
  predicate Ahead(a: Entry, b: Entry) {
    a.created < b.created || (a.created == b.created && Before(a.task, b.task))
  }

  ghost predicate InOrder(rows: seq<Entry>) {
    forall i, j :: 0 <= i < j < |rows| ==> Ahead(rows[i], rows[j])
  }

  ghost predicate Scoped(rows: seq<Entry>, owner: string) {
    && (forall i :: 0 <= i < |rows| ==> rows[i].Valid() && rows[i].owner == owner)
    && (forall i, j :: 0 <= i < j < |rows| ==> rows[i].task != rows[j].task && rows[i].key != rows[j].key)
  }

  function RunningCount(rows: seq<Entry>): nat {
    if rows == [] then 0 else (if rows[0].status == Running then 1 else 0) + RunningCount(rows[1..])
  }

  /** A queued entry that is due and has attempts left. */
  predicate Eligible(e: Entry, now: int) {
    e.status == Queued && e.attempts < e.maxAttempts && e.created <= now && e.notBefore <= now
  }

  /** What is decided of an entry for which a place is free or not. */
  function Decide(e: Entry, now: int, free: bool): Decision {
    var (d, r) :=
      if e.status == Completed || e.status == Blocked || e.status == Failed then (Skip, TerminalState)
      else if e.status == Running then
        (if e.lease.None? || e.lease.value <= now then (Reconcile, OutcomeUnknown) else (Wait, ActiveLease))
      else if e.attempts >= e.maxAttempts then (Reconcile, BudgetExhausted)
      else if e.created > now || e.notBefore > now then (Wait, NotDue)
      else if !free then (Wait, CapacityExhausted)
      else (ProposeClaim, RequiresAtomicClaim);
    Decision(e.task, e.revision, d, r)
  }

  function EligibleCount(rows: seq<Entry>, now: int): nat {
    if rows == [] then 0 else EligibleCount(rows[..|rows| - 1], now) + (if Eligible(rows[|rows| - 1], now) then 1 else 0)
  }

  function Proposed(plan: seq<Decision>): nat {
    if plan == [] then 0 else Proposed(plan[..|plan| - 1]) + (if plan[|plan| - 1].disposition == ProposeClaim then 1 else 0)
  }

  function Slots(rows: seq<Entry>, capacity: nat): nat {
    if capacity > RunningCount(rows) then capacity - RunningCount(rows) else 0
  }

  // ----- sorting

  function InsertEntry(e: Entry, rows: seq<Entry>): seq<Entry> {
    if rows == [] || !Ahead(rows[0], e) then [e] + rows else [rows[0]] + InsertEntry(e, rows[1..])
  }

  /** The stable sort by creation time and task id. */
  function Sorted(rows: seq<Entry>): seq<Entry> {
    if rows == [] then [] else InsertEntry(rows[0], Sorted(rows[1..]))
  }

  lemma AheadTotal(a: Entry, b: Entry)
    requires a.task != b.task
    ensures Ahead(a, b) || Ahead(b, a)
  {
    BeforeIsTotal(a.task, b.task);
  }

  lemma AheadTransitive(a: Entry, b: Entry, c: Entry)
    requires Ahead(a, b) && Ahead(b, c)
    ensures Ahead(a, c)
  {
    if a.created == b.created == c.created {
      BeforeIsTransitive(a.task, b.task, c.task);
    }
  }

  lemma {:induction false} InsertEntrySorts(e: Entry, rows: seq<Entry>)
    requires InOrder(rows) && forall i :: 0 <= i < |rows| ==> rows[i].task != e.task
    ensures InOrder(InsertEntry(e, rows)) && multiset(InsertEntry(e, rows)) == multiset(rows) + multiset{e}
    ensures forall x :: x in InsertEntry(e, rows) <==> x == e || x in rows
    decreases |rows|
  {
    if rows == [] {
    } else if !Ahead(rows[0], e) {
      AheadTotal(rows[0], e);
      forall j | 0 <= j < |rows| ensures Ahead(e, rows[j]) {
        if j > 0 {
          AheadTransitive(e, rows[0], rows[j]);
        }
      }
    } else {
      InsertEntrySorts(e, rows[1..]);
      var tail := InsertEntry(e, rows[1..]);
      assert rows == [rows[0]] + rows[1..];
      forall j | 0 <= j < |tail| ensures Ahead(rows[0], tail[j]) {
        assert tail[j] in tail;
      }
    }
  }

  ghost predicate TasksDiffer(rows: seq<Entry>) {
    forall i, j :: 0 <= i < j < |rows| ==> rows[i].task != rows[j].task
  }

  lemma {:induction false} SortedSorts(rows: seq<Entry>)
    requires TasksDiffer(rows)
    ensures InOrder(Sorted(rows)) && multiset(Sorted(rows)) == multiset(rows)
    ensures forall x :: x in Sorted(rows) <==> x in rows
    decreases |rows|
  {
    if rows != [] {
      SortedSorts(rows[1..]);
      var rest := Sorted(rows[1..]);
      forall i | 0 <= i < |rest| ensures rest[i].task != rows[0].task {
        assert rest[i] in rest;
        var j :| 0 <= j < |rows| - 1 && rows[1..][j] == rest[i];
      }
      InsertEntrySorts(rows[0], rest);
      assert rows == [rows[0]] + rows[1..];
    }
  }

  lemma AheadStrict(a: Entry, b: Entry)
    requires Ahead(a, b)
    ensures !Ahead(b, a)
  {
    if a.created == b.created {
      BeforeIsStrict(a.task, b.task);
    }
  }

  lemma InOrderIsUnique(a: seq<Entry>, b: seq<Entry>)
    requires InOrder(a) && InOrder(b) && forall x :: x in a <==> x in b
    ensures a == b
  {
    forall x: Entry, y: Entry | Ahead(x, y) ensures !Ahead(y, x) {
      AheadStrict(x, y);
    }
    OneSortedList(a, b, (x: Entry, y: Entry) => Ahead(x, y));
  }

  lemma {:induction false} RunningInserted(e: Entry, rows: seq<Entry>)
    ensures RunningCount(InsertEntry(e, rows)) == RunningCount(rows) + (if e.status == Running then 1 else 0)
    decreases |rows|
  {
    var after := InsertEntry(e, rows);
    if rows == [] || !Ahead(rows[0], e) {
      assert after[1..] == rows;
    } else {
      RunningInserted(e, rows[1..]);
      assert after[1..] == InsertEntry(e, rows[1..]);
    }
  }

  lemma {:induction false} RunningSorted(rows: seq<Entry>)
    ensures RunningCount(Sorted(rows)) == RunningCount(rows)
    decreases |rows|
  {
    if rows != [] {
      RunningSorted(rows[1..]);
      RunningInserted(rows[0], Sorted(rows[1..]));
    }
  }

  // ----- the plan

  /** The decisions in queue order: a place is free while fewer eligible entries came before than there were slots. */
  ghost predicate Plans(plan: seq<Decision>, order: seq<Entry>, now: int, slots: nat) {
    && |plan| == |order|
    && forall i :: 0 <= i < |order| ==> plan[i] == Decide(order[i], now, EligibleCount(order[..i], now) < slots)
  }

  /** `plan_queue`: refused for a blank scope, no capacity, an invalid entry, another owner or a repeated identity. */
  method PlanQueue(entries: seq<Entry>, owner: string, now: int, capacity: int) returns (plan: Option<seq<Decision>>)
    ensures plan.Some? <==> NonBlank(owner) && capacity >= 1 && Scoped(entries, owner)
    ensures plan.Some? ==> Plans(plan.value, Sorted(entries), now, Slots(entries, capacity))
  {
    if !NonBlank(owner) || capacity < 1 {
      return None;
    }
    var scoped := CheckScope(entries, owner);
    if !scoped {
      return None;
    }
    var decisions := DecideAll(Sorted(entries), now, Slots(entries, capacity));
    return Some(decisions);
  }

  /** What the loop has decided of the first `i` entries, and the slots it has left. */
  ghost predicate DecidedSoFar(decisions: seq<Decision>, order: seq<Entry>, i: nat, now: int, free: nat, slots: nat) {
    && i <= |order| && Plans(decisions, order[..i], now, free)
    && slots == Remaining(free, EligibleCount(order[..i], now))
  }

  lemma PlansOneMore(decisions: seq<Decision>, order: seq<Entry>, i: nat, now: int, free: nat, decision: Decision)
    requires i < |order| && Plans(decisions, order[..i], now, free)
    requires decision == Decide(order[i], now, EligibleCount(order[..i], now) < free)
    ensures Plans(decisions + [decision], order[..i + 1], now, free)
  {
    var more, all := order[..i + 1], decisions + [decision];
    forall j | 0 <= j < |more| ensures all[j] == Decide(more[j], now, EligibleCount(more[..j], now) < free) {
      assert more[..j] == order[..j];
      if j < i {
        assert order[..i][..j] == order[..j] && all[j] == decisions[j] && more[j] == order[..i][j];
      }
    }
  }

  lemma DecideOneMore(decisions: seq<Decision>, order: seq<Entry>, i: nat, now: int, free: nat, slots: nat)
    requires DecidedSoFar(decisions, order, i, now, free, slots) && i < |order|
    ensures var decision := Decide(order[i], now, slots > 0);
            var left := if decision.disposition == ProposeClaim then slots - 1 else slots;
            left >= 0 && DecidedSoFar(decisions + [decision], order, i + 1, now, free, left)
  {
    SlotTaken(order, i, now, free);
    PlansOneMore(decisions, order, i, now, free, Decide(order[i], now, slots > 0));
  }

  /** The loop over the sorted entries: each proposed claim takes a slot. */
  method DecideAll(order: seq<Entry>, now: int, free: nat) returns (decisions: seq<Decision>)
    ensures Plans(decisions, order, now, free)
  {
    var slots := free;
    decisions := [];
    for i := 0 to |order|
      invariant DecidedSoFar(decisions, order, i, now, free, slots)
    {
      DecideOneMore(decisions, order, i, now, free, slots);
      var decision := Decide(order[i], now, slots > 0);
      slots := if decision.disposition == ProposeClaim then slots - 1 else slots;
      decisions := decisions + [decision];
    }
    assert order[..|order|] == order;
  }

  lemma SlotTaken(order: seq<Entry>, i: nat, now: int, free: nat)
    requires i < |order|
    ensures var taken := EligibleCount(order[..i], now);
            && (taken < free <==> Remaining(free, taken) > 0)
            && Remaining(free, EligibleCount(order[..i + 1], now))
               == Remaining(free, taken) - (if Decide(order[i], now, taken < free).disposition == ProposeClaim then 1 else 0)
  {
    assert order[..i + 1][..i] == order[..i];
  }

  function Remaining(slots: nat, taken: nat): nat {
    if taken < slots then slots - taken else 0
  }

  /** The identities and keys of the first entries, which are all in scope. */
  ghost predicate ScopedSoFar(entries: seq<Entry>, i: nat, owner: string, ids: set<string>, keys: set<string>) {
    && i <= |entries| && Scoped(entries[..i], owner)
    && (forall t :: t in ids <==> exists j :: 0 <= j < i && entries[j].task == t)
    && (forall k :: k in keys <==> exists j :: 0 <= j < i && entries[j].key == k)
  }

  lemma ScopeOneMore(entries: seq<Entry>, i: nat, owner: string, ids: set<string>, keys: set<string>)
    requires ScopedSoFar(entries, i, owner, ids, keys) && i < |entries|
    ensures if entries[i].Valid() && entries[i].owner == owner && entries[i].task !in ids && entries[i].key !in keys
            then ScopedSoFar(entries, i + 1, owner, ids + {entries[i].task}, keys + {entries[i].key})
            else !Scoped(entries, owner)
  {
    assert entries[..i + 1] == entries[..i] + [entries[i]];
    assert forall j :: 0 <= j < i ==> entries[..i][j] == entries[j];
  }

  method CheckScope(entries: seq<Entry>, owner: string) returns (ok: bool)
    ensures ok <==> Scoped(entries, owner)
  {
    var ids: set<string>, keys: set<string> := {}, {};
    for i := 0 to |entries|
      invariant ScopedSoFar(entries, i, owner, ids, keys)
    {
      ScopeOneMore(entries, i, owner, ids, keys);
      if !entries[i].Valid() || entries[i].owner != owner {
        return false;
      }
      if entries[i].task in ids || entries[i].key in keys {
        return false;
      }
      ids, keys := ids + {entries[i].task}, keys + {entries[i].key};
    }
    assert entries[..|entries|] == entries;
    return true;
  }

  // ----- what a plan means

  lemma {:induction false} ProposedSoFar(plan: seq<Decision>, order: seq<Entry>, now: int, slots: nat, i: nat)
    requires Plans(plan, order, now, slots) && i <= |order|
    ensures Proposed(plan[..i]) == if EligibleCount(order[..i], now) < slots then EligibleCount(order[..i], now) else slots
    decreases i
  {
    if i > 0 {
      ProposedSoFar(plan, order, now, slots, i - 1);
      assert order[..i][..i - 1] == order[..i - 1] && plan[..i][..i - 1] == plan[..i - 1];
    }
  }

  /** Claims are proposed for exactly the first eligible entries that fit the free places. */
  lemma FirstEligibleProposed(plan: seq<Decision>, order: seq<Entry>, now: int, slots: nat, i: nat)
    requires Plans(plan, order, now, slots) && i < |order|
    ensures plan[i].disposition == ProposeClaim <==> Eligible(order[i], now) && EligibleCount(order[..i], now) < slots
    ensures plan[i].reason == CapacityExhausted <==> Eligible(order[i], now) && Proposed(plan[..i]) == slots
  {
    ProposedSoFar(plan, order, now, slots, i);
  }

  /** Why an entry is decided as it is, in terms of its own fields and of the claims proposed before it. */
  lemma ReasonsExact(plan: seq<Decision>, order: seq<Entry>, now: int, slots: nat, i: nat)
    requires Plans(plan, order, now, slots) && i < |order|
    ensures var e, reason := order[i], plan[i].reason; var due := e.created <= now && e.notBefore <= now;
            && (reason == TerminalState <==> e.status in {Completed, Blocked, Failed})
            && (reason == ActiveLease <==> e.status == Running && e.lease.Some? && now < e.lease.value)
            && (reason == OutcomeUnknown <==> e.status == Running && (e.lease.Some? ==> e.lease.value <= now))
            && (reason == BudgetExhausted <==> e.status == Queued && e.maxAttempts <= e.attempts)
            && (reason == NotDue <==> e.status == Queued && e.attempts < e.maxAttempts && !due)
            && (reason == CapacityExhausted <==> e.status == Queued && e.attempts < e.maxAttempts && due && Proposed(plan[..i]) == slots)
            && (reason == RequiresAtomicClaim <==> e.status == Queued && e.attempts < e.maxAttempts && due && Proposed(plan[..i]) < slots)
    ensures plan[i].disposition == match plan[i].reason
                                   case TerminalState => Skip
                                   case OutcomeUnknown => Reconcile
                                   case BudgetExhausted => Reconcile
                                   case RequiresAtomicClaim => ProposeClaim
                                   case _ => Wait
  {
    ProposedSoFar(plan, order, now, slots, i);
  }

  ghost function Among(rows: seq<Entry>, p: Entry -> bool): set<nat> {
    set i | 0 <= i < |rows| && p(rows[i])
  }

  lemma AmongOneMore(rows: seq<Entry>, p: Entry -> bool)
    requires rows != []
    ensures var n := |rows| - 1;
            |Among(rows, p)| == |Among(rows[..n], p)| + (if p(rows[n]) then 1 else 0)
  {
    var n := |rows| - 1;
    assert Among(rows, p) == Among(rows[..n], p) + (if p(rows[n]) then {n} else {});
    assert n !in Among(rows[..n], p);
  }

  lemma {:induction false} RunningOneMore(rows: seq<Entry>)
    requires rows != []
    ensures var n := |rows| - 1;
            RunningCount(rows) == RunningCount(rows[..n]) + (if rows[n].status == Running then 1 else 0)
    decreases |rows|
  {
    if |rows| > 1 {
      RunningOneMore(rows[1..]);
      assert rows[1..][..|rows| - 2] == rows[..|rows| - 1][1..];
    }
  }

  /** What is counted: the entries that run, and the eligible ones. */
  lemma {:induction false} CountsExact(rows: seq<Entry>, now: int)
    ensures RunningCount(rows) == |Among(rows, (e: Entry) => e.status == Running)|
    ensures EligibleCount(rows, now) == |Among(rows, (e: Entry) => Eligible(e, now))|
    decreases |rows|
  {
    if rows == [] {
      assert Among(rows, (e: Entry) => e.status == Running) == {};
      assert Among(rows, (e: Entry) => Eligible(e, now)) == {};
    } else {
      CountsExact(rows[..|rows| - 1], now);
      RunningOneMore(rows);
      AmongOneMore(rows, (e: Entry) => e.status == Running);
      AmongOneMore(rows, (e: Entry) => Eligible(e, now));
    }
  }

  /** Running and proposed together never exceed the capacity, unless running alone does. */
  lemma CapacityKept(entries: seq<Entry>, plan: seq<Decision>, now: int, capacity: nat)
    requires Plans(plan, Sorted(entries), now, Slots(entries, capacity))
    ensures var running := RunningCount(entries);
            running + Proposed(plan) <= if capacity > running then capacity else running
  {
    ProposedSoFar(plan, Sorted(entries), now, Slots(entries, capacity), |plan|);
    assert plan[..|plan|] == plan && Sorted(entries)[..|plan|] == Sorted(entries);
  }

  /** The plan does not depend on the order the entries were listed in. */
  lemma ListingDoesNotMatter(a: seq<Entry>, b: seq<Entry>, owner: string, now: int, capacity: nat, pa: seq<Decision>, pb: seq<Decision>)
    requires Scoped(a, owner) && Scoped(b, owner) && forall x :: x in a <==> x in b
    requires Plans(pa, Sorted(a), now, Slots(a, capacity)) && Plans(pb, Sorted(b), now, Slots(b, capacity))
    ensures pa == pb
  {
    SortedSorts(a);
    SortedSorts(b);
    InOrderIsUnique(Sorted(a), Sorted(b));
    RunningSorted(a);
    RunningSorted(b);
  }

  /** One decision for each entry, in queue order. */
  lemma OneDecisionEach(entries: seq<Entry>, owner: string, now: int, capacity: nat, plan: seq<Decision>)
    requires Scoped(entries, owner) && Plans(plan, Sorted(entries), now, Slots(entries, capacity))
    ensures |plan| == |entries| && InOrder(Sorted(entries)) && multiset(Sorted(entries)) == multiset(entries)
    ensures forall i :: 0 <= i < |plan| ==> plan[i].task == Sorted(entries)[i].task && plan[i].revision == Sorted(entries)[i].revision
  {
    SortedSorts(entries);
    assert |multiset(entries)| == |entries| && |multiset(Sorted(entries))| == |Sorted(entries)|;
  }
}
