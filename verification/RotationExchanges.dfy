/**
 How often the provider is asked. A refresh secret is presented once per claimed record,
 so per generation at most once, and once more for each operator recovery that puts the
 generation back to ready as not applied. This rests on attempt ids never repeating.
 */
module RotationExchanges {
  import opened CredentialIdentity
  import opened SecretRecords
  import opened RotationProtocol
  import opened RotationSafety

  /** The attempt ids given to the refreshes of a run, in order. */
  function AttemptIds(events: seq<Event>): seq<string> {
    if events == [] then []
    else
      var e := events[|events| - 1];
      AttemptIds(events[..|events| - 1]) + (if e.BeginRefresh? then [e.attempt] else [])
  }

  /** No acceptable attempt id is given out twice; the others are refused before they are used. */
  ghost predicate NoSafeIdTwice(ids: seq<string>) {
    forall i, j :: 0 <= i < j < |ids| && SafeAttemptId(ids[i]) ==> ids[i] != ids[j]
  }

  ghost predicate DistinctAttempts(events: seq<Event>) {
    NoSafeIdTwice(AttemptIds(events))
  }

  lemma LastAttemptIsNew(events: seq<Event>)
    requires DistinctAttempts(events) && events != []
    ensures var e := events[|events| - 1];
            && DistinctAttempts(events[..|events| - 1])
            && (e.BeginRefresh? && SafeAttemptId(e.attempt) ==> e.attempt !in AttemptIds(events[..|events| - 1]))
  {
    var e := events[|events| - 1];
    var ids, before := AttemptIds(events), AttemptIds(events[..|events| - 1]);
    assert forall i :: 0 <= i < |before| ==> before[i] == ids[i];
    if e.BeginRefresh? {
      assert ids[|before|] == e.attempt;
    }
  }

  /** A process that may still ask the provider. */
  predicate MayAsk(pc: Pc) {
    pc.Claiming? || pc.ClaimUnsure? || pc.Exchanging?
  }

  /** Every attempt belongs to one process, and to one that has not asked yet or to one call. */
  ghost predicate OneAskEach(s: System, used: seq<string>) {
    && (forall p :: p in s.procs && MayAsk(s.procs[p]) ==> s.procs[p].attempt in used)
    && (forall p, q :: p in s.procs && q in s.procs && p != q && MayAsk(s.procs[p]) && MayAsk(s.procs[q])
          ==> s.procs[p].attempt != s.procs[q].attempt)
    && (forall p, k :: p in s.procs && MayAsk(s.procs[p]) && 0 <= k < |s.calls|
          ==> s.calls[k].attempt != s.procs[p].attempt)
    && (forall k :: 0 <= k < |s.calls| ==> s.calls[k].attempt in used)
    && (forall j, k :: 0 <= j < k < |s.calls| ==> s.calls[j].attempt != s.calls[k].attempt)
  }

  /** Before an effect a process may ask only if it could before, under the same attempt. */
  lemma MayAskComesFromMayAsk(s: System, e: Event, p: Pid)
    requires s.history != [] && p in Next(s, e).procs && MayAsk(Next(s, e).procs[p])
    ensures if p in s.procs
            then MayAsk(s.procs[p]) && s.procs[p].attempt == Next(s, e).procs[p].attempt
            else e.BeginRefresh? && SafeAttemptId(e.attempt) && e.attempt == Next(s, e).procs[p].attempt
                 && forall q :: q in Next(s, e).procs && q != p ==> q in s.procs
  {
  }

  lemma AskUsesUpTheAttempt(s: System, pid: Pid, reply: Reply)
    requires s.history != [] && pid in s.procs && s.procs[pid].Exchanging?
    ensures var t := Next(s, Exchange(pid, reply));
            && !MayAsk(t.procs[pid]) && |t.calls| == |s.calls| + 1
            && t.calls[..|s.calls|] == s.calls
            && t.calls[|s.calls|].attempt == s.procs[pid].attempt
  {
  }

  lemma CallsOnlyByExchange(s: System, e: Event)
    requires s.history != []
    requires !(e.Exchange? && e.pid in s.procs && s.procs[e.pid].Exchanging?)
    ensures Next(s, e).calls == s.calls
  {
  }

  lemma NextOneAskEach(s: System, e: Event, used: seq<string>)
    requires s.history != [] && OneAskEach(s, used)
    requires e.BeginRefresh? && SafeAttemptId(e.attempt) ==> e.attempt !in used
    ensures OneAskEach(Next(s, e), used + (if e.BeginRefresh? then [e.attempt] else []))
  {
    var t := Next(s, e);
    forall p | p in t.procs && MayAsk(t.procs[p]) {
      MayAskComesFromMayAsk(s, e, p);
    }
    if e.Exchange? && e.pid in s.procs && s.procs[e.pid].Exchanging? {
      AskUsesUpTheAttempt(s, e.pid, e.reply);
      forall k | 0 <= k < |t.calls|
        ensures if k < |s.calls| then t.calls[k] == s.calls[k] else t.calls[k].attempt == s.procs[e.pid].attempt {
        if k < |s.calls| {
          assert t.calls[..|s.calls|][k] == s.calls[k];
        }
      }
    } else {
      CallsOnlyByExchange(s, e);
    }
  }

  lemma {:induction false} RunOneAskEach(binding: Binding, secret: string, events: seq<Event>)
    requires DistinctAttempts(events)
    ensures OneAskEach(Run(Start(binding, secret), events), AttemptIds(events))
    decreases |events|
  {
    if events != [] {
      var n := |events| - 1;
      LastAttemptIsNew(events);
      RunOneAskEach(binding, secret, events[..n]);
      NextOneAskEach(Run(Start(binding, secret), events[..n]), events[n], AttemptIds(events[..n]));
    }
  }

  // ----- counting

  /** The number of requests made at generation `g`. */
  function CallsAt(calls: seq<Call>, g: nat): nat {
    if calls == [] then 0
    else CallsAt(calls[..|calls| - 1], g) + (if calls[|calls| - 1].generation == g then 1 else 0)
  }

  /** The versions at which the record was claimed at generation `g`. */
  ghost function RefreshingAt(h: seq<Record>, g: nat): (vs: set<nat>)
    ensures forall v: nat :: v in vs <==> v < |h| && h[v].state == Refreshing && h[v].generation == g
  {
    if h == [] then {}
    else
      var n := |h| - 1;
      RefreshingAt(h[..n], g) + (if h[n].state == Refreshing && h[n].generation == g then {n} else {})
  }

  /** The number of times a not-applied recovery took effect at generation `g`. */
  function NotAppliedRecoveriesAt(h: seq<Record>, g: nat): nat {
    if |h| < 2 then 0
    else
      var n := |h| - 1;
      NotAppliedRecoveriesAt(h[..n], g)
      + (if NotAppliedRecovery(h[n - 1], h[n], g) then 1 else 0)
  }

  ghost function CallVersionsAt(calls: seq<Call>, g: nat): set<nat> {
    if calls == [] then {}
    else
      var n := |calls| - 1;
      CallVersionsAt(calls[..n], g) + (if calls[n].generation == g then {calls[n].version} else {})
  }

  lemma {:induction false} CallSource(calls: seq<Call>, g: nat, v: nat) returns (k: nat)
    requires v in CallVersionsAt(calls, g)
    ensures k < |calls| && calls[k].generation == g && calls[k].version == v
    decreases |calls|
  {
    k := |calls| - 1;
    if !(calls[k].generation == g && calls[k].version == v) {
      k := CallSource(calls[..k], g, v);
    }
  }

  lemma {:induction false} CallsCountVersions(calls: seq<Call>, g: nat)
    requires forall j, k :: 0 <= j < k < |calls| ==> calls[j].version != calls[k].version
    ensures |CallVersionsAt(calls, g)| == CallsAt(calls, g)
    decreases |calls|
  {
    if calls != [] {
      var n := |calls| - 1;
      CallsCountVersions(calls[..n], g);
      if calls[n].version in CallVersionsAt(calls[..n], g) {
        var k := CallSource(calls[..n], g, calls[n].version);
      }
    }
  }

  lemma {:induction false} SubsetIsSmaller(a: set<nat>, b: set<nat>)
    requires a <= b
    ensures |a| <= |b|
    decreases a
  {
    if a != {} {
      var x :| x in a;
      SubsetIsSmaller(a - {x}, b - {x});
    }
  }

  ghost predicate ClaimsBounded(last: Record, g: nat, claims: nat, recoveries: nat) {
    if g > last.generation then claims == 0 && recoveries == 0
    else claims + (if g == last.generation && last.state == Ready then 1 else 0) <= 1 + recoveries
  }

  predicate NotAppliedRecovery(before: Record, after: Record, g: nat) {
    && after.state == Ready && after.generation == g
    && before.state == BlockedAmbiguous && before.generation == g
  }

  lemma EdgeKeepsClaimsBounded(before: Record, after: Record, g: nat, claims: nat, recoveries: nat)
    requires Edge(before, after) && ClaimsBounded(before, g, claims, recoveries)
    ensures ClaimsBounded(after, g,
              claims + (if after.state == Refreshing && after.generation == g then 1 else 0),
              recoveries + (if NotAppliedRecovery(before, after, g) then 1 else 0))
  {
  }

  /** Claims of one generation, plus one where it can be claimed again, are at most one more than its recoveries. */
  lemma {:induction false} ClaimsPerGeneration(h: seq<Record>, g: nat)
    requires HistoryOk(h)
    ensures ClaimsBounded(h[|h| - 1], g, |RefreshingAt(h, g)|, NotAppliedRecoveriesAt(h, g))
    decreases |h|
  {
    var n := |h| - 1;
    if n > 0 {
      var before := h[..n];
      assert HistoryOk(before) by {
        forall i | 0 < i < |before| ensures Edge(before[i - 1], before[i]) {
          assert Edge(h[i - 1], h[i]);
        }
      }
      ClaimsPerGeneration(before, g);
      assert Edge(h[n - 1], h[n]);
      assert n !in RefreshingAt(before, g);
      EdgeKeepsClaimsBounded(h[n - 1], h[n], g, |RefreshingAt(before, g)|, NotAppliedRecoveriesAt(before, g));
    } else {
      assert h[..0] == [];
    }
  }

  /** At generation `g` the provider was asked at most once, and once more for each not-applied recovery. */
  ghost predicate Bounded(s: System, g: nat) {
    CallsAt(s.calls, g) <= 1 + NotAppliedRecoveriesAt(s.history, g)
  }

  /**
   The main bound, over every interleaving of any number of hosts and operators, with
   conflicts, writes in doubt that land at once, later or never, and deaths at any point.
   */
  lemma ExchangesPerGeneration(binding: Binding, secret: string, events: seq<Event>, g: nat)
    requires NonBlank(secret) && DistinctAttempts(events)
    ensures Bounded(Run(Start(binding, secret), events), g)
  {
    StartSafe(binding, secret);
    RunSafe(Start(binding, secret), events);
    RunOneAskEach(binding, secret, events);
    var s := Run(Start(binding, secret), events);
    forall j, k | 0 <= j < k < |s.calls| ensures s.calls[j].version != s.calls[k].version {
      assert CallOk(s.history, s.calls[j]) && CallOk(s.history, s.calls[k]);
    }
    CallsCountVersions(s.calls, g);
    forall v | v in CallVersionsAt(s.calls, g) ensures v in RefreshingAt(s.history, g) {
      var k := CallSource(s.calls, g, v);
      assert CallOk(s.history, s.calls[k]);
    }
    SubsetIsSmaller(CallVersionsAt(s.calls, g), RefreshingAt(s.history, g));
    ClaimsPerGeneration(s.history, g);
  }

  // ----- where a grant comes from

  /** The request a granted or committing refresh got its answer from. */
  function AnsweredCall(pc: Pc): Option<Call> {
    match pc
    case Committing(cur, a, ttl, grant, rotated) =>
      Some(Call(a, cur.version, cur.generation, cur.secret, ttl, Answered(grant, rotated)))
    case CommitUnsure(cur, a, ttl, grant, rotated) =>
      Some(Call(a, cur.version, cur.generation, cur.secret, ttl, Answered(grant, rotated)))
    case Done(Granted(grant, rotated, cur, a, ttl)) =>
      Some(Call(a, cur.version, cur.generation, cur.secret, ttl, Answered(grant, rotated)))
    case _ => None
  }

  ghost predicate AnswersLogged(s: System) {
    forall p :: p in s.procs && AnsweredCall(s.procs[p]).Some? ==> AnsweredCall(s.procs[p]).value in s.calls
  }

  lemma AnswerComesFromExchange(s: System, e: Event, p: Pid)
    requires s.history != [] && p in Next(s, e).procs && AnsweredCall(Next(s, e).procs[p]).Some?
    requires !(e.Exchange? && e.pid == p)
    ensures p in s.procs && AnsweredCall(s.procs[p]) == AnsweredCall(Next(s, e).procs[p])
  {
  }

  lemma NextAnswersLogged(s: System, e: Event)
    requires s.history != [] && AnswersLogged(s)
    ensures AnswersLogged(Next(s, e))
  {
    var t := Next(s, e);
    if e.Exchange? && e.pid in s.procs && s.procs[e.pid].Exchanging? {
      AskUsesUpTheAttempt(s, e.pid, e.reply);
    } else {
      CallsOnlyByExchange(s, e);
    }
    forall p | p in t.procs && AnsweredCall(t.procs[p]).Some? ensures AnsweredCall(t.procs[p]).value in t.calls {
      if !(e.Exchange? && e.pid == p) {
        AnswerComesFromExchange(s, e, p);
        var k :| 0 <= k < |s.calls| && s.calls[k] == AnsweredCall(t.procs[p]).value;
        assert t.calls[k] == s.calls[k];
      }
    }
  }

  lemma {:induction false} RunAnswersLogged(binding: Binding, secret: string, events: seq<Event>)
    ensures AnswersLogged(Run(Start(binding, secret), events))
    decreases |events|
  {
    if events != [] {
      RunAnswersLogged(binding, secret, events[..|events| - 1]);
      NextAnswersLogged(Run(Start(binding, secret), events[..|events| - 1]), events[|events| - 1]);
    }
  }

  /**
   A returned grant is the answer to the one request made under its attempt: that request
   presented the claimed record's secret, and no other request carries the attempt.
   */
  lemma GrantHasOneRequest(binding: Binding, secret: string, events: seq<Event>, pid: Pid)
    requires NonBlank(secret) && DistinctAttempts(events)
    requires var s := Run(Start(binding, secret), events);
             pid in s.procs && s.procs[pid].Done? && s.procs[pid].outcome.Granted?
    ensures var s := Run(Start(binding, secret), events);
            var Granted(grant, rotated, claimed, attempt, ttl) := s.procs[pid].outcome;
            var call := Call(attempt, claimed.version, claimed.generation, claimed.secret, ttl, Answered(grant, rotated));
            call in s.calls && forall other :: other in s.calls && other.attempt == attempt ==> other == call
  {
    RunAnswersLogged(binding, secret, events);
    RunOneAskEach(binding, secret, events);
    var s := Run(Start(binding, secret), events);
    OnlyCall(s.calls, AnsweredCall(s.procs[pid]).value);
  }

  lemma OnlyCall(calls: seq<Call>, call: Call)
    requires call in calls && forall j, k :: 0 <= j < k < |calls| ==> calls[j].attempt != calls[k].attempt
    ensures forall other :: other in calls && other.attempt == call.attempt ==> other == call
  {
    var k :| 0 <= k < |calls| && calls[k] == call;
    forall other | other in calls && other.attempt == call.attempt ensures other == call {
      var j :| 0 <= j < |calls| && calls[j] == other;
    }
  }

  // ----- the assumption is exact

  lemma RunOneMore(s: System, events: seq<Event>, e: Event)
    requires s.history != []
    ensures Run(s, events + [e]) == Next(Run(s, events), e)
    ensures AttemptIds(events + [e]) == AttemptIds(events) + (if e.BeginRefresh? then [e.attempt] else [])
  {
    assert (events + [e])[..|events + [e]| - 1] == events;
  }

  /** One process per id opens a refresh and has read the record. */
  function Opened(current: Record, ids: seq<string>): map<Pid, Pc> {
    if ids == [] then map[]
    else
      var n := |ids| - 1;
      Opened(current, ids[..n])[n := OpenRefresh(current, ids[n], 0)]
  }

  lemma {:induction false} OpenedAt(current: Record, ids: seq<string>)
    ensures forall k: Pid :: k in Opened(current, ids) <==> k < |ids|
    ensures forall k: Pid :: k < |ids| ==> Opened(current, ids)[k] == OpenRefresh(current, ids[k], 0)
    decreases |ids|
  {
    if ids != [] {
      OpenedAt(current, ids[..|ids| - 1]);
    }
  }

  lemma OpenOne(s: System, t: System, ids: seq<string>)
    requires s.history != [] && ids != []
    requires t == s.(procs := Opened(s.Current(), ids[..|ids| - 1]))
    ensures Next(t, BeginRefresh(|ids| - 1, ids[|ids| - 1], 0, true)) == s.(procs := Opened(s.Current(), ids))
  {
    OpenedAt(s.Current(), ids[..|ids| - 1]);
  }

  lemma {:induction false} OpenAll(s: System, ids: seq<string>) returns (events: seq<Event>)
    requires s.history != [] && s.procs == map[]
    ensures Run(s, events) == s.(procs := Opened(s.Current(), ids)) && AttemptIds(events) == ids
    decreases |ids|
  {
    events := [];
    if ids != [] {
      var n := |ids| - 1;
      events := OpenAll(s, ids[..n]);
      OpenOne(s, Run(s, events), ids);
      RunOneMore(s, events, BeginRefresh(n, ids[n], 0, true));
      events := events + [BeginRefresh(n, ids[n], 0, true)];
    }
  }

  lemma ClaimInDoubt(s: System, pid: Pid, current: Record, a: string)
    requires s.history != [] && pid in s.procs && s.procs[pid] == Claiming(current, a, 0)
    ensures Next(s, Swap(pid, InDoubt)) == s.(procs := s.procs[pid := ClaimUnsure(current, a, 0)],
                                              flight := s.flight + {Write(current.version, current.Claimed(a))})
  {
  }

  lemma ClaimLands(s: System, w: Write)
    requires s.history != [] && s.Current().version == w.expected && s.flight == {w}
    ensures Next(s, Land(w)) == s.(history := s.history + [w.replacement], flight := {})
  {
  }

  lemma OwnClaimRead(s: System, pid: Pid, current: Record, a: string)
    requires s.history != [] && s.Current() == current.Claimed(a)
    requires pid in s.procs && s.procs[pid] == ClaimUnsure(current, a, 0)
    ensures Next(s, Read(pid, true)) == s.(procs := s.procs[pid := Exchanging(current.Claimed(a), a, 0)])
  {
  }

  lemma Asks(s: System, pid: Pid, claimed: Record, a: string)
    requires s.history != [] && pid in s.procs && s.procs[pid] == Exchanging(claimed, a, 0)
    ensures var t := Next(s, Exchange(pid, Rejected));
            && t.calls == s.calls + [Call(a, claimed.version, claimed.generation, claimed.secret, 0, Rejected)]
            && t.history == s.history && t.procs.Keys == s.procs.Keys
            && forall p :: p in s.procs && p != pid ==> t.procs[p] == s.procs[p]
  {
  }

  /** Two processes claim the same record under one attempt id, and both are left in doubt. */
  lemma BothInDoubt(s: System, i: Pid, j: Pid, a: string) returns (t: System)
    requires s.history != [] && s.flight == {} && i != j && i in s.procs && j in s.procs
    requires s.procs[i] == s.procs[j] == Claiming(s.Current(), a, 0)
    ensures t == Next(Next(s, Swap(i, InDoubt)), Swap(j, InDoubt))
    ensures t.history == s.history && t.calls == s.calls && i in t.procs && j in t.procs
    ensures t.procs[i] == t.procs[j] == ClaimUnsure(s.Current(), a, 0)
    ensures t.flight == {Write(s.Current().version, s.Current().Claimed(a))}
  {
    ClaimInDoubt(s, i, s.Current(), a);
    var u := Next(s, Swap(i, InDoubt));
    ClaimInDoubt(u, j, s.Current(), a);
    t := Next(u, Swap(j, InDoubt));
  }

  /** The claim lands once, and both read it back as their own. */
  lemma BothReadTheClaim(s: System, i: Pid, j: Pid, a: string) returns (t: System)
    requires s.history != [] && i != j && i in s.procs && j in s.procs
    requires s.procs[i] == s.procs[j] == ClaimUnsure(s.Current(), a, 0)
    requires s.flight == {Write(s.Current().version, s.Current().Claimed(a))}
    ensures t == Next(Next(Next(s, Land(Write(s.Current().version, s.Current().Claimed(a)))), Read(i, true)), Read(j, true))
    ensures t.history == s.history + [s.Current().Claimed(a)] && t.calls == s.calls && i in t.procs && j in t.procs
    ensures t.procs[i] == t.procs[j] == Exchanging(s.Current().Claimed(a), a, 0)
  {
    var w := Write(s.Current().version, s.Current().Claimed(a));
    ClaimLands(s, w);
    var u := Next(s, Land(w));
    OwnClaimRead(u, i, s.Current(), a);
    var v := Next(u, Read(i, true));
    OwnClaimRead(v, j, s.Current(), a);
    t := Next(v, Read(j, true));
  }

  lemma BothAsk(s: System, i: Pid, j: Pid, claimed: Record, a: string) returns (t: System)
    requires s.history != [] && s.calls == [] && i != j && i in s.procs && j in s.procs
    requires s.procs[i] == s.procs[j] == Exchanging(claimed, a, 0)
    ensures t == Next(Next(s, Exchange(i, Rejected)), Exchange(j, Rejected))
    ensures var call := Call(a, claimed.version, claimed.generation, claimed.secret, 0, Rejected);
            t.calls == [call, call] && t.history == s.history
  {
    Asks(s, i, claimed, a);
    var u := Next(s, Exchange(i, Rejected));
    Asks(u, j, claimed, a);
    t := Next(u, Exchange(j, Rejected));
  }

  lemma {:induction false} AttemptIdsConcat(early: seq<Event>, late: seq<Event>)
    ensures AttemptIds(early + late) == AttemptIds(early) + AttemptIds(late)
    decreases |late|
  {
    if late == [] {
      assert early + late == early;
    } else {
      AttemptIdsConcat(early, late[..|late| - 1]);
      assert (early + late)[..|early + late| - 1] == early + late[..|late| - 1];
    }
  }

  lemma TwoMore(s: System, events: seq<Event>, e: Event, f: Event)
    requires s.history != [] && !e.BeginRefresh? && !f.BeginRefresh?
    ensures Run(s, events + [e, f]) == Next(Next(Run(s, events), e), f)
    ensures AttemptIds(events + [e, f]) == AttemptIds(events)
  {
    RunOneMore(s, events, e);
    RunOneMore(s, events + [e], f);
    assert events + [e] + [f] == events + [e, f];
  }

  lemma TwoCallsOneClaim(s: System, call: Call, claim: Record)
    requires s.calls == [call, call] && call.generation == 0
    requires |s.history| == 2 && s.history[1] == claim && claim.state != Ready
    ensures !Bounded(s, 0)
  {
    assert s.calls[..1] == [call] && s.calls[..1][..0] == [];
    assert CallsAt(s.calls[..1], 0) == 1;
    assert NotAppliedRecoveriesAt(s.history[..1], 0) == 0;
  }

  /** From two processes about to claim under one id, a run without further refreshes that breaks the bound. */
  lemma OneIdAsksTwice(s: System, i: Pid, j: Pid, a: string) returns (events: seq<Event>)
    requires |s.history| == 1 && s.flight == {} && s.calls == [] && s.Current().generation == 0
    requires i != j && i in s.procs && j in s.procs && s.procs[i] == s.procs[j] == Claiming(s.Current(), a, 0)
    ensures AttemptIds(events) == [] && !Bounded(Run(s, events), 0)
  {
    var current := s.Current();
    var claimed := current.Claimed(a);
    var land := Land(Write(current.version, claimed));
    var t := BothInDoubt(s, i, j, a);
    var u := BothReadTheClaim(t, i, j, a);
    var v := BothAsk(u, i, j, claimed, a);
    TwoCallsOneClaim(v, Call(a, claimed.version, claimed.generation, claimed.secret, 0, Rejected), claimed);
    events := [];
    TwoMore(s, events, Swap(i, InDoubt), Swap(j, InDoubt));
    events := events + [Swap(i, InDoubt), Swap(j, InDoubt)];
    RunOneMore(s, events, land);
    events := events + [land];
    TwoMore(s, events, Read(i, true), Read(j, true));
    events := events + [Read(i, true), Read(j, true)];
    TwoMore(s, events, Exchange(i, Rejected), Exchange(j, Rejected));
    events := events + [Exchange(i, Rejected), Exchange(j, Rejected)];
  }

  /** An id given out twice: all processes open, then the two that share it go on. */
  lemma SharedAttemptIdAsksTwice(binding: Binding, secret: string, ids: seq<string>, i: nat, j: nat)
    returns (events: seq<Event>)
    requires i < j < |ids| && ids[i] == ids[j] && SafeAttemptId(ids[i])
    ensures AttemptIds(events) == ids && !Bounded(Run(Start(binding, secret), events), 0)
  {
    var s := Start(binding, secret);
    var opening := OpenAll(s, ids);
    OpenedAt(s.Current(), ids);
    var rest := OneIdAsksTwice(Run(s, opening), i, j, ids[i]);
    RunConcat(s, opening, rest);
    AttemptIdsConcat(opening, rest);
    events := opening + rest;
  }

  /** Every run that gives out these attempt ids keeps the bound at every generation. */
  ghost predicate KeepsBound(binding: Binding, secret: string, ids: seq<string>) {
    forall events, g :: AttemptIds(events) == ids ==> Bounded(Run(Start(binding, secret), events), g)
  }

  /** A list of attempt ids keeps the bound in every run exactly when no acceptable id is given out twice. */
  lemma BoundNeedsDistinctIds(binding: Binding, secret: string, ids: seq<string>)
    requires NonBlank(secret)
    ensures KeepsBound(binding, secret, ids) <==> NoSafeIdTwice(ids)
  {
    if NoSafeIdTwice(ids) {
      forall events, g | AttemptIds(events) == ids ensures Bounded(Run(Start(binding, secret), events), g) {
        ExchangesPerGeneration(binding, secret, events, g);
      }
    } else {
      var i, j :| 0 <= i < j < |ids| && SafeAttemptId(ids[i]) && ids[i] == ids[j];
      var events := SharedAttemptIdAsksTwice(binding, secret, ids, i, j);
    }
  }
}
