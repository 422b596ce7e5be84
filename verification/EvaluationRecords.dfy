/**
 Choosing one record per race from a pile of captured ones. What is chosen, counted and
 excluded does not depend on the order of the pile.
 */
module EvaluationRecords {
  import opened CredentialIdentity
  import opened FinishOrders
  import opened SortedLists

  type Race = nat
  type Reason = string

  /** An eligible record by what the choice looks at; `content` stands for the canonical record. */
  datatype Item = Item(race: Race, predicted: int, result: int, outcome: nat, content: nat)

  /** What the field checks make of one record: a reason against it, or an item. */
  datatype Checked = Excluded(reason: Reason) | Eligible(item: Item)

  const CONFLICTING_OUTCOMES: Reason := "conflicting_outcomes"
  const CONFLICTING_SNAPSHOTS: Reason := "conflicting_latest_snapshots"

  datatype Report = Report(input: nat, selected: seq<Item>, excluded: map<Reason, nat>, duplicates: nat)

  // ----- the meaning, without order

  ghost predicate Has(records: seq<Checked>, item: Item) {
    Eligible(item) in records
  }

  ghost predicate OutcomesConflict(records: seq<Checked>, race: Race) {
    exists a, b :: Has(records, a) && Has(records, b) && a.race == race == b.race && a.outcome != b.outcome
  }

  /** Among the records of its race, none was predicted later. */
  ghost predicate Latest(records: seq<Checked>, item: Item) {
    Has(records, item) && forall other :: Has(records, other) && other.race == item.race ==> other.predicted <= item.predicted
  }

  ghost predicate SnapshotsConflict(records: seq<Checked>, race: Race) {
    exists a, b :: Latest(records, a) && Latest(records, b) && a.race == race == b.race && a.content != b.content
  }

  /** The latest record of a race without conflicts. */
  ghost predicate Chosen(records: seq<Checked>, item: Item) {
    Latest(records, item) && !OutcomesConflict(records, item.race) && !SnapshotsConflict(records, item.race)
  }

  /** Everything an item shows is read from its record, so equal contents are equal items. */
  ghost predicate ContentDetermines(records: seq<Checked>) {
    forall a, b :: Has(records, a) && Has(records, b) && a.content == b.content ==> a == b
  }

  // ----- counting

  function Count(records: seq<Checked>, p: Checked -> bool): nat {
    if records == [] then 0 else Count(records[..|records| - 1], p) + (if p(records[|records| - 1]) then 1 else 0)
  }

  lemma {:induction false} CountWithout(records: seq<Checked>, i: nat, p: Checked -> bool)
    requires i < |records|
    ensures Count(records, p) == Count(records[..i] + records[i + 1..], p) + (if p(records[i]) then 1 else 0)
    decreases |records|
  {
    var n := |records| - 1;
    var rest := records[..i] + records[i + 1..];
    if i == n {
      assert rest == records[..n];
    } else {
      CountWithout(records[..n], i, p);
      assert rest[..|rest| - 1] == records[..n][..i] + records[..n][i + 1..];
      assert rest[|rest| - 1] == records[n];
    }
  }

  lemma TakeOut(records: seq<Checked>, i: nat)
    requires i < |records|
    ensures multiset(records[..i] + records[i + 1..]) == multiset(records) - multiset{records[i]}
  {
    assert records == records[..i] + [records[i]] + records[i + 1..];
  }

  lemma Somewhere(records: seq<Checked>, x: Checked) returns (i: nat)
    requires x in multiset(records)
    ensures i < |records| && records[i] == x
  {
    i :| 0 <= i < |records| && records[i] == x;
  }

  /** Counting does not depend on order. */
  lemma {:induction false} CountAnyOrder(a: seq<Checked>, b: seq<Checked>, p: Checked -> bool)
    requires multiset(a) == multiset(b)
    ensures Count(a, p) == Count(b, p)
    decreases |a|
  {
    if a == [] {
      assert |multiset(b)| == |b|;
    } else {
      var n := |a| - 1;
      assert a[n] in multiset(a);
      var i := Somewhere(b, a[n]);
      TakeOut(a, n);
      TakeOut(b, i);
      assert a[..n] + a[n + 1..] == a[..n];
      CountAnyOrder(a[..n], b[..i] + b[i + 1..], p);
      CountWithout(b, i, p);
    }
  }

  lemma {:induction false} CountSplits(records: seq<Checked>, p: Checked -> bool, q: Checked -> bool, r: Checked -> bool)
    requires forall x :: x in records ==> (r(x) <==> p(x) || q(x)) && !(p(x) && q(x))
    ensures Count(records, r) == Count(records, p) + Count(records, q)
    decreases |records|
  {
    if records != [] {
      assert forall x :: x in records[..|records| - 1] ==> x in records;
      CountSplits(records[..|records| - 1], p, q, r);
      assert records[|records| - 1] in records;
    }
  }

  lemma {:induction false} CountAll(records: seq<Checked>, p: Checked -> bool)
    requires forall x :: x in records ==> p(x)
    ensures Count(records, p) == |records|
    decreases |records|
  {
    if records != [] {
      assert forall x :: x in records[..|records| - 1] ==> x in records;
      CountAll(records[..|records| - 1], p);
      assert records[|records| - 1] in records;
    }
  }

  // ----- the report, without order

  /** Why a record does not take part, if it does not. */
  ghost function Why(records: seq<Checked>, x: Checked): Option<Reason> {
    match x
    case Excluded(reason) => Some(reason)
    case Eligible(item) =>
      if OutcomesConflict(records, item.race) then Some(CONFLICTING_OUTCOMES)
      else if SnapshotsConflict(records, item.race) then Some(CONFLICTING_SNAPSHOTS)
      else None
  }

  ghost function ExcludedFor(records: seq<Checked>, reason: Reason): nat {
    Count(records, x => Why(records, x) == Some(reason))
  }

  predicate Sooner(a: Item, b: Item) {
    a.predicted < b.predicted || (a.predicted == b.predicted && a.race < b.race)
  }

  ghost predicate InOrder(items: seq<Item>) {
    forall i, j :: 0 <= i < j < |items| ==>
      items[i].predicted < items[j].predicted || (items[i].predicted == items[j].predicted && items[i].race < items[j].race)
  }

  /** What `prepare` promises of its report. */
  ghost predicate Prepared(records: seq<Checked>, r: Report) {
    && r.input == |records|
    && InOrder(r.selected) && (forall item :: item in r.selected <==> Chosen(records, item))
    && (forall reason :: ExcludedFor(records, reason) == if reason in r.excluded then r.excluded[reason] else 0)
    && (forall reason :: reason in r.excluded ==> r.excluded[reason] > 0)
    && |r.selected| + r.duplicates == Count(records, x => Why(records, x) == None)
  }

  lemma SameMembers(a: seq<Checked>, b: seq<Checked>)
    requires multiset(a) == multiset(b)
    ensures forall x :: x in a <==> x in b
  {
    forall x ensures x in a <==> x in b {
      assert x in a <==> x in multiset(a);
      assert x in b <==> x in multiset(b);
    }
  }

  lemma SameMeaning(a: seq<Checked>, b: seq<Checked>)
    requires forall x :: x in a <==> x in b
    ensures forall x :: Why(a, x) == Why(b, x)
    ensures forall item :: Chosen(a, item) <==> Chosen(b, item)
  {
    assert forall item :: Has(a, item) <==> Has(b, item);
    assert forall item :: Latest(a, item) <==> Latest(b, item);
    forall race ensures OutcomesConflict(a, race) <==> OutcomesConflict(b, race) {
    }
    forall race ensures SnapshotsConflict(a, race) <==> SnapshotsConflict(b, race) {
    }
  }

  lemma {:induction false} CountSame(records: seq<Checked>, p: Checked -> bool, q: Checked -> bool)
    requires forall x :: x in records ==> p(x) == q(x)
    ensures Count(records, p) == Count(records, q)
    decreases |records|
  {
    if records != [] {
      assert forall x :: x in records[..|records| - 1] ==> x in records;
      CountSame(records[..|records| - 1], p, q);
      assert records[|records| - 1] in records;
    }
  }

  lemma InOrderIsUnique(a: seq<Item>, b: seq<Item>)
    requires InOrder(a) && InOrder(b) && forall x :: x in a <==> x in b
    ensures a == b
  {
    OneSortedList(a, b, (x: Item, y: Item) => Sooner(x, y));
  }

  lemma IndexIn(x: Item, s: seq<Item>) returns (i: nat)
    requires x in s
    ensures i < |s| && s[i] == x
  {
    i :| 0 <= i < |s| && s[i] == x;
  }

  /** The same records in any order give the same report. */
  lemma OrderDoesNotMatter(a: seq<Checked>, b: seq<Checked>, ra: Report, rb: Report)
    requires multiset(a) == multiset(b) && Prepared(a, ra) && Prepared(b, rb)
    ensures ra == rb
  {
    assert |a| == |multiset(a)| && |b| == |multiset(b)|;
    SameMembers(a, b);
    SameMeaning(a, b);
    InOrderIsUnique(ra.selected, rb.selected);
    forall reason ensures ExcludedFor(a, reason) == ExcludedFor(b, reason) {
      CountAnyOrder(a, b, x => Why(a, x) == Some(reason));
      CountSame(b, x => Why(a, x) == Some(reason), x => Why(b, x) == Some(reason));
    }
    forall reason ensures reason in ra.excluded <==> reason in rb.excluded {
      assert ExcludedFor(a, reason) == ExcludedFor(b, reason);
    }
    assert ra.excluded == rb.excluded;
    CountAnyOrder(a, b, x => Why(a, x) == None);
    CountSame(b, x => Why(a, x) == None, x => Why(b, x) == None);
  }

  // ----- the program

  /** The items of a race, in order. */
  function ItemsOf(records: seq<Checked>, race: Race): seq<Item> {
    if records == [] then []
    else
      var last := records[|records| - 1];
      ItemsOf(records[..|records| - 1], race) + (if last.Eligible? && last.item.race == race then [last.item] else [])
  }

  lemma {:induction false} ItemsOfMeans(records: seq<Checked>, race: Race)
    ensures forall item :: item in ItemsOf(records, race) <==> Has(records, item) && item.race == race
    ensures |ItemsOf(records, race)| == Count(records, (x: Checked) => x.Eligible? && x.item.race == race)
    decreases |records|
  {
    if records != [] {
      var n := |records| - 1;
      ItemsOfMeans(records[..n], race);
      assert records == records[..n] + [records[n]];
    }
  }

  /** What grouping has collected from the first `i` records. */
  ghost predicate GroupedSoFar(records: seq<Checked>, i: nat, races: seq<Race>, groups: map<Race, seq<Item>>, excluded: map<Reason, nat>) {
    && i <= |records| && Distinct(races)
    && (forall race :: race in races <==> race in groups)
    && (forall race :: ItemsOf(records[..i], race) == if race in groups then groups[race] else [])
    && (forall race :: race in groups ==> groups[race] != [])
    && CountsReasons(records[..i], excluded)
  }

  ghost predicate CountsReasons(records: seq<Checked>, excluded: map<Reason, nat>) {
    && (forall reason :: Count(records, x => x == Excluded(reason)) == if reason in excluded then excluded[reason] else 0)
    && (forall reason :: reason in excluded ==> excluded[reason] > 0)
  }

  function Bump(excluded: map<Reason, nat>, reason: Reason, n: nat): map<Reason, nat> {
    excluded[reason := (if reason in excluded then excluded[reason] else 0) + n]
  }

  lemma CountOneMore(records: seq<Checked>, i: nat, p: Checked -> bool)
    requires i < |records|
    ensures Count(records[..i + 1], p) == Count(records[..i], p) + (if p(records[i]) then 1 else 0)
  {
    assert records[..i + 1][..i] == records[..i];
  }

  lemma ReasonsOneMore(records: seq<Checked>, i: nat, excluded: map<Reason, nat>)
    requires i < |records| && CountsReasons(records[..i], excluded)
    ensures CountsReasons(records[..i + 1], if records[i].Excluded? then Bump(excluded, records[i].reason, 1) else excluded)
  {
    forall reason ensures Count(records[..i + 1], x => x == Excluded(reason))
                       == Count(records[..i], x => x == Excluded(reason)) + (if records[i] == Excluded(reason) then 1 else 0) {
      CountOneMore(records, i, x => x == Excluded(reason));
    }
  }

  lemma ItemsOneMore(records: seq<Checked>, i: nat, race: Race)
    requires i < |records|
    ensures ItemsOf(records[..i + 1], race)
         == ItemsOf(records[..i], race) + (if records[i].Eligible? && records[i].item.race == race then [records[i].item] else [])
  {
    assert records[..i + 1][..i] == records[..i];
  }

  lemma ExcludeOneMore(records: seq<Checked>, i: nat, races: seq<Race>, groups: map<Race, seq<Item>>, excluded: map<Reason, nat>)
    requires GroupedSoFar(records, i, races, groups, excluded) && i < |records| && records[i].Excluded?
    ensures GroupedSoFar(records, i + 1, races, groups, Bump(excluded, records[i].reason, 1))
  {
    ReasonsOneMore(records, i, excluded);
    forall race {
      ItemsOneMore(records, i, race);
    }
  }

  lemma GroupOneMore(records: seq<Checked>, i: nat, races: seq<Race>, groups: map<Race, seq<Item>>, excluded: map<Reason, nat>)
    requires GroupedSoFar(records, i, races, groups, excluded) && i < |records| && records[i].Eligible?
    ensures var race := records[i].item.race;
            GroupedSoFar(records, i + 1, if race in groups then races else races + [race],
                         groups[race := (if race in groups then groups[race] else []) + [records[i].item]], excluded)
  {
    ReasonsOneMore(records, i, excluded);
    forall race {
      ItemsOneMore(records, i, race);
    }
  }

  /** The first loop of `prepare`: field checks already made, records grouped by race. */
  method GroupRecords(records: seq<Checked>) returns (races: seq<Race>, groups: map<Race, seq<Item>>, excluded: map<Reason, nat>)
    ensures GroupedSoFar(records, |records|, races, groups, excluded)
  {
    races, groups, excluded := [], map[], map[];
    for i := 0 to |records|
      invariant GroupedSoFar(records, i, races, groups, excluded)
    {
      match records[i] {
        case Excluded(reason) =>
          ExcludeOneMore(records, i, races, groups, excluded);
          excluded := Bump(excluded, reason, 1);
        case Eligible(item) =>
          GroupOneMore(records, i, races, groups, excluded);
          races := if item.race in groups then races else races + [item.race];
          groups := groups[item.race := (if item.race in groups then groups[item.race] else []) + [item]];
      }
    }
  }

  datatype Verdict = OutcomeConflict | SnapshotConflict | Single(item: Item)

  ghost predicate OutcomesDiffer(group: seq<Item>) {
    exists i, j :: 0 <= i < |group| && 0 <= j < |group| && group[i].outcome != group[j].outcome
  }

  ghost predicate NewestDiffer(group: seq<Item>) {
    exists i, j :: 0 <= i < |group| && 0 <= j < |group| && Newest(group, group[i]) && Newest(group, group[j])
                   && group[i].content != group[j].content
  }

  /** The group of one race: one outcome, one latest content, or a conflict. */
  method Judge(group: seq<Item>) returns (v: Verdict)
    requires group != []
    ensures v.OutcomeConflict? <==> OutcomesDiffer(group)
    ensures v.SnapshotConflict? ==> NewestDiffer(group)
    ensures v.Single? ==> v.item in group && Newest(group, v.item) && !NewestDiffer(group)
  {
    var outcomes := set i | 0 <= i < |group| :: group[i].outcome;
    assert group[0].outcome in outcomes;
    OneMember(outcomes, group[0].outcome);
    if |outcomes| != 1 {
      var other :| other in outcomes && other != group[0].outcome;
      return OutcomeConflict;
    }
    assert forall i :: 0 <= i < |group| ==> group[i].outcome in outcomes;
    var latest := group[0];
    for i := 0 to |group|
      invariant latest in group && forall k :: 0 <= k < i ==> group[k].predicted <= latest.predicted
    {
      if group[i].predicted > latest.predicted {
        latest := group[i];
      }
    }
    var contents := set i | 0 <= i < |group| && group[i].predicted == latest.predicted :: group[i].content;
    var at :| 0 <= at < |group| && group[at] == latest;
    assert latest.content in contents;
    OneMember(contents, latest.content);
    if |contents| != 1 {
      var other :| other in contents && other != latest.content;
      var j :| 0 <= j < |group| && group[j].predicted == latest.predicted && group[j].content == other;
      assert Newest(group, group[j]) && Newest(group, group[at]);
      return SnapshotConflict;
    }
    forall i | 0 <= i < |group| && Newest(group, group[i]) ensures group[i].content == latest.content {
      assert group[i].predicted == latest.predicted;
      assert group[i].content in contents;
    }
    return Single(latest);
  }

  ghost predicate Newest(group: seq<Item>, item: Item) {
    forall k :: 0 <= k < |group| ==> group[k].predicted <= item.predicted
  }

  lemma OneMember(s: set<nat>, x: nat)
    requires x in s
    ensures |s| == 1 <==> s == {x}
    ensures |s| != 1 ==> exists y :: y in s && y != x
  {
    if s != {x} {
      var y := Pick(s - {x});
      assert |s| == |s - {x}| + 1;
      assert s - {x} != {};
    }
  }

  // ----- judging all groups

  lemma OutcomesMean(records: seq<Checked>, race: Race)
    ensures OutcomesDiffer(ItemsOf(records, race)) <==> OutcomesConflict(records, race)
  {
    var group := ItemsOf(records, race);
    ItemsOfMeans(records, race);
    if OutcomesConflict(records, race) {
      var a, b :| Has(records, a) && Has(records, b) && a.race == race == b.race && a.outcome != b.outcome;
      var i, j := IndexIn2(a, b, group);
    }
    if OutcomesDiffer(group) {
      var i, j :| 0 <= i < |group| && 0 <= j < |group| && group[i].outcome != group[j].outcome;
      assert group[i] in group && group[j] in group;
    }
  }

  lemma SnapshotsMean(records: seq<Checked>, race: Race)
    ensures NewestDiffer(ItemsOf(records, race)) <==> SnapshotsConflict(records, race)
  {
    var group := ItemsOf(records, race);
    if SnapshotsConflict(records, race) {
      var a, b :| Latest(records, a) && Latest(records, b) && a.race == race == b.race && a.content != b.content;
      NewestIsLatest(records, race, a);
      NewestIsLatest(records, race, b);
      var i, j := IndexIn2(a, b, group);
    }
    if NewestDiffer(group) {
      var i, j :| 0 <= i < |group| && 0 <= j < |group| && Newest(group, group[i]) && Newest(group, group[j])
                  && group[i].content != group[j].content;
      NewestIsLatest(records, race, group[i]);
      NewestIsLatest(records, race, group[j]);
    }
  }

  lemma IndexIn2(a: Item, b: Item, s: seq<Item>) returns (i: nat, j: nat)
    requires a in s && b in s
    ensures i < |s| && j < |s| && s[i] == a && s[j] == b
  {
    i := IndexIn(a, s);
    j := IndexIn(b, s);
  }

  lemma NewestIsLatest(records: seq<Checked>, race: Race, item: Item)
    ensures item in ItemsOf(records, race) && Newest(ItemsOf(records, race), item) <==> Latest(records, item) && item.race == race
  {
    var group := ItemsOf(records, race);
    ItemsOfMeans(records, race);
    if Latest(records, item) && item.race == race {
      forall k | 0 <= k < |group| ensures group[k].predicted <= item.predicted {
        assert group[k] in group;
      }
    }
    if item in group && Newest(group, item) {
      forall other | Has(records, other) && other.race == race ensures other.predicted <= item.predicted {
        var k := IndexIn(other, group);
      }
    }
  }

  /** Counted so far: refused by the field checks, or of a race already judged. */
  ghost function Judged(records: seq<Checked>, done: set<Race>, reason: Option<Reason>): Checked -> bool {
    (x: Checked) => Why(records, x) == reason && (x.Eligible? ==> x.item.race in done)
  }

  /** What the second loop has reached. */
  ghost predicate JudgedSoFar(records: seq<Checked>, done: set<Race>, selected: seq<Item>, excluded: map<Reason, nat>, duplicates: nat) {
    && (forall item :: item in selected <==> Chosen(records, item) && item.race in done)
    && (forall i, j :: 0 <= i < j < |selected| ==> selected[i].race != selected[j].race)
    && (forall reason :: Count(records, Judged(records, done, Some(reason))) == if reason in excluded then excluded[reason] else 0)
    && (forall reason :: reason in excluded ==> excluded[reason] > 0)
    && |selected| + duplicates == Count(records, Judged(records, done, None))
  }

  /** Judging one more race moves exactly its own records. */
  lemma JudgeRace(records: seq<Checked>, done: set<Race>, race: Race, reason: Option<Reason>, why: Option<Reason>)
    requires race !in done && forall x :: x in records && x.Eligible? && x.item.race == race ==> Why(records, x) == why
    ensures Count(records, Judged(records, done + {race}, reason))
         == Count(records, Judged(records, done, reason)) + (if reason == why then |ItemsOf(records, race)| else 0)
  {
    var own := (x: Checked) => reason == why && x.Eligible? && x.item.race == race;
    CountSplits(records, Judged(records, done, reason), own, Judged(records, done + {race}, reason));
    ItemsOfMeans(records, race);
    if reason == why {
      CountSame(records, own, (x: Checked) => x.Eligible? && x.item.race == race);
    } else {
      CountNone(records, own);
    }
  }

  lemma {:induction false} CountNone(records: seq<Checked>, p: Checked -> bool)
    requires forall x :: x in records ==> !p(x)
    ensures Count(records, p) == 0
    decreases |records|
  {
    if records != [] {
      assert forall x :: x in records[..|records| - 1] ==> x in records;
      CountNone(records[..|records| - 1], p);
      assert records[|records| - 1] in records;
    }
  }

  /** A race with a conflict is excluded whole. */
  lemma ExcludeRace(records: seq<Checked>, done: set<Race>, race: Race, selected: seq<Item>, excluded: map<Reason, nat>,
                    duplicates: nat, why: Reason)
    requires JudgedSoFar(records, done, selected, excluded, duplicates) && race !in done
    requires ItemsOf(records, race) != [] && forall x :: x in records && x.Eligible? && x.item.race == race ==> Why(records, x) == Some(why)
    ensures JudgedSoFar(records, done + {race}, selected, Bump(excluded, why, |ItemsOf(records, race)|), duplicates)
  {
    forall reason {
      JudgeRace(records, done, race, Some(reason), Some(why));
    }
    JudgeRace(records, done, race, None, Some(why));
    forall item | Chosen(records, item) ensures item.race != race {
      assert Eligible(item) in records && Why(records, Eligible(item)) == None;
    }
  }

  /** A race without conflicts gives its latest record, and the others count as duplicates. */
  lemma SelectRace(records: seq<Checked>, done: set<Race>, race: Race, selected: seq<Item>, excluded: map<Reason, nat>,
                   duplicates: nat, item: Item)
    requires JudgedSoFar(records, done, selected, excluded, duplicates) && race !in done && ContentDetermines(records)
    requires Chosen(records, item) && item.race == race
    requires forall x :: x in records && x.Eligible? && x.item.race == race ==> Why(records, x) == None
    ensures |ItemsOf(records, race)| > 0
    ensures JudgedSoFar(records, done + {race}, selected + [item], excluded, duplicates + |ItemsOf(records, race)| - 1)
  {
    forall reason {
      JudgeRace(records, done, race, Some(reason), None);
    }
    JudgeRace(records, done, race, None, None);
    ItemsOfMeans(records, race);
    assert item in ItemsOf(records, race);
    forall other | Chosen(records, other) && other.race == race ensures other == item {
      OneChosen(records, item, other);
    }
    forall x ensures x in selected + [item] <==> x in selected || x == item {
    }
    forall i | 0 <= i < |selected| ensures selected[i].race != race {
      assert selected[i] in selected;
    }
  }

  lemma OneChosen(records: seq<Checked>, a: Item, b: Item)
    requires ContentDetermines(records) && Chosen(records, a) && Chosen(records, b) && a.race == b.race
    ensures a == b
  {
  }

  /** One race of the second loop. */
  method JudgeGroup(records: seq<Checked>, group: seq<Item>, race: Race, ghost done: set<Race>, before: seq<Item>,
                    excluded: map<Reason, nat>, duplicates: nat)
    returns (selected: seq<Item>, excludedAfter: map<Reason, nat>, duplicatesAfter: nat)
    requires JudgedSoFar(records, done, before, excluded, duplicates) && race !in done && ContentDetermines(records)
    requires group == ItemsOf(records, race) && group != []
    ensures JudgedSoFar(records, done + {race}, selected, excludedAfter, duplicatesAfter)
  {
    OutcomesMean(records, race);
    SnapshotsMean(records, race);
    var verdict := Judge(group);
    selected, excludedAfter, duplicatesAfter := before, excluded, duplicates;
    match verdict {
      case OutcomeConflict =>
        ExcludeRace(records, done, race, before, excluded, duplicates, CONFLICTING_OUTCOMES);
        excludedAfter := Bump(excluded, CONFLICTING_OUTCOMES, |group|);
      case SnapshotConflict =>
        ExcludeRace(records, done, race, before, excluded, duplicates, CONFLICTING_SNAPSHOTS);
        excludedAfter := Bump(excluded, CONFLICTING_SNAPSHOTS, |group|);
      case Single(item) =>
        NewestIsLatest(records, race, item);
        SelectRace(records, done, race, before, excluded, duplicates, item);
        selected, duplicatesAfter := before + [item], duplicates + |group| - 1;
    }
  }

  function InsertItem(item: Item, items: seq<Item>): seq<Item> {
    if items == [] || Sooner(item, items[0]) then [item] + items else [items[0]] + InsertItem(item, items[1..])
  }

  function SortItems(items: seq<Item>): seq<Item> {
    if items == [] then [] else InsertItem(items[0], SortItems(items[1..]))
  }

  lemma {:induction false} InsertItemSorts(item: Item, items: seq<Item>)
    requires InOrder(items) && forall i :: 0 <= i < |items| ==> items[i].race != item.race
    ensures InOrder(InsertItem(item, items)) && |InsertItem(item, items)| == |items| + 1
    ensures forall x :: x in InsertItem(item, items) <==> x == item || x in items
    decreases |items|
  {
    if items != [] && !Sooner(item, items[0]) {
      InsertItemSorts(item, items[1..]);
      var tail := InsertItem(item, items[1..]);
      assert items == [items[0]] + items[1..];
      forall j | 0 <= j < |tail| ensures Sooner(items[0], tail[j]) {
        assert tail[j] in tail;
      }
    }
  }

  lemma {:induction false} SortItemsSorts(items: seq<Item>)
    requires forall i, j :: 0 <= i < j < |items| ==> items[i].race != items[j].race
    ensures InOrder(SortItems(items)) && |SortItems(items)| == |items|
    ensures forall x :: x in SortItems(items) <==> x in items
    decreases |items|
  {
    if items != [] {
      SortItemsSorts(items[1..]);
      var rest := SortItems(items[1..]);
      forall i | 0 <= i < |rest| ensures rest[i].race != items[0].race {
        assert rest[i] in rest;
        var j := IndexIn(rest[i], items[1..]);
      }
      InsertItemSorts(items[0], rest);
      assert items == [items[0]] + items[1..];
    }
  }

  lemma NothingJudged(records: seq<Checked>, excluded: map<Reason, nat>)
    requires CountsReasons(records, excluded)
    ensures JudgedSoFar(records, {}, [], excluded, 0)
  {
    forall reason ensures Count(records, Judged(records, {}, Some(reason))) == Count(records, x => x == Excluded(reason)) {
      CountSame(records, Judged(records, {}, Some(reason)), x => x == Excluded(reason));
    }
    CountNone(records, Judged(records, {}, None));
  }

  lemma AllJudged(records: seq<Checked>, done: set<Race>, selected: seq<Item>, excluded: map<Reason, nat>, duplicates: nat)
    requires JudgedSoFar(records, done, selected, excluded, duplicates)
    requires forall x :: x in records && x.Eligible? ==> x.item.race in done
    ensures Prepared(records, Report(|records|, SortItems(selected), excluded, duplicates))
  {
    SortItemsSorts(selected);
    forall reason ensures ExcludedFor(records, reason) == Count(records, Judged(records, done, Some(reason))) {
      CountSame(records, x => Why(records, x) == Some(reason), Judged(records, done, Some(reason)));
    }
    CountSame(records, x => Why(records, x) == None, Judged(records, done, None));
    forall item | Chosen(records, item) ensures item.race in done {
      assert Eligible(item) in records;
    }
  }

  lemma EveryRaceGrouped(records: seq<Checked>, races: seq<Race>, groups: map<Race, seq<Item>>)
    requires (forall race :: race in races <==> race in groups)
    requires forall race :: ItemsOf(records, race) == if race in groups then groups[race] else []
    ensures forall x :: x in records && x.Eligible? ==> x.item.race in Elements(races)
  {
    forall x | x in records && x.Eligible? ensures x.item.race in races {
      ItemsOfMeans(records, x.item.race);
      assert Has(records, x.item);
    }
  }

  lemma NextRace(races: seq<Race>, k: nat)
    requires k < |races| && Distinct(races)
    ensures Elements(races[..k + 1]) == Elements(races[..k]) + {races[k]} && races[k] !in Elements(races[..k])
  {
    assert races[..k + 1] == races[..k] + [races[k]];
  }

  /** The second loop of `prepare`. */
  method JudgeGroups(records: seq<Checked>, races: seq<Race>, groups: map<Race, seq<Item>>, refused: map<Reason, nat>)
    returns (selected: seq<Item>, excluded: map<Reason, nat>, duplicates: nat)
    requires ContentDetermines(records) && Distinct(races) && CountsReasons(records, refused)
    requires forall k :: 0 <= k < |races| ==>
               races[k] in groups && groups[races[k]] == ItemsOf(records, races[k]) && groups[races[k]] != []
    ensures JudgedSoFar(records, Elements(races), selected, excluded, duplicates)
  {
    NothingJudged(records, refused);
    selected, excluded, duplicates := [], refused, 0;
    ghost var done: set<Race> := {};
    assert Elements(races[..0]) == {};
    for k := 0 to |races|
      invariant done == Elements(races[..k])
      invariant JudgedSoFar(records, done, selected, excluded, duplicates)
    {
      NextRace(races, k);
      var race := races[k];
      selected, excluded, duplicates := JudgeGroup(records, groups[race], race, done, selected, excluded, duplicates);
      done := done + {race};
    }
    assert races[..|races|] == races;
  }

  /** `prepare`, given what the field checks made of each record. */
  method Prepare(records: seq<Checked>) returns (r: Report)
    requires ContentDetermines(records)
    ensures Prepared(records, r)
  {
    var races, groups, refused := GroupRecords(records);
    assert records[..|records|] == records;
    EveryRaceGrouped(records, races, groups);
    var selected, excluded, duplicates := JudgeGroups(records, races, groups, refused);
    AllJudged(records, Elements(races), selected, excluded, duplicates);
    r := Report(|records|, SortItems(selected), excluded, duplicates);
  }

  // ----- accounting

  ghost function Sum(m: map<Reason, nat>): nat
    decreases |m|
  {
    if m == map[] then 0 else
      var key: Reason :| key in m;
      assert |m - {key}| < |m|;
      m[key] + Sum(m - {key})
  }

  lemma {:induction false} SumAny(m: map<Reason, nat>, key: Reason)
    requires key in m
    ensures Sum(m) == m[key] + Sum(m - {key})
    decreases |m|
  {
    var first: Reason :| first in m && Sum(m) == m[first] + Sum(m - {first});
    if first != key {
      SumAny(m - {first}, key);
      SumAny(m - {key}, first);
      assert m - {first} - {key} == m - {key} - {first};
    }
  }

  ghost function WhyIn(records: seq<Checked>, reasons: set<Reason>): Checked -> bool {
    x => Why(records, x).Some? && Why(records, x).value in reasons
  }

  lemma {:induction false} SumIsCount(records: seq<Checked>, m: map<Reason, nat>)
    requires forall reason :: reason in m ==> m[reason] == ExcludedFor(records, reason)
    ensures Sum(m) == Count(records, WhyIn(records, m.Keys))
    decreases |m|
  {
    if m == map[] {
      CountNone(records, WhyIn(records, m.Keys));
    } else {
      var key := Pick(m.Keys);
      SumAny(m, key);
      SumIsCount(records, m - {key});
      assert (m - {key}).Keys == m.Keys - {key};
      CountSplits(records, WhyIn(records, m.Keys - {key}), x => Why(records, x) == Some(key), WhyIn(records, m.Keys));
    }
  }

  lemma {:induction false} CountedMeansMember(records: seq<Checked>, p: Checked -> bool, x: Checked)
    requires x in records && p(x)
    ensures Count(records, p) > 0
    decreases |records|
  {
    var n := |records| - 1;
    if x != records[n] {
      CountedMeansMember(records[..n], p, x);
    }
  }

  /** Every record ends up exactly once: excluded for one reason, selected, or a removed duplicate. */
  lemma EveryRecordAccounted(records: seq<Checked>, r: Report)
    requires Prepared(records, r)
    ensures Sum(r.excluded) + |r.selected| + r.duplicates == r.input
  {
    SumIsCount(records, r.excluded);
    forall x | x in records && Why(records, x).Some? ensures Why(records, x).value in r.excluded {
      var reason := Why(records, x).value;
      CountedMeansMember(records, y => Why(records, y) == Some(reason), x);
      assert ExcludedFor(records, reason) > 0;
    }
    var all := (x: Checked) => true;
    CountSplits(records, WhyIn(records, r.excluded.Keys), x => Why(records, x) == None, all);
    CountAll(records, all);
  }
}
