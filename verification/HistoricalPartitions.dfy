/**
 The historical path: an intake audit that keeps the first record of each race, reviewed
 records placed into chronological partitions, and the accounting of the preparation report.
 */
module HistoricalPartitions {
  import opened CredentialIdentity
  import opened FirstOccurrences

  type Race = nat

  /** A canonical JSON text, by the value it stands for; None where there is none, as with a number that is not finite. */
  type Text = Option<nat>

  predicate SameText(a: Text, b: Text) {
    a.Some? && a == b
  }

  /**
   A record as the audit reads it. `sources` and `rest` are the canonical texts of its sources and
   of everything else; `sound` says that no check of its fields speaks against it, `readable` that
   checking it raises nothing.
   */
  datatype Entry = Entry(race: Race, sources: Text, rest: Text, sound: bool, readable: bool, feature: int, start: int, result: int)

  /** `NoRaceId` has some other value, or a blank one, under the race id. */
  datatype Record = NotARecord | NoRaceId(other: nat, text: Text) | Known(entry: Entry)

  datatype Key = RaceKey(race: Race) | OtherKey(other: nat)

  /** A digest stands for the record it was taken of. */
  datatype Digest = Digest(key: Key, sources: nat, rest: nat)

  /** `attested` says that the reviewer and the three kinds of evidence are named. */
  datatype Review = NotAReview | Review(key: Key, of: Option<Digest>, attested: bool)

  datatype Audit = Audit(invalid: nat, firsts: seq<Entry>, conflicts: set<Race>, variants: set<Race>, duplicates: nat)

  // ----- the audit

  ghost function SameRace(): (Entry, Entry) -> bool {
    (a: Entry, b: Entry) => a.race == b.race
  }

  /** The entries with a race id, in order. */
  function Entries(records: seq<Record>): seq<Entry> {
    if records == [] then []
    else
      var last := records[|records| - 1];
      Entries(records[..|records| - 1]) + (if last.Known? then [last.entry] else [])
  }

  function Invalid(records: seq<Record>): nat {
    if records == [] then 0
    else Invalid(records[..|records| - 1]) + (if records[|records| - 1].Known? then 0 else 1)
  }

  /** A later entry of the race says something else than its first one. */
  ghost predicate Conflicts(entries: seq<Entry>, race: Race) {
    exists i, j :: 0 <= i < j < |entries| && FirstAt(entries, i, race) && entries[j].race == race && !SameText(entries[j].rest, entries[i].rest)
  }

  ghost predicate SourcesVary(entries: seq<Entry>, race: Race) {
    exists i, j :: 0 <= i < j < |entries| && FirstAt(entries, i, race) && entries[j].race == race && !SameText(entries[j].sources, entries[i].sources)
  }

  ghost predicate FirstAt(entries: seq<Entry>, i: nat, race: Race) {
    i < |entries| && entries[i].race == race && forall k :: 0 <= k < i ==> entries[k].race != race
  }

  /** How many later entries repeat the first of their race exactly, sources aside. */
  ghost function Identical(entries: seq<Entry>): nat {
    if entries == [] then 0
    else
      var n := |entries| - 1;
      Identical(entries[..n]) + (if RepeatsExactly(entries, n) then 1 else 0)
  }

  ghost predicate RepeatsExactly(entries: seq<Entry>, j: nat)
    requires j < |entries|
  {
    exists i :: 0 <= i < j && FirstAt(entries, i, entries[j].race) && SameText(entries[i].rest, entries[j].rest)
  }

  /** `seen` holds the first entry of each race. */
  ghost predicate SeenFirsts(entries: seq<Entry>, seen: map<Race, Entry>) {
    && (forall race :: race in seen ==> exists i :: 0 <= i < |entries| && FirstAt(entries, i, race) && seen[race] == entries[i])
    && (forall k :: 0 <= k < |entries| ==> entries[k].race in seen)
  }

  /** What the audit has gathered from the first entries. */
  ghost predicate Audited(entries: seq<Entry>, a: Audit) {
    && a.firsts == Firsts(entries, SameRace())
    && Flagged(entries, a.conflicts, a.variants)
    && a.duplicates == Identical(entries)
  }

  /** The races with a conflict, and those whose sources vary. */
  ghost predicate Flagged(entries: seq<Entry>, conflicts: set<Race>, variants: set<Race>) {
    && (forall race :: race in conflicts <==> Conflicts(entries, race))
    && (forall race :: race in variants <==> SourcesVary(entries, race))
  }

  lemma FirstStays(entries: seq<Entry>, e: Entry, i: nat, race: Race)
    ensures i < |entries| ==> (FirstAt(entries + [e], i, race) <==> FirstAt(entries, i, race))
    ensures FirstAt(entries + [e], |entries|, race) <==> e.race == race && forall k :: 0 <= k < |entries| ==> entries[k].race != race
  {
    var more := entries + [e];
    assert forall k :: 0 <= k < |entries| ==> more[k] == entries[k];
  }

  lemma FirstsStay(entries: seq<Entry>, e: Entry, race: Race)
    ensures forall i :: 0 <= i < |entries| ==> (FirstAt(entries + [e], i, race) <==> FirstAt(entries, i, race))
  {
    forall i | 0 <= i < |entries| ensures FirstAt(entries + [e], i, race) <==> FirstAt(entries, i, race) {
      FirstStays(entries, e, i, race);
    }
  }

  lemma RestsOneMore(entries: seq<Entry>, e: Entry, race: Race)
    ensures Conflicts(entries + [e], race) <==>
              Conflicts(entries, race)
              || (e.race == race && exists i :: 0 <= i < |entries| && FirstAt(entries, i, race) && !SameText(entries[i].rest, e.rest))
  {
    var more := entries + [e];
    assert forall k :: 0 <= k < |entries| ==> more[k] == entries[k];
    FirstsStay(entries, e, race);
    if i, j :| 0 <= i < j < |entries| && FirstAt(entries, i, race) && entries[j].race == race && !SameText(entries[j].rest, entries[i].rest) {
      assert FirstAt(more, i, race) && !SameText(more[j].rest, more[i].rest);
    }
    if i :| 0 <= i < |entries| && FirstAt(entries, i, race) && e.race == race && !SameText(entries[i].rest, e.rest) {
      assert FirstAt(more, i, race) && !SameText(more[|entries|].rest, more[i].rest);
    }
  }

  lemma SourcesOneMore(entries: seq<Entry>, e: Entry, race: Race)
    ensures SourcesVary(entries + [e], race) <==>
              SourcesVary(entries, race)
              || (e.race == race && exists i :: 0 <= i < |entries| && FirstAt(entries, i, race) && !SameText(entries[i].sources, e.sources))
  {
    var more := entries + [e];
    assert forall k :: 0 <= k < |entries| ==> more[k] == entries[k];
    FirstsStay(entries, e, race);
    if i, j :| 0 <= i < j < |entries| && FirstAt(entries, i, race) && entries[j].race == race && !SameText(entries[j].sources, entries[i].sources) {
      assert FirstAt(more, i, race) && !SameText(more[j].sources, more[i].sources);
    }
    if i :| 0 <= i < |entries| && FirstAt(entries, i, race) && e.race == race && !SameText(entries[i].sources, e.sources) {
      assert FirstAt(more, i, race) && !SameText(more[|entries|].sources, more[i].sources);
    }
  }

  lemma FirstIsOne(entries: seq<Entry>, i: nat, j: nat, race: Race)
    requires FirstAt(entries, i, race) && FirstAt(entries, j, race)
    ensures i == j
  {
  }

  ghost predicate RaceIn(entries: seq<Entry>, race: Race) {
    exists k :: 0 <= k < |entries| && entries[k].race == race
  }

  lemma RepeatIsRaceIn(entries: seq<Entry>, e: Entry)
    ensures Repeats(entries + [e], |entries|, SameRace()) <==> RaceIn(entries, e.race)
  {
    var more := entries + [e];
    if k :| 0 <= k < |entries| && entries[k].race == e.race {
      assert SameRace()(more[k], more[|entries|]);
    }
    if k :| 0 <= k < |entries| && SameRace()(more[k], more[|entries|]) {
      assert more[k] == entries[k];
    }
  }

  lemma AppendFirsts(entries: seq<Entry>, e: Entry)
    ensures Firsts(entries + [e], SameRace()) == Firsts(entries, SameRace()) + (if RaceIn(entries, e.race) then [] else [e])
  {
    var more := entries + [e];
    FirstsOneMore(more, |entries|, SameRace());
    assert more[..|entries| + 1] == more && more[..|entries|] == entries;
    RepeatIsRaceIn(entries, e);
  }

  lemma AppendIdentical(entries: seq<Entry>, e: Entry)
    ensures Identical(entries + [e]) == Identical(entries)
              + (if exists i :: 0 <= i < |entries| && FirstAt(entries, i, e.race) && SameText(entries[i].rest, e.rest) then 1 else 0)
  {
    var more := entries + [e];
    var n := |entries|;
    assert more[..n] == entries;
    forall i | 0 <= i < n ensures FirstAt(more, i, e.race) <==> FirstAt(entries, i, e.race) {
      FirstStays(entries, e, i, e.race);
    }
    assert RepeatsExactly(more, n) <==> exists i :: 0 <= i < n && FirstAt(entries, i, e.race) && SameText(entries[i].rest, e.rest);
  }

  /** An entry of a race not seen before. */
  lemma AuditNew(entries: seq<Entry>, e: Entry, seen: map<Race, Entry>, a: Audit)
    requires SeenFirsts(entries, seen) && Audited(entries, a) && e.race !in seen
    ensures SeenFirsts(entries + [e], seen[e.race := e]) && Audited(entries + [e], a.(firsts := a.firsts + [e]))
  {
    AppendFirsts(entries, e);
    AppendIdentical(entries, e);
    forall race {
      NewRaceFlags(entries, e, race);
    }
    SeenMore(entries, e, seen);
  }

  lemma NewRaceFlags(entries: seq<Entry>, e: Entry, race: Race)
    requires forall k :: 0 <= k < |entries| ==> entries[k].race != e.race
    ensures Conflicts(entries + [e], race) <==> Conflicts(entries, race)
    ensures SourcesVary(entries + [e], race) <==> SourcesVary(entries, race)
  {
    RestsOneMore(entries, e, race);
    SourcesOneMore(entries, e, race);
  }

  lemma SeenMore(entries: seq<Entry>, e: Entry, seen: map<Race, Entry>)
    requires SeenFirsts(entries, seen)
    ensures SeenFirsts(entries + [e], if e.race in seen then seen else seen[e.race := e])
  {
    var more := entries + [e];
    var after := if e.race in seen then seen else seen[e.race := e];
    forall race | race in after ensures exists i :: 0 <= i < |more| && FirstAt(more, i, race) && after[race] == more[i] {
      if race in seen {
        var i :| 0 <= i < |entries| && FirstAt(entries, i, race) && seen[race] == entries[i];
        FirstStays(entries, e, i, race);
        assert more[i] == entries[i];
      } else {
        FirstStays(entries, e, |entries|, race);
        assert FirstAt(more, |entries|, race);
      }
    }
  }

  lemma FirstSeen(entries: seq<Entry>, seen: map<Race, Entry>, race: Race) returns (first: nat)
    requires SeenFirsts(entries, seen) && race in seen
    ensures first < |entries| && FirstAt(entries, first, race) && seen[race] == entries[first]
    ensures forall i :: 0 <= i < |entries| && FirstAt(entries, i, race) ==> i == first
  {
    first :| 0 <= first < |entries| && FirstAt(entries, first, race) && seen[race] == entries[first];
    forall i | 0 <= i < |entries| && FirstAt(entries, i, race) ensures i == first {
      FirstIsOne(entries, i, first, race);
    }
  }

  lemma ConflictsAgain(entries: seq<Entry>, e: Entry, first: nat, race: Race)
    requires first < |entries| && FirstAt(entries, first, e.race)
    requires forall i :: 0 <= i < |entries| && FirstAt(entries, i, e.race) ==> i == first
    ensures Conflicts(entries + [e], race) <==> Conflicts(entries, race) || (e.race == race && !SameText(entries[first].rest, e.rest))
    ensures SourcesVary(entries + [e], race) <==> SourcesVary(entries, race) || (e.race == race && !SameText(entries[first].sources, e.sources))
  {
    RestsOneMore(entries, e, race);
    SourcesOneMore(entries, e, race);
  }

  /** An entry of a race seen before: exactly the same, or a conflict; its sources are compared apart. */
  lemma AuditAgain(entries: seq<Entry>, e: Entry, seen: map<Race, Entry>, a: Audit, after: Audit)
    requires SeenFirsts(entries, seen) && Audited(entries, a) && e.race in seen
    requires after.firsts == a.firsts
    requires after.variants == if !SameText(seen[e.race].sources, e.sources) then a.variants + {e.race} else a.variants
    requires after.conflicts == if !SameText(seen[e.race].rest, e.rest) then a.conflicts + {e.race} else a.conflicts
    requires after.duplicates == if SameText(seen[e.race].rest, e.rest) then a.duplicates + 1 else a.duplicates
    ensures SeenFirsts(entries + [e], seen) && Audited(entries + [e], after)
  {
    var first := FirstSeen(entries, seen, e.race);
    assert Firsts(entries + [e], SameRace()) == Firsts(entries, SameRace()) by {
      AppendFirsts(entries, e);
    }
    assert Identical(entries + [e]) == after.duplicates by {
      AppendIdentical(entries, e);
    }
    FlaggedAgain(entries, e, first, a.conflicts, a.variants, after.conflicts, after.variants);
    SeenMore(entries, e, seen);
  }

  lemma FlaggedAgain(entries: seq<Entry>, e: Entry, first: nat, conflicts: set<Race>, variants: set<Race>,
                     conflictsAfter: set<Race>, variantsAfter: set<Race>)
    requires Flagged(entries, conflicts, variants) && first < |entries| && FirstAt(entries, first, e.race)
    requires forall i :: 0 <= i < |entries| && FirstAt(entries, i, e.race) ==> i == first
    requires variantsAfter == if !SameText(entries[first].sources, e.sources) then variants + {e.race} else variants
    requires conflictsAfter == if !SameText(entries[first].rest, e.rest) then conflicts + {e.race} else conflicts
    ensures Flagged(entries + [e], conflictsAfter, variantsAfter)
  {
    forall race {
      ConflictsAgain(entries, e, first, race);
    }
  }

  /** `audit`: problems, the first record of each race, and what later ones say against or beside it. */
  method AuditRecords(records: seq<Record>) returns (a: Audit)
    ensures Audited(Entries(records), a) && a.invalid == Invalid(records)
  {
    var seen: map<Race, Entry> := map[];
    a := Audit(0, [], {}, {}, 0);
    for i := 0 to |records|
      invariant SeenFirsts(Entries(records[..i]), seen) && Audited(Entries(records[..i]), a)
      invariant a.invalid == Invalid(records[..i])
    {
      assert records[..i + 1][..i] == records[..i] && records[..i + 1][i] == records[i];
      assert Entries(records[..i + 1]) == Entries(records[..i]) + (if records[i].Known? then [records[i].entry] else []);
      match records[i] {
        case Known(entry) => seen, a := TakeEntry(Entries(records[..i]), entry, seen, a);
        case _ =>
          assert Entries(records[..i + 1]) == Entries(records[..i]);
          a := a.(invalid := a.invalid + 1);
      }
    }
    assert records[..|records|] == records;
  }

  method TakeEntry(ghost entries: seq<Entry>, e: Entry, seen: map<Race, Entry>, a: Audit)
    returns (seenAfter: map<Race, Entry>, after: Audit)
    requires SeenFirsts(entries, seen) && Audited(entries, a)
    ensures SeenFirsts(entries + [e], seenAfter) && Audited(entries + [e], after) && after.invalid == a.invalid
  {
    if e.race !in seen {
      AuditNew(entries, e, seen, a);
      return seen[e.race := e], a.(firsts := a.firsts + [e]);
    }
    var first := seen[e.race];
    after := a;
    if !SameText(first.sources, e.sources) {
      after := after.(variants := after.variants + {e.race});
    }
    if SameText(first.rest, e.rest) {
      after := after.(duplicates := after.duplicates + 1);
    } else {
      after := after.(conflicts := after.conflicts + {e.race});
    }
    AuditAgain(entries, e, seen, a, after);
    seenAfter := seen;
  }

  // ----- partitions

  datatype Plan = Plan(train: seq<Entry>, validation: seq<Entry>, test: seq<Entry>, excluded: seq<Option<Race>>)

  /** The digest of a record; taking it raises where there is no canonical text. */
  function DigestOf(e: Entry): Option<Digest> {
    if e.sources.Some? && e.rest.Some? then Some(Digest(RaceKey(e.race), e.sources.value, e.rest.value)) else None
  }

  /** Some review attests this very record. */
  predicate Reviewed(reviews: seq<Review>, e: Entry) {
    exists i :: 0 <= i < |reviews| && Attests(reviews[i], e)
  }

  predicate Attests(review: Review, e: Entry) {
    review.Review? && review.key == RaceKey(e.race) && review.attested && review.of.Some? && review.of == DigestOf(e)
  }

  /** Reviews that can be used: each names a race, and no race is named twice. */
  predicate ReviewsUsable(reviews: seq<Review>) {
    && (forall i :: 0 <= i < |reviews| ==> reviews[i].Review?)
    && (forall i, j :: 0 <= i < j < |reviews| ==> reviews[i].key != reviews[j].key)
  }

  /** What is read of one plan: the records with a race id, their reviews, and the two boundaries. */
  datatype Given = Given(entries: seq<Entry>, reviews: seq<Review>, validationStart: int, testStart: int)

  /** A record that may be used: nothing against it, reviewed as it is, and its times in order. */
  ghost predicate Usable(e: Entry, g: Given) {
    && e.readable && e.sound && Reviewed(g.reviews, e) && e.feature < e.start <= e.result
    && !Conflicts(g.entries, e.race) && !SourcesVary(g.entries, e.race)
  }

  datatype Place = Train | Validation | Test | Out

  /** Where a usable record goes: by the time of its features, unless its label is not available in time. */
  function PlaceByTime(e: Entry, validationStart: int, testStart: int): Place {
    if e.feature < validationStart then (if e.result >= validationStart then Out else Train)
    else if e.feature < testStart then (if e.result >= testStart then Out else Validation)
    else Test
  }

  ghost function PlaceOf(e: Entry, g: Given): Place {
    if Usable(e, g) then PlaceByTime(e, g.validationStart, g.testStart) else Out
  }

  /** A usable record is used exactly where both its features and its label belong; straddling a boundary puts it out. */
  lemma PlacedExactly(e: Entry, g: Given)
    requires g.validationStart < g.testStart
    ensures PlaceOf(e, g) == Train <==> Usable(e, g) && e.feature < g.validationStart && e.result < g.validationStart
    ensures PlaceOf(e, g) == Validation <==>
              Usable(e, g) && g.validationStart <= e.feature < g.testStart && e.result < g.testStart
    ensures PlaceOf(e, g) == Test <==> Usable(e, g) && g.testStart <= e.feature
    ensures PlaceOf(e, g) == Out <==>
              !Usable(e, g) || (e.feature < g.validationStart <= e.result)
              || (g.validationStart <= e.feature < g.testStart <= e.result)
  {
  }

  /**
   A record is usable exactly when nothing speaks against it, every other record of its race agrees
   with the first in all it says, and some attested review was made of exactly what it says.
   */
  lemma UsableExactly(e: Entry, g: Given, first: nat)
    requires FirstAt(g.entries, first, e.race)
    ensures Usable(e, g) <==>
              && e.readable && e.sound && e.feature < e.start <= e.result
              && e.sources.Some? && e.rest.Some?
              && Review(RaceKey(e.race), Some(Digest(RaceKey(e.race), e.sources.value, e.rest.value)), true) in g.reviews
              && forall j :: first < j < |g.entries| && g.entries[j].race == e.race ==>
                   && g.entries[first].rest.Some? && g.entries[j].rest == g.entries[first].rest
                   && g.entries[first].sources.Some? && g.entries[j].sources == g.entries[first].sources
  {
    forall i | FirstAt(g.entries, i, e.race) ensures i == first {
      FirstIsOne(g.entries, i, first, e.race);
    }
    if Reviewed(g.reviews, e) {
      var i :| 0 <= i < |g.reviews| && Attests(g.reviews[i], e);
      assert g.reviews[i] == Review(RaceKey(e.race), DigestOf(e), true);
    }
  }

  /** Each of the first `k` intake items is in exactly the place it belongs to. */
  ghost predicate Placed(firsts: seq<Entry>, k: nat, g: Given, invalid: nat, plan: Plan) {
    && k <= |firsts|
    && (forall e :: e in plan.train <==> e in firsts[..k] && PlaceOf(e, g) == Train)
    && (forall e :: e in plan.validation <==> e in firsts[..k] && PlaceOf(e, g) == Validation)
    && (forall e :: e in plan.test <==> e in firsts[..k] && PlaceOf(e, g) == Test)
    && (forall race: Race :: Some(race) in plan.excluded <==>
          exists i :: 0 <= i < k && firsts[i].race == race && PlaceOf(firsts[i], g) == Out)
    && |plan.train| + |plan.validation| + |plan.test| + |plan.excluded| == invalid + k
  }

  /** Labels of earlier partitions are available before the features of later ones. */
  ghost predicate NoLeak(plan: Plan) {
    && (forall a, b :: a in plan.train && b in plan.validation + plan.test ==> a.result < b.feature)
    && (forall a, b :: a in plan.validation && b in plan.test ==> a.result < b.feature)
  }

  lemma PlacedDoesNotLeak(firsts: seq<Entry>, g: Given, invalid: nat, plan: Plan)
    requires Placed(firsts, |firsts|, g, invalid, plan) && g.validationStart < g.testStart
    ensures NoLeak(plan)
  {
  }

  lemma PlaceOneMore(firsts: seq<Entry>, k: nat, g: Given, invalid: nat, plan: Plan, after: Plan)
    requires Placed(firsts, k, g, invalid, plan) && k < |firsts|
    requires after == match PlaceOf(firsts[k], g)
                      case Train => plan.(train := plan.train + [firsts[k]])
                      case Validation => plan.(validation := plan.validation + [firsts[k]])
                      case Test => plan.(test := plan.test + [firsts[k]])
                      case Out => plan.(excluded := plan.excluded + [Some(firsts[k].race)])
    ensures Placed(firsts, k + 1, g, invalid, after)
  {
    assert firsts[..k + 1] == firsts[..k] + [firsts[k]];
  }

  /** The reviews by the race they name, as far as they have been read. */
  ghost predicate ReviewsRead(reviews: seq<Review>, byRace: map<Key, Review>) {
    && ReviewsUsable(reviews)
    && (forall key :: key in byRace ==> byRace[key] in reviews && byRace[key].Review? && byRace[key].key == key)
    && (forall i :: 0 <= i < |reviews| ==> reviews[i].key in byRace && byRace[reviews[i].key] == reviews[i])
  }

  lemma ReadOneReview(reviews: seq<Review>, review: Review, byRace: map<Key, Review>)
    requires ReviewsRead(reviews, byRace) && review.Review? && review.key !in byRace
    ensures ReviewsRead(reviews + [review], byRace[review.key := review])
  {
    var more := reviews + [review];
    assert more[|reviews|] == review;
    forall r | r in reviews ensures r in more {
      var i :| 0 <= i < |reviews| && reviews[i] == r;
      assert more[i] == r;
    }
  }

  /** The dictionary of reviews; a list naming a race twice, or with anything else in it, is refused. */
  method ReadReviews(reviews: seq<Review>) returns (byRace: Option<map<Key, Review>>)
    ensures byRace.Some? <==> ReviewsUsable(reviews)
    ensures byRace.Some? ==> ReviewsRead(reviews, byRace.value)
  {
    var read: map<Key, Review> := map[];
    for i := 0 to |reviews|
      invariant ReviewsRead(reviews[..i], read)
    {
      if !reviews[i].Review? {
        return None;
      }
      if reviews[i].key in read {
        var j :| 0 <= j < i && reviews[..i][j] == read[reviews[i].key];
        assert reviews[j].key == reviews[i].key;
        return None;
      }
      ReadOneReview(reviews[..i], reviews[i], read);
      assert reviews[..i + 1] == reviews[..i] + [reviews[i]];
      read := read[reviews[i].key := reviews[i]];
    }
    assert reviews[..|reviews|] == reviews;
    return Some(read);
  }

  lemma ReviewFound(reviews: seq<Review>, byRace: map<Key, Review>, e: Entry)
    requires ReviewsRead(reviews, byRace)
    ensures Reviewed(reviews, e) <==> RaceKey(e.race) in byRace && Attests(byRace[RaceKey(e.race)], e)
  {
    if RaceKey(e.race) in byRace && Attests(byRace[RaceKey(e.race)], e) {
      var i :| 0 <= i < |reviews| && reviews[i] == byRace[RaceKey(e.race)];
      assert Attests(reviews[i], e);
    }
  }

  /** One intake item: what speaks against it, or where its times put it. */
  method PlaceItem(e: Entry, intake: Audit, byRace: map<Key, Review>, validationStart: int, testStart: int, ghost g: Given)
    returns (place: Place)
    requires validationStart == g.validationStart && testStart == g.testStart
    requires Audited(g.entries, intake) && ReviewsRead(g.reviews, byRace)
    ensures place == PlaceOf(e, g)
  {
    ReviewFound(g.reviews, byRace, e);
    var reviewed := RaceKey(e.race) in byRace && Attests(byRace[RaceKey(e.race)], e);
    if !e.readable || !e.sound || !reviewed || !(e.feature < e.start <= e.result)
       || e.race in intake.conflicts || e.race in intake.variants {
      return Out;
    }
    return PlaceByTime(e, validationStart, testStart);
  }

  /**
   `prepare` up to the final sorting of each partition. It plans exactly for boundaries in order
   and usable reviews; each item is in exactly the place it belongs to, and no label leaks.
   */
  method PreparePlan(records: seq<Record>, reviews: seq<Review>, validationStart: int, testStart: int)
    returns (plan: Option<Plan>)
    ensures plan.Some? <==> validationStart < testStart && ReviewsUsable(reviews)
    ensures plan.Some? ==> Planned(records, reviews, validationStart, testStart, plan.value) && NoLeak(plan.value)
  {
    if validationStart >= testStart {
      return None;
    }
    var intake := AuditRecords(records);
    var byRace := ReadReviews(reviews);
    if byRace.None? {
      return None;
    }
    ghost var g := Given(Entries(records), reviews, validationStart, testStart);
    var p := Plan([], [], [], seq(intake.invalid, i => None));
    for k := 0 to |intake.firsts|
      invariant Placed(intake.firsts, k, g, intake.invalid, p)
    {
      ghost var before := p;
      var e := intake.firsts[k];
      var place := PlaceItem(e, intake, byRace.value, validationStart, testStart, g);
      match place {
        case Train => p := p.(train := p.train + [e]);
        case Validation => p := p.(validation := p.validation + [e]);
        case Test => p := p.(test := p.test + [e]);
        case Out => p := p.(excluded := p.excluded + [Some(e.race)]);
      }
      PlaceOneMore(intake.firsts, k, g, intake.invalid, before, p);
    }
    PlacedDoesNotLeak(intake.firsts, g, intake.invalid, p);
    return Some(p);
  }

  /** The first record of each race is in exactly the place it belongs to, and the invalid ones are excluded. */
  ghost predicate Planned(records: seq<Record>, reviews: seq<Review>, validationStart: int, testStart: int, plan: Plan) {
    var firsts := Firsts(Entries(records), SameRace());
    Placed(firsts, |firsts|, Given(Entries(records), reviews, validationStart, testStart), Invalid(records), plan)
  }

  // ----- accounting of a preparation report

  ghost predicate NoRaceTwice(records: seq<Record>) {
    forall i, j :: 0 <= i < j < |records| && records[i].Known? && records[j].Known? ==> records[i].entry.race != records[j].entry.race
  }

  lemma {:induction false} EntriesCount(records: seq<Record>)
    ensures Invalid(records) + |Entries(records)| == |records|
    decreases |records|
  {
    if records != [] {
      EntriesCount(records[..|records| - 1]);
    }
  }

  lemma {:induction false} EntriesOf(records: seq<Record>, e: Entry)
    ensures e in Entries(records) <==> Known(e) in records
    decreases |records|
  {
    if records != [] {
      EntriesOf(records[..|records| - 1], e);
      assert records == records[..|records| - 1] + [records[|records| - 1]];
    }
  }

  lemma RaceOccurs(records: seq<Record>, race: Race)
    ensures RaceIn(Entries(records), race) <==> exists i :: 0 <= i < |records| && records[i].Known? && records[i].entry.race == race
  {
    var entries := Entries(records);
    if j :| 0 <= j < |entries| && entries[j].race == race {
      EntriesOf(records, entries[j]);
      assert entries[j] in entries;
      var i :| 0 <= i < |records| && records[i] == Known(entries[j]);
    }
    if i :| 0 <= i < |records| && records[i].Known? && records[i].entry.race == race {
      EntriesOf(records, records[i].entry);
      assert records[i] in records;
      var j :| 0 <= j < |entries| && entries[j] == records[i].entry;
    }
  }

  lemma RepetitionsOneMore(entries: seq<Entry>, e: Entry)
    ensures Repetitions(entries + [e], SameRace()) == Repetitions(entries, SameRace()) + (if RaceIn(entries, e.race) then 1 else 0)
  {
    RepeatIsRaceIn(entries, e);
    assert (entries + [e])[..|entries|] == entries;
  }

  lemma NoRaceTwiceOneMore(records: seq<Record>)
    requires records != []
    ensures var n := |records| - 1;
            NoRaceTwice(records) <==>
              NoRaceTwice(records[..n]) && (records[n].Known? ==> !RaceIn(Entries(records[..n]), records[n].entry.race))
  {
    var n := |records| - 1;
    assert forall i :: 0 <= i < n ==> records[..n][i] == records[i];
    if records[n].Known? {
      RaceOccurs(records[..n], records[n].entry.race);
    }
  }

  /** Entries repeat nothing exactly when no race id occurs twice. */
  lemma {:induction false} NoRaceTwiceMeans(records: seq<Record>)
    ensures NoRaceTwice(records) <==> Repetitions(Entries(records), SameRace()) == 0
    decreases |records|
  {
    if records != [] {
      var n := |records| - 1;
      NoRaceTwiceMeans(records[..n]);
      NoRaceTwiceOneMore(records);
      if records[n].Known? {
        RepetitionsOneMore(Entries(records[..n]), records[n].entry);
      } else {
        assert Entries(records) == Entries(records[..n]);
      }
    }
  }

  function Accounted(plan: Plan): nat {
    |plan.train| + |plan.validation| + |plan.test| + |plan.excluded|
  }

  /** The prepared and excluded records are all the converted ones exactly when no race id occurs twice. */
  lemma AccountedExactly(records: seq<Record>, reviews: seq<Review>, validationStart: int, testStart: int, plan: Plan)
    requires Planned(records, reviews, validationStart, testStart, plan)
    ensures Accounted(plan) == |records| <==> NoRaceTwice(records)
  {
    EntriesCount(records);
    KeptAndRemoved(Entries(records), SameRace());
    NoRaceTwiceMeans(records);
  }

  function KeyOf(record: Record): Key
    requires !record.NotARecord?
  {
    if record.Known? then RaceKey(record.entry.race) else OtherKey(record.other)
  }

  function RecordDigest(record: Record): Option<Digest> {
    match record
    case NotARecord => None
    case NoRaceId(other, text) => if text.Some? then Some(Digest(OtherKey(other), 0, text.value)) else None
    case Known(entry) => DigestOf(entry)
  }

  /** Each record has a key and a digest of its own. */
  ghost predicate Digestible(records: seq<Record>) {
    forall i :: 0 <= i < |records| ==> !records[i].NotARecord? && RecordDigest(records[i]).Some?
  }

  ghost predicate KeysDiffer(records: seq<Record>)
    requires Digestible(records)
  {
    forall i, j :: 0 <= i < j < |records| ==> KeyOf(records[i]) != KeyOf(records[j])
  }

  ghost predicate KeyAmong(records: seq<Record>, key: Key)
    requires Digestible(records)
  {
    exists i :: 0 <= i < |records| && KeyOf(records[i]) == key
  }

  /** Each record's digest is under its key. */
  ghost predicate DigestsUnder(records: seq<Record>, hashes: map<Key, Digest>)
    requires Digestible(records)
  {
    forall i :: 0 <= i < |records| ==>
      KeyOf(records[i]) in hashes && hashes[KeyOf(records[i])] == RecordDigest(records[i]).value
  }

  /** The recorded digests are those of the records, one for each and no others. */
  ghost predicate RecordsMatch(records: seq<Record>, recorded: map<Key, Digest>)
    requires Digestible(records)
  {
    DigestsUnder(records, recorded) && forall key :: key in recorded ==> KeyAmong(records, key)
  }

  /** The dictionary of digests built so far; it has fewer entries than records where a key repeats. */
  ghost predicate Digested(records: seq<Record>, hashes: map<Key, Digest>)
    requires Digestible(records)
  {
    && |hashes| <= |records| && (|hashes| == |records| <==> KeysDiffer(records))
    && (forall key :: key in hashes <==> KeyAmong(records, key))
    && (KeysDiffer(records) ==> DigestsUnder(records, hashes))
  }

  lemma KeysOneMore(records: seq<Record>, record: Record)
    requires Digestible(records) && !record.NotARecord? && RecordDigest(record).Some?
    ensures Digestible(records + [record])
    ensures KeysDiffer(records + [record]) <==> KeysDiffer(records) && !KeyAmong(records, KeyOf(record))
    ensures forall key :: KeyAmong(records + [record], key) <==> KeyAmong(records, key) || key == KeyOf(record)
  {
    var more := records + [record];
    assert more[|records|] == record && forall i :: 0 <= i < |records| ==> more[i] == records[i];
    forall key | KeyAmong(records, key) ensures KeyAmong(more, key) {
      var i :| 0 <= i < |records| && KeyOf(records[i]) == key;
      assert KeyOf(more[i]) == key;
    }
    if i :| 0 <= i < |records| && KeyOf(records[i]) == KeyOf(record) {
      assert KeyOf(more[i]) == KeyOf(more[|records|]);
    }
    if KeysDiffer(more) {
      forall i, j | 0 <= i < j < |records| ensures KeyOf(records[i]) != KeyOf(records[j]) {
        assert KeyOf(more[i]) != KeyOf(more[j]);
      }
    }
  }

  lemma DigestsOneMore(records: seq<Record>, record: Record, hashes: map<Key, Digest>)
    requires Digestible(records) && DigestsUnder(records, hashes) && !record.NotARecord? && RecordDigest(record).Some?
    requires !KeyAmong(records, KeyOf(record)) && Digestible(records + [record])
    ensures DigestsUnder(records + [record], hashes[KeyOf(record) := RecordDigest(record).value])
  {
  }

  lemma DigestOneMore(records: seq<Record>, record: Record, hashes: map<Key, Digest>)
    requires Digestible(records) && Digested(records, hashes) && !record.NotARecord? && RecordDigest(record).Some?
    ensures Digestible(records + [record])
    ensures Digested(records + [record], hashes[KeyOf(record) := RecordDigest(record).value])
  {
    var after := hashes[KeyOf(record) := RecordDigest(record).value];
    KeysOneMore(records, record);
    assert after.Keys == hashes.Keys + {KeyOf(record)};
    assert |after| == |after.Keys| && |hashes| == |hashes.Keys|;
    if KeysDiffer(records + [record]) {
      DigestsOneMore(records, record, hashes);
    }
  }

  /** `{r["race_id"]: digest(r) for r in rows}`, which raises on a row without an id or a canonical text. */
  method DigestAll(records: seq<Record>) returns (hashes: Option<map<Key, Digest>>)
    ensures hashes.Some? <==> Digestible(records)
    ensures hashes.Some? ==> Digested(records, hashes.value)
  {
    var built: map<Key, Digest> := map[];
    for i := 0 to |records|
      invariant Digestible(records[..i]) && Digested(records[..i], built)
    {
      var digest := RecordDigest(records[i]);
      if records[i].NotARecord? || digest.None? {
        return None;
      }
      assert records[..i + 1] == records[..i] + [records[i]];
      DigestOneMore(records[..i], records[i], built);
      built := built[KeyOf(records[i]) := digest.value];
    }
    assert records[..|records|] == records;
    return Some(built);
  }

  lemma DigestsMatch(records: seq<Record>, hashes: map<Key, Digest>, recorded: map<Key, Digest>)
    requires Digestible(records) && KeysDiffer(records) && Digested(records, hashes)
    ensures recorded == hashes <==> RecordsMatch(records, recorded)
  {
    if RecordsMatch(records, recorded) {
      forall key ensures key in recorded <==> key in hashes {
      }
      forall key | key in recorded ensures recorded[key] == hashes[key] {
        var i :| 0 <= i < |records| && KeyOf(records[i]) == key;
      }
    }
  }

  /** A report is made exactly of records whose digests are the recorded ones, one race each, and usable reviews. */
  ghost predicate Reportable(records: seq<Record>, recorded: map<Key, Digest>, reviews: seq<Review>, v: int, t: int) {
    && Digestible(records) && KeysDiffer(records) && RecordsMatch(records, recorded)
    && v < t && ReviewsUsable(reviews)
  }

  /** `expected_report`. Whatever report is made, its accounting adds up and nothing leaks. */
  method ExpectedReport(records: seq<Record>, recorded: map<Key, Digest>, reviews: seq<Review>,
                        validationStart: int, testStart: int) returns (plan: Option<Plan>)
    ensures plan.Some? <==> Reportable(records, recorded, reviews, validationStart, testStart)
    ensures plan.Some? ==> Planned(records, reviews, validationStart, testStart, plan.value)
    ensures plan.Some? ==> Accounted(plan.value) == |records| && NoLeak(plan.value)
  {
    var hashes := DigestAll(records);
    if hashes.None? || |hashes.value| != |records| {
      return None;
    }
    DigestsMatch(records, hashes.value, recorded);
    if recorded != hashes.value {
      return None;
    }
    forall i, j | 0 <= i < j < |records| && records[i].Known? && records[j].Known?
      ensures records[i].entry.race != records[j].entry.race
    {
      assert KeyOf(records[i]) != KeyOf(records[j]);
    }
    plan := PreparePlan(records, reviews, validationStart, testStart);
    if plan.Some? {
      AccountedExactly(records, reviews, validationStart, testStart, plan.value);
    }
  }
}
