/**
 Bundling private race histories: collect the records of any nesting of exports and bundles,
 drop exact duplicates by canonical text, and count what was dropped.
 */
module HistoryBundle {
  import opened CredentialIdentity
  import opened CanonicalJson
  import opened FirstOccurrences

  const MODE: Text := [109, 111, 100, 101]                                              // "mode"
  const DRY_RUN: Text := [100, 114, 121, 95, 114, 117, 110]                             // "dry_run"
  const PAYLOAD: Text := [112, 97, 121, 108, 111, 97, 100]                              // "payload"
  const RECORDS: Text := [114, 101, 99, 111, 114, 100, 115]                             // "records"
  const HISTORY_RECORD: Text := [104, 105, 115, 116, 111, 114, 121, 95] + [114, 101, 99, 111, 114, 100] // "history_record"
  const RACE_ID: Text := [114, 97, 99, 101, 95, 105, 100]                               // "race_id"
  const PRIVATE_BUNDLE: Text := [112, 114, 105, 118, 97, 116, 101, 95] + [98, 117, 110, 100, 108, 101] // "private_bundle"

  /** What `recordsFromJson` sees in an object: something to descend into, a record, or nothing. */
  datatype View = Descend(into: Json) | Record | Nothing

  predicate IsObject(v: Json) {
    v.Arr? || v.Obj?
  }

  predicate Has(ms: seq<Member>, key: Text, v: Json) {
    HasKey(ms, key) && Lookup(ms, key) == v
  }

  function ViewOf(ms: seq<Member>): (r: View)
    ensures r.Descend? ==> exists i :: 0 <= i < |ms| && ms[i].value == r.into
  {
    if Has(ms, MODE, Str(DRY_RUN)) && HasKey(ms, PAYLOAD) && IsObject(Lookup(ms, PAYLOAD)) then Descend(Lookup(ms, PAYLOAD))
    else if HasKey(ms, RECORDS) && Lookup(ms, RECORDS).Arr? then Descend(Lookup(ms, RECORDS))
    else if HasKey(ms, HISTORY_RECORD) && IsObject(Lookup(ms, HISTORY_RECORD)) then Descend(Lookup(ms, HISTORY_RECORD))
    else if HasKey(ms, RACE_ID) && Lookup(ms, RACE_ID).Str? then Record
    else Nothing
  }

  function Concat(parts: seq<seq<Json>>): seq<Json> {
    if parts == [] then [] else Concat(parts[..|parts| - 1]) + parts[|parts| - 1]
  }

  /** The records of a value, in the order they stand in it. */
  function RecordsOf(v: Json): seq<Json> {
    match v
    case Arr(items) => Concat(seq(|items|, i requires 0 <= i < |items| => RecordsOf(items[i])))
    case Obj(ms) =>
      (match ViewOf(ms)
       case Descend(inner) => RecordsOf(inner)
       case Record => [v]
       case Nothing => [])
    case _ => []
  }

  function Parts(items: seq<Json>): seq<seq<Json>> {
    seq(|items|, i requires 0 <= i < |items| => RecordsOf(items[i]))
  }

  lemma ConcatOneMore(parts: seq<seq<Json>>, i: nat)
    requires i < |parts|
    ensures Concat(parts[..i + 1]) == Concat(parts[..i]) + parts[i]
  {
    assert parts[..i + 1][..i] == parts[..i];
  }

  /** `recordsFromJson`: the inner `visit` pushes onto the shared list. */
  class Collector {
    var records: seq<Json>

    constructor ()
      ensures records == []
    {
      records := [];
    }

    /** `forEach(visit)`. */
    method VisitAll(list: Json)
      requires list.Arr?
      modifies this
      ensures records == old(records) + RecordsOf(list)
      decreases list, 0
    {
      ghost var parts := Parts(list.items);
      for i := 0 to |list.items|
        invariant records == old(records) + Concat(parts[..i])
      {
        Visit(list.items[i]);
        ConcatOneMore(parts, i);
      }
      assert parts[..|parts|] == parts;
    }

    method Visit(node: Json)
      modifies this
      ensures records == old(records) + RecordsOf(node)
      decreases node, 1
    {
      if node.Arr? {
        VisitAll(node);
        return;
      }
      if !node.Obj? {
        return;
      }
      var ms := node.members;
      if Has(ms, MODE, Str(DRY_RUN)) && HasKey(ms, PAYLOAD) && IsObject(Lookup(ms, PAYLOAD)) {
        Visit(Lookup(ms, PAYLOAD));
      } else if HasKey(ms, RECORDS) && Lookup(ms, RECORDS).Arr? {
        Visit(Lookup(ms, RECORDS));
      } else if HasKey(ms, HISTORY_RECORD) && IsObject(Lookup(ms, HISTORY_RECORD)) {
        Visit(Lookup(ms, HISTORY_RECORD));
      } else if HasKey(ms, RACE_ID) && Lookup(ms, RACE_ID).Str? {
        records := records + [node];
      }
    }
  }

  // ----- what an object is seen as

  lemma {:induction false} LookupExact(ms: seq<Member>, key: Text, v: Json)
    requires DistinctKeys(ms)
    ensures HasKey(ms, key) && Lookup(ms, key) == v <==> Member(key, v) in ms
  {
    if HasKey(ms, key) {
      var i :| 0 <= i < |ms| && ms[i].key == key;
      LookupAt(ms, i);
    }
    if Member(key, v) in ms {
      var i :| 0 <= i < |ms| && ms[i] == Member(key, v);
      LookupAt(ms, i);
    }
  }

  /** An export of a dry run, with its payload. */
  ghost predicate DryRunOf(ms: seq<Member>, payload: Json) {
    Member(MODE, Str(DRY_RUN)) in ms && Member(PAYLOAD, payload) in ms && (payload.Obj? || payload.Arr?)
  }

  ghost predicate BundleOf(ms: seq<Member>, items: seq<Json>) {
    Member(RECORDS, Arr(items)) in ms
  }

  ghost predicate EnvelopeOf(ms: seq<Member>, record: Json) {
    Member(HISTORY_RECORD, record) in ms && (record.Obj? || record.Arr?)
  }

  ghost predicate NamesRace(ms: seq<Member>) {
    exists id :: Member(RACE_ID, Str(id)) in ms
  }

  /** A dry run before a bundle, a bundle before an envelope, an envelope before a record of its own. */
  lemma ViewExact(ms: seq<Member>, into: Json)
    requires DistinctKeys(ms)
    ensures ViewOf(ms) == Descend(into) <==>
              || DryRunOf(ms, into)
              || (into.Arr? && BundleOf(ms, into.items) && !exists p :: DryRunOf(ms, p))
              || (EnvelopeOf(ms, into) && !(exists p :: DryRunOf(ms, p)) && !exists items :: BundleOf(ms, items))
    ensures ViewOf(ms) == Record <==>
              && NamesRace(ms) && !(exists p :: DryRunOf(ms, p)) && !(exists items :: BundleOf(ms, items))
              && !exists r :: EnvelopeOf(ms, r)
  {
    LookupExact(ms, MODE, Str(DRY_RUN));
    forall key, v: Json
      ensures HasKey(ms, key) && Lookup(ms, key) == v <==> Member(key, v) in ms
    {
      LookupExact(ms, key, v);
    }
    ViewParts(ms);
  }

  /** What each test of an object finds. */
  lemma ViewParts(ms: seq<Member>)
    requires DistinctKeys(ms)
    ensures (exists p :: DryRunOf(ms, p)) <==>
              Has(ms, MODE, Str(DRY_RUN)) && HasKey(ms, PAYLOAD) && IsObject(Lookup(ms, PAYLOAD))
    ensures (exists items :: BundleOf(ms, items)) <==> HasKey(ms, RECORDS) && Lookup(ms, RECORDS).Arr?
    ensures (exists r :: EnvelopeOf(ms, r)) <==> HasKey(ms, HISTORY_RECORD) && IsObject(Lookup(ms, HISTORY_RECORD))
    ensures NamesRace(ms) <==> HasKey(ms, RACE_ID) && Lookup(ms, RACE_ID).Str?
  {
    forall key, v: Json
      ensures HasKey(ms, key) && Lookup(ms, key) == v <==> Member(key, v) in ms
    {
      LookupExact(ms, key, v);
    }
    if HasKey(ms, RECORDS) && Lookup(ms, RECORDS).Arr? {
      assert BundleOf(ms, Lookup(ms, RECORDS).items);
    }
    if Has(ms, MODE, Str(DRY_RUN)) && HasKey(ms, PAYLOAD) && IsObject(Lookup(ms, PAYLOAD)) {
      assert DryRunOf(ms, Lookup(ms, PAYLOAD));
    }
    if HasKey(ms, HISTORY_RECORD) && IsObject(Lookup(ms, HISTORY_RECORD)) {
      assert EnvelopeOf(ms, Lookup(ms, HISTORY_RECORD));
    }
    if HasKey(ms, RACE_ID) && Lookup(ms, RACE_ID).Str? {
      assert Member(RACE_ID, Str(Lookup(ms, RACE_ID).text)) in ms;
    }
  }

  // ----- what is collected

  predicate IsRecord(v: Json) {
    v.Obj? && ViewOf(v.members).Record?
  }

  lemma {:induction false} ConcatMember(parts: seq<seq<Json>>, r: Json)
    ensures r in Concat(parts) <==> exists i :: 0 <= i < |parts| && r in parts[i]
    decreases |parts|
  {
    if parts != [] {
      var n := |parts| - 1;
      ConcatMember(parts[..n], r);
      assert forall i :: 0 <= i < n ==> parts[..n][i] == parts[i];
    }
  }

  /** Only objects with a text race id that wrap nothing else are collected, and they stay well formed. */
  lemma {:induction false} CollectedAreRecords(v: Json, r: Json)
    requires Valid(v) && r in RecordsOf(v)
    ensures IsRecord(r) && Valid(r) && RecordsOf(r) == [r]
    decreases v
  {
    match v
    case Arr(items) =>
      ConcatMember(Parts(items), r);
      var i :| 0 <= i < |items| && r in Parts(items)[i];
      CollectedAreRecords(items[i], r);
    case Obj(ms) =>
      if ViewOf(ms).Descend? {
        CollectedAreRecords(ViewOf(ms).into, r);
      }
  }

  lemma {:induction false} RecordsCollectThemselves(records: seq<Json>)
    requires forall i :: 0 <= i < |records| ==> RecordsOf(records[i]) == [records[i]]
    ensures RecordsOf(Arr(records)) == records
    decreases |records|
  {
    if records != [] {
      var n := |records| - 1;
      RecordsCollectThemselves(records[..n]);
      assert Parts(records)[..n] == Parts(records[..n]);
      assert records == records[..n] + [records[n]];
    }
  }

  // ----- exact duplicates

  /** Records are exact duplicates when they are the same up to key order, as printed. */
  ghost function SameRecord(): (Json, Json) -> bool {
    (a, b) => Same(a, b, true)
  }

  ghost predicate AllValid(records: seq<Json>) {
    forall i :: 0 <= i < |records| ==> Valid(records[i])
  }

  ghost predicate SeenSoFar(records: seq<Json>, i: nat, seen: set<Text>)
    requires AllValid(records)
  {
    i <= |records| && forall t :: t in seen <==> exists j :: 0 <= j < i && Canonical(records[j]) == t
  }

  lemma SameRecordEquivalence(records: seq<Json>)
    requires AllValid(records)
    ensures EquivalenceOn(records, SameRecord())
  {
    forall i, j | 0 <= i < |records| && 0 <= j < |records|
      ensures SameRecord()(records[i], records[j]) <==> Canonical(records[i]) == Canonical(records[j])
    {
      CanonicalExact(records[i], records[j]);
    }
  }

  lemma SeenIsRepeat(records: seq<Json>, i: nat, seen: set<Text>)
    requires AllValid(records) && SeenSoFar(records, i, seen) && i < |records|
    ensures Canonical(records[i]) in seen <==> Repeats(records, i, SameRecord())
  {
    forall j | 0 <= j < i
      ensures Canonical(records[j]) == Canonical(records[i]) <==> SameRecord()(records[j], records[i])
    {
      CanonicalExact(records[j], records[i]);
    }
  }

  /** `dedupeExact`: keeps exactly the first record of each class, in order. */
  method DedupeExact(records: seq<Json>) returns (unique: seq<Json>)
    requires AllValid(records)
    ensures unique == Firsts(records, SameRecord())
  {
    var seen: set<Text> := {};
    unique := [];
    for i := 0 to |records|
      invariant SeenSoFar(records, i, seen) && unique == Firsts(records[..i], SameRecord())
    {
      var key := Canonical(records[i]);
      SeenIsRepeat(records, i, seen);
      FirstsOneMore(records, i, SameRecord());
      if key in seen {
        SeenAgain(records, i, seen);
        continue;
      }
      SeenOneMore(records, i, seen);
      seen := seen + {key};
      unique := unique + [records[i]];
    }
    assert records[..|records|] == records;
  }

  lemma SeenOneMore(records: seq<Json>, i: nat, seen: set<Text>)
    requires AllValid(records) && SeenSoFar(records, i, seen) && i < |records|
    ensures SeenSoFar(records, i + 1, seen + {Canonical(records[i])})
  {
  }

  lemma SeenAgain(records: seq<Json>, i: nat, seen: set<Text>)
    requires AllValid(records) && SeenSoFar(records, i, seen) && i < |records| && Canonical(records[i]) in seen
    ensures SeenSoFar(records, i + 1, seen)
  {
    SeenOneMore(records, i, seen);
    assert seen + {Canonical(records[i])} == seen;
  }

  // ----- the bundle

  datatype Bundle = Bundle(records: seq<Json>, inputCount: nat, recordCount: nat, removed: nat)

  /** `buildBundle`: the creation time is refused when it cannot be read. */
  method BuildBundle(values: Json, created: Option<int>) returns (r: Option<Bundle>)
    requires Valid(values)
    ensures r.Some? <==> created.Some?
    ensures r.Some? ==>
              && r.value.records == Firsts(RecordsOf(values), SameRecord())
              && r.value.inputCount == |RecordsOf(values)| == r.value.recordCount + r.value.removed
              && r.value.recordCount == |r.value.records| && r.value.removed == Repetitions(RecordsOf(values), SameRecord())
  {
    var collector := new Collector();
    collector.Visit(if values.Arr? then values else Arr([values]));
    CollectedOfOne(values);
    var flattened := collector.records;
    CollectedValid(values);
    var records := DedupeExact(flattened);
    KeptAndRemoved(flattened, SameRecord());
    if created.None? {
      return None;
    }
    return Some(Bundle(records, |flattened|, |records|, |flattened| - |records|));
  }

  lemma CollectedOfOne(v: Json)
    ensures RecordsOf(Arr([v])) == RecordsOf(v)
  {
    var parts := Parts([v]);
    assert parts == [RecordsOf(v)];
    assert Concat(parts[..0]) == [];
  }

  lemma CollectedValid(v: Json)
    requires Valid(v)
    ensures AllValid(RecordsOf(v))
  {
    forall i | 0 <= i < |RecordsOf(v)| ensures Valid(RecordsOf(v)[i]) {
      CollectedAreRecords(v, RecordsOf(v)[i]);
    }
  }

  /** The bundle as written: a dry-run wrapper around the kept records, and a header. */
  function Written(records: seq<Json>, header: Json): Json {
    Obj([Member(MODE, Str(DRY_RUN)), Member(PAYLOAD, Obj([Member(RECORDS, Arr(records))])), Member(PRIVATE_BUNDLE, header)])
  }

  lemma WrittenHoldsItsRecords(records: seq<Json>, header: Json)
    ensures RecordsOf(Written(records, header)) == RecordsOf(Arr(records))
  {
    var payload := Obj([Member(RECORDS, Arr(records))]);
    var ms := Written(records, header).members;
    assert ms[0].key == MODE && ms[1].key == PAYLOAD && ms[1].key != ms[0].key;
    assert Lookup(ms, MODE) == Str(DRY_RUN);
    assert ms[1..][0] == ms[1];
    assert HasKey(ms, PAYLOAD) && Lookup(ms, PAYLOAD) == payload;
    assert payload.members[0].key == RECORDS;
    assert HasKey(payload.members, RECORDS) && Lookup(payload.members, RECORDS) == Arr(records);
    assert !HasKey(payload.members, MODE) by {
      assert |MODE| != |RECORDS|;
    }
    assert ViewOf(payload.members) == Descend(Arr(records));
    assert ViewOf(ms) == Descend(payload);
  }

  ghost predicate OnlyMatch(kept: seq<Json>, k: nat, r: Json)
    requires k < |kept|
  {
    Same(kept[k], r, true) && forall m :: 0 <= m < |kept| && Same(kept[m], r, true) ==> m == k
  }

  /** Every record given has the same value as exactly one kept record. */
  lemma EachRecordKeptOnce(values: Json, r: Json) returns (k: nat)
    requires Valid(values) && r in RecordsOf(values)
    ensures k < |Firsts(RecordsOf(values), SameRecord())| && OnlyMatch(Firsts(RecordsOf(values), SameRecord()), k, r)
  {
    var records := RecordsOf(values);
    var kept := Firsts(records, SameRecord());
    CollectedValid(values);
    SameRecordEquivalence(records);
    FirstsCover(records, SameRecord());
    FirstsDiffer(records, SameRecord());
    var i :| 0 <= i < |records| && records[i] == r;
    assert Covered(kept, records[i], SameRecord());
    k :| 0 <= k < |kept| && SameRecord()(kept[k], r);
    forall m | 0 <= m < |kept| && Same(kept[m], r, true) ensures m == k {
      OneOfAClass(records, kept, k, m, r);
    }
  }

  lemma OneOfAClass(records: seq<Json>, kept: seq<Json>, k: nat, m: nat, r: Json)
    requires AllValid(records) && r in records && k < |kept| && m < |kept|
    requires (forall x :: x in kept ==> x in records) && forall i :: 0 <= i < |kept| ==> !Repeats(kept, i, SameRecord())
    requires Same(kept[k], r, true) && Same(kept[m], r, true)
    ensures m == k
  {
    assert kept[k] in kept && kept[m] in kept;
    CanonicalExact(kept[k], r);
    CanonicalExact(kept[m], r);
    CanonicalExact(kept[k], kept[m]);
    CanonicalExact(kept[m], kept[k]);
    assert SameRecord()(kept[k], kept[m]) && SameRecord()(kept[m], kept[k]);
    assert !Repeats(kept, k, SameRecord()) && !Repeats(kept, m, SameRecord());
  }

  /** Bundling a written bundle again changes nothing and removes nothing. */
  lemma RebundlingIsStable(values: Json, header: Json)
    requires Valid(values)
    ensures var kept := Firsts(RecordsOf(values), SameRecord()); var again := RecordsOf(Written(kept, header));
            again == kept && Firsts(again, SameRecord()) == kept && Repetitions(again, SameRecord()) == 0
  {
    CollectedValid(values);
    SameRecordEquivalence(RecordsOf(values));
    var kept := Firsts(RecordsOf(values), SameRecord());
    FirstsCover(RecordsOf(values), SameRecord());
    FirstsDiffer(RecordsOf(values), SameRecord());
    forall i | 0 <= i < |kept| ensures RecordsOf(kept[i]) == [kept[i]] {
      assert kept[i] in kept;
      CollectedAreRecords(values, kept[i]);
    }
    RecordsCollectThemselves(kept);
    WrittenHoldsItsRecords(kept, header);
    DifferentAllKept(kept, SameRecord());
  }
}
