/**
 The response shown in the browser: the projection the server makes of a selection, and the
 page's own check of it, written separately in another language.
 */
module PageResponse {
  import opened CredentialIdentity
  import opened FinishOrders
  import HistoricalPayouts
  import opened CategorySelection
  import opened CategoryPicks

  datatype WebPick = WebPick(rank: nat, key: string, p: real, odds: Option<real>)
  datatype WebCategory = WebCategory(name: string, status: Status, note: Option<string>, picks: seq<WebPick>)
  datatype Response = Response(riders: nat, known: nat, possible: nat, total: nat, categories: seq<WebCategory>)

  /** The names the server's rules give, and those the page expects. */
  const RULE_NAMES: seq<string> := ["的中率優先", "穴＋バランス", "中穴", "大穴", "超大穴"]
  const PAGE_NAMES: seq<string> := ["的中率優先", "穴＋バランス", "中穴", "大穴", "超大穴"]

  // ----- the page's check

  /** Three different cars of the race, written with hyphens. */
  predicate KeyOk(key: string, riders: nat) {
    match HistoricalPayouts.ParseOrdered(key, 3)
    case Refused => false
    case Accepted(read) => read.literal && forall i :: 0 <= i < |read.cars| ==> read.cars[i] <= riders
  }

  predicate InPageBand(c: nat, odds: real) {
    var low := if c == 1 then 20.0 else if c == 2 then 60.0 else if c == 3 then 100.0 else 500.0;
    var high := if c == 1 then Some(60.0) else if c == 2 then Some(100.0) else if c == 3 then Some(500.0) else None;
    odds >= low && (high.Some? ==> odds < high.value)
  }

  predicate PickOk(p: WebPick, k: nat, c: nat, riders: nat) {
    && p.rank == k + 1 && KeyOk(p.key, riders) && 0.0 <= p.p <= 1.0
    && (p.odds.Some? ==> p.odds.value > 0.0)
    && (c > 0 ==> p.odds.Some? && InPageBand(c, p.odds.value))
  }

  predicate HeadOk(category: WebCategory, c: nat)
    requires c < CATEGORIES
  {
    && category.name == PAGE_NAMES[c] && |category.picks| <= 3
    && category.status == (if |category.picks| == 3 then Complete else if category.picks == [] then Skipped else Partial)
    && (if category.status == Complete then category.note == None
        else category.note.Some? && NonBlank(category.note.value))
  }

  ghost predicate PicksOk(picks: seq<WebPick>, c: nat, riders: nat) {
    && (forall k :: 0 <= k < |picks| ==> PickOk(picks[k], k, c, riders))
    && (forall k :: 0 < k < |picks| ==> picks[k].p <= picks[k - 1].p)
  }

  function AllPicks(categories: seq<WebCategory>): seq<WebPick> {
    if categories == [] then [] else AllPicks(categories[..|categories| - 1]) + categories[|categories| - 1].picks
  }

  ghost predicate KeysDiffer(picks: seq<WebPick>) {
    forall i, j :: 0 <= i < j < |picks| ==> picks[i].key != picks[j].key
  }

  function KnownOdds(picks: seq<WebPick>): nat {
    if picks == [] then 0
    else KnownOdds(picks[..|picks| - 1]) + (if picks[|picks| - 1].odds.Some? then 1 else 0)
  }

  predicate QualityOk(d: Response) {
    (d.riders == 7 || d.riders == 9) && d.possible == d.riders * (d.riders - 1) * (d.riders - 2) && d.known <= d.possible
  }

  /** Everything the page asks of ranks, bands, order, uniqueness and totals. */
  ghost predicate Displayable(d: Response) {
    && QualityOk(d) && |d.categories| == CATEGORIES
    && (forall c :: 0 <= c < CATEGORIES ==> HeadOk(d.categories[c], c) && PicksOk(d.categories[c].picks, c, d.riders))
    && KeysDiffer(AllPicks(d.categories))
    && |d.categories[0].picks| == 3 && d.total == |AllPicks(d.categories)|
    && KnownOdds(AllPicks(d.categories)) <= d.known
  }

  /** The page's running account of all picks so far. */
  ghost predicate Tally(some: seq<WebPick>, seen: set<string>, known: nat) {
    && KeysDiffer(some) && |seen| == |some| && known == KnownOdds(some)
    && forall s :: s in seen <==> exists j :: 0 <= j < |some| && some[j].key == s
  }

  lemma TallyOneMore(some: seq<WebPick>, p: WebPick, seen: set<string>, known: nat)
    requires Tally(some, seen, known) && p.key !in seen
    ensures Tally(some + [p], seen + {p.key}, known + (if p.odds.Some? then 1 else 0))
  {
    var more := some + [p];
    assert more[..|more| - 1] == some;
    forall j | 0 <= j < |some| ensures some[j].key != p.key {
      assert some[j].key in seen;
    }
    MoreKeys(some, p, seen);
  }

  /** What the page's loops have checked of the picks in `before` and the first `k` of the next category. */
  ghost predicate SeenSoFar(before: seq<WebPick>, picks: seq<WebPick>, k: nat, c: nat, riders: nat,
                            seen: set<string>, known: nat) {
    k <= |picks| && PicksOk(picks[..k], c, riders) && Tally(before + picks[..k], seen, known)
  }

  lemma PicksOkOneMore(picks: seq<WebPick>, k: nat, c: nat, riders: nat)
    requires k < |picks| && PicksOk(picks[..k], c, riders)
    requires PickOk(picks[k], k, c, riders) && (k > 0 ==> picks[k].p <= picks[k - 1].p)
    ensures PicksOk(picks[..k + 1], c, riders)
  {
    assert forall j :: 0 <= j < k ==> picks[..k + 1][j] == picks[..k][j];
  }

  lemma SeenOneMore(before: seq<WebPick>, picks: seq<WebPick>, k: nat, seen: set<string>, known: nat)
    requires k < |picks| && Tally(before + picks[..k], seen, known) && picks[k].key !in seen
    ensures Tally(before + picks[..k + 1], seen + {picks[k].key}, known + (if picks[k].odds.Some? then 1 else 0))
  {
    TallyOneMore(before + picks[..k], picks[k], seen, known);
    assert before + picks[..k + 1] == before + picks[..k] + [picks[k]];
  }

  lemma MoreKeys(some: seq<WebPick>, p: WebPick, seen: set<string>)
    requires forall s :: s in seen <==> exists j :: 0 <= j < |some| && some[j].key == s
    ensures forall s :: s in seen + {p.key} <==> exists j :: 0 <= j < |some| + 1 && (some + [p])[j].key == s
  {
    var more := some + [p];
    forall s | s in seen + {p.key} ensures exists j :: 0 <= j < |more| && more[j].key == s {
      if s == p.key {
        assert more[|some|].key == s;
      } else {
        var j :| 0 <= j < |some| && some[j].key == s;
        assert more[j].key == s;
      }
    }
    forall s, j | 0 <= j < |more| && more[j].key == s ensures s in seen + {p.key} {
      if j < |some| {
        assert some[j].key == s;
      }
    }
  }

  lemma RepeatedKey(before: seq<WebPick>, picks: seq<WebPick>, k: nat, c: nat, riders: nat, seen: set<string>, known: nat)
    requires SeenSoFar(before, picks, k, c, riders, seen, known) && k < |picks| && picks[k].key in seen
    ensures !KeysDiffer(before + picks)
  {
    var some := before + picks[..k];
    var j :| 0 <= j < |before| + k && some[j].key == picks[k].key;
    var all := before + picks;
    assert all[j] == some[j] && all[|before| + k] == picks[k];
  }

  /** One category of the page's outer loop. */
  method CheckPicks(ghost before: seq<WebPick>, picks: seq<WebPick>, c: nat, riders: nat, seen: set<string>, known: nat)
    returns (ok: bool, seenAfter: set<string>, knownAfter: nat)
    requires SeenSoFar(before, picks, 0, c, riders, seen, known)
    ensures ok <==> PicksOk(picks, c, riders) && KeysDiffer(before + picks)
    ensures ok ==> SeenSoFar(before, picks, |picks|, c, riders, seenAfter, knownAfter)
  {
    seenAfter, knownAfter := seen, known;
    for k := 0 to |picks|
      invariant SeenSoFar(before, picks, k, c, riders, seenAfter, knownAfter)
    {
      if !PickOk(picks[k], k, c, riders) || (k > 0 && picks[k].p > picks[k - 1].p) {
        return false, seenAfter, knownAfter;
      }
      if picks[k].key in seenAfter {
        RepeatedKey(before, picks, k, c, riders, seenAfter, knownAfter);
        return false, seenAfter, knownAfter;
      }
      PicksOkOneMore(picks, k, c, riders);
      SeenOneMore(before, picks, k, seenAfter, knownAfter);
      seenAfter := seenAfter + {picks[k].key};
      knownAfter := knownAfter + (if picks[k].odds.Some? then 1 else 0);
    }
    assert picks[..|picks|] == picks;
    return true, seenAfter, knownAfter;
  }

  /** The heads and picks of the first `c` categories are in order, and their picks are tallied. */
  ghost predicate PageSoFar(d: Response, c: nat, seen: set<string>, known: nat)
    requires |d.categories| == CATEGORIES
  {
    && c <= CATEGORIES
    && (forall b :: 0 <= b < c ==> HeadOk(d.categories[b], b) && PicksOk(d.categories[b].picks, b, d.riders))
    && Tally(AllPicks(d.categories[..c]), seen, known)
  }

  lemma {:induction false} AllPicksGrow(categories: seq<WebCategory>, c: nat)
    requires c <= |categories|
    ensures AllPicks(categories[..c]) <= AllPicks(categories)
    decreases |categories|
  {
    if c < |categories| {
      AllPicksGrow(categories[..|categories| - 1], c);
      assert categories[..|categories| - 1][..c] == categories[..c];
    } else {
      assert categories[..c] == categories;
    }
  }

  lemma RepeatStays(categories: seq<WebCategory>, c: nat)
    requires c <= |categories| && !KeysDiffer(AllPicks(categories[..c]))
    ensures !KeysDiffer(AllPicks(categories))
  {
    AllPicksGrow(categories, c);
    var some, all := AllPicks(categories[..c]), AllPicks(categories);
    var i, j :| 0 <= i < j < |some| && some[i].key == some[j].key;
    assert all[i] == some[i] && all[j] == some[j];
  }

  lemma NextCategory(d: Response, c: nat, seen: set<string>, known: nat)
    requires |d.categories| == CATEGORIES && c < CATEGORIES
    ensures AllPicks(d.categories[..c + 1]) == AllPicks(d.categories[..c]) + d.categories[c].picks
  {
    assert d.categories[..c + 1][..c] == d.categories[..c];
  }

  /** The page's check of one category. */
  method CheckCategory(d: Response, c: nat, seen: set<string>, known: nat)
    returns (ok: bool, seenAfter: set<string>, knownAfter: nat)
    requires |d.categories| == CATEGORIES && c < CATEGORIES && PageSoFar(d, c, seen, known)
    ensures ok ==> PageSoFar(d, c + 1, seenAfter, knownAfter)
    ensures !ok ==> !Displayable(d)
  {
    var picks := d.categories[c].picks;
    if !HeadOk(d.categories[c], c) {
      return false, seen, known;
    }
    ghost var before := AllPicks(d.categories[..c]);
    assert before + picks[..0] == before;
    ok, seenAfter, knownAfter := CheckPicks(before, picks, c, d.riders, seen, known);
    NextCategory(d, c, seen, known);
    assert picks[..|picks|] == picks;
    if !ok && !KeysDiffer(before + picks) {
      RepeatStays(d.categories, c + 1);
    }
  }

  /** `validate` from its quality check on: it passes exactly what is displayable. */
  method Validate(d: Response) returns (ok: bool)
    ensures ok <==> Displayable(d)
  {
    if !QualityOk(d) || |d.categories| != CATEGORIES {
      return false;
    }
    var seen: set<string>, known: nat := {}, 0;
    assert d.categories[..0] == [];
    for c := 0 to CATEGORIES
      invariant PageSoFar(d, c, seen, known)
    {
      ok, seen, known := CheckCategory(d, c, seen, known);
      if !ok {
        return;
      }
    }
    assert d.categories[..CATEGORIES] == d.categories;
    ok := |d.categories[0].picks| == 3 && d.total == |seen| && known <= d.known;
  }
}
