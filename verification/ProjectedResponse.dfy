/**
 The two programs together: whatever the server selects from a valid table and projects, the
 page's own check displays.
 */
module ProjectedResponse {
  import opened CredentialIdentity
  import opened FinishOrders
  import HistoricalPayouts
  import PayoutTexts
  import opened CategorySelection
  import opened CategoryPicks
  import opened PageResponse

  predicate Writable(combo: seq<nat>) {
    forall i :: 0 <= i < |combo| ==> 1 <= combo[i] <= 9
  }

  /** One projected pick: only rank, combination, probability and odds leave the server. */
  function ProjectPick(p: Pick): WebPick {
    WebPick(p.rank, if Writable(p.row.combo) then HistoricalPayouts.Written(p.row.combo) else "", p.row.p, p.row.odds)
  }

  function ProjectCategory(c: nat, category: Category): WebCategory
    requires c < CATEGORIES
  {
    WebCategory(RULE_NAMES[c], category.status, category.note,
                seq(|category.picks|, k requires 0 <= k < |category.picks| => ProjectPick(category.picks[k])))
  }

  /** `model_web_response` restricted to quality and categories. */
  function Project(s: Selection, n: nat): Response
    requires n >= 3 && |s.categories| == CATEGORIES
  {
    Response(n, s.known, n * (n - 1) * (n - 2), s.total,
             seq(CATEGORIES, c requires 0 <= c < CATEGORIES => ProjectCategory(c, s.categories[c])))
  }

  // ----- one pick

  lemma WrittenKey(combo: seq<nat>, n: nat)
    requires combo in Expected(n) && n <= 9
    ensures |combo| == 3 && Writable(combo)
    ensures HistoricalPayouts.ParseOrdered(HistoricalPayouts.Written(combo), 3)
         == HistoricalPayouts.Accepted(HistoricalPayouts.Ordered(combo, true))
    ensures KeyOk(HistoricalPayouts.Written(combo), n)
  {
    InExpected(n, combo);
    HistoricalPayouts.ParseWritten(combo);
  }

  lemma DifferentKeys(a: seq<nat>, b: seq<nat>, n: nat)
    requires a in Expected(n) && b in Expected(n) && n <= 9 && a != b
    ensures Writable(a) && Writable(b) && HistoricalPayouts.Written(a) != HistoricalPayouts.Written(b)
  {
    WrittenKey(a, n);
    WrittenKey(b, n);
  }

  lemma PickShown(rows: seq<Row>, n: nat, c: nat, top: set<nat>, i: nat, k: nat)
    requires ValidTable(rows, n) && i in Scope(rows, c, top) && c < CATEGORIES
    ensures PickOk(ProjectPick(Pick(k + 1, rows[i])), k, c, n)
  {
    assert RowOk(rows[i], n);
    WrittenKey(rows[i].combo, n);
  }

  /** The best three are in order of probability. */
  lemma BestThreeOrder(rows: seq<Row>, scope: set<nat>, picks: seq<nat>, k: nat)
    requires BestThree(rows, scope, picks) && 0 < k < |picks|
    ensures rows[picks[k]].p <= rows[picks[k - 1]].p
  {
    var a, b := picks[k - 1], picks[k];
    if rows[b].p > rows[a].p {
      assert Better(rows, scope, b) <= Better(rows, scope, a);
      SubsetCount(Better(rows, scope, b), Better(rows, scope, a));
    }
  }

  lemma CategoryShown(rows: seq<Row>, n: nat, c: nat, top: set<nat>, category: Category, picks: seq<nat>, known: nat)
    requires ValidTable(rows, n) && c < CATEGORIES
    requires BestThree(rows, Scope(rows, c, top), picks) && Shows(rows, category, picks, Scope(rows, c, top), known)
    ensures PicksOk(ProjectCategory(c, category).picks, c, n)
  {
    var shown := ProjectCategory(c, category).picks;
    forall k | 0 <= k < |shown| ensures PickOk(shown[k], k, c, n) {
      PickShown(rows, n, c, top, picks[k], k);
    }
    forall k | 0 < k < |shown| ensures shown[k].p <= shown[k - 1].p {
      BestThreeOrder(rows, Scope(rows, c, top), picks, k);
    }
  }

  lemma NotesAreText()
    ensures NonBlank(NO_ODDS) && forall size :: 0 <= size < 3 ==> NonBlank(TooFew(size))
  {
    NotBlank(NO_ODDS);
    forall size | 0 <= size < 3 ensures NonBlank(TooFew(size)) {
      NotBlank(TooFew(size));
    }
  }

  lemma NotBlank(s: string)
    requires s != "" && !IsSpace(s[0]) && !IsSpace(s[|s| - 1])
    ensures NonBlank(s)
  {
  }

  lemma HeadShown(rows: seq<Row>, c: nat, category: Category, picks: seq<nat>, scope: set<nat>, known: nat)
    requires c < CATEGORIES && BestThree(rows, scope, picks) && Shows(rows, category, picks, scope, known)
    ensures HeadOk(ProjectCategory(c, category), c)
  {
    NotesAreText();
  }

  // ----- all picks

  function FlatPicks(picks: seq<seq<nat>>): seq<nat> {
    if picks == [] then [] else FlatPicks(picks[..|picks| - 1]) + picks[|picks| - 1]
  }

  /** No row is picked twice: the top three are taken out, and the bands do not meet. */
  lemma ScopesApart(rows: seq<Row>, b: nat, c: nat, top: set<nat>, i: nat)
    requires b < c < CATEGORIES && i in Scope(rows, c, top)
    ensures if b == 0 then i !in top else i !in Scope(rows, b, top)
  {
  }

  ghost predicate PickedIn(picks: seq<seq<nat>>, x: nat) {
    exists b :: 0 <= b < |picks| && x in picks[b]
  }

  lemma {:induction false} FlatMembers(picks: seq<seq<nat>>, x: nat)
    ensures x in FlatPicks(picks) <==> PickedIn(picks, x)
    decreases |picks|
  {
    if picks != [] {
      var n := |picks| - 1;
      FlatMembers(picks[..n], x);
      assert forall b :: 0 <= b < n ==> picks[..n][b] == picks[b];
    }
  }

  lemma JoinDistinct(a: seq<nat>, b: seq<nat>)
    requires Distinct(a) && Distinct(b) && forall i :: 0 <= i < |b| ==> b[i] !in a
    ensures Distinct(a + b)
  {
  }

  ghost predicate AllBest(rows: seq<Row>, picks: seq<seq<nat>>, top: set<nat>) {
    && |picks| <= CATEGORIES && (picks != [] ==> top == Elements(picks[0]))
    && forall c :: 0 <= c < |picks| ==> BestThree(rows, Scope(rows, c, top), picks[c])
  }

  lemma {:induction false} FlatDistinct(rows: seq<Row>, picks: seq<seq<nat>>, top: set<nat>)
    requires AllBest(rows, picks, top)
    ensures Distinct(FlatPicks(picks)) && forall i :: 0 <= i < |FlatPicks(picks)| ==> FlatPicks(picks)[i] < |rows|
    decreases |picks|
  {
    if picks != [] {
      var n := |picks| - 1;
      assert forall c :: 0 <= c < n ==> picks[..n][c] == picks[c];
      FlatDistinct(rows, picks[..n], top);
      BestThreeDistinct(rows, Scope(rows, n, top), picks[n]);
      forall k | 0 <= k < |picks[n]| ensures picks[n][k] !in FlatPicks(picks[..n]) {
        NewPick(rows, picks, top, n, picks[n][k]);
      }
      JoinDistinct(FlatPicks(picks[..n]), picks[n]);
    }
  }

  lemma NewPick(rows: seq<Row>, picks: seq<seq<nat>>, top: set<nat>, n: nat, x: nat)
    requires AllBest(rows, picks, top) && n < |picks| && x in picks[n]
    ensures x !in FlatPicks(picks[..n])
  {
    FlatMembers(picks[..n], x);
    forall b | 0 <= b < n ensures x !in picks[b] {
      ScopesApart(rows, b, n, top, x);
      assert b == 0 ==> forall k :: 0 <= k < |picks[b]| ==> picks[b][k] in top;
    }
  }

  /** Each shown pick is the projection of the row picked at its place. */
  ghost predicate ShowsRows(shown: seq<WebPick>, rows: seq<Row>, flat: seq<nat>) {
    && |shown| == |flat|
    && forall i :: 0 <= i < |flat| ==>
         && flat[i] < |rows| && shown[i].odds == rows[flat[i]].odds
         && shown[i].key == (if Writable(rows[flat[i]].combo) then HistoricalPayouts.Written(rows[flat[i]].combo) else "")
  }

  lemma ShowsMore(shown: seq<WebPick>, more: seq<WebPick>, rows: seq<Row>, flat: seq<nat>, next: seq<nat>)
    requires ShowsRows(shown, rows, flat) && ShowsRows(more, rows, next)
    ensures ShowsRows(shown + more, rows, flat + next)
  {
  }

  lemma CategoryRows(rows: seq<Row>, c: nat, category: Category, picks: seq<nat>, scope: set<nat>, known: nat)
    requires c < CATEGORIES && Shows(rows, category, picks, scope, known)
    ensures ShowsRows(ProjectCategory(c, category).picks, rows, picks)
  {
  }

  lemma {:induction false} AllShown(rows: seq<Row>, s: Selection, n: nat, picks: seq<seq<nat>>, c: nat)
    requires Selected(rows, s, picks) && n >= 3 && c <= CATEGORIES
    ensures ShowsRows(AllPicks(Project(s, n).categories[..c]), rows, FlatPicks(picks[..c]))
    ensures |FlatPicks(picks[..c])| == TotalPicks(s.categories[..c])
    decreases c
  {
    if c > 0 {
      AllShown(rows, s, n, picks, c - 1);
      var webs := Project(s, n).categories;
      assert webs[..c][..c - 1] == webs[..c - 1] && picks[..c][..c - 1] == picks[..c - 1];
      assert s.categories[..c][..c - 1] == s.categories[..c - 1];
      CategoryRows(rows, c - 1, s.categories[c - 1], picks[c - 1], Scope(rows, c - 1, Elements(picks[0])), s.known);
      ShowsMore(AllPicks(webs[..c - 1]), webs[c - 1].picks, rows, FlatPicks(picks[..c - 1]), picks[c - 1]);
    }
  }

  lemma KeysAreDifferent(shown: seq<WebPick>, rows: seq<Row>, flat: seq<nat>, n: nat)
    requires ShowsRows(shown, rows, flat) && Distinct(flat) && ValidTable(rows, n)
    ensures KeysDiffer(shown)
  {
    forall i, j | 0 <= i < j < |shown| ensures shown[i].key != shown[j].key {
      var a, b := flat[i], flat[j];
      assert RowOk(rows[a], n) && RowOk(rows[b], n);
      assert rows[a].combo != rows[b].combo;
      DifferentKeys(rows[a].combo, rows[b].combo, n);
    }
  }

  ghost function WithOdds(rows: seq<Row>): set<nat> {
    set i | 0 <= i < |rows| && rows[i].odds.Some?
  }

  lemma {:induction false} KnownIsWithOdds(rows: seq<Row>)
    ensures |WithOdds(rows)| == KnownCount(rows)
    decreases |rows|
  {
    if rows == [] {
      assert WithOdds(rows) == {};
    } else {
      var n := |rows| - 1;
      KnownIsWithOdds(rows[..n]);
      assert WithOdds(rows) == WithOdds(rows[..n]) + (if rows[n].odds.Some? then {n} else {});
    }
  }

  function KnownTally(rows: seq<Row>, flat: seq<nat>): nat
    requires forall i :: 0 <= i < |flat| ==> flat[i] < |rows|
  {
    if flat == [] then 0
    else KnownTally(rows, flat[..|flat| - 1]) + (if rows[flat[|flat| - 1]].odds.Some? then 1 else 0)
  }

  lemma {:induction false} KnownIsTallied(shown: seq<WebPick>, rows: seq<Row>, flat: seq<nat>)
    requires ShowsRows(shown, rows, flat)
    ensures KnownOdds(shown) == KnownTally(rows, flat)
    decreases |shown|
  {
    if shown != [] {
      KnownIsTallied(shown[..|shown| - 1], rows, flat[..|flat| - 1]);
    }
  }

  ghost function OddsAmong(rows: seq<Row>, flat: seq<nat>): set<nat> {
    set i | i in flat && i < |rows| && rows[i].odds.Some?
  }

  lemma {:induction false} TallyIsAmong(rows: seq<Row>, flat: seq<nat>)
    requires Distinct(flat) && forall i :: 0 <= i < |flat| ==> flat[i] < |rows|
    ensures KnownTally(rows, flat) == |OddsAmong(rows, flat)|
    decreases |flat|
  {
    if flat == [] {
      assert OddsAmong(rows, flat) == {};
    } else {
      var n := |flat| - 1;
      TallyIsAmong(rows, flat[..n]);
      assert flat == flat[..n] + [flat[n]];
      assert flat[n] !in flat[..n];
      assert OddsAmong(rows, flat) == OddsAmong(rows, flat[..n]) + (if rows[flat[n]].odds.Some? then {flat[n]} else {});
    }
  }

  /** Among different rows there are at most as many known odds as in the whole table. */
  lemma KnownAmong(rows: seq<Row>, flat: seq<nat>)
    requires Distinct(flat) && forall i :: 0 <= i < |flat| ==> flat[i] < |rows|
    ensures KnownTally(rows, flat) <= KnownCount(rows)
  {
    TallyIsAmong(rows, flat);
    KnownIsWithOdds(rows);
    SubsetCount(OddsAmong(rows, flat), WithOdds(rows));
  }

  lemma KnownFits(rows: seq<Row>, n: nat)
    requires ValidTable(rows, n)
    ensures KnownCount(rows) <= n * (n - 1) * (n - 2)
  {
    ExpectedCount(n);
    KnownAtMost(rows);
  }

  lemma {:induction false} KnownAtMost(rows: seq<Row>)
    ensures KnownCount(rows) <= |rows|
    decreases |rows|
  {
    if rows != [] {
      KnownAtMost(rows[..|rows| - 1]);
    }
  }

  lemma TopHasThree(rows: seq<Row>, n: nat, picks: seq<nat>)
    requires ValidTable(rows, n) && BestThree(rows, Scope(rows, 0, {}), picks)
    ensures |picks| == 3
  {
    ExpectedCount(n);
    assert |rows| >= 3;
    assert {0, 1, 2} <= Scope(rows, 0, {});
    SubsetCount({0, 1, 2}, Scope(rows, 0, {}));
  }

  lemma CategoriesShown(rows: seq<Row>, n: nat, s: Selection, picks: seq<seq<nat>>)
    requires ValidTable(rows, n) && Selected(rows, s, picks)
    ensures var d := Project(s, n);
            forall c :: 0 <= c < CATEGORIES ==> HeadOk(d.categories[c], c) && PicksOk(d.categories[c].picks, c, d.riders)
  {
    var top := Elements(picks[0]);
    forall c | 0 <= c < CATEGORIES
      ensures HeadOk(Project(s, n).categories[c], c) && PicksOk(Project(s, n).categories[c].picks, c, n)
    {
      HeadShown(rows, c, s.categories[c], picks[c], Scope(rows, c, top), s.known);
      CategoryShown(rows, n, c, top, s.categories[c], picks[c], s.known);
    }
  }

  lemma WholeShown(rows: seq<Row>, n: nat, s: Selection, picks: seq<seq<nat>>)
    requires n >= 3 && Selected(rows, s, picks)
    ensures ShowsRows(AllPicks(Project(s, n).categories), rows, FlatPicks(picks))
    ensures |FlatPicks(picks)| == s.total
    ensures Distinct(FlatPicks(picks)) && forall i :: 0 <= i < |FlatPicks(picks)| ==> FlatPicks(picks)[i] < |rows|
  {
    AllShown(rows, s, n, picks, CATEGORIES);
    assert Project(s, n).categories[..CATEGORIES] == Project(s, n).categories && picks[..CATEGORIES] == picks;
    assert s.categories[..CATEGORIES] == s.categories;
    FlatDistinct(rows, picks, Elements(picks[0]));
  }

  lemma TalliesShown(rows: seq<Row>, n: nat, s: Selection, picks: seq<seq<nat>>)
    requires ValidTable(rows, n) && Selected(rows, s, picks)
    ensures var d := Project(s, n);
            && KeysDiffer(AllPicks(d.categories)) && d.total == |AllPicks(d.categories)|
            && KnownOdds(AllPicks(d.categories)) <= d.known
  {
    var shown, flat := AllPicks(Project(s, n).categories), FlatPicks(picks);
    WholeShown(rows, n, s, picks);
    KeysAreDifferent(shown, rows, flat, n);
    KnownIsTallied(shown, rows, flat);
    KnownAmong(rows, flat);
  }

  /** Every selection from a valid table, once projected, is displayable. */
  lemma SelectionIsDisplayable(rows: seq<Row>, n: nat, s: Selection, picks: seq<seq<nat>>)
    requires ValidTable(rows, n) && Selected(rows, s, picks)
    ensures Displayable(Project(s, n))
  {
    CategoriesShown(rows, n, s, picks);
    TalliesShown(rows, n, s, picks);
    KnownFits(rows, n);
    assert Scope(rows, 0, Elements(picks[0])) == Scope(rows, 0, {});
    TopHasThree(rows, n, picks[0]);
  }

  // ----- what is shown

  /** A shown pick is the row at this place of its category. */
  ghost predicate ShowsPick(p: WebPick, k: nat, row: Row) {
    && p.rank == k + 1 && p.p == row.p && p.odds == row.odds
    && HistoricalPayouts.ParseOrdered(p.key, 3) == HistoricalPayouts.Accepted(HistoricalPayouts.Ordered(row.combo, true))
  }

  /** Three rows fill a category; fewer leave a note, that no odds are known or that too few are. */
  ghost predicate ShowsScope(w: WebCategory, c: nat, rows: seq<Row>, scope: set<nat>)
    requires c < CATEGORIES
  {
    && w.name == PAGE_NAMES[c]
    && (|scope| >= 3 ==> w.status == Complete && w.note == None)
    && (0 < |scope| < 3 ==> w.status == Partial) && (scope == {} ==> w.status == Skipped)
    && (|scope| < 3 ==> w.note == Some(if (exists i :: 0 <= i < |rows| && rows[i].odds.Some?) then TooFew(|scope|) else NO_ODDS))
  }

  /** The response shows, category by category, the best three rows of the scope. */
  ghost predicate ShowsBest(d: Response, rows: seq<Row>, n: nat, picks: seq<seq<nat>>) {
    && d.riders == n && d.known == |WithOdds(rows)| && |d.categories| == |picks| == CATEGORIES
    && forall c :: 0 <= c < CATEGORIES ==> ShowsBestAt(d.categories[c], c, rows, Scope(rows, c, Elements(picks[0])), picks[c])
  }

  ghost predicate ShowsBestAt(w: WebCategory, c: nat, rows: seq<Row>, scope: set<nat>, picks: seq<nat>)
    requires c < CATEGORIES
  {
    && BestThree(rows, scope, picks) && ShowsScope(w, c, rows, scope) && |w.picks| == |picks|
    && forall k :: 0 <= k < |picks| ==> ShowsPick(w.picks[k], k, rows[picks[k]])
  }

  lemma NoneKnown(rows: seq<Row>)
    ensures KnownCount(rows) == 0 <==> forall i :: 0 <= i < |rows| ==> rows[i].odds.None?
  {
    KnownIsWithOdds(rows);
    if i :| 0 <= i < |rows| && rows[i].odds.Some? {
      assert i in WithOdds(rows);
    }
  }

  lemma ProjectedCategory(rows: seq<Row>, n: nat, c: nat, category: Category, scope: set<nat>, picks: seq<nat>)
    requires ValidTable(rows, n) && c < CATEGORIES
    requires BestThree(rows, scope, picks) && Shows(rows, category, picks, scope, KnownCount(rows))
    ensures ShowsBestAt(ProjectCategory(c, category), c, rows, scope, picks)
  {
    NoneKnown(rows);
    forall k | 0 <= k < |picks| ensures ShowsPick(ProjectCategory(c, category).picks[k], k, rows[picks[k]]) {
      assert RowOk(rows[picks[k]], n);
      WrittenKey(rows[picks[k]].combo, n);
    }
  }

  /** Every projected selection shows exactly the best rows of each scope, with their own figures. */
  lemma ProjectedExactly(rows: seq<Row>, n: nat, s: Selection, picks: seq<seq<nat>>)
    requires ValidTable(rows, n) && Selected(rows, s, picks)
    ensures ShowsBest(Project(s, n), rows, n, picks)
  {
    KnownIsWithOdds(rows);
    forall c | 0 <= c < CATEGORIES
      ensures ShowsBestAt(Project(s, n).categories[c], c, rows, Scope(rows, c, Elements(picks[0])), picks[c])
    {
      ProjectedCategory(rows, n, c, s.categories[c], Scope(rows, c, Elements(picks[0])), picks[c]);
    }
  }

  /** End to end: a response is displayed exactly for a valid table, and it shows the best rows of each scope. */
  method SelectAndDisplay(rows: seq<Row>, n: nat) returns (shown: Option<Response>, ghost picks: seq<seq<nat>>)
    ensures shown.Some? <==> ValidTable(rows, n)
    ensures shown.Some? ==> Displayable(shown.value) && ShowsBest(shown.value, rows, n, picks)
  {
    var selection;
    selection, picks := SelectModelCategories(rows, n);
    if selection.None? {
      return None, picks;
    }
    SelectionIsDisplayable(rows, n, selection.value, picks);
    ProjectedExactly(rows, n, selection.value, picks);
    var response := Project(selection.value, n);
    var ok := Validate(response);
    shown := if ok then Some(response) else None;
  }

  // ----- the two programs' rules

  const BANDS: seq<real> := [20.0, 60.0, 100.0, 500.0]

  /** Both programs draw the same bands: each from its start up to the next one's, the last without end. */
  lemma BandsAgree(c: nat, odds: real)
    requires 1 <= c < CATEGORIES
    ensures InBand(c, odds) <==> BANDS[c - 1] <= odds && (c < 4 ==> odds < BANDS[c])
    ensures InPageBand(c, odds) <==> InBand(c, odds)
  {
  }

  /** Odds from twenty up lie in exactly one band, and lower ones in none. */
  lemma OneBandEach(odds: real)
    ensures odds >= 20.0 <==> exists c :: 1 <= c < CATEGORIES && InBand(c, odds)
    ensures forall b, c :: 1 <= b < c < CATEGORIES ==> !(InBand(b, odds) && InBand(c, odds))
  {
    if odds >= 20.0 {
      var c := if odds < 60.0 then 1 else if odds < 100.0 then 2 else if odds < 500.0 then 3 else 4;
      assert InBand(c, odds);
    }
  }

  /** The page takes a key exactly when it is how three different riders of the race are written. */
  lemma KeyOkExact(key: string, riders: nat)
    ensures KeyOk(key, riders) <==>
              exists cars :: PayoutTexts.Bet(cars, 3) && (forall i :: 0 <= i < |cars| ==> cars[i] <= riders)
                             && key == HistoricalPayouts.Written(cars)
  {
    if KeyOk(key, riders) {
      PayoutTexts.ParsedIsBet(key, 3);
    }
    forall cars | PayoutTexts.Bet(cars, 3) && key == HistoricalPayouts.Written(cars)
      ensures HistoricalPayouts.ParseOrdered(key, 3) == HistoricalPayouts.Accepted(HistoricalPayouts.Ordered(cars, true))
    {
      PayoutTexts.BetIsParsed(cars, 3);
    }
  }
}
