/**
 The selection itself, against a specification without order of computation: the picks of a
 category are the rows of its scope that have exactly zero, one and two better rows in it.
 */
module CategoryPicks {
  import opened CredentialIdentity
  import opened FinishOrders
  import opened CategorySelection

  datatype Pick = Pick(rank: nat, row: Row)
  datatype Status = Complete | Partial | Skipped
  datatype Category = Category(status: Status, available: nat, picks: seq<Pick>, note: Option<string>)

  datatype Selection = Selection(categories: seq<Category>, total: nat, known: nat)

  const CATEGORIES: nat := 5
  const NO_ODDS: string := "3連単オッズ未取得のため見送り"

  /** The note of a category that too few rows fit. */
  function TooFew(size: nat): string
    requires size < 3
  {
    "確認済みデータ内の候補が不足しているため" + [if size == 0 then '0' else if size == 1 then '1' else '2'] + "点。未確認オッズでは補完しません。"
  }

  /** The half-open odds band of categories 1 to 4; the last has no upper end. */
  predicate InBand(c: nat, odds: real) {
    if c == 1 then 20.0 <= odds < 60.0
    else if c == 2 then 60.0 <= odds < 100.0
    else if c == 3 then 100.0 <= odds < 500.0
    else 500.0 <= odds
  }

  /** Higher probability first; equal probabilities in table order. */
  predicate Precedes(rows: seq<Row>, i: nat, j: nat)
    requires i < |rows| && j < |rows|
  {
    rows[i].p > rows[j].p || (rows[i].p == rows[j].p && i < j)
  }

  // ----- the specification

  predicate Listed(rows: seq<Row>, i: nat) {
    i < |rows|
  }

  /** What a category picks from, given the indices of the top three. */
  ghost function Scope(rows: seq<Row>, c: nat, top: set<nat>): set<nat> {
    if c == 0 then set i | 0 <= i < |rows| && Listed(rows, i)
    else set i | 0 <= i < |rows| && i !in top && rows[i].odds.Some? && InBand(c, rows[i].odds.value)
  }

  ghost function Better(rows: seq<Row>, scope: set<nat>, i: nat): set<nat>
    requires i < |rows|
  {
    set j | j in scope && j < |rows| && Precedes(rows, j, i)
  }

  /** The best three of the scope, or all of it if it is smaller, in order. */
  ghost predicate BestThree(rows: seq<Row>, scope: set<nat>, picks: seq<nat>) {
    && |picks| == Smaller(3, |scope|)
    && forall k :: 0 <= k < |picks| ==> picks[k] in scope && picks[k] < |rows| && |Better(rows, scope, picks[k])| == k
  }

  // ----- ranking

  ghost predicate Ranked(rows: seq<Row>, order: seq<nat>) {
    && (forall k :: 0 <= k < |order| ==> order[k] < |rows|)
    && forall a, b :: 0 <= a < b < |order| ==> Precedes(rows, order[a], order[b])
  }

  /** Put row `i`, listed after all of `order`, behind every row at least as probable. */
  function InsertRow(rows: seq<Row>, i: nat, order: seq<nat>): (r: seq<nat>)
    requires i < |rows| && forall k :: 0 <= k < |order| ==> order[k] < i
    ensures forall k :: 0 <= k < |r| ==> r[k] <= i
  {
    if order == [] then [i]
    else if rows[order[|order| - 1]].p >= rows[i].p then order + [i]
    else InsertRow(rows, i, order[..|order| - 1]) + [order[|order| - 1]]
  }

  /** The stable sort by descending probability, of the first `n` rows. */
  function Ranking(rows: seq<Row>, n: nat): (order: seq<nat>)
    requires n <= |rows|
    ensures forall k :: 0 <= k < |order| ==> order[k] < n
  {
    if n == 0 then [] else InsertRow(rows, n - 1, Ranking(rows, n - 1))
  }

  lemma {:induction false} InsertedBelow(rows: seq<Row>, i: nat, order: seq<nat>)
    requires i < |rows| && forall k :: 0 <= k < |order| ==> order[k] < i
    ensures forall x :: x in InsertRow(rows, i, order) <==> x == i || x in order
    decreases |order|
  {
    if order != [] && rows[order[|order| - 1]].p < rows[i].p {
      InsertedBelow(rows, i, order[..|order| - 1]);
      assert order == order[..|order| - 1] + [order[|order| - 1]];
    }
  }

  lemma {:induction false} InsertRowRanks(rows: seq<Row>, i: nat, order: seq<nat>)
    requires i < |rows| && Ranked(rows, order) && forall k :: 0 <= k < |order| ==> order[k] < i
    ensures Ranked(rows, InsertRow(rows, i, order))
    decreases |order|
  {
    if order != [] {
      var n := |order| - 1;
      var last := order[n];
      if rows[last].p >= rows[i].p {
        forall k | 0 <= k < |order| ensures Precedes(rows, order[k], i) {
          assert k < n ==> Precedes(rows, order[k], order[n]);
        }
      } else {
        InsertRowRanks(rows, i, order[..n]);
        InsertedBelow(rows, i, order[..n]);
        var front := InsertRow(rows, i, order[..n]);
        forall a | 0 <= a < |front| ensures front[a] < |rows| && Precedes(rows, front[a], last) {
          assert front[a] in front;
          if front[a] != i {
            var k :| 0 <= k < n && order[k] == front[a];
          }
        }
      }
    }
  }

  lemma {:induction false} RankingLists(rows: seq<Row>, n: nat)
    requires n <= |rows|
    ensures forall i: nat :: i in Ranking(rows, n) <==> i < n
    decreases n
  {
    if n > 0 {
      RankingLists(rows, n - 1);
      InsertedBelow(rows, n - 1, Ranking(rows, n - 1));
    }
  }

  /** The stable sort puts every row before all those it precedes. */
  lemma {:induction false} RankingRanks(rows: seq<Row>, n: nat)
    requires n <= |rows|
    ensures Ranked(rows, Ranking(rows, n))
    decreases n
  {
    if n > 0 {
      RankingRanks(rows, n - 1);
      InsertRowRanks(rows, n - 1, Ranking(rows, n - 1));
    }
  }

  lemma RankedIsDistinct(rows: seq<Row>, order: seq<nat>)
    requires Ranked(rows, order)
    ensures Distinct(order)
  {
  }

  /** In a ranked listing of a scope, the rows better than the one at place `k` are the `k` before it. */
  lemma BetterAreBefore(rows: seq<Row>, order: seq<nat>, k: nat)
    requires Ranked(rows, order) && k < |order|
    ensures |Better(rows, Elements(order), order[k])| == k
  {
    RankedIsDistinct(rows, order);
    DistinctCount(order[..k]);
    forall j ensures j in Better(rows, Elements(order), order[k]) <==> j in Elements(order[..k]) {
      if j in Better(rows, Elements(order), order[k]) {
        var a :| 0 <= a < |order| && order[a] == j;
        assert a < k;
        assert order[..k][a] == j;
      }
      if j in order[..k] {
        var a :| 0 <= a < k && order[..k][a] == j;
        assert order[a] == j;
      }
    }
    assert Better(rows, Elements(order), order[k]) == Elements(order[..k]);
  }

  lemma FirstThreeAreBest(rows: seq<Row>, order: seq<nat>)
    requires Ranked(rows, order)
    ensures BestThree(rows, Elements(order), order[..Smaller(3, |order|)])
  {
    RankedIsDistinct(rows, order);
    DistinctCount(order);
    forall k | 0 <= k < Smaller(3, |order|)
      ensures order[k] in Elements(order) && |Better(rows, Elements(order), order[k])| == k
    {
      BetterAreBefore(rows, order, k);
    }
  }

  // ----- filtering

  predicate Fits(row: Row, c: nat, used: set<seq<nat>>) {
    c == 0 || (row.combo !in used && row.odds.Some? && InBand(c, row.odds.value))
  }

  /** The eligible rows, in ranked order. */
  function Eligible(rows: seq<Row>, order: seq<nat>, c: nat, used: set<seq<nat>>): seq<nat>
    requires forall k :: 0 <= k < |order| ==> order[k] < |rows|
  {
    if order == [] then []
    else
      var last := order[|order| - 1];
      Eligible(rows, order[..|order| - 1], c, used) + (if Fits(rows[last], c, used) then [last] else [])
  }

  lemma {:induction false} EligibleMeans(rows: seq<Row>, order: seq<nat>, c: nat, used: set<seq<nat>>)
    requires Ranked(rows, order)
    ensures Ranked(rows, Eligible(rows, order, c, used))
    ensures forall i :: i in Eligible(rows, order, c, used) <==> i in order && Fits(rows[i], c, used)
    decreases |order|
  {
    if order != [] {
      var n := |order| - 1;
      EligibleMeans(rows, order[..n], c, used);
      assert order == order[..n] + [order[n]];
      var before := Eligible(rows, order[..n], c, used);
      forall a | 0 <= a < |before| ensures Precedes(rows, before[a], order[n]) {
        assert before[a] in before;
        var k :| 0 <= k < n && order[k] == before[a];
      }
    }
  }

  // ----- the selection

  ghost predicate CombosDiffer(rows: seq<Row>) {
    forall i, j :: 0 <= i < j < |rows| ==> rows[i].combo != rows[j].combo
  }

  /** The combinations of some rows. */
  ghost predicate CombosOf(used: set<seq<nat>>, rows: seq<Row>, taken: set<nat>) {
    && (forall i :: i in taken ==> i < |rows| && rows[i].combo in used)
    && (forall combo :: combo in used ==> exists i :: i in taken && i < |rows| && rows[i].combo == combo)
  }

  /** What has been taken before category `c` (after the first): the top three, and rows of lower bands. */
  ghost predicate TakenBefore(rows: seq<Row>, c: nat, top: set<nat>, taken: set<nat>) {
    && top <= taken
    && forall i :: i in taken && i !in top ==> i < |rows| && rows[i].odds.Some? && rows[i].odds.value < BandStart(c)
  }

  function BandStart(c: nat): real {
    if c == 1 then 20.0 else if c == 2 then 60.0 else if c == 3 then 100.0 else 500.0
  }

  /** Excluding everything used so far excludes exactly the top three: the bands do not meet. */
  lemma UsedMeansTop(rows: seq<Row>, c: nat, top: set<nat>, taken: set<nat>, used: set<seq<nat>>)
    requires CombosDiffer(rows) && CombosOf(used, rows, taken) && 1 <= c < CATEGORIES && TakenBefore(rows, c, top, taken)
    ensures forall i :: 0 <= i < |rows| ==> (Fits(rows[i], c, used) <==> i in Scope(rows, c, top))
  {
    forall i | 0 <= i < |rows| && rows[i].odds.Some? && InBand(c, rows[i].odds.value)
      ensures rows[i].combo in used <==> i in top
    {
      if rows[i].combo in used {
        var j :| j in taken && j < |rows| && rows[j].combo == rows[i].combo;
        assert j == i;
      }
    }
  }

  lemma ScopeIsEligible(rows: seq<Row>, order: seq<nat>, c: nat, top: set<nat>, used: set<seq<nat>>)
    requires Ranked(rows, order) && forall i: nat :: i in order <==> i < |rows|
    requires forall i :: 0 <= i < |rows| ==> (Fits(rows[i], c, used) <==> i in Scope(rows, c, top))
    ensures Ranked(rows, Eligible(rows, order, c, used)) && Elements(Eligible(rows, order, c, used)) == Scope(rows, c, top)
  {
    EligibleMeans(rows, order, c, used);
  }

  function NoteFor(size: nat, known: nat): Option<string> {
    if size >= 3 then None else if known == 0 then Some(NO_ODDS) else Some(TooFew(size))
  }

  function StatusFor(size: nat): Status {
    if size == 3 then Complete else if size > 0 then Partial else Skipped
  }

  /** The category shows the picked rows in order, ranked from one, with the status and note of its size. */
  ghost predicate Shows(rows: seq<Row>, c: Category, picks: seq<nat>, scope: set<nat>, known: nat) {
    && c.available == |scope| && |c.picks| == |picks|
    && c.status == StatusFor(|picks|) && c.note == NoteFor(|picks|, known)
    && forall k :: 0 <= k < |picks| ==> picks[k] < |rows| && c.picks[k] == Pick(k + 1, rows[picks[k]])
  }

  function PickedCombos(rows: seq<Row>, picks: seq<nat>): (r: set<seq<nat>>)
    requires forall k :: 0 <= k < |picks| ==> picks[k] < |rows|
    ensures forall k :: 0 <= k < |picks| ==> rows[picks[k]].combo in r
    ensures forall combo :: combo in r ==> exists k :: 0 <= k < |picks| && rows[picks[k]].combo == combo
  {
    set k | 0 <= k < |picks| :: rows[picks[k]].combo
  }

  lemma PickedOneMore(rows: seq<Row>, picks: seq<nat>)
    requires picks != [] && forall k :: 0 <= k < |picks| ==> picks[k] < |rows|
    ensures PickedCombos(rows, picks) == PickedCombos(rows, picks[..|picks| - 1]) + {rows[picks[|picks| - 1]].combo}
  {
    var n := |picks| - 1;
    assert forall k :: 0 <= k < n ==> picks[..n][k] == picks[k];
  }

  /** One category: the first three eligible rows, ranked, and their combinations marked as used. */
  method TakeCategory(rows: seq<Row>, order: seq<nat>, c: nat, used: set<seq<nat>>, known: nat, ghost scope: set<nat>)
    returns (category: Category, picks: seq<nat>, after: set<seq<nat>>)
    requires Ranked(rows, order)
    requires Ranked(rows, Eligible(rows, order, c, used)) && Elements(Eligible(rows, order, c, used)) == scope
    ensures BestThree(rows, scope, picks) && Shows(rows, category, picks, scope, known)
    ensures after == used + PickedCombos(rows, picks)
  {
    var eligible := Eligible(rows, order, c, used);
    RankedIsDistinct(rows, eligible);
    DistinctCount(eligible);
    FirstThreeAreBest(rows, eligible);
    picks := eligible[..Smaller(3, |eligible|)];
    var shown;
    shown, after := ShowPicks(rows, picks, used);
    category := Category(StatusFor(|shown|), |eligible|, shown, NoteFor(|shown|, known));
  }

  /** The picks with their ranks, each marked as used. */
  method ShowPicks(rows: seq<Row>, picks: seq<nat>, used: set<seq<nat>>) returns (shown: seq<Pick>, after: set<seq<nat>>)
    requires forall k :: 0 <= k < |picks| ==> picks[k] < |rows|
    ensures |shown| == |picks| && forall k :: 0 <= k < |picks| ==> shown[k] == Pick(k + 1, rows[picks[k]])
    ensures after == used + PickedCombos(rows, picks)
  {
    shown, after := [], used;
    for k := 0 to |picks|
      invariant |shown| == k && forall j :: 0 <= j < k ==> shown[j] == Pick(j + 1, rows[picks[j]])
      invariant after == used + PickedCombos(rows, picks[..k])
    {
      PickedOneMore(rows, picks[..k + 1]);
      assert picks[..k + 1][..k] == picks[..k];
      after := after + {rows[picks[k]].combo};
      shown := shown + [Pick(|shown| + 1, rows[picks[k]])];
    }
    assert picks[..|picks|] == picks;
  }

  function TotalPicks(categories: seq<Category>): nat {
    if categories == [] then 0 else TotalPicks(categories[..|categories| - 1]) + |categories[|categories| - 1].picks|
  }

  /** The first `n` categories are chosen from their scopes. */
  ghost predicate Chosen(rows: seq<Row>, categories: seq<Category>, picks: seq<seq<nat>>, top: set<nat>, known: nat) {
    && |categories| == |picks|
    && forall c :: 0 <= c < |picks| ==>
         BestThree(rows, Scope(rows, c, top), picks[c]) && Shows(rows, categories[c], picks[c], Scope(rows, c, top), known)
  }

  /** The whole selection: the top three, then the best three of each band without them. */
  ghost predicate Selected(rows: seq<Row>, s: Selection, picks: seq<seq<nat>>) {
    && |picks| == CATEGORIES && s.known == KnownCount(rows)
    && Chosen(rows, s.categories, picks, Elements(picks[0]), s.known)
    && s.total == TotalPicks(s.categories)
  }

  lemma ChosenOneMore(rows: seq<Row>, categories: seq<Category>, picks: seq<seq<nat>>, top: set<nat>, known: nat,
                      category: Category, more: seq<nat>)
    requires Chosen(rows, categories, picks, top, known)
    requires BestThree(rows, Scope(rows, |picks|, top), more)
    requires Shows(rows, category, more, Scope(rows, |picks|, top), known)
    ensures Chosen(rows, categories + [category], picks + [more], top, known)
    ensures TotalPicks(categories + [category]) == TotalPicks(categories) + |category.picks|
  {
    assert (categories + [category])[..|categories|] == categories;
  }

  lemma BestThreeDistinct(rows: seq<Row>, scope: set<nat>, picks: seq<nat>)
    requires BestThree(rows, scope, picks)
    ensures Distinct(picks)
  {
  }

  lemma {:induction false} PickedCount(rows: seq<Row>, picks: seq<nat>)
    requires CombosDiffer(rows) && Distinct(picks) && forall k :: 0 <= k < |picks| ==> picks[k] < |rows|
    ensures |PickedCombos(rows, picks)| == |picks|
    decreases |picks|
  {
    if picks != [] {
      var n := |picks| - 1;
      PickedCount(rows, picks[..n]);
      PickedOneMore(rows, picks);
      forall k | 0 <= k < n ensures rows[picks[..n][k]].combo != rows[picks[n]].combo {
        assert picks[..n][k] == picks[k] && picks[k] != picks[n];
      }
    }
  }

  /** What is used after a category: everything before, and the combinations of its picks, all new. */
  lemma NewCombos(rows: seq<Row>, used: set<seq<nat>>, picks: seq<nat>)
    requires CombosDiffer(rows) && Distinct(picks)
    requires forall k :: 0 <= k < |picks| ==> picks[k] < |rows| && rows[picks[k]].combo !in used
    ensures |used + PickedCombos(rows, picks)| == |used| + |picks|
  {
    PickedCount(rows, picks);
    assert used !! PickedCombos(rows, picks);
  }

  lemma TakenCombos(rows: seq<Row>, used: set<seq<nat>>, taken: set<nat>, picks: seq<nat>, after: set<seq<nat>>)
    requires CombosOf(used, rows, taken) && forall k :: 0 <= k < |picks| ==> picks[k] < |rows|
    requires after == used + PickedCombos(rows, picks)
    ensures CombosOf(after, rows, taken + Elements(picks))
  {
    forall combo | combo in after ensures exists i :: i in taken + Elements(picks) && i < |rows| && rows[i].combo == combo {
      if combo in used {
        var i :| i in taken && i < |rows| && rows[i].combo == combo;
      } else {
        var k :| 0 <= k < |picks| && rows[picks[k]].combo == combo;
        assert picks[k] in Elements(picks);
      }
    }
  }

  lemma TakenNext(rows: seq<Row>, c: nat, top: set<nat>, taken: set<nat>, picks: seq<nat>)
    requires 1 <= c < CATEGORIES && TakenBefore(rows, c, top, taken) && BestThree(rows, Scope(rows, c, top), picks)
    ensures c + 1 < CATEGORIES ==> TakenBefore(rows, c + 1, top, taken + Elements(picks))
  {
  }

  /** What the loop over the categories keeps. */
  ghost predicate Selecting(rows: seq<Row>, categories: seq<Category>, picks: seq<seq<nat>>, known: nat,
                            used: set<seq<nat>>, taken: set<nat>) {
    && 1 <= |picks| <= CATEGORIES && Chosen(rows, categories, picks, Elements(picks[0]), known)
    && |used| == TotalPicks(categories) && CombosOf(used, rows, taken)
    && (|picks| < CATEGORIES ==> TakenBefore(rows, |picks|, Elements(picks[0]), taken))
  }

  lemma FirstSelecting(rows: seq<Row>, category: Category, first: seq<nat>, known: nat, used: set<seq<nat>>)
    requires CombosDiffer(rows) && BestThree(rows, Scope(rows, 0, {}), first)
    requires Shows(rows, category, first, Scope(rows, 0, {}), known) && used == PickedCombos(rows, first)
    ensures Selecting(rows, [category], [first], known, used, Elements(first))
  {
    BestThreeDistinct(rows, Scope(rows, 0, {}), first);
    PickedCount(rows, first);
    assert TotalPicks([category]) == |first| by {
      assert [category][..0] == [];
    }
    FirstTaken(rows, first);
    assert Scope(rows, 0, Elements(first)) == Scope(rows, 0, {});
  }

  lemma FirstTaken(rows: seq<Row>, first: seq<nat>)
    requires forall k :: 0 <= k < |first| ==> first[k] < |rows|
    ensures CombosOf(PickedCombos(rows, first), rows, Elements(first))
    ensures TakenBefore(rows, 1, Elements(first), Elements(first))
  {
    forall combo | combo in PickedCombos(rows, first)
      ensures exists i :: i in Elements(first) && i < |rows| && rows[i].combo == combo
    {
      var k :| 0 <= k < |first| && rows[first[k]].combo == combo;
      assert first[k] in Elements(first);
    }
  }

  /** The first category: the top three overall. */
  method TakeTop(rows: seq<Row>, order: seq<nat>, known: nat)
    returns (categories: seq<Category>, used: set<seq<nat>>, ghost picks: seq<seq<nat>>, ghost taken: set<nat>)
    requires CombosDiffer(rows) && Ranked(rows, order) && forall i: nat :: i in order <==> i < |rows|
    ensures Selecting(rows, categories, picks, known, used, taken) && |picks| == 1
  {
    ScopeIsEligible(rows, order, 0, {}, {});
    var category, first;
    category, first, used := TakeCategory(rows, order, 0, {}, known, Scope(rows, 0, {}));
    assert used == PickedCombos(rows, first);
    FirstSelecting(rows, category, first, known, used);
    categories, picks, taken := [category], [first], Elements(first);
  }

  /** The next band. */
  method TakeBand(rows: seq<Row>, order: seq<nat>, c: nat, known: nat, before: seq<Category>, used: set<seq<nat>>,
                  ghost picks: seq<seq<nat>>, ghost taken: set<nat>)
    returns (categories: seq<Category>, after: set<seq<nat>>, ghost more: seq<seq<nat>>, ghost takenAfter: set<nat>)
    requires CombosDiffer(rows) && Ranked(rows, order) && forall i: nat :: i in order <==> i < |rows|
    requires Selecting(rows, before, picks, known, used, taken) && c == |picks| < CATEGORIES
    ensures Selecting(rows, categories, more, known, after, takenAfter) && |more| == c + 1
  {
    ghost var top := Elements(picks[0]);
    ghost var scope := Scope(rows, c, top);
    UsedMeansTop(rows, c, top, taken, used);
    ScopeIsEligible(rows, order, c, top, used);
    var category, next;
    category, next, after := TakeCategory(rows, order, c, used, known, scope);
    BestThreeDistinct(rows, scope, next);
    FreshCombos(rows, c, top, used, next);
    NewCombos(rows, used, next);
    TakenCombos(rows, used, taken, next, after);
    TakenNext(rows, c, top, taken, next);
    ChosenOneMore(rows, before, picks, top, known, category, next);
    categories, more, takenAfter := before + [category], picks + [next], taken + Elements(next);
  }

  lemma FreshCombos(rows: seq<Row>, c: nat, top: set<nat>, used: set<seq<nat>>, picks: seq<nat>)
    requires 1 <= c && BestThree(rows, Scope(rows, c, top), picks)
    requires forall i :: 0 <= i < |rows| ==> (Fits(rows[i], c, used) <==> i in Scope(rows, c, top))
    ensures forall k :: 0 <= k < |picks| ==> picks[k] < |rows| && rows[picks[k]].combo !in used
  {
    forall k | 0 <= k < |picks| ensures picks[k] < |rows| && rows[picks[k]].combo !in used {
      assert Fits(rows[picks[k]], c, used);
    }
  }

  /**
   `select_model_categories`: a selection exactly for a valid table, and then the best three of
   each scope. Although the program excludes everything picked so far, only the top three
   matter, since the bands do not meet.
   */
  method SelectModelCategories(rows: seq<Row>, n: nat) returns (r: Option<Selection>, ghost picks: seq<seq<nat>>)
    ensures r.Some? <==> ValidTable(rows, n)
    ensures r.Some? ==> Selected(rows, r.value, picks)
  {
    var known := ValidateModelScores(rows, n);
    picks := [];
    if known.None? {
      return None, picks;
    }
    var order := Ranking(rows, |rows|);
    RankingLists(rows, |rows|);
    RankingRanks(rows, |rows|);
    var categories, used;
    ghost var taken;
    categories, used, picks, taken := TakeTop(rows, order, known.value);
    for c := 1 to CATEGORIES
      invariant Selecting(rows, categories, picks, known.value, used, taken) && |picks| == c
    {
      categories, used, picks, taken := TakeBand(rows, order, c, known.value, categories, used, picks, taken);
    }
    r := Some(Selection(categories, |used|, known.value));
  }
}
