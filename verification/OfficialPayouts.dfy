/**
 The payout part of an official race page: reading the two payout lists, and accepting them
 only when they agree with each other, with the withdrawals and with the finishing order.
 */
module OfficialPayouts {
  import opened CredentialIdentity
  import opened FinishOrders
  import opened HistoricalPayouts
  import opened OfficialDetail

  /** A row that can be read: shown, a literal combination of roster cars, a valid amount. */
  predicate Readable(row: DetailPayout, width: nat, roster: set<nat>) {
    && row.combo.Some? && row.amount.Some? && row.shown
    && ParseOrdered(row.combo.value, width).Accepted? && ParseOrdered(row.combo.value, width).value.literal
    && Elements(ParseOrdered(row.combo.value, width).value.cars) <= roster
    && Money(row.amount.value).Accepted?
  }

  function Reading(row: DetailPayout, width: nat, roster: set<nat>): Outcome
    requires Readable(row, width, roster)
  {
    Outcome(ParseOrdered(row.combo.value, width).value.cars, Money(row.amount.value).value)
  }

  predicate AllReadable(rows: seq<DetailPayout>, width: nat, roster: set<nat>) {
    forall i :: 0 <= i < |rows| ==> Readable(rows[i], width, roster)
  }

  ghost predicate CarsRepeat(outcomes: seq<Outcome>) {
    exists i, j :: 0 <= i < j < |outcomes| && outcomes[i].cars == outcomes[j].cars
  }

  /** The combinations paid. */
  function Paid(outcomes: seq<Outcome>): (r: set<seq<nat>>)
    ensures forall i :: 0 <= i < |outcomes| ==> outcomes[i].cars in r
    ensures forall c :: c in r ==> exists i :: 0 <= i < |outcomes| && outcomes[i].cars == c
  {
    set i | 0 <= i < |outcomes| :: outcomes[i].cars
  }

  lemma PaidOneMore(outcomes: seq<Outcome>)
    requires outcomes != []
    ensures var n := |outcomes| - 1; Paid(outcomes) == Paid(outcomes[..n]) + {outcomes[n].cars}
  {
    var n := |outcomes| - 1;
    assert forall i :: 0 <= i < n ==> outcomes[..n][i] == outcomes[i];
  }

  lemma RepeatOneMore(outcomes: seq<Outcome>)
    requires outcomes != []
    ensures var n := |outcomes| - 1;
            CarsRepeat(outcomes) <==> CarsRepeat(outcomes[..n]) || outcomes[n].cars in Paid(outcomes[..n])
  {
    var n := |outcomes| - 1;
    var before := outcomes[..n];
    if CarsRepeat(before) {
      var i, j :| 0 <= i < j < n && before[i].cars == before[j].cars;
      assert outcomes[i].cars == outcomes[j].cars;
    } else if outcomes[n].cars in Paid(before) {
      var i :| 0 <= i < n && before[i].cars == outcomes[n].cars;
      assert outcomes[i].cars == outcomes[n].cars;
    }
  }

  lemma {:induction false} PaidCount(outcomes: seq<Outcome>)
    ensures |Paid(outcomes)| <= |outcomes|
    ensures |Paid(outcomes)| == |outcomes| <==> !CarsRepeat(outcomes)
    decreases |outcomes|
  {
    if outcomes == [] {
      assert Paid(outcomes) == {};
    } else {
      PaidCount(outcomes[..|outcomes| - 1]);
      PaidOneMore(outcomes);
      RepeatOneMore(outcomes);
    }
  }

  /** What the rows say, row by row. */
  function Readings(rows: seq<DetailPayout>, width: nat, roster: set<nat>): seq<Outcome>
    requires AllReadable(rows, width, roster)
  {
    seq(|rows|, i requires 0 <= i < |rows| => Reading(rows[i], width, roster))
  }

  /** The payout list can be used: it has rows, all readable, none paying a combination twice. */
  ghost predicate Usable(rows: seq<DetailPayout>, width: nat, roster: set<nat>) {
    && rows != [] && AllReadable(rows, width, roster)
    && forall i, j :: 0 <= i < j < |rows| ==> Reading(rows[i], width, roster).cars != Reading(rows[j], width, roster).cars
  }

  /** `_ordered_payouts`: accepted exactly when the list is usable, and then it is read row by row. */
  method OrderedPayouts(rows: seq<DetailPayout>, width: nat, roster: set<nat>) returns (r: Checked<seq<Outcome>>)
    ensures r.Accepted? <==> Usable(rows, width, roster)
    ensures r.Accepted? ==> r.value == Readings(rows, width, roster)
  {
    if rows == [] {
      return Refused;
    }
    var outcomes := [];
    for i := 0 to |rows|
      invariant |outcomes| == i
      invariant forall j :: 0 <= j < i ==> Readable(rows[j], width, roster) && outcomes[j] == Reading(rows[j], width, roster)
    {
      if !Readable(rows[i], width, roster) {
        return Refused;
      }
      outcomes := outcomes + [Reading(rows[i], width, roster)];
    }
    PaidCount(outcomes);
    if |Paid(outcomes)| != |outcomes| {
      return Refused;
    }
    return Accepted(outcomes);
  }

  // ----- the finishing order of an untied race

  /** No two ranked cars share a position. */
  ghost predicate Untied(rank: Ranking) {
    forall x, y :: x in rank && y in rank && x != y ==> rank[x] != rank[y]
  }

  function Positions(rows: seq<DetailRow>): seq<nat> {
    if rows == [] then []
    else Positions(rows[..|rows| - 1]) + (match rows[|rows| - 1].finish case None => [] case Some(r) => [r])
  }

  lemma {:induction false} PositionsMean(rows: seq<DetailRow>, r: nat)
    ensures r in Positions(rows) <==> exists i :: 0 <= i < |rows| && rows[i].finish == Some(r)
    decreases |rows|
  {
    if rows != [] {
      var n := |rows| - 1;
      PositionsMean(rows[..n], r);
      assert forall i :: 0 <= i < n ==> rows[..n][i] == rows[i];
    }
  }

  lemma {:induction false} RepetitionShows(s: seq<nat>)
    requires |Elements(s)| == |s|
    ensures Distinct(s)
    decreases |s|
  {
    if s != [] {
      var n := |s| - 1;
      ElementsFit(s[..n]);
      assert Elements(s) == Elements(s[..n]) + {s[n]};
      RepetitionShows(s[..n]);
      assert s[n] !in Elements(s[..n]);
      forall i | 0 <= i < n ensures s[i] != s[n] {
        assert s[..n][i] in Elements(s[..n]);
      }
    }
  }

  lemma {:induction false} ElementsFit(s: seq<nat>)
    ensures |Elements(s)| <= |s|
    decreases |s|
  {
    if s != [] {
      ElementsFit(s[..|s| - 1]);
      assert Elements(s) == Elements(s[..|s| - 1]) + {s[|s| - 1]};
    }
  }

  /** Counting the different positions tells whether the race is untied. */
  lemma {:induction false} PositionsTellTies(rows: seq<DetailRow>)
    requires DetailRows(rows)
    ensures Distinct(Positions(rows)) <==> Untied(FinishRanking(rows))
    decreases |rows|
  {
    if rows != [] {
      var n := |rows| - 1;
      var before := rows[..n];
      PositionsTellTies(before);
      assert forall i :: 0 <= i < n ==> before[i] == rows[i];
      if rows[n].finish.Some? {
        var rank := FinishRanking(before);
        var car, r := rows[n].car, rows[n].finish.value;
        FinishRankingMeans(before, car);
        assert FinishRanking(rows) == rank[car := r];
        PositionsMean(before, r);
        PositionUsed(before, r);
        UntiedOneMore(rank, car, r);
        DistinctOneMore(Positions(before), r);
      } else {
        assert Positions(rows) == Positions(before);
      }
    }
  }

  lemma PositionUsed(rows: seq<DetailRow>, r: nat)
    requires DetailRows(rows)
    ensures (exists x :: x in FinishRanking(rows) && FinishRanking(rows)[x] == r) <==> r in Positions(rows)
  {
    PositionsMean(rows, r);
    if x :| x in FinishRanking(rows) && FinishRanking(rows)[x] == r {
      FinishRankingMeans(rows, x);
    }
    if i :| 0 <= i < |rows| && rows[i].finish == Some(r) {
      FinishRankingMeans(rows, rows[i].car);
    }
  }

  lemma UntiedOneMore(rank: Ranking, car: nat, r: nat)
    requires car !in rank
    ensures Untied(rank[car := r]) <==> Untied(rank) && !exists x :: x in rank && rank[x] == r
  {
    var more := rank[car := r];
    if Untied(more) {
      forall x | x in rank ensures rank[x] != r {
        assert more[x] != more[car];
      }
      forall x, y | x in rank && y in rank && x != y ensures rank[x] != rank[y] {
        assert more[x] != more[y];
      }
    }
  }

  lemma DistinctOneMore(s: seq<nat>, r: nat)
    ensures Distinct(s + [r]) <==> Distinct(s) && r !in s
  {
    var t := s + [r];
    if Distinct(t) {
      forall i | 0 <= i < |s| ensures s[i] != r {
        assert t[i] != t[|s|];
      }
      forall i, j | 0 <= i < j < |s| ensures s[i] != s[j] {
        assert t[i] != t[j];
      }
    }
  }

  /** The first car listed at a position, if there is one. */
  function CarAt(rows: seq<DetailRow>, position: nat): Option<nat> {
    if rows == [] then None
    else if rows[0].finish == Some(position) then Some(rows[0].car)
    else CarAt(rows[1..], position)
  }

  lemma {:induction false} CarAtMeans(rows: seq<DetailRow>, position: nat)
    ensures CarAt(rows, position).Some? ==>
              exists i :: 0 <= i < |rows| && rows[i].finish == Some(position) && rows[i].car == CarAt(rows, position).value
    ensures CarAt(rows, position).None? ==> forall i :: 0 <= i < |rows| ==> rows[i].finish != Some(position)
    decreases |rows|
  {
    if rows != [] {
      CarAtMeans(rows[1..], position);
      assert rows == [rows[0]] + rows[1..];
    }
  }

  lemma CarAtIsRanked(rows: seq<DetailRow>, position: nat)
    requires DetailRows(rows)
    ensures CarAt(rows, position).Some? ==> var car := CarAt(rows, position).value;
              car in FinishRanking(rows) && FinishRanking(rows)[car] == position
    ensures CarAt(rows, position).None? ==> forall car :: car in FinishRanking(rows) ==> FinishRanking(rows)[car] != position
  {
    CarAtMeans(rows, position);
    if CarAt(rows, position).Some? {
      FinishRankingMeans(rows, CarAt(rows, position).value);
    } else {
      forall car | car in FinishRanking(rows) ensures FinishRanking(rows)[car] != position {
        FinishRankingMeans(rows, car);
      }
    }
  }

  /** These three cars hold positions one to three. */
  ghost predicate TopThree(top: seq<nat>, rank: Ranking) {
    && |top| == 3 && (forall i :: 0 <= i < 3 ==> top[i] in rank)
    && rank[top[0]] == 1 && rank[top[1]] == 2 && rank[top[2]] == 3
  }

  // ----- agreement

  /** The first two cars of every triple. */
  function Pairs(triples: set<seq<nat>>): set<seq<nat>>
    requires forall t :: t in triples ==> |t| == 3
  {
    set t | t in triples :: t[..2]
  }

  /** A ranking whose first three places the page can be checked against. */
  ghost predicate PlacesKnown(rank: Ranking) {
    if Untied(rank) then exists top :: TopThree(top, rank)
    else CompetitionRanks(rank) && |rank| >= 3
  }

  ghost predicate PaysNone(outcomes: seq<Outcome>, cars: set<nat>) {
    forall i :: 0 <= i < |outcomes| ==> Elements(outcomes[i].cars) * cars == {}
  }

  /** Exactly the payable combinations of this width are paid. */
  ghost predicate PaysExactly(outcomes: seq<Outcome>, width: nat, rank: Ranking) {
    forall combo :: combo in Paid(outcomes) <==> FinishPrefix(combo, width, rank)
  }

  /** The lists pay exactly what the finish makes payable, nothing to a withdrawn car, at known places. */
  ghost predicate PaysTheFinish(exacta: seq<Outcome>, trifecta: seq<Outcome>, rank: Ranking, withdrawn: set<nat>) {
    && PlacesKnown(rank) && PaysNone(trifecta, withdrawn)
    && PaysExactly(exacta, 2, rank) && PaysExactly(trifecta, 3, rank)
  }

  lemma {:induction false} LastRanked(rank: Ranking) returns (car: nat)
    requires rank != map[]
    ensures car in rank && forall x :: x in rank ==> rank[x] <= rank[car]
    decreases |rank|
  {
    var some := Pick(rank.Keys);
    var others := rank - {some};
    car := some;
    if others != map[] {
      var last := LastRanked(others);
      car := if rank[last] > rank[some] then last else some;
    }
    forall x | x in rank ensures rank[x] <= rank[car] {
      assert x == some || x in others;
    }
  }

  /** Every ranking has an order that respects it. */
  lemma {:induction false} OrderExists(rank: Ranking) returns (order: seq<nat>)
    ensures RespectsRank(order, rank)
    decreases |rank|
  {
    if rank == map[] {
      order := [];
    } else {
      var last := LastRanked(rank);
      var before := OrderExists(rank - {last});
      order := before + [last];
      assert forall i :: 0 <= i < |before| ==> before[i] in Elements(before);
      assert Elements(order) == Elements(before) + {last};
      assert rank.Keys == (rank - {last}).Keys + {last};
    }
  }

  /** An order starts with the car that alone holds the next position. */
  lemma NextInOrder(order: seq<nat>, rank: Ranking, k: nat, car: nat)
    requires RespectsRank(order, rank) && Untied(rank) && k < |order|
    requires car in rank && rank[car] == k + 1 && car !in order[..k]
    requires forall x :: x in rank && rank[x] <= k ==> x in order[..k]
    ensures order[k] == car
  {
    assert car in Elements(order);
    var j :| 0 <= j < |order| && order[j] == car;
    assert j >= k;
    assert order[k] in Elements(order);
    assert rank[order[k]] > k;
  }

  lemma TopThreeFirst(order: seq<nat>, rank: Ranking, top: seq<nat>)
    requires RespectsRank(order, rank) && Untied(rank) && TopThree(top, rank) && forall x :: x in rank ==> rank[x] >= 1
    ensures |order| >= 3 && order[..3] == top
  {
    DistinctCount(order);
    SubsetCount({top[0], top[1], top[2]}, rank.Keys);
    NextInOrder(order, rank, 0, top[0]);
    NextInOrder(order, rank, 1, top[1]);
    NextInOrder(order, rank, 2, top[2]);
  }

  /** In an untied race whose first three positions are held, they are the one payable triple. */
  lemma UntiedTriple(rank: Ranking, top: seq<nat>, combo: seq<nat>)
    requires Untied(rank) && TopThree(top, rank) && forall x :: x in rank ==> rank[x] >= 1
    ensures FinishPrefix(combo, 3, rank) <==> combo == top
  {
    if FinishPrefix(combo, 3, rank) {
      var order :| RespectsRank(order, rank) && 3 <= |order| && combo == order[..3];
      TopThreeFirst(order, rank, top);
    }
    var order := OrderExists(rank);
    TopThreeFirst(order, rank, top);
    assert FinishPrefix(top, 3, rank);
  }

  lemma RankedThree(rank: Ranking)
    requires PlacesKnown(rank)
    ensures |rank| >= 3
  {
    if Untied(rank) {
      var top :| TopThree(top, rank);
      assert |{top[0], top[1], top[2]}| == 3;
      SubsetCount({top[0], top[1], top[2]}, rank.Keys);
    }
  }

  /** Pairs that are those of exactly the payable triples are exactly the payable pairs. */
  lemma PairsArePayable(exacta: seq<Outcome>, trifecta: seq<Outcome>, rank: Ranking)
    requires |rank| >= 3 && PaysExactly(trifecta, 3, rank) && forall t :: t in Paid(trifecta) ==> |t| == 3
    ensures Paid(exacta) == Pairs(Paid(trifecta)) <==> PaysExactly(exacta, 2, rank)
  {
    forall pair ensures pair in Pairs(Paid(trifecta)) <==> FinishPrefix(pair, 2, rank) {
      PairsFromTriples(rank, pair);
      if triple :| FinishPrefix(triple, 3, rank) && triple[..2] == pair {
        assert triple in Paid(trifecta);
      }
    }
  }

  // ----- the comparison of the page

  ghost predicate TriplesOnly(outcomes: seq<Outcome>) {
    outcomes != [] && !CarsRepeat(outcomes) && forall i :: 0 <= i < |outcomes| ==> |outcomes[i].cars| == 3
  }

  lemma AllSame(outcomes: seq<Outcome>, cars: seq<nat>)
    requires forall i :: 0 <= i < |outcomes| ==> outcomes[i].cars == cars
    ensures |outcomes| > 1 ==> CarsRepeat(outcomes)
  {
    assert |outcomes| > 1 ==> outcomes[0].cars == outcomes[1].cars;
  }

  lemma OnlyOne(trifecta: seq<Outcome>, top: seq<nat>, rank: Ranking)
    requires TriplesOnly(trifecta) && Untied(rank) && TopThree(top, rank) && forall x :: x in rank ==> rank[x] >= 1
    ensures |trifecta| == 1 && trifecta[0].cars == top <==> PaysExactly(trifecta, 3, rank)
  {
    forall combo ensures FinishPrefix(combo, 3, rank) <==> combo == top {
      UntiedTriple(rank, top, combo);
    }
    if PaysExactly(trifecta, 3, rank) {
      forall i | 0 <= i < |trifecta| ensures trifecta[i].cars == top {
        assert trifecta[i].cars in Paid(trifecta);
      }
      AllSame(trifecta, top);
    }
  }

  lemma UsableTriples(rows: seq<DetailPayout>, roster: set<nat>, outcomes: seq<Outcome>)
    requires Usable(rows, 3, roster) && outcomes == Readings(rows, 3, roster)
    ensures TriplesOnly(outcomes)
  {
    forall i | 0 <= i < |outcomes| ensures |outcomes[i].cars| == 3 {
      assert outcomes[i] == Reading(rows[i], 3, roster);
    }
  }

  /** The comparison with the finish in the untied case: one triple, the cars at positions one to three. */
  method UntiedAgrees(rows: seq<DetailRow>, trifecta: seq<Outcome>) returns (ok: bool)
    requires DetailRows(rows) && Untied(FinishRanking(rows)) && TriplesOnly(trifecta)
    ensures ok <==> PlacesKnown(FinishRanking(rows)) && PaysExactly(trifecta, 3, FinishRanking(rows))
  {
    ghost var rank := FinishRanking(rows);
    var first, second, third := CarAt(rows, 1), CarAt(rows, 2), CarAt(rows, 3);
    CarAtIsRanked(rows, 1);
    CarAtIsRanked(rows, 2);
    CarAtIsRanked(rows, 3);
    if first.None? || second.None? || third.None? {
      return false;
    }
    var top := [first.value, second.value, third.value];
    forall x | x in rank ensures rank[x] >= 1 {
      FinishRankingMeans(rows, x);
    }
    assert TopThree(top, rank);
    OnlyOne(trifecta, top, rank);
    ok := |trifecta| == 1 && trifecta[0].cars == top;
  }

  /** The comparison in the tied case, with both enumerations. */
  method TiedAgrees(rows: seq<DetailRow>, exacta: seq<Outcome>, trifecta: seq<Outcome>) returns (ok: bool)
    requires DetailRows(rows) && !Untied(FinishRanking(rows))
    ensures ok <==> && PlacesKnown(FinishRanking(rows))
                    && PaysExactly(exacta, 2, FinishRanking(rows)) && PaysExactly(trifecta, 3, FinishRanking(rows))
  {
    var pairs := TiedRankOutcomes(rows, 2);
    if pairs.Refused? {
      return false;
    }
    var triples := TiedRankOutcomes(rows, 3);
    if triples.Refused? {
      return false;
    }
    ok := Paid(exacta) == pairs.value && Paid(trifecta) == triples.value;
  }

  /** Whether any paid triple contains a withdrawn car. */
  method PaysWithdrawn(trifecta: seq<Outcome>, withdrawn: set<nat>) returns (found: bool)
    ensures found <==> !PaysNone(trifecta, withdrawn)
  {
    found := exists i :: 0 <= i < |trifecta| && Elements(trifecta[i].cars) * withdrawn != {};
  }

  /**
   The payout comparison of `_observation`. Both lists are taken into the summary exactly when
   each is usable and together they pay exactly what the finishing order makes payable, no
   triple touching a withdrawn car. In an untied race the code compares only the first three
   positions; that is the same comparison whenever those positions are held.
   */
  method PayoutsAgree(rows: seq<DetailRow>, roster: set<nat>, withdrawn: set<nat>,
                      exactaRows: seq<DetailPayout>, trifectaRows: seq<DetailPayout>)
    returns (r: Checked<(seq<Outcome>, seq<Outcome>)>)
    requires DetailRows(rows)
    ensures r.Accepted? <==> PageAccepted(rows, roster, withdrawn, exactaRows, trifectaRows)
    ensures r.Accepted? ==> r.value == (Readings(exactaRows, 2, roster), Readings(trifectaRows, 3, roster))
  {
    var exacta := OrderedPayouts(exactaRows, 2, roster);
    if exacta.Refused? {
      return Refused;
    }
    var trifecta := OrderedPayouts(trifectaRows, 3, roster);
    if trifecta.Refused? {
      return Refused;
    }
    UsableTriples(trifectaRows, roster, trifecta.value);
    var ok := ListsAgree(rows, withdrawn, exacta.value, trifecta.value);
    if !ok {
      return Refused;
    }
    return Accepted((exacta.value, trifecta.value));
  }

  method ListsAgree(rows: seq<DetailRow>, withdrawn: set<nat>, exacta: seq<Outcome>, trifecta: seq<Outcome>)
    returns (ok: bool)
    requires DetailRows(rows) && TriplesOnly(trifecta)
    ensures ok <==> PaysTheFinish(exacta, trifecta, FinishRanking(rows), withdrawn)
  {
    ghost var rank := FinishRanking(rows);
    if PlacesKnown(rank) && PaysExactly(trifecta, 3, rank) {
      RankedThree(rank);
      PairsArePayable(exacta, trifecta, rank);
    }
    if Paid(exacta) != Pairs(Paid(trifecta)) {
      return false;
    }
    var paysWithdrawn := PaysWithdrawn(trifecta, withdrawn);
    if paysWithdrawn {
      return false;
    }
    var positions := Positions(rows);
    DistinctPositions(positions);
    PositionsTellTies(rows);
    if |positions| == |Elements(positions)| {
      ok := UntiedAgrees(rows, trifecta);
    } else {
      ok := TiedAgrees(rows, exacta, trifecta);
    }
  }

  lemma DistinctPositions(positions: seq<nat>)
    ensures |positions| == |Elements(positions)| <==> Distinct(positions)
  {
    if Distinct(positions) {
      DistinctCount(positions);
    }
    if |positions| == |Elements(positions)| {
      RepetitionShows(positions);
    }
  }

  // ----- what the untied comparison leaves open

  /** `PayoutsAgree` takes both lists into the summary. */
  ghost predicate PageAccepted(rows: seq<DetailRow>, roster: set<nat>, withdrawn: set<nat>,
                               exactaRows: seq<DetailPayout>, trifectaRows: seq<DetailPayout>)
    requires DetailRows(rows)
  {
    && Usable(exactaRows, 2, roster) && Usable(trifectaRows, 3, roster)
    && PaysTheFinish(Readings(exactaRows, 2, roster), Readings(trifectaRows, 3, roster), FinishRanking(rows), withdrawn)
  }

  /** What is asked of a tied page, asked of any page: enough cars, competition ranks, exact payouts. */
  ghost predicate FullyChecked(rows: seq<DetailRow>, roster: set<nat>, withdrawn: set<nat>,
                               exactaRows: seq<DetailPayout>, trifectaRows: seq<DetailPayout>)
    requires DetailRows(rows)
  {
    var rank := FinishRanking(rows);
    && CompetitionRanks(rank) && |rank| >= 3
    && Usable(exactaRows, 2, roster) && Usable(trifectaRows, 3, roster)
    && PaysNone(Readings(trifectaRows, 3, roster), withdrawn)
    && PaysExactly(Readings(exactaRows, 2, roster), 2, rank) && PaysExactly(Readings(trifectaRows, 3, roster), 3, rank)
  }

  /** No awarded position lies beyond the number of awarded positions. */
  predicate NoGap(rows: seq<DetailRow>) {
    forall p :: p in Positions(rows) ==> p <= |Positions(rows)|
  }

  ghost predicate FromOne(rank: Ranking) {
    forall x :: x in rank ==> rank[x] >= 1
  }

  ghost predicate WithinCount(rank: Ranking) {
    forall x :: x in rank ==> rank[x] <= |rank|
  }

  lemma {:induction false} PositionsCount(rows: seq<DetailRow>)
    requires DetailRows(rows)
    ensures |Positions(rows)| == |FinishRanking(rows)|
    decreases |rows|
  {
    if rows != [] {
      var n := |rows| - 1;
      PositionsCount(rows[..n]);
      assert forall i :: 0 <= i < n ==> rows[..n][i] == rows[i];
      FinishRankingMeans(rows[..n], rows[n].car);
    }
  }

  lemma GapMeans(rows: seq<DetailRow>)
    requires DetailRows(rows)
    ensures FromOne(FinishRanking(rows))
    ensures NoGap(rows) <==> WithinCount(FinishRanking(rows))
  {
    var rank := FinishRanking(rows);
    PositionsCount(rows);
    forall x | x in rank ensures 1 <= rank[x] && rank[x] in Positions(rows) {
      FinishRankingMeans(rows, x);
      PositionUsed(rows, rank[x]);
    }
    forall p | p in Positions(rows) ensures exists x :: x in rank && rank[x] == p {
      PositionUsed(rows, p);
    }
  }

  /** Each position adds at most one car of an untied ranking. */
  lemma {:induction false} AheadGrows(rank: Ranking, a: nat, b: nat)
    requires Untied(rank) && a <= b
    ensures |Ahead(rank, a)| <= |Ahead(rank, b)| <= |Ahead(rank, a)| + (b - a)
    decreases b
  {
    if a < b {
      AheadGrows(rank, a, b - 1);
      var fewer, more := Ahead(rank, b - 1), Ahead(rank, b);
      SubsetCount(fewer, more);
      if more - fewer != {} {
        var x := Pick(more - fewer);
        assert more == fewer + {x};
      } else {
        assert more <= fewer;
      }
    }
  }

  /** Positions that stay within the number of cars leave no position out. */
  lemma AheadExactly(rank: Ranking, r: nat)
    requires Untied(rank) && FromOne(rank) && WithinCount(rank) && 1 <= r <= |rank| + 1
    ensures |Ahead(rank, r)| == r - 1
  {
    assert Ahead(rank, 1) == {};
    assert Ahead(rank, |rank| + 1) == rank.Keys;
    AheadGrows(rank, 1, r);
    AheadGrows(rank, r, |rank| + 1);
  }

  /** An untied ranking has competition ranks exactly when no position is beyond the number of cars. */
  lemma UntiedCompetition(rank: Ranking)
    requires Untied(rank) && FromOne(rank)
    ensures CompetitionRanks(rank) <==> WithinCount(rank)
  {
    if CompetitionRanks(rank) {
      forall x | x in rank ensures rank[x] <= |rank| {
        SubsetCount(Ahead(rank, rank[x]), rank.Keys - {x});
      }
    }
    if WithinCount(rank) {
      forall x | x in rank ensures rank[x] == 1 + |Ahead(rank, rank[x])| {
        AheadExactly(rank, rank[x]);
      }
    }
  }

  lemma HeldPosition(rank: Ranking, r: nat) returns (car: nat)
    requires Untied(rank) && FromOne(rank) && WithinCount(rank) && 1 <= r <= |rank|
    ensures car in rank && rank[car] == r
  {
    AheadExactly(rank, r);
    AheadExactly(rank, r + 1);
    SubsetCount(Ahead(rank, r), Ahead(rank, r + 1));
    assert Ahead(rank, r) != Ahead(rank, r + 1);
    car :| car in Ahead(rank, r + 1) - Ahead(rank, r);
  }

  lemma TopThreeHeld(rank: Ranking)
    requires Untied(rank) && FromOne(rank) && WithinCount(rank) && |rank| >= 3
    ensures PlacesKnown(rank)
  {
    var first := HeldPosition(rank, 1);
    var second := HeldPosition(rank, 2);
    var third := HeldPosition(rank, 3);
    assert TopThree([first, second, third], rank);
  }

  /**
   An accepted page would also pass the full check of positions exactly when it is tied or no
   awarded position lies beyond their number; and every page passing the full check is accepted.
   */
  lemma UntiedSkipsRankCheck(rows: seq<DetailRow>, roster: set<nat>, withdrawn: set<nat>,
                             exactaRows: seq<DetailPayout>, trifectaRows: seq<DetailPayout>)
    requires DetailRows(rows)
    ensures FullyChecked(rows, roster, withdrawn, exactaRows, trifectaRows) <==>
              && PageAccepted(rows, roster, withdrawn, exactaRows, trifectaRows)
              && (Distinct(Positions(rows)) ==> NoGap(rows))
  {
    var rank := FinishRanking(rows);
    PositionsTellTies(rows);
    GapMeans(rows);
    if Untied(rank) {
      UntiedCompetition(rank);
      if PlacesKnown(rank) {
        RankedThree(rank);
      }
      if WithinCount(rank) && |rank| >= 3 {
        TopThreeHeld(rank);
      }
    }
  }

  /** The payout list of one combination at one amount. */
  function SinglePayout(cars: seq<nat>, amount: string): seq<DetailPayout>
    requires forall i :: 0 <= i < |cars| ==> 1 <= cars[i] <= 9
  {
    [DetailPayout(Some(Written(cars)), Some(amount), true)]
  }

  lemma SingleUsable(cars: seq<nat>, amount: string, roster: set<nat>)
    requires (|cars| == 2 || |cars| == 3) && Distinct(cars) && forall i :: 0 <= i < |cars| ==> 1 <= cars[i] <= 9
    requires Elements(cars) <= roster && Money(amount).Accepted?
    ensures Usable(SinglePayout(cars, amount), |cars|, roster)
    ensures Readings(SinglePayout(cars, amount), |cars|, roster) == [Outcome(cars, Money(amount).value)]
  {
    ParseWritten(cars);
  }

  lemma SinglePays(cars: seq<nat>, yen: nat, rank: Ranking)
    requires forall combo :: FinishPrefix(combo, |cars|, rank) <==> combo == cars
    ensures PaysExactly([Outcome(cars, yen)], |cars|, rank)
  {
    SinglePaid(cars, yen);
  }

  lemma SinglePaid(cars: seq<nat>, yen: nat)
    ensures Paid([Outcome(cars, yen)]) == {cars}
  {
    var outcomes := [Outcome(cars, yen)];
    assert outcomes[0].cars in Paid(outcomes);
  }

  /** Paying the first three cars and their pair is paying the finish, if none of them withdrew. */
  lemma TopThreePaid(rank: Ranking, top: seq<nat>, withdrawn: set<nat>, yen: nat)
    requires Untied(rank) && FromOne(rank) && TopThree(top, rank) && Elements(top) * withdrawn == {}
    ensures PaysTheFinish([Outcome(top[..2], yen)], [Outcome(top, yen)], rank, withdrawn)
  {
    forall combo ensures FinishPrefix(combo, 3, rank) <==> combo == top {
      UntiedTriple(rank, top, combo);
    }
    SinglePays(top, yen, rank);
    SinglePaid(top, yen);
    SinglePaid(top[..2], yen);
    RankedThree(rank);
    assert Pairs({top}) == {top[..2]};
    PairsArePayable([Outcome(top[..2], yen)], [Outcome(top, yen)], rank);
  }

  /** Whatever the positions below the third, the page that pays the first three cars is accepted. */
  lemma TopThreeAccepted(rows: seq<DetailRow>, roster: set<nat>, withdrawn: set<nat>, top: seq<nat>, amount: string)
    requires DetailRows(rows) && Distinct(Positions(rows)) && TopThree(top, FinishRanking(rows))
    requires Elements(top) <= roster && Elements(top) * withdrawn == {} && Money(amount).Accepted?
    requires forall i :: 0 <= i < 3 ==> 1 <= top[i] <= 9
    ensures PageAccepted(rows, roster, withdrawn, SinglePayout(top[..2], amount), SinglePayout(top, amount))
  {
    PositionsTellTies(rows);
    GapMeans(rows);
    TopThreePaid(FinishRanking(rows), top, withdrawn, Money(amount).value);
    FirstTwo(top);
    SingleUsable(top, amount, roster);
    SingleUsable(top[..2], amount, roster);
  }

  lemma FirstTwo(top: seq<nat>)
    requires |top| == 3
    ensures Elements(top[..2]) <= Elements(top)
  {
  }

  lemma {:induction false} PositionsFit(rows: seq<DetailRow>)
    ensures |Positions(rows)| <= |rows|
    decreases |rows|
  {
    if rows != [] {
      PositionsFit(rows[..|rows| - 1]);
    }
  }

  /** Four rows in position order with the fourth beyond their number. */
  ghost predicate GapRows(rows: seq<DetailRow>) {
    && |rows| == 4 && (forall i :: 0 <= i < 4 ==> rows[i].car == i + 1 && !rows[i].withdrawn)
    && (forall i :: 0 <= i < 3 ==> rows[i].finish == Some(i + 1)) && rows[3].finish == Some(5)
  }

  lemma GapRanking(rows: seq<DetailRow>)
    requires GapRows(rows)
    ensures DetailRows(rows) && Distinct(Positions(rows)) && TopThree([1, 2, 3], FinishRanking(rows)) && !NoGap(rows)
  {
    var rank := FinishRanking(rows);
    forall x | x in rank ensures 1 <= x <= 4 && rows[x - 1].finish == Some(rank[x]) {
      FinishRankingMeans(rows, x);
    }
    forall x | 1 <= x <= 3 ensures x in rank && rank[x] == x {
      FinishRankingMeans(rows, x);
      assert rows[x - 1].car == x;
    }
    PositionsTellTies(rows);
    PositionsFit(rows);
    PositionsMean(rows, 5);
  }

  /** A page with positions 1, 2, 3 and 5 is accepted, though its positions would not pass the full check. */
  lemma GapAccepted(rows: seq<DetailRow>)
    requires GapRows(rows)
    ensures exists exacta, trifecta ::
              && PageAccepted(rows, {1, 2, 3, 4}, {}, exacta, trifecta)
              && !FullyChecked(rows, {1, 2, 3, 4}, {}, exacta, trifecta)
  {
    var top: seq<nat> := [1, 2, 3];
    GapRanking(rows);
    assert Money("120").Accepted?;
    TopThreeAccepted(rows, {1, 2, 3, 4}, {}, top, "120");
    UntiedSkipsRankCheck(rows, {1, 2, 3, 4}, {}, SinglePayout(top[..2], "120"), SinglePayout(top, "120"));
  }
}
