/**
 Offline payout normalisation: read the finishing ranks of a race, list the payable
 combinations, and accept its payout rows only if they are exactly those combinations.
 */
module HistoricalPayouts {
  import opened CredentialIdentity
  import opened FinishOrders

  datatype Checked<+T> = Accepted(value: T) | Refused

  /** The `Rank` cell: empty, the fault abbreviation, or any other text. */
  datatype RankText = NoRank | FaultMark | RankText(text: string)

  /** The `Status` cell: empty, one of the four recorded non-finishes, or any other text. */
  datatype StatusText = NoStatus | Absent | Fell | Fault | Disqualified | OtherStatus(text: string)

  datatype ResultRow = ResultRow(car: string, player: string, rank: RankText, status: StatusText)
  datatype PayoutRow = PayoutRow(outcome: string, payout: string)

  predicate OneToNine(c: char) { '1' <= c <= '9' }
  predicate Digit(c: char) { '0' <= c <= '9' }
  function DigitValue(c: char): nat requires Digit(c) { c as int - '0' as int }

  /** `_car`: one digit from 1 to 9. */
  function ParseCar(s: string): Option<nat> {
    if |s| == 1 && OneToNine(s[0]) then Some(DigitValue(s[0])) else None
  }

  predicate PlayerId(s: string) {
    s != "" && forall i :: 0 <= i < |s| ==> Digit(s[i])
  }

  /** The rank a row awards: a rank within the field, none for a recorded non-finish, else refused. */
  function AwardedRank(row: ResultRow, field: nat): Checked<Option<nat>> {
    var fault := row.rank.FaultMark? && row.status.NoStatus?;
    var rank, status := if fault then NoRank else row.rank, if fault then Fault else row.status;
    if status.NoStatus? then
      (if !rank.RankText? || ParseCar(rank.text).None? || ParseCar(rank.text).value > field then Refused
       else Accepted(ParseCar(rank.text)))
    else if !status.OtherStatus? && rank.NoRank? then Accepted(None)
    else Refused
  }

  predicate ReadableRow(row: ResultRow, field: nat) {
    ParseCar(row.car).Some? && PlayerId(row.player) && AwardedRank(row, field).Accepted?
  }

  predicate ReadableRows(rows: seq<ResultRow>, field: nat) {
    && (forall i :: 0 <= i < |rows| ==> ReadableRow(rows[i], field))
    && (forall i, j :: 0 <= i < j < |rows| ==> rows[i].car != rows[j].car && rows[i].player != rows[j].player)
  }

  /** The ranking the rows award. */
  function RankingOf(rows: seq<ResultRow>, field: nat): Ranking
    requires ReadableRows(rows, field)
  {
    if rows == [] then map[]
    else
      var n := |rows| - 1;
      var before := RankingOf(rows[..n], field);
      match AwardedRank(rows[n], field).value
      case None => before
      case Some(r) => before[ParseCar(rows[n].car).value := r]
  }

  lemma {:induction false} RankedCarsAreListed(rows: seq<ResultRow>, field: nat, car: nat)
    requires ReadableRows(rows, field) && car in RankingOf(rows, field)
    ensures exists i :: 0 <= i < |rows| && ParseCar(rows[i].car) == Some(car)
    ensures 1 <= RankingOf(rows, field)[car] <= 9
    decreases |rows|
  {
    var n := |rows| - 1;
    if AwardedRank(rows[n], field).value.Some? && ParseCar(rows[n].car).value == car {
    } else {
      RankedCarsAreListed(rows[..n], field, car);
      var i :| 0 <= i < n && ParseCar(rows[..n][i].car) == Some(car);
      assert rows[i] == rows[..n][i];
    }
  }

  lemma SameCarSameText(a: string, b: string)
    requires ParseCar(a).Some? && ParseCar(a) == ParseCar(b)
    ensures a == b
  {
  }

  // ----- sorted cars of one group

  function InsertCar(car: nat, cars: seq<nat>): seq<nat> {
    if cars == [] || car <= cars[0] then [car] + cars else [cars[0]] + InsertCar(car, cars[1..])
  }

  function SortCars(cars: seq<nat>): seq<nat> {
    if cars == [] then [] else InsertCar(cars[0], SortCars(cars[1..]))
  }

  ghost predicate Increasing(cars: seq<nat>) {
    forall i, j :: 0 <= i < j < |cars| ==> cars[i] < cars[j]
  }

  lemma {:induction false} InsertCarSorts(car: nat, cars: seq<nat>)
    requires Increasing(cars) && car !in cars
    ensures Increasing(InsertCar(car, cars)) && Elements(InsertCar(car, cars)) == Elements(cars) + {car}
    decreases |cars|
  {
    if cars != [] && car > cars[0] {
      InsertCarSorts(car, cars[1..]);
      var tail := InsertCar(car, cars[1..]);
      assert cars == [cars[0]] + cars[1..];
      forall j | 0 <= j < |tail| ensures cars[0] < tail[j] {
        assert tail[j] in Elements(tail);
      }
    }
  }

  lemma {:induction false} SortCarsSorts(cars: seq<nat>)
    requires Distinct(cars)
    ensures Increasing(SortCars(cars)) && Elements(SortCars(cars)) == Elements(cars)
    decreases |cars|
  {
    if cars != [] {
      SortCarsSorts(cars[1..]);
      assert cars == [cars[0]] + cars[1..];
      assert cars[0] !in Elements(cars[1..]);
      InsertCarSorts(cars[0], SortCars(cars[1..]));
    }
  }

  // ----- groups by rank

  /** `ranks` lists, for each awarded rank, exactly the cars that have it. */
  ghost predicate ListsRanking(ranks: map<nat, seq<nat>>, rank: Ranking) {
    && (forall car :: car in rank ==> rank[car] in ranks)
    && (forall r :: r in ranks ==> ranks[r] != [] && Distinct(ranks[r]))
    && (forall r, car :: r in ranks && car in ranks[r] ==> car in rank && rank[car] == r)
    && (forall car :: car in rank && rank[car] in ranks ==> car in ranks[rank[car]])
  }

  lemma ListOneMore(ranks: map<nat, seq<nat>>, rank: Ranking, car: nat, r: nat)
    requires ListsRanking(ranks, rank) && car !in rank
    ensures ListsRanking(ranks[r := (if r in ranks then ranks[r] else []) + [car]], rank[car := r])
  {
  }

  ghost function Below(rank: Ranking, r: nat): Ranking {
    map car | car in rank && rank[car] < r :: rank[car]
  }

  lemma {:induction false} GroupedOneMore(groups: seq<seq<nat>>, rank: Ranking, group: seq<nat>, more: Ranking, r: nat)
    requires Grouped(groups, rank) && group != [] && Distinct(group)
    requires more.Keys == rank.Keys + Elements(group) && rank.Keys !! Elements(group)
    requires forall car :: car in rank ==> more[car] == rank[car] && rank[car] < r
    requires forall car :: car in group ==> more[car] == r
    ensures Grouped(groups + [group], more)
    decreases |groups|
  {
    if groups == [] {
      assert (groups + [group])[1..] == [];
      assert more - Elements(group) == map[];
    } else {
      var first := Elements(groups[0]);
      assert (groups + [group])[0] == groups[0] && (groups + [group])[1..] == groups[1..] + [group];
      assert TiedFirst(first, more);
      GroupedOneMore(groups[1..], rank - first, group, more - first, r);
    }
  }

  lemma AheadNext(rank: Ranking, r: nat, group: seq<nat>)
    requires Distinct(group) && forall car :: car in group <==> car in rank && rank[car] == r
    ensures |Ahead(rank, r + 1)| == |Ahead(rank, r)| + |group|
  {
    DistinctCount(group);
    assert Ahead(rank, r + 1) == Ahead(rank, r) + Elements(group);
  }

  /**
   `_result_groups`. Accepted exactly when every row is readable, no car or player repeats,
   and the awarded ranks are competition ranks; then the groups list the ranking, each
   group in car order.
   */
  method ResultGroups(rows: seq<ResultRow>) returns (r: Checked<seq<seq<nat>>>)
    ensures r.Accepted? <==> 3 <= |rows| <= 9 && ReadableRows(rows, |rows|) && CompetitionRanks(RankingOf(rows, |rows|))
    ensures r.Accepted? ==> Grouped(r.value, RankingOf(rows, |rows|))
                            && forall g :: g in r.value ==> Increasing(g)
  {
    if !(3 <= |rows| <= 9) {
      return Refused;
    }
    var cars: set<nat>, players: set<string>, ranks: map<nat, seq<nat>> := {}, {}, map[];
    for i := 0 to |rows|
      invariant ReadSoFar(rows, i, cars, players, ranks)
    {
      var row := rows[i];
      var car := ParseCar(row.car);
      if car.None? || !PlayerId(row.player) {
        assert !ReadableRow(rows[i], |rows|);
        return Refused;
      }
      if car.value in cars || row.player in players {
        RepeatedRow(rows, i, car.value in cars);
        return Refused;
      }
      var awarded := AwardedRank(row, |rows|);
      if awarded.Refused? {
        assert !ReadableRow(rows[i], |rows|);
        return Refused;
      }
      ghost var before := ranks;
      if awarded.value.Some? {
        var rank := awarded.value.value;
        ranks := ranks[rank := (if rank in ranks then ranks[rank] else []) + [car.value]];
      }
      ReadOneMore(rows, i, cars, players, before, ranks);
      cars, players := cars + {car.value}, players + {row.player};
    }
    assert rows[..|rows|] == rows;
    RanksAreDigits(rows, |rows|);
    r := GroupRanks(ranks, RankingOf(rows, |rows|));
  }

  /** What the first loop has gathered from the first `i` rows. */
  ghost predicate ReadSoFar(rows: seq<ResultRow>, i: nat, cars: set<nat>, players: set<string>, ranks: map<nat, seq<nat>>) {
    && i <= |rows| && ReadableRows(rows[..i], |rows|)
    && (forall c :: c in cars <==> exists j :: 0 <= j < i && ParseCar(rows[j].car) == Some(c))
    && (forall p :: p in players <==> exists j :: 0 <= j < i && rows[j].player == p)
    && ListsRanking(ranks, RankingOf(rows[..i], |rows|))
  }

  lemma ReadOneMore(rows: seq<ResultRow>, i: nat, cars: set<nat>, players: set<string>,
                    ranks: map<nat, seq<nat>>, after: map<nat, seq<nat>>)
    requires ReadSoFar(rows, i, cars, players, ranks) && i < |rows| && ReadableRow(rows[i], |rows|)
    requires ParseCar(rows[i].car).value !in cars && rows[i].player !in players
    requires after == match AwardedRank(rows[i], |rows|).value
                      case None => ranks
                      case Some(r) => ranks[r := (if r in ranks then ranks[r] else []) + [ParseCar(rows[i].car).value]]
    ensures ReadSoFar(rows, i + 1, cars + {ParseCar(rows[i].car).value}, players + {rows[i].player}, after)
  {
    FreshRow(rows, i);
    assert rows[..i + 1][..i] == rows[..i];
    if AwardedRank(rows[i], |rows|).value.Some? {
      ListOneMore(ranks, RankingOf(rows[..i], |rows|), ParseCar(rows[i].car).value, AwardedRank(rows[i], |rows|).value.value);
    }
  }

  lemma RepeatedRow(rows: seq<ResultRow>, i: nat, car: bool)
    requires i < |rows| && ParseCar(rows[i].car).Some?
    requires exists j :: 0 <= j < i && (if car then ParseCar(rows[j].car) == ParseCar(rows[i].car)
                                        else rows[j].player == rows[i].player)
    ensures !ReadableRows(rows, |rows|)
  {
    var j :| 0 <= j < i && (if car then ParseCar(rows[j].car) == ParseCar(rows[i].car)
                            else rows[j].player == rows[i].player);
    if car {
      SameCarSameText(rows[i].car, rows[j].car);
    }
  }

  lemma ReadableOneMore(before: seq<ResultRow>, row: ResultRow, field: nat)
    requires ReadableRows(before, field) && ReadableRow(row, field)
    requires forall j :: 0 <= j < |before| ==> before[j].car != row.car && before[j].player != row.player
    ensures ReadableRows(before + [row], field)
  {
  }

  lemma NotYetRanked(before: seq<ResultRow>, field: nat, car: nat)
    requires ReadableRows(before, field) && forall j :: 0 <= j < |before| ==> ParseCar(before[j].car) != Some(car)
    ensures car !in RankingOf(before, field)
  {
    if car in RankingOf(before, field) {
      RankedCarsAreListed(before, field, car);
    }
  }

  lemma FreshRow(rows: seq<ResultRow>, i: nat)
    requires i < |rows| && ReadableRows(rows[..i], |rows|) && ReadableRow(rows[i], |rows|)
    requires forall j :: 0 <= j < i ==> ParseCar(rows[j].car) != ParseCar(rows[i].car) && rows[j].player != rows[i].player
    ensures ReadableRows(rows[..i + 1], |rows|)
    ensures ParseCar(rows[i].car).value !in RankingOf(rows[..i], |rows|)
  {
    var before := rows[..i];
    assert forall j :: 0 <= j < i ==> before[j] == rows[j];
    assert rows[..i + 1] == before + [rows[i]];
    ReadableOneMore(before, rows[i], |rows|);
    NotYetRanked(before, |rows|, ParseCar(rows[i].car).value);
  }

  /** These are the cars of rank `k`. */
  ghost predicate CarsOfRank(cars: seq<nat>, rank: Ranking, k: nat) {
    cars != [] && Distinct(cars) && forall car :: car in cars <==> car in rank && rank[car] == k
  }

  lemma ListedCars(ranks: map<nat, seq<nat>>, rank: Ranking, k: nat)
    requires ListsRanking(ranks, rank)
    ensures if k in ranks then CarsOfRank(ranks[k], rank, k) else forall car :: car in rank ==> rank[car] != k
  {
  }

  /** The second loop: ranks in rising order, each one more than the number of cars before it. */
  method GroupRanks(ranks: map<nat, seq<nat>>, ghost rank: Ranking) returns (r: Checked<seq<seq<nat>>>)
    requires ListsRanking(ranks, rank) && forall car :: car in rank ==> 1 <= rank[car] <= 9
    ensures r.Accepted? <==> CompetitionRanks(rank)
    ensures r.Accepted? ==> Grouped(r.value, rank) && forall g :: g in r.value ==> Increasing(g)
  {
    var expected: nat, groups := 1, [];
    NothingBelow(rank);
    for k := 1 to 10
      invariant GroupedBelow(rank, k, expected, groups)
    {
      var ok;
      ok, expected, groups := TakeRank(ranks, k, expected, groups, rank);
      if !ok {
        return Refused;
      }
    }
    AllBelow(rank, expected, groups);
    return Accepted(groups);
  }

  /** One rank of the loop: refused when it does not start where it must. */
  method TakeRank(ranks: map<nat, seq<nat>>, k: nat, expected: nat, groups: seq<seq<nat>>, ghost rank: Ranking)
    returns (ok: bool, next: nat, more: seq<seq<nat>>)
    requires ListsRanking(ranks, rank) && GroupedBelow(rank, k, expected, groups)
    ensures ok ==> GroupedBelow(rank, k + 1, next, more)
    ensures !ok ==> !CompetitionRanks(rank)
  {
    ListedCars(ranks, rank, k);
    next, more := expected, groups;
    if k !in ranks {
      NoGroup(rank, k, expected, groups);
      return true, expected, groups;
    }
    if k != expected {
      NotCompetition(rank, k, ranks[k]);
      return false, expected, groups;
    }
    GroupOneMore(rank, k, ranks[k], groups);
    return true, expected + |ranks[k]|, groups + [SortCars(ranks[k])];
  }

  lemma NothingBelow(rank: Ranking)
    requires forall car :: car in rank ==> 1 <= rank[car]
    ensures GroupedBelow(rank, 1, 1, [])
  {
    assert Below(rank, 1) == map[] && Ahead(rank, 1) == {};
  }

  lemma AllBelow(rank: Ranking, expected: nat, groups: seq<seq<nat>>)
    requires GroupedBelow(rank, 10, expected, groups) && forall car :: car in rank ==> rank[car] <= 9
    ensures CompetitionRanks(rank) && Grouped(groups, rank) && forall g :: g in groups ==> Increasing(g)
  {
    assert Below(rank, 10) == rank;
  }

  /** The groups of all ranks below `k`, each starting at the rank its place demands. */
  ghost predicate GroupedBelow(rank: Ranking, k: nat, expected: nat, groups: seq<seq<nat>>) {
    && expected == 1 + |Ahead(rank, k)|
    && Grouped(groups, Below(rank, k)) && (forall g :: g in groups ==> Increasing(g))
    && (forall car :: car in rank && rank[car] < k ==> rank[car] == 1 + |Ahead(rank, rank[car])|)
  }

  lemma NotCompetition(rank: Ranking, k: nat, cars: seq<nat>)
    requires CarsOfRank(cars, rank, k) && k != 1 + |Ahead(rank, k)|
    ensures !CompetitionRanks(rank)
  {
    assert cars[0] in rank && rank[cars[0]] == k;
  }

  lemma NoGroup(rank: Ranking, k: nat, expected: nat, groups: seq<seq<nat>>)
    requires GroupedBelow(rank, k, expected, groups) && forall car :: car in rank ==> rank[car] != k
    ensures GroupedBelow(rank, k + 1, expected, groups)
  {
    assert Below(rank, k + 1) == Below(rank, k);
    assert Ahead(rank, k + 1) == Ahead(rank, k);
  }

  lemma BelowNext(rank: Ranking, k: nat, cars: seq<nat>)
    requires CarsOfRank(cars, rank, k)
    ensures Below(rank, k + 1).Keys == Below(rank, k).Keys + Elements(cars)
    ensures Below(rank, k).Keys !! Elements(cars)
    ensures forall car :: car in Elements(cars) ==> Below(rank, k + 1)[car] == k
    ensures forall car :: car in Below(rank, k) ==> Below(rank, k + 1)[car] == Below(rank, k)[car] < k
  {
  }

  lemma GroupOneMore(rank: Ranking, k: nat, cars: seq<nat>, groups: seq<seq<nat>>)
    requires CarsOfRank(cars, rank, k) && GroupedBelow(rank, k, k, groups)
    ensures GroupedBelow(rank, k + 1, k + |cars|, groups + [SortCars(cars)])
  {
    var group := SortCars(cars);
    SortCarsSorts(cars);
    AheadNext(rank, k, cars);
    BelowNext(rank, k, cars);
    assert cars[0] in Elements(group);
    GroupedOneMore(groups, Below(rank, k), group, Below(rank, k + 1), k);
  }

  lemma RanksAreDigits(rows: seq<ResultRow>, field: nat)
    requires ReadableRows(rows, field)
    ensures forall car :: car in RankingOf(rows, field) ==> 1 <= RankingOf(rows, field)[car] <= 9
  {
    forall car | car in RankingOf(rows, field) {
      RankedCarsAreListed(rows, field, car);
    }
  }

  // ----- payable combinations

  function Product(choices: seq<set<seq<nat>>>): set<seq<nat>> {
    if choices == [] then {[]} else Cross(Product(choices[..|choices| - 1]), choices[|choices| - 1])
  }

  lemma {:induction false} FlatCount(groups: seq<seq<nat>>, width: nat)
    requires |Flat(groups)| < width
    ensures Combinations(groups, width) == {}
    decreases |groups|
  {
    if groups != [] {
      var take := Smaller(width, |groups[0]|);
      FlatCount(groups[1..], width - take);
    }
  }

  function TotalCars(groups: seq<seq<nat>>): nat {
    if groups == [] then 0 else |groups[0]| + TotalCars(groups[1..])
  }

  lemma {:induction false} TotalIsFlat(groups: seq<seq<nat>>)
    ensures TotalCars(groups) == |Flat(groups)|
    decreases |groups|
  {
    if groups != [] {
      TotalIsFlat(groups[1..]);
    }
  }

  /** `_outcomes`: choices per group as far as places remain, then their product. */
  method Outcomes(groups: seq<seq<nat>>, width: nat) returns (r: set<seq<nat>>)
    ensures r == Combinations(groups, width)
  {
    TotalIsFlat(groups);
    if TotalCars(groups) < width {
      FlatCount(groups, width);
      return {};
    }
    NothingChosen(groups, width);
    var choices := ChooseGroups(groups, width, Combinations(groups, width));
    r := Product(choices);
  }

  /** What has been chosen, completed by what is still to fill, is the target. */
  ghost predicate ChosenSoFar(choices: seq<set<seq<nat>>>, rest: seq<seq<nat>>, remaining: nat, target: set<seq<nat>>) {
    remaining <= |Flat(rest)| && Cross(Product(choices), Combinations(rest, remaining)) == target
  }

  /** Permute group after group until no places remain. */
  method ChooseGroups(groups: seq<seq<nat>>, width: nat, ghost target: set<seq<nat>>) returns (choices: seq<set<seq<nat>>>)
    requires ChosenSoFar([], groups, width, target)
    ensures Product(choices) == target
  {
    var remaining: nat, i := width, 0;
    choices := [];
    ghost var rest := groups;
    while i < |groups| && remaining > 0
      invariant 0 <= i <= |groups| && rest == groups[i..]
      invariant ChosenSoFar(choices, rest, remaining, target)
    {
      var take := Smaller(remaining, |groups[i]|);
      var part := Permutations(groups[i], take);
      ChooseFromGroup(choices, rest, remaining, part, target);
      choices := choices + [part];
      remaining, i, rest := remaining - take, i + 1, rest[1..];
    }
    NoPlacesLeft(choices, rest, remaining, target);
  }

  lemma ChooseFromGroup(choices: seq<set<seq<nat>>>, groups: seq<seq<nat>>, remaining: nat, part: set<seq<nat>>,
                        target: set<seq<nat>>)
    requires ChosenSoFar(choices, groups, remaining, target) && groups != [] && remaining > 0
    requires part == Permutations(groups[0], Smaller(remaining, |groups[0]|))
    ensures ChosenSoFar(choices + [part], groups[1..], remaining - Smaller(remaining, |groups[0]|), target)
  {
    var take := Smaller(remaining, |groups[0]|);
    CrossAssociates(Product(choices), part, Combinations(groups[1..], remaining - take));
    assert (choices + [part])[..|choices + [part]| - 1] == choices;
  }

  lemma NothingChosen(groups: seq<seq<nat>>, width: nat)
    requires width <= |Flat(groups)|
    ensures ChosenSoFar([], groups, width, Combinations(groups, width))
  {
    CrossLeftUnit(Combinations(groups, width));
  }

  lemma NoPlacesLeft(choices: seq<set<seq<nat>>>, groups: seq<seq<nat>>, remaining: nat, target: set<seq<nat>>)
    requires ChosenSoFar(choices, groups, remaining, target) && (groups == [] || remaining == 0)
    ensures Product(choices) == target
  {
    CrossRightUnit(Product(choices));
  }

  // ----- the text of a payout row

  /** A parsed combination, and whether it was written as one or as a date-like cell. */
  datatype Ordered = Ordered(cars: seq<nat>, literal: bool)

  function Cars(digits: seq<char>): seq<nat>
    requires forall i :: 0 <= i < |digits| ==> Digit(digits[i])
  {
    seq(|digits|, i requires 0 <= i < |digits| => DigitValue(digits[i]))
  }

  /** The digits of a row in one of the known formats, and whether it is the literal one. */
  function CarDigits(raw: string, width: nat): Option<(seq<char>, bool)> {
    if width == 2 && |raw| == 3 && raw[1] == '-' then Some(([raw[0], raw[2]], true))
    else if width == 3 && |raw| == 5 && raw[1] == '-' && raw[3] == '-' then Some(([raw[0], raw[2], raw[4]], true))
    else if width == 2 && |raw| == 4 && raw[1] == '月' && raw[3] == '日' then Some(([raw[0], raw[2]], false))
    else if width == 3 && |raw| == 8 && raw[..3] == "200" && raw[4] == '/' && raw[6] == '/' then
      Some(([raw[3], raw[5], raw[7]], false))
    else None
  }

  /** `_parse_ordered` for the two widths in use: cars 1 to 9, all different. */
  function ParseOrdered(raw: string, width: nat): Checked<Ordered> {
    match CarDigits(raw, width)
    case None => Refused
    case Some((digits, literal)) =>
      if exists i :: 0 <= i < |digits| && !OneToNine(digits[i]) then Refused
      else if |Elements(Cars(digits))| != width then Refused
      else Accepted(Ordered(Cars(digits), literal))
  }

  function DigitOf(car: nat): char
    requires 1 <= car <= 9
  {
    ('0' as int + car) as char
  }

  /** The text a payable combination is written as. */
  function Written(cars: seq<nat>): string
    requires forall i :: 0 <= i < |cars| ==> 1 <= cars[i] <= 9
  {
    if cars == [] then ""
    else if |cars| == 1 then [DigitOf(cars[0])]
    else [DigitOf(cars[0]), '-'] + Written(cars[1..])
  }

  lemma WrittenDigits(cars: seq<nat>)
    requires forall i :: 0 <= i < |cars| ==> 1 <= cars[i] <= 9
    ensures |cars| == 2 ==> Written(cars) == [DigitOf(cars[0]), '-', DigitOf(cars[1])]
    ensures |cars| == 3 ==> Written(cars) == [DigitOf(cars[0]), '-', DigitOf(cars[1]), '-', DigitOf(cars[2])]
  {
    if |cars| == 3 {
      WrittenDigits(cars[1..]);
    }
  }

  lemma DigitsOfCars(cars: seq<nat>, digits: seq<char>)
    requires |digits| == |cars|
    requires forall i :: 0 <= i < |cars| ==> 1 <= cars[i] <= 9 && digits[i] == DigitOf(cars[i])
    ensures forall i :: 0 <= i < |digits| ==> OneToNine(digits[i]) && DigitValue(digits[i]) == cars[i]
  {
  }

  /** Reading back the written form of two or three different cars gives the cars. */
  lemma ParseWritten(cars: seq<nat>)
    requires |cars| == 2 || |cars| == 3
    requires Distinct(cars) && forall i :: 0 <= i < |cars| ==> 1 <= cars[i] <= 9
    ensures ParseOrdered(Written(cars), |cars|) == Accepted(Ordered(cars, true))
  {
    DistinctCount(cars);
    WrittenDigits(cars);
    var digits := CarDigits(Written(cars), |cars|).value.0;
    DigitsOfCars(cars, digits);
    assert Cars(digits) == cars;
  }

  predicate AllDigits(s: string) {
    forall i :: 0 <= i < |s| ==> Digit(s[i])
  }

  /** One or more groups of a comma and three digits. */
  predicate CommaGroups(s: string) {
    |s| >= 4 && s[0] == ',' && AllDigits(s[1..4]) && (|s| == 4 || CommaGroups(s[4..]))
  }

  function WithoutCommas(s: string): string {
    if s == "" then "" else (if s[0] == ',' then "" else [s[0]]) + WithoutCommas(s[1..])
  }

  function DigitsValue(s: string): nat {
    if s == "" then 0
    else 10 * DigitsValue(s[..|s| - 1]) + (if Digit(s[|s| - 1]) then DigitValue(s[|s| - 1]) else 0)
  }

  /** `_money`: no leading zero; plain digits, or one to three digits followed by comma groups. */
  function Money(raw: string): Checked<nat> {
    if raw == "" || !OneToNine(raw[0]) then Refused
    else if AllDigits(raw)
            || (|raw| > 1 && CommaGroups(raw[1..]))
            || (|raw| > 2 && AllDigits(raw[..2]) && CommaGroups(raw[2..]))
            || (|raw| > 3 && AllDigits(raw[..3]) && CommaGroups(raw[3..]))
    then Accepted(DigitsValue(WithoutCommas(raw)))
    else Refused
  }

  // ----- settlement

  const FULL_REFUND: string := "全返還"

  datatype SettlementKind = FullRefund | DeadHeat | Ordinary

  /** The source lists the outcomes in combination order; here they are keyed by combination. */
  datatype Settlement = Settlement(kind: SettlementKind, outcomes: map<seq<nat>, nat>, rewritten: seq<string>)

  /** A row as its two cells read. */
  datatype ReadRow = ReadRow(combo: Checked<Ordered>, amount: Checked<nat>, text: string)

  function ReadRows(rows: seq<PayoutRow>, width: nat): (r: seq<ReadRow>)
    ensures |r| == |rows|
    ensures forall i :: 0 <= i < |rows| ==>
              r[i] == ReadRow(ParseOrdered(rows[i].outcome, width), Money(rows[i].payout), rows[i].outcome)
  {
    seq(|rows|, i requires 0 <= i < |rows| =>
      ReadRow(ParseOrdered(rows[i].outcome, width), Money(rows[i].payout), rows[i].outcome))
  }

  /** A row that pays a valid amount for a combination the finish allows. */
  ghost predicate PaysFinish(row: ReadRow, payable: iset<seq<nat>>) {
    row.combo.Accepted? && row.combo.value.cars in payable && row.amount.Accepted?
  }

  /** The combinations the finish pays at this width. */
  ghost function Payable(rank: Ranking, width: nat): iset<seq<nat>> {
    iset combo | FinishPrefix(combo, width, rank)
  }

  ghost predicate PaidBy(rows: seq<ReadRow>, combo: seq<nat>) {
    exists i :: 0 <= i < |rows| && rows[i].combo.Accepted? && rows[i].combo.value.cars == combo
  }

  /** The rows are exactly the combinations the finish pays, once each, with valid amounts. */
  ghost predicate SettlesExactly(rows: seq<ReadRow>, payable: iset<seq<nat>>) {
    && (forall i :: 0 <= i < |rows| ==> PaysFinish(rows[i], payable))
    && (forall i, j :: 0 <= i < j < |rows| ==> rows[i].combo.value.cars != rows[j].combo.value.cars)
    && (forall combo :: combo in payable ==> PaidBy(rows, combo))
  }

  /** Too few finishers: nothing is payable, and only one explicit refund row is accepted. */
  ghost predicate RefundsExactly(rows: seq<PayoutRow>) {
    |rows| == 1 && rows[0].outcome == FULL_REFUND && rows[0].payout == FULL_REFUND
  }

  /** The original text of the rows that were not written literally, in order. */
  function Rewritten(rows: seq<ReadRow>): seq<string> {
    if rows == [] then []
    else
      var last := rows[|rows| - 1];
      Rewritten(rows[..|rows| - 1])
      + (if last.combo.Accepted? && !last.combo.value.literal then [last.text] else [])
  }

  lemma SomethingPayable(groups: seq<seq<nat>>, rank: Ranking, width: nat)
    requires Grouped(groups, rank)
    ensures Combinations(groups, width) != {} <==> width <= |rank|
  {
    FlatRespectsRank(groups, rank);
    var order := Flat(groups);
    DistinctCount(order);
    assert |order| == |rank.Keys| == |rank|;
    if width <= |rank| {
      assert FinishPrefix(order[..width], width, rank);
      CombinationsExact(groups, width, rank, order[..width]);
    } else {
      FlatCount(groups, width);
    }
  }

  /** What the loop of `_settlement` has checked of the first `i` rows. */
  ghost predicate SettledSoFar(rows: seq<ReadRow>, i: nat, payable: iset<seq<nat>>,
                               outcomes: map<seq<nat>, nat>, rewritten: seq<string>) {
    && i <= |rows|
    && (forall j :: 0 <= j < i ==> PaysFinish(rows[j], payable))
    && (forall j :: 0 <= j < i ==> rows[j].combo.value.cars in outcomes
                                   && outcomes[rows[j].combo.value.cars] == rows[j].amount.value)
    && (forall combo :: combo in outcomes ==> PaidBy(rows[..i], combo))
    && (forall j, k :: 0 <= j < k < i ==> rows[j].combo.value.cars != rows[k].combo.value.cars)
    && rewritten == Rewritten(rows[..i])
  }

  lemma SettledOneMore(rows: seq<ReadRow>, i: nat, payable: iset<seq<nat>>,
                       outcomes: map<seq<nat>, nat>, rewritten: seq<string>)
    requires SettledSoFar(rows, i, payable, outcomes, rewritten) && i < |rows|
    requires PaysFinish(rows[i], payable) && rows[i].combo.value.cars !in outcomes
    ensures SettledSoFar(rows, i + 1, payable, outcomes[rows[i].combo.value.cars := rows[i].amount.value],
                         rewritten + (if rows[i].combo.value.literal then [] else [rows[i].text]))
  {
    var more := rows[..i + 1];
    assert more[..i] == rows[..i] && more[i] == rows[i];
    var after := outcomes[rows[i].combo.value.cars := rows[i].amount.value];
    forall combo | combo in after ensures PaidBy(more, combo) {
      if combo in outcomes {
        var j :| 0 <= j < i && rows[..i][j].combo.Accepted? && rows[..i][j].combo.value.cars == combo;
        assert more[j] == rows[..i][j];
      }
    }
  }

  lemma RepeatedOutcome(rows: seq<ReadRow>, i: nat, payable: iset<seq<nat>>,
                        outcomes: map<seq<nat>, nat>, rewritten: seq<string>)
    requires SettledSoFar(rows, i, payable, outcomes, rewritten) && i < |rows|
    requires rows[i].combo.Accepted? && rows[i].combo.value.cars in outcomes
    ensures !SettlesExactly(rows, payable)
  {
    var j :| 0 <= j < i && rows[..i][j].combo.Accepted? && rows[..i][j].combo.value.cars == rows[i].combo.value.cars;
    assert rows[j] == rows[..i][j];
  }

  /** All rows read: they settle the race exactly when their combinations are the expected ones. */
  lemma SettledAtEnd(rows: seq<ReadRow>, payable: iset<seq<nat>>, outcomes: map<seq<nat>, nat>, rewritten: seq<string>,
                     expected: set<seq<nat>>)
    requires SettledSoFar(rows, |rows|, payable, outcomes, rewritten)
    requires forall combo :: combo in expected <==> combo in payable
    ensures SettlesExactly(rows, payable) <==> outcomes.Keys == expected
    ensures rewritten == Rewritten(rows)
  {
    assert rows[..|rows|] == rows;
    forall combo ensures combo in outcomes <==> PaidBy(rows, combo) {
    }
    forall combo | PaidBy(rows, combo) ensures combo in expected {
      var i :| 0 <= i < |rows| && rows[i].combo.Accepted? && rows[i].combo.value.cars == combo;
      assert PaysFinish(rows[i], payable);
    }
  }

  /** The loop of `_settlement` over the rows. */
  method CollectPayouts(rows: seq<ReadRow>, expected: set<seq<nat>>, ghost payable: iset<seq<nat>>)
    returns (r: Checked<(map<seq<nat>, nat>, seq<string>)>)
    requires forall combo :: combo in expected <==> combo in payable
    ensures r.Refused? ==> !SettlesExactly(rows, payable)
    ensures r.Accepted? ==> SettledSoFar(rows, |rows|, payable, r.value.0, r.value.1)
  {
    var outcomes: map<seq<nat>, nat>, rewritten := map[], [];
    for i := 0 to |rows|
      invariant SettledSoFar(rows, i, payable, outcomes, rewritten)
    {
      var combo, amount := rows[i].combo, rows[i].amount;
      if combo.Refused? || combo.value.cars !in expected {
        assert !PaysFinish(rows[i], payable);
        return Refused;
      }
      if combo.value.cars in outcomes {
        RepeatedOutcome(rows, i, payable, outcomes, rewritten);
        return Refused;
      }
      if amount.Refused? {
        assert !PaysFinish(rows[i], payable);
        return Refused;
      }
      SettledOneMore(rows, i, payable, outcomes, rewritten);
      outcomes := outcomes[combo.value.cars := amount.value];
      if !combo.value.literal {
        rewritten := rewritten + [rows[i].text];
      }
    }
    return Accepted((outcomes, rewritten));
  }

  /**
   `_settlement`. When something is payable it accepts exactly the rows that are the
   payable combinations without repetition, each with a valid amount; when nothing is, it
   accepts exactly one explicit refund.
   */
  method Settle(rows: seq<PayoutRow>, groups: seq<seq<nat>>, width: nat, ghost rank: Ranking) returns (r: Checked<Settlement>)
    requires Grouped(groups, rank)
    ensures r.Accepted? <==>
              if width <= |rank| then rows != [] && SettlesExactly(ReadRows(rows, width), Payable(rank, width))
              else RefundsExactly(rows)
    ensures r.Accepted? && width <= |rank| ==>
              && SettledSoFar(ReadRows(rows, width), |rows|, Payable(rank, width), r.value.outcomes, r.value.rewritten)
              && (forall combo :: combo in r.value.outcomes <==> FinishPrefix(combo, width, rank))
              && r.value.kind == if |r.value.outcomes| > 1 then DeadHeat else Ordinary
    ensures r.Accepted? && width > |rank| ==> r.value == Settlement(FullRefund, map[], [])
  {
    var expected := Outcomes(groups, width);
    SomethingPayable(groups, rank, width);
    forall combo ensures combo in expected <==> FinishPrefix(combo, width, rank) {
      CombinationsExact(groups, width, rank, combo);
    }
    if rows == [] {
      return Refused;
    }
    if expected == {} {
      if |rows| == 1 && rows[0].outcome == FULL_REFUND && rows[0].payout == FULL_REFUND {
        return Accepted(Settlement(FullRefund, map[], []));
      }
      return Refused;
    }
    r := SettlePayable(ReadRows(rows, width), expected, Payable(rank, width));
  }

  method SettlePayable(rows: seq<ReadRow>, expected: set<seq<nat>>, ghost payable: iset<seq<nat>>)
    returns (r: Checked<Settlement>)
    requires forall combo :: combo in expected <==> combo in payable
    ensures r.Accepted? <==> SettlesExactly(rows, payable)
    ensures r.Accepted? ==>
              && SettledSoFar(rows, |rows|, payable, r.value.outcomes, r.value.rewritten)
              && (forall combo :: combo in r.value.outcomes <==> combo in payable)
              && r.value.kind == if |r.value.outcomes| > 1 then DeadHeat else Ordinary
  {
    var collected := CollectPayouts(rows, expected, payable);
    if collected.Refused? {
      return Refused;
    }
    var (outcomes, rewritten) := collected.value;
    SettledAtEnd(rows, payable, outcomes, rewritten, expected);
    if outcomes.Keys != expected {
      return Refused;
    }
    assert |outcomes| == |outcomes.Keys|;
    return Accepted(Settlement(if |expected| > 1 then DeadHeat else Ordinary, outcomes, rewritten));
  }
}
