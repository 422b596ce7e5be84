/**
 Agreement of an official race page's payouts with its finishing order: a second, separately
 written enumeration of tied finishes, and the comparison that uses it.
 */
module OfficialDetail {
  import opened CredentialIdentity
  import opened FinishOrders
  import opened HistoricalPayouts

  /** A rider row as already normalised: a car, its awarded position if any, and whether it withdrew. */
  datatype DetailRow = DetailRow(car: nat, finish: Option<nat>, withdrawn: bool)

  /** A payout row; a cell that is not text is `None`. */
  datatype DetailPayout = DetailPayout(combo: Option<string>, amount: Option<string>, shown: bool)

  datatype Outcome = Outcome(cars: seq<nat>, yen: nat)

  /** What the reading of rider rows establishes: different cars, positions 1 to 9. */
  ghost predicate DetailRows(rows: seq<DetailRow>) {
    && (forall i, j :: 0 <= i < j < |rows| ==> rows[i].car != rows[j].car)
    && (forall i :: 0 <= i < |rows| && rows[i].finish.Some? ==> 1 <= rows[i].finish.value <= 9)
  }

  ghost function FinishRanking(rows: seq<DetailRow>): Ranking
    requires DetailRows(rows)
  {
    if rows == [] then map[]
    else
      var n := |rows| - 1;
      var before := FinishRanking(rows[..n]);
      match rows[n].finish
      case None => before
      case Some(r) => before[rows[n].car := r]
  }

  lemma {:induction false} FinishRankingMeans(rows: seq<DetailRow>, car: nat)
    requires DetailRows(rows)
    ensures car in FinishRanking(rows) <==> exists i :: 0 <= i < |rows| && rows[i].car == car && rows[i].finish.Some?
    ensures forall i :: 0 <= i < |rows| && rows[i].car == car && rows[i].finish.Some? ==>
              car in FinishRanking(rows) && FinishRanking(rows)[car] == rows[i].finish.value
    decreases |rows|
  {
    if rows != [] {
      var n := |rows| - 1;
      FinishRankingMeans(rows[..n], car);
      assert forall i :: 0 <= i < n ==> rows[..n][i] == rows[i];
    }
  }

  // ----- the separately written enumeration

  /** The groups by position, as the dictionary of `_tied_rank_outcomes` collects them. */
  method CarsByPosition(rows: seq<DetailRow>) returns (groups: map<nat, seq<nat>>)
    requires DetailRows(rows)
    ensures ListsRanking(groups, FinishRanking(rows))
  {
    groups := map[];
    for i := 0 to |rows|
      invariant ListsRanking(groups, FinishRanking(rows[..i]))
    {
      assert rows[..i + 1][..i] == rows[..i];
      if rows[i].finish.Some? {
        var r := rows[i].finish.value;
        FinishRankingMeans(rows[..i], rows[i].car);
        ListOneMore(groups, FinishRanking(rows[..i]), rows[i].car, r);
        groups := groups[r := (if r in groups then groups[r] else []) + [rows[i].car]];
      }
    }
    assert rows[..|rows|] == rows;
  }

  /** The prefixes so far, completed from the remaining groups, are the target. */
  ghost predicate PrefixedSoFar(prefixes: set<seq<nat>>, rest: seq<seq<nat>>, left: nat, target: set<seq<nat>>) {
    left <= |Flat(rest)| && prefixes != {} && Cross(prefixes, Combinations(rest, left)) == target
  }

  ghost predicate AllOfLength(prefixes: set<seq<nat>>, n: nat) {
    forall p :: p in prefixes ==> |p| == n
  }

  lemma CrossLengths(prefixes: set<seq<nat>>, part: set<seq<nat>>, m: nat, n: nat)
    requires AllOfLength(prefixes, m) && AllOfLength(part, n)
    ensures AllOfLength(Cross(prefixes, part), m + n)
  {
  }

  lemma CrossInhabited(prefixes: set<seq<nat>>, part: set<seq<nat>>)
    requires prefixes != {} && part != {}
    ensures Cross(prefixes, part) != {}
  {
    var p := Pick(prefixes);
    var q := Pick(part);
    assert p + q in Cross(prefixes, part);
  }

  lemma PermutationsShape(group: seq<nat>, take: nat)
    requires Distinct(group) && take <= |group|
    ensures Permutations(group, take) != {} && AllOfLength(Permutations(group, take), take)
  {
    PermutationsExact(group, take, group[..take]);
    forall q | q in Permutations(group, take) ensures |q| == take {
      PermutationsExact(group, take, q);
    }
  }

  lemma ExtendPrefixes(prefixes: set<seq<nat>>, groups: seq<seq<nat>>, left: nat, part: set<seq<nat>>,
                       target: set<seq<nat>>)
    requires PrefixedSoFar(prefixes, groups, left, target) && groups != [] && left > 0 && part != {}
    requires part == Permutations(groups[0], Smaller(left, |groups[0]|))
    ensures PrefixedSoFar(Cross(prefixes, part), groups[1..], left - Smaller(left, |groups[0]|), target)
  {
    CrossInhabited(prefixes, part);
    CrossAssociates(prefixes, part, Combinations(groups[1..], left - Smaller(left, |groups[0]|)));
  }

  lemma NothingPrefixed(groups: seq<seq<nat>>, width: nat)
    requires width <= |Flat(groups)|
    ensures PrefixedSoFar({[]}, groups, width, Combinations(groups, width))
  {
    CrossLeftUnit(Combinations(groups, width));
  }

  lemma AllPrefixed(prefixes: set<seq<nat>>, groups: seq<seq<nat>>, left: nat, target: set<seq<nat>>)
    requires PrefixedSoFar(prefixes, groups, left, target) && (groups == [] || left == 0)
    ensures prefixes == target
  {
    CrossRightUnit(prefixes);
  }

  lemma GroupsAreDistinct(groups: seq<seq<nat>>)
    requires forall g :: g in groups ==> Increasing(g)
    ensures forall i :: 0 <= i < |groups| ==> Distinct(groups[i])
  {
    forall i | 0 <= i < |groups| ensures Distinct(groups[i]) {
      assert groups[i] in groups;
    }
  }

  /** One round of the loop: the length of the prefixes grows by the places the group fills. */
  ghost predicate Extending(prefixes: set<seq<nat>>, rest: seq<seq<nat>>, width: nat, left: nat, target: set<seq<nat>>) {
    && left <= width && (forall i :: 0 <= i < |rest| ==> Distinct(rest[i]))
    && PrefixedSoFar(prefixes, rest, left, target) && AllOfLength(prefixes, width - left)
  }

  lemma ExtendBy(prefixes: set<seq<nat>>, rest: seq<seq<nat>>, width: nat, left: nat, take: nat, part: set<seq<nat>>,
                 target: set<seq<nat>>)
    requires Extending(prefixes, rest, width, left, target) && rest != [] && left > 0 && take == Smaller(left, |rest[0]|)
    requires part == Permutations(rest[0], take) && part != {} && AllOfLength(part, take)
    ensures Extending(Cross(prefixes, part), rest[1..], width, left - take, target)
  {
    assert PrefixedSoFar(Cross(prefixes, part), rest[1..], left - take, target) by {
      ExtendPrefixes(prefixes, rest, left, part, target);
    }
    assert AllOfLength(Cross(prefixes, part), width - left + take) by {
      CrossLengths(prefixes, part, width - left, take);
    }
    ExtendingFrom(Cross(prefixes, part), rest, width, left - take, target);
  }

  lemma ExtendingFrom(prefixes: set<seq<nat>>, rest: seq<seq<nat>>, width: nat, left: nat, target: set<seq<nat>>)
    requires rest != [] && left <= width && forall i :: 0 <= i < |rest| ==> Distinct(rest[i])
    requires PrefixedSoFar(prefixes, rest[1..], left, target) && AllOfLength(prefixes, width - left)
    ensures Extending(prefixes, rest[1..], width, left, target)
  {
  }

  /** The length of any prefix gives the places left. */
  method PlacesLeft(prefixes: set<seq<nat>>, width: nat, ghost rest: seq<seq<nat>>, ghost left: nat, ghost target: set<seq<nat>>)
    returns (remaining: nat)
    requires Extending(prefixes, rest, width, left, target)
    ensures remaining == left
  {
    var any :| any in prefixes;
    remaining := width - |any|;
  }

  /** One round: every prefix followed by every arrangement of the group, as far as places remain. */
  method ExtendByGroup(prefixes: set<seq<nat>>, remaining: nat, group: seq<nat>, width: nat,
                       ghost rest: seq<seq<nat>>, ghost left: nat, ghost target: set<seq<nat>>)
    returns (next: set<seq<nat>>, ghost after: nat)
    requires Extending(prefixes, rest, width, left, target) && rest != [] && group == rest[0]
    requires 0 < remaining == left
    ensures Extending(next, rest[1..], width, after, target)
  {
    var take := Smaller(remaining, |group|);
    var suffixes := Permutations(group, take);
    PermutationsShape(group, take);
    ExtendBy(prefixes, rest, width, left, take, suffixes, target);
    next, after := Cross(prefixes, suffixes), left - take;
  }

  /** The loop over sorted groups: every prefix is extended by every arrangement of the next group. */
  method ExtendByGroups(groups: seq<seq<nat>>, width: nat, ghost target: set<seq<nat>>) returns (prefixes: set<seq<nat>>)
    requires Extending({[]}, groups, width, width, target)
    ensures prefixes == target
  {
    prefixes := {[]};
    var i := 0;
    ghost var left: nat, rest := width, groups;
    while i < |groups|
      invariant 0 <= i <= |groups| && rest == groups[i..]
      invariant Extending(prefixes, rest, width, left, target)
    {
      var remaining := PlacesLeft(prefixes, width, rest, left, target);
      if remaining == 0 {
        break;
      }
      prefixes, left := ExtendByGroup(prefixes, remaining, groups[i], width, rest, left, target);
      i, rest := i + 1, rest[1..];
    }
    AllPrefixed(prefixes, rest, left, target);
  }

  lemma RankedCount(groups: seq<seq<nat>>, rank: Ranking)
    requires Grouped(groups, rank)
    ensures |Flat(groups)| == |rank|
  {
    FlatRespectsRank(groups, rank);
    DistinctCount(Flat(groups));
  }

  method Prefixes(groups: seq<seq<nat>>, width: nat, ghost rank: Ranking) returns (prefixes: set<seq<nat>>)
    requires Grouped(groups, rank) && width <= |Flat(groups)| && forall g :: g in groups ==> Increasing(g)
    ensures forall combo :: combo in prefixes <==> FinishPrefix(combo, width, rank)
  {
    GroupsAreDistinct(groups);
    NothingPrefixed(groups, width);
    prefixes := ExtendByGroups(groups, width, Combinations(groups, width));
    forall combo ensures combo in prefixes <==> FinishPrefix(combo, width, rank) {
      CombinationsExact(groups, width, rank, combo);
    }
  }

  /**
   `_tied_rank_outcomes`. It answers exactly when the positions are competition ranks and
   enough cars are ranked, and the answer is exactly the prefixes of orders that respect them.
   */
  method TiedRankOutcomes(rows: seq<DetailRow>, width: nat) returns (r: Checked<set<seq<nat>>>)
    requires DetailRows(rows)
    ensures r.Accepted? <==> CompetitionRanks(FinishRanking(rows)) && width <= |FinishRanking(rows)|
    ensures r.Accepted? ==> forall combo :: combo in r.value <==> FinishPrefix(combo, width, FinishRanking(rows))
  {
    ghost var rank := FinishRanking(rows);
    var byPosition := CarsByPosition(rows);
    forall car | car in rank ensures 1 <= rank[car] <= 9 {
      FinishRankingMeans(rows, car);
    }
    var checked := GroupRanks(byPosition, rank);
    if checked.Refused? {
      return Refused;
    }
    var groups := checked.value;
    TotalIsFlat(groups);
    RankedCount(groups, rank);
    if TotalCars(groups) < width {
      return Refused;
    }
    var prefixes := Prefixes(groups, width, rank);
    return Accepted(prefixes);
  }

  /** The two enumerations agree on every ranking both are given. */
  method EnumerationsAgree(rows: seq<DetailRow>, groups: seq<seq<nat>>, width: nat)
    returns (first: set<seq<nat>>, second: Checked<set<seq<nat>>>)
    requires DetailRows(rows) && Grouped(groups, FinishRanking(rows)) && CompetitionRanks(FinishRanking(rows))
    ensures forall combo :: combo in first <==> FinishPrefix(combo, width, FinishRanking(rows))
    ensures second == if width <= |FinishRanking(rows)| then Accepted(first) else Refused
  {
    first := Outcomes(groups, width);
    second := TiedRankOutcomes(rows, width);
    forall combo ensures combo in first <==> FinishPrefix(combo, width, FinishRanking(rows)) {
      CombinationsExact(groups, width, FinishRanking(rows), combo);
    }
    assert second.Accepted? ==> second.value == first;
  }
}
