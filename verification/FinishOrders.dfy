/**
 Finishing orders with ties. A ranking gives each ranked car its rank; an order of all
 ranked cars respects it when ranks never fall along the order. The payable combinations
 of width `w` are the first `w` cars of such orders.
 */
module FinishOrders {

  type Ranking = map<nat, nat>

  ghost predicate Distinct<T>(s: seq<T>) {
    forall i, j :: 0 <= i < j < |s| ==> s[i] != s[j]
  }

  function Elements(s: seq<nat>): (r: set<nat>)
    ensures forall x :: x in r <==> x in s
  {
    set x | x in s
  }

  ghost predicate RespectsRank(order: seq<nat>, rank: Ranking) {
    && Distinct(order) && Elements(order) == rank.Keys
    && forall i, j :: 0 <= i < j < |order| ==> rank[order[i]] <= rank[order[j]]
  }

  ghost predicate FinishPrefix(combo: seq<nat>, width: nat, rank: Ranking) {
    exists order :: RespectsRank(order, rank) && width <= |order| && combo == order[..width]
  }

  /** Competition ranks (1, 1, 3, ...): one more than the number of cars ranked strictly ahead. */
  ghost predicate CompetitionRanks(rank: Ranking) {
    forall car :: car in rank ==> rank[car] == 1 + |Ahead(rank, rank[car])|
  }

  ghost function Ahead(rank: Ranking, r: nat): set<nat> {
    set car | car in rank && rank[car] < r
  }

  // ----- permutations of a tied group

  function Without(s: seq<nat>, i: nat): seq<nat>
    requires i < |s|
  {
    s[..i] + s[i + 1..]
  }

  /** `itertools.permutations(s, k)` as a set. */
  function Permutations(s: seq<nat>, k: nat): set<seq<nat>> {
    if k == 0 then {[]}
    else set i, p | 0 <= i < |s| && p in Permutations(Without(s, i), k - 1) :: [s[i]] + p
  }

  lemma WithoutIsTheRest(s: seq<nat>, i: nat)
    requires i < |s| && Distinct(s)
    ensures Distinct(Without(s, i))
    ensures forall x :: x in Without(s, i) <==> x in s && x != s[i]
  {
    var rest := Without(s, i);
    forall x | x in s && x != s[i] ensures x in rest {
      var j :| 0 <= j < |s| && s[j] == x;
      assert rest[if j < i then j else j - 1] == x;
    }
  }

  lemma {:induction false} PermutationIsSelection(s: seq<nat>, k: nat, p: seq<nat>)
    requires Distinct(s) && p in Permutations(s, k)
    ensures |p| == k && Distinct(p) && Elements(p) <= Elements(s)
    decreases k
  {
    if k > 0 {
      var i, q :| 0 <= i < |s| && q in Permutations(Without(s, i), k - 1) && p == [s[i]] + q;
      WithoutIsTheRest(s, i);
      PermutationIsSelection(Without(s, i), k - 1, q);
      forall j | 0 <= j < |q| ensures q[j] in s && q[j] != s[i] {
        assert q[j] in Elements(q);
      }
    }
  }

  lemma {:induction false} SelectionIsPermutation(s: seq<nat>, k: nat, p: seq<nat>)
    requires Distinct(s) && |p| == k && Distinct(p) && Elements(p) <= Elements(s)
    ensures p in Permutations(s, k)
    decreases k
  {
    if k > 0 {
      assert p[0] in Elements(p);
      var i :| 0 <= i < |s| && s[i] == p[0];
      WithoutIsTheRest(s, i);
      var q := p[1..];
      forall x | x in Elements(q) ensures x in Elements(Without(s, i)) {
        assert x in Elements(p);
      }
      SelectionIsPermutation(Without(s, i), k - 1, q);
      assert p == [s[i]] + q;
    }
  }

  /** The permutations are exactly the repetition-free selections of that length. */
  lemma PermutationsExact(s: seq<nat>, k: nat, p: seq<nat>)
    requires Distinct(s)
    ensures p in Permutations(s, k) <==> |p| == k && Distinct(p) && Elements(p) <= Elements(s)
  {
    if p in Permutations(s, k) {
      PermutationIsSelection(s, k, p);
    }
    if |p| == k && Distinct(p) && Elements(p) <= Elements(s) {
      SelectionIsPermutation(s, k, p);
    }
  }

  lemma {:induction false} DistinctCount(s: seq<nat>)
    requires Distinct(s)
    ensures |Elements(s)| == |s|
    decreases |s|
  {
    if s != [] {
      var n := |s| - 1;
      DistinctCount(s[..n]);
      assert Elements(s) == Elements(s[..n]) + {s[n]};
    }
  }

  lemma SubsetCount(a: set<nat>, b: set<nat>)
    requires a <= b
    ensures |a| <= |b|
    ensures |a| == |b| ==> a == b
  {
    assert b == a + (b - a);
    assert |b| == |a| + |b - a|;
  }

  lemma Pick<T>(a: set<T>) returns (x: T)
    requires a != {}
    ensures x in a
  {
    x :| x in a;
  }

  // ----- groups of tied cars, best rank first

  function Flat(groups: seq<seq<nat>>): seq<nat> {
    if groups == [] then [] else groups[0] + Flat(groups[1..])
  }

  /** These cars are tied, and ranked ahead of all others. */
  ghost predicate TiedFirst(cars: set<nat>, rank: Ranking) {
    && cars <= rank.Keys
    && (forall x, y :: x in cars && y in cars ==> rank[x] == rank[y])
    && (forall x, y :: x in cars && y in rank.Keys - cars ==> rank[x] < rank[y])
  }

  /** The groups list the ranked cars, each once, by rank: equal rank within, rising between. */
  ghost predicate Grouped(groups: seq<seq<nat>>, rank: Ranking)
    decreases |groups|
  {
    if groups == [] then rank == map[]
    else
      && groups[0] != [] && Distinct(groups[0]) && TiedFirst(Elements(groups[0]), rank)
      && Grouped(groups[1..], rank - Elements(groups[0]))
  }

  function Smaller(a: nat, b: nat): nat {
    if a < b then a else b
  }

  function Cross(a: set<seq<nat>>, b: set<seq<nat>>): set<seq<nat>> {
    set p, q | p in a && q in b :: p + q
  }

  /** Fill `width` places group by group, permuting each group only as far as it is needed. */
  function Combinations(groups: seq<seq<nat>>, width: nat): set<seq<nat>> {
    if width == 0 then {[]}
    else if groups == [] then {}
    else
      var take := Smaller(width, |groups[0]|);
      Cross(Permutations(groups[0], take), Combinations(groups[1..], width - take))
  }

  lemma {:induction false} CrossAssociates(a: set<seq<nat>>, b: set<seq<nat>>, c: set<seq<nat>>)
    ensures Cross(Cross(a, b), c) == Cross(a, Cross(b, c))
  {
    forall x | x in Cross(Cross(a, b), c) ensures x in Cross(a, Cross(b, c)) {
      var pq, r :| pq in Cross(a, b) && r in c && x == pq + r;
      var p, q :| p in a && q in b && pq == p + q;
      assert q + r in Cross(b, c);
      assert x == p + (q + r);
    }
    forall x | x in Cross(a, Cross(b, c)) ensures x in Cross(Cross(a, b), c) {
      var p, qr :| p in a && qr in Cross(b, c) && x == p + qr;
      var q, r :| q in b && r in c && qr == q + r;
      assert p + q in Cross(a, b);
      assert x == (p + q) + r;
    }
  }

  lemma CrossLeftUnit(a: set<seq<nat>>)
    ensures Cross({[]}, a) == a
  {
    forall x ensures x in Cross({[]}, a) <==> x in a {
      if x in a {
        assert x == [] + x;
      }
      if x in Cross({[]}, a) {
        var p, q :| p in {[]} && q in a && x == p + q;
        assert x == q;
      }
    }
  }

  lemma CrossRightUnit(a: set<seq<nat>>)
    ensures Cross(a, {[]}) == a
  {
    forall x ensures x in Cross(a, {[]}) <==> x in a {
      if x in a {
        assert x == x + [];
      }
      if x in Cross(a, {[]}) {
        var p, q :| p in a && q in {[]} && x == p + q;
        assert x == p;
      }
    }
  }

  // ----- orders and groups

  /** The cars of the first group come first in every order. */
  lemma FirstGroupFirst(order: seq<nat>, group: seq<nat>, rank: Ranking)
    requires RespectsRank(order, rank) && Distinct(group) && TiedFirst(Elements(group), rank)
    ensures |group| <= |order|
    ensures Elements(order[..|group|]) == Elements(group)
  {
    DistinctCount(group);
    DistinctCount(order);
    SubsetCount(Elements(group), Elements(order));
    var n := |group|;
    forall k | 0 <= k < n ensures order[k] in Elements(group) {
      if order[k] !in Elements(group) {
        forall x | x in Elements(group) ensures x in Elements(order[..k]) {
          assert x in Elements(order);
          var j :| 0 <= j < |order| && order[j] == x;
          assert order[k] in Elements(order);
          assert order[k] in rank.Keys - Elements(group) && x in group;
          assert rank[x] < rank[order[k]];
          assert !(k < j);
          assert j < k && order[..k][j] == x;
        }
        DistinctCount(order[..k]);
        SubsetCount(Elements(group), Elements(order[..k]));
      }
    }
    DistinctCount(order[..n]);
    assert Elements(order[..n]) <= Elements(group);
    SubsetCount(Elements(order[..n]), Elements(group));
  }

  lemma RestOfOrder(order: seq<nat>, n: nat, rank: Ranking)
    requires RespectsRank(order, rank) && n <= |order|
    ensures RespectsRank(order[n..], rank - Elements(order[..n]))
  {
    var rest := order[n..];
    forall x | x in rank.Keys - Elements(order[..n]) ensures x in Elements(rest) {
      assert x in Elements(order);
      var j :| 0 <= j < |order| && order[j] == x;
      assert j >= n by {
        assert x !in order[..n];
      }
      assert rest[j - n] == x;
    }
    forall x | x in Elements(rest) ensures x in rank.Keys - Elements(order[..n]) {
      assert x in Elements(order);
    }
  }

  lemma JoinOrders(first: seq<nat>, rest: seq<nat>, rank: Ranking)
    requires Distinct(first) && TiedFirst(Elements(first), rank)
    requires RespectsRank(rest, rank - Elements(first))
    ensures RespectsRank(first + rest, rank)
  {
    var order := first + rest;
    assert forall x :: x in rest ==> x in Elements(rest);
    assert Elements(order) == Elements(first) + Elements(rest);
    forall i, j | 0 <= i < j < |order| ensures order[i] != order[j] && rank[order[i]] <= rank[order[j]] {
      if i < |first| && j >= |first| {
        assert order[j] == rest[j - |first|] && rest[j - |first|] in Elements(rest);
        assert order[i] in Elements(first);
      } else if i >= |first| {
        assert order[i] == rest[i - |first|] && order[j] == rest[j - |first|];
        assert rest[i - |first|] in Elements(rest) && rest[j - |first|] in Elements(rest);
      }
    }
  }

  /** A ranking with its groups has at least one order that respects it. */
  lemma {:induction false} FlatRespectsRank(groups: seq<seq<nat>>, rank: Ranking)
    requires Grouped(groups, rank)
    ensures RespectsRank(Flat(groups), rank)
    decreases |groups|
  {
    if groups != [] {
      FlatRespectsRank(groups[1..], rank - Elements(groups[0]));
      JoinOrders(groups[0], Flat(groups[1..]), rank);
    }
  }

  /** A selection from a group extends to an arrangement of the whole group. */
  lemma {:induction false} Extend(p: seq<nat>, group: seq<nat>, missing: set<nat>) returns (all: seq<nat>)
    requires Distinct(p) && Elements(p) !! missing && Elements(p) + missing == Elements(group)
    ensures Distinct(all) && Elements(all) == Elements(group)
    ensures |p| <= |all| && all[..|p|] == p
    decreases missing
  {
    if missing != {} {
      var x := Pick(missing);
      var longer := p + [x];
      assert Elements(longer) == Elements(p) + {x};
      all := Extend(longer, group, missing - {x});
      assert all[..|p|] == all[..|p| + 1][..|p|];
    } else {
      all := p;
    }
  }

  lemma JoinedPrefix(p: seq<nat>, all: seq<nat>, rest: seq<nat>, width: nat)
    requires |p| == Smaller(width, |all|) && all[..|p|] == p && width - |p| <= |rest|
    ensures width <= |all + rest| && (all + rest)[..width] == p + rest[..width - |p|]
  {
  }

  lemma CombinationIsPrefix(group: seq<nat>, width: nat, rank: Ranking, p: seq<nat>, rest: seq<nat>)
    requires Distinct(group) && TiedFirst(Elements(group), rank)
    requires |p| == Smaller(width, |group|) && Distinct(p) && Elements(p) <= Elements(group)
    requires RespectsRank(rest, rank - Elements(group)) && width - Smaller(width, |group|) <= |rest|
    ensures FinishPrefix(p + rest[..width - |p|], width, rank)
  {
    var all := Extend(p, group, Elements(group) - Elements(p));
    DistinctCount(all);
    DistinctCount(group);
    JoinOrders(all, rest, rank);
    JoinedPrefix(p, all, rest, width);
  }

  lemma {:induction false} CombinationsArePrefixes(groups: seq<seq<nat>>, width: nat, rank: Ranking, combo: seq<nat>)
    requires Grouped(groups, rank) && combo in Combinations(groups, width)
    ensures FinishPrefix(combo, width, rank)
    decreases |groups|
  {
    if width == 0 {
      FlatRespectsRank(groups, rank);
      assert Flat(groups)[..0] == [];
    } else {
      var take := Smaller(width, |groups[0]|);
      var left := rank - Elements(groups[0]);
      var p, q :| p in Permutations(groups[0], take) && q in Combinations(groups[1..], width - take) && combo == p + q;
      CombinationsArePrefixes(groups[1..], width - take, left, q);
      var rest :| RespectsRank(rest, left) && width - take <= |rest| && q == rest[..width - take];
      PermutationsExact(groups[0], take, p);
      CombinationIsPrefix(groups[0], width, rank, p, rest);
    }
  }

  lemma {:induction false} PrefixesAreCombinations(groups: seq<seq<nat>>, width: nat, rank: Ranking, order: seq<nat>)
    requires Grouped(groups, rank) && RespectsRank(order, rank) && width <= |order|
    ensures order[..width] in Combinations(groups, width)
    decreases |groups|
  {
    if width > 0 {
      SomeGroup(groups, rank, order);
      var group := groups[0];
      var take := Smaller(width, |group|);
      FirstGroupFirst(order, group, rank);
      RestOfOrder(order, |group|, rank);
      SelectedFromGroup(order, group, take);
      PrefixesAreCombinations(groups[1..], width - take, rank - Elements(group), order[|group|..]);
      PrefixInCross(groups, width, order);
    }
  }

  lemma SomeGroup(groups: seq<seq<nat>>, rank: Ranking, order: seq<nat>)
    requires Grouped(groups, rank) && RespectsRank(order, rank) && order != []
    ensures groups != []
  {
    assert order[0] in Elements(order);
  }

  lemma PrefixInCross(groups: seq<seq<nat>>, width: nat, order: seq<nat>)
    requires groups != [] && 0 < width <= |order| && |groups[0]| <= |order|
    requires var take := Smaller(width, |groups[0]|);
             && order[..take] in Permutations(groups[0], take)
             && order[|groups[0]|..][..width - take] in Combinations(groups[1..], width - take)
    ensures order[..width] in Combinations(groups, width)
  {
    var take := Smaller(width, |groups[0]|);
    assert order[..width] == order[..take] + order[|groups[0]|..][..width - take];
  }

  lemma SelectedFromGroup(order: seq<nat>, group: seq<nat>, take: nat)
    requires take <= |group| <= |order| && Distinct(order) && Distinct(group)
    requires Elements(order[..|group|]) == Elements(group)
    ensures order[..take] in Permutations(group, take)
  {
    forall x | x in Elements(order[..take]) ensures x in Elements(group) {
      var j :| 0 <= j < take && order[..take][j] == x;
      assert order[..|group|][j] == x;
    }
    PermutationsExact(group, take, order[..take]);
  }

  /** The combinations built group by group are exactly the prefixes of orders that respect the ranking. */
  lemma CombinationsExact(groups: seq<seq<nat>>, width: nat, rank: Ranking, combo: seq<nat>)
    requires Grouped(groups, rank)
    ensures combo in Combinations(groups, width) <==> FinishPrefix(combo, width, rank)
  {
    if combo in Combinations(groups, width) {
      CombinationsArePrefixes(groups, width, rank, combo);
    }
    if FinishPrefix(combo, width, rank) {
      var order :| RespectsRank(order, rank) && width <= |order| && combo == order[..width];
      PrefixesAreCombinations(groups, width, rank, order);
    }
  }

  /** With three or more ranked cars, the payable pairs are exactly the first two of the payable triples. */
  lemma PairsFromTriples(rank: Ranking, pair: seq<nat>)
    requires |rank| >= 3
    ensures FinishPrefix(pair, 2, rank) <==> exists triple :: FinishPrefix(triple, 3, rank) && triple[..2] == pair
  {
    if FinishPrefix(pair, 2, rank) {
      var order :| RespectsRank(order, rank) && 2 <= |order| && pair == order[..2];
      DistinctCount(order);
      assert |order| == |rank.Keys| == |rank|;
      assert FinishPrefix(order[..3], 3, rank);
      assert order[..3][..2] == pair;
    }
    if triple :| FinishPrefix(triple, 3, rank) && triple[..2] == pair {
      var order :| RespectsRank(order, rank) && 3 <= |order| && triple == order[..3];
      assert order[..3][..2] == order[..2];
    }
  }
}
