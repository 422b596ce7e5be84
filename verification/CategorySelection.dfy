/**
 Choosing the five categories of a predicted race: the top three combinations overall, then
 the best three of each odds band, from a complete table of three-car combinations.
 */
module CategorySelection {
  import opened CredentialIdentity
  import opened FinishOrders

  /** One combination with its estimated probability and its confirmed odds, if known. */
  datatype Row = Row(combo: seq<nat>, p: real, odds: Option<real>)

  function Riders(n: nat): (r: seq<nat>)
    ensures |r| == n && forall i :: 0 <= i < n ==> r[i] == i + 1
  {
    seq(n, i => i + 1)
  }

  /** All ordered triples of the riders. */
  function Expected(n: nat): set<seq<nat>> {
    Permutations(Riders(n), 3)
  }

  function Mass(rows: seq<Row>): real {
    if rows == [] then 0.0 else Mass(rows[..|rows| - 1]) + rows[|rows| - 1].p
  }

  function KnownCount(rows: seq<Row>): nat {
    if rows == [] then 0
    else KnownCount(rows[..|rows| - 1]) + (if rows[|rows| - 1].odds.Some? then 1 else 0)
  }

  predicate RowOk(row: Row, n: nat) {
    row.combo in Expected(n) && 0.0 <= row.p <= 1.0 && (row.odds.Some? ==> row.odds.value > 0.0)
  }

  ghost predicate RowsOk(rows: seq<Row>, n: nat) {
    && (forall i :: 0 <= i < |rows| ==> RowOk(rows[i], n))
    && (forall i, j :: 0 <= i < j < |rows| ==> rows[i].combo != rows[j].combo)
  }

  /** A complete table of seven or nine riders whose probabilities add up to one. */
  ghost predicate ValidTable(rows: seq<Row>, n: nat) {
    && (n == 7 || n == 9) && |rows| == |Expected(n)| && RowsOk(rows, n)
    && -0.000001 <= Mass(rows) - 1.0 <= 0.000001
  }

  // ----- how many combinations there are

  /** The selections that start with one of the first `m` cars. */
  function StartingBefore(s: seq<nat>, k: nat, m: nat): set<seq<nat>>
    requires k > 0 && m <= |s|
  {
    set i, p | 0 <= i < m && p in Permutations(Without(s, i), k - 1) :: [s[i]] + p
  }

  function StartingWith(car: nat, tails: set<seq<nat>>): set<seq<nat>> {
    set p | p in tails :: [car] + p
  }

  lemma {:induction false} StartingWithCount(car: nat, tails: set<seq<nat>>)
    ensures |StartingWith(car, tails)| == |tails|
    decreases |tails|
  {
    if tails == {} {
      assert StartingWith(car, tails) == {};
    } else {
      var p := Pick(tails);
      StartingWithCount(car, tails - {p});
      assert StartingWith(car, tails) == StartingWith(car, tails - {p}) + {[car] + p};
      assert [car] + p !in StartingWith(car, tails - {p}) by {
        forall q | q in tails - {p} ensures [car] + q != [car] + p {
          assert ([car] + q)[1..] == q && ([car] + p)[1..] == p;
        }
      }
    }
  }

  function Falling(n: nat, k: nat): nat {
    if k == 0 then 1 else if n == 0 then 0 else n * Falling(n - 1, k - 1)
  }

  lemma StartingOneMore(s: seq<nat>, k: nat, m: nat)
    requires k > 0 && m < |s| && Distinct(s)
    ensures StartingBefore(s, k, m + 1) == StartingBefore(s, k, m) + StartingWith(s[m], Permutations(Without(s, m), k - 1))
    ensures StartingBefore(s, k, m) !! StartingWith(s[m], Permutations(Without(s, m), k - 1))
  {
    forall x | x in StartingBefore(s, k, m) ensures x !in StartingWith(s[m], Permutations(Without(s, m), k - 1)) {
      var i, p :| 0 <= i < m && p in Permutations(Without(s, i), k - 1) && x == [s[i]] + p;
      assert x[0] == s[i] && s[i] != s[m];
    }
  }

  lemma {:induction false} StartingCount(s: seq<nat>, k: nat, m: nat, each: nat)
    requires k > 0 && m <= |s| && Distinct(s)
    requires forall i :: 0 <= i < m ==> |Permutations(Without(s, i), k - 1)| == each
    ensures |StartingBefore(s, k, m)| == m * each
    decreases m
  {
    if m == 0 {
      assert StartingBefore(s, k, 0) == {};
    } else {
      StartingCount(s, k, m - 1, each);
      StartingOneMore(s, k, m - 1);
      StartingWithCount(s[m - 1], Permutations(Without(s, m - 1), k - 1));
      OneMoreTime(m, each);
    }
  }

  lemma OneMoreTime(m: nat, each: nat)
    requires m > 0
    ensures (m - 1) * each + each == m * each
  {
  }

  /** The number of ordered selections of `k` out of `n` different cars. */
  lemma {:induction false} PermutationCount(s: seq<nat>, k: nat)
    requires Distinct(s)
    ensures |Permutations(s, k)| == Falling(|s|, k)
    decreases k
  {
    if k == 0 {
      assert Permutations(s, 0) == {[]};
    } else if |s| == 0 {
      assert Permutations(s, k) == {};
    } else {
      var each := Falling(|s| - 1, k - 1);
      forall i | 0 <= i < |s| ensures |Permutations(Without(s, i), k - 1)| == each {
        WithoutIsTheRest(s, i);
        PermutationCount(Without(s, i), k - 1);
      }
      StartingCount(s, k, |s|, each);
      assert StartingBefore(s, k, |s|) == Permutations(s, k);
    }
  }

  lemma FallingThree(n: nat)
    requires n >= 3
    ensures Falling(n, 3) == n * ((n - 1) * (n - 2))
  {
    assert Falling(n - 3, 0) == 1;
    assert Falling(n - 2, 1) == n - 2;
    assert Falling(n - 1, 2) == (n - 1) * (n - 2);
  }

  lemma ThreeFactors(a: nat, b: nat, c: nat)
    ensures a * (b * c) == a * b * c
  {
  }

  lemma ExpectedCount(n: nat)
    requires n >= 3
    ensures |Expected(n)| == n * (n - 1) * (n - 2)
  {
    assert |Expected(n)| == Falling(n, 3) by {
      PermutationCount(Riders(n), 3);
    }
    FallingThree(n);
    ThreeFactors(n, n - 1, n - 2);
  }

  // ----- validation

  /** What the loop has checked of the first `i` rows. */
  ghost predicate CheckedSoFar(rows: seq<Row>, n: nat, i: nat, seen: set<seq<nat>>, mass: real, known: nat) {
    && i <= |rows| && RowsOk(rows[..i], n)
    && (forall c :: c in seen <==> exists j :: 0 <= j < i && rows[j].combo == c)
    && mass == Mass(rows[..i]) && known == KnownCount(rows[..i])
  }

  lemma CheckedOneMore(rows: seq<Row>, n: nat, i: nat, seen: set<seq<nat>>, mass: real, known: nat)
    requires CheckedSoFar(rows, n, i, seen, mass, known) && i < |rows|
    requires RowOk(rows[i], n) && rows[i].combo !in seen
    ensures CheckedSoFar(rows, n, i + 1, seen + {rows[i].combo}, mass + rows[i].p,
                         known + (if rows[i].odds.Some? then 1 else 0))
  {
    var more := rows[..i + 1];
    assert more[..i] == rows[..i] && more[i] == rows[i];
    forall j | 0 <= j < i ensures more[j].combo != more[i].combo {
      assert rows[j].combo in seen;
    }
  }

  /** `validate_model_scores`: accepted exactly when the table is valid, with its count of known odds. */
  method ValidateModelScores(rows: seq<Row>, n: nat) returns (known: Option<nat>)
    ensures known.Some? <==> ValidTable(rows, n)
    ensures known.Some? ==> known.value == KnownCount(rows)
  {
    if n != 7 && n != 9 {
      return None;
    }
    var expected := Expected(n);
    if |rows| != |expected| {
      return None;
    }
    var seen: set<seq<nat>>, mass: real, count: nat := {}, 0.0, 0;
    for i := 0 to |rows|
      invariant CheckedSoFar(rows, n, i, seen, mass, count)
    {
      var row := rows[i];
      if row.combo !in expected || row.combo in seen || !(0.0 <= row.p <= 1.0) {
        return None;
      }
      if row.odds.Some? && !(row.odds.value > 0.0) {
        return None;
      }
      CheckedOneMore(rows, n, i, seen, mass, count);
      seen := seen + {row.combo};
      mass := mass + row.p;
      count := count + (if row.odds.Some? then 1 else 0);
    }
    assert rows[..|rows|] == rows;
    if mass - 1.0 > 0.000001 || 1.0 - mass > 0.000001 {
      return None;
    }
    return Some(count);
  }

  function Combos(rows: seq<Row>): seq<seq<nat>> {
    seq(|rows|, i requires 0 <= i < |rows| => rows[i].combo)
  }

  lemma {:induction false} DistinctFill<T>(s: seq<T>, all: set<T>)
    requires Distinct(s) && |s| == |all| && forall i :: 0 <= i < |s| ==> s[i] in all
    ensures forall x :: x in all ==> x in s
    decreases |s|
  {
    if s != [] {
      var n := |s| - 1;
      var last := s[n];
      DistinctFill(s[..n], all - {last});
      forall x | x in all ensures x in s {
        if x != last {
          assert x in s[..n];
        }
      }
    } 
  }

  lemma InExpected(n: nat, combo: seq<nat>)
    ensures combo in Expected(n) <==> |combo| == 3 && Distinct(combo) && forall i :: 0 <= i < |combo| ==> 1 <= combo[i] <= n
  {
    var riders := Riders(n);
    assert forall x :: x in Elements(riders) <==> 1 <= x <= n by {
      forall x | 1 <= x <= n ensures x in Elements(riders) {
        assert riders[x - 1] == x;
      }
    }
    PermutationsExact(riders, 3, combo);
    assert (forall i :: 0 <= i < |combo| ==> combo[i] in Elements(combo));
  }

  lemma AllListed(rows: seq<Row>, n: nat)
    requires RowsOk(rows, n) && |rows| == |Expected(n)|
    ensures forall combo :: combo in Expected(n) ==> combo in Combos(rows)
  {
    var combos := Combos(rows);
    forall i | 0 <= i < |combos| ensures combos[i] in Expected(n) {
      assert RowOk(rows[i], n);
    }
    DistinctFill(combos, Expected(n));
  }

  /** A valid table lists every ordered triple of different riders. */
  lemma TableIsComplete(rows: seq<Row>, n: nat, combo: seq<nat>)
    requires ValidTable(rows, n) && |combo| == 3 && Distinct(combo) && forall i :: 0 <= i < |combo| ==> 1 <= combo[i] <= n
    ensures exists i :: 0 <= i < |rows| && rows[i].combo == combo
  {
    InExpected(n, combo);
    AllListed(rows, n);
    var i :| 0 <= i < |rows| && Combos(rows)[i] == combo;
  }
}
