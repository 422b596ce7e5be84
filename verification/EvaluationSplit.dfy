/**
 The chronological split of the selected records: cut points among the distinct prediction
 times, and partitions in which no label reaches into a later partition's predictions.
 */
module EvaluationSplit {
  import opened CredentialIdentity
  import opened EvaluationRecords

  datatype Split = Split(train: seq<Item>, validation: seq<Item>, test: seq<Item>, purged: nat,
                         validationStart: int, testStart: int)

  // ----- the distinct times, sorted

  function InsertTime(t: int, times: seq<int>): seq<int> {
    if times == [] || t < times[0] then [t] + times
    else if t == times[0] then times
    else [times[0]] + InsertTime(t, times[1..])
  }

  /** `sorted({...})` of the prediction times. */
  function Times(items: seq<Item>): seq<int> {
    if items == [] then [] else InsertTime(items[0].predicted, Times(items[1..]))
  }

  ghost predicate Rising(times: seq<int>) {
    forall i, j :: 0 <= i < j < |times| ==> times[i] < times[j]
  }

  lemma {:induction false} InsertTimeSorts(t: int, times: seq<int>)
    requires Rising(times)
    ensures Rising(InsertTime(t, times)) && forall x :: x in InsertTime(t, times) <==> x == t || x in times
    decreases |times|
  {
    if times != [] && t > times[0] {
      InsertTimeSorts(t, times[1..]);
      var tail := InsertTime(t, times[1..]);
      assert times == [times[0]] + times[1..];
      forall j | 0 <= j < |tail| ensures times[0] < tail[j] {
        assert tail[j] in tail;
      }
    }
  }

  lemma {:induction false} TimesSorts(items: seq<Item>)
    ensures Rising(Times(items))
    ensures forall t :: t in Times(items) <==> exists i :: 0 <= i < |items| && items[i].predicted == t
    decreases |items|
  {
    if items != [] {
      TimesSorts(items[1..]);
      InsertTimeSorts(items[0].predicted, Times(items[1..]));
      forall t ensures t in Times(items) <==> exists i :: 0 <= i < |items| && items[i].predicted == t {
        if i :| 0 <= i < |items| && items[i].predicted == t && i > 0 {
          assert items[1..][i - 1].predicted == t;
        }
      }
    }
  }

  // ----- partitions

  predicate InTrain(x: Item, validationStart: int) {
    x.predicted < validationStart && x.result < validationStart
  }

  predicate InValidation(x: Item, validationStart: int, testStart: int) {
    validationStart <= x.predicted < testStart && x.result < testStart
  }

  predicate InTest(x: Item, testStart: int) {
    x.predicted >= testStart
  }

  function Filter(items: seq<Item>, p: Item -> bool): seq<Item> {
    if items == [] then []
    else Filter(items[..|items| - 1], p) + (if p(items[|items| - 1]) then [items[|items| - 1]] else [])
  }

  lemma {:induction false} FilterMeans(items: seq<Item>, p: Item -> bool)
    ensures forall x :: x in Filter(items, p) <==> x in items && p(x)
    decreases |items|
  {
    if items != [] {
      FilterMeans(items[..|items| - 1], p);
      assert items == items[..|items| - 1] + [items[|items| - 1]];
    }
  }

  lemma {:induction false} FiltersApart(items: seq<Item>, p: Item -> bool, q: Item -> bool, r: Item -> bool)
    requires forall x :: !(p(x) && q(x)) && !(p(x) && r(x)) && !(q(x) && r(x))
    ensures |Filter(items, p)| + |Filter(items, q)| + |Filter(items, r)| <= |items|
    decreases |items|
  {
    if items != [] {
      FiltersApart(items[..|items| - 1], p, q, r);
    }
  }

  /** No label of an earlier partition is known only after a later partition's predictions begin. */
  ghost predicate LeakFree(s: Split) {
    && (forall a, b :: a in s.train && b in s.validation ==> a.result < b.predicted)
    && (forall a, b :: a in s.validation && b in s.test ==> a.result < b.predicted)
    && (forall a, b :: a in s.train && b in s.test ==> a.result < b.predicted)
    && (forall x :: !(x in s.train && x in s.validation) && !(x in s.train && x in s.test) && !(x in s.validation && x in s.test))
  }

  /** What the split puts where. */
  ghost predicate Partitions(items: seq<Item>, s: Split) {
    && s.validationStart < s.testStart
    && (forall x :: x in s.train <==> x in items && x.predicted < s.validationStart && x.result < s.validationStart)
    && (forall x :: x in s.validation <==> x in items && s.validationStart <= x.predicted < s.testStart && x.result < s.testStart)
    && (forall x :: x in s.test <==> x in items && s.testStart <= x.predicted)
    && |s.train| + |s.validation| + |s.test| + s.purged == |items|
  }

  lemma PartitionsDoNotLeak(items: seq<Item>, s: Split)
    requires Partitions(items, s)
    ensures LeakFree(s)
  {
  }

  /** Where the distinct times are cut: three fifths and four fifths of the way, at least at the third and fourth. */
  function ValidationCut(n: nat): nat {
    if 3 * n / 5 > 2 then 3 * n / 5 else 2
  }

  function TestCut(n: nat): nat {
    if 4 * n / 5 > 3 then 4 * n / 5 else 3
  }

  /** The cuts never index out of range, and the second is strictly after the first. */
  lemma CutsInRange(n: nat)
    requires n >= 5
    ensures 2 <= ValidationCut(n) < TestCut(n) < n
  {
  }

  /** From five distinct times on the cuts are three and four fifths of them, rounded down: the lower limits never act. */
  lemma CutsExact(n: nat)
    requires n >= 5
    ensures 5 * ValidationCut(n) <= 3 * n < 5 * ValidationCut(n) + 5
    ensures 5 * TestCut(n) <= 4 * n < 5 * TestCut(n) + 5
  {
  }

  /** The three partitions at two given times. */
  method PartitionAt(items: seq<Item>, validationStart: int, testStart: int) returns (s: Split)
    requires validationStart < testStart
    ensures Partitions(items, s) && s.validationStart == validationStart && s.testStart == testStart
    ensures s.train == Filter(items, x => InTrain(x, validationStart))
    ensures s.validation == Filter(items, x => InValidation(x, validationStart, testStart))
    ensures s.test == Filter(items, x => InTest(x, testStart))
  {
    var train := Filter(items, x => InTrain(x, validationStart));
    var validation := Filter(items, x => InValidation(x, validationStart, testStart));
    var test := Filter(items, x => InTest(x, testStart));
    FilterMeans(items, x => InTrain(x, validationStart));
    FilterMeans(items, x => InValidation(x, validationStart, testStart));
    FilterMeans(items, x => InTest(x, testStart));
    FiltersApart(items, x => InTrain(x, validationStart), x => InValidation(x, validationStart, testStart), x => InTest(x, testStart));
    s := Split(train, validation, test, |items| - |train| - |validation| - |test|, validationStart, testStart);
  }

  /** With the cuts at these times, both later partitions and two training records are there. */
  ghost predicate Enough(items: seq<Item>, validationStart: int, testStart: int) {
    && |Filter(items, x => InTrain(x, validationStart))| >= 2
    && Filter(items, x => InValidation(x, validationStart, testStart)) != []
    && Filter(items, x => InTest(x, testStart)) != []
  }

  /**
   `split_records`: a split exactly when there are five distinct prediction times and enough
   records in each part; the cuts are two of those times, no label leaks forward, and what is
   left out is counted.
   */
  method SplitRecords(items: seq<Item>) returns (r: Option<Split>)
    ensures var times := Times(items); var n := |times|;
            r.Some? <==> n >= 5 && ValidationCut(n) < n && TestCut(n) < n
                         && Enough(items, times[ValidationCut(n)], times[TestCut(n)])
    ensures r.Some? ==> Partitions(items, r.value) && LeakFree(r.value)
    ensures r.Some? ==> r.value.validationStart in Times(items) && r.value.testStart in Times(items)
  {
    var times := Times(items);
    TimesSorts(items);
    if |times| < 5 {
      return None;
    }
    CutsInRange(|times|);
    var validationStart, testStart := times[ValidationCut(|times|)], times[TestCut(|times|)];
    var split := PartitionAt(items, validationStart, testStart);
    if |split.train| < 2 || split.validation == [] || split.test == [] {
      return None;
    }
    PartitionsDoNotLeak(items, split);
    return Some(split);
  }
}
