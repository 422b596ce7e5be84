/** Keeping the first of each class of a list, for any relation that is an equivalence on it. */
module FirstOccurrences {

  ghost predicate Repeats<T>(s: seq<T>, i: nat, same: (T, T) -> bool)
    requires i < |s|
  {
    exists j :: 0 <= j < i && same(s[j], s[i])
  }

  /** The elements that repeat no earlier one, in order. */
  ghost function Firsts<T>(s: seq<T>, same: (T, T) -> bool): seq<T> {
    if s == [] then []
    else
      var n := |s| - 1;
      Firsts(s[..n], same) + (if Repeats(s, n, same) then [] else [s[n]])
  }

  /** How many elements repeat an earlier one. */
  ghost function Repetitions<T>(s: seq<T>, same: (T, T) -> bool): nat {
    if s == [] then 0
    else Repetitions(s[..|s| - 1], same) + (if Repeats(s, |s| - 1, same) then 1 else 0)
  }

  ghost predicate EquivalenceOn<T>(s: seq<T>, same: (T, T) -> bool) {
    && (forall i :: 0 <= i < |s| ==> same(s[i], s[i]))
    && (forall i, j :: 0 <= i < |s| && 0 <= j < |s| && same(s[i], s[j]) ==> same(s[j], s[i]))
    && (forall i, j, k :: 0 <= i < |s| && 0 <= j < |s| && 0 <= k < |s| && same(s[i], s[j]) && same(s[j], s[k]) ==> same(s[i], s[k]))
  }

  lemma RepeatsInPrefix<T>(s: seq<T>, i: nat, same: (T, T) -> bool)
    requires i < |s|
    ensures Repeats(s[..i + 1], i, same) <==> Repeats(s, i, same)
  {
    if j :| 0 <= j < i && same(s[j], s[i]) {
      assert s[..i + 1][j] == s[j];
    }
  }

  lemma FirstsOneMore<T>(s: seq<T>, i: nat, same: (T, T) -> bool)
    requires i < |s|
    ensures Firsts(s[..i + 1], same) == Firsts(s[..i], same) + (if Repeats(s, i, same) then [] else [s[i]])
  {
    RepeatsInPrefix(s, i, same);
    assert s[..i + 1][..i] == s[..i];
  }

  /** Kept and removed are all there were. */
  lemma {:induction false} KeptAndRemoved<T>(s: seq<T>, same: (T, T) -> bool)
    ensures |Firsts(s, same)| + Repetitions(s, same) == |s|
    decreases |s|
  {
    if s != [] {
      KeptAndRemoved(s[..|s| - 1], same);
    }
  }

  ghost predicate Covered<T>(kept: seq<T>, x: T, same: (T, T) -> bool) {
    exists k :: 0 <= k < |kept| && same(kept[k], x)
  }

  /** What is kept comes from the list, and everything in the list is the same as something kept. */
  lemma {:induction false} FirstsCover<T>(s: seq<T>, same: (T, T) -> bool)
    requires EquivalenceOn(s, same)
    ensures forall x :: x in Firsts(s, same) ==> x in s
    ensures forall i :: 0 <= i < |s| ==> Covered(Firsts(s, same), s[i], same)
    decreases |s|
  {
    if s != [] {
      var n := |s| - 1;
      var before, kept := s[..n], Firsts(s, same);
      FirstsCover(before, same);
      forall i | 0 <= i < |s| ensures Covered(kept, s[i], same) {
        if i == n && !Repeats(s, n, same) {
          assert kept[|kept| - 1] == s[n];
        } else {
          var j := i;
          if i == n {
            j :| 0 <= j < n && same(s[j], s[n]);
          }
          assert before[j] == s[j];
          var k :| 0 <= k < |Firsts(before, same)| && same(Firsts(before, same)[k], s[j]);
          assert kept[k] == Firsts(before, same)[k] && kept[k] in Firsts(before, same);
          var m :| 0 <= m < n && before[m] == kept[k];
          assert same(s[m], s[j]) && same(s[j], s[i]);
        }
      }
    }
  }

  /** No two that are kept are the same. */
  lemma {:induction false} FirstsDiffer<T>(s: seq<T>, same: (T, T) -> bool)
    requires EquivalenceOn(s, same)
    ensures forall i :: 0 <= i < |Firsts(s, same)| ==> !Repeats(Firsts(s, same), i, same)
    decreases |s|
  {
    if s != [] {
      var n := |s| - 1;
      var before, kept := s[..n], Firsts(s, same);
      FirstsDiffer(before, same);
      FirstsCover(before, same);
      forall i | 0 <= i < |kept| ensures !Repeats(kept, i, same) {
        if i < |Firsts(before, same)| {
          assert forall j :: 0 <= j <= i ==> kept[j] == Firsts(before, same)[j];
          assert !Repeats(Firsts(before, same), i, same);
        } else {
          forall j | 0 <= j < i ensures !same(kept[j], kept[i]) {
            assert kept[j] == Firsts(before, same)[j] && kept[j] in before;
            var m :| 0 <= m < n && s[m] == kept[j];
          }
        }
      }
    }
  }

  /** A list without repetitions is kept whole. */
  lemma {:induction false} DifferentAllKept<T>(s: seq<T>, same: (T, T) -> bool)
    requires forall i :: 0 <= i < |s| ==> !Repeats(s, i, same)
    ensures Firsts(s, same) == s && Repetitions(s, same) == 0
    decreases |s|
  {
    if s != [] {
      var n := |s| - 1;
      forall i | 0 <= i < n ensures !Repeats(s[..n], i, same) {
        RepeatsInPrefix(s, i, same);
        RepeatsInPrefix(s[..n], i, same);
        assert s[..n][..i + 1] == s[..i + 1];
      }
      DifferentAllKept(s[..n], same);
      assert s == s[..n] + [s[n]];
    }
  }
}
