/** Lists sorted by a strict order. */
module SortedLists {

  ghost predicate SortedBy<T>(s: seq<T>, ahead: (T, T) -> bool) {
    forall i, j :: 0 <= i < j < |s| ==> ahead(s[i], s[j])
  }

  /** No two members of the list are each ahead of the other. */
  ghost predicate StrictOn<T>(s: seq<T>, ahead: (T, T) -> bool) {
    forall i, j :: 0 <= i < |s| && 0 <= j < |s| && ahead(s[i], s[j]) ==> !ahead(s[j], s[i])
  }

  /** The first of a sorted list is ahead of, or is, every member. */
  lemma HeadFirst<T(!new)>(s: seq<T>, ahead: (T, T) -> bool, x: T)
    requires SortedBy(s, ahead) && x in s
    ensures x == s[0] || ahead(s[0], x)
  {
    var i :| 0 <= i < |s| && s[i] == x;
  }

  lemma SameHead<T(!new)>(a: seq<T>, b: seq<T>, ahead: (T, T) -> bool)
    requires SortedBy(a, ahead) && SortedBy(b, ahead) && StrictOn(a, ahead)
    requires a != [] && b != [] && a[0] in b && b[0] in a
    ensures a[0] == b[0]
  {
    HeadFirst(a, ahead, b[0]);
    HeadFirst(b, ahead, a[0]);
  }

  lemma TailMembers<T(!new)>(s: seq<T>, ahead: (T, T) -> bool, x: T)
    requires SortedBy(s, ahead) && StrictOn(s, ahead) && s != []
    ensures x in s[1..] <==> x in s && x != s[0]
  {
    if x in s[1..] {
      var i :| 1 <= i < |s| && s[i] == x;
      assert ahead(s[0], s[i]);
    }
  }

  /** A set of members has only one sorted list. */
  lemma {:induction false} OneSortedList<T(!new)>(a: seq<T>, b: seq<T>, ahead: (T, T) -> bool)
    requires SortedBy(a, ahead) && SortedBy(b, ahead) && StrictOn(a, ahead) && StrictOn(b, ahead)
    requires forall x :: x in a <==> x in b
    ensures a == b
    decreases |a|
  {
    if a == [] {
      assert forall j :: 0 <= j < |b| ==> b[j] in b;
    } else {
      assert a[0] in b && b != [] && b[0] in a;
      SameHead(a, b, ahead);
      forall x ensures x in a[1..] <==> x in b[1..] {
        TailMembers(a, ahead, x);
        TailMembers(b, ahead, x);
      }
      OneSortedList(a[1..], b[1..], ahead);
      assert a == [a[0]] + a[1..] && b == [b[0]] + b[1..];
    }
  }
}
