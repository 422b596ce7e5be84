/**
 The trusted identity a credential is bound to, and the normal form of its
 capability list: every name stripped, repeats dropped, sorted by code point.
 */
module CredentialIdentity {
  import opened SortedLists

  datatype Option<+T> = None | Some(value: T)

  /** The characters `str.strip()` removes. */
  predicate IsSpace(c: char) {
    var k := c as int;
    || 0x09 <= k <= 0x0d || 0x1c <= k <= 0x20 || k == 0x85 || k == 0xa0 || k == 0x1680
    || 0x2000 <= k <= 0x200a || k == 0x2028 || k == 0x2029 || k == 0x202f || k == 0x205f || k == 0x3000
  }

  function StripLeft(s: string): string {
    if s != "" && IsSpace(s[0]) then StripLeft(s[1..]) else s
  }

  function StripRight(s: string): string {
    if s != "" && IsSpace(s[|s| - 1]) then StripRight(s[..|s| - 1]) else s
  }

  function Strip(s: string): string {
    StripRight(StripLeft(s))
  }

  predicate NonBlank(s: string) {
    Strip(s) != ""
  }

  /** A string with no surrounding white space, which is what `strip` leaves alone. */
  predicate Trimmed(s: string) {
    s != "" ==> !IsSpace(s[0]) && !IsSpace(s[|s| - 1])
  }

  lemma {:induction false} StripLeftDropsLeading(s: string)
    ensures StripLeft(s) != "" ==> !IsSpace(StripLeft(s)[0])
    decreases |s|
  {
    if s != "" && IsSpace(s[0]) {
      StripLeftDropsLeading(s[1..]);
    }
  }

  lemma {:induction false} StripRightTrims(s: string)
    requires s != "" ==> !IsSpace(s[0])
    ensures Trimmed(StripRight(s))
    decreases |s|
  {
    if s != "" && IsSpace(s[|s| - 1]) {
      StripRightTrims(s[..|s| - 1]);
    }
  }

  /** Stripping leaves a trimmed string, and leaves a trimmed string as it is. */
  lemma StripIsIdempotent(s: string)
    ensures Trimmed(Strip(s)) && Strip(Strip(s)) == Strip(s)
  {
    StripLeftDropsLeading(s);
    StripRightTrims(StripLeft(s));
  }

  /** Code-point order on strings. */
  predicate Before(a: string, b: string) {
    if b == "" then false
    else if a == "" then true
    else if a[0] != b[0] then a[0] < b[0]
    else Before(a[1..], b[1..])
  }

  lemma {:induction false} BeforeIsTotal(a: string, b: string)
    ensures a == b || Before(a, b) || Before(b, a)
    decreases |a|
  {
    if a != "" && b != "" && a[0] == b[0] {
      BeforeIsTotal(a[1..], b[1..]);
      assert a == [a[0]] + a[1..] && b == [b[0]] + b[1..];
    }
  }

  lemma {:induction false} BeforeIsTransitive(a: string, b: string, c: string)
    requires Before(a, b) && Before(b, c)
    ensures Before(a, c)
    decreases |a|
  {
    if a != "" && a[0] == b[0] && b[0] == c[0] {
      BeforeIsTransitive(a[1..], b[1..], c[1..]);
    }
  }

  lemma {:induction false} BeforeIsIrreflexive(a: string)
    ensures !Before(a, a)
    decreases |a|
  {
    if a != "" {
      BeforeIsIrreflexive(a[1..]);
    }
  }

  /** The order is strict: no string is before itself, and no two are before each other. */
  lemma BeforeIsStrict(a: string, b: string)
    requires Before(a, b)
    ensures a != b && !Before(b, a)
  {
    BeforeIsIrreflexive(a);
    if Before(b, a) {
      BeforeIsTransitive(a, b, a);
    }
  }

  ghost predicate StrictlySorted(names: seq<string>) {
    forall i, j :: 0 <= i < j < |names| ==> Before(names[i], names[j])
  }

  /** Insert into a sorted list without repeating a name already there. */
  function Insert(x: string, names: seq<string>): seq<string> {
    if names == [] || Before(x, names[0]) then [x] + names
    else if x == names[0] then names
    else [names[0]] + Insert(x, names[1..])
  }

  function SortedNames(names: seq<string>): seq<string> {
    if names == [] then [] else Insert(names[0], SortedNames(names[1..]))
  }

  lemma {:induction false} InsertKeepsOrder(x: string, names: seq<string>)
    requires StrictlySorted(names)
    ensures StrictlySorted(Insert(x, names))
    ensures forall y :: y in Insert(x, names) <==> y == x || y in names
    decreases |names|
  {
    if names == [] {
    } else if Before(x, names[0]) {
      forall j | 0 < j < |names| ensures Before(x, names[j]) {
        BeforeIsTransitive(x, names[0], names[j]);
      }
    } else if x != names[0] {
      BeforeIsTotal(x, names[0]);
      InsertKeepsOrder(x, names[1..]);
      assert names == [names[0]] + names[1..];
      var tail := Insert(x, names[1..]);
      forall j | 0 <= j < |tail| ensures Before(names[0], tail[j]) {
        assert tail[j] in tail;
      }
    }
  }

  /** `sorted(set(names))`: the same names, each once, in strict order. */
  lemma {:induction false} SortedNamesSorts(names: seq<string>)
    ensures StrictlySorted(SortedNames(names))
    ensures forall y :: y in SortedNames(names) <==> y in names
    decreases |names|
  {
    if names != [] {
      SortedNamesSorts(names[1..]);
      InsertKeepsOrder(names[0], SortedNames(names[1..]));
      assert names == [names[0]] + names[1..];
    }
  }

  lemma {:induction false} SortedNamesFixesSorted(names: seq<string>)
    requires StrictlySorted(names)
    ensures SortedNames(names) == names
    decreases |names|
  {
    if names != [] {
      SortedNamesFixesSorted(names[1..]);
      assert |names| > 1 ==> Before(names[0], names[1]);
      assert names == [names[0]] + names[1..];
    }
  }

  function StripAll(names: seq<string>): (r: seq<string>)
    ensures |r| == |names| && forall i :: 0 <= i < |names| ==> r[i] == Strip(names[i])
  {
    seq(|names|, i requires 0 <= i < |names| => Strip(names[i]))
  }

  /** `_capabilities`: refuses an empty list or a blank name, otherwise normalises. */
  function Capabilities(names: seq<string>): Option<seq<string>> {
    if names == [] || exists i :: 0 <= i < |names| && !NonBlank(names[i]) then None
    else Some(SortedNames(StripAll(names)))
  }

  /** Normalising twice is normalising once, so a stored list compares equal to itself. */
  lemma CapabilitiesIdempotent(names: seq<string>)
    requires Capabilities(names).Some?
    ensures Capabilities(Capabilities(names).value) == Capabilities(names)
  {
    var stripped := StripAll(names);
    var sorted := SortedNames(stripped);
    SortedNamesSorts(stripped);
    assert stripped[0] in stripped;
    assert sorted != [];
    forall i | 0 <= i < |sorted| ensures NonBlank(sorted[i]) && Strip(sorted[i]) == sorted[i] {
      assert sorted[i] in sorted;
      var k :| 0 <= k < |stripped| && stripped[k] == sorted[i];
      StripIsIdempotent(names[k]);
    }
    assert StripAll(sorted) == sorted;
    SortedNamesFixesSorted(sorted);
  }

  // ----- what blank names and equal scopes mean

  ghost predicate HasInk(s: string) {
    exists i :: 0 <= i < |s| && !IsSpace(s[i])
  }

  lemma {:induction false} StripLeftInk(s: string)
    ensures HasInk(s) <==> StripLeft(s) != ""
    ensures HasInk(s) <==> HasInk(StripLeft(s))
    decreases |s|
  {
    if s != "" && IsSpace(s[0]) {
      StripLeftInk(s[1..]);
      if i :| 0 <= i < |s| && !IsSpace(s[i]) {
        assert !IsSpace(s[1..][i - 1]);
      }
      if i :| 0 <= i < |s[1..]| && !IsSpace(s[1..][i]) {
        assert !IsSpace(s[i + 1]);
      }
    } else if s != "" {
      assert !IsSpace(s[0]);
    }
  }

  lemma {:induction false} StripRightInk(s: string)
    ensures HasInk(s) <==> StripRight(s) != ""
    decreases |s|
  {
    if s != "" {
      var n := |s| - 1;
      if IsSpace(s[n]) {
        StripRightInk(s[..n]);
        if i :| 0 <= i < |s| && !IsSpace(s[i]) {
          assert !IsSpace(s[..n][i]);
        }
      } else {
        assert !IsSpace(s[n]);
      }
    }
  }

  /** A string is not blank exactly when some character of it is not white space. */
  lemma NonBlankExactly(s: string)
    ensures NonBlank(s) <==> HasInk(s)
  {
    StripLeftInk(s);
    StripRightInk(StripLeft(s));
  }

  /** The same names, stripped, and none of them blank. */
  ghost predicate SameNames(given: seq<string>, bound: seq<string>) {
    && given != [] && (forall c :: c in given ==> HasInk(c))
    && (forall c :: c in given ==> Strip(c) in bound)
    && (forall b :: b in bound ==> exists c :: c in given && Strip(c) == b)
  }

  lemma StrippedNames(names: seq<string>, name: string)
    ensures name in StripAll(names) <==> exists c :: c in names && Strip(c) == name
  {
    if i :| 0 <= i < |names| && StripAll(names)[i] == name {
      assert names[i] in names;
    }
    if c :| c in names && Strip(c) == name {
      var i :| 0 <= i < |names| && names[i] == c;
      assert StripAll(names)[i] == name;
    }
  }

  lemma SortedIsUnique(a: seq<string>, b: seq<string>)
    requires StrictlySorted(a) && StrictlySorted(b) && forall x :: x in a <==> x in b
    ensures a == b
  {
    forall x: string, y: string | Before(x, y) ensures !Before(y, x) {
      BeforeIsStrict(x, y);
    }
    OneSortedList(a, b, (x: string, y: string) => Before(x, y));
  }

  /** A scope normalises to the bound one exactly when it names the same capabilities. */
  lemma ScopeExactly(given: seq<string>, bound: seq<string>)
    requires Capabilities(bound) == Some(bound)
    ensures Capabilities(given) == Some(bound) <==> SameNames(given, bound)
  {
    forall c ensures NonBlank(c) <==> HasInk(c) {
      NonBlankExactly(c);
    }
    forall name ensures name in StripAll(given) <==> exists c :: c in given && Strip(c) == name {
      StrippedNames(given, name);
    }
    SortedNamesSorts(StripAll(given));
    SortedNamesSorts(StripAll(bound));
    assert forall i :: 0 <= i < |given| ==> given[i] in given;
    if SameNames(given, bound) {
      SortedIsUnique(SortedNames(StripAll(given)), bound);
    }
  }

  datatype Binding = Binding(provider: string, account: string, capabilities: seq<string>) {
    /** What a constructed `CredentialBinding` satisfies. */
    ghost predicate Valid() {
      && NonBlank(provider) && Strip(provider) == provider
      && NonBlank(account) && Strip(account) == account
      && Capabilities(capabilities) == Some(capabilities)
    }
  }

  /** The `CredentialBinding` constructor: identity must be trimmed, capabilities are normalised. */
  function MakeBinding(provider: string, account: string, names: seq<string>): Option<Binding> {
    if !NonBlank(provider) || Strip(provider) != provider || !NonBlank(account) || Strip(account) != account then None
    else match Capabilities(names)
      case None => None
      case Some(sorted) => Some(Binding(provider, account, sorted))
  }

  /** Every binding that can be constructed is valid, and rebuilding it from its own fields changes nothing. */
  lemma MakeBindingValid(provider: string, account: string, names: seq<string>)
    requires MakeBinding(provider, account, names).Some?
    ensures var b := MakeBinding(provider, account, names).value;
            b.Valid() && MakeBinding(b.provider, b.account, b.capabilities) == Some(b)
  {
    CapabilitiesIdempotent(names);
  }
}
