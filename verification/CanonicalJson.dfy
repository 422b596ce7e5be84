/**
 JSON values as the browser holds them, their canonical text with sorted keys, and a reader
 that inverts it. Strings are sequences of UTF-16 code units; a number is known by its
 printed form, and a number too large to hold prints as `null`.
 */
module CanonicalJson {
  import opened CredentialIdentity
  import opened SortedLists

  type Unit = u: nat | u < 0x10000
  type Text = seq<Unit>

  const QUOTE: Unit := 34
  const BACKSLASH: Unit := 92
  const COMMA: Unit := 44
  const COLON: Unit := 58
  const OPEN_ARRAY: Unit := 91
  const CLOSE_ARRAY: Unit := 93
  const OPEN_OBJECT: Unit := 123
  const CLOSE_OBJECT: Unit := 125
  const LOWER_U: Unit := 117
  const NULL_TEXT: Text := [110, 117, 108, 108]
  const TRUE_TEXT: Text := [116, 114, 117, 101]
  const FALSE_TEXT: Text := [102, 97, 108, 115, 101]

  /** `Infinite` is what reading a literal such as 1e999 leaves behind. */
  datatype Json =
    | Null
    | Bool(value: bool)
    | Number(printed: Text)
    | Infinite(negative: bool)
    | Str(text: Text)
    | Arr(items: seq<Json>)
    | Obj(members: seq<Member>)

  datatype Member = Member(key: Text, value: Json)

  predicate Digit(u: Unit) { 48 <= u <= 57 }

  /** The code units of printed numbers: digits, sign, point, exponent. */
  predicate NumberUnit(u: Unit) { Digit(u) || u == 43 || u == 45 || u == 46 || u == 101 }

  predicate NumberText(t: Text) {
    t != [] && (Digit(t[0]) || t[0] == 45) && forall i :: 0 <= i < |t| ==> NumberUnit(t[i])
  }

  /** Object keys are distinct and numbers print as numbers, at every level. */
  ghost predicate Valid(v: Json) {
    match v
    case Null => true
    case Bool(_) => true
    case Number(t) => NumberText(t)
    case Infinite(_) => true
    case Str(_) => true
    case Arr(items) => forall i :: 0 <= i < |items| ==> Valid(items[i])
    case Obj(ms) => DistinctKeys(ms) && forall i :: 0 <= i < |ms| ==> Valid(ms[i].value)
  }

  predicate DistinctKeys(ms: seq<Member>) {
    forall i, j :: 0 <= i < j < |ms| ==> ms[i].key != ms[j].key
  }

  predicate HasKey(ms: seq<Member>, key: Text) {
    exists i :: 0 <= i < |ms| && ms[i].key == key
  }

  /** `value[key]`. */
  function Lookup(ms: seq<Member>, key: Text): (r: Json)
    requires HasKey(ms, key)
    ensures exists i :: 0 <= i < |ms| && ms[i].key == key && ms[i].value == r
  {
    if ms[0].key == key then ms[0].value
    else
      assert HasKey(ms[1..], key) by {
        var i :| 0 <= i < |ms| && ms[i].key == key;
        assert ms[1..][i - 1] == ms[i];
      }
      Lookup(ms[1..], key)
  }

  lemma LookupAt(ms: seq<Member>, i: nat)
    requires DistinctKeys(ms) && i < |ms|
    ensures HasKey(ms, ms[i].key) && Lookup(ms, ms[i].key) == ms[i].value
  {
  }

  // ----- the order of `sort()`: by code units

  predicate Before(a: Text, b: Text) {
    b != [] && (a == [] || a[0] < b[0] || (a[0] == b[0] && Before(a[1..], b[1..])))
  }

  lemma {:induction false} BeforeIsTotal(a: Text, b: Text)
    ensures Before(a, b) || a == b || Before(b, a)
    decreases |a|
  {
    if a != [] && b != [] && a[0] == b[0] {
      BeforeIsTotal(a[1..], b[1..]);
      assert a == [a[0]] + a[1..] && b == [b[0]] + b[1..];
    }
  }

  lemma {:induction false} BeforeIsStrict(a: Text, b: Text)
    requires Before(a, b)
    ensures a != b && !Before(b, a)
    decreases |a|
  {
    if a != [] && a[0] == b[0] {
      BeforeIsStrict(a[1..], b[1..]);
    }
  }

  lemma {:induction false} BeforeIsTransitive(a: Text, b: Text, c: Text)
    requires Before(a, b) && Before(b, c)
    ensures Before(a, c)
    decreases |a|
  {
    if a != [] && a[0] == b[0] && b[0] == c[0] {
      BeforeIsTransitive(a[1..], b[1..], c[1..]);
    }
  }

  /** The order of code units: the first difference decides, and a text comes before its continuations. */
  lemma {:induction false} BeforeExact(a: Text, b: Text)
    ensures Before(a, b) <==> exists k :: 0 <= k <= |a| && DecidesAt(a, b, k)
    decreases |a|
  {
    if a != [] && b != [] && a[0] == b[0] {
      BeforeExact(a[1..], b[1..]);
      if k :| 0 <= k < |a| && DecidesAt(a[1..], b[1..], k) {
        assert a[..k + 1] == [a[0]] + a[1..][..k] && b[..k + 1] == [b[0]] + b[1..][..k];
        assert DecidesAt(a, b, k + 1);
      }
      if k :| 0 <= k <= |a| && DecidesAt(a, b, k) {
        assert k > 0;
        assert a[1..][..k - 1] == a[..k][1..] && b[1..][..k - 1] == b[..k][1..];
        assert DecidesAt(a[1..], b[1..], k - 1);
      }
    } else if Before(a, b) {
      assert DecidesAt(a, b, 0);
    } else {
      forall k | 0 <= k <= |a| ensures !DecidesAt(a, b, k) {
        SamePrefix(a, b, k);
      }
    }
  }

  lemma SamePrefix(a: Text, b: Text, k: nat)
    requires k <= |a|
    ensures 0 < k <= |b| && a[..k] == b[..k] ==> a[0] == b[0]
  {
    if 0 < k <= |b| {
      assert a[..k][0] == a[0] && b[..k][0] == b[0];
    }
  }

  predicate DecidesAt(a: Text, b: Text, k: nat) {
    k <= |a| && k < |b| && a[..k] == b[..k] && (k < |a| ==> a[k] < b[k])
  }

  ghost predicate Ascending(keys: seq<Text>) {
    forall i, j :: 0 <= i < j < |keys| ==> Before(keys[i], keys[j])
  }

  function InsertKey(key: Text, keys: seq<Text>): seq<Text> {
    if keys == [] || Before(key, keys[0]) then [key] + keys else [keys[0]] + InsertKey(key, keys[1..])
  }

  function SortedKeys(ms: seq<Member>): seq<Text> {
    if ms == [] then [] else InsertKey(ms[0].key, SortedKeys(ms[1..]))
  }

  lemma {:induction false} InsertKeySorts(key: Text, keys: seq<Text>)
    requires Ascending(keys) && key !in keys
    ensures Ascending(InsertKey(key, keys))
    ensures forall k :: k in InsertKey(key, keys) <==> k == key || k in keys
    decreases |keys|
  {
    if keys == [] {
    } else if Before(key, keys[0]) {
      forall j | 0 <= j < |keys| ensures Before(key, keys[j]) {
        if j > 0 {
          BeforeIsTransitive(key, keys[0], keys[j]);
        }
      }
    } else {
      BeforeIsTotal(key, keys[0]);
      assert forall k :: k in keys <==> k == keys[0] || k in keys[1..];
      InsertKeySorts(key, keys[1..]);
      var tail := InsertKey(key, keys[1..]);
      forall j | 0 <= j < |tail| ensures Before(keys[0], tail[j]) {
        assert tail[j] in tail;
      }
    }
  }

  /** Sorting the keys keeps exactly the keys and puts them in strictly ascending order. */
  lemma {:induction false} SortedKeysSorts(ms: seq<Member>)
    requires DistinctKeys(ms)
    ensures Ascending(SortedKeys(ms))
    ensures forall k :: k in SortedKeys(ms) <==> HasKey(ms, k)
    decreases |ms|
  {
    if ms != [] {
      var rest := ms[1..];
      SortedKeysSorts(rest);
      assert forall i :: 0 <= i < |rest| ==> rest[i] == ms[i + 1];
      InsertKeySorts(ms[0].key, SortedKeys(rest));
      forall k ensures HasKey(ms, k) <==> k == ms[0].key || HasKey(rest, k) {
        if HasKey(ms, k) && k != ms[0].key {
          var i :| 0 <= i < |ms| && ms[i].key == k;
          assert rest[i - 1].key == k;
        }
        if HasKey(rest, k) {
          var i :| 0 <= i < |rest| && rest[i].key == k;
          assert ms[i + 1].key == k;
        }
      }
    }
  }

  /** There is only one ascending list of a set of keys. */
  lemma AscendingIsUnique(a: seq<Text>, b: seq<Text>)
    requires Ascending(a) && Ascending(b) && forall k :: k in a <==> k in b
    ensures a == b
  {
    forall x: Text, y: Text | Before(x, y) ensures !Before(y, x) {
      BeforeIsStrict(x, y);
    }
    OneSortedList(a, b, (x: Text, y: Text) => Before(x, y));
  }

  // ----- strings as `JSON.stringify` writes them

  predicate High(u: Unit) { 0xD800 <= u <= 0xDBFF }
  predicate Low(u: Unit) { 0xDC00 <= u <= 0xDFFF }

  function Hex(d: nat): Unit
    requires d < 16
  {
    if d < 10 then 48 + d else 87 + d
  }

  function HexEscape(u: Unit): Text {
    [BACKSLASH, LOWER_U, Hex(u / 0x1000), Hex(u / 0x100 % 16), Hex(u / 0x10 % 16), Hex(u % 16)]
  }

  /** The letter of a two-unit escape, for the units that have one. */
  function Short(u: Unit): Option<Unit> {
    if u == 8 then Some(98) else if u == 9 then Some(116) else if u == 10 then Some(110)
    else if u == 12 then Some(102) else if u == 13 then Some(114)
    else if u == QUOTE || u == BACKSLASH then Some(u)
    else None
  }

  /** One unit that is not half of a surrogate pair. */
  function Piece(u: Unit): Text {
    if Short(u).Some? then [BACKSLASH, Short(u).value]
    else if u < 0x20 || High(u) || Low(u) then HexEscape(u)
    else [u]
  }

  function Escaped(t: Text): Text {
    if t == [] then []
    else if High(t[0]) && |t| > 1 && Low(t[1]) then [t[0], t[1]] + Escaped(t[2..])
    else Piece(t[0]) + Escaped(t[1..])
  }

  function Quoted(t: Text): Text {
    [QUOTE] + Escaped(t) + [QUOTE]
  }

  // ----- the canonical text

  function CommaFirst(texts: seq<Text>): Text {
    if texts == [] then [] else [COMMA] + texts[0] + CommaFirst(texts[1..])
  }

  /** `join(',')`. */
  function Joined(texts: seq<Text>): Text {
    if texts == [] then [] else texts[0] + CommaFirst(texts[1..])
  }

  /** `canonical`: arrays in order, object members by sorted key, everything else as `JSON.stringify` has it. */
  function Canonical(v: Json): Text
    requires Valid(v)
  {
    match v
    case Null => NULL_TEXT
    case Bool(b) => if b then TRUE_TEXT else FALSE_TEXT
    case Number(t) => t
    case Infinite(_) => NULL_TEXT
    case Str(t) => Quoted(t)
    case Arr(items) =>
      [OPEN_ARRAY] + Joined(seq(|items|, i requires 0 <= i < |items| => Canonical(items[i]))) + [CLOSE_ARRAY]
    case Obj(ms) =>
      SortedKeysSorts(ms);
      var keys := SortedKeys(ms);
      [OPEN_OBJECT]
      + Joined(seq(|keys|, i requires 0 <= i < |keys| =>
                 assert keys[i] in keys; Quoted(keys[i]) + [COLON] + Canonical(Lookup(ms, keys[i]))))
      + [CLOSE_OBJECT]
  }

  // ----- the reader

  function HexValue(u: Unit): Option<nat> {
    if Digit(u) then Some(u - 48) else if 97 <= u <= 102 then Some(u - 87) else None
  }

  /** The unit a two-unit escape stands for. */
  function Long(letter: Unit): Option<Unit> {
    if letter == 98 then Some(8) else if letter == 116 then Some(9) else if letter == 110 then Some(10)
    else if letter == 102 then Some(12) else if letter == 114 then Some(13)
    else if letter == QUOTE || letter == BACKSLASH then Some(letter)
    else None
  }

  /** One escape, after its backslash: the unit and how many units it took. */
  function ReadEscape(s: Text): (r: Option<(Unit, nat)>)
    ensures r.Some? ==> 1 <= r.value.1 <= |s|
  {
    if s == [] then None
    else if s[0] == LOWER_U then
      if |s| < 5 || HexValue(s[1]).None? || HexValue(s[2]).None? || HexValue(s[3]).None? || HexValue(s[4]).None? then None
      else Some((0x1000 * HexValue(s[1]).value + 0x100 * HexValue(s[2]).value
                 + 0x10 * HexValue(s[3]).value + HexValue(s[4]).value, 5))
    else if Long(s[0]).Some? then Some((Long(s[0]).value, 1))
    else None
  }

  /** The rest of a string, up to its closing quote. */
  function ReadString(s: Text): (r: Option<(Text, Text)>)
    ensures r.Some? ==> |r.value.1| < |s|
    decreases |s|
  {
    if s == [] then None
    else if s[0] == QUOTE then Some(([], s[1..]))
    else if s[0] == BACKSLASH then
      match ReadEscape(s[1..])
      case None => None
      case Some((u, n)) => Prepend(u, ReadString(s[1 + n..]))
    else Prepend(s[0], ReadString(s[1..]))
  }

  function Prepend(u: Unit, r: Option<(Text, Text)>): Option<(Text, Text)> {
    match r
    case None => None
    case Some((t, rest)) => Some(([u] + t, rest))
  }

  function NumberRun(s: Text): (n: nat)
    ensures n <= |s|
  {
    if s == [] || !NumberUnit(s[0]) then 0 else 1 + NumberRun(s[1..])
  }

  /** Read one value off the front of a text. */
  function Read(s: Text): (r: Option<(Json, Text)>)
    ensures r.Some? ==> |r.value.1| < |s|
    decreases |s|, 0
  {
    if s == [] then None
    else if s[0] == QUOTE then
      match ReadString(s[1..])
      case None => None
      case Some((t, rest)) => Some((Str(t), rest))
    else if NULL_TEXT <= s then Some((Null, s[4..]))
    else if TRUE_TEXT <= s then Some((Bool(true), s[4..]))
    else if FALSE_TEXT <= s then Some((Bool(false), s[5..]))
    else if s[0] == OPEN_ARRAY then
      if |s| > 1 && s[1] == CLOSE_ARRAY then Some((Arr([]), s[2..]))
      else
        match ReadItems(s[1..])
        case None => None
        case Some((items, rest)) => Some((Arr(items), rest))
    else if s[0] == OPEN_OBJECT then
      if |s| > 1 && s[1] == CLOSE_OBJECT then Some((Obj([]), s[2..]))
      else
        match ReadMembers(s[1..])
        case None => None
        case Some((members, rest)) => Some((Obj(members), rest))
    else if NumberRun(s) > 0 then Some((Number(s[..NumberRun(s)]), s[NumberRun(s)..]))
    else None
  }

  function ReadItems(s: Text): (r: Option<(seq<Json>, Text)>)
    ensures r.Some? ==> |r.value.1| < |s|
    decreases |s|, 1
  {
    match Read(s)
    case None => None
    case Some((v, rest)) =>
      if rest == [] then None
      else if rest[0] == CLOSE_ARRAY then Some(([v], rest[1..]))
      else if rest[0] == COMMA then
        match ReadItems(rest[1..])
        case None => None
        case Some((vs, after)) => Some(([v] + vs, after))
      else None
  }

  function ReadMember(s: Text): (r: Option<(Member, Text)>)
    ensures r.Some? ==> |r.value.1| < |s|
    decreases |s|, 0
  {
    if s == [] || s[0] != QUOTE then None
    else
      match ReadString(s[1..])
      case None => None
      case Some((key, rest)) =>
        if rest == [] || rest[0] != COLON then None
        else
          match Read(rest[1..])
          case None => None
          case Some((v, after)) => Some((Member(key, v), after))
  }

  function ReadMembers(s: Text): (r: Option<(seq<Member>, Text)>)
    ensures r.Some? ==> |r.value.1| < |s|
    decreases |s|, 1
  {
    match ReadMember(s)
    case None => None
    case Some((m, rest)) =>
      if rest == [] then None
      else if rest[0] == CLOSE_OBJECT then Some(([m], rest[1..]))
      else if rest[0] == COMMA then
        match ReadMembers(rest[1..])
        case None => None
        case Some((ms, after)) => Some(([m] + ms, after))
      else None
  }

  // ----- the reader undoes escaping

  lemma HexDigitsRead(d: nat)
    requires d < 16
    ensures HexValue(Hex(d)) == Some(d) && Hex(d) != LOWER_U
  {
  }

  lemma HexDigitsAddUp(u: Unit)
    ensures u == 0x1000 * (u / 0x1000) + 0x100 * (u / 0x100 % 16) + 0x10 * (u / 0x10 % 16) + u % 16
    ensures u / 0x1000 < 16
  {
    assert u / 0x1000 == u / 0x100 / 16;
    assert u / 0x100 == u / 0x10 / 16;
  }

  lemma ReadHexDigits(s: Text, a: nat, b: nat, c: nat, d: nat)
    requires a < 16 && b < 16 && c < 16 && d < 16 && |s| >= 5
    requires s[0] == LOWER_U && s[1] == Hex(a) && s[2] == Hex(b) && s[3] == Hex(c) && s[4] == Hex(d)
    ensures ReadEscape(s) == Some((0x1000 * a + 0x100 * b + 0x10 * c + d, 5))
  {
    HexDigitsRead(a);
    HexDigitsRead(b);
    HexDigitsRead(c);
    HexDigitsRead(d);
  }

  lemma ReadHex(u: Unit, rest: Text)
    ensures ReadEscape(HexEscape(u)[1..] + rest) == Some((u, 5))
  {
    HexDigitsAddUp(u);
    ReadHexDigits(HexEscape(u)[1..] + rest, u / 0x1000, u / 0x100 % 16, u / 0x10 % 16, u % 16);
  }

  lemma ReadLiteral(s: Text)
    requires s != [] && s[0] != QUOTE && s[0] != BACKSLASH
    ensures ReadString(s) == Prepend(s[0], ReadString(s[1..]))
  {
  }

  lemma ReadEscapedUnit(s: Text, u: Unit, n: nat)
    requires s != [] && s[0] == BACKSLASH && ReadEscape(s[1..]) == Some((u, n))
    ensures ReadString(s) == Prepend(u, ReadString(s[1 + n..]))
  {
  }

  lemma ReadShort(u: Unit, rest: Text)
    requires Short(u).Some?
    ensures ReadEscape([Short(u).value] + rest) == Some((u, 1))
  {
  }

  lemma ReadPiece(u: Unit, rest: Text)
    ensures ReadString(Piece(u) + rest) == Prepend(u, ReadString(rest))
  {
    var piece := Piece(u);
    var s := piece + rest;
    assert s[|piece|..] == rest;
    assert s[1..] == piece[1..] + rest;
    if Short(u).Some? {
      assert piece[1..] == [Short(u).value];
      ReadShort(u, rest);
      ReadEscapedUnit(s, u, 1);
    } else if u < 0x20 || High(u) || Low(u) {
      ReadHex(u, rest);
      ReadEscapedUnit(s, u, 5);
    } else {
      ReadLiteral(s);
    }
  }

  lemma PrependRead(u: Unit, t: Text, s: Text, after: Text, rest: Text)
    requires t != [] && t[0] == u && ReadString(after) == Some((t[1..], rest))
    requires ReadString(s) == Prepend(u, ReadString(after))
    ensures ReadString(s) == Some((t, rest))
  {
    assert [u] + t[1..] == t;
  }

  predicate StartsPair(t: Text) {
    |t| > 1 && High(t[0]) && Low(t[1])
  }

  lemma EscapedSplits(t: Text, tail: Text)
    requires t != []
    ensures StartsPair(t) ==> Escaped(t) + tail == [t[0], t[1]] + (Escaped(t[2..]) + tail)
    ensures !StartsPair(t) ==> Escaped(t) + tail == Piece(t[0]) + (Escaped(t[1..]) + tail)
  {
    if StartsPair(t) {
      Regroup([t[0], t[1]], Escaped(t[2..]), tail);
    } else {
      Regroup(Piece(t[0]), Escaped(t[1..]), tail);
    }
  }

  lemma Regroup(a: Text, b: Text, c: Text)
    ensures (a + b) + c == a + (b + c)
  {
  }

  /** Reading back an escaped string, whatever follows its closing quote. */
  lemma {:induction false} ReadEscaped(t: Text, tail: Text, rest: Text)
    requires tail == [QUOTE] + rest
    ensures ReadString(Escaped(t) + tail) == Some((t, rest))
    decreases |t|
  {
    if t == [] {
      ReadClosing(tail, rest);
      assert Escaped(t) + tail == tail;
    } else {
      EscapedSplits(t, tail);
      if StartsPair(t) {
        ReadEscaped(t[2..], tail, rest);
        ReadPair(t, Escaped(t[2..]) + tail, rest);
      } else {
        ReadEscaped(t[1..], tail, rest);
        ReadSingle(t, Escaped(t[1..]) + tail, rest);
      }
    }
  }

  lemma ReadClosing(tail: Text, rest: Text)
    requires tail == [QUOTE] + rest
    ensures ReadString(tail) == Some(([], rest))
  {
    assert tail[1..] == rest;
  }

  lemma ReadSingle(t: Text, after: Text, rest: Text)
    requires t != [] && ReadString(after) == Some((t[1..], rest))
    ensures ReadString(Piece(t[0]) + after) == Some((t, rest))
  {
    ReadPiece(t[0], after);
    PrependRead(t[0], t, Piece(t[0]) + after, after, rest);
  }

  lemma ReadPair(t: Text, after: Text, rest: Text)
    requires |t| > 1 && High(t[0]) && Low(t[1]) && ReadString(after) == Some((t[2..], rest))
    ensures ReadString([t[0], t[1]] + after) == Some((t, rest))
  {
    var s := [t[0], t[1]] + after;
    ReadLiteral(s);
    ReadLiteral(s[1..]);
    assert s[1..][1..] == after;
    PrependRead(t[1], t[1..], s[1..], after, rest);
    PrependRead(t[0], t, s, s[1..], rest);
  }

  // ----- printing in member order, and the reader undoes it

  ghost predicate Printable(v: Json) {
    match v
    case Null => true
    case Bool(_) => true
    case Number(t) => NumberText(t)
    case Infinite(_) => false
    case Str(_) => true
    case Arr(items) => forall i :: 0 <= i < |items| ==> Printable(items[i])
    case Obj(ms) => forall i :: 0 <= i < |ms| ==> Printable(ms[i].value)
  }

  /** The same text with members in the order they stand. */
  function Printed(v: Json): Text {
    match v
    case Null => NULL_TEXT
    case Bool(b) => if b then TRUE_TEXT else FALSE_TEXT
    case Number(t) => t
    case Infinite(_) => NULL_TEXT
    case Str(t) => Quoted(t)
    case Arr(items) =>
      [OPEN_ARRAY] + Joined(seq(|items|, i requires 0 <= i < |items| => Printed(items[i]))) + [CLOSE_ARRAY]
    case Obj(ms) =>
      [OPEN_OBJECT]
      + Joined(seq(|ms|, i requires 0 <= i < |ms| => Quoted(ms[i].key) + [COLON] + Printed(ms[i].value)))
      + [CLOSE_OBJECT]
  }

  function ItemTexts(items: seq<Json>): seq<Text> {
    seq(|items|, i requires 0 <= i < |items| => Printed(items[i]))
  }

  function MemberText(m: Member): Text {
    Quoted(m.key) + [COLON] + Printed(m.value)
  }

  function MemberTexts(ms: seq<Member>): seq<Text> {
    seq(|ms|, i requires 0 <= i < |ms| => MemberText(ms[i]))
  }

  /** What follows cannot be mistaken for more of a number. */
  predicate Stops(rest: Text) {
    rest == [] || !NumberUnit(rest[0])
  }

  lemma {:induction false} RunOfNumber(t: Text, rest: Text)
    requires (forall i :: 0 <= i < |t| ==> NumberUnit(t[i])) && Stops(rest)
    ensures NumberRun(t + rest) == |t|
    decreases |t|
  {
    if t == [] {
      assert t + rest == rest;
    } else {
      RunOfNumber(t[1..], rest);
      assert (t + rest)[1..] == t[1..] + rest;
    }
  }

  lemma JoinedSplits(texts: seq<Text>, tail: Text)
    requires texts != []
    ensures |texts| == 1 ==> Joined(texts) + tail == texts[0] + tail
    ensures |texts| > 1 ==> Joined(texts) + tail == texts[0] + ([COMMA] + (Joined(texts[1..]) + tail))
  {
    if |texts| > 1 {
      var more := Joined(texts[1..]);
      assert CommaFirst(texts[1..]) == [COMMA] + more;
      Regroup(texts[0], [COMMA] + more, tail);
      Regroup([COMMA], more, tail);
    }
  }

  lemma ReadStringValue(t: Text, rest: Text)
    ensures Read(Quoted(t) + rest) == Some((Str(t), rest))
  {
    var s := Quoted(t) + rest;
    ReadEscaped(t, [QUOTE] + rest, rest);
    assert s[1..] == Escaped(t) + ([QUOTE] + rest);
  }

  lemma ReadNumber(t: Text, rest: Text)
    requires NumberText(t) && Stops(rest)
    ensures Read(t + rest) == Some((Number(t), rest))
  {
    var s := t + rest;
    RunOfNumber(t, rest);
    assert s[0] == t[0];
    assert s[..|t|] == t && s[|t|..] == rest;
  }

  lemma ReadWord(v: Json, rest: Text)
    requires v.Null? || v.Bool?
    ensures Read(Printed(v) + rest) == Some((v, rest))
  {
    var word := Printed(v);
    var s := word + rest;
    assert s[|word|..] == rest;
  }

  lemma ReadArray(s: Text, items: seq<Json>, rest: Text)
    requires |s| > 1 && s[0] == OPEN_ARRAY && s[1] != CLOSE_ARRAY && ReadItems(s[1..]) == Some((items, rest))
    ensures Read(s) == Some((Arr(items), rest))
  {
  }

  lemma ReadObject(s: Text, members: seq<Member>, rest: Text)
    requires |s| > 1 && s[0] == OPEN_OBJECT && s[1] != CLOSE_OBJECT && ReadMembers(s[1..]) == Some((members, rest))
    ensures Read(s) == Some((Obj(members), rest))
  {
  }

  lemma ReadEmpty(rest: Text)
    ensures Read([OPEN_ARRAY] + ([CLOSE_ARRAY] + rest)) == Some((Arr([]), rest))
    ensures Read([OPEN_OBJECT] + ([CLOSE_OBJECT] + rest)) == Some((Obj([]), rest))
  {
    assert ([OPEN_ARRAY] + ([CLOSE_ARRAY] + rest))[2..] == rest;
    assert ([OPEN_OBJECT] + ([CLOSE_OBJECT] + rest))[2..] == rest;
  }

  /** Reading the text of a value gives the value, whatever follows. */
  lemma {:induction false} ReadPrinted(v: Json, rest: Text)
    requires Printable(v) && Stops(rest)
    ensures Read(Printed(v) + rest) == Some((v, rest))
    decreases v
  {
    match v
    case Null => ReadWord(v, rest);
    case Bool(_) => ReadWord(v, rest);
    case Number(t) => ReadNumber(t, rest);
    case Str(t) => ReadStringValue(t, rest);
    case Arr(items) =>
      if items != [] {
        ReadItemsFrom(v, 0, [CLOSE_ARRAY] + rest, rest);
        assert items[0..] == items;
      }
      ReadArrayText(v, rest);
    case Obj(ms) =>
      if ms != [] {
        ReadMembersFrom(v, 0, [CLOSE_OBJECT] + rest, rest);
        assert ms[0..] == ms;
      }
      ReadObjectText(v, rest);
  }

  lemma ReadArrayText(v: Json, rest: Text)
    requires v.Arr? && Printable(v)
    requires v.items != [] ==> ReadItems(Joined(ItemTexts(v.items)) + ([CLOSE_ARRAY] + rest)) == Some((v.items, rest))
    ensures Read(Printed(v) + rest) == Some((v, rest))
  {
    var inner, tail := Joined(ItemTexts(v.items)), [CLOSE_ARRAY] + rest;
    assert Printed(v) + rest == [OPEN_ARRAY] + (inner + tail);
    if v.items == [] {
      ReadEmpty(rest);
      assert inner + tail == tail;
    } else {
      ItemStart(v.items);
      ReadArray([OPEN_ARRAY] + (inner + tail), v.items, rest);
    }
  }

  lemma ReadObjectText(v: Json, rest: Text)
    requires v.Obj?
    requires v.members != [] ==>
               ReadMembers(Joined(MemberTexts(v.members)) + ([CLOSE_OBJECT] + rest)) == Some((v.members, rest))
    ensures Read(Printed(v) + rest) == Some((v, rest))
  {
    var inner, tail := Joined(MemberTexts(v.members)), [CLOSE_OBJECT] + rest;
    assert MemberTexts(v.members) == seq(|v.members|, i requires 0 <= i < |v.members| =>
                                         Quoted(v.members[i].key) + [COLON] + Printed(v.members[i].value));
    assert Printed(v) + rest == [OPEN_OBJECT] + (inner + tail);
    if v.members == [] {
      ReadEmpty(rest);
      assert inner + tail == tail;
    } else {
      MemberStart(v.members);
      ReadObject([OPEN_OBJECT] + (inner + tail), v.members, rest);
    }
  }

  lemma JoinedStarts(texts: seq<Text>)
    requires texts != [] && texts[0] != []
    ensures Joined(texts) != [] && Joined(texts)[0] == texts[0][0]
  {
  }

  /** No value starts with a closing bracket. */
  lemma ItemStart(items: seq<Json>)
    requires items != [] && Printable(items[0])
    ensures Joined(ItemTexts(items)) != [] && Joined(ItemTexts(items))[0] != CLOSE_ARRAY
  {
    var text := Printed(items[0]);
    assert ItemTexts(items)[0] == text;
    assert text != [] && text[0] != CLOSE_ARRAY;
    JoinedStarts(ItemTexts(items));
  }

  lemma MemberStart(ms: seq<Member>)
    requires ms != []
    ensures Joined(MemberTexts(ms)) != [] && Joined(MemberTexts(ms))[0] != CLOSE_OBJECT
  {
    var text := MemberText(ms[0]);
    assert MemberTexts(ms)[0] == text;
    assert text[0] == QUOTE;
    JoinedStarts(MemberTexts(ms));
  }

  lemma LastItem(s: Text, v: Json, after: Text, rest: Text)
    requires Read(s) == Some((v, after)) && after == [CLOSE_ARRAY] + rest
    ensures ReadItems(s) == Some(([v], rest))
  {
    assert after[1..] == rest;
  }

  lemma NextItem(s: Text, v: Json, after: Text, more: Text, items: seq<Json>, rest: Text)
    requires Read(s) == Some((v, after)) && after == [COMMA] + more && ReadItems(more) == Some((items, rest))
    ensures ReadItems(s) == Some(([v] + items, rest))
  {
    assert after[1..] == more;
  }

  lemma ItemsText(items: seq<Json>, tail: Text)
    requires items != []
    ensures |items| == 1 ==> Joined(ItemTexts(items)) + tail == Printed(items[0]) + tail
    ensures |items| > 1 ==>
              Joined(ItemTexts(items)) + tail == Printed(items[0]) + ([COMMA] + (Joined(ItemTexts(items[1..])) + tail))
  {
    var texts := ItemTexts(items);
    JoinedSplits(texts, tail);
    assert texts[1..] == ItemTexts(items[1..]);
  }

  lemma LastItemText(items: seq<Json>, tail: Text, rest: Text)
    requires |items| == 1 && tail == [CLOSE_ARRAY] + rest
    requires Read(Printed(items[0]) + tail) == Some((items[0], tail))
    ensures ReadItems(Joined(ItemTexts(items)) + tail) == Some((items, rest))
  {
    ItemsText(items, tail);
    LastItem(Printed(items[0]) + tail, items[0], tail, rest);
    assert items == [items[0]];
  }

  lemma NextItemText(items: seq<Json>, tail: Text, more: Text, rest: Text)
    requires |items| > 1 && more == Joined(ItemTexts(items[1..])) + tail
    requires Read(Printed(items[0]) + ([COMMA] + more)) == Some((items[0], [COMMA] + more))
    requires ReadItems(more) == Some((items[1..], rest))
    ensures ReadItems(Joined(ItemTexts(items)) + tail) == Some((items, rest))
  {
    var s := Printed(items[0]) + ([COMMA] + more);
    assert Joined(ItemTexts(items)) + tail == s by {
      ItemsText(items, tail);
    }
    assert items == [items[0]] + items[1..];
    NextItem(s, items[0], [COMMA] + more, more, items[1..], rest);
  }

  lemma {:induction false} ReadItemsFrom(v: Json, k: nat, tail: Text, rest: Text)
    requires v.Arr? && Printable(v) && k < |v.items| && tail == [CLOSE_ARRAY] + rest
    ensures ReadItems(Joined(ItemTexts(v.items[k..])) + tail) == Some((v.items[k..], rest))
    decreases v, |v.items| - k
  {
    var items := v.items[k..];
    if |items| == 1 {
      ReadPrinted(v.items[k], tail);
      LastItemText(items, tail, rest);
    } else {
      assert items[1..] == v.items[k + 1..];
      var more := Joined(ItemTexts(v.items[k + 1..])) + tail;
      ReadPrinted(v.items[k], [COMMA] + more);
      ReadItemsFrom(v, k + 1, tail, rest);
      NextItemText(items, tail, more, rest);
    }
  }

  lemma MemberIsRead(s: Text, m: Member, after: Text, rest: Text)
    requires s != [] && s[0] == QUOTE && ReadString(s[1..]) == Some((m.key, [COLON] + after))
    requires Read(after) == Some((m.value, rest))
    ensures ReadMember(s) == Some((m, rest))
  {
    assert ([COLON] + after)[1..] == after;
  }

  lemma MemberTextSplits(m: Member, rest: Text)
    ensures MemberText(m) + rest == [QUOTE] + (Escaped(m.key) + ([QUOTE] + ([COLON] + (Printed(m.value) + rest))))
  {
    var key, value := Escaped(m.key), Printed(m.value);
    Regroup([QUOTE] + key, [QUOTE], [COLON]);
    Regroup([QUOTE] + key + [QUOTE], [COLON], value);
    Regroup([QUOTE] + key + [QUOTE], [COLON] + value, rest);
    Regroup([QUOTE] + key, [QUOTE], [COLON] + value + rest);
    Regroup([QUOTE], key, [QUOTE] + ([COLON] + value + rest));
    Regroup([COLON], value, rest);
  }

  lemma ReadMemberPieces(m: Member, after: Text, rest: Text)
    requires Read(after) == Some((m.value, rest))
    requires ReadString(Escaped(m.key) + ([QUOTE] + ([COLON] + after))) == Some((m.key, [COLON] + after))
    ensures ReadMember([QUOTE] + (Escaped(m.key) + ([QUOTE] + ([COLON] + after)))) == Some((m, rest))
  {
    var inner := Escaped(m.key) + ([QUOTE] + ([COLON] + after));
    assert ([QUOTE] + inner)[1..] == inner;
    MemberIsRead([QUOTE] + inner, m, after, rest);
  }

  lemma {:induction false} ReadMemberText(v: Json, k: nat, rest: Text)
    requires v.Obj? && Printable(v) && k < |v.members| && Stops(rest)
    ensures ReadMember(MemberText(v.members[k]) + rest) == Some((v.members[k], rest))
    decreases v, 0
  {
    var m := v.members[k];
    var after := Printed(m.value) + rest;
    MemberTextSplits(m, rest);
    ReadEscaped(m.key, [QUOTE] + ([COLON] + after), [COLON] + after);
    ReadPrinted(m.value, rest);
    ReadMemberPieces(m, after, rest);
  }

  lemma LastMember(s: Text, m: Member, after: Text, rest: Text)
    requires ReadMember(s) == Some((m, after)) && after == [CLOSE_OBJECT] + rest
    ensures ReadMembers(s) == Some(([m], rest))
  {
    assert after[1..] == rest;
  }

  lemma NextMember(s: Text, m: Member, after: Text, more: Text, members: seq<Member>, rest: Text)
    requires ReadMember(s) == Some((m, after)) && after == [COMMA] + more && ReadMembers(more) == Some((members, rest))
    ensures ReadMembers(s) == Some(([m] + members, rest))
  {
    assert after[1..] == more;
  }

  lemma MembersText(ms: seq<Member>, tail: Text)
    requires ms != []
    ensures |ms| == 1 ==> Joined(MemberTexts(ms)) + tail == MemberText(ms[0]) + tail
    ensures |ms| > 1 ==>
              Joined(MemberTexts(ms)) + tail == MemberText(ms[0]) + ([COMMA] + (Joined(MemberTexts(ms[1..])) + tail))
  {
    var texts := MemberTexts(ms);
    JoinedSplits(texts, tail);
    assert texts[0] == MemberText(ms[0]);
    assert texts[1..] == MemberTexts(ms[1..]);
  }

  lemma LastMemberText(ms: seq<Member>, tail: Text, rest: Text)
    requires |ms| == 1 && tail == [CLOSE_OBJECT] + rest
    requires ReadMember(MemberText(ms[0]) + tail) == Some((ms[0], tail))
    ensures ReadMembers(Joined(MemberTexts(ms)) + tail) == Some((ms, rest))
  {
    MembersText(ms, tail);
    LastMember(MemberText(ms[0]) + tail, ms[0], tail, rest);
    assert ms == [ms[0]];
  }

  lemma NextMemberText(ms: seq<Member>, tail: Text, more: Text, rest: Text)
    requires |ms| > 1 && more == Joined(MemberTexts(ms[1..])) + tail
    requires ReadMember(MemberText(ms[0]) + ([COMMA] + more)) == Some((ms[0], [COMMA] + more))
    requires ReadMembers(more) == Some((ms[1..], rest))
    ensures ReadMembers(Joined(MemberTexts(ms)) + tail) == Some((ms, rest))
  {
    var s := MemberText(ms[0]) + ([COMMA] + more);
    MembersText(ms, tail);
    NextMember(s, ms[0], [COMMA] + more, more, ms[1..], rest);
    FirstAndRest(ms);
  }

  lemma FirstAndRest(ms: seq<Member>)
    requires ms != []
    ensures [ms[0]] + ms[1..] == ms
  {
  }

  lemma {:induction false} ReadMembersFrom(v: Json, k: nat, tail: Text, rest: Text)
    requires v.Obj? && Printable(v) && k < |v.members| && tail == [CLOSE_OBJECT] + rest
    ensures ReadMembers(Joined(MemberTexts(v.members[k..])) + tail) == Some((v.members[k..], rest))
    decreases v, |v.members| - k
  {
    var members := v.members[k..];
    if |members| == 1 {
      ReadMemberText(v, k, tail);
      LastMemberText(members, tail, rest);
    } else {
      assert members[1..] == v.members[k + 1..];
      var more := Joined(MemberTexts(v.members[k + 1..])) + tail;
      ReadMemberText(v, k, [COMMA] + more);
      ReadMembersFrom(v, k + 1, tail, rest);
      NextMemberText(members, tail, more, rest);
    }
  }

  // ----- the same value up to key order

  /** An atom as compared: exactly, or as it prints, where a number too large to hold is `null`. */
  function Atom(v: Json, printed: bool): Json {
    if printed && v.Infinite? then Null else v
  }

  /** Equal arrays item by item; objects with the same keys and the same value at each, in any order. */
  ghost predicate Same(a: Json, b: Json, printed: bool)
    decreases a
  {
    if a.Arr? then
      && b.Arr? && |a.items| == |b.items|
      && forall i :: 0 <= i < |a.items| ==> Same(a.items[i], b.items[i], printed)
    else if a.Obj? then
      && b.Obj? && SameKeys(a.members, b.members)
      && forall i :: 0 <= i < |a.members| ==>
           HasKey(b.members, a.members[i].key)
           && Same(a.members[i].value, Lookup(b.members, a.members[i].key), printed)
    else
      !b.Arr? && !b.Obj? && Atom(a, printed) == Atom(b, printed)
  }

  ghost predicate SameKeys(a: seq<Member>, b: seq<Member>) {
    forall k :: HasKey(a, k) <==> HasKey(b, k)
  }

  /** No number is too large to hold. */
  ghost predicate Finite(v: Json) {
    match v
    case Infinite(_) => false
    case Arr(items) => forall i :: 0 <= i < |items| ==> Finite(items[i])
    case Obj(ms) => forall i :: 0 <= i < |ms| ==> Finite(ms[i].value)
    case _ => true
  }

  /** The value with members in key order at every level, as it prints. */
  function Normal(v: Json): Json
    requires Valid(v)
  {
    match v
    case Arr(items) => Arr(seq(|items|, i requires 0 <= i < |items| => Normal(items[i])))
    case Obj(ms) =>
      SortedKeysSorts(ms);
      var keys := SortedKeys(ms);
      Obj(seq(|keys|, i requires 0 <= i < |keys| => assert keys[i] in keys; Member(keys[i], Normal(Lookup(ms, keys[i])))))
    case _ => Atom(v, true)
  }

  lemma NormalMembers(ms: seq<Member>)
    requires Valid(Obj(ms))
    ensures var keys := SortedKeys(ms); var n := Normal(Obj(ms));
            && n.Obj? && |n.members| == |keys|
            && forall i :: 0 <= i < |keys| ==> HasKey(ms, keys[i]) && Valid(Lookup(ms, keys[i]))
                                               && n.members[i] == Member(keys[i], Normal(Lookup(ms, keys[i])))
  {
    SortedKeysSorts(ms);
    var keys := SortedKeys(ms);
    forall i | 0 <= i < |keys| ensures HasKey(ms, keys[i]) {
      assert keys[i] in keys;
    }
  }

  lemma {:induction false} NormalIsPrintable(v: Json)
    requires Valid(v)
    ensures Printable(Normal(v))
    decreases v
  {
    match v
    case Arr(items) =>
      forall i | 0 <= i < |items| ensures Printable(Normal(items[i])) {
        NormalIsPrintable(items[i]);
      }
    case Obj(ms) =>
      NormalMembers(ms);
      var keys := SortedKeys(ms);
      forall i | 0 <= i < |keys| ensures Printable(Normal(Lookup(ms, keys[i]))) {
        NormalIsPrintable(Lookup(ms, keys[i]));
      }
    case _ =>
  }

  /** The canonical text is the plain text of the key-ordered value. */
  lemma {:induction false} CanonicalIsPrinted(v: Json)
    requires Valid(v)
    ensures Canonical(v) == Printed(Normal(v))
    decreases v
  {
    match v
    case Arr(items) =>
      var n := Normal(v);
      forall i | 0 <= i < |items| ensures Canonical(items[i]) == Printed(n.items[i]) {
        CanonicalIsPrinted(items[i]);
      }
      assert seq(|items|, i requires 0 <= i < |items| => Canonical(items[i]))
          == seq(|n.items|, i requires 0 <= i < |n.items| => Printed(n.items[i]));
    case Obj(ms) =>
      NormalMembers(ms);
      var keys, n := SortedKeys(ms), Normal(v);
      forall i | 0 <= i < |keys| ensures Canonical(Lookup(ms, keys[i])) == Printed(n.members[i].value) {
        CanonicalIsPrinted(Lookup(ms, keys[i]));
      }
      assert seq(|keys|, i requires 0 <= i < |keys| => Quoted(keys[i]) + [COLON] + Canonical(Lookup(ms, keys[i])))
          == seq(|n.members|, i requires 0 <= i < |n.members| => Quoted(n.members[i].key) + [COLON] + Printed(n.members[i].value));
    case _ =>
  }

  /** Reading the canonical text gives the key-ordered value back. */
  lemma ReadCanonical(v: Json)
    requires Valid(v)
    ensures Read(Canonical(v)) == Some((Normal(v), []))
  {
    CanonicalIsPrinted(v);
    NormalIsPrintable(v);
    ReadPrinted(Normal(v), []);
    assert Printed(Normal(v)) + [] == Printed(Normal(v));
  }

  lemma SameKeysSameOrder(a: seq<Member>, b: seq<Member>)
    requires DistinctKeys(a) && DistinctKeys(b)
    ensures SortedKeys(a) == SortedKeys(b) <==> SameKeys(a, b)
  {
    SortedKeysSorts(a);
    SortedKeysSorts(b);
    if SameKeys(a, b) {
      AscendingIsUnique(SortedKeys(a), SortedKeys(b));
    }
  }

  lemma SortedKeyAt(ms: seq<Member>, i: nat) returns (k: nat)
    requires DistinctKeys(ms) && i < |ms|
    ensures k < |SortedKeys(ms)| && SortedKeys(ms)[k] == ms[i].key
    ensures HasKey(ms, ms[i].key) && Lookup(ms, ms[i].key) == ms[i].value
  {
    SortedKeysSorts(ms);
    LookupAt(ms, i);
    k :| 0 <= k < |SortedKeys(ms)| && SortedKeys(ms)[k] == ms[i].key;
  }

  /** Key-ordered values are equal exactly when the values are the same up to key order, as printed. */
  lemma {:induction false} NormalSame(a: Json, b: Json)
    requires Valid(a) && Valid(b)
    ensures Normal(a) == Normal(b) <==> Same(a, b, true)
    decreases a
  {
    if a.Arr? && b.Arr? && |a.items| == |b.items| {
      forall i | 0 <= i < |a.items| ensures Normal(a.items[i]) == Normal(b.items[i]) <==> Same(a.items[i], b.items[i], true) {
        NormalSame(a.items[i], b.items[i]);
      }
      NormalItems(a, b);
    } else if a.Obj? && b.Obj? {
      SameKeysSameOrder(a.members, b.members);
      NormalMembers(a.members);
      NormalMembers(b.members);
      if SameKeys(a.members, b.members) {
        forall i | 0 <= i < |a.members|
          ensures HasKey(b.members, a.members[i].key)
          ensures Normal(a.members[i].value) == Normal(Lookup(b.members, a.members[i].key))
                  <==> Same(a.members[i].value, Lookup(b.members, a.members[i].key), true)
        {
          LookupAt(a.members, i);
          NormalSame(a.members[i].value, Lookup(b.members, a.members[i].key));
        }
        NormalObjects(a, b);
      } else {
        assert !Same(a, b, true);
        DifferentOrders(a.members, b.members);
      }
    } else if a.Arr? && b.Arr? {
      assert |Normal(a).items| != |Normal(b).items|;
    } else {
      assert (Normal(a).Arr? <==> a.Arr?) && (Normal(a).Obj? <==> a.Obj?);
      assert (Normal(b).Arr? <==> b.Arr?) && (Normal(b).Obj? <==> b.Obj?);
    }
  }

  lemma NormalItems(a: Json, b: Json)
    requires a.Arr? && b.Arr? && Valid(a) && Valid(b) && |a.items| == |b.items|
    ensures Normal(a) == Normal(b) <==> forall i :: 0 <= i < |a.items| ==> Normal(a.items[i]) == Normal(b.items[i])
  {
    var m, n := Normal(a).items, Normal(b).items;
    assert |m| == |n| == |a.items|;
    if forall i :: 0 <= i < |a.items| ==> Normal(a.items[i]) == Normal(b.items[i]) {
      assert m == n;
    } else {
      var i :| 0 <= i < |a.items| && Normal(a.items[i]) != Normal(b.items[i]);
      assert m[i] != n[i];
    }
  }

  lemma DifferentOrders(a: seq<Member>, b: seq<Member>)
    requires Valid(Obj(a)) && Valid(Obj(b)) && SortedKeys(a) != SortedKeys(b)
    ensures Normal(Obj(a)) != Normal(Obj(b))
  {
    NormalMembers(a);
    NormalMembers(b);
    var j :| |SortedKeys(a)| == |SortedKeys(b)| ==> 0 <= j < |SortedKeys(a)| && SortedKeys(a)[j] != SortedKeys(b)[j];
    assert |SortedKeys(a)| == |SortedKeys(b)| ==> Normal(Obj(a)).members[j] != Normal(Obj(b)).members[j];
  }

  lemma NormalObjects(a: Json, b: Json)
    requires a.Obj? && b.Obj? && Valid(a) && Valid(b) && SameKeys(a.members, b.members)
    requires SortedKeys(a.members) == SortedKeys(b.members)
    ensures Normal(a) == Normal(b) <==> SameNormals(a.members, b.members)
  {
    if Normal(a) == Normal(b) {
      NormalsFromMembers(a, b);
    }
    if SameNormals(a.members, b.members) {
      MembersFromNormals(a, b);
    }
  }

  ghost predicate SameNormals(a: seq<Member>, b: seq<Member>)
    requires Valid(Obj(a)) && Valid(Obj(b))
  {
    forall i :: 0 <= i < |a| ==> HasKey(b, a[i].key) && Normal(a[i].value) == Normal(Lookup(b, a[i].key))
  }

  lemma NormalsFromMembers(a: Json, b: Json)
    requires a.Obj? && b.Obj? && Valid(a) && Valid(b) && SameKeys(a.members, b.members)
    requires SortedKeys(a.members) == SortedKeys(b.members) && Normal(a) == Normal(b)
    ensures SameNormals(a.members, b.members)
  {
    NormalMembers(a.members);
    NormalMembers(b.members);
    forall i | 0 <= i < |a.members|
      ensures HasKey(b.members, a.members[i].key)
              && Normal(a.members[i].value) == Normal(Lookup(b.members, a.members[i].key))
    {
      var k := SortedKeyAt(a.members, i);
      assert Normal(a).members[k] == Normal(b).members[k];
    }
  }

  lemma MembersFromNormals(a: Json, b: Json)
    requires a.Obj? && b.Obj? && Valid(a) && Valid(b)
    requires SortedKeys(a.members) == SortedKeys(b.members) && SameNormals(a.members, b.members)
    ensures Normal(a) == Normal(b)
  {
    NormalMembers(a.members);
    NormalMembers(b.members);
    var keys := SortedKeys(a.members);
    forall k | 0 <= k < |keys| ensures Normal(a).members[k] == Normal(b).members[k] {
      var i :| 0 <= i < |a.members| && a.members[i].key == keys[k] && a.members[i].value == Lookup(a.members, keys[k]);
    }
    assert Normal(a).members == Normal(b).members;
  }

  /** Canonical texts are equal exactly when the values are the same up to key order, numbers as printed. */
  lemma CanonicalExact(a: Json, b: Json)
    requires Valid(a) && Valid(b)
    ensures Canonical(a) == Canonical(b) <==> Same(a, b, true)
  {
    ReadCanonical(a);
    ReadCanonical(b);
    CanonicalIsPrinted(a);
    CanonicalIsPrinted(b);
    NormalSame(a, b);
  }

  lemma {:induction false} FiniteIsExact(a: Json, b: Json)
    requires Finite(a) && Finite(b) && Valid(b)
    ensures Same(a, b, true) <==> Same(a, b, false)
    decreases a
  {
    if a.Arr? && b.Arr? && |a.items| == |b.items| {
      forall i | 0 <= i < |a.items| ensures Same(a.items[i], b.items[i], true) <==> Same(a.items[i], b.items[i], false) {
        FiniteIsExact(a.items[i], b.items[i]);
      }
    } else if a.Obj? && b.Obj? {
      forall i | 0 <= i < |a.members| && HasKey(b.members, a.members[i].key)
        ensures Same(a.members[i].value, Lookup(b.members, a.members[i].key), true)
                <==> Same(a.members[i].value, Lookup(b.members, a.members[i].key), false)
      {
        FiniteIsExact(a.members[i].value, Lookup(b.members, a.members[i].key));
      }
    }
  }

  /** Without numbers too large to hold, equal canonical texts mean the same value exactly. */
  lemma CanonicalExactWhenFinite(a: Json, b: Json)
    requires Valid(a) && Valid(b) && Finite(a) && Finite(b)
    ensures Canonical(a) == Canonical(b) <==> Same(a, b, false)
  {
    CanonicalExact(a, b);
    FiniteIsExact(a, b);
  }

  /** A number too large to hold is confused with `null`, also inside a record. */
  lemma OverflowIsNull(key: Text)
    ensures var a, b := Obj([Member(key, Infinite(false))]), Obj([Member(key, Null)]);
            Valid(a) && Valid(b) && Canonical(a) == Canonical(b) && !Same(a, b, false)
  {
    var a, b := Obj([Member(key, Infinite(false))]), Obj([Member(key, Null)]);
    assert a.members[0].key == key && b.members[0].key == key;
    LookupAt(a.members, 0);
    LookupAt(b.members, 0);
    forall k ensures HasKey(a.members, k) <==> HasKey(b.members, k) {
      assert HasKey(a.members, k) <==> k == key;
      assert HasKey(b.members, k) <==> k == key;
    }
    assert Same(a, b, true);
    CanonicalExact(a, b);
  }
}
