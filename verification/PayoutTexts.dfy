/**
 The cells of payout and result rows, told by how they are written: an amount is a number written
 plainly or with thousands separated, a combination is its cars joined by hyphens or the date a
 spreadsheet makes of it, and a result row awards a rank, or none for a recorded non-finish.
 */
module PayoutTexts {
  import opened CredentialIdentity
  import opened FinishOrders
  import opened HistoricalPayouts
  import opened OfficialDetail
  import opened OfficialPayouts

  function DigitChar(d: nat): char
    requires d <= 9
  {
    ('0' as int + d) as char
  }

  /** A number in plain decimal digits. */
  function Decimal(n: nat): string {
    if n < 10 then [DigitChar(n)] else Decimal(n / 10) + [DigitChar(n % 10)]
  }

  function LastThree(n: nat): string {
    [DigitChar(n / 100 % 10), DigitChar(n / 10 % 10), DigitChar(n % 10)]
  }

  /** A number with a comma before every three digits. */
  function WithCommas(n: nat): string {
    if n < 1000 then Decimal(n) else WithCommas(n / 1000) + [','] + LastThree(n)
  }

  // ----- amounts

  function Value(s: string): nat {
    DigitsValue(WithoutCommas(s))
  }

  /** A positive number's digits and, after them, groups of a comma and three digits. */
  predicate Amount(head: string, groups: string) {
    head != "" && OneToNine(head[0]) && AllDigits(head) && (groups == "" || (|head| <= 3 && CommaGroups(groups)))
  }

  lemma {:induction false} WithoutCommasJoins(a: string, b: string)
    ensures WithoutCommas(a + b) == WithoutCommas(a) + WithoutCommas(b)
    decreases |a|
  {
    if a == "" {
      assert a + b == b;
    } else {
      WithoutCommasJoins(a[1..], b);
      assert (a + b)[1..] == a[1..] + b;
    }
  }

  lemma {:induction false} DigitsStay(s: string)
    requires AllDigits(s)
    ensures WithoutCommas(s) == s
    decreases |s|
  {
    if s != "" {
      DigitsStay(s[1..]);
    }
  }

  lemma OneDigitMore(s: string, c: char)
    requires Digit(c)
    ensures DigitsValue(s + [c]) == 10 * DigitsValue(s) + DigitValue(c)
  {
    assert (s + [c])[..|s|] == s;
  }

  ghost predicate Triple(group: string) {
    |group| == 4 && group[0] == ',' && Digit(group[1]) && Digit(group[2]) && Digit(group[3])
  }

  function TripleValue(group: string): nat
    requires Triple(group)
  {
    100 * DigitValue(group[1]) + 10 * DigitValue(group[2]) + DigitValue(group[3])
  }

  lemma ValueOfGroup(s: string, group: string)
    requires Triple(group)
    ensures Value(s + group) == 1000 * Value(s) + TripleValue(group)
  {
    WithoutCommasJoins(s, group);
    DigitsStay(group[1..]);
    var t := WithoutCommas(s);
    assert group[1..] == [group[1], group[2], group[3]];
    OneDigitMore(t, group[1]);
    OneDigitMore(t + [group[1]], group[2]);
    OneDigitMore(t + [group[1]] + [group[2]], group[3]);
    assert WithoutCommas(group) == group[1..];
    assert t + group[1..] == t + [group[1]] + [group[2]] + [group[3]];
  }

  lemma {:induction false} DecimalReads(n: nat)
    ensures AllDigits(Decimal(n)) && DigitsValue(Decimal(n)) == n
    ensures n >= 1 ==> OneToNine(Decimal(n)[0])
    decreases n
  {
    if n >= 10 {
      DecimalReads(n / 10);
      assert Decimal(n)[..|Decimal(n)| - 1] == Decimal(n / 10);
    } else {
      assert DigitsValue([DigitChar(n)]) == 10 * DigitsValue("") + n;
    }
  }

  lemma {:induction false} DigitsAreDecimal(s: string)
    requires s != "" && AllDigits(s) && OneToNine(s[0])
    ensures DigitsValue(s) >= 1 && s == Decimal(DigitsValue(s))
    decreases |s|
  {
    var n := |s| - 1;
    if n > 0 {
      DigitsAreDecimal(s[..n]);
      assert s == s[..n] + [s[n]];
    } else {
      assert DigitsValue(s[..0]) == 0;
    }
  }

  lemma {:induction false} GroupsFromTheRight(s: string)
    requires CommaGroups(s)
    ensures var k := |s| - 4;
            k >= 0 && Triple(s[k..]) && (s[..k] == "" || CommaGroups(s[..k]))
    decreases |s|
  {
    var k := |s| - 4;
    if k > 0 {
      GroupsFromTheRight(s[4..]);
      assert |s[4..]| >= 4;
      assert s[4..][k - 4..] == s[k..];
      assert s[..k][1..4] == s[1..4] && s[..k][4..] == s[4..][..k - 4];
    } else {
      assert s[0..] == s && s[1..4][0] == s[1] && s[1..4][1] == s[2] && s[1..4][2] == s[3];
    }
  }

  lemma {:induction false} OneGroupMore(s: string, group: string)
    requires s == "" || CommaGroups(s)
    requires Triple(group)
    ensures CommaGroups(s + group)
    decreases |s|
  {
    if s == "" {
      assert s + group == group && group[1..4] == [group[1], group[2], group[3]];
    } else {
      OneGroupMore(s[4..], group);
      assert (s + group)[1..4] == s[1..4] && (s + group)[4..] == s[4..] + group;
    }
  }

  lemma {:induction false} AmountIsWritten(head: string, groups: string)
    requires Amount(head, groups)
    ensures Value(head + groups) >= 1 && (groups != "" ==> Value(head + groups) >= 1000)
    ensures head + groups == if groups == "" then Decimal(Value(head)) else WithCommas(Value(head + groups))
    decreases |groups|
  {
    DigitsStay(head);
    DigitsAreDecimal(head);
    if groups == "" {
      assert head + groups == head;
    } else {
      GroupsFromTheRight(groups);
      var k := |groups| - 4;
      AmountIsWritten(head, groups[..k]);
      if k == 0 {
        ShortAmount(head);
        assert head + groups[..k] == head;
      }
      LastGroup(head + groups[..k], groups[k..]);
      assert head + groups == head + groups[..k] + groups[k..];
    }
  }

  lemma LastGroup(before: string, group: string)
    requires Triple(group) && Value(before) >= 1 && before == WithCommas(Value(before))
    ensures Value(before + group) >= 1000 && before + group == WithCommas(Value(before + group))
  {
    ValueOfGroup(before, group);
    GroupWritten(Value(before), group);
  }

  lemma ShortAmount(head: string)
    requires 1 <= |head| <= 3 && AllDigits(head)
    ensures DigitsValue(head) < 1000
  {
    assert DigitsValue(head[..0]) == 0;
    if |head| == 3 {
      assert head[..2][..1] == head[..1];
    }
  }

  lemma GroupWritten(n: nat, group: string)
    requires n >= 1 && Triple(group)
    ensures WithCommas(1000 * n + TripleValue(group)) == WithCommas(n) + group
  {
    var m := 1000 * n + TripleValue(group);
    DigitsOfThree(n, DigitValue(group[1]), DigitValue(group[2]), DigitValue(group[3]));
    assert group == [','] + LastThree(m);
  }

  lemma DigitsOfThree(n: nat, x: nat, y: nat, z: nat)
    requires x <= 9 && y <= 9 && z <= 9
    ensures var m := 1000 * n + (100 * x + 10 * y + z);
            m / 1000 == n && m / 100 % 10 == x && m / 10 % 10 == y && m % 10 == z
  {
    var m := 1000 * n + (100 * x + 10 * y + z);
    assert m / 100 == 10 * n + x;
    assert m / 10 == 100 * n + 10 * x + y;
  }

  lemma ThreeDigits(n: nat)
    ensures Triple([','] + LastThree(n)) && TripleValue([','] + LastThree(n)) == n % 1000
  {
    var x, y, z := n / 100 % 10, n / 10 % 10, n % 10;
    assert n / 100 / 10 == n / 1000;
    assert n / 10 / 10 == n / 100;
    assert n == 10 * (n / 10) + z;
    assert n / 10 == 10 * (n / 100) + y;
    assert n / 100 == 10 * (n / 1000) + x;
  }

  lemma {:induction false} WrittenIsAmount(n: nat) returns (head: string, groups: string)
    requires n >= 1
    ensures WithCommas(n) == head + groups && Amount(head, groups) && Value(WithCommas(n)) == n && |head| <= 3
    decreases n
  {
    if n < 1000 {
      ShortDecimal(n);
      DigitsStay(Decimal(n));
      head, groups := Decimal(n), "";
      assert head + groups == head;
    } else {
      var before;
      head, before := WrittenIsAmount(n / 1000);
      var group := [','] + LastThree(n);
      ThreeDigits(n);
      OneGroupMore(before, group);
      groups := before + group;
      assert WithCommas(n) == WithCommas(n / 1000) + group == head + groups;
      ValueOfGroup(WithCommas(n / 1000), group);
    }
  }

  lemma ShortDecimal(n: nat)
    requires 1 <= n < 1000
    ensures |Decimal(n)| <= 3 && AllDigits(Decimal(n)) && OneToNine(Decimal(n)[0]) && DigitsValue(Decimal(n)) == n
  {
    DecimalReads(n);
    assert n >= 10 ==> |Decimal(n / 10)| <= 2 && n / 10 < 100;
  }

  lemma MoneyTakesAmounts(raw: string, head: string, groups: string)
    requires raw == head + groups && Amount(head, groups)
    ensures Money(raw) == Accepted(Value(raw))
  {
    if groups == "" {
      assert raw == head;
    } else {
      assert raw[..|head|] == head && raw[|head|..] == groups;
    }
  }

  lemma TakenIsAmount(raw: string) returns (head: string, groups: string)
    requires Money(raw).Accepted?
    ensures raw == head + groups && Amount(head, groups)
  {
    if AllDigits(raw) {
      head, groups := raw, "";
    } else {
      var k := if CommaGroups(raw[1..]) then 1 else if |raw| > 2 && AllDigits(raw[..2]) && CommaGroups(raw[2..]) then 2 else 3;
      head, groups := raw[..k], raw[k..];
    }
  }

  /** An amount is accepted, as that number, exactly when it is a positive number written plainly or with commas. */
  lemma MoneyExact(raw: string, n: nat)
    ensures Money(raw) == Accepted(n) <==> n >= 1 && (raw == Decimal(n) || raw == WithCommas(n))
  {
    if Money(raw) == Accepted(n) {
      var head, groups := TakenIsAmount(raw);
      MoneyTakesAmounts(raw, head, groups);
      AmountIsWritten(head, groups);
      if groups == "" {
        assert raw == head;
      }
    }
    if n >= 1 && raw == Decimal(n) {
      DecimalReads(n);
      DigitsStay(raw);
      MoneyTakesAmounts(raw, raw, "");
    }
    if n >= 1 && raw == WithCommas(n) {
      var head, groups := WrittenIsAmount(n);
      MoneyTakesAmounts(raw, head, groups);
    }
  }

  // ----- combinations

  /** The date a spreadsheet makes of a pair or a triple of cars. */
  function AsDate(cars: seq<nat>): string
    requires |cars| == 2 || |cars| == 3
    requires forall i :: 0 <= i < |cars| ==> 1 <= cars[i] <= 9
  {
    if |cars| == 2 then [DigitOf(cars[0]), '月', DigitOf(cars[1]), '日']
    else "200" + [DigitOf(cars[0]), '/', DigitOf(cars[1]), '/', DigitOf(cars[2])]
  }

  /** Different cars of the field, as many as the bet names. */
  predicate Bet(cars: seq<nat>, width: nat) {
    |cars| == width && (forall i :: 0 <= i < |cars| ==> 1 <= cars[i] <= 9)
    && forall i, j :: 0 <= i < j < |cars| ==> cars[i] != cars[j]
  }

  lemma BetDigits(digits: seq<char>, width: nat)
    requires |digits| == width && forall i :: 0 <= i < |digits| ==> OneToNine(digits[i])
    ensures forall i :: 0 <= i < |digits| ==> Digit(digits[i]) && 1 <= DigitValue(digits[i]) <= 9
    ensures Bet(Cars(digits), width) <==> |Elements(Cars(digits))| == width
    ensures forall i :: 0 <= i < |digits| ==> digits[i] == DigitOf(DigitValue(digits[i]))
  {
    var cars := Cars(digits);
    if Bet(cars, width) {
      DistinctCount(cars);
    }
    if |Elements(cars)| == width {
      RepetitionShows(cars);
    }
  }

  lemma ParsedIsBet(raw: string, width: nat)
    requires (width == 2 || width == 3) && ParseOrdered(raw, width).Accepted?
    ensures var r := ParseOrdered(raw, width).value;
            Bet(r.cars, width) && raw == if r.literal then Written(r.cars) else AsDate(r.cars)
  {
    var (digits, literal) := CarDigits(raw, width).value;
    var cars := Cars(digits);
    BetDigits(digits, width);
    WrittenDigits(cars);
    if !literal && width == 3 {
      assert raw == raw[..3] + [raw[3], raw[4], raw[5], raw[6], raw[7]];
    }
  }

  lemma BetIsParsed(cars: seq<nat>, width: nat)
    requires (width == 2 || width == 3) && Bet(cars, width)
    ensures ParseOrdered(Written(cars), width) == Accepted(Ordered(cars, true))
    ensures ParseOrdered(AsDate(cars), width) == Accepted(Ordered(cars, false))
  {
    ParseWritten(cars);
    DistinctCount(cars);
    var raw := AsDate(cars);
    assert width == 3 ==> raw[..3] == "200";
    var digits := CarDigits(raw, width).value.0;
    DigitsOfCars(cars, digits);
    assert Cars(digits) == cars;
  }

  /** A cell is read as these cars exactly when it is how they are written, or the date made of them. */
  lemma ParseOrderedExact(raw: string, width: nat, cars: seq<nat>, literal: bool)
    requires width == 2 || width == 3
    ensures ParseOrdered(raw, width) == Accepted(Ordered(cars, literal)) <==>
              Bet(cars, width) && raw == if literal then Written(cars) else AsDate(cars)
  {
    if ParseOrdered(raw, width).Accepted? {
      ParsedIsBet(raw, width);
    }
    if Bet(cars, width) {
      BetIsParsed(cars, width);
    }
  }

  /** A row of an official page is read as these cars and this amount exactly when both are shown as they are written. */
  lemma ReadableExact(row: DetailPayout, width: nat, roster: set<nat>, cars: seq<nat>, yen: nat)
    requires width == 2 || width == 3
    ensures Readable(row, width, roster) && Reading(row, width, roster) == Outcome(cars, yen) <==>
              && row.shown && Bet(cars, width) && (forall i :: 0 <= i < |cars| ==> cars[i] in roster)
              && row.combo == Some(Written(cars))
              && yen >= 1 && (row.amount == Some(Decimal(yen)) || row.amount == Some(WithCommas(yen)))
  {
    if row.combo.Some? && row.amount.Some? {
      ParseOrderedExact(row.combo.value, width, cars, true);
      MoneyExact(row.amount.value, yen);
    }
    assert Elements(cars) <= roster <==> forall i :: 0 <= i < |cars| ==> cars[i] in roster;
  }

  // ----- result rows

  /** A rank is awarded exactly to a plain digit within the field, and none exactly to a recorded non-finish. */
  lemma AwardedRankExact(row: ResultRow, field: nat, k: nat)
    ensures AwardedRank(row, field) == Accepted(Some(k)) <==>
              1 <= k <= 9 && k <= field && row.status == NoStatus && row.rank == RankText([DigitOf(k)])
    ensures AwardedRank(row, field) == Accepted(None) <==>
              || (row.rank == FaultMark && row.status == NoStatus)
              || (row.rank == NoRank && row.status in {Absent, Fell, Fault, Disqualified})
  {
    if row.rank.RankText? {
      CarExact(row.rank.text, k);
      if ParseCar(row.rank.text).Some? {
        CarExact(row.rank.text, ParseCar(row.rank.text).value);
      }
    }
  }

  lemma CarExact(s: string, k: nat)
    ensures ParseCar(s) == Some(k) <==> 1 <= k <= 9 && s == [DigitOf(k)]
  {
  }

  /** A car has a rank exactly when a row says so in its cells. */
  lemma {:induction false} RankingExact(rows: seq<ResultRow>, field: nat, car: nat, k: nat)
    requires ReadableRows(rows, field)
    ensures car in RankingOf(rows, field) && RankingOf(rows, field)[car] == k <==>
              exists i :: 0 <= i < |rows| && RanksCar(rows[i], field, car, k)
    decreases |rows|
  {
    if rows != [] {
      var n := |rows| - 1;
      var before, row := rows[..n], rows[n];
      assert forall i :: 0 <= i < n ==> before[i] == rows[i];
      RankingExact(before, field, car, k);
      CarExact(row.car, car);
      AwardedRankExact(row, field, k);
      var own := ParseCar(row.car).value;
      CarExact(row.car, own);
      if own == car {
        assert car !in RankingOf(before, field) by {
          forall j | 0 <= j < n ensures ParseCar(before[j].car) != Some(car) {
            if ParseCar(before[j].car) == Some(car) {
              SameCarSameText(before[j].car, row.car);
            }
          }
          NotYetRanked(before, field, car);
        }
      }
    }
  }

  /** The row's cells give the car this rank. */
  predicate RanksCar(row: ResultRow, field: nat, car: nat, k: nat) {
    && 1 <= car <= 9 && row.car == [DigitOf(car)]
    && 1 <= k <= 9 && k <= field && row.rank == RankText([DigitOf(k)]) && row.status == NoStatus
  }

  // ----- settled rows

  /** The cell is the date made of some cars. */
  ghost predicate WasDate(raw: string, width: nat)
    requires width == 2 || width == 3
  {
    exists cars :: Bet(cars, width) && raw == AsDate(cars)
  }

  /** Exactly the cells that were dates are recorded as rewritten. */
  lemma {:induction false} RewrittenExact(rows: seq<PayoutRow>, width: nat, text: string)
    requires width == 2 || width == 3
    ensures text in Rewritten(ReadRows(rows, width)) <==> WasDate(text, width) && HasOutcome(rows, text)
    decreases |rows|
  {
    if rows != [] {
      var n := |rows| - 1;
      RewrittenExact(rows[..n], width, text);
      RewrittenLast(rows, width);
      OutcomeLast(rows, text);
    }
  }

  ghost predicate HasOutcome(rows: seq<PayoutRow>, text: string) {
    exists i :: 0 <= i < |rows| && rows[i].outcome == text
  }

  lemma OutcomeLast(rows: seq<PayoutRow>, text: string)
    requires rows != []
    ensures HasOutcome(rows, text) <==> HasOutcome(rows[..|rows| - 1], text) || rows[|rows| - 1].outcome == text
  {
    var n := |rows| - 1;
    assert forall i :: 0 <= i < n ==> rows[..n][i] == rows[i];
  }

  lemma RewrittenLast(rows: seq<PayoutRow>, width: nat)
    requires rows != [] && (width == 2 || width == 3)
    ensures var n := |rows| - 1;
            Rewritten(ReadRows(rows, width))
              == Rewritten(ReadRows(rows[..n], width)) + (if WasDate(rows[n].outcome, width) then [rows[n].outcome] else [])
  {
    var n := |rows| - 1;
    assert ReadRows(rows, width)[..n] == ReadRows(rows[..n], width);
    DateExact(rows[n].outcome, width);
  }

  lemma DateExact(raw: string, width: nat)
    requires width == 2 || width == 3
    ensures ParseOrdered(raw, width).Accepted? && !ParseOrdered(raw, width).value.literal <==> WasDate(raw, width)
  {
    if ParseOrdered(raw, width).Accepted? {
      ParsedIsBet(raw, width);
    }
    forall cars | Bet(cars, width) && raw == AsDate(cars)
      ensures ParseOrdered(raw, width) == Accepted(Ordered(cars, false))
    {
      BetIsParsed(cars, width);
    }
  }
}
