// Calendar days, as the daily rollup and the trend loop use them.
module Calendar {
  import opened Decimal

  datatype Date = Date(year: nat, month: nat, day: nat) {
    predicate Valid() {
      1 <= month <= 12 && 1 <= day <= MonthLength(year, month)
    }

    // time.Format("2006-01-02")
    function Format(): string {
      Pad(year, 4) + "-" + Pad(month, 2) + "-" + Pad(day, 2)
    }

    // time.AddDate(0, 0, 1)
    function Next(): (n: Date)
      requires Valid()
      ensures n.Valid()
    {
      if day < MonthLength(year, month) then Date(year, month, day + 1)
      else if month < 12 then Date(year, month + 1, 1)
      else Date(year + 1, 1, 1)
    }

    // time.Before on midnights
    predicate Before(other: Date) {
      year < other.year ||
      (year == other.year && (month < other.month || (month == other.month && day < other.day)))
    }

    // Days counted from the start of year 0.
    function Ordinal(): nat
      requires Valid()
    {
      YearStart(year) + MonthStart(year, month) + day
    }
  }

  type Day = d: Date | d.Valid() witness Date(1970, 1, 1)

  predicate Leap(y: nat) {
    y % 4 == 0 && (y % 100 != 0 || y % 400 == 0)
  }

  function MonthLength(y: nat, m: nat): (n: nat)
    ensures 28 <= n <= 31
  {
    if m == 2 then (if Leap(y) then 29 else 28)
    else if m == 4 || m == 6 || m == 9 || m == 11 then 30 else 31
  }

  function MonthStart(y: nat, m: nat): nat {
    if m <= 1 then 0 else MonthStart(y, m - 1) + MonthLength(y, m - 1)
  }

  function YearStart(y: nat): nat {
    if y == 0 then 0 else YearStart(y - 1) + MonthStart(y - 1, 13)
  }

  lemma {:induction false} MonthsAscend(y: nat, m: nat, n: nat)
    requires 1 <= m < n
    ensures MonthStart(y, m) + MonthLength(y, m) <= MonthStart(y, n)
  {
    if m + 1 < n {
      MonthsAscend(y, m, n - 1);
    }
  }

  lemma {:induction false} YearsAscend(y: nat, z: nat)
    requires y < z
    ensures YearStart(y) + MonthStart(y, 13) <= YearStart(z)
  {
    if y + 1 < z {
      YearsAscend(y, z - 1);
    }
  }

  // Calendar order is the order of day numbers, and stepping a day adds one.
  lemma OrderIsOrdinal(a: Day, b: Day)
    ensures a.Before(b) <==> a.Ordinal() < b.Ordinal()
    ensures a.Ordinal() == b.Ordinal() ==> a == b
  {
    EarlierIsSmaller(a, b);
    EarlierIsSmaller(b, a);
  }

  lemma EarlierIsSmaller(a: Day, b: Day)
    ensures a.Before(b) ==> a.Ordinal() < b.Ordinal()
  {
    if a.Before(b) {
      MonthsAscend(a.year, a.month, 13);
      if a.year < b.year {
        YearsAscend(a.year, b.year);
      } else if a.month < b.month {
        MonthsAscend(a.year, a.month, b.month);
      }
    }
  }

  lemma NextAddsOne(d: Day)
    ensures d.Next().Ordinal() == d.Ordinal() + 1
    ensures d.Before(d.Next())
  {
    if d.day == MonthLength(d.year, d.month) && d.month == 12 {
      assert YearStart(d.year + 1) == YearStart(d.year) + MonthStart(d.year, 13);
      assert MonthStart(d.year + 1, 1) == 0;
    }
  }

  lemma FixedTailSplits(p: string, f: string, q: string, g: string)
    requires p + "-" + f == q + "-" + g && |f| == |g|
    ensures p == q && f == g
  {
    var s := p + "-" + f;
    assert s[..|p|] == p && s[..|p|] == q;
    assert s[|p| + 1..] == f && s[|p| + 1..] == g;
  }

  // No two days share a rendering, and no rendering contains a colon.
  lemma FormatIsInjective(a: Day, b: Day)
    requires a.Format() == b.Format()
    ensures a == b
  {
    assert Power10(2) == 100 by { assert Power10(1) == 10; }
    PadExact(a.month, 2);
    PadExact(b.month, 2);
    PadExact(a.day, 2);
    PadExact(b.day, 2);
    FixedTailSplits(Pad(a.year, 4) + "-" + Pad(a.month, 2), Pad(a.day, 2),
                    Pad(b.year, 4) + "-" + Pad(b.month, 2), Pad(b.day, 2));
    FixedTailSplits(Pad(a.year, 4), Pad(a.month, 2), Pad(b.year, 4), Pad(b.month, 2));
    PadReads(a.day, 2);
    PadReads(b.day, 2);
    PadReads(a.month, 2);
    PadReads(b.month, 2);
    PadReads(a.year, 4);
    PadReads(b.year, 4);
  }

  lemma FormatHasNoColon(d: Day)
    ensures ':' !in d.Format()
  {
    forall i | 0 <= i < |d.Format()|
      ensures d.Format()[i] != ':'
    {
      assert IsDigit(d.Format()[i]) || d.Format()[i] == '-';
    }
  }

  // The Gregorian calendar: the month lengths, and the days before a year in closed form.
  lemma MonthsAreGregorian(y: nat, m: nat)
    requires 1 <= m <= 12
    ensures MonthLength(y, m) == if m in {4, 6, 9, 11} then 30
                                 else if m in {1, 3, 5, 7, 8, 10, 12} then 31
                                 else if y % 400 == 0 || (y % 4 == 0 && y % 100 != 0) then 29 else 28
  {
  }

  // Leap years before year y: fourths but not hundredths, but four-hundredths.
  function LeapsBefore(y: nat): int {
    (y + 3) / 4 - (y + 99) / 100 + (y + 399) / 400
  }

  lemma {:induction false} YearsAreGregorian(y: nat)
    ensures YearStart(y) == 365 * y + LeapsBefore(y)
  {
    if y > 0 {
      hide LeapsBefore, MonthStart;
      YearsAreGregorian(y - 1);
      YearLength(y - 1);
      OneMoreYear(y - 1);
    }
  }

  lemma OneMoreYear(y: nat)
    ensures LeapsBefore(y + 1) == LeapsBefore(y) + if Leap(y) then 1 else 0
  {
    Fourths(y);
    Hundredths(y);
    FourHundredths(y);
    Nested(y);
  }

  lemma Fourths(y: nat)
    ensures (y + 1 + 3) / 4 == (y + 3) / 4 + if y % 4 == 0 then 1 else 0
  {
  }

  lemma Hundredths(y: nat)
    ensures (y + 1 + 99) / 100 == (y + 99) / 100 + if y % 100 == 0 then 1 else 0
  {
  }

  lemma FourHundredths(y: nat)
    ensures (y + 1 + 399) / 400 == (y + 399) / 400 + if y % 400 == 0 then 1 else 0
  {
  }

  lemma Nested(y: nat)
    ensures (y % 400 == 0 ==> y % 100 == 0) && (y % 100 == 0 ==> y % 4 == 0)
  {
    if y % 400 == 0 {
      MultipleOf(4 * (y / 400), 100, y);
    }
    if y % 100 == 0 {
      MultipleOf(25 * (y / 100), 4, y);
    }
  }

  lemma MultipleOf(q: nat, k: nat, y: nat)
    requires k > 0 && y == q * k
    ensures y % k == 0
  {
    NoRemainder(q, y / k, k, y % k);
  }

  lemma NoRemainder(q: int, p: int, k: int, r: int)
    requires 0 <= r < k && q * k == p * k + r
    ensures r == 0
  {
    assert (q - p) * k == r;
    Scaled(q - p, k);
  }

  lemma Scaled(d: int, k: int)
    requires k > 0
    ensures (d >= 1 ==> d * k >= k) && (d <= -1 ==> d * k <= -k)
  {
  }

  lemma YearLength(y: nat)
    ensures MonthStart(y, 13) == if Leap(y) then 366 else 365
  {
    assert MonthStart(y, 2) == 31 && MonthStart(y, 3) == 31 + MonthLength(y, 2);
    assert MonthStart(y, 4) == MonthStart(y, 3) + 31 && MonthStart(y, 5) == MonthStart(y, 4) + 30;
    assert MonthStart(y, 6) == MonthStart(y, 5) + 31 && MonthStart(y, 7) == MonthStart(y, 6) + 30;
    assert MonthStart(y, 8) == MonthStart(y, 7) + 31 && MonthStart(y, 9) == MonthStart(y, 8) + 31;
    assert MonthStart(y, 10) == MonthStart(y, 9) + 30 && MonthStart(y, 11) == MonthStart(y, 10) + 31;
    assert MonthStart(y, 12) == MonthStart(y, 11) + 30 && MonthStart(y, 13) == MonthStart(y, 12) + 31;
  }

  // A formatted day reads back, field by field.
  lemma FormatReads(d: Day)
    requires d.year < 10_000
    ensures var s := d.Format();
      && |s| == 10 && s[4] == '-' && s[7] == '-'
      && AllDigits(s[..4]) && AllDigits(s[5..7]) && AllDigits(s[8..])
      && Atoi(s[..4]) == d.year && Atoi(s[5..7]) == d.month && Atoi(s[8..]) == d.day
  {
    var y, m, n := Pad(d.year, 4), Pad(d.month, 2), Pad(d.day, 2);
    assert Power10(4) == 10_000 && Power10(2) == 100;
    PadExact(d.year, 4);
    PadExact(d.month, 2);
    PadExact(d.day, 2);
    PadReads(d.year, 4);
    PadReads(d.month, 2);
    PadReads(d.day, 2);
    assert d.Format()[..4] == y && d.Format()[5..7] == m && d.Format()[8..] == n;
  }
}
