/** The proleptic Gregorian calendar of RFC 3339 (days of the month and leap years, appendix C). */
module Calendar {

  datatype Date = Date(year: nat, month: nat, day: nat)

  predicate Leap(y: nat) { y % 4 == 0 && (y % 100 != 0 || y % 400 == 0) }

  function YearDays(y: nat): nat { if Leap(y) then 366 else 365 }

  function MonthDays(y: nat, m: nat): nat {
    if m == 2 then (if Leap(y) then 29 else 28)
    else if m in {4, 6, 9, 11} then 30
    else 31
  }

  predicate IsDate(d: Date) { 1 <= d.month <= 12 && 1 <= d.day <= MonthDays(d.year, d.month) }

  /** Days before 1 January of year y, counted from 1 January of year 0. */
  function DaysBefore(y: nat): nat {
    if y == 0 then 0 else DaysBefore(y - 1) + YearDays(y - 1)
  }

  /** Days of year y before month m. */
  function MonthStart(y: nat, m: nat): nat {
    if m <= 1 then 0 else MonthStart(y, m - 1) + MonthDays(y, m - 1)
  }

  function DayNumber(d: Date): int { DaysBefore(d.year) + MonthStart(d.year, d.month) + d.day - 1 }

  lemma {:induction false} MonthsGrow(y: nat, a: nat, b: nat)
    requires 1 <= a < b
    ensures MonthStart(y, a) + MonthDays(y, a) <= MonthStart(y, b)
  {
    if a + 1 < b {
      MonthsGrow(y, a, b - 1);
    }
  }

  lemma YearEnds(y: nat)
    ensures MonthStart(y, 13) == YearDays(y)
  {
    assert MonthStart(y, 2) == 31;
    assert MonthStart(y, 3) == 31 + MonthDays(y, 2);
    assert MonthStart(y, 5) == MonthStart(y, 3) + 61;
    assert MonthStart(y, 7) == MonthStart(y, 5) + 61;
    assert MonthStart(y, 9) == MonthStart(y, 7) + 62;
    assert MonthStart(y, 11) == MonthStart(y, 9) + 61;
    assert MonthStart(y, 13) == MonthStart(y, 11) + 61;
  }

  lemma {:induction false} YearsGrow(a: nat, b: nat)
    requires a < b
    ensures DaysBefore(a) + YearDays(a) <= DaysBefore(b)
  {
    if a + 1 < b {
      YearsGrow(a, b - 1);
    }
  }

  predicate DateLess(a: Date, b: Date) {
    || a.year < b.year
    || (a.year == b.year && a.month < b.month)
    || (a.year == b.year && a.month == b.month && a.day < b.day)
  }

  lemma WithinYear(d: Date)
    requires IsDate(d)
    ensures DaysBefore(d.year) <= DayNumber(d) < DaysBefore(d.year) + YearDays(d.year)
  {
    YearEnds(d.year);
    MonthsGrow(d.year, d.month, 13);
  }

  /** Reading dates field by field is counting days. */
  lemma DateOrder(a: Date, b: Date)
    requires IsDate(a) && IsDate(b)
    ensures DateLess(a, b) <==> DayNumber(a) < DayNumber(b)
    ensures a == b <==> DayNumber(a) == DayNumber(b)
  {
    if DateLess(a, b) {
      EarlierDate(a, b);
    } else if DateLess(b, a) {
      EarlierDate(b, a);
    }
  }

  lemma EarlierDate(a: Date, b: Date)
    requires IsDate(a) && IsDate(b) && DateLess(a, b)
    ensures DayNumber(a) < DayNumber(b)
  {
    if a.year < b.year {
      WithinYear(a);
      WithinYear(b);
      YearsGrow(a.year, b.year);
    } else if a.month < b.month {
      MonthsGrow(a.year, a.month, b.month);
    }
  }

  /** The year of a day, searched from year y on. */
  function YearFrom(n: nat, y: nat): (r: nat)
    requires DaysBefore(y) <= n
    ensures DaysBefore(r) <= n < DaysBefore(r + 1)
    decreases n - DaysBefore(y)
  {
    if n < DaysBefore(y + 1) then y else YearFrom(n, y + 1)
  }

  /** The month of day k of year y, searched from month m on. */
  function MonthFrom(y: nat, k: nat, m: nat): (r: nat)
    requires 1 <= m <= 12 && MonthStart(y, m) <= k < YearDays(y)
    ensures 1 <= r <= 12 && MonthStart(y, r) <= k < MonthStart(y, r + 1)
    decreases 12 - m
  {
    YearEnds(y);
    if k < MonthStart(y, m + 1) then m else MonthFrom(y, k, m + 1)
  }

  function DateOf(n: nat): Date {
    var y := YearFrom(n, 0);
    var k := n - DaysBefore(y);
    var m := MonthFrom(y, k, 1);
    Date(y, m, k - MonthStart(y, m) + 1)
  }

  /** Every day has one date. */
  lemma DateOfDay(n: nat)
    ensures IsDate(DateOf(n)) && DayNumber(DateOf(n)) == n
  {
  }

  /** The Gregorian rule in closed form: a leap day every four years, but not in three of four centuries. */
  lemma {:induction false} ClosedForm(y: nat)
    ensures DaysBefore(y) == 365 * y + (y + 3) / 4 - (y + 99) / 100 + (y + 399) / 400
  {
    if y > 0 {
      ClosedForm(y - 1);
      OneMore(y - 1);
      LeapCount(y - 1);
    }
  }

  lemma OneMore(z: nat)
    ensures (z + 4) / 4 - (z + 3) / 4 == if z % 4 == 0 then 1 else 0
    ensures (z + 100) / 100 - (z + 99) / 100 == if z % 100 == 0 then 1 else 0
    ensures (z + 400) / 400 - (z + 399) / 400 == if z % 400 == 0 then 1 else 0
  {
    EveryFour(z);
    EveryHundred(z);
    EveryFourHundred(z);
  }

  lemma EveryFour(z: nat)
    ensures (z + 4) / 4 - (z + 3) / 4 == if z % 4 == 0 then 1 else 0
  {
  }

  lemma EveryHundred(z: nat)
    ensures (z + 100) / 100 - (z + 99) / 100 == if z % 100 == 0 then 1 else 0
  {
  }

  lemma EveryFourHundred(z: nat)
    ensures (z + 400) / 400 - (z + 399) / 400 == if z % 400 == 0 then 1 else 0
  {
  }

  lemma LeapCount(z: nat)
    ensures z % 400 == 0 ==> z % 100 == 0
    ensures z % 100 == 0 ==> z % 4 == 0
  {
    if z % 400 == 0 {
      OfHundred(z, 4 * (z / 400));
    }
    if z % 100 == 0 {
      OfFour(z, 25 * (z / 100));
    }
  }

  lemma OfHundred(z: nat, m: nat)
    requires z == 100 * m
    ensures z % 100 == 0
  {
  }

  lemma OfFour(z: nat, m: nat)
    requires z == 4 * m
    ensures z % 4 == 0
  {
  }

  /** Known day numbers: the epoch of Unix time, and the first day after the four-digit years. */
  lemma KnownDays(y: nat)
    ensures y == 1970 ==> DayNumber(Date(y, 1, 1)) == 719_528
    ensures y == 2006 ==> DayNumber(Date(y, 1, 2)) == 732_678
    ensures y == 10_000 ==> DaysBefore(y) == 3_652_425
  {
    ClosedForm(y);
  }

  /** Leap days: 29 February is a day of 2000, the last of its month, and not of 2100. */
  lemma KnownLeapDays(y: nat)
    ensures y == 2000 ==> IsDate(Date(y, 2, 29)) && DayNumber(Date(y, 2, 29)) + 1 == DayNumber(Date(y, 3, 1)) == 730_545
    ensures y == 2100 ==> !IsDate(Date(y, 2, 29)) && DayNumber(Date(y, 2, 28)) + 1 == DayNumber(Date(y, 3, 1))
  {
    ClosedForm(y);
    assert MonthStart(y, 2) == 31;
    assert MonthStart(y, 3) == 31 + MonthDays(y, 2);
  }

  /** A day before year y's first has a date in an earlier year. */
  lemma DateBefore(n: nat, y: nat)
    requires n < DaysBefore(y)
    ensures DateOf(n).year < y
  {
    DateOfDay(n);
    WithinYear(DateOf(n));
    if y < DateOf(n).year {
      YearsGrow(y, DateOf(n).year);
    }
  }
}
