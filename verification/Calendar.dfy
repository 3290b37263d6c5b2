/** The proleptic Gregorian calendar, in days since 1 January of the year 0. */
module Calendar {
  predicate Leap(y: nat) { y % 4 == 0 && (y % 100 != 0 || y % 400 == 0) }

  function YearLength(y: nat): nat { if Leap(y) then 366 else 365 }

  function YearStart(y: nat): nat { 365 * y + (y + 3) / 4 - (y + 99) / 100 + (y + 399) / 400 }

  lemma {:induction false} StepBy4(y: nat)
    ensures (y + 4) / 4 == (y + 3) / 4 + if y % 4 == 0 then 1 else 0
  {}

  lemma {:induction false} StepBy100(y: nat)
    ensures (y + 100) / 100 == (y + 99) / 100 + if y % 100 == 0 then 1 else 0
  {}

  lemma {:induction false} StepBy400(y: nat)
    ensures (y + 400) / 400 == (y + 399) / 400 + if y % 400 == 0 then 1 else 0
  {}

  lemma {:induction false} FourTimes(k: int)
    ensures 4 * k % 4 == 0
  {}

  lemma {:induction false} HundredTimes(k: int)
    ensures 100 * k % 100 == 0
  {}

  lemma {:induction false} HundredsAreFours(y: nat)
    requires y % 100 == 0
    ensures y % 4 == 0
  {
    FourTimes(25 * (y / 100));
    assert 4 * (25 * (y / 100)) == y;
  }

  lemma {:induction false} FourHundredsAreHundreds(y: nat)
    requires y % 400 == 0
    ensures y % 100 == 0
  {
    HundredTimes(4 * (y / 400));
    assert 100 * (4 * (y / 400)) == y;
  }

  lemma {:induction false} CenturiesDivide(y: nat)
    ensures y % 100 == 0 ==> y % 4 == 0
    ensures y % 400 == 0 ==> y % 100 == 0
  {
    if y % 100 == 0 {
      HundredsAreFours(y);
    }
    if y % 400 == 0 {
      FourHundredsAreHundreds(y);
    }
  }

  /** A leap year is one more multiple of 4, less those of 100, and those of 400 again. */
  lemma {:induction false} YearSteps(fours: int, hundreds: int, fourHundreds: int, y: nat)
    requires y % 100 == 0 ==> y % 4 == 0
    requires y % 400 == 0 ==> y % 100 == 0
    requires (y + 4) / 4 == fours + (if y % 4 == 0 then 1 else 0)
    requires (y + 100) / 100 == hundreds + (if y % 100 == 0 then 1 else 0)
    requires (y + 400) / 400 == fourHundreds + (if y % 400 == 0 then 1 else 0)
    ensures YearStart(y + 1) == 365 * y + fours - hundreds + fourHundreds + YearLength(y)
  {
    assert y + 1 + 3 == y + 4 && y + 1 + 99 == y + 100 && y + 1 + 399 == y + 400;
  }

  lemma {:induction false} NextYear(y: nat)
    ensures YearStart(y + 1) == YearStart(y) + YearLength(y)
  {
    StepBy4(y);
    StepBy100(y);
    StepBy400(y);
    CenturiesDivide(y);
    YearSteps((y + 3) / 4, (y + 99) / 100, (y + 399) / 400, y);
  }

  lemma {:induction false} YearsAscend(y: nat, z: nat)
    requires y <= z
    ensures YearStart(y) + (z - y) <= YearStart(z)
  {
    if y < z {
      YearsAscend(y, z - 1);
      NextYear(z - 1);
    }
  }

  /** The year of a day, searched from the year y. */
  function YearFrom(day: nat, y: nat): (r: nat)
    requires YearStart(y) <= day
    ensures YearStart(r) <= day < YearStart(r + 1)
    decreases day - YearStart(y)
  {
    NextYear(y);
    if day < YearStart(y + 1) then y else YearFrom(day, y + 1)
  }

  /** Days of the year before month m, counted from 0. */
  function MonthStart(leap: bool, m: nat): nat
    requires m <= 12
  {
    [0, 31, 59, 90, 120, 151, 181, 212, 243, 273, 304, 334, 365][m] + if leap && m >= 2 then 1 else 0
  }

  function MonthFrom(leap: bool, day: nat, m: nat): (r: nat)
    requires m < 12 && MonthStart(leap, m) <= day < MonthStart(leap, 12)
    ensures r < 12 && MonthStart(leap, r) <= day < MonthStart(leap, r + 1)
    decreases 12 - m
  {
    if day < MonthStart(leap, m + 1) then m else MonthFrom(leap, day, m + 1)
  }

  datatype Date = Date(year: nat, month: nat, day: nat)

  predicate ValidDate(d: Date) {
    && 1 <= d.month <= 12 && 1 <= d.day
    && MonthStart(Leap(d.year), d.month - 1) + d.day <= MonthStart(Leap(d.year), d.month)
  }

  function DayNumber(d: Date): nat
    requires ValidDate(d)
  {
    YearStart(d.year) + MonthStart(Leap(d.year), d.month - 1) + (d.day - 1)
  }

  function DateOf(n: nat): (d: Date)
    ensures ValidDate(d) && DayNumber(d) == n
  {
    var y := YearFrom(n, 0);
    NextYear(y);
    var m := MonthFrom(Leap(y), n - YearStart(y), 0);
    Date(y, m + 1, n - YearStart(y) - MonthStart(Leap(y), m) + 1)
  }

  ghost predicate Earlier(a: Date, b: Date) {
    a.year < b.year || (a.year == b.year && (a.month < b.month || (a.month == b.month && a.day < b.day)))
  }

  lemma {:induction false} EarlierMonth(leap: bool, m: nat, n: nat)
    requires m < n <= 12
    ensures MonthStart(leap, m) < MonthStart(leap, n)
  {}

  lemma {:induction false} MonthsAscend(leap: bool, m: nat, n: nat)
    requires m <= n <= 12
    ensures MonthStart(leap, m) <= MonthStart(leap, n)
  {
    if m < n {
      EarlierMonth(leap, m, n);
    }
  }

  lemma {:induction false} WholeYear(y: nat)
    ensures MonthStart(Leap(y), 12) == YearLength(y)
  {}

  lemma {:induction false} EarlierDate(a: Date, b: Date)
    requires ValidDate(a) && ValidDate(b) && Earlier(a, b)
    ensures DayNumber(a) < DayNumber(b)
  {
    hide MonthStart, YearStart, Leap;
    if a.year < b.year {
      NextYear(a.year);
      YearsAscend(a.year + 1, b.year);
      MonthsAscend(Leap(a.year), a.month, 12);
      WholeYear(a.year);
    } else if a.month < b.month {
      MonthsAscend(Leap(a.year), a.month, b.month - 1);
    }
  }

  /** Day numbers and dates correspond one to one, in order. */
  lemma {:induction false} DatesInOrder(a: Date, b: Date)
    requires ValidDate(a) && ValidDate(b)
    ensures DayNumber(a) < DayNumber(b) <==> Earlier(a, b)
    ensures DayNumber(a) == DayNumber(b) <==> a == b
  {
    if Earlier(a, b) {
      EarlierDate(a, b);
    } else if Earlier(b, a) {
      EarlierDate(b, a);
    }
  }

  /** Known years: the leap years around the turns of centuries, and the days before 1970. */
  lemma {:induction false} KnownYears()
    ensures Leap(2000) && !Leap(1900) && Leap(2024) && !Leap(2023) && YearStart(1970) == 719_528
  {}

  /** The months have the days they have, counted from 0. */
  lemma {:induction false} MonthLengths(leap: bool, m: nat)
    requires m < 12
    ensures MonthStart(leap, m + 1) - MonthStart(leap, m)
         == if m == 1 then (if leap then 29 else 28) else if m in {3, 5, 8, 10} then 30 else 31
    ensures MonthStart(leap, 0) == 0
  {}
}
