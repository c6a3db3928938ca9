/** The proleptic Gregorian calendar of ECMA-262: day numbers, civil dates and setUTCFullYear. */
module Calendar {

  predicate Leap(y: int) {
    y % 4 == 0 && (y % 100 != 0 || y % 400 == 0)
  }

  function DaysInYear(y: int): int {
    if Leap(y) then 366 else 365
  }

  /** Day number of 1 January of year `y`; day 0 is 1 January 1970. */
  function DayFromYear(y: int): int {
    365 * (y - 1970) + (y - 1969) / 4 - (y - 1901) / 100 + (y - 1601) / 400
  }

  /** Days before month `m` (0 is January); month 12 stands for the end of the year. */
  function MonthStart(m: nat, leap: bool): int
    requires m <= 12
  {
    [0, 31, 59, 90, 120, 151, 181, 212, 243, 273, 304, 334, 365][m] + if leap && m >= 2 then 1 else 0
  }

  function DaysInMonth(y: int, m: nat): int
    requires m < 12
  {
    MonthStart(m + 1, Leap(y)) - MonthStart(m, Leap(y))
  }

  /** MakeDay: any month number rolls over into the year, any day number into the month. */
  function MakeDay(year: int, month: int, day: int): int {
    var y, m := year + month / 12, month % 12;
    DayFromYear(y) + MonthStart(m, Leap(y)) + day - 1
  }

  datatype Civil = Civil(year: int, month: nat, day: int)

  ghost predicate ValidCivil(c: Civil) {
    c.month < 12 && 1 <= c.day <= DaysInMonth(c.year, c.month)
  }

  lemma YearStep(y: int)
    ensures DayFromYear(y + 1) == DayFromYear(y) + DaysInYear(y)
  {
    QuotientStep(y - 1969, 4);
    QuotientStep(y - 1901, 100);
    QuotientStep(y - 1601, 400);
  }

  lemma QuotientStep(a: int, n: int)
    requires n > 0
    ensures (a + 1) / n == a / n + if (a + 1) % n == 0 then 1 else 0
  {
    var q, r := a / n, a % n;
    assert a == n * q + r;
    if r + 1 == n {
      assert a + 1 == n * (q + 1);
      DivUnique(a + 1, n, q + 1, 0);
    } else {
      DivUnique(a + 1, n, q, r + 1);
    }
  }

  lemma DivUnique(a: int, n: int, q: int, r: int)
    requires n > 0 && a == n * q + r && 0 <= r < n
    ensures a / n == q && a % n == r
  {
    assert n * (a / n - q) == r - a % n;
    MultipleIsFar(n, a / n - q);
  }

  lemma MultipleIsFar(n: int, d: int)
    requires n > 0
    ensures d >= 1 ==> n * d >= n
    ensures d <= -1 ==> n * d <= -n
  {
  }

  /** The year a day number falls in, found by walking from `from`. */
  function YearFrom(from: int, day: int): (y: int)
    ensures DayFromYear(y) <= day < DayFromYear(y + 1)
    decreases if day < DayFromYear(from) then 366 + DayFromYear(from) - day else day - DayFromYear(from)
  {
    YearStep(from);
    YearStep(from - 1);
    if day < DayFromYear(from) then YearFrom(from - 1, day)
    else if day >= DayFromYear(from + 1) then YearFrom(from + 1, day)
    else from
  }

  function YearOf(day: int): int {
    YearFrom(1970, day)
  }

  function MonthOf(dayInYear: int, leap: bool, m: nat): (r: nat)
    requires m < 12 && MonthStart(m, leap) <= dayInYear < MonthStart(12, leap)
    ensures r < 12 && MonthStart(r, leap) <= dayInYear < MonthStart(r + 1, leap)
    decreases 12 - m
  {
    if dayInYear < MonthStart(m + 1, leap) then m else MonthOf(dayInYear, leap, m + 1)
  }

  /** The civil date of a day number: what getUTCFullYear, getUTCMonth and getUTCDate read. */
  function CivilOf(day: int): (c: Civil)
    ensures ValidCivil(c)
    ensures DayFromYear(c.year) <= day < DayFromYear(c.year + 1)
    ensures day == DayFromYear(c.year) + MonthStart(c.month, Leap(c.year)) + c.day - 1
  {
    var y := YearOf(day);
    YearStep(y);
    var d := day - DayFromYear(y);
    var m := MonthOf(d, Leap(y), 0);
    Civil(y, m, d - MonthStart(m, Leap(y)) + 1)
  }

  lemma {:induction false} YearsIncrease(a: int, b: int)
    requires a < b
    ensures DayFromYear(a) + 365 <= DayFromYear(b)
    decreases b - a
  {
    YearStep(b - 1);
    if a < b - 1 {
      YearsIncrease(a, b - 1);
    }
  }

  lemma YearIsUnique(day: int, a: int, b: int)
    requires DayFromYear(a) <= day < DayFromYear(a + 1)
    requires DayFromYear(b) <= day < DayFromYear(b + 1)
    ensures a == b
  {
    if a < b {
      if a + 1 < b {
        YearsIncrease(a + 1, b);
      }
    } else if b < a {
      if b + 1 < a {
        YearsIncrease(b + 1, a);
      }
    }
  }

  lemma MonthsIncrease(m: nat, n: nat, leap: bool)
    requires m <= n <= 12
    ensures MonthStart(m, leap) <= MonthStart(n, leap)
    ensures m < n ==> MonthStart(m + 1, leap) <= MonthStart(n, leap)
    ensures 0 <= MonthStart(m, leap) <= MonthStart(n, leap) <= if leap then 366 else 365
    ensures MonthStart(12, leap) == if leap then 366 else 365
  {
  }

  lemma MonthIsUnique(d: int, m: nat, n: nat, leap: bool)
    requires m < 12 && MonthStart(m, leap) <= d < MonthStart(m + 1, leap)
    requires n < 12 && MonthStart(n, leap) <= d < MonthStart(n + 1, leap)
    ensures m == n
  {
    hide MonthStart;
    if m < n {
      MonthsIncrease(m, n, leap);
    } else {
      MonthsIncrease(n, m, leap);
    }
  }

  lemma PlainMakeDay(year: int, m: nat, day: int)
    requires m < 12
    ensures MakeDay(year, m, day) == DayFromYear(year) + MonthStart(m, Leap(year)) + day - 1
  {
  }

  lemma DayInItsYear(c: Civil)
    requires ValidCivil(c)
    ensures DayFromYear(c.year) <= MakeDay(c.year, c.month, c.day) < DayFromYear(c.year + 1)
  {
    PlainMakeDay(c.year, c.month, c.day);
    YearStep(c.year);
    hide DayFromYear, MonthStart, Leap, MakeDay;
    MonthsIncrease(c.month, 12, Leap(c.year));
  }

  /** The day number of a valid date leads back to that date. */
  lemma CivilRoundTrip(c: Civil)
    requires ValidCivil(c)
    ensures CivilOf(MakeDay(c.year, c.month, c.day)) == c
  {
    hide DayFromYear, MonthStart, Leap, MakeDay, CivilOf;
    var day := MakeDay(c.year, c.month, c.day);
    var r := CivilOf(day);
    PlainMakeDay(c.year, c.month, c.day);
    DayInItsYear(c);
    YearIsUnique(day, c.year, r.year);
    MonthIsUnique(day - DayFromYear(c.year), c.month, r.month, Leap(c.year));
  }

  /** The civil date of a day number leads back to that day number. */
  lemma DayRoundTrip(day: int)
    ensures var c := CivilOf(day); MakeDay(c.year, c.month, c.day) == day
  {
    hide DayFromYear, MonthStart, Leap, MakeDay, CivilOf;
    var c := CivilOf(day);
    PlainMakeDay(c.year, c.month, c.day);
  }

  /** The check of `timestampDate`: set the fields, then compare month and day, never the year. */
  predicate RollOverAccepts(year: int, month: int, day: int) {
    var c := CivilOf(MakeDay(year, month - 1, day));
    c.month == month - 1 && c.day == day
  }

  predicate ValidDate(year: int, month: int, day: int) {
    1 <= month <= 12 && 1 <= day <= DaysInMonth(year, month - 1)
  }

  /** The same month of two years starts on different days. */
  lemma MonthFixesYear(a: int, b: int, m: nat)
    requires m < 12 && DayFromYear(a) + MonthStart(m, Leap(a)) == DayFromYear(b) + MonthStart(m, Leap(b))
    ensures a == b
  {
    LeapDayIsOne(m, Leap(a), Leap(b));
    hide DayFromYear, MonthStart, Leap;
    if a < b {
      YearsIncrease(a, b);
    } else if b < a {
      YearsIncrease(b, a);
    }
  }

  lemma LeapDayIsOne(m: nat, p: bool, q: bool)
    requires m < 12
    ensures -1 <= MonthStart(m, p) - MonthStart(m, q) <= 1
  {
  }

  /** Although it ignores the year, the check accepts exactly the valid Gregorian dates. */
  lemma RollOverAcceptsExactlyValidDates(year: int, month: int, day: int)
    ensures RollOverAccepts(year, month, day) <==> ValidDate(year, month, day)
  {
    hide DayFromYear, MonthStart, Leap, MakeDay, CivilOf;
    if ValidDate(year, month, day) {
      CivilRoundTrip(Civil(year, month - 1, day));
    }
    var c := CivilOf(MakeDay(year, month - 1, day));
    if c.month == month - 1 && c.day == day {
      PlainMakeDay(year, c.month, day);
      MonthFixesYear(year, c.year, c.month);
    }
  }

  // ----- the calendar on the wall -----

  /** Thirty days have September, April, June and November. */
  function WallMonth(year: int, month: nat): int
    requires month < 12
  {
    match month
    case 1 => if year % 400 == 0 || (year % 100 != 0 && year % 4 == 0) then 29 else 28
    case 3 => 30
    case 5 => 30
    case 8 => 30
    case 10 => 30
    case _ => 31
  }

  /** The date after this one. */
  function Tomorrow(c: Civil): Civil
    requires c.month < 12
  {
    if c.day < WallMonth(c.year, c.month) then c.(day := c.day + 1)
    else if c.month < 11 then Civil(c.year, c.month + 1, 1)
    else Civil(c.year + 1, 0, 1)
  }

  lemma MonthLengths(year: int, month: nat)
    requires month < 12
    ensures DaysInMonth(year, month) == WallMonth(year, month)
  {
  }

  lemma TomorrowIsValid(c: Civil)
    requires ValidCivil(c)
    ensures ValidCivil(Tomorrow(c))
    ensures MakeDay(Tomorrow(c).year, Tomorrow(c).month, Tomorrow(c).day) == MakeDay(c.year, c.month, c.day) + 1
  {
    var t := Tomorrow(c);
    MonthLengths(c.year, c.month);
    MonthLengths(t.year, t.month);
    PlainMakeDay(c.year, c.month, c.day);
    PlainMakeDay(t.year, t.month, t.day);
    YearStep(c.year);
    hide DayFromYear, MakeDay;
  }

  lemma EpochIsDayZero()
    ensures MakeDay(1970, 0, 1) == 0 && ValidCivil(Civil(1970, 0, 1))
  {
    assert DayFromYear(1970) == 0;
    hide DayFromYear, Leap, MakeDay;
    PlainMakeDay(1970, 0, 1);
  }

  /** Day 0 is 1 January 1970, and each day is the date after the day before: these are the civil dates. */
  lemma DaysFollowTheCalendar(day: int)
    ensures CivilOf(0) == Civil(1970, 0, 1)
    ensures CivilOf(day + 1) == Tomorrow(CivilOf(day))
  {
    EpochIsDayZero();
    hide DayFromYear, MonthStart, Leap, MakeDay, CivilOf, Tomorrow, DaysInMonth;
    CivilRoundTrip(Civil(1970, 0, 1));
    var c := CivilOf(day);
    DayRoundTrip(day);
    TomorrowIsValid(c);
    CivilRoundTrip(Tomorrow(c));
  }

  /** What is beyond the end of a month or year is counted on. */
  lemma MakeDayRollsOver(year: int, month: int, day: int)
    ensures MakeDay(year, month, day + 1) == MakeDay(year, month, day) + 1
    ensures MakeDay(year, month + 12, day) == MakeDay(year + 1, month, day)
  {
    assert (month + 12) / 12 == month / 12 + 1 && (month + 12) % 12 == month % 12;
  }

  /** A date exists exactly when the calendar on the wall has it. */
  lemma ValidDateIff(year: int, month: int, day: int)
    ensures ValidDate(year, month, day) <==> 1 <= month <= 12 && 1 <= day <= WallMonth(year, (month - 1) as nat)
  {
    if 1 <= month <= 12 {
      MonthLengths(year, month - 1);
    }
  }
}
