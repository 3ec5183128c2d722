/**
 Date arithmetic on whole days, following the abstract operations that ECMA-262 (21.4.1) gives
 for `Date`: a date is the number of days since 1970-01-01 in the proleptic Gregorian calendar,
 months are counted from 0 and the week days from Sunday = 0.
 */
module Calendar {

  predicate IsLeap(y: int) {
    y % 4 == 0 && (y % 100 != 0 || y % 400 == 0)
  }

  function DaysInYear(y: int): int {
    if IsLeap(y) then 366 else 365
  }

  function MonthLength(y: int, m: int): int
    requires 0 <= m < 12
  {
    if m == 1 then (if IsLeap(y) then 29 else 28)
    else if m == 3 || m == 5 || m == 8 || m == 10 then 30
    else 31
  }

  /** Days of year `y` that precede its month `m`. */
  function DaysBeforeMonth(y: int, m: int): int
    requires 0 <= m <= 12
  {
    if m == 0 then 0 else DaysBeforeMonth(y, m - 1) + MonthLength(y, m - 1)
  }

  /** DayFromYear of ECMA-262, the first day of year `y`: years follow each other from 1970 = 0. */
  function DayFromYear(y: int): int
    decreases if y < 1970 then 1970 - y else y - 1970
  {
    if y == 1970 then 0
    else if y < 1970 then DayFromYear(y + 1) - DaysInYear(y)
    else DayFromYear(y - 1) + DaysInYear(y - 1)
  }

  lemma YearStep(y: int)
    ensures DayFromYear(y + 1) == DayFromYear(y) + DaysInYear(y)
  {
  }

  /** The closed form that ECMA-262 states for DayFromYear. */
  lemma DayFromYearClosed(y: int)
    ensures DayFromYear(y) == 365 * (y - 1970) + (y - 1969) / 4 - (y - 1901) / 100 + (y - 1601) / 400
    decreases if y < 1970 then 1970 - y else y - 1970
  {
    if y < 1970 {
      DayFromYearClosed(y + 1);
      ClosedStep(y);
    } else if 1970 < y {
      DayFromYearClosed(y - 1);
      ClosedStep(y - 1);
    }
  }

  lemma LeapStep(y: int)
    ensures (y - 1968) / 4 == (y - 1969) / 4 + (if y % 4 == 0 then 1 else 0)
  {
  }

  lemma CenturyStep(y: int)
    ensures (y - 1900) / 100 == (y - 1901) / 100 + (if y % 100 == 0 then 1 else 0)
  {
  }

  lemma CycleStep(y: int)
    ensures (y - 1600) / 400 == (y - 1601) / 400 + (if y % 400 == 0 then 1 else 0)
  {
  }

  // The three quotients move exactly at the leap years.
  lemma ClosedStep(y: int)
    ensures (y - 1968) / 4 - (y - 1900) / 100 + (y - 1600) / 400 + 365
         == (y - 1969) / 4 - (y - 1901) / 100 + (y - 1601) / 400 + DaysInYear(y)
  {
    LeapStep(y);
    CenturyStep(y);
    CycleStep(y);
    if y % 400 == 0 { Centuries(y); }
    if y % 100 == 0 { LeapYears(y); }
  }

  lemma Centuries(y: int)
    requires y % 400 == 0
    ensures y % 100 == 0
  {
    var q := y / 400;
    assert y == 100 * (4 * q);
  }

  lemma LeapYears(y: int)
    requires y % 100 == 0
    ensures y % 4 == 0
  {
    var q := y / 100;
    assert y == 4 * (25 * q);
  }

  lemma YearStartsIncrease(y: int, z: int)
    requires y < z
    ensures DayFromYear(y) + 365 * (z - y) <= DayFromYear(z)
    decreases z - y
  {
    YearStep(z - 1);
    if y + 1 < z {
      YearStartsIncrease(y, z - 1);
    }
  }

  /** YearFromTime of ECMA-262: the year that day `n` belongs to. */
  function Year(n: int): (y: int)
    ensures DayFromYear(y) <= n < DayFromYear(y + 1)
  {
    YearNear(n, 1970)
  }

  function YearNear(n: int, y: int): (r: int)
    ensures DayFromYear(r) <= n < DayFromYear(r + 1)
    decreases if n < DayFromYear(y) then DayFromYear(y) - n
      else if DayFromYear(y + 1) <= n then n - DayFromYear(y + 1) + 1 else 0
  {
    YearStep(y);
    YearStep(y - 1);
    if n < DayFromYear(y) then YearNear(n, y - 1)
    else if DayFromYear(y + 1) <= n then YearNear(n, y + 1)
    else y
  }

  lemma YearUnique(n: int, y: int)
    requires DayFromYear(y) <= n < DayFromYear(y + 1)
    ensures Year(n) == y
  {
    if Year(n) < y {
      if Year(n) + 1 < y { YearStartsIncrease(Year(n) + 1, y); }
    } else if y < Year(n) {
      if y + 1 < Year(n) { YearStartsIncrease(y + 1, Year(n)); }
    }
  }

  lemma DaysInTwelveMonths(y: int)
    ensures DaysBeforeMonth(y, 12) == DaysInYear(y)
  {
    assert DaysBeforeMonth(y, 1) == 31;
    assert DaysBeforeMonth(y, 2) == 31 + MonthLength(y, 1);
    assert DaysBeforeMonth(y, 4) == DaysBeforeMonth(y, 2) + 61;
    assert DaysBeforeMonth(y, 6) == DaysBeforeMonth(y, 4) + 61;
    assert DaysBeforeMonth(y, 8) == DaysBeforeMonth(y, 6) + 62;
    assert DaysBeforeMonth(y, 10) == DaysBeforeMonth(y, 8) + 61;
  }

  /** The month at or below `m` that holds the day with `doy` days of year `y` before it. */
  function MonthAt(y: int, doy: int, m: int): (r: int)
    requires 0 <= m < 12 && 0 <= doy < DaysBeforeMonth(y, m + 1)
    ensures 0 <= r <= m && DaysBeforeMonth(y, r) <= doy < DaysBeforeMonth(y, r + 1)
  {
    if DaysBeforeMonth(y, m) <= doy then m else MonthAt(y, doy, m - 1)
  }

  function DayOfYear(n: int): (doy: int)
    ensures 0 <= doy < DaysInYear(Year(n))
  {
    YearStep(Year(n));
    n - DayFromYear(Year(n))
  }

  /** MonthFromTime of ECMA-262. */
  function Month(n: int): (m: int)
    ensures 0 <= m < 12
    ensures DaysBeforeMonth(Year(n), m) <= DayOfYear(n) < DaysBeforeMonth(Year(n), m + 1)
  {
    DaysInTwelveMonths(Year(n));
    MonthAt(Year(n), DayOfYear(n), 11)
  }

  /** DateFromTime of ECMA-262: the day of the month, from 1. */
  function DayOfMonth(n: int): (d: int)
    ensures 1 <= d <= MonthLength(Year(n), Month(n))
  {
    DayOfYear(n) - DaysBeforeMonth(Year(n), Month(n)) + 1
  }

  /** WeekDay of ECMA-262: 0 is Sunday. */
  function WeekDay(n: int): int {
    (n + 4) % 7
  }

  /** MakeDay of ECMA-262: months and days out of range carry over. */
  function MakeDay(y: int, m: int, d: int): int {
    DayFromYear(y + m / 12) + DaysBeforeMonth(y + m / 12, m % 12) + d - 1
  }

  /** MakeFullYear of ECMA-262: the constructor and `Date.UTC` read 0..99 as 1900..1999. */
  function FullYear(y: int): int {
    if 0 <= y <= 99 then 1900 + y else y
  }

  /** `Date.UTC(y, m, d)` and `new Date(y, m, d)` on whole days. */
  function NewDate(y: int, m: int, d: int): int {
    MakeDay(FullYear(y), m, d)
  }

  /** The value of a date after `setUTCDate(d)`. */
  function SetDate(n: int, d: int): int {
    MakeDay(Year(n), Month(n), d)
  }

  lemma MonthStartsIncrease(y: int, m: int, k: int)
    requires 0 <= m <= k <= 12
    ensures DaysBeforeMonth(y, m) <= DaysBeforeMonth(y, k)
    decreases k - m
  {
    if m < k {
      MonthStartsIncrease(y, m, k - 1);
    }
  }

  lemma MonthUnique(y: int, doy: int, m: int, k: int)
    requires 0 <= m < 12 && 0 <= k < 12
    requires DaysBeforeMonth(y, m) <= doy < DaysBeforeMonth(y, m + 1)
    requires DaysBeforeMonth(y, k) <= doy < DaysBeforeMonth(y, k + 1)
    ensures k == m
  {
    hide DaysBeforeMonth;
    if k < m {
      MonthStartsIncrease(y, k + 1, m);
    } else if m < k {
      MonthStartsIncrease(y, m + 1, k);
    }
  }

  // Where a day of month `m` lies in its year.
  lemma WithinYear(y: int, m: int, d: int)
    requires 0 <= m < 12 && 1 <= d <= MonthLength(y, m)
    ensures var doy := DaysBeforeMonth(y, m) + d - 1;
      && MakeDay(y, m, d) == DayFromYear(y) + doy
      && 0 <= doy < DaysInYear(y) && doy < DaysBeforeMonth(y, m + 1)
  {
    hide DayFromYear, IsLeap;
    DaysInTwelveMonths(y);
    MonthStartsIncrease(y, m + 1, 12);
    MonthStartsIncrease(y, 0, m);
  }

  lemma CivilOfMakeDay(y: int, m: int, d: int)
    requires 0 <= m < 12 && 1 <= d <= MonthLength(y, m)
    ensures Year(MakeDay(y, m, d)) == y
    ensures Month(MakeDay(y, m, d)) == m
    ensures DayOfMonth(MakeDay(y, m, d)) == d
  {
    WithinYear(y, m, d);
    hide DayFromYear, DaysBeforeMonth, MonthLength, DaysInYear, MakeDay;
    var n := MakeDay(y, m, d);
    YearStep(y);
    YearUnique(n, y);
    MonthUnique(y, DayOfYear(n), m, Month(n));
  }

  lemma CivilRoundTrip(n: int)
    ensures MakeDay(Year(n), Month(n), DayOfMonth(n)) == n
  {
    hide DaysBeforeMonth, MakeDay, MonthLength, DayFromYear;
    WithinYear(Year(n), Month(n), DayOfMonth(n));
  }
}
