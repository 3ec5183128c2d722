/**
 The week arithmetic of the weekly report (report-dispatches.service.ts): the ISO week number,
 the Monday of the last complete week, and the reported window.
 */
module IsoWeek {
  import opened Prelude
  import opened Calendar

  // ---------- The standard: section 2.2.10 of ISO 8601:2004 ----------

  /** `t` is the first Thursday of year `y`. */
  ghost predicate IsFirstThursday(t: int, y: int) {
    && WeekDay(t) == 4 && Year(t) == y
    && forall u :: WeekDay(u) == 4 && Year(u) == y ==> t <= u
  }

  /** The Monday that starts the week of day `n`. */
  function MondayOf(n: int): int {
    n - (n + 3) % 7
  }

  function ThursdayOf(n: int): int {
    MondayOf(n) + 3
  }

  /**
   Day `n` is in calendar week `w` of year `y`: week 1 holds the first Thursday of `y`, the others
   follow, and the last one precedes week 1 of the next year.
   */
  ghost predicate InWeek(n: int, y: int, w: int) {
    && 1 <= w
    && (exists t :: IsFirstThursday(t, y) && MondayOf(n) == MondayOf(t) + 7 * (w - 1))
    && (forall t :: IsFirstThursday(t, y + 1) ==> MondayOf(n) < MondayOf(t))
  }

  function FirstThursday(y: int): int {
    DayFromYear(y) + (-DayFromYear(y)) % 7
  }

  // Day 0 is a Thursday, so the Thursdays are the multiples of 7.
  lemma Thursdays(n: int)
    ensures WeekDay(n) == 4 <==> n % 7 == 0
    ensures ThursdayOf(n) % 7 == 0
    ensures n % 7 == 0 ==> ThursdayOf(n) == n
  {
  }

  lemma FirstThursdayIs(y: int)
    ensures IsFirstThursday(FirstThursday(y), y)
    ensures forall t :: IsFirstThursday(t, y) ==> t == FirstThursday(y)
    ensures ThursdayOf(FirstThursday(y)) == FirstThursday(y)
  {
    var f := FirstThursday(y);
    YearStep(y);
    YearUnique(f, y);
    forall u | WeekDay(u) == 4 && Year(u) == y
      ensures f <= u
    {
      assert u % 7 == 0 && f % 7 == 0 && f - u < 7;
    }
    assert f % 7 == 0;
  }

  // The same without quantifiers.
  lemma InWeekMeans(n: int, y: int, w: int)
    ensures InWeek(n, y, w) <==>
      1 <= w && ThursdayOf(n) == FirstThursday(y) + 7 * (w - 1) < FirstThursday(y + 1)
  {
    FirstThursdayIs(y);
    FirstThursdayIs(y + 1);
  }

  /** The week of a day, counted from the start of the year its Thursday lies in. */
  function WeekNumber(n: int): int {
    (ThursdayOf(n) - DayFromYear(Year(ThursdayOf(n)))) / 7 + 1
  }

  // Thursdays are 7 apart, so counting them from the start of the year counts the weeks.
  lemma ThursdayCount(t: int, start: int)
    requires t % 7 == 0 && start <= t
    ensures t == start + (-start) % 7 + 7 * ((t - start) / 7)
  {
  }

  // A Thursday comes before the first Thursday of the next year exactly when it is in an earlier year.
  lemma BeforeNextYear(t: int, y: int)
    requires t % 7 == 0
    ensures t < FirstThursday(y) <==> t < DayFromYear(y)
  {
  }

  lemma InWeekIff(n: int, y: int, w: int)
    ensures InWeek(n, y, w) <==> y == Year(ThursdayOf(n)) && w == WeekNumber(n)
  {
    var t := ThursdayOf(n);
    InWeekMeans(n, y, w);
    Thursdays(n);
    BeforeNextYear(t, y);
    BeforeNextYear(t, y + 1);
    if DayFromYear(y) <= t < DayFromYear(y + 1) {
      YearUnique(t, y);
      ThursdayCount(t, DayFromYear(y));
    }
  }

  /** The number is the one the standard assigns, in whatever year. */
  lemma WeekNumberIsIso(n: int)
    ensures exists y :: InWeek(n, y, WeekNumber(n))
    ensures forall y, w :: InWeek(n, y, w) ==> w == WeekNumber(n)
  {
    InWeekIff(n, Year(ThursdayOf(n)), WeekNumber(n));
    forall y, w | InWeek(n, y, w)
      ensures w == WeekNumber(n)
    {
      InWeekIff(n, y, w);
    }
  }

  /** A week has one number, and the next week's is one more, or 1 after week 52 or 53. */
  lemma WeeksAdvance(n: int)
    ensures 1 <= WeekNumber(n) <= 53
    ensures forall p :: MondayOf(n) <= p < MondayOf(n) + 7 ==> WeekNumber(p) == WeekNumber(n)
    ensures WeekNumber(n + 7) == WeekNumber(n) + 1
      || (WeekNumber(n + 7) == 1 && (WeekNumber(n) == 52 || WeekNumber(n) == 53))
  {
    var y := Year(ThursdayOf(n));
    YearStep(y);
    YearStep(y + 1);
    forall p | MondayOf(n) <= p < MondayOf(n) + 7
      ensures WeekNumber(p) == WeekNumber(n)
    {
      assert MondayOf(p) == MondayOf(n);
    }
    assert ThursdayOf(n + 7) == ThursdayOf(n) + 7;
    if ThursdayOf(n) + 7 < DayFromYear(y + 1) {
      YearUnique(ThursdayOf(n + 7), y);
    } else {
      YearUnique(ThursdayOf(n + 7), y + 1);
    }
  }

  // ---------- The code ----------

  /** The number the service computes, with the dates `Date.UTC` really builds. */
  function ComputedWeek(date: int): int {
    var thursday := ThursdayOf(NewDate(Year(date), Month(date), DayOfMonth(date)));
    (thursday - NewDate(Year(thursday), 0, 1)) / 7 + 1
  }

  lemma SetDateShifts(n: int, k: int)
    ensures SetDate(n, DayOfMonth(n) + k) == n + k
  {
    CivilRoundTrip(n);
  }

  lemma ToThursday(n: int)
    ensures n + 4 - (if WeekDay(n) == 0 then 7 else WeekDay(n)) == ThursdayOf(n)
  {
  }

  lemma CeilOfDays(x: int)
    ensures CeilDiv(x + 1, 7) == x / 7 + 1
  {
  }

  method GetIsoWeekNumber(date: int) returns (week: int)
    ensures week == ComputedWeek(date)
    ensures PlainYear(Year(date)) && PlainYear(Year(ThursdayOf(date)))
      ==> exists y :: InWeek(date, y, week)
  {
    var d := NewDate(Year(date), Month(date), DayOfMonth(date));
    var day := if WeekDay(d) == 0 then 7 else WeekDay(d);
    ToThursday(d);
    SetDateShifts(d, 4 - day);
    d := SetDate(d, DayOfMonth(d) + (4 - day));
    var yearStart := NewDate(Year(d), 0, 1);
    CeilOfDays(d - yearStart);
    week := CeilDiv(d - yearStart + 1, 7);
    ComputedIsIso(date);
  }

  /** `Date.UTC` takes the year as it is. */
  predicate PlainYear(y: int) {
    y < 0 || 99 < y
  }

  lemma ComputedInPlainYears(n: int)
    requires PlainYear(Year(n)) && PlainYear(Year(ThursdayOf(n)))
    ensures ComputedWeek(n) == WeekNumber(n)
  {
    CivilRoundTrip(n);
  }

  lemma ComputedIsIso(n: int)
    ensures PlainYear(Year(n)) && PlainYear(Year(ThursdayOf(n)))
      ==> exists y :: InWeek(n, y, ComputedWeek(n))
  {
    if PlainYear(Year(n)) && PlainYear(Year(ThursdayOf(n))) {
      ComputedInPlainYears(n);
      WeekNumberIsIso(n);
    }
  }

  // In the years 1..99 the rebuilt date lies 1900 years, and one week day, further.
  const SHIFT := 693960

  lemma RebuiltInFirstCentury(n: int)
    requires 1 <= Year(n) <= 99
    ensures NewDate(Year(n), Month(n), DayOfMonth(n)) == n + SHIFT
    ensures DayFromYear(1900 + Year(n)) == DayFromYear(Year(n)) + SHIFT
    ensures DayFromYear(1901 + Year(n)) == DayFromYear(Year(n) + 1) + SHIFT
  {
    var y := Year(n);
    CenturiesApart(y);
    YearStep(y);
    YearStep(1900 + y);
    RebuiltIn(1900 + y, y, Month(n), DayOfMonth(n));
    CivilRoundTrip(n);
  }

  lemma RebuiltIn(z: int, y: int, m: int, d: int)
    requires 0 <= m < 12 && IsLeap(y) == IsLeap(z)
    ensures MakeDay(z, m, d) == MakeDay(y, m, d) + DayFromYear(z) - DayFromYear(y)
  {
    hide IsLeap, DayFromYear, DaysBeforeMonth;
    SameLengths(y, z, m);
  }

  lemma CenturiesApart(y: int)
    requires 1 <= y <= 99
    ensures IsLeap(1900 + y) == IsLeap(y)
    ensures DayFromYear(1900 + y) == DayFromYear(y) + SHIFT
  {
    var z := 1900 + y;
    SameLeap(y, z);
    DayFromYearClosed(y);
    DayFromYearClosed(z);
    hide DayFromYear;
    QuotientsApart(y, z);
  }

  lemma SameLeap(y: int, z: int)
    requires 1 <= y <= 99 && z == 1900 + y
    ensures IsLeap(z) == IsLeap(y)
  {
    assert y % 100 != 0 && z % 100 != 0;
    assert z % 4 == y % 4;
  }

  lemma QuotientsApart(y: int, z: int)
    requires 1 <= y <= 99 && z == 1900 + y
    ensures (z - 1969) / 4 == (y - 1969) / 4 + 475
    ensures (z - 1901) / 100 == (y - 1901) / 100 + 19
    ensures (z - 1601) / 400 == (y - 1601) / 400 + 4
  {
  }

  lemma SameLengths(y: int, z: int, m: int)
    requires 0 <= m <= 12 && IsLeap(y) == IsLeap(z)
    ensures DaysBeforeMonth(y, m) == DaysBeforeMonth(z, m)
  {
  }

  /**
   Which weeks the service numbers right: all seven days get the number of the standard exactly when
   the week does not touch the years 0..99.
   */
  lemma RightOnTheWholeWeek(monday: int)
    requires WeekDay(monday) == 1
    ensures (forall n :: monday <= n < monday + 7 ==> ComputedWeek(n) == WeekNumber(n))
      <==> PlainYear(Year(monday)) && PlainYear(Year(monday + 6))
  {
    YearsOfWeek(monday, 3);
    if PlainYear(Year(monday)) && PlainYear(Year(monday + 6)) {
      PlainWeek(monday);
    } else if 1 <= Year(monday + 3) <= 99 {
      FirstCenturyWeek(monday);
    } else if Year(monday + 3) == 0 {
      YearZeroWeek(monday);
    } else if Year(monday + 3) < 0 {
      YearMinusOneWeek(monday);
    } else {
      YearHundredStarts(monday, 100);
    }
  }

  lemma PlainWeek(monday: int)
    requires WeekDay(monday) == 1
    requires PlainYear(Year(monday)) && PlainYear(Year(monday + 6))
    ensures forall n :: monday <= n < monday + 7 ==> ComputedWeek(n) == WeekNumber(n)
  {
    YearsOfWeek(monday, 3);
    forall n | monday <= n < monday + 7
      ensures ComputedWeek(n) == WeekNumber(n)
    {
      YearsOfWeek(monday, n - monday);
      SameThursday(monday, n);
      ComputedInPlainYears(n);
    }
  }

  lemma SameThursday(monday: int, n: int)
    requires WeekDay(monday) == 1 && monday <= n < monday + 7
    ensures ThursdayOf(n) == monday + 3
  {
  }

  // Year 100 starts on a Friday, so no week reaches from year 99 to a Thursday of year 100.
  lemma YearHundredStarts(monday: int, y: int)
    requires WeekDay(monday) == 1 && Year(monday) <= 99 && y == 100
    ensures Year(monday + 3) <= 99
  {
    DayFromYearClosed(y);
    if y <= Year(monday + 3) {
      if y < Year(monday + 3) { YearStartsIncrease(y, Year(monday + 3)); }
      if Year(monday) + 1 < y { YearStartsIncrease(Year(monday) + 1, y); }
    }
  }

  lemma YearsOfWeek(monday: int, k: int)
    requires 0 <= k < 7
    ensures Year(monday) <= Year(monday + k) <= Year(monday + 6) <= Year(monday) + 1
  {
    var y := Year(monday);
    YearStep(y);
    YearStep(y + 1);
    if monday + k < DayFromYear(y + 1) { YearUnique(monday + k, y); } else { YearUnique(monday + k, y + 1); }
    if monday + 6 < DayFromYear(y + 1) { YearUnique(monday + 6, y); } else { YearUnique(monday + 6, y + 1); }
  }

  lemma FirstCenturyWeek(monday: int)
    requires WeekDay(monday) == 1 && 1 <= Year(monday + 3) <= 99
    ensures exists n :: monday <= n < monday + 7 && ComputedWeek(n) != WeekNumber(n)
  {
    var t := monday + 3;
    if (t - DayFromYear(Year(t))) % 7 == 0 {
      FirstCenturyThursday(t);
    } else {
      FirstCenturySunday(t);
    }
  }

  // Where the rebuilt Thursday and Sunday of a week find their Thursday.
  lemma ShiftedThursdays(t: int)
    requires t % 7 == 0
    ensures ThursdayOf(t) == ThursdayOf(t + 3) == t
    ensures ThursdayOf(t + SHIFT) == t - 1 + SHIFT
    ensures ThursdayOf(t + 3 + SHIFT) == t + 6 + SHIFT
  {
    assert SHIFT % 7 == 1;
  }

  lemma FirstCenturyThursday(t: int)
    requires t % 7 == 0 && 1 <= Year(t) <= 99 && (t - DayFromYear(Year(t))) % 7 == 0
    ensures ComputedWeek(t) != WeekNumber(t)
  {
    var y := Year(t);
    RebuiltInFirstCentury(t);
    ShiftedThursdays(t);
    YearStep(1899 + y);
    YearUnique(t - 1 + SHIFT, if t == DayFromYear(y) then 1899 + y else 1900 + y);
  }

  lemma FirstCenturySunday(t: int)
    requires t % 7 == 0 && 1 <= Year(t) <= 99 && (t - DayFromYear(Year(t))) % 7 != 0
    ensures ComputedWeek(t + 3) != WeekNumber(t + 3)
  {
    hide DayFromYear, MakeDay, NewDate, IsLeap;
    var y := Year(t);
    YearStep(y);
    RebuiltInFirstCentury(t);
    SundayRebuilt(t);
    ShiftedThursdays(t);
    YearStep(1901 + y);
    ComputedFrom(t + 3, t + 6 + SHIFT, if t + 6 < DayFromYear(y + 1) then 1900 + y else 1901 + y);
    SixDaysLater(t - DayFromYear(y));
  }

  lemma SixDaysLater(a: int)
    requires a % 7 != 0
    ensures (a + 6) / 7 == a / 7 + 1
    ensures 359 <= a ==> a / 7 >= 51
  {
  }

  lemma SundayRebuilt(t: int)
    requires t % 7 == 0 && 1 <= Year(t) <= 99 && (t - DayFromYear(Year(t))) % 7 != 0
    ensures NewDate(Year(t + 3), Month(t + 3), DayOfMonth(t + 3)) == t + 3 + SHIFT
  {
    var y := Year(t);
    YearStep(y + 1);
    YearUnique(t + 3, if t + 3 < DayFromYear(y + 1) then y else y + 1);
    if y == 99 && DayFromYear(y + 1) <= t + 3 { EndOfFirstCentury(t); }
    RebuiltInFirstCentury(t + 3);
  }

  // 31 December 99 is a Thursday, 364 days into its year.
  lemma EndOfFirstCentury(t: int)
    requires t % 7 == 0 && Year(t) == 99 && DayFromYear(Year(t) + 1) <= t + 3
    ensures (t - DayFromYear(Year(t))) % 7 == 0
  {
    DayFromYearClosed(Year(t));
    DayFromYearClosed(Year(t) + 1);
    LastThursday(t);
  }

  lemma LastThursday(t: int)
    requires t % 7 == 0 && -683006 <= t < -683003
    ensures t == -683004
  {
  }

  lemma LeapYearAgainstCommon(y: int, z: int, m: int)
    requires 0 <= m <= 12 && IsLeap(y) && !IsLeap(z)
    ensures DaysBeforeMonth(y, m) == DaysBeforeMonth(z, m) + (if 2 <= m then 1 else 0)
  {
  }

  lemma FebruaryEnds(y: int, m: int, doy: int)
    requires IsLeap(y) && 0 <= m < 12 && DaysBeforeMonth(y, m) <= doy < DaysBeforeMonth(y, m + 1)
    ensures m < 2 <==> doy < 60
  {
    assert DaysBeforeMonth(y, 1) == 31;
    assert DaysBeforeMonth(y, 2) == 60;
    if 2 <= m { MonthStartsIncrease(y, 2, m); } else { MonthStartsIncrease(y, m + 1, 2); }
  }

  lemma RebuiltInYearZero(n: int)
    requires Year(n) == 0
    ensures NewDate(Year(n), Month(n), DayOfMonth(n))
      == DayFromYear(1900 + Year(n)) + DayOfYear(n) - (if DayOfYear(n) < 60 then 0 else 1)
  {
    RebuiltInCommonYear(1900 + Year(n), Year(n), Month(n), DayOfMonth(n));
    FebruaryEnds(Year(n), Month(n), DayOfYear(n));
    hide DayFromYear, DaysBeforeMonth, IsLeap;
  }

  lemma RebuiltInCommonYear(z: int, y: int, m: int, d: int)
    requires 0 <= m < 12 && IsLeap(y) && !IsLeap(z)
    ensures MakeDay(z, m, d) == DayFromYear(z) + DaysBeforeMonth(y, m) + d - 1 - (if 2 <= m then 1 else 0)
  {
    LeapYearAgainstCommon(y, z, m);
  }

  // Year 0 starts on a Saturday and 1900 on a Monday.
  lemma YearZeroBounds(y: int)
    requires y == 0
    ensures DayFromYear(y) == -719528 && DayFromYear(y + 1) == -719162
    ensures DayFromYear(1900 + y) == -25567 && DayFromYear(1901 + y) == -25202
    ensures DayFromYear(1902 + y) == -24837
  {
    hide DayFromYear;
    DayFromYearClosed(y);
    YearStep(y);
    DayFromYearClosed(1900 + y);
    YearStep(1900 + y);
    YearStep(1901 + y);
  }

  lemma ComputedFrom(n: int, t: int, y: int)
    requires ThursdayOf(NewDate(Year(n), Month(n), DayOfMonth(n))) == t
    requires DayFromYear(y) <= t < DayFromYear(y + 1) && 100 <= y
    ensures ComputedWeek(n) == (t - DayFromYear(y)) / 7 + 1
  {
    YearUnique(t, y);
  }

  // Year 0 is a leap year, so its Sundays are rebuilt as Tuesdays until February and then as Mondays.
  lemma YearZeroSunday(n: int)
    requires Year(n) == 0 && DayOfYear(n) % 7 == 1
    ensures ComputedWeek(n) == if DayOfYear(n) < 363 then (DayOfYear(n) + 2) / 7 + 1 else 1
  {
    hide DayFromYear, DaysBeforeMonth, IsLeap, MakeDay;
    var y := Year(n);
    YearZeroBounds(y);
    RebuiltInYearZero(n);
    var doy := DayOfYear(n);
    var t := YearZeroThursday(doy, NewDate(y, Month(n), DayOfMonth(n)));
    if doy < 363 {
      ComputedFrom(n, t, 1900 + y);
    } else {
      FiveDaysOn(doy);
      ComputedFrom(n, t, 1901 + y);
    }
  }

  lemma YearZeroThursday(doy: int, rebuilt: int) returns (t: int)
    requires doy % 7 == 1
    requires rebuilt == -25567 + doy - (if doy < 60 then 0 else 1)
    ensures t == ThursdayOf(rebuilt) == -25567 + doy + 2
  {
    t := -25567 + doy + 2;
  }

  lemma YearZeroWeek(monday: int)
    requires WeekDay(monday) == 1 && Year(monday + 3) == 0
    ensures ComputedWeek(monday + 6) != WeekNumber(monday + 6)
  {
    hide DayFromYear, IsLeap, ComputedWeek;
    var n := monday + 6;
    var y := Year(monday + 3);
    YearZeroBounds(y);
    SundaysOfYearZero(n);
    YearUnique(n, y);
    SameThursday(monday, n);
    YearZeroSunday(n);
    FiveDaysOn(DayOfYear(n));
  }

  lemma SundaysOfYearZero(n: int)
    requires (n + 4) % 7 == 0 && -719528 <= n - 3 < -719162
    ensures -719528 <= n < -719162
    ensures (n + 719528) % 7 == 1
  {
  }

  lemma FiveDaysOn(doy: int)
    requires doy % 7 == 1
    ensures (doy + 2) / 7 == (doy - 3) / 7 + 1
    ensures 363 <= doy ==> (doy - 3) / 7 >= 51
    ensures 363 <= doy <= 365 ==> doy == 365
  {
  }

  lemma YearMinusOneWeek(monday: int)
    requires WeekDay(monday) == 1 && Year(monday + 3) < 0 && Year(monday + 6) == 0
    ensures ComputedWeek(monday + 6) != WeekNumber(monday + 6)
  {
    var y := Year(monday + 6);
    YearZeroBounds(y);
    BeforeYear(monday + 3, y);
    NewYearSunday(monday);
    YearZeroSunday(monday + 6);
    SameThursday(monday, monday + 6);
    DayFromYearClosed(y - 1);
    YearUnique(monday + 3, y - 1);
  }

  lemma NewYearSunday(monday: int)
    requires WeekDay(monday) == 1 && monday + 3 < -719528 <= monday + 6
    ensures monday + 6 == -719527
  {
  }

  lemma BeforeYear(n: int, y: int)
    requires Year(n) < y
    ensures n < DayFromYear(y)
  {
    if Year(n) + 1 < y { YearStartsIncrease(Year(n) + 1, y); }
  }

  // ---------- The reported window ----------

  /** The Monday of the last complete week before `now`. */
  method GetLastMonday(now: int) returns (monday: int)
    ensures monday == MondayOf(now) - 7
  {
    var day := WeekDay(now);
    var diff := if day == 0 then 6 else day - 1;
    SetDateShifts(now, -diff - 7);
    monday := SetDate(now, DayOfMonth(now) - diff - 7);
  }

  /** Days reported for a week that starts at `weekStart`: `since` to `until`, both included. */
  predicate Reported(weekStart: int, n: int) {
    weekStart <= n <= weekStart + 6
  }

  /**
   The report names one week number for seven days. All of them have that number exactly when the
   window starts on a Monday, as it does when no start is given; a start given by the caller is not
   checked.
   */
  lemma WindowIsOneWeek(weekStart: int)
    ensures (forall n :: Reported(weekStart, n) ==> WeekNumber(n) == WeekNumber(weekStart))
      <==> WeekDay(weekStart) == 1
  {
    if WeekDay(weekStart) == 1 {
      forall n | Reported(weekStart, n)
        ensures WeekNumber(n) == WeekNumber(weekStart)
      {
        SameThursday(weekStart, n);
        SameThursday(weekStart, weekStart);
      }
    } else {
      WeeksAdvance(weekStart);
      var next := NextMonday(weekStart);
      assert WeekNumber(next) == WeekNumber(weekStart + 7) != WeekNumber(weekStart);
    }
  }

  lemma NextMonday(n: int) returns (next: int)
    requires WeekDay(n) != 1
    ensures Reported(n, next) && ThursdayOf(next) == ThursdayOf(n + 7)
  {
    next := MondayOf(n) + 7;
  }

  lemma WeekSpan(n: int, p: int)
    ensures MondayOf(n - 7) == MondayOf(n) - 7
    ensures WeekDay(MondayOf(n)) == 1 && MondayOf(n) <= n <= MondayOf(n) + 6
    ensures MondayOf(p) == MondayOf(n) <==> Reported(MondayOf(n), p)
  {
  }

  /** The default window is the week before the one of `now`: complete, past, and of one number. */
  lemma DefaultWindow(now: int)
    ensures var monday := MondayOf(now) - 7;
      && WeekDay(monday) == 1
      && (forall n :: Reported(monday, n) <==> MondayOf(n) == MondayOf(now - 7))
      && (forall n :: Reported(monday, n) ==> n < now && WeekNumber(n) == WeekNumber(now - 7))
  {
    forall n
      ensures Reported(MondayOf(now) - 7, n) <==> MondayOf(n) == MondayOf(now - 7)
    {
      WeekSpan(now - 7, n);
      WeekSpan(now, n);
    }
    WeekSpan(now, now);
    WeekSpan(now - 7, now);
  }
}
