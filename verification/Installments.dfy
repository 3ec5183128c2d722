/**
 The monthly due dates of a contract (installment-dates.helper.ts). Months are numbered through the
 years: month `p` is month `p % 12` of year `p / 12`.
 */
module Installments {
  import opened Calendar

  function Min(a: int, b: int): int {
    if a < b then a else b
  }

  function LengthOf(p: int): (days: int)
    ensures 28 <= days <= 31
  {
    MonthLength(p / 12, p % 12)
  }

  /** The due day, clamped to 30 and to the length of month `p`. */
  function DueDay(p: int, dueDay: int): int {
    Min(Min(dueDay, 30), LengthOf(p))
  }

  function DueDate(p: int, dueDay: int): int {
    MakeDay(p / 12, p % 12, DueDay(p, dueDay))
  }

  function MonthOf(n: int): int {
    12 * Year(n) + Month(n)
  }

  function FirstMonth(start: int, dueDay: int): int {
    if DueDate(MonthOf(start), dueDay) <= start then MonthOf(start) + 1 else MonthOf(start)
  }

  /** The schedule that is meant: one due date a month, from the first one after the start. */
  function Schedule(start: int, dueDay: int, n: nat): seq<int> {
    seq(n, i => DueDate(FirstMonth(start, dueDay) + i, dueDay))
  }

  // ---------- What the schedule is ----------

  function MonthStart(p: int): int {
    DayFromYear(p / 12) + DaysBeforeMonth(p / 12, p % 12)
  }

  lemma NextMonth(p: int)
    ensures MonthStart(p + 1) == MonthStart(p) + LengthOf(p)
  {
    if p % 12 == 11 {
      YearStep(p / 12);
      DaysInTwelveMonths(p / 12);
      assert (p + 1) / 12 == p / 12 + 1 && (p + 1) % 12 == 0;
    } else {
      assert (p + 1) / 12 == p / 12 && (p + 1) % 12 == p % 12 + 1;
    }
  }

  lemma FebruaryIsShort(p: int)
    ensures LengthOf(p) < 30 ==> LengthOf(p + 1) == 31
    ensures LengthOf(p + 1) < 30 ==> LengthOf(p) == 31
  {
  }

  /** Consecutive due dates are 28 to 31 days apart, over leap years and year ends alike. */
  lemma MonthlyGap(p: int, dueDay: int)
    requires 1 <= dueDay
    ensures 28 <= DueDate(p + 1, dueDay) - DueDate(p, dueDay) <= 31
  {
    NextMonth(p);
    FebruaryIsShort(p);
  }

  lemma DueDatesIncrease(p: int, q: int, dueDay: int)
    requires 1 <= dueDay && p < q
    ensures DueDate(p, dueDay) + 28 * (q - p) <= DueDate(q, dueDay)
    decreases q - p
  {
    MonthlyGap(q - 1, dueDay);
    if p + 1 < q {
      DueDatesIncrease(p, q - 1, dueDay);
    }
  }

  lemma StartInItsMonth(n: int)
    ensures MonthStart(MonthOf(n)) <= n < MonthStart(MonthOf(n) + 1)
    ensures MonthOf(n) / 12 == Year(n)
  {
    NextMonth(MonthOf(n));
    CivilRoundTrip(n);
  }

  // The start lies between the due dates of the months before and after its own.
  lemma BetweenDueDates(start: int, dueDay: int)
    requires 1 <= dueDay
    ensures var p := MonthOf(start);
      DueDate(p - 1, dueDay) <= start < DueDate(p + 1, dueDay) && DueDate(p, dueDay) <= start + 30
  {
    hide MonthLength, MonthOf, DayFromYear, DaysBeforeMonth;
    var p := MonthOf(start);
    StartInItsMonth(start);
    NextMonth(p);
    NextMonth(p - 1);
  }

  /** The first due date is the least one after the start, 1 to 31 days later. */
  lemma FirstIsLeastAfterStart(start: int, dueDay: int)
    requires 1 <= dueDay
    ensures var first := FirstMonth(start, dueDay);
      && start + 1 <= DueDate(first, dueDay) <= start + 31
      && (forall q :: start < DueDate(q, dueDay) ==> DueDate(first, dueDay) <= DueDate(q, dueDay))
  {
    hide DueDate, MonthOf;
    var p := MonthOf(start);
    var first := FirstMonth(start, dueDay);
    BetweenDueDates(start, dueDay);
    MonthlyGap(p, dueDay);
    MonthlyGap(p - 1, dueDay);
    forall q | start < DueDate(q, dueDay)
      ensures DueDate(first, dueDay) <= DueDate(q, dueDay)
    {
      if q < first {
        if q < first - 1 { DueDatesIncrease(q, first - 1, dueDay); }
      } else if first < q {
        DueDatesIncrease(first, q, dueDay);
      }
    }
  }

  /** Every date of the schedule is the clamped due day of its month, and the months are consecutive. */
  lemma ScheduleIsMonthly(start: int, dueDay: int, n: nat, i: nat)
    requires 1 <= dueDay && i < n
    ensures var d := Schedule(start, dueDay, n)[i];
      && MonthOf(d) == FirstMonth(start, dueDay) + i
      && DayOfMonth(d) <= dueDay && DayOfMonth(d) <= 30 && DayOfMonth(d) <= MonthLength(Year(d), Month(d))
      && (DayOfMonth(d) == dueDay || DayOfMonth(d) == 30 || DayOfMonth(d) == MonthLength(Year(d), Month(d)))
      && (i + 1 < n ==> 28 <= Schedule(start, dueDay, n)[i + 1] - d <= 31)
  {
    hide MakeDay, MonthLength, FirstMonth;
    var p := FirstMonth(start, dueDay) + i;
    CivilOfMakeDay(p / 12, p % 12, DueDay(p, dueDay));
    MonthlyGap(p, dueDay);
    assert FirstMonth(start, dueDay) + (i + 1) == p + 1;
  }

  // ---------- The code ----------

  function DateForMonth(year: int, month: int, targetDay: int): int
    requires 0 <= month < 12
  {
    var lastDay := DayOfMonth(NewDate(year, month + 1, 0));
    NewDate(year, month, Min(targetDay, lastDay))
  }

  /** The month a date of month `p` really falls in: years 0..99 are read as 1900..1999. */
  function MonthRead(p: int): int {
    if 0 <= p < 1200 then p + 22800 else p
  }

  lemma DateForMonthIs(p: int, dueDay: int)
    requires 1 <= dueDay
    ensures DateForMonth(p / 12, p % 12, Min(dueDay, 30)) == DueDate(MonthRead(p), dueDay)
  {
    var y, m := p / 12, p % 12;
    assert MonthRead(p) / 12 == FullYear(y) && MonthRead(p) % 12 == m;
    LastDayOf(FullYear(y), m);
  }

  lemma SplitMonth(y: int, m: int)
    requires 0 <= m < 12
    ensures (12 * y + m) / 12 == y && (12 * y + m) % 12 == m
  {
  }

  lemma LastDayOf(y: int, m: int)
    requires 0 <= m < 12
    ensures DayOfMonth(MakeDay(y, m + 1, 0)) == MonthLength(y, m)
  {
    hide MakeDay;
    DayBeforeNextMonth(y, m);
    CivilOfMakeDay(y, m, MonthLength(y, m));
  }

  // Day 0 of a month is the last day of the month before.
  lemma DayBeforeNextMonth(y: int, m: int)
    requires 0 <= m < 12
    ensures MakeDay(y, m + 1, 0) == MakeDay(y, m, MonthLength(y, m))
  {
    hide IsLeap, DaysBeforeMonth, DayFromYear;
    NextMonth(12 * y + m);
    SplitMonth(y, m);
    SplitMonth(y + (m + 1) / 12, (m + 1) % 12);
  }

  function ComputedFirst(start: int, dueDay: int): int {
    if DueDate(MonthRead(MonthOf(start)), dueDay) <= start then MonthOf(start) + 1 else MonthOf(start)
  }

  /** The dates the helper really returns. */
  function Computed(start: int, dueDay: int, n: nat): seq<int> {
    seq(n, i => DueDate(MonthRead(ComputedFirst(start, dueDay) + i), dueDay))
  }

  lemma ComputedAt(start: int, dueDay: int, n: nat, p: int)
    requires ComputedFirst(start, dueDay) <= p < ComputedFirst(start, dueDay) + n
    ensures Computed(start, dueDay, n)[p - ComputedFirst(start, dueDay)] == DueDate(MonthRead(p), dueDay)
  {
    assert ComputedFirst(start, dueDay) + (p - ComputedFirst(start, dueDay)) == p;
  }

  method GenerateInstallmentDates(startDate: int, dueDay: int, durationMonths: nat) returns (dates: seq<int>)
    requires 1 <= dueDay
    ensures dates == Computed(startDate, dueDay, durationMonths)
    ensures PlainYears(startDate, dueDay, durationMonths) ==> dates == Schedule(startDate, dueDay, durationMonths)
  {
    hide DueDate, DateForMonth, IsLeap;
    var clampedDueDay := Min(dueDay, 30);
    var year := Year(startDate);
    var month := Month(startDate);
    ghost var first := ComputedFirst(startDate, dueDay);
    StartInItsMonth(startDate);
    DateForMonthIs(MonthOf(startDate), dueDay);
    var candidate := DateForMonth(year, month, clampedDueDay);
    if candidate <= startDate {
      month := month + 1;
      if month > 11 {
        month := 0;
        year := year + 1;
      }
    }
    assert 12 * year + month == first;
    dates := [];
    var i := 0;
    while i < durationMonths
      invariant 0 <= i <= durationMonths
      invariant dates == Computed(startDate, dueDay, i)
    {
      var totalMonths := month + i;
      var y := year + totalMonths / 12;
      var m := totalMonths % 12;
      assert y == (first + i) / 12 && m == (first + i) % 12;
      DateForMonthIs(first + i, dueDay);
      dates := dates + [DateForMonth(y, m, clampedDueDay)];
      i := i + 1;
    }
    ScheduleIff(startDate, dueDay, durationMonths);
  }

  /** No date of the schedule is built in a year 0..99, nor is the one it is compared with. */
  predicate PlainYears(start: int, dueDay: int, n: nat) {
    n == 0 || 99 < Year(start) || (FirstMonth(start, dueDay) + n - 1) / 12 < 0
  }

  /** The helper returns the schedule that is meant exactly in plain years. */
  lemma ScheduleIff(start: int, dueDay: int, n: nat)
    requires 1 <= dueDay
    ensures Computed(start, dueDay, n) == Schedule(start, dueDay, n) <==> PlainYears(start, dueDay, n)
  {
    hide DueDate, MonthOf;
    var p := MonthOf(start);
    var first := FirstMonth(start, dueDay);
    StartInItsMonth(start);
    if n == 0 {
      assert Computed(start, dueDay, n) == [] == Schedule(start, dueDay, n);
    } else if 0 <= p < 1200 {
      FirstCentury(start, dueDay, n);
    } else if p < 0 <= first + n - 1 {
      JanuaryOfYearZero(start, dueDay, n, 0);
    } else {
      assert p <= first && ComputedFirst(start, dueDay) == first;
      forall i | 0 <= i < n
        ensures Computed(start, dueDay, n)[i] == Schedule(start, dueDay, n)[i]
      {
        assert MonthRead(first + i) == first + i;
      }
      assert Computed(start, dueDay, n) == Schedule(start, dueDay, n);
    }
  }

  // The first date lands in the 1900s.
  lemma FirstCentury(start: int, dueDay: int, n: nat)
    requires 1 <= dueDay && 0 <= MonthOf(start) < 1200 && 0 < n
    ensures Computed(start, dueDay, n) != Schedule(start, dueDay, n)
  {
    hide DueDate, MonthOf;
    var p := MonthOf(start);
    BetweenDueDates(start, dueDay);
    DueDatesIncrease(p + 1, p + 22800, dueDay);
    DueDatesIncrease(p, p + 1, dueDay);
    ComputedAt(start, dueDay, n, p);
    assert Schedule(start, dueDay, n)[0] == DueDate(FirstMonth(start, dueDay), dueDay);
  }

  // It lands in 1900.
  lemma JanuaryOfYearZero(start: int, dueDay: int, n: nat, p: int)
    requires 1 <= dueDay && p == 0
    requires FirstMonth(start, dueDay) == ComputedFirst(start, dueDay) <= p < FirstMonth(start, dueDay) + n
    ensures Computed(start, dueDay, n) != Schedule(start, dueDay, n)
  {
    hide MakeDay, LengthOf, MonthOf;
    var first := FirstMonth(start, dueDay);
    DueDatesIncrease(p, p + 22800, dueDay);
    ComputedAt(start, dueDay, n, p);
    assert first + (p - first) == p;
    assert Schedule(start, dueDay, n)[p - first] == DueDate(p, dueDay);
  }

  predicate Increasing(dates: seq<int>) {
    forall i, j :: 0 <= i < j < |dates| ==> dates[i] < dates[j]
  }

  /**
   The dates the helper returns increase strictly unless the contract runs from December 99 into
   January 100, the one place where the years it builds step back.
   */
  lemma IncreasingIff(start: int, dueDay: int, n: nat)
    requires 1 <= dueDay
    ensures Increasing(Computed(start, dueDay, n))
      <==> !(ComputedFirst(start, dueDay) <= 1199 && 1200 <= ComputedFirst(start, dueDay) + n - 1)
  {
    hide MakeDay, LengthOf, MonthOf, ComputedFirst;
    var first := ComputedFirst(start, dueDay);
    var dates := Computed(start, dueDay, n);
    if first <= 1199 && 1200 <= first + n - 1 {
      DueDatesIncrease(1200, 23999, dueDay);
      ComputedAt(start, dueDay, n, 1199);
      ComputedAt(start, dueDay, n, 1200);
      assert dates[1199 - first] > dates[1200 - first];
    } else {
      forall i, j | 0 <= i < j < n
        ensures dates[i] < dates[j]
      {
        DueDatesIncrease(MonthRead(first + i), MonthRead(first + j), dueDay);
      }
    }
  }
}
