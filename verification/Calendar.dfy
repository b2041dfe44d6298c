/** The proleptic Gregorian calendar in UTC, as Go's time package presents it.

    An instant is a whole number of seconds since 1 January of year 1, 00:00:00, which is the
    zero of Go's time.Time.  Two independent definitions of the calendar are given: `CivilDate`
    steps an odometer of dates one day at a time, and `DayNumber` counts the days of whole years and
    months (the closed leap-year formula).  They are proved inverse to each other. */
module Calendar {
  import opened Ints

  datatype Date = Date(year: nat, month: nat, day: nat) {
    predicate Valid() {
      1 <= year && 1 <= month <= 12 && 1 <= day <= DaysIn(year, month)
    }
  }

  predicate IsLeap(year: nat) {
    year % 4 == 0 && (year % 100 != 0 || year % 400 == 0)
  }

  function DaysIn(year: nat, month: nat): nat
    requires 1 <= month <= 12
  {
    if month == 2 then (if IsLeap(year) then 29 else 28)
    else if month in {4, 6, 9, 11} then 30
    else 31
  }

  function NextDate(d: Date): Date
    requires d.Valid()
  {
    if d.day < DaysIn(d.year, d.month) then Date(d.year, d.month, d.day + 1)
    else if d.month < 12 then Date(d.year, d.month + 1, 1)
    else Date(d.year + 1, 1, 1)
  }

  /** The date `n` days after 1 January of year 1. */
  function CivilDate(n: nat): (d: Date)
    ensures d.Valid()
  {
    if n == 0 then Date(1, 1, 1) else NextDate(CivilDate(n - 1))
  }

  function DaysBeforeYear(year: nat): nat
    requires 1 <= year
  {
    if year == 1 then 0 else DaysBeforeYear(year - 1) + DaysBeforeMonth(year - 1, 13)
  }

  function DaysBeforeMonth(year: nat, month: nat): nat
    requires 1 <= month <= 13
  {
    if month == 1 then 0 else DaysBeforeMonth(year, month - 1) + DaysIn(year, month - 1)
  }

  function DayNumber(d: Date): nat
    requires 1 <= d.year && 1 <= d.month <= 12 && 1 <= d.day
  {
    DaysBeforeYear(d.year) + DaysBeforeMonth(d.year, d.month) + d.day - 1
  }

  /** On which day of the year each month begins, counted from 0. */
  lemma MonthOffsets(year: nat)
    ensures var leap := if IsLeap(year) then 1 else 0;
            && DaysBeforeMonth(year, 1) == 0 && DaysBeforeMonth(year, 2) == 31
            && DaysBeforeMonth(year, 3) == 59 + leap && DaysBeforeMonth(year, 4) == 90 + leap
            && DaysBeforeMonth(year, 5) == 120 + leap && DaysBeforeMonth(year, 6) == 151 + leap
            && DaysBeforeMonth(year, 7) == 181 + leap && DaysBeforeMonth(year, 8) == 212 + leap
            && DaysBeforeMonth(year, 9) == 243 + leap && DaysBeforeMonth(year, 10) == 273 + leap
            && DaysBeforeMonth(year, 11) == 304 + leap && DaysBeforeMonth(year, 12) == 334 + leap
            && DaysBeforeMonth(year, 13) == 365 + leap
  {
    assert DaysBeforeMonth(year, 2) == 31 && DaysBeforeMonth(year, 3) == 31 + DaysIn(year, 2);
    assert DaysBeforeMonth(year, 5) == DaysBeforeMonth(year, 3) + 61;
    assert DaysBeforeMonth(year, 7) == DaysBeforeMonth(year, 5) + 61;
    assert DaysBeforeMonth(year, 9) == DaysBeforeMonth(year, 7) + 62;
    assert DaysBeforeMonth(year, 11) == DaysBeforeMonth(year, 9) + 61;
  }

  lemma YearLength(year: nat)
    ensures DaysBeforeMonth(year, 13) == if IsLeap(year) then 366 else 365
  {
    MonthOffsets(year);
  }

  function LeapDaysBefore(year: nat): int
    requires 1 <= year
  {
    (year - 1) / 4 - (year - 1) / 100 + (year - 1) / 400
  }

  lemma LeapDaysStep(year: nat)
    requires 1 <= year
    ensures LeapDaysBefore(year + 1) == LeapDaysBefore(year) + if IsLeap(year) then 1 else 0
  {
    Fourths(year);
    Hundredths(year);
    FourHundredths(year);
    CenturiesAreFourths(year);
  }

  /** Dividing by m, the next number keeps the quotient or starts the next one. */
  lemma NextQuotient(year: nat, m: nat, q: nat, r: nat)
    requires 1 <= year && 0 < m && q == (year - 1) / m && r == (year - 1) % m
    ensures if r + 1 == m then year / m == q + 1 && year % m == 0 else year / m == q && year % m == r + 1
  {
    assert year - 1 == m * q + r;
    if r + 1 == m {
      assert m * (q + 1) == m * q + m;
      Quotient(year, m, q + 1, 0);
    } else {
      Quotient(year, m, q, r + 1);
    }
  }

  lemma Fourths(year: nat)
    requires 1 <= year
    ensures year / 4 == (year - 1) / 4 + if year % 4 == 0 then 1 else 0
  {
    NextQuotient(year, 4, (year - 1) / 4, (year - 1) % 4);
  }

  lemma Hundredths(year: nat)
    requires 1 <= year
    ensures year / 100 == (year - 1) / 100 + if year % 100 == 0 then 1 else 0
  {
    NextQuotient(year, 100, (year - 1) / 100, (year - 1) % 100);
  }

  lemma FourHundredths(year: nat)
    requires 1 <= year
    ensures year / 400 == (year - 1) / 400 + if year % 400 == 0 then 1 else 0
  {
    NextQuotient(year, 400, (year - 1) / 400, (year - 1) % 400);
  }

  lemma CenturiesAreFourths(year: nat)
    ensures year % 100 == 0 ==> year % 4 == 0
    ensures year % 400 == 0 ==> year % 100 == 0
  {
    var q, q' := year / 100, year / 400;
    if year % 100 == 0 {
      assert year == 100 * q;
      Quotient(year, 4, 25 * q, 0);
    }
    if year % 400 == 0 {
      assert year == 400 * q';
      Quotient(year, 100, 4 * q', 0);
    }
  }

  lemma YearStep(year: nat)
    requires 1 <= year
    ensures DaysBeforeMonth(year, 13) == 365 + LeapDaysBefore(year + 1) - LeapDaysBefore(year)
  {
    YearLength(year);
    LeapDaysStep(year);
  }

  /** The closed leap-year formula. */
  lemma {:induction false} LeapYearFormula(year: nat)
    requires 1 <= year
    ensures DaysBeforeYear(year) == 365 * (year - 1) + LeapDaysBefore(year)
  {
    if year > 1 {
      LeapYearFormula(year - 1);
      YearStep(year - 1);
    }
  }

  lemma {:induction false} DaysBeforeYearMonotone(a: nat, b: nat)
    requires 1 <= a <= b
    ensures DaysBeforeYear(a) <= DaysBeforeYear(b)
    decreases b
  {
    if a < b {
      DaysBeforeYearMonotone(a, b - 1);
    }
  }

  /** The odometer step adds exactly one to the closed formula. */
  lemma NextDateCountsOne(d: Date)
    requires d.Valid()
    ensures DayNumber(NextDate(d)) == DayNumber(d) + 1
  {}

  lemma {:induction false} DayNumberOfCivilDate(n: nat)
    ensures DayNumber(CivilDate(n)) == n
  {
    if n > 0 {
      DayNumberOfCivilDate(n - 1);
      NextDateCountsOne(CivilDate(n - 1));
    }
  }

  function PreviousDate(d: Date): (p: Date)
    requires d.Valid() && d != Date(1, 1, 1)
    ensures p.Valid() && NextDate(p) == d
  {
    if d.day > 1 then Date(d.year, d.month, d.day - 1)
    else if d.month > 1 then Date(d.year, d.month - 1, DaysIn(d.year, d.month - 1))
    else Date(d.year - 1, 12, 31)
  }

  /** The leap-year formula and the odometer are inverse on every valid date. */
  lemma {:induction false} CivilDateOfDayNumber(d: Date)
    requires d.Valid()
    ensures CivilDate(DayNumber(d)) == d
    decreases DayNumber(d)
  {
    if d != Date(1, 1, 1) {
      var p := PreviousDate(d);
      NextDateCountsOne(p);
      CivilDateOfDayNumber(p);
    }
  }

  // The clock: whole minutes, hours and days since the zero instant

  function MinuteNo(t: nat): nat { t / 60 }
  function HourNo(t: nat): nat { MinuteNo(t) / 60 }
  function DayNo(t: nat): nat { HourNo(t) / 24 }

  function Compose(day: nat, hour: nat, minute: nat, second: nat): nat {
    ((day * 24 + hour) * 60 + minute) * 60 + second
  }

  lemma Decompose(t: nat)
    ensures t == Compose(DayNo(t), Hour(t), Minute(t), Second(t))
  {}

  lemma ComposedFields(day: nat, hour: nat, minute: nat, second: nat)
    requires hour < 24 && minute < 60 && second < 60
    ensures var t := Compose(day, hour, minute, second);
            DayNo(t) == day && Hour(t) == hour && Minute(t) == minute && Second(t) == second
  {
    var m := (day * 24 + hour) * 60 + minute;
    assert (m * 60 + second) / 60 == m;
    assert m / 60 == day * 24 + hour;
  }

  // The fields of an instant

  function Year(t: nat): nat { CivilDate(DayNo(t)).year }
  function Month(t: nat): nat { CivilDate(DayNo(t)).month }
  function Day(t: nat): nat { CivilDate(DayNo(t)).day }
  function Hour(t: nat): nat { HourNo(t) % 24 }
  function Minute(t: nat): nat { MinuteNo(t) % 60 }
  function Second(t: nat): nat { t % 60 }

  /** Sunday is 0.  1 January of year 1 was a Monday. */
  function Weekday(t: nat): nat { (DayNo(t) + 1) % 7 }

  lemma SameDate(t: nat, s: nat)
    requires DayNo(t) == DayNo(s)
    ensures Year(t) == Year(s) && Month(t) == Month(s) && Day(t) == Day(s) && Weekday(t) == Weekday(s)
  {}

  /** The days before a 1 January, by the closed formula. */
  lemma NewYearsDayNo(t: nat, year: nat)
    requires 1 <= year && CivilDate(DayNo(t)) == Date(year, 1, 1)
    ensures DayNo(t) == 365 * (year - 1) + LeapDaysBefore(year)
  {
    DayNumberOfCivilDate(DayNo(t));
    LeapYearFormula(year);
  }

  /** 1 January 2000 was a Saturday. */
  lemma KnownWeekday(t: nat, year: nat)
    requires year == 2000 && CivilDate(DayNo(t)) == Date(year, 1, 1)
    ensures Weekday(t) == 6
  {
    NewYearsDayNo(t, year);
    assert LeapDaysBefore(2000) == 499 - 19 + 4;
    WeekdayFromDayNo(t);
  }

  lemma WeekdayFromDayNo(t: nat)
    requires DayNo(t) == 730119
    ensures Weekday(t) == 6
  {}

  predicate StartsMinute(t: nat) { Second(t) == 0 }
  predicate StartsHour(t: nat) { StartsMinute(t) && Minute(t) == 0 }
  predicate StartsDay(t: nat) { StartsHour(t) && Hour(t) == 0 }
  predicate StartsMonth(t: nat) { StartsDay(t) && Day(t) == 1 }

  function FirstOf(year: nat, month: nat): (d: Date)
    requires 1 <= year && 1 <= month <= 13
    ensures d.Valid() && d.day == 1
  {
    if month == 13 then Date(year + 1, 1, 1) else Date(year, month, 1)
  }

  /** time.Date for a month from 1 to 13 and any day from 1 on: an excess month rolls into the
      next year and excess days roll into the following months. */
  function Instant(year: nat, month: nat, day: nat, hour: nat, minute: nat, second: nat): nat
    requires 1 <= year && 1 <= month <= 13 && 1 <= day
  {
    Compose(DayNumber(FirstOf(year, month)) + day - 1, hour, minute, second)
  }

  /** t.AddDate(0, months, days) for the two steps in use. */
  function AddMonth(t: nat): nat { Instant(Year(t), Month(t) + 1, Day(t), Hour(t), Minute(t), Second(t)) }
  function AddDay(t: nat): nat { Instant(Year(t), Month(t), Day(t) + 1, Hour(t), Minute(t), Second(t)) }

  /** Every valid date and time of day is the date and time of exactly the instant time.Date
      gives for it. */
  lemma InstantFields(d: Date, hour: nat, minute: nat, second: nat)
    requires d.Valid() && hour < 24 && minute < 60 && second < 60
    ensures var t := Instant(d.year, d.month, d.day, hour, minute, second);
            CivilDate(DayNo(t)) == d && Hour(t) == hour && Minute(t) == minute && Second(t) == second
  {
    CivilDateOfDayNumber(d);
    ComposedFields(DayNumber(d), hour, minute, second);
  }

  lemma InstantOfFields(t: nat)
    ensures Instant(Year(t), Month(t), Day(t), Hour(t), Minute(t), Second(t)) == t
  {
    DayNumberOfCivilDate(DayNo(t));
    Decompose(t);
  }

  // The next minute, hour, day and month

  function Truncate(t: nat, unit: nat): nat
    requires unit > 0
  {
    t - t % unit
  }

  lemma NextMinute(t: nat)
    ensures var next := Truncate(t, 60) + 60;
            t < next && MinuteNo(next) == MinuteNo(t) + 1 && StartsMinute(next)
            && forall s | t <= s < next :: MinuteNo(s) == MinuteNo(t)
  {}

  lemma HourRemainder(t: nat)
    ensures t % 3600 == Minute(t) * 60 + Second(t)
  {}

  lemma NextHour(t: nat)
    ensures var next := Truncate(t, 3600) + 3600;
            t < next && HourNo(next) == HourNo(t) + 1 && StartsHour(next)
            && forall s | t <= s < next :: HourNo(s) == HourNo(t)
  {
    HourRemainder(t);
    assert Truncate(t, 3600) + 3600 == (HourNo(t) + 1) * 60 * 60;
  }

  lemma NextDay(t: nat)
    ensures AddDay(Compose(DayNo(t), 0, 0, 0)) == Compose(DayNo(t) + 1, 0, 0, 0)
    ensures var next := Compose(DayNo(t) + 1, 0, 0, 0);
            t < next && DayNo(next) == DayNo(t) + 1 && StartsDay(next)
            && forall s | t <= s < next :: DayNo(s) == DayNo(t)
  {
    ComposedFields(DayNo(t), 0, 0, 0);
    ComposedFields(DayNo(t) + 1, 0, 0, 0);
    DayNumberOfCivilDate(DayNo(t));
  }

  /** The following day is in the same month or is the first of the next. */
  lemma DayAfter(n: nat)
    ensures CivilDate(n + 1).day == 1 || (CivilDate(n + 1).year == CivilDate(n).year &&
        CivilDate(n + 1).month == CivilDate(n).month)
  {}

  function StartOfMonth(t: nat): nat { Instant(Year(t), Month(t), 1, 0, 0, 0) }
  function StartOfYear(year: nat): nat requires 1 <= year { Instant(year, 1, 1, 0, 0, 0) }

  /** The first day of the month after the one day n lies in. */
  function NextMonthDay(n: nat): nat { DayNumber(FirstOf(CivilDate(n).year, CivilDate(n).month + 1)) }

  lemma NextMonthCounts(year: nat, month: nat)
    requires 1 <= year && 1 <= month <= 12
    ensures DayNumber(FirstOf(year, month + 1)) == DayNumber(Date(year, month, 1)) + DaysIn(year, month)
  {}

  lemma RestOfMonth(n: nat)
    ensures n < NextMonthDay(n) && CivilDate(NextMonthDay(n)) == FirstOf(CivilDate(n).year, CivilDate(n).month + 1)
    ensures forall k | n <= k < NextMonthDay(n) ::
        CivilDate(k).year == CivilDate(n).year && CivilDate(k).month == CivilDate(n).month
  {
    CivilDateOfDayNumber(FirstOf(CivilDate(n).year, CivilDate(n).month + 1));
    DaysLeftInMonth(n);
    forall k | n <= k < NextMonthDay(n)
      ensures CivilDate(k).year == CivilDate(n).year && CivilDate(k).month == CivilDate(n).month
    {
      SameMonth(n, k);
    }
  }

  lemma DaysLeftInMonth(n: nat)
    ensures var d := CivilDate(n);
            NextMonthDay(n) == n + DaysIn(d.year, d.month) - d.day + 1
  {
    DayNumberOfCivilDate(n);
    NextMonthCounts(CivilDate(n).year, CivilDate(n).month);
  }

  lemma SameMonth(n: nat, k: nat)
    requires var d := CivilDate(n);
             n <= k <= n + DaysIn(d.year, d.month) - d.day
    ensures CivilDate(k).year == CivilDate(n).year && CivilDate(k).month == CivilDate(n).month
  {
    var d := CivilDate(n);
    var x := Date(d.year, d.month, d.day + k - n);
    DayNumberOfCivilDate(n);
    DaysApart(d, x);
    CivilDateOfDayNumber(x);
  }

  lemma DaysApart(a: Date, b: Date)
    requires a.Valid() && b.Valid() && a.year == b.year && a.month == b.month
    ensures DayNumber(b) - DayNumber(a) == b.day - a.day
  {}

  lemma MonthStartFields(t: nat, u: nat)
    requires u == StartOfMonth(t)
    ensures CivilDate(DayNo(u)) == Date(Year(t), Month(t), 1) && StartsMonth(u)
  {
    InstantFields(Date(Year(t), Month(t), 1), 0, 0, 0);
  }

  /** From the first second of a month, adding a month reaches the first second of the next. */
  lemma AddMonthAtStart(u: nat)
    requires StartsMonth(u)
    ensures AddMonth(u) == Compose(NextMonthDay(DayNo(u)), 0, 0, 0)
  {}

  lemma DayNoMonotone(s: nat, t: nat)
    requires s <= t
    ensures DayNo(s) <= DayNo(t)
  {}

  lemma BeforeDay(t: nat, day: nat)
    ensures t < Compose(day, 0, 0, 0) <==> DayNo(t) < day
  {
    Decompose(t);
  }

  lemma BeforeYear(t: nat, year: nat)
    requires 1 <= year
    ensures t < StartOfYear(year) <==> Year(t) < year
  {
    var d := CivilDate(DayNo(t));
    BeforeDay(t, DayNumber(Date(year, 1, 1)));
    DayNumberOfCivilDate(DayNo(t));
    MonthOffsetsMonotone(d.year, d.month + 1, 13);
    if d.year < year {
      DaysBeforeYearMonotone(d.year + 1, year);
    } else {
      DaysBeforeYearMonotone(year, d.year);
    }
  }

  lemma {:induction false} MonthOffsetsMonotone(year: nat, a: nat, b: nat)
    requires 1 <= a <= b <= 13
    ensures DaysBeforeMonth(year, a) <= DaysBeforeMonth(year, b)
    decreases b
  {
    if a < b { MonthOffsetsMonotone(year, a, b - 1); }
  }
}
