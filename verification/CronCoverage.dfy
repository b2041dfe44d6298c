/** Which cron expressions the two-year search can always serve. */
module CronCoverage {
  import opened Wrappers

  import opened Calendar
  import opened CronExpr
  import opened CronField
  import opened Word64

  /** Some instant of the window matches, so Next does not give the zero time. */
  ghost predicate Finds(e: CronExpr, nanos: nat) {
    !NoMatchIn(e, UpcomingSecond(nanos), WindowEnd(UpcomingSecond(nanos)))
  }

  predicate InEveryYear(month: nat, day: nat) {
    1 <= month <= 12 && 1 <= day <= DaysIn(1, month)
  }

  /** Some admitted month and day of month occur in years that are not leap years. */
  ghost predicate DateInEveryYear(e: CronExpr) {
    exists month: nat, day: nat :: InEveryYear(month, day) && Test(e.month, month) && Test(e.dom, day)
  }

  lemma CommonYearIsShortest(year: nat, month: nat)
    requires 1 <= month <= 12
    ensures DaysIn(1, month) <= DaysIn(year, month)
    ensures !IsLeap(year) ==> DaysIn(1, month) == DaysIn(year, month)
  {}

  lemma InWindow(start: nat, t: nat)
    requires Year(t) == Year(start) + 1
    ensures start <= t < WindowEnd(start)
  {
    BeforeYear(t, Year(start) + 2);
    BeforeYear(t, Year(start) + 1);
    BeforeYear(start, Year(start) + 1);
  }

  /** A matching date in the year after the start is found. */
  lemma FoundAt(e: CronExpr, nanos: nat, d: Date, hour: nat, minute: nat, second: nat, t: nat)
    requires d.Valid() && d.year == Year(UpcomingSecond(nanos)) + 1 && hour < 24 && minute < 60 && second < 60
    requires Test(e.month, d.month) && Test(e.hour, hour) && Test(e.min, minute) && Test(e.sec, second)
    requires t == Instant(d.year, d.month, d.day, hour, minute, second) && MatchDay(e, t)
    ensures Finds(e, nanos)
  {
    InstantFields(d, hour, minute, second);
    InWindow(UpcomingSecond(nanos), t);
    assert Matches(e, t);
  }

  /** Any seven days in a row hold every weekday. */
  lemma SevenDays(n: nat, weekday: nat) returns (k: nat)
    requires weekday <= 6
    ensures k < 7 && (n + k + 1) % 7 == weekday
  {
    k := (weekday + 13 - n % 7) % 7;
  }

  lemma WeekdayAfter(n: nat, k: nat, m: nat, weekday: nat)
    requires (n + k + 1) % 7 == weekday && m == n + k
    ensures (m + 1) % 7 == weekday
  {}

  lemma WeekdayOf(d: Date, hour: nat, minute: nat, second: nat)
    requires d.Valid() && hour < 24 && minute < 60 && second < 60
    ensures Weekday(Instant(d.year, d.month, d.day, hour, minute, second)) == (DayNumber(d) + 1) % 7
  {
    ComposedFields(DayNumber(d), hour, minute, second);
  }

  lemma WeekdayInMonth(year: nat, month: nat, weekday: nat) returns (d: Date)
    requires 1 <= year && 1 <= month <= 12 && weekday <= 6
    ensures d.Valid() && d.year == year && d.month == month && (DayNumber(d) + 1) % 7 == weekday
  {
    var first := Date(year, month, 1);
    var n := DayNumber(first);
    var k := SevenDays(n, weekday);
    d := Date(year, month, 1 + k);
    DaysApart(first, d);
    WeekdayAfter(n, k, DayNumber(d), weekday);
  }

  lemma FoundOnWeekday(e: CronExpr, nanos: nat, month: nat, weekday: nat, hour: nat, minute: nat, second: nat)
    requires 1 <= month <= 12 && weekday <= 6 && hour < 24 && minute < 60 && second < 60
    requires Test(e.month, month) && Test(e.dow, weekday) && Test(e.hour, hour) && Test(e.min, minute) &&
        Test(e.sec, second)
    requires e.dow != EVERY_DAY_OF_WEEK
    ensures Finds(e, nanos)
  {
    var d := WeekdayInMonth(Year(UpcomingSecond(nanos)) + 1, month, weekday);
    FoundOnWeekdayDate(e, nanos, d, hour, minute, second);
  }

  lemma FoundOnWeekdayDate(e: CronExpr, nanos: nat, d: Date, hour: nat, minute: nat, second: nat)
    requires d.Valid() && d.year == Year(UpcomingSecond(nanos)) + 1 && hour < 24 && minute < 60 && second < 60
    requires Test(e.month, d.month) && Test(e.hour, hour) && Test(e.min, minute) && Test(e.sec, second)
    requires Test(e.dow, (DayNumber(d) + 1) % 7) && e.dow != EVERY_DAY_OF_WEEK
    ensures Finds(e, nanos)
  {
    var t := Instant(d.year, d.month, d.day, hour, minute, second);
    WeekdayOf(d, hour, minute, second);
    FoundAt(e, nanos, d, hour, minute, second, t);
  }

  lemma MatchesDate(e: CronExpr, d: Date, hour: nat, minute: nat, second: nat, t: nat)
    requires d.Valid() && hour < 24 && minute < 60 && second < 60
    requires Test(e.month, d.month) && Test(e.dom, d.day) && Test(e.hour, hour) && Test(e.min, minute) &&
        Test(e.sec, second)
    requires e.dow == EVERY_DAY_OF_WEEK && t == Instant(d.year, d.month, d.day, hour, minute, second)
    ensures Matches(e, t)
  {
    InstantFields(d, hour, minute, second);
    CrontabDayRule(e, t);
    EveryDayOfWeekBits();
  }

  lemma FoundOnDate(e: CronExpr, nanos: nat, month: nat, day: nat, hour: nat, minute: nat, second: nat)
    requires InEveryYear(month, day) && hour < 24 && minute < 60 && second < 60
    requires Test(e.month, month) && Test(e.dom, day) && Test(e.hour, hour) && Test(e.min, minute) &&
        Test(e.sec, second)
    requires e.dow == EVERY_DAY_OF_WEEK
    ensures Finds(e, nanos)
  {
    var d := Date(Year(UpcomingSecond(nanos)) + 1, month, day);
    CommonYearIsShortest(d.year, month);
    var t := Instant(d.year, month, day, hour, minute, second);
    MatchesDate(e, d, hour, minute, second, t);
    FoundAt(e, nanos, d, hour, minute, second, t);
  }

  lemma EarlyDatesOccurEveryYear(t: nat)
    requires Year(t) <= 2
    ensures InEveryYear(Month(t), Day(t))
  {
    CommonYearIsShortest(Year(t), Month(t));
  }

  lemma MatchNeedsDate(e: CronExpr, t: nat)
    requires e.dow == EVERY_DAY_OF_WEEK && Matches(e, t)
    ensures Test(e.month, Month(t)) && Test(e.dom, Day(t))
  {
    CrontabDayRule(e, t);
  }

  /** Without such a date nothing matches in the common years 1 and 2. */
  lemma NothingInCommonYears(e: CronExpr, t: nat)
    requires e.dow == EVERY_DAY_OF_WEEK && !DateInEveryYear(e) && Year(t) <= 2
    ensures !Matches(e, t)
  {
    EarlyDatesOccurEveryYear(t);
    if Matches(e, t) {
      MatchNeedsDate(e, t);
    }
  }

  lemma AdmittedValue(e: CronExpr, k: nat) returns (v: nat)
    requires Compiled(e) && k < 6
    ensures Minimum(k) <= v <= Maximum(k) && Test(FieldWord(e, k), v)
  {
    assert FieldAdmits(FieldWord(e, k), Minimum(k), Maximum(k));
    v :| v < 64 && Minimum(k) <= v <= Maximum(k) && FieldWord(e, k)[v];
  }

  /** The search finds an instant from every start if and only if the day of week is restricted or
      some admitted date occurs every year.  For the other expressions, such as those for
      29 February only, it can give up before the first match. */
  lemma NextAlwaysFindsIff(e: CronExpr)
    requires Compiled(e)
    ensures (forall nanos: nat :: Finds(e, nanos)) <==> e.dow != EVERY_DAY_OF_WEEK || DateInEveryYear(e)
  {
    var second := AdmittedValue(e, 0);
    var minute := AdmittedValue(e, 1);
    var hour := AdmittedValue(e, 2);
    var month := AdmittedValue(e, 4);
    var weekday := AdmittedValue(e, 5);
    if e.dow != EVERY_DAY_OF_WEEK {
      forall nanos: nat ensures Finds(e, nanos) {
        FoundOnWeekday(e, nanos, month, weekday, hour, minute, second);
      }
    } else if DateInEveryYear(e) {
      var m: nat, day: nat :| InEveryYear(m, day) && Test(e.month, m) && Test(e.dom, day);
      forall nanos: nat ensures Finds(e, nanos) {
        FoundOnDate(e, nanos, m, day, hour, minute, second);
      }
    } else {
      NeverFindsFromYearOne(e);
    }
  }

  lemma NothingInWindow(e: CronExpr, start: nat)
    requires e.dow == EVERY_DAY_OF_WEEK && !DateInEveryYear(e) && Year(start) == 1
    ensures NoMatchIn(e, start, WindowEnd(start))
  {
    forall t | start <= t < WindowEnd(start)
      ensures !Matches(e, t)
    {
      YearPastWindow(start, t);
      NothingInCommonYears(e, t);
    }
  }

  lemma NeverFindsFromYearOne(e: CronExpr)
    requires e.dow == EVERY_DAY_OF_WEEK && !DateInEveryYear(e)
    ensures !Finds(e, 0)
  {
    assert UpcomingSecond(0) == 1 && DayNo(1) == 0;
    NothingInWindow(e, UpcomingSecond(0));
  }

  lemma DateIsMatched(e: CronExpr, d: Date) returns (t: nat)
    requires d.Valid() && Test(e.month, d.month) && Test(e.dom, d.day) && Test(e.hour, 0) && Test(e.min, 0) &&
        Test(e.sec, 0)
    requires e.dow == EVERY_DAY_OF_WEEK
    ensures Matches(e, t) && CivilDate(DayNo(t)) == d
  {
    t := Instant(d.year, d.month, d.day, 0, 0, 0);
    MatchesDate(e, d, 0, 0, 0, t);
    InstantFields(d, 0, 0, 0);
  }

  /** Masks for 29 February, whose first match, in year 4, lies outside the window of year 1. */
  lemma LeapDayMasksMissed(e: CronExpr) returns (t: nat)
    requires e.dow == EVERY_DAY_OF_WEEK
    requires forall b | 0 <= b < 64 :: (e.month[b] <==> b == 2) && (e.dom[b] <==> b == 29)
    requires Test(e.hour, 0) && Test(e.min, 0) && Test(e.sec, 0)
    ensures !Finds(e, 0) && Matches(e, t) && Year(t) == 4
  {
    LeapDayNotInEveryYear(e);
    NeverFindsFromYearOne(e);
    t := DateIsMatched(e, LeapDay());
  }

  function LeapDay(): (d: Date)
    ensures d.Valid() && d == Date(4, 2, 29)
  {
    Date(4, 2, 29)
  }

  lemma LeapDayNotInEveryYear(e: CronExpr)
    requires forall b | 0 <= b < 64 :: (e.month[b] <==> b == 2) && (e.dom[b] <==> b == 29)
    ensures !DateInEveryYear(e)
  {
    forall month: nat, day: nat | InEveryYear(month, day)
      ensures !(Test(e.month, month) && Test(e.dom, day))
    {
      assert month == 2 ==> day <= 28;
    }
  }

  /** "0 0 0 29 2 *" */
  function LeapDayFields(): seq<string> { ["0", "0", "0", "29", "2", "*"] }

  ghost function LeapDayExpr(): CronExpr {
    var zero := MaskOf([Item(0, 0, 1)]);
    CronExpr(zero, zero, zero, MaskOf([Item(29, 29, 1)]), MaskOf([Item(2, 2, 1)]), MaskOf([Item(0, 6, 1)]))
  }

  lemma NumberCompiles(fields: seq<string>, k: nat, n: nat)
    requires k < 6 == |fields| && Numeral(fields[k], n) && Minimum(k) <= n <= Maximum(k)
    ensures FieldResult(fields, k, Ok(MaskOf([Item(n, n, 1)])))
  {
    NumberField(fields[k], n, Minimum(k), Maximum(k));
  }

  lemma LeapDayNumerals()
    ensures Numeral("0", 0) && Numeral("29", 29) && Numeral("2", 2)
  {
    OneDigit('0');
    TwoDigits('2', '9');
    OneDigit('2');
    assert ['2', '9'] == "29";
  }

  lemma StarCompiles(fields: seq<string>, k: nat)
    requires k < 6 == |fields| && fields[k] == "*"
    ensures FieldResult(fields, k, Ok(MaskOf([Item(Minimum(k), Maximum(k), 1)])))
  {
    StarField(Minimum(k), Maximum(k));
  }

  /** A date given by numbers for all fields but the day of week. */
  lemma DateCompiles(fields: seq<string>, numbers: seq<nat>, e: CronExpr)
    requires |fields| == 6 && |numbers| == 5 && fields[5] == "*"
    requires forall k: nat | k < 5 :: Numeral(fields[k], numbers[k]) && Minimum(k) <= numbers[k] <= Maximum(k)
    requires forall k: nat | k < 5 :: FieldWord(e, k) == MaskOf([Item(numbers[k], numbers[k], 1)])
    requires e.dow == MaskOf([Item(0, 6, 1)])
    ensures CompilesTo(fields, e)
  {
    forall k: nat | k < 6
      ensures FieldResult(fields, k, Ok(FieldWord(e, k)))
    {
      if k < 5 {
        NumberCompiles(fields, k, numbers[k]);
      } else {
        StarCompiles(fields, k);
      }
    }
  }

  lemma LeapDayCompiles()
    ensures CompilesTo(LeapDayFields(), LeapDayExpr())
  {
    LeapDayNumerals();
    DateCompiles(LeapDayFields(), [0, 0, 0, 29, 2], LeapDayExpr());
  }

  lemma LeapDayMasks(e: CronExpr)
    requires e == LeapDayExpr()
    ensures e.dow == EVERY_DAY_OF_WEEK
    ensures forall b | 0 <= b < 64 :: (e.month[b] <==> b == 2) && (e.dom[b] <==> b == 29)
    ensures Test(e.hour, 0) && Test(e.min, 0) && Test(e.sec, 0)
  {
    RangeField(0, 0);
    RangeField(29, 29);
    RangeField(2, 2);
    RangeField(0, 6);
    EveryDayOfWeekBits();
  }

  /** The expression "0 0 0 29 2 *", midnight on 29 February, compiles, and its first match, in year 4,
      lies outside the window of year 1. */
  lemma LeapDayMissed() returns (e: CronExpr, t: nat)
    ensures CompilesTo(LeapDayFields(), e) && !Finds(e, 0) && Matches(e, t) && Year(t) == 4
  {
    e := LeapDayExpr();
    LeapDayCompiles();
    LeapDayMasks(e);
    t := LeapDayMasksMissed(e);
  }
}
