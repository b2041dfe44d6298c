/** A compiled cron expression and the search for its next instant (timer/cronexpr.go). */
module CronExpr {
  import opened Calendar
  import opened CronField
  import opened CronWords
  import opened Word64
  import opened Wrappers

  /** Bit i of a field is set when the field admits the value i. */
  datatype CronExpr = CronExpr(sec: Word, min: Word, hour: Word, dom: Word, month: Word, dow: Word)

  /** The masks of the fields that admit every day: bits 1 to 31, and bits 0 to 6. */
  const EVERY_DAY_OF_MONTH: Word := Bits(0xffff_fffe, 64)
  const EVERY_DAY_OF_WEEK: Word := Bits(0x7f, 64)

  lemma EveryDayOfMonthBits()
    ensures forall i | 0 <= i < 64 :: EVERY_DAY_OF_MONTH[i] <==> 1 <= i <= 31
  {
    assert Pow2(8) == 256 by { assert Pow2(3) == 8; assert Pow2(6) == 64; }
    assert Pow2(16) == 0x1_0000 by { assert Pow2(11) == 2048; assert Pow2(14) == 16384; }
    assert Pow2(24) == 0x100_0000 by { assert Pow2(19) == 0x8_0000; assert Pow2(22) == 0x40_0000; }
    assert Pow2(31) == 0x8000_0000 by { assert Pow2(27) == 0x800_0000; assert Pow2(29) == 0x2000_0000; }
    BitsOfOnes(31, 32, Bits(0x7fff_ffff, 63));
    assert Bits(0xffff_fffe, 64) == [false] + Bits(0x7fff_ffff, 63);
  }

  lemma EveryDayOfWeekBits()
    ensures forall i | 0 <= i < 64 :: EVERY_DAY_OF_WEEK[i] <==> i <= 6
  {
    assert Pow2(7) == 128 by { assert Pow2(3) == 8; assert Pow2(5) == 32; }
    BitsOfOnes(7, 57, EVERY_DAY_OF_WEEK);
  }

  predicate MatchDay(e: CronExpr, t: nat) {
    // day-of-month blank
    if e.dom == EVERY_DAY_OF_MONTH then Test(e.dow, Weekday(t))
    // day-of-week blank
    else if e.dow == EVERY_DAY_OF_WEEK then Test(e.dom, Day(t))
    else Test(e.dow, Weekday(t)) || Test(e.dom, Day(t))
  }

  // What it means for an instant to match

  predicate MonthOk(e: CronExpr, t: nat) { Test(e.month, Month(t)) }
  predicate HourOk(e: CronExpr, t: nat) { Test(e.hour, Hour(t)) }
  predicate MinuteOk(e: CronExpr, t: nat) { Test(e.min, Minute(t)) }
  predicate SecondOk(e: CronExpr, t: nat) { Test(e.sec, Second(t)) }

  predicate Matches(e: CronExpr, t: nat) {
    MonthOk(e, t) && MatchDay(e, t) && HourOk(e, t) && MinuteOk(e, t) && SecondOk(e, t)
  }

  predicate NoMatchIn(e: CronExpr, lo: nat, hi: nat) {
    forall s | lo <= s < hi :: !Matches(e, s)
  }

  // The search

  /** t.Truncate(time.Second).Add(time.Second) on an instant in nanoseconds. */
  function UpcomingSecond(nanos: nat): nat { nanos / 1_000_000_000 + 1 }

  /** The whole seconds from the upcoming one on are exactly those strictly after the instant. */
  lemma UpcomingSecondIff(nanos: nat, second: nat)
    ensures second * 1_000_000_000 > nanos <==> second >= UpcomingSecond(nanos)
  {}

  /** The search gives up at 1 January two years after the year it starts in. */
  function WindowEnd(start: nat): nat { StartOfYear(Year(start) + 2) }

  /** When a field does not match, every finer field is at its minimum. */
  ghost predicate Aligned(e: CronExpr, t: nat) {
    && (!MonthOk(e, t) ==> StartsMonth(t))
    && (!MatchDay(e, t) ==> StartsDay(t))
    && (!HourOk(e, t) ==> StartsHour(t))
    && (!MinuteOk(e, t) ==> StartsMinute(t))
  }

  ghost predicate IsYearStart(t: nat) {
    Month(t) == 1 && StartsMonth(t)
  }

  /** What the search knows on reaching t, having started at `start` to look before `end`. */
  ghost predicate Reached(e: CronExpr, start: nat, end: nat, t: nat, initFlag: bool) {
    && start <= t <= end
    && IsYearStart(end)
    && NoMatchIn(e, start, t)
    && if initFlag then Aligned(e, t) else t == start
  }

  lemma SameDay(e: CronExpr, t: nat, s: nat)
    requires DayNo(t) == DayNo(s)
    ensures MonthOk(e, t) == MonthOk(e, s) && MatchDay(e, t) == MatchDay(e, s)
  {
    SameDate(t, s);
  }

  /** Moving from a matching day to `next` keeps the day, or starts the following one. */
  lemma RollIntoDay(e: CronExpr, t: nat, next: nat)
    requires MonthOk(e, t)
    requires (DayNo(next) == DayNo(t) && MatchDay(e, t)) || (DayNo(next) == DayNo(t) + 1 && StartsDay(next))
    ensures !MonthOk(e, next) ==> StartsMonth(next)
    ensures !MatchDay(e, next) ==> StartsDay(next)
    ensures !StartsDay(next) ==> MonthOk(e, next) && MatchDay(e, next)
    ensures Day(next) != 1 ==> MonthOk(e, next)
  {
    if DayNo(next) == DayNo(t) {
      SameDay(e, t, next);
    } else {
      DayAfter(DayNo(t));
    }
  }

  /** Moving from a matching hour to `next` keeps the hour, or starts the following one. */
  lemma RollIntoHour(e: CronExpr, t: nat, next: nat)
    requires MonthOk(e, t) && MatchDay(e, t)
    requires (HourNo(next) == HourNo(t) && HourOk(e, t)) || (HourNo(next) == HourNo(t) + 1 && StartsHour(next))
    ensures !HourOk(e, next) ==> StartsHour(next)
    ensures !MonthOk(e, next) ==> StartsMonth(next)
    ensures !MatchDay(e, next) ==> StartsDay(next)
    ensures Hour(next) != 0 ==> MonthOk(e, next) && MatchDay(e, next)
    ensures !StartsHour(next) ==> MonthOk(e, next) && MatchDay(e, next) && HourOk(e, next)
    ensures StartsMinute(next) ==> Aligned(e, next)
  {
    RollIntoDay(e, t, next);
  }

  // One step of each loop: the unit that t lies in fails to match, and the search resumes at the
  // first second of the next unit.

  lemma NoMatchJoin(e: CronExpr, lo: nat, mid: nat, hi: nat)
    requires NoMatchIn(e, lo, mid) && NoMatchIn(e, mid, hi)
    ensures NoMatchIn(e, lo, hi)
  {}

  lemma Resume(e: CronExpr, start: nat, end: nat, t: nat, initFlag: bool, next: nat)
    requires Reached(e, start, end, t, initFlag)
    requires t < next <= end && NoMatchIn(e, t, next) && Aligned(e, next)
    ensures Reached(e, start, end, next, true)
    ensures next < end || IsYearStart(next)
  {
    NoMatchJoin(e, start, t, next);
    assert next == end ==> IsYearStart(next);
  }

  lemma NoMatchInMonth(e: CronExpr, t: nat, next: nat)
    requires !MonthOk(e, t)
    requires next == Compose(NextMonthDay(DayNo(t)), 0, 0, 0)
    ensures NoMatchIn(e, t, next)
  {
    forall s | t <= s < next
      ensures !Matches(e, s)
    {
      DayNoMonotone(t, s);
      BeforeDay(s, NextMonthDay(DayNo(t)));
      RestOfMonth(DayNo(t));
      assert Month(s) == Month(t);
    }
  }

  lemma NoMatchInDay(e: CronExpr, t: nat, next: nat)
    requires !MatchDay(e, t)
    requires forall s | t <= s < next :: DayNo(s) == DayNo(t)
    ensures NoMatchIn(e, t, next)
  {
    forall s | t <= s < next
      ensures !Matches(e, s)
    {
      SameDay(e, t, s);
    }
  }

  lemma NoMatchInHour(e: CronExpr, t: nat, next: nat)
    requires !HourOk(e, t)
    requires forall s | t <= s < next :: HourNo(s) == HourNo(t)
    ensures NoMatchIn(e, t, next)
  {
    forall s | t <= s < next
      ensures !Matches(e, s)
    {
      assert Hour(s) == Hour(t);
    }
  }

  lemma NoMatchInMinute(e: CronExpr, t: nat, next: nat)
    requires !MinuteOk(e, t)
    requires forall s | t <= s < next :: MinuteNo(s) == MinuteNo(t)
    ensures NoMatchIn(e, t, next)
  {
    forall s | t <= s < next
      ensures !Matches(e, s)
    {
      assert Minute(s) == Minute(t);
    }
  }

  lemma SkipMonth(e: CronExpr, start: nat, end: nat, t: nat, initFlag: bool, next: nat)
    requires Reached(e, start, end, t, initFlag) && t < end && !MonthOk(e, t)
    requires next == Compose(NextMonthDay(DayNo(t)), 0, 0, 0)
    ensures Reached(e, start, end, next, true) && t < next && (Month(next) != 1 ==> next < end)
  {
    NoMatchInMonth(e, t, next);
    MonthBeforeEnd(t, next, end);
    MonthAligned(e, NextMonthDay(DayNo(t)), next);
    Resume(e, start, end, t, initFlag, next);
  }

  lemma MonthAligned(e: CronExpr, day: nat, next: nat)
    requires next == Compose(day, 0, 0, 0) && CivilDate(day).day == 1
    ensures Aligned(e, next)
  {
    ComposedFields(day, 0, 0, 0);
  }

  lemma MonthBeforeEnd(t: nat, next: nat, end: nat)
    requires IsYearStart(end) && t < end
    requires next == Compose(NextMonthDay(DayNo(t)), 0, 0, 0)
    ensures t < next <= end
    ensures CivilDate(NextMonthDay(DayNo(t))).day == 1
  {
    var n := DayNo(t);
    RestOfMonth(n);
    BeforeDay(t, NextMonthDay(n));
    DayNoMonotone(t, end);
    BeforeDay(end, NextMonthDay(n));
    if DayNo(end) < NextMonthDay(n) {
      FirstOfOwnMonth(n, DayNo(end));
      Decompose(end);
      BeforeDay(t, DayNo(end));
    }
  }

  lemma FirstOfOwnMonth(n: nat, m: nat)
    requires n <= m && CivilDate(m).day == 1
    requires CivilDate(n).year == CivilDate(m).year && CivilDate(n).month == CivilDate(m).month
    ensures n == m
  {
    DayNumberOfCivilDate(n);
    DayNumberOfCivilDate(m);
    DaysApart(CivilDate(n), CivilDate(m));
  }

  lemma SkipDay(e: CronExpr, start: nat, end: nat, t: nat, initFlag: bool, next: nat)
    requires Reached(e, start, end, t, initFlag) && t < end && MonthOk(e, t) && !MatchDay(e, t)
    requires next == Compose(DayNo(t) + 1, 0, 0, 0)
    ensures Reached(e, start, end, next, true) && t < next && (Day(next) != 1 ==> MonthOk(e, next) && next < end)
  {
    NextDay(t);
    NoMatchInDay(e, t, next);
    DayBeforeEnd(t, next, end);
    RollIntoDay(e, t, next);
    Resume(e, start, end, t, initFlag, next);
  }

  lemma DayBeforeEnd(t: nat, next: nat, end: nat)
    requires next == Compose(DayNo(t) + 1, 0, 0, 0) && StartsDay(end) && t < end
    ensures next <= end
  {
    Decompose(end);
    BeforeDay(t, DayNo(end));
  }

  lemma SkipHour(e: CronExpr, start: nat, end: nat, t: nat, initFlag: bool, next: nat)
    requires Reached(e, start, end, t, initFlag) && t < end && MonthOk(e, t) && MatchDay(e, t) && !HourOk(e, t)
    requires next == Truncate(t, 3600) + 3600
    ensures Reached(e, start, end, next, true) && t < next
    ensures Hour(next) != 0 ==> MonthOk(e, next) && MatchDay(e, next) && next < end
  {
    HourSkipped(e, t, next);
    HourBeforeEnd(t, next, end);
    HourAligned(e, t, next);
    Resume(e, start, end, t, initFlag, next);
  }

  lemma HourSkipped(e: CronExpr, t: nat, next: nat)
    requires !HourOk(e, t) && next == Truncate(t, 3600) + 3600
    ensures t < next && HourNo(next) == HourNo(t) + 1 && StartsHour(next) && NoMatchIn(e, t, next)
  {
    NextHour(t);
    NoMatchInHour(e, t, next);
  }

  lemma HourAligned(e: CronExpr, t: nat, next: nat)
    requires MonthOk(e, t) && MatchDay(e, t) && HourNo(next) == HourNo(t) + 1 && StartsHour(next)
    ensures Aligned(e, next) && (Hour(next) != 0 ==> MonthOk(e, next) && MatchDay(e, next))
  {
    RollIntoHour(e, t, next);
  }

  lemma HourBeforeEnd(t: nat, next: nat, end: nat)
    requires StartsHour(next) && HourNo(next) == HourNo(t) + 1 && StartsHour(end) && t < end
    ensures next <= end
  {}

  lemma MinuteBeforeEnd(t: nat, next: nat, end: nat)
    requires StartsMinute(next) && MinuteNo(next) == MinuteNo(t) + 1 && StartsMinute(end) && t < end
    ensures next <= end
  {}

  lemma SkipMinute(e: CronExpr, start: nat, end: nat, t: nat, initFlag: bool, next: nat)
    requires Reached(e, start, end, t, initFlag) && t < end && MonthOk(e, t) && MatchDay(e, t) && HourOk(e, t) &&
        !MinuteOk(e, t)
    requires next == Truncate(t, 60) + 60
    ensures Reached(e, start, end, next, true) && t < next
    ensures Minute(next) != 0 ==> MonthOk(e, next) && MatchDay(e, next) && HourOk(e, next) && next < end
  {
    MinuteSkipped(e, t, next);
    MinuteBeforeEnd(t, next, end);
    MinuteAligned(e, t, next);
    Resume(e, start, end, t, initFlag, next);
  }

  lemma MinuteSkipped(e: CronExpr, t: nat, next: nat)
    requires !MinuteOk(e, t) && next == Truncate(t, 60) + 60
    ensures t < next && MinuteNo(next) == MinuteNo(t) + 1 && StartsMinute(next) && NoMatchIn(e, t, next)
  {
    NextMinute(t);
    NoMatchInMinute(e, t, next);
  }

  lemma MinuteAligned(e: CronExpr, t: nat, next: nat)
    requires MonthOk(e, t) && MatchDay(e, t) && HourOk(e, t) && MinuteNo(next) == MinuteNo(t) + 1 && StartsMinute(next)
    ensures Aligned(e, next) && (Minute(next) != 0 ==> MonthOk(e, next) && MatchDay(e, next) && HourOk(e, next))
  {
    RollMinute(t, next);
    RollIntoHour(e, t, next);
  }

  lemma RollMinute(t: nat, next: nat)
    requires MinuteNo(next) == MinuteNo(t) + 1 && StartsMinute(next)
    ensures HourNo(next) == HourNo(t) || (HourNo(next) == HourNo(t) + 1 && StartsHour(next))
    ensures Minute(next) != 0 ==> HourNo(next) == HourNo(t)
  {}

  lemma RollSecond(t: nat)
    ensures Second(t + 1) != 0 ==> MinuteNo(t + 1) == MinuteNo(t)
    ensures Second(t + 1) == 0 ==> MinuteNo(t + 1) == MinuteNo(t) + 1
  {}

  lemma SameMinute(e: CronExpr, t: nat, s: nat)
    requires MinuteNo(t) == MinuteNo(s)
    ensures MonthOk(e, t) == MonthOk(e, s) && MatchDay(e, t) == MatchDay(e, s)
    ensures HourOk(e, t) == HourOk(e, s) && MinuteOk(e, t) == MinuteOk(e, s)
  {
    assert HourNo(t) == HourNo(s);
    SameDay(e, t, s);
    assert Hour(t) == Hour(s) && Minute(t) == Minute(s);
  }

  lemma NoMatchAt(e: CronExpr, t: nat, next: nat)
    requires !SecondOk(e, t) && next == t + 1
    ensures NoMatchIn(e, t, next)
  {
    forall s | t <= s < next
      ensures !Matches(e, s)
    {
      assert s == t;
    }
  }

  lemma SkipSecond(e: CronExpr, start: nat, end: nat, t: nat, initFlag: bool, next: nat)
    requires Reached(e, start, end, t, initFlag) && t < end
    requires MonthOk(e, t) && MatchDay(e, t) && HourOk(e, t) && MinuteOk(e, t) && !SecondOk(e, t)
    requires next == t + 1 && NoMatchIn(e, t, next)
    ensures Reached(e, start, end, next, true)
    ensures Second(next) != 0 ==>
        MonthOk(e, next) && MatchDay(e, next) && HourOk(e, next) && MinuteOk(e, next) && next < end
  {
    RollSecond(t);
    if Second(next) != 0 {
      SameMinute(e, t, next);
    } else {
      RollMinute(t, next);
      RollIntoHour(e, t, next);
    }
    Resume(e, start, end, t, initFlag, next);
  }

  lemma WindowEndIsYearStart(start: nat, end: nat)
    requires end == WindowEnd(start)
    ensures IsYearStart(end) && start < end
  {
    InstantFields(Date(Year(start) + 2, 1, 1), 0, 0, 0);
    BeforeYear(start, Year(start) + 2);
  }

  lemma YearPastWindow(start: nat, t: nat)
    ensures Year(t) > Year(start) + 1 <==> WindowEnd(start) <= t
  {
    BeforeYear(t, Year(start) + 2);
  }

  /** Truncating to the month and adding one, as the month loop does on its first failure, and
      adding a month from the start of a month, as it does later, reach the same instant. */
  lemma MonthAdvance(t: nat, u: nat)
    requires u == StartOfMonth(t) || (u == t && StartsMonth(t))
    ensures AddMonth(u) == Compose(NextMonthDay(DayNo(t)), 0, 0, 0)
  {
    if u == StartOfMonth(t) {
      MonthStartFields(t, u);
      AddMonthAtStart(u);
      SameMonthSameEnd(DayNo(t), DayNo(u));
    } else {
      AddMonthAtStart(u);
    }
  }

  lemma SameMonthSameEnd(n: nat, m: nat)
    requires CivilDate(n).year == CivilDate(m).year && CivilDate(n).month == CivilDate(m).month
    ensures NextMonthDay(n) == NextMonthDay(m)
  {}

  lemma DayAdvance(t: nat, u: nat)
    requires u == Instant(Year(t), Month(t), Day(t), 0, 0, 0) || (u == t && StartsDay(t))
    ensures AddDay(u) == Compose(DayNo(t) + 1, 0, 0, 0)
  {
    NextDay(t);
    Decompose(t);
    DayNumberOfCivilDate(DayNo(t));
  }

  lemma HourAdvance(t: nat, u: nat)
    requires u == Truncate(t, 3600) || (u == t && StartsHour(t))
    ensures u + 3600 == Truncate(t, 3600) + 3600
  {
    HourRemainder(t);
  }

  lemma MinuteAdvance(t: nat, u: nat)
    requires u == Truncate(t, 60) || (u == t && StartsMinute(t))
    ensures u + 60 == Truncate(t, 60) + 60
  {}

  // The bodies of the five loops.  The first one to run truncates t to the unit that failed.

  method StepMonth(e: CronExpr, ghost start: nat, ghost end: nat, t: nat, initFlag: bool) returns (next: nat)
    requires Reached(e, start, end, t, initFlag) && t < end && !MonthOk(e, t)
    ensures Reached(e, start, end, next, true) && t < next && (Month(next) != 1 ==> next < end)
  {
    SkipMonth(e, start, end, t, initFlag, Compose(NextMonthDay(DayNo(t)), 0, 0, 0));
    next := t;
    if !initFlag {
      next := Instant(Year(t), Month(t), 1, 0, 0, 0);
    }
    MonthAdvance(t, next);
    next := AddMonth(next);
  }

  method StepDay(e: CronExpr, ghost start: nat, ghost end: nat, t: nat, initFlag: bool) returns (next: nat)
    requires Reached(e, start, end, t, initFlag) && t < end && MonthOk(e, t) && !MatchDay(e, t)
    ensures Reached(e, start, end, next, true) && t < next && (Day(next) != 1 ==> MonthOk(e, next) && next < end)
  {
    SkipDay(e, start, end, t, initFlag, Compose(DayNo(t) + 1, 0, 0, 0));
    next := t;
    if !initFlag {
      next := Instant(Year(t), Month(t), Day(t), 0, 0, 0);
    }
    DayAdvance(t, next);
    next := AddDay(next);
  }

  method StepHour(e: CronExpr, ghost start: nat, ghost end: nat, t: nat, initFlag: bool) returns (next: nat)
    requires Reached(e, start, end, t, initFlag) && t < end && MonthOk(e, t) && MatchDay(e, t) && !HourOk(e, t)
    ensures Reached(e, start, end, next, true) && t < next
    ensures Hour(next) != 0 ==> MonthOk(e, next) && MatchDay(e, next) && next < end
  {
    next := t;
    if !initFlag {
      next := Truncate(t, 3600);
    }
    HourAdvance(t, next);
    next := next + 3600;
    SkipHour(e, start, end, t, initFlag, next);
  }

  method StepMinute(e: CronExpr, ghost start: nat, ghost end: nat, t: nat, initFlag: bool) returns (next: nat)
    requires Reached(e, start, end, t, initFlag) && t < end && MonthOk(e, t) && MatchDay(e, t) && HourOk(e, t) &&
        !MinuteOk(e, t)
    ensures Reached(e, start, end, next, true) && t < next
    ensures Minute(next) != 0 ==> MonthOk(e, next) && MatchDay(e, next) && HourOk(e, next) && next < end
  {
    next := t;
    if !initFlag {
      next := Truncate(t, 60);
    }
    MinuteAdvance(t, next);
    next := next + 60;
    SkipMinute(e, start, end, t, initFlag, next);
  }

  method StepSecond(e: CronExpr, ghost start: nat, ghost end: nat, t: nat, initFlag: bool) returns (next: nat)
    requires Reached(e, start, end, t, initFlag) && t < end
    requires MonthOk(e, t) && MatchDay(e, t) && HourOk(e, t) && MinuteOk(e, t) && !SecondOk(e, t)
    ensures Reached(e, start, end, next, true) && t < next
    ensures Second(next) != 0 ==>
        MonthOk(e, next) && MatchDay(e, next) && HourOk(e, next) && MinuteOk(e, next) && next < end
  {
    next := t + 1;
    NoMatchAt(e, t, next);
    SkipSecond(e, start, end, t, initFlag, next);
  }

  /** The search of timer/cronexpr.go.  None stands for the zero time. */
  method Next(e: CronExpr, nanos: nat) returns (r: Option<nat>)
    ensures r.Some? ==>
              && UpcomingSecond(nanos) <= r.value < WindowEnd(UpcomingSecond(nanos))
              && Matches(e, r.value)
              && NoMatchIn(e, UpcomingSecond(nanos), r.value)
    ensures r.None? <==> NoMatchIn(e, UpcomingSecond(nanos), WindowEnd(UpcomingSecond(nanos)))
  {
    // the upcoming second
    var t := UpcomingSecond(nanos);

    var year := Year(t);
    var initFlag := false;

    ghost var start, end := t, WindowEnd(t);
    WindowEndIsYearStart(start, end);

    label retry:
    while true
      invariant Reached(e, start, end, t, initFlag)
      decreases end - t
    {
      ghost var before := t;
      YearPastWindow(start, t);
      // Year
      if Year(t) > year + 1 {
        assert t == end;
        return None;
      }

      // Month
      while !MonthOk(e, t)
        invariant Reached(e, start, end, t, initFlag) && before <= t < end
        decreases end - t
      {
        t := StepMonth(e, start, end, t, initFlag);
        initFlag := true;
        if Month(t) == 1 {
          continue retry;
        }
      }

      // Day
      while !MatchDay(e, t)
        invariant Reached(e, start, end, t, initFlag) && before <= t < end
        invariant MonthOk(e, t)
        decreases end - t
      {
        t := StepDay(e, start, end, t, initFlag);
        initFlag := true;
        if Day(t) == 1 {
          continue retry;
        }
      }

      // Hours
      while !HourOk(e, t)
        invariant Reached(e, start, end, t, initFlag) && before <= t < end
        invariant MonthOk(e, t) && MatchDay(e, t)
        decreases end - t
      {
        t := StepHour(e, start, end, t, initFlag);
        initFlag := true;
        if Hour(t) == 0 {
          continue retry;
        }
      }

      // Minutes
      while !MinuteOk(e, t)
        invariant Reached(e, start, end, t, initFlag) && before <= t < end
        invariant MonthOk(e, t) && MatchDay(e, t) && HourOk(e, t)
        decreases end - t
      {
        t := StepMinute(e, start, end, t, initFlag);
        initFlag := true;
        if Minute(t) == 0 {
          continue retry;
        }
      }

      // Seconds
      while !SecondOk(e, t)
        invariant Reached(e, start, end, t, initFlag) && before <= t < end
        invariant MonthOk(e, t) && MatchDay(e, t) && HourOk(e, t) && MinuteOk(e, t)
        decreases end - t
      {
        t := StepSecond(e, start, end, t, initFlag);
        initFlag := true;
        if Second(t) == 0 {
          continue retry;
        }
      }

      assert Matches(e, t) && !NoMatchIn(e, start, end);
      return Some(t);
    }
  }

  // Compiling the text of an expression

  /** The six fields of an expression; a missing seconds field is "0". */
  function SixFields(expr: string): Result<seq<string>, ParseError> {
    var fields := Fields(expr, "");
    if |fields| != 5 && |fields| != 6 then Err(WrongFieldCount)
    else Ok(if |fields| == 5 then ["0"] + fields else fields)
  }

  function Minimum(k: nat): int { if k == 3 || k == 4 then 1 else 0 }
  function Maximum(k: nat): int {
    if k <= 1 then 59 else if k == 2 then 23 else if k == 3 then 31 else if k == 4 then 12 else 6
  }

  ghost function FieldItems(fields: seq<string>, k: nat): Result<seq<Item>, ParseError>
    requires k < 6 == |fields|
  {
    ParseItems(Split(fields[k], ','), Minimum(k), Maximum(k))
  }

  /** Field number k of a compiled expression. */
  function FieldWord(e: CronExpr, k: nat): Word {
    if k == 0 then e.sec else if k == 1 then e.min else if k == 2 then e.hour
    else if k == 3 then e.dom else if k == 4 then e.month else e.dow
  }

  ghost predicate FieldResult(fields: seq<string>, k: nat, r: Result<Word, ParseError>)
    requires k < 6 == |fields|
  {
    match FieldItems(fields, k)
    case Err(error) => r == Err(error)
    case Ok(items) => r == Ok(MaskOf(items))
  }

  method ParseField(fields: seq<string>, k: nat) returns (r: Result<Word, ParseError>)
    requires k < 6 == |fields|
    requires ParseUpTo(fields, k)
    ensures FieldResult(fields, k, r) && (r.Ok? ==> ParseUpTo(fields, k + 1))
  {
    r := ParseCronField(fields[k], Minimum(k), Maximum(k));
  }

  /** All six fields parse, to the masks of e. */
  ghost predicate CompilesTo(fields: seq<string>, e: CronExpr) {
    |fields| == 6 && forall k: nat | k < 6 :: FieldResult(fields, k, Ok(FieldWord(e, k)))
  }

  ghost predicate ParseUpTo(fields: seq<string>, k: nat)
    requires k <= 6 == |fields|
  {
    forall j: nat | j < k :: FieldItems(fields, j).Ok?
  }

  lemma FailsHere(fields: seq<string>, k: nat, error: ParseError)
    requires k < 6 == |fields| && ParseUpTo(fields, k) && FieldResult(fields, k, Err(error))
    ensures FailsAt(fields, k, error)
  {}

  lemma AllCompile(fields: seq<string>, e: CronExpr)
    requires |fields| == 6
    requires FieldResult(fields, 0, Ok(e.sec)) && FieldResult(fields, 1, Ok(e.min)) &&
        FieldResult(fields, 2, Ok(e.hour))
    requires FieldResult(fields, 3, Ok(e.dom)) && FieldResult(fields, 4, Ok(e.month)) &&
        FieldResult(fields, 5, Ok(e.dow))
    ensures CompilesTo(fields, e)
  {
    forall k: nat | k < 6
      ensures FieldResult(fields, k, Ok(FieldWord(e, k)))
    {
      assert k in {0, 1, 2, 3, 4, 5};
    }
  }

  /** Field k is the first that does not parse. */
  ghost predicate FailsAt(fields: seq<string>, k: nat, error: ParseError) {
    k < 6 == |fields| && FieldItems(fields, k) == Err(error) && ParseUpTo(fields, k)
  }

  method CompileFields(fields: seq<string>) returns (r: Result<CronExpr, ParseError>)
    requires |fields| == 6
    ensures if r.Ok? then CompilesTo(fields, r.value) else exists k: nat :: FailsAt(fields, k, r.error)
  {
    // Seconds
    var sec := ParseField(fields, 0);
    if sec.Err? {
      FailsHere(fields, 0, sec.error);
      return Err(sec.error);
    }
    // Minutes
    var min := ParseField(fields, 1);
    if min.Err? {
      FailsHere(fields, 1, min.error);
      return Err(min.error);
    }
    // Hours
    var hour := ParseField(fields, 2);
    if hour.Err? {
      FailsHere(fields, 2, hour.error);
      return Err(hour.error);
    }
    // Day of month
    var dom := ParseField(fields, 3);
    if dom.Err? {
      FailsHere(fields, 3, dom.error);
      return Err(dom.error);
    }
    // Month
    var month := ParseField(fields, 4);
    if month.Err? {
      FailsHere(fields, 4, month.error);
      return Err(month.error);
    }
    // Day of week
    var dow := ParseField(fields, 5);
    if dow.Err? {
      FailsHere(fields, 5, dow.error);
      return Err(dow.error);
    }
    var e := CronExpr(sec.value, min.value, hour.value, dom.value, month.value, dow.value);
    AllCompile(fields, e);
    return Ok(e);
  }

  // What the words of an expression compile to

  /** The bounds of seconds, minutes, hours, days of month, months and days of week. */
  function Bounds(): seq<(int, int)> { [(0, 59), (0, 59), (0, 23), (1, 31), (1, 12), (0, 6)] }

  function Words(e: CronExpr): seq<Word> { [e.sec, e.min, e.hour, e.dom, e.month, e.dow] }

  ghost function ItemsOf(text: string, k: nat): Result<seq<Item>, ParseError>
    requires k < 6
  {
    ParseItems(Split(text, ','), Bounds()[k].0, Bounds()[k].1)
  }

  /** The texts are the fields from number `from` on, and e has their masks. */
  ghost predicate ReadsTo(texts: seq<string>, from: nat, e: CronExpr) {
    from + |texts| == 6 && forall k: nat | k < |texts| ::
        ItemsOf(texts[k], from + k).Ok? && Words(e)[from + k] == MaskOf(ItemsOf(texts[k], from + k).value)
  }

  /** The error is that of the first text that is no field. */
  ghost predicate FirstError(texts: seq<string>, from: nat, error: ParseError) {
    && from + |texts| == 6
    && exists k: nat ::
      && k < |texts| && ItemsOf(texts[k], from + k) == Err(error)
      && forall j: nat | j < k :: ItemsOf(texts[j], from + j).Ok?
  }

  /** Six words are the six fields; five are the last five, and the expression fires at second 0
      only; any other number is an error. */
  ghost predicate ResultFor(texts: seq<string>, r: Result<CronExpr, ParseError>) {
    if |texts| != 5 && |texts| != 6 then r == Err(WrongFieldCount)
    else if r.Err? then FirstError(texts, 6 - |texts|, r.error)
    else ReadsTo(texts, 6 - |texts|, r.value) && (|texts| == 5 ==> OnlyBitZero(r.value.sec))
  }

  predicate OnlyBitZero(w: Word) { forall b | 0 <= b < 64 :: w[b] <==> b == 0 }

  lemma SameBounds(k: nat)
    requires k < 6
    ensures Minimum(k) == Bounds()[k].0 && Maximum(k) == Bounds()[k].1
  {}

  lemma SameItems(fields: seq<string>, k: nat)
    requires k < 6 == |fields|
    ensures FieldItems(fields, k) == ItemsOf(fields[k], k)
  {
    SameBounds(k);
  }

  lemma CompiledReads(fields: seq<string>, e: CronExpr)
    requires CompilesTo(fields, e)
    ensures ReadsTo(fields, 0, e)
  {
    forall k: nat | k < 6
      ensures ItemsOf(fields[k], k).Ok? && Words(e)[k] == MaskOf(ItemsOf(fields[k], k).value)
    {
      SameItems(fields, k);
      assert FieldResult(fields, k, Ok(FieldWord(e, k)));
    }
  }

  lemma FailedReads(fields: seq<string>, k: nat, error: ParseError)
    requires FailsAt(fields, k, error)
    ensures FirstError(fields, 0, error)
  {
    SameItems(fields, k);
    forall j: nat | j < k
      ensures ItemsOf(fields[j], j).Ok?
    {
      SameItems(fields, j);
    }
  }

  /** The seconds field added to five fields. */
  lemma DefaultSeconds()
    ensures ItemsOf("0", 0).Ok? && OnlyBitZero(MaskOf(ItemsOf("0", 0).value))
  {
    OneDigit('0');
    NumberField("0", 0, 0, 59);
  }

  lemma WithDefaultSeconds(texts: seq<string>, r: Result<CronExpr, ParseError>)
    requires |texts| == 5
    requires if r.Ok? then ReadsTo(["0"] + texts, 0, r.value) else FirstError(["0"] + texts, 0, r.error)
    ensures ResultFor(texts, r)
  {
    var fields := ["0"] + texts;
    DefaultSeconds();
    assert fields[0] == "0" && forall k: nat | k < 5 :: fields[1 + k] == texts[k];
    if r.Ok? {
      assert ItemsOf(fields[0], 0).Ok? && Words(r.value)[0] == MaskOf(ItemsOf(fields[0], 0).value);
      assert forall k: nat | k < 5 :: ItemsOf(fields[1 + k], 0 + (1 + k)) == ItemsOf(texts[k], 1 + k);
    } else {
      var k: nat :| k < 6 && ItemsOf(fields[k], 0 + k) == Err(r.error) &&
          forall j: nat | j < k :: ItemsOf(fields[j], 0 + j).Ok?;
      SecondsDoNotFail(fields, texts, k, r.error);
    }
  }

  lemma SecondsDoNotFail(fields: seq<string>, texts: seq<string>, k: nat, error: ParseError)
    requires |texts| == 5 && fields == ["0"] + texts && ItemsOf("0", 0).Ok?
    requires k < 6 && ItemsOf(fields[k], k) == Err(error) && forall j: nat | j < k :: ItemsOf(fields[j], j).Ok?
    ensures FirstError(texts, 1, error)
  {
    assert ItemsOf(texts[k - 1], 1 + (k - 1)) == Err(error);
    forall j: nat | j < k - 1
      ensures ItemsOf(texts[j], 1 + j).Ok?
    {
      assert fields[j + 1] == texts[j];
    }
  }

  /** What the compiler made of the six fields decides the result for the words it had. */
  lemma ResultOfFields(texts: seq<string>, fields: seq<string>, r: Result<CronExpr, ParseError>)
    requires |texts| == 5 || |texts| == 6
    requires fields == if |texts| == 5 then ["0"] + texts else texts
    requires if r.Ok? then CompilesTo(fields, r.value) else exists k: nat :: FailsAt(fields, k, r.error)
    ensures ResultFor(texts, r)
  {
    if r.Ok? {
      CompiledReads(fields, r.value);
    } else {
      var k: nat :| FailsAt(fields, k, r.error);
      FailedReads(fields, k, r.error);
    }
    if |texts| == 5 {
      WithDefaultSeconds(texts, r);
    }
  }

  method NewCronExpr(expr: string) returns (r: Result<CronExpr, ParseError>)
    ensures match SixFields(expr)
            case Err(error) => r == Err(error)
            case Ok(fields) =>
              if r.Ok? then CompilesTo(fields, r.value) else exists k: nat :: FailsAt(fields, k, r.error)
    ensures forall words: seq<string> :: Lists(expr, words) ==> ResultFor(words, r)
  {
    var fields := Fields(expr, "");
    ghost var words := fields;
    FieldsIff(expr, words);
    assert forall other: seq<string> :: Lists(expr, other) ==> other == words by {
      forall other: seq<string>
        ensures Lists(expr, other) ==> other == words
      {
        FieldsIff(expr, other);
      }
    }
    if |fields| != 5 && |fields| != 6 {
      return Err(WrongFieldCount);
    }
    if |fields| == 5 {
      fields := ["0"] + fields;
    }
    r := CompileFields(fields);
    ResultOfFields(words, fields, r);
  }

  /** Every field admits some value within its bounds, and none above them. */
  ghost predicate Compiled(e: CronExpr) {
    forall k: nat | k < 6 :: FieldAdmits(FieldWord(e, k), Minimum(k), Maximum(k))
  }

  ghost predicate FieldAdmits(w: Word, min: int, max: int) {
    (exists b :: 0 <= b < 64 && min <= b <= max && w[b]) && forall b | 0 <= b < 64 && w[b] :: b <= max
  }

  lemma NewCronExprIsCompiled(fields: seq<string>, e: CronExpr)
    requires CompilesTo(fields, e)
    ensures Compiled(e)
  {
    forall k: nat | k < 6
      ensures FieldAdmits(FieldWord(e, k), Minimum(k), Maximum(k))
    {
      assert FieldResult(fields, k, Ok(FieldWord(e, k)));
      var items := FieldItems(fields, k).value;
      FieldMask(Split(fields[k], ','), Minimum(k), Maximum(k));
      assert FieldWord(e, k)[items[0].start];
    }
  }

  /** An expression of five fields fires on the minute. */
  lemma DefaultSecondsField(w: Word)
    requires match ParseItems(Split("0", ','), 0, 59) case Ok(items) => w == MaskOf(items) case Err(_) => false
    ensures forall b | 0 <= b < 64 :: w[b] <==> b == 0
  {
    OneDigit('0');
    NumberField("0", 0, 0, 59);
  }

  /** The rule of the crontab utility (IEEE Std 1003.1-2017, INPUT FILES): if both day fields are
      restricted a day matches either, otherwise it matches both. */
  lemma CrontabDayRule(e: CronExpr, t: nat)
    ensures var month, week := Test(e.dom, Day(t)), Test(e.dow, Weekday(t));
            MatchDay(e, t) <==>
            if e.dom != EVERY_DAY_OF_MONTH && e.dow != EVERY_DAY_OF_WEEK then month || week else month && week
  {
    EveryDayOfMonthBits();
    EveryDayOfWeekBits();
    DayInMonth(CivilDate(DayNo(t)));
    assert EVERY_DAY_OF_MONTH[Day(t)] && EVERY_DAY_OF_WEEK[Weekday(t)];
  }

  lemma DayInMonth(d: Date)
    requires d.Valid()
    ensures 1 <= d.day <= 31
  {}
}
