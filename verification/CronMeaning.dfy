/** What the search of timer/cronexpr.go finds, in terms of what the texts of the six fields denote and
    of dates and times of day: no part of the search is named. */
module CronMeaning {
  import opened Wrappers

  import opened Calendar
  import opened CronDays
  import opened CronExpr
  import opened CronField
  import opened Word64
  import Chain = CronChain

  /** The items of the six fields. */
  datatype Reading = Reading(sec: seq<Item>, min: seq<Item>, hour: seq<Item>, dom: seq<Item>, month: seq<Item>,
    dow: seq<Item>)

  ghost predicate ReadAs(texts: seq<string>, r: Reading) {
    && |texts| == 6
    && ParseItems(Split(texts[0], ','), 0, 59) == Ok(r.sec)
    && ParseItems(Split(texts[1], ','), 0, 59) == Ok(r.min)
    && ParseItems(Split(texts[2], ','), 0, 23) == Ok(r.hour)
    && ParseItems(Split(texts[3], ','), 1, 31) == Ok(r.dom)
    && ParseItems(Split(texts[4], ','), 1, 12) == Ok(r.month)
    && ParseItems(Split(texts[5], ','), 0, 6) == Ok(r.dow)
  }

  ghost predicate NoneWraps(r: Reading) {
    NoWrap(r.sec) && NoWrap(r.min) && NoWrap(r.hour) && NoWrap(r.dom) && NoWrap(r.month) && NoWrap(r.dow)
  }

  /** A date and a time of day. */
  datatype Moment = Moment(date: Date, hour: nat, minute: nat, second: nat) {
    predicate Valid() { date.Valid() && hour < 24 && minute < 60 && second < 60 }

    /** Seconds since the first moment of year 1. */
    function Position(): nat
      requires Valid()
    {
      86400 * DayNumber(date) + 3600 * hour + 60 * minute + second
    }
  }

  /** 0 is Sunday; see Calendar.KnownWeekday. */
  function WeekdayOf(d: Date): nat
    requires d.Valid()
  {
    (DayNumber(d) + 1) % 7
  }

  /** The expression fires on that day: on the days of either field when both are restricted, and
      otherwise on those of both. */
  ghost predicate FiresOn(r: Reading, d: Date)
    requires d.Valid()
  {
    var month, week := SomeDenotes(r.dom, d.day), SomeDenotes(r.dow, WeekdayOf(d));
    SomeDenotes(r.month, d.month) &&
    if !DenotesAll(r.dom, 1, 31) && !DenotesAll(r.dow, 0, 6) then month || week else month && week
  }

  /** What the texts say: each field denotes its part of the moment. */
  ghost predicate Fires(r: Reading, m: Moment)
    requires m.Valid()
  {
    && FiresOn(r, m.date)
    && SomeDenotes(r.hour, m.hour) && SomeDenotes(r.min, m.minute) && SomeDenotes(r.sec, m.second)
  }

  lemma ReadingOf(texts: seq<string>, e: CronExpr) returns (r: Reading)
    requires CompilesTo(texts, e)
    ensures ReadAs(texts, r)
  {
    CompiledReads(texts, e);
    assert forall k: nat | k < 6 :: ItemsOf(texts[k], 0 + k).Ok?;
    r := Reading(ItemsOf(texts[0], 0).value, ItemsOf(texts[1], 1).value, ItemsOf(texts[2], 2).value,
      ItemsOf(texts[3], 3).value, ItemsOf(texts[4], 4).value, ItemsOf(texts[5], 5).value);
  }

  function ItemsAt(r: Reading, k: nat): seq<Item>
    requires k < 6
  {
    if k == 0 then r.sec else if k == 1 then r.min else if k == 2 then r.hour
    else if k == 3 then r.dom else if k == 4 then r.month else r.dow
  }

  lemma ItemsAtField(texts: seq<string>, r: Reading, k: nat)
    requires ReadAs(texts, r) && k < 6
    ensures FieldItems(texts, k) == Ok(ItemsAt(r, k))
  {
    assert k in {0, 1, 2, 3, 4, 5};
    SameItems(texts, k);
  }

  lemma FieldDenotes(texts: seq<string>, e: CronExpr, r: Reading, k: nat, b: nat)
    requires CompilesTo(texts, e) && ReadAs(texts, r) && NoneWraps(r) && k < 6 && b < 64
    ensures Test(FieldWord(e, k), b) <==> SomeDenotes(ItemsAt(r, k), b)
  {
    ItemsAtField(texts, r, k);
    assert k in {0, 1, 2, 3, 4, 5};
    TestIsDenoted(texts, e, k, b);
  }

  /** The position of a moment is the instant that time.Date gives for it. */
  lemma PositionIsInstant(m: Moment)
    requires m.Valid()
    ensures Instant(m.date.year, m.date.month, m.date.day, m.hour, m.minute, m.second) == m.Position()
  {}

  /** t has the date, the weekday and the time of day of the moment. */
  ghost predicate IsAt(m: Moment, t: nat)
    requires m.Valid()
  {
    && CivilDate(DayNo(t)) == m.date && Weekday(t) == WeekdayOf(m.date)
    && Hour(t) == m.hour && Minute(t) == m.minute && Second(t) == m.second
  }

  lemma WeekdayAt(d: Date, t: nat)
    requires d.Valid() && CivilDate(DayNo(t)) == d
    ensures Weekday(t) == WeekdayOf(d)
  {
    DayNumberOfCivilDate(DayNo(t));
  }

  lemma InstantIsAt(m: Moment, t: nat)
    requires m.Valid() && t == Instant(m.date.year, m.date.month, m.date.day, m.hour, m.minute, m.second)
    ensures IsAt(m, t)
  {
    InstantFields(m.date, m.hour, m.minute, m.second);
    WeekdayAt(m.date, t);
  }

  lemma PositionIsAt(m: Moment)
    requires m.Valid()
    ensures IsAt(m, m.Position())
  {
    PositionIsInstant(m);
    InstantIsAt(m, Instant(m.date.year, m.date.month, m.date.day, m.hour, m.minute, m.second));
  }

  lemma DayMatches(texts: seq<string>, e: CronExpr, r: Reading, m: Moment, t: nat)
    requires CompilesTo(texts, e) && ReadAs(texts, r) && NoneWraps(r) && m.Valid() && IsAt(m, t)
    ensures MatchDay(e, t) && Test(e.month, m.date.month) <==> FiresOn(r, m.date)
  {
    ItemsAtField(texts, r, 3);
    ItemsAtField(texts, r, 5);
    CrontabRuleOfTexts(texts, e, t);
    FieldDenotes(texts, e, r, 4, m.date.month);
  }

  lemma TimeMatches(texts: seq<string>, e: CronExpr, r: Reading, m: Moment)
    requires CompilesTo(texts, e) && ReadAs(texts, r) && NoneWraps(r) && m.Valid()
    ensures Test(e.hour, m.hour) <==> SomeDenotes(r.hour, m.hour)
    ensures Test(e.min, m.minute) <==> SomeDenotes(r.min, m.minute)
    ensures Test(e.sec, m.second) <==> SomeDenotes(r.sec, m.second)
  {
    FieldDenotes(texts, e, r, 2, m.hour);
    FieldDenotes(texts, e, r, 1, m.minute);
    FieldDenotes(texts, e, r, 0, m.second);
  }

  lemma MatchesParts(e: CronExpr, m: Moment, t: nat)
    requires m.Valid() && IsAt(m, t)
    ensures Matches(e, t) <==>
            && MatchDay(e, t) && Test(e.month, m.date.month)
            && Test(e.hour, m.hour) && Test(e.min, m.minute) && Test(e.sec, m.second)
  {}

  lemma MatchesAt(texts: seq<string>, e: CronExpr, r: Reading, m: Moment, t: nat)
    requires CompilesTo(texts, e) && ReadAs(texts, r) && NoneWraps(r) && m.Valid() && IsAt(m, t)
    ensures Matches(e, t) <==> Fires(r, m)
  {
    MatchesParts(e, m, t);
    DayMatches(texts, e, r, m, t);
    TimeMatches(texts, e, r, m);
  }

  /** A compiled expression matches an instant if and only if each of its texts denotes that part of
      its date and time of day, and the day rule holds. */
  lemma MatchesIff(texts: seq<string>, e: CronExpr, r: Reading, m: Moment)
    requires CompilesTo(texts, e) && ReadAs(texts, r) && NoneWraps(r) && m.Valid()
    ensures Matches(e, m.Position()) <==> Fires(r, m)
  {
    PositionIsAt(m);
    MatchesAt(texts, e, r, m, m.Position());
  }

  /** Every instant is the position of its moment. */
  lemma MomentAt(t: nat) returns (m: Moment)
    ensures m.Valid() && m.Position() == t
  {
    m := Moment(CivilDate(DayNo(t)), Hour(t), Minute(t), Second(t));
    InstantOfFields(t);
    PositionIsInstant(m);
  }

  /** Strictly after `nanos` and before the search gives up, in the second year after. */
  predicate InWindowOf(nanos: nat, m: Moment)
    requires m.Valid()
  {
    m.Position() * 1_000_000_000 > nanos && m.date.year <= Year(UpcomingSecond(nanos)) + 1
  }

  lemma InWindowIff(nanos: nat, m: Moment)
    requires m.Valid()
    ensures InWindowOf(nanos, m) <==>
            UpcomingSecond(nanos) <= m.Position() < WindowEnd(UpcomingSecond(nanos))
  {
    UpcomingSecondIff(nanos, m.Position());
    PositionIsAt(m);
    YearPastWindow(UpcomingSecond(nanos), m.Position());
  }

  /** The first moment strictly after `nanos` at which the expression fires, if there is one before
      the search gives up. */
  ghost predicate IsFirst(r: Reading, nanos: nat, next: Option<nat>) {
    match next
    case Some(t) =>
      && (exists m: Moment :: m.Valid() && m.Position() == t && InWindowOf(nanos, m) && Fires(r, m))
      && (forall m: Moment :: m.Valid() && InWindowOf(nanos, m) && Fires(r, m) ==> t <= m.Position())
    case None => forall m: Moment :: m.Valid() && InWindowOf(nanos, m) ==> !Fires(r, m)
  }

  /** The result of Next (see CronChain.NextOf) is the first moment at which the texts say so. */
  lemma NextIsFirst(texts: seq<string>, e: CronExpr, r: Reading, nanos: nat, next: Option<nat>)
    requires CompilesTo(texts, e) && ReadAs(texts, r) && NoneWraps(r) && Chain.IsNext(e, nanos, next)
    ensures IsFirst(r, nanos, next)
  {
    if next.Some? {
      var m := MomentAt(next.value);
      InWindowIff(nanos, m);
      MatchesIff(texts, e, r, m);
    }
    forall m: Moment | m.Valid() && InWindowOf(nanos, m) && Fires(r, m)
      ensures next.Some? && next.value <= m.Position()
    {
      InWindowIff(nanos, m);
      MatchesIff(texts, e, r, m);
    }
  }
}
