/** The two masks by which matchDay recognises a field for every day (timer/cronexpr.go), and the
    days that the fields denote. */
module CronDays {
  import opened Wrappers

  import opened Calendar
  import opened CronExpr
  import opened CronField
  import opened Word64

  ghost predicate VisitsAll(items: seq<Item>, min: int, max: int) {
    forall d: nat | min <= d <= max :: SomeVisits(items, d)
  }

  /** The field denotes every day. */
  ghost predicate DenotesAll(items: seq<Item>, min: int, max: int) {
    forall d: nat | min <= d <= max :: SomeDenotes(items, d)
  }

  ghost predicate StraysBelow(items: seq<Item>, min: int) {
    exists d: nat :: d < min && SomeStrays(items, d)
  }

  ghost predicate AllInBounds(items: seq<Item>, min: int, max: int) {
    forall k | 0 <= k < |items| :: InBounds(items[k], min, max)
  }

  lemma VisitedIsDenotedOrStrayed(items: seq<Item>, min: int, max: int, b: nat)
    requires AllInBounds(items, min, max)
    ensures SomeVisits(items, b) <==> SomeDenotes(items, b) || SomeStrays(items, b)
    ensures SomeVisits(items, b) ==> b <= max
    ensures SomeDenotes(items, b) ==> min <= b
  {}

  /** The mask that consists of the days from min to max. */
  ghost predicate IsRange(every: Word, min: int, max: int) {
    forall b | 0 <= b < 64 :: every[b] <==> min <= b <= max
  }

  lemma MaskIsRangeIff(items: seq<Item>, every: Word, min: int, max: int)
    requires 0 <= min <= max < 64 && AllInBounds(items, min, max) && IsRange(every, min, max)
    ensures MaskOf(items) == every <==> VisitsAll(items, min, max) && !StraysBelow(items, min)
  {
    if MaskOf(items) == every {
      forall d: nat | d < 64
        ensures SomeVisits(items, d) <==> min <= d <= max
        ensures SomeStrays(items, d) ==> SomeVisits(items, d)
      {
        assert MaskOf(items)[d] == every[d];
        VisitedIsDenotedOrStrayed(items, min, max, d);
      }
    }
    if VisitsAll(items, min, max) && !StraysBelow(items, min) {
      forall b | 0 <= b < 64
        ensures MaskOf(items)[b] == every[b]
      {
        VisitedIsDenotedOrStrayed(items, min, max, b);
      }
    }
  }

  /** When the recognition agrees with what the field denotes: a field for every day must not have
      strayed below the first, and any other must have done so or have left out some day. */
  ghost predicate Agrees(items: seq<Item>, min: int, max: int) {
    if DenotesAll(items, min, max) then !StraysBelow(items, min)
    else StraysBelow(items, min) || !VisitsAll(items, min, max)
  }

  /** A field is recognised exactly when its items visit every day and no other value; without
      wrapping steps, exactly when it denotes every day; and the two agree exactly as above. */
  ghost predicate RecognisedIff(items: seq<Item>, w: Word, every: Word, min: int, max: int) {
    && (w == every <==> VisitsAll(items, min, max) && !StraysBelow(items, min))
    && (NoWrap(items) ==> (w == every <==> DenotesAll(items, min, max)))
    && ((w == every <==> DenotesAll(items, min, max)) <==> Agrees(items, min, max))
  }

  lemma DenotedIsVisited(items: seq<Item>, min: int, max: int)
    requires AllInBounds(items, min, max)
    ensures DenotesAll(items, min, max) ==> VisitsAll(items, min, max)
  {
    forall d: nat
      ensures SomeDenotes(items, d) ==> SomeVisits(items, d)
    {
      VisitedIsDenotedOrStrayed(items, min, max, d);
    }
  }

  lemma WithoutStrays(items: seq<Item>, min: int, max: int)
    requires 0 <= min <= max < 64 && AllInBounds(items, min, max) && NoWrap(items)
    ensures !StraysBelow(items, min) && (VisitsAll(items, min, max) <==> DenotesAll(items, min, max))
  {
    FieldStraysIff(items);
    forall d: nat
      ensures SomeVisits(items, d) <==> SomeDenotes(items, d)
    {
      VisitedIsDenotedOrStrayed(items, min, max, d);
    }
  }

  lemma RecognisedExactly(items: seq<Item>, every: Word, min: int, max: int)
    requires 0 <= min <= max < 64 && AllInBounds(items, min, max) && IsRange(every, min, max)
    ensures RecognisedIff(items, MaskOf(items), every, min, max)
  {
    MaskIsRangeIff(items, every, min, max);
    DenotedIsVisited(items, min, max);
    if NoWrap(items) {
      WithoutStrays(items, min, max);
    }
  }

  lemma FieldRecognised(fields: seq<string>, e: CronExpr, k: nat, every: Word)
    requires CompilesTo(fields, e) && k < 6 && IsRange(every, Minimum(k), Maximum(k))
    ensures FieldItems(fields, k).Ok?
    ensures RecognisedIff(FieldItems(fields, k).value, FieldWord(e, k), every, Minimum(k), Maximum(k))
  {
    assert FieldResult(fields, k, Ok(FieldWord(e, k)));
    var items := FieldItems(fields, k).value;
    forall i | 0 <= i < |items|
      ensures InBounds(items[i], Minimum(k), Maximum(k))
    {
      assert ParseItem(Split(fields[k], ',')[i], Minimum(k), Maximum(k)) == Ok(items[i]);
    }
    RecognisedExactly(items, every, Minimum(k), Maximum(k));
  }

  /** When the two day fields of a compiled expression are taken for every day, in terms of what
      their texts denote. */
  lemma EveryDayIff(fields: seq<string>, e: CronExpr)
    requires CompilesTo(fields, e)
    ensures FieldItems(fields, 3).Ok? && RecognisedIff(FieldItems(fields, 3).value, e.dom, EVERY_DAY_OF_MONTH, 1, 31)
    ensures FieldItems(fields, 5).Ok? && RecognisedIff(FieldItems(fields, 5).value, e.dow, EVERY_DAY_OF_WEEK, 0, 6)
  {
    EveryDayOfMonthBits();
    EveryDayOfWeekBits();
    FieldRecognised(fields, e, 3, EVERY_DAY_OF_MONTH);
    FieldRecognised(fields, e, 5, EVERY_DAY_OF_WEEK);
  }

  /** The crontab rule in terms of the texts: where no step wraps, a day field is restricted unless
      it denotes every day, and matches the days it denotes. */
  lemma CrontabRuleOfTexts(fields: seq<string>, e: CronExpr, t: nat)
    requires CompilesTo(fields, e)
    requires FieldItems(fields, 3).Ok? && NoWrap(FieldItems(fields, 3).value)
    requires FieldItems(fields, 5).Ok? && NoWrap(FieldItems(fields, 5).value)
    ensures var dom, dow := FieldItems(fields, 3).value, FieldItems(fields, 5).value;
            var month, week := SomeDenotes(dom, Day(t)), SomeDenotes(dow, Weekday(t));
            MatchDay(e, t) <==>
            if !DenotesAll(dom, 1, 31) && !DenotesAll(dow, 0, 6) then month || week else month && week
  {
    EveryDayIff(fields, e);
    CrontabDayRule(e, t);
    DayInMonth(CivilDate(DayNo(t)));
    TestIsDenoted(fields, e, 3, Day(t));
    TestIsDenoted(fields, e, 5, Weekday(t));
  }

  lemma TestIsDenoted(fields: seq<string>, e: CronExpr, k: nat, b: nat)
    requires CompilesTo(fields, e) && k < 6 && b < 64
    requires FieldItems(fields, k).Ok? && NoWrap(FieldItems(fields, k).value)
    ensures Test(FieldWord(e, k), b) <==> SomeDenotes(FieldItems(fields, k).value, b)
  {
    assert FieldResult(fields, k, Ok(FieldWord(e, k)));
    FieldMask(Split(fields[k], ','), Minimum(k), Maximum(k));
  }

  // Three fields for which the recognition and the denotation disagree

  lemma RangeText(a: string, b: string, start: int, end: int, min: int, max: int)
    requires Numeral(a, start) && Numeral(b, end)
    ensures EndsText(a + "-" + b, start, end, min, max, true) && ',' !in a + "-" + b
  {
    NumeralCharacters(a);
    NumeralCharacters(b);
  }

  lemma SteppedParses(ends: string, step: string, item: Item, min: int, max: int)
    requires EndsText(ends, item.start, item.end, min, max, true) && ',' !in ends
    requires Atoi(step) == Some(item.incr) && InBounds(item, min, max)
    ensures ParseItem(ends + "/" + step, min, max) == Ok(item) && ',' !in ends + "/" + step
  {
    NumeralCharacters(step);
    ParseItemIff(ends + "/" + step, item, min, max);
  }

  /** "*,2/9223372036854775807" */
  function EveryDayWithStray(step: string): seq<string> { ["*", "2" + "/" + step] }

  /** "2-31/2,31/9223372036854775807" */
  function EvenDaysWithStrays(step: string): seq<string> { ["2" + "-" + "31" + "/" + "2", "31" + "/" + step] }

  /** "1,3,5,6/9223372036854775807" */
  function OddDaysWithStrays(step: string): seq<string> { ["1", "3", "5", "6" + "/" + step] }

  lemma StrayTexts(step: string)
    ensures Join(EveryDayWithStray(step), ',') == "*,2/" + step
    ensures Join(EvenDaysWithStrays(step), ',') == "2-31/2,31/" + step
    ensures Join(OddDaysWithStrays(step), ',') == "1,3,5,6/" + step
  {
    var texts := OddDaysWithStrays(step);
    assert texts[1..] == ["3", "5", "6" + "/" + step];
    assert texts[1..][1..] == ["5", "6" + "/" + step];
    assert Join(texts[1..][1..], ',') == "5,6/" + step;
    assert Join(texts[1..], ',') == "3,5,6/" + step;
  }

  lemma EveryDayParses(step: string, items: seq<Item>)
    requires Atoi(step) == Some(MAX_INT) && items == [Item(1, 31, 1), Item(2, 31, MAX_INT)]
    ensures ParseItems(Split(Join(EveryDayWithStray(step), ','), ','), 1, 31) == Ok(items)
  {
    StarParses(1, 31);
    OneDigit('2');
    LargestStepParses("2", step, items[1], 1, 31);
    ItemsField(EveryDayWithStray(step), items, 1, 31);
  }

  lemma EveryDayMask(items: seq<Item>)
    requires items == [Item(1, 31, 1), Item(2, 31, MAX_INT)]
    ensures DenotesAll(items, 1, 31) && MaskOf(items) != EVERY_DAY_OF_MONTH
  {
    forall d: nat | 1 <= d <= 31
      ensures SomeDenotes(items, d)
    {
      assert Denotes(items[0], d);
    }
    assert Strays(items[1], 0);
    assert MaskOf(items)[0];
    EveryDayOfMonthBits();
  }

  /** A day of month that denotes every day, and is not taken for it. */
  lemma EveryDayNotRecognised() returns (items: seq<Item>)
    ensures ParseItems(Split(Join(EveryDayWithStray(LARGEST), ','), ','), 1, 31) == Ok(items)
    ensures DenotesAll(items, 1, 31) && MaskOf(items) != EVERY_DAY_OF_MONTH
  {
    items := [Item(1, 31, 1), Item(2, 31, MAX_INT)];
    EveryDayMask(items);
    LargestInt();
    EveryDayParses(LARGEST, items);
  }

  lemma EvenDaysParse(step: string, items: seq<Item>)
    requires Atoi(step) == Some(MAX_INT) && items == [Item(2, 31, 2), Item(31, 31, MAX_INT)]
    ensures ParseItems(Split(Join(EvenDaysWithStrays(step), ','), ','), 1, 31) == Ok(items)
  {
    OneDigit('2');
    TwoDigits('3', '1');
    assert ['3', '1'] == "31";
    RangeText("2", "31", 2, 31, 1, 31);
    SteppedParses("2" + "-" + "31", "2", items[0], 1, 31);
    LargestStepParses("31", step, items[1], 1, 31);
    ItemsField(EvenDaysWithStrays(step), items, 1, 31);
  }

  /** A step of 2^63 - 1 strays onto every second value below its start. */
  lemma LargestStepStrays(item: Item, b: nat)
    requires item.incr == MAX_INT && b < item.start
    ensures Strays(item, b) <==> (item.start - b) % 2 == 0
  {}

  lemma EvenDayVisited(items: seq<Item>, d: nat)
    requires items == [Item(2, 31, 2), Item(31, 31, MAX_INT)] && 1 <= d <= 31
    ensures SomeVisits(items, d)
  {
    if d % 2 == 0 {
      assert Denotes(items[0], d);
    } else if d < 31 {
      LargestStepStrays(items[1], d);
      assert Visits(items[1], d);
    } else {
      assert Denotes(items[1], d);
    }
  }

  lemma EvenDaysMask(items: seq<Item>)
    requires items == [Item(2, 31, 2), Item(31, 31, MAX_INT)]
    ensures MaskOf(items) == EVERY_DAY_OF_MONTH && !SomeDenotes(items, 1) && !SomeDenotes(items, 3)
  {
    forall d: nat | 1 <= d <= 31
      ensures SomeVisits(items, d)
    {
      EvenDayVisited(items, d);
    }
    LargestStepStrays(items[1], 0);
    assert !Strays(items[0], 0);
    EveryDayOfMonthBits();
    MaskIsRangeIff(items, EVERY_DAY_OF_MONTH, 1, 31);
  }

  /** A day of month that is taken for every day, although it denotes neither 1 nor 3. */
  lemma SomeDaysTakenForEvery() returns (items: seq<Item>)
    ensures ParseItems(Split(Join(EvenDaysWithStrays(LARGEST), ','), ','), 1, 31) == Ok(items)
    ensures MaskOf(items) == EVERY_DAY_OF_MONTH && !SomeDenotes(items, 1) && !SomeDenotes(items, 3)
  {
    items := [Item(2, 31, 2), Item(31, 31, MAX_INT)];
    EvenDaysMask(items);
    LargestInt();
    EvenDaysParse(LARGEST, items);
  }

  lemma OddDaysParse(step: string, items: seq<Item>)
    requires Atoi(step) == Some(MAX_INT)
    requires items == [Item(1, 1, 1), Item(3, 3, 1), Item(5, 5, 1), Item(6, 6, MAX_INT)]
    ensures ParseItems(Split(Join(OddDaysWithStrays(step), ','), ','), 0, 6) == Ok(items)
  {
    DigitParses('1', 0, 6);
    DigitParses('3', 0, 6);
    DigitParses('5', 0, 6);
    OneDigit('6');
    LargestStepParses("6", step, items[3], 0, 6);
    ItemsField(OddDaysWithStrays(step), items, 0, 6);
  }

  lemma OddDayVisited(items: seq<Item>, d: nat)
    requires items == [Item(1, 1, 1), Item(3, 3, 1), Item(5, 5, 1), Item(6, 6, MAX_INT)] && d <= 6
    ensures SomeVisits(items, d)
  {
    if d % 2 == 1 {
      assert Denotes(items[d / 2], d);
    } else if d < 6 {
      LargestStepStrays(items[3], d);
      assert Visits(items[3], d);
    } else {
      assert Denotes(items[3], d);
    }
  }

  lemma OddDaysMask(items: seq<Item>)
    requires items == [Item(1, 1, 1), Item(3, 3, 1), Item(5, 5, 1), Item(6, 6, MAX_INT)]
    ensures MaskOf(items) == EVERY_DAY_OF_WEEK && !SomeDenotes(items, 0)
  {
    forall d: nat | d <= 6
      ensures SomeVisits(items, d)
    {
      OddDayVisited(items, d);
    }
    EveryDayOfWeekBits();
    MaskIsRangeIff(items, EVERY_DAY_OF_WEEK, 0, 6);
  }

  /** A day of week that is taken for every day, although it does not denote Sunday. */
  lemma SomeWeekdaysTakenForEvery() returns (items: seq<Item>)
    ensures ParseItems(Split(Join(OddDaysWithStrays(LARGEST), ','), ','), 0, 6) == Ok(items)
    ensures MaskOf(items) == EVERY_DAY_OF_WEEK && !SomeDenotes(items, 0)
  {
    items := [Item(1, 1, 1), Item(3, 3, 1), Item(5, 5, 1), Item(6, 6, MAX_INT)];
    OddDaysMask(items);
    LargestInt();
    OddDaysParse(LARGEST, items);
  }
}
