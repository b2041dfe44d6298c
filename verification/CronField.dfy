/** The text of one cron field and its compilation to a bit mask (timer/cronexpr.go). */
module CronField {
  import opened Ints
  import opened Word64
  import opened Wrappers

  // Text: strings.Split by one character and strconv.Atoi on a 64-bit int

  function Split(s: string, sep: char): (parts: seq<string>)
    ensures |parts| >= 1
  {
    if s == "" then [""]
    else
      var rest := Split(s[1..], sep);
      if s[0] == sep then [""] + rest else [[s[0]] + rest[0]] + rest[1..]
  }

  function Join(parts: seq<string>, sep: char): string
    requires |parts| >= 1
  {
    if |parts| == 1 then parts[0] else parts[0] + [sep] + Join(parts[1..], sep)
  }

  lemma JoinGrows(parts: seq<string>, sep: char, c: char)
    requires |parts| >= 1
    ensures Join([""] + parts, sep) == [sep] + Join(parts, sep)
    ensures Join([[c] + parts[0]] + parts[1..], sep) == [c] + Join(parts, sep)
  {
    var below, longer := [""] + parts, [[c] + parts[0]] + parts[1..];
    assert below[1..] == parts && longer[1..] == parts[1..];
    if |parts| > 1 {
      assert [c] + (parts[0] + [sep] + Join(parts[1..], sep)) == [c] + parts[0] + [sep] + Join(parts[1..], sep);
    }
  }

  lemma {:induction false} JoinOfSplit(s: string, sep: char)
    ensures Join(Split(s, sep), sep) == s
  {
    if s != "" {
      JoinOfSplit(s[1..], sep);
      JoinGrows(Split(s[1..], sep), sep, s[0]);
      assert s == [s[0]] + s[1..];
    }
  }

  lemma {:induction false} SplitPartsAvoidSep(s: string, sep: char)
    ensures forall p | p in Split(s, sep) :: sep !in p
  {
    if s != "" {
      SplitPartsAvoidSep(s[1..], sep);
      var rest := Split(s[1..], sep);
      assert forall p | p in Split(s, sep) :: p == "" || p == [s[0]] + rest[0] || p in rest;
    }
  }

  lemma {:induction false} SplitOfJoin(parts: seq<string>, sep: char)
    requires |parts| >= 1 && forall p | p in parts :: sep !in p
    ensures Split(Join(parts, sep), sep) == parts
    decreases |parts|, |parts[0]|
  {
    var s := Join(parts, sep);
    if parts[0] == "" {
      if |parts| > 1 {
        SplitOfJoin(parts[1..], sep);
        assert s[1..] == Join(parts[1..], sep);
      }
    } else {
      var shorter := [parts[0][1..]] + parts[1..];
      assert parts[0] == [s[0]] + shorter[0];
      assert parts[0] in parts;
      assert shorter[1..] == parts[1..];
      SplitOfJoin(shorter, sep);
      assert s[1..] == Join(shorter, sep);
      assert parts == [[s[0]] + shorter[0]] + shorter[1..];
    }
  }

  /** With a separator that occurs in no part, a text splits in exactly one way. */
  lemma SplitIff(s: string, parts: seq<string>, sep: char)
    requires |parts| >= 1
    ensures Split(s, sep) == parts <==> s == Join(parts, sep) && forall p | p in parts :: sep !in p
  {
    JoinOfSplit(s, sep);
    SplitPartsAvoidSep(s, sep);
    if s == Join(parts, sep) && forall p | p in parts :: sep !in p {
      SplitOfJoin(parts, sep);
    }
  }

  function Count(s: string, c: char): nat {
    if s == "" then 0 else (if s[0] == c then 1 else 0) + Count(s[1..], c)
  }

  lemma {:induction false} SplitCount(s: string, sep: char)
    ensures |Split(s, sep)| == Count(s, sep) + 1
  {
    if s != "" { SplitCount(s[1..], sep); }
  }

  const MAX_INT: int := 0x7fff_ffff_ffff_ffff
  const MIN_INT: int := -0x8000_0000_0000_0000

  predicate IsDigits(s: string) {
    s != "" && forall i | 0 <= i < |s| :: '0' <= s[i] <= '9'
  }

  function DigitsValue(s: string): nat
    requires forall i | 0 <= i < |s| :: '0' <= s[i] <= '9'
  {
    if s == "" then 0 else 10 * DigitsValue(s[..|s| - 1]) + (s[|s| - 1] as int - '0' as int)
  }

  /** None stands for a syntax or range error. */
  function Atoi(s: string): Option<int> {
    var negative := s != "" && s[0] == '-';
    var digits := if s != "" && (s[0] == '-' || s[0] == '+') then s[1..] else s;
    if !IsDigits(digits) then None
    else
      var v: int := if negative then -(DigitsValue(digits) as int) else DigitsValue(digits);
      if MIN_INT <= v <= MAX_INT then Some(v) else None
  }

  // One item of a field

  datatype ParseError = TooManySlashes | TooManyHyphens | InvalidRange | OutOfRange | InvalidIncrement | WrongFieldCount

  /** The values start, start + incr, ... that do not exceed end. */
  datatype Item = Item(start: int, end: int, incr: int)

  predicate InBounds(item: Item, min: int, max: int) {
    min <= item.start <= item.end <= max && 1 <= item.incr <= MAX_INT
  }

  /** The two ends that the text before the slash stands for. */
  function ParseEnds(text: string, stepped: bool, min: int, max: int): Result<(int, int), ParseError> {
    var startAndEnd := Split(text, '-');
    if |startAndEnd| > 2 then Err(TooManyHyphens)
    else if startAndEnd[0] == "*" then
      if |startAndEnd| != 1 then Err(InvalidRange) else Ok((min, max))
    else
      match Atoi(startAndEnd[0])
      case None => Err(InvalidRange)
      case Some(start) =>
        if |startAndEnd| == 1 then Ok((start, if stepped then max else start))
        else
          match Atoi(startAndEnd[1])
          case None => Err(InvalidRange)
          case Some(end) => Ok((start, end))
  }

  function ParseItem(field: string, min: int, max: int): (r: Result<Item, ParseError>)
    ensures r.Ok? ==> InBounds(r.value, min, max)
  {
    var rangeAndIncr := Split(field, '/');
    if |rangeAndIncr| > 2 then Err(TooManySlashes)
    else
      // range
      match ParseEnds(rangeAndIncr[0], |rangeAndIncr| == 2, min, max)
      case Err(e) => Err(e)
      case Ok((start, end)) =>
        if start > end then Err(InvalidRange)
        else if start < min then Err(OutOfRange)
        else if end > max then Err(OutOfRange)
        // increment
        else if |rangeAndIncr| == 1 then Ok(Item(start, end, 1))
        else
          match Atoi(rangeAndIncr[1])
          case None => Err(InvalidIncrement)
          case Some(incr) => if incr <= 0 then Err(InvalidIncrement) else Ok(Item(start, end, incr))
  }

  // The grammar the comment above the parser lists, as a relation between texts and items

  predicate Numeral(text: string, value: int) {
    Atoi(text) == Some(value) && '-' !in text
  }

  /** `text` is "*", "num" or "num-num" with the given ends; `far` ends an open range. */
  ghost predicate EndsText(text: string, start: int, end: int, min: int, max: int, stepped: bool) {
    || (text == "*" && start == min && end == max)
    || (Numeral(text, start) && end == if stepped then max else start)
    || exists a, b :: text == a + "-" + b && Numeral(a, start) && Numeral(b, end)
  }

  ghost predicate ItemText(field: string, item: Item, min: int, max: int) {
    || (item.incr == 1 && EndsText(field, item.start, item.end, min, max, false))
    || exists a, c :: field == a + "/" + c && EndsText(a, item.start, item.end, min, max, true) &&
        Atoi(c) == Some(item.incr)
  }

  lemma NumeralCharacters(text: string)
    requires Atoi(text).Some?
    ensures '/' !in text && ',' !in text && text != "*" && text != ""
  {
    if text[0] == '-' || text[0] == '+' {
      assert text == [text[0]] + text[1..];
    } else {
      assert text[0] != '*';
    }
  }

  lemma ParsedEndsHaveText(text: string, stepped: bool, start: int, end: int, min: int, max: int)
    requires ParseEnds(text, stepped, min, max) == Ok((start, end))
    ensures EndsText(text, start, end, min, max, stepped)
  {
    JoinOfSplit(text, '-');
    SplitPartsAvoidSep(text, '-');
    var parts := Split(text, '-');
    assert parts[0] in parts;
    if |parts| == 1 {
      assert text == parts[0];
    } else {
      assert parts[1] in parts;
      assert text == parts[0] + "-" + parts[1] && Numeral(parts[0], start) && Numeral(parts[1], end);
    }
  }

  lemma SpanTextParses(text: string, a: string, b: string, stepped: bool, start: int, end: int, min: int, max: int)
    requires text == a + "-" + b && Numeral(a, start) && Numeral(b, end)
    ensures ParseEnds(text, stepped, min, max) == Ok((start, end)) && '/' !in text && ',' !in text
  {
    SplitIff(text, [a, b], '-');
    assert Split(text, '-') == [a, b];
    NumeralCharacters(a);
    NumeralCharacters(b);
  }

  lemma SingleTextParses(text: string, stepped: bool, start: int, end: int, min: int, max: int)
    requires (text == "*" && start == min && end == max) || (Numeral(text, start) &&
        end == if stepped then max else start)
    ensures ParseEnds(text, stepped, min, max) == Ok((start, end)) && '/' !in text && ',' !in text
  {
    SplitIff(text, [text], '-');
    assert Split(text, '-') == [text];
    if text != "*" {
      NumeralCharacters(text);
    }
  }

  lemma EndsTextIff(text: string, stepped: bool, start: int, end: int, min: int, max: int)
    ensures ParseEnds(text, stepped, min, max) == Ok((start, end)) <==> EndsText(text, start, end, min, max, stepped)
    ensures EndsText(text, start, end, min, max, stepped) ==> '/' !in text && ',' !in text
  {
    if ParseEnds(text, stepped, min, max) == Ok((start, end)) {
      ParsedEndsHaveText(text, stepped, start, end, min, max);
    }
    if EndsText(text, start, end, min, max, stepped) {
      if (text == "*" && start == min && end == max) || (Numeral(text, start) &&
          end == if stepped then max else start) {
        SingleTextParses(text, stepped, start, end, min, max);
      } else {
        var a, b :| text == a + "-" + b && Numeral(a, start) && Numeral(b, end);
        SpanTextParses(text, a, b, stepped, start, end, min, max);
      }
    }
  }

  /** The parser accepts exactly the six documented forms with both ends in bounds and a positive
      step, and reads each as the item it denotes. */
  lemma ParseItemIff(field: string, item: Item, min: int, max: int)
    ensures ParseItem(field, min, max) == Ok(item) <==> ItemText(field, item, min, max) && InBounds(item, min, max)
  {
    JoinOfSplit(field, '/');
    var parts := Split(field, '/');
    if ParseItem(field, min, max) == Ok(item) {
      EndsTextIff(parts[0], |parts| == 2, item.start, item.end, min, max);
      if |parts| == 2 {
        assert field == parts[0] + "/" + parts[1];
      } else {
        assert field == parts[0];
      }
    }
    if ItemText(field, item, min, max) && InBounds(item, min, max) {
      if item.incr == 1 && EndsText(field, item.start, item.end, min, max, false) {
        EndsTextIff(field, false, item.start, item.end, min, max);
        SplitIff(field, [field], '/');
      } else {
        var a, c :| field == a + "/" + c && EndsText(a, item.start, item.end, min, max, true) &&
            Atoi(c) == Some(item.incr);
        EndsTextIff(a, true, item.start, item.end, min, max);
        NumeralCharacters(c);
        SplitIff(field, [a, c], '/');
      }
    }
  }

  // The mask

  /** An int64 sum, which wraps. */
  function AddInt(a: int, b: int): int {
    if a + b > MAX_INT then a + b - 0x1_0000_0000_0000_0000 else a + b
  }

  function AsUint(i: int): nat
    requires MIN_INT <= i
  {
    if i < 0 then i + 0x1_0000_0000_0000_0000 else i
  }

  ghost predicate Denotes(item: Item, i: nat) {
    item.incr > 0 && item.start <= i <= item.end && (i - item.start) % item.incr == 0
  }

  /** The step short of 2^63, by which every second addition falls back once the sum wraps. */
  ghost function Shortfall(item: Item): nat
    requires item.incr <= MAX_INT
  {
    MAX_INT + 1 - item.incr
  }

  /** Values below the start that the wrapping loop visits. */
  ghost predicate Strays(item: Item, i: nat) {
    item.incr <= MAX_INT && i < item.start && (item.start - i) % (2 * Shortfall(item)) == 0
  }

  ghost predicate Visits(item: Item, i: nat) {
    Denotes(item, i) || Strays(item, i)
  }

  /** The loop meets the denotation exactly when start + 2 * incr stays below 2^64. */
  lemma StraysIff(item: Item)
    requires InBounds(item, 0, 63)
    ensures (exists i: nat :: Strays(item, i)) <==> item.start + 2 * item.incr >= 0x1_0000_0000_0000_0000
  {
    var back := 2 * Shortfall(item);
    if item.start >= back {
      ModOfSum(0, back, back);
      assert Strays(item, item.start - back);
    } else {
      forall i: nat | i < item.start
        ensures !Strays(item, i)
      {
        ModOfSum(0, item.start - i, back);
      }
    }
  }

  lemma ModOfSum(a: nat, d: nat, m: nat)
    requires 0 < m && a % m == 0 && d <= m
    ensures (a + d) % m == if d == m then 0 else d
  {
    if d == m {
      Quotient(a + d, m, a / m + 1, 0);
    } else {
      Quotient(a + d, m, a / m, d);
    }
  }

  /** The bits the loop has set on reaching i. */
  ghost predicate VisitedBefore(item: Item, i: int, b: nat)
    requires InBounds(item, 0, 63)
  {
    if Shortfall(item) > 63 then Denotes(item, b) && b < i
    else if i > item.end || -128 <= i < 0 then Visits(item, b)
    else
      // i, or the next non-negative value after a wrapped i
      var next := if i >= 0 then i else i + item.incr;
      b > next && (b == item.start || Strays(item, b))
  }

  ghost predicate LoopState(item: Item, i: int)
    requires InBounds(item, 0, 63)
  {
    var k := Shortfall(item);
    if k > 63 then item.start <= i <= MAX_INT && (i <= item.end ==> (i - item.start) % item.incr == 0)
    else if i >= 0 then i <= MAX_INT && (i <= item.end ==> i <= item.start && (item.start - i) % (2 * k) == 0)
    else MIN_INT <= i && (i < -128 ==>
        i + item.incr + 2 * k <= item.start && (item.start - i - item.incr) % (2 * k) == 0)
  }

  /** A bound on the iterations left. */
  ghost function Remaining(item: Item, i: int): int
    requires InBounds(item, 0, 63)
  {
    if Shortfall(item) > 63 then item.end - i
    else if i >= 0 then (if i > item.end then 0 else 2 * i + 3)
    else if i >= -128 then 1
    else if i + item.incr >= 0 then 2 * (i + item.incr) + 4
    else 2
  }

  lemma LoopStepPlain(item: Item, i: int, next: int)
    requires InBounds(item, 0, 63) && LoopState(item, i) && i <= item.end && next == AddInt(i, item.incr)
    requires Shortfall(item) > 63
    ensures next == i + item.incr && LoopState(item, next)
  {
    ModOfSum(i - item.start, item.incr, item.incr);
  }

  /** From a value that is not negative: either past the end at once, or wrapped. */
  lemma LoopStepForward(item: Item, i: int, next: int)
    requires InBounds(item, 0, 63) && LoopState(item, i) && i <= item.end && next == AddInt(i, item.incr)
    requires Shortfall(item) <= 63 && 0 <= i
    ensures LoopState(item, next)
    ensures if i < Shortfall(item) then next > item.end else next < -128 && next + item.incr == i - 2 * Shortfall(item)
  {
    var k := Shortfall(item);
    ModOfSum(item.start - i, 2 * k, 2 * k);
    assert next == if i < k then i + MAX_INT + 1 - k else i - k - MAX_INT - 1;
    assert i >= k ==> item.start - next - item.incr == item.start - i + 2 * k;
  }

  lemma LoopStepBack(item: Item, i: int, next: int)
    requires InBounds(item, 0, 63) && LoopState(item, i) && next == AddInt(i, item.incr)
    requires Shortfall(item) <= 63 && i < 0
    ensures next == i + item.incr && LoopState(item, next)
    ensures -128 <= i ==> next > item.end
    ensures i < -128 ==> -128 <= next < item.start
  {}

  /** With so large a step an item denotes its start alone, and strays are a double shortfall apart. */
  lemma LargeStep(item: Item, b: nat)
    requires InBounds(item, 0, 63) && Shortfall(item) <= 63
    ensures Denotes(item, b) <==> b == item.start
  {
    if item.start < b <= item.end {
      ModOfSum(0, b - item.start, item.incr);
    }
  }

  lemma NoStrayBetween(item: Item, i: nat, b: nat)
    requires InBounds(item, 0, 63) && LoopState(item, i) && i <= item.end && Shortfall(item) <= 63
    requires b < i < b + 2 * Shortfall(item)
    ensures !Strays(item, b)
  {
    ModOfSum(item.start - i, i - b, 2 * Shortfall(item));
  }

  lemma VisitPlain(item: Item, i: int, b: nat)
    requires InBounds(item, 0, 63) && LoopState(item, i) && i <= item.end && Shortfall(item) > 63
    ensures VisitedBefore(item, i + item.incr, b) <==> VisitedBefore(item, i, b) || b == i
  {
    if i < b < i + item.incr {
      ModOfSum(i - item.start, b - i, item.incr);
    }
  }

  lemma VisitForward(item: Item, i: int, b: nat)
    requires InBounds(item, 0, 63) && LoopState(item, i) && i <= item.end && Shortfall(item) <= 63 && 0 <= i
    ensures VisitedBefore(item, AddInt(i, item.incr), b) <==> VisitedBefore(item, i, b) || b == i
  {
    LoopStepForward(item, i, AddInt(i, item.incr));
    LargeStep(item, b);
    if b < i < b + 2 * Shortfall(item) {
      NoStrayBetween(item, i, b);
    }
  }

  lemma VisitBack(item: Item, i: int, b: nat)
    requires InBounds(item, 0, 63) && LoopState(item, i) && Shortfall(item) <= 63 && i < 0
    ensures VisitedBefore(item, AddInt(i, item.incr), b) <==> VisitedBefore(item, i, b)
  {
    LoopStepBack(item, i, AddInt(i, item.incr));
    LargeStep(item, b);
  }

  lemma VisitStep(item: Item, i: int, b: nat)
    requires InBounds(item, 0, 63) && LoopState(item, i) && i <= item.end && b < 64
    ensures VisitedBefore(item, AddInt(i, item.incr), b) <==> VisitedBefore(item, i, b) || b == AsUint(i)
  {
    if Shortfall(item) > 63 {
      VisitPlain(item, i, b);
    } else if i >= 0 {
      VisitForward(item, i, b);
    } else {
      VisitBack(item, i, b);
    }
  }

  lemma VisitedInTheEnd(item: Item, i: int, b: nat)
    requires InBounds(item, 0, 63) && LoopState(item, i) && i > item.end && b < 64
    ensures VisitedBefore(item, i, b) <==> Visits(item, b)
  {
    if Shortfall(item) > 63 && b < item.start {
      ModOfSum(0, item.start - b, 2 * Shortfall(item));
    }
  }

  lemma LoopMakesProgress(item: Item, i: int)
    requires InBounds(item, 0, 63) && LoopState(item, i) && i <= item.end
    ensures LoopState(item, AddInt(i, item.incr))
    ensures 0 <= Remaining(item, i)
    ensures Remaining(item, AddInt(i, item.incr)) < Remaining(item, i)
  {
    if Shortfall(item) > 63 {
      LoopStepPlain(item, i, AddInt(i, item.incr));
    } else if i >= 0 {
      LoopStepForward(item, i, AddInt(i, item.incr));
    } else {
      LoopStepBack(item, i, AddInt(i, item.incr));
    }
  }

  /** At step 1 two shifts and a complement set the whole range at once. */
  lemma RangeMask(item: Item, b: nat)
    requires InBounds(item, 0, 63) && item.incr == 1 && b < 64
    ensures And(Not(Shl(All(), item.end + 1)), Shl(All(), item.start))[b] <==> Visits(item, b)
  {
    if b < item.start {
      ModOfSum(0, item.start - b, 2 * Shortfall(item));
    }
  }

  ghost predicate Progress(mask: Word, r: Word, item: Item, i: int)
    requires InBounds(item, 0, 63)
  {
    LoopState(item, i) && forall b | 0 <= b < 64 :: r[b] <==> mask[b] || VisitedBefore(item, i, b)
  }

  lemma ProgressStart(mask: Word, item: Item)
    requires InBounds(item, 0, 63)
    ensures Progress(mask, mask, item, item.start)
  {}

  lemma ProgressStep(mask: Word, r: Word, item: Item, i: int, next: int)
    requires InBounds(item, 0, 63) && Progress(mask, r, item, i) && i <= item.end && next == AddInt(i, item.incr)
    ensures Progress(mask, Or(r, Shl(One(), AsUint(i))), item, next)
    ensures 0 <= Remaining(item, i) && Remaining(item, next) < Remaining(item, i)
  {
    LoopMakesProgress(item, i);
    var r' := Or(r, Shl(One(), AsUint(i)));
    forall b | 0 <= b < 64
      ensures r'[b] <==> mask[b] || VisitedBefore(item, next, b)
    {
      VisitStep(item, i, b);
      assert Shl(One(), AsUint(i))[b] <==> b == AsUint(i);
    }
  }

  lemma ProgressEnd(mask: Word, r: Word, item: Item, i: int)
    requires InBounds(item, 0, 63) && Progress(mask, r, item, i) && i > item.end
    ensures forall b | 0 <= b < 64 :: r[b] <==> mask[b] || Visits(item, b)
  {
    forall b | 0 <= b < 64
      ensures r[b] <==> mask[b] || Visits(item, b)
    {
      VisitedInTheEnd(item, i, b);
    }
  }

  method OrSteps(mask: Word, item: Item) returns (r: Word)
    requires InBounds(item, 0, 63)
    ensures forall b | 0 <= b < 64 :: r[b] <==> mask[b] || Visits(item, b)
  {
    r := mask;
    var i := item.start;
    ProgressStart(mask, item);
    while i <= item.end
      invariant Progress(mask, r, item, i)
      decreases Remaining(item, i)
    {
      ProgressStep(mask, r, item, i, AddInt(i, item.incr));
      r := Or(r, Shl(One(), AsUint(i)));
      i := AddInt(i, item.incr);
    }
    ProgressEnd(mask, r, item, i);
  }

  /** The bits one item adds to the mask. */
  method OrItem(mask: Word, item: Item) returns (r: Word)
    requires InBounds(item, 0, 63)
    ensures forall b | 0 <= b < 64 :: r[b] <==> mask[b] || Visits(item, b)
  {
    if item.incr == 1 {
      var range := And(Not(Shl(All(), item.end + 1)), Shl(All(), item.start));
      r := Or(mask, range);
      forall b | 0 <= b < 64
        ensures r[b] <==> mask[b] || Visits(item, b)
      {
        RangeMask(item, b);
      }
    } else {
      r := OrSteps(mask, item);
    }
  }

  // A whole field

  ghost function ParseItems(fields: seq<string>, min: int, max: int): (r: Result<seq<Item>, ParseError>)
    ensures r.Ok? ==> |r.value| == |fields| && forall k | 0 <= k < |fields| ::
        ParseItem(fields[k], min, max) == Ok(r.value[k])
  {
    if fields == [] then Ok([])
    else
      match ParseItem(fields[0], min, max)
      case Err(e) => Err(e)
      case Ok(item) =>
        match ParseItems(fields[1..], min, max)
        case Err(e) => Err(e)
        case Ok(items) => Ok([item] + items)
  }

  ghost predicate SomeVisits(items: seq<Item>, b: nat) {
    exists k :: 0 <= k < |items| && Visits(items[k], b)
  }

  ghost function MaskOf(items: seq<Item>): Word {
    seq(64, b requires 0 <= b < 64 => SomeVisits(items, b))
  }

  lemma SomeVisitsExtends(items: seq<Item>, item: Item, b: nat)
    ensures SomeVisits(items + [item], b) <==> SomeVisits(items, b) || Visits(item, b)
  {
    var grown := items + [item];
    assert grown[|items|] == item;
    if SomeVisits(items, b) {
      var k :| 0 <= k < |items| && Visits(items[k], b);
      assert grown[k] == items[k];
    }
  }

  lemma MaskExtends(items: seq<Item>, item: Item, w: Word)
    requires forall b | 0 <= b < 64 :: w[b] <==> MaskOf(items)[b] || Visits(item, b)
    ensures w == MaskOf(items + [item])
  {
    forall b | 0 <= b < 64
      ensures w[b] == MaskOf(items + [item])[b]
    {
      SomeVisitsExtends(items, item, b);
    }
  }

  /** `items` are the first k items, and the rest of the field decides the result. */
  ghost predicate ParsedUpTo(fields: seq<string>, k: nat, min: int, max: int, items: seq<Item>)
    requires k <= |fields|
  {
    match ParseItems(fields[k..], min, max)
    case Ok(rest) => ParseItems(fields, min, max) == Ok(items + rest)
    case Err(e) => ParseItems(fields, min, max) == Err(e)
  }

  lemma ParseItemsStep(fields: seq<string>, k: nat, min: int, max: int, items: seq<Item>, item: Item)
    requires k < |fields| && ParsedUpTo(fields, k, min, max, items) && ParseItem(fields[k], min, max) == Ok(item)
    ensures ParsedUpTo(fields, k + 1, min, max, items + [item])
  {
    assert fields[k..][0] == fields[k] && fields[k..][1..] == fields[k + 1..];
    assert forall rest :: items + ([item] + rest) == items + [item] + rest;
  }

  method ParseCronField(field: string, min: int, max: int) returns (r: Result<Word, ParseError>)
    requires 0 <= min <= max <= 63
    ensures match ParseItems(Split(field, ','), min, max)
            case Err(e) => r == Err(e)
            case Ok(items) => r == Ok(MaskOf(items))
  {
    var fields := Split(field, ',');
    var cronField := Zero();
    ghost var items: seq<Item> := [];
    assert fields[0..] == fields;
    assert forall rest: seq<Item> :: [] + rest == rest;
    for k := 0 to |fields|
      invariant ParsedUpTo(fields, k, min, max, items)
      invariant cronField == MaskOf(items)
    {
      assert fields[k..][0] == fields[k];
      match ParseItem(fields[k], min, max) {
        case Err(e) =>
          return Err(e);
        case Ok(item) =>
          cronField := OrItem(cronField, item);
          MaskExtends(items, item, cronField);
          ParseItemsStep(fields, k, min, max, items, item);
          items := items + [item];
      }
    }
    assert fields[|fields|..] == [];
    assert items + [] == items;
    return Ok(cronField);
  }

  // What the mask means

  /** No step of the field is so long that the loop wraps back to a value it can set. */
  ghost predicate NoWrap(items: seq<Item>) {
    forall k | 0 <= k < |items| :: items[k].start + 2 * items[k].incr < 0x1_0000_0000_0000_0000
  }

  ghost predicate SomeDenotes(items: seq<Item>, b: nat) {
    exists k :: 0 <= k < |items| && Denotes(items[k], b)
  }

  /** For a field of one item: the mask holds exactly the denoted values if and only if the step
      does not wrap. */
  lemma ItemMaskExactIff(item: Item)
    requires InBounds(item, 0, 63)
    ensures (forall b: nat | b < 64 :: Visits(item, b) <==> Denotes(item, b)) <==> NoWrap([item])
  {
    StraysIff(item);
    assert NoWrap([item]) <==> [item][0].start + 2 * [item][0].incr < 0x1_0000_0000_0000_0000;
    if i: nat :| Strays(item, i) {
      assert i < 64 && Visits(item, i) && !Denotes(item, i);
    } else {
      forall b: nat
        ensures Visits(item, b) <==> Denotes(item, b)
      {
        assert !Strays(item, b);
      }
    }
  }

  lemma {:induction false} ParseAll(texts: seq<string>, items: seq<Item>, min: int, max: int)
    requires |texts| == |items| && forall k | 0 <= k < |texts| :: ParseItem(texts[k], min, max) == Ok(items[k])
    ensures ParseItems(texts, min, max) == Ok(items)
  {
    if texts != [] {
      ParseAll(texts[1..], items[1..], min, max);
      assert items == [items[0]] + items[1..];
    }
  }

  /** Text k is the first that is no item. */
  predicate FirstBad(texts: seq<string>, k: nat, min: int, max: int, error: ParseError) {
    && k < |texts| && ParseItem(texts[k], min, max) == Err(error)
    && forall j | 0 <= j < k :: ParseItem(texts[j], min, max).Ok?
  }

  lemma FirstBadInRest(texts: seq<string>, k: nat, min: int, max: int, error: ParseError)
    requires texts != [] && ParseItem(texts[0], min, max).Ok?
    ensures FirstBad(texts, k + 1, min, max, error) <==> FirstBad(texts[1..], k, min, max, error)
    ensures !FirstBad(texts, 0, min, max, error)
  {
    if FirstBad(texts, k + 1, min, max, error) {
      assert forall j | 0 <= j < k :: texts[1..][j] == texts[j + 1];
    }
    if FirstBad(texts[1..], k, min, max, error) {
      assert forall j | 0 < j < k + 1 :: texts[j] == texts[1..][j - 1];
    }
  }

  /** A list of texts fails with the error of the first that is no item. */
  lemma {:induction false} ParseItemsErrIff(texts: seq<string>, min: int, max: int, error: ParseError)
    ensures ParseItems(texts, min, max) == Err(error) <==> exists k: nat :: FirstBad(texts, k, min, max, error)
  {
    if texts != [] && ParseItem(texts[0], min, max).Ok? {
      ParseItemsErrIff(texts[1..], min, max, error);
      if k: nat :| FirstBad(texts, k, min, max, error) {
        FirstBadInRest(texts, if k == 0 then 0 else k - 1, min, max, error);
      }
      if k: nat :| FirstBad(texts[1..], k, min, max, error) {
        FirstBadInRest(texts, k, min, max, error);
      }
    } else if texts != [] && ParseItems(texts, min, max) == Err(error) {
      assert FirstBad(texts, 0, min, max, error);
    }
  }

  /** The text of a field with the given items. */
  lemma ItemsField(texts: seq<string>, items: seq<Item>, min: int, max: int)
    requires |texts| == |items| >= 1 && forall k | 0 <= k < |texts| ::
        ',' !in texts[k] && ParseItem(texts[k], min, max) == Ok(items[k])
    ensures ParseItems(Split(Join(texts, ','), ','), min, max) == Ok(items)
  {
    SplitIff(Join(texts, ','), texts, ',');
    ParseAll(texts, items, min, max);
  }

  lemma SingleItemField(text: string, item: Item, min: int, max: int)
    requires ',' !in text && ParseItem(text, min, max) == Ok(item)
    ensures ParseItems(Split(text, ','), min, max) == Ok([item])
  {
    ItemsField([text], [item], min, max);
  }

  // Fields of one number, and the star

  lemma DigitsStep(s: string, v: nat, c: char)
    requires IsDigits(s) && DigitsValue(s) == v && '0' <= c <= '9'
    ensures IsDigits(s + [c]) && DigitsValue(s + [c]) == 10 * v + (c as int - '0' as int)
  {
    assert (s + [c])[..|s|] == s;
  }

  lemma OneDigit(c: char)
    requires '0' <= c <= '9'
    ensures Numeral([c], c as int - '0' as int)
  {
    assert [c][..0] == [] && DigitsValue([c]) == c as int - '0' as int;
  }

  lemma TwoDigits(a: char, b: char)
    requires '0' <= a <= '9' && '0' <= b <= '9'
    ensures Numeral([a, b], 10 * (a as int - '0' as int) + (b as int - '0' as int))
  {
    OneDigit(a);
    DigitsStep([a], a as int - '0' as int, b);
    assert [a] + [b] == [a, b];
  }

  function Digit(d: nat): char
    requires d < 10
  {
    (d + '0' as int) as char
  }

  /** The decimal numeral of n. */
  function Decimal(n: nat): string {
    if n < 10 then [Digit(n)] else Decimal(n / 10) + [Digit(n % 10)]
  }

  lemma {:induction false} DecimalDigits(n: nat)
    ensures IsDigits(Decimal(n)) && DigitsValue(Decimal(n)) == n
  {
    if n < 10 {
      OneDigit(Digit(n));
    } else {
      DecimalDigits(n / 10);
      DigitsStep(Decimal(n / 10), n / 10, Digit(n % 10));
    }
  }

  lemma {:induction false} LeadingZero(digits: string)
    requires forall i | 0 <= i < |digits| :: '0' <= digits[i] <= '9'
    ensures DigitsValue(['0'] + digits) == DigitsValue(digits)
  {
    var text := ['0'] + digits;
    if digits == "" {
      assert text[..0] == "";
    } else {
      LeadingZero(digits[..|digits| - 1]);
      assert text[..|text| - 1] == ['0'] + digits[..|digits| - 1];
    }
  }

  lemma AtoiOfDigits(digits: string, v: int)
    requires IsDigits(digits) && DigitsValue(digits) == v
    ensures Atoi(digits) == if v <= MAX_INT then Some(v) else None
    ensures Atoi(['+'] + digits) == Atoi(digits)
    ensures Atoi(['-'] + digits) == if v <= MAX_INT + 1 then Some(-v) else None
  {
    assert (['+'] + digits)[1..] == digits && (['-'] + digits)[1..] == digits;
    assert '0' <= digits[0] <= '9';
  }

  lemma AtoiOfPadded(digits: string, v: int)
    requires IsDigits(digits) && DigitsValue(digits) == v
    ensures Atoi(['0'] + digits) == Atoi(digits)
  {
    LeadingZero(digits);
    AtoiOfDigits(digits, v);
    AtoiOfDigits(['0'] + digits, v);
  }

  /** strconv.Atoi reads decimal numerals, with a sign or without and with zeros in front, up to the
      ends of the 64-bit range. */
  lemma AtoiOfDecimal(n: nat, v: int, digits: string)
    requires v == n && digits == Decimal(n)
    ensures Atoi(digits) == if v <= MAX_INT then Some(v) else None
    ensures Atoi(['+'] + digits) == Atoi(digits)
    ensures Atoi(['-'] + digits) == if v <= MAX_INT + 1 then Some(-v) else None
    ensures Atoi(['0'] + digits) == Atoi(digits)
  {
    DecimalDigits(n);
    AtoiOfDigits(digits, v);
    AtoiOfPadded(digits, v);
  }

  lemma NumberParses(text: string, n: int, min: int, max: int)
    requires Numeral(text, n) && min <= n <= max
    ensures ParseItem(text, min, max) == Ok(Item(n, n, 1)) && ',' !in text
  {
    NumeralCharacters(text);
    assert EndsText(text, n, n, min, max, false);
    ParseItemIff(text, Item(n, n, 1), min, max);
  }

  lemma DigitParses(digit: char, min: int, max: int)
    requires '0' <= digit <= '9' && min <= digit as int - '0' as int <= max
    ensures ParseItem([digit], min, max) == Ok(Item(digit as int - '0' as int, digit as int - '0' as int, 1))
  {
    OneDigit(digit);
    NumberParses([digit], digit as int - '0' as int, min, max);
  }

  lemma StarParses(min: int, max: int)
    requires min <= max
    ensures ParseItem("*", min, max) == Ok(Item(min, max, 1))
  {
    ParseItemIff("*", Item(min, max, 1), min, max);
  }

  lemma FieldOfOneItem(item: Item, b: nat)
    requires b < 64
    ensures MaskOf([item])[b] <==> Visits(item, b)
    ensures SomeDenotes([item], b) <==> Denotes(item, b)
  {
    assert [item][0] == item;
  }

  /** A field that is a number admits it alone. */
  lemma NumberField(text: string, n: nat, min: int, max: int)
    requires Numeral(text, n) && 0 <= min <= n <= max < 64
    ensures ParseItems(Split(text, ','), min, max) == Ok([Item(n, n, 1)])
    ensures forall b | 0 <= b < 64 :: MaskOf([Item(n, n, 1)])[b] <==> b == n
  {
    NumberParses(text, n, min, max);
    SingleItemField(text, Item(n, n, 1), min, max);
    RangeField(n, n);
  }

  lemma StarField(min: nat, max: nat)
    requires min <= max < 64
    ensures ParseItems(Split("*", ','), min, max) == Ok([Item(min, max, 1)])
    ensures forall b | 0 <= b < 64 :: MaskOf([Item(min, max, 1)])[b] <==> min <= b <= max
  {
    StarParses(min, max);
    SingleItemField("*", Item(min, max, 1), min, max);
    RangeField(min, max);
  }

  lemma RangeField(start: nat, end: nat)
    requires start <= end < 64
    ensures forall b | 0 <= b < 64 :: MaskOf([Item(start, end, 1)])[b] <==> start <= b <= end
  {
    var item := Item(start, end, 1);
    StraysIff(item);
    forall b | 0 <= b < 64
      ensures MaskOf([item])[b] <==> start <= b <= end
    {
      FieldOfOneItem(item, b);
    }
  }

  // A wrapping step that the parser accepts

  const LARGEST: string := "9223372036854775807"

  lemma FourDigits(s: string, v: nat, a: char, b: char, c: char, d: char)
    requires IsDigits(s) && DigitsValue(s) == v
    requires '0' <= a <= '9' && '0' <= b <= '9' && '0' <= c <= '9' && '0' <= d <= '9'
    ensures IsDigits(s + [a, b, c, d])
    ensures DigitsValue(s + [a, b, c, d]) == 10000 * v + 1000 * (a as int - '0' as int) + 100 * (b as int - '0' as int)
        + 10 * (c as int - '0' as int) + (d as int - '0' as int)
  {
    DigitsStep(s, v, a);
    DigitsStep(s + [a], DigitsValue(s + [a]), b);
    DigitsStep(s + [a] + [b], DigitsValue(s + [a] + [b]), c);
    DigitsStep(s + [a] + [b] + [c], DigitsValue(s + [a] + [b] + [c]), d);
    assert s + [a] + [b] + [c] + [d] == s + [a, b, c, d];
  }

  lemma FirstDigits()
    ensures IsDigits("922") && DigitsValue("922") == 922
  {
    assert "9"[..0] == "" && DigitsValue("9") == 9;
    DigitsStep("9", 9, '2');
    DigitsStep("92", 92, '2');
  }

  lemma HalfOfTheDigits()
    ensures IsDigits("92233720368") && DigitsValue("92233720368") == 92233720368
  {
    FirstDigits();
    FourDigits("922", 922, '3', '3', '7', '2');
    assert "922" + "3372" == "9223372";
    FourDigits("9223372", 9223372, '0', '3', '6', '8');
    assert "9223372" + "0368" == "92233720368";
  }

  lemma LargestDigits()
    ensures IsDigits(LARGEST) && DigitsValue(LARGEST) == MAX_INT
  {
    HalfOfTheDigits();
    FourDigits("92233720368", 92233720368, '5', '4', '7', '7');
    assert "92233720368" + "5477" == "922337203685477";
    FourDigits("922337203685477", 922337203685477, '5', '8', '0', '7');
    assert "922337203685477" + "5807" == LARGEST;
  }

  lemma LargestInt()
    ensures Atoi(LARGEST) == Some(MAX_INT)
  {
    LargestDigits();
  }

  /** A number, a slash and the largest step of all. */
  lemma LargestStepParses(start: string, step: string, item: Item, min: int, max: int)
    requires Numeral(start, item.start) && Atoi(step) == Some(MAX_INT)
    requires item.end == max && item.incr == MAX_INT && InBounds(item, min, max)
    ensures ParseItem(start + "/" + step, min, max) == Ok(item) && ',' !in start + "/" + step
  {
    NumeralCharacters(start);
    NumeralCharacters(step);
    assert EndsText(start, item.start, item.end, min, max, true);
    ParseItemIff(start + "/" + step, item, min, max);
  }

  lemma LargestStepVisits()
    ensures var item := Item(5, 59, MAX_INT);
            Visits(item, 3) && Visits(item, 1) && !Denotes(item, 3) && !Denotes(item, 1)
  {}

  ghost predicate StraysTo3And1(items: seq<Item>) {
    MaskOf(items)[3] && MaskOf(items)[1] && !SomeDenotes(items, 3) && !SomeDenotes(items, 1)
  }

  lemma LargestStepMask()
    ensures StraysTo3And1([Item(5, 59, MAX_INT)])
  {
    LargestStepVisits();
    FieldOfOneItem(Item(5, 59, MAX_INT), 3);
    FieldOfOneItem(Item(5, 59, MAX_INT), 1);
  }

  /** The text "5/9223372036854775807" of a seconds or minutes field compiles to a mask with the
      bits of 3 and 1, which it does not denote. */
  lemma WrappingStepStrays() returns (items: seq<Item>)
    ensures ParseItems(Split("5" + "/" + LARGEST, ','), 0, 59) == Ok(items) && StraysTo3And1(items)
  {
    var item := Item(5, 59, MAX_INT);
    LargestInt();
    assert Atoi("5") == Some(5);
    LargestStepParses("5", LARGEST, item, 0, 59);
    SingleItemField("5" + "/" + LARGEST, item, 0, 59);
    LargestStepMask();
    items := [item];
  }

  ghost predicate SomeStrays(items: seq<Item>, b: nat) {
    exists k :: 0 <= k < |items| && Strays(items[k], b)
  }

  /** The mask holds exactly the values that some item denotes or strays onto.  Denoted values lie in
      the bounds of the field, and there is one; strays are below its end, and there are none if and
      only if no step wraps.  The mask is exact if and only if some item denotes each stray. */
  lemma FieldMask(fields: seq<string>, min: int, max: int)
    requires 0 <= min <= max <= 63 && |fields| > 0 && ParseItems(fields, min, max).Ok?
    ensures var items := ParseItems(fields, min, max).value;
            && (forall b: nat :: SomeVisits(items, b) <==> SomeDenotes(items, b) || SomeStrays(items, b))
            && (forall b: nat :: SomeDenotes(items, b) ==> min <= b <= max)
            && (forall b: nat :: SomeStrays(items, b) ==> b < max)
            && SomeDenotes(items, items[0].start)
            && (NoWrap(items) <==> forall b: nat :: !SomeStrays(items, b))
            && ((forall b: nat :: SomeVisits(items, b) <==> SomeDenotes(items, b)) <==>
                forall b: nat :: SomeStrays(items, b) ==> SomeDenotes(items, b))
  {
    var items := ParseItems(fields, min, max).value;
    forall k | 0 <= k < |items|
      ensures InBounds(items[k], min, max)
    {
      assert ParseItem(fields[k], min, max) == Ok(items[k]);
    }
    assert Denotes(items[0], items[0].start);
    FieldStraysIff(items);
  }

  lemma FieldStraysIff(items: seq<Item>)
    requires forall k | 0 <= k < |items| :: InBounds(items[k], 0, 63)
    ensures NoWrap(items) <==> forall b: nat :: !SomeStrays(items, b)
  {
    forall k | 0 <= k < |items|
      ensures (exists b: nat :: Strays(items[k], b)) <==>
          items[k].start + 2 * items[k].incr >= 0x1_0000_0000_0000_0000
    {
      StraysIff(items[k]);
    }
    if !NoWrap(items) {
      var k :| 0 <= k < |items| && items[k].start + 2 * items[k].incr >= 0x1_0000_0000_0000_0000;
      var b: nat :| Strays(items[k], b);
      assert SomeStrays(items, b);
    }
  }

  /** The two errors about separators, which are reported before anything else about a range. */
  lemma SeparatorErrors(field: string, min: int, max: int)
    ensures ParseItem(field, min, max) == Err(TooManySlashes) <==> Count(field, '/') >= 2
    ensures ParseItem(field, min, max) == Err(TooManyHyphens) <==>
            Count(field, '/') <= 1 && Count(Split(field, '/')[0], '-') >= 2
  {
    SplitCount(field, '/');
    SplitCount(Split(field, '/')[0], '-');
  }

  /** An item of the text before the slash and, when `stepped`, a slash and the step. */
  function ItemOf(ends: string, step: string, stepped: bool): string {
    if stepped then ends + "/" + step else ends
  }

  lemma PartsOfItem(ends: string, step: string, stepped: bool)
    requires '/' !in ends && '/' !in step
    ensures Split(ItemOf(ends, step, stepped), '/') == if stepped then [ends, step] else [ends]
  {
    SplitIff(ItemOf(ends, step, stepped), if stepped then [ends, step] else [ends], '/');
  }

  /** The other three errors: ends that are no range or are out of order, ends out of bounds, and a step
      that is no positive number, reported in that order. */
  lemma ItemErrors(ends: string, step: string, stepped: bool, start: int, end: int, min: int, max: int)
    requires '/' !in ends && '/' !in step
    ensures var r := ParseItem(ItemOf(ends, step, stepped), min, max);
            && (EndsText(ends, start, end, min, max, stepped) ==>
                  && (start > end ==> r == Err(InvalidRange))
                  && (start <= end && (start < min || end > max) ==> r == Err(OutOfRange))
                  && (min <= start <= end <= max && stepped ==>
                        (r == Err(InvalidIncrement) <==> Atoi(step) == None || Atoi(step).value <= 0)))
            && ((forall a, b :: !EndsText(ends, a, b, min, max, stepped)) && Count(ends, '-') < 2 ==>
                  r == Err(InvalidRange))
  {
    PartsOfItem(ends, step, stepped);
    EndsTextIff(ends, stepped, start, end, min, max);
    SplitCount(ends, '-');
    if forall a, b :: !EndsText(ends, a, b, min, max, stepped) {
      if ParseEnds(ends, stepped, min, max).Ok? {
        var p := ParseEnds(ends, stepped, min, max).value;
        EndsTextIff(ends, stepped, p.0, p.1, min, max);
      }
    }
  }
}
