/** Random selection (util/rand.go).  The random source is a parameter: draw number i is any value
    that rand.Int63n could return for its bound. */
module Rand {
  import opened Ints
  import opened Wrappers

  // Sampling without replacement

  /** Draw i stays below the i-th bound, where the bounds count down from l. */
  predicate ValidDraws(draws: seq<nat>, l: nat) {
    |draws| <= l && forall i | 0 <= i < |draws| :: draws[i] < l - i
  }

  predicate Distinct<T(==)>(a: seq<T>) {
    forall i, j | 0 <= i < j < |a| :: a[i] != a[j]
  }

  /** The dense Fisher-Yates shuffle: emit the drawn element, put the last one in its place and
      drop the last. */
  function Shuffle<T>(a: seq<T>, draws: seq<nat>): (r: seq<T>)
    requires ValidDraws(draws, |a|)
    ensures |r| == |draws|
    decreases |a|
  {
    if draws == [] then []
    else [a[draws[0]]] + Shuffle(Removed(a, draws[0]), draws[1..])
  }

  function Removed<T>(a: seq<T>, d: nat): (r: seq<T>)
    requires d < |a|
    ensures |r| == |a| - 1
  {
    a[d := a[|a| - 1]][..|a| - 1]
  }

  lemma RemovedKeepsTheRest<T>(a: seq<T>, d: nat)
    requires d < |a| && Distinct(a)
    ensures Distinct(Removed(a, d)) && forall x :: x in Removed(a, d) <==> x in a && x != a[d]
  {
    var r := Removed(a, d);
    forall x | x in a && x != a[d]
      ensures x in r
    {
      var i :| 0 <= i < |a| && a[i] == x;
      assert r[if i == |a| - 1 then d else i] == x;
    }
  }

  /** The results are distinct elements of a, as many as the draws. */
  lemma {:induction false} ShuffleSelects<T>(a: seq<T>, draws: seq<nat>)
    requires ValidDraws(draws, |a|) && Distinct(a)
    ensures Distinct(Shuffle(a, draws)) && forall x | x in Shuffle(a, draws) :: x in a
    decreases |a|
  {
    if draws != [] {
      var b := Removed(a, draws[0]);
      RemovedKeepsTheRest(a, draws[0]);
      ShuffleSelects(b, draws[1..]);
      var rest := Shuffle(b, draws[1..]);
      assert a[draws[0]] !in rest;
      assert Shuffle(a, draws) == [a[draws[0]]] + rest;
    }
  }

  function IndexOf<T(==)>(a: seq<T>, x: T): (i: nat)
    requires x in a
    ensures i < |a| && a[i] == x
  {
    if a[0] == x then 0 else 1 + IndexOf(a[1..], x)
  }

  /** The draws that produce a given arrangement. */
  function DrawsFor<T(==)>(a: seq<T>, r: seq<T>): seq<nat>
    requires Distinct(a) && Distinct(r) && forall x | x in r :: x in a
    decreases |a|
  {
    if r == [] then []
    else
      var d := IndexOf(a, r[0]);
      RemovedKeepsTheRest(a, d);
      [d] + DrawsFor(Removed(a, d), r[1..])
  }

  /** Every arrangement of distinct elements is the result of some draws ... */
  lemma {:induction false} ShuffleOfDrawsFor<T>(a: seq<T>, r: seq<T>)
    requires Distinct(a) && Distinct(r) && forall x | x in r :: x in a
    ensures ValidDraws(DrawsFor(a, r), |a|) && Shuffle(a, DrawsFor(a, r)) == r
    decreases |a|
  {
    if r != [] {
      var d := IndexOf(a, r[0]);
      RemovedKeepsTheRest(a, d);
      ShuffleOfDrawsFor(Removed(a, d), r[1..]);
      assert DrawsFor(a, r)[1..] == DrawsFor(Removed(a, d), r[1..]);
    }
  }

  /** ... and of no others, so that uniform draws give every arrangement equally often. */
  lemma {:induction false} DrawsForShuffle<T>(a: seq<T>, draws: seq<nat>)
    requires ValidDraws(draws, |a|) && Distinct(a)
    ensures var r := Shuffle(a, draws);
            Distinct(r) && (forall x | x in r :: x in a) && DrawsFor(a, r) == draws
    decreases |a|
  {
    ShuffleSelects(a, draws);
    if draws != [] {
      var d := draws[0];
      RemovedKeepsTheRest(a, d);
      DrawsForShuffle(Removed(a, d), draws[1..]);
      var r := Shuffle(a, draws);
      assert IndexOf(a, r[0]) == d;
      assert r[1..] == Shuffle(Removed(a, d), draws[1..]);
    }
  }

  /** The dense array that is left after the draws. */
  function Remaining<T>(a: seq<T>, draws: seq<nat>): seq<T>
    requires ValidDraws(draws, |a|)
    decreases |a|
  {
    if draws == [] then a else Remaining(Removed(a, draws[0]), draws[1..])
  }

  /** At every step the emitted elements and the live array partition the original one; so drawing
      all of it gives a permutation. */
  lemma {:induction false} EmittedAndLivePartition<T>(a: seq<T>, draws: seq<nat>)
    requires ValidDraws(draws, |a|)
    ensures multiset(Shuffle(a, draws)) + multiset(Remaining(a, draws)) == multiset(a)
    ensures |draws| == |a| ==> multiset(Shuffle(a, draws)) == multiset(a)
    decreases |a|
  {
    if draws != [] {
      EmittedAndLivePartition(Removed(a, draws[0]), draws[1..]);
      RemovedMultiset(a, draws[0]);
    }
  }

  lemma RemovedMultiset<T>(a: seq<T>, d: nat)
    requires d < |a|
    ensures multiset(a) == multiset{a[d]} + multiset(Removed(a, d))
  {
    var last := |a| - 1;
    assert a == a[..last] + [a[last]];
    if d == last {
      assert Removed(a, d) == a[..last];
    } else {
      assert a[..last] == a[..d] + [a[d]] + a[d + 1..last];
      assert Removed(a, d) == a[..d] + [a[last]] + a[d + 1..last];
    }
  }

  function Min(b1: int32, b2: int32): int { if b1 <= b2 then b1 as int else b2 as int }
  function Max(b1: int32, b2: int32): int { if b1 <= b2 then b2 as int else b1 as int }

  /** The values between two bounds, in ascending order. */
  function Interval(b1: int32, b2: int32): (a: seq<int>)
    ensures |a| == Max(b1, b2) - Min(b1, b2) + 1
    ensures forall i | 0 <= i < |a| :: a[i] == Min(b1, b2) + i
  {
    seq(Max(b1, b2) - Min(b1, b2) + 1, i requires 0 <= i => Min(b1, b2) + i)
  }

  /** Both bounds belong to the interval, whichever is the lesser. */
  lemma IntervalIff(b1: int32, b2: int32, x: int)
    ensures x in Interval(b1, b2) <==> b1 as int <= x <= b2 as int || b2 as int <= x <= b1 as int
  {
    var a, lo := Interval(b1, b2), Min(b1, b2);
    if lo <= x <= Max(b1, b2) {
      assert a[x - lo] == x;
    }
  }

  /** The value the sparse array holds for x. */
  function Lookup(m: map<int32, int32>, x: int32): int32 {
    if x in m then m[x] else x
  }

  /** On its first l places the sparse array agrees with the dense one. */
  ghost predicate Refines(m: map<int32, int32>, min: int64, l: int64, a: seq<int>) {
    && |a| == l as int
    && -0x8000_0000 <= min as int && min as int + l as int <= 0x8000_0000
    && forall i | 0 <= i < |a| :: Lookup(m, (min as int + i) as int32) as int == a[i]
  }

  /** One iteration on the sparse array: the value read, and the array left behind. */
  lemma RefineStep(m: map<int32, int32>, min: int64, l: int64, a: seq<int>, d: nat)
    requires Refines(m, min, l, a) && d < |a|
    ensures var v, lv := (min as int + d) as int32, (min as int + l as int - 1) as int32;
            && Lookup(m, v) as int == a[d]
            && Refines(if v == lv then m else m[v := Lookup(m, lv)], min, l - 1, Removed(a, d))
  {
    var v, lv := (min as int + d) as int32, (min as int + l as int - 1) as int32;
    var m' := if v == lv then m else m[v := Lookup(m, lv)];
    forall i | 0 <= i < |a| - 1
      ensures Lookup(m', (min as int + i) as int32) as int == Removed(a, d)[i]
    {
      assert Lookup(m, (min as int + i) as int32) as int == a[i];
    }
  }

  lemma ShuffleUnfold(a: seq<int>, draws: seq<nat>, d: nat, tail: seq<nat>)
    requires draws == [d] + tail && ValidDraws(draws, |a|)
    ensures d < |a| && ValidDraws(tail, |a| - 1) && Shuffle(a, draws) == [a[d]] + Shuffle(Removed(a, d), tail)
  {
    assert draws[0] == d;
    assert draws[1..] == tail;
    forall k | 0 <= k < |tail|
      ensures tail[k] < |a| - 1 - k
    {
      assert draws[k + 1] == tail[k];
    }
  }

  /** The whole result is what has been emitted and what the remaining draws take from a. */
  ghost predicate Sampling(whole: seq<int>, emitted: seq<int>, a: seq<int>, draws: seq<nat>) {
    ValidDraws(draws, |a|) && whole == emitted + Shuffle(a, draws)
  }

  lemma SamplingStep(whole: seq<int>, emitted: seq<int>, a: seq<int>, draws: seq<nat>, i: nat)
    requires i < |draws| && Sampling(whole, emitted, a, draws[i..])
    ensures draws[i] < |a| && Sampling(whole, emitted + [a[draws[i]]], Removed(a, draws[i]), draws[i + 1..])
  {
    var d, tail := draws[i], draws[i + 1..];
    assert draws[i..] == [d] + tail;
    ShuffleUnfold(a, draws[i..], d, tail);
    Associative(emitted, [a[d]], Shuffle(Removed(a, d), tail));
  }

  lemma Associative(x: seq<int>, y: seq<int>, z: seq<int>)
    ensures x + (y + z) == x + y + z
  {}

  /** The body of the sampling loop. */
  method TakeOne(m: map<int32, int32>, min: int64, l: int64, draw: nat, ghost a: seq<int>)
    returns (m': map<int32, int32>, x: int32)
    requires Refines(m, min, l, a) && draw < |a|
    ensures Refines(m', min, l - 1, Removed(a, draw)) && x as int == a[draw]
  {
    RefineStep(m, min, l, a, draw);
    var v := (draw as int64 + min) as int32;

    if v in m {
      x := m[v];
    } else {
      x := v;
    }

    m' := m;
    var lv := (l - 1 + min) as int32;
    if v != lv {
      if lv in m {
        m' := m[v := m[lv]];
      } else {
        m' := m[v := lv];
      }
    }
  }

  /** The sampling loop, over the l values from min on. */
  method Sample(min: int64, l0: int64, count: uint32, draws: seq<nat>, ghost all: seq<int>) returns (r: seq<int32>)
    requires Refines(map[], min, l0, all) && ValidDraws(draws, |all|) && |draws| == count as int
    ensures SameValues(r, Shuffle(all, draws))
  {
    r := [];
    var l := l0;
    var m: map<int32, int32> := map[];
    ghost var whole := Shuffle(all, draws);
    ghost var a, emitted: seq<int> := all, [];
    assert draws[0..] == draws && [] + whole == whole;
    for i := 0 to count as int
      invariant Refines(m, min, l, a) && l as int == |all| - i
      invariant Sampling(whole, emitted, a, draws[i..])
      invariant SameValues(r, emitted) && |r| == i
    {
      SamplingStep(whole, emitted, a, draws, i);
      var x;
      m, x := TakeOne(m, min, l, draws[i], a);
      r := r + [x];
      emitted := emitted + [a[draws[i]]];
      a := Removed(a, draws[i]);
      l := l - 1;
    }
    assert whole == emitted;
  }

  /** Every conversion in the body is lossless: the verifier checks each against its type's range.
      There are as many values as asked for, or as the interval has, unless the bounds are equal and
      none was asked for. */
  method RandIntervalN(b1: int32, b2: int32, n: uint32, draws: seq<nat>) returns (r: seq<int32>)
    requires b1 != b2 ==> ValidDraws(draws, |Interval(b1, b2)|)
    requires b1 != b2 ==> |draws| == Least(n as int, |Interval(b1, b2)|)
    ensures b1 == b2 ==> r == [b1]
    ensures b1 != b2 ==> SameValues(r, Shuffle(Interval(b1, b2), draws))
    ensures |r| == Least(n as int, |Interval(b1, b2)|) <==> b1 != b2 || n > 0
  {
    if b1 == b2 {
      return [b1];
    }

    var min, max := b1 as int64, b2 as int64;
    if min > max {
      min, max := max, min;
    }
    var l := max - min + 1;
    var count: uint32 := n;
    if n as int64 > l {
      count := l as uint32;
    }
    r := Sample(min, l, count, draws, Interval(b1, b2));
  }

  ghost predicate SameValues(r: seq<int32>, values: seq<int>) {
    |r| == |values| && forall k | 0 <= k < |r| :: r[k] as int == values[k]
  }

  // Weighted selection

  function Sum(p: seq<uint32>): nat {
    if p == [] then 0 else Sum(p[..|p| - 1]) + p[|p| - 1] as int
  }

  function Wrapped(n: nat): uint32 { (n % UINT32_SIZE) as uint32 }

  datatype Panic = ArgsNotFound | Bug

  /** r[k] of the source: the wrapped sum of the first k + 1 weights. */
  function Prefix(p: seq<uint32>, k: nat): uint32
    requires k < |p|
  {
    Wrapped(Sum(p[..k + 1]))
  }

  lemma PrefixStep(p: seq<uint32>, k: nat)
    requires k < |p|
    ensures Prefix(p, k) == if k == 0 then p[0] else AddUint32(Prefix(p, k - 1), p[k])
  {
    assert p[..k + 1][..k] == p[..k];
    if k == 0 { assert Sum(p[..0]) == 0; }
  }

  /** The index that the draw selects: the first whose wrapped prefix sum exceeds it. */
  ghost predicate Selects(p: seq<uint32>, draw: nat, i: nat) {
    && i < |p|
    && draw < Prefix(p, i) as int
    && forall k | 0 <= k < i :: Prefix(p, k) as int <= draw
  }

  /** What rand.Int63n can give for the wrapped total; it is not asked when that is 0. */
  predicate Possible(p: seq<uint32>, draw: nat) {
    Wrapped(Sum(p)) != 0 ==> draw < Wrapped(Sum(p)) as int
  }

  /** RandGroup returns i on that draw: index 0 without a draw when the wrapped total is 0. */
  ghost predicate Returns(p: seq<uint32>, draw: nat, i: nat) {
    i < |p| && if Wrapped(Sum(p)) == 0 then i == 0 else Selects(p, draw, i)
  }

  method RandGroup(p: seq<uint32>, draw: nat) returns (r: Result<nat, Panic>)
    requires Possible(p, draw)
    ensures p == [] ==> r == Err(ArgsNotFound)
    ensures p != [] ==> r.Ok? && Returns(p, draw, r.value)
  {
    if p == [] {
      return Err(ArgsNotFound);
    }

    var r' := new uint32[|p|];
    var i := 0;
    while i < |p|
      invariant 0 <= i <= |p|
      invariant forall k | 0 <= k < i :: r'[k] == Prefix(p, k)
    {
      PrefixStep(p, i);
      if i == 0 {
        r'[0] := p[0];
      } else {
        r'[i] := AddUint32(r'[i - 1], p[i]);
      }
      i := i + 1;
    }
    assert p[..|p|] == p;

    var rl := r'[|p| - 1];
    if rl == 0 {
      return Ok(0);
    }

    var rn := draw as uint32;
    i := 0;
    while i < |p|
      invariant 0 <= i <= |p|
      invariant forall k | 0 <= k < i :: r'[k] <= rn
    {
      if rn < r'[i] {
        return Ok(i);
      }
      i := i + 1;
    }
    return Err(Bug);
  }

  lemma SelectsOnce(p: seq<uint32>, draw: nat, i: nat, j: nat)
    requires Selects(p, draw, i) && Selects(p, draw, j)
    ensures i == j
  {}

  lemma SelectedHasWeight(p: seq<uint32>, draw: nat, i: nat)
    requires Selects(p, draw, i)
    ensures p[i] > 0
  {
    PrefixStep(p, i);
  }

  /** Every index that RandGroup can return has a positive weight if and only if the total does not
      wrap to 0 or the first weight is positive. */
  lemma PositiveWeightIff(p: seq<uint32>)
    requires p != []
    ensures (forall draw: nat, i: nat :: Possible(p, draw) && Returns(p, draw, i) ==> p[i] > 0) <==>
            Wrapped(Sum(p)) != 0 || p[0] > 0
  {
    if Wrapped(Sum(p)) != 0 || p[0] > 0 {
      forall draw: nat, i: nat | Possible(p, draw) && Returns(p, draw, i)
        ensures p[i] > 0
      {
        if Wrapped(Sum(p)) != 0 {
          SelectedHasWeight(p, draw, i);
        }
      }
    } else {
      assert Possible(p, 0) && Returns(p, 0, 0);
    }
  }

  /** Two weights of 2^31 add up to 0 on uint32, and whatever the draw the result is index 0, whose
      weight is 0 while the others are positive. */
  lemma ZeroWeightReturned(draw: nat, i: nat)
    ensures var p: seq<uint32> := [0, 0x8000_0000, 0x8000_0000];
            Possible(p, draw) && (Returns(p, draw, i) <==> i == 0) && p[0] == 0
  {
    var p: seq<uint32> := [0, 0x8000_0000, 0x8000_0000];
    assert p[..2] == [0, 0x8000_0000] && p[..2][..1] == [0] && p[..2][..1][..0] == [];
    assert Sum(p) == Sum(p[..2]) + 0x8000_0000 && Sum(p[..2]) == Sum(p[..2][..1]) + 0x8000_0000;
  }

  /** The draws, among the possible ones, that select index i. */
  ghost function DrawsSelecting(p: seq<uint32>, i: nat): set<nat> {
    set d: nat | d < Wrapped(Sum(p)) as int && Selects(p, d, i)
  }

  lemma {:induction false} SumMonotone(p: seq<uint32>, i: nat, j: nat)
    requires i <= j <= |p|
    ensures Sum(p[..i]) <= Sum(p[..j])
    decreases j
  {
    if i < j {
      SumMonotone(p, i, j - 1);
      assert p[..j][..j - 1] == p[..j - 1];
    }
  }

  ghost function Range(lo: nat, hi: nat): (s: set<nat>)
    requires lo <= hi
    ensures |s| == hi - lo && forall d :: d in s <==> lo <= d < hi
    decreases hi
  {
    if lo == hi then {} else Range(lo, hi - 1) + {hi - 1}
  }

  lemma SelectsRange(p: seq<uint32>, i: nat, draw: nat)
    requires i < |p| && Sum(p) < UINT32_SIZE
    ensures Selects(p, draw, i) <==> Sum(p[..i]) <= draw < Sum(p[..i + 1])
  {
    assert p[..|p|] == p;
    forall k: nat | k < |p|
      ensures Prefix(p, k) as int == Sum(p[..k + 1])
    {
      SumMonotone(p, k + 1, |p|);
    }
    if Sum(p[..i]) <= draw {
      forall k | 0 <= k < i
        ensures Prefix(p, k) as int <= draw
      {
        SumMonotone(p, k + 1, i);
      }
    } else {
      assert p[..0] == [] && i > 0;
      assert Prefix(p, i - 1) as int == Sum(p[..i]);
    }
  }

  lemma CountWithoutWrap(p: seq<uint32>, i: nat)
    requires i < |p| && Sum(p) < UINT32_SIZE
    ensures |DrawsSelecting(p, i)| == p[i] as int
  {
    assert p[..|p|] == p;
    assert p[..i + 1][..i] == p[..i];
    SumMonotone(p, i + 1, |p|);
    forall d: nat
      ensures d in DrawsSelecting(p, i) <==> Sum(p[..i]) <= d < Sum(p[..i + 1])
    {
      SelectsRange(p, i, d);
    }
    assert DrawsSelecting(p, i) == Range(Sum(p[..i]), Sum(p[..i + 1]));
  }

  /** The draws that select one of the first k indices. */
  ghost function DrawsBelow(p: seq<uint32>, k: nat): set<nat> {
    set d: nat, i: nat | i < k && d < Wrapped(Sum(p)) as int && Selects(p, d, i) :: d
  }

  lemma {:induction false} CountBelow(p: seq<uint32>, k: nat)
    requires k <= |p| && forall i: nat | i < |p| :: |DrawsSelecting(p, i)| == p[i] as int
    ensures |DrawsBelow(p, k)| == Sum(p[..k])
  {
    if k == 0 {
      assert DrawsBelow(p, 0) == {};
    } else {
      CountBelow(p, k - 1);
      assert p[..k][..k - 1] == p[..k - 1];
      DrawsBelowStep(p, k - 1);
    }
  }

  lemma DrawsBelowStep(p: seq<uint32>, k: nat)
    ensures DrawsBelow(p, k + 1) == DrawsBelow(p, k) + DrawsSelecting(p, k)
    ensures DrawsBelow(p, k) !! DrawsSelecting(p, k)
  {
    forall d | d in DrawsBelow(p, k) && d in DrawsSelecting(p, k)
      ensures false
    {
      var i: nat :| i < k && Selects(p, d, i);
      SelectsOnce(p, d, i, k);
    }
  }

  lemma {:induction false} FirstAbove(p: seq<uint32>, draw: nat, k: nat) returns (i: nat)
    requires k < |p| && draw < Prefix(p, k) as int
    ensures i <= k && Selects(p, draw, i)
  {
    if j: nat :| j < k && draw < Prefix(p, j) as int {
      i := FirstAbove(p, draw, j);
    } else {
      i := k;
    }
  }

  lemma CountsAddUp(p: seq<uint32>)
    requires forall i: nat | i < |p| :: |DrawsSelecting(p, i)| == p[i] as int
    ensures Sum(p) == Wrapped(Sum(p)) as int
  {
    assert p[..|p|] == p;
    var rl := Wrapped(Sum(p)) as int;
    CountBelow(p, |p|);
    forall d: nat | d < rl ensures d in DrawsBelow(p, |p|) {
      var i := FirstAbove(p, d, |p| - 1);
    }
    assert DrawsBelow(p, |p|) == Range(0, rl);
  }

  /** Each index i is selected by exactly p[i] of the draws below the wrapped total if and only if
      the weights do not overflow uint32. */
  lemma WeightsHonouredIff(p: seq<uint32>)
    ensures (forall i: nat | i < |p| :: |DrawsSelecting(p, i)| == p[i] as int) <==> Sum(p) < UINT32_SIZE
  {
    if Sum(p) < UINT32_SIZE {
      forall i: nat | i < |p| ensures |DrawsSelecting(p, i)| == p[i] as int {
        CountWithoutWrap(p, i);
      }
    } else if forall i: nat | i < |p| :: |DrawsSelecting(p, i)| == p[i] as int {
      CountsAddUp(p);
    }
  }
}
