/** Database sessions in an indexed min-heap ordered by reference count (db/mongodb/mongodb.go),
    with the sift operations of Go's container/heap. */
module SessionHeap {

  class Session {
    var ref: int
    var index: int

    constructor (index: int)
      ensures ref == 0 && this.index == index
    {
      ref := 0;
      this.index := index;
    }
  }

  function Parent(i: int): int
    requires 0 < i
  {
    (i - 1) / 2
  }

  /** Heap order between place i and its parent, on the reference counts by place. */
  predicate EdgeOk(refs: seq<int>, i: int)
    requires 0 < i < |refs|
  {
    refs[Parent(i)] <= refs[i]
  }

  predicate HeapOrdered(refs: seq<int>) {
    forall i | 0 < i < |refs| :: EdgeOk(refs, i)
  }

  /** Heap order everywhere but on the edges at `hole`, across which it holds as well. */
  predicate OrderedAround(refs: seq<int>, hole: int) {
    && 0 <= hole < |refs|
    && (forall i | 0 < i < |refs| && i != hole && Parent(i) != hole :: EdgeOk(refs, i))
    && (hole > 0 ==> forall i | 0 < i < |refs| && Parent(i) == hole :: refs[Parent(hole)] <= refs[i])
  }

  predicate OrderedBelow(refs: seq<int>, hole: int) {
    forall i | 0 < i < |refs| && Parent(i) == hole :: EdgeOk(refs, i)
  }

  function Swapped<T>(a: seq<T>, i: int, j: int): seq<T>
    requires 0 <= i < |a| && 0 <= j < |a|
  {
    a[i := a[j]][j := a[i]]
  }

  lemma SiftUpStep(refs: seq<int>, j: int)
    requires 0 < j < |refs| && OrderedAround(refs, j) && OrderedBelow(refs, j) && refs[j] < refs[Parent(j)]
    ensures var r := Swapped(refs, Parent(j), j);
            OrderedAround(r, Parent(j)) && OrderedBelow(r, Parent(j))
  {
    var p := Parent(j);
    assert p > 0 ==> EdgeOk(refs, p);
    forall i | 0 < i < |refs| && Parent(i) == p && i != j
      ensures refs[p] <= refs[i]
    {
      assert EdgeOk(refs, i);
    }
  }

  /** j is a child of i, and no child of i is less. */
  predicate LesserChild(refs: seq<int>, i: int, j: int) {
    && 0 <= i < j < |refs| && (j == 2 * i + 1 || j == 2 * i + 2)
    && refs[j] <= refs[2 * i + 1]
    && (2 * i + 2 < |refs| ==> refs[j] <= refs[2 * i + 2])
  }

  lemma SiftDownStop(refs: seq<int>, i: int, j: int)
    requires OrderedAround(refs, i) && (2 * i + 1 >= |refs| || (LesserChild(refs, i, j) && refs[i] <= refs[j]))
    ensures OrderedBelow(refs, i)
    ensures i > 0 && EdgeOk(refs, i) ==> HeapOrdered(refs)
  {
    forall c | 0 < c < |refs| && Parent(c) == i
      ensures EdgeOk(refs, c)
    {
      assert c == 2 * i + 1 || c == 2 * i + 2;
    }
  }

  lemma SiftDownEdge(refs: seq<int>, i: int, j: int, c: int)
    requires OrderedAround(refs, i) && LesserChild(refs, i, j) && refs[j] < refs[i]
    requires 0 < c < |refs| && c != j && Parent(c) != j
    ensures EdgeOk(Swapped(refs, i, j), c)
  {
    if Parent(c) == i {
      assert c == 2 * i + 1 || c == 2 * i + 2;
    } else if c != i {
      assert EdgeOk(refs, c);
    }
  }

  lemma SiftDownStep(refs: seq<int>, i: int, j: int)
    requires OrderedAround(refs, i) && LesserChild(refs, i, j) && refs[j] < refs[i]
    ensures var r := Swapped(refs, i, j);
            OrderedAround(r, j) && EdgeOk(r, j)
  {
    var r := Swapped(refs, i, j);
    forall c | 0 < c < |r| && c != j && Parent(c) != j
      ensures EdgeOk(r, c)
    {
      SiftDownEdge(refs, i, j, c);
    }
    forall c | 0 < c < |r| && Parent(c) == j
      ensures r[i] <= r[c]
    {
      assert EdgeOk(refs, c);
    }
  }

  /** Changing one count disturbs heap order only around its place. */
  lemma ChangeAt(refs: seq<int>, i: int, v: int)
    requires HeapOrdered(refs) && 0 <= i < |refs|
    ensures OrderedAround(refs[i := v], i)
  {
    var r := refs[i := v];
    forall c | 0 < c < |r| && c != i && Parent(c) != i
      ensures EdgeOk(r, c)
    {
      assert EdgeOk(refs, c);
    }
    forall c | i > 0 && 0 < c < |r| && Parent(c) == i
      ensures r[Parent(i)] <= r[c]
    {
      assert EdgeOk(refs, c) && EdgeOk(refs, i);
    }
  }

  lemma {:induction false} RootIsLeast(refs: seq<int>, i: int)
    requires 0 <= i < |refs| && HeapOrdered(refs)
    ensures refs[0] <= refs[i]
    decreases i
  {
    if i > 0 {
      assert EdgeOk(refs, i);
      RootIsLeast(refs, Parent(i));
    }
  }

  class DialContext {
    const sessions: array<Session>
    ghost const all: seq<Session>  // the sessions in the order of their creation

    /** The array holds every session once, and each session knows its place. */
    ghost predicate Indexed()
      reads this, sessions, all
    {
      && sessions.Length == |all| > 0
      && (forall i | 0 <= i < sessions.Length :: sessions[i] in all && sessions[i].index == i)
      && (forall s | s in all :: 0 <= s.index < sessions.Length && sessions[s.index] == s)
      && (forall i, j | 0 <= i < j < |all| :: all[i] != all[j])
    }

    predicate Less(i: int, j: int)
      requires 0 <= i < sessions.Length && 0 <= j < sessions.Length
      reads sessions, sessions[i], sessions[j]
    {
      sessions[i].ref < sessions[j].ref
    }

    /** The reference counts by place in the array. */
    ghost function Refs(): (r: seq<int>)
      requires Indexed()
      reads this, sessions, all
      ensures |r| == sessions.Length && forall i | 0 <= i < |r| :: r[i] == sessions[i].ref
    {
      seq(sessions.Length, i requires 0 <= i < sessions.Length reads this, sessions,
          all requires Indexed() => sessions[i].ref)
    }

    ghost predicate Valid()
      reads this, sessions, all
    {
      Indexed() && HeapOrdered(Refs())
    }

    method Swap(i: int, j: int)
      requires Indexed() && 0 <= i < sessions.Length && 0 <= j < sessions.Length
      modifies sessions, all`index
      ensures Indexed()
      ensures sessions[..] == Swapped(old(sessions[..]), i, j)
      ensures Refs() == Swapped(old(Refs()), i, j)
    {
      sessions[i], sessions[j] := sessions[j], sessions[i];
      sessions[i].index := i;
      sessions[j].index := j;
    }

    method Up(j0: int)
      requires Indexed() && OrderedAround(Refs(), j0) && OrderedBelow(Refs(), j0)
      modifies sessions, all`index
      ensures Valid()
    {
      var j := j0;
      while true
        invariant Indexed() && OrderedAround(Refs(), j) && OrderedBelow(Refs(), j)
        decreases j
      {
        var i := if j == 0 then 0 else (j - 1) / 2;
        if i == j || !Less(j, i) {
          break;
        }
        SiftUpStep(Refs(), j);
        Swap(i, j);
        j := i;
      }
    }

    /** The body of the loop of Down: one place down, or nothing when no child is less. */
    method DownOnce(i: int, n: int) returns (j: int)
      requires Indexed() && n == sessions.Length && OrderedAround(Refs(), i)
      modifies sessions, all`index
      ensures Indexed() && i <= j
      ensures j == i ==> OrderedBelow(Refs(), i) && Refs() == old(Refs())
      ensures j != i ==> OrderedAround(Refs(), j) && EdgeOk(Refs(), j)
    {
      ghost var refs := Refs();
      var j1 := 2 * i + 1;
      if j1 >= n {
        SiftDownStop(refs, i, 0);
        return i;
      }
      j := j1;
      var j2 := j1 + 1;
      if j2 < n && Less(j2, j1) {
        j := j2;
      }
      assert LesserChild(refs, i, j);
      if !Less(j, i) {
        SiftDownStop(refs, i, j);
        return i;
      }
      SiftDownStep(refs, i, j);
      Swap(i, j);
    }

    method Down(i0: int, n: int) returns (moved: bool)
      requires Indexed() && n == sessions.Length && OrderedAround(Refs(), i0)
      modifies sessions, all`index
      ensures Indexed()
      ensures moved ==> HeapOrdered(Refs())
      ensures !moved ==> OrderedAround(Refs(), i0) && OrderedBelow(Refs(), i0)
    {
      var i := i0;
      while true
        invariant Indexed() && i0 <= i && OrderedAround(Refs(), i)
        invariant i != i0 ==> i > 0 && EdgeOk(Refs(), i)
        decreases n - i
      {
        var j := DownOnce(i, n);
        if j == i {
          break;
        }
        i := j;
      }
      return i > i0;
    }

    /** heap.Fix */
    method Fix(i: int)
      requires Indexed() && OrderedAround(Refs(), i)
      modifies sessions, all`index
      ensures Valid()
    {
      var moved := Down(i, sessions.Length);
      if !moved {
        Up(i);
      }
    }

    /** The reference counts by order of creation. */
    ghost function Counts(): (r: seq<int>)
      reads this, all
      ensures |r| == |all| && forall i | 0 <= i < |r| :: r[i] == all[i].ref
    {
      seq(|all|, i requires 0 <= i < |all| reads this, all => all[i].ref)
    }

    /** References handed out and not returned. */
    ghost function Total(): int
      reads this, all
    {
      Sum(Counts())
    }

    /** No session carries two more references than another. */
    ghost predicate Balanced()
      reads this, all
    {
      forall s, t | s in all && t in all :: s.ref <= t.ref + 1
    }

    constructor (sessions: array<Session>)
      requires sessions.Length > 0
      requires forall k | 0 <= k < sessions.Length :: sessions[k].ref == 0 && sessions[k].index == k
      ensures this.sessions == sessions && all == sessions[..] && Indexed()
    {
      this.sessions := sessions;
      this.all := sessions[..];
    }

    /** heap.Init */
    method HeapInit()
      requires Indexed() && forall s | s in all :: s.ref == 0
      modifies sessions, all`index
      ensures Valid()
    {
      var i := sessions.Length / 2 - 1;
      while i >= 0
        invariant Indexed() && forall s | s in all :: s.ref == 0
        invariant i < sessions.Length
      {
        var _ := Down(i, sessions.Length);
        i := i - 1;
      }
    }

    /** Changes one reference count and restores the heap. */
    method SetRef(s: Session, ref: int)
      requires Valid() && s in all
      modifies sessions, all
      ensures Valid()
      ensures s.ref == ref && forall t | t in all && t != s :: t.ref == old(t.ref)
      ensures Total() == old(Total()) - old(s.ref) + ref
    {
      CountsChange(s, ref);
      ChangeAt(Refs(), s.index, ref);
      ghost var refs := Refs();
      s.ref := ref;
      assert Refs() == refs[s.index := ref];
      Fix(s.index);
      assert exists k | 0 <= k < |all| :: all[k] == s && Counts() == old(Counts())[k := ref];
    }

    /** Hands out a session of least reference count. */
    method Ref() returns (s: Session, refreshed: bool)
      requires Valid()
      modifies sessions, all
      ensures Valid()
      ensures s in all && forall t | t in all :: old(s.ref) <= old(t.ref)
      ensures s.ref == old(s.ref) + 1 && forall t | t in all && t != s :: t.ref == old(t.ref)
      ensures refreshed <==> old(s.ref) == 0
      ensures Total() == old(Total()) + 1
      ensures s.ref <= old(Total()) / |all| + 1
      ensures old(Balanced()) ==> Balanced()
    {
      s := sessions[0];
      RootSessionIsLeast();
      LeastIsBelowAverage(Counts(), s.ref);
      refreshed := s.ref == 0;
      SetRef(s, s.ref + 1);
    }

    method UnRef(s: Session)
      requires Valid() && s in all
      modifies sessions, all
      ensures Valid()
      ensures s.ref == old(s.ref) - 1 && forall t | t in all && t != s :: t.ref == old(t.ref)
      ensures Total() == old(Total()) - 1
    {
      SetRef(s, s.ref - 1);
    }

    /** Where s stands in order of creation, and what changing its count does to the total. */
    lemma CountsChange(s: Session, ref: int)
      requires Indexed() && s in all
      ensures exists k | 0 <= k < |all| :: all[k] == s && Sum(Counts()[k := ref]) == Total() - s.ref + ref
    {
      var k :| 0 <= k < |all| && all[k] == s;
      SumUpdate(Counts(), k, ref);
    }

    lemma RootSessionIsLeast()
      requires Valid()
      ensures sessions[0] in all && forall t | t in all :: sessions[0].ref <= t.ref
    {
      forall t | t in all
        ensures sessions[0].ref <= t.ref
      {
        RootIsLeast(Refs(), t.index);
      }
    }
  }

  /** DialWithTimeout: a number of sessions that is not positive becomes 100. */
  method DialWithTimeout(sessionNum: int) returns (c: DialContext)
    ensures fresh(c) && fresh(c.sessions) && c.Valid()
    ensures c.sessions.Length == if sessionNum <= 0 then 100 else sessionNum
    ensures forall s | s in c.all :: fresh(s) && s.ref == 0
    ensures c.Total() == 0 && c.Balanced()
  {
    var n := if sessionNum <= 0 then 100 else sessionNum;
    var first := new Session(0);
    var a := new Session[n](_ => first);
    var i := 1;
    while i < n
      invariant 1 <= i <= n
      invariant forall k | 0 <= k < i :: fresh(a[k]) && a[k].ref == 0 && a[k].index == k
    {
      a[i] := new Session(i);
      i := i + 1;
    }
    c := new DialContext(a);
    c.HeapInit();
    ZeroSum(c.Counts());
  }

  function Sum(a: seq<int>): int {
    if a == [] then 0 else a[0] + Sum(a[1..])
  }

  lemma {:induction false} ZeroSum(a: seq<int>)
    requires forall i | 0 <= i < |a| :: a[i] == 0
    ensures Sum(a) == 0
  {
    if a != [] { ZeroSum(a[1..]); }
  }

  lemma {:induction false} SumUpdate(a: seq<int>, i: nat, v: int)
    requires i < |a|
    ensures Sum(a[i := v]) == Sum(a) - a[i] + v
  {
    if i > 0 {
      SumUpdate(a[1..], i - 1, v);
      assert a[i := v][1..] == a[1..][i - 1 := v];
    }
  }

  /** The least of n counts that sum to k is at most k / n. */
  lemma LeastIsBelowAverage(a: seq<int>, least: int)
    requires a != [] && forall i | 0 <= i < |a| :: least <= a[i]
    ensures least <= Sum(a) / |a|
  {
    LeastTimesCount(a, least);
    AtMostQuotient(least, Sum(a), |a|);
  }

  lemma AtMostQuotient(x: int, k: int, n: nat)
    requires n > 0 && x * n <= k
    ensures x <= k / n
  {
    var q := k / n;
    assert k < (q + 1) * n;
    if x > q {
    }
  }

  lemma {:induction false} LeastTimesCount(a: seq<int>, least: int)
    requires forall i | 0 <= i < |a| :: least <= a[i]
    ensures least * |a| <= Sum(a)
  {
    if a != [] { LeastTimesCount(a[1..], least); }
  }
}
