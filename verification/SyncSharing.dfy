/** Synchronous calls of several goroutines on one client (chanrpc/chanrpc.go:241-300).  All of them
    receive from the client's one ChanSyncRet, of capacity 1.  A call and its reply are identified
    by the goroutine that calls. */
module SyncSharing {

  datatype State = State(
    queue: seq<nat>,          // calls at the server, in order
    syncRet: seq<nat>,        // replies in ChanSyncRet
    waiting: set<nat>,        // goroutines that receive from ChanSyncRet
    got: seq<(nat, nat)>      // history: which goroutine received the reply to whose call
  )

  const INIT: State := State([], [], {}, [])

  datatype Step = Call(g: nat) | Serve | Receive(g: nat)

  predicate Enabled(s: State, step: Step) {
    match step
    case Call(g) => g !in s.waiting
    case Serve => s.queue != [] && s.syncRet == []
    case Receive(g) => g in s.waiting && s.syncRet != []
  }

  function Apply(s: State, step: Step): State
    requires Enabled(s, step)
  {
    match step
    case Call(g) => s.(queue := s.queue + [g], waiting := s.waiting + {g})
    case Serve => s.(queue := s.queue[1..], syncRet := [s.queue[0]])
    case Receive(g) => s.(syncRet := s.syncRet[1..], waiting := s.waiting - {g}, got := s.got + [(g, s.syncRet[0])])
  }

  ghost predicate IsRun(s: State, steps: seq<Step>, t: State)
    decreases |steps|
  {
    if steps == [] then s == t
    else Enabled(s, steps[0]) && IsRun(Apply(s, steps[0]), steps[1..], t)
  }

  /** Calls are made only while nobody waits. */
  ghost predicate OneAtATime(s: State, steps: seq<Step>)
    decreases |steps|
  {
    steps == [] ||
    (Enabled(s, steps[0]) && (steps[0].Call? ==> s.waiting == {}) && OneAtATime(Apply(s, steps[0]), steps[1..]))
  }

  /** Every reply has gone to the goroutine whose call it answers. */
  predicate OwnReplies(s: State) { forall i | 0 <= i < |s.got| :: s.got[i].0 == s.got[i].1 }

  function Unanswered(s: State): seq<nat> { s.syncRet + s.queue }

  predicate Distinct(calls: seq<nat>) { forall i, j | 0 <= i < j < |calls| :: calls[i] != calls[j] }

  /** The unanswered calls are those of the waiting goroutines. */
  ghost predicate Matched(s: State) {
    && |s.syncRet| <= 1 && OwnReplies(s)
    && (forall g :: g in s.waiting <==> g in Unanswered(s))
    && Distinct(Unanswered(s))
  }

  predicate AtMostOneWaits(s: State) { forall g, h | g in s.waiting && h in s.waiting :: g == h }

  lemma WithoutFirst(calls: seq<nat>)
    requires calls != [] && Distinct(calls)
    ensures Distinct(calls[1..]) && forall h :: h in calls[1..] <==> h in calls && h != calls[0]
  {
    forall h | h in calls[1..]
      ensures h in calls && h != calls[0]
    {
      var i :| 0 <= i < |calls[1..]| && calls[1..][i] == h;
      assert calls[i + 1] == h;
    }
  }

  lemma ReceiveKeepsMatched(s: State, g: nat)
    requires Matched(s) && Enabled(s, Receive(g)) && g == s.syncRet[0]
    ensures Matched(Apply(s, Receive(g)))
  {
    assert Unanswered(s)[1..] == Unanswered(Apply(s, Receive(g)));
    WithoutFirst(Unanswered(s));
  }

  /** A step after which every reply has still reached its caller. */
  lemma MatchedStep(s: State, step: Step)
    requires Matched(s) && Enabled(s, step) && OwnReplies(Apply(s, step))
    ensures Matched(Apply(s, step))
  {
    var t := Apply(s, step);
    match step
    case Call(g) => assert Unanswered(t) == Unanswered(s) + [g];
    case Serve => assert Unanswered(t) == Unanswered(s);
    case Receive(g) =>
      assert t.got[|s.got|] == (g, s.syncRet[0]);
      ReceiveKeepsMatched(s, g);
  }

  lemma {:induction false} OwnRepliesBefore(s: State, steps: seq<Step>, t: State)
    requires IsRun(s, steps, t) && OwnReplies(t)
    ensures s.got <= t.got && OwnReplies(s)
    decreases |steps|
  {
    if steps != [] {
      OwnRepliesBefore(Apply(s, steps[0]), steps[1..], t);
      assert s.got <= Apply(s, steps[0]).got;
    }
  }

  lemma {:induction false} RunKeepsMatched(s: State, steps: seq<Step>, t: State)
    requires Matched(s) && IsRun(s, steps, t) && OwnReplies(t)
    ensures Matched(t)
    decreases |steps|
  {
    if steps != [] {
      OwnRepliesBefore(Apply(s, steps[0]), steps[1..], t);
      MatchedStep(s, steps[0]);
      RunKeepsMatched(Apply(s, steps[0]), steps[1..], t);
    }
  }

  /** A lone waiter gets its own reply, and a caller that finds nobody waiting is alone. */
  lemma AloneStep(s: State, step: Step)
    requires Matched(s) && AtMostOneWaits(s) && Enabled(s, step) && (step.Call? ==> s.waiting == {})
    ensures Matched(Apply(s, step)) && AtMostOneWaits(Apply(s, step))
  {
    var t := Apply(s, step);
    if step.Receive? {
      assert s.syncRet[0] in Unanswered(s);
      ReceiveKeepsMatched(s, step.g);
    } else {
      MatchedStep(s, step);
    }
  }

  /** A run whose calls do not overlap with each other or with those under way. */
  ghost predicate AloneRuns(s: State, steps: seq<Step>, t: State) {
    IsRun(s, steps, t) && OneAtATime(s, steps)
  }

  lemma {:induction false} AloneRun(s: State, steps: seq<Step>, t: State)
    requires Matched(s) && AtMostOneWaits(s) && AloneRuns(s, steps, t)
    ensures OwnReplies(t)
    decreases |steps|
  {
    if steps != [] {
      AloneStep(s, steps[0]);
      AloneRun(Apply(s, steps[0]), steps[1..], t);
    }
  }

  /** In every run in which no call is made while another waits, each caller gets its own replies. */
  lemma AloneIsSafe(steps: seq<Step>, t: State)
    requires AloneRuns(INIT, steps, t)
    ensures OwnReplies(t)
  {
    AloneRun(INIT, steps, t);
  }

  /** The reply at the front goes to whoever receives first. */
  lemma Stolen(s: State, g: nat) returns (more: seq<Step>, t: State)
    requires s.syncRet != [] && g in s.waiting && g != s.syncRet[0]
    ensures AloneRuns(s, more, t) && !OwnReplies(t)
  {
    more, t := [Receive(g)], Apply(s, Receive(g));
    assert IsRun(t, more[1..], t) && OneAtATime(t, more[1..]);
    assert t.got[|s.got|].0 != t.got[|s.got|].1;
  }

  lemma StolenNext(s: State) returns (more: seq<Step>, t: State)
    requires Matched(s) && !AtMostOneWaits(s)
    ensures AloneRuns(s, more, t) && !OwnReplies(t)
  {
    var g, h :| g in s.waiting && h in s.waiting && g != h;
    if s.syncRet != [] {
      more, t := Stolen(s, if g != s.syncRet[0] then g else h);
    } else {
      assert g in Unanswered(s);
      var u := Apply(s, Serve);
      var rest;
      rest, t := Stolen(u, if g != u.syncRet[0] then g else h);
      more := [Serve] + rest;
      assert more[1..] == rest;
    }
  }

  /** Wherever a run can get with each reply so far at its caller: the replies are sure to reach
      their callers from there on, if nobody calls any more while another waits, if and only if at
      most one goroutine waits there.  So from the first moment at which two calls overlap on, a
      reply can go astray, whatever the callers do. */
  lemma SafeIffAlone(steps: seq<Step>, s: State)
    requires IsRun(INIT, steps, s) && OwnReplies(s)
    ensures (forall more: seq<Step>, t: State :: AloneRuns(s, more, t) ==> OwnReplies(t)) <==> AtMostOneWaits(s)
  {
    RunKeepsMatched(INIT, steps, s);
    if AtMostOneWaits(s) {
      forall more: seq<Step>, t: State | AloneRuns(s, more, t)
        ensures OwnReplies(t)
      {
        AloneRun(s, more, t);
      }
    } else {
      var more, t := StolenNext(s);
    }
  }

  /** Two goroutines that call at the same time, the second of which takes the reply of the first. */
  lemma RepliesCanCross() returns (steps: seq<Step>, t: State)
    ensures IsRun(INIT, steps, t) && t.got == [(2, 1)]
  {
    var s1 := Apply(INIT, Call(1));
    var s2 := Apply(s1, Call(2));
    var s3 := Apply(s2, Serve);
    t := Apply(s3, Receive(2));
    steps := [Call(1), Call(2), Serve, Receive(2)];
    assert IsRun(t, steps[1..][1..][1..][1..], t);
    assert IsRun(s3, steps[1..][1..][1..], t);
    assert IsRun(s2, steps[1..][1..], t);
    assert IsRun(s1, steps[1..], t);
  }
}
