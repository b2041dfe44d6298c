/** Timers that are due are served: how many steps the machine of CronChain can take while the clock
    stands still, and what holds where none is left. */
module CronChainEnds {
  import opened Wrappers

  import opened CronChain
  import Cron = CronExpr

  /** The clock and Cron.Stop.  All other steps serve timers that are due. */
  predicate IsChoice(step: Step) { step.Tick? || step.Stop? }

  function One(b: bool): nat { if b then 1 else 0 }

  function Choices(steps: seq<Step>): nat {
    if steps == [] then 0 else One(IsChoice(steps[0])) + Choices(steps[1..])
  }

  predicate IsDue(clock: nat, t: Timer) { clock >= Nanos(t.at) }

  /** The steps still to be taken for a timer: fire, enqueue, dispatch and finish. */
  function TimerWeight(clock: nat, t: Timer): nat {
    match t.stage
    case Armed => if IsDue(clock, t) then 4 else 0
    case Fired => 3
    case Queued => 2
    case Done => 0
  }

  function TimersWeight(clock: nat, timers: seq<Timer>): nat {
    if timers == [] then 0
    else TimersWeight(clock, timers[..|timers| - 1]) + TimerWeight(clock, timers[|timers| - 1])
  }

  function Weight(s: State): nat { TimersWeight(s.clock, s.timers) + One(s.running.Some?) }

  lemma {:induction false} WeightUpdate(clock: nat, timers: seq<Timer>, i: nat, t: Timer)
    requires i < |timers|
    ensures TimersWeight(clock, timers[i := t]) ==
        TimersWeight(clock, timers) - TimerWeight(clock, timers[i]) + TimerWeight(clock, t)
    ensures TimerWeight(clock, timers[i]) <= TimersWeight(clock, timers)
    decreases |timers|
  {
    var front := timers[..|timers| - 1];
    if i < |front| {
      WeightUpdate(clock, front, i, t);
      assert timers[i := t][..|timers| - 1] == front[i := t];
    } else {
      assert timers[i := t][..|timers| - 1] == front;
    }
  }

  lemma WeightAppend(clock: nat, timers: seq<Timer>, t: Timer)
    ensures TimersWeight(clock, timers + [t]) == TimersWeight(clock, timers) + TimerWeight(clock, t)
  {
    assert (timers + [t])[..|timers|] == timers;
  }

  lemma {:induction false} NoneArmed(clock: nat, now: nat, timers: seq<Timer>)
    requires forall i | 0 <= i < |timers| :: timers[i].stage != Armed
    ensures TimersWeight(now, timers) == TimersWeight(clock, timers)
  {
    if timers != [] {
      NoneArmed(clock, now, timers[..|timers| - 1]);
    }
  }

  /** An armed timer has a live callback, and a queued one is in ChanTimer. */
  ghost predicate StagesOk(s: State) {
    && (forall i | 0 <= i < |s.timers| && s.timers[i].stage == Armed :: s.timers[i].live)
    && (forall i | 0 <= i < |s.timers| && s.timers[i].stage == Queued :: i in s.queue)
  }

  lemma OnlyLastArmed(s: State)
    requires Inv(s) && StagesOk(s)
    ensures forall i | 0 <= i < |s.timers| - 1 :: s.timers[i].stage != Armed
  {}

  lemma DispatchKeepsStages(s: State, next: Option<nat>)
    requires Inv(s) && StagesOk(s) && Enabled(s, Dispatch(next))
    ensures StagesOk(Apply(s, Dispatch(next)))
  {
    assert forall i | i in s.queue && i != s.queue[0] :: i in s.queue[1..];
  }

  lemma StagesOkStep(s: State, step: Step)
    requires Inv(s) && StagesOk(s) && Enabled(s, step)
    ensures StagesOk(Apply(s, step))
  {
    if step.Dispatch? {
      DispatchKeepsStages(s, step.next);
    }
  }

  /** A step that is no choice brings the end nearer, and a choice adds at most 4 steps. */
  ghost predicate Nearer(s: State, step: Step, t: State) {
    Weight(t) + 1 <= Weight(s) + if IsChoice(step) then 5 else 0
  }

  lemma TickWeight(s: State, now: nat)
    requires Inv(s) && StagesOk(s) && Enabled(s, Tick(now))
    ensures Nearer(s, Tick(now), Apply(s, Tick(now)))
  {
    OnlyLastArmed(s);
    if s.timers != [] {
      NoneArmed(s.clock, now, s.timers[..|s.timers| - 1]);
    }
  }

  lemma MoveWeight(s: State, step: Step)
    requires Enabled(s, step) && (step.Fire? || step.Enqueue?)
    ensures Nearer(s, step, Apply(s, step))
  {
    WeightUpdate(s.clock, s.timers, step.timer, Apply(s, step).timers[step.timer]);
  }

  lemma FinishWeight(s: State)
    requires Enabled(s, FinishCallback)
    ensures Nearer(s, FinishCallback, Apply(s, FinishCallback))
  {
    var i := s.running.value;
    WeightUpdate(s.clock, s.timers, i, Apply(s, FinishCallback).timers[i]);
  }

  lemma StopWeight(s: State)
    ensures Nearer(s, Stop, Apply(s, Stop))
  {
    if s.timers != [] {
      var i := |s.timers| - 1;
      WeightUpdate(s.clock, s.timers, i, Apply(s, Stop).timers[i]);
    }
  }

  lemma DispatchWeight(s: State, next: Option<nat>)
    requires Inv(s) && Enabled(s, Dispatch(next)) && LooksAhead(s, Dispatch(next))
    ensures Nearer(s, Dispatch(next), Apply(s, Dispatch(next)))
  {
    var i := s.queue[0];
    assert s.timers[i].stage == Queued;
    var done := s.timers[i].(stage := Done);
    WeightUpdate(s.clock, s.timers, i, done);
    if s.timers[i].live && next.Some? {
      WeightAppend(s.clock, s.timers[i := done], Timer(next.value, true, Armed));
    }
  }

  lemma StepWeight(s: State, step: Step)
    requires Inv(s) && StagesOk(s) && Enabled(s, step) && LooksAhead(s, step)
    ensures Nearer(s, step, Apply(s, step))
  {
    match step
    case Tick(now) => TickWeight(s, now);
    case Fire(_) => MoveWeight(s, step);
    case Enqueue(_) => MoveWeight(s, step);
    case Dispatch(next) => DispatchWeight(s, next);
    case FinishCallback => FinishWeight(s);
    case Stop => StopWeight(s);
  }

  lemma {:induction false} RunsAreBounded(next: Oracle, p: nat -> bool, s: State, steps: seq<Step>, t: State)
    requires Gives(next, p) && IsRun(next, s, steps, t) && Inv(s) && StagesOk(s) && All(p, s.timers)
    ensures |steps| + Weight(t) <= Weight(s) + 5 * Choices(steps)
    ensures Inv(t) && StagesOk(t)
    decreases |steps|
  {
    if steps != [] {
      StepWeight(s, steps[0]);
      StagesOkStep(s, steps[0]);
      RunStep(next, p, s, steps[0]);
      RunsAreBounded(next, p, Apply(s, steps[0]), steps[1..], t);
    }
  }

  // Where no step is left

  ghost predicate Answers(next: Oracle, nanos: nat) { exists r :: next(nanos, r) }

  /** Next gives some result at every time. */
  ghost predicate Total(next: Oracle) { forall nanos: nat :: Answers(next, nanos) }

  ghost predicate Stuck(next: Oracle, s: State) { forall step :: StepOf(next, s, step) ==> IsChoice(step) }

  /** Something is left to be done for timer i, or for the one being run. */
  predicate Waits(s: State, i: nat) {
    s.running.Some? || (i < |s.timers| && IsDue(s.clock, s.timers[i]) && s.timers[i].stage != Done)
  }

  lemma ChainProceeds(next: Oracle, s: State, i: nat) returns (step: Step)
    requires Inv(s) && StagesOk(s) && Total(next) && Waits(s, i)
    ensures StepOf(next, s, step) && !IsChoice(step)
  {
    if s.running.Some? {
      step := FinishCallback;
    } else if s.queue != [] {
      assert Answers(next, s.clock);
      var r :| next(s.clock, r);
      step := Dispatch(r);
    } else {
      assert s.timers[i].stage != Queued;
      step := if s.timers[i].stage == Armed then Fire(i) else Enqueue(i);
    }
  }

  /** No callback is being run, each timer that is due has been received, and its callback has been run
      unless Stop was called; a chain that is neither stopped nor over has its next timer armed. */
  ghost predicate Served(s: State) {
    && s.running == None
    && (forall i | 0 <= i < |s.timers| && IsDue(s.clock, s.timers[i]) ::
        s.timers[i].stage == Done && (!s.stopped ==> i < |s.runs|))
    && (!s.stopped && !s.over ==>
          s.timers != [] && s.timers[|s.timers| - 1].live && s.timers[|s.timers| - 1].stage == Armed)
  }

  lemma NothingWaits(next: Oracle, s: State, i: nat)
    requires Inv(s) && StagesOk(s) && Total(next) && Stuck(next, s)
    ensures !Waits(s, i)
  {
    if Waits(s, i) {
      var step := ChainProceeds(next, s, i);
    }
  }

  lemma ServedWhereStuck(next: Oracle, s: State)
    requires Inv(s) && StagesOk(s) && Total(next) && Stuck(next, s)
    ensures Served(s)
  {
    NothingWaits(next, s, 0);
    forall i | 0 <= i < |s.timers| && IsDue(s.clock, s.timers[i])
      ensures s.timers[i].stage == Done
    {
      NothingWaits(next, s, i);
    }
  }

  /** In any run from any reachable state there are at most 5 steps for each move of the clock or call
      of Stop, besides those still to come; and where only such steps are left every timer that is due
      has been served.  So in every fair run in which callbacks end, a timer that is due is dispatched. */
  lemma DueTimersAreServed(next: Oracle, p: nat -> bool, s: State, steps: seq<Step>, t: State, more: seq<Step>,
      u: State)
    requires Gives(next, p) && Total(next) && Reachable(next, s, steps, t) && IsRun(next, t, more, u)
    ensures |more| <= Weight(t) + 5 * Choices(more)
    ensures Stuck(next, u) ==> Served(u)
  {
    InitialInv(next, p, s);
    RunsAreBounded(next, p, s, steps, t);
    ReachableInv(next, p, s, steps, t);
    RunsAreBounded(next, p, t, more, u);
    if Stuck(next, u) {
      ServedWhereStuck(next, u);
    }
  }

  /** A timer that has fired is held up only by a full ChanTimer, and fires as soon as it is due. */
  lemma RoomLetsEnqueue(s: State, i: nat)
    requires i < |s.timers|
    ensures s.timers[i].stage == Fired && |s.queue| < s.capacity ==> Enabled(s, Enqueue(i))
    ensures s.timers[i].stage == Armed && IsDue(s.clock, s.timers[i]) ==> Enabled(s, Fire(i))
  {}

  // The chain of an expression

  lemma {:induction false} LeastMatch(e: Cron.CronExpr, lo: nat, hi: nat) returns (t: nat)
    requires !Cron.NoMatchIn(e, lo, hi)
    ensures lo <= t < hi && Cron.Matches(e, t) && Cron.NoMatchIn(e, lo, t)
    decreases hi - lo
  {
    if Cron.Matches(e, lo) {
      t := lo;
    } else {
      t := LeastMatch(e, lo + 1, hi);
    }
  }

  /** Next is a total function of the time; see also CronChain.IsNextUnique. */
  lemma NextIsTotal(e: Cron.CronExpr)
    ensures Total(NextOracle(e))
  {
    forall nanos: nat
      ensures Answers(NextOracle(e), nanos)
    {
      var start := Cron.UpcomingSecond(nanos);
      var end := Cron.WindowEnd(start);
      if Cron.NoMatchIn(e, start, end) {
        assert NextOracle(e)(nanos, None);
      } else {
        var t := LeastMatch(e, start, end);
        assert NextOracle(e)(nanos, Some(t));
      }
    }
  }

  /** With the Next of a cron expression. */
  lemma ChainIsServed(e: Cron.CronExpr, s: State, steps: seq<Step>, t: State, more: seq<Step>, u: State)
    requires Reachable(NextOracle(e), s, steps, t) && IsRun(NextOracle(e), t, more, u)
    ensures |more| <= Weight(t) + 5 * Choices(more)
    ensures Stuck(NextOracle(e), u) ==> Served(u)
  {
    NextGives(e);
    NextIsTotal(e);
    DueTimersAreServed(NextOracle(e), MatchesOf(e), s, steps, t, more, u);
  }
}
