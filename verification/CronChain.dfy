/** Timers, their dispatcher and the self-rescheduling cron chain (timer/timer.go), as a machine.
    The dispatching goroutine runs the callbacks and calls Cron.Stop; the Go runtime fires timers
    and its goroutines send them to ChanTimer.  The clock never goes back, a timer does not fire
    early, and times are nanoseconds since the zero instant. */
module CronChain {
  import opened Wrappers
  import Cron = CronExpr

  datatype Stage = Armed | Fired | Queued | Done

  /** A timer of the chain.  `live` says that its callback is not nil. */
  datatype Timer = Timer(at: nat, live: bool, stage: Stage)

  datatype State = State(
    clock: nat,
    capacity: nat,             // of ChanTimer
    timers: seq<Timer>,        // all timers of the chain so far; Cron.t is the last one
    queue: seq<nat>,           // ChanTimer, by index
    running: Option<nat>,      // the timer whose callback is being run
    // history
    runs: seq<nat>,            // the timers whose callback was run, in order
    stopped: bool,             // Cron.Stop was called
    over: bool                 // Next gave the zero time
  )

  /** What Next returns at a given time; see CronExpr.Next. */
  ghost predicate IsNext(e: Cron.CronExpr, nanos: nat, r: Option<nat>) {
    var start := Cron.UpcomingSecond(nanos);
    match r
    case Some(t) => start <= t < Cron.WindowEnd(start) && Cron.Matches(e, t) && Cron.NoMatchIn(e, start, t)
    case None => Cron.NoMatchIn(e, start, Cron.WindowEnd(start))
  }

  /** IsNext is met by the result of Next, and by nothing else. */
  lemma IsNextUnique(e: Cron.CronExpr, nanos: nat, a: Option<nat>, b: Option<nat>)
    requires IsNext(e, nanos, a) && IsNext(e, nanos, b)
    ensures a == b
  {}

  method NextOf(e: Cron.CronExpr, nanos: nat) returns (r: Option<nat>)
    ensures IsNext(e, nanos, r)
  {
    r := Cron.Next(e, nanos);
  }

  function Nanos(second: nat): nat { second * 1_000_000_000 }

  lemma NextIsLater(e: Cron.CronExpr, nanos: nat, t: nat)
    requires IsNext(e, nanos, Some(t))
    ensures Nanos(t) > nanos
  {}

  datatype Step =
    | Tick(now: nat)
    | Fire(timer: nat)
    | Enqueue(timer: nat)
    | Dispatch(next: Option<nat>)    // receive a timer and, if its callback is live, reschedule and enter it
    | FinishCallback                 // the callback returns or panics
    | Stop                           // Cron.Stop, possibly from inside the callback

  /** For Dispatch, that `next` is what Next returns is a condition of runs; see IsRun. */
  predicate Enabled(s: State, step: Step) {
    match step
    case Tick(now) => now >= s.clock
    case Fire(i) => i < |s.timers| && s.timers[i].stage == Armed && s.clock >= Nanos(s.timers[i].at)
    case Enqueue(i) => i < |s.timers| && s.timers[i].stage == Fired && (|s.queue| < s.capacity || s.queue == [])
    case Dispatch(next) => s.running == None && s.queue != [] && s.queue[0] < |s.timers|
    case FinishCallback => s.running.Some? && s.running.value < |s.timers|
    case Stop => true
  }

  function Set(s: State, i: nat, t: Timer): State
    requires i < |s.timers|
  {
    s.(timers := s.timers[i := t])
  }

  /** The body of the cron callback up to the deferred user callback. */
  function Reschedule(s: State, next: Option<nat>): State {
    match next
    case Some(at) => s.(timers := s.timers + [Timer(at, true, Armed)])
    case None => s.(over := true)
  }

  function Apply(s: State, step: Step): State
    requires Enabled(s, step)
  {
    match step
    case Tick(now) => s.(clock := now)
    case Fire(i) => Set(s, i, s.timers[i].(stage := Fired))
    case Enqueue(i) => Set(s, i, s.timers[i].(stage := Queued)).(queue := s.queue + [i])
    case Dispatch(next) =>
      var i := s.queue[0];
      var t := Set(s, i, s.timers[i].(stage := Done)).(queue := s.queue[1..]);
      if s.timers[i].live then Reschedule(t, next).(running := Some(i), runs := s.runs + [i]) else t
    case FinishCallback =>
      var i := s.running.value;
      Set(s, i, s.timers[i].(live := false)).(running := None)
    case Stop =>
      if s.timers == [] then s.(stopped := true)
      else
        var i := |s.timers| - 1;
        Set(s, i, s.timers[i].(live := false,
            stage := if s.timers[i].stage == Armed then Done else s.timers[i].stage)).(stopped := true)
  }

  type Oracle = (nat, Option<nat>) -> bool

  ghost function NextOracle(e: Cron.CronExpr): Oracle {
    (nanos: nat, r: Option<nat>) => IsNext(e, nanos, r)
  }

  /** CronFunc at the time of the clock. */
  ghost predicate Initial(next: Oracle, s: State) {
    && s.queue == [] && s.running == None && s.runs == [] && !s.stopped
    && if s.over then s.timers == [] && next(s.clock, None)
       else |s.timers| == 1 && s.timers[0].live && s.timers[0].stage == Armed && next(s.clock, Some(s.timers[0].at))
  }

  // The invariant

  ghost predicate QueueOk(s: State) {
    && (forall k | 0 <= k < |s.queue| :: s.queue[k] < |s.timers| && s.timers[s.queue[k]].stage == Queued)
    && (forall k, l | 0 <= k < l < |s.queue| :: s.queue[k] != s.queue[l])
  }

  /** Only the last timer of the chain, and the one being run, can have a live callback. */
  ghost predicate LiveOk(s: State) {
    && (forall i | 0 <= i < |s.timers| && s.timers[i].live && s.running != Some(i) ::
        i == |s.timers| - 1 && s.timers[i].stage != Done)
    && (s.running.Some? ==>
          && s.running.value < |s.timers| && s.timers[s.running.value].stage == Done
          && s.running.value == |s.runs| - 1)
    && |s.timers| == |s.runs| + (if s.over then 0 else 1)
    && (forall k | 0 <= k < |s.runs| :: s.runs[k] == k)
    && (if s.stopped || s.over then NoneLive(s) else s.timers[|s.timers| - 1].live && s.running != Some(|s.timers| - 1))
  }

  /** No callback is live but possibly that of the timer being run. */
  ghost predicate NoneLive(s: State) {
    forall i | 0 <= i < |s.timers| && s.running != Some(i) :: !s.timers[i].live
  }

  ghost predicate Increasing(timers: seq<Timer>) {
    forall i, j | 0 <= i < j < |timers| :: timers[i].at < timers[j].at
  }

  /** A timer that has left the runtime, or whose callback was run, was due. */
  ghost predicate DueOk(s: State) {
    forall i | 0 <= i < |s.timers| && (s.timers[i].stage == Fired || s.timers[i].stage == Queued ||
        i < |s.runs|) :: s.clock >= Nanos(s.timers[i].at)
  }

  ghost predicate Inv(s: State) {
    QueueOk(s) && LiveOk(s) && DueOk(s) && Increasing(s.timers)
  }

  /** What the machine needs to know of Next: it looks ahead. */
  predicate LooksAhead(s: State, step: Step) {
    step.Dispatch? && step.next.Some? ==> Nanos(step.next.value) > s.clock
  }

  lemma TickKeepsInv(s: State, now: nat)
    requires Inv(s) && Enabled(s, Tick(now))
    ensures Inv(Apply(s, Tick(now)))
  {}

  lemma FireKeepsInv(s: State, i: nat)
    requires Inv(s) && Enabled(s, Fire(i))
    ensures Inv(Apply(s, Fire(i)))
  {}

  lemma EnqueueKeepsQueue(s: State, i: nat)
    requires QueueOk(s) && Enabled(s, Enqueue(i))
    ensures QueueOk(Apply(s, Enqueue(i)))
  {}

  lemma EnqueueKeepsLive(s: State, i: nat)
    requires LiveOk(s) && Enabled(s, Enqueue(i))
    ensures LiveOk(Apply(s, Enqueue(i)))
  {}

  lemma EnqueueKeepsInv(s: State, i: nat)
    requires Inv(s) && Enabled(s, Enqueue(i))
    ensures Inv(Apply(s, Enqueue(i)))
  {
    EnqueueKeepsQueue(s, i);
    EnqueueKeepsLive(s, i);
  }

  lemma DispatchKeepsQueue(s: State, next: Option<nat>)
    requires Inv(s) && Enabled(s, Dispatch(next))
    ensures QueueOk(Apply(s, Dispatch(next)))
  {}

  /** A live timer that is received is the last of the chain, and the callbacks of all before it
      have been run. */
  lemma DispatchedIsLast(s: State)
    requires Inv(s) && s.running == None && s.queue != [] && s.timers[s.queue[0]].live
    ensures s.queue[0] == |s.timers| - 1 == |s.runs| && s.clock >= Nanos(s.timers[s.queue[0]].at) &&
        !s.stopped && !s.over
  {
    assert s.timers[s.queue[0]].stage == Queued;
  }

  lemma DispatchKeepsLive(s: State, next: Option<nat>)
    requires Inv(s) && Enabled(s, Dispatch(next)) && s.timers[s.queue[0]].live
    ensures LiveOk(Apply(s, Dispatch(next)))
  {
    DispatchedIsLast(s);
  }

  lemma DispatchOfDead(s: State, next: Option<nat>)
    requires Inv(s) && Enabled(s, Dispatch(next)) && !s.timers[s.queue[0]].live
    ensures Inv(Apply(s, Dispatch(next)))
  {
    DispatchKeepsQueue(s, next);
  }

  lemma DispatchKeepsSchedule(s: State, next: Option<nat>)
    requires Inv(s) && Enabled(s, Dispatch(next)) && LooksAhead(s, Dispatch(next)) && s.timers[s.queue[0]].live
    ensures DueOk(Apply(s, Dispatch(next))) && Increasing(Apply(s, Dispatch(next)).timers)
  {
    DispatchedIsLast(s);
  }

  lemma FinishKeepsInv(s: State)
    requires Inv(s) && Enabled(s, FinishCallback)
    ensures Inv(Apply(s, FinishCallback))
  {}

  lemma StopKeepsQueue(s: State)
    requires QueueOk(s)
    ensures QueueOk(Apply(s, Stop))
  {}

  lemma StopKeepsTimes(s: State)
    requires DueOk(s) && Increasing(s.timers)
    ensures DueOk(Apply(s, Stop)) && Increasing(Apply(s, Stop).timers)
  {}

  lemma StopKeepsInv(s: State)
    requires Inv(s)
    ensures Inv(Apply(s, Stop))
  {
    StopKeepsQueue(s);
    StopKeepsLive(s);
    StopKeepsTimes(s);
  }

  lemma StopKeepsLive(s: State)
    requires LiveOk(s)
    ensures LiveOk(Apply(s, Stop))
  {}

  lemma StepKeepsInv(s: State, step: Step)
    requires Inv(s) && Enabled(s, step) && LooksAhead(s, step)
    ensures Inv(Apply(s, step))
  {
    match step
    case Tick(now) => TickKeepsInv(s, now);
    case Fire(i) => FireKeepsInv(s, i);
    case Enqueue(i) => EnqueueKeepsInv(s, i);
    case Dispatch(next) =>
      if s.timers[s.queue[0]].live {
        DispatchKeepsQueue(s, next);
        DispatchKeepsLive(s, next);
        DispatchKeepsSchedule(s, next);
      } else {
        DispatchOfDead(s, next);
      }
    case FinishCallback => FinishKeepsInv(s);
    case Stop => StopKeepsInv(s);
  }

  // Runs: every dispatch reschedules with what Next returns at that moment

  /** What the machine uses of Next: it looks ahead, to instants that satisfy p. */
  ghost predicate Gives(next: Oracle, p: nat -> bool) {
    forall nanos: nat, t: nat :: next(nanos, Some(t)) ==> Nanos(t) > nanos && p(t)
  }

  ghost predicate StepOf(next: Oracle, s: State, step: Step) {
    Enabled(s, step) && (step.Dispatch? ==> next(s.clock, step.next))
  }

  ghost predicate IsRun(next: Oracle, s: State, steps: seq<Step>, t: State)
    decreases |steps|
  {
    if steps == [] then s == t
    else StepOf(next, s, steps[0]) && IsRun(next, Apply(s, steps[0]), steps[1..], t)
  }

  ghost predicate All(p: nat -> bool, timers: seq<Timer>) {
    forall i | 0 <= i < |timers| :: p(timers[i].at)
  }

  /** The chain only grows, by the instant that Next gave. */
  lemma TimersStep(s: State, step: Step)
    requires Inv(s) && Enabled(s, step)
    ensures var t := Apply(s, step);
            && |s.timers| <= |t.timers| <= |s.timers| + 1
            && (forall i | 0 <= i < |s.timers| :: t.timers[i].at == s.timers[i].at)
            && (|t.timers| > |s.timers| ==> step.Dispatch? && step.next == Some(t.timers[|s.timers|].at))
  {}

  lemma RunStep(next: Oracle, p: nat -> bool, s: State, step: Step)
    requires Gives(next, p) && StepOf(next, s, step) && Inv(s) && All(p, s.timers)
    ensures Inv(Apply(s, step)) && All(p, Apply(s, step).timers)
  {
    StepKeepsInv(s, step);
    TimersStep(s, step);
  }

  lemma {:induction false} RunKeepsInv(next: Oracle, p: nat -> bool, s: State, steps: seq<Step>, t: State)
    requires Gives(next, p) && IsRun(next, s, steps, t) && Inv(s) && All(p, s.timers)
    ensures Inv(t) && All(p, t.timers)
    decreases |steps|
  {
    if steps != [] {
      RunStep(next, p, s, steps[0]);
      RunKeepsInv(next, p, Apply(s, steps[0]), steps[1..], t);
    }
  }

  lemma InitialInv(next: Oracle, p: nat -> bool, s: State)
    requires Gives(next, p) && Initial(next, s)
    ensures Inv(s) && All(p, s.timers)
  {}

  ghost predicate Reachable(next: Oracle, s: State, steps: seq<Step>, t: State) {
    Initial(next, s) && IsRun(next, s, steps, t)
  }

  lemma ReachableInv(next: Oracle, p: nat -> bool, s: State, steps: seq<Step>, t: State)
    requires Gives(next, p) && Reachable(next, s, steps, t)
    ensures Inv(t) && All(p, t.timers)
  {
    InitialInv(next, p, s);
    RunKeepsInv(next, p, s, steps, t);
  }

  // Main results, for every state t that any run from an initial state can reach

  /** Every scheduled instant is one that Next gives.  The instants increase strictly; at most one
      live callback is armed or queued outside the one being run; callbacks run once each, in order,
      and not before their instant; and until the chain is stopped or Next gives the zero time it
      always has a live timer ahead, whether callbacks return or panic. */
  lemma ChainIsSound(next: Oracle, p: nat -> bool, s: State, steps: seq<Step>, t: State)
    requires Gives(next, p) && Reachable(next, s, steps, t)
    ensures All(p, t.timers) && Increasing(t.timers)
    ensures forall i, j | 0 <= i < |t.timers| && 0 <= j < |t.timers| && t.timers[i].live && t.timers[j].live &&
        t.running != Some(i) && t.running != Some(j) :: i == j
    ensures forall k | 0 <= k < |t.runs| :: t.runs[k] == k && k < |t.timers| && t.clock >= Nanos(t.timers[k].at)
    ensures !t.stopped && !t.over ==> var last := |t.timers| - 1;
              last >= 0 && t.timers[last].live && t.timers[last].stage != Done && t.running != Some(last)
  {
    ReachableInv(next, p, s, steps, t);
  }

  lemma StoppedStep(s: State, step: Step)
    requires Inv(s) && s.stopped && Enabled(s, step)
    ensures Apply(s, step).stopped && Apply(s, step).runs == s.runs && |Apply(s, step).timers| == |s.timers|
  {
    if step.Dispatch? && s.timers[s.queue[0]].live {
      DispatchedIsLast(s);
    }
  }

  lemma {:induction false} StoppedRun(next: Oracle, p: nat -> bool, s: State, steps: seq<Step>, t: State)
    requires Gives(next, p) && IsRun(next, s, steps, t) && Inv(s) && All(p, s.timers) && s.stopped
    ensures t.runs == s.runs && |t.timers| == |s.timers|
    decreases |steps|
  {
    if steps != [] {
      StoppedStep(s, steps[0]);
      RunStep(next, p, s, steps[0]);
      StoppedRun(next, p, Apply(s, steps[0]), steps[1..], t);
    }
  }

  /** After Cron.Stop, called between callbacks, inside one, or with the timer already in ChanTimer,
      no later dispatch runs the callback and nothing is scheduled any more. */
  lemma StopIsFinal(next: Oracle, p: nat -> bool, s0: State, before: seq<Step>, s: State, steps: seq<Step>, t: State)
    requires Gives(next, p) && Reachable(next, s0, before, s) && IsRun(next, Apply(s, Stop), steps, t)
    ensures t.runs == s.runs && |t.timers| == |s.timers|
  {
    ReachableInv(next, p, s0, before, s);
    RunStep(next, p, s, Stop);
    StoppedRun(next, p, Apply(s, Stop), steps, t);
  }

  // The chain of an expression

  ghost function MatchesOf(e: Cron.CronExpr): nat -> bool {
    (t: nat) => Cron.Matches(e, t)
  }

  lemma NextGives(e: Cron.CronExpr)
    ensures Gives(NextOracle(e), MatchesOf(e))
  {
    forall nanos: nat, t: nat | IsNext(e, nanos, Some(t))
      ensures Nanos(t) > nanos && Cron.Matches(e, t)
    {
      NextIsLater(e, nanos, t);
    }
  }

  /** With the Next of a cron expression, every instant scheduled in any run matches it. */
  lemma ScheduledInstantsMatch(e: Cron.CronExpr, s: State, steps: seq<Step>, t: State, i: nat)
    requires Reachable(NextOracle(e), s, steps, t) && i < |t.timers|
    ensures Cron.Matches(e, t.timers[i].at)
  {
    NextGives(e);
    ChainIsSound(NextOracle(e), MatchesOf(e), s, steps, t);
    assert MatchesOf(e)(t.timers[i].at);
  }
}
