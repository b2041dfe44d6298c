/** The goroutine pool and its linear contexts (go/go.go), as a machine whose steps are the lock
    regions and channel operations.  A job that panics ends like one that returns: the deferred
    function sends its callback either way. */
module GoPool {
  import opened Wrappers

  /** A submitted function with its callback; `context` is -1 for a plain job. */
  datatype Job = Job(context: int, id: nat)

  /** What the goroutine that holds muxExec is doing. */
  datatype Holder =
    | Nobody
    | Acquired             // about to take the front of the list
    | Running(job: Job)
    | Ended(job: Job)      // about to send the callback
    | Sent                 // about to unlock

  datatype Context = Context(
    list: seq<Job>,        // linearGo
    waiting: nat,          // goroutines that want muxExec
    holder: Holder,
    submitted: seq<Job>    // history
  )

  datatype State = State(
    capacity: nat,                // of ChanCb
    pendingGo: int,
    running: set<nat>,            // plain jobs
    ended: set<nat>,              // plain jobs about to send their callback
    contexts: seq<Context>,
    chanCb: seq<Job>,
    taken: seq<Job>,              // callbacks being run by Cb, the innermost last
    spawning: Option<nat>,        // LinearContext.Go between pushing a job and starting its goroutine
    // history
    issued: nat,
    entered: seq<Job>,            // callbacks in the order they entered ChanCb
    started: seq<Job>             // callbacks in the order Cb received them
  )

  ghost predicate Initial(s: State) {
    && s.pendingGo == 0 && s.running == {} && s.ended == {} && s.chanCb == [] && s.taken == [] && s.spawning == None
    && s.issued == 0 && s.entered == [] && s.started == []
    && forall c | 0 <= c < |s.contexts| :: s.contexts[c] == Context([], 0, Nobody, [])
  }

  datatype Step =
    | GoPlain
    | EndPlain(id: nat)
    | SendPlain(id: nat)
    | GoLinear(c: nat)
    | Spawn
    | Lock(c: nat)
    | Pop(c: nat)
    | EndLinear(c: nat)
    | SendLinear(c: nat)
    | Unlock(c: nat)
    | TakeCb
    | FinishCb

  predicate IsSubmission(step: Step) { step.GoPlain? || step.GoLinear? }

  /** A send succeeds when the buffer has room, or hands over to the owner that receives. */
  predicate CanSend(s: State) {
    |s.chanCb| < s.capacity || (s.chanCb == [] && s.spawning == None)
  }

  predicate Enabled(s: State, step: Step) {
    match step
    case GoPlain => s.spawning == None
    case EndPlain(id) => id in s.running
    case SendPlain(id) => id in s.ended && CanSend(s)
    case GoLinear(c) => s.spawning == None && c < |s.contexts|
    case Spawn => s.spawning.Some? && s.spawning.value < |s.contexts|
    case Lock(c) => c < |s.contexts| && s.contexts[c].waiting > 0 && s.contexts[c].holder.Nobody?
    case Pop(c) => c < |s.contexts| && s.contexts[c].holder.Acquired? && s.contexts[c].list != []
    case EndLinear(c) => c < |s.contexts| && s.contexts[c].holder.Running?
    case SendLinear(c) => c < |s.contexts| && s.contexts[c].holder.Ended? && CanSend(s)
    case Unlock(c) => c < |s.contexts| && s.contexts[c].holder.Sent?
    case TakeCb => s.spawning == None && s.chanCb != []
    case FinishCb => s.spawning == None && s.taken != []
  }

  function Send(s: State, job: Job): State {
    s.(chanCb := s.chanCb + [job], entered := s.entered + [job])
  }

  function Apply(s: State, step: Step): State
    requires Enabled(s, step)
  {
    match step
    case GoPlain => s.(pendingGo := s.pendingGo + 1, running := s.running + {s.issued}, issued := s.issued + 1)
    case EndPlain(id) => s.(running := s.running - {id}, ended := s.ended + {id})
    case SendPlain(id) => Send(s, Job(-1, id)).(ended := s.ended - {id})
    case GoLinear(c) =>
      var job := Job(c, s.issued);
      s.(pendingGo := s.pendingGo + 1, issued := s.issued + 1, spawning := Some(c),
         contexts := s.contexts[c := s.contexts[c].(list := s.contexts[c].list + [job],
             submitted := s.contexts[c].submitted + [job])])
    case Spawn =>
      var c := s.spawning.value;
      s.(spawning := None, contexts := s.contexts[c := s.contexts[c].(waiting := s.contexts[c].waiting + 1)])
    case Lock(c) => s.(contexts := s.contexts[c := s.contexts[c].(waiting := s.contexts[c].waiting - 1,
        holder := Acquired)])
    case Pop(c) => s.(contexts := s.contexts[c := s.contexts[c].(list := s.contexts[c].list[1..],
        holder := Running(s.contexts[c].list[0]))])
    case EndLinear(c) => s.(contexts := s.contexts[c := s.contexts[c].(holder := Ended(s.contexts[c].holder.job))])
    case SendLinear(c) =>
      Send(s, s.contexts[c].holder.job).(contexts := s.contexts[c := s.contexts[c].(holder := Sent)])
    case Unlock(c) => s.(contexts := s.contexts[c := s.contexts[c].(holder := Nobody)])
    case TakeCb => s.(chanCb := s.chanCb[1..], taken := s.taken + [s.chanCb[0]], started := s.started + [s.chanCb[0]])
    case FinishCb => s.(pendingGo := s.pendingGo - 1, taken := s.taken[..|s.taken| - 1])
  }

  ghost predicate IsRun(s: State, steps: seq<Step>, t: State)
    decreases |steps|
  {
    if steps == [] then s == t
    else Enabled(s, steps[0]) && IsRun(Apply(s, steps[0]), steps[1..], t)
  }

  // The invariant

  /** The job whose callback the holder of the lock still owes. */
  function Owed(x: Context): seq<Job> {
    if x.holder.Running? || x.holder.Ended? then [x.holder.job] else []
  }

  /** Jobs of one context, in order. */
  function Of(jobs: seq<Job>, c: int): seq<Job> {
    if jobs == [] then []
    else Of(jobs[..|jobs| - 1], c) + if jobs[|jobs| - 1].context == c then [jobs[|jobs| - 1]] else []
  }

  function Unsent(contexts: seq<Context>): nat {
    if contexts == [] then 0 else |contexts[0].list| + |Owed(contexts[0])| + Unsent(contexts[1..])
  }

  /** pendingGo counts the jobs not finished and the callbacks not completed. */
  ghost predicate PendingOk(s: State) {
    s.pendingGo == |s.running| + |s.ended| + Unsent(s.contexts) + |s.chanCb| + |s.taken|
  }

  function One(b: bool): nat { if b then 1 else 0 }

  /** There is a goroutine, or one about to be started, for every job in the list. */
  ghost predicate ListOk(s: State, c: nat)
    requires c < |s.contexts|
  {
    var x := s.contexts[c];
    |x.list| == x.waiting + One(x.holder.Acquired?) + One(s.spawning == Some(c))
  }

  /** Callbacks enter ChanCb in the order of submission: what has entered, then what the holder of
      the lock owes, then the list. */
  ghost predicate OrderOk(s: State, c: nat)
    requires c < |s.contexts|
  {
    var x := s.contexts[c];
    && x.submitted == Of(s.entered, c) + Owed(x) + x.list
    && forall job | job in x.submitted :: job.context == c
  }

  ghost predicate Inv(s: State) {
    && PendingOk(s)
    && (forall c: nat | c < |s.contexts| :: ListOk(s, c) && OrderOk(s, c))
    && (forall id | id in s.running :: id < s.issued)
    && (forall id | id in s.ended :: id < s.issued)
    && s.running !! s.ended
    && s.entered == s.started + s.chanCb
    && (s.spawning.Some? ==> s.spawning.value < |s.contexts|)
  }

  lemma {:induction false} UnsentUpdate(contexts: seq<Context>, c: nat, x: Context)
    requires c < |contexts|
    ensures Unsent(contexts[c := x]) ==
        Unsent(contexts) - |contexts[c].list| - |Owed(contexts[c])| + |x.list| + |Owed(x)|
    ensures |contexts[c].list| + |Owed(contexts[c])| <= Unsent(contexts)
  {
    if c > 0 {
      UnsentUpdate(contexts[1..], c - 1, x);
      assert contexts[c := x][1..] == contexts[1..][c - 1 := x];
    } else {
      assert contexts[c := x][1..] == contexts[1..];
    }
  }

  lemma OfAppend(jobs: seq<Job>, job: Job, c: int)
    ensures Of(jobs + [job], c) == Of(jobs, c) + if job.context == c then [job] else []
  {
    assert (jobs + [job])[..|jobs|] == jobs;
  }

  lemma PlainKeepsInv(s: State, step: Step)
    requires Inv(s) && Enabled(s, step) && (step.GoPlain? || step.EndPlain?)
    ensures Inv(Apply(s, step))
  {
    var t := Apply(s, step);
    assert step.GoPlain? ==> s.issued !in s.running;
    forall c: nat | c < |t.contexts| ensures ListOk(t, c) && OrderOk(t, c) {
      assert ListOk(s, c) && OrderOk(s, c);
    }
  }

  lemma SendPlainKeepsInv(s: State, id: nat)
    requires Inv(s) && Enabled(s, SendPlain(id))
    ensures Inv(Apply(s, SendPlain(id)))
  {
    var t := Apply(s, SendPlain(id));
    forall c: nat | c < |t.contexts| ensures ListOk(t, c) && OrderOk(t, c) {
      assert ListOk(s, c) && OrderOk(s, c);
      OfAppend(s.entered, Job(-1, id), c);
    }
    assert s.started + (s.chanCb + [Job(-1, id)]) == s.entered + [Job(-1, id)];
  }

  lemma CallbackKeepsInv(s: State, step: Step)
    requires Inv(s) && Enabled(s, step) && (step.TakeCb? || step.FinishCb?)
    ensures Inv(Apply(s, step))
  {
    var t := Apply(s, step);
    forall c: nat | c < |t.contexts| ensures ListOk(t, c) && OrderOk(t, c) {
      assert ListOk(s, c) && OrderOk(s, c);
    }
  }

  lemma SubmitKeepsContext(s: State, c: nat, d: nat)
    requires Inv(s) && Enabled(s, GoLinear(c)) && d < |s.contexts|
    ensures ListOk(Apply(s, GoLinear(c)), d) && OrderOk(Apply(s, GoLinear(c)), d)
  {
    assert ListOk(s, d) && OrderOk(s, d);
  }

  lemma SubmitKeepsInv(s: State, c: nat)
    requires Inv(s) && Enabled(s, GoLinear(c))
    ensures Inv(Apply(s, GoLinear(c)))
  {
    var t := Apply(s, GoLinear(c));
    UnsentUpdate(s.contexts, c, t.contexts[c]);
    forall d: nat | d < |t.contexts| ensures ListOk(t, d) && OrderOk(t, d) {
      SubmitKeepsContext(s, c, d);
    }
  }

  predicate IsLockStep(step: Step) { step.Spawn? || step.Lock? || step.Unlock? || step.EndLinear? }

  lemma LockKeepsContext(s: State, step: Step, d: nat)
    requires Inv(s) && Enabled(s, step) && IsLockStep(step) && d < |s.contexts|
    ensures ListOk(Apply(s, step), d) && OrderOk(Apply(s, step), d)
  {
    assert ListOk(s, d) && OrderOk(s, d);
  }

  lemma LockKeepsInv(s: State, step: Step)
    requires Inv(s) && Enabled(s, step) && IsLockStep(step)
    ensures Inv(Apply(s, step))
  {
    var t := Apply(s, step);
    var c := if step.Spawn? then s.spawning.value else step.c;
    UnsentUpdate(s.contexts, c, t.contexts[c]);
    forall d: nat | d < |t.contexts| ensures ListOk(t, d) && OrderOk(t, d) {
      LockKeepsContext(s, step, d);
    }
  }

  lemma PopKeepsContext(s: State, c: nat, d: nat)
    requires Inv(s) && Enabled(s, Pop(c)) && d < |s.contexts|
    ensures ListOk(Apply(s, Pop(c)), d) && OrderOk(Apply(s, Pop(c)), d)
  {
    assert ListOk(s, d) && OrderOk(s, d);
    var x := s.contexts[c];
    assert x.list == [x.list[0]] + x.list[1..];
  }

  lemma PopKeepsInv(s: State, c: nat)
    requires Inv(s) && Enabled(s, Pop(c))
    ensures Inv(Apply(s, Pop(c)))
  {
    var t := Apply(s, Pop(c));
    UnsentUpdate(s.contexts, c, t.contexts[c]);
    forall d: nat | d < |t.contexts| ensures ListOk(t, d) && OrderOk(t, d) {
      PopKeepsContext(s, c, d);
    }
  }

  lemma SendKeepsOrder(s: State, c: nat, d: nat)
    requires Enabled(s, SendLinear(c)) && d < |s.contexts| && OrderOk(s, c) && OrderOk(s, d)
    ensures OrderOk(Apply(s, SendLinear(c)), d)
  {
    var job := s.contexts[c].holder.job;
    OwedIsSubmitted(s, c);
    OfAppend(s.entered, job, d);
    if c == d {
      assert Of(s.entered + [job], d) == Of(s.entered, d) + [job];
    } else {
      assert Of(s.entered + [job], d) == Of(s.entered, d);
    }
  }

  lemma OwedIsSubmitted(s: State, c: nat)
    requires c < |s.contexts| && OrderOk(s, c) && Owed(s.contexts[c]) != []
    ensures s.contexts[c].holder.job.context == c
  {
    assert s.contexts[c].holder.job in s.contexts[c].submitted;
  }

  lemma SendKeepsInv(s: State, c: nat)
    requires Inv(s) && Enabled(s, SendLinear(c))
    ensures Inv(Apply(s, SendLinear(c)))
  {
    var t, job := Apply(s, SendLinear(c)), s.contexts[c].holder.job;
    UnsentUpdate(s.contexts, c, t.contexts[c]);
    forall d: nat | d < |t.contexts| ensures ListOk(t, d) && OrderOk(t, d) {
      assert ListOk(s, d) && OrderOk(s, d) && OrderOk(s, c);
      SendKeepsOrder(s, c, d);
    }
    assert s.started + (s.chanCb + [job]) == s.entered + [job];
  }

  lemma StepKeepsInv(s: State, step: Step)
    requires Inv(s) && Enabled(s, step)
    ensures Inv(Apply(s, step))
  {
    match step
    case GoLinear(c) => SubmitKeepsInv(s, c);
    case Pop(c) => PopKeepsInv(s, c);
    case SendLinear(c) => SendKeepsInv(s, c);
    case TakeCb => CallbackKeepsInv(s, step);
    case FinishCb => CallbackKeepsInv(s, step);
    case GoPlain => PlainKeepsInv(s, step);
    case EndPlain(_) => PlainKeepsInv(s, step);
    case SendPlain(id) => SendPlainKeepsInv(s, id);
    case _ => LockKeepsInv(s, step);
  }

  lemma {:induction false} RunKeepsInv(s: State, steps: seq<Step>, t: State)
    requires Inv(s) && IsRun(s, steps, t)
    ensures Inv(t)
    decreases |steps|
  {
    if steps != [] {
      StepKeepsInv(s, steps[0]);
      RunKeepsInv(Apply(s, steps[0]), steps[1..], t);
    }
  }

  lemma {:induction false} InitialInv(s: State)
    requires Initial(s)
    ensures Inv(s)
  {
    NothingUnsent(s.contexts);
  }

  lemma {:induction false} NothingUnsent(contexts: seq<Context>)
    requires forall c | 0 <= c < |contexts| :: contexts[c] == Context([], 0, Nobody, [])
    ensures Unsent(contexts) == 0
  {
    if contexts != [] { NothingUnsent(contexts[1..]); }
  }

  // Main results, for every state t that any run from an initial state can reach

  ghost predicate Reachable(s: State, steps: seq<Step>, t: State) {
    Initial(s) && IsRun(s, steps, t)
  }

  /** Whichever goroutines win muxExec, the jobs of a context are taken from the list one at a time
      in the order of submission, and their callbacks enter ChanCb and are run by Cb in that order. */
  lemma LinearInOrder(s: State, steps: seq<Step>, t: State, c: nat)
    requires Reachable(s, steps, t) && c < |t.contexts|
    ensures t.contexts[c].submitted == Of(t.entered, c) + Owed(t.contexts[c]) + t.contexts[c].list
    ensures Of(t.started, c) <= Of(t.entered, c) <= t.contexts[c].submitted
  {
    InitialInv(s);
    RunKeepsInv(s, steps, t);
    assert OrderOk(t, c);
    OfConcat(t.started, t.chanCb, c);
  }

  lemma {:induction false} OfConcat(a: seq<Job>, b: seq<Job>, c: int)
    ensures Of(a + b, c) == Of(a, c) + Of(b, c)
  {
    if b == [] {
      assert a + b == a;
    } else {
      var front, last := b[..|b| - 1], b[|b| - 1];
      OfConcat(a, front, c);
      OfAppend(a + front, last, c);
      assert a + b == a + front + [last];
    }
  }

  /** The goroutine that has won the lock always finds a job at the front of the list. */
  lemma FrontIsNeverNil(s: State, steps: seq<Step>, t: State, c: nat)
    requires Reachable(s, steps, t) && c < |t.contexts|
    ensures t.contexts[c].holder.Acquired? ==> Enabled(t, Pop(c))
    ensures |t.contexts[c].list| ==
        t.contexts[c].waiting + One(t.contexts[c].holder.Acquired?) + One(t.spawning == Some(c))
  {
    InitialInv(s);
    RunKeepsInv(s, steps, t);
    assert ListOk(t, c);
  }

  /** A goroutine that has finished its job is held up only by a full ChanCb. */
  lemma RoomLetsSend(s: State)
    requires |s.chanCb| < s.capacity
    ensures forall id | id in s.ended :: Enabled(s, SendPlain(id))
    ensures forall c: nat | c < |s.contexts| && s.contexts[c].holder.Ended? :: Enabled(s, SendLinear(c))
  {}

  // Close ends

  function HolderWeight(h: Holder): nat {
    match h
    case Nobody => 0
    case Acquired => 1
    case Running(_) => 5
    case Ended(_) => 4
    case Sent => 1
  }

  function ContextWeight(x: Context): nat { 5 * |x.list| + 2 * x.waiting + HolderWeight(x.holder) }

  function ContextsWeight(contexts: seq<Context>): nat {
    if contexts == [] then 0 else ContextWeight(contexts[0]) + ContextsWeight(contexts[1..])
  }

  /** A bound on the steps left when no job is submitted any more. */
  function Weight(s: State): nat {
    5 * |s.running| + 4 * |s.ended| + ContextsWeight(s.contexts) + 2 * |s.chanCb| + |s.taken| +
    if s.spawning.Some? then 3 else 0
  }

  lemma {:induction false} WeightUpdate(contexts: seq<Context>, c: nat, x: Context)
    requires c < |contexts|
    ensures ContextsWeight(contexts[c := x]) == ContextsWeight(contexts) - ContextWeight(contexts[c]) + ContextWeight(x)
  {
    if c > 0 {
      WeightUpdate(contexts[1..], c - 1, x);
      assert contexts[c := x][1..] == contexts[1..][c - 1 := x];
    } else {
      assert contexts[c := x][1..] == contexts[1..];
    }
  }

  predicate IsContextStep(step: Step) {
    step.Spawn? || step.Lock? || step.Pop? || step.EndLinear? || step.SendLinear? || step.Unlock?
  }

  lemma ContextStepsRunOut(s: State, step: Step, c: nat)
    requires Enabled(s, step) && IsContextStep(step) && c == if step.Spawn? then s.spawning.value else step.c
    ensures Weight(Apply(s, step)) < Weight(s)
  {
    WeightUpdate(s.contexts, c, Apply(s, step).contexts[c]);
  }

  lemma PlainStepsRunOut(s: State, step: Step)
    requires Inv(s) && Enabled(s, step) && !IsSubmission(step) && !IsContextStep(step)
    ensures Weight(Apply(s, step)) < Weight(s)
  {}

  lemma StepsRunOut(s: State, step: Step)
    requires Inv(s) && Enabled(s, step) && !IsSubmission(step)
    ensures Weight(Apply(s, step)) < Weight(s)
  {
    if IsContextStep(step) {
      ContextStepsRunOut(s, step, if step.Spawn? then s.spawning.value else step.c);
    } else {
      PlainStepsRunOut(s, step);
    }
  }

  lemma {:induction false} RunsAreBounded(s: State, steps: seq<Step>, t: State)
    requires Inv(s) && IsRun(s, steps, t) && forall i | 0 <= i < |steps| :: !IsSubmission(steps[i])
    ensures |steps| + Weight(t) <= Weight(s)
    decreases |steps|
  {
    if steps != [] {
      assert !IsSubmission(steps[0]);
      StepKeepsInv(s, steps[0]);
      StepsRunOut(s, steps[0]);
      RunsAreBounded(Apply(s, steps[0]), steps[1..], t);
    }
  }

  lemma {:induction false} SomeUnsent(contexts: seq<Context>) returns (c: nat)
    requires Unsent(contexts) > 0
    ensures c < |contexts| && |contexts[c].list| + |Owed(contexts[c])| > 0
  {
    if |contexts[0].list| + |Owed(contexts[0])| > 0 {
      c := 0;
    } else {
      c := SomeUnsent(contexts[1..]);
      c := c + 1;
    }
  }

  /** While something is pending, some step other than a submission is possible, for any capacity of
      ChanCb and any mix of plain and linear jobs. */
  lemma NoDeadlock(s: State) returns (step: Step)
    requires Inv(s) && s.pendingGo > 0
    ensures Enabled(s, step) && !IsSubmission(step)
  {
    if s.spawning.Some? {
      step := Spawn;
    } else if s.chanCb != [] {
      step := TakeCb;
    } else if s.taken != [] {
      step := FinishCb;
    } else if s.running != {} {
      var id :| id in s.running;
      step := EndPlain(id);
    } else if s.ended != {} {
      var id :| id in s.ended;
      step := SendPlain(id);
    } else {
      var c := SomeUnsent(s.contexts);
      assert ListOk(s, c);
      match s.contexts[c].holder {
        case Nobody => step := Lock(c);
        case Acquired => step := Pop(c);
        case Running(_) => step := EndLinear(c);
        case Ended(_) => step := SendLinear(c);
        case Sent => step := Unlock(c);
      }
    }
  }

  /** pendingGo counts exactly what is not completed.  A run without further submissions has at most
      Weight many steps, and where none of those steps is possible any more nothing is pending: so
      Close ends in every fair run in which jobs end and callbacks submit no new work. */
  lemma CloseEnds(s: State, steps: seq<Step>, t: State, more: seq<Step>, u: State)
    requires Reachable(s, steps, t)
    requires IsRun(t, more, u) && forall i | 0 <= i < |more| :: !IsSubmission(more[i])
    ensures t.pendingGo == |t.running| + |t.ended| + Unsent(t.contexts) + |t.chanCb| + |t.taken|
    ensures |more| <= Weight(t)
    ensures (forall step :: Enabled(u, step) ==> IsSubmission(step)) ==> u.pendingGo == 0
  {
    InitialInv(s);
    RunKeepsInv(s, steps, t);
    RunsAreBounded(t, more, u);
    RunKeepsInv(t, more, u);
    if u.pendingGo > 0 {
      var step := NoDeadlock(u);
    }
  }
}
