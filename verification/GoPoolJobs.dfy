/** Every job of the goroutine pool has its own callback sent and run exactly once (go/go.go), counted
    from the submissions that the labels of a run show. */
module GoPoolJobs {
  import opened Wrappers

  import opened GoPool

  /** What a step submits: the next job, plain or of a context. */
  function SubmittedBy(s: State, step: Step): seq<Job> {
    match step
    case GoPlain => [Job(-1, s.issued)]
    case GoLinear(c) => [Job(c, s.issued)]
    case _ => []
  }

  /** The jobs submitted in a run, in order. */
  ghost function SubmittedIn(s: State, steps: seq<Step>): seq<Job>
    decreases |steps|
  {
    if steps == [] || !Enabled(s, steps[0]) then []
    else SubmittedBy(s, steps[0]) + SubmittedIn(Apply(s, steps[0]), steps[1..])
  }

  /** The jobs of a context whose callbacks have not been sent. */
  function Unfinished(x: Context): seq<Job> { Owed(x) + x.list }

  /** In how many places a job is whose callback has not been sent. */
  function Places(s: State, job: Job): nat {
    if job.context == -1 then One(job.id in s.running) + One(job.id in s.ended)
    else if 0 <= job.context < |s.contexts| then multiset(Unfinished(s.contexts[job.context]))[job]
    else 0
  }

  /** A job is waiting, running or about to send its callback, or the callback has entered ChanCb. */
  function Known(s: State, job: Job): nat { multiset(s.entered)[job] + Places(s, job) }

  ghost predicate Counts(s: State, step: Step, job: Job)
    requires Enabled(s, step)
  {
    Known(Apply(s, step), job) == Known(s, job) + multiset(SubmittedBy(s, step))[job]
  }

  lemma GoPlainCounts(s: State, job: Job)
    requires Inv(s) && Enabled(s, GoPlain)
    ensures Counts(s, GoPlain, job)
  {
    assert s.issued !in s.running && s.issued !in s.ended;
  }

  lemma EndPlainCounts(s: State, id: nat, job: Job)
    requires Inv(s) && Enabled(s, EndPlain(id))
    ensures Counts(s, EndPlain(id), job)
  {}

  /** A context is given more jobs, and nothing else changes. */
  lemma KnownAfter(s: State, t: State, c: nat, more: seq<Job>, job: Job)
    requires t.entered == s.entered && t.running == s.running && t.ended == s.ended && c < |s.contexts|
    requires |t.contexts| == |s.contexts| && t.contexts == s.contexts[c := t.contexts[c]]
    requires Unfinished(t.contexts[c]) == Unfinished(s.contexts[c]) + more && forall x | x in more :: x.context == c
    ensures Known(t, job) == Known(s, job) + multiset(more)[job]
  {
    if job.context == c {
      assert multiset(Unfinished(t.contexts[c])) == multiset(Unfinished(s.contexts[c])) + multiset(more);
    }
  }

  lemma SendPlainCounts(s: State, id: nat, job: Job)
    requires Inv(s) && Enabled(s, SendPlain(id))
    ensures Counts(s, SendPlain(id), job)
  {
    assert multiset(s.entered + [Job(-1, id)]) == multiset(s.entered) + multiset([Job(-1, id)]);
  }

  lemma GoLinearUnfinished(s: State, c: nat)
    requires Enabled(s, GoLinear(c))
    ensures var t := Apply(s, GoLinear(c));
            && t.entered == s.entered && t.running == s.running && t.ended == s.ended
            && t.contexts == s.contexts[c := t.contexts[c]]
            && Unfinished(t.contexts[c]) == Unfinished(s.contexts[c]) + [Job(c, s.issued)]
  {}

  lemma GoLinearCounts(s: State, c: nat, job: Job)
    requires Enabled(s, GoLinear(c))
    ensures Counts(s, GoLinear(c), job)
  {
    GoLinearUnfinished(s, c);
    KnownAfter(s, Apply(s, GoLinear(c)), c, [Job(c, s.issued)], job);
  }

  lemma PopUnfinished(s: State, c: nat)
    requires Enabled(s, Pop(c))
    ensures var t := Apply(s, Pop(c));
            && t.entered == s.entered && t.running == s.running && t.ended == s.ended
            && t.contexts == s.contexts[c := t.contexts[c]] && Unfinished(t.contexts[c]) == Unfinished(s.contexts[c])
  {
    var list := s.contexts[c].list;
    assert [list[0]] + list[1..] == list;
  }

  lemma PopCounts(s: State, c: nat, job: Job)
    requires Enabled(s, Pop(c))
    ensures Counts(s, Pop(c), job)
  {
    PopUnfinished(s, c);
    KnownAfter(s, Apply(s, Pop(c)), c, [], job);
  }

  lemma SendLinearCounts(s: State, c: nat, job: Job)
    requires Inv(s) && Enabled(s, SendLinear(c))
    ensures Counts(s, SendLinear(c), job)
  {
    var x, y := s.contexts[c], Apply(s, SendLinear(c)).contexts[c];
    assert OrderOk(s, c);
    OwedIsSubmitted(s, c);
    assert Unfinished(x) == [x.holder.job] + Unfinished(y);
    assert multiset(s.entered + [x.holder.job]) == multiset(s.entered) + multiset([x.holder.job]);
  }

  lemma LockKeepsUnfinished(s: State, step: Step, c: nat)
    requires Enabled(s, step) && IsLockStep(step) && c == if step.Spawn? then s.spawning.value else step.c
    ensures var t := Apply(s, step);
            && t.entered == s.entered && t.running == s.running && t.ended == s.ended && c < |s.contexts|
            && t.contexts == s.contexts[c := t.contexts[c]] && Unfinished(t.contexts[c]) == Unfinished(s.contexts[c])
  {}

  lemma LockCounts(s: State, step: Step, c: nat, job: Job)
    requires Enabled(s, step) && IsLockStep(step) && c == if step.Spawn? then s.spawning.value else step.c
    ensures Counts(s, step, job)
  {
    LockKeepsUnfinished(s, step, c);
    KnownAfter(s, Apply(s, step), c, [], job);
  }

  lemma CallbackCounts(s: State, step: Step, job: Job)
    requires Enabled(s, step) && (step.TakeCb? || step.FinishCb?)
    ensures Counts(s, step, job)
  {}

  lemma StepCounts(s: State, step: Step, job: Job)
    requires Inv(s) && Enabled(s, step)
    ensures Counts(s, step, job)
  {
    match step
    case GoPlain => GoPlainCounts(s, job);
    case EndPlain(id) => EndPlainCounts(s, id, job);
    case SendPlain(id) => SendPlainCounts(s, id, job);
    case GoLinear(c) => GoLinearCounts(s, c, job);
    case Pop(c) => PopCounts(s, c, job);
    case SendLinear(c) => SendLinearCounts(s, c, job);
    case TakeCb => CallbackCounts(s, step, job);
    case FinishCb => CallbackCounts(s, step, job);
    case Spawn => LockCounts(s, step, s.spawning.value, job);
    case _ => LockCounts(s, step, step.c, job);
  }

  lemma {:induction false} RunCounts(s: State, steps: seq<Step>, t: State, job: Job)
    requires Inv(s) && IsRun(s, steps, t)
    ensures Known(t, job) == Known(s, job) + multiset(SubmittedIn(s, steps))[job]
    decreases |steps|
  {
    if steps != [] {
      StepCounts(s, steps[0], job);
      StepKeepsInv(s, steps[0]);
      RunCounts(Apply(s, steps[0]), steps[1..], t, job);
    }
  }

  /** No job is submitted twice. */
  lemma {:induction false} SubmittedOnce(s: State, steps: seq<Step>, job: Job)
    ensures multiset(SubmittedIn(s, steps))[job] <= 1
    ensures job in SubmittedIn(s, steps) ==> job.id >= s.issued
    decreases |steps|
  {
    if steps != [] && Enabled(s, steps[0]) {
      SubmittedOnce(Apply(s, steps[0]), steps[1..], job);
    }
  }

  /** What a context has been given is what the run submitted to it, in order. */
  lemma {:induction false} SubmittedToContext(s: State, steps: seq<Step>, t: State, c: nat)
    requires IsRun(s, steps, t) && c < |s.contexts|
    ensures |t.contexts| == |s.contexts|
    ensures t.contexts[c].submitted == s.contexts[c].submitted + Of(SubmittedIn(s, steps), c)
    decreases |steps|
  {
    if steps != [] {
      var u := Apply(s, steps[0]);
      SubmittedToContext(u, steps[1..], t, c);
      OfConcat(SubmittedBy(s, steps[0]), SubmittedIn(u, steps[1..]), c);
      StepSubmits(s, steps[0], c);
    }
  }

  lemma StepSubmits(s: State, step: Step, c: nat)
    requires Enabled(s, step) && c < |s.contexts|
    ensures Apply(s, step).contexts[c].submitted == s.contexts[c].submitted + Of(SubmittedBy(s, step), c)
  {
    if IsSubmission(step) {
      OfAppend([], SubmittedBy(s, step)[0], c);
      assert [] + SubmittedBy(s, step) == SubmittedBy(s, step);
    }
  }

  // Main results

  lemma NothingKnown(s: State, job: Job)
    requires Initial(s)
    ensures Known(s, job) == 0
  {}

  /** At all times each submitted job is in exactly one place or its own callback has entered ChanCb, once;
      and nothing but callbacks of submitted jobs enters it. */
  lemma EachJobOnce(s: State, steps: seq<Step>, t: State, job: Job)
    requires Reachable(s, steps, t)
    ensures multiset(t.entered)[job] + Places(t, job) == One(job in SubmittedIn(s, steps))
  {
    InitialInv(s);
    NothingKnown(s, job);
    RunCounts(s, steps, t, job);
    SubmittedOnce(s, steps, job);
  }

  lemma NoneLeft(t: State, job: Job)
    requires Inv(t) && t.pendingGo == 0
    ensures Places(t, job) == 0 && t.started == t.entered
  {
    if 0 <= job.context < |t.contexts| {
      UnsentUpdate(t.contexts, job.context, t.contexts[job.context]);
    }
  }

  lemma {:induction false} ContextsStay(s: State, steps: seq<Step>, t: State)
    requires IsRun(s, steps, t)
    ensures |t.contexts| == |s.contexts|
    decreases |steps|
  {
    if steps != [] {
      ContextsStay(Apply(s, steps[0]), steps[1..], t);
    }
  }

  lemma AllRun(s: State, steps: seq<Step>, t: State, job: Job)
    requires Reachable(s, steps, t) && Inv(t) && t.pendingGo == 0
    ensures multiset(t.started)[job] == multiset(SubmittedIn(s, steps))[job]
  {
    EachJobOnce(s, steps, t, job);
    SubmittedOnce(s, steps, job);
    NoneLeft(t, job);
  }

  /** The history of a context is what the labels of the run say. */
  lemma SubmittedFromStart(s: State, steps: seq<Step>, t: State, c: nat)
    requires Reachable(s, steps, t) && c < |t.contexts|
    ensures t.contexts[c].submitted == Of(SubmittedIn(s, steps), c)
  {
    ContextsStay(s, steps, t);
    SubmittedToContext(s, steps, t, c);
    assert s.contexts[c].submitted == [];
  }

  lemma ContextIsIdle(t: State, c: nat)
    requires Inv(t) && t.pendingGo == 0 && c < |t.contexts|
    ensures Owed(t.contexts[c]) == [] && t.contexts[c].list == [] && t.started == t.entered
  {
    UnsentUpdate(t.contexts, c, t.contexts[c]);
  }

  lemma AllRunInOrder(s: State, steps: seq<Step>, t: State, c: nat)
    requires Reachable(s, steps, t) && Inv(t) && t.pendingGo == 0 && c < |t.contexts|
    ensures Of(t.started, c) == Of(SubmittedIn(s, steps), c)
  {
    SubmittedFromStart(s, steps, t, c);
    ContextIsIdle(t, c);
    assert OrderOk(t, c);
  }

  /** Where nothing is pending, as when Close has returned, the callbacks run are those of the submitted
      jobs, each exactly once, and those of a context in the order of submission. */
  lemma AllCallbacksRun(s: State, steps: seq<Step>, t: State)
    requires Reachable(s, steps, t) && t.pendingGo == 0
    ensures multiset(t.started) == multiset(SubmittedIn(s, steps))
    ensures forall c: nat | c < |t.contexts| :: Of(t.started, c) == Of(SubmittedIn(s, steps), c)
  {
    InitialInv(s);
    RunKeepsInv(s, steps, t);
    forall job: Job
      ensures multiset(t.started)[job] == multiset(SubmittedIn(s, steps))[job]
    {
      AllRun(s, steps, t, job);
    }
    forall c: nat | c < |t.contexts|
      ensures Of(t.started, c) == Of(SubmittedIn(s, steps), c)
    {
      AllRunInOrder(s, steps, t, c);
    }
  }
}
