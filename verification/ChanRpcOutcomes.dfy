/** Where results come from (chanrpc/chanrpc.go): which step of a run gave each callback and each
    synchronous return its result, and under which condition, read off the labels of the run. */
module ChanRpcOutcomes {
  import opened Wrappers

  import opened ChanRpc
  import Runs = ChanRpcRuns

  /** No server is attached. */
  predicate Unattached(s: State) { !(0 <= s.client.server < |s.servers|) }

  /** The attached server has no such function. */
  predicate Unregistered(s: State, fid: int) {
    !Unattached(s) && fid !in s.servers[s.client.server].functions
  }

  /** The function has another number of results than the callback or the caller takes. */
  predicate Mismatched(s: State, fid: int, n: int) {
    !Unattached(s) && !Unregistered(s, fid) && s.servers[s.client.server].functions[fid] != n
  }

  /** The error is the one that the lookup of the function must give. */
  predicate LookupFails(s: State, fid: int, n: int, error: Error) {
    || (error == NotAttached && Unattached(s))
    || (error == NotRegistered && Unregistered(s, fid))
    || (error == TypeMismatch && Mismatched(s, fid, n))
  }

  predicate LookupSucceeds(s: State, fid: int, n: int) {
    !Unattached(s) && !Unregistered(s, fid) && !Mismatched(s, fid, n)
  }

  /** The server runs the handler for that call of the client. */
  predicate Executes(s: State, i: nat, call: nat) {
    && i < |s.servers| && s.servers[i].executing.Some?
    && s.servers[i].executing.value.kind != Foreign && s.servers[i].executing.value.call == call
  }

  predicate Refuses(v: Server, outcome: Outcome) {
    || (v.closed && outcome == Err(ServerClosed))
    || (!v.closed && |v.queue| >= v.capacity && outcome == Err(ServerFull))
  }

  /** The step, taken in s, gives the call its result, and s justifies it: the handler of the call
      ends in that way, the callbacks of pending calls would not fit ChanAsyncRet, the lookup fails, or
      the server is closed or full. */
  predicate Justifies(s: State, step: Step, ri: RetInfo) {
    var p := s.client.phase;
    match step
    case Finish(i, outcome) => Executes(s, i, ri.call) && ri.outcome == outcome
    case AsyncBegin(_, _) =>
      ri == RetInfo(s.issued, Err(TooManyCalls)) && s.client.pendingAsync >= s.client.capacity
    case AsyncReject =>
      p.Sending? && p.call == ri.call && ri.outcome.Err? && LookupFails(s, p.fid, p.n, ri.outcome.error)
    case AsyncFull =>
      && p.Sending? && p.call == ri.call && LookupSucceeds(s, p.fid, p.n)
      && Refuses(s.servers[s.client.server], ri.outcome)
    case SyncBegin(fid, n) => ri.call == s.issued && ri.outcome.Err? && LookupFails(s, fid, n, ri.outcome.error)
    case SyncClosed =>
      && p.SyncSending? && p.call == ri.call && LookupSucceeds(s, p.fid, p.n)
      && s.servers[s.client.server].closed && ri.outcome == Err(ServerClosed)
    case _ => false
  }

  /** The step hands the call to server i, where its function is registered with that many results. */
  predicate HandsOver(s: State, step: Step, i: nat, r: Request) {
    var p := s.client.phase;
    && s.client.server == i
    && match step
       case AsyncSend => p.Sending? && r == Request(Async, p.call) && LookupSucceeds(s, p.fid, p.n)
       case SyncSend => p.SyncSending? && r == Request(Sync, p.call) && LookupSucceeds(s, p.fid, p.n)
       case _ => false
  }

  // The results a run has justified so far, and where each is found

  ghost predicate JustifiedIn(s: State, steps: seq<Step>, ri: RetInfo)
    decreases |steps|
  {
    steps != [] && Enabled(s, steps[0]) &&
    (Justifies(s, steps[0], ri) || JustifiedIn(Apply(s, steps[0]), steps[1..], ri))
  }

  ghost predicate HandedIn(s: State, steps: seq<Step>, i: nat, r: Request)
    decreases |steps|
  {
    steps != [] && Enabled(s, steps[0]) &&
    (HandsOver(s, steps[0], i, r) || HandedIn(Apply(s, steps[0]), steps[1..], i, r))
  }

  type Results = RetInfo -> bool

  ghost predicate AllIn(k: Results, rets: seq<RetInfo>) {
    forall j | 0 <= j < |rets| :: k(rets[j])
  }

  ghost predicate ReplyIn(k: Results, v: Server) {
    v.reply.Some? && v.executing.Some? && v.executing.value.kind != Foreign ==>
      k(RetInfo(v.executing.value.call, v.reply.value))
  }

  /** Every result, wherever it is on its way, is a known one. */
  ghost predicate ResultsIn(k: Results, s: State) {
    && AllIn(k, s.client.asyncRet) && AllIn(k, s.client.syncRet) && AllIn(k, s.callbacks) && AllIn(k, s.syncReturns)
    && (s.client.phase.Received? ==> k(s.client.phase.ri))
    && (s.client.phase.Failing? ==> k(RetInfo(s.client.phase.call, Err(s.client.phase.error))))
    && forall i | 0 <= i < |s.servers| :: ReplyIn(k, s.servers[i])
  }

  ghost predicate Gives(k: Results, s: State, step: Step) { forall ri :: Justifies(s, step, ri) ==> k(ri) }

  lemma FinishResults(k: Results, s: State, i: nat, outcome: Outcome)
    requires Enabled(s, Finish(i, outcome)) && ResultsIn(k, s) && Gives(k, s, Finish(i, outcome))
    ensures ResultsIn(k, Apply(s, Finish(i, outcome)))
  {
    var r := s.servers[i].executing.value;
    if r.kind != Foreign {
      assert Justifies(s, Finish(i, outcome), RetInfo(r.call, outcome));
    }
  }

  lemma ReplyResults(k: Results, s: State, i: nat)
    requires Enabled(s, Reply(i)) && ResultsIn(k, s)
    ensures ResultsIn(k, Apply(s, Reply(i)))
  {
    assert ReplyIn(k, s.servers[i]);
  }

  /** The steps that make an error of a call that has not reached a server. */
  lemma FailureResults(k: Results, s: State, step: Step)
    requires Enabled(s, step) && (step.AsyncBegin? || step.AsyncReject? || step.AsyncFull?)
    requires ResultsIn(k, s) && Gives(k, s, step)
    ensures ResultsIn(k, Apply(s, step))
  {
    var t := Apply(s, step);
    if step.AsyncBegin? {
      assert s.client.pendingAsync >= s.client.capacity ==> Justifies(s, step, RetInfo(s.issued, Err(TooManyCalls)));
    } else {
      assert Justifies(s, step, RetInfo(t.client.phase.call, Err(t.client.phase.error)));
    }
  }

  lemma SyncResults(k: Results, s: State, step: Step)
    requires Inv(s) && Enabled(s, step) && (step.SyncBegin? || step.SyncClosed? || step.SyncReceive?)
    requires ResultsIn(k, s) && Gives(k, s, step)
    ensures ResultsIn(k, Apply(s, step))
  {
    var t := Apply(s, step);
    if step.SyncReceive? {
      Runs.OwnReply(s);
      assert t.syncReturns == s.syncReturns + [s.client.syncRet[0]];
    } else if |t.syncReturns| > |s.syncReturns| {
      assert Justifies(s, step, t.syncReturns[|s.syncReturns|]);
    }
  }

  /** The steps that move results on, or move none. */
  lemma MovingResults(k: Results, s: State, step: Step)
    requires Enabled(s, step) && ResultsIn(k, s)
    requires step.Attach? || step.AsyncSend? || step.FailSend? || step.Count? || step.Receive? || step.Dispatch? ||
        step.SyncSend? || step.ForeignCall? || step.Close?
    ensures ResultsIn(k, Apply(s, step))
  {}

  lemma StartResults(k: Results, s: State, i: nat)
    requires ServersOk(s.servers) && Enabled(s, Start(i)) && ResultsIn(k, s)
    ensures ResultsIn(k, Apply(s, Start(i)))
  {
    assert ServerOk(s.servers[i]);
  }

  lemma StepResults(k: Results, s: State, step: Step)
    requires Inv(s) && Enabled(s, step) && ResultsIn(k, s) && Gives(k, s, step)
    ensures ResultsIn(k, Apply(s, step))
  {
    match step
    case Finish(i, outcome) => FinishResults(k, s, i, outcome);
    case Reply(i) => ReplyResults(k, s, i);
    case Start(i) => StartResults(k, s, i);
    case AsyncBegin(_, _) => FailureResults(k, s, step);
    case AsyncReject => FailureResults(k, s, step);
    case AsyncFull => FailureResults(k, s, step);
    case SyncBegin(_, _) => SyncResults(k, s, step);
    case SyncClosed => SyncResults(k, s, step);
    case SyncReceive => SyncResults(k, s, step);
    case _ => MovingResults(k, s, step);
  }

  lemma {:induction false} RunResults(k: Results, s: State, steps: seq<Step>, t: State)
    requires Inv(s) && IsRun(s, steps, t) && ResultsIn(k, s)
    requires forall ri :: JustifiedIn(s, steps, ri) ==> k(ri)
    ensures ResultsIn(k, t)
    decreases |steps|
  {
    if steps != [] {
      assert forall ri :: Justifies(s, steps[0], ri) ==> JustifiedIn(s, steps, ri);
      assert forall ri :: JustifiedIn(Apply(s, steps[0]), steps[1..], ri) ==> JustifiedIn(s, steps, ri);
      StepResults(k, s, steps[0]);
      StepKeepsInv(s, steps[0]);
      RunResults(k, Apply(s, steps[0]), steps[1..], t);
    }
  }

  lemma {:induction false} WhereJustified(s: State, steps: seq<Step>, ri: RetInfo) returns (j: nat, u: State)
    requires JustifiedIn(s, steps, ri)
    ensures j < |steps| && IsRun(s, steps[..j], u) && Enabled(u, steps[j]) && Justifies(u, steps[j], ri)
    decreases |steps|
  {
    if Justifies(s, steps[0], ri) {
      j, u := 0, s;
    } else {
      j, u := WhereJustified(Apply(s, steps[0]), steps[1..], ri);
      assert steps[..j + 1][1..] == steps[1..][..j];
      j := j + 1;
    }
  }

  /** Each result that a callback or a synchronous caller got was given to that very call by some step
      of the run, in a state that justifies it; in particular a value, or the error of a panic, is how
      the handler of the call ended. */
  lemma ResultsAreJustified(s: State, steps: seq<Step>, t: State, ri: RetInfo) returns (j: nat, u: State)
    requires Runs.Reachable(s, steps, t) && (ri in t.callbacks || ri in t.syncReturns)
    ensures j < |steps| && IsRun(s, steps[..j], u) && Enabled(u, steps[j]) && Justifies(u, steps[j], ri)
  {
    var k: Results := x => JustifiedIn(s, steps, x);
    Runs.InitialIsFull(s);
    RunResults(k, s, steps, t);
    assert k(ri);
    j, u := WhereJustified(s, steps, ri);
  }

  /** Ok and HandlerPanic come from the end of the handler alone. */
  lemma HandlerDecides(s: State, steps: seq<Step>, t: State, ri: RetInfo) returns (j: nat, u: State, i: nat)
    requires Runs.Reachable(s, steps, t) && (ri in t.callbacks || ri in t.syncReturns)
    requires ri.outcome.Ok? || ri.outcome.error == HandlerPanic
    ensures j < |steps| && IsRun(s, steps[..j], u) && steps[j] == Finish(i, ri.outcome) && Executes(u, i, ri.call)
  {
    j, u := ResultsAreJustified(s, steps, t, ri);
    i := steps[j].server;
  }

  // Which requests servers execute

  type Requests = (nat, Request) -> bool

  ghost predicate AcceptedIn(k: Requests, s: State) {
    forall i: nat, n: nat | i < |s.servers| && n < |s.servers[i].accepted| ::
        s.servers[i].accepted[n].kind != Foreign ==> k(i, s.servers[i].accepted[n])
  }

  lemma StepAccepted(k: Requests, s: State, step: Step)
    requires Enabled(s, step) && AcceptedIn(k, s)
    requires forall i: nat, r :: HandsOver(s, step, i, r) ==> k(i, r)
    ensures AcceptedIn(k, Apply(s, step))
  {
    if step.AsyncSend? {
      assert HandsOver(s, step, s.client.server, Request(Async, s.client.phase.call));
    } else if step.SyncSend? {
      assert HandsOver(s, step, s.client.server, Request(Sync, s.client.phase.call));
    }
  }

  lemma {:induction false} RunAccepted(k: Requests, s: State, steps: seq<Step>, t: State)
    requires IsRun(s, steps, t) && AcceptedIn(k, s)
    requires forall i: nat, r :: HandedIn(s, steps, i, r) ==> k(i, r)
    ensures AcceptedIn(k, t)
    decreases |steps|
  {
    if steps != [] {
      assert forall i: nat, r :: HandsOver(s, steps[0], i, r) ==> HandedIn(s, steps, i, r);
      assert forall i: nat, r :: HandedIn(Apply(s, steps[0]), steps[1..], i, r) ==> HandedIn(s, steps, i, r);
      StepAccepted(k, s, steps[0]);
      RunAccepted(k, Apply(s, steps[0]), steps[1..], t);
    }
  }

  lemma {:induction false} WhereHanded(s: State, steps: seq<Step>, i: nat, r: Request) returns (j: nat, u: State)
    requires HandedIn(s, steps, i, r)
    ensures j < |steps| && IsRun(s, steps[..j], u) && Enabled(u, steps[j]) && HandsOver(u, steps[j], i, r)
    decreases |steps|
  {
    if HandsOver(s, steps[0], i, r) {
      j, u := 0, s;
    } else {
      j, u := WhereHanded(Apply(s, steps[0]), steps[1..], i, r);
      assert steps[..j + 1][1..] == steps[1..][..j];
      j := j + 1;
    }
  }

  /** Every request of the client that a server has accepted, and so every one it executes, was handed
      to it while it was attached and had the function registered with the right number of results. */
  lemma AcceptedWereRegistered(s: State, steps: seq<Step>, t: State, i: nat, n: nat) returns (j: nat, u: State)
    requires Runs.Reachable(s, steps, t) && i < |t.servers| && n < |t.servers[i].accepted|
    requires t.servers[i].accepted[n].kind != Foreign
    ensures j < |steps| && IsRun(s, steps[..j], u) && Enabled(u, steps[j])
    ensures HandsOver(u, steps[j], i, t.servers[i].accepted[n])
  {
    var k: Requests := (x: nat, r: Request) => HandedIn(s, steps, x, r);
    assert forall x: nat | x < |s.servers| :: NewServer(s.servers[x]);
    RunAccepted(k, s, steps, t);
    assert k(i, t.servers[i].accepted[n]);
    j, u := WhereHanded(s, steps, i, t.servers[i].accepted[n]);
  }
}
