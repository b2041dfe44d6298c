/** Calls come to an end: how many steps a run of the channel RPC machine can take, and what holds
    where none is left. */
module ChanRpcEnds {
  import opened Wrappers
  import opened ChanRpc
  import opened ChanRpcRuns

  /** The steps that someone chooses to take.  All others finish what is under way. */
  predicate IsChoice(step: Step) {
    step.Attach? || step.AsyncBegin? || step.SyncBegin? || step.ForeignCall? || step.Close?
  }

  function Choices(steps: seq<Step>): nat {
    if steps == [] then 0 else One(IsChoice(steps[0])) + Choices(steps[1..])
  }

  // The steps still to come

  function ServerWeight(v: Server): nat {
    5 * |v.queue| + if v.executing == None then 0 else if v.reply == None then 4 else 3
  }

  function ServersWeight(servers: seq<Server>): nat {
    if servers == [] then 0 else ServerWeight(servers[0]) + ServersWeight(servers[1..])
  }

  function PhaseWeight(p: Phase): nat {
    match p
    case Idle => 0
    case Sending(_, _, _) => 7
    case Failing(_, _) => 4
    case Counting(_) => 1
    case Received(_) => 1
    case SyncSending(_, _, _) => 6
    case SyncWaiting(_) => 0
  }

  function ClientWeight(c: Client): nat { 2 * |c.asyncRet| + |c.syncRet| + PhaseWeight(c.phase) }

  /** A bound on the steps left when nobody chooses to do anything more. */
  function Weight(s: State): nat { ServersWeight(s.servers) + ClientWeight(s.client) }

  lemma {:induction false} ServersWeightUpdate(servers: seq<Server>, i: nat, w: Server)
    requires i < |servers|
    ensures ServersWeight(servers[i := w]) == ServersWeight(servers) - ServerWeight(servers[i]) + ServerWeight(w)
    ensures ServerWeight(servers[i]) <= ServersWeight(servers)
  {
    if i > 0 {
      ServersWeightUpdate(servers[1..], i - 1, w);
      assert servers[i := w][1..] == servers[1..][i - 1 := w];
    } else {
      assert servers[i := w][1..] == servers[1..];
    }
  }

  /** Every step that is no choice brings the end nearer, and a choice adds at most 7 steps. */
  ghost predicate Nearer(s: State, step: Step, t: State) {
    Weight(t) + 1 <= Weight(s) + if IsChoice(step) then 8 else 0
  }

  lemma ClientStepWeight(s: State, step: Step)
    requires Enabled(s, step) && !step.AsyncSend? && !step.SyncSend? && !step.ForeignCall? && !step.Start? &&
        !step.Finish? && !step.Reply? && !step.Close?
    ensures Nearer(s, step, Apply(s, step))
  {}

  lemma SendWeight(s: State, step: Step)
    requires Enabled(s, step) && (step.AsyncSend? || step.SyncSend? || step.ForeignCall?)
    ensures Nearer(s, step, Apply(s, step))
  {
    var t := Apply(s, step);
    var i := if step.ForeignCall? then step.server else s.client.server;
    ServersWeightUpdate(s.servers, i, t.servers[i]);
  }

  lemma ServerStepWeight(s: State, step: Step)
    requires Enabled(s, step) && (step.Start? || step.Finish? || step.Close?) && ServerOk(s.servers[step.server])
    ensures Nearer(s, step, Apply(s, step))
  {
    ServersWeightUpdate(s.servers, step.server, Apply(s, step).servers[step.server]);
  }

  lemma ReplyWeight(s: State, i: nat)
    requires Enabled(s, Reply(i))
    ensures Nearer(s, Reply(i), Apply(s, Reply(i)))
  {
    ServersWeightUpdate(s.servers, i, Replied(s.servers[i]));
  }

  lemma StepWeight(s: State, step: Step)
    requires ServersOk(s.servers) && Enabled(s, step)
    ensures Nearer(s, step, Apply(s, step))
  {
    match step
    case AsyncSend => SendWeight(s, step);
    case SyncSend => SendWeight(s, step);
    case ForeignCall(_, _) => SendWeight(s, step);
    case Start(_) => ServerStepWeight(s, step);
    case Finish(_, _) => ServerStepWeight(s, step);
    case Reply(i) => ReplyWeight(s, i);
    case Close(_) => ServerStepWeight(s, step);
    case _ => ClientStepWeight(s, step);
  }

  /** However calls are mixed, a run takes at most 8 steps for each choice besides those that were
      still to come at its start. */
  lemma {:induction false} RunsAreBounded(s: State, steps: seq<Step>, t: State)
    requires ServersOk(s.servers) && IsRun(s, steps, t)
    ensures |steps| + Weight(t) <= Weight(s) + 8 * Choices(steps)
    decreases |steps|
  {
    if steps != [] {
      ServersStep(s, steps[0]);
      StepWeight(s, steps[0]);
      RunsAreBounded(Apply(s, steps[0]), steps[1..], t);
    }
  }

  // Where no step is left

  /** A synchronous call is past the lookup of its function. */
  ghost predicate Found(s: State) {
    s.client.phase.SyncSending? ==> CallIsFor(s, s.client.phase.fid, s.client.phase.n)
  }

  /** The functions of the servers stay, and so does the attached server while a call is made. */
  ghost predicate SameFunctions(a: seq<Server>, b: seq<Server>) {
    |a| == |b| && forall i | 0 <= i < |a| :: a[i].functions == b[i].functions
  }

  lemma FunctionsStay(s: State, step: Step)
    requires Enabled(s, step)
    ensures SameFunctions(s.servers, Apply(s, step).servers)
  {
    var t := Apply(s, step);
    if t.servers != s.servers {
      var i := ChangedServer(s, step);
      assert t.servers == s.servers[i := t.servers[i]];
    }
  }

  lemma ChangedServer(s: State, step: Step) returns (i: nat)
    requires Enabled(s, step) && Apply(s, step).servers != s.servers
    ensures var t := Apply(s, step).servers;
            i < |t| == |s.servers| && t == s.servers[i := t[i]] && t[i].functions == s.servers[i].functions
  {
    i := if step.AsyncSend? || step.SyncSend? then s.client.server else step.server;
  }

  lemma FoundStep(s: State, step: Step)
    requires Found(s) && Enabled(s, step)
    ensures Found(Apply(s, step))
  {
    FunctionsStay(s, step);
  }

  lemma {:induction false} RunKeepsFound(s: State, steps: seq<Step>, t: State)
    requires Found(s) && IsRun(s, steps, t)
    ensures Found(t)
    decreases |steps|
  {
    if steps != [] {
      FoundStep(s, steps[0]);
      RunKeepsFound(Apply(s, steps[0]), steps[1..], t);
    }
  }

  /** The client is not in a call and waits for no callback. */
  ghost predicate AtRest(s: State) { s.client.phase == Idle && s.live == {} }

  lemma ServeStep(s: State, i: nat) returns (step: Step)
    requires Inv(s) && i < |s.servers| && Held(s.servers[i]) != []
    ensures Enabled(s, step) && !IsChoice(step)
  {
    HolderCanServe(s, i);
    step := if Enabled(s, Start(i)) then Start(i) else if Enabled(s, Reply(i)) then Reply(i) else Finish(i, Ok(0));
  }

  /** A send that neither succeeds nor fails waits for a server that has something to do. */
  lemma SendingStep(s: State) returns (step: Step)
    requires Inv(s) && Found(s) && (s.client.phase.Sending? || s.client.phase.SyncSending?)
    ensures Enabled(s, step) && !IsChoice(step)
    ensures s.client.phase.Sending? ==> step.AsyncReject? || step.AsyncSend? || step.AsyncFull?
  {
    var p := s.client.phase;
    if LookupError(s, p.fid, p.n).Some? {
      step := AsyncReject;
    } else {
      var v := s.servers[s.client.server];
      if CanAccept(v) {
        step := if p.Sending? then AsyncSend else SyncSend;
      } else if p.Sending? {
        step := AsyncFull;
      } else if v.closed {
        step := SyncClosed;
      } else {
        step := ServeStep(s, s.client.server);
      }
    }
  }

  lemma WaitingStep(s: State) returns (step: Step)
    requires Inv(s) && s.client.phase.SyncWaiting?
    ensures Enabled(s, step) && !IsChoice(step)
  {
    var call := s.client.phase.call;
    assert SyncPlaces(s, call) == 1;
    if s.client.syncRet != [] {
      step := SyncReceive;
    } else {
      var i := Holder(s.servers, Request(Sync, call));
      step := ServeStep(s, i);
    }
  }

  lemma IdleStep(s: State) returns (step: Step)
    requires Inv(s) && s.client.phase == Idle && s.live != {}
    ensures Enabled(s, step) && !IsChoice(step)
  {
    var call :| call in s.live;
    assert Places(s, call) == 1;
    if s.client.asyncRet != [] {
      step := Receive;
    } else {
      var i := Holder(s.servers, Request(Async, call));
      step := ServeStep(s, i);
    }
  }

  lemma NoDeadlock(s: State) returns (step: Step)
    requires Inv(s) && Found(s) && !AtRest(s)
    ensures Enabled(s, step) && !IsChoice(step)
  {
    match s.client.phase
    case Idle => step := IdleStep(s);
    case Sending(_, _, _) => step := SendingStep(s);
    case SyncSending(_, _, _) => step := SendingStep(s);
    case SyncWaiting(_) => step := WaitingStep(s);
    case Failing(call, _) => RoomFor(s, call); step := FailSend;
    case Counting(_) => step := Count;
    case Received(_) => step := Dispatch;
  }

  ghost predicate Stuck(s: State) { forall step :: Enabled(s, step) ==> IsChoice(step) }

  /** The server has executed every request it accepted. */
  predicate RanAll(v: Server) { v.executed == |v.accepted| }

  lemma DrainedWhereStuck(s: State, i: nat)
    requires Inv(s) && Stuck(s) && i < |s.servers|
    ensures RanAll(s.servers[i])
  {
    assert ServerOk(s.servers[i]);
    if Held(s.servers[i]) != [] {
      var step := ServeStep(s, i);
    }
  }

  lemma RestWhereStuck(s: State)
    requires Full(s) && Found(s) && Stuck(s)
    ensures AtRest(s) && s.client.pendingAsync == 0
    ensures forall call :: AtReplies(s.callbacks, call) == One(call in s.made)
    ensures forall i: nat | i < |s.servers| :: RanAll(s.servers[i])
  {
    forall i: nat | i < |s.servers|
      ensures RanAll(s.servers[i])
    {
      DrainedWhereStuck(s, i);
    }
    if !AtRest(s) {
      var step := NoDeadlock(s);
    }
  }

  /** In any run from any reachable state there are at most 8 steps for each choice, besides the ones
      still to come.  Where only choices are left the client waits for nothing, and every
      asynchronous call ever made has had its callback invoked exactly once, and every server, closed or
      not, has executed all it accepted.  So in every fair run in which handlers end, each request is
      executed and each callback invoked once the choices cease, and both kinds of Close end. */
  lemma CallsEnd(s: State, steps: seq<Step>, t: State, more: seq<Step>, u: State)
    requires Reachable(s, steps, t) && IsRun(t, more, u)
    ensures |more| <= Weight(t) + 8 * Choices(more)
    ensures Stuck(u) ==> AtRest(u) && u.client.pendingAsync == 0
    ensures Stuck(u) ==> forall call :: AtReplies(u.callbacks, call) == One(call in u.made)
    ensures Stuck(u) ==> forall i: nat | i < |u.servers| :: RanAll(u.servers[i])
  {
    InitialIsFull(s);
    RunKeepsFull(s, steps, t);
    RunKeepsFull(t, more, u);
    RunKeepsFound(s, steps, t);
    RunKeepsFound(t, more, u);
    RunsAreBounded(t, more, u);
    if Stuck(u) {
      RestWhereStuck(u);
    }
  }
}
