/** A module that is asked to close does so (module/skeleton.go): how many steps a run of its machine
    can take, and what holds where none is left. */
module SkeletonEnds {
  import opened Wrappers
  import opened Skeleton
  import Rpc = ChanRpc
  import Runs = ChanRpcRuns
  import Ends = ChanRpcEnds
  import Pool = GoPool

  /** The steps that someone chooses to take.  All others finish what is under way, or close. */
  predicate IsChoice(step: Step) {
    match step
    case RpcStep(r) => Ends.IsChoice(r)
    case PoolStep(p) => Pool.IsSubmission(p)
    case _ => false
  }

  function Choices(steps: seq<Step>): nat {
    if steps == [] then 0 else Rpc.One(IsChoice(steps[0])) + Choices(steps[1..])
  }

  function Weight(s: State): nat {
    Ends.Weight(s.rpc) + Pool.Weight(s.pool) + 5 - Rank(s.pc)
  }

  lemma SubmissionWeight(p: Pool.State, step: Pool.Step)
    requires Pool.Inv(p) && Pool.Enabled(p, step) && Pool.IsSubmission(step)
    ensures Pool.Weight(Pool.Apply(p, step)) <= Pool.Weight(p) + 8
  {
    if step.GoLinear? {
      Pool.WeightUpdate(p.contexts, step.c, Pool.Apply(p, step).contexts[step.c]);
    }
  }

  lemma CloseWeight(rpc: Rpc.State, i: nat)
    requires Rpc.Enabled(rpc, Rpc.Close(i))
    ensures Ends.Weight(Rpc.Apply(rpc, Rpc.Close(i))) == Ends.Weight(rpc)
  {
    Ends.ServersWeightUpdate(rpc.servers, i, rpc.servers[i].(closed := true));
  }

  /** A closing call moves Run on, and changes nothing else that counts. */
  lemma PcWeight(s: State, t: State)
    requires Rank(t.pc) == Rank(s.pc) + 1 && t.pool == s.pool && Ends.Weight(t.rpc) == Ends.Weight(s.rpc)
    ensures Weight(t) < Weight(s)
  {}

  lemma ClosingWeight(s: State, step: Step)
    requires Enabled(s, step) && !step.RpcStep? && !step.PoolStep?
    ensures Weight(Apply(s, step)) < Weight(s)
  {
    if step.CloseSig? {
      CloseWeight(s.rpc, s.command);
    } else if step.CommandsDrained? {
      CloseWeight(s.rpc, s.self);
    }
    PcWeight(s, Apply(s, step));
  }

  lemma StepWeight(s: State, step: Step)
    requires Inv(s) && Enabled(s, step)
    ensures Weight(Apply(s, step)) + 1 <= Weight(s) + if IsChoice(step) then 9 else 0
  {
    match step
    case RpcStep(r) => Ends.StepWeight(s.rpc, r);
    case PoolStep(p) =>
      if Pool.IsSubmission(p) {
        SubmissionWeight(s.pool, p);
      } else {
        Pool.StepsRunOut(s.pool, p);
      }
    case _ => ClosingWeight(s, step);
  }

  lemma {:induction false} RunsAreBounded(s: State, steps: seq<Step>, t: State)
    requires Inv(s) && IsRun(s, steps, t)
    ensures |steps| + Weight(t) <= Weight(s) + 9 * Choices(steps)
    decreases |steps|
  {
    if steps != [] {
      StepKeepsInv(s, steps[0]);
      StepWeight(s, steps[0]);
      RunsAreBounded(Apply(s, steps[0]), steps[1..], t);
    }
  }

  // Where no step is left

  /** The two servers are closed by Run and by nothing else, and the client makes no synchronous call. */
  ghost predicate Orderly(s: State)
    requires PartsOk(s)
  {
    && (Rank(s.pc) < 1 ==> !s.rpc.servers[s.command].closed)
    && (Rank(s.pc) < 2 ==> !s.rpc.servers[s.self].closed)
    && !Runs.InSyncCall(s.rpc.client.phase)
  }

  lemma StaysOpen(rpc: Rpc.State, r: Rpc.Step, i: nat)
    requires Rpc.Enabled(rpc, r) && r != Rpc.Close(i) && i < |rpc.servers| && !rpc.servers[i].closed
    ensures |Rpc.Apply(rpc, r).servers| == |rpc.servers| && !Rpc.Apply(rpc, r).servers[i].closed
  {}

  lemma NoSyncCall(rpc: Rpc.State, r: Rpc.Step)
    requires Rpc.Enabled(rpc, r) && !r.SyncBegin? && !Runs.InSyncCall(rpc.client.phase)
    ensures !Runs.InSyncCall(Rpc.Apply(rpc, r).client.phase)
  {}

  lemma OrderlyRpcStep(s: State, r: Rpc.Step)
    requires Inv(s) && Orderly(s) && Enabled(s, RpcStep(r)) && PartsOk(Apply(s, RpcStep(r)))
    ensures Orderly(Apply(s, RpcStep(r)))
  {
    NoSyncCall(s.rpc, r);
    if Rank(s.pc) < 1 {
      StaysOpen(s.rpc, r, s.command);
    }
    if Rank(s.pc) < 2 {
      StaysOpen(s.rpc, r, s.self);
    }
  }

  lemma OrderlyCloseSig(s: State)
    requires Inv(s) && Orderly(s) && Enabled(s, CloseSig) && PartsOk(Apply(s, CloseSig))
    ensures Orderly(Apply(s, CloseSig))
  {
    CloseKeepsServers(s.rpc, s.command, s.self);
  }

  /** Nothing changes at the servers but that Run has closed them. */
  lemma OrderlyLater(s: State, t: State)
    requires PartsOk(s) && PartsOk(t) && Orderly(s) && t.self == s.self && t.command == s.command
    requires Rank(s.pc) <= Rank(t.pc) && t.rpc.client == s.rpc.client && (t.rpc == s.rpc || Rank(t.pc) >= 2)
    ensures Orderly(t)
  {}

  lemma OtherStepFrame(s: State, step: Step)
    requires Enabled(s, step) && !step.RpcStep? && !step.CloseSig?
    ensures var t := Apply(s, step);
            && t.self == s.self && t.command == s.command && Rank(s.pc) <= Rank(t.pc)
            && t.rpc.client == s.rpc.client && (t.rpc == s.rpc || Rank(t.pc) >= 2)
  {}

  lemma OrderlyStep(s: State, step: Step)
    requires Inv(s) && Orderly(s) && Enabled(s, step)
    ensures Inv(Apply(s, step)) && Orderly(Apply(s, step))
  {
    StepKeepsInv(s, step);
    match step
    case RpcStep(r) => OrderlyRpcStep(s, r);
    case CloseSig => OrderlyCloseSig(s);
    case _ => OtherStepFrame(s, step); OrderlyLater(s, Apply(s, step));
  }

  lemma {:induction false} OrderlyRun(s: State, steps: seq<Step>, t: State)
    requires Inv(s) && Orderly(s) && IsRun(s, steps, t)
    ensures Inv(t) && Orderly(t)
    decreases |steps|
  {
    if steps != [] {
      OrderlyStep(s, steps[0]);
      OrderlyRun(Apply(s, steps[0]), steps[1..], t);
    }
  }

  lemma ReachableOrderly(s: State, steps: seq<Step>, t: State)
    requires Initial(s) && IsRun(s, steps, t)
    ensures Inv(t) && Orderly(t)
  {
    ReachableInv(s, [], s);
    OrderlyRun(s, steps, t);
  }

  lemma SendingGoesOn(s: State) returns (step: Step)
    requires Inv(s) && s.pc != Returned && s.rpc.client.phase.Sending?
    ensures Enabled(s, step) && !IsChoice(step)
  {
    var r := Ends.SendingStep(s.rpc);
    step := RpcStep(r);
  }

  /** In the middle of a call the client goes on. */
  lemma CallGoesOn(s: State) returns (step: Step)
    requires Inv(s) && Orderly(s) && s.pc != Returned && s.rpc.client.phase != Rpc.Idle
    ensures Enabled(s, step) && !IsChoice(step)
  {
    match s.rpc.client.phase
    case Sending(_, _, _) => step := SendingGoesOn(s);
    case Failing(call, _) => Runs.RoomFor(s.rpc, call); step := RpcStep(Rpc.FailSend);
    case Counting(_) => step := RpcStep(Rpc.Count);
    case Received(_) => step := RpcStep(Rpc.Dispatch);
  }

  /** A handler ends, and is replied for. */
  lemma HandlerGoesOn(s: State, i: nat) returns (step: Step)
    requires Inv(s) && s.pc != Returned && i < |s.rpc.servers| && s.rpc.servers[i].executing.Some?
    ensures Enabled(s, step) && !IsChoice(step)
  {
    if s.rpc.servers[i].reply.Some? {
      Runs.ReplyNotBlocked(s.rpc, i);
      step := RpcStep(Rpc.Reply(i));
    } else {
      step := RpcStep(Rpc.Finish(i, Ok(0)));
    }
  }

  /** What the goroutine of the module is doing comes to an end. */
  lemma TurnGoesOn(s: State) returns (step: Step)
    requires Inv(s) && Orderly(s) && s.pc != Returned && !BetweenTurns(s)
    ensures Enabled(s, step) && !IsChoice(step)
  {
    if s.rpc.client.phase != Rpc.Idle {
      step := CallGoesOn(s);
    } else if s.pool.spawning.Some? {
      step := PoolStep(Pool.Spawn);
    } else if s.pool.taken != [] {
      step := PoolStep(Pool.FinishCb);
    } else if !NoHandler(s.rpc.servers, s.self) {
      step := HandlerGoesOn(s, s.self);
    } else {
      step := HandlerGoesOn(s, s.command);
    }
  }

  /** client.Close receives a reply, or the server of another module goes on with the call. */
  lemma ClientGoesOn(s: State) returns (step: Step)
    requires Inv(s) && s.pc == ClosingClient && BetweenTurns(s) && s.rpc.client.pendingAsync > 0
    ensures Enabled(s, step) && !IsChoice(step)
  {
    if s.rpc.client.asyncRet != [] {
      step := RpcStep(Rpc.Receive);
    } else {
      var call :| call in s.rpc.live;
      assert Rpc.Places(s.rpc, call) == 1;
      var i := HolderOf(s.rpc.servers, Rpc.Request(Rpc.Async, call));
      assert i != s.self && i != s.command;
      var r := Ends.ServeStep(s.rpc, i);
      step := RpcStep(r);
    }
  }

  lemma RequestWaits(s: State, i: nat)
    requires NoHandler(s.rpc.servers, i) && !Drained(s, i)
    ensures Rpc.Enabled(s.rpc, Rpc.Start(i))
  {}

  lemma ServersGoOn(s: State) returns (step: Step)
    requires PartsOk(s) && Orderly(s) && BetweenTurns(s) && (s.pc == ClosingCommands || s.pc == ClosingRpc)
    ensures Enabled(s, step) && !IsChoice(step)
  {
    var i := if s.pc == ClosingCommands then s.command else s.self;
    if Drained(s, i) {
      step := if s.pc == ClosingCommands then CommandsDrained else RpcDrained;
    } else {
      RequestWaits(s, i);
      step := RpcStep(Rpc.Start(i));
    }
  }

  lemma PoolGoesOn(s: State) returns (step: Step)
    requires Inv(s) && BetweenTurns(s) && s.pc == ClosingGo
    ensures Enabled(s, step) && !IsChoice(step)
  {
    if s.pool.pendingGo <= 0 {
      step := PoolIdle;
    } else {
      var p := Pool.NoDeadlock(s.pool);
      step := PoolStep(p);
    }
  }

  lemma CloseGoesOn(s: State) returns (step: Step)
    requires Inv(s) && Orderly(s) && s.pc != Returned && BetweenTurns(s)
    ensures Enabled(s, step) && !IsChoice(step)
  {
    if s.pc == Loop {
      step := CloseSig;
    } else if s.pc == ClosingGo {
      step := PoolGoesOn(s);
    } else if s.pc != ClosingClient {
      step := ServersGoOn(s);
    } else if s.rpc.client.pendingAsync <= 0 {
      step := ClientIdle;
    } else {
      step := ClientGoesOn(s);
    }
  }

  ghost predicate Stuck(s: State) { forall step :: Enabled(s, step) ==> IsChoice(step) }

  /** A run of a module takes at most 9 steps for each call, submission or closing of another module's
      server, besides those still to come at its start; where nothing but those is left, Run has
      returned.  So once the close signal is sent Run returns in every fair run in which the calls
      and submissions cease and handlers, jobs and callbacks end. */
  lemma RunReturns(s: State, steps: seq<Step>, t: State, more: seq<Step>, u: State)
    requires Initial(s) && IsRun(s, steps, t) && IsRun(t, more, u)
    ensures |more| <= Weight(t) + 9 * Choices(more)
    ensures Stuck(u) ==> u.pc == Returned
  {
    ReachableOrderly(s, steps, t);
    OrderlyRun(t, more, u);
    RunsAreBounded(t, more, u);
    if Stuck(u) && u.pc != Returned {
      if BetweenTurns(u) {
        var step := CloseGoesOn(u);
      } else {
        var step := TurnGoesOn(u);
      }
    }
  }
}
