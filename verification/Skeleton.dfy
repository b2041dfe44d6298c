/** The event loop of a module and its shutdown (module/skeleton.go), over the channel RPC machine
    and the goroutine pool.  Handlers and callbacks, which run on the module's goroutine, may make
    asynchronous calls and submit jobs at any time until Run returns. */
module Skeleton {
  import opened Wrappers
  import Rpc = ChanRpc
  import Runs = ChanRpcRuns
  import Pool = GoPool

  /** Where Run is: in the loop, in one of the four closing calls, or returned. */
  datatype Pc = Loop | ClosingCommands | ClosingRpc | ClosingGo | ClosingClient | Returned

  datatype State = State(
    pc: Pc,
    self: nat,           // ChanRPCServer, an index of rpc.servers
    command: nat,        // commandServer
    rpc: Rpc.State,      // its client is the module's client
    pool: Pool.State,
    lateJobs: nat        // history: the jobs submitted after g.Close had returned
  )

  datatype Step =
    | RpcStep(rpcStep: Rpc.Step)
    | PoolStep(poolStep: Pool.Step)
    | CloseSig            // commandServer.Close closes its channel
    | CommandsDrained     // it returns, and ChanRPCServer.Close closes its channel
    | RpcDrained          // it returns
    | PoolIdle            // g.Close returns
    | ClientIdle          // client.Close returns, and Run with it

  function Rank(pc: Pc): nat {
    match pc
    case Loop => 0
    case ClosingCommands => 1
    case ClosingRpc => 2
    case ClosingGo => 3
    case ClosingClient => 4
    case Returned => 5
  }

  predicate Drained(s: State, i: nat) {
    i < |s.rpc.servers| && Rpc.Held(s.rpc.servers[i]) == []
  }

  /** The goroutine of the module receives from a channel in the loop, or in the closing call that
      drains that channel. */
  predicate Receives(s: State, closing: Pc) { s.pc == Loop || s.pc == closing }

  /** The client is private, and only Skeleton.AsyncCall makes calls with it. */
  predicate RpcAllowed(s: State, r: Rpc.Step) {
    match r
    case SyncBegin(_, _) => false
    case Start(i) =>
      && (i == s.self ==> Receives(s, ClosingRpc))
      && (i == s.command ==> Receives(s, ClosingCommands))
    case Receive => Receives(s, ClosingClient)
    case Close(i) => i != s.self && i != s.command
    case _ => true
  }

  /** No handler or callback is being run, and none of them is in the middle of a call. */
  predicate BetweenTurns(s: State) {
    && s.rpc.client.phase == Rpc.Idle && s.pool.taken == [] && s.pool.spawning == None
    && NoHandler(s.rpc.servers, s.self) && NoHandler(s.rpc.servers, s.command)
  }

  predicate NoHandler(servers: seq<Rpc.Server>, i: nat) { i < |servers| && servers[i].executing == None }

  predicate Enabled(s: State, step: Step) {
    match step
    case RpcStep(r) => s.pc != Returned && Rpc.Enabled(s.rpc, r) && RpcAllowed(s, r)
    case PoolStep(p) =>
      s.pc != Returned && Pool.Enabled(s.pool, p) && (p == Pool.TakeCb ==> Receives(s, ClosingGo))
    case CloseSig => s.pc == Loop && BetweenTurns(s) && Rpc.Enabled(s.rpc, Rpc.Close(s.command))
    case CommandsDrained =>
      && s.pc == ClosingCommands && BetweenTurns(s) && Drained(s, s.command)
      && Rpc.Enabled(s.rpc, Rpc.Close(s.self))
    case RpcDrained => s.pc == ClosingRpc && BetweenTurns(s) && Drained(s, s.self)
    case PoolIdle => s.pc == ClosingGo && BetweenTurns(s) && s.pool.pendingGo <= 0
    case ClientIdle => s.pc == ClosingClient && BetweenTurns(s) && s.rpc.client.pendingAsync <= 0
  }

  function Apply(s: State, step: Step): State
    requires Enabled(s, step)
  {
    match step
    case RpcStep(r) => s.(rpc := Rpc.Apply(s.rpc, r))
    case PoolStep(p) =>
      var late := s.pc == ClosingClient && Pool.IsSubmission(p);
      s.(pool := Pool.Apply(s.pool, p), lateJobs := s.lateJobs + if late then 1 else 0)
    case CloseSig => s.(pc := ClosingCommands, rpc := Rpc.Apply(s.rpc, Rpc.Close(s.command)))
    case CommandsDrained => s.(pc := ClosingRpc, rpc := Rpc.Apply(s.rpc, Rpc.Close(s.self)))
    case RpcDrained => s.(pc := ClosingGo)
    case PoolIdle => s.(pc := ClosingClient)
    case ClientIdle => s.(pc := Returned)
  }

  ghost predicate IsRun(s: State, steps: seq<Step>, t: State)
    decreases |steps|
  {
    if steps == [] then s == t
    else Enabled(s, steps[0]) && IsRun(Apply(s, steps[0]), steps[1..], t)
  }

  ghost predicate Initial(s: State) {
    && s.pc == Loop && s.lateJobs == 0 && s.self < |s.rpc.servers| && s.command < |s.rpc.servers| && s.self != s.command
    && Rpc.Initial(s.rpc) && Pool.Initial(s.pool)
  }

  /** The server is closed and has run everything it accepted. */
  ghost predicate Finished(s: State, i: nat) {
    Drained(s, i) && s.rpc.servers[i].closed
  }

  ghost predicate PartsOk(s: State) {
    && Runs.Full(s.rpc) && Pool.Inv(s.pool)
    && s.self < |s.rpc.servers| && s.command < |s.rpc.servers| && s.self != s.command
  }

  /** What each closing call has established stays so. */
  ghost predicate ShutdownOk(s: State)
    requires PartsOk(s)
  {
    && (Rank(s.pc) >= 1 ==> s.rpc.servers[s.command].closed)
    && (Rank(s.pc) >= 2 ==> Finished(s, s.command) && s.rpc.servers[s.self].closed)
    && (Rank(s.pc) >= 3 ==> Finished(s, s.self))
    && (s.pc == Returned ==> s.rpc.client.pendingAsync == 0 && s.rpc.client.phase == Rpc.Idle)
  }

  /** Once g.Close has returned, the jobs submitted since are pending and no callback is taken. */
  ghost predicate LateOk(s: State) {
    if Rank(s.pc) < 4 then s.lateJobs == 0 else s.pool.pendingGo == s.lateJobs && s.pool.taken == []
  }

  ghost predicate Inv(s: State) { PartsOk(s) && ShutdownOk(s) && LateOk(s) }

  /** A step of the RPC machine keeps closed servers closed and finished ones finished. */
  lemma RpcKeepsServer(rpc: Rpc.State, r: Rpc.Step, i: nat)
    requires Runs.Full(rpc) && Rpc.Enabled(rpc, r) && i < |rpc.servers|
    ensures Runs.Full(Rpc.Apply(rpc, r)) && |Rpc.Apply(rpc, r).servers| == |rpc.servers|
    ensures rpc.servers[i].closed ==>
              Rpc.Apply(rpc, r).servers[i].closed &&
              (Rpc.Held(rpc.servers[i]) == [] ==> Rpc.Held(Rpc.Apply(rpc, r).servers[i]) == [])
  {
    Runs.StepKeepsFull(rpc, r);
    Runs.ServersStep(rpc, r);
    if rpc.servers[i].closed {
      Runs.ClosedStep(rpc, r, i);
    }
  }

  /** Closing one server, which keeps what both hold. */
  lemma CloseKeepsServers(rpc: Rpc.State, i: nat, j: nat)
    requires Runs.Full(rpc) && Rpc.Enabled(rpc, Rpc.Close(i)) && j < |rpc.servers| && i != j
    ensures var t := Rpc.Apply(rpc, Rpc.Close(i));
            && Runs.Full(t) && |t.servers| == |rpc.servers| && t.client == rpc.client
            && t.servers[i].closed && t.servers[j] == rpc.servers[j]
  {
    RpcKeepsServer(rpc, Rpc.Close(i), j);
  }

  lemma RpcStepKeepsInv(s: State, r: Rpc.Step)
    requires Inv(s) && Enabled(s, RpcStep(r))
    ensures Inv(Apply(s, RpcStep(r)))
  {
    RpcKeepsServer(s.rpc, r, s.self);
    RpcKeepsServer(s.rpc, r, s.command);
  }

  /** Where no callback is taken nor being run, only a submission changes pendingGo. */
  lemma PendingStays(p: Pool.State, step: Pool.Step)
    requires Pool.Enabled(p, step) && step != Pool.TakeCb && p.taken == []
    ensures Pool.Apply(p, step).taken == []
    ensures Pool.Apply(p, step).pendingGo == p.pendingGo + if Pool.IsSubmission(step) then 1 else 0
  {}

  lemma PoolStepKeepsInv(s: State, p: Pool.Step)
    requires Inv(s) && Enabled(s, PoolStep(p))
    ensures Inv(Apply(s, PoolStep(p)))
  {
    Pool.StepKeepsInv(s.pool, p);
    if s.pc == ClosingClient {
      PendingStays(s.pool, p);
    }
  }

  // The closing calls

  lemma CloseSigKeepsInv(s: State)
    requires Inv(s) && Enabled(s, CloseSig)
    ensures Inv(Apply(s, CloseSig))
  {
    CloseKeepsServers(s.rpc, s.command, s.self);
  }

  lemma CommandsDrainedKeepsInv(s: State)
    requires Inv(s) && Enabled(s, CommandsDrained)
    ensures Inv(Apply(s, CommandsDrained))
  {
    CloseKeepsServers(s.rpc, s.self, s.command);
    SecondClosed(s, Apply(s, CommandsDrained));
  }

  lemma SecondClosed(s: State, t: State)
    requires Inv(s) && s.pc == ClosingCommands && Drained(s, s.command)
    requires t == s.(pc := ClosingRpc, rpc := t.rpc) && Runs.Full(t.rpc) && |t.rpc.servers| == |s.rpc.servers|
    requires t.rpc.servers[s.self].closed && t.rpc.servers[s.command] == s.rpc.servers[s.command]
    ensures Inv(t)
  {}

  lemma PoolIdleKeepsInv(s: State)
    requires Inv(s) && Enabled(s, PoolIdle)
    ensures Inv(Apply(s, PoolIdle))
  {
    assert Pool.PendingOk(s.pool);
  }

  lemma ClientIdleKeepsInv(s: State)
    requires Inv(s) && Enabled(s, ClientIdle)
    ensures Inv(Apply(s, ClientIdle))
  {
    assert Rpc.AsyncOk(s.rpc);
  }

  lemma StepKeepsInv(s: State, step: Step)
    requires Inv(s) && Enabled(s, step)
    ensures Inv(Apply(s, step))
  {
    match step
    case RpcStep(r) => RpcStepKeepsInv(s, r);
    case PoolStep(p) => PoolStepKeepsInv(s, p);
    case CloseSig => CloseSigKeepsInv(s);
    case CommandsDrained => CommandsDrainedKeepsInv(s);
    case RpcDrained =>
    case PoolIdle => PoolIdleKeepsInv(s);
    case ClientIdle => ClientIdleKeepsInv(s);
  }

  lemma {:induction false} RunKeepsInv(s: State, steps: seq<Step>, t: State)
    requires Inv(s) && IsRun(s, steps, t)
    ensures Inv(t)
    decreases |steps|
  {
    if steps != [] {
      StepKeepsInv(s, steps[0]);
      RunKeepsInv(Apply(s, steps[0]), steps[1..], t);
    }
  }

  lemma ReachableInv(s: State, steps: seq<Step>, t: State)
    requires Initial(s) && IsRun(s, steps, t)
    ensures Inv(t)
  {
    Runs.InitialIsFull(s.rpc);
    Pool.InitialInv(s.pool);
    RunKeepsInv(s, steps, t);
  }

  /** Once ChanRPCServer.Close has returned, no asynchronous call of the module is left at its own
      server: each is answered, in the client's hands, or at another module's server, so that
      client.Close waits on other modules only. */
  lemma WaitsOnOthersOnly(s: State, steps: seq<Step>, t: State, call: nat) returns (i: nat)
    requires Initial(s) && IsRun(s, steps, t) && Rank(t.pc) >= 3 && call in t.rpc.live
    ensures || Rpc.AtReplies(t.rpc.client.asyncRet, call) == 1
            || Rpc.AtPhase(t.rpc.client.phase, call) == 1
            || (i < |t.rpc.servers| && i != t.self && i != t.command &&
                Rpc.Request(Rpc.Async, call) in Rpc.Held(t.rpc.servers[i]))
  {
    ReachableInv(s, steps, t);
    assert Rpc.Places(t.rpc, call) == 1;
    i := 0;
    if Rpc.AtServers(t.rpc.servers, Rpc.Request(Rpc.Async, call)) > 0 {
      i := HolderOf(t.rpc.servers, Rpc.Request(Rpc.Async, call));
    }
  }

  lemma {:induction false} HolderOf(servers: seq<Rpc.Server>, r: Rpc.Request) returns (i: nat)
    requires Rpc.AtServers(servers, r) > 0
    ensures i < |servers| && r in Rpc.Held(servers[i])
  {
    if Rpc.CountIn(Rpc.Held(servers[0]), r) > 0 {
      CountedIsIn(Rpc.Held(servers[0]), r);
      i := 0;
    } else {
      i := HolderOf(servers[1..], r);
      i := i + 1;
    }
  }

  lemma {:induction false} CountedIsIn(reqs: seq<Rpc.Request>, r: Rpc.Request)
    requires Rpc.CountIn(reqs, r) > 0
    ensures r in reqs
  {
    if reqs[0] != r { CountedIsIn(reqs[1..], r); }
  }

  predicate RanEverything(v: Rpc.Server) {
    v.closed && v.executed == |v.accepted|
  }

  /** When Run has returned, both servers have executed every request they accepted, every
      asynchronous call of the module has had its callback, and what the pool has pending is exactly
      the jobs submitted after g.Close: it is idle if and only if there were none. */
  lemma AfterRun(s: State, steps: seq<Step>, t: State)
    requires Initial(s) && IsRun(s, steps, t) && t.pc == Returned
    ensures t.self < |t.rpc.servers| && RanEverything(t.rpc.servers[t.self])
    ensures t.command < |t.rpc.servers| && RanEverything(t.rpc.servers[t.command])
    ensures t.rpc.client.pendingAsync == 0 && t.rpc.live == {} && |t.rpc.callbacks| == |t.rpc.made|
    ensures t.pool.pendingGo == t.lateJobs
  {
    ReachableInv(s, steps, t);
    assert Rpc.ServerOk(t.rpc.servers[t.self]) && Rpc.ServerOk(t.rpc.servers[t.command]);
    assert Rpc.CallbacksOk(t.rpc);
  }

  // A run in which a job comes late

  lemma {:induction false} RunAppend(s: State, steps: seq<Step>, t: State, step: Step)
    requires IsRun(s, steps, t) && Enabled(t, step)
    ensures IsRun(s, steps + [step], Apply(t, step))
    decreases |steps|
  {
    var more := steps + [step];
    if steps == [] {
      assert more[0] == step && more[1..] == [];
    } else {
      RunAppend(Apply(s, steps[0]), steps[1..], t, step);
      assert more[0] == steps[0] && more[1..] == steps[1..] + [step];
    }
  }

  lemma Extend(s: State, steps: seq<Step>, t: State, step: Step) returns (more: seq<Step>, u: State)
    requires IsRun(s, steps, t) && Enabled(t, step)
    ensures IsRun(s, more, u) && u == Apply(t, step)
  {
    RunAppend(s, steps, t, step);
    more, u := steps + [step], Apply(t, step);
  }

  /** In the loop, with one reply waiting for the client and nothing else going on. */
  ghost predicate OneReplyWaits(t: State) {
    && t.pc == Loop && t.lateJobs == 0 && t.self == 0 && t.command == 1 && |t.rpc.servers| == 2
    && t.rpc.client.phase == Rpc.Idle && t.rpc.client.pendingAsync == 1 && |t.rpc.client.asyncRet| == 1
    && Rpc.NewServer(t.rpc.servers[0]) && Rpc.NewServer(t.rpc.servers[1])
    && t.pool.pendingGo == 0 && t.pool.taken == [] && t.pool.spawning == None
  }

  /** The module attaches its client to its own server. */
  lemma Attached() returns (s: State, steps: seq<Step>, t: State)
    ensures Initial(s) && IsRun(s, steps, t) && t == s.(rpc := Rpc.Apply(s.rpc, Rpc.Attach(0)))
    ensures t.self == 0 && t.command == 1 && |t.rpc.servers| == 2 && t.rpc.client.capacity == 1
    ensures t.rpc.servers[0].functions == map[]
  {
    var server := Rpc.Server(map[], 1, [], false, None, None, [], 0);
    var client := Rpc.Client(-1, 1, [], [], 0, Rpc.Idle);
    var rpc := Rpc.State([server, server], client, 0, {}, {}, [], [], map[]);
    s := State(Loop, 0, 1, rpc, Pool.State(1, 0, {}, {}, [], [], [], None, 0, [], []), 0);
    steps, t := Extend(s, [], s, RpcStep(Rpc.Attach(0)));
  }

  /** A call of a function that is not registered fails in the lookup. */
  lemma Rejected(rpc: Rpc.State) returns (u: Rpc.State)
    requires rpc.client.phase.Sending? && rpc.client.server == 0 < |rpc.servers| && rpc.servers[0].functions == map[]
    requires rpc.client.asyncRet == [] && rpc.client.capacity == 1
    ensures Rpc.Enabled(rpc, Rpc.AsyncReject)
    ensures Rpc.Enabled(Rpc.Apply(rpc, Rpc.AsyncReject), Rpc.FailSend)
    ensures u == Rpc.Apply(Rpc.Apply(rpc, Rpc.AsyncReject), Rpc.FailSend)
    ensures |u.client.asyncRet| == 1 && u.client.phase.Counting? && u.client.pendingAsync == rpc.client.pendingAsync
    ensures u.servers == rpc.servers
  {
    u := Rpc.Apply(Rpc.Apply(rpc, Rpc.AsyncReject), Rpc.FailSend);
  }

  lemma Called() returns (s: State, steps: seq<Step>, t: State)
    ensures Initial(s) && IsRun(s, steps, t) && t.pc == Loop && t.lateJobs == 0 && t.self == 0 && t.command == 1
    ensures t.rpc.client.phase.Sending? && t.rpc.client.server == 0 && t.rpc.client.asyncRet == []
    ensures t.rpc.client.capacity == 1 && t.rpc.client.pendingAsync == 0
    ensures |t.rpc.servers| == 2 && Rpc.NewServer(t.rpc.servers[0]) && Rpc.NewServer(t.rpc.servers[1])
    ensures t.rpc.servers[0].functions == map[] && t.pool == s.pool
  {
    s, steps, t := Attached();
    steps, t := Extend(s, steps, t, RpcStep(Rpc.AsyncBegin(0, 0)));
  }

  /** It calls a function that is not registered there, and the error waits to be received. */
  lemma ReplyWaits() returns (s: State, steps: seq<Step>, t: State)
    ensures Initial(s) && IsRun(s, steps, t) && OneReplyWaits(t)
  {
    s, steps, t := Called();
    var u := Rejected(t.rpc);
    steps, t := Extend(s, steps, t, RpcStep(Rpc.AsyncReject));
    steps, t := Extend(s, steps, t, RpcStep(Rpc.FailSend));
    steps, t := Extend(s, steps, t, RpcStep(Rpc.Count));
  }

  lemma CloseCommands(s: State, steps: seq<Step>, t: State) returns (more: seq<Step>, u: State)
    requires IsRun(s, steps, t) && OneReplyWaits(t)
    ensures IsRun(s, more, u) && u == t.(pc := ClosingCommands, rpc := u.rpc) && BetweenTurns(u)
    ensures u.rpc.client == t.rpc.client && |u.rpc.servers| == 2 && Drained(u, 0) && Drained(u, 1)
    ensures !u.rpc.servers[0].closed
  {
    more, u := Extend(s, steps, t, CloseSig);
  }

  lemma SecondClose(t: State)
    requires t.pc == ClosingCommands && t.self == 0 && t.command == 1 && |t.rpc.servers| == 2 && BetweenTurns(t)
    requires Drained(t, 0) && Drained(t, 1) && !t.rpc.servers[0].closed
    ensures Enabled(t, CommandsDrained)
    ensures var u := Apply(t, CommandsDrained);
            && u == t.(pc := ClosingRpc, rpc := u.rpc) && BetweenTurns(u) && Drained(u, 0)
            && u.rpc.client == t.rpc.client
  {}

  lemma CloseServers(s: State, steps: seq<Step>, t: State) returns (more: seq<Step>, u: State)
    requires IsRun(s, steps, t) && OneReplyWaits(t)
    ensures IsRun(s, more, u) && u.pc == ClosingRpc && BetweenTurns(u) && Drained(u, u.self)
    ensures u.rpc.client == t.rpc.client && u.pool == t.pool && u.lateJobs == 0
  {
    more, u := CloseCommands(s, steps, t);
    SecondClose(u);
    more, u := Extend(s, more, u, CommandsDrained);
  }

  lemma ShutDown(s: State, steps: seq<Step>, t: State) returns (more: seq<Step>, u: State)
    requires IsRun(s, steps, t) && OneReplyWaits(t)
    ensures IsRun(s, more, u) && u.pc == ClosingClient && BetweenTurns(u)
    ensures u.rpc.client == t.rpc.client && u.pool == t.pool && u.lateJobs == 0
  {
    more, u := CloseServers(s, steps, t);
    more, u := Extend(s, more, u, RpcDrained);
    more, u := Extend(s, more, u, PoolIdle);
  }

  /** The last callback that client.Close dispatches submits a job. */
  lemma JobComesLate(s: State, steps: seq<Step>, t: State) returns (more: seq<Step>, u: State)
    requires IsRun(s, steps, t) && t.pc == ClosingClient && BetweenTurns(t) && t.pool.pendingGo == 0
    requires |t.rpc.client.asyncRet| == 1 && t.rpc.client.pendingAsync == 1
    ensures IsRun(s, more, u) && u.pc == Returned && u.pool.pendingGo == 1
  {
    more, u := Extend(s, steps, t, RpcStep(Rpc.Receive));
    more, u := Extend(s, more, u, RpcStep(Rpc.Dispatch));
    more, u := Extend(s, more, u, PoolStep(Pool.GoPlain));
    more, u := Extend(s, more, u, ClientIdle);
  }

  /** A callback that client.Close dispatches last submits a job, and the job is still pending when
      Run has returned. */
  lemma LateJobOutlivesRun() returns (s: State, steps: seq<Step>, t: State)
    ensures Initial(s) && IsRun(s, steps, t) && t.pc == Returned && t.pool.pendingGo == 1
  {
    s, steps, t := ReplyWaits();
    steps, t := ShutDown(s, steps, t);
    steps, t := JobComesLate(s, steps, t);
  }
}
