/** Channel RPC (chanrpc/chanrpc.go) with any number of clients among any number of servers.  Each
    client sees the machine of ChanRpc, in which the requests of all others need no reply from it, so
    that what is proved there holds for every client at once. */
module ChanRpcClients {
  import opened Wrappers
  import Rpc = ChanRpc
  import Runs = ChanRpcRuns
  import Ends = ChanRpcEnds

  /** A queued request and the client whose channel its reply goes to; Server.Go gives none. */
  datatype Sent = Sent(owner: Option<nat>, request: Rpc.Request)

  datatype Server = Server(
    functions: map<int, int>,
    capacity: nat,
    queue: seq<Sent>,
    closed: bool,
    executing: Option<Sent>,
    reply: Option<Rpc.Outcome>,
    accepted: seq<Sent>,
    executed: nat
  )

  /** A client with its history. */
  datatype Party = Party(
    client: Rpc.Client,
    issued: nat,
    made: set<nat>,
    live: set<nat>,
    callbacks: seq<Rpc.RetInfo>,
    syncReturns: seq<Rpc.RetInfo>,
    outcomes: map<nat, Rpc.Outcome>
  )

  datatype State = State(servers: seq<Server>, parties: seq<Party>)

  // What one client sees; an outsider, who is no client, sees all requests as foreign

  function SeenRequest(x: Sent, who: Option<nat>): Rpc.Request {
    if who.Some? && x.owner == who then x.request else Rpc.Request(Rpc.Foreign, x.request.call)
  }

  function SeenQueue(q: seq<Sent>, who: Option<nat>): (r: seq<Rpc.Request>)
    ensures |r| == |q|
  {
    seq(|q|, i requires 0 <= i < |q| => SeenRequest(q[i], who))
  }

  function SeenServer(v: Server, who: Option<nat>): Rpc.Server {
    var executing := if v.executing.Some? then Some(SeenRequest(v.executing.value, who)) else None;
    Rpc.Server(v.functions, v.capacity, SeenQueue(v.queue, who), v.closed, executing, v.reply,
        SeenQueue(v.accepted, who), v.executed)
  }

  function SeenServers(servers: seq<Server>, who: Option<nat>): (r: seq<Rpc.Server>)
    ensures |r| == |servers|
  {
    seq(|servers|, i requires 0 <= i < |servers| => SeenServer(servers[i], who))
  }

  function NewParty(capacity: nat): Party {
    Party(Rpc.Client(-1, capacity, [], [], 0, Rpc.Idle), 0, {}, {}, [], [], map[])
  }

  function PartyAt(s: State, k: nat): Party { if k < |s.parties| then s.parties[k] else NewParty(0) }

  function Who(s: State, k: nat): Option<nat> { if k < |s.parties| then Some(k) else None }

  function View(s: State, k: nat): Rpc.State {
    var p := PartyAt(s, k);
    Rpc.State(SeenServers(s.servers, Who(s, k)), p.client, p.issued, p.made, p.live, p.callbacks, p.syncReturns,
        p.outcomes)
  }

  function PartyOf(t: Rpc.State): Party {
    Party(t.client, t.issued, t.made, t.live, t.callbacks, t.syncReturns, t.outcomes)
  }

  ghost predicate Initial(s: State) {
    && (forall i | 0 <= i < |s.servers| :: Rpc.NewServer(SeenServer(s.servers[i], None)))
    && (forall k | 0 <= k < |s.parties| :: s.parties[k] == NewParty(s.parties[k].client.capacity))
  }

  // Steps

  datatype Step =
    | ByClient(k: nat, step: Rpc.Step)
    | Post(server: nat, tag: nat)          // Server.Go
    | Start(server: nat)
    | Finish(server: nat, outcome: Rpc.Outcome)
    | Reply(server: nat)
    | Close(server: nat)

  predicate IsClientStep(step: Rpc.Step) {
    !step.ForeignCall? && !step.Start? && !step.Finish? && !step.Reply? && !step.Close?
  }

  /** The client that a step concerns; the number of clients stands for none. */
  function Actor(s: State, step: Step): nat {
    match step
    case ByClient(k, _) => k
    case Finish(i, _) => Asker(s, i)
    case Reply(i) => Asker(s, i)
    case _ => |s.parties|
  }

  /** The client whose request the server executes. */
  function Asker(s: State, i: nat): nat {
    if i < |s.servers| && s.servers[i].executing.Some? && s.servers[i].executing.value.owner.Some?
    then s.servers[i].executing.value.owner.value
    else |s.parties|
  }

  /** The step in the machine of the client it concerns. */
  function AsSeen(step: Step): Rpc.Step {
    match step
    case ByClient(_, st) => st
    case Post(i, tag) => Rpc.ForeignCall(i, tag)
    case Start(i) => Rpc.Start(i)
    case Finish(i, outcome) => Rpc.Finish(i, outcome)
    case Reply(i) => Rpc.Reply(i)
    case Close(i) => Rpc.Close(i)
  }

  predicate Enabled(s: State, step: Step) {
    && (step.ByClient? ==> step.k < |s.parties| && IsClientStep(step.step))
    && Rpc.Enabled(View(s, Actor(s, step)), AsSeen(step))
  }

  function Accept(v: Server, x: Sent): Server { v.(queue := v.queue + [x], accepted := v.accepted + [x]) }

  /** What happens to the servers. */
  function Serve(s: State, step: Step): seq<Server>
    requires Enabled(s, step)
  {
    match step
    case ByClient(k, st) =>
      var c := s.parties[k].client;
      if st.AsyncSend? then
        s.servers[c.server := Accept(s.servers[c.server], Sent(Some(k), Rpc.Request(Rpc.Async, c.phase.call)))]
      else if st.SyncSend? then
        s.servers[c.server := Accept(s.servers[c.server], Sent(Some(k), Rpc.Request(Rpc.Sync, c.phase.call)))]
      else s.servers
    case Post(i, tag) => s.servers[i := Accept(s.servers[i], Sent(None, Rpc.Request(Rpc.Foreign, tag)))]
    case Start(i) =>
      var v := s.servers[i];
      s.servers[i := v.(queue := v.queue[1..], executing := Some(v.queue[0]))]
    case Finish(i, outcome) => s.servers[i := s.servers[i].(reply := Some(outcome))]
    case Reply(i) =>
      var v := s.servers[i];
      s.servers[i := v.(executing := None, reply := None, executed := v.executed + 1)]
    case Close(i) => s.servers[i := s.servers[i].(closed := true)]
  }

  /** The client concerned goes on as in its own machine; the others do not notice. */
  function Apply(s: State, step: Step): State
    requires Enabled(s, step)
  {
    var k := Actor(s, step);
    var t := Rpc.Apply(View(s, k), AsSeen(step));
    State(Serve(s, step), if k < |s.parties| then s.parties[k := PartyOf(t)] else s.parties)
  }

  ghost predicate IsRun(s: State, steps: seq<Step>, t: State)
    decreases |steps|
  {
    if steps == [] then s == t
    else Enabled(s, steps[0]) && IsRun(Apply(s, steps[0]), steps[1..], t)
  }

  // Every client sees a run of its own machine

  /** The step as client k sees it, if it notices it at all. */
  function Noticed(s: State, step: Step, k: nat): Option<Rpc.Step>
    requires Enabled(s, step)
  {
    match step
    case ByClient(j, st) =>
      if j == k then Some(st)
      else if st.AsyncSend? || st.SyncSend? then
        Some(Rpc.ForeignCall(s.parties[j].client.server, s.parties[j].client.phase.call))
      else None
    case _ => Some(AsSeen(step))
  }

  lemma SeenUpdate(servers: seq<Server>, i: nat, w: Server, who: Option<nat>)
    requires i < |servers|
    ensures SeenServers(servers[i := w], who) == SeenServers(servers, who)[i := SeenServer(w, who)]
  {}

  lemma SeenAppend(q: seq<Sent>, x: Sent, who: Option<nat>)
    ensures SeenQueue(q + [x], who) == SeenQueue(q, who) + [SeenRequest(x, who)]
  {}

  lemma SeenAccept(v: Server, x: Sent, who: Option<nat>)
    ensures SeenServer(Accept(v, x), who) == Rpc.Accept(SeenServer(v, who), SeenRequest(x, who))
  {
    SeenAppend(v.queue, x, who);
    SeenAppend(v.accepted, x, who);
  }

  lemma SeenStart(v: Server, who: Option<nat>)
    requires v.queue != []
    ensures SeenServer(v.(queue := v.queue[1..], executing := Some(v.queue[0])), who) ==
        Rpc.StartOf(SeenServer(v, who))
  {
    assert SeenQueue(v.queue[1..], who) == SeenQueue(v.queue, who)[1..];
  }

  /** What client k sees of a step of anybody. */
  ghost predicate SeesStep(s: State, step: Step, k: nat)
    requires Enabled(s, step)
  {
    match Noticed(s, step, k)
    case None => View(Apply(s, step), k) == View(s, k)
    case Some(st) => Rpc.Enabled(View(s, k), st) && View(Apply(s, step), k) == Rpc.Apply(View(s, k), st)
  }

  lemma SeesOwnStep(s: State, k: nat, st: Rpc.Step)
    requires Enabled(s, ByClient(k, st))
    ensures SeesStep(s, ByClient(k, st), k)
  {
    var c := s.parties[k].client;
    if st.AsyncSend? || st.SyncSend? {
      var kind := if st.AsyncSend? then Rpc.Async else Rpc.Sync;
      var x := Sent(Some(k), Rpc.Request(kind, c.phase.call));
      SeenUpdate(s.servers, c.server, Accept(s.servers[c.server], x), Some(k));
      SeenAccept(s.servers[c.server], x, Some(k));
    }
  }

  lemma SeesSend(s: State, j: nat, st: Rpc.Step, k: nat)
    requires Enabled(s, ByClient(j, st)) && (st.AsyncSend? || st.SyncSend?) && j != k
    ensures SeesStep(s, ByClient(j, st), k)
  {
    var c := s.parties[j].client;
    var kind := if st.AsyncSend? then Rpc.Async else Rpc.Sync;
    var x := Sent(Some(j), Rpc.Request(kind, c.phase.call));
    SeenUpdate(s.servers, c.server, Accept(s.servers[c.server], x), Who(s, k));
    SeenAccept(s.servers[c.server], x, Who(s, k));
  }

  lemma SeesClientStep(s: State, j: nat, st: Rpc.Step, k: nat)
    requires Enabled(s, ByClient(j, st))
    ensures SeesStep(s, ByClient(j, st), k)
  {
    if j == k {
      SeesOwnStep(s, k, st);
    } else if st.AsyncSend? || st.SyncSend? {
      SeesSend(s, j, st, k);
    }
  }

  lemma SeesPost(s: State, i: nat, tag: nat, k: nat)
    requires Enabled(s, Post(i, tag))
    ensures SeesStep(s, Post(i, tag), k)
  {
    var x := Sent(None, Rpc.Request(Rpc.Foreign, tag));
    SeenUpdate(s.servers, i, Accept(s.servers[i], x), Who(s, k));
    SeenAccept(s.servers[i], x, Who(s, k));
  }

  lemma SeesStart(s: State, i: nat, k: nat)
    requires Enabled(s, Start(i))
    ensures SeesStep(s, Start(i), k)
  {
    SeenUpdate(s.servers, i, Serve(s, Start(i))[i], Who(s, k));
    SeenStart(s.servers[i], Who(s, k));
  }

  lemma SeesFinish(s: State, i: nat, outcome: Rpc.Outcome, k: nat)
    requires Enabled(s, Finish(i, outcome))
    ensures SeesStep(s, Finish(i, outcome), k)
  {
    SeenUpdate(s.servers, i, s.servers[i].(reply := Some(outcome)), Who(s, k));
  }

  lemma SeesReply(s: State, i: nat, k: nat)
    requires Enabled(s, Reply(i))
    ensures SeesStep(s, Reply(i), k)
  {
    SeenUpdate(s.servers, i, Serve(s, Reply(i))[i], Who(s, k));
  }

  lemma SeesClose(s: State, i: nat, k: nat)
    requires Enabled(s, Close(i))
    ensures SeesStep(s, Close(i), k)
  {
    SeenUpdate(s.servers, i, s.servers[i].(closed := true), Who(s, k));
  }

  lemma EveryoneSeesStep(s: State, step: Step, k: nat)
    requires Enabled(s, step)
    ensures SeesStep(s, step, k)
  {
    match step
    case ByClient(j, st) => SeesClientStep(s, j, st, k);
    case Post(i, tag) => SeesPost(s, i, tag, k);
    case Start(i) => SeesStart(s, i, k);
    case Finish(i, outcome) => SeesFinish(s, i, outcome, k);
    case Reply(i) => SeesReply(s, i, k);
    case Close(i) => SeesClose(s, i, k);
  }

  lemma {:induction false} EveryoneSeesRun(s: State, steps: seq<Step>, t: State, k: nat) returns (seen: seq<Rpc.Step>)
    requires IsRun(s, steps, t)
    ensures Rpc.IsRun(View(s, k), seen, View(t, k)) && |t.parties| == |s.parties|
    decreases |steps|
  {
    seen := [];
    if steps != [] {
      EveryoneSeesStep(s, steps[0], k);
      seen := EveryoneSeesRun(Apply(s, steps[0]), steps[1..], t, k);
      var st := Noticed(s, steps[0], k);
      if st.Some? {
        var rest := seen;
        seen := [st.value] + rest;
        assert seen[1..] == rest;
      }
    }
  }

  ghost predicate Reachable(s: State, steps: seq<Step>, t: State) {
    Initial(s) && IsRun(s, steps, t)
  }

  lemma InitialView(s: State, k: nat)
    requires Initial(s)
    ensures Rpc.Initial(View(s, k))
  {
    forall i | 0 <= i < |s.servers|
      ensures Rpc.NewServer(View(s, k).servers[i])
    {
      assert Rpc.NewServer(SeenServer(s.servers[i], None));
    }
  }

  /** Whatever the other clients do, each client goes through a run of the machine of ChanRpc, and so
      all that ChanRpcRuns proves of such runs holds for every client at the same time. */
  lemma EveryClient(s: State, steps: seq<Step>, t: State, k: nat) returns (seen: seq<Rpc.Step>)
    requires Reachable(s, steps, t)
    ensures Runs.Reachable(View(s, k), seen, View(t, k))
  {
    seen := EveryoneSeesRun(s, steps, t, k);
    InitialView(s, k);
  }

  // What every client knows of its own machine

  ghost predicate Good(s: State) { forall k: nat :: Runs.Full(View(s, k)) && Ends.Found(View(s, k)) }

  lemma StepKeepsGood(s: State, step: Step)
    requires Good(s) && Enabled(s, step)
    ensures Good(Apply(s, step))
  {
    forall k: nat
      ensures Runs.Full(View(Apply(s, step), k)) && Ends.Found(View(Apply(s, step), k))
    {
      assert Runs.Full(View(s, k)) && Ends.Found(View(s, k));
      EveryoneSeesStep(s, step, k);
      if Noticed(s, step, k).Some? {
        Runs.StepKeepsFull(View(s, k), Noticed(s, step, k).value);
        Ends.FoundStep(View(s, k), Noticed(s, step, k).value);
      }
    }
  }

  lemma {:induction false} RunKeepsGood(s: State, steps: seq<Step>, t: State)
    requires Good(s) && IsRun(s, steps, t)
    ensures Good(t)
    decreases |steps|
  {
    if steps != [] {
      StepKeepsGood(s, steps[0]);
      RunKeepsGood(Apply(s, steps[0]), steps[1..], t);
    }
  }

  lemma ReachableIsGood(s: State, steps: seq<Step>, t: State)
    requires Reachable(s, steps, t)
    ensures Good(t)
  {
    forall k: nat
      ensures Runs.Full(View(s, k)) && Ends.Found(View(s, k))
    {
      InitialView(s, k);
      Runs.InitialIsFull(View(s, k));
    }
    RunKeepsGood(s, steps, t);
  }

  lemma ReplyNotBlocked(s: State, i: nat)
    requires Good(s) && i < |s.servers| && s.servers[i].reply.Some?
    ensures Enabled(s, Reply(i))
  {
    assert Runs.Full(View(s, Asker(s, i)));
    Runs.ReplyNotBlocked(View(s, Asker(s, i)), i);
  }

  lemma FailSendNotBlocked(s: State, k: nat)
    requires Good(s) && k < |s.parties| && s.parties[k].client.phase.Failing?
    ensures Enabled(s, ByClient(k, Rpc.FailSend))
  {
    assert Runs.Full(View(s, k));
    Runs.RoomFor(View(s, k), View(s, k).client.phase.call);
  }

  /** No reply to any client ever blocks a server, and no client blocks itself. */
  lemma NoSendBlocks(s: State, steps: seq<Step>, t: State)
    requires Reachable(s, steps, t)
    ensures forall i: nat | i < |t.servers| && t.servers[i].reply.Some? :: Enabled(t, Reply(i))
    ensures forall k: nat | k < |t.parties| && t.parties[k].client.phase.Failing? ::
        Enabled(t, ByClient(k, Rpc.FailSend))
  {
    ReachableIsGood(s, steps, t);
    forall i: nat | i < |t.servers| && t.servers[i].reply.Some?
      ensures Enabled(t, Reply(i))
    {
      ReplyNotBlocked(t, i);
    }
    forall k: nat | k < |t.parties| && t.parties[k].client.phase.Failing?
      ensures Enabled(t, ByClient(k, Rpc.FailSend))
    {
      FailSendNotBlocked(t, k);
    }
  }

  // Calls come to an end

  predicate IsChoice(step: Step) { Ends.IsChoice(AsSeen(step)) }

  function Choices(steps: seq<Step>): nat {
    if steps == [] then 0 else Rpc.One(IsChoice(steps[0])) + Choices(steps[1..])
  }

  function PartiesWeight(parties: seq<Party>): nat {
    if parties == [] then 0 else Ends.ClientWeight(parties[0].client) + PartiesWeight(parties[1..])
  }

  /** A bound on the steps left when nobody chooses to do anything more. */
  function Weight(s: State): nat {
    Ends.ServersWeight(SeenServers(s.servers, None)) + PartiesWeight(s.parties)
  }

  lemma {:induction false} SeenWeight(servers: seq<Server>, a: Option<nat>, b: Option<nat>)
    ensures Ends.ServersWeight(SeenServers(servers, a)) == Ends.ServersWeight(SeenServers(servers, b))
  {
    if servers != [] {
      SeenWeight(servers[1..], a, b);
      assert SeenServers(servers, a)[1..] == SeenServers(servers[1..], a);
      assert SeenServers(servers, b)[1..] == SeenServers(servers[1..], b);
    }
  }

  lemma {:induction false} PartiesWeightUpdate(parties: seq<Party>, k: nat, p: Party)
    requires k < |parties|
    ensures PartiesWeight(parties[k := p]) ==
        PartiesWeight(parties) - Ends.ClientWeight(parties[k].client) + Ends.ClientWeight(p.client)
  {
    if k > 0 {
      PartiesWeightUpdate(parties[1..], k - 1, p);
      assert parties[k := p][1..] == parties[1..][k - 1 := p];
    } else {
      assert parties[k := p][1..] == parties[1..];
    }
  }

  lemma StepWeight(s: State, step: Step)
    requires Enabled(s, step) && Rpc.ServersOk(View(s, Actor(s, step)).servers)
    ensures Weight(Apply(s, step)) + 1 <= Weight(s) + if IsChoice(step) then 8 else 0
  {
    var k, t := Actor(s, step), Apply(s, step);
    EveryoneSeesStep(s, step, k);
    Ends.StepWeight(View(s, k), AsSeen(step));
    SeenWeight(s.servers, None, Who(s, k));
    SeenWeight(t.servers, None, Who(s, k));
    if k < |s.parties| {
      PartiesWeightUpdate(s.parties, k, t.parties[k]);
    }
  }

  lemma {:induction false} RunsAreBounded(s: State, steps: seq<Step>, t: State)
    requires Good(s) && IsRun(s, steps, t)
    ensures |steps| + Weight(t) <= Weight(s) + 8 * Choices(steps)
    decreases |steps|
  {
    if steps != [] {
      StepKeepsGood(s, steps[0]);
      assert Runs.Full(View(s, Actor(s, steps[0])));
      StepWeight(s, steps[0]);
      RunsAreBounded(Apply(s, steps[0]), steps[1..], t);
    }
  }

  ghost predicate Stuck(s: State) { forall step :: Enabled(s, step) ==> IsChoice(step) }

  lemma OutsiderIsIdle(t: State, k: nat, st: Rpc.Step)
    requires k >= |t.parties| && Rpc.Enabled(View(t, k), st) && !Ends.IsChoice(st)
    ensures !IsClientStep(st)
  {}

  /** A step that somebody sees as possible is one somebody can take. */
  lemma SomebodyCan(t: State, k: nat, st: Rpc.Step) returns (step: Step)
    requires Rpc.Enabled(View(t, k), st) && !Ends.IsChoice(st)
    requires st.Reply? ==> Enabled(t, Reply(st.server))
    ensures Enabled(t, step) && !IsChoice(step)
  {
    if k >= |t.parties| {
      OutsiderIsIdle(t, k, st);
    }
    match st
    case Start(i) => step := Start(i);
    case Finish(i, outcome) => step := Finish(i, outcome);
    case Reply(i) => step := Reply(i);
    case _ => step := ByClient(k, st);
  }

  lemma StuckForAll(s: State, k: nat)
    requires Good(s) && Stuck(s)
    ensures Ends.Stuck(View(s, k))
  {
    forall st | Rpc.Enabled(View(s, k), st)
      ensures Ends.IsChoice(st)
    {
      if !Ends.IsChoice(st) {
        if st.Reply? {
          ReplyNotBlocked(s, st.server);
        }
        var step := SomebodyCan(s, k, st);
      }
    }
  }

  lemma RestWhereStuck(s: State, k: nat)
    requires Good(s) && Stuck(s)
    ensures k < |s.parties| ==> AllCalledBack(s.parties[k])
    ensures forall i: nat | i < |s.servers| :: s.servers[i].executed == |s.servers[i].accepted|
  {
    StuckForAll(s, k);
    assert Runs.Full(View(s, k));
    Ends.RestWhereStuck(View(s, k));
    forall i: nat | i < |s.servers|
      ensures s.servers[i].executed == |s.servers[i].accepted|
    {
      assert Ends.RanAll(View(s, k).servers[i]);
    }
  }

  /** For any number of clients and servers, a run takes at most 8 steps for each choice, besides
      those still to come at its start.  Where only choices are left every client waits for nothing,
      each asynchronous call any of them ever made has had its callback invoked exactly once, and every
      server has executed all it accepted. */
  lemma CallsEnd(s: State, steps: seq<Step>, t: State, more: seq<Step>, u: State)
    requires Reachable(s, steps, t) && IsRun(t, more, u)
    ensures |more| <= Weight(t) + 8 * Choices(more)
    ensures Stuck(u) ==> forall k: nat | k < |u.parties| :: AllCalledBack(u.parties[k])
    ensures Stuck(u) ==> forall i: nat | i < |u.servers| :: u.servers[i].executed == |u.servers[i].accepted|
  {
    ReachableIsGood(s, steps, t);
    RunKeepsGood(t, more, u);
    RunsAreBounded(t, more, u);
    if Stuck(u) {
      RestWhereStuck(u, 0);
      forall k: nat | k < |u.parties|
        ensures AllCalledBack(u.parties[k])
      {
        RestWhereStuck(u, k);
      }
    }
  }

  /** The client waits for nothing, and has had each callback once. */
  ghost predicate AllCalledBack(p: Party) {
    && p.client.phase == Rpc.Idle && p.client.pendingAsync == 0 && p.live == {}
    && forall call: nat :: Rpc.AtReplies(p.callbacks, call) == Rpc.One(call in p.made)
  }
}
