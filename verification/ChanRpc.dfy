/** Channel RPC (chanrpc/chanrpc.go): one client among any number of servers, as a machine whose
    steps are the channel operations.  Whatever runs besides the client and the servers, such as
    other clients, only adds requests to the servers. */
module ChanRpc {
  import opened Wrappers

  datatype Error = NotAttached | NotRegistered | TypeMismatch | ServerClosed | ServerFull | TooManyCalls | HandlerPanic

  /** What a caller gets: the value its handler returned, or an error. */
  type Outcome = Result<int, Error>

  datatype Kind = Async | Sync | Foreign

  /** A queued call.  `call` identifies the caller's call, and with it the callback. */
  datatype Request = Request(kind: Kind, call: nat)

  datatype RetInfo = RetInfo(call: nat, outcome: Outcome)

  datatype Server = Server(
    functions: map<int, int>,        // the number of results of each registered function
    capacity: nat,
    queue: seq<Request>,             // ChanCall
    closed: bool,
    executing: Option<Request>,
    reply: Option<Outcome>,          // the handler is done and the reply not yet sent
    // history
    accepted: seq<Request>,
    executed: nat
  )

  /** The position of the client's goroutine. */
  datatype Phase =
    | Idle
    | Sending(fid: int, n: int, call: nat)       // in AsyncCall, past the test for too many calls
    | Failing(call: nat, error: Error)           // about to send the error to ChanAsyncRet
    | Counting(call: nat)                        // about to increment pendingAsync
    | Received(ri: RetInfo)                      // took a reply, about to call Cb
    | SyncSending(fid: int, n: int, call: nat)
    | SyncWaiting(call: nat)

  datatype Client = Client(
    server: int,                     // the attached server, or -1
    capacity: nat,                   // of ChanAsyncRet
    asyncRet: seq<RetInfo>,
    syncRet: seq<RetInfo>,           // capacity 1
    pendingAsync: int,
    phase: Phase
  )

  datatype State = State(
    servers: seq<Server>,
    client: Client,
    // history
    issued: nat,                     // the next call
    made: set<nat>,                  // calls made by AsyncCall
    live: set<nat>,                  // those whose callback has not been invoked
    callbacks: seq<RetInfo>,         // callback invocations in order
    syncReturns: seq<RetInfo>,       // returns of synchronous calls
    outcomes: map<nat, Outcome>      // what became of the request of each call
  )

  ghost predicate Initial(s: State) {
    && s.client.server == -1 && s.client.asyncRet == [] && s.client.syncRet == []
    && s.client.pendingAsync == 0 && s.client.phase == Idle
    && s.issued == 0 && s.made == {} && s.live == {} && s.callbacks == [] && s.syncReturns == [] && s.outcomes == map[]
    && forall i | 0 <= i < |s.servers| :: NewServer(s.servers[i])
  }

  predicate NewServer(v: Server) {
    v.queue == [] && !v.closed && v.executing == None && v.reply == None && v.accepted == [] && v.executed == 0
  }

  datatype Step =
    | Attach(server: nat)
    | AsyncBegin(fid: int, n: int)
    | AsyncReject | AsyncSend | AsyncFull
    | FailSend
    | Count
    | Receive
    | Dispatch
    | SyncBegin(fid: int, n: int)
    | SyncSend | SyncClosed
    | SyncReceive
    | ForeignCall(server: nat, tag: nat)
    | Start(server: nat)
    | Finish(server: nat, outcome: Outcome)
    | Reply(server: nat)
    | Close(server: nat)

  /** Client.f: the error that the lookup of the function gives, if any. */
  function LookupError(s: State, fid: int, n: int): Option<Error> {
    if !(0 <= s.client.server < |s.servers|) then Some(NotAttached)
    else
      var functions := s.servers[s.client.server].functions;
      if fid !in functions then Some(NotRegistered)
      else if functions[fid] != n then Some(TypeMismatch)
      else None
  }

  /** A send to ChanCall succeeds when the buffer has room, or hands over to a server that waits. */
  predicate CanAccept(v: Server) {
    !v.closed && (|v.queue| < v.capacity || (v.queue == [] && v.executing == None))
  }

  predicate CallIsFor(s: State, fid: int, n: int) {
    LookupError(s, fid, n) == None
  }

  predicate Enabled(s: State, step: Step) {
    var c := s.client;
    match step
    case Attach(i) => c.phase == Idle && i < |s.servers|
    case AsyncBegin(fid, n) => c.phase == Idle
    case AsyncReject => c.phase.Sending? && LookupError(s, c.phase.fid, c.phase.n).Some?
    case AsyncSend => c.phase.Sending? && CallIsFor(s, c.phase.fid, c.phase.n) && CanAccept(s.servers[c.server])
    case AsyncFull =>
      && c.phase.Sending? && CallIsFor(s, c.phase.fid, c.phase.n)
      && (s.servers[c.server].closed || |s.servers[c.server].queue| >= s.servers[c.server].capacity)
    case FailSend => c.phase.Failing? && |c.asyncRet| < c.capacity
    case Count => c.phase.Counting?
    case Receive => c.phase == Idle && c.asyncRet != []
    case Dispatch => c.phase.Received?
    case SyncBegin(fid, n) => c.phase == Idle
    case SyncSend => c.phase.SyncSending? && CallIsFor(s, c.phase.fid, c.phase.n) && CanAccept(s.servers[c.server])
    case SyncClosed => c.phase.SyncSending? && CallIsFor(s, c.phase.fid, c.phase.n) && s.servers[c.server].closed
    case SyncReceive => c.phase.SyncWaiting? && c.syncRet != []
    case ForeignCall(i, tag) => i < |s.servers| && CanAccept(s.servers[i])
    case Start(i) => i < |s.servers| && s.servers[i].executing == None && s.servers[i].queue != []
    case Finish(i, outcome) =>
      && i < |s.servers| && s.servers[i].executing.Some? && s.servers[i].reply == None
      && (outcome.Err? ==> outcome.error == HandlerPanic)
    case Reply(i) =>
      && i < |s.servers| && s.servers[i].executing.Some? && s.servers[i].reply.Some?
      && !ReplyBlocked(s, s.servers[i].executing.value.kind)
    case Close(i) => i < |s.servers| && !s.servers[i].closed
  }

  /** The reply channel of the request has no room. */
  predicate ReplyBlocked(s: State, kind: Kind) {
    match kind
    case Async => |s.client.asyncRet| >= s.client.capacity
    case Sync => |s.client.syncRet| >= 1
    case Foreign => false
  }

  function Accept(v: Server, r: Request): Server {
    v.(queue := v.queue + [r], accepted := v.accepted + [r])
  }

  function StartOf(v: Server): Server
    requires v.queue != []
  {
    v.(queue := v.queue[1..], executing := Some(v.queue[0]))
  }

  function Replied(v: Server): Server {
    v.(executing := None, reply := None, executed := v.executed + 1)
  }

  function Apply(s: State, step: Step): State
    requires Enabled(s, step)
  {
    var c := s.client;
    match step
    case Attach(i) => s.(client := c.(server := i))
    case AsyncBegin(fid, n) =>
      var call := s.issued;
      var t := s.(issued := call + 1, made := s.made + {call});
      if c.pendingAsync >= c.capacity then
        // "too many calls": the callback is invoked at once
        t.(callbacks := s.callbacks + [RetInfo(call, Err(TooManyCalls))],
            outcomes := s.outcomes[call := Err(TooManyCalls)])
      else t.(client := c.(phase := Sending(fid, n, call)), live := s.live + {call})
    case AsyncReject => s.(client := c.(phase := Failing(c.phase.call, LookupError(s, c.phase.fid, c.phase.n).value)))
    case AsyncSend =>
      s.(servers := s.servers[c.server := Accept(s.servers[c.server], Request(Async, c.phase.call))],
         client := c.(phase := Counting(c.phase.call)))
    case AsyncFull =>
      s.(client := c.(phase := Failing(c.phase.call, if s.servers[c.server].closed then ServerClosed else ServerFull)))
    case FailSend =>
      var outcome := Err(c.phase.error);
      s.(client := c.(asyncRet := c.asyncRet + [RetInfo(c.phase.call, outcome)], phase := Counting(c.phase.call)),
         outcomes := s.outcomes[c.phase.call := outcome])
    case Count => s.(client := c.(pendingAsync := c.pendingAsync + 1, phase := Idle))
    case Receive => s.(client := c.(asyncRet := c.asyncRet[1..], phase := Received(c.asyncRet[0])))
    case Dispatch =>
      s.(client := c.(pendingAsync := c.pendingAsync - 1, phase := Idle),
         callbacks := s.callbacks + [c.phase.ri], live := s.live - {c.phase.ri.call})
    case SyncBegin(fid, n) =>
      var call := s.issued;
      var t := s.(issued := call + 1);
      (match LookupError(s, fid, n)
       case Some(e) => t.(syncReturns := s.syncReturns + [RetInfo(call, Err(e))],
           outcomes := s.outcomes[call := Err(e)])
       case None => t.(client := c.(phase := SyncSending(fid, n, call))))
    case SyncSend =>
      s.(servers := s.servers[c.server := Accept(s.servers[c.server], Request(Sync, c.phase.call))],
         client := c.(phase := SyncWaiting(c.phase.call)))
    case SyncClosed =>
      s.(client := c.(phase := Idle), syncReturns := s.syncReturns + [RetInfo(c.phase.call, Err(ServerClosed))],
         outcomes := s.outcomes[c.phase.call := Err(ServerClosed)])
    case SyncReceive =>
      s.(client := c.(syncRet := c.syncRet[1..], phase := Idle),
         syncReturns := s.syncReturns + [RetInfo(c.phase.call, c.syncRet[0].outcome)])
    case ForeignCall(i, tag) => s.(servers := s.servers[i := Accept(s.servers[i], Request(Foreign, tag))])
    case Start(i) =>
      s.(servers := s.servers[i := StartOf(s.servers[i])])
    case Finish(i, outcome) =>
      var v := s.servers[i];
      var r := v.executing.value;
      s.(servers := s.servers[i := v.(reply := Some(outcome))],
         outcomes := if r.kind == Foreign then s.outcomes else s.outcomes[r.call := outcome])
    case Reply(i) =>
      var v := s.servers[i];
      var ri := RetInfo(v.executing.value.call, v.reply.value);
      s.(servers := s.servers[i := Replied(v)],
         client := match v.executing.value.kind
                   case Async => c.(asyncRet := c.asyncRet + [ri])
                   case Sync => c.(syncRet := c.syncRet + [ri])
                   case Foreign => c)
    case Close(i) => s.(servers := s.servers[i := s.servers[i].(closed := true)])
  }

  ghost predicate IsRun(s: State, steps: seq<Step>, t: State)
    decreases |steps|
  {
    if steps == [] then s == t
    else Enabled(s, steps[0]) && IsRun(Apply(s, steps[0]), steps[1..], t)
  }

  // Where calls are

  /** The requests a server has received and not finished, in order. */
  function Held(v: Server): seq<Request> {
    (if v.executing.Some? then [v.executing.value] else []) + v.queue
  }

  function One(b: bool): nat { if b then 1 else 0 }

  function CountIn(reqs: seq<Request>, r: Request): nat {
    if reqs == [] then 0 else One(reqs[0] == r) + CountIn(reqs[1..], r)
  }

  function AtServers(servers: seq<Server>, r: Request): nat {
    if servers == [] then 0 else CountIn(Held(servers[0]), r) + AtServers(servers[1..], r)
  }

  function AtReplies(rets: seq<RetInfo>, call: nat): nat {
    if rets == [] then 0 else One(rets[0].call == call) + AtReplies(rets[1..], call)
  }

  function AtPhase(p: Phase, call: nat): nat {
    match p
    case Sending(_, _, c) => One(c == call)
    case Failing(c, _) => One(c == call)
    case Received(ri) => One(ri.call == call)
    case _ => 0
  }

  /** In how many places an asynchronous call is: queued, executing or replying at a server,
      replied, taken for dispatch, or still with AsyncCall. */
  function Places(s: State, call: nat): nat {
    AtServers(s.servers, Request(Async, call)) + AtReplies(s.client.asyncRet, call) + AtPhase(s.client.phase, call)
  }

  function SyncPlaces(s: State, call: nat): nat {
    AtServers(s.servers, Request(Sync, call)) + AtReplies(s.client.syncRet, call)
  }

  // The invariant

  /** Executed requests are a prefix, in order, of the accepted ones. */
  ghost predicate ServerOk(v: Server) {
    && v.executed <= |v.accepted| && v.accepted[v.executed..] == Held(v)
    && (v.reply.Some? ==> v.executing.Some?)
  }

  ghost predicate ServersOk(servers: seq<Server>) {
    forall i | 0 <= i < |servers| :: ServerOk(servers[i])
  }

  predicate InsideAsyncCall(p: Phase) { p.Sending? || p.Failing? || p.Counting? }

  /** Every live call is in exactly one place, nothing else is in any, and pendingAsync counts the
      live calls and bounds them by the capacity of ChanAsyncRet. */
  ghost predicate AsyncOk(s: State) {
    && (forall call :: Places(s, call) == One(call in s.live))
    && |s.live| == s.client.pendingAsync + One(InsideAsyncCall(s.client.phase))
    && |s.live| <= s.client.capacity
  }

  /** A synchronous call is in one place while its caller waits, and nowhere otherwise. */
  ghost predicate SyncOk(s: State) {
    forall call :: SyncPlaces(s, call) == One(s.client.phase == SyncWaiting(call))
  }

  /** Each call made is either live or has had its callback invoked, once. */
  ghost predicate CallbacksOk(s: State) {
    && (forall call | call in s.made :: call < s.issued)
    && (forall call :: AtReplies(s.callbacks, call) + One(call in s.live) == One(call in s.made))
    && |s.made| == |s.callbacks| + |s.live|
  }

  lemma {:induction false} CountAppend(reqs: seq<Request>, x: Request, r: Request)
    ensures CountIn(reqs + [x], r) == CountIn(reqs, r) + One(x == r)
  {
    if reqs == [] {
      assert [] + [x] == [x] && [x][1..] == [];
    } else {
      CountAppend(reqs[1..], x, r);
      assert (reqs + [x])[1..] == reqs[1..] + [x];
    }
  }

  lemma {:induction false} RepliesAppend(rets: seq<RetInfo>, ri: RetInfo, call: nat)
    ensures AtReplies(rets + [ri], call) == AtReplies(rets, call) + One(ri.call == call)
  {
    if rets == [] {
      assert [] + [ri] == [ri] && [ri][1..] == [];
    } else {
      RepliesAppend(rets[1..], ri, call);
      assert (rets + [ri])[1..] == rets[1..] + [ri];
    }
  }

  lemma {:induction false} UpdateServer(servers: seq<Server>, i: nat, w: Server, r: Request)
    requires i < |servers|
    ensures AtServers(servers[i := w], r) == AtServers(servers, r) - CountIn(Held(servers[i]), r) + CountIn(Held(w), r)
    ensures CountIn(Held(servers[i]), r) <= AtServers(servers, r)
  {
    if i > 0 {
      UpdateServer(servers[1..], i - 1, w, r);
      assert servers[i := w][1..] == servers[1..][i - 1 := w];
    } else {
      assert servers[i := w][1..] == servers[1..];
    }
  }

  // What each kind of step does to a server

  lemma AcceptKeeps(v: Server, x: Request, r: Request)
    requires ServerOk(v)
    ensures ServerOk(Accept(v, x)) && CountIn(Held(Accept(v, x)), r) == CountIn(Held(v), r) + One(x == r)
  {
    assert Held(Accept(v, x)) == Held(v) + [x];
    CountAppend(Held(v), x, r);
  }

  lemma StartKeeps(v: Server)
    requires ServerOk(v) && v.executing == None && v.queue != []
    ensures ServerOk(StartOf(v)) && Held(StartOf(v)) == Held(v)
  {
    assert [v.queue[0]] + v.queue[1..] == v.queue;
  }

  lemma ReplyKeeps(v: Server, r: Request)
    requires ServerOk(v) && v.executing.Some?
    ensures ServerOk(Replied(v)) && CountIn(Held(v), r) == CountIn(Held(Replied(v)), r) + One(v.executing.value == r)
  {
    assert Held(v)[1..] == Held(Replied(v));
    assert v.accepted[v.executed..][1..] == v.accepted[v.executed + 1..];
  }

  // Handing a request to a server, and taking a reply from one

  lemma Hand(servers: seq<Server>, i: nat, x: Request)
    requires i < |servers| && ServersOk(servers)
    ensures ServersOk(servers[i := Accept(servers[i], x)])
    ensures forall r :: AtServers(servers[i := Accept(servers[i], x)], r) == AtServers(servers, r) + One(x == r)
  {
    forall r
      ensures AtServers(servers[i := Accept(servers[i], x)], r) == AtServers(servers, r) + One(x == r)
    {
      AcceptKeeps(servers[i], x, r);
      UpdateServer(servers, i, Accept(servers[i], x), r);
    }
    AcceptKeeps(servers[i], x, x);
  }

  lemma Answer(servers: seq<Server>, i: nat)
    requires i < |servers| && ServersOk(servers) && servers[i].executing.Some?
    ensures ServersOk(servers[i := Replied(servers[i])])
    ensures forall r ::
        AtServers(servers, r) == AtServers(servers[i := Replied(servers[i])], r) + One(servers[i].executing.value == r)
  {
    forall r
      ensures AtServers(servers, r) ==
          AtServers(servers[i := Replied(servers[i])], r) + One(servers[i].executing.value == r)
    {
      ReplyKeeps(servers[i], r);
      UpdateServer(servers, i, Replied(servers[i]), r);
    }
    ReplyKeeps(servers[i], servers[i].executing.value);
  }

  /** Start, Finish and Close leave the requests a server holds as they are. */
  lemma HeldKept(servers: seq<Server>, i: nat, w: Server)
    requires i < |servers| && ServersOk(servers) && ServerOk(w) && Held(w) == Held(servers[i])
    ensures ServersOk(servers[i := w]) && forall r :: AtServers(servers[i := w], r) == AtServers(servers, r)
  {
    forall r
      ensures AtServers(servers[i := w], r) == AtServers(servers, r)
    {
      UpdateServer(servers, i, w, r);
    }
  }

  ghost predicate Inv(s: State) {
    ServersOk(s.servers) && AsyncOk(s) && SyncOk(s) && CallbacksOk(s)
  }

  // One lemma for each group of steps

  lemma IssuedIsFresh(s: State)
    requires Inv(s)
    ensures s.issued !in s.made && s.issued !in s.live && AtReplies(s.callbacks, s.issued) == 0 &&
        Places(s, s.issued) == 0
  {
    assert AtReplies(s.callbacks, s.issued) + One(s.issued in s.live) == One(s.issued in s.made);
  }

  /** "too many calls" */
  lemma RefusalKeepsInv(s: State, fid: int, n: int)
    requires Inv(s) && Enabled(s, AsyncBegin(fid, n)) && s.client.pendingAsync >= s.client.capacity
    ensures Inv(Apply(s, AsyncBegin(fid, n)))
  {
    var t := Apply(s, AsyncBegin(fid, n));
    IssuedIsFresh(s);
    forall call: nat
      ensures AtReplies(t.callbacks, call) == AtReplies(s.callbacks, call) + One(s.issued == call)
    {
      RepliesAppend(s.callbacks, RetInfo(s.issued, Err(TooManyCalls)), call);
    }
  }

  lemma BeginKeepsAsync(s: State, t: State)
    requires AsyncOk(s) && s.issued !in s.live && s.client.phase == Idle && s.client.pendingAsync < s.client.capacity
    requires t.servers == s.servers && t.live == s.live + {s.issued}
    requires t.client.phase.Sending? && t.client.phase.call == s.issued
    requires t.client == s.client.(phase := t.client.phase)
    ensures AsyncOk(t)
  {
    forall call: nat
      ensures Places(t, call) == Places(s, call) + One(s.issued == call)
    {}
  }

  lemma BeginKeepsInv(s: State, fid: int, n: int)
    requires Inv(s) && Enabled(s, AsyncBegin(fid, n)) && s.client.pendingAsync < s.client.capacity
    ensures Inv(Apply(s, AsyncBegin(fid, n)))
  {
    IssuedIsFresh(s);
    BeginKeepsAsync(s, Apply(s, AsyncBegin(fid, n)));
  }

  lemma SendKeepsInv(s: State)
    requires Inv(s) && Enabled(s, AsyncSend)
    ensures Inv(Apply(s, AsyncSend))
  {
    Hand(s.servers, s.client.server, Request(Async, s.client.phase.call));
  }

  lemma FailSendKeepsInv(s: State)
    requires Inv(s) && Enabled(s, FailSend)
    ensures Inv(Apply(s, FailSend))
  {
    forall call ensures Places(Apply(s, FailSend), call) == Places(s, call) {
      RepliesAppend(s.client.asyncRet, RetInfo(s.client.phase.call, Err(s.client.phase.error)), call);
    }
  }

  lemma DispatchKeepsInv(s: State)
    requires Inv(s) && Enabled(s, Dispatch)
    ensures Inv(Apply(s, Dispatch))
  {
    var t, ri := Apply(s, Dispatch), s.client.phase.ri;
    assert Places(s, ri.call) == One(ri.call in s.live);
    forall call: nat
      ensures AtReplies(t.callbacks, call) + One(call in t.live) == One(call in t.made)
      ensures Places(t, call) == One(call in t.live)
    {
      RepliesAppend(s.callbacks, ri, call);
      assert Places(s, call) == One(call in s.live);
    }
  }

  lemma ReplyKeepsPlaces(s: State, i: nat, call: nat)
    requires ServersOk(s.servers) && Enabled(s, Reply(i))
    ensures ServersOk(Apply(s, Reply(i)).servers)
    ensures Places(Apply(s, Reply(i)), call) == Places(s, call)
    ensures SyncPlaces(Apply(s, Reply(i)), call) == SyncPlaces(s, call)
  {
    var ri := RetInfo(s.servers[i].executing.value.call, s.servers[i].reply.value);
    Answer(s.servers, i);
    RepliesAppend(s.client.asyncRet, ri, call);
    RepliesAppend(s.client.syncRet, ri, call);
  }

  lemma ReplyKeepsInv(s: State, i: nat)
    requires Inv(s) && Enabled(s, Reply(i))
    ensures Inv(Apply(s, Reply(i)))
  {
    var t := Apply(s, Reply(i));
    forall call: nat
      ensures ServersOk(t.servers) && Places(t, call) == Places(s, call) && SyncPlaces(t, call) == SyncPlaces(s, call)
    {
      ReplyKeepsPlaces(s, i, call);
    }
    assert ServersOk(t.servers) by {
      ReplyKeepsPlaces(s, i, 0);
    }
  }

  lemma SyncSendKeepsInv(s: State)
    requires Inv(s) && Enabled(s, SyncSend)
    ensures Inv(Apply(s, SyncSend))
  {
    Hand(s.servers, s.client.server, Request(Sync, s.client.phase.call));
  }

  lemma SyncReceiveKeepsInv(s: State)
    requires Inv(s) && Enabled(s, SyncReceive)
    ensures Inv(Apply(s, SyncReceive))
  {
    assert SyncPlaces(s, s.client.syncRet[0].call) >= 1;
  }

  lemma ForeignKeepsInv(s: State, i: nat, tag: nat)
    requires Inv(s) && Enabled(s, ForeignCall(i, tag))
    ensures Inv(Apply(s, ForeignCall(i, tag)))
  {
    Hand(s.servers, i, Request(Foreign, tag));
  }

  /** A step of one server that leaves the requests it holds as they are. */
  lemma HeldKeepsInv(s: State, i: nat, w: Server, t: State)
    requires Inv(s) && i < |s.servers| && ServerOk(w) && Held(w) == Held(s.servers[i])
    requires t == s.(servers := s.servers[i := w], outcomes := t.outcomes)
    ensures Inv(t)
  {
    HeldKept(s.servers, i, w);
  }

  lemma ServerKeepsInv(s: State, step: Step)
    requires Inv(s) && Enabled(s, step) && (step.Start? || step.Finish? || step.Close?)
    ensures Inv(Apply(s, step))
  {
    var i, t := step.server, Apply(s, step);
    if step.Start? {
      StartKeeps(s.servers[i]);
    }
    HeldKeepsInv(s, i, t.servers[i], t);
  }

  /** The other steps of AsyncCall leave the call where it is. */
  lemma CallKeepsInv(s: State, step: Step)
    requires Inv(s) && Enabled(s, step) && (step.AsyncReject? || step.AsyncFull? || step.Count?)
    ensures Inv(Apply(s, step))
  {
    var t := Apply(s, step);
    forall call: nat
      ensures Places(t, call) == Places(s, call)
    {}
  }

  lemma ReceiveKeepsInv(s: State)
    requires Inv(s) && Enabled(s, Receive)
    ensures Inv(Apply(s, Receive))
  {
    var t := Apply(s, Receive);
    forall call: nat
      ensures Places(t, call) == Places(s, call)
    {}
  }

  /** Where no call is under way or a synchronous one is, moving on to another such phase leaves
      everything else where it is. */
  lemma OutsideKeepsInv(s: State, t: State)
    requires Inv(s) && OutsidePhase(s.client.phase) && OutsidePhase(t.client.phase) && t.issued >= s.issued
    requires t.client == s.client.(server := t.client.server, phase := t.client.phase)
    requires t == s.(client := t.client, issued := t.issued, syncReturns := t.syncReturns, outcomes := t.outcomes)
    ensures Inv(t)
  {
    forall call: nat
      ensures Places(t, call) == Places(s, call)
    {}
  }

  predicate OutsidePhase(p: Phase) { p == Idle || p.SyncSending? }

  lemma OutsideStep(s: State, step: Step)
    requires Inv(s) && Enabled(s, step) && (step.Attach? || step.SyncBegin? || step.SyncClosed?)
    ensures Inv(Apply(s, step))
  {
    OutsideKeepsInv(s, Apply(s, step));
  }

  lemma StepKeepsInv(s: State, step: Step)
    requires Inv(s) && Enabled(s, step)
    ensures Inv(Apply(s, step))
  {
    match step
    case AsyncBegin(fid, n) =>
      if s.client.pendingAsync >= s.client.capacity {
        RefusalKeepsInv(s, fid, n);
      } else {
        BeginKeepsInv(s, fid, n);
      }
    case AsyncSend => SendKeepsInv(s);
    case FailSend => FailSendKeepsInv(s);
    case Dispatch => DispatchKeepsInv(s);
    case Reply(i) => ReplyKeepsInv(s, i);
    case SyncSend => SyncSendKeepsInv(s);
    case SyncReceive => SyncReceiveKeepsInv(s);
    case ForeignCall(i, tag) => ForeignKeepsInv(s, i, tag);
    case Start(_) => ServerKeepsInv(s, step);
    case Finish(_, _) => ServerKeepsInv(s, step);
    case Close(_) => ServerKeepsInv(s, step);
    case AsyncReject => CallKeepsInv(s, step);
    case AsyncFull => CallKeepsInv(s, step);
    case Count => CallKeepsInv(s, step);
    case Receive => ReceiveKeepsInv(s);
    case _ => OutsideStep(s, step);
  }
}
