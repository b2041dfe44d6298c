/** What holds in every run of the channel RPC machine. */
module ChanRpcRuns {
  import opened Wrappers
  import opened ChanRpc

  // Results belong to the request of the call that gets them

  ghost predicate Known(outcomes: map<nat, Outcome>, ri: RetInfo) {
    ri.call in outcomes && outcomes[ri.call] == ri.outcome
  }

  ghost predicate AllKnown(outcomes: map<nat, Outcome>, rets: seq<RetInfo>) {
    forall i | 0 <= i < |rets| :: Known(outcomes, rets[i])
  }

  ghost predicate ReplyKnown(outcomes: map<nat, Outcome>, v: Server) {
    v.reply.Some? && v.executing.Some? && v.executing.value.kind != Foreign ==>
      Known(outcomes, RetInfo(v.executing.value.call, v.reply.value))
  }

  ghost predicate RepliesKnown(outcomes: map<nat, Outcome>, servers: seq<Server>) {
    forall i | 0 <= i < |servers| :: ReplyKnown(outcomes, servers[i])
  }

  /** Wherever a result is, it is the one recorded for its call. */
  ghost predicate OutcomesOk(s: State) {
    && AllKnown(s.outcomes, s.client.asyncRet) && AllKnown(s.outcomes, s.client.syncRet)
    && AllKnown(s.outcomes, s.callbacks) && AllKnown(s.outcomes, s.syncReturns)
    && (s.client.phase.Received? ==> Known(s.outcomes, s.client.phase.ri))
    && RepliesKnown(s.outcomes, s.servers)
  }

  predicate InSyncCall(p: Phase) { p.SyncSending? || p.SyncWaiting? }

  /** Synchronous calls are not asynchronous ones, and return once. */
  ghost predicate SyncIdsOk(s: State) {
    && (forall call: nat ::
        AtReplies(s.syncReturns, call) > 0 ==>
            call < s.issued && call !in s.made && AtReplies(s.syncReturns, call) == 1)
    && (InSyncCall(s.client.phase) ==>
          s.client.phase.call < s.issued && s.client.phase.call !in s.made &&
              AtReplies(s.syncReturns, s.client.phase.call) == 0)
  }

  /** No result for the call is anywhere yet. */
  ghost predicate NoResult(s: State, call: nat) {
    && AtReplies(s.client.asyncRet, call) == 0 && AtReplies(s.client.syncRet, call) == 0
    && AtReplies(s.callbacks, call) == 0 && AtReplies(s.syncReturns, call) == 0
    && (s.client.phase.Received? ==> s.client.phase.ri.call != call)
    && forall i | 0 <= i < |s.servers| :: NoReplyFor(s.servers[i], call)
  }

  predicate NoReplyFor(v: Server, call: nat) {
    v.reply.Some? && v.executing.Some? && v.executing.value.kind != Foreign ==> v.executing.value.call != call
  }

  lemma {:induction false} NotMentioned(rets: seq<RetInfo>, call: nat)
    requires AtReplies(rets, call) == 0
    ensures forall i | 0 <= i < |rets| :: rets[i].call != call
  {
    if rets != [] {
      NotMentioned(rets[1..], call);
      assert forall i | 0 < i < |rets| :: rets[i] == rets[1..][i - 1];
    }
  }

  lemma {:induction false} Mentioned(rets: seq<RetInfo>, i: nat)
    requires i < |rets|
    ensures AtReplies(rets, rets[i].call) > 0
  {
    if i > 0 { Mentioned(rets[1..], i - 1); }
  }

  /** Recording the outcome of a call that has no result anywhere disturbs no other result. */
  lemma Record(s: State, call: nat, outcome: Outcome)
    requires OutcomesOk(s) && NoResult(s, call)
    ensures OutcomesOk(s.(outcomes := s.outcomes[call := outcome]))
  {
    NotMentioned(s.client.asyncRet, call);
    NotMentioned(s.client.syncRet, call);
    NotMentioned(s.callbacks, call);
    NotMentioned(s.syncReturns, call);
  }

  /** A request that some server holds. */
  lemma HeldIsPlaced(s: State, i: nat, r: Request)
    requires i < |s.servers| && r in Held(s.servers[i])
    ensures AtServers(s.servers, r) > 0
  {
    UpdateServer(s.servers, i, s.servers[i], r);
    InCounted(Held(s.servers[i]), r);
  }

  lemma {:induction false} InCounted(reqs: seq<Request>, r: Request)
    requires r in reqs
    ensures CountIn(reqs, r) > 0
  {
    if reqs[0] != r { InCounted(reqs[1..], r); }
  }

  /** Two servers holding the same request count twice. */
  lemma HeldTwice(servers: seq<Server>, i: nat, j: nat, r: Request)
    requires i < |servers| && j < |servers| && i != j && r in Held(servers[i]) && r in Held(servers[j])
    ensures AtServers(servers, r) >= 2
  {
    var emptied := servers[i].(queue := [], executing := None);
    var others := servers[i := emptied];
    UpdateServer(servers, i, emptied, r);
    UpdateServer(others, j, others[j], r);
    InCounted(Held(servers[i]), r);
    InCounted(Held(others[j]), r);
  }

  // Before an outcome is recorded there is no result for the call

  lemma FreshHasNoResult(s: State)
    requires Inv(s) && SyncIdsOk(s)
    ensures NoResult(s, s.issued)
  {
    var call := s.issued;
    assert call !in s.made;
    assert AtReplies(s.callbacks, call) + One(call in s.live) == 0;
    assert Places(s, call) == 0 && SyncPlaces(s, call) == 0;
    forall i | 0 <= i < |s.servers|
      ensures NoReplyFor(s.servers[i], call)
    {
      NotHeldNoReply(s, i, call);
    }
  }

  lemma NotHeldNoReply(s: State, i: nat, call: nat)
    requires i < |s.servers| && AtServers(s.servers, Request(Async, call)) == 0 &&
        AtServers(s.servers, Request(Sync, call)) == 0
    ensures NoReplyFor(s.servers[i], call)
  {
    var v := s.servers[i];
    if !NoReplyFor(v, call) {
      assert v.executing.value in Held(v);
      HeldIsPlaced(s, i, v.executing.value);
    }
  }

  lemma FailingHasNoResult(s: State)
    requires Inv(s) && SyncIdsOk(s) && s.client.phase.Failing?
    ensures NoResult(s, s.client.phase.call)
  {
    var call := s.client.phase.call;
    assert Places(s, call) == 1 && call in s.live;
    assert AtReplies(s.callbacks, call) + One(call in s.live) == One(call in s.made);
    assert SyncPlaces(s, call) == 0;
    forall i | 0 <= i < |s.servers|
      ensures NoReplyFor(s.servers[i], call)
    {
      NotHeldNoReply(s, i, call);
    }
  }

  lemma SyncSendingHasNoResult(s: State)
    requires Inv(s) && SyncIdsOk(s) && s.client.phase.SyncSending?
    ensures NoResult(s, s.client.phase.call)
  {
    var call := s.client.phase.call;
    assert AtReplies(s.callbacks, call) + One(call in s.live) == 0;
    assert Places(s, call) == 0 && SyncPlaces(s, call) == 0;
    forall i | 0 <= i < |s.servers|
      ensures NoReplyFor(s.servers[i], call)
    {
      NotHeldNoReply(s, i, call);
    }
  }

  lemma ExecutingHasNoResult(s: State, i: nat)
    requires Inv(s) && SyncIdsOk(s) && i < |s.servers|
    requires s.servers[i].executing.Some? && s.servers[i].reply == None && s.servers[i].executing.value.kind != Foreign
    ensures NoResult(s, s.servers[i].executing.value.call)
  {
    var r := s.servers[i].executing.value;
    var call := r.call;
    assert r in Held(s.servers[i]);
    HeldIsPlaced(s, i, r);
    assert Places(s, call) == One(call in s.live) && SyncPlaces(s, call) == One(s.client.phase == SyncWaiting(call));
    assert AtReplies(s.callbacks, call) + One(call in s.live) == One(call in s.made);
    assert AtServers(s.servers, r) == 1;
    forall j | 0 <= j < |s.servers|
      ensures NoReplyFor(s.servers[j], call)
    {
      if j != i {
        NotExecutedTwice(s, i, j);
      }
    }
  }

  lemma NotExecutedTwice(s: State, i: nat, j: nat)
    requires Inv(s) && SyncIdsOk(s) && i < |s.servers| && j < |s.servers| && i != j
    requires s.servers[i].executing.Some? && s.servers[i].executing.value.kind != Foreign
    ensures NoReplyFor(s.servers[j], s.servers[i].executing.value.call)
  {
    var r, w := s.servers[i].executing.value, s.servers[j];
    assert r in Held(s.servers[i]);
    HeldIsPlaced(s, i, r);
    if !NoReplyFor(w, r.call) {
      assert w.executing.value in Held(w);
      HeldIsPlaced(s, j, w.executing.value);
      assert Places(s, r.call) == One(r.call in s.live);
      assert SyncPlaces(s, r.call) == One(s.client.phase == SyncWaiting(r.call));
      assert AtReplies(s.callbacks, r.call) + One(r.call in s.live) == One(r.call in s.made);
      assert w.executing.value == r;
      HeldTwice(s.servers, i, j, r);
    }
  }

  ghost predicate Full(s: State) {
    Inv(s) && SyncIdsOk(s) && OutcomesOk(s)
  }

  /** A synchronous call that has not returned yet does so. */
  lemma ReturnKeepsIds(s: State, ri: RetInfo, t: State)
    requires SyncIdsOk(s) && t.syncReturns == s.syncReturns + [ri] && AtReplies(s.syncReturns, ri.call) == 0
    requires s.issued <= t.issued && t.made == s.made && ri.call < t.issued && ri.call !in t.made
    requires !InSyncCall(t.client.phase)
    ensures SyncIdsOk(t)
  {
    forall call: nat
      ensures AtReplies(t.syncReturns, call) == AtReplies(s.syncReturns, call) + One(ri.call == call)
    {
      RepliesAppend(s.syncReturns, ri, call);
    }
  }

  lemma SyncReturnKeepsIds(s: State, step: Step)
    requires Inv(s) && SyncIdsOk(s) && Enabled(s, step) && (step.SyncBegin? || step.SyncClosed? || step.SyncReceive?)
    ensures SyncIdsOk(Apply(s, step))
  {
    var t := Apply(s, step);
    assert s.issued !in s.made && AtReplies(s.syncReturns, s.issued) == 0;
    if |t.syncReturns| > |s.syncReturns| {
      ReturnKeepsIds(s, t.syncReturns[|s.syncReturns|], t);
    }
  }

  lemma SyncIdsOkStep(s: State, step: Step)
    requires Inv(s) && SyncIdsOk(s) && Enabled(s, step)
    ensures SyncIdsOk(Apply(s, step))
  {
    if step.SyncBegin? || step.SyncClosed? || step.SyncReceive? {
      SyncReturnKeepsIds(s, step);
    } else {
      SyncFrame(s, step);
      SyncFrameKeepsIds(s, Apply(s, step));
    }
  }

  ghost predicate SameSync(s: State, t: State) {
    && t.syncReturns == s.syncReturns && t.issued >= s.issued
    && (t.made == s.made || (t.made == s.made + {s.issued} && !InSyncCall(t.client.phase)))
    && (InSyncCall(t.client.phase) ==> InSyncCall(s.client.phase) && t.client.phase.call == s.client.phase.call)
  }

  lemma SyncFrame(s: State, step: Step)
    requires Enabled(s, step) && !step.SyncBegin? && !step.SyncClosed? && !step.SyncReceive?
    ensures SameSync(s, Apply(s, step))
  {}

  lemma SyncFrameKeepsIds(s: State, t: State)
    requires SyncIdsOk(s) && SameSync(s, t)
    ensures SyncIdsOk(t)
  {
    assert AtReplies(s.syncReturns, s.issued) == 0;
  }

  // The steps that record an outcome do so for a call without results

  lemma BeginKeepsOutcomes(s: State, fid: int, n: int)
    requires Full(s) && Enabled(s, AsyncBegin(fid, n))
    ensures OutcomesOk(Apply(s, AsyncBegin(fid, n)))
  {
    FreshHasNoResult(s);
    Record(s, s.issued, Err(TooManyCalls));
  }

  lemma FailSendKeepsOutcomes(s: State)
    requires Full(s) && Enabled(s, FailSend)
    ensures OutcomesOk(Apply(s, FailSend))
  {
    FailingHasNoResult(s);
    Record(s, s.client.phase.call, Err(s.client.phase.error));
  }

  lemma SyncRecordKeepsOutcomes(s: State, step: Step)
    requires Full(s) && Enabled(s, step) && (step.SyncBegin? || step.SyncClosed?)
    ensures OutcomesOk(Apply(s, step))
  {
    if step.SyncBegin? {
      FreshHasNoResult(s);
      var error := LookupError(s, step.fid, step.n);
      if error.Some? {
        Record(s, s.issued, Err(error.value));
      }
    } else {
      SyncSendingHasNoResult(s);
      Record(s, s.client.phase.call, Err(ServerClosed));
    }
  }

  lemma FinishKeepsOutcomes(s: State, i: nat, outcome: Outcome)
    requires Full(s) && Enabled(s, Finish(i, outcome))
    ensures OutcomesOk(Apply(s, Finish(i, outcome)))
  {
    var r := s.servers[i].executing.value;
    if r.kind != Foreign {
      ExecutingHasNoResult(s, i);
      Record(s, r.call, outcome);
    }
  }

  lemma ReplyKeepsOutcomes(s: State, i: nat)
    requires Full(s) && Enabled(s, Reply(i))
    ensures OutcomesOk(Apply(s, Reply(i)))
  {
    assert ReplyKnown(s.outcomes, s.servers[i]);
  }

  lemma SyncReceiveKeepsOutcomes(s: State)
    requires Full(s) && Enabled(s, SyncReceive)
    ensures OutcomesOk(Apply(s, SyncReceive))
  {
    OwnReply(s);
    assert Known(s.outcomes, s.client.syncRet[0]);
  }

  /** What a synchronous caller receives is the reply to its own call, and the only one there. */
  lemma OwnReply(s: State)
    requires Inv(s) && s.client.phase.SyncWaiting? && s.client.syncRet != []
    ensures |s.client.syncRet| == 1 && s.client.syncRet[0].call == s.client.phase.call
  {
    forall call: nat ensures AtReplies(s.client.syncRet, call) <= One(call == s.client.phase.call) {
      assert SyncPlaces(s, call) == One(s.client.phase == SyncWaiting(call));
    }
    AtMostOneReply(s.client.syncRet, s.client.phase.call);
  }

  lemma AtMostOneReply(rets: seq<RetInfo>, call: nat)
    requires forall c: nat :: AtReplies(rets, c) <= One(c == call)
    ensures |rets| <= 1 && (rets != [] ==> rets[0].call == call)
  {
    if rets != [] {
      Mentioned(rets, 0);
    }
    RepliesFit(rets, {call});
  }

  lemma OutcomesOkStep(s: State, step: Step)
    requires Full(s) && Enabled(s, step)
    ensures OutcomesOk(Apply(s, step))
  {
    match step
    case Finish(i, outcome) => FinishKeepsOutcomes(s, i, outcome);
    case Reply(i) => ReplyKeepsOutcomes(s, i);
    case SyncReceive => SyncReceiveKeepsOutcomes(s);
    case AsyncBegin(fid, n) => BeginKeepsOutcomes(s, fid, n);
    case FailSend => FailSendKeepsOutcomes(s);
    case SyncBegin(_, _) => SyncRecordKeepsOutcomes(s, step);
    case SyncClosed => SyncRecordKeepsOutcomes(s, step);
    case _ =>
  }

  lemma StepKeepsFull(s: State, step: Step)
    requires Full(s) && Enabled(s, step)
    ensures Full(Apply(s, step))
  {
    StepKeepsInv(s, step);
    SyncIdsOkStep(s, step);
    OutcomesOkStep(s, step);
  }

  lemma {:induction false} RunKeepsFull(s: State, steps: seq<Step>, t: State)
    requires Full(s) && IsRun(s, steps, t)
    ensures Full(t)
    decreases |steps|
  {
    if steps != [] {
      StepKeepsFull(s, steps[0]);
      RunKeepsFull(Apply(s, steps[0]), steps[1..], t);
    }
  }

  lemma {:induction false} NothingAtNewServers(servers: seq<Server>, r: Request)
    requires forall i | 0 <= i < |servers| :: NewServer(servers[i])
    ensures AtServers(servers, r) == 0
  {
    if servers != [] {
      NothingAtNewServers(servers[1..], r);
      assert NewServer(servers[0]);
    }
  }

  lemma InitialIsFull(s: State)
    requires Initial(s)
    ensures Full(s)
  {
    forall r ensures AtServers(s.servers, r) == 0 {
      NothingAtNewServers(s.servers, r);
    }
  }

  // Main results.  Each is about every state t that any run from an initial state can reach.

  ghost predicate Reachable(s: State, steps: seq<Step>, t: State) {
    Initial(s) && IsRun(s, steps, t)
  }

  /** Every asynchronous call has its callback invoked at most once, and not while it is live; the
      calls made are those called back and those that pendingAsync counts; and each callback gets
      the recorded outcome of its own request. */
  lemma CallbacksAccountedFor(s: State, steps: seq<Step>, t: State)
    requires Reachable(s, steps, t)
    ensures |t.made| == |t.callbacks| + t.client.pendingAsync + One(InsideAsyncCall(t.client.phase))
    ensures forall call: nat :: AtReplies(t.callbacks, call) == if call in t.made && call !in t.live then 1 else 0
    ensures AllKnown(t.outcomes, t.callbacks) && AllKnown(t.outcomes, t.syncReturns)
  {
    InitialIsFull(s);
    RunKeepsFull(s, steps, t);
    forall call: nat
      ensures AtReplies(t.callbacks, call) == if call in t.made && call !in t.live then 1 else 0
    {
      assert AtReplies(t.callbacks, call) + One(call in t.live) == One(call in t.made);
    }
  }

  /** A live call is in exactly one place, whatever servers the client is attached to in turn. */
  lemma LiveCallsInOnePlace(s: State, steps: seq<Step>, t: State)
    requires Reachable(s, steps, t)
    ensures forall call: nat :: Places(t, call) == One(call in t.live)
    ensures |t.live| == t.client.pendingAsync + One(InsideAsyncCall(t.client.phase)) <= t.client.capacity
  {
    InitialIsFull(s);
    RunKeepsFull(s, steps, t);
  }

  lemma {:induction false} RepliesFit(rets: seq<RetInfo>, live: set<nat>)
    requires forall call: nat :: AtReplies(rets, call) <= One(call in live)
    ensures |rets| <= |live|
  {
    if rets != [] {
      var call := rets[0].call;
      assert AtReplies(rets, call) >= 1;
      forall c: nat ensures AtReplies(rets[1..], c) <= One(c in live - {call}) {
        assert AtReplies(rets, c) <= One(c in live);
      }
      RepliesFit(rets[1..], live - {call});
    }
  }

  /** While a call is somewhere else, ChanAsyncRet has room for its reply. */
  lemma RoomFor(s: State, call: nat)
    requires AsyncOk(s) && Places(s, call) > AtReplies(s.client.asyncRet, call)
    ensures |s.client.asyncRet| < s.client.capacity
  {
    assert Places(s, call) == One(call in s.live);
    forall c: nat ensures AtReplies(s.client.asyncRet, c) <= One(c in s.live - {call}) {
      assert Places(s, c) == One(c in s.live);
    }
    RepliesFit(s.client.asyncRet, s.live - {call});
  }

  /** No send to ChanAsyncRet or ChanSyncRet ever blocks: neither a server that replies, nor the
      client when it reports an error to itself. */
  lemma NoSendBlocks(s: State, steps: seq<Step>, t: State)
    requires Reachable(s, steps, t)
    ensures t.client.phase.Failing? ==> Enabled(t, FailSend)
    ensures forall i: nat | i < |t.servers| && t.servers[i].reply.Some? :: Enabled(t, Reply(i))
  {
    InitialIsFull(s);
    RunKeepsFull(s, steps, t);
    if t.client.phase.Failing? {
      RoomFor(t, t.client.phase.call);
    }
    forall i: nat | i < |t.servers| && t.servers[i].reply.Some?
      ensures Enabled(t, Reply(i))
    {
      ReplyNotBlocked(t, i);
    }
  }

  lemma ReplyNotBlocked(t: State, i: nat)
    requires Inv(t) && i < |t.servers| && t.servers[i].reply.Some?
    ensures Enabled(t, Reply(i))
  {
    var r := t.servers[i].executing.value;
    assert ServerOk(t.servers[i]) && r in Held(t.servers[i]);
    HeldIsPlaced(t, i, r);
    if r.kind == Async {
      RoomFor(t, r.call);
    } else if r.kind == Sync && t.client.syncRet != [] {
      SyncRetEmptyWhileHeld(t, r);
    }
  }

  lemma SyncRetEmptyWhileHeld(t: State, r: Request)
    requires SyncOk(t) && r.kind == Sync && AtServers(t.servers, r) > 0
    ensures t.client.syncRet == []
  {
    assert SyncPlaces(t, r.call) == One(t.client.phase == SyncWaiting(r.call));
    if t.client.syncRet != [] {
      var n := SyncPlaces(t, t.client.syncRet[0].call);
      assert false;
    }
  }

  /** Between synchronous calls ChanSyncRet is empty, and during one it holds at most its reply. */
  lemma SyncCallsGetOwnReply(s: State, steps: seq<Step>, t: State)
    requires Reachable(s, steps, t)
    ensures !t.client.phase.SyncWaiting? ==> t.client.syncRet == []
    ensures t.client.phase.SyncWaiting? && t.client.syncRet != [] ==>
              |t.client.syncRet| == 1 && t.client.syncRet[0].call == t.client.phase.call &&
                  Known(t.outcomes, t.client.syncRet[0])
  {
    InitialIsFull(s);
    RunKeepsFull(s, steps, t);
    if t.client.syncRet != [] {
      var call := t.client.syncRet[0].call;
      assert SyncPlaces(t, call) == One(t.client.phase == SyncWaiting(call));
      OwnReply(t);
    }
  }

  /** For each server the executed requests are a prefix of the accepted ones; a server that holds
      nothing has executed all of them, and one that is closed accepts no more. */
  lemma ExecutedInOrder(s: State, steps: seq<Step>, t: State, i: nat)
    requires Reachable(s, steps, t) && i < |t.servers|
    ensures var v := t.servers[i];
            && v.executed <= |v.accepted| && v.accepted[v.executed..] == Held(v)
            && (v.queue == [] && v.executing == None ==> v.executed == |v.accepted|)
            && (v.closed ==> !CanAccept(v))
  {
    InitialIsFull(s);
    RunKeepsFull(s, steps, t);
    assert ServerOk(t.servers[i]);
  }

  /** A closed server stays closed and accepts nothing more, so that once it holds nothing it has
      executed every request it ever accepted, and remains so. */
  lemma {:induction false} ClosedForGood(s: State, steps: seq<Step>, t: State, i: nat)
    requires ServersOk(s.servers) && IsRun(s, steps, t) && i < |s.servers| && s.servers[i].closed
    ensures |t.servers| == |s.servers| && t.servers[i].closed && t.servers[i].accepted == s.servers[i].accepted
    ensures Held(s.servers[i]) == [] ==> Held(t.servers[i]) == []
    decreases |steps|
  {
    if steps != [] {
      ClosedStep(s, steps[0], i);
      ClosedForGood(Apply(s, steps[0]), steps[1..], t, i);
    }
  }

  lemma ClosedStep(s: State, step: Step, i: nat)
    requires ServersOk(s.servers) && Enabled(s, step) && i < |s.servers| && s.servers[i].closed
    ensures var t := Apply(s, step);
            && ServersOk(t.servers) && |t.servers| == |s.servers| && t.servers[i].closed
            && t.servers[i].accepted == s.servers[i].accepted && (Held(s.servers[i]) == [] ==> Held(t.servers[i]) == [])
  {
    ServersStep(s, step);
    match step
    case Start(j) => StartKeeps(s.servers[j]);
    case _ =>
  }

  lemma ServersStep(s: State, step: Step)
    requires ServersOk(s.servers) && Enabled(s, step)
    ensures ServersOk(Apply(s, step).servers) && |Apply(s, step).servers| == |s.servers|
  {
    match step
    case AsyncSend => Hand(s.servers, s.client.server, Request(Async, s.client.phase.call));
    case SyncSend => Hand(s.servers, s.client.server, Request(Sync, s.client.phase.call));
    case ForeignCall(j, tag) => Hand(s.servers, j, Request(Foreign, tag));
    case Start(j) => StartKeeps(s.servers[j]);
    case Finish(j, outcome) => assert Held(s.servers[j].(reply := Some(outcome))) == Held(s.servers[j]);
    case Reply(j) => Answer(s.servers, j);
    case Close(j) => assert Held(s.servers[j].(closed := true)) == Held(s.servers[j]);
    case _ =>
  }

  /** While calls are pending and the client is ready to receive, as in Close, the client can
      receive a reply or some server can take a step that is not a new call. */
  lemma CloseCanProceed(s: State, steps: seq<Step>, t: State)
    requires Reachable(s, steps, t) && t.client.phase == Idle && t.client.pendingAsync > 0
    ensures Enabled(t, Receive) || exists i: nat | i < |t.servers| :: CanServe(t, i)
  {
    InitialIsFull(s);
    RunKeepsFull(s, steps, t);
    assert t.live != {};
    var call :| call in t.live;
    assert Places(t, call) == 1;
    if t.client.asyncRet == [] {
      var i := Holder(t.servers, Request(Async, call));
      HolderCanServe(t, i);
    }
  }

  lemma HolderCanServe(t: State, i: nat)
    requires Inv(t) && i < |t.servers| && Held(t.servers[i]) != []
    ensures CanServe(t, i)
  {
    if t.servers[i].reply.Some? {
      ReplyNotBlocked(t, i);
    }
  }

  /** The server can start a request, finish the one it executes, or reply to it. */
  ghost predicate CanServe(t: State, i: nat) {
    Enabled(t, Start(i)) || Enabled(t, Finish(i, Ok(0))) || Enabled(t, Reply(i))
  }

  lemma {:induction false} Holder(servers: seq<Server>, r: Request) returns (i: nat)
    requires AtServers(servers, r) > 0
    ensures i < |servers| && Held(servers[i]) != []
  {
    if CountIn(Held(servers[0]), r) > 0 {
      i := 0;
    } else {
      i := Holder(servers[1..], r);
      i := i + 1;
    }
  }
}
