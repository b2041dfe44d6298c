/** The write queue of a TCP connection, its writer goroutine and the ways of closing it
    (network/tcp_conn.go), as a machine whose steps are the channel and socket operations.

    Testing closeFlag and then closing it is one step. */
module TcpConn {
  import opened Ints
  import opened PkgParser

  /** An element of writeChan: the frame of a message, other bytes, or the nil that asks the writer to
      stop. */
  datatype Packet = Nil | Data(msg: Bytes) | Raw(bytes: Bytes)

  datatype Writer =
    | Waiting                    // receiving from writeChan
    | Writing(packet: Packet)    // in conn.Write
    | Left                       // out of the loop, about to close closeFlag
    | Closing                    // about to close the socket
    | Gone

  /** The goroutine that closed closeFlag in Close or Destroy; there is at most one. */
  datatype Closer = NoCloser | InClose | InDestroy | ClosingSocket | Returned

  datatype State = State(
    capacity: nat,
    queue: seq<Packet>,
    closeFlag: bool,
    socketOpen: bool,
    writer: Writer,
    closer: Closer,
    // history
    entered: seq<Packet>,    // everything ever sent to writeChan
    taken: nat,              // how much of it the writer has received
    wire: Bytes,             // what conn.Write has passed to the network
    writeFailed: bool,       // a write failed
    socketError: bool,       // it did although nobody had closed the socket
    outsideClose: bool,      // the socket was closed by other means than this connection
    sentinel: int            // where Close put its nil, or -1
  )

  function Init(capacity: nat): State {
    State(capacity, [], false, true, Waiting, NoCloser, [], 0, [], false, false, false, -1)
  }

  datatype Step =
    | WriteMsg(msg: Bytes)            // a message is accepted and its frame sent to writeChan
    | Write(bytes: Bytes)             // other bytes are: by TCPConn.Write, or the cut frame of a message of 2^32 bytes
    | CloseFlag                       // Close finds closeFlag open and closes it
    | CloseSend | CloseFull           // Close sends nil, or closes the socket
    | DestroyFlag
    | DestroySend | DestroyFull | DestroySocket
    | Take | Wrote | Failed(count: nat) | LeaveFlag | LeaveSocket
    | OutsideClose

  /** A send succeeds when the buffer has room, or hands over to a waiting receiver. */
  predicate CanSend(s: State) {
    |s.queue| < s.capacity || (s.queue == [] && s.writer.Waiting?)
  }

  /** The bytes of an element. */
  function BytesOf(f: Format, p: Packet): Bytes {
    match p
    case Nil => []
    case Data(msg) => Frame(f, msg)
    case Raw(bytes) => bytes
  }

  predicate Enabled(f: Format, s: State, step: Step) {
    match step
    case WriteMsg(msg) => Accepts(f, msg) && f.byteLen + |msg| < UINT32_SIZE && CanSend(s)
    case Write(bytes) => bytes != [] && CanSend(s)
    case CloseFlag => !s.closeFlag
    case DestroyFlag => !s.closeFlag
    case CloseSend => s.closer.InClose? && CanSend(s)
    case CloseFull => s.closer.InClose? && |s.queue| >= s.capacity
    case DestroySend => s.closer.InDestroy? && CanSend(s)
    case DestroyFull => s.closer.InDestroy? && |s.queue| >= s.capacity
    case DestroySocket => s.closer.ClosingSocket?
    case Take => s.writer.Waiting? && s.queue != []
    case Wrote => s.writer.Writing? && s.socketOpen
    case Failed(count) => s.writer.Writing? && count < |BytesOf(f, s.writer.packet)|
    case LeaveFlag => s.writer.Left?
    case LeaveSocket => s.writer.Closing?
    case OutsideClose => s.socketOpen
  }

  function Send(s: State, p: Packet): State {
    s.(queue := s.queue + [p], entered := s.entered + [p])
  }

  function Apply(f: Format, s: State, step: Step): State
    requires Enabled(f, s, step)
  {
    match step
    case WriteMsg(msg) => Send(s, Data(msg))
    case Write(bytes) => Send(s, Raw(bytes))
    case CloseFlag => s.(closeFlag := true, closer := InClose)
    case DestroyFlag => s.(closeFlag := true, closer := InDestroy)
    case CloseSend => Send(s, Nil).(closer := Returned, sentinel := |s.entered|)
    case CloseFull => s.(closer := Returned, socketOpen := false)
    case DestroySend => Send(s, Nil).(closer := ClosingSocket)
    case DestroyFull => s.(closer := ClosingSocket)
    case DestroySocket => s.(closer := Returned, socketOpen := false)
    case Take =>
      s.(queue := s.queue[1..], taken := s.taken + 1, writer := if s.queue[0] == Nil then Left else Writing(s.queue[0]))
    case Wrote => s.(wire := s.wire + BytesOf(f, s.writer.packet), writer := Waiting)
    case Failed(count) =>
      s.(wire := s.wire + BytesOf(f, s.writer.packet)[..count], writer := Left, writeFailed := true,
          socketError := s.socketError || s.socketOpen)
    case LeaveFlag => s.(closeFlag := true, writer := Closing)
    case LeaveSocket => s.(socketOpen := false, writer := Gone)
    case OutsideClose => s.(socketOpen := false, outsideClose := true)
  }

  ghost predicate IsRun(f: Format, s: State, steps: seq<Step>, t: State)
    decreases |steps|
  {
    if steps == [] then s == t
    else Enabled(f, s, steps[0]) && IsRun(f, Apply(f, s, steps[0]), steps[1..], t)
  }

  /** The messages among packets. */
  function Msgs(packets: seq<Packet>): seq<Bytes> {
    if packets == [] then []
    else
      var last := packets[|packets| - 1];
      Msgs(packets[..|packets| - 1]) + if last.Data? then [last.msg] else []
  }

  /** Their bytes, one after the other. */
  function Stream(f: Format, packets: seq<Packet>): Bytes {
    if packets == [] then []
    else Stream(f, packets[..|packets| - 1]) + BytesOf(f, packets[|packets| - 1])
  }

  // The invariant

  ghost predicate NoNil(packets: seq<Packet>) {
    Nil !in packets
  }

  ghost predicate QueueOk(s: State) {
    s.taken <= |s.entered| && s.queue == s.entered[s.taken..]
  }

  ghost predicate EnteredOk(f: Format, s: State) {
    forall p | p in s.entered :: (p.Data? ==> Accepts(f, p.msg)) && (p.Raw? ==> p.bytes != [])
  }

  /** What is on the wire, by the writer's position. */
  ghost predicate WireOk(f: Format, s: State)
    requires s.taken <= |s.entered|
  {
    var got := s.entered[..s.taken];
    match s.writer
    case Waiting => NoNil(got) && s.wire == Stream(f, got)
    case Writing(p) => NoNil(got) && got != [] && got[|got| - 1] == p && s.wire == Stream(f, got[..|got| - 1])
    case _ =>
      || (got != [] && got[|got| - 1] == Nil && NoNil(got[..|got| - 1]) && s.wire == Stream(f, got[..|got| - 1]))
      || (s.wire <= Stream(f, got) && s.writeFailed)
  }

  /** Only Close and Destroy send a nil, once. */
  ghost predicate CloserOk(s: State) {
    && (s.closer.NoCloser? || s.closer.InClose? || s.closer.InDestroy? ==> NoNil(s.entered) && s.sentinel == -1)
    && (!s.closer.NoCloser? ==> s.closeFlag)
    && (s.sentinel != -1 ==>
          && s.closer.Returned?
          && 0 <= s.sentinel < |s.entered| && s.entered[s.sentinel] == Nil
          && forall i | 0 <= i < |s.entered| && i != s.sentinel :: s.entered[i] != Nil)
    && (!s.socketOpen && !s.writer.Gone? ==> ClosedByOthers(s))
    && (s.writeFailed && !s.socketError ==> ClosedByOthers(s))
    && (s.writer.Gone? ==> !s.socketOpen)
  }

  /** Somebody other than the writer closed the socket: from outside, or Close and Destroy without
      leaving it to the writer. */
  ghost predicate ClosedByOthers(s: State) {
    s.outsideClose || (s.closer.Returned? && s.sentinel == -1)
  }

  ghost predicate Inv(f: Format, s: State) {
    QueueOk(s) && EnteredOk(f, s) && WireOk(f, s) && CloserOk(s)
  }

  lemma StreamAppend(f: Format, packets: seq<Packet>, p: Packet)
    ensures Stream(f, packets + [p]) == Stream(f, packets) + BytesOf(f, p)
  {
    assert (packets + [p])[..|packets|] == packets;
  }

  lemma LeaveKeepsWire(f: Format, s: State, t: State)
    requires s.taken <= |s.entered| && WireOk(f, s)
    requires t.entered == s.entered && t.taken == s.taken && t.wire == s.wire && t.writeFailed == s.writeFailed
    requires t.writer == s.writer || (HasLeft(s.writer) && HasLeft(t.writer))
    ensures WireOk(f, t)
  {}

  predicate HasLeft(w: Writer) { w.Left? || w.Closing? || w.Gone? }

  lemma TakeKeepsCloser(f: Format, s: State)
    requires CloserOk(s) && Enabled(f, s, Take)
    ensures CloserOk(Apply(f, s, Take))
  {}

  lemma TakeKeepsInv(f: Format, s: State)
    requires Inv(f, s) && Enabled(f, s, Take)
    ensures Inv(f, Apply(f, s, Take))
  {
    var t := Apply(f, s, Take);
    TakeKeepsQueue(s, t);
    TakeKeepsCloser(f, s);
    assert s.queue[0] == s.entered[s.taken];
    TakeKeepsWire(f, s, t);
  }

  lemma TakeKeepsQueue(s: State, t: State)
    requires QueueOk(s) && s.queue != []
    requires t.entered == s.entered && t.taken == s.taken + 1 && t.queue == s.queue[1..]
    ensures QueueOk(t)
  {}

  lemma TakeKeepsWire(f: Format, s: State, t: State)
    requires QueueOk(s) && WireOk(f, s) && s.writer.Waiting? && s.taken < |s.entered|
    requires t.entered == s.entered && t.taken == s.taken + 1 && t.wire == s.wire
    requires t.writer == if s.entered[s.taken] == Nil then Left else Writing(s.entered[s.taken])
    ensures WireOk(f, t)
  {
    OneMore(s.entered, s.taken);
    NoNilAppend(s.entered[..s.taken], s.entered[s.taken]);
  }

  lemma NoNilAppend(packets: seq<Packet>, p: Packet)
    ensures NoNil(packets + [p]) <==> NoNil(packets) && p != Nil
  {}

  lemma OneMore(packets: seq<Packet>, k: nat)
    requires k < |packets|
    ensures var more := packets[..k + 1];
            more == packets[..k] + [packets[k]] && more[|more| - 1] == packets[k] && more[..|more| - 1] == packets[..k]
  {}

  lemma WroteKeepsInv(f: Format, s: State)
    requires Inv(f, s) && Enabled(f, s, Wrote)
    ensures Inv(f, Apply(f, s, Wrote))
  {
    WriteOf(f, s);
  }

  /** What is being written is the next piece of the stream. */
  lemma WriteOf(f: Format, s: State)
    requires s.taken <= |s.entered| && WireOk(f, s) && s.writer.Writing?
    ensures Stream(f, s.entered[..s.taken]) == s.wire + BytesOf(f, s.writer.packet)
  {
    var got := s.entered[..s.taken];
    assert got == got[..|got| - 1] + [s.writer.packet];
    StreamAppend(f, got[..|got| - 1], s.writer.packet);
  }

  lemma FailedKeepsWire(f: Format, s: State, t: State)
    requires s.taken <= |s.entered| && WireOk(f, s) && s.writer.Writing?
    requires t.entered == s.entered && t.taken == s.taken && t.writer.Left? && t.writeFailed
    requires s.wire <= t.wire <= s.wire + BytesOf(f, s.writer.packet)
    ensures WireOk(f, t)
  {
    WriteOf(f, s);
  }

  lemma FailedKeepsInv(f: Format, s: State, count: nat)
    requires Inv(f, s) && Enabled(f, s, Failed(count))
    ensures Inv(f, Apply(f, s, Failed(count)))
  {
    FailedKeepsWire(f, s, Apply(f, s, Failed(count)));
  }

  lemma SendKeepsWire(f: Format, s: State, p: Packet)
    requires Inv(f, s)
    ensures QueueOk(Send(s, p)) && WireOk(f, Send(s, p))
  {
    assert Send(s, p).entered[..s.taken] == s.entered[..s.taken];
  }

  /** The steps of Close and Destroy that send nothing leave queue, wire and writer alone. */
  lemma CloserKeepsInv(f: Format, s: State, step: Step)
    requires Inv(f, s) && Enabled(f, s, step)
    requires step.CloseFlag? || step.DestroyFlag? || step.CloseFull? || step.DestroyFull? || step.DestroySocket?
    ensures Inv(f, Apply(f, s, step))
  {
    var t := Apply(f, s, step);
    assert t == s.(closeFlag := t.closeFlag, closer := t.closer, socketOpen := t.socketOpen);
    LeaveKeepsWire(f, s, t);
    assert CloserOk(t);
  }

  lemma WriteKeepsInv(f: Format, s: State, p: Packet)
    requires Inv(f, s) && p != Nil && (p.Data? ==> Accepts(f, p.msg)) && (p.Raw? ==> p.bytes != [])
    ensures Inv(f, Send(s, p))
  {
    SendKeepsWire(f, s, p);
    NoNilAppend(s.entered, p);
  }

  lemma SendNilKeepsInv(f: Format, s: State, step: Step)
    requires Inv(f, s) && Enabled(f, s, step) && (step.CloseSend? || step.DestroySend?)
    ensures Inv(f, Apply(f, s, step))
  {
    SendKeepsWire(f, s, Nil);
  }

  lemma LeaveKeepsCloser(f: Format, s: State, step: Step)
    requires CloserOk(s) && Enabled(f, s, step)
    requires step.LeaveFlag? || step.LeaveSocket? || step.OutsideClose?
    ensures CloserOk(Apply(f, s, step))
  {}

  lemma LeaveKeepsInv(f: Format, s: State, step: Step)
    requires Inv(f, s) && Enabled(f, s, step)
    requires step.LeaveFlag? || step.LeaveSocket? || step.OutsideClose?
    ensures Inv(f, Apply(f, s, step))
  {
    LeaveKeepsWire(f, s, Apply(f, s, step));
    LeaveKeepsCloser(f, s, step);
  }

  lemma StepKeepsInv(f: Format, s: State, step: Step)
    requires Inv(f, s) && Enabled(f, s, step)
    ensures Inv(f, Apply(f, s, step))
  {
    if step.Take? {
      TakeKeepsInv(f, s);
    } else if step.Wrote? {
      WroteKeepsInv(f, s);
    } else if step.Failed? {
      FailedKeepsInv(f, s, step.count);
    } else if step.WriteMsg? {
      WriteKeepsInv(f, s, Data(step.msg));
    } else if step.Write? {
      WriteKeepsInv(f, s, Raw(step.bytes));
    } else if step.CloseSend? || step.DestroySend? {
      SendNilKeepsInv(f, s, step);
    } else if step.LeaveFlag? || step.LeaveSocket? || step.OutsideClose? {
      LeaveKeepsInv(f, s, step);
    } else {
      CloserKeepsInv(f, s, step);
    }
  }

  lemma {:induction false} RunKeepsInv(f: Format, s: State, steps: seq<Step>, t: State)
    requires Inv(f, s) && IsRun(f, s, steps, t)
    ensures Inv(f, t)
    decreases |steps|
  {
    if steps != [] {
      StepKeepsInv(f, s, steps[0]);
      RunKeepsInv(f, Apply(f, s, steps[0]), steps[1..], t);
    }
  }

  // Main results

  lemma {:induction false} StreamOfPrefix(f: Format, packets: seq<Packet>, k: nat)
    requires k <= |packets|
    ensures Stream(f, packets[..k]) <= Stream(f, packets)
    decreases |packets|
  {
    if k < |packets| {
      var front := packets[..|packets| - 1];
      StreamOfPrefix(f, front, k);
      assert front[..k] == packets[..k];
    } else {
      assert packets[..k] == packets;
    }
  }

  lemma WireIsPrefixOfTaken(f: Format, s: State)
    requires Inv(f, s)
    ensures s.wire <= Stream(f, s.entered[..s.taken])
  {
    var got := s.entered[..s.taken];
    if got != [] && s.wire == Stream(f, got[..|got| - 1]) {
      StreamOfPrefix(f, got, |got| - 1);
    }
  }

  predicate NoRaw(packets: seq<Packet>) { forall p | p in packets :: !p.Raw? }

  lemma {:induction false} StreamOfFrames(f: Format, packets: seq<Packet>)
    requires NoRaw(packets) && forall p | p in packets && p.Data? :: Accepts(f, p.msg)
    ensures Stream(f, packets) == Frames(f, Msgs(packets)) && AllAccepted(f, Msgs(packets))
  {
    if packets != [] {
      var front, last := packets[..|packets| - 1], packets[|packets| - 1];
      StreamOfFrames(f, front);
      if last.Data? {
        FramesAppend(f, Msgs(front), [last.msg]);
        FramesOfOne(f, last.msg);
      } else {
        assert Msgs(packets) == Msgs(front);
      }
    }
  }

  /** One list goes on where the other ends. */
  predicate Compatible(a: seq<Bytes>, b: seq<Bytes>) { a <= b || b <= a }

  lemma PeerReads(f: Format, s: State, k: nat)
    requires f.Valid() && Inv(f, s) && k <= |s.entered| && NoRaw(s.entered[..k])
    requires s.wire <= Stream(f, s.entered)
    ensures Compatible(Messages(f, s.wire), Msgs(s.entered[..k]))
  {
    var before := s.entered[..k];
    StreamOfFrames(f, before);
    StreamOfPrefix(f, s.entered, k);
    if |s.wire| <= |Stream(f, before)| {
      assert s.wire <= Stream(f, before);
      PrefixReads(f, Msgs(before), s.wire);
    } else {
      var rest := s.wire[|Stream(f, before)|..];
      assert s.wire == Frames(f, Msgs(before)) + rest;
      MessagesThenRest(f, Msgs(before), rest);
    }
  }

  /** In every run the bytes on the wire are a prefix of what was accepted, in order.  When all of it
      are messages, they are a prefix of their frames and a peer reads a prefix of the messages; when
      other bytes were sent too, the peer still reads the messages before those first of all. */
  lemma PeerSeesPrefix(f: Format, capacity: nat, steps: seq<Step>, t: State)
    requires f.Valid() && IsRun(f, Init(capacity), steps, t)
    ensures t.wire <= Stream(f, t.entered)
    ensures NoRaw(t.entered) ==> t.wire <= Frames(f, Msgs(t.entered)) && Messages(f, t.wire) <= Msgs(t.entered)
    ensures forall k: nat | k <= |t.entered| && NoRaw(t.entered[..k]) ::
        Compatible(Messages(f, t.wire), Msgs(t.entered[..k]))
  {
    RunKeepsInv(f, Init(capacity), steps, t);
    WireIsPrefixOfTaken(f, t);
    StreamOfPrefix(f, t.entered, t.taken);
    if NoRaw(t.entered) {
      StreamOfFrames(f, t.entered);
      PrefixReads(f, Msgs(t.entered), t.wire);
    }
    forall k: nat | k <= |t.entered| && NoRaw(t.entered[..k])
      ensures Compatible(Messages(f, t.wire), Msgs(t.entered[..k]))
    {
      PeerReads(f, t, k);
    }
  }

  /** If Close has sent its nil, and no socket error or outside close intervenes, the socket stays
      open until the writer closes it, and by then exactly what was accepted before the nil is on the
      wire: the frames of the messages, when it was messages only. */
  lemma CloseDrains(f: Format, capacity: nat, steps: seq<Step>, t: State)
    requires IsRun(f, Init(capacity), steps, t)
    requires t.sentinel != -1 && !t.socketError && !t.outsideClose
    ensures 0 <= t.sentinel < |t.entered| && (!t.socketOpen <==> t.writer.Gone?)
    ensures t.writer.Gone? ==> t.wire == Stream(f, t.entered[..t.sentinel])
    ensures t.writer.Gone? && NoRaw(t.entered[..t.sentinel]) ==> t.wire == Frames(f, Msgs(t.entered[..t.sentinel]))
  {
    RunKeepsInv(f, Init(capacity), steps, t);
    if t.writer.Gone? {
      var got := t.entered[..t.taken];
      assert got[|got| - 1] == t.entered[t.taken - 1];
      assert got[..|got| - 1] == t.entered[..t.sentinel];
      if NoRaw(t.entered[..t.sentinel]) {
        StreamOfFrames(f, t.entered[..t.sentinel]);
      }
    }
  }

  /** Close and Destroy close the socket themselves unless Close has left it to the writer. */
  ghost predicate ReturnedOk(s: State) { s.closer.Returned? && s.sentinel == -1 ==> !s.socketOpen }

  lemma {:induction false} RunKeepsReturned(f: Format, s: State, steps: seq<Step>, t: State)
    requires ReturnedOk(s) && IsRun(f, s, steps, t)
    ensures ReturnedOk(t)
    decreases |steps|
  {
    if steps != [] {
      RunKeepsReturned(f, Apply(f, s, steps[0]), steps[1..], t);
    }
  }

  /** When Destroy has returned, or Close on a full queue, the socket is closed; and once either has
      begun, no later Close or Destroy does anything. */
  lemma ClosedOnce(f: Format, capacity: nat, steps: seq<Step>, t: State)
    requires IsRun(f, Init(capacity), steps, t)
    ensures t.closer.Returned? && t.sentinel == -1 ==> !t.socketOpen
    ensures !t.closer.NoCloser? ==> !Enabled(f, t, CloseFlag) && !Enabled(f, t, DestroyFlag)
  {
    RunKeepsReturned(f, Init(capacity), steps, t);
    RunKeepsInv(f, Init(capacity), steps, t);
  }

  /** A message within the limits is refused only when the queue is full; and whoever closes can always
      go on, whatever the writer does. */
  lemma NobodyIsHeldUp(f: Format, s: State, msg: Bytes)
    ensures Accepts(f, msg) && f.byteLen + |msg| < UINT32_SIZE && |s.queue| < s.capacity ==>
              Enabled(f, s, WriteMsg(msg))
    ensures s.closer.InClose? ==> Enabled(f, s, CloseSend) || Enabled(f, s, CloseFull)
    ensures s.closer.InDestroy? ==> Enabled(f, s, DestroySend) || Enabled(f, s, DestroyFull)
    ensures s.closer.ClosingSocket? ==> Enabled(f, s, DestroySocket)
  {}

  /** With an open socket and nothing queued, a message accepted goes out whole. */
  lemma MessageGoesOut(f: Format, s: State, msg: Bytes) returns (t: State)
    requires s.writer.Waiting? && s.queue == [] && s.socketOpen
    requires Accepts(f, msg) && f.byteLen + |msg| < UINT32_SIZE
    ensures IsRun(f, s, [WriteMsg(msg), Take, Wrote], t) && t.wire == s.wire + Frame(f, msg) && t.writer.Waiting?
  {
    var steps := [WriteMsg(msg), Take, Wrote];
    var s1 := Apply(f, s, WriteMsg(msg));
    var s2 := Apply(f, s1, Take);
    t := Apply(f, s2, Wrote);
    assert steps[1..] == [Take, Wrote] && steps[1..][1..] == [Wrote] && steps[1..][1..][1..] == [];
    assert IsRun(f, s2, [Wrote], t);
    assert IsRun(f, s1, [Take, Wrote], t);
  }

  /** How far the writer is from having closed the socket, once Close has sent its nil. */
  function Distance(s: State): int {
    var ahead := s.sentinel + 1 - s.taken;
    match s.writer
    case Waiting => 2 * ahead + 2
    case Writing(_) => 2 * ahead + 3
    case Left => 2
    case Closing => 1
    case Gone => 0
  }

  function WriterStep(s: State): Step {
    match s.writer
    case Waiting => Take
    case Writing(_) => if s.socketOpen then Wrote else Failed(0)
    case Left => LeaveFlag
    case Closing => LeaveSocket
    case Gone => LeaveSocket
  }

  /** After Close has sent its nil the writer can always move until it is gone ... */
  lemma WriterCanMove(f: Format, s: State)
    requires Inv(f, s) && f.Valid() && s.sentinel != -1 && !s.writer.Gone?
    ensures Enabled(f, s, WriterStep(s))
  {
    if s.writer.Waiting? {
      WaitingBeforeSentinel(f, s);
    }
  }

  predicate IsWriterStep(step: Step) {
    step.Take? || step.Wrote? || step.Failed? || step.LeaveFlag? || step.LeaveSocket?
  }

  /** ... each of its steps brings it nearer to closing the socket ... */
  lemma WriterFinishes(f: Format, s: State, step: Step)
    requires NotPastSentinel(s) && Enabled(f, s, step) && IsWriterStep(step)
    ensures 0 <= Distance(Apply(f, s, step)) < Distance(s)
  {}

  /** ... and no other step sets it back. */
  lemma OthersDoNotDelay(f: Format, s: State, step: Step)
    requires Inv(f, s) && s.sentinel != -1 && Enabled(f, s, step) && !IsWriterStep(step)
    ensures Distance(Apply(f, s, step)) == Distance(s) && Apply(f, s, step).sentinel == s.sentinel
  {}

  predicate NotPastSentinel(s: State) {
    s.sentinel >= 0 && (s.writer.Waiting? || s.writer.Writing? ==> s.taken <= s.sentinel)
  }

  lemma TakenUpToSentinel(f: Format, s: State)
    requires Inv(f, s) && s.sentinel != -1
    ensures NotPastSentinel(s)
  {
    assert forall i | 0 <= i < s.taken :: s.entered[..s.taken][i] == s.entered[i];
  }

  lemma WaitingBeforeSentinel(f: Format, s: State)
    requires Inv(f, s) && s.sentinel != -1 && s.writer.Waiting?
    ensures s.queue != []
  {
    TakenUpToSentinel(f, s);
  }

  function WriterSteps(steps: seq<Step>): nat {
    if steps == [] then 0 else (if IsWriterStep(steps[0]) then 1 else 0) + WriterSteps(steps[1..])
  }

  lemma {:induction false} WriterStepsBounded(f: Format, s: State, steps: seq<Step>, t: State)
    requires Inv(f, s) && s.sentinel != -1 && 0 <= Distance(s) && IsRun(f, s, steps, t)
    ensures t.sentinel == s.sentinel && Inv(f, t) && 0 <= Distance(t) && WriterSteps(steps) + Distance(t) <= Distance(s)
    decreases |steps|
  {
    if steps != [] {
      StepKeepsInv(f, s, steps[0]);
      if IsWriterStep(steps[0]) {
        TakenUpToSentinel(f, s);
        WriterFinishes(f, s, steps[0]);
        assert Apply(f, s, steps[0]).sentinel == s.sentinel;
      } else {
        OthersDoNotDelay(f, s, steps[0]);
      }
      WriterStepsBounded(f, Apply(f, s, steps[0]), steps[1..], t);
    }
  }

  /** However a run goes on after Close has sent its nil, the writer takes a bounded number of steps
      in it, and where it can take none it has closed the socket. */
  lemma DrainEnds(f: Format, capacity: nat, steps: seq<Step>, t: State, more: seq<Step>, u: State)
    requires f.Valid() && IsRun(f, Init(capacity), steps, t) && t.sentinel != -1 && IsRun(f, t, more, u)
    ensures WriterSteps(more) <= Distance(t)
    ensures (forall step :: Enabled(f, u, step) ==> !IsWriterStep(step)) ==> u.writer.Gone? && !u.socketOpen
  {
    RunKeepsInv(f, Init(capacity), steps, t);
    TakenUpToSentinel(f, t);
    WriterStepsBounded(f, t, more, u);
    if !u.writer.Gone? {
      WriterCanMove(f, u);
    }
  }
}
