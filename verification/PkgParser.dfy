/** The length-prefixed packet codec (network/tcp_pkg.go). */
module PkgParser {
  import opened Ints

  type Bytes = seq<byte>

  // The wire format

  datatype Format = Format(byteLen: nat, minPkgLen: nat, maxPkgLen: nat, littleEndian: bool) {
    predicate Valid() {
      byteLen in {1, 2, 4} && minPkgLen <= maxPkgLen <= MaxLength(byteLen)
    }
  }

  function MaxLength(byteLen: int): nat {
    if byteLen == 1 then 0xff else if byteLen == 2 then 0xffff else if byteLen == 4 then 0xffff_ffff else 0
  }

  function LittleEndianBytes(n: nat, width: nat): (b: Bytes)
    ensures |b| == width
  {
    if width == 0 then [] else [(n % 256) as byte] + LittleEndianBytes(n / 256, width - 1)
  }

  function LittleEndianValue(b: Bytes): nat {
    if b == [] then 0 else b[0] as int + 256 * LittleEndianValue(b[1..])
  }

  function Reversed(b: Bytes): (r: Bytes)
    ensures |r| == |b| && forall i | 0 <= i < |b| :: r[i] == b[|b| - 1 - i]
  {
    seq(|b|, i requires 0 <= i < |b| => b[|b| - 1 - i])
  }

  function Power256(width: nat): nat { if width == 0 then 1 else 256 * Power256(width - 1) }

  lemma {:induction false} ValueOfBytes(n: nat, width: nat)
    requires n < Power256(width)
    ensures LittleEndianValue(LittleEndianBytes(n, width)) == n
  {
    if width > 0 { ValueOfBytes(n / 256, width - 1); }
  }

  /** The length prefix in the byte order of the format. */
  function Header(f: Format, n: nat): (h: Bytes)
    ensures |h| == f.byteLen
  {
    var b := LittleEndianBytes(n, f.byteLen);
    if f.littleEndian then b else Reversed(b)
  }

  function HeaderValue(f: Format, h: Bytes): nat {
    LittleEndianValue(if f.littleEndian then h else Reversed(h))
  }

  lemma HeaderRoundTrip(f: Format, n: nat)
    requires f.Valid() && n <= MaxLength(f.byteLen)
    ensures HeaderValue(f, Header(f, n)) == n
  {
    assert Power256(1) == 256 && Power256(2) == 0x1_0000 && Power256(3) == 0x100_0000 && Power256(4) == 0x1_0000_0000;
    ValueOfBytes(n, f.byteLen);
    var b := LittleEndianBytes(n, f.byteLen);
    assert Reversed(Reversed(b)) == b;
  }

  /** The lengths that a prefix of each width can carry; other widths carry none. */
  lemma MaxLengthIsExact(byteLen: int)
    ensures byteLen in {1, 2, 4} ==> MaxLength(byteLen) == Power256(byteLen) - 1
    ensures byteLen !in {1, 2, 4} ==> MaxLength(byteLen) == 0
  {
    assert Power256(1) == 256 && Power256(2) == 0x1_0000 && Power256(3) == 0x100_0000 && Power256(4) == 0x1_0000_0000;
  }

  lemma {:induction false} BytesOfValue(b: Bytes)
    ensures LittleEndianValue(b) < Power256(|b|) && LittleEndianBytes(LittleEndianValue(b), |b|) == b
  {
    if b != [] {
      BytesOfValue(b[1..]);
      LowByte(b[0] as int, LittleEndianValue(b[1..]));
      assert [b[0]] + b[1..] == b;
    }
  }

  lemma LowByte(low: nat, high: nat)
    requires low < 256
    ensures (low + 256 * high) % 256 == low && (low + 256 * high) / 256 == high
  {}

  /** Every prefix is that of exactly one length. */
  lemma HeaderOfValue(f: Format, h: Bytes)
    requires f.Valid() && |h| == f.byteLen
    ensures HeaderValue(f, h) <= MaxLength(f.byteLen) && Header(f, HeaderValue(f, h)) == h
  {
    MaxLengthIsExact(f.byteLen);
    var b := if f.littleEndian then h else Reversed(h);
    BytesOfValue(b);
    assert Reversed(Reversed(h)) == h;
  }

  /** The byte of weight 256^k. */
  function ByteOf(n: nat, k: nat): nat {
    if k == 0 then n % 256 else ByteOf(n / 256, k - 1)
  }

  lemma {:induction false} LittleEndianByte(n: nat, width: nat, k: nat)
    requires k < width
    ensures LittleEndianBytes(n, width)[k] as int == ByteOf(n, k)
  {
    if k > 0 { LittleEndianByte(n / 256, width - 1, k - 1); }
  }

  /** Little-endian puts the least significant byte first, big-endian puts it last. */
  lemma HeaderByteOrder(f: Format, n: nat, k: nat)
    requires k < f.byteLen
    ensures Header(f, n)[if f.littleEndian then k else f.byteLen - 1 - k] as int == ByteOf(n, k)
  {
    LittleEndianByte(n, f.byteLen, k);
  }

  function Frame(f: Format, msg: Bytes): Bytes { Header(f, |msg|) + msg }

  predicate Accepts(f: Format, msg: Bytes) { f.minPkgLen <= |msg| <= f.maxPkgLen }

  predicate AllAccepted(f: Format, msgs: seq<Bytes>) { forall i | 0 <= i < |msgs| :: Accepts(f, msgs[i]) }

  function Concat(parts: seq<Bytes>): Bytes {
    if parts == [] then [] else parts[0] + Concat(parts[1..])
  }

  lemma {:induction false} ConcatAppend(a: seq<Bytes>, b: seq<Bytes>)
    ensures Concat(a + b) == Concat(a) + Concat(b)
  {
    if a == [] {
      assert a + b == b;
    } else {
      ConcatAppend(a[1..], b);
      assert (a + b)[0] == a[0] && (a + b)[1..] == a[1..] + b;
      Associative(a[0], Concat(a[1..]), Concat(b));
    }
  }

  lemma Associative(x: Bytes, y: Bytes, z: Bytes)
    ensures x + (y + z) == x + y + z
  {}

  function FrameSeq(f: Format, msgs: seq<Bytes>): seq<Bytes> {
    seq(|msgs|, i requires 0 <= i < |msgs| => Frame(f, msgs[i]))
  }

  /** The frames of the messages, one after the other. */
  function Frames(f: Format, msgs: seq<Bytes>): Bytes { Concat(FrameSeq(f, msgs)) }

  lemma FramesAppend(f: Format, a: seq<Bytes>, b: seq<Bytes>)
    ensures Frames(f, a + b) == Frames(f, a) + Frames(f, b)
  {
    assert FrameSeq(f, a + b) == FrameSeq(f, a) + FrameSeq(f, b);
    ConcatAppend(FrameSeq(f, a), FrameSeq(f, b));
  }

  lemma FramesOfOne(f: Format, msg: Bytes)
    ensures Frames(f, [msg]) == Frame(f, msg)
  {
    FramesFirst(f, [msg]);
    assert Frames(f, [msg][1..]) == [];
  }

  lemma FramesFirst(f: Format, msgs: seq<Bytes>)
    requires msgs != []
    ensures Frames(f, msgs) == Frame(f, msgs[0]) + Frames(f, msgs[1..])
  {
    assert FrameSeq(f, msgs)[1..] == FrameSeq(f, msgs[1..]);
  }

  /** The data that come with an end of file are nil where it hits the prefix, and otherwise the
      buffer of the message, filled as far as the stream went. */
  datatype ReadResult = Message(data: Bytes) | TooShort | TooLong | Eof(data: Bytes) | UnexpectedEof(data: Bytes)

  function EndOfFile(nothingRead: bool, data: Bytes): ReadResult {
    if nothingRead then Eof(data) else UnexpectedEof(data)
  }

  function Zeros(n: nat): Bytes { seq(n, _ => 0) }

  /** What reading one packet from a stream gives, and the stream left behind.  A stream that ends
      right after a length prefix reads as a clean end. */
  function Decode(f: Format, stream: Bytes): (ReadResult, Bytes) {
    if |stream| < f.byteLen then (EndOfFile(stream == [], []), [])
    else
      var n := HeaderValue(f, stream[..f.byteLen]);
      var rest := stream[f.byteLen..];
      if n < f.minPkgLen then (TooShort, rest)
      else if n > f.maxPkgLen then (TooLong, rest)
      else if |rest| < n then (EndOfFile(rest == [], rest + Zeros(n - |rest|)), [])
      else (Message(rest[..n]), rest[n..])
  }

  /** What reading gives for each length that a prefix can announce: a length outside the limits is an
      error and nothing of the message is read; otherwise the message is delivered if it is all there,
      and else a buffer of its length with what there is, padded with zeros. */
  lemma DecodeOfHeader(f: Format, n: nat, body: Bytes)
    requires f.Valid() && n <= MaxLength(f.byteLen)
    ensures var (res, left) := Decode(f, Header(f, n) + body);
            && (n < f.minPkgLen ==> res == TooShort && left == body)
            && (n > f.maxPkgLen ==> res == TooLong && left == body)
            && (f.minPkgLen <= n <= f.maxPkgLen && n <= |body| ==> res == Message(body[..n]) && left == body[n..])
            && (f.minPkgLen <= n <= f.maxPkgLen && n > |body| ==>
                  && (res.Eof? <==> body == []) && (res.UnexpectedEof? <==> body != []) && left == []
                  && |res.data| == n && res.data[..|body|] == body
                  && forall i | |body| <= i < n :: res.data[i] == 0)
  {
    HeaderRoundTrip(f, n);
    var h := Header(f, n);
    assert (h + body)[..|h|] == h && (h + body)[|h|..] == body;
  }

  /** Every stream is too short for a prefix, or begins with the prefix of some length. */
  lemma DecodeOfShort(f: Format, stream: Bytes)
    requires f.Valid()
    ensures |stream| < f.byteLen ==>
              Decode(f, stream) == (if stream == [] then Eof([]) else UnexpectedEof([]), [])
    ensures |stream| >= f.byteLen ==> exists n: nat ::
              n <= MaxLength(f.byteLen) && stream == Header(f, n) + stream[f.byteLen..]
  {
    if |stream| >= f.byteLen {
      var h := stream[..f.byteLen];
      HeaderOfValue(f, h);
      assert stream == h + stream[f.byteLen..];
      assert stream == Header(f, HeaderValue(f, h)) + stream[f.byteLen..];
    }
  }

  /** A message is delivered if and only if its length is within the limits and the stream is its
      frame followed by what is left behind. */
  lemma MessageIff(f: Format, stream: Bytes, m: Bytes, rest: Bytes)
    requires f.Valid()
    ensures Decode(f, stream) == (Message(m), rest) <==>
            f.minPkgLen <= |m| <= f.maxPkgLen && stream == Header(f, |m|) + m + rest
  {
    if f.minPkgLen <= |m| <= f.maxPkgLen && stream == Header(f, |m|) + m + rest {
      DecodeOfFrame(f, m, rest);
    }
    if Decode(f, stream) == (Message(m), rest) {
      DecodeOfShort(f, stream);
      var n: nat :| n <= MaxLength(f.byteLen) && stream == Header(f, n) + stream[f.byteLen..];
      DeliveredParts(f, n, stream[f.byteLen..], m, rest);
    }
  }

  lemma DeliveredParts(f: Format, n: nat, body: Bytes, m: Bytes, rest: Bytes)
    requires f.Valid() && n <= MaxLength(f.byteLen) && Decode(f, Header(f, n) + body) == (Message(m), rest)
    ensures f.minPkgLen <= |m| <= f.maxPkgLen && |m| == n && Header(f, n) + body == Header(f, |m|) + m + rest
  {
    DecodeOfHeader(f, n, body);
    assert body == body[..n] + body[n..];
    Associative(Header(f, n), m, rest);
  }

  /** The frame of a message outside the limits is refused, and the message left in the stream. */
  lemma RefusedFrame(f: Format, msg: Bytes, rest: Bytes)
    requires f.Valid() && |msg| <= MaxLength(f.byteLen) && !(f.minPkgLen <= |msg| <= f.maxPkgLen)
    ensures Decode(f, Frame(f, msg) + rest) == (if |msg| < f.minPkgLen then TooShort else TooLong, msg + rest)
  {
    DecodeOfHeader(f, |msg|, msg + rest);
    Associative(Header(f, |msg|), msg, rest);
  }

  /** io.EOF, which a caller takes for a clean end, comes from an empty stream and from one that ends
      right after an acceptable prefix of a message that is not empty; and from no other. */
  lemma CleanEndIff(f: Format, stream: Bytes)
    requires f.Valid()
    ensures Decode(f, stream).0.Eof? <==>
            || stream == []
            || (|stream| == f.byteLen && 0 < HeaderValue(f, stream) &&
                f.minPkgLen <= HeaderValue(f, stream) <= f.maxPkgLen)
  {
    if |stream| == f.byteLen {
      assert stream[..f.byteLen] == stream && stream[f.byteLen..] == [];
    }
  }

  lemma DecodeOfFrame(f: Format, msg: Bytes, rest: Bytes)
    requires f.Valid() && Accepts(f, msg)
    ensures Decode(f, Frame(f, msg) + rest) == (Message(msg), rest)
  {
    HeaderRoundTrip(f, |msg|);
    FrameParts(Header(f, |msg|), msg, rest);
  }

  lemma FrameParts(h: Bytes, msg: Bytes, rest: Bytes)
    ensures var stream := h + msg + rest;
            stream[..|h|] == h && stream[|h|..] == msg + rest
    ensures (msg + rest)[..|msg|] == msg && (msg + rest)[|msg|..] == rest
  {}

  /** The messages that repeated reading yields before the first error or the end. */
  function Messages(f: Format, stream: Bytes): seq<Bytes>
    requires f.byteLen > 0
    decreases |stream|
  {
    match Decode(f, stream)
    case (Message(m), rest) => [m] + Messages(f, rest)
    case (_, _) => []
  }

  /** Reading k packets in turn. */
  function ReadMany(f: Format, stream: Bytes, k: nat): (seq<ReadResult>, Bytes)
    decreases k
  {
    if k == 0 then ([], stream)
    else
      var (m, rest) := Decode(f, stream);
      var (ms, end) := ReadMany(f, rest, k - 1);
      ([m] + ms, end)
  }

  function AsResults(msgs: seq<Bytes>): (r: seq<ReadResult>)
    ensures |r| == |msgs|
  {
    seq(|msgs|, i requires 0 <= i < |msgs| => Message(msgs[i]))
  }

  /** The concatenated frames of accepted messages read back as exactly those messages, and
      leave what follows them untouched. */
  lemma {:induction false} RoundTrip(f: Format, msgs: seq<Bytes>, rest: Bytes)
    requires f.Valid() && AllAccepted(f, msgs)
    ensures ReadMany(f, Frames(f, msgs) + rest, |msgs|) == (AsResults(msgs), rest)
  {
    if msgs == [] {
      assert Frames(f, msgs) + rest == rest;
    } else {
      FirstDecodes(f, msgs, rest);
      RoundTrip(f, msgs[1..], rest);
      RoundTripStep(f, Frames(f, msgs) + rest, Frames(f, msgs[1..]) + rest, msgs, rest);
    }
  }

  lemma RoundTripStep(f: Format, stream: Bytes, tail: Bytes, msgs: seq<Bytes>, rest: Bytes)
    requires msgs != [] && Decode(f, stream) == (Message(msgs[0]), tail)
    requires ReadMany(f, tail, |msgs| - 1) == (AsResults(msgs[1..]), rest)
    ensures ReadMany(f, stream, |msgs|) == (AsResults(msgs), rest)
  {
    ReadManyFirst(f, stream, |msgs|, Message(msgs[0]), tail);
    ResultsFirst(msgs);
  }

  lemma ResultsFirst(msgs: seq<Bytes>)
    requires msgs != []
    ensures AsResults(msgs) == [Message(msgs[0])] + AsResults(msgs[1..])
  {}

  lemma ReadManyFirst(f: Format, stream: Bytes, k: nat, m: ReadResult, tail: Bytes)
    requires k > 0 && Decode(f, stream) == (m, tail)
    ensures ReadMany(f, stream, k) == ([m] + ReadMany(f, tail, k - 1).0, ReadMany(f, tail, k - 1).1)
  {}

  lemma FirstDecodes(f: Format, msgs: seq<Bytes>, rest: Bytes)
    requires f.Valid() && msgs != [] && AllAccepted(f, msgs)
    ensures Decode(f, Frames(f, msgs) + rest) == (Message(msgs[0]), Frames(f, msgs[1..]) + rest)
  {
    var tail := Frames(f, msgs[1..]) + rest;
    FramesFirst(f, msgs);
    assert Frames(f, msgs) + rest == Frame(f, msgs[0]) + tail;
    assert Accepts(f, msgs[0]);
    DecodeOfFrame(f, msgs[0], tail);
  }

  lemma FirstDecodesAlone(f: Format, msgs: seq<Bytes>)
    requires f.Valid() && msgs != [] && AllAccepted(f, msgs)
    ensures Decode(f, Frames(f, msgs)) == (Message(msgs[0]), Frames(f, msgs[1..]))
  {
    FirstDecodes(f, msgs, []);
    assert Frames(f, msgs) + [] == Frames(f, msgs);
    assert Frames(f, msgs[1..]) + [] == Frames(f, msgs[1..]);
  }

  lemma FramesNotEmpty(f: Format, msgs: seq<Bytes>)
    requires f.Valid() && msgs != []
    ensures Frames(f, msgs) != []
  {
    FramesFirst(f, msgs);
    assert |Header(f, |msgs[0]|)| > 0;
  }

  lemma SameFirst(f: Format, a: seq<Bytes>, b: seq<Bytes>)
    requires f.Valid() && AllAccepted(f, a) && AllAccepted(f, b) && a != [] && b != []
    requires Frames(f, a) == Frames(f, b)
    ensures a[0] == b[0] && Frames(f, a[1..]) == Frames(f, b[1..])
  {
    FirstDecodesAlone(f, a);
    FirstDecodesAlone(f, b);
  }

  /** No two lists of accepted messages have the same bytes. */
  lemma {:induction false} FramesInjective(f: Format, a: seq<Bytes>, b: seq<Bytes>)
    requires f.Valid() && AllAccepted(f, a) && AllAccepted(f, b)
    requires Frames(f, a) == Frames(f, b)
    ensures a == b
  {
    if a != [] && b != [] {
      SameFirst(f, a, b);
      FramesInjective(f, a[1..], b[1..]);
      assert a == [a[0]] + a[1..] && b == [b[0]] + b[1..];
    } else if a != [] {
      FramesNotEmpty(f, a);
    } else if b != [] {
      FramesNotEmpty(f, b);
    }
  }

  /** A frame that is cut off yields no message. */
  lemma CutFrame(f: Format, msg: Bytes, wire: Bytes)
    requires f.Valid() && Accepts(f, msg) && |wire| < |Frame(f, msg)| && wire <= Frame(f, msg)
    ensures Messages(f, wire) == []
  {
    if |wire| >= f.byteLen {
      HeaderRoundTrip(f, |msg|);
      assert wire[..f.byteLen] == Header(f, |msg|);
    }
  }

  lemma MessagesFirst(f: Format, wire: Bytes, msg: Bytes, rest: Bytes)
    requires f.Valid() && Decode(f, wire) == (Message(msg), rest)
    ensures Messages(f, wire) == [msg] + Messages(f, rest)
  {}

  lemma FirstThenRest(f: Format, msgs: seq<Bytes>, rest: Bytes)
    requires f.Valid() && msgs != [] && AllAccepted(f, msgs)
    ensures Messages(f, Frames(f, msgs) + rest) == [msgs[0]] + Messages(f, Frames(f, msgs[1..]) + rest)
  {
    FirstDecodes(f, msgs, rest);
    MessagesFirst(f, Frames(f, msgs) + rest, msgs[0], Frames(f, msgs[1..]) + rest);
  }

  lemma ConsAppend(msgs: seq<Bytes>, more: seq<Bytes>)
    requires msgs != []
    ensures [msgs[0]] + (msgs[1..] + more) == msgs + more
  {}

  /** After whole frames the rest of a stream is read as it would be alone. */
  lemma {:induction false} MessagesThenRest(f: Format, msgs: seq<Bytes>, rest: Bytes)
    requires f.Valid() && AllAccepted(f, msgs)
    ensures Messages(f, Frames(f, msgs) + rest) == msgs + Messages(f, rest)
  {
    if msgs == [] {
      assert Frames(f, msgs) + rest == rest;
    } else {
      FirstThenRest(f, msgs, rest);
      MessagesThenRest(f, msgs[1..], rest);
      ConsAppend(msgs, Messages(f, rest));
    }
  }

  /** However the bytes are cut off, a reader of a prefix of the frames sees a prefix of the messages. */
  lemma {:induction false} PrefixReads(f: Format, msgs: seq<Bytes>, wire: Bytes)
    requires f.Valid() && AllAccepted(f, msgs)
    requires wire <= Frames(f, msgs)
    ensures Messages(f, wire) <= msgs
  {
    if msgs == [] {
      assert wire == [];
    } else {
      var frame := Frame(f, msgs[0]);
      assert Accepts(f, msgs[0]);
      FramesFirst(f, msgs);
      if |wire| < |frame| {
        CutFrame(f, msgs[0], wire);
      } else {
        PrefixReadsFirst(f, msgs, wire, wire[|frame|..]);
        PrefixReads(f, msgs[1..], wire[|frame|..]);
        ConsPrefix(Messages(f, wire[|frame|..]), msgs);
      }
    }
  }

  lemma ConsPrefix(a: seq<Bytes>, msgs: seq<Bytes>)
    requires msgs != [] && a <= msgs[1..]
    ensures [msgs[0]] + a <= msgs
  {}

  lemma PrefixReadsFirst(f: Format, msgs: seq<Bytes>, wire: Bytes, rest: Bytes)
    requires f.Valid() && msgs != [] && Accepts(f, msgs[0])
    requires wire <= Frames(f, msgs) && |wire| >= |Frame(f, msgs[0])| && rest == wire[|Frame(f, msgs[0])|..]
    ensures rest <= Frames(f, msgs[1..]) && Messages(f, wire) == [msgs[0]] + Messages(f, rest)
  {
    FramesFirst(f, msgs);
    assert wire == Frame(f, msgs[0]) + rest;
    DecodeOfFrame(f, msgs[0], rest);
    MessagesFirst(f, wire, msgs[0], rest);
  }

  // Reading from a connection that delivers the stream in chunks

  function Flatten(chunks: seq<Bytes>): Bytes {
    if chunks == [] then [] else chunks[0] + Flatten(chunks[1..])
  }

  /** An io.Reader.  Each element is what one delivery makes available; the end follows the last. */
  class Reader {
    var chunks: seq<Bytes>

    function Rest(): Bytes
      reads this
    {
      Flatten(chunks)
    }

    constructor (chunks: seq<Bytes>)
      ensures this.chunks == chunks
    {
      this.chunks := chunks;
    }

    /** At most n bytes of the delivery at hand. */
    method Read(n: nat) returns (p: Bytes, eof: bool)
      modifies this
      ensures old(Rest()) == p + Rest() && |p| <= n
      ensures eof <==> n > 0 && old(chunks) == []
      ensures eof ==> p == [] && Rest() == []
      ensures n > 0 && !eof ==> |chunks| < old(|chunks|) || |p| == n
    {
      if n == 0 {
        return [], false;
      }
      if chunks == [] {
        return [], true;
      }
      if |chunks[0]| <= n {
        p, chunks := chunks[0], chunks[1..];
      } else {
        p, chunks := chunks[0][..n], [chunks[0][n..]] + chunks[1..];
        assert chunks[1..] == old(chunks)[1..];
      }
      return p, false;
    }

    /** io.ReadFull */
    method ReadFull(n: nat) returns (p: Bytes, complete: bool)
      modifies this
      ensures complete <==> n <= |old(Rest())|
      ensures complete ==> p == old(Rest())[..n] && Rest() == old(Rest())[n..]
      ensures !complete ==> p == old(Rest()) && Rest() == []
    {
      p := [];
      var eof := false;
      while |p| < n && !eof
        invariant old(Rest()) == p + Rest() && |p| <= n
        invariant eof ==> Rest() == []
        decreases !eof, n - |p|, |chunks|
      {
        var more;
        more, eof := Read(n - |p|);
        p := p + more;
      }
      complete := |p| == n;
    }
  }

  datatype WriteResult = Written(data: Bytes) | WriteTooShort | WriteTooLong | WritePanics

  class PkgParser {
    var byteLen: int
    var minPkgLen: uint32
    var maxPkgLen: uint32
    var littleEndian: bool

    function AsFormat(): Format
      requires byteLen >= 0
      reads this
    {
      Format(byteLen, minPkgLen as int, maxPkgLen as int, littleEndian)
    }

    ghost predicate Valid()
      reads this
    {
      byteLen >= 0 && AsFormat().Valid()
    }

    constructor ()
      ensures Valid() && AsFormat() == Format(2, 1, 4096, false)
    {
      byteLen := 2;
      minPkgLen := 1;
      maxPkgLen := 4096;
      littleEndian := false;
    }

    /** Zero keeps a limit; both are then cut to what the width can carry and put in order. */
    method SetPkgLen(byteLen: int, minPkgLen: uint32, maxPkgLen: uint32)
      requires Valid()
      modifies this
      ensures Valid() && littleEndian == old(littleEndian)
      ensures this.byteLen == if byteLen in {1, 2, 4} then byteLen else old(this.byteLen)
      ensures var lo := Least(if minPkgLen != 0 then minPkgLen as int else old(this.minPkgLen) as int,
          MaxLength(byteLen));
              var hi := Least(if maxPkgLen != 0 then maxPkgLen as int else old(this.maxPkgLen) as int,
                  MaxLength(byteLen));
              this.minPkgLen as int == Least(lo, hi) && this.maxPkgLen as int == lo + hi - Least(lo, hi)
    {
      if byteLen in {1, 2, 4} {
        this.byteLen := byteLen;
      }
      this.minPkgLen := if minPkgLen != 0 then minPkgLen else this.minPkgLen;
      this.maxPkgLen := if maxPkgLen != 0 then maxPkgLen else this.maxPkgLen;

      var max := MaxLength(byteLen) as uint32;
      this.minPkgLen := if this.minPkgLen > max then max else this.minPkgLen;
      this.maxPkgLen := if this.maxPkgLen > max then max else this.maxPkgLen;
      if this.maxPkgLen < this.minPkgLen {
        this.maxPkgLen, this.minPkgLen := this.minPkgLen, this.maxPkgLen;
      }
    }

    method SetEndian(isLittleEndian: bool)
      modifies this
      ensures littleEndian == isLittleEndian
      ensures byteLen == old(byteLen) && minPkgLen == old(minPkgLen) && maxPkgLen == old(maxPkgLen)
    {
      littleEndian := isLittleEndian;
    }

    method Read(r: Reader) returns (res: ReadResult)
      requires Valid()
      modifies r
      ensures (res, r.Rest()) == Decode(AsFormat(), old(r.Rest()))
    {
      var header, complete := r.ReadFull(byteLen);
      if !complete {
        return EndOfFile(header == [], []);
      }
      var pkgLen := HeaderValue(AsFormat(), header);
      if pkgLen < minPkgLen as int {
        return TooShort;
      } else if pkgLen > maxPkgLen as int {
        return TooLong;
      }
      var data;
      data, complete := r.ReadFull(pkgLen);
      if !complete {
        return EndOfFile(data == [], data + Zeros(pkgLen - |data|));
      }
      return Message(data);
    }

    /** The header and the arguments, copied one after the other into a buffer whose size is
        computed in uint32. */
    method Write(args: seq<Bytes>) returns (w: WriteResult)
      requires Valid()
      ensures byteLen + |Concat(args)| < UINT32_SIZE ==> w == Encode(AsFormat(), Concat(args))
      ensures byteLen + |Concat(args)| >= UINT32_SIZE && w.Written? ==> |w.data| < byteLen + |Concat(args)|
      ensures var length := |Concat(args)| % UINT32_SIZE;
              && (w == WriteTooShort <==> length < minPkgLen as int)
              && (w == WriteTooLong <==> minPkgLen as int <= length && length > maxPkgLen as int)
              && (w == WritePanics ==> byteLen + |Concat(args)| >= UINT32_SIZE)
              && (w == WritePanics <==>
                    && minPkgLen as int <= length <= maxPkgLen as int
                    && Overruns(Header(AsFormat(), length), args, (byteLen + length) % UINT32_SIZE))
              && (w.Written? ==> w.data <= Header(AsFormat(), length) + Concat(args))
              && (w.Written? ==> |w.data| == (byteLen + length) % UINT32_SIZE)
    {
      var pkgLen := SumOfLengths(args);
      if pkgLen < minPkgLen {
        return WriteTooShort;
      } else if pkgLen > maxPkgLen {
        return WriteTooLong;
      }

      var size := AddUint32(byteLen as uint32, pkgLen) as int;
      BufferSize(byteLen, |Concat(args)|, pkgLen as int, size);
      w := Fill(Header(AsFormat(), pkgLen as int), args, size);
    }
  }

  function Encode(f: Format, msg: Bytes): WriteResult {
    if |msg| < f.minPkgLen then WriteTooShort
    else if |msg| > f.maxPkgLen then WriteTooLong
    else Written(Frame(f, msg))
  }

  /** Wrapping after each addition and wrapping once at the end agree. */
  lemma SumWraps(a: nat, b: nat)
    ensures (a % UINT32_SIZE + b % UINT32_SIZE) % UINT32_SIZE == (a + b) % UINT32_SIZE
  {}

  /** The uint32 size is that of prefix and message if it fits, and less otherwise. */
  lemma BufferSize(byteLen: nat, total: nat, pkgLen: nat, size: nat)
    requires byteLen < UINT32_SIZE && pkgLen == total % UINT32_SIZE && size == (byteLen + pkgLen) % UINT32_SIZE
    ensures byteLen + total < UINT32_SIZE ==> pkgLen == total && size == byteLen + total
    ensures byteLen + total >= UINT32_SIZE ==> size < byteLen + total
  {}

  method SumOfLengths(args: seq<Bytes>) returns (pkgLen: uint32)
    ensures pkgLen as int == |Concat(args)| % UINT32_SIZE
  {
    pkgLen := 0;
    var i := 0;
    assert args[..0] == [];
    while i < |args|
      invariant 0 <= i <= |args|
      invariant pkgLen as int == |Concat(args[..i])| % UINT32_SIZE
    {
      ConcatTake(args, i);
      SumWraps(|Concat(args[..i])|, |args[i]|);
      pkgLen := AddUint32(pkgLen, (|args[i]| % UINT32_SIZE) as uint32);
      i := i + 1;
    }
    assert args[..|args|] == args;
  }

  /** Copies the header and the arguments into a new buffer.  A buffer that is too small for the
      header, or that is full before the last argument, is an index out of range. */
  method Fill(header: Bytes, args: seq<Bytes>, size: nat) returns (w: WriteResult)
    ensures size == |header| + |Concat(args)| ==> w == Written(header + Concat(args))
    ensures Overruns(header, args, size) ==> w == WritePanics
    ensures !Overruns(header, args, size) ==> w.Written? && |w.data| == size
    ensures !Overruns(header, args, size) && size <= |header| + |Concat(args)| ==> w.data <= header + Concat(args)
  {
    if size < |header| {
      return WritePanics;
    }
    var data := new byte[size](_ => 0);
    CopyAt(data, 0, header);
    var l := |header|;
    var i := 0;
    assert args[..0] == [];
    while i < |args|
      invariant 0 <= i <= |args| && l == |header| + |Concat(args[..i])|
      invariant l <= size ==> data[..l] == header + Concat(args[..i])
      invariant l > size ==> data[..] <= header + Concat(args[..i])
      invariant forall k | 0 <= k < i :: |header| + |Concat(args[..k])| <= size
    {
      ConcatTake(args, i);
      ConcatPrefixIsShorter(args, i);
      if l > size {
        return WritePanics;
      }
      ghost var before := data[..l];
      CopyAt(data, l, args[i]);
      if l + |args[i]| > size {
        CutCopy(data[..], before, args[i], header + Concat(args[..i]) + args[i]);
      }
      Associative(header, Concat(args[..i]), args[i]);
      l := l + |args[i]|;
      i := i + 1;
    }
    assert args[..|args|] == args;
    w := Written(data[..]);
  }

  /** The copy of the header, or of some argument, would start beyond the end of the buffer. */
  ghost predicate Overruns(header: Bytes, args: seq<Bytes>, size: nat) {
    size < |header| || exists k :: 0 <= k < |args| && |header| + |Concat(args[..k])| > size
  }

  lemma CutCopy(data: Bytes, before: Bytes, arg: Bytes, whole: Bytes)
    requires whole == before + arg && |before| <= |data| <= |whole|
    requires data[..|before|] == before && data[|before|..] == arg[..|data| - |before|]
    ensures data <= whole
  {}

  /** copy(data[at:], src): as much as fits. */
  method CopyAt(data: array<byte>, at: nat, src: Bytes)
    requires at <= data.Length
    modifies data
    ensures data[..at] == old(data[..at])
    ensures at + |src| <= data.Length ==> data[at..at + |src|] == src && data[at + |src|..] == old(data[at + |src|..])
    ensures at + |src| > data.Length ==> data[at..] == src[..data.Length - at]
  {
    var count := if |src| <= data.Length - at then |src| else data.Length - at;
    forall k | 0 <= k < count {
      data[at + k] := src[k];
    }
  }

  lemma {:induction false} ConcatTake(args: seq<Bytes>, i: nat)
    requires i < |args|
    ensures Concat(args[..i + 1]) == Concat(args[..i]) + args[i]
  {
    if i > 0 {
      ConcatTake(args[1..], i - 1);
      assert args[..i + 1][1..] == args[1..][..i];
      assert args[..i][1..] == args[1..][..i - 1];
    } else {
      assert args[..1][1..] == [] && args[..0] == [];
    }
  }

  lemma {:induction false} ConcatPrefixIsShorter(args: seq<Bytes>, i: nat)
    requires i <= |args|
    ensures |Concat(args[..i])| <= |Concat(args)|
    decreases |args| - i
  {
    if i == |args| {
      assert args[..i] == args;
    } else {
      ConcatTake(args, i);
      ConcatPrefixIsShorter(args, i + 1);
    }
  }

  /** A message is written so that reading gives it back exactly if its length and the prefix stay
      below 2^32 and the limits accept it. */
  lemma WriteThenRead(f: Format, msg: Bytes, w: WriteResult)
    requires f.Valid()
    requires f.byteLen + |msg| < UINT32_SIZE ==> w == Encode(f, msg)
    requires f.byteLen + |msg| >= UINT32_SIZE && w.Written? ==> |w.data| < f.byteLen + |msg|
    ensures w.Written? && Decode(f, w.data) == (Message(msg), []) <==>
        f.byteLen + |msg| < UINT32_SIZE && Accepts(f, msg)
  {
    if f.byteLen + |msg| < UINT32_SIZE && Accepts(f, msg) {
      DecodeOfFrame(f, msg, []);
      assert Frame(f, msg) + [] == Frame(f, msg);
    }
  }
}
