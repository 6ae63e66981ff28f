/**
  Single messages, writes and reads of one end: where the fields of a message are, what a write sends and in which order,
  and which bytes a read refuses.
 */
module FrameService {
  import opened ByteStream
  import opened FrameCodec
  import opened FrameProtocol
  import opened FrameDelivery
  import opened FrameCutOff

  // ----- Messages -----

  /** The first byte tells what a message is; its numbers follow in the byte order of the channel. */
  lemma MessageLayout(c: Settings, u: Message)
    requires c.Valid() && GoodMessage(c, u)
    ensures var s := MessageBytes(c, u);
      match u
      case Ack(n) => |s| == 5 && s[0] == 1 && Unwire(c.order, s[1..5]) == n
      case LineTest => s == [2]
      case Options(size, version, time) =>
        && |s| == 17 && s[0] == 3 && Unwire(c.order, s[1..5]) == size && Unwire(c.order, s[5..9]) == version
        && Unwire(c.order, s[9..17]) == time
      case Status(n) => |s| == 3 && s[0] == 4 && Unwire(c.order, s[1..3]) == n
      case Segment(kind, part) =>
        |s| == 5 + |part| && s[0] == kind && Unwire(c.order, s[1..5]) == |part| && s[5..] == part
  {
    hide Wire, Unwire, Power256;
    FourBytes();
    var p, s := c.order, MessageBytes(c, u);
    match u
    case Ack(n) =>
      FieldAt(p, [1], n, 4, []);
      assert s == [1] + Wire(p, n, 4) + [];
    case LineTest =>
    case Options(size, version, time) =>
      WholeOptions(c, size, version, time, []);
      assert s + [] == s;
      FieldAt(p, [3] + Wire(p, size, 4) + Wire(p, version, 4), time, 8, []);
      assert s == ([3] + Wire(p, size, 4) + Wire(p, version, 4)) + Wire(p, time, 8) + [];
    case Status(n) =>
      TwoBytes();
      FieldAt(p, [4], n, 2, []);
      assert s == [4] + Wire(p, n, 2) + [];
    case Segment(kind, part) =>
      FieldAt(p, [kind], |part|, 4, part);
      assert s == [kind as Byte] + Wire(p, |part|, 4) + part;
  }

  lemma TwoBytes()
    ensures Power256(2) == 0x1_0000
  {
    assert Power256(1) == 256;
  }

  // ----- Writing -----

  /** What a write finds to send, in order; each part is there or not depending on the state before the write. */
  ghost function Outgoing(c: Settings, e: Endpoint, m: Moment, status: bool, test: bool, ack: bool): seq<Message>
    requires c.Valid() && GoodFrames(c, e.queue)
  {
    (if status then [Status(m.statusCount)] else []) + (if test then [LineTest] else [])
    + (if ack then [Ack(e.unacknowledged % LENGTH_LIMIT)] else []) + e.segments
    + (if e.optionsDue then [Options(e.receiveSize, c.version, m.time)] else []) + SplitAll(c, e.queue)
  }

  /**
    An acknowledgement is due for more than the minimum of bytes. A line test is sent when overdue, or when due while
    there is nothing else, unless one is queued. A status is put in front unless there is one.
   */
  lemma WriteOrder(c: Settings, e: Endpoint, m: Moment)
    requires c.Valid() && GoodFrames(c, e.queue)
    ensures var e1 := Prepare(c, e, m);
      var ack := e.unacknowledged > e.minimalRead;
      var test := !e.lineTestQueued && (m.lineTestOverdue || (m.lineTestDue && !ack && e.segments == [] && e.queue == []));
      var status := c.withStatus && m.statusDue && (test || ack || e.segments == [] || !e.segments[0].Status?);
      && e1.segments == Outgoing(c, e, m, status, test, ack)
      && e1.unacknowledged == (if ack then 0 else e.unacknowledged) && e1.queue == [] && !e1.optionsDue
      && e1.lineTestQueued == (e.lineTestQueued || test) && e1.waiting == e.waiting
  {
    hide SplitAll, Settings.Good, Settings.Valid;
    ServiceOrder(c, e, m);
    var e3 := QueueStatus(c, QueueLineTest(QueueAck(e), m), m);
    assert Prepare(c, e, m).segments
        == e3.segments + (if e.optionsDue then [Options(e.receiveSize, c.version, m.time)] else []) + SplitAll(c, e.queue);
  }

  /**
    A write sends a prefix of what it found, as long as it fits the window and the socket has room, and stops only when
    the next message does not fit, the window is used up or the room is. It sends nothing while the window is used up.
   */
  lemma WritesWhatFits(c: Settings, e: Endpoint, m: Moment)
    requires c.Valid() && GoodFrames(c, e.queue) && e.window < SIZE_LIMIT
    ensures var (q, e1, sent) := FrameProtocol.Write(c, e, m);
      var us := Prepare(c, e, m).segments;
      && (e.waiting >= e.window ==> q == NeedSleep && e1 == e && sent == [])
      && (e.waiting < e.window ==>
            && sent <= us && e1.segments == us[|sent|..] && |sent| <= m.room
            && e1.waiting == e.waiting + |Bytes(c, sent)| <= e.window
            && (|sent| < |us| && |sent| < m.room ==>
                  e1.waiting == e.window || e1.waiting + |MessageBytes(c, us[|sent|])| > e.window)
            && (q == NeedSleep <==> sent == [])
            && e1.lineTestQueued == (Prepare(c, e, m).lineTestQueued && sent == []))
  {
    hide Bytes, MessageBytes, Prepare, Sendable, Settings.Good, Settings.Valid;
    if e.waiting < e.window {
      var e1 := Prepare(c, e, m);
      var front, back := PrepareShape(c, e, m);
      WriteIs(c, e, m);
      SendableFits(c, e1.segments, e.waiting, e.window, m.room);
      SendableIsMost(c, e1.segments, e.waiting, e.window, m.room);
    }
  }

  lemma {:induction false} SendableIsMost(c: Settings, us: seq<Message>, waiting: nat, window: nat, room: nat)
    requires waiting < window < SIZE_LIMIT
    ensures var n := Sendable(c, us, waiting, window, room);
      && n <= room
      && (n < |us| && n < room ==>
            waiting + |Bytes(c, us[..n])| == window || waiting + |Bytes(c, us[..n])| + |MessageBytes(c, us[n])| > window)
    decreases |us|
  {
    hide MessageBytes;
    assert us[..0] == [] && Bytes(c, []) == [];
    if us != [] {
      var size := |MessageBytes(c, us[0])|;
      SmallModulo(window - waiting);
      OneMessage(c, us[0]);
      if size <= window - waiting && room > 0 {
        if waiting + size < window {
          SendableIsMost(c, us[1..], waiting + size, window, room - 1);
          var n := Sendable(c, us[1..], waiting + size, window, room - 1);
          MessagesJoin(c, [us[0]], us[1..][..n]);
          assert us[..1 + n] == [us[0]] + us[1..][..n];
        } else {
          assert us[..1] == [us[0]];
        }
      }
    }
  }

  // ----- Refusals -----

  /** Connection options of another version end the connection, whatever follows. */
  lemma RefusesVersion(c: Settings, e: Endpoint, size: nat, version: nat, time: nat, rest: seq<Byte>)
    requires c.Valid() && e.readBuffer == [] && (e.pending == 0 || e.pending in c.readers)
    requires size < LENGTH_LIMIT && version < LENGTH_LIMIT && time < Power256(8) && version != c.version
    ensures FrameProtocol.Read(c, e, MessageBytes(c, Options(size, version, time)) + rest).0 == Interrupt
  {
    hide MessageBytes, WindowFor, Unwire;
    var s := MessageBytes(c, Options(size, version, time)) + rest;
    WholeOptions(c, size, version, time, rest);
    OptionsByte(c, size, version, time, rest);
    assert Received(e, s).readBuffer == s;
    ReadIs(c, e, s);
  }

  lemma OptionsByte(c: Settings, size: nat, version: nat, time: nat, rest: seq<Byte>)
    ensures (MessageBytes(c, Options(size, version, time)) + rest)[0] == CONN_OPTIONS
  {
  }

  /** After bytes that make no sense the buffers are empty; what was delivered stays, and the connection goes on. */
  ghost predicate Dropped(c: Settings, e: Endpoint, incoming: seq<Byte>)
    requires c.Valid() && (e.pending == 0 || e.pending in c.readers)
  {
    FrameProtocol.Read(c, e, incoming)
      == (JobDone, e.(readBuffer := [], frameData := [], pending := 0, unacknowledged := e.unacknowledged + |incoming|))
  }

  lemma BrokenIsDropped(c: Settings, e: Endpoint, incoming: seq<Byte>)
    requires c.Valid() && (e.pending == 0 || e.pending in c.readers) && incoming != []
    requires var (v, e1) := ReadMessages(c, Received(e, incoming)); v.Broken? && e1 == Received(e, incoming).(pending := e1.pending)
    ensures Dropped(c, e, incoming)
  {
    hide ReadMessages;
    ReadIs(c, e, incoming);
  }

  /** A frame type without a reader is refused, unless frames of another type wait to be taken apart first. */
  lemma RefusesUnknownKind(c: Settings, e: Endpoint, kind: Byte, rest: seq<Byte>)
    requires c.Valid() && e.readBuffer == [] && e.pending == 0
    requires kind !in c.readers && kind != 1 && kind != 2 && kind != 3 && (kind == 4 ==> !c.withStatus)
    ensures Dropped(c, e, [kind] + rest)
  {
    assert Received(e, [kind] + rest).readBuffer == [kind] + rest;
    BrokenIsDropped(c, e, [kind] + rest);
  }

  /** A segment that says it is longer than segments are is refused. */
  lemma RefusesLargeSegment(c: Settings, e: Endpoint, kind: nat, size: nat, rest: seq<Byte>)
    requires c.Valid() && e.readBuffer == [] && kind in c.readers && (e.pending == 0 || e.pending == kind)
    requires c.segmentSize < size < LENGTH_LIMIT
    ensures kind < 256 && Dropped(c, e, [kind as Byte] + Wire(c.order, size, 4) + rest)
  {
    hide Dropped, Wire, Unwire, Power256, ReadMessages;
    FourBytes();
    var s := [kind as Byte] + Wire(c.order, size, 4) + rest;
    FieldAt(c.order, [kind as Byte], size, 4, rest);
    var r := Received(e, s);
    assert r.readBuffer == s;
    LargeIsBroken(c, r, kind);
    BrokenIsDropped(c, e, s);
  }

  lemma LargeIsBroken(c: Settings, e: Endpoint, kind: nat)
    requires c.Valid() && kind in c.readers && (e.pending == 0 || e.pending == kind)
    requires |e.readBuffer| >= 5 && e.readBuffer[0] == kind && Unwire(c.order, e.readBuffer[1..5]) > c.segmentSize
    ensures ReadMessages(c, e) == (Broken, e.(pending := kind))
  {
    hide Unwire;
  }
}
