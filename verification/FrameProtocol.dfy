/**
  One end of a channel: how it takes bytes apart into messages and frames, and how it turns frames into messages
  within the peer's window.
 */
module FrameProtocol {
  import opened ByteStream
  import opened FrameCodec

  datatype Frame = Frame(kind: nat, values: seq<Value>)

  /** What both ends agree on. */
  datatype Settings = Settings(order: nat, segmentSize: nat, version: nat, withStatus: bool, readers: map<nat, Schema>)
  {
    ghost predicate Valid() {
      && 0 < segmentSize < LENGTH_LIMIT
      && version < LENGTH_LIMIT
      && forall k | k in readers :: 16 <= k < 256 && readers[k].withLength
    }

    ghost predicate Good(f: Frame) {
      f.kind in readers && Writable(order, readers[f.kind], f.values)
    }

    function FrameBytes(f: Frame): seq<Byte>
      requires Good(f)
    {
      WriteFrame(order, readers[f.kind], f.values)
    }
  }

  // ----- Messages -----

  const ACK := 1
  const LINE_TEST := 2
  const CONN_OPTIONS := 3
  const CONN_STATUS := 4

  /** The messages of a channel. A segment carries a part of a frame. */
  datatype Message =
    | Ack(bytesRead: nat)
    | LineTest
    | Options(bufferSize: nat, version: nat, time: nat)
    | Status(queued: nat)
    | Segment(kind: nat, part: seq<Byte>)

  ghost predicate GoodMessage(c: Settings, u: Message) {
    match u
    case Ack(n) => n < LENGTH_LIMIT
    case LineTest => true
    case Options(size, version, time) => size < LENGTH_LIMIT && version == c.version && time < Power256(8)
    case Status(n) => c.withStatus && n < 0x1_0000
    case Segment(kind, part) => kind in c.readers && kind < 256 && 0 < |part| <= c.segmentSize < LENGTH_LIMIT
  }

  function MessageBytes(c: Settings, u: Message): (s: seq<Byte>)
    ensures |s| > 0
  {
    match u
    case Ack(n) => [ACK] + Wire(c.order, n, 4)
    case LineTest => [LINE_TEST]
    case Options(size, version, time) =>
      [CONN_OPTIONS] + Wire(c.order, size, 4) + Wire(c.order, version, 4) + Wire(c.order, time, 8)
    case Status(n) => [CONN_STATUS] + Wire(c.order, n, 2)
    case Segment(kind, part) => [kind % 256] + Wire(c.order, |part|, 4) + part
  }

  function Bytes(c: Settings, us: seq<Message>): seq<Byte> {
    if us == [] then [] else MessageBytes(c, us[0]) + Bytes(c, us[1..])
  }

  // ----- State -----

  /** `pending` is the kind of the frames in `frameData`, or zero. */
  datatype Endpoint = Endpoint(
    readBuffer: seq<Byte>, frameData: seq<Byte>, pending: nat, delivered: seq<Frame>,
    unacknowledged: nat, waiting: nat, window: nat,
    segments: seq<Message>, queue: seq<Frame>, optionsDue: bool, lineTestQueued: bool,
    sendSize: nat, receiveSize: nat, minimalRead: nat)

  function Fresh(sendSize: nat, receiveSize: nat, minimalRead: nat): Endpoint {
    Endpoint([], [], 0, [], 0, 0, 3276, [], [], true, false, sendSize, receiveSize, minimalRead)
  }

  function Min(a: nat, b: nat): nat {
    if a < b then a else b
  }

  // ----- Reading -----

  /**
    `Again(n)`: a message of `n` bytes was taken; `Wait`: more bytes are needed, or the frames read so far must be
    taken apart first. `Cut` marks a read that ends inside the connection options: the values are then uninitialised.
   */
  datatype Verdict = Again(used: nat) | Wait | Broken | Fatal | Cut

  function WindowFor(sendSize: nat, bufferSize: nat): nat {
    Min(sendSize, bufferSize) * 8 % LENGTH_LIMIT / 10
  }

  function ReadMessage(c: Settings, e: Endpoint): (r: (Verdict, Endpoint))
    requires e.readBuffer != []
    ensures r.0.Again? ==> 0 < r.0.used <= |e.readBuffer|
    ensures r.1.readBuffer == e.readBuffer
  {
    var s, kind := e.readBuffer, e.readBuffer[0] as int;
    if kind == ACK then
      if |s| < 5 then (Wait, e)
      else (Again(5), e.(waiting := e.waiting - Min(e.waiting, Unwire(c.order, s[1..5]))))
    else if kind == LINE_TEST then (Again(1), e)
    else if kind == CONN_OPTIONS then
      if |s| < 17 then (Cut, e) else
      var e1 := e.(window := WindowFor(e.sendSize, Unwire(c.order, s[1..5])));
      (if Unwire(c.order, s[5..9]) != c.version then Fatal else Again(17), e1)
    else if c.withStatus && kind == CONN_STATUS then
      (if |s| < 3 then Wait else Again(3), e)
    else ReadSegment(c, e)
  }

  /** The read buffer may hold fewer bytes than the segment; then nothing is taken. */
  function ReadSegment(c: Settings, e: Endpoint): (r: (Verdict, Endpoint))
    requires e.readBuffer != []
    ensures r.0.Again? ==> 0 < r.0.used <= |e.readBuffer|
    ensures r.1.readBuffer == e.readBuffer
  {
    var s, kind := e.readBuffer, e.readBuffer[0] as int;
    if e.pending != 0 && e.pending != kind then (Wait, e)
    else if kind !in c.readers then (Broken, e)
    else
      var e1 := e.(pending := kind);
      if |s| - 1 <= 3 then (Wait, e1) else
      var size := Unwire(c.order, s[1..5]);
      if size > c.segmentSize then (Broken, e1)
      else if size > |s| - 5 then (Wait, e1)
      else (Again(5 + size), e1.(frameData := e.frameData + s[5..5 + size]))
  }

  function ReadMessages(c: Settings, e: Endpoint): (r: (Verdict, Endpoint))
    requires e.readBuffer != []
    decreases |e.readBuffer|
  {
    var (v, e1) := ReadMessage(c, e);
    if !v.Again? then (v, e1) else
    var e2 := e1.(readBuffer := e.readBuffer[v.used..]);
    if e2.readBuffer == [] then (v, e2) else ReadMessages(c, e2)
  }

  /** Takes frames of the pending kind from the frame data and delivers them. */
  function TakeFrames(c: Settings, e: Endpoint): Endpoint
    requires c.Valid() && e.pending in c.readers
    decreases |e.frameData|
  {
    match ReadFrame(c.order, c.readers[e.pending], e.frameData)
    case Eof => e
    case Parsed(values, used) =>
      var e1 := e.(delivered := e.delivered + [Frame(e.pending, values)], frameData := e.frameData[used..]);
      if e1.frameData == [] then e1 else TakeFrames(c, e1)
  }

  datatype Quant = JobDone | NeedSleep | Interrupt | Undefined

  /** What is left to do after the messages were read. */
  function AfterMessages(c: Settings, v: Verdict, e: Endpoint): (Quant, Endpoint)
    requires c.Valid() && (e.pending == 0 || e.pending in c.readers)
  {
    match v
    case Fatal => (Interrupt, e)
    case Cut => (Undefined, e)
    case Broken => (JobDone, e.(readBuffer := [], frameData := [], pending := 0))
    case _ =>
      var e1 := if e.pending == 0 then e else TakeFrames(c, e);
      (JobDone, if e1.frameData == [] then e1.(pending := 0) else e1)
  }

  lemma {:induction false} ReadMessagesKeepsPending(c: Settings, e: Endpoint)
    requires e.readBuffer != [] && (e.pending == 0 || e.pending in c.readers)
    ensures var p := ReadMessages(c, e).1.pending; p == 0 || p in c.readers
    decreases |e.readBuffer|
  {
    hide Unwire;
    var (v, e1) := ReadMessage(c, e);
    if v.Again? {
      var e2 := e1.(readBuffer := e.readBuffer[v.used..]);
      if e2.readBuffer != [] {
        ReadMessagesKeepsPending(c, e2);
      }
    }
  }

  /** A read that brings `incoming`; no bytes means there was nothing to read. */
  function Read(c: Settings, e: Endpoint, incoming: seq<Byte>): (Quant, Endpoint)
    requires c.Valid() && (e.pending == 0 || e.pending in c.readers)
  {
    if incoming == [] then (NeedSleep, e) else
    var e1 := e.(readBuffer := e.readBuffer + incoming, unacknowledged := e.unacknowledged + |incoming|);
    ReadMessagesKeepsPending(c, e1);
    var (v, e2) := ReadMessages(c, e1);
    AfterMessages(c, v, e2)
  }

  // ----- Writing -----

  /** What the clocks say at a write, and how many messages the socket takes before it is full. */
  datatype Moment = Moment(
    lineTestDue: bool, lineTestOverdue: bool, statusDue: bool, statusCount: nat, time: nat, room: nat)

  ghost predicate GoodMoment(m: Moment) {
    m.statusCount < 0x1_0000 && m.time < Power256(8)
  }

  function QueueAck(e: Endpoint): Endpoint {
    if e.unacknowledged > e.minimalRead then
      e.(segments := [Ack(e.unacknowledged % LENGTH_LIMIT)] + e.segments, unacknowledged := 0)
    else e
  }

  function QueueLineTest(e: Endpoint, m: Moment): Endpoint {
    if !e.lineTestQueued && ((e.segments == [] && m.lineTestDue && e.queue == []) || m.lineTestOverdue) then
      e.(segments := [LineTest] + e.segments, lineTestQueued := true)
    else e
  }

  function QueueStatus(c: Settings, e: Endpoint, m: Moment): Endpoint {
    if c.withStatus && (e.segments == [] || !e.segments[0].Status?) && m.statusDue then
      e.(segments := [Status(m.statusCount)] + e.segments)
    else e
  }

  function QueueOptions(c: Settings, e: Endpoint, m: Moment): Endpoint {
    if e.optionsDue then
      e.(segments := e.segments + [Options(e.receiveSize, c.version, m.time)], optionsDue := false)
    else e
  }

  function Split(size: nat, kind: nat, bytes: seq<Byte>): seq<Message>
    requires size > 0
    decreases |bytes|
  {
    if bytes == [] then [] else
    var n := Min(size, |bytes|);
    [Segment(kind, bytes[..n])] + Split(size, kind, bytes[n..])
  }

  function SplitAll(c: Settings, fs: seq<Frame>): seq<Message>
    requires c.Valid() && forall f | f in fs :: c.Good(f)
  {
    if fs == [] then [] else Split(c.segmentSize, fs[0].kind, c.FrameBytes(fs[0])) + SplitAll(c, fs[1..])
  }

  function QueueSegments(c: Settings, e: Endpoint): Endpoint
    requires c.Valid() && forall f | f in e.queue :: c.Good(f)
  {
    e.(segments := e.segments + SplitAll(c, e.queue), queue := [])
  }

  const SIZE_LIMIT: nat := 0x1_0000_0000_0000_0000

  /** How many segments are sent: while they fit the window. The difference is taken on unsigned numbers. */
  function Sendable(c: Settings, us: seq<Message>, waiting: nat, window: nat, room: nat): (n: nat)
    ensures n <= |us| && (room == 0 ==> n == 0)
    decreases |us|
  {
    if us == [] then 0 else
    var size := |MessageBytes(c, us[0])|;
    if (size > (window - waiting) % SIZE_LIMIT && size > 1) || room == 0 then 0
    else if waiting + size >= window then 1
    else 1 + Sendable(c, us[1..], waiting + size, window, room - 1)
  }

  function Send(c: Settings, e: Endpoint, n: nat): Endpoint
    requires n <= |e.segments|
  {
    e.(segments := e.segments[n..], waiting := e.waiting + |Bytes(c, e.segments[..n])|,
       lineTestQueued := e.lineTestQueued && n == 0)
  }

  function Prepare(c: Settings, e: Endpoint, m: Moment): Endpoint
    requires c.Valid() && forall f | f in e.queue :: c.Good(f)
  {
    QueueSegments(c, QueueOptions(c, QueueStatus(c, QueueLineTest(QueueAck(e), m), m), m))
  }

  /** Nothing at all is written, not even an acknowledgement, while the window is used up. */
  function Write(c: Settings, e: Endpoint, m: Moment): (Quant, Endpoint, seq<Message>)
    requires c.Valid() && forall f | f in e.queue :: c.Good(f)
  {
    if e.waiting >= e.window then (NeedSleep, e, []) else
    var e1 := Prepare(c, e, m);
    var n := Sendable(c, e1.segments, e1.waiting, e1.window, m.room);
    (if n == 0 then NeedSleep else JobDone, Send(c, e1, n), e1.segments[..n])
  }
}
