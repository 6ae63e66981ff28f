/**
  The handler of one end of a connection, working on its buffers in place; every method does what the protocol says.
 */
module FrameHandler {
  import opened ByteStream
  import opened FrameCodec
  import opened FrameProtocol
  import opened ByteBuffer
  import opened FrameDelivery
  import SocketFrame

  datatype ConsumeState = Taken | BrokenInput | Incomplete | FatalError | Uninitialised

  /** What the caller makes of the state and of the position in the read buffer. */
  function Outcome(state: ConsumeState, eof: bool, readAt: nat): Verdict {
    match state
    case Taken => if eof then Wait else Again(readAt)
    case BrokenInput => Broken
    case Incomplete => Wait
    case FatalError => Fatal
    case Uninitialised => Cut
  }

  /** Whether the last message was taken or waits makes no difference to what follows. */
  predicate SameVerdict(v: Verdict, state: ConsumeState) {
    match v
    case Fatal => state == FatalError
    case Broken => state == BrokenInput
    case Cut => state == Uninitialised
    case _ => state == Taken
  }

  function Serialized(c: Settings, us: seq<Message>): (r: seq<seq<Byte>>)
    ensures |r| == |us|
  {
    seq(|us|, i requires 0 <= i < |us| => MessageBytes(c, us[i]))
  }

  lemma OneByte(p: nat, v: nat)
    requires v < 256
    ensures Wire(p, v, 1) == [v] && Unwire(p, [v]) == v
  {
    hide Xor, Permute;
    var s: seq<Byte> := [v];
    assert ToBytes(v, 1) == s;
    assert p % 1 == 0;
    PermuteByZero(s);
    assert s[1..] == [];
    assert FromBytes(s) == v;
  }

  lemma OverwriteAtEnd(s: seq<Byte>, block: seq<Byte>)
    ensures Overwrite(s, |s|, block) == s + block
  {
  }

  lemma SerializedJoins(c: Settings, us: seq<Message>, vs: seq<Message>)
    ensures Serialized(c, us + vs) == Serialized(c, us) + Serialized(c, vs)
  {
    hide MessageBytes;
    var l, r := Serialized(c, us + vs), Serialized(c, us) + Serialized(c, vs);
    forall i | 0 <= i < |us| + |vs| ensures l[i] == r[i] {
    }
    assert l == r;
  }

  lemma SerializedOne(c: Settings, u: Message)
    ensures Serialized(c, [u]) == [MessageBytes(c, u)]
  {
    hide MessageBytes;
  }

  class SocketFrameHandler {
    const c: Settings
    const sendSize: nat
    const receiveSize: nat
    const minimalRead: nat
    const readBuffer: ByteOrderBuffer
    const frameBuffer: ByteOrderBuffer
    var pending: nat
    var delivered: seq<Frame>
    var unacknowledged: nat
    var waiting: nat
    var window: nat
    var segments: seq<seq<Byte>>
    ghost var messages: seq<Message>
    var queue: seq<Frame>
    var optionsDue: bool
    var lineTestQueued: bool

    ghost predicate Valid()
      reads this, readBuffer, frameBuffer
    {
      && c.Valid() && readBuffer != frameBuffer && readBuffer.Valid() && frameBuffer.Valid()
      && frameBuffer.writeAt == |frameBuffer.data|
      && (pending == 0 || pending in c.readers)
      && (forall f | f in queue :: c.Good(f))
      && segments == Serialized(c, messages)
      && forall u | u in messages && u.Segment? :: u.kind in c.readers
    }

    ghost function View(): Endpoint
      reads this, readBuffer, frameBuffer
    {
      Endpoint(readBuffer.data, frameBuffer.data, pending, delivered, unacknowledged, waiting, window,
               messages, queue, optionsDue, lineTestQueued, sendSize, receiveSize, minimalRead)
    }

    constructor (c: Settings, sendSize: nat, receiveSize: nat, minimalRead: nat)
      requires c.Valid()
      ensures Valid() && this.c == c && View() == Fresh(sendSize, receiveSize, minimalRead)
      ensures fresh(readBuffer) && fresh(frameBuffer)
    {
      this.c, this.sendSize, this.receiveSize, this.minimalRead := c, sendSize, receiveSize, minimalRead;
      readBuffer := new ByteOrderBuffer();
      frameBuffer := new ByteOrderBuffer();
      pending, delivered, unacknowledged, waiting, window := 0, [], 0, 0, 4 * 1024 * 8 / 10;
      segments, messages, queue, optionsDue, lineTestQueued := [], [], [], true, false;
    }

    method QueueFrame(f: Frame)
      requires Valid() && c.Good(f)
      modifies this
      ensures Valid() && View() == old(View()).(queue := old(View()).queue + [f])
    {
      queue := queue + [f];
    }

    // ----- Reading -----

    /** Takes one message out of the read buffer, or finds out why it cannot. */
    method ConsumeReadBuffer() returns (state: ConsumeState)
      requires Valid() && readBuffer.data != [] && readBuffer.readAt == 0 && !readBuffer.eofRead
      modifies this, readBuffer, frameBuffer
      ensures Valid()
      ensures ReadMessage(c, old(View())) == (Outcome(state, readBuffer.eofRead, readBuffer.readAt), View())
    {
      hide SocketFrame.FrameStream.Taken, Unwire, WindowFor, Wire;
      ghost var s := readBuffer.data;
      var stream := new DataStream(readBuffer, c.order);
      var kind := stream.ReadScalar(1);
      assert s[..1] == [s[0]];
      OneByte(c.order, s[0]);
      if kind == ACK {
        assert readBuffer.Unread() == s[1..];
        var size := stream.ReadScalar(4);
        assert |s| >= 5 ==> s[1..][..4] == s[1..5];
        waiting := waiting - Min(waiting, size);
        return Taken;
      } else if kind == LINE_TEST {
        return Taken;
      } else if kind == CONN_OPTIONS {
        state := ConsumeOptions(stream);
      } else if c.withStatus && kind == CONN_STATUS {
        var queued := stream.ReadScalar(2);
        return Taken;
      } else {
        state := ConsumeSegment(stream, kind);
      }
    }

    method ConsumeOptions(stream: DataStream) returns (state: ConsumeState)
      requires Valid() && stream.buffer == readBuffer && stream.order == c.order
      requires readBuffer.data != [] && readBuffer.readAt == 1 && !readBuffer.eofRead
      requires readBuffer.data[0] as int == CONN_OPTIONS
      modifies this, readBuffer
      ensures Valid()
      ensures ReadMessage(c, old(View())) == (Outcome(state, readBuffer.eofRead, readBuffer.readAt), View())
    {
      hide Unwire, WindowFor, ReadSegment;
      ghost var s := readBuffer.data;
      var bufferSize := stream.ReadScalar(4);
      assert |s| >= 5 ==> s[1..][..4] == s[1..5];
      var version := stream.ReadScalar(4);
      assert |s| >= 9 ==> s[5..][..4] == s[5..9];
      var timestamp := stream.ReadScalar(8);
      if readBuffer.eofRead {
        return Uninitialised;
      }
      window := WindowFor(sendSize, bufferSize);
      if version != c.version {
        return FatalError;
      }
      return Taken;
    }

    /** Moves the data of a segment to the frame buffer; if it is not all there, the room made for it is given back. */
    method ConsumeSegment(stream: DataStream, kind: nat) returns (state: ConsumeState)
      requires Valid() && stream.buffer == readBuffer && stream.order == c.order
      requires readBuffer.data != [] && readBuffer.readAt == 1 && !readBuffer.eofRead
      requires readBuffer.data[0] as int == kind
      modifies this, readBuffer, frameBuffer
      ensures Valid()
      ensures ReadSegment(c, old(View())) == (Outcome(state, readBuffer.eofRead, readBuffer.readAt), View())
    {
      hide SocketFrame.FrameStream.Taken, Unwire;
      ghost var s := readBuffer.data;
      if pending != 0 && pending != kind {
        return Incomplete;
      }
      if kind !in c.readers {
        return BrokenInput;
      }
      pending := kind;
      var frameLength := |readBuffer.data| - readBuffer.readAt;
      if frameLength <= 3 {
        return Incomplete;
      }
      var size := stream.ReadScalar(4);
      assert s[1..][..4] == s[1..5];
      if size > c.segmentSize {
        return BrokenInput;
      }
      if size > frameLength {
        return Incomplete;
      }
      assert readBuffer.Unread() == s[5..];
      assert size <= |s[5..]| ==> s[5..][..size] == s[5..5 + size];
      var ok := MoveBlock(stream, size);
      return Taken;
    }

    /** Moves bytes behind the frame data; if the read buffer runs out, the room made for them is given back. */
    method MoveBlock(stream: DataStream, size: nat) returns (ok: bool)
      requires stream.buffer == readBuffer && readBuffer != frameBuffer && readBuffer.Valid() && frameBuffer.Valid()
      requires frameBuffer.writeAt == |frameBuffer.data| && !readBuffer.eofRead
      modifies readBuffer, frameBuffer
      ensures readBuffer.Valid() && frameBuffer.Valid() && frameBuffer.writeAt == |frameBuffer.data|
      ensures readBuffer.data == old(readBuffer.data) && readBuffer.eofRead == !ok
      ensures ok == (size <= |old(readBuffer.Unread())|)
      ensures ok ==>
        && frameBuffer.data == old(frameBuffer.data) + old(readBuffer.Unread())[..size]
        && readBuffer.readAt == old(readBuffer.readAt) + size
      ensures !ok ==> frameBuffer.data == old(frameBuffer.data)
    {
      ghost var data := frameBuffer.data;
      var block;
      frameBuffer.PosWrite(size);
      ok, block := stream.ReadBlock(size);
      if ok {
        frameBuffer.data := frameBuffer.data[..frameBuffer.writeAt] + block;
        frameBuffer.writeAt := frameBuffer.writeAt + size;
        assert frameBuffer.data == data + block;
      } else {
        frameBuffer.SetSize(|frameBuffer.data| - size);
        assert frameBuffer.data == data;
      }
    }

    /** Takes messages until the read buffer is empty or a message cannot be taken. */
    method ConsumeMessages() returns (state: ConsumeState)
      requires Valid() && readBuffer.data != [] && readBuffer.readAt == 0 && !readBuffer.eofRead
      modifies this, readBuffer, frameBuffer
      ensures Valid()
      ensures var (v, e) := ReadMessages(c, old(View()));
        e == View() && SameVerdict(v, state)
    {
      hide ReadMessage;
      ghost var e := View();
      while true
        invariant Valid() && readBuffer.data != [] && readBuffer.readAt == 0 && !readBuffer.eofRead
        invariant ReadMessages(c, e) == ReadMessages(c, View())
        decreases |readBuffer.data|
      {
        state := ConsumeReadBuffer();
        if state != Taken || readBuffer.eofRead {
          if state == Incomplete {
            state := Taken;
          }
          return;
        }
        var removed := readBuffer.RemoveFromStart(readBuffer.readAt);
        if readBuffer.data == [] {
          return;
        }
      }
    }

    /** Reads one frame of the pending kind; a frame that is there is delivered. */
    method ConsumeFrameBuffer() returns (state: ConsumeState)
      requires Valid() && pending in c.readers && frameBuffer.readAt == 0 && !frameBuffer.eofRead
      modifies this`delivered, frameBuffer
      ensures Valid() && frameBuffer.data == old(frameBuffer.data)
      ensures match ReadFrame(c.order, c.readers[pending], frameBuffer.data)
        case Eof => state == Incomplete && delivered == old(delivered)
        case Parsed(values, used) =>
          && state == Taken && !frameBuffer.eofRead && frameBuffer.readAt == used
          && delivered == old(delivered) + [Frame(pending, values)]
    {
      hide ReadFrame;
      var stream := new SocketFrame.FrameStream(frameBuffer, c.order);
      assert frameBuffer.Unread() == frameBuffer.data;
      var result, values := stream.ReadFrame(c.readers[pending]);
      if result == SocketFrame.StIncomplete || frameBuffer.eofRead {
        return Incomplete;
      }
      delivered := delivered + [Frame(pending, values)];
      return Taken;
    }

    /** Delivers every whole frame in the frame buffer. */
    method ConsumeFrames()
      requires Valid() && pending in c.readers && frameBuffer.readAt == 0 && !frameBuffer.eofRead
      modifies this`delivered, frameBuffer
      ensures Valid() && View() == TakeFrames(c, old(View()))
    {
      hide ReadFrame;
      ghost var e := View();
      while true
        invariant Valid() && frameBuffer.readAt == 0 && !frameBuffer.eofRead
        invariant TakeFrames(c, e) == TakeFrames(c, View())
        decreases |frameBuffer.data|
      {
        var state := ConsumeFrameBuffer();
        if state != Taken {
          return;
        }
        var removed := frameBuffer.RemoveFromStart(frameBuffer.readAt);
        if frameBuffer.data == [] {
          return;
        }
      }
    }

    /** Takes in what the channel brought; nothing means the channel had nothing to read. */
    method ReadFrames(incoming: seq<Byte>) returns (result: Quant)
      requires Valid()
      modifies this, readBuffer, frameBuffer
      ensures Valid() && (result, View()) == Read(c, old(View()), incoming)
    {
      hide EncodeAll, FitsAll, ReadMessages, SameVerdict;
      if incoming == [] {
        return NeedSleep;
      }
      ghost var e := View();
      var currentSize := |readBuffer.data|;
      readBuffer.Append(incoming);
      readBuffer.ResetRead();
      unacknowledged := unacknowledged + |readBuffer.data| - currentSize;
      ReadMessagesKeepsPending(c, View());
      ghost var (v, e1) := ReadMessages(c, View());
      var state := ConsumeMessages();
      result := DeliverFrames(v, state);
    }

    /** What follows once the messages were taken. */
    method DeliverFrames(ghost v: Verdict, state: ConsumeState) returns (result: Quant)
      requires Valid() && SameVerdict(v, state)
      modifies this, readBuffer, frameBuffer
      ensures Valid() && (result, View()) == AfterMessages(c, v, old(View()))
    {
      hide SocketFrame.FrameStream.Taken, TakeFrames;
      if state == FatalError {
        return Interrupt;
      }
      if state == Uninitialised {
        return Undefined;
      }
      frameBuffer.ResetRead();
      if state != BrokenInput && pending != 0 {
        ConsumeFrames();
      }
      if frameBuffer.data == [] {
        pending := 0;
      }
      if state == BrokenInput {
        readBuffer.Clear();
        frameBuffer.Clear();
        pending := 0;
      }
      return JobDone;
    }

    // ----- Writing -----

    /** A buffer that begins with the type of a message. */
    method BeginMessage(kind: nat) returns (stream: DataStream)
      requires kind < 256
      ensures fresh(stream.buffer) && stream.order == c.order && stream.buffer.Valid()
      ensures stream.buffer.data == [kind as Byte] && stream.buffer.writeAt == 1
    {
      hide Wire, Overwrite;
      var buffer := new ByteOrderBuffer();
      stream := new DataStream(buffer, c.order);
      stream.WriteScalar(kind, 1);
      OneByte(c.order, kind);
      OverwriteAtEnd([], [kind as Byte]);
    }

    method AppendScalar(stream: DataStream, v: nat, size: Size)
      requires stream.order == c.order && stream.buffer.Valid() && stream.buffer.writeAt == |stream.buffer.data|
      modifies stream.buffer
      ensures stream.buffer.Valid() && stream.buffer.data == old(stream.buffer.data) + Wire(c.order, v, size)
      ensures stream.buffer.writeAt == |stream.buffer.data|
    {
      hide Wire, Overwrite;
      OverwriteAtEnd(stream.buffer.data, Wire(c.order, v, size));
      stream.WriteScalar(v, size);
    }

    method PushFront(bytes: seq<Byte>, ghost u: Message)
      requires Valid() && bytes == MessageBytes(c, u) && (u.Segment? ==> u.kind in c.readers)
      modifies this`segments, this`messages
      ensures Valid() && messages == [u] + old(messages)
    {
      hide MessageBytes, Settings.Good, Settings.Valid, Serialized;
      SerializedOne(c, u);
      SerializedJoins(c, [u], messages);
      segments, messages := [bytes] + segments, [u] + messages;
    }

    method PushBack(bytes: seq<Byte>, ghost u: Message)
      requires Valid() && bytes == MessageBytes(c, u) && (u.Segment? ==> u.kind in c.readers)
      modifies this`segments, this`messages
      ensures Valid() && messages == old(messages) + [u]
    {
      hide MessageBytes, Settings.Good, Settings.Valid, Serialized;
      SerializedOne(c, u);
      SerializedJoins(c, messages, [u]);
      segments, messages := segments + [bytes], messages + [u];
    }

    method WriteAcknowledgement()
      requires Valid()
      modifies this
      ensures Valid() && View() == QueueAck(old(View()))
    {
      hide Wire, Settings.Good, Settings.Valid, Serialized;
      if unacknowledged > minimalRead {
        var stream := BeginMessage(ACK);
        AppendScalar(stream, unacknowledged % LENGTH_LIMIT, 4);
        PushFront(stream.buffer.data, Ack(unacknowledged % LENGTH_LIMIT));
        unacknowledged := 0;
      }
    }

    method WriteLineTest(m: Moment)
      requires Valid()
      modifies this
      ensures Valid() && View() == QueueLineTest(old(View()), m)
    {
      hide Wire, Settings.Good, Settings.Valid;
      if !lineTestQueued && ((segments == [] && m.lineTestDue && queue == []) || m.lineTestOverdue) {
        var stream := BeginMessage(LINE_TEST);
        PushFront(stream.buffer.data, LineTest);
        lineTestQueued := true;
      }
    }

    method WriteStatus(m: Moment)
      requires Valid()
      modifies this
      ensures Valid() && View() == QueueStatus(c, old(View()), m)
    {
      hide Wire, Settings.Good, Settings.Valid;
      if segments != [] {
        FirstByteTells(c, messages[0]);
      }
      if c.withStatus && (segments == [] || segments[0][0] as int != CONN_STATUS) && m.statusDue {
        var stream := BeginMessage(CONN_STATUS);
        AppendScalar(stream, m.statusCount, 2);
        PushFront(stream.buffer.data, Status(m.statusCount));
      }
    }

    method WriteOptions(m: Moment)
      requires Valid()
      modifies this
      ensures Valid() && View() == QueueOptions(c, old(View()), m)
    {
      hide Wire, Settings.Good, Settings.Valid, Serialized;
      if optionsDue {
        optionsDue := false;
        var stream := BeginMessage(CONN_OPTIONS);
        AppendScalar(stream, receiveSize, 4);
        AppendScalar(stream, c.version, 4);
        AppendScalar(stream, m.time, 8);
        PushBack(stream.buffer.data, Options(receiveSize, c.version, m.time));
      }
    }

    method SegmentBytes(kind: nat, part: seq<Byte>) returns (bytes: seq<Byte>)
      requires kind < 256
      ensures bytes == MessageBytes(c, Segment(kind, part))
    {
      hide Wire;
      var stream := BeginMessage(kind);
      AppendScalar(stream, |part|, 4);
      bytes := stream.buffer.data + part;
    }

    method FrameBytes(f: Frame) returns (bytes: seq<Byte>)
      requires c.Good(f)
      ensures bytes == c.FrameBytes(f)
    {
      hide WriteFrame, Overwrite;
      var buffer := new ByteOrderBuffer();
      var stream := new SocketFrame.FrameStream(buffer, c.order);
      stream.WriteFrame(c.readers[f.kind], f.values);
      OverwriteAtEnd([], c.FrameBytes(f));
      bytes := buffer.data;
    }

    /** Serializes a frame and cuts it into segments. */
    method WriteSegments(f: Frame)
      requires Valid() && c.Good(f)
      modifies this`segments, this`messages
      ensures Valid() && messages == old(messages) + Split(c.segmentSize, f.kind, c.FrameBytes(f))
    {
      hide MessageBytes, Serialized, Settings.FrameBytes, Split, Writable;
      var bytes := FrameBytes(f);
      var offset := 0;
      ghost var us := messages;
      ghost var all := Split(c.segmentSize, f.kind, bytes);
      ghost var sent: seq<Message> := [];
      assert bytes[0..] == bytes;
      while offset < |bytes|
        invariant 0 <= offset && Valid() && messages == us + sent
        invariant all == sent + Split(c.segmentSize, f.kind, bytes[Min(offset, |bytes|)..])
      {
        SplitStep(c.segmentSize, f.kind, bytes, offset);
        var length := Min(c.segmentSize, |bytes| - offset);
        var part := bytes[offset..offset + length];
        var segment := SegmentBytes(f.kind, part);
        PushBack(segment, Segment(f.kind, part));
        sent := sent + [Segment(f.kind, part)];
        offset := offset + c.segmentSize;
      }
      SplitNothing(c.segmentSize, f.kind);
      assert bytes[|bytes|..] == [];
    }

    /** Takes every frame from the queue. */
    method WriteQueue()
      requires Valid()
      modifies this
      ensures Valid() && View() == QueueSegments(c, old(View()))
    {
      hide Split, Settings.Good, Settings.FrameBytes, Serialized;
      ghost var e := View();
      ghost var all := messages + SplitAll(c, queue);
      while queue != []
        invariant Valid() && all == messages + SplitAll(c, queue)
        invariant View() == e.(segments := messages, queue := queue)
        decreases |queue|
      {
        var f := queue[0];
        queue := queue[1..];
        WriteSegments(f);
      }
    }

    /** Takes the front segment out once it was written. */
    method PopFront()
      requires Valid() && segments != []
      modifies this
      ensures Valid() && messages == old(messages[1..])
      ensures View() == old(View()).(segments := messages, lineTestQueued := false,
                                     waiting := old(View()).waiting + |MessageBytes(c, old(messages[0]))|)
    {
      hide MessageBytes, Settings.Valid, Settings.Good;
      waiting := waiting + |segments[0]|;
      segments, messages := segments[1..], messages[1..];
      lineTestQueued := false;
    }

    /** Writes segments to the channel while they fit the window and the socket takes them. */
    method SendSegments(room: nat) returns (jobDone: bool, out: seq<Byte>)
      requires Valid()
      modifies this
      ensures Valid()
      ensures var e := old(View());
        var n := Sendable(c, e.segments, e.waiting, e.window, room);
        View() == Send(c, e, n) && out == Bytes(c, e.segments[..n]) && jobDone == (n > 0)
    {
      hide ByteOrderBuffer.Valid, Bytes, MessageBytes, Send, Sendable, Settings.Valid, SocketFrame.FrameStream.Valid,
        Valid, View;
      ghost var e := View();
      ghost var us := messages;
      ghost var total := Sendable(c, us, waiting, window, room);
      ghost var k := 0;
      var slots := room;
      jobDone, out := false, [];
      SentNothing(c, e);
      SegmentsMatch(0, e);
      while segments != []
        invariant Valid() && k <= |us| == |e.segments| && |segments| == |us| - k
        invariant total == k + Sendable(c, us[k..], waiting, window, slots)
        invariant out == Bytes(c, us[..k]) && View() == Send(c, e, k) && jobDone == (k > 0)
        decreases |us| - k
      {
        SendStep(c, e, k, waiting, window, slots);
        SegmentsMatch(k, e);
        var front := segments[0];
        var fits := Fits(|front|);
        if !fits || slots == 0 {
          break;
        }
        PopFront();
        jobDone, slots := true, slots - 1;
        out := out + front;
        k := k + 1;
        SegmentsMatch(k, e);
        if waiting >= window {
          break;
        }
      }
    }

    /** Writes what the window allows, acknowledgements first; nothing while the window is used up. */
    method WriteFrames(m: Moment) returns (result: Quant, out: seq<Byte>)
      requires Valid()
      modifies this
      ensures Valid()
      ensures var (q, e, sent) := Write(c, old(View()), m); result == q && View() == e && out == Bytes(c, sent)
    {
      hide QueueSegments, QueueStatus, Send;
      assert forall f | f in queue :: c.Good(f);
      assert c.Valid();
      if waiting >= window {
        assert Bytes(c, []) == [];
        return NeedSleep, [];
      }
      WriteAcknowledgement();
      WriteLineTest(m);
      WriteStatus(m);
      WriteOptions(m);
      WriteQueue();
      var jobDone;
      jobDone, out := SendSegments(m.room);
      result := if jobDone then JobDone else NeedSleep;
    }

    /** Whether so many bytes may be written now; a single byte always may. */
    method Fits(size: nat) returns (fits: bool)
      ensures fits == !(size > (window - waiting) % SIZE_LIMIT && size > 1)
    {
      var maxSize := (window - waiting) % SIZE_LIMIT;
      fits := size <= maxSize || size <= 1;
    }

    lemma SegmentsMatch(k: nat, e: Endpoint)
      requires Valid() && k <= |e.segments| && View() == Send(c, e, k)
      ensures |segments| == |e.segments| - k && messages == e.segments[k..]
      ensures segments != [] ==> segments[0] == MessageBytes(c, e.segments[k])
      ensures waiting == e.waiting + |Bytes(c, e.segments[..k])| && window == e.window
    {
      hide MessageBytes, Bytes;
    }
  }

  lemma SentNothing(c: Settings, e: Endpoint)
    ensures Send(c, e, 0) == e && Bytes(c, e.segments[..0]) == [] && e.segments[0..] == e.segments
  {
  }

  /** One round of sending. */
  lemma SendStep(c: Settings, e: Endpoint, k: nat, waiting: nat, window: nat, slots: nat)
    requires k < |e.segments|
    ensures Bytes(c, e.segments[..k + 1]) == Bytes(c, e.segments[..k]) + MessageBytes(c, e.segments[k])
    ensures var size := |MessageBytes(c, e.segments[k])|;
      && Sendable(c, e.segments[k..], waiting, window, slots)
        == (if (size > (window - waiting) % SIZE_LIMIT && size > 1) || slots == 0 then 0
            else if waiting + size >= window then 1
            else 1 + Sendable(c, e.segments[k + 1..], waiting + size, window, slots - 1))
      && Send(c, e, k + 1) == Send(c, e, k).(segments := e.segments[k..][1..], lineTestQueued := false,
                                             waiting := Send(c, e, k).waiting + size)
  {
    hide MessageBytes;
    var us := e.segments;
    assert us[k..][1..] == us[k + 1..];
    assert us[..k + 1] == us[..k] + [us[k]];
    MessagesJoin(c, us[..k], [us[k]]);
    OneMessage(c, us[k]);
  }

  lemma SplitNothing(size: nat, kind: nat)
    requires size > 0
    ensures Split(size, kind, []) == []
  {
  }

  lemma SplitStep(size: nat, kind: nat, bytes: seq<Byte>, offset: nat)
    requires size > 0 && offset < |bytes|
    ensures var n := Min(size, |bytes| - offset);
      Split(size, kind, bytes[offset..])
        == [Segment(kind, bytes[offset..offset + n])] + Split(size, kind, bytes[Min(offset + size, |bytes|)..])
  {
    var n := Min(size, |bytes| - offset);
    assert bytes[offset..][..n] == bytes[offset..offset + n];
    assert bytes[offset..][n..] == bytes[Min(offset + size, |bytes|)..];
  }

  /** Segments cannot be taken for a status: frame types start above the service types. */
  lemma FirstByteTells(c: Settings, u: Message)
    requires c.Valid() && (u.Segment? ==> u.kind in c.readers)
    ensures MessageBytes(c, u)[0] == CONN_STATUS <==> u.Status?
  {
  }
}
