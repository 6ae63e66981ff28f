/**
  What a connection keeps in each direction: the bytes on their way are whole messages, their segments and the frames
  still queued are exactly the frames not yet delivered, and acknowledgements add up.
 */
module FrameDelivery {
  import opened ByteStream
  import opened FrameCodec
  import opened FrameProtocol

  // ----- Tagged bytes -----

  type Tagged = (nat, Byte)

  function Tag(kind: nat, s: seq<Byte>): (r: seq<Tagged>)
    ensures |r| == |s|
  {
    seq(|s|, i requires 0 <= i < |s| => (kind, s[i]))
  }

  lemma TagJoins(kind: nat, a: seq<Byte>, b: seq<Byte>)
    ensures Tag(kind, a + b) == Tag(kind, a) + Tag(kind, b)
  {
  }

  /** The frame bytes that messages carry, each with the kind of its frame. */
  function Payload(us: seq<Message>): seq<Tagged> {
    if us == [] then []
    else if us[0].Segment? then Tag(us[0].kind, us[0].part) + Payload(us[1..])
    else Payload(us[1..])
  }

  function Frames(c: Settings, fs: seq<Frame>): seq<Tagged>
    requires forall f | f in fs :: c.Good(f)
  {
    if fs == [] then [] else Tag(fs[0].kind, c.FrameBytes(fs[0])) + Frames(c, fs[1..])
  }

  function Acks(us: seq<Message>): nat {
    if us == [] then 0 else (if us[0].Ack? then us[0].bytesRead else 0) + Acks(us[1..])
  }

  lemma {:induction false} MessagesJoin(c: Settings, us: seq<Message>, vs: seq<Message>)
    ensures Payload(us + vs) == Payload(us) + Payload(vs)
    ensures Acks(us + vs) == Acks(us) + Acks(vs)
    ensures Bytes(c, us + vs) == Bytes(c, us) + Bytes(c, vs)
  {
    hide MessageBytes, Tag;
    if us == [] {
      assert us + vs == vs;
    } else {
      assert (us + vs)[1..] == us[1..] + vs;
      MessagesJoin(c, us[1..], vs);
    }
  }

  lemma {:induction false} FramesJoin(c: Settings, fs: seq<Frame>, gs: seq<Frame>)
    requires (forall f | f in fs :: c.Good(f)) && (forall f | f in gs :: c.Good(f))
    ensures Frames(c, fs + gs) == Frames(c, fs) + Frames(c, gs)
  {
    hide Settings.Good, Settings.FrameBytes;
    if fs == [] {
      assert fs + gs == gs;
    } else {
      assert (fs + gs)[1..] == fs[1..] + gs;
      FramesJoin(c, fs[1..], gs);
    }
  }

  // ----- Cutting frames into segments -----

  lemma {:induction false} SplitCarries(size: nat, kind: nat, bytes: seq<Byte>)
    requires size > 0
    ensures Payload(Split(size, kind, bytes)) == Tag(kind, bytes) && Acks(Split(size, kind, bytes)) == 0
    ensures forall u | u in Split(size, kind, bytes) :: u.Segment? && u.kind == kind && 0 < |u.part| <= size
    decreases |bytes|
  {
    if bytes != [] {
      var n := Min(size, |bytes|);
      SplitCarries(size, kind, bytes[n..]);
      TagJoins(kind, bytes[..n], bytes[n..]);
      assert bytes[..n] + bytes[n..] == bytes;
    }
  }

  /** Cutting every frame into segments loses nothing and keeps the order. */
  lemma {:induction false} SplitAllCarries(c: Settings, fs: seq<Frame>)
    requires c.Valid() && forall f | f in fs :: c.Good(f)
    ensures Payload(SplitAll(c, fs)) == Frames(c, fs) && Acks(SplitAll(c, fs)) == 0
    ensures forall u | u in SplitAll(c, fs) :: GoodMessage(c, u)
  {
    hide Split, Writable, WriteFrame, Tag;
    if fs != [] {
      var head := Split(c.segmentSize, fs[0].kind, c.FrameBytes(fs[0]));
      SplitCarries(c.segmentSize, fs[0].kind, c.FrameBytes(fs[0]));
      SplitAllCarries(c, fs[1..]);
      MessagesJoin(c, head, SplitAll(c, fs[1..]));
    }
  }

  // ----- One message at the front of the read buffer -----

  /** What taking a whole message does. */
  function Apply(e: Endpoint, u: Message): Endpoint {
    match u
    case Ack(n) => e.(waiting := e.waiting - Min(e.waiting, n))
    case LineTest => e
    case Options(size, _, _) => e.(window := WindowFor(e.sendSize, size))
    case Status(_) => e
    case Segment(kind, part) => e.(pending := kind, frameData := e.frameData + part)
  }

  /** The message is of another kind than the frames waiting to be taken apart. */
  predicate Switches(e: Endpoint, u: Message) {
    u.Segment? && e.pending != 0 && e.pending != u.kind
  }

  lemma FieldAt(p: nat, before: seq<Byte>, v: nat, size: nat, rest: seq<Byte>)
    requires IsSize(size) && v < Power256(size)
    ensures var s := before + Wire(p, v, size) + rest; var i := |before|;
      s[i..i + size] == Wire(p, v, size) && Unwire(p, s[i..i + size]) == v
  {
    hide Wire, Unwire, Power256;
    WireRoundTrip(p, v, size);
  }

  lemma WholeMessage(c: Settings, e: Endpoint, u: Message, rest: seq<Byte>)
    requires c.Valid() && GoodMessage(c, u) && e.readBuffer == MessageBytes(c, u) + rest
    ensures ReadMessage(c, e) == if Switches(e, u) then (Wait, e) else (Again(|MessageBytes(c, u)|), Apply(e, u))
  {
    hide Wire, Unwire, Power256, WindowFor;
    FourBytes();
    var p, s := c.order, e.readBuffer;
    match u
    case Ack(n) =>
      FieldAt(p, [ACK], n, 4, rest);
    case LineTest =>
    case Options(size, version, time) =>
      WholeOptions(c, size, version, time, rest);
    case Status(n) =>
    case Segment(kind, part) =>
      WholeSegment(c, e, kind, part, rest);
  }

  lemma WholeOptions(c: Settings, size: nat, version: nat, time: nat, rest: seq<Byte>)
    requires size < LENGTH_LIMIT && version < LENGTH_LIMIT && time < Power256(8)
    ensures var s := MessageBytes(c, Options(size, version, time)) + rest;
      |s| >= 17 && Unwire(c.order, s[1..5]) == size && Unwire(c.order, s[5..9]) == version
  {
    hide Wire, Unwire, Power256;
    FourBytes();
    var p := c.order;
    var s := MessageBytes(c, Options(size, version, time)) + rest;
    var a, b, d := Wire(p, size, 4), Wire(p, version, 4), Wire(p, time, 8);
    FieldAt(p, [CONN_OPTIONS], size, 4, b + d + rest);
    FieldAt(p, [CONN_OPTIONS] + a, version, 4, d + rest);
    assert s == [CONN_OPTIONS] + a + (b + d + rest) == ([CONN_OPTIONS] + a) + b + (d + rest);
  }

  lemma WholeSegment(c: Settings, e: Endpoint, kind: nat, part: seq<Byte>, rest: seq<Byte>)
    requires c.Valid() && GoodMessage(c, Segment(kind, part))
    requires e.readBuffer == MessageBytes(c, Segment(kind, part)) + rest
    ensures ReadSegment(c, e) == if Switches(e, Segment(kind, part)) then (Wait, e)
      else (Again(|MessageBytes(c, Segment(kind, part))|), Apply(e, Segment(kind, part)))
  {
    hide Wire, Unwire, Power256;
    FourBytes();
    FieldAt(c.order, [kind], |part|, 4, part + rest);
    assert e.readBuffer == [kind as Byte] + Wire(c.order, |part|, 4) + (part + rest);
    assert e.readBuffer[5..5 + |part|] == part;
  }

  /** A message that is not all there is left where it is. */
  lemma CutMessage(c: Settings, e: Endpoint, u: Message)
    requires c.Valid() && GoodMessage(c, u) && !u.Options?
    requires e.readBuffer != [] && e.readBuffer < MessageBytes(c, u)
    ensures ReadMessage(c, e) == (Wait, if u.Segment? && !Switches(e, u) then e.(pending := u.kind) else e)
  {
    hide Wire, Unwire, Power256;
    FourBytes();
    assert e.readBuffer[0] == MessageBytes(c, u)[0];
    if u.Segment? && |e.readBuffer| >= 5 {
      FieldAt(c.order, [u.kind], |u.part|, 4, u.part);
      assert e.readBuffer[1..5] == MessageBytes(c, u)[1..5];
    }
  }

  // ----- Reading what is on its way -----

  ghost predicate GoodMessages(c: Settings, us: seq<Message>) {
    forall i | 0 <= i < |us| :: GoodMessage(c, us[i])
  }

  /** The read buffer and the channel hold exactly the messages `us`. */
  ghost predicate Holds(c: Settings, e: Endpoint, channel: seq<Byte>, us: seq<Message>) {
    && GoodMessages(c, us)
    && e.readBuffer + channel == Bytes(c, us)
    && (e.pending == 0 || e.pending in c.readers)
    && (e.frameData != [] ==> e.pending != 0)
  }

  /** How many of these messages lie wholly within their first `size` bytes. */
  function Whole(c: Settings, us: seq<Message>, size: nat): (k: nat)
    ensures k <= |us|
  {
    if us == [] || size < |MessageBytes(c, us[0])| then 0
    else 1 + Whole(c, us[1..], size - |MessageBytes(c, us[0])|)
  }

  /** How many of them one read takes: those that are whole, up to a segment of another kind. */
  function Taken(c: Settings, pending: nat, us: seq<Message>, size: nat): (k: nat)
    ensures k <= |us|
    decreases |us|
  {
    if us == [] || size < |MessageBytes(c, us[0])| || (us[0].Segment? && pending != 0 && pending != us[0].kind) then 0
    else 1 + Taken(c, if us[0].Segment? then us[0].kind else pending, us[1..], size - |MessageBytes(c, us[0])|)
  }

  /** The segments among these messages are of one kind. */
  ghost predicate OneKind(us: seq<Message>) {
    forall i, j | 0 <= i < j < |us| && us[i].Segment? && us[j].Segment? :: us[i].kind == us[j].kind
  }

  /** And of this kind, unless it is zero. */
  ghost predicate OfKind(kind: nat, us: seq<Message>) {
    OneKind(us) && (kind != 0 ==> forall i | 0 <= i < |us| && us[i].Segment? :: us[i].kind == kind)
  }

  /** All whole messages are taken exactly if their segments are of one kind, that of the frame data. */
  lemma {:induction false} TakenIsWhole(c: Settings, pending: nat, us: seq<Message>, size: nat)
    requires forall u | u in us && u.Segment? :: u.kind != 0
    ensures Taken(c, pending, us, size) <= Whole(c, us, size)
    ensures Taken(c, pending, us, size) == Whole(c, us, size) <==> OfKind(pending, us[..Whole(c, us, size)])
    decreases |us|
  {
    hide MessageBytes, OfKind;
    if us == [] || size < |MessageBytes(c, us[0])| {
      assert OfKind(pending, us[..0]) by { NoneOfKind(pending, us[..0]); }
    } else {
      var k := Whole(c, us, size);
      assert us[..k][0] == us[0] && us[..k][1..] == us[1..][..k - 1];
      OfKindStep(pending, us[..k]);
      if !(us[0].Segment? && pending != 0 && pending != us[0].kind) {
        TakenIsWhole(c, if us[0].Segment? then us[0].kind else pending, us[1..], size - |MessageBytes(c, us[0])|);
      }
    }
  }

  lemma NoneOfKind(kind: nat, us: seq<Message>)
    requires us == []
    ensures OfKind(kind, us)
  {
  }

  lemma OfKindStep(kind: nat, us: seq<Message>)
    requires us != [] && (us[0].Segment? ==> us[0].kind != 0)
    ensures OfKind(kind, us)
       <==> (!(us[0].Segment? && kind != 0 && kind != us[0].kind)
             && OfKind(if us[0].Segment? then us[0].kind else kind, us[1..]))
  {
    var rest := us[1..];
    assert forall i | 0 <= i < |rest| :: rest[i] == us[i + 1];
    assert forall i | 1 <= i < |us| :: us[i] == rest[i - 1];
  }

  /** Behind the messages taken, there is one that is whole exactly if not all whole ones were taken. */
  lemma {:induction false} BehindTaken(c: Settings, pending: nat, us: seq<Message>, size: nat)
    ensures var t := Taken(c, pending, us, size);
      && |Bytes(c, us[..t])| <= size
      && (t < Whole(c, us, size) <==> t < |us| && |MessageBytes(c, us[t])| <= size - |Bytes(c, us[..t])|)
    decreases |us|
  {
    hide MessageBytes;
    var t := Taken(c, pending, us, size);
    if t == 0 {
      assert Bytes(c, us[..0]) == [];
    } else {
      BehindTaken(c, if us[0].Segment? then us[0].kind else pending, us[1..], size - |MessageBytes(c, us[0])|);
      assert us[..t][0] == us[0] && us[..t][1..] == us[1..][..t - 1];
    }
  }

  ghost predicate IsSuffix(left: seq<Message>, us: seq<Message>) {
    |left| <= |us| && left == us[|us| - |left|..]
  }

  /** The window is as before, or what some connection options say. */
  ghost predicate WindowFrom(e: Endpoint, us: seq<Message>, window: nat) {
    window == e.window || exists u :: u in us && u.Options? && window == WindowFor(e.sendSize, u.bufferSize)
  }

  /** Only what reading messages may change was changed, and what left the wire arrived. */
  ghost predicate Took(e: Endpoint, us: seq<Message>, e1: Endpoint, left: seq<Message>) {
    && e1 == e.(readBuffer := e1.readBuffer, frameData := e1.frameData, pending := e1.pending,
                waiting := e1.waiting, window := e1.window)
    && Tag(e1.pending, e1.frameData) + Payload(left) == Tag(e.pending, e.frameData) + Payload(us)
    && Acks(left) + e.waiting == Acks(us) + e1.waiting && e1.waiting <= e.waiting
    && IsSuffix(left, us) && WindowFrom(e, us, e1.window)
  }

  lemma TookTwice(e: Endpoint, us: seq<Message>, e1: Endpoint, us1: seq<Message>, e2: Endpoint, us2: seq<Message>)
    requires Took(e, us, e1, us1) && Took(e1, us1, e2, us2)
    ensures Took(e, us, e2, us2)
  {
    assert IsSuffix(us2, us);
    assert WindowFrom(e, us, e2.window);
  }

  /** The endpoint after it took the message at the front of the read buffer. */
  function After(c: Settings, e: Endpoint, u: Message): Endpoint
    requires |MessageBytes(c, u)| <= |e.readBuffer|
  {
    Apply(e, u).(readBuffer := e.readBuffer[|MessageBytes(c, u)|..])
  }

  /** A whole message at the front is taken, unless it is of another kind. */
  lemma TakeOne(c: Settings, e: Endpoint, channel: seq<Byte>, us: seq<Message>)
    requires c.Valid() && Holds(c, e, channel, us) && us != [] && Acks(us) <= e.waiting
    requires |MessageBytes(c, us[0])| <= |e.readBuffer| && !Switches(e, us[0])
    ensures ReadMessage(c, e) == (Again(|MessageBytes(c, us[0])|), Apply(e, us[0]))
    ensures Took(e, us, After(c, e, us[0]), us[1..])
    ensures Holds(c, After(c, e, us[0]), channel, us[1..])
    ensures Acks(us[1..]) <= After(c, e, us[0]).waiting
    ensures (e.frameData == [] ==> e.pending == 0) ==>
      After(c, e, us[0]).frameData == [] ==> After(c, e, us[0]).pending == 0
  {
    FrontIs(c, e, channel, us);
    WholeMessage(c, e, us[0], e.readBuffer[|MessageBytes(c, us[0])|..]);
    TakeOneBytes(c, e, channel, us);
    TakeOneEffect(c, e, us);
    TakeOnePayload(e, us);
    assert IsSuffix(us[1..], us);
  }

  lemma TakeOneBytes(c: Settings, e: Endpoint, channel: seq<Byte>, us: seq<Message>)
    requires Holds(c, e, channel, us) && us != []
    requires |MessageBytes(c, us[0])| <= |e.readBuffer|
    ensures e.readBuffer[|MessageBytes(c, us[0])|..] + channel == Bytes(c, us[1..])
  {
    hide MessageBytes, GoodMessage;
    var n := |MessageBytes(c, us[0])|;
    assert e.readBuffer[n..] + channel == (e.readBuffer + channel)[n..] == Bytes(c, us)[n..] == Bytes(c, us[1..]);
  }

  lemma TakeOneEffect(c: Settings, e: Endpoint, us: seq<Message>)
    requires c.Valid() && us != [] && GoodMessage(c, us[0]) && Acks(us) <= e.waiting
    requires e.pending == 0 || e.pending in c.readers
    requires e.frameData != [] ==> e.pending != 0
    ensures var e1 := Apply(e, us[0]);
      && e1 == e.(frameData := e1.frameData, pending := e1.pending, waiting := e1.waiting, window := e1.window)
      && Acks(us[1..]) + e.waiting == Acks(us) + e1.waiting && e1.waiting <= e.waiting
      && WindowFrom(e, us, e1.window)
      && (e1.pending == 0 || e1.pending in c.readers)
      && (e1.frameData != [] ==> e1.pending != 0)
      && ((e.frameData == [] ==> e.pending == 0) ==> e1.frameData == [] ==> e1.pending == 0)
  {
    hide WindowFor, Writable;
  }

  lemma KindKnown(c: Settings, u: Message)
    requires c.Valid() && GoodMessage(c, u) && u.Segment?
    ensures u.kind in c.readers && u.kind != 0 && u.part != []
  {
  }

  lemma WindowBound(e: Endpoint, us: seq<Message>, window: nat)
    requires WindowFrom(e, us, window)
    ensures window == e.window || window < LENGTH_LIMIT
  {
  }

  lemma TakeOnePayload(e: Endpoint, us: seq<Message>)
    requires us != [] && !Switches(e, us[0]) && (e.frameData != [] ==> e.pending != 0)
    ensures var e1 := Apply(e, us[0]);
      Tag(e1.pending, e1.frameData) + Payload(us[1..]) == Tag(e.pending, e.frameData) + Payload(us)
  {
    hide Tag;
    var u := us[0];
    if u.Segment? {
      assert e.frameData != [] ==> e.pending == u.kind;
      TakeOneSegment(u.kind, e.pending, e.frameData, u.part, Payload(us[1..]));
    }
  }

  lemma TakeOneSegment(kind: nat, pending: nat, data: seq<Byte>, part: seq<Byte>, after: seq<Tagged>)
    requires data != [] ==> pending == kind
    ensures Tag(kind, data + part) + after == Tag(pending, data) + (Tag(kind, part) + after)
  {
    hide Tag;
    TagJoins(kind, data, part);
    if data == [] {
      TagOfNothing(kind, pending);
    }
    Regroup(Tag(kind, data), Tag(kind, part), after);
  }

  lemma TagOfNothing(kind: nat, other: nat)
    ensures Tag(kind, []) == Tag(other, []) == []
  {
  }

  lemma Regroup(a: seq<Tagged>, b: seq<Tagged>, d: seq<Tagged>)
    ensures (a + b) + d == a + (b + d)
  {
  }

  /** However the bytes were cut into reads, the messages are taken one by one, in order. */
  lemma {:induction false} TakeMessages(c: Settings, e: Endpoint, channel: seq<Byte>, us: seq<Message>)
      returns (left: seq<Message>)
    requires c.Valid() && Holds(c, e, channel, us) && e.readBuffer != [] && Acks(us) <= e.waiting
    requires e.frameData == [] ==> e.pending == 0
    ensures var (v, e1) := ReadMessages(c, e);
      && (v.Again? || v.Wait? || v.Cut?)
      && (!v.Cut? ==> Took(e, us, e1, left) && Holds(c, e1, channel, left))
      && (!v.Cut? ==> left == us[Taken(c, e.pending, us, |e.readBuffer|)..])
    decreases |e.readBuffer|
  {
    hide Acks, Apply, Bytes, GoodMessages, MessageBytes, Payload, ReadMessage, Tag, Took;
    FrontIs(c, e, channel, us);
    if Switches(e, us[0]) || |e.readBuffer| < |MessageBytes(c, us[0])| {
      StopHere(c, e, channel, us);
      left := us;
    } else {
      TakeOne(c, e, channel, us);
      var e2 := After(c, e, us[0]);
      AfterIs(c, e, us[0]);
      if e2.readBuffer == [] {
        left := us[1..];
        NothingTaken(c, e2.pending, left);
      } else {
        left := TakeMessages(c, e2, channel, us[1..]);
        if !ReadMessages(c, e).0.Cut? {
          TookTwice(e, us, e2, us[1..], ReadMessages(c, e).1, left);
        }
      }
    }
  }

  lemma NothingTaken(c: Settings, pending: nat, us: seq<Message>)
    ensures Taken(c, pending, us, 0) == 0
  {
    hide MessageBytes;
  }

  lemma AfterIs(c: Settings, e: Endpoint, u: Message)
    requires |MessageBytes(c, u)| <= |e.readBuffer|
    ensures After(c, e, u).pending == if u.Segment? then u.kind else e.pending
    ensures |After(c, e, u).readBuffer| == |e.readBuffer| - |MessageBytes(c, u)|
  {
    hide MessageBytes;
  }

  lemma FrontIs(c: Settings, e: Endpoint, channel: seq<Byte>, us: seq<Message>)
    requires Holds(c, e, channel, us) && e.readBuffer != []
    ensures us != []
    ensures |e.readBuffer| < |MessageBytes(c, us[0])| ==> e.readBuffer < MessageBytes(c, us[0])
    ensures |e.readBuffer| >= |MessageBytes(c, us[0])| ==>
      e.readBuffer == MessageBytes(c, us[0]) + e.readBuffer[|MessageBytes(c, us[0])|..]
  {
    hide MessageBytes, GoodMessage;
    var all := e.readBuffer + channel;
    assert all == MessageBytes(c, us[0]) + Bytes(c, us[1..]);
    assert forall i | 0 <= i < |e.readBuffer| :: e.readBuffer[i] == all[i];
    assert forall i | 0 <= i < |MessageBytes(c, us[0])| :: MessageBytes(c, us[0])[i] == all[i];
  }

  lemma StopHere(c: Settings, e: Endpoint, channel: seq<Byte>, us: seq<Message>)
    requires c.Valid() && Holds(c, e, channel, us) && e.readBuffer != [] && us != []
    requires e.frameData == [] ==> e.pending == 0
    requires |e.readBuffer| < |MessageBytes(c, us[0])| ==> e.readBuffer < MessageBytes(c, us[0])
    requires |e.readBuffer| >= |MessageBytes(c, us[0])| ==>
      e.readBuffer == MessageBytes(c, us[0]) + e.readBuffer[|MessageBytes(c, us[0])|..]
    requires Switches(e, us[0]) || |e.readBuffer| < |MessageBytes(c, us[0])|
    ensures var (v, e1) := ReadMessages(c, e);
      && (v.Wait? || v.Cut?)
      && (v.Wait? ==> Took(e, us, e1, us) && Holds(c, e1, channel, us))
  {
    hide Apply, Payload;
    assert GoodMessage(c, us[0]);
    if |e.readBuffer| >= |MessageBytes(c, us[0])| {
      WholeMessage(c, e, us[0], e.readBuffer[|MessageBytes(c, us[0])|..]);
    } else if us[0].Options? {
      CutOptions(c, e, us[0]);
    } else {
      CutMessage(c, e, us[0]);
      if us[0].Segment? && !Switches(e, us[0]) {
        KindKnown(c, us[0]);
        assert Tag(us[0].kind, e.frameData) == Tag(e.pending, e.frameData);
      }
    }
  }

  lemma CutOptions(c: Settings, e: Endpoint, u: Message)
    requires u.Options? && e.readBuffer != [] && e.readBuffer < MessageBytes(c, u)
    ensures ReadMessage(c, e) == (Cut, e)
  {
    hide Wire, Unwire, Power256, WindowFor;
    assert e.readBuffer[0] == MessageBytes(c, u)[0];
  }

  // ----- Taking frames out of what was read -----

  ghost predicate GoodFrames(c: Settings, fs: seq<Frame>) {
    forall f | f in fs :: c.Good(f)
  }

  /** Frame data followed by `after` is exactly these frames. */
  ghost predicate Awaits(c: Settings, e: Endpoint, after: seq<Tagged>, expected: seq<Frame>) {
    GoodFrames(c, expected) && Tag(e.pending, e.frameData) + after == Frames(c, expected)
  }

  /** No whole frame is left in the frame data. */
  ghost predicate Drained(c: Settings, e: Endpoint, expected: seq<Frame>) {
    e.frameData != [] ==>
      expected != [] && c.Good(expected[0]) && expected[0].kind == e.pending
      && e.frameData < c.FrameBytes(expected[0])
  }

  lemma FrameHasBytes(c: Settings, f: Frame)
    requires c.Valid() && c.Good(f)
    ensures |c.FrameBytes(f)| >= 4
  {
  }

  /** The frame data begins with the next frame, or is a part of it. */
  lemma FrontFrame(c: Settings, e: Endpoint, after: seq<Tagged>, expected: seq<Frame>)
    requires c.Valid() && Awaits(c, e, after, expected) && e.frameData != []
    ensures expected != [] && expected[0].kind == e.pending
    ensures var b := c.FrameBytes(expected[0]);
      if |e.frameData| < |b| then e.frameData < b
      else e.frameData == b + e.frameData[|b|..] && Tag(e.pending, e.frameData[|b|..]) + after == Frames(c, expected[1..])
  {
    hide Settings.FrameBytes, Settings.Good;
    var all := Frames(c, expected);
    assert |all| > 0;
    var b := c.FrameBytes(expected[0]);
    FrameHasBytes(c, expected[0]);
    FrontTagged(e.pending, e.frameData, after, expected[0].kind, b, Frames(c, expected[1..]));
  }

  lemma FrontTagged(k: nat, a: seq<Byte>, after: seq<Tagged>, k1: nat, b: seq<Byte>, rest: seq<Tagged>)
    requires Tag(k, a) + after == Tag(k1, b) + rest && a != [] && b != []
    ensures k == k1
    ensures if |a| < |b| then a < b else a == b + a[|b|..] && Tag(k, a[|b|..]) + after == rest
  {
    var all := Tag(k, a) + after;
    assert all == Tag(k1, b) + rest;
    assert all[0] == (k, a[0]) && all[0] == (k1, b[0]);
    assert forall i | 0 <= i < |a| :: all[i] == (k, a[i]);
    assert forall i | 0 <= i < |b| :: all[i] == (k1, b[i]);
    if |a| >= |b| {
      assert a == b + a[|b|..];
      TagJoins(k, b, a[|b|..]);
      assert all[|b|..] == rest;
      assert all[|b|..] == Tag(k, a[|b|..]) + after;
    }
  }

  function Last(fs: seq<Frame>): Frame
    requires fs != []
  {
    fs[|fs| - 1]
  }

  lemma {:induction false} FramesTaken(c: Settings, e: Endpoint, after: seq<Tagged>, expected: seq<Frame>)
      returns (left: seq<Frame>)
    requires c.Valid() && e.pending in c.readers && Awaits(c, e, after, expected)
    ensures var e1 := TakeFrames(c, e);
      && e1 == e.(delivered := e1.delivered, frameData := e1.frameData)
      && e1.delivered + left == e.delivered + expected
      && Awaits(c, e1, after, left)
      && Drained(c, e1, left)
      && (e1.delivered == e.delivered || (e.delivered < e1.delivered && Last(e1.delivered).kind == e.pending))
      && (e1.frameData != e.frameData ==> e1.delivered != e.delivered)
    decreases |e.frameData|
  {
    hide ReadFrame, WriteFrame, Tag, Writable, Frames;
    if e.frameData == [] {
      NoFrameInNothing(c.order, c.readers[e.pending]);
      left := expected;
    } else {
      FrontFrame(c, e, after, expected);
      var f := expected[0];
      var b := c.FrameBytes(f);
      if |e.frameData| < |b| {
        CutFrameWaits(c.order, c.readers[f.kind], f.values, |e.frameData|);
        assert b[..|e.frameData|] == e.frameData;
        left := expected;
      } else {
        FrameReadsBack(c.order, c.readers[f.kind], f.values, e.frameData[|b|..]);
        var e1 := e.(delivered := e.delivered + [f], frameData := e.frameData[|b|..]);
        assert e1.delivered + expected[1..] == e.delivered + expected;
        if e1.frameData == [] {
          left := expected[1..];
        } else {
          left := FramesTaken(c, e1, after, expected[1..]);
          assert e.delivered < e1.delivered <= TakeFrames(c, e1).delivered;
        }
      }
    }
  }

  lemma NoFrameInNothing(p: nat, schema: Schema)
    requires schema.withLength
    ensures ReadFrame(p, schema, []).Eof?
  {
  }

  // ----- One direction of a connection -----

  /**
    From `s` to `r`: `wire` are the messages that `r` has not taken yet, `expected` the frames it has not delivered.
    Everything ever queued was delivered or is expected, in order, and what is expected is exactly what is in the
    frame data, on the wire, cut into segments and still queued.
   */
  ghost predicate Link(c: Settings, s: Endpoint, r: Endpoint, channel: seq<Byte>, wire: seq<Message>,
                       queued: seq<Frame>, expected: seq<Frame>)
  {
    && Holds(c, r, channel, wire)
    && GoodMessages(c, s.segments)
    && GoodFrames(c, s.queue) && GoodFrames(c, expected)
    && queued == r.delivered + expected
    && Tag(r.pending, r.frameData) + Payload(wire) + (Payload(s.segments) + Frames(c, s.queue)) == Frames(c, expected)
    && (r.frameData == [] ==> r.pending == 0)
    && Drained(c, r, expected)
  }

  /** Nothing that has arrived as a whole is kept back. */
  ghost predicate Prompt(c: Settings, r: Endpoint, wire: seq<Message>, expected: seq<Frame>) {
    && (wire != [] ==> |r.readBuffer| < |MessageBytes(c, wire[0])|)
    && Drained(c, r, expected)
  }

  // ----- Steps of one direction -----

  lemma QueueKeepsLink(c: Settings, s: Endpoint, r: Endpoint, channel: seq<Byte>, wire: seq<Message>,
                       queued: seq<Frame>, expected: seq<Frame>, f: Frame)
    requires Link(c, s, r, channel, wire, queued, expected) && c.Good(f)
    ensures Link(c, s.(queue := s.queue + [f]), r, channel, wire, queued + [f], expected + [f])
  {
    hide Settings.Good, Tag, Payload, Holds, GoodMessages;
    FramesJoin(c, s.queue, [f]);
    FramesJoin(c, expected, [f]);
    Extend(Tag(r.pending, r.frameData) + Payload(wire), Payload(s.segments), Frames(c, s.queue), Frames(c, [f]));
  }

  lemma Extend(a: seq<Tagged>, b: seq<Tagged>, d: seq<Tagged>, x: seq<Tagged>)
    ensures a + (b + (d + x)) == a + (b + d) + x
  {
  }

  /** What writing may change at the sender, and what it keeps. */
  ghost predicate Wrote(c: Settings, s: Endpoint, s1: Endpoint, sent: seq<Message>) {
    && s1 == s.(segments := s1.segments, queue := [], unacknowledged := s1.unacknowledged, waiting := s1.waiting,
                optionsDue := s1.optionsDue, lineTestQueued := s1.lineTestQueued)
    && GoodMessages(c, sent) && GoodMessages(c, s1.segments)
    && Acks(sent) + Acks(s1.segments) + s1.unacknowledged == Acks(s.segments) + s.unacknowledged
    && s1.waiting == s.waiting + |Bytes(c, sent)|
    && s1.waiting <= s.window
  }

  /** What is sent fits the window; the unsigned difference never wraps. */
  lemma {:induction false} SendableFits(c: Settings, us: seq<Message>, waiting: nat, window: nat, room: nat)
    requires waiting < window < SIZE_LIMIT
    ensures waiting + |Bytes(c, us[..Sendable(c, us, waiting, window, room)])| <= window
    decreases |us|
  {
    hide Acks, MessageBytes, Payload;
    assert us[..0] == [] && Bytes(c, []) == [];
    if us != [] {
      var size := |MessageBytes(c, us[0])|;
      SmallModulo(window - waiting);
      OneMessage(c, us[0]);
      if size <= window - waiting && room > 0 {
        if waiting + size < window {
          SendableFits(c, us[1..], waiting + size, window, room - 1);
          var n := Sendable(c, us[1..], waiting + size, window, room - 1);
          MessagesJoin(c, [us[0]], us[1..][..n]);
          assert us[..1 + n] == [us[0]] + us[1..][..n];
        } else {
          assert us[..1] == [us[0]];
        }
      }
    }
  }

  lemma OneMessage(c: Settings, u: Message)
    ensures Bytes(c, [u]) == MessageBytes(c, u)
  {
    assert Bytes(c, []) == [];
  }

  lemma SmallModulo(n: nat)
    requires n < SIZE_LIMIT
    ensures n % SIZE_LIMIT == n
  {
  }

  lemma PrepareKeeps(c: Settings, s: Endpoint, m: Moment)
    requires c.Valid() && GoodMoment(m) && GoodFrames(c, s.queue) && GoodMessages(c, s.segments)
    requires s.unacknowledged < LENGTH_LIMIT && s.receiveSize < LENGTH_LIMIT
    ensures var s1 := Prepare(c, s, m);
      && s1 == s.(segments := s1.segments, queue := [], unacknowledged := s1.unacknowledged,
                  optionsDue := s1.optionsDue, lineTestQueued := s1.lineTestQueued)
      && GoodMessages(c, s1.segments)
      && Acks(s1.segments) + s1.unacknowledged == Acks(s.segments) + s.unacknowledged
      && Payload(s1.segments) == Payload(s.segments) + Frames(c, s.queue)
  {
    hide Acks, Bytes, Frames, GoodMessage, GoodMessages, Payload, Power256;
    var s1 := QueueAck(s);
    var s2 := QueueLineTest(s1, m);
    var s3 := QueueStatus(c, s2, m);
    var s4 := QueueOptions(c, s3, m);
    AckKeeps(c, s);
    PushKeeps(c, LineTest, s1.segments);
    PushKeeps(c, Status(m.statusCount), s2.segments);
    AppendKeeps(c, s3.segments, Options(s.receiveSize, c.version, m.time));
    ServiceGood(c, s, m);
    SplitAllCarries(c, s.queue);
    GoodJoin(c, s4.segments, SplitAll(c, s.queue));
    MessagesJoin(c, s4.segments, SplitAll(c, s.queue));
  }

  lemma ServiceGood(c: Settings, s: Endpoint, m: Moment)
    requires c.Valid() && GoodMoment(m) && s.receiveSize < LENGTH_LIMIT
    ensures GoodMessage(c, LineTest) && GoodMessage(c, Options(s.receiveSize, c.version, m.time))
    ensures c.withStatus ==> GoodMessage(c, Status(m.statusCount))
  {
  }

  lemma GoodJoin(c: Settings, us: seq<Message>, vs: seq<Message>)
    requires GoodMessages(c, us) && forall v | v in vs :: GoodMessage(c, v)
    ensures GoodMessages(c, us + vs)
  {
    hide GoodMessage;
  }

  lemma AckKeeps(c: Settings, s: Endpoint)
    requires s.unacknowledged < LENGTH_LIMIT && GoodMessages(c, s.segments)
    ensures var s1 := QueueAck(s);
      && s1 == s.(segments := s1.segments, unacknowledged := s1.unacknowledged)
      && GoodMessages(c, s1.segments) && Payload(s1.segments) == Payload(s.segments)
      && Acks(s1.segments) + s1.unacknowledged == Acks(s.segments) + s.unacknowledged
  {
    hide Tag;
    var u := Ack(s.unacknowledged);
    assert GoodMessage(c, u);
    assert ([u] + s.segments)[1..] == s.segments;
  }

  /** A message that is neither a segment nor an acknowledgement carries nothing. */
  lemma PushKeeps(c: Settings, u: Message, us: seq<Message>)
    requires !u.Segment? && !u.Ack?
    ensures Payload([u] + us) == Payload(us) && Acks([u] + us) == Acks(us)
    ensures GoodMessage(c, u) && GoodMessages(c, us) ==> GoodMessages(c, [u] + us)
  {
    hide GoodMessage;
    assert ([u] + us)[1..] == us;
  }

  lemma AppendKeeps(c: Settings, us: seq<Message>, u: Message)
    requires !u.Segment? && !u.Ack?
    ensures Payload(us + [u]) == Payload(us) && Acks(us + [u]) == Acks(us)
    ensures GoodMessage(c, u) && GoodMessages(c, us) ==> GoodMessages(c, us + [u])
  {
    hide GoodMessage;
    MessagesJoin(c, us, [u]);
    PushKeeps(c, u, []);
    assert [u] + [] == [u];
  }

  lemma WriteKeeps(c: Settings, s: Endpoint, m: Moment)
    requires c.Valid() && GoodMoment(m) && GoodFrames(c, s.queue) && GoodMessages(c, s.segments)
    requires s.unacknowledged < LENGTH_LIMIT && s.receiveSize < LENGTH_LIMIT && s.waiting < s.window < LENGTH_LIMIT
    ensures var (q, s1, sent) := Write(c, s, m);
      Wrote(c, s, s1, sent) && Payload(sent) + Payload(s1.segments) == Payload(s.segments) + Frames(c, s.queue)
  {
    assert LENGTH_LIMIT < SIZE_LIMIT;
    PrepareKeeps(c, s, m);
    var s1 := Prepare(c, s, m);
    var us := s1.segments;
    SendableFits(c, us, s.waiting, s.window, m.room);
    var n := Sendable(c, us, s.waiting, s.window, m.room);
    MessagesPart(c, us, n);
    GoodParts(c, us, n);
    WroteParts(c, s, s1, n);
    WriteIs(c, s, m);
  }

  lemma WriteIs(c: Settings, s: Endpoint, m: Moment)
    requires c.Valid() && GoodFrames(c, s.queue) && s.waiting < s.window
    ensures var s1 := Prepare(c, s, m);
      var n := Sendable(c, s1.segments, s1.waiting, s1.window, m.room);
      Write(c, s, m) == (if n == 0 then NeedSleep else JobDone, Send(c, s1, n), s1.segments[..n])
  {
    hide Settings.Good, Prepare, Sendable, Send;
  }

  lemma WroteParts(c: Settings, s: Endpoint, s1: Endpoint, n: nat)
    requires n <= |s1.segments| && s1.waiting + |Bytes(c, s1.segments[..n])| <= s.window
    requires GoodMessages(c, s1.segments[..n]) && GoodMessages(c, s1.segments[n..])
    requires s1 == s.(segments := s1.segments, queue := [], unacknowledged := s1.unacknowledged,
                      optionsDue := s1.optionsDue, lineTestQueued := s1.lineTestQueued)
    requires Acks(s1.segments[..n]) + Acks(s1.segments[n..]) + s1.unacknowledged == Acks(s.segments) + s.unacknowledged
    ensures Wrote(c, s, Send(c, s1, n), s1.segments[..n])
  {
    hide Acks, Bytes, GoodMessages, Settings.Valid;
  }

  lemma MessagesPart(c: Settings, us: seq<Message>, n: nat)
    requires n <= |us|
    ensures Payload(us[..n]) + Payload(us[n..]) == Payload(us) && Acks(us[..n]) + Acks(us[n..]) == Acks(us)
  {
    hide Payload, Acks, Bytes;
    MessagesJoin(c, us[..n], us[n..]);
    assert us[..n] + us[n..] == us;
  }

  lemma GoodParts(c: Settings, us: seq<Message>, n: nat)
    requires GoodMessages(c, us) && n <= |us|
    ensures GoodMessages(c, us[..n]) && GoodMessages(c, us[n..])
  {
    hide GoodMessage;
    assert forall i | 0 <= i < |us| - n :: us[n..][i] == us[n + i];
  }

  lemma WriteKeepsLink(c: Settings, s: Endpoint, r: Endpoint, channel: seq<Byte>, wire: seq<Message>,
                       queued: seq<Frame>, expected: seq<Frame>, m: Moment)
    requires c.Valid() && GoodMoment(m) && Link(c, s, r, channel, wire, queued, expected)
    requires s.unacknowledged < LENGTH_LIMIT && s.receiveSize < LENGTH_LIMIT && s.waiting < s.window < LENGTH_LIMIT
    ensures var (q, s1, sent) := Write(c, s, m);
      Wrote(c, s, s1, sent) && Link(c, s1, r, channel + Bytes(c, sent), wire + sent, queued, expected)
  {
    hide Acks, Bytes, Write;
    WriteKeeps(c, s, m);
    var (q, s1, sent) := Write(c, s, m);
    MessagesJoin(c, wire, sent);
    assert Frames(c, []) == [];
    WireGrows(c, r, channel, wire, sent);
    Shift(Tag(r.pending, r.frameData), Payload(wire), Payload(sent), Payload(s1.segments));
  }

  lemma WireGrows(c: Settings, r: Endpoint, channel: seq<Byte>, wire: seq<Message>, sent: seq<Message>)
    requires Holds(c, r, channel, wire) && GoodMessages(c, sent)
    ensures Holds(c, r, channel + Bytes(c, sent), wire + sent)
  {
    hide GoodMessage, Bytes;
    MessagesJoin(c, wire, sent);
    assert r.readBuffer + (channel + Bytes(c, sent)) == (r.readBuffer + channel) + Bytes(c, sent);
  }

  lemma Shift(a: seq<Tagged>, b: seq<Tagged>, d: seq<Tagged>, e: seq<Tagged>)
    ensures a + b + (d + e) == a + (b + d) + (e + [])
  {
  }

  // ----- Reading keeps the direction -----

  /** What reading may change at the receiver. */
  ghost predicate ReadOnly(r: Endpoint, r1: Endpoint, n: nat) {
    && r1 == r.(readBuffer := r1.readBuffer, frameData := r1.frameData, pending := r1.pending,
                delivered := r1.delivered, unacknowledged := r.unacknowledged + n,
                waiting := r1.waiting, window := r1.window)
    && (r1.window == r.window || r1.window < LENGTH_LIMIT) && r1.waiting <= r.waiting
  }

  /** The receiver with new bytes in its read buffer. */
  function Received(r: Endpoint, incoming: seq<Byte>): Endpoint {
    r.(readBuffer := r.readBuffer + incoming, unacknowledged := r.unacknowledged + |incoming|)
  }

  /**
    However the stream is cut into reads, a read keeps the direction: it never finds a broken message, and it takes the
    bytes of acknowledgements off the wire and off the bytes waiting for them.
   */
  lemma ReadKeepsLink(c: Settings, s: Endpoint, r: Endpoint, incoming: seq<Byte>, channel: seq<Byte>,
                      wire: seq<Message>, queued: seq<Frame>, expected: seq<Frame>)
      returns (left: seq<Message>, due: seq<Frame>)
    requires c.Valid() && Link(c, s, r, incoming + channel, wire, queued, expected)
    requires incoming != [] && Acks(wire) <= r.waiting && Read(c, r, incoming).0 != Undefined
    ensures var (q, r1) := Read(c, r, incoming);
      && q == JobDone
      && Link(c, s, r1, channel, left, queued, due)
      && ReadOnly(r, r1, |incoming|)
      && Acks(left) + r.waiting == Acks(wire) + r1.waiting
      && IsSuffix(left, wire) && WindowFrom(r, wire, r1.window)
      && left == wire[Taken(c, r.pending, wire, |r.readBuffer| + |incoming|)..]
  {
    hide Acks, Bytes, Drained, Frames, GoodMessage, IsSuffix, Last, MessageBytes, Payload, Read, ReadMessages,
      Settings.Good, Settings.Valid, Tag, TakeFrames, WindowFor;
    var e := Received(r, incoming);
    assert Holds(c, e, channel, wire) by {
      assert r.readBuffer + (incoming + channel) == e.readBuffer + channel;
    }
    left := TakeMessages(c, e, channel, wire);
    var (v, e1) := ReadMessages(c, e);
    ReadIs(c, r, incoming);
    var after := Payload(left) + (Payload(s.segments) + Frames(c, s.queue));
    assert v.Again? || v.Wait?;
    StillAwaits(c, e, wire, e1, left, Payload(s.segments) + Frames(c, s.queue), expected);
    WindowBound(e, wire, e1.window);
    assert WindowFrom(r, wire, e1.window);
    due := Settle(c, v, e1, after, expected);
    var (q, r1) := Read(c, r, incoming);
    Regroup(Tag(r1.pending, r1.frameData), Payload(left), Payload(s.segments) + Frames(c, s.queue));
  }

  /**
    After a read everything that has arrived as a whole was delivered, exactly if the segments that had arrived as a
    whole were of one kind.
   */
  lemma PromptExactlyWhen(c: Settings, s: Endpoint, r: Endpoint, incoming: seq<Byte>, channel: seq<Byte>,
                          wire: seq<Message>, queued: seq<Frame>, expected: seq<Frame>)
      returns (left: seq<Message>, due: seq<Frame>)
    requires c.Valid() && Link(c, s, r, incoming + channel, wire, queued, expected)
    requires incoming != [] && Acks(wire) <= r.waiting && Read(c, r, incoming).0 != Undefined
    ensures Link(c, s, Read(c, r, incoming).1, channel, left, queued, due)
    ensures left == wire[Taken(c, r.pending, wire, |r.readBuffer| + |incoming|)..]
    ensures Prompt(c, Read(c, r, incoming).1, left, due)
       <==> OneKind(wire[..Whole(c, wire, |r.readBuffer| + |incoming|)])
  {
    hide Acks, Bytes, Drained, Frames, GoodMessage, IsSuffix, MessageBytes, OneKind, Payload, Read, ReadOnly,
      Settings.Good, Settings.Valid, Tag, WindowFrom;
    left, due := ReadKeepsLink(c, s, r, incoming, channel, wire, queued, expected);
    var size := |r.readBuffer| + |incoming|;
    var t := Taken(c, r.pending, wire, size);
    var r1 := Read(c, r, incoming).1;
    SegmentKinds(c, wire);
    TakenIsWhole(c, r.pending, wire, size);
    BehindTaken(c, r.pending, wire, size);
    MessagesJoin(c, wire[..t], left);
    assert wire[..t] + left == wire;
    assert |r1.readBuffer| == size - |Bytes(c, wire[..t])|;
    KindGoesOn(c, s, r, incoming + channel, wire, queued, expected, Whole(c, wire, size));
    assert left != [] ==> left[0] == wire[t];
  }

  lemma SegmentKinds(c: Settings, us: seq<Message>)
    requires c.Valid() && GoodMessages(c, us)
    ensures forall u | u in us && u.Segment? :: u.kind != 0 && u.part != []
  {
    hide Settings.Valid, GoodMessage;
    forall u | u in us && u.Segment? ensures u.kind != 0 && u.part != [] {
      KindKnown(c, u);
    }
  }

  /** The segments behind a part of a frame begin with the rest of that frame. */
  lemma KindGoesOn(c: Settings, s: Endpoint, r: Endpoint, channel: seq<Byte>, wire: seq<Message>,
                   queued: seq<Frame>, expected: seq<Frame>, k: nat)
    requires c.Valid() && Link(c, s, r, channel, wire, queued, expected) && k <= |wire|
    ensures OfKind(r.pending, wire[..k]) <==> OneKind(wire[..k])
  {
    hide Bytes, GoodMessage, Settings.Good, Settings.FrameBytes, Settings.Valid;
    SegmentKinds(c, wire);
    if OneKind(wire[..k]) && r.pending != 0 {
      forall i | 0 <= i < k && wire[i].Segment? ensures wire[i].kind == r.pending {
        var j := FirstSegment(wire, i);
        assert wire[..k][j] == wire[j] && wire[..k][i] == wire[i];
        SameFrame(c, r, wire[j].kind, wire[j].part, Payload(wire), Payload(s.segments) + Frames(c, s.queue), expected);
      }
    }
  }

  lemma {:induction false} FirstSegment(us: seq<Message>, i: nat) returns (j: nat)
    requires i < |us| && us[i].Segment? && forall u | u in us && u.Segment? :: u.part != []
    ensures j <= i && us[j].Segment? && Tag(us[j].kind, us[j].part) <= Payload(us)
    decreases |us|
  {
    hide Tag;
    if us[0].Segment? {
      j := 0;
    } else {
      j := FirstSegment(us[1..], i - 1);
      j := j + 1;
    }
  }

  lemma SameFrame(c: Settings, r: Endpoint, kind: nat, part: seq<Byte>, payload: seq<Tagged>, rest: seq<Tagged>,
                  expected: seq<Frame>)
    requires part != [] && Tag(kind, part) <= payload && r.frameData != []
    requires GoodFrames(c, expected) && Drained(c, r, expected)
    requires Tag(r.pending, r.frameData) + payload + rest == Frames(c, expected)
    ensures kind == r.pending
  {
    hide Settings.Good, Settings.FrameBytes;
    var after := payload[|part|..] + rest;
    assert payload + rest == Tag(kind, part) + after;
    assert expected != [] && c.Good(expected[0]);
    Regroup(Tag(r.pending, r.frameData), payload, rest);
    NextKind(r.pending, r.frameData, kind, part, after,
             expected[0].kind, c.FrameBytes(expected[0]), Frames(c, expected[1..]));
  }

  /** Taking messages moves their payload into the frame data. */
  lemma StillAwaits(c: Settings, e: Endpoint, us: seq<Message>, e1: Endpoint, left: seq<Message>,
                    rest: seq<Tagged>, expected: seq<Frame>)
    requires Took(e, us, e1, left) && GoodFrames(c, expected)
    requires Tag(e.pending, e.frameData) + Payload(us) + rest == Frames(c, expected)
    ensures Awaits(c, e1, Payload(left) + rest, expected)
  {
    Regroup(Tag(e1.pending, e1.frameData), Payload(left), rest);
  }

  /** After the messages were read, whole frames are taken out and an empty frame data has no kind. */
  lemma Settle(c: Settings, v: Verdict, e: Endpoint, after: seq<Tagged>, expected: seq<Frame>)
      returns (due: seq<Frame>)
    requires c.Valid() && (v.Again? || v.Wait?) && (e.pending == 0 || e.pending in c.readers)
    requires (e.frameData != [] ==> e.pending != 0) && Awaits(c, e, after, expected)
    ensures var (q, r) := AfterMessages(c, v, e);
      && q == JobDone
      && r == e.(delivered := r.delivered, frameData := r.frameData, pending := r.pending)
      && r.delivered + due == e.delivered + expected
      && Awaits(c, r, after, due) && Drained(c, r, due)
      && (r.frameData == [] ==> r.pending == 0)
      && (r.frameData != [] ==> r.pending == e.pending != 0)
      && (r.frameData != e.frameData ==> e.delivered < r.delivered && Last(r.delivered).kind == e.pending)
  {
    hide Settings.Good, Settings.Valid;
    if e.pending == 0 {
      due := expected;
    } else {
      due := FramesTaken(c, e, after, expected);
      var e1 := TakeFrames(c, e);
      TagOfNothing(e1.pending, 0);
    }
  }

  lemma NextKind(k: nat, a: seq<Byte>, k1: nat, part: seq<Byte>, after: seq<Tagged>,
                 k2: nat, b: seq<Byte>, rest: seq<Tagged>)
    requires part != [] && a < b && k2 == k
    requires Tag(k, a) + (Tag(k1, part) + after) == Tag(k2, b) + rest
    ensures k1 == k
  {
    var all := Tag(k, a) + (Tag(k1, part) + after);
    assert all[|a|] == (k1, part[0]);
    assert all == Tag(k2, b) + rest;
    assert all[|a|] == (k2, b[|a|]);
  }

  lemma ReadIs(c: Settings, r: Endpoint, incoming: seq<Byte>)
    requires c.Valid() && (r.pending == 0 || r.pending in c.readers) && incoming != []
    ensures var (v, e1) := ReadMessages(c, Received(r, incoming));
      (e1.pending == 0 || e1.pending in c.readers) && Read(c, r, incoming) == AfterMessages(c, v, e1)
  {
    hide ReadMessages, AfterMessages;
    ReadMessagesKeepsPending(c, Received(r, incoming));
  }
}
