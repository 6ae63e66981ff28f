/**
  An end whose window is used up writes nothing, not even an acknowledgement. What it means for an end to be cut off, and
  why that lasts, whatever both ends do.
 */
module FrameCutOff {
  import opened ByteStream
  import opened FrameCodec
  import opened FrameProtocol
  import opened FrameDelivery
  import opened FrameConnection
  import opened FrameRuns

  // ----- What an end can write, and what lets it write again -----

  /** The room that a message needs which can be put in front of a line test. */
  function Need(c: Settings): nat {
    if c.withStatus then 3 else 5
  }

  /** The room without which `e` may be unable to write anything; a line test that is not queued yet needs one byte. */
  function Wants(c: Settings, e: Endpoint): nat {
    if e.lineTestQueued then Need(c) else 1
  }

  /** `e` can write nothing now: its window is used up, or what is left of it is less than the message in front. */
  predicate Shut(c: Settings, e: Endpoint) {
    && e.window < e.waiting + Wants(c, e)
    && (e.lineTestQueued ==> QueueAck(e).segments == [] || !QueueAck(e).segments[0].LineTest?)
  }

  /** Reading this message gives `e` room. */
  predicate Relieves(c: Settings, e: Endpoint, u: Message) {
    u.Ack? || (u.Options? && WindowFor(e.sendSize, u.bufferSize) >= e.waiting + Wants(c, e))
  }

  ghost predicate NoRelief(c: Settings, e: Endpoint, wire: seq<Message>) {
    forall u | u in wire :: !Relieves(c, e, u)
  }

  function Max(a: nat, b: nat): nat {
    if a < b then b else a
  }

  /** The widest window that `e` has, or will have while it reads these messages. */
  function BestWindow(sendSize: nat, window: nat, wire: seq<Message>): nat
    decreases |wire|
  {
    if wire == [] then window
    else BestWindow(sendSize, if wire[0].Options? then Max(window, WindowFor(sendSize, wire[0].bufferSize)) else window,
                    wire[1..])
  }

  /** The most room that reading these messages gives `e`. */
  function BestRoom(e: Endpoint, wire: seq<Message>): int {
    BestWindow(e.sendSize, e.window, wire) - (e.waiting - Acks(wire))
  }

  /** The service messages and segments that `e` has to write once it has read `n` more bytes. */
  function Offer(c: Settings, e: Endpoint, n: nat): seq<Message> {
    QueueAck(e.(unacknowledged := e.unacknowledged + n)).segments
    + if e.optionsDue then [Options(e.receiveSize, c.version, 0)] else []
  }

  /** Some message among `us` relieves `e`, and it fits into the room together with all messages before it. */
  ghost predicate Affords(c: Settings, e: Endpoint, us: seq<Message>, room: int) {
    exists k | 0 <= k < |us| :: Relieves(c, e, us[k]) && |Bytes(c, us[..k + 1])| <= room
  }

  /**
    End A can write nothing, nothing on its way will change that, and the other end, even after it has read everything
    on its way, has not the room to write anything that would.
   */
  ghost predicate CutOff(c: Settings, s: Connection, w: Witness) {
    && Shut(c, s.a) && NoRelief(c, s.a, w.wireBA)
    && !Affords(c, s.a, Offer(c, s.b, |s.ab|), BestRoom(s.b, w.wireAB))
  }

  // ----- Sizes and rooms -----

  lemma {:induction false} PowerIsPositive(n: nat)
    ensures Power256(n) > 0
  {
    if n > 0 {
      PowerIsPositive(n - 1);
    }
  }

  lemma MessageSize(c: Settings, u: Message)
    ensures |MessageBytes(c, u)| == match u
      case Ack(_) => 5 case LineTest => 1 case Options(_, _, _) => 17 case Status(_) => 3
      case Segment(_, part) => 5 + |part|
  {
  }

  /** A message is no longer than the messages that end with it. */
  lemma LastFits(c: Settings, us: seq<Message>, k: nat)
    requires k < |us|
    ensures |Bytes(c, us[..k + 1])| == |Bytes(c, us[..k])| + |MessageBytes(c, us[k])|
  {
    hide MessageBytes;
    assert us[..k + 1] == us[..k] + [us[k]];
    MessagesJoin(c, us[..k], [us[k]]);
    OneMessage(c, us[k]);
  }

  /** Messages in the middle are no longer than all of them. */
  lemma MiddleFits(c: Settings, us: seq<Message>, n: nat, k: nat)
    requires n <= |us| && k <= |us| - n
    ensures |Bytes(c, us[..n + k])| == |Bytes(c, us[..n])| + |Bytes(c, us[n..][..k])|
  {
    assert us[..n + k] == us[..n] + us[n..][..k];
    MessagesJoin(c, us[..n], us[n..][..k]);
  }

  lemma {:induction false} BestWindowIs(sendSize: nat, window: nat, wire: seq<Message>)
    ensures var best := BestWindow(sendSize, window, wire);
      && best >= window
      && (forall u | u in wire && u.Options? :: best >= WindowFor(sendSize, u.bufferSize))
      && (best == window || exists u :: u in wire && u.Options? && best == WindowFor(sendSize, u.bufferSize))
    decreases |wire|
  {
    hide WindowFor;
    if wire != [] {
      BestWindowIs(sendSize, if wire[0].Options? then Max(window, WindowFor(sendSize, wire[0].bufferSize)) else window,
                   wire[1..]);
    }
  }

  /** Reading some of the messages does not widen the best window. */
  lemma BestWindowFalls(e: Endpoint, wire: seq<Message>, window: nat, left: seq<Message>)
    requires WindowFrom(e, wire, window) && IsSuffix(left, wire)
    ensures BestWindow(e.sendSize, window, left) <= BestWindow(e.sendSize, e.window, wire)
  {
    hide WindowFor;
    BestWindowIs(e.sendSize, e.window, wire);
    BestWindowIs(e.sendSize, window, left);
  }

  lemma AffordsLess(c: Settings, e: Endpoint, us: seq<Message>, room: int, more: int)
    requires Affords(c, e, us, room) && room <= more
    ensures Affords(c, e, us, more)
  {
    hide Bytes, Relieves;
    var k :| 0 <= k < |us| && Relieves(c, e, us[k]) && |Bytes(c, us[..k + 1])| <= room;
    assert Relieves(c, e, us[k]) && |Bytes(c, us[..k + 1])| <= more;
  }

  lemma AffordsBy(c: Settings, e: Endpoint, us: seq<Message>, room: int, k: nat)
    requires k < |us| && Relieves(c, e, us[k]) && |Bytes(c, us[..k + 1])| <= room
    ensures Affords(c, e, us, room)
  {
  }

  // ----- What a write puts in front and behind -----

  /** What a write may put in front. */
  ghost predicate IsService(e: Endpoint, u: Message) {
    || u.LineTest? || u.Status?
    || (u == Ack(e.unacknowledged % LENGTH_LIMIT) && e.unacknowledged > e.minimalRead)
  }

  /** What goes in front of the messages already there. */
  lemma ServiceOrder(c: Settings, e: Endpoint, m: Moment)
    ensures var e3 := QueueStatus(c, QueueLineTest(QueueAck(e), m), m);
      var ack := e.unacknowledged > e.minimalRead;
      var test := !e.lineTestQueued && (m.lineTestOverdue || (m.lineTestDue && !ack && e.segments == [] && e.queue == []));
      var status := c.withStatus && m.statusDue && (test || ack || e.segments == [] || !e.segments[0].Status?);
      && e3.segments == (if status then [Status(m.statusCount)] else []) + (if test then [LineTest] else [])
                        + (if ack then [Ack(e.unacknowledged % LENGTH_LIMIT)] else []) + e.segments
      && e3 == e.(segments := e3.segments, unacknowledged := if ack then 0 else e.unacknowledged,
                  lineTestQueued := e.lineTestQueued || test)
  {
    hide QueueAck, QueueLineTest, QueueStatus;
    AckFirst(e);
    var e1 := QueueAck(e);
    LineTestNext(e1, m);
    var e2 := QueueLineTest(e1, m);
    StatusNext(c, e2, m);
    var ack := if e.unacknowledged > e.minimalRead then [Ack(e.unacknowledged % LENGTH_LIMIT)] else [];
    var test := if e2.lineTestQueued && !e.lineTestQueued then [LineTest] else [];
    var status := if QueueStatus(c, e2, m).segments == e2.segments then [] else [Status(m.statusCount)];
    JoinAll(status, test, ack, e.segments);
  }

  lemma JoinAll(a: seq<Message>, b: seq<Message>, d: seq<Message>, e: seq<Message>)
    ensures a + (b + (d + e)) == a + b + d + e
  {
  }

  lemma AckFirst(e: Endpoint)
    ensures var ack := e.unacknowledged > e.minimalRead; var e1 := QueueAck(e);
      && e1.segments == (if ack then [Ack(e.unacknowledged % LENGTH_LIMIT)] else []) + e.segments
      && e1 == e.(segments := e1.segments, unacknowledged := if ack then 0 else e.unacknowledged)
      && (e1.segments == [] <==> !ack && e.segments == []) && (ack ==> e1.segments[0].Ack?)
      && (!ack ==> e1.segments == e.segments)
  {
  }

  lemma LineTestNext(e: Endpoint, m: Moment)
    ensures var test := !e.lineTestQueued && (m.lineTestOverdue || (m.lineTestDue && e.segments == [] && e.queue == []));
      var e1 := QueueLineTest(e, m);
      && e1.segments == (if test then [LineTest] else []) + e.segments
      && e1 == e.(segments := e1.segments, lineTestQueued := e.lineTestQueued || test)
      && (e1.segments == [] <==> !test && e.segments == []) && (test ==> e1.segments[0].LineTest?)
      && (!test ==> e1.segments == e.segments)
  {
  }

  lemma StatusNext(c: Settings, e: Endpoint, m: Moment)
    ensures var status := c.withStatus && m.statusDue && (e.segments == [] || !e.segments[0].Status?);
      var e1 := QueueStatus(c, e, m);
      && e1.segments == (if status then [Status(m.statusCount)] else []) + e.segments
      && e1 == e.(segments := e1.segments)
  {
  }

  /** What one write puts in front of the segments, and what it puts behind them. */
  lemma PrepareShape(c: Settings, e: Endpoint, m: Moment) returns (front: seq<Message>, back: seq<Message>)
    requires c.Valid() && GoodFrames(c, e.queue)
    ensures Prepare(c, e, m).segments
         == front + e.segments + (if e.optionsDue then [Options(e.receiveSize, c.version, m.time)] else []) + back
    ensures forall u | u in front :: IsService(e, u)
    ensures forall u | u in back :: u.Segment?
    ensures var e1 := Prepare(c, e, m);
      && e1 == e.(segments := e1.segments, queue := [], unacknowledged := e1.unacknowledged, optionsDue := false,
                  lineTestQueued := e1.lineTestQueued)
      && e1.unacknowledged == if e.unacknowledged > e.minimalRead then 0 else e.unacknowledged
  {
    hide QueueAck, QueueLineTest, QueueStatus, SplitAll, Settings.Good, Settings.Valid;
    AllSegments(c, e.queue);
    back := SplitAll(c, e.queue);
    ServiceOrder(c, e, m);
    var e3 := QueueStatus(c, QueueLineTest(QueueAck(e), m), m);
    front := e3.segments[..|e3.segments| - |e.segments|];
    assert e3.segments == front + e.segments;
  }

  lemma {:induction false} AllSegments(c: Settings, fs: seq<Frame>)
    requires c.Valid() && GoodFrames(c, fs)
    ensures forall u | u in SplitAll(c, fs) :: u.Segment?
  {
    hide Split, Settings.Good, Settings.FrameBytes;
    if fs != [] {
      SplitCarries(c.segmentSize, fs[0].kind, c.FrameBytes(fs[0]));
      AllSegments(c, fs[1..]);
    }
  }

  /** The messages before the `k`-th, with what is in front of them. */
  lemma BehindFront(c: Settings, front: seq<Message>, us: seq<Message>, k: nat)
    requires k <= |us|
    ensures (front + us)[..|front| + k] == front + us[..k]
    ensures |Bytes(c, (front + us)[..|front| + k])| == |Bytes(c, front)| + |Bytes(c, us[..k])|
  {
    assert (front + us)[..|front| + k] == front + us[..k];
    MessagesJoin(c, front, us[..k]);
  }

  /** An acknowledgement that will be put in front costs five bytes. */
  lemma NewAckAffords(c: Settings, e: Endpoint, b: Endpoint, n: nat, room: int)
    requires b.unacknowledged + n > b.minimalRead && room >= 5
    ensures Affords(c, e, Offer(c, b, n), room)
  {
    hide Bytes, MessageBytes;
    var us := Offer(c, b, n);
    assert us[0].Ack?;
    MessageSize(c, us[0]);
    assert us[..1] == [us[0]];
    OneMessage(c, us[0]);
    AffordsBy(c, e, us, room, 0);
  }

  lemma RelieverSize(c: Settings, e: Endpoint, u: Message)
    requires Relieves(c, e, u)
    ensures |MessageBytes(c, u)| >= 5
  {
    hide WindowFor;
    MessageSize(c, u);
  }

  /** What a write can afford with this room, it could afford after reading everything. */
  lemma OfferCovers(c: Settings, e: Endpoint, b: Endpoint, m: Moment, n: nat, room: int)
    requires c.Valid() && GoodFrames(c, b.queue) && Affords(c, e, Prepare(c, b, m).segments, room)
    ensures Affords(c, e, Offer(c, b, n), room)
  {
    hide Affords, Bytes, MessageBytes, Prepare, Relieves, Settings.Good, Settings.Valid;
    var us := Prepare(c, b, m).segments;
    var front, back := PrepareShape(c, b, m);
    var k: nat := AffordsAt(c, e, us, room);
    LastFits(c, us, k);
    RelieverSize(c, e, us[k]);
    if b.unacknowledged + n > b.minimalRead {
      NewAckAffords(c, e, b, n, room);
    } else {
      var opts := if b.optionsDue then [Options(b.receiveSize, c.version, m.time)] else [];
      var rest := b.segments + opts + back;
      NotInFront(c, e, b, front);
      NotBehind(c, e, back);
      assert us == front + rest;
      assert us[k] in front || (us[k] in back && k >= |front + b.segments + opts|) || k - |front| <= |b.segments|;
      var j := k - |front|;
      BehindFront(c, front, rest, j);
      assert rest[..j] == b.segments[..j];
      OldAffords(c, e, b, n, room, j, us[k]);
    }
  }

  /** What was there before is still affordable if no acknowledgement is put in front of it. */
  lemma OldAffords(c: Settings, e: Endpoint, b: Endpoint, n: nat, room: int, j: nat, u: Message)
    requires b.unacknowledged + n <= b.minimalRead && j <= |b.segments| && Relieves(c, e, u)
    requires if j < |b.segments| then u == b.segments[j]
             else b.optionsDue && u.Options? && u.bufferSize == b.receiveSize
    requires |Bytes(c, b.segments[..j])| + |MessageBytes(c, u)| <= room
    ensures Affords(c, e, Offer(c, b, n), room)
  {
    hide Bytes, MessageBytes, WindowFor;
    var us := Offer(c, b, n);
    MessageSize(c, u);
    MessageSize(c, us[j]);
    LastFits(c, us, j);
    assert us[..j] == b.segments[..j];
    AffordsBy(c, e, us, room, j);
  }

  lemma AffordsAt(c: Settings, e: Endpoint, us: seq<Message>, room: int) returns (k: nat)
    requires Affords(c, e, us, room)
    ensures k < |us| && Relieves(c, e, us[k]) && |Bytes(c, us[..k + 1])| <= room
  {
    k :| k < |us| && Relieves(c, e, us[k]) && |Bytes(c, us[..k + 1])| <= room;
  }

  lemma NotInFront(c: Settings, e: Endpoint, b: Endpoint, front: seq<Message>)
    requires forall u | u in front :: IsService(b, u)
    requires b.unacknowledged <= b.minimalRead
    ensures forall u | u in front :: !Relieves(c, e, u)
  {
  }

  lemma NotBehind(c: Settings, e: Endpoint, back: seq<Message>)
    requires forall u | u in back :: u.Segment?
    ensures forall u | u in back :: !Relieves(c, e, u)
  {
  }

  // ----- Being cut off lasts -----

  lemma GoodSize(c: Settings, u: Message)
    requires GoodMessage(c, u) && !u.LineTest?
    ensures |MessageBytes(c, u)| >= Need(c)
  {
    MessageSize(c, u);
  }

  /** With a line test already queued, a write puts no other in front. */
  lemma FrontOfPrepare(c: Settings, e: Endpoint, m: Moment)
    requires c.Valid() && GoodFrames(c, e.queue) && e.lineTestQueued
    requires QueueAck(e).segments == [] || !QueueAck(e).segments[0].LineTest?
    ensures var e1 := Prepare(c, e, m);
      && (e1.segments == [] || !e1.segments[0].LineTest?)
      && e1.lineTestQueued && QueueAck(e1).segments == e1.segments
  {
    hide SplitAll, Settings.Good, Settings.Valid;
    AllSegments(c, e.queue);
    var e3 := QueueStatus(c, QueueLineTest(QueueAck(e), m), m);
    var rest := (if e.optionsDue then [Options(e.receiveSize, c.version, m.time)] else []) + SplitAll(c, e.queue);
    assert forall u | u in rest :: !u.LineTest?;
    assert Prepare(c, e, m).segments == e3.segments + rest;
    FrontOfTwo(e3.segments, rest);
  }

  lemma FrontOfTwo(us: seq<Message>, vs: seq<Message>)
    requires (us != [] ==> !us[0].LineTest?) && forall v | v in vs :: !v.LineTest?
    ensures us + vs == [] || !(us + vs)[0].LineTest?
  {
    assert us + vs != [] ==> (us + vs)[0] == if us != [] then us[0] else vs[0];
  }

  lemma NothingSendable(c: Settings, us: seq<Message>, waiting: nat, window: nat, room: nat)
    requires us != [] ==> |MessageBytes(c, us[0])| > 1 && waiting <= window < waiting + |MessageBytes(c, us[0])|
    requires window < SIZE_LIMIT
    ensures Sendable(c, us, waiting, window, room) == 0
  {
    hide MessageBytes;
    if us != [] {
      SmallModulo(window - waiting);
    }
  }

  lemma ShutWritesNothing(c: Settings, e: Endpoint, m: Moment)
    requires c.Valid() && GoodMoment(m) && GoodFrames(c, e.queue) && GoodMessages(c, e.segments) && Shut(c, e)
    requires e.unacknowledged < LENGTH_LIMIT && e.receiveSize < LENGTH_LIMIT && e.window < LENGTH_LIMIT
    ensures var (q, e1, sent) := FrameProtocol.Write(c, e, m);
      && sent == [] && Shut(c, e1)
      && (e1.waiting, e1.window, e1.sendSize, e1.lineTestQueued) == (e.waiting, e.window, e.sendSize, e.lineTestQueued)
  {
    hide GoodMessages, MessageBytes, Prepare, Sendable, Settings.Good, Settings.Valid;
    if e.waiting < e.window {
      FrontOfPrepare(c, e, m);
      PrepareKeeps(c, e, m);
      var e1 := Prepare(c, e, m);
      var us := e1.segments;
      if us != [] {
        assert GoodMessage(c, us[0]) by {
          FirstIsGood(c, us);
        }
        GoodSize(c, us[0]);
      }
      assert LENGTH_LIMIT < SIZE_LIMIT;
      NothingSendable(c, us, e.waiting, e.window, m.room);
      WriteIs(c, e, m);
      assert us[..0] == [] && us[0..] == us && Bytes(c, []) == [];
    }
  }

  lemma FirstIsGood(c: Settings, us: seq<Message>)
    requires GoodMessages(c, us) && us != []
    ensures GoodMessage(c, us[0])
  {
    hide GoodMessage;
  }

  /** What reading changes at a shut end opens it only if it meets a message that relieves it. */
  lemma StaysShut(c: Settings, e: Endpoint, wire: seq<Message>, e1: Endpoint, n: nat)
    requires Shut(c, e) && NoRelief(c, e, wire) && ReadOnly(e, e1, n) && e1.waiting == e.waiting
    requires WindowFrom(e, wire, e1.window)
    ensures Shut(c, e1)
  {
    hide WindowFor;
  }

  lemma NoAcks(c: Settings, e: Endpoint, us: seq<Message>)
    requires NoRelief(c, e, us)
    ensures Acks(us) == 0
    decreases |us|
  {
    hide WindowFor;
    if us != [] {
      assert us[0] in us;
      NoAcks(c, e, us[1..]);
    }
  }

  lemma NoReliefLeft(c: Settings, e: Endpoint, us: seq<Message>, e1: Endpoint, left: seq<Message>)
    requires NoRelief(c, e, us) && IsSuffix(left, us)
    requires (e1.waiting, e1.sendSize, e1.lineTestQueued) == (e.waiting, e.sendSize, e.lineTestQueued)
    ensures NoRelief(c, e1, left)
  {
    hide WindowFor;
    forall u | u in left ensures !Relieves(c, e1, u) {
      assert u in us;
    }
  }

  /** What reading leaves of the wire takes as many acknowledged bytes off those waiting. */
  lemma WaitingFalls(s: Connection, w: Witness, s1: Connection, w1: Witness)
    requires Balanced(s.a, s.b, s.ab, w.wireBA) && Balanced(s1.a, s1.b, s1.ab, w1.wireBA)
    requires s1.b == s.b && s1.ab == s.ab
    ensures s1.a.waiting - Acks(w1.wireBA) == s.a.waiting - Acks(w.wireBA)
  {
  }

  lemma AffordsSame(c: Settings, e: Endpoint, e1: Endpoint, us: seq<Message>, room: int)
    requires (e1.waiting, e1.sendSize, e1.lineTestQueued) == (e.waiting, e.sendSize, e.lineTestQueued)
    requires Affords(c, e1, us, room)
    ensures Affords(c, e, us, room)
  {
    hide Bytes, WindowFor;
    var k: nat := AffordsAt(c, e1, us, room);
    AffordsBy(c, e, us, room, k);
  }

  lemma CutOffLastsAtA(c: Settings, s: Connection, w: Witness, action: Action) returns (w1: Witness)
    requires Inv(c, s, w) && CutOff(c, s, w) && EnabledAtA(c, s, action)
    ensures var s1 := DoAtA(c, s, action); Inv(c, s1, w1) && CutOff(c, s1, w1) && s1.ab == s.ab
  {
    hide Affords, BestRoom, Bytes, DoAtA, EnabledAtA, FrameProtocol.Read, FrameProtocol.Write, GoodMoment, Link, NoRelief,
      Offer, OneKind, Prompt, ReadOnly, Shut, WindowFrom;
    match action
    case Queue(f) =>
      w1 := QueueAtA(c, s, w, f);
    case Write(m) =>
      w1 := WriteAtA(c, s, w, m);
    case Read(n) =>
      w1 := ReadAtA(c, s, w, n);
  }

  lemma QueueAtA(c: Settings, s: Connection, w: Witness, f: Frame) returns (w1: Witness)
    requires Inv(c, s, w) && CutOff(c, s, w) && EnabledAtA(c, s, Queue(f))
    ensures var s1 := DoAtA(c, s, Queue(f)); Inv(c, s1, w1) && CutOff(c, s1, w1) && s1.ab == s.ab
  {
    hide BestRoom, Bytes, Link, Offer, WindowFor, Settings.Good;
    QueueKeeps(c, s, w, f);
    w1 := w.(dueB := w.dueB + [f]);
    var s1 := DoAtA(c, s, Queue(f));
    SameNeeds(c, s, w, s1, w1);
  }

  /** Nothing changed that the other end's part in the matter depends on. */
  lemma SameNeeds(c: Settings, s: Connection, w: Witness, s1: Connection, w1: Witness)
    requires CutOff(c, s, w) && Shut(c, s1.a) && NoRelief(c, s1.a, w1.wireBA)
    requires s1.b == s.b && s1.ab == s.ab && w1.wireAB == w.wireAB
    requires (s1.a.waiting, s1.a.sendSize, s1.a.lineTestQueued) == (s.a.waiting, s.a.sendSize, s.a.lineTestQueued)
    ensures CutOff(c, s1, w1)
  {
    hide Affords, BestRoom, Offer, Shut, NoRelief;
    if Affords(c, s1.a, Offer(c, s1.b, |s1.ab|), BestRoom(s1.b, w1.wireAB)) {
      AffordsSame(c, s.a, s1.a, Offer(c, s.b, |s.ab|), BestRoom(s.b, w.wireAB));
    }
  }

  lemma SmallEnough(c: Settings, s: Connection, w: Witness)
    requires Inv(c, s, w)
    ensures s.a.unacknowledged < LENGTH_LIMIT && s.a.receiveSize < LENGTH_LIMIT && s.a.window < LENGTH_LIMIT
    ensures GoodMessages(c, s.a.segments) && c.Valid()
  {
    hide Bytes, Frames, GoodMessages, Payload, Tag, Drained, Acks;
  }

  lemma WriteAtA(c: Settings, s: Connection, w: Witness, m: Moment) returns (w1: Witness)
    requires Inv(c, s, w) && CutOff(c, s, w) && EnabledAtA(c, s, Write(m))
    ensures var s1 := DoAtA(c, s, Write(m)); Inv(c, s1, w1) && CutOff(c, s1, w1) && s1.ab == s.ab
  {
    hide Affords, BestRoom, DoAtA, EnabledAtA, FrameProtocol.Write, GoodFrames, GoodMessages, GoodMoment, Inv, NoRelief,
      Offer, Shut, Settings.Valid;
    WriteDoes(c, s, m);
    SmallEnough(c, s, w);
    ShutWritesNothing(c, s.a, m);
    w1 := FrameConnection.WriteKeeps(c, s, w, m);
    var s1 := DoAtA(c, s, Write(m));
    assert s.ab + [] == s.ab && w.wireAB + [] == w.wireAB && Bytes(c, []) == [];
    NoReliefLeft(c, s.a, w.wireBA, s1.a, w.wireBA) by {
      assert IsSuffix(w.wireBA, w.wireBA);
    }
    SameNeeds(c, s, w, s1, w1);
  }

  lemma ReadAtA(c: Settings, s: Connection, w: Witness, n: nat) returns (w1: Witness)
    requires Inv(c, s, w) && CutOff(c, s, w) && EnabledAtA(c, s, Read(n))
    ensures var s1 := DoAtA(c, s, Read(n)); Inv(c, s1, w1) && CutOff(c, s1, w1) && s1.ab == s.ab
  {
    hide Affords, Acks, BestRoom, DoAtA, EnabledAtA, IsSuffix, Link, NoRelief, Offer, OneKind, Prompt, Shut, Small,
      WindowFrom;
    w1 := ReadKeeps(c, s, w, n);
    var s1 := DoAtA(c, s, Read(n));
    WaitingFalls(s, w, s1, w1);
    NoAcks(c, s.a, w.wireBA);
    NoReliefLeft(c, s.a, w.wireBA, s.a, w1.wireBA);
    NoAcks(c, s.a, w1.wireBA);
    StaysShut(c, s.a, w.wireBA, s1.a, n);
    NoReliefLeft(c, s.a, w.wireBA, s1.a, w1.wireBA);
    SameNeeds(c, s, w, s1, w1);
  }

  // ----- What the other end does meanwhile -----

  lemma CutOffLastsAtB(c: Settings, s: Connection, w: Witness, action: Action) returns (w1: Witness)
    requires Inv(c, s, w) && CutOff(c, s, w) && Enabled(c, s, Step(false, action))
    ensures var s1 := Next(c, s, Step(false, action));
      Inv(c, s1, w1) && CutOff(c, s1, w1) && |s1.ab| <= |s.ab| && s1.ab == s.ab[|s.ab| - |s1.ab|..]
  {
    hide DoAtA, CutOff, EnabledAtA, Inv;
    InvSwaps(c, s, w);
    match action
    case Queue(f) =>
      w1 := QueueAtB(c, s, w, f);
    case Write(m) =>
      w1 := WriteAtB(c, s, w, m);
    case Read(n) =>
      w1 := ReadAtB(c, s, w, n);
  }

  lemma QueueAtB(c: Settings, s: Connection, w: Witness, f: Frame) returns (w1: Witness)
    requires Inv(c, s, w) && Inv(c, s.Swap(), w.Swap()) && CutOff(c, s, w) && EnabledAtA(c, s.Swap(), Queue(f))
    ensures var s1 := DoAtA(c, s.Swap(), Queue(f)).Swap(); Inv(c, s1, w1) && CutOff(c, s1, w1) && s1.ab == s.ab
  {
    hide Affords, Bytes, Inv, NoRelief, Shut, WindowFor, Settings.Good;
    QueueKeeps(c, s.Swap(), w.Swap(), f);
    var s2 := DoAtA(c, s.Swap(), Queue(f));
    var w2 := w.Swap().(dueB := w.Swap().dueB + [f]);
    InvSwaps(c, s2, w2);
    w1 := w2.Swap();
    assert Offer(c, s2.a, |s.ab|) == Offer(c, s.b, |s.ab|);
  }

  /** Nothing sent relieves the other end, and what is left offers it no more than before. */
  lemma WriteOffersNothing(c: Settings, e: Endpoint, b: Endpoint, m: Moment, n: nat, room: int, t: nat)
    requires c.Valid() && GoodFrames(c, b.queue) && !Affords(c, e, Offer(c, b, n), room)
    requires t <= |Prepare(c, b, m).segments| && |Bytes(c, Prepare(c, b, m).segments[..t])| <= room
    ensures NoRelief(c, e, Prepare(c, b, m).segments[..t])
    ensures var us := Prepare(c, b, m).segments;
      !Affords(c, e, Offer(c, Send(c, Prepare(c, b, m), t), n), room - |Bytes(c, us[..t])|)
  {
    hide Affords, Bytes, MessageBytes, Prepare, Relieves, Settings.Good, Settings.Valid;
    var us := Prepare(c, b, m).segments;
    forall u | u in us[..t] ensures !Relieves(c, e, u) {
      var k: nat :| k < t && us[..t][k] == u;
      if Relieves(c, e, u) {
        MiddleFits(c, us[..t], k + 1, t - k - 1);
        assert us[..t][..k + 1] == us[..k + 1] && us[..t][..t] == us[..t];
        AffordsBy(c, e, us, room, k);
        OfferCovers(c, e, b, m, n, room);
      }
    }
    var x := |Bytes(c, us[..t])|;
    var b1 := Send(c, Prepare(c, b, m), t);
    if Affords(c, e, Offer(c, b1, n), room - x) {
      var front, back := PrepareShape(c, b, m);
      AffordsSomething(c, e, Offer(c, b1, n), room - x);
      if b1.unacknowledged + n > b1.minimalRead {
        NewAckAffords(c, e, b, n, room);
      } else {
        assert Offer(c, b1, n) == us[t..];
        var k: nat := AffordsAt(c, e, us[t..], room - x);
        MiddleFits(c, us, t, k + 1);
        assert us[t..][k] == us[t + k];
        AffordsBy(c, e, us, room, t + k);
        OfferCovers(c, e, b, m, n, room);
      }
    }
  }

  lemma AffordsSomething(c: Settings, e: Endpoint, us: seq<Message>, room: int)
    requires Affords(c, e, us, room)
    ensures room >= 5
  {
    hide Affords, Bytes, Relieves, MessageBytes;
    var k: nat := AffordsAt(c, e, us, room);
    LastFits(c, us, k);
    RelieverSize(c, e, us[k]);
  }

  lemma WriteAtB(c: Settings, s: Connection, w: Witness, m: Moment) returns (w1: Witness)
    requires Inv(c, s, w) && Inv(c, s.Swap(), w.Swap()) && CutOff(c, s, w) && EnabledAtA(c, s.Swap(), Write(m))
    ensures var s1 := DoAtA(c, s.Swap(), Write(m)).Swap(); Inv(c, s1, w1) && CutOff(c, s1, w1) && s1.ab == s.ab
  {
    hide Affords, BestRoom, Bytes, DoAtA, EnabledAtA, GoodMessages, GoodMoment, Inv, NoRelief,
      Offer, Prepare, Send, Sendable, Shut, Settings.Good, Settings.Valid;
    WriteDoes(c, s.Swap(), m);
    SmallEnough(c, s.Swap(), w.Swap());
    var w2 := FrameConnection.WriteKeeps(c, s.Swap(), w.Swap(), m);
    var s2 := DoAtA(c, s.Swap(), Write(m));
    InvSwaps(c, s2, w2);
    w1 := w2.Swap();
    var (q, b1, sent) := FrameProtocol.Write(c, s.b, m);
    assert w1.wireBA == w.wireBA + sent && w1.wireAB == w.wireAB && s2.Swap() == s.(b := b1, ba := s.ba + Bytes(c, sent));
    if s.b.waiting < s.b.window {
      WriteIs(c, s.b, m);
      var us := Prepare(c, s.b, m).segments;
      var t := Sendable(c, us, Prepare(c, s.b, m).waiting, Prepare(c, s.b, m).window, m.room);
      var front, back := PrepareShape(c, s.b, m);
      assert LENGTH_LIMIT < SIZE_LIMIT;
      SendableFits(c, us, s.b.waiting, s.b.window, m.room);
      RoomIsEnough(s.b, w.wireAB);
      WriteOffersNothing(c, s.a, s.b, m, |s.ab|, BestRoom(s.b, w.wireAB), t);
      RoomUsed(s.b, b1, w.wireAB, |Bytes(c, sent)|) by {
        SendDoes(c, Prepare(c, s.b, m), t);
      }
      NoReliefJoins(c, s.a, w.wireBA, sent);
    } else {
      assert w.wireBA + sent == w.wireBA;
    }
  }

  lemma SendDoes(c: Settings, e: Endpoint, t: nat)
    requires t <= |e.segments|
    ensures var e1 := Send(c, e, t);
      e1.waiting == e.waiting + |Bytes(c, e.segments[..t])| && e1.window == e.window && e1.sendSize == e.sendSize
  {
    hide Bytes;
  }

  lemma RoomIsEnough(e: Endpoint, wire: seq<Message>)
    ensures e.window - e.waiting <= BestRoom(e, wire)
  {
    BestWindowIs(e.sendSize, e.window, wire);
  }

  lemma RoomUsed(e: Endpoint, e1: Endpoint, wire: seq<Message>, x: nat)
    requires e1.waiting == e.waiting + x && e1.window == e.window && e1.sendSize == e.sendSize
    ensures BestRoom(e1, wire) == BestRoom(e, wire) - x
  {
  }

  lemma NoReliefJoins(c: Settings, e: Endpoint, us: seq<Message>, vs: seq<Message>)
    requires NoRelief(c, e, us) && NoRelief(c, e, vs)
    ensures NoRelief(c, e, us + vs)
  {
    hide Relieves;
  }

  lemma ReadAtB(c: Settings, s: Connection, w: Witness, n: nat) returns (w1: Witness)
    requires Inv(c, s, w) && Inv(c, s.Swap(), w.Swap()) && CutOff(c, s, w) && EnabledAtA(c, s.Swap(), Read(n))
    ensures var s1 := DoAtA(c, s.Swap(), Read(n)).Swap();
      Inv(c, s1, w1) && CutOff(c, s1, w1) && |s1.ab| <= |s.ab| && s1.ab == s.ab[|s.ab| - |s1.ab|..]
  {
    hide Affords, BestRoom, DoAtA, EnabledAtA, Inv, IsSuffix, NoRelief, Offer, OneKind, Prompt, ReadOnly, Shut, Taken,
      Whole, WindowFrom;
    ReadDoes(c, s.Swap(), n);
    var w2 := ReadKeeps(c, s.Swap(), w.Swap(), n);
    var s2 := DoAtA(c, s.Swap(), Read(n));
    InvSwaps(c, s2, w2);
    w1 := w2.Swap();
    RoomAfterRead(c, s.Swap(), w.Swap(), s2, w2, n);
    SameOffer(c, s.b, s2.a, n, |s.ab| - n);
    if Affords(c, s.a, Offer(c, s2.a, |s.ab| - n), BestRoom(s2.a, w2.wireBA)) {
      AffordsLess(c, s.a, Offer(c, s2.a, |s.ab| - n), BestRoom(s2.a, w2.wireBA), BestRoom(s.b, w.wireAB));
    }
  }

  lemma RoomAfterRead(c: Settings, s: Connection, w: Witness, s1: Connection, w1: Witness, n: nat)
    requires Inv(c, s, w) && Inv(c, s1, w1) && s1 == s.(a := s1.a, ba := s1.ba) && ReadOnly(s.a, s1.a, n)
    requires WindowFrom(s.a, w.wireBA, s1.a.window) && IsSuffix(w1.wireBA, w.wireBA)
    ensures BestRoom(s1.a, w1.wireBA) <= BestRoom(s.a, w.wireBA)
  {
    hide Acks, BestWindow, IsSuffix, Link, Small, WindowFrom;
    WaitingFalls(s, w, s1, w1);
    BestWindowFalls(s.a, w.wireBA, s1.a.window, w1.wireBA);
  }

  lemma SameOffer(c: Settings, e: Endpoint, e1: Endpoint, n: nat, more: nat)
    requires ReadOnly(e, e1, n)
    ensures Offer(c, e1, more) == Offer(c, e, n + more)
  {
  }

  /** An end that is cut off never writes another byte, whatever is queued, read and written by the other. */
  lemma CutOffLasts(c: Settings, s: Connection, w: Witness, step: Step) returns (w1: Witness)
    requires Inv(c, s, w) && CutOff(c, s, w) && Enabled(c, s, step)
    ensures var s1 := Next(c, s, step);
      Inv(c, s1, w1) && CutOff(c, s1, w1) && |s1.ab| <= |s.ab| && s1.ab == s.ab[|s.ab| - |s1.ab|..]
  {
    hide DoAtA, CutOff, Inv;
    if step.atA {
      w1 := CutOffLastsAtA(c, s, w, step.action);
    } else {
      w1 := CutOffLastsAtB(c, s, w, step.action);
    }
  }
}
