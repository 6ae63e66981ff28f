/**
  Exactly when an end writes again: the connection either cuts it off, or can be led to a point where it writes.
 */
module FrameRelief {
  import opened ByteStream
  import opened FrameCodec
  import opened FrameProtocol
  import opened FrameDelivery
  import opened FrameConnection
  import opened FrameRuns
  import opened FrameCutOff

  // ----- Continuations -----

  ghost predicate Leads(c: Settings, s: Connection, steps: seq<Step>)
    decreases |steps|
  {
    steps == [] || (Enabled(c, s, steps[0]) && Leads(c, Next(c, s, steps[0]), steps[1..]))
  }

  ghost function Final(c: Settings, s: Connection, steps: seq<Step>): Connection
    requires Leads(c, s, steps)
    decreases |steps|
  {
    if steps == [] then s else Final(c, Next(c, s, steps[0]), steps[1..])
  }

  ghost predicate WritesNow(c: Settings, s: Connection) {
    exists m :: EnabledAtA(c, s, Write(m)) && FrameProtocol.Write(c, s.a, m).2 != []
  }

  /** In some continuation end A writes another message. */
  ghost predicate WritesAgain(c: Settings, s: Connection) {
    exists steps :: Leads(c, s, steps) && WritesNow(c, Final(c, s, steps))
  }

  lemma WritesAtOnce(c: Settings, s: Connection)
    requires WritesNow(c, s)
    ensures WritesAgain(c, s)
  {
    hide WritesNow;
    assert Leads(c, s, []) && Final(c, s, []) == s;
  }

  lemma WritesLater(c: Settings, s: Connection, step: Step)
    requires Enabled(c, s, step) && WritesAgain(c, Next(c, s, step))
    ensures WritesAgain(c, s)
  {
    hide WritesNow, Enabled, Next;
    var steps :| Leads(c, Next(c, s, step), steps) && WritesNow(c, Final(c, Next(c, s, step), steps));
    var all := [step] + steps;
    assert all[1..] == steps;
    assert Leads(c, s, all) && Final(c, s, all) == Final(c, Next(c, s, step), steps);
  }

  lemma {:induction false} CutOffForGood(c: Settings, s: Connection, w: Witness, steps: seq<Step>)
    requires Inv(c, s, w) && CutOff(c, s, w) && Leads(c, s, steps)
    ensures !WritesNow(c, Final(c, s, steps))
    decreases |steps|
  {
    hide CutOff, Inv, Next, FrameProtocol.Read;
    if steps == [] {
      forall m | EnabledAtA(c, s, Write(m)) ensures FrameProtocol.Write(c, s.a, m).2 == [] {
        CutOffIsSilent(c, s, w, m);
      }
    } else {
      var w1 := CutOffLasts(c, s, w, steps[0]);
      CutOffForGood(c, Next(c, s, steps[0]), w1, steps[1..]);
    }
  }

  lemma CutOffIsSilent(c: Settings, s: Connection, w: Witness, m: Moment)
    requires Inv(c, s, w) && CutOff(c, s, w) && EnabledAtA(c, s, Write(m))
    ensures FrameProtocol.Write(c, s.a, m).2 == []
  {
    hide Affords, BestRoom, DoAtA, EnabledAtA, FrameProtocol.Write, GoodMessages, GoodMoment, Inv, NoRelief, Offer, Shut,
      Settings.Valid;
    WriteDoes(c, s, m);
    SmallEnough(c, s, w);
    ShutWritesNothing(c, s.a, m);
  }

  // ----- What every run keeps besides -----

  /** Acknowledgements stand for more than the minimum, and connection options tell the size of the receive buffer. */
  ghost predicate Speaks(e: Endpoint, wire: seq<Message>) {
    forall u | u in wire || u in e.segments ::
      (u.Ack? ==> u.bytesRead > e.minimalRead) && (u.Options? ==> u.bufferSize == e.receiveSize)
  }

  /** No more than the window is waiting, and a queued line test is at the front or behind short messages. */
  ghost predicate Steady(e: Endpoint, bufferSize: nat) {
    && (e.window == 3276 || e.window == WindowFor(e.sendSize, bufferSize))
    && e.waiting <= e.window
    && (e.waiting == e.window ==> !e.lineTestQueued)
    && (e.lineTestQueued ==> e.segments != [] && !e.segments[0].Segment? && !e.segments[0].Options?)
  }

  /**
    The buffers on both sides are at least as large as the first window assumes, and acknowledgements are not sent for
    less than they take; the program asks for a minimum above five bytes.
   */
  ghost predicate Configured(a: Endpoint, b: Endpoint) {
    && WindowFor(a.sendSize, b.receiveSize) >= 3276 && WindowFor(b.sendSize, a.receiveSize) >= 3276
    && a.minimalRead >= 4 && b.minimalRead >= 4
  }

  ghost predicate Regular(s: Connection, w: Witness) {
    && Configured(s.a, s.b)
    && Speaks(s.a, w.wireAB) && Speaks(s.b, w.wireBA)
    && Steady(s.a, s.b.receiveSize) && Steady(s.b, s.a.receiveSize)
  }

  lemma RegularSwaps(s: Connection, w: Witness)
    requires Regular(s, w)
    ensures Regular(s.Swap(), w.Swap())
  {
    hide Speaks, Steady;
  }

  lemma RegularAtFirst(s: Connection)
    requires IsInitial(s) && Configured(s.a, s.b)
    ensures Regular(s, Witness([], [], [], []))
  {
    hide Configured;
  }

  lemma ReadKeepsSteady(e: Endpoint, wire: seq<Message>, b: Endpoint, e1: Endpoint, n: nat)
    requires Steady(e, b.receiveSize) && Speaks(b, wire) && WindowFor(e.sendSize, b.receiveSize) >= 3276
    requires ReadOnly(e, e1, n) && WindowFrom(e, wire, e1.window)
    ensures Steady(e1, b.receiveSize) && e1.window >= e.window
  {
    hide WindowFor;
  }

  lemma SpeaksLeft(e: Endpoint, wire: seq<Message>, left: seq<Message>)
    requires Speaks(e, wire) && IsSuffix(left, wire)
    ensures Speaks(e, left)
  {
    forall u | u in left ensures u in wire {}
  }

  lemma SpeaksSame(e: Endpoint, wire: seq<Message>, e1: Endpoint)
    requires Speaks(e, wire) && (e1.segments, e1.minimalRead, e1.receiveSize) == (e.segments, e.minimalRead, e.receiveSize)
    ensures Speaks(e1, wire)
  {
  }

  lemma ReadKeepsRegular(c: Settings, s: Connection, w: Witness, s1: Connection, w1: Witness, n: nat)
    requires Regular(s, w) && s1 == s.(a := s1.a, ba := s1.ba) && ReadOnly(s.a, s1.a, n)
    requires w1.wireAB == w.wireAB && IsSuffix(w1.wireBA, w.wireBA) && WindowFrom(s.a, w.wireBA, s1.a.window)
    ensures Regular(s1, w1)
  {
    hide IsSuffix, Speaks, Steady, WindowFor, WindowFrom;
    ReadKeepsSteady(s.a, w.wireBA, s.b, s1.a, n);
    SpeaksLeft(s.b, w.wireBA, w1.wireBA);
    SpeaksSame(s.a, w.wireAB, s1.a);
  }

  lemma WriteKeepsSpeaks(c: Settings, e: Endpoint, wire: seq<Message>, m: Moment)
    requires c.Valid() && GoodFrames(c, e.queue) && Speaks(e, wire) && e.unacknowledged < LENGTH_LIMIT
    ensures var (q, e1, sent) := FrameProtocol.Write(c, e, m);
      && Speaks(e1, wire + sent)
      && (e1.receiveSize, e1.sendSize, e1.minimalRead) == (e.receiveSize, e.sendSize, e.minimalRead)
  {
    hide Bytes, Prepare, Sendable, Settings.Good, Settings.Valid;
    if e.waiting < e.window {
      var front, back := PrepareShape(c, e, m);
      assert Speaks(Prepare(c, e, m), wire);
      WriteIs(c, e, m);
    }
  }

  lemma WriteKeepsSteady(c: Settings, e: Endpoint, m: Moment, bufferSize: nat)
    requires c.Valid() && GoodFrames(c, e.queue) && Steady(e, bufferSize) && e.window < SIZE_LIMIT
    ensures Steady(FrameProtocol.Write(c, e, m).1, bufferSize)
  {
    hide Bytes, Prepare, Sendable, Settings.Good, Settings.Valid, WindowFor;
    if e.waiting < e.window {
      var front, back := PrepareShape(c, e, m);
      var e1 := Prepare(c, e, m);
      LineTestInFront(c, e, m);
      WriteIs(c, e, m);
      var n := Sendable(c, e1.segments, e1.waiting, e1.window, m.room);
      SendableFits(c, e1.segments, e.waiting, e.window, m.room);
      assert e1.segments[..0] == [] && Bytes(c, []) == [] by { assert Bytes(c, []) == [] by { NoBytes(c); } }
      assert e1.segments[0..] == e1.segments;
    }
  }

  lemma NoBytes(c: Settings)
    ensures Bytes(c, []) == []
  {
  }

  lemma LineTestInFront(c: Settings, e: Endpoint, m: Moment)
    requires c.Valid() && GoodFrames(c, e.queue)
    requires e.lineTestQueued ==> e.segments != [] && !e.segments[0].Segment? && !e.segments[0].Options?
    ensures var e1 := Prepare(c, e, m);
      e1.lineTestQueued ==> e1.segments != [] && !e1.segments[0].Segment? && !e1.segments[0].Options?
  {
    hide SplitAll, Settings.Good, Settings.Valid;
    var e3 := QueueStatus(c, QueueLineTest(QueueAck(e), m), m);
    var rest := (if e.optionsDue then [Options(e.receiveSize, c.version, m.time)] else []) + SplitAll(c, e.queue);
    assert Prepare(c, e, m).segments == e3.segments + rest;
    assert e3.segments != [] ==> Prepare(c, e, m).segments[0] == e3.segments[0];
  }

  // ----- Reading one message at a time -----

  /** No message that has arrived as a whole is left in the read buffer. */
  ghost predicate CaughtUp(c: Settings, e: Endpoint, wire: seq<Message>) {
    wire != [] ==> |e.readBuffer| < |MessageBytes(c, wire[0])|
  }

  lemma {:induction false} TakeFramesKeeps(c: Settings, e: Endpoint)
    requires c.Valid() && e.pending in c.readers
    ensures var e1 := TakeFrames(c, e); e1 == e.(delivered := e1.delivered, frameData := e1.frameData)
    decreases |e.frameData|
  {
    hide ReadFrame, Settings.Valid;
    match ReadFrame(c.order, c.readers[e.pending], e.frameData)
    case Eof =>
    case Parsed(values, used) =>
      var e1 := e.(delivered := e.delivered + [Frame(e.pending, values)], frameData := e.frameData[used..]);
      if e1.frameData != [] {
        ReadFrameTakes(c, e);
        TakeFramesKeeps(c, e1);
      }
  }

  lemma ReadFrameTakes(c: Settings, e: Endpoint)
    requires c.Valid() && e.pending in c.readers
    ensures var r := ReadFrame(c.order, c.readers[e.pending], e.frameData); r.Parsed? ==> 4 <= r.used <= |e.frameData|
  {
  }

  /** A read that brings exactly the rest of one message takes this message and no other. */
  lemma ReadOneMessage(c: Settings, e: Endpoint, channel: seq<Byte>, wire: seq<Message>)
    requires c.Valid() && Holds(c, e, channel, wire) && wire != [] && Acks(wire) <= e.waiting
    requires e.readBuffer == MessageBytes(c, wire[0]) && !Switches(e, wire[0])
    ensures var (v, e1) := ReadMessages(c, e);
      && v.Again? && e1 == After(c, e, wire[0])
      && (e1.pending == 0 || e1.pending in c.readers)
  {
    hide Apply, Bytes, GoodMessages, MessageBytes, ReadMessage, Settings.Valid;
    TakeOne(c, e, channel, wire);
    ReadMessagesKeepsPending(c, e);
    assert e.readBuffer[|MessageBytes(c, wire[0])|..] == [];
  }

  lemma CutInTwo(a: seq<Byte>, b: seq<Byte>, x: seq<Byte>, y: seq<Byte>, n: nat)
    requires a + b == x + y && |a| + n == |x|
    ensures n <= |b| && a + b[..n] == x
  {
    assert |a + b| == |x + y|;
    assert (a + b)[..|x|] == a + b[..n] && (x + y)[..|x|] == x;
  }

  lemma FirstMessage(c: Settings, e: Endpoint, channel: seq<Byte>, wire: seq<Message>) returns (n: nat)
    requires e.readBuffer + channel == Bytes(c, wire) && wire != [] && CaughtUp(c, e, wire)
    ensures 0 < n <= |channel| && |e.readBuffer| + n == |MessageBytes(c, wire[0])|
    ensures e.readBuffer + channel[..n] == MessageBytes(c, wire[0])
  {
    hide MessageBytes;
    var first := MessageBytes(c, wire[0]);
    n := |first| - |e.readBuffer|;
    CutInTwo(e.readBuffer, channel, first, Bytes(c, wire[1..]), n);
  }

  lemma AfterMessagesKeeps(c: Settings, v: Verdict, e: Endpoint)
    requires c.Valid() && (e.pending == 0 || e.pending in c.readers) && v.Again?
    ensures var (q, r) := AfterMessages(c, v, e);
      q == JobDone && (r.waiting, r.window, r.readBuffer) == (e.waiting, e.window, e.readBuffer)
  {
    if e.pending != 0 {
      TakeFramesKeeps(c, e);
    }
  }

  lemma NoSwitch(c: Settings, s: Endpoint, e: Endpoint, channel: seq<Byte>, wire: seq<Message>, queued: seq<Frame>,
                 due: seq<Frame>)
    requires c.Valid() && Link(c, s, e, channel, wire, queued, due) && wire != []
    ensures !Switches(e, wire[0])
  {
    hide Link, Settings.Valid;
    KindGoesOn(c, s, e, channel, wire, queued, due, 1);
    assert OneKind(wire[..1]);
    assert wire[..1][0] == wire[0];
  }

  lemma ReceivedHolds(c: Settings, e: Endpoint, channel: seq<Byte>, wire: seq<Message>, n: nat)
    requires Holds(c, e, channel, wire) && n <= |channel|
    ensures Holds(c, Received(e, channel[..n]), channel[n..], wire)
  {
    hide Bytes, GoodMessages;
    assert (e.readBuffer + channel[..n]) + channel[n..] == e.readBuffer + channel;
  }

  lemma FirstReadIs(c: Settings, s: Endpoint, e: Endpoint, channel: seq<Byte>, wire: seq<Message>, queued: seq<Frame>,
                    due: seq<Frame>, n: nat)
    requires c.Valid() && Link(c, s, e, channel, wire, queued, due) && wire != [] && Acks(wire) <= e.waiting
    requires 0 < n <= |channel| && e.readBuffer + channel[..n] == MessageBytes(c, wire[0])
    ensures e.pending == 0 || e.pending in c.readers
    ensures var (q, e1) := FrameProtocol.Read(c, e, channel[..n]);
      q == JobDone
      && e1.window == if wire[0].Options? then WindowFor(e.sendSize, wire[0].bufferSize) else e.window
  {
    hide AfterMessages, Drained, Frames, FrameProtocol.Read, GoodFrames, GoodMessages, MessageBytes, Payload,
      ReadMessages, Settings.Valid, Tag, WindowFor, Acks, Bytes;
    NoSwitch(c, s, e, channel, wire, queued, due);
    ReceivedHolds(c, e, channel, wire, n);
    var r := Received(e, channel[..n]);
    ReadOneMessage(c, r, channel[n..], wire);
    ReadIs(c, e, channel[..n]);
    AfterMessagesKeeps(c, ReadMessages(c, r).0, ReadMessages(c, r).1);
  }

  lemma OneTaken(c: Settings, e: Endpoint, wire: seq<Message>)
    requires wire != [] && !Switches(e, wire[0])
    ensures Taken(c, e.pending, wire, |MessageBytes(c, wire[0])|) == 1
    ensures Whole(c, wire, |MessageBytes(c, wire[0])|) == 1 && OneKind(wire[..1])
  {
    hide MessageBytes;
    NothingTaken(c, if wire[0].Segment? then wire[0].kind else e.pending, wire[1..]);
  }

  lemma ReadyByInv(c: Settings, s: Connection, w: Witness)
    requires Inv(c, s, w)
    ensures Ready(c, s.a)
  {
    hide Bytes, Drained, Frames, GoodMessages, Payload, Settings.Good, Settings.Valid, Tag;
  }

  lemma MayRead(c: Settings, s: Connection, n: nat)
    requires Ready(c, s.a) && n <= |s.ba| && FrameProtocol.Read(c, s.a, s.ba[..n]).0 != Undefined
    ensures EnabledAtA(c, s, Read(n))
  {
    hide FrameProtocol.Read, Ready;
  }

  lemma PromptIsCaughtUp(c: Settings, e: Endpoint, wire: seq<Message>, due: seq<Frame>)
    requires Prompt(c, e, wire, due)
    ensures CaughtUp(c, e, wire)
  {
  }

  /** The first message of the wire can be read alone. */
  lemma ReadFirst(c: Settings, s: Connection, w: Witness) returns (n: nat, w1: Witness)
    requires Inv(c, s, w) && w.wireBA != [] && CaughtUp(c, s.a, w.wireBA)
    ensures 0 < n <= |s.ba| && EnabledAtA(c, s, Read(n))
    ensures var s1 := DoAtA(c, s, Read(n));
      && Inv(c, s1, w1) && w1 == w.(wireBA := w.wireBA[1..], dueA := w1.dueA) && CaughtUp(c, s1.a, w1.wireBA)
      && s1 == s.(a := s1.a, ba := s.ba[n..]) && ReadOnly(s.a, s1.a, n)
      && IsSuffix(w1.wireBA, w.wireBA) && WindowFrom(s.a, w.wireBA, s1.a.window)
      && s1.a.waiting - Acks(w1.wireBA) == s.a.waiting - Acks(w.wireBA)
      && s1.a.window == if w.wireBA[0].Options? then WindowFor(s.a.sendSize, w.wireBA[0].bufferSize) else s.a.window
  {
    hide Acks, CaughtUp, DoAtA, EnabledAtA, FrameProtocol.Read, IsSuffix, Link, MessageBytes, OneKind, Prompt, ReadOnly,
      Ready, Settings.Valid, Small, Taken, Whole, WindowFor, WindowFrom, Switches;
    var e, wire := s.a, w.wireBA;
    ReadyByInv(c, s, w);
    AcksWithin(c, s, w);
    assert e.readBuffer + s.ba == Bytes(c, wire) by { BytesOnTheWay(c, s, w); }
    n := FirstMessage(c, e, s.ba, wire);
    FirstReadIs(c, s.b, e, s.ba, wire, s.fromB, w.dueA, n);
    MayRead(c, s, n);
    ReadDoes(c, s, n);
    NoSwitch(c, s.b, e, s.ba, wire, s.fromB, w.dueA);
    OneTaken(c, e, wire);
    w1 := ReadKeeps(c, s, w, n);
    WaitingFalls(s, w, DoAtA(c, s, Read(n)), w1);
    PromptIsCaughtUp(c, DoAtA(c, s, Read(n)).a, w1.wireBA, w1.dueA);
  }

  lemma BytesOnTheWay(c: Settings, s: Connection, w: Witness)
    requires Inv(c, s, w)
    ensures s.a.readBuffer + s.ba == Bytes(c, w.wireBA)
  {
    hide Bytes, Drained, Frames, GoodMessages, Payload, Tag;
  }

  // ----- An end that is not cut off writes again -----

  lemma FirstSendable(c: Settings, us: seq<Message>, waiting: nat, window: nat)
    requires us != [] && waiting < window < SIZE_LIMIT
    requires |MessageBytes(c, us[0])| <= 1 || |MessageBytes(c, us[0])| <= window - waiting
    ensures Sendable(c, us, waiting, window, 1) == 1
  {
    hide MessageBytes;
    SmallModulo(window - waiting);
  }

  /** The moment at which an end that is not shut writes something: a line test, a status or what is in front. */
  function GoodTime(c: Settings, e: Endpoint): Moment {
    Moment(false, !e.lineTestQueued,
           c.withStatus && e.lineTestQueued && QueueAck(e).segments != [] && !QueueAck(e).segments[0].LineTest?, 0, 0, 1)
  }

  /** What is in front at that moment fits. */
  lemma FrontFits(c: Settings, e: Endpoint, bufferSize: nat)
    requires c.Valid() && GoodFrames(c, e.queue) && Steady(e, bufferSize) && !Shut(c, e)
    requires GoodMessages(c, Prepare(c, e, GoodTime(c, e)).segments)
    ensures e.waiting < e.window
    ensures var us := Prepare(c, e, GoodTime(c, e)).segments;
      us != [] && (|MessageBytes(c, us[0])| <= 1 || |MessageBytes(c, us[0])| <= e.window - e.waiting)
  {
    hide GoodMessage, MessageBytes, SplitAll, Settings.Good, Settings.Valid, WindowFor;
    var m := GoodTime(c, e);
    var us := Prepare(c, e, m).segments;
    var front := QueueStatus(c, QueueLineTest(QueueAck(e), m), m).segments;
    assert front != [];
    assert us[0] == front[0];
    MessageSize(c, us[0]);
    assert GoodMessage(c, us[0]);
    NoStatusWithout(c, us[0]);
  }

  lemma NoStatusWithout(c: Settings, u: Message)
    requires GoodMessage(c, u)
    ensures u.Status? ==> c.withStatus
  {
  }

  lemma OpenWritesNow(c: Settings, s: Connection, w: Witness)
    requires Inv(c, s, w) && Regular(s, w) && !Shut(c, s.a)
    ensures WritesNow(c, s)
  {
    hide Configured, FrameProtocol.Read, GoodMessages, Inv, Power256, Prepare, Sendable, Shut, Speaks, Steady, GoodTime,
      Settings.Good, Settings.Valid;
    var m := GoodTime(c, s.a);
    ReadyByInv(c, s, w);
    SmallEnough(c, s, w);
    assert GoodMoment(m) && m.room == 1 by { GoodTimeIs(c, s.a); }
    PrepareKeeps(c, s.a, m);
    FrontFits(c, s.a, s.b.receiveSize);
    assert LENGTH_LIMIT < SIZE_LIMIT;
    FirstSendable(c, Prepare(c, s.a, m).segments, s.a.waiting, s.a.window);
    WriteIs(c, s.a, m);
    assert EnabledAtA(c, s, Write(m)) && FrameProtocol.Write(c, s.a, m).2 != [];
  }

  lemma GoodTimeIs(c: Settings, e: Endpoint)
    ensures GoodMoment(GoodTime(c, e)) && GoodTime(c, e).room == 1
  {
  }

  /** After a message that relieves it, an end is not shut. */
  lemma RelievedIsOpen(c: Settings, e: Endpoint, e1: Endpoint, b: Endpoint, n: nat, wire: seq<Message>)
    requires wire != [] && Relieves(c, e, wire[0]) && ReadOnly(e, e1, n)
    requires Steady(e, b.receiveSize) && Speaks(b, wire) && b.minimalRead >= 4
    requires e1.waiting - Acks(wire[1..]) == e.waiting - Acks(wire)
    requires e1.window == if wire[0].Options? then WindowFor(e.sendSize, wire[0].bufferSize) else e.window
    ensures !Shut(c, e1)
  {
    hide WindowFor;
  }

  lemma ReliefLeft(c: Settings, e: Endpoint, wire: seq<Message>, e1: Endpoint, n: nat)
    requires wire != [] && !NoRelief(c, e, wire) && !Relieves(c, e, wire[0])
    requires ReadOnly(e, e1, n) && e1.waiting - Acks(wire[1..]) == e.waiting - Acks(wire)
    ensures !NoRelief(c, e1, wire[1..])
  {
    hide WindowFor;
    var u :| u in wire && Relieves(c, e, u);
    assert u in wire[1..];
    assert Relieves(c, e1, u);
  }

  /** An end for which relief is on its way reads it and writes. */
  lemma {:induction false} RelievedWrites(c: Settings, s: Connection, w: Witness)
    requires Inv(c, s, w) && Regular(s, w) && CaughtUp(c, s.a, w.wireBA)
    requires !Shut(c, s.a) || !NoRelief(c, s.a, w.wireBA)
    ensures WritesAgain(c, s)
    decreases |w.wireBA|
  {
    hide Acks, CaughtUp, Configured, DoAtA, EnabledAtA, Inv, IsSuffix, NoRelief, ReadOnly, Relieves, Shut, Speaks, Steady,
      WindowFor, WindowFrom, WritesAgain, WritesNow;
    if !Shut(c, s.a) {
      OpenWritesNow(c, s, w);
      WritesAtOnce(c, s);
    } else {
      assert w.wireBA != [] by { NoReliefInNothing(c, s.a); }
      var n, w1 := ReadFirst(c, s, w);
      var s1 := DoAtA(c, s, Read(n));
      ReadKeepsRegular(c, s, w, s1, w1, n);
      if Relieves(c, s.a, w.wireBA[0]) {
        MinimumIsFour(s, w);
        RelievedIsOpen(c, s.a, s1.a, s.b, n, w.wireBA);
      } else {
        ReliefLeft(c, s.a, w.wireBA, s1.a, n);
      }
      RelievedWrites(c, s1, w1);
      assert Enabled(c, s, Step(true, Read(n))) && Next(c, s, Step(true, Read(n))) == s1;
      WritesLater(c, s, Step(true, Read(n)));
    }
  }

  lemma NoReliefInNothing(c: Settings, e: Endpoint)
    ensures NoRelief(c, e, [])
  {
  }

  lemma MinimumIsFour(s: Connection, w: Witness)
    requires Regular(s, w)
    ensures s.a.minimalRead >= 4 && s.b.minimalRead >= 4
    ensures WindowFor(s.a.sendSize, s.b.receiveSize) >= 3276 && WindowFor(s.b.sendSize, s.a.receiveSize) >= 3276
  {
    hide Speaks, Steady, WindowFor;
  }

  /** Reading one message brings the end nearer to its best room, and takes nothing of it. */
  lemma RoomStays(e: Endpoint, wire: seq<Message>, e1: Endpoint, b: Endpoint, n: nat)
    requires wire != [] && Steady(e, b.receiveSize) && Speaks(b, wire) && ReadOnly(e, e1, n)
    requires WindowFor(e.sendSize, b.receiveSize) >= 3276
    requires e1.waiting - Acks(wire[1..]) == e.waiting - Acks(wire)
    requires e1.window == if wire[0].Options? then WindowFor(e.sendSize, wire[0].bufferSize) else e.window
    ensures BestRoom(e1, wire[1..]) == BestRoom(e, wire)
  {
    hide WindowFor, Acks;
    assert wire[0] in wire;
  }

  lemma {:induction false} SendableAtLeast(c: Settings, us: seq<Message>, k: nat, waiting: nat, window: nat, room: nat)
    requires waiting < window < SIZE_LIMIT && k < |us| && waiting + |Bytes(c, us[..k + 1])| <= window && room > k
    ensures Sendable(c, us, waiting, window, room) > k
    decreases k
  {
    hide MessageBytes;
    var size := |MessageBytes(c, us[0])|;
    SmallModulo(window - waiting);
    assert us[..k + 1][0] == us[0] && us[..k + 1][1..] == us[1..][..k];
    if k > 0 {
      BytesGrow(c, us[1..], k - 1);
      SendableAtLeast(c, us[1..], k - 1, waiting + size, window, room - 1);
    }
  }

  lemma BytesGrow(c: Settings, us: seq<Message>, k: nat)
    requires k < |us|
    ensures |Bytes(c, us[..k + 1])| > 0
  {
    hide MessageBytes;
    assert us[..k + 1] != [];
  }

  /** The moment at which an end puts only an acknowledgement in front and sends all it can. */
  function CalmTime(room: nat): Moment {
    Moment(false, false, false, 0, 0, room)
  }

  lemma OfferIsFirst(c: Settings, e: Endpoint, room: nat)
    requires c.Valid() && GoodFrames(c, e.queue)
    ensures Offer(c, e, 0) <= Prepare(c, e, CalmTime(room)).segments
    ensures Prepare(c, e, CalmTime(room)).waiting == e.waiting && Prepare(c, e, CalmTime(room)).window == e.window
  {
    hide SplitAll, Settings.Good, Settings.Valid;
    assert e.(unacknowledged := e.unacknowledged + 0) == e;
    assert Prepare(c, e, CalmTime(room)).segments == Offer(c, e, 0) + SplitAll(c, e.queue);
  }

  /** An end with nothing to read sends what it can afford. */
  lemma AffordedIsSent(c: Settings, e: Endpoint, b: Endpoint) returns (m: Moment)
    requires c.Valid() && GoodFrames(c, b.queue) && b.window < SIZE_LIMIT
    requires Affords(c, e, Offer(c, b, 0), b.window - b.waiting)
    ensures GoodMoment(m) && !NoRelief(c, e, FrameProtocol.Write(c, b, m).2)
  {
    hide Affords, Bytes, MessageBytes, Offer, Prepare, Relieves, Sendable, Settings.Good, Settings.Valid;
    AffordsSomething(c, e, Offer(c, b, 0), b.window - b.waiting);
    var k := AffordsAt(c, e, Offer(c, b, 0), b.window - b.waiting);
    m := CalmTime(k + 1);
    assert Power256(8) > 0 by { PowerIsPositive(8); }
    OfferIsFirst(c, b, k + 1);
    var us := Prepare(c, b, m).segments;
    assert us[..k + 1] == Offer(c, b, 0)[..k + 1];
    SendableAtLeast(c, us, k, b.waiting, b.window, k + 1);
    WriteIs(c, b, m);
    var sent := FrameProtocol.Write(c, b, m).2;
    assert sent[k] == us[k] && sent[k] in sent;
  }

  lemma ReliefJoins(c: Settings, e: Endpoint, us: seq<Message>, vs: seq<Message>)
    requires !NoRelief(c, e, vs)
    ensures !NoRelief(c, e, us + vs)
  {
    hide Relieves;
    var u :| u in vs && Relieves(c, e, u);
    assert u in us + vs;
  }

  lemma StillCaughtUp(c: Settings, e: Endpoint, channel: seq<Byte>, wire: seq<Message>, sent: seq<Message>)
    requires CaughtUp(c, e, wire) && e.readBuffer + channel == Bytes(c, wire)
    ensures CaughtUp(c, e, wire + sent)
  {
    hide MessageBytes;
  }

  /** What a write does to everything that the theorem is about. */
  lemma WriteKeepsRegular(c: Settings, s: Connection, w: Witness, m: Moment) returns (w1: Witness)
    requires Inv(c, s, w) && Regular(s, w) && EnabledAtA(c, s, Write(m))
    ensures var s1 := DoAtA(c, s, Write(m));
      && Inv(c, s1, w1) && Regular(s1, w1)
      && s1 == s.(a := s1.a, ab := s1.ab) && (s1.a.readBuffer, s1.a.receiveSize) == (s.a.readBuffer, s.a.receiveSize)
      && w1.wireAB == w.wireAB + FrameProtocol.Write(c, s.a, m).2 && w1.wireBA == w.wireBA
  {
    hide Bytes, Configured, DoAtA, EnabledAtA, FrameProtocol.Write, GoodMessages, GoodMoment, Inv, Speaks, Steady,
      Settings.Good, Settings.Valid;
    WriteDoes(c, s, m);
    SmallEnough(c, s, w);
    w1 := FrameConnection.WriteKeeps(c, s, w, m);
    assert LENGTH_LIMIT < SIZE_LIMIT;
    WriteKeepsSpeaks(c, s.a, w.wireAB, m);
    WriteKeepsSteady(c, s.a, m, s.b.receiveSize);
    WriteKeepsRest(c, s.a, m);
    ConfiguredSame(s.a, FrameProtocol.Write(c, s.a, m).1, s.b);
  }

  lemma WriteKeepsRest(c: Settings, e: Endpoint, m: Moment)
    requires c.Valid() && GoodFrames(c, e.queue)
    ensures FrameProtocol.Write(c, e, m).1.readBuffer == e.readBuffer
  {
    hide Bytes, Prepare, Sendable, Settings.Good, Settings.Valid;
    if e.waiting < e.window {
      var front, back := PrepareShape(c, e, m);
      WriteIs(c, e, m);
    }
  }

  lemma ConfiguredSame(e: Endpoint, e1: Endpoint, b: Endpoint)
    requires Configured(e, b) && (e1.sendSize, e1.receiveSize, e1.minimalRead) == (e.sendSize, e.receiveSize, e.minimalRead)
    ensures Configured(e1, b)
  {
    hide WindowFor;
  }

  lemma MayWrite(c: Settings, s: Connection, m: Moment)
    requires Ready(c, s.a) && GoodMoment(m)
    ensures EnabledAtA(c, s, Write(m))
  {
    hide Ready;
  }

  /** The other end sends the relief that it can afford. */
  lemma OtherWrites(c: Settings, s: Connection, w: Witness)
    requires Inv(c, s, w) && Regular(s, w) && CaughtUp(c, s.a, w.wireBA) && w.wireAB == []
    requires Affords(c, s.a, Offer(c, s.b, |s.ab|), BestRoom(s.b, w.wireAB))
    ensures WritesAgain(c, s)
  {
    hide Affords, Bytes, CaughtUp, Configured, DoAtA, EnabledAtA, FrameProtocol.Read, FrameProtocol.Write, GoodMessages,
      GoodMoment, Inv, NoRelief, Offer, Ready, Regular, Relieves, Shut, Speaks, Steady, WritesAgain;
    InvSwaps(c, s, w);
    RegularSwaps(s, w);
    ReadyByInv(c, s.Swap(), w.Swap());
    SmallEnough(c, s.Swap(), w.Swap());
    BytesOnTheWay(c, s, w);
    BytesOnTheWay(c, s.Swap(), w.Swap());
    assert s.ab == [] by { NoBytes(c); }
    var m := AffordedIsSent(c, s.a, s.b) by { assert c.Valid() && GoodFrames(c, s.b.queue) by { ReadyMeans(c, s.b); } }
    MayWrite(c, s.Swap(), m);
    var w2 := WriteKeepsRegular(c, s.Swap(), w.Swap(), m);
    var s2 := DoAtA(c, s.Swap(), Write(m));
    InvSwaps(c, s2, w2);
    RegularSwaps(s2, w2);
    ReadyMeans(c, s.b);
    var sent := FrameProtocol.Write(c, s.b, m).2;
    ReliefJoins(c, s.a, w.wireBA, sent);
    StillCaughtUp(c, s.a, s.ba, w.wireBA, sent);
    RelievedWrites(c, s2.Swap(), w2.Swap());
    assert Next(c, s, Step(false, Write(m))) == s2.Swap();
    WritesLater(c, s, Step(false, Write(m)));
  }

  lemma ReadyMeans(c: Settings, e: Endpoint)
    requires Ready(c, e)
    ensures c.Valid() && GoodFrames(c, e.queue)
  {
  }

  /** The other end reads all that is on its way, and then sends the relief that it can afford. */
  lemma {:induction false} OtherReads(c: Settings, s: Connection, w: Witness)
    requires Inv(c, s, w) && Regular(s, w) && CaughtUp(c, s.a, w.wireBA) && CaughtUp(c, s.b, w.wireAB)
    requires Affords(c, s.a, Offer(c, s.b, |s.ab|), BestRoom(s.b, w.wireAB))
    ensures WritesAgain(c, s)
    decreases |w.wireAB|
  {
    hide Acks, Affords, BestRoom, CaughtUp, Configured, DoAtA, EnabledAtA, Inv, IsSuffix, Offer, ReadOnly, Regular,
      Speaks, Steady, WindowFor, WindowFrom, WritesAgain;
    if w.wireAB == [] {
      OtherWrites(c, s, w);
    } else {
      InvSwaps(c, s, w);
      RegularSwaps(s, w);
      var n, w2 := ReadFirst(c, s.Swap(), w.Swap());
      var s2 := DoAtA(c, s.Swap(), Read(n));
      ReadKeepsRegular(c, s.Swap(), w.Swap(), s2, w2, n);
      InvSwaps(c, s2, w2);
      RegularSwaps(s2, w2);
      MinimumIsFour(s, w);
      SteadyAndSpeaks(s, w);
      RoomStays(s.b, w.wireAB, s2.a, s.a, n);
      SameOffer(c, s.b, s2.a, n, |s.ab| - n);
      OtherReads(c, s2.Swap(), w2.Swap());
      assert Enabled(c, s, Step(false, Read(n))) && Next(c, s, Step(false, Read(n))) == s2.Swap();
      WritesLater(c, s, Step(false, Read(n)));
    }
  }

  lemma SteadyAndSpeaks(s: Connection, w: Witness)
    requires Regular(s, w)
    ensures Steady(s.b, s.a.receiveSize) && Speaks(s.a, w.wireAB)
  {
    hide Speaks, Steady, Configured;
  }

  /**
    From any state in which both ends have taken what arrived, end A writes again in some continuation if and only if
    it is not cut off.
   */
  lemma WritesAgainExactlyWhen(c: Settings, s: Connection, w: Witness)
    requires Inv(c, s, w) && Regular(s, w) && CaughtUp(c, s.a, w.wireBA) && CaughtUp(c, s.b, w.wireAB)
    ensures WritesAgain(c, s) <==> !CutOff(c, s, w)
  {
    hide Affords, BestRoom, CaughtUp, Final, Inv, Leads, NoRelief, Offer, Regular, Shut, WritesNow;
    if CutOff(c, s, w) {
      forall steps | Leads(c, s, steps) ensures !WritesNow(c, Final(c, s, steps)) {
        CutOffForGood(c, s, w, steps);
      }
    } else if Shut(c, s.a) && NoRelief(c, s.a, w.wireBA) {
      OtherReads(c, s, w);
    } else {
      RelievedWrites(c, s, w);
    }
  }

  // ----- In runs -----

  /** All that this end has queued is of one kind. */
  ghost predicate QueuesKind(fs: seq<Frame>, kind: nat) {
    forall f | f in fs :: f.kind == kind
  }

  lemma FramesOnlyAdded(c: Settings, s: Connection, step: Step)
    requires Enabled(c, s, step)
    ensures s.fromA <= Next(c, s, step).fromA && s.fromB <= Next(c, s, step).fromB
  {
    hide FrameProtocol.Read, FrameProtocol.Write, Ready, GoodMoment, Settings.Good;
  }

  lemma QueueKeepsRegular(c: Settings, s: Connection, w: Witness, f: Frame) returns (w1: Witness)
    requires Inv(c, s, w) && Regular(s, w) && EnabledAtA(c, s, Queue(f))
    requires CaughtUp(c, s.a, w.wireBA) && CaughtUp(c, s.b, w.wireAB)
    ensures var s1 := DoAtA(c, s, Queue(f));
      Inv(c, s1, w1) && Regular(s1, w1) && CaughtUp(c, s1.a, w1.wireBA) && CaughtUp(c, s1.b, w1.wireAB)
  {
    hide Inv, MessageBytes, Settings.Good, WindowFor;
    QueueKeeps(c, s, w, f);
    w1 := w.(dueB := w.dueB + [f]);
  }

  /** While the other end queues frames of one kind, each step leaves nothing behind that has arrived. */
  lemma ActionKeepsRegular(c: Settings, s: Connection, w: Witness, action: Action, kind: nat) returns (w1: Witness)
    requires Inv(c, s, w) && Regular(s, w) && EnabledAtA(c, s, action) && QueuesKind(s.fromB, kind)
    requires CaughtUp(c, s.a, w.wireBA) && CaughtUp(c, s.b, w.wireAB)
    ensures var s1 := DoAtA(c, s, action);
      Inv(c, s1, w1) && Regular(s1, w1) && CaughtUp(c, s1.a, w1.wireBA) && CaughtUp(c, s1.b, w1.wireAB)
  {
    hide CaughtUp, DoAtA, EnabledAtA, FrameProtocol.Read, FrameProtocol.Write, Inv, IsSuffix, OneKind, Prompt, ReadOnly,
      Regular, Taken, Whole, WindowFrom;
    match action
    case Queue(f) =>
      w1 := QueueKeepsRegular(c, s, w, f);
    case Write(m) =>
      w1 := WriteKeepsRegular(c, s, w, m);
      SmallEnough(c, s, w);
      WriteDoes(c, s, m);
      InvSwaps(c, s, w);
      BytesOnTheWay(c, s.Swap(), w.Swap());
      StillCaughtUp(c, s.b, s.ab, w.wireAB, FrameProtocol.Write(c, s.a, m).2);
      SameReadBuffer(c, s.a, DoAtA(c, s, action).a, w.wireBA);
    case Read(n) =>
      w1 := ReadKeeps(c, s, w, n);
      var s1 := DoAtA(c, s, Read(n));
      ReadKeepsRegular(c, s, w, s1, w1, n);
      if n == 0 {
        ReadDoes(c, s, n);
      } else {
        WireOfOneKind(c, s, w, kind);
        ReadDoes(c, s, n);
        OneKindPart(w.wireBA, Whole(c, w.wireBA, |s.a.readBuffer| + n), kind);
        PromptIsCaughtUp(c, s1.a, w1.wireBA, w1.dueA);
      }
  }

  lemma SameReadBuffer(c: Settings, e: Endpoint, e1: Endpoint, wire: seq<Message>)
    requires CaughtUp(c, e, wire) && e1.readBuffer == e.readBuffer
    ensures CaughtUp(c, e1, wire)
  {
    hide MessageBytes;
  }

  lemma StepKeepsRegular(c: Settings, s: Connection, w: Witness, step: Step, kindA: nat, kindB: nat)
      returns (w1: Witness)
    requires Inv(c, s, w) && Regular(s, w) && Enabled(c, s, step)
    requires QueuesKind(s.fromA, kindA) && QueuesKind(s.fromB, kindB)
    requires CaughtUp(c, s.a, w.wireBA) && CaughtUp(c, s.b, w.wireAB)
    ensures var s1 := Next(c, s, step);
      Inv(c, s1, w1) && Regular(s1, w1) && CaughtUp(c, s1.a, w1.wireBA) && CaughtUp(c, s1.b, w1.wireAB)
  {
    hide CaughtUp, DoAtA, EnabledAtA, Inv, QueuesKind, Regular;
    if step.atA {
      w1 := ActionKeepsRegular(c, s, w, step.action, kindB);
    } else {
      InvSwaps(c, s, w);
      RegularSwaps(s, w);
      w1 := ActionKeepsRegular(c, s.Swap(), w.Swap(), step.action, kindA);
      InvSwaps(c, DoAtA(c, s.Swap(), step.action), w1);
      RegularSwaps(DoAtA(c, s.Swap(), step.action), w1);
      w1 := w1.Swap();
    }
  }

  lemma {:induction false} RunKeepsRegular(c: Settings, states: seq<Connection>, steps: seq<Step>, i: nat,
                                           kindA: nat, kindB: nat) returns (w: Witness)
    requires IsRun(c, states, steps) && i < |states| && Configured(states[0].a, states[0].b)
    requires QueuesKind(states[i].fromA, kindA) && QueuesKind(states[i].fromB, kindB)
    ensures Inv(c, states[i], w) && Regular(states[i], w)
    ensures CaughtUp(c, states[i].a, w.wireBA) && CaughtUp(c, states[i].b, w.wireAB)
  {
    hide Configured, Enabled, Inv, Next, Regular;
    if i == 0 {
      w := Witness([], [], [], []);
      InitialInv(c, states[0]);
      RegularAtFirst(states[0]);
    } else {
      FramesOnlyAdded(c, states[i - 1], steps[i - 1]);
      KindBefore(states[i - 1].fromA, states[i].fromA, kindA);
      KindBefore(states[i - 1].fromB, states[i].fromB, kindB);
      w := RunKeepsRegular(c, states, steps, i - 1, kindA, kindB);
      w := StepKeepsRegular(c, states[i - 1], w, steps[i - 1], kindA, kindB);
    }
  }

  lemma KindBefore(fs: seq<Frame>, gs: seq<Frame>, kind: nat)
    requires fs <= gs && QueuesKind(gs, kind)
    ensures QueuesKind(fs, kind)
  {
    forall f | f in fs ensures f in gs {}
  }

  /**
    At every moment of every run in which each end queues frames of one kind, an end writes again in some continuation if
    and only if it is not cut off.
   */
  lemma RunWritesAgainExactlyWhen(c: Settings, states: seq<Connection>, steps: seq<Step>, i: nat, kindA: nat, kindB: nat)
      returns (w: Witness)
    requires IsRun(c, states, steps) && i < |states| && Configured(states[0].a, states[0].b)
    requires QueuesKind(states[i].fromA, kindA) && QueuesKind(states[i].fromB, kindB)
    ensures Inv(c, states[i], w) && (WritesAgain(c, states[i]) <==> !CutOff(c, states[i], w))
  {
    hide CaughtUp, Configured, CutOff, Inv, IsRun, QueuesKind, Regular, WritesAgain;
    w := RunKeepsRegular(c, states, steps, i, kindA, kindB);
    WritesAgainExactlyWhen(c, states[i], w);
  }
}
