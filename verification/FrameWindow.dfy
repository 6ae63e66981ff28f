/**
  The flow control window: what the connection options make of it, and when the bytes in flight fit the buffer of the
  end that they go to.
 */
module FrameWindow {
  import opened ByteStream
  import opened FrameCodec
  import opened FrameProtocol
  import opened FrameDelivery
  import opened FrameConnection
  import opened FrameRuns
  import opened FrameCutOff
  import opened FrameRelief
  import opened FrameStalls

  /**
    The window is at most eight tenths of either buffer. It is eight tenths of the smaller one, rounded down, exactly
    if that does not overflow 32 bits before the division.
   */
  lemma WindowWithinBuffers(sendSize: nat, bufferSize: nat)
    ensures var window := WindowFor(sendSize, bufferSize);
      && 10 * window <= 8 * sendSize && 10 * window <= 8 * bufferSize
      && (8 * sendSize < 10 * window + 10 || 8 * bufferSize < 10 * window + 10
          <==> 8 * sendSize < LENGTH_LIMIT || 8 * bufferSize < LENGTH_LIMIT)
  {
    var size := if sendSize < bufferSize then sendSize else bufferSize;
    assert size * 8 % LENGTH_LIMIT <= size * 8;
    assert size * 8 >= LENGTH_LIMIT ==> size * 8 % LENGTH_LIMIT <= size * 8 - LENGTH_LIMIT;
  }

  // ----- What a read does to the window -----

  /** The window after these messages: each of the connection options among them sets it. */
  ghost function WindowAfter(sendSize: nat, window: nat, us: seq<Message>): nat
    decreases |us|
  {
    if us == [] then window
    else WindowAfter(sendSize, if us[0].Options? then WindowFor(sendSize, us[0].bufferSize) else window, us[1..])
  }

  lemma StoppedWindow(c: Settings, e: Endpoint, channel: seq<Byte>, us: seq<Message>)
    requires c.Valid() && Holds(c, e, channel, us) && e.readBuffer != [] && us != []
    requires Switches(e, us[0]) || |e.readBuffer| < |MessageBytes(c, us[0])|
    ensures Taken(c, e.pending, us, |e.readBuffer|) == 0
    ensures var (v, e1) := ReadMessages(c, e); !v.Again? && e1.window == e.window
  {
    hide MessageBytes, WindowFor, Bytes;
    FrontIs(c, e, channel, us);
    assert GoodMessage(c, us[0]);
    if |e.readBuffer| >= |MessageBytes(c, us[0])| {
      hide ReadMessage;
      WholeMessage(c, e, us[0], e.readBuffer[|MessageBytes(c, us[0])|..]);
    } else if us[0].Options? {
      hide ReadMessage;
      CutOptions(c, e, us[0]);
    } else {
      hide ReadMessage;
      CutMessage(c, e, us[0]);
    }
  }

  /** However the bytes were cut into reads, the messages taken set the window in order. */
  lemma {:induction false} ReadingSetsWindow(c: Settings, e: Endpoint, channel: seq<Byte>, us: seq<Message>)
    requires c.Valid() && Holds(c, e, channel, us) && e.readBuffer != [] && Acks(us) <= e.waiting
    requires e.frameData == [] ==> e.pending == 0
    ensures ReadMessages(c, e).1.window
         == WindowAfter(e.sendSize, e.window, us[..Taken(c, e.pending, us, |e.readBuffer|)])
    decreases |e.readBuffer|
  {
    hide Acks, Apply, Bytes, GoodMessages, MessageBytes, Payload, ReadMessage, Tag, Took, WindowFor;
    FrontIs(c, e, channel, us);
    if Switches(e, us[0]) || |e.readBuffer| < |MessageBytes(c, us[0])| {
      StoppedWindow(c, e, channel, us);
    } else {
      TakeOne(c, e, channel, us);
      var e2 := After(c, e, us[0]);
      AfterIs(c, e, us[0]);
      OneSetsWindow(c, e, us[0]);
      var k := Taken(c, e2.pending, us[1..], |e2.readBuffer|);
      var taken := us[..1 + k];
      assert taken[0] == us[0] && taken[1..] == us[1..][..k];
      if e2.readBuffer == [] {
        NothingTaken(c, e2.pending, us[1..]);
      } else {
        ReadingSetsWindow(c, e2, channel, us[1..]);
      }
    }
  }

  lemma OneSetsWindow(c: Settings, e: Endpoint, u: Message)
    requires |MessageBytes(c, u)| <= |e.readBuffer|
    ensures After(c, e, u).window == if u.Options? then WindowFor(e.sendSize, u.bufferSize) else e.window
    ensures After(c, e, u).sendSize == e.sendSize
  {
    hide MessageBytes, WindowFor;
  }

  lemma AfterMessagesKeepsWindow(c: Settings, v: Verdict, e: Endpoint)
    requires c.Valid() && (e.pending == 0 || e.pending in c.readers)
    ensures AfterMessages(c, v, e).1.window == e.window
  {
    hide TakeFrames;
    if e.pending != 0 {
      TakeFramesKeeps(c, e);
    }
  }

  lemma ReadSetsWindow(c: Settings, s: Connection, w: Witness, n: nat)
    requires Inv(c, s, w) && EnabledAtA(c, s, Read(n)) && n > 0
    ensures DoAtA(c, s, Read(n)).a.window
         == WindowAfter(s.a.sendSize, s.a.window, w.wireBA[..Taken(c, s.a.pending, w.wireBA, |s.a.readBuffer| + n)])
  {
    hide Acks, AfterMessages, Bytes, DoAtA, EnabledAtA, FrameProtocol.Read, Holds, Payload, ReadMessages,
      Settings.Valid, Taken, WindowAfter, Drained, Frames, GoodFrames, GoodMessages, Tag;
    ReadDoes(c, s, n);
    AcksWithin(c, s, w);
    ReceivedHolds(c, s.a, s.ba, w.wireBA, n);
    var r := Received(s.a, s.ba[..n]);
    ReadingSetsWindow(c, r, s.ba[n..], w.wireBA);
    ReadIs(c, s.a, s.ba[..n]);

    AfterMessagesKeepsWindow(c, ReadMessages(c, r).0, ReadMessages(c, r).1);
  }

  // ----- The connection options of the other end -----

  /** How many of these messages are connection options. */
  function Offers(us: seq<Message>): nat {
    if us == [] then 0 else (if us[0].Options? then 1 else 0) + Offers(us[1..])
  }

  lemma {:induction false} OffersJoin(us: seq<Message>, vs: seq<Message>)
    ensures Offers(us + vs) == Offers(us) + Offers(vs)
  {
    if us == [] {
      assert us + vs == vs;
    } else {
      assert (us + vs)[1..] == us[1..] + vs;
      OffersJoin(us[1..], vs);
    }
  }

  lemma {:induction false} NoOffers(us: seq<Message>)
    requires forall u | u in us :: !u.Options?
    ensures Offers(us) == 0
  {
    if us != [] {
      NoOffers(us[1..]);
    }
  }

  /** Connection options of `b` that the other end has not read: still due, queued, or on their way. */
  function OffersLeft(b: Endpoint, wire: seq<Message>): nat {
    (if b.optionsDue then 1 else 0) + Offers(b.segments) + Offers(wire)
  }

  /** Until `a` has read the only connection options of `b` its window is the first one, from then on the one they say. */
  ghost predicate Negotiated(a: Endpoint, b: Endpoint, wire: seq<Message>) {
    && Speaks(b, wire) && OffersLeft(b, wire) <= 1
    && a.window == if OffersLeft(b, wire) == 1 then 3276 else WindowFor(a.sendSize, b.receiveSize)
  }

  /** Among messages that all tell the same size, the last connection options count as the first. */
  lemma {:induction false} WindowAfterIs(sendSize: nat, window: nat, us: seq<Message>, size: nat)
    requires forall u | u in us && u.Options? :: u.bufferSize == size
    ensures WindowAfter(sendSize, window, us) == if Offers(us) == 0 then window else WindowFor(sendSize, size)
    decreases |us|
  {
    hide WindowFor;
    if us != [] {
      WindowAfterIs(sendSize, if us[0].Options? then WindowFor(sendSize, us[0].bufferSize) else window, us[1..], size);
    }
  }

  lemma ReadNegotiates(a: Endpoint, b: Endpoint, wire: seq<Message>, a1: Endpoint, t: nat)
    requires Negotiated(a, b, wire) && t <= |wire| && a1.sendSize == a.sendSize
    requires a1.window == WindowAfter(a.sendSize, a.window, wire[..t])
    ensures Negotiated(a1, b, wire[t..])
    ensures a1.window == a.window || a1.window == WindowFor(a.sendSize, b.receiveSize)
  {
    hide WindowFor;
    assert forall u | u in wire[..t] :: u in wire;
    assert forall u | u in wire[t..] :: u in wire;
    assert wire[..t] + wire[t..] == wire;
    OffersJoin(wire[..t], wire[t..]);
    WindowAfterIs(a.sendSize, a.window, wire[..t], b.receiveSize);
  }

  /** Writing puts the connection options on their way once. */
  lemma WriteOffers(c: Settings, b: Endpoint, wire: seq<Message>, m: Moment)
    requires c.Valid() && GoodFrames(c, b.queue)
    ensures var (q, b1, sent) := FrameProtocol.Write(c, b, m); OffersLeft(b1, wire + sent) == OffersLeft(b, wire)
  {
    hide Bytes, Prepare, Sendable, Settings.Good, Settings.Valid;
    var (q, b1, sent) := FrameProtocol.Write(c, b, m);
    OffersJoin(wire, sent);
    if b.waiting < b.window {
      var front, back := PrepareShape(c, b, m);
      WriteIs(c, b, m);
      var due := if b.optionsDue then [Options(b.receiveSize, c.version, m.time)] else [];
      var us := Prepare(c, b, m).segments;
      assert sent + b1.segments == us;
      OffersJoin(sent, b1.segments);
      OffersJoin(front + b.segments + due, back);
      OffersJoin(front + b.segments, due);
      OffersJoin(front, b.segments);
      NoOffers(front);
      NoOffers(back);
    }
  }

  lemma NegotiatedSame(a: Endpoint, b: Endpoint, wire: seq<Message>, a1: Endpoint, b1: Endpoint)
    requires Negotiated(a, b, wire) && (a1.window, a1.sendSize) == (a.window, a.sendSize)
    requires (b1.segments, b1.optionsDue) == (b.segments, b.optionsDue)
    requires (b1.minimalRead, b1.receiveSize) == (b.minimalRead, b.receiveSize)
    ensures Negotiated(a1, b1, wire)
  {
    hide WindowFor;
    SpeaksSame(b, wire, b1);
  }

  ghost predicate SameSizes(s: Connection, s1: Connection) {
    && (s1.a.sendSize, s1.a.receiveSize) == (s.a.sendSize, s.a.receiveSize)
    && (s1.b.sendSize, s1.b.receiveSize) == (s.b.sendSize, s.b.receiveSize)
  }

  /** What end A does keeps the negotiation of its window. */
  lemma NegotiatesAtA(c: Settings, s: Connection, w: Witness, action: Action) returns (w1: Witness)
    requires Inv(c, s, w) && EnabledAtA(c, s, action) && Negotiated(s.a, s.b, w.wireBA)
    ensures var s1 := DoAtA(c, s, action);
      && Inv(c, s1, w1) && Negotiated(s1.a, s1.b, w1.wireBA) && SameSizes(s, s1)
      && (s1.a.window == s.a.window || s1.a.window == WindowFor(s.a.sendSize, s.b.receiveSize))
  {
    hide Bytes, FrameProtocol.Read, FrameProtocol.Write, Inv, IsSuffix, Negotiated, OneKind, Prompt, Settings.Good,
      Settings.Valid, Taken, Whole, WindowAfter, WindowFrom, Wrote;
    var s1 := DoAtA(c, s, action);
    match action
    case Queue(f) =>
      QueueKeeps(c, s, w, f);
      w1 := w.(dueB := w.dueB + [f]);
      NegotiatedSame(s.a, s.b, w.wireBA, s1.a, s1.b);
    case Write(m) =>
      w1 := FrameConnection.WriteKeeps(c, s, w, m);
      WriteKeepsSizes(c, s, w, m);
      NegotiatedSame(s.a, s.b, w.wireBA, s1.a, s1.b);
    case Read(n) =>
      w1 := ReadKeeps(c, s, w, n);
      if n == 0 {
        ReadDoes(c, s, n);
      } else {
        ReadSetsWindow(c, s, w, n);
        ReadNegotiates(s.a, s.b, w.wireBA, s1.a, Taken(c, s.a.pending, w.wireBA, |s.a.readBuffer| + n));
      }
  }

  lemma WriteKeepsSizes(c: Settings, s: Connection, w: Witness, m: Moment)
    requires Inv(c, s, w) && EnabledAtA(c, s, Write(m))
    ensures var s1 := DoAtA(c, s, Write(m));
      SameSizes(s, s1) && s1.a.window == s.a.window && s1.b == s.b && s1.a.minimalRead == s.a.minimalRead
      && s1.a.readBuffer == s.a.readBuffer
  {
    hide Bytes, Prepare, Sendable, Settings.Good, Settings.Valid, Inv, EnabledAtA, DoAtA, GoodMoment;
    WriteDoes(c, s, m);
    ReadyByInv(c, s, w);
    if s.a.waiting < s.a.window {
      var front, back := PrepareShape(c, s.a, m);
      WriteIs(c, s.a, m);
    }
  }

  /** What end A does keeps the negotiation of the window of end B. */
  lemma NegotiatesAtB(c: Settings, s: Connection, w: Witness, action: Action) returns (w1: Witness)
    requires Inv(c, s, w) && EnabledAtA(c, s, action) && Negotiated(s.b, s.a, w.wireAB)
    ensures var s1 := DoAtA(c, s, action);
      Inv(c, s1, w1) && Negotiated(s1.b, s1.a, w1.wireAB) && SameSizes(s, s1) && s1.b == s.b
  {
    hide Bytes, FrameProtocol.Read, FrameProtocol.Write, Inv, IsSuffix, Negotiated, OneKind, Prompt, Settings.Good,
      Settings.Valid, Taken, Whole, WindowAfter, WindowFrom, Wrote;
    var s1 := DoAtA(c, s, action);
    match action
    case Queue(f) =>
      QueueKeeps(c, s, w, f);
      w1 := w.(dueB := w.dueB + [f]);
      NegotiatedSame(s.b, s.a, w.wireAB, s1.b, s1.a);
    case Write(m) =>
      w1 := FrameConnection.WriteKeeps(c, s, w, m);
      WriteKeepsSizes(c, s, w, m);
      WriteNegotiates(c, s, w, m);
    case Read(n) =>
      w1 := ReadKeeps(c, s, w, n);
      NegotiatedSame(s.b, s.a, w.wireAB, s1.b, s1.a);
  }

  lemma WriteNegotiates(c: Settings, s: Connection, w: Witness, m: Moment)
    requires Inv(c, s, w) && EnabledAtA(c, s, Write(m)) && Negotiated(s.b, s.a, w.wireAB)
    ensures Negotiated(s.b, DoAtA(c, s, Write(m)).a, w.wireAB + FrameProtocol.Write(c, s.a, m).2)
  {
    hide Bytes, DoAtA, EnabledAtA, FrameProtocol.Write, GoodMoment, Inv, Offers, OffersLeft, Settings.Good,
      Settings.Valid, Speaks, WindowFor;
    WriteDoes(c, s, m);
    SmallEnough(c, s, w);
    ReadyByInv(c, s, w);
    WriteKeepsSpeaks(c, s.a, w.wireAB, m);
    WriteOffers(c, s.a, w.wireAB, m);
  }

  // ----- Runs -----

  lemma StepNegotiates(c: Settings, s: Connection, w: Witness, step: Step) returns (w1: Witness)
    requires Inv(c, s, w) && Enabled(c, s, step) && Negotiated(s.a, s.b, w.wireBA)
    ensures var s1 := Next(c, s, step);
      && Inv(c, s1, w1) && Negotiated(s1.a, s1.b, w1.wireBA) && SameSizes(s, s1)
      && (s1.a.window == s.a.window || s1.a.window == WindowFor(s.a.sendSize, s.b.receiveSize))
  {
    hide DoAtA, EnabledAtA, Inv, Negotiated, WindowFor;
    if step.atA {
      w1 := NegotiatesAtA(c, s, w, step.action);
    } else {
      InvSwaps(c, s, w);
      w1 := NegotiatesAtB(c, s.Swap(), w.Swap(), step.action);
      InvSwaps(c, DoAtA(c, s.Swap(), step.action), w1);
      w1 := w1.Swap();
    }
  }

  /**
    At every moment of a run at most one message with connection options of B is still to be read by A. As long as there
    is one, the window of A is the first one, 3276 bytes; from then on it is what the two buffers allow.
   */
  lemma {:induction false} WindowOfRun(c: Settings, states: seq<Connection>, steps: seq<Step>, i: nat)
      returns (w: Witness)
    requires IsRun(c, states, steps) && i < |states|
    ensures Inv(c, states[i], w) && Negotiated(states[i].a, states[i].b, w.wireBA) && SameSizes(states[0], states[i])
  {
    hide Enabled, Inv, Next, Settings.Valid, Speaks, WindowFor;
    if i == 0 {
      InitialInv(c, states[0]);
      w := Witness([], [], [], []);
      assert Speaks(states[0].b, []) by { SpeaksOfNothing(states[0].b); }
    } else {
      w := WindowOfRun(c, states, steps, i - 1);
      w := StepNegotiates(c, states[i - 1], w, steps[i - 1]);
    }
  }

  lemma SpeaksOfNothing(e: Endpoint)
    requires e.segments == []
    ensures Speaks(e, [])
  {
  }

  /**
    Whenever the options of B have been read by A, the window of A is eight tenths of the smaller of the two buffers, as
    long as that can be computed in 32 bits.
   */
  lemma WindowOnceRead(c: Settings, states: seq<Connection>, steps: seq<Step>, i: nat) returns (w: Witness)
    requires IsRun(c, states, steps) && i < |states|
    ensures Inv(c, states[i], w)
    ensures var a, b := states[i].a, states[i].b;
      OffersLeft(b, w.wireBA) == 0 ==>
        && 10 * a.window <= 8 * a.sendSize && 10 * a.window <= 8 * b.receiveSize
        && (8 * a.sendSize < LENGTH_LIMIT || 8 * b.receiveSize < LENGTH_LIMIT ==>
              8 * a.sendSize < 10 * a.window + 10 || 8 * b.receiveSize < 10 * a.window + 10)
  {
    hide Inv, IsInitial, Settings.Valid, Speaks, WindowFor, OffersLeft;
    w := WindowOfRun(c, states, steps, i);
    WindowWithinBuffers(states[i].a.sendSize, states[i].b.receiveSize);
  }

  /** Never more is in flight than the first window or the negotiated one, so a buffer of 3276 bytes always suffices. */
  lemma FlightFitsBuffer(c: Settings, states: seq<Connection>, steps: seq<Step>, i: nat)
    requires IsRun(c, states, steps) && i < |states|
    ensures var s := states[i];
      && |s.ab| <= s.a.waiting
      && (s.a.waiting <= 3276 || (10 * s.a.waiting <= 8 * s.a.sendSize && 10 * s.a.waiting <= 8 * s.b.receiveSize))
      && (s.b.receiveSize >= 3276 ==> |s.ab| <= s.b.receiveSize)
  {
    hide Enabled, Inv, IsInitial, Next, Settings.Valid, Speaks, WindowFor, OffersLeft;
    var s := states[i];
    var w := WindowOfRun(c, states, steps, i);
    var window := WindowFor(s.a.sendSize, s.b.receiveSize);
    var limit := if window < 3276 then 3276 else window;
    forall j | 0 <= j <= i ensures states[j].a.window <= limit {
      var w' := WindowOfRun(c, states, steps, j);
    }
    FlightWithinWindow(c, states, steps, i, limit);
    WindowWithinBuffers(s.a.sendSize, s.b.receiveSize);
  }

  /**
    Once A has the negotiated window and no more than that is waiting, what is in flight to B is at most eight tenths of
    its receive buffer, for the rest of the run.
   */
  lemma FlightStaysWithin(c: Settings, states: seq<Connection>, steps: seq<Step>, j: nat, i: nat)
    requires IsRun(c, states, steps) && j <= i < |states|
    requires states[j].a.window == WindowFor(states[j].a.sendSize, states[j].b.receiveSize)
    requires states[j].a.waiting <= states[j].a.window
    ensures var s := states[i]; 10 * |s.ab| <= 8 * s.b.receiveSize && 10 * |s.ab| <= 8 * s.a.sendSize
  {
    hide Enabled, Inv, IsInitial, Next, Settings.Valid, Speaks, WindowFor, OffersLeft;
    var s := states[i];
    WindowStays(c, states, steps, j, i);
    FlightFitsBuffer(c, states, steps, i);
    WindowWithinBuffers(s.a.sendSize, s.b.receiveSize);
  }

  lemma {:induction false} WindowStays(c: Settings, states: seq<Connection>, steps: seq<Step>, j: nat, i: nat)
    requires IsRun(c, states, steps) && j <= i < |states|
    requires states[j].a.window == WindowFor(states[j].a.sendSize, states[j].b.receiveSize)
    requires states[j].a.waiting <= states[j].a.window
    ensures states[i].a.window == WindowFor(states[i].a.sendSize, states[i].b.receiveSize)
    ensures states[i].a.waiting <= states[i].a.window
    decreases i
  {
    hide Enabled, Inv, IsInitial, Negotiated, Next, Settings.Valid, WindowFor;
    if j < i {
      WindowStays(c, states, steps, j, i - 1);
      var w := WindowOfRun(c, states, steps, i - 1);
      var w1 := StepNegotiates(c, states[i - 1], w, steps[i - 1]);
      WaitingGrows(c, states[i - 1], w, steps[i - 1]);
    }
  }

  // ----- A buffer that is too small -----

  /** A fresh end with nothing queued writes its connection options. */
  lemma FreshWritesOptions(c: Settings, e: Endpoint, m: Moment)
    requires c.Valid() && GoodMoment(m) && m.room > 0 && !m.lineTestDue && !m.lineTestOverdue && !m.statusDue
    requires e == Fresh(e.sendSize, e.receiveSize, e.minimalRead)
    ensures var (q, e1, sent) := FrameProtocol.Write(c, e, m);
      sent == [Options(e.receiveSize, c.version, m.time)] && e1.receiveSize == e.receiveSize
  {
    hide MessageBytes, Settings.Good, Settings.Valid;
    var u := Options(e.receiveSize, c.version, m.time);
    assert Prepare(c, e, m).segments == [u];
    OptionsLength(c, u);
    SmallModulo(3276);
    assert Sendable(c, [u][1..], 17, 3276, m.room - 1) == 0;
  }

  /** What a fresh end has written fills the channel to the first window. */
  lemma FillsChannel(c: Settings, e: Endpoint, f: Frame, m: Moment)
    requires c.Valid() && c.Good(f) && Calm(c, m, f) && FillsWindow(c, f)
    ensures |Bytes(c, [Options(e.receiveSize, c.version, m.time)] + SplitAll(c, [f]))| == 3276
  {
    hide Bytes, MessageBytes, SplitAll, Settings.Good, Settings.Valid;
    var u := Options(e.receiveSize, c.version, m.time);
    OptionsLength(c, u);
    OneMessage(c, u);
    MessagesJoin(c, [u], SplitAll(c, [f]));
  }

  lemma MayQueue(c: Settings, s: Connection, w: Witness, f: Frame)
    requires Inv(c, s, w) && c.Good(f)
    ensures EnabledAtA(c, s, Queue(f))
    ensures DoAtA(c, s, Queue(f)) == s.(a := s.a.(queue := s.a.queue + [f]), fromA := s.fromA + [f])
  {
    hide Inv, Ready, Settings.Good;
    ReadyByInv(c, s, w);
  }

  lemma MayWrite(c: Settings, s: Connection, w: Witness, m: Moment)
    requires Inv(c, s, w) && GoodMoment(m)
    ensures EnabledAtA(c, s, Write(m))
  {
    hide Inv, Ready, GoodMoment;
    ReadyByInv(c, s, w);
  }

  lemma CalmIsGood(c: Settings, m: Moment, f: Frame)
    requires c.Valid() && c.Good(f) && Calm(c, m, f)
    ensures GoodMoment(m) && m.room > 0 && !m.lineTestDue && !m.lineTestOverdue && !m.statusDue
  {
    hide GoodMoment, SplitAll, Settings.Good, Settings.Valid;
  }

  lemma NothingReadYet(c: Settings, e: Endpoint, wire: seq<Message>)
    requires e.readBuffer == []
    ensures CaughtUp(c, e, wire)
  {
    hide MessageBytes;
  }

  /**
    A frame sent before the options of the other end are read may exceed its buffer, and still be in flight when they
    have been read and the window has become smaller.
   */
  lemma FlightMayExceed(receiveSize: nat) returns (states: seq<Connection>, steps: seq<Step>)
    requires receiveSize < 3276
    ensures IsRun(EXAMPLE, states, steps) && |states| == 5
    ensures var s := states[4];
      && s.b.receiveSize == receiveSize && s.a.window == WindowFor(s.a.sendSize, receiveSize)
      && |s.ab| == 3276 > receiveSize
  {
    hide Bytes, Calm, CaughtUp, EnabledAtA, DoAtA, FillsWindow, FrameProtocol.Read, FrameProtocol.Write, Inv, IsSuffix,
      Settings.Good, Settings.FrameBytes, SplitAll, WindowFor, WindowFrom, MessageBytes, GoodMoment;
    var c, m := EXAMPLE, Moment(false, false, false, 0, 0, 100);
    BlockFillsWindow(m);
    var s := Connection(Fresh(65536, 65536, 100), Fresh(65536, receiveSize, 100), [], [], [], []);
    InitialInv(c, s);
    CalmIsGood(c, m, BLOCK);
    assert [] + [BLOCK] == [BLOCK];
    var w := Witness([], [], [], []);
    MayQueue(c, s, w, BLOCK);
    QueueKeeps(c, s, w, BLOCK);
    var s1 := DoAtA(c, s, Queue(BLOCK));
    w := Witness([], [], [BLOCK], []);
    MayWrite(c, s1, w, m);
    WriteKeepsSizes(c, s1, w, m);
    w := FrameConnection.WriteKeeps(c, s1, w, m);
    FirstWrite(c, s1.a, BLOCK, m);
    FillsChannel(c, s1.a, BLOCK, m);
    WriteDoes(c, s1, m);
    var s2 := DoAtA(c, s1, Write(m));
    assert |s2.ab| == 3276 && s2.b == s.b && s2.ba == [] && w.wireBA == [];
    InvSwaps(c, s2, w);
    MayWrite(c, s2.Swap(), w.Swap(), m);
    WriteKeepsSizes(c, s2.Swap(), w.Swap(), m);
    w := FrameConnection.WriteKeeps(c, s2.Swap(), w.Swap(), m);
    FreshWritesOptions(c, s2.b, m);
    WriteDoes(c, s2.Swap(), m);
    var s3 := DoAtA(c, s2.Swap(), Write(m)).Swap();
    InvSwaps(c, s3.Swap(), w);
    assert w.wireAB == [Options(receiveSize, c.version, 0)];
    NothingReadYet(c, s3.a, w.wireAB);
    var n, w4 := ReadFirst(c, s3, w.Swap());
    var s4 := DoAtA(c, s3, Read(n));
    steps := [Step(true, Queue(BLOCK)), Step(true, Write(m)), Step(false, Write(m)), Step(true, Read(n))];
    states := [s, s1, s2, s3, s4];
  }

  /** What is in flight to an end with this receive buffer fits it, at every moment of every run. */
  ghost predicate AlwaysFits(receiveSize: nat) {
    forall c, states: seq<Connection>, steps, i: nat ::
      IsRun(c, states, steps) && i < |states| && states[i].b.receiveSize == receiveSize ==> |states[i].ab| <= receiveSize
  }

  lemma AlwaysFitsExactlyWhen(receiveSize: nat)
    ensures AlwaysFits(receiveSize) <==> receiveSize >= 3276
  {
    hide IsRun, WindowFor;
    if receiveSize >= 3276 {
      forall c, states: seq<Connection>, steps, i: nat
        | IsRun(c, states, steps) && i < |states| && states[i].b.receiveSize == receiveSize
        ensures |states[i].ab| <= receiveSize
      {
        FlightFitsBuffer(c, states, steps, i);
      }
    } else {
      var states, steps := FlightMayExceed(receiveSize);
      assert |states[4].ab| > receiveSize;
    }
  }
}
