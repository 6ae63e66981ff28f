/**
  How ends come to be cut off: both use up the window of the other, the other end acknowledges too seldom, a segment is
  larger than the window, or an acknowledgement is held up behind a frame of another kind.
 */
module FrameStalls {
  import opened ByteStream
  import opened FrameCodec
  import opened FrameProtocol
  import opened FrameDelivery
  import opened FrameConnection
  import opened FrameRuns
  import opened FrameCutOff
  import opened FrameRelief

  // ----- Acknowledgements that are too few -----

  /** The other end has read too little to acknowledge it, and has nothing else to say that would help. */
  ghost predicate Silent(c: Settings, b: Endpoint, n: nat) {
    && b.unacknowledged + n <= b.minimalRead && !b.optionsDue
    && forall u | u in b.segments :: !u.Ack? && !u.Options?
  }

  /**
    An end is starved, however wide the window of the other is, once that has read no more than it leaves
    unacknowledged. This happens whenever the minimum is at least the window.
   */
  lemma StarvedIsCutOff(c: Settings, s: Connection, w: Witness)
    requires Inv(c, s, w) && Shut(c, s.a) && NoRelief(c, s.a, w.wireBA) && Silent(c, s.b, |s.ab|)
    ensures CutOff(c, s, w)
  {
    hide Affords, BestRoom, Inv, NoRelief, Shut;
    var us := Offer(c, s.b, |s.ab|);
    assert us == s.b.segments;
    NothingAffordable(c, s.a, us, BestRoom(s.b, w.wireAB));
  }

  lemma NothingAffordable(c: Settings, e: Endpoint, us: seq<Message>, room: int)
    requires forall u | u in us :: !u.Ack? && !u.Options?
    ensures !Affords(c, e, us, room)
  {
    hide Bytes, WindowFor;
    assert forall k | 0 <= k < |us| :: us[k] in us;
  }

  lemma MinimumAboveWindow(c: Settings, s: Connection, w: Witness)
    requires Inv(c, s, w) && s.a.waiting <= s.b.minimalRead
    ensures s.b.unacknowledged + |s.ab| <= s.b.minimalRead
  {
    hide Link, Acks;
  }

  /**
    An end that has used up its window, with no acknowledgement under way: if the other end leaves less than a window
    unacknowledged, only lack of room for one acknowledgement keeps it from helping.
   */
  lemma CutOffExactlyWithoutRoom(c: Settings, s: Connection, w: Witness)
    requires Inv(c, s, w) && s.a.waiting >= s.a.window && Shut(c, s.a) && NoRelief(c, s.a, w.wireBA)
    requires Acks(s.b.segments) == 0 && s.b.minimalRead < s.a.waiting
    ensures CutOff(c, s, w) <==> BestRoom(s.b, w.wireAB) < 5
  {
    hide Affords, BestRoom, Link, NoRelief, Offer, Shut, Acks;
    NoAcks(c, s.a, w.wireBA);
    assert s.b.unacknowledged + |s.ab| == s.a.waiting;
    var room := BestRoom(s.b, w.wireAB);
    if room >= 5 {
      NewAckAffords(c, s.a, s.b, |s.ab|, room);
    } else if Affords(c, s.a, Offer(c, s.b, |s.ab|), room) {
      AffordsSomething(c, s.a, Offer(c, s.b, |s.ab|), room);
    }
  }

  // ----- A segment larger than the window -----

  /** A segment waits that fits no window that A has or will have. */
  ghost predicate Oversize(c: Settings, s: Connection, w: Witness, k: nat) {
    && k < |s.a.segments| && s.a.segments[k].Segment?
    && |MessageBytes(c, s.a.segments[k])| > BestWindow(s.a.sendSize, s.a.window, w.wireBA)
    && !s.b.optionsDue && forall u | u in s.b.segments :: !u.Options?
  }

  /** It and all that is behind it are never sent. */
  lemma OversizeIsNeverSent(c: Settings, s: Connection, w: Witness, k: nat, step: Step) returns (w1: Witness, k1: nat)
    requires Inv(c, s, w) && Oversize(c, s, w, k) && Enabled(c, s, step)
    ensures var s1 := Next(c, s, step);
      Inv(c, s1, w1) && Oversize(c, s1, w1, k1) && s.a.segments[k..] <= s1.a.segments[k1..]
  {
    hide DoAtA, Inv, Oversize;
    if step.atA {
      w1, k1 := OversizeAtA(c, s, w, k, step.action);
    } else {
      InvSwaps(c, s, w);
      w1 := OversizeAtB(c, s, w, k, step.action);
      k1 := k;
    }
  }

  lemma OversizeAtA(c: Settings, s: Connection, w: Witness, k: nat, action: Action) returns (w1: Witness, k1: nat)
    requires Inv(c, s, w) && Oversize(c, s, w, k) && EnabledAtA(c, s, action)
    ensures var s1 := DoAtA(c, s, action);
      Inv(c, s1, w1) && Oversize(c, s1, w1, k1) && s.a.segments[k..] <= s1.a.segments[k1..]
  {
    hide BestWindow, DoAtA, EnabledAtA, FrameProtocol.Read, FrameProtocol.Write, Inv, IsSuffix, MessageBytes, OneKind,
      Prompt, Settings.Valid, Taken, Whole, WindowFrom;
    k1 := k;
    match action
    case Queue(f) =>
      w1 := OversizeQueue(c, s, w, k, f);
    case Write(m) =>
      SmallEnough(c, s, w);
      WriteDoes(c, s, m);
      w1 := FrameConnection.WriteKeeps(c, s, w, m);
      k1 := WriteKeepsOversize(c, s.a, m, k, BestWindow(s.a.sendSize, s.a.window, w.wireBA)) by {
        BestWindowIs(s.a.sendSize, s.a.window, w.wireBA);
      }
    case Read(n) =>
      w1 := ReadKeeps(c, s, w, n);
      BestWindowFalls(s.a, w.wireBA, DoAtA(c, s, Read(n)).a.window, w1.wireBA);
  }

  lemma OversizeQueue(c: Settings, s: Connection, w: Witness, k: nat, f: Frame) returns (w1: Witness)
    requires Inv(c, s, w) && Oversize(c, s, w, k) && EnabledAtA(c, s, Queue(f))
    ensures var s1 := DoAtA(c, s, Queue(f));
      Inv(c, s1, w1) && Oversize(c, s1, w1, k) && s.a.segments == s1.a.segments
  {
    hide BestWindow, Inv, MessageBytes, Settings.Good;
    QueueKeeps(c, s, w, f);
    w1 := w.(dueB := w.dueB + [f]);
  }

  lemma WriteKeepsOversize(c: Settings, e: Endpoint, m: Moment, k: nat, best: nat) returns (k1: nat)
    requires c.Valid() && GoodFrames(c, e.queue) && e.window < LENGTH_LIMIT && e.window <= best
    requires k < |e.segments| && |MessageBytes(c, e.segments[k])| > best
    ensures var e1 := FrameProtocol.Write(c, e, m).1;
      && k1 < |e1.segments| && e.segments[k..] <= e1.segments[k1..] && e1.segments[k1] == e.segments[k]
      && (e1.window, e1.sendSize) == (e.window, e.sendSize)
  {
    hide Bytes, MessageBytes, Prepare, Sendable, Settings.Good, Settings.Valid;
    k1 := k;
    if e.waiting < e.window {
      var front, back := PrepareShape(c, e, m);
      WriteIs(c, e, m);
      var e1 := Prepare(c, e, m);
      var us, at := e1.segments, |front| + k;
      var n := Sendable(c, us, e1.waiting, e1.window, m.room);
      assert LENGTH_LIMIT < SIZE_LIMIT;
      SendableFits(c, us, e.waiting, e.window, m.room);
      assert us[at] == e.segments[k];
      if n > at {
        NoLongerThanAll(c, us, n, at);
      }
      k1 := at - n;
      assert us[n..][k1..] == us[at..];
      assert e.segments[k..] <= us[at..];
    }
  }

  lemma NoLongerThanAll(c: Settings, us: seq<Message>, n: nat, at: nat)
    requires at < n <= |us|
    ensures |MessageBytes(c, us[at])| <= |Bytes(c, us[..n])|
  {
    hide MessageBytes;
    LastFits(c, us, at);
    MiddleFits(c, us[..n], at + 1, n - at - 1);
    assert us[..n][..at + 1] == us[..at + 1] && us[..n][..n] == us[..n];
  }

  lemma SameBestWindow(e: Endpoint, wire: seq<Message>, sent: seq<Message>)
    requires forall u | u in sent :: !u.Options?
    ensures BestWindow(e.sendSize, e.window, wire + sent) == BestWindow(e.sendSize, e.window, wire)
  {
    hide WindowFor;
    BestWindowIs(e.sendSize, e.window, wire);
    BestWindowIs(e.sendSize, e.window, wire + sent);
  }

  lemma OversizeAtB(c: Settings, s: Connection, w: Witness, k: nat, action: Action) returns (w1: Witness)
    requires Inv(c, s, w) && Inv(c, s.Swap(), w.Swap()) && Oversize(c, s, w, k) && EnabledAtA(c, s.Swap(), action)
    ensures var s1 := DoAtA(c, s.Swap(), action).Swap();
      Inv(c, s1, w1) && Oversize(c, s1, w1, k) && s.a.segments == s1.a.segments
  {
    hide BestWindow, Bytes, DoAtA, EnabledAtA, FrameProtocol.Read, FrameProtocol.Write, Inv, IsSuffix, MessageBytes,
      OneKind, Prompt, Settings.Valid, Taken, Whole, WindowFrom;
    var w2;
    match action {
      case Queue(f) =>
        w2 := OversizeAtBQueue(c, s.Swap(), w.Swap(), f);
      case Write(m) =>
        SmallEnough(c, s.Swap(), w.Swap());
        WriteDoes(c, s.Swap(), m);
        w2 := FrameConnection.WriteKeeps(c, s.Swap(), w.Swap(), m);
        WriteAddsNoOptions(c, s.b, m);
        SameBestWindow(s.a, w.wireBA, FrameProtocol.Write(c, s.b, m).2);
      case Read(n) =>
        ReadDoes(c, s.Swap(), n);
        w2 := ReadKeeps(c, s.Swap(), w.Swap(), n);
    }
    InvSwaps(c, DoAtA(c, s.Swap(), action), w2);
    w1 := w2.Swap();
  }

  lemma OversizeAtBQueue(c: Settings, s: Connection, w: Witness, f: Frame) returns (w1: Witness)
    requires Inv(c, s, w) && EnabledAtA(c, s, Queue(f))
    ensures var s1 := DoAtA(c, s, Queue(f));
      && Inv(c, s1, w1) && w1 == w.(dueB := w1.dueB) && s1 == s.(a := s1.a, fromA := s1.fromA)
      && s1.a == s.a.(queue := s1.a.queue)
  {
    hide Inv, Settings.Good;
    QueueKeeps(c, s, w, f);
    w1 := w.(dueB := w.dueB + [f]);
  }

  lemma WriteAddsNoOptions(c: Settings, e: Endpoint, m: Moment)
    requires c.Valid() && GoodFrames(c, e.queue) && !e.optionsDue && forall u | u in e.segments :: !u.Options?
    ensures var (q, e1, sent) := FrameProtocol.Write(c, e, m);
      && !e1.optionsDue && (forall u | u in e1.segments :: !u.Options?) && forall u | u in sent :: !u.Options?
  {
    hide Bytes, Prepare, Sendable, Settings.Good, Settings.Valid;
    if e.waiting < e.window {
      var front, back := PrepareShape(c, e, m);
      WriteIs(c, e, m);
      var us := Prepare(c, e, m).segments;
      assert us == front + e.segments + back;
      assert forall u | u in us :: u in front || u in e.segments || u in back;
    }
  }

  // ----- Acknowledgements held up in the read buffer -----

  /** All that was sent to A was read into its buffer, and neither end may write. */
  ghost predicate HeldUp(c: Settings, s: Connection, w: Witness) {
    s.a.waiting >= s.a.window && s.ba == [] && Spent(s.b, w.wireAB)
  }

  /**
    Whatever A has in its read buffer, acknowledgements included, stays there: messages behind a segment of another kind
    are looked at only when more bytes arrive.
   */
  lemma HeldUpLasts(c: Settings, s: Connection, w: Witness, step: Step) returns (w1: Witness)
    requires Inv(c, s, w) && HeldUp(c, s, w) && Enabled(c, s, step)
    ensures var s1 := Next(c, s, step);
      Inv(c, s1, w1) && HeldUp(c, s1, w1) && s1.a.readBuffer == s.a.readBuffer && |s1.ab| <= |s.ab|
  {
    hide DoAtA, Inv, Spent;
    if step.atA {
      w1 := HeldUpAtA(c, s, w, step.action);
    } else {
      InvSwaps(c, s, w);
      w1 := HeldUpAtB(c, s, w, step.action);
    }
  }

  lemma HeldUpAtA(c: Settings, s: Connection, w: Witness, action: Action) returns (w1: Witness)
    requires Inv(c, s, w) && HeldUp(c, s, w) && EnabledAtA(c, s, action)
    ensures var s1 := DoAtA(c, s, action);
      Inv(c, s1, w1) && HeldUp(c, s1, w1) && s1.a.readBuffer == s.a.readBuffer && s1.ab == s.ab
  {
    hide Inv, MessageBytes, Prepare, Settings.Good, Settings.Valid, Spent, ReadMessages;
    match action
    case Queue(f) =>
      QueueKeeps(c, s, w, f);
      w1 := w.(dueB := w.dueB + [f]);
    case Write(m) =>
      assert s.ab + [] == s.ab;
      w1 := w;
    case Read(n) =>
      w1 := w;
  }

  lemma HeldUpAtB(c: Settings, s: Connection, w: Witness, action: Action) returns (w1: Witness)
    requires Inv(c, s, w) && Inv(c, s.Swap(), w.Swap()) && HeldUp(c, s, w) && EnabledAtA(c, s.Swap(), action)
    ensures var s1 := DoAtA(c, s.Swap(), action).Swap();
      Inv(c, s1, w1) && HeldUp(c, s1, w1) && s1.a == s.a && |s1.ab| <= |s.ab|
  {
    hide Acks, EnabledAtA, FrameProtocol.Read, Link, MessageBytes, Prepare, Prompt, OneKind, Settings.Good, Taken, Whole,
      WindowFor;
    match action {
      case Queue(f) =>
        var w2 := OversizeAtBQueue(c, s.Swap(), w.Swap(), f);
        w1 := w2.Swap();
      case Write(m) =>
        WriteDoes(c, s.Swap(), m);
        assert s.ba + [] == s.ba;
        w1 := w;
      case Read(n) =>
        ReadDoes(c, s.Swap(), n);
        var w2 := ReadKeeps(c, s.Swap(), w.Swap(), n);
        WaitingFalls(s.Swap(), w.Swap(), DoAtA(c, s.Swap(), Read(n)), w2);
        NoAcksAtAll(w.wireAB);
        NoAcksAtAll(w2.wireBA);
        w1 := w2.Swap();
    }
  }

  lemma {:induction false} HeldUpForGood(c: Settings, s: Connection, w: Witness, steps: seq<Step>)
    requires Inv(c, s, w) && HeldUp(c, s, w) && Leads(c, s, steps)
    ensures !WritesNow(c, Final(c, s, steps))
    decreases |steps|
  {
    hide Enabled, EnabledAtA, FrameProtocol.Read, FrameProtocol.Write, Inv, Next, Spent;
    if steps == [] {
      forall m | EnabledAtA(c, s, Write(m)) ensures BlockedWrite(c, s, m) {
        BlockedWritesNothing(c, s, m);
      }
    } else {
      var w1 := HeldUpLasts(c, s, w, steps[0]);
      HeldUpForGood(c, Next(c, s, steps[0]), w1, steps[1..]);
    }
  }

  ghost predicate BlockedWrite(c: Settings, s: Connection, m: Moment) {
    GoodFrames(c, s.a.queue) && c.Valid() && FrameProtocol.Write(c, s.a, m).2 == []
  }

  lemma BlockedWritesNothing(c: Settings, s: Connection, m: Moment)
    requires EnabledAtA(c, s, Write(m)) && s.a.waiting >= s.a.window
    ensures BlockedWrite(c, s, m)
  {
    hide Prepare, Settings.Good, Settings.Valid;
  }

  /**
    Such an end never writes again although the acknowledgement it waits for has arrived; so the condition for writing
    again is about ends that have taken what arrived.
   */
  lemma HeldUpNeverWrites(c: Settings, s: Connection, w: Witness)
    requires Inv(c, s, w) && HeldUp(c, s, w) && !NoRelief(c, s.a, w.wireBA)
    ensures !WritesAgain(c, s) && !CutOff(c, s, w)
  {
    hide Affords, HeldUp, Inv, Leads, NoRelief, Offer, Shut, WritesNow;
    forall steps | Leads(c, s, steps) ensures !WritesNow(c, Final(c, s, steps)) {
      HeldUpForGood(c, s, w, steps);
    }
  }

  // ----- Waiting for each other -----

  /** What is on its way to `e` will not let it write again. */
  ghost predicate Spent(e: Endpoint, wire: seq<Message>) {
    e.waiting >= e.window && forall u | u in wire ::
      !u.Ack? && (u.Options? ==> WindowFor(e.sendSize, u.bufferSize) <= e.waiting)
  }

  /** Both ends have used up the window of the other, and no acknowledgement is on its way. */
  ghost predicate Stalled(c: Settings, s: Connection, w: Witness) {
    Inv(c, s, w) && Spent(s.a, w.wireBA) && Spent(s.b, w.wireAB)
  }

  lemma StallSwaps(c: Settings, s: Connection, w: Witness)
    requires Stalled(c, s, w)
    ensures Stalled(c, s.Swap(), w.Swap())
  {
    hide Inv, Spent;
    InvSwaps(c, s, w);
  }

  /**
    A stall lasts: no end writes another byte, whatever is queued and read, until the acknowledgement timer gives up the
    connection. An end checks the window before it considers sending an acknowledgement.
   */
  lemma StallLasts(c: Settings, s: Connection, w: Witness, step: Step) returns (w1: Witness)
    requires Stalled(c, s, w) && Enabled(c, s, step)
    ensures var s1 := Next(c, s, step);
      Stalled(c, s1, w1) && (s1.a.segments, s1.b.segments) == (s.a.segments, s.b.segments)
      && |s1.ab| <= |s.ab| && |s1.ba| <= |s.ba|
  {
    if step.atA {
      w1 := StallLastsAtA(c, s, w, step.action);
    } else {
      StallSwaps(c, s, w);
      w1 := StallLastsAtA(c, s.Swap(), w.Swap(), step.action);
      StallSwaps(c, DoAtA(c, s.Swap(), step.action), w1);
      w1 := w1.Swap();
    }
  }

  lemma StallLastsAtA(c: Settings, s: Connection, w: Witness, action: Action) returns (w1: Witness)
    requires Stalled(c, s, w) && EnabledAtA(c, s, action)
    ensures var s1 := DoAtA(c, s, action);
      Stalled(c, s1, w1) && (s1.a.segments, s1.b.segments) == (s.a.segments, s.b.segments)
      && |s1.ab| <= |s.ab| && |s1.ba| <= |s.ba|
  {
    hide Acks, FrameProtocol.Read, GoodFrames, GoodMoment, Link, MessageBytes, Prepare, Prompt, Ready, Send;
    match action
    case Queue(f) =>
      QueueKeeps(c, s, w, f);
      w1 := w.(dueB := w.dueB + [f]);
    case Write(m) =>
      WriteDoes(c, s, m);
      assert DoAtA(c, s, Write(m)) == s by {
        assert s.ab + [] == s.ab;
      }
      w1 := w;
    case Read(n) =>
      w1 := ReadKeeps(c, s, w, n);
      NoAcksAtAll(w.wireBA);
      assert Acks(w1.wireBA) == 0 && forall u | u in w1.wireBA :: u in w.wireBA by {
        NoAcksAtAll(w1.wireBA);
      }
      var a1 := DoAtA(c, s, Read(n)).a;
  }

  lemma {:induction false} NoAcksAtAll(us: seq<Message>)
    requires forall u | u in us :: !u.Ack?
    ensures Acks(us) == 0
  {
    if us != [] {
      NoAcksAtAll(us[1..]);
    }
  }

  /** The socket has room, and it is time for neither a line test nor a status. */
  ghost predicate Calm(c: Settings, m: Moment, f: Frame)
    requires c.Valid() && c.Good(f)
  {
    GoodMoment(m) && !m.lineTestDue && !m.lineTestOverdue && !m.statusDue && m.room > |SplitAll(c, [f])|
  }

  /** With the connection options, the segments of this frame use up a fresh window exactly. */
  ghost predicate FillsWindow(c: Settings, f: Frame)
    requires c.Valid() && c.Good(f)
  {
    17 + |Bytes(c, SplitAll(c, [f]))| == 3276
  }

  lemma {:induction false} AllSendable(c: Settings, us: seq<Message>, waiting: nat, window: nat, room: nat)
    requires waiting < window < SIZE_LIMIT && waiting + |Bytes(c, us)| <= window && room >= |us|
    ensures Sendable(c, us, waiting, window, room) == |us|
    decreases |us|
  {
    hide MessageBytes;
    if us != [] {
      SmallModulo(window - waiting);
      if waiting + |MessageBytes(c, us[0])| < window {
        AllSendable(c, us[1..], waiting + |MessageBytes(c, us[0])|, window, room - 1);
      } else {
        NoBytesNoMessages(c, us[1..]);
      }
    }
  }

  /** A fresh end writes its connection options and the frame, and has used up its window. */
  lemma FirstWrite(c: Settings, e: Endpoint, f: Frame, m: Moment)
    requires c.Valid() && c.Good(f) && Calm(c, m, f) && FillsWindow(c, f)
    requires e == Fresh(e.sendSize, e.receiveSize, e.minimalRead).(queue := [f])
    ensures var (q, e1, sent) := FrameProtocol.Write(c, e, m);
      && sent == [Options(e.receiveSize, c.version, m.time)] + SplitAll(c, [f])
      && e1.waiting == e1.window == 3276 && e1.sendSize == e.sendSize && !e1.lineTestQueued
  {
    hide SplitAll, Bytes, Sendable, MessageBytes, Settings.Good;
    var u := Options(e.receiveSize, c.version, m.time);
    var us := [u] + SplitAll(c, [f]);
    assert [] + [u] == [u];
    assert Prepare(c, e, m).segments == us;
    OptionsLength(c, u);
    OneMessage(c, u);
    MessagesJoin(c, [u], SplitAll(c, [f]));
    AllSendable(c, us, 0, 3276, m.room);
    assert us[..|us|] == us;
  }

  lemma OptionsLength(c: Settings, u: Message)
    requires u.Options?
    ensures |MessageBytes(c, u)| == 17
  {
  }

  lemma SegmentsBringNoRelief(c: Settings, e: Endpoint, size: nat, time: nat, fs: seq<Frame>)
    requires c.Valid() && GoodFrames(c, fs)
    requires e.waiting >= e.window && WindowFor(e.sendSize, size) <= e.waiting
    ensures Spent(e, [Options(size, c.version, time)] + SplitAll(c, fs))
  {
    hide SplitAll, WindowFor, Settings.Good;
    SplitAllCarries(c, fs);
    AllSegments(c, fs);
  }

  /** Two ends that each fill the window before they read stall, although neither has read a byte of the other. */
  lemma StallIsReached(c: Settings, s: Connection, f: Frame, g: Frame, m: Moment)
      returns (states: seq<Connection>, steps: seq<Step>, w: Witness)
    requires c.Valid() && IsInitial(s) && c.Good(f) && c.Good(g)
    requires FillsWindow(c, f) && FillsWindow(c, g) && Calm(c, m, f) && Calm(c, m, g)
    requires WindowFor(s.a.sendSize, s.b.receiveSize) <= 3276 && WindowFor(s.b.sendSize, s.a.receiveSize) <= 3276
    ensures IsRun(c, states, steps) && states[0] == s && |steps| == 4 && |states| == 5 && Stalled(c, states[4], w)
    ensures !states[4].a.lineTestQueued && !states[4].b.lineTestQueued
  {
    hide Bytes, FillsWindow, FrameProtocol.Read, FrameProtocol.Write, Frames, GoodMessages, GoodMoment, Inv,
      Spent, Payload, Settings.Good, Settings.Valid, SplitAll, WindowFor, Wrote;
    steps := [Step(true, Queue(f)), Step(false, Queue(g)), Step(true, Write(m)), Step(false, Write(m))];
    InitialInv(c, s);
    assert [] + [f] == [f] && [] + [g] == [g];
    QueueKeeps(c, s, Witness([], [], [], []), f);
    var s1 := Next(c, s, steps[0]);
    var w1 := Witness([], [], [f], []);
    assert Inv(c, s1, w1);
    InvSwaps(c, s1, w1);
    assert w1.Swap() == Witness([], [], [], [f]);
    QueueKeeps(c, s1.Swap(), w1.Swap(), g);
    var s2 := Next(c, s1, steps[1]);
    InvSwaps(c, s2.Swap(), Witness([], [], [g], [f]));
    assert Inv(c, s2, Witness([], [], [f], [g]));
    var w3 := FrameConnection.WriteKeeps(c, s2, Witness([], [], [f], [g]), m);
    FirstWrite(c, s2.a, f, m);
    var s3 := Next(c, s2, steps[2]);
    InvSwaps(c, s3, w3);
    var w4 := FrameConnection.WriteKeeps(c, s3.Swap(), w3.Swap(), m);
    FirstWrite(c, s3.b, g, m);
    var s4 := Next(c, s3, steps[3]);
    InvSwaps(c, s4.Swap(), w4);
    w := w4.Swap();
    SegmentsBringNoRelief(c, s4.a, s.b.receiveSize, m.time, [g]);
    SegmentsBringNoRelief(c, s4.b, s.a.receiveSize, m.time, [f]);
    assert w.wireBA == [Options(s.b.receiveSize, c.version, m.time)] + SplitAll(c, [g]);
    assert w.wireAB == [Options(s.a.receiveSize, c.version, m.time)] + SplitAll(c, [f]);
    states := [s, s1, s2, s3, s4];
  }

  /** Each of two ends that wait for each other is cut off. */
  lemma StalledIsCutOff(c: Settings, s: Connection, w: Witness)
    requires Stalled(c, s, w) && !s.a.lineTestQueued
    ensures CutOff(c, s, w)
  {
    hide Affords, Inv, Offer, WindowFor;
    NoAcksAtAll(w.wireAB);
    BestWindowIs(s.b.sendSize, s.b.window, w.wireAB);
    var room := BestRoom(s.b, w.wireAB);
    if Affords(c, s.a, Offer(c, s.b, |s.ab|), room) {
      AffordsSomething(c, s.a, Offer(c, s.b, |s.ab|), room);
    }
  }

  // ----- An example -----

  /** Segments of 240 bytes, as by default, and one kind of frame that carries a block. */
  const EXAMPLE: Settings := Settings(0, 240, 1, false, map[16 := Schema(true, true, true, [Text])])

  /** A frame of 3189 bytes. */
  const BLOCK: Frame := Frame(16, [Number(0), Number(0), Number(0), Blob(seq(3157, i => 0))])

  lemma {:induction false} SplitLength(c: Settings, size: nat, kind: nat, bytes: seq<Byte>)
    requires size > 0
    ensures var us := Split(size, kind, bytes);
      |Bytes(c, us)| == |bytes| + 5 * |us| && size * (|us| - 1) < |bytes| + size && |bytes| <= size * |us|
      && (bytes != [] ==> size * (|us| - 1) < |bytes|)
    decreases |bytes|
  {
    hide MessageBytes;
    if bytes != [] {
      var n := Min(size, |bytes|);
      SplitLength(c, size, kind, bytes[n..]);
      MessageSize(c, Segment(kind, bytes[..n]));
      var us := Split(size, kind, bytes);
      assert us[1..] == Split(size, kind, bytes[n..]);
    }
  }

  lemma BlockIsGood()
    ensures EXAMPLE.Valid() && EXAMPLE.Good(BLOCK) && |EXAMPLE.FrameBytes(BLOCK)| == 3189
  {
    hide Wire;
    var kinds := EXAMPLE.readers[16].Kinds();
    assert kinds == [Scalar(8), Scalar(8), Scalar(8), Text];
    var vs := BLOCK.values;
    PowerIsPositive(8);
    assert kinds[1..] == [Scalar(8), Scalar(8), Text] && vs[1..] == [Number(0), Number(0), vs[3]];
    assert kinds[1..][1..] == [Scalar(8), Text] && vs[1..][1..] == [Number(0), vs[3]];
    assert kinds[1..][1..][1..] == [Text] && vs[1..][1..][1..] == [vs[3]];
    assert [Text][1..] == [] && [vs[3]][1..] == [];
    assert FitsAll([], []) && EncodeAll(0, [], []) == [];
    assert FitsAll([Text], [vs[3]]) && |EncodeAll(0, [Text], [vs[3]])| == 3161;
    assert |EncodeAll(0, kinds[1..][1..], vs[1..][1..])| == 3169;
    assert |EncodeAll(0, kinds[1..], vs[1..])| == 3177;
    assert |EncodeAll(0, kinds, vs)| == 3185;
  }

  lemma BlockFillsWindow(m: Moment)
    requires m == Moment(false, false, false, 0, 0, 100)
    ensures EXAMPLE.Valid() && EXAMPLE.Good(BLOCK) && FillsWindow(EXAMPLE, BLOCK) && Calm(EXAMPLE, m, BLOCK)
  {
    hide Settings.Good, Settings.FrameBytes, Split, Bytes;
    BlockIsGood();
    PowerIsPositive(8);
    var bytes := EXAMPLE.FrameBytes(BLOCK);
    SplitLength(EXAMPLE, 240, 16, bytes);
    assert SplitAll(EXAMPLE, [BLOCK]) == Split(240, 16, bytes) + SplitAll(EXAMPLE, []);
    assert SplitAll(EXAMPLE, [BLOCK]) == Split(240, 16, bytes);
    var n := |Split(240, 16, bytes)|;
    assert 240 * (n - 1) < 3189 <= 240 * n;
    assert n == 14;
  }

  /** With default settings and buffers of four kilobytes two ends that each send one such frame first wait for ever. */
  lemma ExampleStalls() returns (states: seq<Connection>, steps: seq<Step>, w: Witness)
    ensures IsRun(EXAMPLE, states, steps) && Inv(EXAMPLE, states[|steps|], w)
    ensures var s := states[|steps|]; CutOff(EXAMPLE, s, w) && CutOff(EXAMPLE, s.Swap(), w.Swap())
  {
    hide Calm, FillsWindow, Settings.Good, Settings.Valid, IsRun, CutOff, Inv, Spent;
    var e := Fresh(4096, 4096, 100);
    var s := Connection(e, e, [], [], [], []);
    var m := Moment(false, false, false, 0, 0, 100);
    BlockFillsWindow(m);
    assert WindowFor(4096, 4096) == 3276;
    states, steps, w := StallIsReached(EXAMPLE, s, BLOCK, BLOCK, m);
    StallSwaps(EXAMPLE, states[4], w);
    StalledIsCutOff(EXAMPLE, states[4], w);
    StalledIsCutOff(EXAMPLE, states[4].Swap(), w.Swap());
  }
}
