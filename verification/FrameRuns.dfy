/**
  What holds in every run of a connection: delivery in order and without loss, acknowledgements that add up, and bytes
  in flight within the window.
 */
module FrameRuns {
  import opened ByteStream
  import opened FrameCodec
  import opened FrameProtocol
  import opened FrameDelivery
  import opened FrameConnection

  ghost predicate IsRun(c: Settings, states: seq<Connection>, steps: seq<Step>) {
    && c.Valid() && |states| == |steps| + 1 && IsInitial(states[0])
    && forall i | 0 <= i < |steps| :: Enabled(c, states[i], steps[i]) && states[i + 1] == Next(c, states[i], steps[i])
  }

  lemma {:induction false} RunKeeps(c: Settings, states: seq<Connection>, steps: seq<Step>, i: nat) returns (w: Witness)
    requires IsRun(c, states, steps) && i < |states|
    ensures Inv(c, states[i], w)
  {
    if i == 0 {
      InitialInv(c, states[0]);
      w := Witness([], [], [], []);
    } else {
      w := RunKeeps(c, states, steps, i - 1);
      w := StepKeeps(c, states[i - 1], w, steps[i - 1]);
    }
  }

  function Mirrored(states: seq<Connection>): (r: seq<Connection>)
    ensures |r| == |states|
  {
    seq(|states|, i requires 0 <= i < |states| => states[i].Swap())
  }

  function Flipped(steps: seq<Step>): (r: seq<Step>)
    ensures |r| == |steps|
  {
    seq(|steps|, i requires 0 <= i < |steps| => steps[i].(atA := !steps[i].atA))
  }

  /** A run seen from the other end is a run, so what holds of one end in every run holds of the other. */
  lemma MirrorIsRun(c: Settings, states: seq<Connection>, steps: seq<Step>)
    requires IsRun(c, states, steps)
    ensures IsRun(c, Mirrored(states), Flipped(steps))
  {
    hide DoAtA, EnabledAtA, Settings.Valid;
    forall i | 0 <= i < |steps|
      ensures Enabled(c, Mirrored(states)[i], Flipped(steps)[i])
      ensures Mirrored(states)[i + 1] == Next(c, Mirrored(states)[i], Flipped(steps)[i])
    {
      assert states[i].Swap().Swap() == states[i] && states[i + 1] == Next(c, states[i], steps[i]);
    }
  }

  /** At every moment each end has delivered, in order, a prefix of the frames queued at the other. */
  lemma DeliveredInOrder(c: Settings, states: seq<Connection>, steps: seq<Step>, i: nat)
    requires IsRun(c, states, steps) && i < |states|
    ensures states[i].b.delivered <= states[i].fromA && states[i].a.delivered <= states[i].fromB
  {
    var w := RunKeeps(c, states, steps, i);
  }

  /** When everything queued was cut up, sent and read, everything was delivered. */
  lemma NothingIsLost(c: Settings, states: seq<Connection>, steps: seq<Step>, i: nat)
    requires IsRun(c, states, steps) && i < |states|
    requires var s := states[i]; s.a.queue == [] && s.a.segments == [] && s.ab == [] && s.b.readBuffer == []
    ensures states[i].b.delivered == states[i].fromA && states[i].b.frameData == []
  {
    var w := RunKeeps(c, states, steps, i);
    var s := states[i];
    assert w.wireAB == [] by {
      NoBytesNoMessages(c, w.wireAB);
    }
    assert Payload([]) == [];
    assert Frames(c, []) == [];
    AllDrained(c, s.b, w.dueB);
  }

  lemma NoBytesNoMessages(c: Settings, us: seq<Message>)
    requires Bytes(c, us) == []
    ensures us == []
  {
    hide MessageBytes;
  }

  lemma AllDrained(c: Settings, r: Endpoint, due: seq<Frame>)
    requires c.Valid() && GoodFrames(c, due) && Drained(c, r, due)
    requires Tag(r.pending, r.frameData) + [] + ([] + []) == Frames(c, due)
    ensures due == [] && r.frameData == []
  {
    hide Settings.Good, Settings.FrameBytes;
    assert |Frames(c, due)| == |r.frameData|;
    if due != [] {
      FrameHasBytes(c, due[0]);
    }
  }

  /** No end ever meets a broken message, another version or any other reason to give up the connection. */
  lemma ReadsSucceed(c: Settings, states: seq<Connection>, steps: seq<Step>, i: nat, n: nat)
    requires IsRun(c, states, steps) && i < |steps| && steps[i] == Step(true, Read(n))
    ensures EnabledAtA(c, states[i], Read(n))
    ensures FrameProtocol.Read(c, states[i].a, states[i].ba[..n]).0 == if n == 0 then NeedSleep else JobDone
  {
    var w := RunKeeps(c, states, steps, i);
    var w1 := ReadKeeps(c, states[i], w, n);
  }

  // ----- Acknowledgements -----

  /**
    The bytes that wait for an acknowledgement are exactly those in the channel, those read and not acknowledged, and
    those that acknowledgements on their way stand for; so an acknowledgement never stands for more than is waiting.
   */
  lemma AcknowledgementsAddUp(c: Settings, states: seq<Connection>, steps: seq<Step>, i: nat)
      returns (back: seq<Message>)
    requires IsRun(c, states, steps) && i < |states|
    ensures var s := states[i];
      && Bytes(c, back) == s.a.readBuffer + s.ba
      && s.a.waiting == |s.ab| + s.b.unacknowledged + Acks(s.b.segments) + Acks(back)
      && forall j | 0 <= j < |back| && back[j].Ack? :: back[j].bytesRead <= s.a.waiting - Acks(back[..j])
  {
    var w := RunKeeps(c, states, steps, i);
    back := w.wireBA;
    forall j | 0 <= j < |back| && back[j].Ack?
      ensures back[j].bytesRead <= states[i].a.waiting - Acks(back[..j])
    {
      MessagesPart(c, back, j);
    }
  }

  /** Under windows of at most `limit` bytes never more than that is waiting, so never more is in flight. */
  lemma {:induction false} FlightWithinWindow(c: Settings, states: seq<Connection>, steps: seq<Step>, i: nat, limit: nat)
    requires IsRun(c, states, steps) && i < |states|
    requires forall j | 0 <= j <= i :: states[j].a.window <= limit
    ensures |states[i].ab| <= states[i].a.waiting <= limit
  {
    hide Acks, Enabled, Link, Next;
    var w := RunKeeps(c, states, steps, i);
    assert |states[i].ab| <= states[i].a.waiting;
    if i == 0 {
      assert states[0].a.waiting == 0;
    } else {
      FlightWithinWindow(c, states, steps, i - 1, limit);
      var w0 := RunKeeps(c, states, steps, i - 1);
      WaitingGrows(c, states[i - 1], w0, steps[i - 1]);
    }
  }

  lemma WaitingGrows(c: Settings, s: Connection, w: Witness, step: Step)
    requires Inv(c, s, w) && Enabled(c, s, step)
    ensures Next(c, s, step).a.waiting <= if s.a.waiting > s.a.window then s.a.waiting else s.a.window
  {
    hide Prompt, Settings.Good;
    if step.atA {
      match step.action
      case Queue(f) =>
      case Write(m) => var w1 := FrameConnection.WriteKeeps(c, s, w, m);
      case Read(n) => var w1 := ReadKeeps(c, s, w, n);
    } else {
    }
  }

  // ----- When frames are delivered -----

  /**
    After every read that brought bytes, every frame that has arrived as a whole was delivered, exactly if the segments
    that had then arrived as a whole, read before or now, carry frames of one kind.
   */
  lemma PromptUnlessSwitched(c: Settings, states: seq<Connection>, steps: seq<Step>, i: nat, n: nat)
      returns (before: Witness, after: Witness)
    requires IsRun(c, states, steps) && i < |steps| && steps[i] == Step(true, Read(n)) && n > 0
    ensures Inv(c, states[i], before) && Inv(c, states[i + 1], after)
    ensures Prompt(c, states[i + 1].a, after.wireBA, after.dueA)
       <==> OneKind(before.wireBA[..Whole(c, before.wireBA, |states[i].a.readBuffer| + n)])
  {
    hide DoAtA, EnabledAtA, Inv, IsInitial, OneKind, Prompt, ReadOnly, WindowFrom, Settings.Valid, Whole, Taken;
    before := RunKeeps(c, states, steps, i);
    after := ReadKeeps(c, states[i], before, n);
  }

  /** If the other end queues frames of one kind only, every read delivers all that has arrived. */
  lemma OneKindIsPrompt(c: Settings, states: seq<Connection>, steps: seq<Step>, i: nat, n: nat, kind: nat)
      returns (w: Witness)
    requires IsRun(c, states, steps) && i < |steps| && steps[i] == Step(true, Read(n)) && n > 0
    requires forall f | f in states[i].fromB :: f.kind == kind
    ensures Inv(c, states[i + 1], w) && Prompt(c, states[i + 1].a, w.wireBA, w.dueA)
  {
    hide Enabled, Inv, IsInitial, Next, OneKind, Prompt, Whole;
    var before;
    before, w := PromptUnlessSwitched(c, states, steps, i, n);
    WireOfOneKind(c, states[i], before, kind);
    OneKindPart(before.wireBA, Whole(c, before.wireBA, |states[i].a.readBuffer| + n), kind);
  }

  lemma OneKindPart(us: seq<Message>, k: nat, kind: nat)
    requires k <= |us| && forall u | u in us && u.Segment? :: u.kind == kind
    ensures OneKind(us[..k])
  {
  }

  lemma WireOfOneKind(c: Settings, s: Connection, w: Witness, kind: nat)
    requires Inv(c, s, w) && forall f | f in s.fromB :: f.kind == kind
    ensures forall u | u in w.wireBA && u.Segment? :: u.kind == kind
  {
    hide Bytes, GoodMessage, Settings.Good, Settings.FrameBytes, Balanced, Small, Drained, Acks;
    forall u | u in w.wireBA && u.Segment? ensures u.kind == kind {
      SegmentKinds(c, w.wireBA);
      PayloadHas(w.wireBA, u);
      forall f | f in w.dueA ensures f in s.fromB {}
      InAll(Tag(s.a.pending, s.a.frameData), Payload(w.wireBA), Payload(s.b.segments) + Frames(c, s.b.queue),
            (u.kind, u.part[0]));
      KindOfFrames(c, w.dueA, (u.kind, u.part[0]), kind);
    }
  }

  lemma {:induction false} PayloadHas(us: seq<Message>, u: Message)
    requires u in us && u.Segment? && u.part != []
    ensures (u.kind, u.part[0]) in Payload(us)
    decreases |us|
  {
    if us[0] == u {
      assert Tag(u.kind, u.part)[0] == (u.kind, u.part[0]);
    } else {
      PayloadHas(us[1..], u);
    }
  }

  lemma InAll(a: seq<Tagged>, b: seq<Tagged>, d: seq<Tagged>, t: Tagged)
    requires t in b
    ensures t in a + b + d
  {
  }

  lemma {:induction false} KindOfFrames(c: Settings, fs: seq<Frame>, t: Tagged, kind: nat)
    requires GoodFrames(c, fs) && t in Frames(c, fs) && forall f | f in fs :: f.kind == kind
    ensures t.0 == kind
  {
    hide Settings.Good, Settings.FrameBytes;
    if fs != [] && t !in Tag(fs[0].kind, c.FrameBytes(fs[0])) {
      KindOfFrames(c, fs[1..], t, kind);
    }
  }

  function WholeFrame(c: Settings, f: Frame): Message
    requires c.Valid() && c.Good(f)
  {
    Segment(f.kind, c.FrameBytes(f))
  }

  ghost predicate OneSegment(c: Settings, f: Frame) {
    c.Valid() && c.Good(f) && |c.FrameBytes(f)| <= c.segmentSize
  }

  /** The frame is taken out of the frame data once its segment was read. */
  lemma FrameTaken(c: Settings, e: Endpoint, f: Frame, v: Verdict)
    requires OneSegment(c, f) && (v.Again? || v.Wait?) && e.pending == f.kind && e.frameData == c.FrameBytes(f)
    ensures AfterMessages(c, v, e) == (JobDone, e.(delivered := e.delivered + [f], frameData := [], pending := 0))
  {
    hide ReadFrame, Writable, WriteFrame;
    var schema := c.readers[f.kind];
    FrameReadsBack(c.order, schema, f.values, []);
    assert c.FrameBytes(f) + [] == c.FrameBytes(f);
    KindKnown(c, WholeFrame(c, f));
  }

  lemma WholeFrameIsGood(c: Settings, f: Frame)
    requires OneSegment(c, f)
    ensures GoodMessage(c, WholeFrame(c, f))
  {
    FrameHasBytes(c, f);
  }

  lemma ReadOneFrame(c: Settings, e: Endpoint, f: Frame)
    requires OneSegment(c, f) && e.readBuffer == [] && e.frameData == [] && e.pending == 0
    ensures var s := MessageBytes(c, WholeFrame(c, f));
      FrameProtocol.Read(c, e, s)
        == (JobDone, e.(delivered := e.delivered + [f], unacknowledged := e.unacknowledged + |s|))
  {
    hide MessageBytes, ReadMessage, AfterMessages, Settings.Good, Settings.FrameBytes;
    var u := WholeFrame(c, f);
    var s := MessageBytes(c, u);
    var e1 := Received(e, s);
    WholeFrameIsGood(c, f);
    assert e1.readBuffer == s == s + [];
    WholeMessage(c, e1, u, []);
    assert s[|s|..] == [];
    assert [] + u.part == u.part;
    FrameTaken(c, e1.(readBuffer := [], pending := f.kind, frameData := u.part), f, Again(|s|));
  }

  /**
    Two frames of different kinds that arrive in one read: the second stays in the read buffer, as a whole, until more
    bytes arrive. Each of them alone is delivered by the read that brings it.
   */
  lemma MixedKindsWait(c: Settings, e: Endpoint, f: Frame, g: Frame)
    requires OneSegment(c, f) && OneSegment(c, g) && f.kind != g.kind
    requires e.readBuffer == [] && e.frameData == [] && e.pending == 0
    ensures var t := MessageBytes(c, WholeFrame(c, g));
      var e1 := FrameProtocol.Read(c, e, MessageBytes(c, WholeFrame(c, f)) + t).1;
      e1.delivered == e.delivered + [f] && e1.readBuffer == t
  {
    hide MessageBytes, ReadMessage, AfterMessages, Settings.Good;
    var u, v := WholeFrame(c, f), WholeFrame(c, g);
    var s, t := MessageBytes(c, u), MessageBytes(c, v);
    WholeFrameIsGood(c, f);
    WholeFrameIsGood(c, g);
    var e1 := Received(e, s + t);
    assert e1.readBuffer == s + t && t == t + [];
    WholeMessage(c, e1, u, t);
    assert (s + t)[|s|..] == t && [] + u.part == u.part;
    var e2 := e1.(readBuffer := t, pending := f.kind, frameData := u.part);
    WholeMessage(c, e2, v, []);
    KindKnown(c, u);
    assert ReadMessages(c, e1) == ReadMessages(c, e2) == (Wait, e2);
    ReadIs(c, e, s + t);
    FrameTaken(c, e2, f, Wait);
  }
}
