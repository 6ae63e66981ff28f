/**
  Two ends of one connection and the byte channels between them. Queueing, writing and reading interleave freely and a
  read takes any number of bytes.
 */
module FrameConnection {
  import opened ByteStream
  import opened FrameCodec
  import opened FrameProtocol
  import opened FrameDelivery

  /** `fromA` and `fromB` are all frames ever queued at the ends. */
  datatype Connection = Connection(
    a: Endpoint, b: Endpoint, ab: seq<Byte>, ba: seq<Byte>, fromA: seq<Frame>, fromB: seq<Frame>)
  {
    function Swap(): Connection {
      Connection(b, a, ba, ab, fromB, fromA)
    }
  }

  datatype Action = Queue(f: Frame) | Write(m: Moment) | Read(n: nat)

  /** What one of the ends does. */
  datatype Step = Step(atA: bool, action: Action)

  ghost predicate IsInitial(s: Connection) {
    && s.a == Fresh(s.a.sendSize, s.a.receiveSize, s.a.minimalRead) && s.a.receiveSize < LENGTH_LIMIT
    && s.b == Fresh(s.b.sendSize, s.b.receiveSize, s.b.minimalRead) && s.b.receiveSize < LENGTH_LIMIT
    && s.ab == s.ba == [] && s.fromA == s.fromB == []
  }

  /** The functions of the protocol apply to this end. */
  ghost predicate Ready(c: Settings, e: Endpoint) {
    c.Valid() && GoodFrames(c, e.queue) && (e.pending == 0 || e.pending in c.readers)
  }

  /** A read that ends inside the connection options is not part of a run. */
  ghost predicate EnabledAtA(c: Settings, s: Connection, action: Action) {
    && Ready(c, s.a)
    && match action
       case Queue(f) => c.Good(f)
       case Write(m) => GoodMoment(m)
       case Read(n) => n <= |s.ba| && FrameProtocol.Read(c, s.a, s.ba[..n]).0 != Undefined
  }

  ghost function DoAtA(c: Settings, s: Connection, action: Action): Connection
    requires EnabledAtA(c, s, action)
  {
    match action
    case Queue(f) => s.(a := s.a.(queue := s.a.queue + [f]), fromA := s.fromA + [f])
    case Write(m) =>
      var (_, a, sent) := FrameProtocol.Write(c, s.a, m);
      s.(a := a, ab := s.ab + Bytes(c, sent))
    case Read(n) => s.(a := FrameProtocol.Read(c, s.a, s.ba[..n]).1, ba := s.ba[n..])
  }

  ghost predicate Enabled(c: Settings, s: Connection, step: Step) {
    EnabledAtA(c, if step.atA then s else s.Swap(), step.action)
  }

  ghost function Next(c: Settings, s: Connection, step: Step): Connection
    requires Enabled(c, s, step)
  {
    if step.atA then DoAtA(c, s, step.action) else DoAtA(c, s.Swap(), step.action).Swap()
  }

  // ----- The invariant -----

  /**
    Bytes written and not yet acknowledged are in the channel, read and not acknowledged, or covered by an
    acknowledgement that is waiting to be sent or on its way back.
   */
  ghost predicate Balanced(s: Endpoint, r: Endpoint, channel: seq<Byte>, back: seq<Message>) {
    s.waiting == |channel| + r.unacknowledged + Acks(r.segments) + Acks(back)
  }

  ghost predicate Small(e: Endpoint) {
    e.waiting < LENGTH_LIMIT && e.window < LENGTH_LIMIT && e.receiveSize < LENGTH_LIMIT
  }

  /** The messages on their way in each direction, and the frames still to be delivered at each end. */
  datatype Witness = Witness(wireAB: seq<Message>, wireBA: seq<Message>, dueB: seq<Frame>, dueA: seq<Frame>)
  {
    function Swap(): Witness {
      Witness(wireBA, wireAB, dueA, dueB)
    }
  }

  ghost predicate Inv(c: Settings, s: Connection, w: Witness) {
    && c.Valid()
    && Link(c, s.a, s.b, s.ab, w.wireAB, s.fromA, w.dueB)
    && Link(c, s.b, s.a, s.ba, w.wireBA, s.fromB, w.dueA)
    && Balanced(s.a, s.b, s.ab, w.wireBA)
    && Balanced(s.b, s.a, s.ba, w.wireAB)
    && Small(s.a) && Small(s.b)
  }

  lemma InvSwaps(c: Settings, s: Connection, w: Witness)
    requires Inv(c, s, w)
    ensures Inv(c, s.Swap(), w.Swap())
  {
    hide Link, Balanced, Small;
  }

  lemma InitialInv(c: Settings, s: Connection)
    requires c.Valid() && IsInitial(s)
    ensures Inv(c, s, Witness([], [], [], []))
  {
  }

  /** A direction depends only on what its sender still has to send and what its receiver has read. */
  lemma LinkSame(c: Settings, s: Endpoint, r: Endpoint, channel: seq<Byte>, wire: seq<Message>,
                 queued: seq<Frame>, due: seq<Frame>, s1: Endpoint, r1: Endpoint)
    requires Link(c, s, r, channel, wire, queued, due)
    requires s1.segments == s.segments && s1.queue == s.queue
    requires r1.readBuffer == r.readBuffer && r1.pending == r.pending && r1.frameData == r.frameData
    requires r1.delivered == r.delivered
    ensures Link(c, s1, r1, channel, wire, queued, due)
  {
    hide Bytes, Frames, GoodFrames, GoodMessages, Payload, Settings.FrameBytes, Settings.Good, Tag;
  }

  lemma QueueKeeps(c: Settings, s: Connection, w: Witness, f: Frame)
    requires Inv(c, s, w) && c.Good(f)
    ensures Inv(c, s.(a := s.a.(queue := s.a.queue + [f]), fromA := s.fromA + [f]), w.(dueB := w.dueB + [f]))
  {
    QueueKeepsLink(c, s.a, s.b, s.ab, w.wireAB, s.fromA, w.dueB, f);
    LinkSame(c, s.b, s.a, s.ba, w.wireBA, s.fromB, w.dueA, s.b, s.a.(queue := s.a.queue + [f]));
  }

  lemma WriteKeeps(c: Settings, s: Connection, w: Witness, m: Moment) returns (w1: Witness)
    requires Inv(c, s, w) && EnabledAtA(c, s, Write(m))
    ensures Inv(c, DoAtA(c, s, Write(m)), w1)
    ensures DoAtA(c, s, Write(m)).a.waiting <= if s.a.waiting > s.a.window then s.a.waiting else s.a.window
    ensures w1.wireAB == w.wireAB + FrameProtocol.Write(c, s.a, m).2 && w1.wireBA == w.wireBA
  {
    hide Acks, DoAtA, Drained, FrameProtocol.Read, Frames, GoodMessages, GoodMoment, Holds, MessageBytes, Payload,
      Prepare;
    WriteDoes(c, s, m);
    var (q, a1, sent) := FrameProtocol.Write(c, s.a, m);
    if s.a.waiting >= s.a.window {
      assert s.ab + [] == s.ab && w.wireAB + [] == w.wireAB;
      w1 := w;
    } else {
      WriteKeepsLink(c, s.a, s.b, s.ab, w.wireAB, s.fromA, w.dueB, m);
      LinkSame(c, s.b, s.a, s.ba, w.wireBA, s.fromB, w.dueA, s.b, a1);
      MessagesJoin(c, w.wireAB, sent);
      w1 := w.(wireAB := w.wireAB + sent);
    }
  }

  lemma WriteDoes(c: Settings, s: Connection, m: Moment)
    requires EnabledAtA(c, s, Write(m))
    ensures GoodFrames(c, s.a.queue) && GoodMoment(m)
    ensures var (q, a1, sent) := FrameProtocol.Write(c, s.a, m);
      DoAtA(c, s, Write(m)) == s.(a := a1, ab := s.ab + Bytes(c, sent))
  {
    hide FrameProtocol.Write, Bytes, Settings.Good;
  }

  lemma ReadDoes(c: Settings, s: Connection, n: nat)
    requires EnabledAtA(c, s, Read(n))
    ensures n <= |s.ba| && Ready(c, s.a) && FrameProtocol.Read(c, s.a, s.ba[..n]).0 != Undefined
    ensures DoAtA(c, s, Read(n)) == s.(a := FrameProtocol.Read(c, s.a, s.ba[..n]).1, ba := s.ba[n..])
    ensures n == 0 ==> FrameProtocol.Read(c, s.a, s.ba[..n]) == (NeedSleep, s.a) && s.ba[n..] == s.ba
    ensures s.ba == s.ba[..n] + s.ba[n..]
  {
    hide AfterMessages, ReadMessages, Ready, Settings.Good;
  }

  /** Reading leaves the rest of the invariant alone. */
  lemma ReadInv(c: Settings, s: Connection, w: Witness, a1: Endpoint, n: nat, w1: Witness)
    requires Inv(c, s, w) && n <= |s.ba| && ReadOnly(s.a, a1, n)
    requires Acks(w1.wireBA) + s.a.waiting == Acks(w.wireBA) + a1.waiting
    requires Link(c, s.b, a1, s.ba[n..], w1.wireBA, s.fromB, w1.dueA)
    requires w1.wireAB == w.wireAB && w1.dueB == w.dueB
    ensures Inv(c, s.(a := a1, ba := s.ba[n..]), w1)
  {
    hide Acks, Holds, GoodMessages, GoodFrames, Payload, Frames, Drained, Tag, Bytes;
    LinkSame(c, s.a, s.b, s.ab, w.wireAB, s.fromA, w.dueB, a1, s.b);
  }

  lemma ReadKeeps(c: Settings, s: Connection, w: Witness, n: nat) returns (w1: Witness)
    requires Inv(c, s, w) && EnabledAtA(c, s, Read(n))
    ensures Inv(c, DoAtA(c, s, Read(n)), w1)
    ensures FrameProtocol.Read(c, s.a, s.ba[..n]).0 == if n == 0 then NeedSleep else JobDone
    ensures n > 0 ==> (Prompt(c, DoAtA(c, s, Read(n)).a, w1.wireBA, w1.dueA)
      <==> OneKind(w.wireBA[..Whole(c, w.wireBA, |s.a.readBuffer| + n)]))
    ensures n > 0 ==> w1.wireBA == w.wireBA[Taken(c, s.a.pending, w.wireBA, |s.a.readBuffer| + n)..]
    ensures ReadOnly(s.a, DoAtA(c, s, Read(n)).a, n)
    ensures w1.wireAB == w.wireAB && w1.dueB == w.dueB && (n == 0 ==> w1 == w)
    ensures IsSuffix(w1.wireBA, w.wireBA) && WindowFrom(s.a, w.wireBA, DoAtA(c, s, Read(n)).a.window)
    ensures DoAtA(c, s, Read(n)) == s.(a := DoAtA(c, s, Read(n)).a, ba := s.ba[n..])
  {
    hide Acks, DoAtA, EnabledAtA, FrameProtocol.Read, GoodMessage, IsSuffix, Link, OneKind, Prompt, ReadMessages,
      ReadOnly, Settings.Good, Settings.Valid, Small, Taken, Whole, WindowFrom;
    ReadDoes(c, s, n);
    if n == 0 {
      NothingRead(c, s.a, w.wireBA);
      w1 := w;
    } else {
      AcksWithin(c, s, w);
      var left, due := ReadKeepsLink(c, s.b, s.a, s.ba[..n], s.ba[n..], w.wireBA, s.fromB, w.dueA);
      left, due := PromptExactlyWhen(c, s.b, s.a, s.ba[..n], s.ba[n..], w.wireBA, s.fromB, w.dueA);
      w1 := w.(wireBA := left, dueA := due);
      ReadInv(c, s, w, FrameProtocol.Read(c, s.a, s.ba[..n]).1, n, w1);
    }
  }

  lemma NothingRead(c: Settings, e: Endpoint, wire: seq<Message>)
    ensures ReadOnly(e, e, 0) && IsSuffix(wire, wire) && WindowFrom(e, wire, e.window)
  {
  }

  lemma AcksWithin(c: Settings, s: Connection, w: Witness)
    requires Inv(c, s, w)
    ensures c.Valid() && Acks(w.wireBA) <= s.a.waiting
    ensures Link(c, s.b, s.a, s.ba, w.wireBA, s.fromB, w.dueA)
  {
    hide Link, Acks;
  }

  /** Every step of either end keeps the invariant. */
  lemma StepKeeps(c: Settings, s: Connection, w: Witness, step: Step) returns (w1: Witness)
    requires Inv(c, s, w) && Enabled(c, s, step)
    ensures Inv(c, Next(c, s, step), w1)
  {
    if step.atA {
      w1 := ActionKeeps(c, s, w, step.action);
    } else {
      InvSwaps(c, s, w);
      w1 := ActionKeeps(c, s.Swap(), w.Swap(), step.action);
      InvSwaps(c, DoAtA(c, s.Swap(), step.action), w1);
      w1 := w1.Swap();
    }
  }

  lemma ActionKeeps(c: Settings, s: Connection, w: Witness, action: Action) returns (w1: Witness)
    requires Inv(c, s, w) && EnabledAtA(c, s, action)
    ensures Inv(c, DoAtA(c, s, action), w1)
  {
    match action
    case Queue(f) =>
      QueueKeeps(c, s, w, f);
      w1 := w.(dueB := w.dueB + [f]);
    case Write(m) =>
      w1 := WriteKeeps(c, s, w, m);
    case Read(n) =>
      w1 := ReadKeeps(c, s, w, n);
  }
}
