/** Two connections joined by two byte pipes that delay bytes and cut them anywhere. Each
    endpoint may be TCP or KCP; either may see end of stream, an I/O error or a timer at
    any moment. The composition refines a FIFO of messages. */
module Network {
  import opened Bytes
  import opened Protocol
  import opened Framing
  import opened Callbacks
  import opened Channel
  import opened ChannelInvariants
  import opened ChannelRuns

  datatype Net = Net(a: Conn, b: Conn, ab: seq<byte>, ba: seq<byte>)

  datatype NetEvent = AtA(ev: Event) | AtB(ev: Event)

  function NetInit(ta: Transport, sa: Settings, tb: Transport, sb: Settings): Net {
    Net(Init(ta, sa), Init(tb, sb), [], [])
  }

  /** What an event puts on the endpoint's outgoing pipe. */
  function Emitted(s: Conn, ev: Event): seq<byte>
    requires Enabled(s, ev)
  {
    if ev.WriteBytes? then s.write[..ev.n] else []
  }

  predicate NetEnabled(n: Net, e: NetEvent) {
    match e
    case AtA(ev) => Enabled(n.a, ev) && ChunkOf(ev) <= n.ba
    case AtB(ev) => Enabled(n.b, ev) && ChunkOf(ev) <= n.ab
  }

  function NetStep(n: Net, e: NetEvent): Net
    requires NetEnabled(n, e)
  {
    match e
    case AtA(ev) =>
      Net(Step(n.a, ev), n.b, n.ab + Emitted(n.a, ev), n.ba[|ChunkOf(ev)|..])
    case AtB(ev) =>
      Net(n.a, Step(n.b, ev), n.ab[|ChunkOf(ev)|..], n.ba + Emitted(n.b, ev))
  }

  predicate NetRun(n: Net, es: seq<NetEvent>)
    decreases |es|
  {
    |es| == 0 || (NetEnabled(n, es[0]) && NetRun(NetStep(n, es[0]), es[1..]))
  }

  function NetExec(n: Net, es: seq<NetEvent>): Net
    requires NetRun(n, es)
    decreases |es|
  {
    if |es| == 0 then n else NetExec(NetStep(n, es[0]), es[1..])
  }

  /** The same network seen from the other side. */
  function Flip(n: Net): Net {
    Net(n.b, n.a, n.ba, n.ab)
  }

  function FlipEvent(e: NetEvent): NetEvent {
    match e
    case AtA(ev) => AtB(ev)
    case AtB(ev) => AtA(ev)
  }

  function FlipAll(es: seq<NetEvent>): (r: seq<NetEvent>)
    ensures |r| == |es|
  {
    if |es| == 0 then [] else [FlipEvent(es[0])] + FlipAll(es[1..])
  }

  /** The network is symmetric, so what holds from a to b holds from b to a. */
  lemma {:induction false} FlipRun(n: Net, es: seq<NetEvent>)
    requires NetRun(n, es)
    ensures NetRun(Flip(n), FlipAll(es)) && NetExec(Flip(n), FlipAll(es)) == Flip(NetExec(n, es))
    decreases |es|
  {
    if |es| > 0 {
      assert Flip(NetStep(n, es[0])) == NetStep(Flip(n), FlipEvent(es[0]));
      FlipRun(NetStep(n, es[0]), es[1..]);
      assert FlipAll(es)[0] == FlipEvent(es[0]) && FlipAll(es)[1..] == FlipAll(es[1..]);
    }
  }

  function EventsAtA(es: seq<NetEvent>): seq<Event> {
    if |es| == 0 then [] else (if es[0].AtA? then [es[0].ev] else []) + EventsAtA(es[1..])
  }

  /** Each endpoint of a network run makes a run of its own. */
  lemma {:induction false} ProjectA(n: Net, es: seq<NetEvent>)
    requires NetRun(n, es)
    ensures ValidRun(n.a, EventsAtA(es)) && Exec(n.a, EventsAtA(es)) == NetExec(n, es).a
    decreases |es|
  {
    if |es| > 0 {
      ProjectA(NetStep(n, es[0]), es[1..]);
      if es[0].AtA? {
        assert EventsAtA(es)[0] == es[0].ev && EventsAtA(es)[1..] == EventsAtA(es[1..]);
      } else {
        assert EventsAtA(es) == EventsAtA(es[1..]);
      }
    }
  }

  function EventsAtB(es: seq<NetEvent>): seq<Event> {
    EventsAtA(FlipAll(es))
  }

  lemma {:induction false} ProjectB(n: Net, es: seq<NetEvent>)
    requires NetRun(n, es)
    ensures ValidRun(n.b, EventsAtB(es)) && Exec(n.b, EventsAtB(es)) == NetExec(n, es).b
  {
    FlipRun(n, es);
    ProjectA(Flip(n), FlipAll(es));
  }

  // ---------- the invariant of the network ----------

  /** What one endpoint wrote is what the other received and what is in the pipe. */
  ghost predicate Carries(src: Conn, pipe: seq<byte>, dst: Conn) {
    src.written == dst.received + pipe
  }

  ghost predicate DecodeFailed(s: Conn) {
    s.outcome.Failed? && IsDecodeError(s.outcome.error)
  }

  /** As long as the sender's frames are within the receiver's limits, the receiver's
      decoder has not failed. */
  ghost predicate DecodesFine(src: Conn, dst: Conn) {
    !src.settings.isRaw && !dst.settings.isRaw && AllFit(src.sent, dst.settings) ==> !DecodeFailed(dst)
  }

  ghost predicate NetInv(n: Net) {
    && Inv(n.a) && Inv(n.b)
    && Carries(n.a, n.ab, n.b) && Carries(n.b, n.ba, n.a)
    && DecodesFine(n.a, n.b) && DecodesFine(n.b, n.a)
  }

  lemma {:induction false} StepEmits(s: Conn, ev: Event)
    requires Enabled(s, ev)
    ensures Step(s, ev).written == s.written + Emitted(s, ev)
  {
    if !ev.WriteBytes? {
      OutputEffect(s, ev);
      assert s.written + [] == s.written;
    }
  }

  lemma {:induction false} CarriesOnward(src: Conn, ev: Event, pipe: seq<byte>, dst: Conn)
    requires Carries(src, pipe, dst) && Enabled(src, ev)
    ensures Carries(Step(src, ev), pipe + Emitted(src, ev), dst)
  {
    StepEmits(src, ev);
    ConcatAssoc(dst.received, pipe, Emitted(src, ev));
  }

  lemma {:induction false} CarriesRead(src: Conn, pipe: seq<byte>, dst: Conn, ev: Event)
    requires Carries(src, pipe, dst) && Enabled(dst, ev) && ChunkOf(ev) <= pipe
    ensures Carries(src, pipe[|ChunkOf(ev)|..], Step(dst, ev))
  {
    StepHistories(dst, ev);
    ConcatAssoc(dst.received, ChunkOf(ev), pipe[|ChunkOf(ev)|..]);
    assert pipe == ChunkOf(ev) + pipe[|ChunkOf(ev)|..];
  }

  lemma {:induction false} DeliveredFramed(s: Conn)
    requires DeliveredCanonical(s) && !s.settings.isRaw
    ensures AllFramed(s.delivered)
  {
  }

  lemma {:induction false} FitsFramed(ms: seq<Message>, settings: Settings)
    requires AllEncode(ms, false) && AllFit(ms, settings)
    ensures AllFramed(ms)
  {
  }

  /** The bytes a running receiver still has to decode, in its buffer, in the pipe and in
      the sender's buffer, are the frames of the sender's messages after those delivered. */
  lemma {:induction false} WhatIsLeft(src: Conn, pipe: seq<byte>, dst: Conn)
    requires Inv(src) && Inv(dst) && Carries(src, pipe, dst)
    requires !src.settings.isRaw && !dst.settings.isRaw && AllFramed(src.sent)
    ensures |dst.delivered| <= |src.sent|
    ensures forall i :: 0 <= i < |dst.delivered| ==> dst.delivered[i] == Canon(src.sent[i])
    ensures !dst.outcome.Failed? ==>
              dst.read + pipe + src.write == EncodeAll(src.sent[|dst.delivered|..], false)
  {
    var done := EncodeAll(dst.delivered, false);
    var undecoded := dst.received[|done|..];
    DeliveredFramed(dst);
    SplitStream(done, dst.received, pipe, src.write);
    PrefixCode(dst.delivered, undecoded + pipe + src.write, src.sent);
    if !dst.outcome.Failed? {
      assert undecoded == dst.read;
    }
  }

  lemma SplitStream(done: seq<byte>, received: seq<byte>, pipe: seq<byte>, write: seq<byte>)
    requires done <= received
    ensures done + (received[|done|..] + pipe + write) == received + pipe + write
  {
    assert received == done + received[|done|..];
  }

  /** The receiver's decoder never rejects what the sender's encoder printed. */
  lemma {:induction false} NoRejection(src: Conn, pipe: seq<byte>, dst: Conn)
    requires Inv(src) && Inv(dst) && Carries(src, pipe, dst) && !dst.outcome.Failed?
    requires !src.settings.isRaw && !dst.settings.isRaw && AllFit(src.sent, dst.settings)
    ensures !Parse(dst.read, dst.settings).Malformed?
  {
    FitsFramed(src.sent, dst.settings);
    WhatIsLeft(src, pipe, dst);
    if Parse(dst.read, dst.settings).Malformed? {
      var left := src.sent[|dst.delivered|..];
      ConcatAssoc(dst.read, pipe, src.write);
      ParseStable(dst.read, pipe + src.write, dst.settings);
      if |left| > 0 {
        RoundTripExact(left[0], EncodeAll(left[1..], false), dst.settings);
      }
      assert false;
    }
  }

  lemma {:induction false} DeliverDecodesFine(dst: Conn, reply: Reply)
    requires !dst.outcome.Failed? && !Parse(dst.read, dst.settings).Malformed?
    ensures !DecodeFailed(DeliverStep(dst, reply))
  {
  }

  lemma {:induction false} OtherDecodesFine(dst: Conn, ev: Event)
    requires Enabled(dst, ev) && !ev.Deliver?
    ensures !DecodeFailed(Step(dst, ev))
  {
    match ev
    case Command(m) => CommandOutcome(dst, m);
    case _ =>
  }

  lemma {:induction false} RunningIsNotFailed(s: Conn, ev: Event)
    requires Enabled(s, ev)
    ensures !s.outcome.Failed?
  {
  }

  /** A step of the receiver does not make its decoder fail. */
  lemma {:induction false} ReceiverStepFine(src: Conn, pipe: seq<byte>, dst: Conn, ev: Event)
    requires Inv(src) && Inv(dst) && Carries(src, pipe, dst) && Enabled(dst, ev)
    ensures DecodesFine(src, Step(dst, ev))
  {
    StepConst(dst, ev);
    RunningIsNotFailed(dst, ev);
    if !src.settings.isRaw && !dst.settings.isRaw && AllFit(src.sent, dst.settings) {
      if ev.Deliver? {
        NoRejection(src, pipe, dst);
        DeliverDecodesFine(dst, ev.reply);
      } else {
        OtherDecodesFine(dst, ev);
      }
    }
  }

  /** A step of the sender only adds messages. */
  lemma {:induction false} SenderStepFine(src: Conn, dst: Conn, ev: Event)
    requires DecodesFine(src, dst) && Enabled(src, ev)
    ensures DecodesFine(Step(src, ev), dst)
  {
    StepHistories(src, ev);
    if AllFit(Step(src, ev).sent, dst.settings) {
      assert forall i :: 0 <= i < |src.sent| ==> src.sent[i] == Step(src, ev).sent[i];
    }
  }

  lemma {:induction false} StepAInv(n: Net, ev: Event)
    requires NetInv(n) && NetEnabled(n, AtA(ev))
    ensures NetInv(NetStep(n, AtA(ev)))
  {
    StepInv(n.a, ev);
    CarriesOnward(n.a, ev, n.ab, n.b);
    CarriesRead(n.b, n.ba, n.a, ev);
    ReceiverStepFine(n.b, n.ba, n.a, ev);
    SenderStepFine(n.a, n.b, ev);
  }

  lemma {:induction false} NetStepInv(n: Net, e: NetEvent)
    requires NetInv(n) && NetEnabled(n, e)
    ensures NetInv(NetStep(n, e))
  {
    if e.AtA? {
      StepAInv(n, e.ev);
    } else {
      StepAInv(Flip(n), e.ev);
    }
  }

  lemma {:induction false} NetRunInv(n: Net, es: seq<NetEvent>)
    requires NetInv(n) && NetRun(n, es)
    ensures NetInv(NetExec(n, es))
    ensures NetExec(n, es).a.settings == n.a.settings && NetExec(n, es).b.settings == n.b.settings
    decreases |es|
  {
    if |es| > 0 {
      NetStepInv(n, es[0]);
      StepConst(if es[0].AtA? then n.a else n.b, es[0].ev);
      NetRunInv(NetStep(n, es[0]), es[1..]);
    }
  }

  lemma {:induction false} Reached(ta: Transport, sa: Settings, tb: Transport, sb: Settings, es: seq<NetEvent>)
    requires NetRun(NetInit(ta, sa, tb, sb), es)
    ensures var n := NetExec(NetInit(ta, sa, tb, sb), es);
            NetInv(n) && n.a.settings == sa && n.b.settings == sb
  {
    InitInv(ta, sa);
    InitInv(tb, sb);
    NetRunInv(NetInit(ta, sa, tb, sb), es);
  }
}
