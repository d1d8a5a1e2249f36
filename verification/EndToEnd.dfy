/** The main results about two connected endpoints. They are stated from a to b; the
    network is symmetric, so they hold from b to a as well (`FifoBothWays`). */
module EndToEnd {
  import opened Bytes
  import opened Protocol
  import opened Framing
  import opened Callbacks
  import opened Channel
  import opened ChannelInvariants
  import opened ChannelRuns
  import opened Network
  import opened Outcomes
  import opened Wire

  lemma {:induction false} PrefixUpToClose(ds: seq<Message>, ns: seq<Message>)
    requires ds <= ns && CloseEnds(ds)
    ensures ds <= CutAtClose(ns)
    ensures HasClose(ds) ==> ds == CutAtClose(ns)
  {
    if |ds| > 0 {
      if ds[0].Close? {
        assert ds == [ns[0]];
      } else {
        forall i | 0 <= i < |ds| - 1 && ds[1..][i].Close? ensures i == |ds| - 2 {
          assert ds[i + 1].Close?;
        }
        PrefixUpToClose(ds[1..], ns[1..]);
        assert ds == [ds[0]] + ds[1..];
        if HasClose(ds) {
          var i :| 0 <= i < |ds| && ds[i].Close?;
          assert ds[1..][i - 1].Close?;
        }
      }
    }
  }

  /** The messages the receiver has handled are a prefix of the sender's, in wire form and
      up to the first Close. */
  lemma {:induction false} DeliveredIsPrefix(src: Conn, pipe: seq<byte>, dst: Conn)
    requires Inv(src) && Inv(dst) && Carries(src, pipe, dst)
    requires !src.settings.isRaw && !dst.settings.isRaw && AllFramed(src.sent)
    ensures dst.delivered <= CutAtClose(CanonAll(src.sent))
    ensures HasClose(dst.delivered) ==> dst.delivered == CutAtClose(CanonAll(src.sent))
  {
    WhatIsLeft(src, pipe, dst);
    PrefixUpToClose(dst.delivered, CanonAll(src.sent));
  }

  /** FIFO refinement. In every state reachable under any interleaving, cancellation,
      delay and splitting, the messages b's callbacks tell of (and last of a failure, if b
      failed) are a prefix of the messages a's run passed to its encoder, in order and in
      wire form, cut after the first Close; and once b was handed a Close they are exactly
      that. All it takes is that every frame a sent states its own length. */
  lemma {:induction false} Fifo(ta: Transport, sa: Settings, tb: Transport, sb: Settings, es: seq<NetEvent>)
    requires !sa.isRaw && !sb.isRaw && NetRun(NetInit(ta, sa, tb, sb), es)
    requires AllFramed(NetExec(NetInit(ta, sa, tb, sb), es).a.sent)
    ensures var n := NetExec(NetInit(ta, sa, tb, sb), es);
            var sent := CutAtClose(CanonAll(n.a.sent));
            && n.b.delivered <= sent
            && (HasClose(n.b.delivered) ==> n.b.delivered == sent)
            && Heard(n.b.callbacks) == n.b.delivered + ErrorHeard(n.b.outcome)
            && MessagesAreData(n.b.callbacks)
  {
    var n := NetExec(NetInit(ta, sa, tb, sb), es);
    Reached(ta, sa, tb, sb, es);
    DeliveredIsPrefix(n.a, n.ab, n.b);
    StateIsHeard(n.b);
  }

  ghost predicate IsFifo(src: Conn, dst: Conn) {
    var sent := CutAtClose(CanonAll(src.sent));
    && dst.delivered <= sent
    && (HasClose(dst.delivered) ==> dst.delivered == sent)
    && Heard(dst.callbacks) == dst.delivered + ErrorHeard(dst.outcome)
  }

  /** In one run of the network both directions are FIFOs at once. */
  lemma {:induction false} FifoBothWays(ta: Transport, sa: Settings, tb: Transport, sb: Settings, es: seq<NetEvent>)
    requires !sa.isRaw && !sb.isRaw && NetRun(NetInit(ta, sa, tb, sb), es)
    requires var n := NetExec(NetInit(ta, sa, tb, sb), es); AllFramed(n.a.sent) && AllFramed(n.b.sent)
    ensures var n := NetExec(NetInit(ta, sa, tb, sb), es); IsFifo(n.a, n.b) && IsFifo(n.b, n.a)
  {
    Fifo(ta, sa, tb, sb, es);
    FlipRun(NetInit(ta, sa, tb, sb), es);
    assert Flip(NetInit(ta, sa, tb, sb)) == NetInit(tb, sb, ta, sa);
    Fifo(tb, sb, ta, sa, FlipAll(es));
  }

  /** The history `sent` is what the events at a passed to the encoder. */
  lemma {:induction false} SentIsEncoded(ta: Transport, sa: Settings, tb: Transport, sb: Settings, es: seq<NetEvent>)
    requires NetRun(NetInit(ta, sa, tb, sb), es)
    ensures ValidRun(Init(ta, sa), EventsAtA(es))
    ensures NetExec(NetInit(ta, sa, tb, sb), es).a.sent == EncodedOver(Init(ta, sa), EventsAtA(es))
  {
    ProjectA(NetInit(ta, sa, tb, sb), es);
    RunHistories(Init(ta, sa), EventsAtA(es));
    assert [] + EncodedOver(Init(ta, sa), EventsAtA(es)) == EncodedOver(Init(ta, sa), EventsAtA(es));
  }

  /** With frames within the receiver's limits no decode error ever occurs, and with a read
      limit of at least `ReadBound` the read buffer never overflows. */
  lemma {:induction false} NoDecodeError(ta: Transport, sa: Settings, tb: Transport, sb: Settings, es: seq<NetEvent>)
    requires !sa.isRaw && !sb.isRaw && NetRun(NetInit(ta, sa, tb, sb), es)
    requires AllFit(NetExec(NetInit(ta, sa, tb, sb), es).a.sent, sb)
    ensures var b := NetExec(NetInit(ta, sa, tb, sb), es).b;
            && !DecodeFailed(b)
            && (sb.inBufferMax >= ReadBound(sb) ==> b.outcome != Failed(OverInbufferSize))
  {
    Reached(ta, sa, tb, sb, es);
  }

  /** The byte stream under the messages, in raw mode too: nothing is lost, repeated or
      reordered between a's encoder and b's decoder. */
  lemma {:induction false} StreamConserved(ta: Transport, sa: Settings, tb: Transport, sb: Settings, es: seq<NetEvent>)
    requires NetRun(NetInit(ta, sa, tb, sb), es)
    ensures var n := NetExec(NetInit(ta, sa, tb, sb), es);
            && EncodeAll(n.b.delivered, sb.isRaw) <= EncodeAll(n.a.sent, sa.isRaw)
            && (!n.b.outcome.Failed? ==>
                  EncodeAll(n.a.sent, sa.isRaw)
                  == EncodeAll(n.b.delivered, sb.isRaw) + n.b.read + n.ab + n.a.write)
  {
    Reached(ta, sa, tb, sb, es);
  }

  // ---------- raw mode ----------

  lemma {:induction false} RawStepEncodes(s: Conn, ev: Event)
    requires s.settings.isRaw
    ensures Payloads(EncodedBy(s, ev)) == if ev.Command? then PayloadOf(ev.msg) else []
  {
    assert forall m: Message :: [m][1..] == [];
  }

  lemma {:induction false} RawRunEncodes(s: Conn, evs: seq<Event>)
    requires s.settings.isRaw && ValidRun(s, evs)
    ensures Payloads(EncodedOver(s, evs)) == Payloads(CommandsOf(evs))
    decreases |evs|
  {
    if |evs| > 0 {
      hide EncodedBy, Step, Enabled;
      StepConst(s, evs[0]);
      RawStepEncodes(s, evs[0]);
      RawRunEncodes(Step(s, evs[0]), evs[1..]);
      PayloadsAppend(EncodedBy(s, evs[0]), EncodedOver(Step(s, evs[0]), evs[1..]));
      if evs[0].Command? {
        assert CommandsOf(evs)[0] == evs[0].msg && CommandsOf(evs)[1..] == CommandsOf(evs[1..]);
      } else {
        assert CommandsOf(evs) == CommandsOf(evs[1..]);
      }
    }
  }

  /** End to end in raw mode: the bytes of the texts and binaries that a's commands carry, in
      order, are the bytes of the binaries b was handed, followed by those in b's buffer, in
      the pipe, and in a's buffer. */
  lemma {:induction false} RawEndToEnd(ta: Transport, sa: Settings, tb: Transport, sb: Settings, es: seq<NetEvent>)
    requires sa.isRaw && sb.isRaw && NetRun(NetInit(ta, sa, tb, sb), es)
    ensures var n := NetExec(NetInit(ta, sa, tb, sb), es);
            var sent := Payloads(CommandsOf(EventsAtA(es)));
            && Payloads(n.a.sent) == sent
            && (forall i :: 0 <= i < |n.b.delivered| ==> n.b.delivered[i].Text? || n.b.delivered[i].Binary?)
            && Payloads(n.b.delivered) <= sent
            && (!n.b.outcome.Failed? ==> sent == Payloads(n.b.delivered) + n.b.read + n.ab + n.a.write)
  {
    var n := NetExec(NetInit(ta, sa, tb, sb), es);
    StreamConserved(ta, sa, tb, sb, es);
    Reached(ta, sa, tb, sb, es);
    SentIsEncoded(ta, sa, tb, sb, es);
    RawRunEncodes(Init(ta, sa), EventsAtA(es));
    RawIsPayloads(n.a.sent);
    RawIsPayloads(n.b.delivered);
  }

  // ---------- graceful close ----------

  /** b is open and has read everything up to the first Close; `cut` is what was sent up to
      there. b still runs, or has returned with that Close. */
  ghost predicate Arrived(cut: seq<Message>, b: Conn) {
    && Inv(b) && !b.settings.isRaw && b.phase.Open?
    && AllEncode(cut, false) && AllFit(cut, b.settings) && HasClose(cut) && CloseEnds(cut)
    && EncodeAll(cut, false) <= b.received
    && (b.outcome.Running? || (b.outcome.Returned? && HasClose(b.delivered)))
  }

  lemma {:induction false} ArrivedFront(cut: seq<Message>, b: Conn)
    requires Arrived(cut, b)
    ensures forall i :: 0 <= i < |cut| && i < |b.delivered| ==> b.delivered[i] == Canon(cut[i])
    ensures |b.delivered| < |cut| ==>
              EncodeAll(cut[|b.delivered|..], false) <= b.read
  {
    FitsFramed(cut, b.settings);
    DeliveredFramed(b);
    FrontOfStream(cut, b.delivered, b.received, b.read);
    hide Encode, Parse, Canon, EncodeAll;
    assert forall i :: 0 <= i < |b.delivered| ==> Canon(b.delivered[i]) == b.delivered[i];
  }

  /** Two readings of the front of one stream agree. */
  lemma {:induction false} FrontOfStream(cut: seq<Message>, ds: seq<Message>, received: seq<byte>, read: seq<byte>)
    requires AllFramed(cut) && AllFramed(ds)
    requires EncodeAll(cut, false) <= received && received == EncodeAll(ds, false) + read
    ensures forall i :: 0 <= i < |cut| && i < |ds| ==> Canon(ds[i]) == Canon(cut[i])
    ensures |ds| < |cut| ==> EncodeAll(cut[|ds|..], false) <= read
  {
    hide Framed, Canon, EncodeAll;
    var rest := received[|EncodeAll(cut, false)|..];
    assert received == EncodeAll(cut, false) + rest;
    if |ds| <= |cut| {
      SameFront(ds, read, cut, rest);
    } else {
      SameFront(cut, rest, ds, read);
    }
  }

  /** So b's decoder has a message until it has met that Close. */
  lemma {:induction false} CloseWithinReach(cut: seq<Message>, b: Conn)
    requires Arrived(cut, b) && b.outcome.Running?
    ensures Parse(b.read, b.settings).Complete?
  {
    ArrivedFront(cut, b);
    hide Parse, Encode, Inv;
    var k := |b.delivered|;
    CloseIsAhead(cut, b);
    var frame := Encode(cut[k], false);
    assert EncodeAll(cut[k..], false) == frame + EncodeAll(cut[k..][1..], false);
    assert b.read == frame + b.read[|frame|..];
    RoundTripExact(cut[k], b.read[|frame|..], b.settings);
  }

  lemma {:induction false} CloseIsAhead(cut: seq<Message>, b: Conn)
    requires Arrived(cut, b) && b.outcome.Running?
    ensures |b.delivered| < |cut|
  {
    ArrivedFront(cut, b);
    hide Parse, Encode;
    var c :| 0 <= c < |cut| && cut[c].Close?;
    assert forall i :: 0 <= i < |b.delivered| ==> !b.delivered[i].Close?;
  }

  /** And when b has returned, it was handed exactly the messages up to that Close. */
  lemma {:induction false} ArrivedIsHanded(cut: seq<Message>, b: Conn)
    requires Arrived(cut, b) && !b.outcome.Running?
    ensures b.delivered == CanonAll(cut)
  {
    ArrivedFront(cut, b);
    var c :| 0 <= c < |cut| && cut[c].Close?;
    var d :| 0 <= d < |b.delivered| && b.delivered[d].Close?;
    assert c < |b.delivered| ==> b.delivered[c].Close?;
    assert d < |cut| ==> cut[d].Close?;
  }

  lemma {:induction false} DeliverGoesOn(dst: Conn, reply: Reply)
    requires Parse(dst.read, dst.settings).Complete? && dst.outcome.Running? && reply.Done?
    ensures var t := DeliverStep(dst, reply);
            && |t.read| < |dst.read|
            && (t.outcome.Running? || (t.outcome.Returned? && HasClose(t.delivered)))
  {
    var t := DeliverStep(dst, reply);
    var m := Parse(dst.read, dst.settings).msg;
    if m.Close? {
      assert t.delivered == dst.delivered + [m];
      assert t.delivered[|dst.delivered|].Close?;
    }
  }

  /** The events by which an endpoint itself stops reading: one of its callbacks refuses, it
      closes, or all its senders are gone. */
  predicate StopsItself(ev: Event) {
    || (ev.Deliver? && ev.reply.Refused?)
    || IsLocalClose(ev)
    || ev.SendersGone?
    || (ev.Logic? && !ev.ok)
  }

  ghost predicate NeverStopsItself(evs: seq<Event>) {
    forall i :: 0 <= i < |evs| ==> !StopsItself(evs[i])
  }

  function Deliveries(evs: seq<Event>): nat {
    if |evs| == 0 then 0 else (if evs[0].Deliver? then 1 else 0) + Deliveries(evs[1..])
  }

  /** Until then b takes no read, write or timer branch; commands and `on_logic` leave the
      read buffer alone, and deliveries use it up. */
  lemma {:induction false} ArrivedStep(cut: seq<Message>, b: Conn, ev: Event)
    requires Arrived(cut, b) && Enabled(b, ev) && !StopsItself(ev)
    ensures var t := Step(b, ev);
            Arrived(cut, t) && t.settings == b.settings && |t.read| + (if ev.Deliver? then 1 else 0) <= |b.read|
  {
    CloseWithinReach(cut, b);
    StepInv(b, ev);
    StepHistories(b, ev);
    PhaseEffect(b, ev);
    assert b.received + [] == b.received;
    if ev.Deliver? {
      DeliverGoesOn(b, ev.reply);
    } else {
      InputEffect(b, ev);
      ArrivedOutcome(b, ev);
    }
  }

  lemma {:induction false} ArrivedOutcome(b: Conn, ev: Event)
    requires Enabled(b, ev) && !StopsItself(ev) && (ev.Command? || ev.Logic?)
    ensures Step(b, ev).outcome == b.outcome
  {
    if ev.Command? {
      CommandOutcome(b, ev.msg);
    }
  }

  lemma {:induction false} ArrivedRun(cut: seq<Message>, b: Conn, evs: seq<Event>)
    requires Arrived(cut, b) && ValidRun(b, evs) && NeverStopsItself(evs)
    ensures Arrived(cut, Exec(b, evs)) && |Exec(b, evs).read| + Deliveries(evs) <= |b.read|
    decreases |evs|
  {
    if |evs| > 0 {
      assert !StopsItself(evs[0]);
      ArrivedStep(cut, b, evs[0]);
      forall i | 0 <= i < |evs[1..]| ensures !StopsItself(evs[1..][i]) {
        assert evs[1..][i] == evs[i + 1];
      }
      ArrivedRun(cut, Step(b, evs[0]), evs[1..]);
    }
  }

  /** The run returned after handing over exactly `sent`, whose last message is a Close; that
      Close was the one `on_close`, and the last callback. */
  ghost predicate HandedAll(t: Conn, sent: seq<Message>) {
    && t.outcome.Returned? && t.delivered == sent
    && Heard(t.callbacks) == sent && MessagesAreData(t.callbacks)
    && CloseIsLast(t.callbacks)
    && |sent| > 0 && sent[|sent| - 1].Close?
    && t.callbacks[|t.callbacks| - 1] == OnClose(sent[|sent| - 1].code, sent[|sent| - 1].reason)
  }

  lemma {:induction false} EndsWithClose(t: Conn)
    requires Inv(t) && t.outcome.Returned? && HasClose(t.delivered)
    ensures HandedAll(t, t.delivered)
  {
    hide Inv, CallbackShape, Heard, CallbacksOf, CloseIsLast;
    InvParts(t);
    StateIsHeard(t);
    assert t.delivered + [] == t.delivered;
    ShapeGivesClose(t);
    LastCallback(t);
    LastIsClose(t.delivered);
    hide HasClose, CloseStops, CalledClose;
  }

  lemma {:induction false} LastIsClose(ms: seq<Message>)
    requires HasClose(ms) && CloseEnds(ms)
    ensures ms[|ms| - 1].Close?
  {
  }

  lemma {:induction false} CutOfCanon(ms: seq<Message>)
    ensures CutAtClose(CanonAll(ms)) == CanonAll(CutAtClose(ms))
  {
    if |ms| > 0 && !ms[0].Close? {
      assert CanonAll(ms)[1..] == CanonAll(ms[1..]);
      CutOfCanon(ms[1..]);
    }
  }

  /** What b has read once a closing write branch of a has emptied the buffer and the pipe
      is empty. */
  lemma {:induction false} FlushedHasArrived(n: Net)
    requires NetInv(n) && !n.a.settings.isRaw && !n.b.settings.isRaw
    requires n.a.flushed && n.ab == [] && n.b.phase.Open? && n.b.outcome.Running?
    requires AllFit(CutAtClose(n.a.sent), n.b.settings)
    ensures Arrived(CutAtClose(n.a.sent), n.b)
  {
    CutIsPrefix(n.a.sent);
    assert n.a.written == n.b.received + [] == n.b.received;
  }

  /** Graceful close. Suppose a's closing write branch has emptied a's buffer, the pipe to
      b is empty, and b is running and still open; only the frames up to a's first Close
      need to be within b's limits. Let the network go on in any way, with whatever commands,
      writes and failures at a, and at b with whatever commands and `on_logic` completions
      its loop takes, as long as b does not itself stop. Then b is not stopped by anything
      else: it has at most one delivery per byte in its buffer, always another one while it
      runs, and when it returns it was handed every message a sent up to its first Close, in
      order, then called `on_close` once, last, with that Close's canonical code and reason. */
  lemma {:induction false} GracefulClose(
      ta: Transport, sa: Settings, tb: Transport, sb: Settings, es: seq<NetEvent>, more: seq<NetEvent>)
    requires !sa.isRaw && !sb.isRaw && NetRun(NetInit(ta, sa, tb, sb), es)
    requires var n := NetExec(NetInit(ta, sa, tb, sb), es);
             && AllFit(CutAtClose(n.a.sent), sb) && n.a.flushed && n.ab == []
             && n.b.outcome.Running? && n.b.phase.Open?
             && NetRun(n, more) && NeverStopsItself(EventsAtB(more))
    ensures var n := NetExec(NetInit(ta, sa, tb, sb), es);
            var t := NetExec(n, more).b;
            && Deliveries(EventsAtB(more)) <= |n.b.read|
            && if t.outcome.Running? then Enabled(t, Deliver(Done(None)))
               else HandedAll(t, CutAtClose(CanonAll(n.a.sent)))
  {
    Reached(ta, sa, tb, sb, es);
    var n := NetExec(NetInit(ta, sa, tb, sb), es);
    var cut := CutAtClose(n.a.sent);
    FlushedHasArrived(n);
    ProjectB(n, more);
    ArrivedRun(cut, n.b, EventsAtB(more));
    var t := NetExec(n, more).b;
    if t.outcome.Running? {
      CloseWithinReach(cut, t);
    } else {
      ArrivedIsHanded(cut, t);
      CutOfCanon(n.a.sent);
      EndsWithClose(t);
    }
  }

  // ---------- from the sender's queue to the peer's callbacks ----------

  function WithoutPongs(ms: seq<Message>): seq<Message> {
    if |ms| == 0 then []
    else if ms[0].Pong? then WithoutPongs(ms[1..])
    else [ms[0]] + WithoutPongs(ms[1..])
  }

  lemma {:induction false} WithoutPongsAppend(ms: seq<Message>, ns: seq<Message>)
    ensures WithoutPongs(ms + ns) == WithoutPongs(ms) + WithoutPongs(ns)
  {
    if |ms| == 0 {
      assert ms + ns == ns;
    } else {
      assert (ms + ns)[1..] == ms[1..] + ns;
      WithoutPongsAppend(ms[1..], ns);
    }
  }

  lemma {:induction false} WithoutPongsCanon(ms: seq<Message>)
    ensures WithoutPongs(CanonAll(ms)) == CanonAll(WithoutPongs(ms))
  {
    if |ms| > 0 {
      assert CanonAll(ms)[1..] == CanonAll(ms[1..]);
      WithoutPongsCanon(ms[1..]);
      var rest := WithoutPongs(ms[1..]);
      assert CanonAll([ms[0]] + rest) == [Canon(ms[0])] + CanonAll(rest);
    }
  }

  lemma {:induction false} WithoutPongsCut(ms: seq<Message>)
    ensures WithoutPongs(CutAtClose(ms)) == CutAtClose(WithoutPongs(ms))
  {
    if |ms| > 0 {
      if ms[0].Close? {
        assert CutAtClose(ms) == [ms[0]] && [ms[0]][1..] == [];
        assert WithoutPongs([ms[0]]) == [ms[0]] + WithoutPongs([]);
        assert CutAtClose(WithoutPongs(ms)) == [ms[0]];
      } else {
        WithoutPongsCut(ms[1..]);
        assert CutAtClose(ms)[1..] == CutAtClose(ms[1..]);
        if !ms[0].Pong? {
          assert WithoutPongs(ms)[1..] == WithoutPongs(ms[1..]);
        }
      }
    }
  }

  /** Apart from Pongs, a framed run encodes exactly what its commands ask for, in order. */
  lemma {:induction false} EncodesCommands(s: Conn, evs: seq<Event>)
    requires ValidRun(s, evs) && !s.settings.isRaw
    ensures WithoutPongs(EncodedOver(s, evs)) == WithoutPongs(PostedOver(evs))
    decreases |evs|
  {
    if |evs| > 0 {
      var s' := Step(s, evs[0]);
      StepConst(s, evs[0]);
      EncodesCommands(s', evs[1..]);
      WithoutPongsAppend(EncodedBy(s, evs[0]), EncodedOver(s', evs[1..]));
      WithoutPongsAppend(Posted(evs[0]), PostedOver(evs[1..]));
      EncodesOne(s, evs[0]);
    }
  }

  lemma {:induction false} EncodesOne(s: Conn, ev: Event)
    requires !s.settings.isRaw
    ensures WithoutPongs(EncodedBy(s, ev)) == WithoutPongs(Posted(ev))
  {
    if ev.Deliver? {
      assert forall data :: [Pong(data)][1..] == [];
    }
  }

  /** Apart from Pongs, what b's callbacks see is a prefix of what a's commands asked for, with
      Shutdown as its Close, Unvaid dropped, close codes in wire form, up to the first
      Close. */
  lemma {:induction false} CommandsToCallbacks(ta: Transport, sa: Settings, tb: Transport, sb: Settings, es: seq<NetEvent>)
    requires !sa.isRaw && !sb.isRaw && NetRun(NetInit(ta, sa, tb, sb), es)
    requires AllFramed(NetExec(NetInit(ta, sa, tb, sb), es).a.sent)
    ensures var b := NetExec(NetInit(ta, sa, tb, sb), es).b;
            Heard(b.callbacks) == b.delivered + ErrorHeard(b.outcome)
    ensures WithoutPongs(NetExec(NetInit(ta, sa, tb, sb), es).b.delivered)
            <= CutAtClose(CanonAll(WithoutPongs(PostedOver(EventsAtA(es)))))
  {
    var n := NetExec(NetInit(ta, sa, tb, sb), es);
    Fifo(ta, sa, tb, sb, es);
    SentIsEncoded(ta, sa, tb, sb, es);
    EncodesCommands(Init(ta, sa), EventsAtA(es));
    WithoutPongsPrefix(n.b.delivered, n.a.sent);
  }

  lemma {:induction false} WithoutPongsPrefix(ds: seq<Message>, ns: seq<Message>)
    requires ds <= CutAtClose(CanonAll(ns))
    ensures WithoutPongs(ds) <= CutAtClose(CanonAll(WithoutPongs(ns)))
  {
    var all := CutAtClose(CanonAll(ns));
    assert all == ds + all[|ds|..];
    WithoutPongsAppend(ds, all[|ds|..]);
    WithoutPongsCut(CanonAll(ns));
    WithoutPongsCanon(ns);
  }
}
