/** What every step of a TCP or KCP connection keeps, and what follows for whole runs. */
module ChannelInvariants {
  import opened Bytes
  import opened Protocol
  import opened Framing
  import opened Callbacks
  import opened Channel

  /** Everything the encoder was given is on the stream or in the write buffer. */
  ghost predicate WriteConserved(s: Conn) {
    && EncodeAll(s.sent, s.settings.isRaw) == s.written + s.write
    && AllEncode(s.sent, s.settings.isRaw)
  }

  /** Everything received is decoded or in the read buffer, as long as the run has not
      failed; a failing decode drops bytes, but what was decoded stays a prefix. */
  ghost predicate ReadConserved(s: Conn) {
    && EncodeAll(s.delivered, s.settings.isRaw) <= s.received
    && (!s.outcome.Failed? ==> s.received == EncodeAll(s.delivered, s.settings.isRaw) + s.read)
  }

  ghost predicate DeliveredCanonical(s: Conn) {
    forall i :: 0 <= i < |s.delivered| ==>
      && Canon(s.delivered[i]) == s.delivered[i]
      && Encodes(s.delivered[i], s.settings.isRaw)
      && (!s.settings.isRaw ==> Fits(s.delivered[i], s.settings))
  }

  /** A delivered Close is the last message, and the run has returned with it. */
  ghost predicate CloseStops(s: Conn) {
    && CloseEnds(s.delivered)
    && (HasClose(s.delivered) ==> s.outcome.Returned?)
  }

  /** The callbacks are `on_open`, one per delivered message, and the error close. */
  ghost predicate CallbackShape(s: Conn) {
    match s.outcome
    case Fresh => s.callbacks == [] && s.delivered == []
    case Running => s.callbacks == [OnOpen] + CallbacksOf(s.delivered)
    case Returned => s.callbacks == [OnOpen] + CallbacksOf(s.delivered)
    case Failed(_) =>
      || s.callbacks == [OnOpen] + CallbacksOf(s.delivered) + [ERROR_CLOSE]
      || (s.callbacks == [ERROR_CLOSE] && s.delivered == [])
  }

  function CutAtClose(ms: seq<Message>): seq<Message> {
    if |ms| == 0 then [] else if ms[0].Close? then [ms[0]] else [ms[0]] + CutAtClose(ms[1..])
  }

  /** A framed connection that left Open has encoded a Close, and once a Closing write
      branch has emptied the buffer everything up to the first Close is on the stream. */
  ghost predicate CloseIsSent(s: Conn) {
    && (!s.settings.isRaw && !s.phase.Open? ==> HasClose(s.sent))
    && (!s.settings.isRaw && s.flushed ==>
          HasClose(s.sent) && EncodeAll(CutAtClose(s.sent), false) <= s.written)
    && (s.flushed ==> !s.phase.Open?)
  }

  /** A KCP connection is never left running in Closed. */
  ghost predicate KcpClosedEnds(s: Conn) {
    s.transport.Kcp? && s.phase.Closed? ==> !s.outcome.Running? && !s.outcome.Fresh?
  }

  ghost predicate OverflowHasCause(s: Conn) {
    s.outcome == Failed(OverInbufferSize) ==> s.settings.inBufferMax < ReadBound(s.settings)
  }

  ghost predicate Inv(s: Conn) {
    && WriteConserved(s) && ReadConserved(s) && DeliveredCanonical(s)
    && CloseStops(s) && CallbackShape(s) && CloseIsSent(s)
    && KcpClosedEnds(s) && OverflowHasCause(s)
  }

  // ---------- cutting at the first Close ----------

  lemma {:induction false} CutIsPrefix(ms: seq<Message>)
    ensures CutAtClose(ms) <= ms
    ensures CloseEnds(CutAtClose(ms))
    ensures HasClose(ms) <==> HasClose(CutAtClose(ms))
    ensures !HasClose(ms) ==> CutAtClose(ms) == ms
  {
    if |ms| > 0 && !ms[0].Close? {
      CutIsPrefix(ms[1..]);
      var c, d := CutAtClose(ms), CutAtClose(ms[1..]);
      assert ms == [ms[0]] + ms[1..] && c == [ms[0]] + d;
      forall i | 0 <= i < |c| && c[i].Close? ensures i == |c| - 1 {
        assert c[i] == d[i - 1];
      }
      if HasClose(ms) {
        var i :| 0 <= i < |ms| && ms[i].Close?;
        assert ms[1..][i - 1].Close?;
        var j :| 0 <= j < |d| && d[j].Close?;
        assert c[j + 1].Close?;
      }
    } else if |ms| > 0 {
      assert CutAtClose(ms)[0].Close?;
    }
  }

  /** Messages after the first Close do not move the cut. */
  lemma {:induction false} CutIgnoresLater(ms: seq<Message>, more: seq<Message>)
    requires HasClose(ms)
    ensures CutAtClose(ms + more) == CutAtClose(ms)
  {
    if !ms[0].Close? {
      var i :| 0 <= i < |ms| && ms[i].Close?;
      assert ms[1..][i - 1].Close?;
      assert (ms + more)[1..] == ms[1..] + more;
      CutIgnoresLater(ms[1..], more);
    }
  }

  lemma EncodeCutIsPrefix(ms: seq<Message>)
    ensures EncodeAll(CutAtClose(ms), false) <= EncodeAll(ms, false)
  {
    CutIsPrefix(ms);
    var c := CutAtClose(ms);
    assert ms == c + ms[|c|..];
    EncodeAllAppend(c, ms[|c|..], false);
  }

  // ---------- one step ----------

  lemma {:induction false} PushConserves(s: Conn, m: Message)
    requires WriteConserved(s)
    ensures WriteConserved(Push(s, m))
  {
    var raw := s.settings.isRaw;
    EncodeAllSnoc(s.sent, m, raw);
    ConcatAssoc(s.written, s.write, Encode(m, raw));
    if !Encodes(m, raw) {
      assert Encode(m, raw) == [];
    }
  }

  lemma {:induction false} StepWriteConserved(s: Conn, ev: Event)
    requires WriteConserved(s) && Enabled(s, ev)
    ensures WriteConserved(Step(s, ev))
  {
    if ev.WriteBytes? {
      ConcatAssoc(s.written, s.write[..ev.n], s.write[ev.n..]);
      assert s.write == s.write[..ev.n] + s.write[ev.n..];
    } else {
      OutputEffect(s, ev);
      if Pushed(s, ev).Some? {
        PushConserves(s, Pushed(s, ev).value);
      }
    }
  }

  lemma {:induction false} DeliverReadConserved(s: Conn, reply: Reply)
    requires ReadConserved(s) && s.outcome.Running?
    ensures ReadConserved(DeliverStep(s, reply))
  {
    var raw := s.settings.isRaw;
    var p := Parse(s.read, s.settings);
    if p.Complete? {
      OnlyCanonicalFrames(s.read, s.settings);
      EncodeAllSnoc(s.delivered, p.msg, raw);
      ConcatAssoc(EncodeAll(s.delivered, raw), s.read[..p.used], s.read[p.used..]);
      assert s.read == s.read[..p.used] + s.read[p.used..];
    }
  }

  lemma {:induction false} StepReadConserved(s: Conn, ev: Event)
    requires ReadConserved(s) && Enabled(s, ev)
    ensures ReadConserved(Step(s, ev))
  {
    if ev.Deliver? {
      DeliverReadConserved(s, ev.reply);
    } else {
      InputEffect(s, ev);
      OutcomeEffect(s, ev);
      ConcatAssoc(EncodeAll(s.delivered, s.settings.isRaw), s.read, if ev.ReadBytes? then ev.chunk else []);
    }
  }

  lemma {:induction false} DeliverKeeps(s: Conn, reply: Reply)
    requires DeliveredCanonical(s) && CloseStops(s) && CallbackShape(s) && s.outcome.Running?
    ensures var s' := DeliverStep(s, reply);
            DeliveredCanonical(s') && CloseStops(s') && CallbackShape(s')
  {
    var p := Parse(s.read, s.settings);
    if p.Complete? {
      OnlyCanonicalFrames(s.read, s.settings);
      var s' := DeliverStep(s, reply);
      assert s'.delivered == s.delivered + [p.msg];
      assert CallbacksOf(s'.delivered) == CallbacksOf(s.delivered) + [CallbackOf(p.msg)];
      ConcatAssoc([OnOpen], CallbacksOf(s.delivered), [CallbackOf(p.msg)]);
      assert forall i :: 0 <= i < |s.delivered| ==> !s.delivered[i].Close?;
    }
  }

  lemma {:induction false} StepDelivered(s: Conn, ev: Event)
    requires DeliveredCanonical(s) && CloseStops(s) && CallbackShape(s) && Enabled(s, ev)
    ensures var s' := Step(s, ev);
            DeliveredCanonical(s') && CloseStops(s') && CallbackShape(s')
  {
    if ev.Deliver? {
      DeliverKeeps(s, ev.reply);
    } else {
      InputEffect(s, ev);
      OutcomeEffect(s, ev);
      assert CallbacksOf([]) == [];
    }
  }

  lemma {:induction false} StepCloseIsSent(s: Conn, ev: Event)
    requires CloseIsSent(s) && WriteConserved(s) && Enabled(s, ev)
    ensures CloseIsSent(Step(s, ev))
  {
    var s' := Step(s, ev);
    StepWriteConserved(s, ev);
    PhaseEffect(s, ev);
    if ev.WriteBytes? {
      EncodeCutIsPrefix(s.sent);
    } else {
      OutputEffect(s, ev);
      if s'.sent != s.sent {
        var m := Pushed(s, ev).value;
        if HasClose(s.sent) {
          CutIgnoresLater(s.sent, [m]);
          var i :| 0 <= i < |s.sent| && s.sent[i].Close?;
          assert s'.sent[i].Close?;
        }
        if m.Close? {
          assert s'.sent[|s.sent|].Close?;
        }
      }
    }
  }

  lemma {:induction false} StepRest(s: Conn, ev: Event)
    requires KcpClosedEnds(s) && OverflowHasCause(s) && Enabled(s, ev)
    ensures KcpClosedEnds(Step(s, ev)) && OverflowHasCause(Step(s, ev))
  {
    PhaseEffect(s, ev);
    if ev.Deliver? {
      DeliverOutcome(s, ev.reply);
      if Parse(s.read, s.settings).Incomplete? {
        IncompleteIsSmall(s.read, s.settings);
      }
    } else {
      OutcomeEffect(s, ev);
    }
  }

  lemma {:induction false} StepInv(s: Conn, ev: Event)
    requires Inv(s) && Enabled(s, ev)
    ensures Inv(Step(s, ev))
  {
    StepWriteConserved(s, ev);
    StepReadConserved(s, ev);
    StepDelivered(s, ev);
    StepCloseIsSent(s, ev);
    StepRest(s, ev);
  }

  lemma {:induction false} InitInv(transport: Transport, settings: Settings)
    ensures Inv(Init(transport, settings))
  {
  }

  lemma {:induction false} ExecInv(s: Conn, evs: seq<Event>)
    requires Inv(s) && ValidRun(s, evs)
    ensures Inv(Exec(s, evs))
    decreases |evs|
  {
    if |evs| > 0 {
      StepInv(s, evs[0]);
      ExecInv(Step(s, evs[0]), evs[1..]);
    }
  }
}
