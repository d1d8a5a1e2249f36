/** Whole runs of a TCP or KCP connection: callbacks, conservation, the closing protocol,
    termination, and the read-buffer limit. */
module ChannelRuns {
  import opened Bytes
  import opened Protocol
  import opened Framing
  import opened Callbacks
  import opened Channel
  import opened ChannelInvariants
  import opened Chunks

  // ---------- callbacks ----------

  lemma {:induction false} ShapeGivesClose(s: Conn)
    requires CallbackShape(s) && CloseStops(s)
    ensures CloseIsLast(s.callbacks)
    ensures CalledClose(s.callbacks) <==> HasClose(s.delivered) || s.outcome.Failed?
  {
    var n := |s.delivered|;
    if s.outcome.Failed? {
      assert s.callbacks[|s.callbacks| - 1] == ERROR_CLOSE;
    } else if HasClose(s.delivered) {
      var i :| 0 <= i < n && s.delivered[i].Close?;
      assert s.callbacks[i + 1] == CallbackOf(s.delivered[i]);
    }
  }

  /** On every run `on_close` is called at most once and nothing is called after it. It is
      called exactly when a Close was delivered or the run failed: end of stream, a local
      close and dropped senders end a run without it. */
  lemma {:induction false} OnCloseAtMostOnce(transport: Transport, settings: Settings, evs: seq<Event>)
    requires ValidRun(Init(transport, settings), evs)
    ensures var s := Exec(Init(transport, settings), evs);
            && CloseIsLast(s.callbacks)
            && (CalledClose(s.callbacks) <==> HasClose(s.delivered) || s.outcome.Failed?)
            && (HasClose(s.delivered) ==> s.outcome.Returned?)
  {
    InitInv(transport, settings);
    ExecInv(Init(transport, settings), evs);
    ShapeGivesClose(Exec(Init(transport, settings), evs));
  }

  /** Once a running connection has left Open, by whatever events follow it is never Open
      again, nothing is decoded, and the only callback left is the error close. */
  lemma {:induction false} NothingDeliveredAfterLocalClose(s: Conn, evs: seq<Event>)
    requires ValidRun(s, evs) && !s.phase.Open? && s.outcome.Running?
    ensures var t := Exec(s, evs);
            && !t.phase.Open? && t.delivered == s.delivered && t.read == s.read
            && t.callbacks == s.callbacks + ErrorTail(t.outcome)
    decreases |evs|
  {
    assert s.callbacks + [] == s.callbacks;
    if |evs| > 0 {
      var s' := Step(s, evs[0]);
      PhaseEffect(s, evs[0]);
      InputEffect(s, evs[0]);
      OutcomeEffect(s, evs[0]);
      if s'.outcome.Running? {
        NothingDeliveredAfterLocalClose(s', evs[1..]);
      } else {
        EndedIsFinal(s', evs[1..]);
      }
    }
  }

  lemma EndedIsFinal(s: Conn, evs: seq<Event>)
    requires ValidRun(s, evs) && !s.outcome.Running? && !s.outcome.Fresh?
    ensures evs == []
  {
  }

  // ---------- the order of phases ----------

  function Rank(p: Phase): nat {
    match p
    case Open => 0
    case Closing(_, _) => 1
    case Closed => 2
  }

  /** The phase goes back in exactly one case: a TCP connection is told to close again
      while it lingers in Closed. */
  lemma {:induction false} RankFallsExactly(s: Conn, ev: Event)
    requires Inv(s) && Enabled(s, ev)
    ensures Rank(Step(s, ev).phase) < Rank(s.phase)
            <==> s.transport.Tcp? && s.phase.Closed? && IsLocalClose(ev)
  {
    PhaseEffect(s, ev);
  }

  lemma {:induction false} EmptyCloseLength()
    ensures |Encode(Close(Normal, []), false)| == 6
  {
  }

  /** A default connection that has started and was told to close. */
  lemma {:induction false} ClosedOnce(transport: Transport) returns (evs: seq<Event>)
    ensures var s0 := Init(transport, DEFAULT_SETTINGS);
            && ValidRun(s0, evs)
            && var s := Exec(s0, evs);
               && s.outcome.Running? && s.phase == Closing(Normal, []) && s.settings == DEFAULT_SETTINGS
               && s.transport == transport && s.written == [] && s.sent == [Close(Normal, [])]
               && s.write == Encode(Close(Normal, []), false) && |s.write| == 6
  {
    hide DeliverStep, WriteStep, Idle, Encode, Ascii;
    EmptyCloseLength();
    var s0 := Init(transport, DEFAULT_SETTINGS);
    var start, close := Start(true, true), Command(Close(Normal, []));
    var s2 := Step(Step(s0, start), close);
    assert s2.write == [] + Encode(Close(Normal, []), false) == Encode(Close(Normal, []), false);
    assert ValidRun(s0, []) && Exec(s0, []) == s0;
    ExecSnoc(s0, [], start);
    ExecSnoc(s0, [] + [start], close);
    evs := [] + [start] + [close];
  }

  lemma {:induction false} TcpLingers() returns (evs: seq<Event>)
    ensures var s0 := Init(Tcp, DEFAULT_SETTINGS);
            && ValidRun(s0, evs)
            && Exec(s0, evs).phase.Closed? && Exec(s0, evs).outcome.Running?
            && Exec(s0, evs).write == [] && Exec(s0, evs).settings == DEFAULT_SETTINGS
  {
    hide Idle, DeliverStep, CommandStep, Encode;
    evs := ClosedOnce(Tcp);
    ExecSnoc(Init(Tcp, DEFAULT_SETTINGS), evs, WriteBytes(6));
    evs := evs + [WriteBytes(6)];
  }

  /** The case occurs: a default TCP connection that closes, empties its buffer and is
      told to close again is back in Closing. */
  lemma {:induction false} TcpFallsBackToClosing() returns (evs: seq<Event>, ev: Event)
    ensures var s0 := Init(Tcp, DEFAULT_SETTINGS);
            && ValidRun(s0, evs) && Exec(s0, evs).phase.Closed?
            && ValidRun(s0, evs + [ev]) && Exec(s0, evs + [ev]).phase.Closing?
  {
    evs := TcpLingers();
    ev := Command(Close(Normal, []));
    ExecSnoc(Init(Tcp, DEFAULT_SETTINGS), evs, ev);
    PhaseEffect(Exec(Init(Tcp, DEFAULT_SETTINGS), evs), ev);
  }

  /** Over a KCP run the phase never goes back. */
  lemma {:induction false} KcpRankNeverFalls(s: Conn, evs: seq<Event>)
    requires Inv(s) && s.transport.Kcp? && ValidRun(s, evs)
    ensures Rank(s.phase) <= Rank(Exec(s, evs).phase)
    decreases |evs|
  {
    if |evs| > 0 {
      RankFallsExactly(s, evs[0]);
      StepInv(s, evs[0]);
      StepConst(s, evs[0]);
      KcpRankNeverFalls(Step(s, evs[0]), evs[1..]);
    }
  }

  lemma {:induction false} StepConst(s: Conn, ev: Event)
    requires Enabled(s, ev)
    ensures Step(s, ev).settings == s.settings && Step(s, ev).transport == s.transport
  {
    if !ev.WriteBytes? {
      OutputEffect(s, ev);
    }
  }

  // ---------- histories are what the events did ----------

  function ChunkOf(ev: Event): seq<byte> {
    if ev.ReadBytes? then ev.chunk else []
  }

  function ChunksRead(evs: seq<Event>): seq<byte> {
    if |evs| == 0 then [] else ChunkOf(evs[0]) + ChunksRead(evs[1..])
  }

  /** The message an event passes to the encoder, when the encoder writes it. */
  function EncodedBy(s: Conn, ev: Event): seq<Message> {
    match Pushed(s, ev)
    case Some(m) => if Encodes(m, s.settings.isRaw) then [m] else []
    case None => []
  }

  function EncodedOver(s: Conn, evs: seq<Event>): seq<Message>
    requires ValidRun(s, evs)
    decreases |evs|
  {
    if |evs| == 0 then [] else EncodedBy(s, evs[0]) + EncodedOver(Step(s, evs[0]), evs[1..])
  }

  /** What a command taken from the queue asks the encoder to print. */
  function Asked(m: Message): seq<Message> {
    match m
    case Shutdown => [Close(Away, SHUTDOWN)]
    case Unvaid => []
    case _ => [m]
  }

  function AskedAll(ms: seq<Message>): seq<Message> {
    if |ms| == 0 then [] else Asked(ms[0]) + AskedAll(ms[1..])
  }

  function Posted(ev: Event): seq<Message> {
    if ev.Command? then Asked(ev.msg) else []
  }

  function PostedOver(evs: seq<Event>): seq<Message> {
    if |evs| == 0 then [] else Posted(evs[0]) + PostedOver(evs[1..])
  }

  function CommandsOf(evs: seq<Event>): seq<Message> {
    if |evs| == 0 then [] else (if evs[0].Command? then [evs[0].msg] else []) + CommandsOf(evs[1..])
  }

  lemma {:induction false} PostedIsAsked(evs: seq<Event>)
    ensures PostedOver(evs) == AskedAll(CommandsOf(evs))
  {
    if |evs| > 0 {
      PostedIsAsked(evs[1..]);
      if evs[0].Command? {
        assert CommandsOf(evs)[1..] == CommandsOf(evs[1..]);
      } else {
        assert CommandsOf(evs) == CommandsOf(evs[1..]);
        assert PostedOver(evs) == PostedOver(evs[1..]);
      }
    }
  }

  lemma {:induction false} StepHistories(s: Conn, ev: Event)
    requires Enabled(s, ev)
    ensures Step(s, ev).settings == s.settings && Step(s, ev).transport == s.transport
    ensures Step(s, ev).sent == s.sent + EncodedBy(s, ev)
    ensures Step(s, ev).received == s.received + ChunkOf(ev)
  {
    assert s.sent + [] == s.sent && s.received + [] == s.received;
    StepConst(s, ev);
    if ev.Deliver? {
      DeliverOutput(s, ev.reply);
      DeliverReceives(s, ev.reply);
    } else {
      InputEffect(s, ev);
      if !ev.WriteBytes? {
        OutputEffect(s, ev);
      }
    }
  }

  lemma {:induction false} DeliverReceives(s: Conn, reply: Reply)
    ensures DeliverStep(s, reply).received == s.received
  {
  }

  lemma {:induction false} RunHistories(s: Conn, evs: seq<Event>)
    requires ValidRun(s, evs)
    ensures var t := Exec(s, evs);
            && t.settings == s.settings && t.transport == s.transport
            && t.sent == s.sent + EncodedOver(s, evs)
            && t.received == s.received + ChunksRead(evs)
    decreases |evs|
  {
    if |evs| == 0 {
      assert s.sent + [] == s.sent && s.received + [] == s.received;
    } else {
      var s' := Step(s, evs[0]);
      StepHistories(s, evs[0]);
      RunHistories(s', evs[1..]);
      ConcatAssoc(s.sent, EncodedBy(s, evs[0]), EncodedOver(s', evs[1..]));
      ConcatAssoc(s.received, ChunkOf(evs[0]), ChunksRead(evs[1..]));
    }
  }

  /** Byte conservation and cancel safety, in framed and in raw mode: after every run from
      the start, whatever was cancelled, the messages passed to the encoder are the bytes
      written and the write buffer, and the bytes read are the messages delivered and the
      read buffer; only a failed run has dropped bytes. */
  lemma {:induction false} RunConserves(transport: Transport, settings: Settings, evs: seq<Event>)
    requires ValidRun(Init(transport, settings), evs)
    ensures var s := Init(transport, settings);
            var t := Exec(s, evs);
            && EncodeAll(EncodedOver(s, evs), settings.isRaw) == t.written + t.write
            && EncodeAll(t.delivered, settings.isRaw) <= ChunksRead(evs)
            && (!t.outcome.Failed? ==> ChunksRead(evs) == EncodeAll(t.delivered, settings.isRaw) + t.read)
  {
    var s := Init(transport, settings);
    InitInv(transport, settings);
    ExecInv(s, evs);
    RunHistories(s, evs);
    assert [] + EncodedOver(s, evs) == EncodedOver(s, evs) && [] + ChunksRead(evs) == ChunksRead(evs);
  }

  // ---------- only the bytes matter ----------

  /** Decoding the encodings of canonical messages that fit gives them back, and goes on
      with what follows. */
  lemma {:induction false} DrainEncoded(ms: seq<Message>, tail: seq<byte>, settings: Settings)
    requires !settings.isRaw && AllFit(ms, settings) && AllEncode(ms, false)
    requires forall i :: 0 <= i < |ms| ==> Canon(ms[i]) == ms[i]
    ensures DrainAll(EncodeAll(ms, false) + tail, settings) == Prepend(ms, DrainAll(tail, settings))
  {
    if |ms| == 0 {
      assert [] + tail == tail;
      PrependNothing(DrainAll(tail, settings));
    } else {
      hide Parse, Encode, DrainAll;
      var head, rest := Encode(ms[0], false), EncodeAll(ms[1..], false) + tail;
      ConcatAssoc(head, EncodeAll(ms[1..], false), tail);
      RoundTripExact(ms[0], rest, settings);
      DrainOne(head + rest, ms[0], |head|, settings);
      assert (head + rest)[|head|..] == rest;
      DrainEncoded(ms[1..], tail, settings);
      PrependTwice([ms[0]], ms[1..], DrainAll(tail, settings));
      assert [ms[0]] + ms[1..] == ms;
    }
  }

  /** A framed run that waits for input has decoded all that can be decoded of the bytes it
      has read. */
  lemma {:induction false} IdleHasDrained(transport: Transport, settings: Settings, evs: seq<Event>)
    requires !settings.isRaw && ValidRun(Init(transport, settings), evs)
    requires Exec(Init(transport, settings), evs).outcome.Running? && Idle(Exec(Init(transport, settings), evs))
    ensures var t := Exec(Init(transport, settings), evs);
            DrainAll(ChunksRead(evs), settings) == Waiting(t.delivered, t.read)
  {
    var s := Init(transport, settings);
    var t := Exec(s, evs);
    InitInv(transport, settings);
    ExecInv(s, evs);
    RunHistories(s, evs);
    RunConserves(transport, settings, evs);
    DrainEncoded(t.delivered, t.read, settings);
    assert t.delivered + [] == t.delivered;
  }

  /** So two runs that have read the same bytes, in whatever pieces and among whatever other
      events, and wait for more, have delivered the same messages and hold the same
      undecided bytes. */
  lemma {:induction false} DeliveryDependsOnBytesOnly(
      transport: Transport, settings: Settings, evs: seq<Event>, transport': Transport, evs': seq<Event>)
    requires !settings.isRaw
    requires ValidRun(Init(transport, settings), evs) && ValidRun(Init(transport', settings), evs')
    requires ChunksRead(evs) == ChunksRead(evs')
    requires var t := Exec(Init(transport, settings), evs); t.outcome.Running? && Idle(t)
    requires var t' := Exec(Init(transport', settings), evs'); t'.outcome.Running? && Idle(t')
    ensures var t, t' := Exec(Init(transport, settings), evs), Exec(Init(transport', settings), evs');
            t.delivered == t'.delivered && t.read == t'.read && t.callbacks == t'.callbacks
  {
    IdleHasDrained(transport, settings, evs);
    IdleHasDrained(transport', settings, evs');
    InitInv(transport, settings);
    ExecInv(Init(transport, settings), evs);
    InitInv(transport', settings);
    ExecInv(Init(transport', settings), evs');
  }

  // ---------- termination after close ----------

  /** An upper bound for the steps left without the environment's help. */
  function StepsLeft(s: Conn): nat {
    if s.outcome.Running? then |s.write| + 1 else 0
  }

  /** What an event of the environment, a command or an `on_logic` completion, may add. */
  function EventCost(ev: Event, raw: bool): nat {
    match ev
    case Command(Shutdown) => 1 + |Encode(Close(Away, SHUTDOWN), raw)|
    case Command(m) => 1 + |Encode(m, raw)|
    case Logic(_) => 1
    case _ => 0
  }

  function RunCost(evs: seq<Event>, raw: bool): nat {
    if |evs| == 0 then 0 else EventCost(evs[0], raw) + RunCost(evs[1..], raw)
  }

  lemma {:induction false} ClosingStepCosts(s: Conn, ev: Event)
    requires Enabled(s, ev) && !s.phase.Open? && s.outcome.Running?
    ensures StepsLeft(Step(s, ev)) + 1 <= StepsLeft(s) + EventCost(ev, s.settings.isRaw)
  {
    if ev.WriteBytes? {
    } else {
      OutputEffect(s, ev);
      OutcomeEffect(s, ev);
      match ev
      case Command(m) => CommandOutcome(s, m);
      case _ =>
    }
  }

  /** A connection that has left Open terminates: the length of every run from there is
      bounded by the write buffer and by what the environment does, the TCP fall back from
      Closed to Closing included. */
  lemma {:induction false} ClosingTerminates(s: Conn, evs: seq<Event>)
    requires ValidRun(s, evs) && !s.phase.Open? && s.outcome.Running?
    ensures |evs| + StepsLeft(Exec(s, evs)) <= StepsLeft(s) + RunCost(evs, s.settings.isRaw)
    decreases |evs|
  {
    if |evs| > 0 {
      var s' := Step(s, evs[0]);
      ClosingStepCosts(s, evs[0]);
      PhaseEffect(s, evs[0]);
      StepConst(s, evs[0]);
      OutcomeEffect(s, evs[0]);
      if s'.outcome.Running? {
        ClosingTerminates(s', evs[1..]);
      } else {
        EndedIsFinal(s', evs[1..]);
        assert RunCost(evs[1..], s.settings.isRaw) == 0;
      }
    }
  }

  /** And it is never stuck: the timer of Closing, or the return from Closed, is always
      there to end the run. */
  lemma {:induction false} ClosingCanEnd(s: Conn)
    requires !s.phase.Open? && s.outcome.Running?
    ensures var ev := if s.phase.Closed? then Finish else Timer;
            Enabled(s, ev) && Step(s, ev).outcome.Returned?
  {
  }

  // ---------- the read-buffer limit ----------

  ghost predicate CanOverflow(transport: Transport, settings: Settings) {
    exists evs :: ValidRun(Init(transport, settings), evs)
                  && Exec(Init(transport, settings), evs).outcome == Failed(OverInbufferSize)
  }

  /** Some run overflows the read buffer exactly when the limit is below what an undecided
      decoder may hold; with the default settings none does. */
  lemma {:induction false} OverflowExactly(transport: Transport, settings: Settings)
    ensures CanOverflow(transport, settings) <==> settings.inBufferMax < ReadBound(settings)
    ensures !CanOverflow(transport, DEFAULT_SETTINGS)
  {
    if settings.inBufferMax < ReadBound(settings) {
      OverflowWitness(transport, settings);
    }
    OverflowHasBound(transport, settings);
    OverflowHasBound(transport, DEFAULT_SETTINGS);
  }

  lemma {:induction false} OverflowHasBound(transport: Transport, settings: Settings)
    ensures CanOverflow(transport, settings) ==> settings.inBufferMax < ReadBound(settings)
  {
    if CanOverflow(transport, settings) {
      var evs :| ValidRun(Init(transport, settings), evs)
                 && Exec(Init(transport, settings), evs).outcome == Failed(OverInbufferSize);
      InitInv(transport, settings);
      ExecInv(Init(transport, settings), evs);
      RunHistories(Init(transport, settings), evs);
    }
  }

  lemma {:induction false} EmptyIsIncomplete(settings: Settings)
    ensures Parse([], settings).Incomplete?
  {
  }

  lemma {:induction false} OverflowWitness(transport: Transport, settings: Settings)
    requires settings.inBufferMax < ReadBound(settings)
    ensures CanOverflow(transport, settings)
  {
    var s0 := Init(transport, settings);
    hide Parse, Encode;
    EmptyIsIncomplete(settings);
    var chunk := IncompleteOfAnyLength(settings.inBufferMax, settings);
    var start, deliver := Start(true, true), Deliver(Done(None));
    var s1 := Step(s0, start);
    assert ValidRun(s0, []) && Exec(s0, []) == s0;
    ExecSnoc(s0, [], start);
    assert [] + [start] == [start];
    if chunk == [] {
      assert s1.read == [];
      ExecSnoc(s0, [start], deliver);
      assert Exec(s0, [start] + [deliver]).outcome == Failed(OverInbufferSize);
    } else {
      var s2 := Step(s1, ReadBytes(chunk));
      assert s2.read == chunk;
      ExecSnoc(s0, [start], ReadBytes(chunk));
      ExecSnoc(s0, [start] + [ReadBytes(chunk)], deliver);
      assert Exec(s0, [start] + [ReadBytes(chunk)] + [deliver]).outcome == Failed(OverInbufferSize);
    }
  }
}
