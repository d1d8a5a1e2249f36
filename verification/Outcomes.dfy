/** What a handler hears of a TCP or KCP run, and how the run ends: said in terms of the
    run's events, without the functions that make its steps. */
module Outcomes {
  import opened Bytes
  import opened Protocol
  import opened Framing
  import opened Callbacks
  import opened Channel
  import opened ChannelInvariants
  import opened ChannelRuns

  // ---------- how an event ends a run ----------

  /** The error a run fails with by an event, if it does. */
  function WhyFails(s: Conn, ev: Event): Option<NetError> {
    match ev
    case Start(accepted, ready) => if !accepted then Some(Io) else if !ready then Some(HandlerError) else None
    case ReadError => Some(Io)
    case WriteError => Some(Io)
    case Timer => if s.phase.Open? then Some(ReadTimeout) else None
    case Logic(ok) => if ok then None else Some(HandlerError)
    case Deliver(reply) =>
      (match Parse(s.read, s.settings)
       case Incomplete => Some(OverInbufferSize)
       case Malformed(e, _) => Some(e)
       case Complete(m, _) => if reply.Refused? && !m.Close? then Some(HandlerError) else None)
    case _ => None
  }

  /** A message of the peer that is a Close. */
  predicate DeliversClose(s: Conn, ev: Event) {
    && ev.Deliver?
    && var p := Parse(s.read, s.settings);
       p.Complete? && p.msg.Close?
  }

  /** The events after which a run returns without an error. */
  predicate EndsQuietly(s: Conn, ev: Event) {
    || ev.ReadEof? || ev.SendersGone? || ev.Finish?
    || (ev.Timer? && s.phase.Closing?)
    || (ev.WriteBytes? && s.transport.Kcp? && s.phase.Closing? && ev.n == |s.write|)
    || DeliversClose(s, ev)
  }

  lemma {:induction false} DeliverOutcomesExact(s: Conn, reply: Reply)
    requires s.outcome.Running?
    ensures DeliverStep(s, reply).outcome
            == match WhyFails(s, Deliver(reply))
               case Some(e) => Failed(e)
               case None => if DeliversClose(s, Deliver(reply)) then Returned else Running
  {
    hide Parse;
  }

  /** Exactly these events end a run, and with these errors. */
  lemma {:induction false} OutcomesExact(s: Conn, ev: Event)
    requires Enabled(s, ev)
    ensures Step(s, ev).outcome
            == match WhyFails(s, ev)
               case Some(e) => Failed(e)
               case None => if EndsQuietly(s, ev) then Returned else Running
  {
    hide Parse;
    match ev
    case Deliver(reply) => DeliverOutcomesExact(s, reply);
    case Command(m) => CommandOutcome(s, m);
    case _ =>
  }

  // ---------- what the handler hears ----------

  /** What a failed run adds. */
  function ErrorHeard(o: Outcome): seq<Message> {
    if o.Failed? then [Close(Error, NET_ERROR)] else []
  }

  lemma {:induction false} ErrorTailHeard(o: Outcome)
    ensures Heard(ErrorTail(o)) == ErrorHeard(o) && MessagesAreData(ErrorTail(o))
  {
    HeardOne(ERROR_CLOSE);
  }

  lemma {:induction false} OpenedThenHeard(s: Conn)
    requires AllReal(s.delivered)
    ensures var log := [OnOpen] + CallbacksOf(s.delivered);
            Heard(log) == s.delivered && MessagesAreData(log)
  {
    HeardInCallbacks(s.delivered);
    HeardAppend([OnOpen], CallbacksOf(s.delivered));
    HeardOne(OnOpen);
  }

  lemma {:induction false} InvParts(s: Conn)
    requires Inv(s)
    ensures CloseStops(s) && CallbackShape(s) && AllReal(s.delivered)
  {
    hide Parse, Encode, EncodeAll, CallbacksOf;
  }

  /** In any state that keeps the invariants the handler has heard exactly what was
      delivered, and then of the failure if there was one. */
  lemma {:induction false} StateIsHeard(s: Conn)
    requires Inv(s)
    ensures Heard(s.callbacks) == s.delivered + ErrorHeard(s.outcome)
    ensures MessagesAreData(s.callbacks)
    ensures forall i :: 0 <= i < |s.callbacks| ==>
              !s.callbacks[i].OnRequest? && (s.callbacks[i].OnOpen? ==> i == 0)
    ensures s.outcome.Running? || s.outcome.Returned? || s.delivered != [] ==>
              |s.callbacks| > 0 && s.callbacks[0].OnOpen?
  {
    hide Heard, Inv;
    InvParts(s);
    OpenedThenHeard(s);
    ErrorTailHeard(s.outcome);
    var log := [OnOpen] + CallbacksOf(s.delivered);
    HeardAppend(log, ErrorTail(s.outcome));
    assert s.delivered + [] == s.delivered && [] + ErrorHeard(s.outcome) == ErrorHeard(s.outcome);
    assert s.callbacks == log + ErrorTail(s.outcome) || s.callbacks == ErrorTail(s.outcome) by {
      assert log + [] == log;
    }
  }

  /** Over every run: first `on_open`, then for every delivered message the callback of its
      kind with its content, in order, and last the error close of a failed run. */
  lemma {:induction false} RunIsHeard(transport: Transport, settings: Settings, evs: seq<Event>)
    requires ValidRun(Init(transport, settings), evs)
    ensures var t := Exec(Init(transport, settings), evs);
            && Heard(t.callbacks) == t.delivered + ErrorHeard(t.outcome)
            && MessagesAreData(t.callbacks)
            && (forall i :: 0 <= i < |t.callbacks| ==>
                  !t.callbacks[i].OnRequest? && (t.callbacks[i].OnOpen? ==> i == 0))
            && (t.delivered != [] ==> t.callbacks[0].OnOpen?)
  {
    InitInv(transport, settings);
    ExecInv(Init(transport, settings), evs);
    StateIsHeard(Exec(Init(transport, settings), evs));
  }

  // ---------- the last callback ----------

  /** The events that make an `on_close`, with what it says. */
  function CloseHeard(s: Conn, ev: Event): Option<Message> {
    if WhyFails(s, ev).Some? then Some(Close(Error, NET_ERROR))
    else if DeliversClose(s, ev) then Some(Parse(s.read, s.settings).msg)
    else None
  }

  lemma {:induction false} DeliveredBy(s: Conn, ev: Event)
    requires Enabled(s, ev)
    ensures Step(s, ev).delivered
            == s.delivered + (if ev.Deliver? && Parse(s.read, s.settings).Complete?
                              then [Parse(s.read, s.settings).msg] else [])
  {
    hide Parse;
    assert s.delivered + [] == s.delivered;
    if !ev.Deliver? {
      InputEffect(s, ev);
    }
  }

  lemma {:induction false} DeliversCloseExactly(s: Conn, ev: Event)
    requires CloseStops(s) && Enabled(s, ev)
    ensures var ds := Step(s, ev).delivered;
            && (HasClose(ds) <==> DeliversClose(s, ev))
            && (HasClose(ds) ==>
                  Parse(s.read, s.settings).Complete? && Parse(s.read, s.settings).msg.Close?
                  && ds == s.delivered + [Parse(s.read, s.settings).msg])
  {
    DeliveredBy(s, ev);
    hide Parse, Step;
    var ds := Step(s, ev).delivered;
    assert forall i :: 0 <= i < |s.delivered| ==> !s.delivered[i].Close? by {
      assert !HasClose(s.delivered);
    }
    if DeliversClose(s, ev) {
      assert ds[|s.delivered|].Close?;
    }
  }

  /** A log that ends with the callbacks of `ds` and the tail of the outcome. */
  lemma {:induction false} LastCallback(t: Conn)
    requires CallbackShape(t) && CloseStops(t) && !t.outcome.Fresh?
    ensures t.outcome.Failed? ==>
              |t.callbacks| > 0 && t.callbacks[|t.callbacks| - 1] == OnClose(Error, NET_ERROR)
    ensures !t.outcome.Failed? && HasClose(t.delivered) ==>
              |t.callbacks| > 0 && t.callbacks[|t.callbacks| - 1] == CallbackOf(t.delivered[|t.delivered| - 1])
  {
    assert ERROR_CLOSE == OnClose(Error, NET_ERROR);
    if !t.outcome.Failed? && HasClose(t.delivered) {
      assert t.callbacks[|t.delivered|] == CallbackOf(t.delivered[|t.delivered| - 1]);
    }
  }

  /** Only the last event of a run can make an `on_close`. */
  lemma {:induction false} LastEventCloses(s: Conn, ev: Event)
    requires Inv(s) && Enabled(s, ev)
    ensures var t := Step(s, ev);
            match CloseHeard(s, ev)
            case None => !CalledClose(t.callbacks)
            case Some(m) =>
              && m.Close? && |t.callbacks| > 0 && CloseIsLast(t.callbacks)
              && t.callbacks[|t.callbacks| - 1] == OnClose(m.code, m.reason)
  {
    hide Parse, Step, Enabled, Inv, CloseStops, CallbackShape, HasClose, CalledClose, CloseIsLast, EndsQuietly;
    hide WhyFails, DeliversClose, Ascii;
    StepInv(s, ev);
    InvParts(s);
    InvParts(Step(s, ev));
    OutcomesExact(s, ev);
    DeliversCloseExactly(s, ev);
    ShapeGivesClose(Step(s, ev));
    LastCallback(Step(s, ev));
  }

  /** On every run `on_close` is called at most once, and nothing after it. It is called by the
      last event of the run, and exactly by one that delivers a Close, with its code and
      reason, or that fails the run, with the error close. In particular end of stream, a
      local close and dropped senders end a run without it. */
  lemma {:induction false} OnCloseExactly(transport: Transport, settings: Settings, evs: seq<Event>, ev: Event)
    requires ValidRun(Init(transport, settings), evs + [ev])
    ensures ValidRun(Init(transport, settings), evs)
    ensures var s := Exec(Init(transport, settings), evs);
            var t := Exec(Init(transport, settings), evs + [ev]);
            && !CalledClose(s.callbacks) && CloseIsLast(t.callbacks)
            && match CloseHeard(s, ev)
               case None => !CalledClose(t.callbacks)
               case Some(m) =>
                 m.Close? && |t.callbacks| > 0 && t.callbacks[|t.callbacks| - 1] == OnClose(m.code, m.reason)
  {
    var s0 := Init(transport, settings);
    RunAppend(s0, evs, [ev]);
    var s := Exec(s0, evs);
    assert ValidRun(s, [ev]) && [ev][1..] == [] && [ev][0] == ev;
    assert Exec(s, [ev]) == Step(s, ev);
    InitInv(transport, settings);
    ExecInv(s0, evs);
    ShapeGivesClose(s);
    LastEventCloses(s, ev);
  }

  // ---------- what a message and a command put into the write buffer ----------

  /** A Ping that the handler answers is answered with one Pong of the handler's data; no
      other delivery writes anything. */
  lemma {:induction false} DeliverWrites(s: Conn, reply: Reply)
    requires Enabled(s, Deliver(reply))
    ensures var t := Step(s, Deliver(reply));
            var p := Parse(s.read, s.settings);
            t.write == s.write + (if p.Complete? && p.msg.Ping? && reply.Done? && reply.pong.Some?
                                  then Encode(Pong(reply.pong.value), s.settings.isRaw) else [])
  {
    hide Parse;
    assert s.write + [] == s.write;
  }

  /** A command is written as it is, except that Shutdown is a Close with code 1001 and the
      reason "Shutdown", and that Unvaid writes nothing. */
  lemma {:induction false} CommandWrites(s: Conn, m: Message)
    requires Enabled(s, Command(m))
    ensures var t := Step(s, Command(m));
            && t.callbacks == s.callbacks && t.read == s.read
            && (m.Unvaid? ==> t.write == s.write)
            && (m.Shutdown? ==> t.write == s.write + Encode(Close(Away, SHUTDOWN), s.settings.isRaw)
                                && t.phase == Closing(Away, SHUTDOWN))
            && (m.Close? ==> t.phase == Closing(m.code, m.reason))
            && (!m.Unvaid? && !m.Shutdown? ==> t.write == s.write + Encode(m, s.settings.isRaw))
            && (!m.Shutdown? && !m.Close? ==> t.phase == s.phase)
  {
    hide Parse, Ascii, Encodes, DeliverStep, WriteStep;
    CommandInput(s, m);
    CommandOutcome(s, m);
    assert s.write + [] == s.write;
    if m.Shutdown? {
    } else if m.Close? {
    } else if m.Unvaid? {
    } else {
    }
  }

  // ---------- which branches are there ----------

  /** Which events a running connection has. In Open `process()` either has something to hand
      over or waits, and it waits exactly when the decoder asks for more and the buffer is
      below its limit; waiting, it reads, writes what there is, and may time out. Closing
      it only writes and times out, Closed it only returns. Commands come below the limit
      of the write buffer and `on_logic` at any time, in every phase. */
  lemma {:induction false} BranchesExactly(s: Conn, chunk: seq<byte>, n: nat, reply: Reply, m: Message, ok: bool)
    requires s.outcome.Running?
    ensures var waits := s.phase.Open? && Parse(s.read, s.settings).Incomplete? && |s.read| < s.settings.inBufferMax;
            && (Enabled(s, Deliver(reply)) <==> s.phase.Open? && !waits)
            && (Enabled(s, ReadBytes(chunk)) <==> waits && chunk != [])
            && (Enabled(s, ReadEof) <==> waits) && (Enabled(s, ReadError) <==> waits)
            && (Enabled(s, Timer) <==> waits || s.phase.Closing?)
            && (Enabled(s, WriteBytes(n)) <==> (waits || s.phase.Closing?) && 0 < n <= |s.write|)
            && (Enabled(s, WriteError) <==> (waits || s.phase.Closing?) && s.write != [])
            && (Enabled(s, Finish) <==> s.phase.Closed?)
    ensures Enabled(s, Command(m)) <==> |s.write| < s.settings.outBufferMax
    ensures Enabled(s, SendersGone) <==> |s.write| < s.settings.outBufferMax
    ensures Enabled(s, Logic(ok))
  {
    hide Parse;
  }
}
