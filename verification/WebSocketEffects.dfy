/** What the events of a WebSocket connection come to, for the handler and for the write
    buffer: said in terms of the events, without the functions that make the steps. */
module WebSocketEffects {
  import opened Bytes
  import opened Protocol
  import opened Callbacks
  import opened WebSocket
  import opened WebSocketRuns
  import opened WebSocketResults

  // ---------- conversions ----------

  /** The two conversions keep the kind of a message and its content. */
  lemma ConversionsKeep(m: Message, o: Owned)
    ensures match m
            case Text(text) => ToOwned(m) == OwnedText(text)
            case Binary(data) => ToOwned(m) == OwnedBinary(data)
            case Close(code, reason) => ToOwned(m) == OwnedClose(Some(CloseData(CodeToU16(code), reason)))
            case Ping(data) => ToOwned(m) == OwnedPing(data)
            case Pong(data) => ToOwned(m) == OwnedPong(data)
            case _ => ToOwned(m) == OwnedClose(None)
    ensures match o
            case OwnedText(text) => FromOwned(o) == Text(text)
            case OwnedBinary(data) => FromOwned(o) == Binary(data)
            case OwnedClose(Some(c)) =>
              FromOwned(o).Close? && CodeToU16(FromOwned(o).code) == c.status && FromOwned(o).reason == c.reason
            case OwnedClose(None) => FromOwned(o) == Close(Normal, [])
            case OwnedPing(data) => FromOwned(o) == Ping(data)
            case OwnedPong(data) => FromOwned(o) == Pong(data)
  {
  }

  // ---------- what a frame, a command and a handshake do ----------

  /** The callbacks a step adds, when its reply may still refuse. */
  ghost predicate Calls(s: Conn, t: Conn, c: Callback, refused: bool) {
    && t.callbacks == s.callbacks + [c] + (if refused then [OnClose(Error, NET_ERROR)] else [])
    && t.outcome == if refused then Failed(HandlerError) else Running
  }

  /** The frames a step adds. */
  ghost predicate Queues(s: Conn, t: Conn, fs: seq<Out>) {
    t.queued == s.queued + fs
  }

  lemma {:induction false} NoFrames(s: Conn)
    ensures s.queued + [] == s.queued
  {
  }

  lemma {:induction false} MessageIsHandled(s: Conn, m: Message, reply: Reply)
    requires s.outcome.Running? && !m.Shutdown? && !m.Unvaid?
    ensures var t := OnMsg(s, m, reply);
            match m
            case Text(text) => Calls(s, t, OnMessage(Text(text)), reply.Refused?) && Queues(s, t, [])
            case Binary(data) => Calls(s, t, OnMessage(Binary(data)), reply.Refused?) && Queues(s, t, [])
            case Ping(data) =>
              && Calls(s, t, OnPing(data), reply.Refused?)
              && Queues(s, t, if reply.Done? && reply.pong.Some? then [FrameOut(OwnedPong(reply.pong.value))] else [])
            case Pong(data) => Calls(s, t, OnPong(data), reply.Refused?) && Queues(s, t, [])
            case Close(code, reason) =>
              && t.outcome == Returned && t.callbacks == s.callbacks + [OnClose(code, reason)] && Queues(s, t, [])
            case _ => true
  {
    hide Ascii;
    assert s.queued + [] == s.queued;
    assert s.callbacks + [CallbackOf(m)] + [] == s.callbacks + [CallbackOf(m)];
    assert ERROR_CLOSE == OnClose(Error, NET_ERROR);
    if m.Ping? {
    } else if m.Close? {
    } else {
    }
  }

  /** What the other side sends is told to the handler in the callback of its kind, and only
      an answered Ping is answered, with one Pong of the handler's data. */
  lemma {:induction false} FrameIsHandled(s: Conn, o: Owned, reply: Reply)
    requires Enabled(s, Frame(o, reply))
    ensures var t := Step(s, Frame(o, reply));
            match o
            case OwnedText(text) => Calls(s, t, OnMessage(Text(text)), reply.Refused?) && Queues(s, t, [])
            case OwnedBinary(data) => Calls(s, t, OnMessage(Binary(data)), reply.Refused?) && Queues(s, t, [])
            case OwnedPing(data) =>
              && Calls(s, t, OnPing(data), reply.Refused?)
              && Queues(s, t, if reply.Done? && reply.pong.Some? then [FrameOut(OwnedPong(reply.pong.value))] else [])
            case OwnedPong(data) => Calls(s, t, OnPong(data), reply.Refused?) && Queues(s, t, [])
            case OwnedClose(c) =>
              && t.outcome == Returned && Queues(s, t, [])
              && exists code, reason ::
                   && t.callbacks == s.callbacks + [OnClose(code, reason)]
                   && CodeToU16(code) == (if c.Some? then c.value.status else 1000)
                   && reason == if c.Some? then c.value.reason else []
  {
    ConversionsKeep(Shutdown, o);
    MessageIsHandled(s, FromOwned(o), reply);
    hide OnMsg, Ascii;
    if o.OwnedClose? {
      var m := FromOwned(o);
      assert m.Close?;
    }
  }

  /** A command queues its own frame, in any state; a close queues a Close frame from Open
      only, and so does Shutdown, with code 1000 and the reason "Shutdown". No callback is
      made. */
  lemma {:induction false} CommandIsQueued(s: Conn, m: Message)
    requires Enabled(s, Command(m))
    ensures var t := Step(s, Command(m));
            && t.callbacks == s.callbacks && t.outcome == s.outcome
            && match m
               case Text(text) => Queues(s, t, [FrameOut(OwnedText(text))])
               case Binary(data) => Queues(s, t, [FrameOut(OwnedBinary(data))])
               case Ping(data) => Queues(s, t, [FrameOut(OwnedPing(data))])
               case Pong(data) => Queues(s, t, [FrameOut(OwnedPong(data))])
               case Unvaid => Queues(s, t, [FrameOut(OwnedClose(None))])
               case Close(code, reason) =>
                 Queues(s, t, if s.state.WsOpen? then [CloseFrame(CodeToU16(code), reason)] else [])
               case Shutdown =>
                 Queues(s, t, if s.state.WsOpen? then [CloseFrame(1000, SHUTDOWN)] else [])
  {
    CommandQuiet(s, m);
    ConversionsKeep(m, OwnedClose(None));
    match m
    case Close(code, reason) => CloseIsQueued(s, code, reason);
    case Shutdown => CloseIsQueued(s, Normal, SHUTDOWN);
    case _ =>
  }

  function CloseFrame(status: u16, reason: Str): Out {
    FrameOut(OwnedClose(Some(CloseData(status, reason))))
  }

  lemma {:induction false} CloseIsQueued(s: Conn, code: CloseCode, reason: Str)
    ensures Queues(s, LocalClose(s, code, reason),
                   if s.state.WsOpen? then [CloseFrame(CodeToU16(code), reason)] else [])
  {
    assert s.queued + [] == s.queued;
  }

  /** A server shows the handler the request and sends its answer; one other than a 101 is
      followed by a Close with code 1000. A client calls nobody and sends nothing. */
  lemma {:induction false} HandshakeIsAnswered(s: Conn, status: nat, reply: Reply)
    requires Control(s) && Enabled(s, Handshake(status, reply))
    ensures var t := Step(s, Handshake(status, reply));
            if s.side.Client? then
              && Queues(s, t, [])
              && t.callbacks == s.callbacks + (if status != 101 then [OnClose(Error, NET_ERROR)] else [])
            else
              && Calls(s, t, OnRequest, reply.Refused?)
              && Queues(s, t, if reply.Refused? then []
                              else [HttpResponse(status)]
                                   + (if status != 101 then [CloseFrame(1000, HANDSHAKE_FAILED)] else []))
  {
    HandshakeIs(s, status, reply);
    hide HandshakeStep, HandshakeResult, CloseFrame, Ascii;
    assert Step(s, Handshake(status, reply)) == HandshakeResult(s, status, reply);
    hide Step;
    if s.side.Client? {
      ClientAnswers(s, status, reply);
    } else if reply.Refused? {
      RequestRefused(s, status);
    } else {
      ServerAnswers(s, status, reply);
    }
  }

  lemma {:induction false} ClientAnswers(s: Conn, status: nat, reply: Reply)
    requires s.side.Client?
    ensures var t := HandshakeResult(s, status, reply);
            && Queues(s, t, [])
            && t.callbacks == s.callbacks + (if status != 101 then [OnClose(Error, NET_ERROR)] else [])
  {
    hide Ascii;
    assert s.queued + [] == s.queued && s.callbacks + [] == s.callbacks;
  }

  lemma {:induction false} RequestRefused(s: Conn, status: nat)
    requires s.side.Server?
    ensures var t := HandshakeResult(s, status, Refused);
            Calls(s, t, OnRequest, true) && Queues(s, t, [])
  {
    hide Ascii;
    assert s.queued + [] == s.queued;
    assert s.callbacks + [OnRequest] + [ERROR_CLOSE] == s.callbacks + [OnRequest, ERROR_CLOSE];
  }

  lemma {:induction false} ServerAnswers(s: Conn, status: nat, reply: Reply)
    requires s.side.Server? && s.outcome.Running? && reply.Done?
    ensures var t := HandshakeResult(s, status, reply);
            && Calls(s, t, OnRequest, false)
            && Queues(s, t, [HttpResponse(status)]
                            + (if status != 101 then [CloseFrame(1000, HANDSHAKE_FAILED)] else []))
  {
    hide LocalClose, Ascii;
    var a := Answered(s, status);
    assert a.callbacks == s.callbacks + [OnRequest] == s.callbacks + [OnRequest] + [] && a.outcome == Running;
    if status == 101 {
      assert [HttpResponse(status)] + [] == [HttpResponse(status)];
    } else {
      LocalCloseQuiet(a, Normal, HANDSHAKE_FAILED);
      CloseIsQueued(a, Normal, HANDSHAKE_FAILED);
      ConcatAssoc(s.queued, [HttpResponse(status)], [CloseFrame(1000, HANDSHAKE_FAILED)]);
    }
  }

  /** The head of the loop calls `on_open` once the connection is open; a client's first poll
      sends the request; nothing else calls or queues anything, but for the error close. */
  lemma {:induction false} RestIsQuiet(s: Conn, ev: Event)
    requires Control(s) && Enabled(s, ev) && !ev.Frame? && !ev.Command? && !ev.Handshake? && !ev.Start?
    ensures var t := Step(s, ev);
            && Queues(s, t, if ev.Poll? && s.side.Client? && s.state.Wait? then [HttpRequest] else [])
            && t.callbacks == s.callbacks
                              + (if ev.LoopHead? && s.state.WsOpen? && !s.ready then [OnOpen] else [])
                              + (if t.outcome.Failed? then [OnClose(Error, NET_ERROR)] else [])
  {
    hide Ascii, HandshakeStep, CommandStep;
    assert s.queued + [] == s.queued;
    assert s.callbacks + [] + [] == s.callbacks;
    assert s.callbacks + [] + [ERROR_CLOSE] == s.callbacks + [ERROR_CLOSE];
    match ev
    case LoopHead(ok) => HeadCalls(s, ok);
    case Poll => PollCalls(s);
    case _ =>
  }

  lemma {:induction false} HeadCalls(s: Conn, ok: bool)
    requires s.outcome.Running?
    ensures var t := HeadStep(s, ok);
            && t.queued == s.queued
            && t.callbacks == s.callbacks + (if s.state.WsOpen? && !s.ready then [OnOpen] else [])
                              + (if t.outcome.Failed? then [OnClose(Error, NET_ERROR)] else [])
  {
    assert s.callbacks + [] + [] == s.callbacks;
    assert s.callbacks + [OnOpen] + [] == s.callbacks + [OnOpen];
  }

  lemma {:induction false} PollCalls(s: Conn)
    requires s.outcome.Running?
    ensures var t := PollStep(s);
            && Queues(s, t, if s.side.Client? && s.state.Wait? then [HttpRequest] else [])
            && t.callbacks == s.callbacks && !t.outcome.Failed?
  {
    assert s.queued + [] == s.queued;
  }

  // ---------- the upgrade ----------

  /** What is queued besides frames. */
  function HttpOf(q: seq<Out>): seq<Out> {
    if |q| == 0 then [] else (if q[0].FrameOut? then [] else [q[0]]) + HttpOf(q[1..])
  }

  lemma {:induction false} HttpAppend(a: seq<Out>, b: seq<Out>)
    ensures HttpOf(a + b) == HttpOf(a) + HttpOf(b)
  {
    if |a| == 0 {
      assert a + b == b;
    } else {
      assert (a + b)[1..] == a[1..] + b;
      HttpAppend(a[1..], b);
    }
  }

  lemma {:induction false} HttpOne(q: seq<Out>, o: Out)
    ensures HttpOf(q + [o]) == HttpOf(q) + (if o.FrameOut? then [] else [o])
  {
    HttpAppend(q, [o]);
    assert [o][1..] == [];
  }

  /** A client has queued its one request when it waits for the answer or has it, and none in
      Wait; a server has queued one response, that of its handshake, when there was one. */
  ghost predicate Upgraded(s: Conn) {
    if s.side.Client? then
      && (HttpOf(s.queued) == [] || HttpOf(s.queued) == [HttpRequest])
      && (s.state.Wait? ==> HttpOf(s.queued) == [])
      && (s.state.WaitRet? || s.handshake.Some? ==> HttpOf(s.queued) == [HttpRequest])
    else
      && HttpOf(s.queued) == (if s.handshake.Some? then [HttpResponse(s.handshake.value)] else [])
      && (s.state.Wait? ==> s.handshake.None?)
  }

  lemma {:induction false} CloseUpgraded(s: Conn, code: CloseCode, reason: Str)
    requires Upgraded(s)
    ensures Upgraded(LocalClose(s, code, reason))
  {
    HttpOne(s.queued, FrameOut(ToOwned(Close(code, reason))));
    hide HttpOf, ToOwned;
  }

  lemma {:induction false} CommandUpgraded(s: Conn, m: Message)
    requires Upgraded(s)
    ensures Upgraded(CommandStep(s, m))
  {
    HttpOne(s.queued, FrameOut(ToOwned(m)));
    hide HttpOf, ToOwned, LocalClose, Ascii;
    match m
    case Close(code, reason) => CloseUpgraded(s, code, reason);
    case Shutdown => CloseUpgraded(s, Normal, SHUTDOWN);
    case _ =>
  }

  lemma {:induction false} HandshakeUpgraded(s: Conn, status: nat, reply: Reply)
    requires Upgraded(s) && Control(s) && AtSelect(s) && s.arm.InHandshake?
    ensures Upgraded(HandshakeStep(s, status, reply))
  {
    HandshakeIs(s, status, reply);
    HttpOne(s.queued, HttpResponse(status));
    hide HandshakeStep, HttpOf, LocalClose, Ascii, ToOwned;
    if s.side.Client? {
    } else if reply.Refused? {
    } else if status == 101 {
    } else {
      CloseUpgraded(Answered(s, status), Normal, HANDSHAKE_FAILED);
    }
  }

  lemma {:induction false} MessageUpgraded(s: Conn, m: Message, reply: Reply)
    requires Upgraded(s)
    ensures Upgraded(OnMsg(s, m, reply))
  {
    if reply.Done? && reply.pong.Some? {
      HttpOne(s.queued, FrameOut(ToOwned(Pong(reply.pong.value))));
    }
    hide HttpOf, ToOwned;
  }

  lemma {:induction false} StepUpgraded(s: Conn, ev: Event)
    requires Upgraded(s) && Control(s) && Enabled(s, ev)
    ensures Upgraded(Step(s, ev))
  {
    HttpOne(s.queued, HttpRequest);
    hide HttpOf, HandshakeStep, CommandStep, OnMsg;
    match ev
    case Command(m) => CommandUpgraded(s, m);
    case Handshake(status, reply) => HandshakeUpgraded(s, status, reply);
    case Frame(o, reply) => MessageUpgraded(s, FromOwned(o), reply);
    case Eof => MessageUpgraded(s, Shutdown, Done(None));
    case _ =>
  }

  /** Over every run the upgrade goes out at most once. */
  lemma {:induction false} OneUpgrade(s: Conn, evs: seq<Event>)
    requires Upgraded(s) && Inv(s) && ValidRun(s, evs)
    ensures Upgraded(Exec(s, evs))
    decreases |evs|
  {
    if |evs| > 0 {
      StepUpgraded(s, evs[0]);
      StepInv(s, evs[0]);
      OneUpgrade(Step(s, evs[0]), evs[1..]);
    }
  }

  /** The same from the start of a run, where it holds. */
  lemma {:induction false} UpgradeGoesOutOnce(side: Side, entry: Entry, evs: seq<Event>)
    requires ValidRun(Init(side, entry), evs)
    ensures Upgraded(Exec(Init(side, entry), evs))
    ensures |HttpOf(Exec(Init(side, entry), evs).queued)| <= 1
  {
    InitInv(side, entry);
    OneUpgrade(Init(side, entry), evs);
  }

  // ---------- which branches are there ----------

  /** Which events a running connection has. At the head of the loop there is only that. In the
      `select!` commands and `on_logic` are always there, in every state, and `process()` is
      polled or, by its state, waits for the handshake, for a frame, or for the write side. */
  lemma {:induction false} BranchesExactly(
      s: Conn, status: nat, o: Owned, reply: Reply, e: NetError, m: Message, ok: bool)
    requires Inv(s) && s.outcome.Running?
    ensures Enabled(s, LoopHead(ok)) <==> s.pc.Head?
    ensures Enabled(s, Command(m)) <==> s.pc.Select?
    ensures Enabled(s, Logic(ok)) && Enabled(s, SendersGone) <==> s.pc.Select?
    ensures Enabled(s, Poll) <==> s.pc.Select? && s.arm.NoArm?
    ensures s.pc.Select? && !s.arm.NoArm? ==>
              && (Enabled(s, Handshake(status, reply)) <==> s.state == if s.side.Server? then Wait else WaitRet)
              && (Enabled(s, Frame(o, reply)) <==> s.state.WsOpen?)
              && (Enabled(s, Drained) <==> s.state.WsClosing?)
              && (Enabled(s, Eof) <==> !s.state.WsClosing?)
              && (Enabled(s, IoFails(e)) <==> !s.state.WsClosing? && IsIoError(e))
    ensures s.pc.Select? && s.arm.NoArm? ==> Step(s, Poll).outcome.Running? && !Step(s, Poll).arm.NoArm?
  {
    hide Log;
  }

  // ---------- how an event ends a run ----------

  /** The error a run fails with by an event, if it does. */
  function WhyFails(s: Conn, ev: Event): Option<NetError> {
    match ev
    case Start(accepted) => if accepted then None else Some(Io)
    case LoopHead(ok) => if s.state.WsOpen? && !s.ready && !ok then Some(HandlerError) else None
    case Handshake(status, reply) =>
      if s.side.Client? then (if status != 101 then Some(FailStatus(status)) else None)
      else if reply.Refused? then Some(HandlerError)
      else None
    case Frame(o, reply) => if reply.Refused? && !o.OwnedClose? then Some(HandlerError) else None
    case IoFails(e) => Some(e)
    case Logic(ok) => if ok then None else Some(HandlerError)
    case _ => None
  }

  /** The events after which a run returns without an error. */
  predicate EndsQuietly(ev: Event) {
    ev.Eof? || ev.Drained? || ev.SendersGone? || (ev.Frame? && ev.owned.OwnedClose?)
  }

  lemma {:induction false} OutcomesExact(s: Conn, ev: Event)
    requires Control(s) && Enabled(s, ev)
    ensures Step(s, ev).outcome
            == match WhyFails(s, ev)
               case Some(e) => Failed(e)
               case None => if EndsQuietly(ev) then Returned else Running
  {
    match ev
    case Frame(o, reply) => FrameIsHandled(s, o, reply);
    case Command(m) => CommandIsQueued(s, m);
    case Handshake(status, reply) =>
      HandshakeIs(s, status, reply);
      HandshakeIsAnswered(s, status, reply);
    case Drained => assert s.state.WsClosing?;
    case _ =>
  }

  /** The closing arm ends in Closed, with the close the connection holds. */
  lemma {:induction false} DrainedCloses(s: Conn)
    requires Control(s) && Enabled(s, Drained)
    ensures s.state.WsClosing? && Step(s, Drained).state == WsClosed(s.state.info)
  {
  }

  // ---------- what the handler hears ----------

  function ErrorHeard(told: bool): seq<Message> {
    if told then [Close(Error, NET_ERROR)] else []
  }

  lemma {:induction false} StepReal(s: Conn, ev: Event)
    requires AllReal(s.delivered) && Control(s) && Enabled(s, ev)
    ensures AllReal(Step(s, ev).delivered)
  {
    hide HandshakeStep, CommandStep;
    match ev
    case Command(m) => CommandDelivers(s, m);
    case Handshake(status, reply) => HandshakeDelivers(s, status, reply);
    case _ =>
  }

  lemma {:induction false} CommandDelivers(s: Conn, m: Message)
    ensures CommandStep(s, m).delivered == s.delivered
  {
    hide LocalClose, ToOwned, Ascii;
    match m
    case Close(code, reason) => CloseDelivers(s, code, reason);
    case Shutdown => CloseDelivers(s, Normal, SHUTDOWN);
    case _ =>
  }

  lemma {:induction false} CloseDelivers(s: Conn, code: CloseCode, reason: Str)
    ensures LocalClose(s, code, reason).delivered == s.delivered
  {
  }

  lemma {:induction false} HandshakeDelivers(s: Conn, status: nat, reply: Reply)
    requires Control(s) && AtSelect(s) && s.arm.InHandshake?
    ensures HandshakeStep(s, status, reply).delivered == s.delivered
  {
    HandshakeIs(s, status, reply);
    hide HandshakeStep, ToOwned, Ascii;
    if s.side.Client? {
    } else if reply.Refused? {
    } else if status == 101 {
    } else {
    }
  }

  lemma {:induction false} RunReal(s: Conn, evs: seq<Event>)
    requires AllReal(s.delivered) && Inv(s) && ValidRun(s, evs)
    ensures AllReal(Exec(s, evs).delivered)
    decreases |evs|
  {
    if |evs| > 0 {
      StepReal(s, evs[0]);
      StepInv(s, evs[0]);
      RunReal(Step(s, evs[0]), evs[1..]);
    }
  }

  lemma {:induction false} PreludeIsSilent(s: Conn)
    ensures Heard(Prelude(s)) == [] && MessagesAreData(Prelude(s))
  {
    assert [OnRequest, OnOpen][1..] == [OnOpen] && [OnOpen][1..] == [] && [OnRequest][1..] == [];
    assert Prelude(s) == [] || Prelude(s) == [OnRequest] || Prelude(s) == [OnOpen] || Prelude(s) == [OnRequest, OnOpen];
  }

  lemma {:induction false} ShapeIsHeard(s: Conn)
    requires CallbackShape(s) && AllReal(s.delivered)
    ensures MessagesAreData(s.callbacks)
    ensures Heard(s.callbacks) == s.delivered + ErrorHeard(s.outcome.Failed? && s.callbacks != [])
  {
    LogIsHeard(s);
    assert Heard([]) == [] && MessagesAreData([]);
    hide Heard, Prelude, CallbacksOf, MessagesAreData;
    assert (s.callbacks == [] && s.outcome.Failed? && s.delivered == [])
           || s.callbacks == Prelude(s) + CallbacksOf(s.delivered) + ErrorTail(s.outcome);
  }

  lemma {:induction false} LogIsHeard(s: Conn)
    requires AllReal(s.delivered)
    ensures var log := Prelude(s) + CallbacksOf(s.delivered) + ErrorTail(s.outcome);
            && MessagesAreData(log) && Heard(log) == s.delivered + ErrorHeard(s.outcome.Failed?)
            && (s.outcome.Failed? ==> log != [])
  {
    PreludeIsSilent(s);
    HeardInCallbacks(s.delivered);
    HeardOne(ERROR_CLOSE);
    hide Heard, Prelude, CallbacksOf;
    var a, b, c := Prelude(s), CallbacksOf(s.delivered), ErrorTail(s.outcome);
    assert MessagesAreData(c);
    hide MessagesAreData;
    HeardAppend(a, b);
    HeardAppend(a + b, c);
    DataAppend(a, b);
    DataAppend(a + b, c);
    assert [] + s.delivered == s.delivered;
    NothingHeard();
  }

  lemma NothingHeard()
    ensures Heard([]) == []
  {
  }

  /** Over every run the handler hears exactly the messages that were delivered, each in the
      callback of its kind and in order, and last of the failure if there was one (except
      that `run_handler` says nothing of a stream that was not accepted). */
  lemma {:induction false} RunIsHeard(side: Side, entry: Entry, evs: seq<Event>)
    requires ValidRun(Init(side, entry), evs)
    ensures var t := Exec(Init(side, entry), evs);
            && Heard(t.callbacks)
               == t.delivered + ErrorHeard(t.outcome.Failed? && !(entry.RunHandler? && evs == [Start(false)]))
            && MessagesAreData(t.callbacks)
  {
    InitInv(side, entry);
    ExecInv(Init(side, entry), evs);
    RunReal(Init(side, entry), evs);
    AcceptFailedExactly(side, entry, evs);
    ShapeIsHeard(Exec(Init(side, entry), evs));
  }

  // ---------- the last callback ----------

  lemma {:induction false} RunAppend(s: Conn, before: seq<Event>, after: seq<Event>)
    requires ValidRun(s, before + after)
    ensures ValidRun(s, before) && ValidRun(Exec(s, before), after)
    ensures Exec(s, before + after) == Exec(Exec(s, before), after)
    decreases |before|
  {
    if |before| == 0 {
      assert before + after == after;
    } else {
      assert (before + after)[1..] == before[1..] + after;
      RunAppend(Step(s, before[0]), before[1..], after);
    }
  }

  /** Whether an event makes an `on_close`. */
  predicate ClosesWith(s: Conn, ev: Event) {
    || (ev.Frame? && ev.owned.OwnedClose?)
    || (WhyFails(s, ev).Some? && !(ev.Start? && s.entry.RunHandler?))
  }

  /** On every run `on_close` is called at most once and last, by the run's last event, and
      exactly by one that brings a Close of the other side or fails the run; except for
      `run_handler`'s failed accept. In particular end of stream, a local close and dropped
      senders end a run without it. */
  lemma {:induction false} OnCloseExactly(side: Side, entry: Entry, evs: seq<Event>, ev: Event)
    requires ValidRun(Init(side, entry), evs + [ev])
    ensures ValidRun(Init(side, entry), evs)
    ensures var s := Exec(Init(side, entry), evs);
            var t := Exec(Init(side, entry), evs + [ev]);
            && !CalledClose(s.callbacks) && CloseIsLast(t.callbacks)
            && (CalledClose(t.callbacks) <==> ClosesWith(s, ev))
  {
    var s0 := Init(side, entry);
    RunAppend(s0, evs, [ev]);
    var s := Exec(s0, evs);
    assert ValidRun(s, [ev]) && [ev][1..] == [] && [ev][0] == ev;
    assert Exec(s, [ev]) == Step(s, ev);
    InitInv(side, entry);
    ExecInv(s0, evs);
    ShapeGivesClose(s);
    LastEventCloses(s, ev);
  }

  lemma {:induction false} CalledAppend(a: seq<Callback>, b: seq<Callback>)
    ensures CalledClose(a + b) <==> CalledClose(a) || CalledClose(b)
  {
    if CalledClose(a) {
      var i :| 0 <= i < |a| && a[i].OnClose?;
      assert (a + b)[i].OnClose?;
    }
    if CalledClose(b) {
      var i :| 0 <= i < |b| && b[i].OnClose?;
      assert (a + b)[|a| + i].OnClose?;
    }
  }

  /** Whether a callback and the error close together make an `on_close`. */
  lemma {:induction false} CalledWith(log: seq<Callback>, cs: seq<Callback>, failed: bool)
    requires |cs| <= 1 && !CalledClose(log)
    ensures var t := log + cs + (if failed then [OnClose(Error, NET_ERROR)] else []);
            CalledClose(t) <==> (cs != [] && cs[0].OnClose?) || failed
  {
    hide Ascii;
    var tail := if failed then [OnClose(Error, NET_ERROR)] else [];
    CalledAppend(log + cs, tail);
    CalledAppend(log, cs);
    assert CalledClose(tail) <==> failed by {
      if failed {
        assert tail[0].OnClose?;
      }
    }
    assert CalledClose(cs) <==> cs != [] && cs[0].OnClose?;
  }

  lemma {:induction false} FrameCloses(s: Conn, o: Owned, reply: Reply)
    requires Enabled(s, Frame(o, reply)) && !CalledClose(s.callbacks)
    ensures CalledClose(Step(s, Frame(o, reply)).callbacks) <==> o.OwnedClose? || reply.Refused?
  {
    FrameIsHandled(s, o, reply);
    hide Step, CalledClose, Ascii;
    match o
    case OwnedText(text) => CalledWith(s.callbacks, [OnMessage(Text(text))], reply.Refused?);
    case OwnedBinary(data) => CalledWith(s.callbacks, [OnMessage(Binary(data))], reply.Refused?);
    case OwnedPing(data) => CalledWith(s.callbacks, [OnPing(data)], reply.Refused?);
    case OwnedPong(data) => CalledWith(s.callbacks, [OnPong(data)], reply.Refused?);
    case OwnedClose(_) =>
      var t := Step(s, Frame(o, reply));
      var code, reason :| t.callbacks == s.callbacks + [OnClose(code, reason)];
      CalledWith(s.callbacks, [OnClose(code, reason)], false);
      assert t.callbacks + [] == t.callbacks;
  }

  lemma {:induction false} HandshakeCloses(s: Conn, status: nat, reply: Reply)
    requires Control(s) && Enabled(s, Handshake(status, reply)) && !CalledClose(s.callbacks)
    ensures CalledClose(Step(s, Handshake(status, reply)).callbacks) <==> WhyFails(s, Handshake(status, reply)).Some?
  {
    HandshakeIsAnswered(s, status, reply);
    hide Step, CalledClose, Ascii, Control;
    if s.side.Client? {
      CalledWith(s.callbacks, [], status != 101);
      assert s.callbacks + [] == s.callbacks;
    } else {
      CalledWith(s.callbacks, [OnRequest], reply.Refused?);
    }
  }

  lemma {:induction false} LastEventCloses(s: Conn, ev: Event)
    requires Inv(s) && Enabled(s, ev) && !CalledClose(s.callbacks)
    ensures CloseIsLast(Step(s, ev).callbacks)
    ensures CalledClose(Step(s, ev).callbacks) <==> ClosesWith(s, ev)
  {
    StepInv(s, ev);
    ShapeGivesClose(Step(s, ev));
    OutcomesExact(s, ev);
    hide Step, CalledClose, CloseIsLast, Ascii, Log;
    match ev
    case Frame(o, reply) => FrameCloses(s, o, reply);
    case Command(m) => CommandIsQueued(s, m);
    case Handshake(status, reply) => HandshakeCloses(s, status, reply);
    case Start(accepted) => StartCloses(s, accepted);
    case _ =>
      RestIsQuiet(s, ev);
      var opens := if ev.LoopHead? && s.state.WsOpen? && !s.ready then [OnOpen] else [];
      CalledWith(s.callbacks, opens, Step(s, ev).outcome.Failed?);
  }

  lemma {:induction false} StartCloses(s: Conn, accepted: bool)
    requires Enabled(s, Start(accepted)) && !CalledClose(s.callbacks)
    ensures CalledClose(Step(s, Start(accepted)).callbacks) <==> !accepted && !s.entry.RunHandler?
  {
    assert s.callbacks + [] + [ERROR_CLOSE] == s.callbacks + [ERROR_CLOSE];
    CalledWith(s.callbacks, [], true);
  }
}
