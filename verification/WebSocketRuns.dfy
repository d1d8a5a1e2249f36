/** What holds over every run of a WebSocket connection. */
module WebSocketRuns {
  import opened Bytes
  import opened Protocol
  import opened Callbacks
  import opened WebSocket

  // ---------- the invariant ----------

  /** The suspended arm is the one of the current state: nothing changes the state of a
      connection behind a suspended `process()`. */
  ghost predicate ArmMatches(s: Conn) {
    match s.arm
    case NoArm => true
    case InHandshake => s.pc.Select? && (if s.side.Server? then s.state.Wait? else s.state.WaitRet?)
    case InOpen => s.pc.Select? && s.state.WsOpen?
    case InClosing => s.pc.Select? && s.state.WsClosing?
  }

  /** A server is never left waiting for its own response, Closed is the end, and neither a
      panic nor the bad-status error happens. */
  ghost predicate Safe(s: Conn) {
    && (s.side.Server? ==> !s.state.WaitRet? || s.outcome.Failed?)
    && (s.state.WsClosed? ==> s.outcome.Returned?)
    && !s.panicked
    && s.outcome != Failed(BadStatus)
    && (s.outcome.Fresh? ==> s.state.Wait? && s.pc.Head? && s.arm.NoArm? && !s.asked && !s.greeted)
  }

  /** `on_open` has run before an open connection enters the `select!`, and only after a
      101 handshake; nothing is delivered before it. */
  ghost predicate OpenOrder(s: Conn) {
    && (s.outcome.Running? && s.pc.Select? && s.state.WsOpen? ==> s.ready)
    && (s.ready ==> s.greeted)
    && (s.greeted ==> s.handshake == Some(101) && Rank(s.state) >= 2)
    && (s.greeted && !s.ready ==> s.outcome.Failed?)
    && (s.delivered != [] ==> s.ready)
    && (s.state.WsOpen? ==> s.handshake == Some(101))
    && (s.state.Wait? ==> !s.asked)
  }

  ghost predicate CloseStops(s: Conn) {
    CloseEnds(s.delivered) && (HasClose(s.delivered) ==> s.outcome.Returned?)
  }

  function Prelude(s: Conn): seq<Callback> {
    (if s.asked then [OnRequest] else []) + (if s.greeted then [OnOpen] else [])
  }

  ghost predicate CallbackShape(s: Conn) {
    || s.callbacks == Prelude(s) + CallbacksOf(s.delivered) + ErrorTail(s.outcome)
    || (AcceptFailed(s) && s.callbacks == [])
  }

  /** `run_handler` accepts the stream before it has a run to report on: this failure is
      the one that makes no `on_close`. */
  ghost predicate AcceptFailed(s: Conn) {
    s.outcome.Failed? && s.entry.RunHandler? && s.state.Wait? && s.pc.Head?
    && !s.asked && !s.greeted && s.delivered == []
  }

  ghost predicate Control(s: Conn) {
    ArmMatches(s) && Safe(s) && OpenOrder(s)
  }

  ghost predicate Log(s: Conn) {
    CloseStops(s) && CallbackShape(s)
  }

  ghost predicate Inv(s: Conn) {
    Control(s) && Log(s)
  }

  // ---------- one step keeps control ----------

  lemma {:induction false} HeadControl(s: Conn, ok: bool)
    requires Control(s) && s.outcome.Running? && s.pc.Head?
    ensures Control(HeadStep(s, ok))
  {
  }

  lemma {:induction false} CloseControl(s: Conn, code: CloseCode, reason: Str)
    requires Control(s) && AtSelect(s)
    ensures Control(NextRound(LocalClose(s, code, reason)))
  {
  }

  /** A server that has put its response into the write buffer. */
  function Answered(s: Conn, status: nat): Conn {
    s.(state := WsOpen, queued := s.queued + [HttpResponse(status)], handshake := Some(status),
       callbacks := s.callbacks + [OnRequest], asked := true)
  }

  /** What the handshake comes to, without the branches that are not reached. */
  function HandshakeResult(s: Conn, status: nat, reply: Reply): Conn {
    match s.side
    case Client =>
      if status != 101 then Fail(s, FailStatus(status))
      else NextRound(s.(state := WsOpen, handshake := Some(101)))
    case Server =>
      if reply.Refused? then
        NextRound(Fail(s.(state := WaitRet, callbacks := s.callbacks + [OnRequest], asked := true), HandlerError))
      else if status == 101 then NextRound(Answered(s, status))
      else NextRound(LocalClose(Answered(s, status), Normal, HANDSHAKE_FAILED))
  }

  lemma {:induction false} HandshakeIs(s: Conn, status: nat, reply: Reply)
    requires s.outcome.Running? && (s.side.Client? ==> s.state.WaitRet?)
    ensures HandshakeStep(s, status, reply) == HandshakeResult(s, status, reply)
  {
    hide LocalClose, ToOwned, Ascii;
    if s.side.Client? {
    } else if reply.Refused? {
    } else {
      var s1 := s.(state := WaitRet, callbacks := s.callbacks + [OnRequest], asked := true);
      assert HandlerResponse(s1, status).(handshake := Some(status)) == Answered(s, status);
    }
  }

  lemma {:induction false} HandshakeControl(s: Conn, status: nat, reply: Reply)
    requires Control(s) && AtSelect(s) && s.arm.InHandshake?
    ensures Control(HandshakeStep(s, status, reply))
  {
    HandshakeIs(s, status, reply);
    hide HandshakeStep, ToOwned, Ascii;
  }

  lemma {:induction false} FrameControl(s: Conn, m: Message, reply: Reply)
    requires Control(s) && AtSelect(s) && s.state.WsOpen?
    ensures Control(NextRound(OnMsg(s, m, reply)))
  {
  }

  lemma {:induction false} PollControl(s: Conn)
    requires Control(s) && AtSelect(s) && s.arm.NoArm?
    ensures Control(PollStep(s))
  {
  }

  lemma {:induction false} DrainedControl(s: Conn)
    requires Control(s) && AtSelect(s) && s.arm.InClosing?
    ensures Control(DrainedStep(s))
  {
  }

  lemma {:induction false} CommandControl(s: Conn, m: Message)
    requires Control(s) && AtSelect(s)
    ensures Control(CommandStep(s, m))
  {
    match m
    case Close(code, reason) => CloseControl(s, code, reason);
    case Shutdown => CloseControl(s, Normal, SHUTDOWN);
    case _ =>
  }

  lemma {:induction false} StepControl(s: Conn, ev: Event)
    requires Control(s) && Enabled(s, ev)
    ensures Control(Step(s, ev))
  {
    match ev
    case LoopHead(ok) => HeadControl(s, ok);
    case Poll => PollControl(s);
    case Handshake(status, reply) => HandshakeControl(s, status, reply);
    case Frame(owned, reply) => FrameControl(s, FromOwned(owned), reply);
    case Drained => DrainedControl(s);
    case Command(m) => CommandControl(s, m);
    case _ =>
  }

  // ---------- one step keeps the log ----------

  /** A step that makes no callback and does not fail keeps the log in order. */
  lemma {:induction false} QuietLog(s: Conn, t: Conn)
    requires Log(s) && (s.outcome.Running? || s.outcome.Fresh?)
    requires t.callbacks == s.callbacks && t.delivered == s.delivered && Prelude(t) == Prelude(s)
    requires t.outcome.Running? || t.outcome.Returned?
    ensures Log(t)
  {
  }

  lemma {:induction false} FailLog(s: Conn, e: NetError)
    requires Log(s) && (s.outcome.Running? || s.outcome.Fresh?)
    ensures Log(Fail(s, e))
  {
    assert s.callbacks + [] == s.callbacks;
    assert s.callbacks == Prelude(s) + CallbacksOf(s.delivered) by {
      assert Prelude(s) + CallbacksOf(s.delivered) + [] == Prelude(s) + CallbacksOf(s.delivered);
    }
  }

  lemma {:induction false} OpenedLog(s: Conn, ok: bool)
    requires Log(s) && s.outcome.Running? && !s.ready && s.state.WsOpen?
    requires s.delivered == [] && !s.greeted
    ensures Log(HeadStep(s, ok))
  {
    assert CallbacksOf([]) == [];
  }

  lemma {:induction false} HeadLog(s: Conn, ok: bool)
    requires Control(s) && Log(s) && s.outcome.Running? && s.pc.Head?
    ensures Log(HeadStep(s, ok))
  {
    if !s.ready && s.state.WsOpen? {
      OpenedLog(s, ok);
    } else {
      QuietLog(s, HeadStep(s, ok));
    }
  }

  lemma {:induction false} CloseLog(s: Conn, code: CloseCode, reason: Str)
    requires Log(s) && AtSelect(s)
    ensures Log(NextRound(LocalClose(s, code, reason)))
  {
    QuietLog(s, NextRound(LocalClose(s, code, reason)));
  }

  lemma {:induction false} AnsweredLog(s: Conn, status: nat)
    requires s.callbacks == [] && s.delivered == [] && !s.asked && !s.greeted && s.outcome.Running?
    ensures Log(NextRound(Answered(s, status)))
    ensures Log(NextRound(LocalClose(Answered(s, status), Normal, HANDSHAKE_FAILED)))
  {
    assert CallbacksOf([]) == [];
    var t := Answered(s, status);
    assert Log(t);
    QuietLog(t, NextRound(t));
    QuietLog(t, NextRound(LocalClose(t, Normal, HANDSHAKE_FAILED)));
  }

  lemma {:induction false} ClientHandshakeLog(s: Conn, status: nat, reply: Reply)
    requires Control(s) && Log(s) && AtSelect(s) && s.arm.InHandshake? && s.side.Client?
    ensures Log(HandshakeStep(s, status, reply))
  {
    HandshakeIs(s, status, reply);
    hide HandshakeStep;
    if status != 101 {
      FailLog(s, FailStatus(status));
    } else {
      QuietLog(s, HandshakeResult(s, status, reply));
    }
  }

  /** Before the handshake nothing has been called back. */
  lemma {:induction false} HandshakeLog(s: Conn, status: nat, reply: Reply)
    requires Control(s) && Log(s) && AtSelect(s) && s.arm.InHandshake?
    ensures Log(HandshakeStep(s, status, reply))
  {
    HandshakeIs(s, status, reply);
    hide HandshakeStep, ToOwned, Ascii;
    assert s.delivered == [] && !s.greeted && CallbacksOf([]) == [];
    if s.side.Client? {
      ClientHandshakeLog(s, status, reply);
    } else {
      assert !s.asked && s.callbacks == [];
      if reply.Refused? {
        assert HandshakeResult(s, status, reply).callbacks == [OnRequest, ERROR_CLOSE];
      } else {
        AnsweredLog(s, status);
      }
    }
  }

  /** The connection as the loop has it once the message's callback was made. */
  function Noted(s: Conn, m: Message): Conn {
    s.(delivered := s.delivered + [m], callbacks := s.callbacks + [CallbackOf(m)],
       outcome := if m.Close? then Returned else s.outcome)
  }

  lemma {:induction false} NotedLog(s: Conn, m: Message)
    requires Log(s) && s.outcome.Running?
    ensures Log(Noted(s, m))
  {
    var t := Noted(s, m);
    assert s.callbacks == Prelude(s) + CallbacksOf(s.delivered) by {
      assert s.callbacks == Prelude(s) + CallbacksOf(s.delivered) + [];
    }
    assert CallbacksOf(t.delivered) == CallbacksOf(s.delivered) + [CallbackOf(m)];
    ConcatAssoc(Prelude(s), CallbacksOf(s.delivered), [CallbackOf(m)]);
    assert t.callbacks + [] == t.callbacks;
    assert forall i :: 0 <= i < |s.delivered| ==> t.delivered[i] == s.delivered[i] && !s.delivered[i].Close?;
  }

  lemma {:induction false} FrameLog(s: Conn, m: Message, reply: Reply)
    requires Log(s) && AtSelect(s)
    ensures Log(NextRound(OnMsg(s, m, reply)))
  {
    if m.Shutdown? || m.Unvaid? {
      QuietLog(s, NextRound(OnMsg(s, m, reply)));
    } else {
      var t := Noted(s, m);
      NotedLog(s, m);
      if !m.Close? && reply.Refused? {
        FailLog(t, HandlerError);
      }
    }
  }

  lemma {:induction false} PollLog(s: Conn)
    requires Log(s) && AtSelect(s)
    ensures Log(PollStep(s))
  {
    QuietLog(s, PollStep(s));
  }

  lemma {:induction false} DrainedLog(s: Conn)
    requires Log(s) && AtSelect(s)
    ensures Log(DrainedStep(s))
  {
    QuietLog(s, DrainedStep(s));
  }

  lemma {:induction false} CommandLog(s: Conn, m: Message)
    requires Log(s) && AtSelect(s)
    ensures Log(CommandStep(s, m))
  {
    match m
    case Close(code, reason) => CloseLog(s, code, reason);
    case Shutdown => CloseLog(s, Normal, SHUTDOWN);
    case _ => QuietLog(s, NextRound(SendMessage(s, m)));
  }

  lemma {:induction false} StartLog(s: Conn, accepted: bool)
    requires Control(s) && Log(s) && s.outcome.Fresh?
    ensures Log(Begin(s, accepted))
  {
    FailLog(s, Io);
    if accepted {
      QuietLog(s, Begin(s, true));
    } else {
      assert s.callbacks == [] && s.delivered == [];
    }
  }

  lemma {:induction false} StepLog(s: Conn, ev: Event)
    requires Control(s) && Log(s) && Enabled(s, ev)
    ensures Log(Step(s, ev))
  {
    match ev
    case Start(accepted) => StartLog(s, accepted);
    case LoopHead(ok) => HeadLog(s, ok);
    case Handshake(status, reply) => HandshakeLog(s, status, reply);
    case Frame(owned, reply) => FrameLog(s, FromOwned(owned), reply);
    case Eof => FrameLog(s, Shutdown, Done(None));
    case IoFails(e) => FailLog(s, e);
    case Logic(ok) =>
      FailLog(s, HandlerError);
      QuietLog(s, NextRound(s));
    case Poll => PollLog(s);
    case Drained => DrainedLog(s);
    case Command(m) => CommandLog(s, m);
    case SendersGone => QuietLog(s, s.(outcome := Returned));
  }

  lemma {:induction false} StepInv(s: Conn, ev: Event)
    requires Inv(s) && Enabled(s, ev)
    ensures Inv(Step(s, ev))
  {
    StepControl(s, ev);
    StepLog(s, ev);
  }

  lemma {:induction false} ExecInv(s: Conn, evs: seq<Event>)
    requires Inv(s) && ValidRun(s, evs)
    ensures Inv(Exec(s, evs))
    decreases |evs|
  {
    if |evs| > 0 {
      StepInv(s, evs[0]);
      ExecInv(Step(s, evs[0]), evs[1..]);
    }
  }

  lemma {:induction false} InitInv(side: Side, entry: Entry)
    ensures Inv(Init(side, entry))
  {
    assert CallbacksOf([]) == [];
  }
}
