/** A WebSocket connection as a state machine: the handshake and closing states of the
    server and the client (src/ws/server.rs, src/ws/client.rs) driven by the run loop of
    src/ws/mod.rs. Frames and HTTP messages are abstract.

    The loop has a head, where `on_open` may run, and a `select!`. The `process()` future
    is suspended in the arm of the state it was polled in; when another branch of the
    `select!` completes, that future is dropped. A step may leave the future suspended,
    finish it, or drop it. */
module WebSocket {
  import opened Bytes
  import opened Protocol
  import opened Callbacks

  datatype Side = Server | Client

  /** The two ways to start a run; they differ when accepting the stream fails. */
  datatype Entry = RunHandler | RunWithHandler

  datatype CloseInfo = CloseInfo(code: CloseCode, reason: Str)

  datatype WsState =
    | Wait
    | WaitRet
    | WsOpen
    | WsClosing(info: CloseInfo)
    | WsClosed(info: CloseInfo)

  function Rank(st: WsState): nat {
    match st
    case Wait => 0
    case WaitRet => 1
    case WsOpen => 2
    case WsClosing(_) => 3
    case WsClosed(_) => 4
  }

  // ---------- messages of the WebSocket library ----------

  datatype CloseData = CloseData(status: u16, reason: Str)

  datatype Owned =
    | OwnedText(text: Str)
    | OwnedBinary(data: seq<byte>)
    | OwnedClose(close: Option<CloseData>)
    | OwnedPing(data: seq<byte>)
    | OwnedPong(data: seq<byte>)

  function ToOwned(m: Message): Owned {
    match m
    case Text(text) => OwnedText(text)
    case Binary(data) => OwnedBinary(data)
    case Close(code, reason) => OwnedClose(Some(CloseData(CodeToU16(code), reason)))
    case Ping(data) => OwnedPing(data)
    case Pong(data) => OwnedPong(data)
    case Shutdown => OwnedClose(None)
    case Unvaid => OwnedClose(None)
  }

  function FromOwned(o: Owned): Message {
    match o
    case OwnedText(text) => Text(text)
    case OwnedBinary(data) => Binary(data)
    case OwnedClose(Some(c)) => Close(CodeFromU16(c.status), c.reason)
    case OwnedClose(None) => Close(Normal, [])
    case OwnedPing(data) => Ping(data)
    case OwnedPong(data) => Pong(data)
  }

  /** Passing through the WebSocket library keeps a message up to wire form, and turns the
      two messages without a frame of their own into an empty Close. Back and forth from
      the library's side is the identity, except that an empty Close gains a status. */
  lemma OwnedRoundTrip(m: Message, o: Owned)
    ensures FromOwned(ToOwned(m)) == if m.Shutdown? || m.Unvaid? then Close(Normal, []) else Canon(m)
    ensures ToOwned(FromOwned(o)) == o <==> o != OwnedClose(None)
  {
  }

  // ---------- the connection ----------

  datatype Out = HttpRequest | HttpResponse(status: nat) | FrameOut(msg: Owned)

  datatype Pc = Head | Select

  /** The arm `process()` is suspended in. */
  datatype Arm = NoArm | InHandshake | InOpen | InClosing

  /** The fields after `panicked` are history: everything put into the write buffer, the
      handshake's status, whether `on_request` and `on_open` have run, the messages the
      library delivered, and the callbacks made. */
  datatype Conn = Conn(
    side: Side,
    entry: Entry,
    state: WsState,
    ready: bool,
    pc: Pc,
    arm: Arm,
    outcome: Outcome,
    panicked: bool,
    queued: seq<Out>,
    handshake: Option<nat>,
    asked: bool,
    greeted: bool,
    delivered: seq<Message>,
    callbacks: seq<Callback>)

  datatype Event =
    | Start(accepted: bool)
    | LoopHead(ok: bool)
    | Poll
    | Handshake(status: nat, reply: Reply)
    | Frame(owned: Owned, reply: Reply)
    | Eof
    | IoFails(error: NetError)
    | Drained
    | Command(msg: Message)
    | SendersGone
    | Logic(ok: bool)

  function Init(side: Side, entry: Entry): Conn {
    Conn(side, entry, Wait, false, Head, NoArm, Fresh, false, [], None, false, false, [], [])
  }

  predicate AtSelect(s: Conn) {
    s.outcome.Running? && !s.panicked && s.pc.Select?
  }

  /** The errors reading, writing, parsing and the timers can cause. */
  predicate IsIoError(e: NetError) {
    e.Io? || e.Timeout? || e.ReadTimeout? || e.OverInbufferSize?
  }

  predicate Enabled(s: Conn, ev: Event) {
    match ev
    case Start(accepted) => s.outcome.Fresh? && (s.side.Client? ==> accepted)
    case LoopHead(_) => s.outcome.Running? && !s.panicked && s.pc.Head?
    case Poll => AtSelect(s) && s.arm.NoArm?
    case Handshake(_, _) => AtSelect(s) && s.arm.InHandshake?
    case Frame(_, _) => AtSelect(s) && s.arm.InOpen?
    case Eof => AtSelect(s) && (s.arm.InHandshake? || s.arm.InOpen?)
    case IoFails(e) => AtSelect(s) && (s.arm.InHandshake? || s.arm.InOpen?) && IsIoError(e)
    case Drained => AtSelect(s) && s.arm.InClosing?
    case Command(_) => AtSelect(s)
    case SendersGone => AtSelect(s)
    case Logic(_) => AtSelect(s)
  }

  function Fail(s: Conn, e: NetError): Conn {
    s.(outcome := Failed(e), callbacks := s.callbacks + [ERROR_CLOSE])
  }

  /** `unreachable!()` and `todo!()`. */
  function Panic(s: Conn): Conn {
    s.(panicked := true)
  }

  function SendMessage(s: Conn, m: Message): Conn {
    s.(queued := s.queued + [FrameOut(ToOwned(m))])
  }

  /** The local close of both sides: a Close frame only from Open, and only once. */
  function LocalClose(s: Conn, code: CloseCode, reason: Str): Conn {
    match s.state
    case WsOpen => SendMessage(s, Close(code, reason)).(state := WsClosing(CloseInfo(code, reason)))
    case WsClosing(_) => s
    case WsClosed(_) => s
    case _ => s.(state := WsClosing(CloseInfo(code, reason)))
  }

  function ClosingToClosed(s: Conn): Conn {
    match s.state
    case WsClosing(info) => s.(state := WsClosed(info))
    case _ => Panic(s)
  }

  /** Answering, or accepting the answer to, the upgrade request. */
  function HandlerResponse(s: Conn, status: nat): Conn {
    match s.state
    case WaitRet =>
      if s.side.Server? then s.(queued := s.queued + [HttpResponse(status)], state := WsOpen)
      else s.(state := WsOpen)
    case _ => Fail(s, BadStatus)
  }

  /** What `process()` hands to the loop. */
  datatype Received = Req | Res(status: nat) | Msg(msg: Message)

  datatype Polled = Got(s: Conn, what: Received) | Broke(error: NetError)

  /** `process()` when the other side's half of the handshake is complete. */
  function ProcessHandshake(s: Conn, status: nat): Polled {
    match s.side
    case Server => Got(s.(state := WaitRet), Req)
    case Client => if status != 101 then Broke(FailStatus(status)) else Got(s, Res(status))
  }

  function OnMsg(s: Conn, m: Message, reply: Reply): Conn {
    if m.Shutdown? || m.Unvaid? then s.(outcome := Returned)
    else
      var s1 := s.(delivered := s.delivered + [m], callbacks := s.callbacks + [CallbackOf(m)]);
      if m.Close? then s1.(outcome := Returned)
      else if reply.Refused? then Fail(s1, HandlerError)
      else if m.Ping? && reply.pong.Some? then SendMessage(s1, Pong(reply.pong.value))
      else s1
  }

  /** The run loop's reaction. For a request, `status` is that of the handler's response. */
  function Handle(s: Conn, what: Received, status: nat, reply: Reply): Conn {
    match what
    case Req =>
      var s1 := s.(callbacks := s.callbacks + [OnRequest], asked := true);
      if reply.Refused? then Fail(s1, HandlerError)
      else if s1.side.Client? then Panic(s1)
      else
        var s2 := HandlerResponse(s1, status).(handshake := Some(status));
        if s2.outcome.Running? && status != 101 then LocalClose(s2, Normal, HANDSHAKE_FAILED) else s2
    case Res(st) =>
      var s1 := s.(handshake := Some(st));
      if st != 101 then LocalClose(s1, Normal, HANDSHAKE_FAILED)
      else if s1.side.Server? then Panic(s1)
      else HandlerResponse(s1, st)
    case Msg(m) => OnMsg(s, m, reply)
  }

  /** Back to the head of the loop; the other futures of the `select!` are dropped. */
  function NextRound(s: Conn): Conn {
    s.(pc := Head, arm := NoArm)
  }

  function Begin(s: Conn, accepted: bool): Conn {
    if accepted then s.(outcome := Running)
    else if s.entry.RunHandler? then s.(outcome := Failed(Io))
    else Fail(s, Io)
  }

  function HeadStep(s: Conn, ok: bool): Conn {
    if !s.ready && s.state.WsOpen? then
      var s1 := s.(callbacks := s.callbacks + [OnOpen], greeted := true);
      if ok then s1.(ready := true, pc := Select) else Fail(s1, HandlerError)
    else s.(pc := Select)
  }

  /** `process()` up to its first suspension. */
  function PollStep(s: Conn): Conn {
    match s.state
    case Wait =>
      if s.side.Server? then s.(arm := InHandshake)
      else s.(queued := s.queued + [HttpRequest], state := WaitRet, arm := InHandshake)
    case WaitRet =>
      if s.side.Server? then s.(state := WsOpen, arm := InOpen) else s.(arm := InHandshake)
    case WsOpen => s.(arm := InOpen)
    case WsClosing(_) => s.(arm := InClosing)
    case WsClosed(_) => s.(outcome := Returned)
  }

  function HandshakeStep(s: Conn, status: nat, reply: Reply): Conn {
    match ProcessHandshake(s, status)
    case Broke(e) => Fail(s, e)
    case Got(s1, what) => NextRound(Handle(s1, what, status, reply))
  }

  /** The write side of a closing connection is done, failed or timed out. `process()`
      goes on in Closed, which ends the run. */
  function DrainedStep(s: Conn): Conn {
    var s1 := ClosingToClosed(s);
    if s1.panicked then s1 else s1.(arm := NoArm, outcome := Returned)
  }

  function CommandStep(s: Conn, m: Message): Conn {
    match m
    case Close(code, reason) => NextRound(LocalClose(s, code, reason))
    case Shutdown => NextRound(LocalClose(s, Normal, SHUTDOWN))
    case _ => NextRound(SendMessage(s, m))
  }

  function Step(s: Conn, ev: Event): Conn
    requires Enabled(s, ev)
  {
    match ev
    case Start(accepted) => Begin(s, accepted)
    case LoopHead(ok) => HeadStep(s, ok)
    case Poll => PollStep(s)
    case Handshake(status, reply) => HandshakeStep(s, status, reply)
    case Frame(owned, reply) => NextRound(Handle(s, Msg(FromOwned(owned)), 0, reply))
    case Eof => NextRound(Handle(s, Msg(Shutdown), 0, Done(None)))
    case IoFails(e) => Fail(s, e)
    case Drained => DrainedStep(s)
    case Command(m) => CommandStep(s, m)
    case SendersGone => s.(outcome := Returned)
    case Logic(ok) => if ok then NextRound(s) else Fail(s, HandlerError)
  }

  predicate ValidRun(s: Conn, evs: seq<Event>)
    decreases |evs|
  {
    |evs| == 0 || (Enabled(s, evs[0]) && ValidRun(Step(s, evs[0]), evs[1..]))
  }

  function Exec(s: Conn, evs: seq<Event>): Conn
    requires ValidRun(s, evs)
    decreases |evs|
  {
    if |evs| == 0 then s else Exec(Step(s, evs[0]), evs[1..])
  }
}
