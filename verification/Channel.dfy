/** The run loop of a TCP or KCP connection as a state machine (src/tcp/mod.rs,
    src/kcp/mod.rs). Every branch of a `select!` is one event. Because a branch that
    completes drops the other futures, an event taken by one branch is also the
    cancellation of `process()`; the state a cancelled `process()` leaves behind is the
    state here. The two transports differ in what happens when the write branch empties
    the buffer of a closing connection. */
module Channel {
  import opened Bytes
  import opened Protocol
  import opened Framing
  import opened Callbacks

  datatype Transport = Tcp | Kcp

  datatype Phase = Open | Closing(code: CloseCode, reason: Str) | Closed

  /** `read` and `write` are the unread bytes of the two buffers. The fields after
      `outcome` are history: the messages passed to the encoder, the bytes handed to and
      received from the stream, the messages decoded, the callbacks made, and whether a
      Closing write branch has emptied the buffer. */
  datatype Conn = Conn(
    transport: Transport,
    settings: Settings,
    phase: Phase,
    read: seq<byte>,
    write: seq<byte>,
    outcome: Outcome,
    sent: seq<Message>,
    written: seq<byte>,
    received: seq<byte>,
    delivered: seq<Message>,
    callbacks: seq<Callback>,
    flushed: bool)

  datatype Event =
    | Start(accepted: bool, ready: bool)
    | Deliver(reply: Reply)
    | ReadBytes(chunk: seq<byte>)
    | ReadEof
    | ReadError
    | WriteBytes(n: nat)
    | WriteError
    | Timer
    | Finish
    | Command(msg: Message)
    | SendersGone
    | Logic(ok: bool)

  function Init(transport: Transport, settings: Settings): Conn {
    Conn(transport, settings, Open, [], [], Fresh, [], [], [], [], [], false)
  }

  /** An open `process()` waits for I/O only after the decoder has asked for more and the
      read buffer is below its limit. */
  predicate Idle(s: Conn) {
    && s.phase.Open?
    && Parse(s.read, s.settings).Incomplete?
    && |s.read| < s.settings.inBufferMax
  }

  predicate Enabled(s: Conn, ev: Event) {
    match ev
    case Start(accepted, _) => s.outcome.Fresh? && (s.transport.Kcp? ==> accepted)
    case Deliver(_) => s.outcome.Running? && s.phase.Open? && !Idle(s)
    case ReadBytes(chunk) => s.outcome.Running? && Idle(s) && |chunk| > 0
    case ReadEof => s.outcome.Running? && Idle(s)
    case ReadError => s.outcome.Running? && Idle(s)
    case WriteBytes(n) =>
      s.outcome.Running? && (Idle(s) || s.phase.Closing?) && 0 < n <= |s.write|
    case WriteError =>
      s.outcome.Running? && (Idle(s) || s.phase.Closing?) && |s.write| > 0
    case Timer => s.outcome.Running? && (Idle(s) || s.phase.Closing?)
    case Finish => s.outcome.Running? && s.phase.Closed?
    case Command(_) => s.outcome.Running? && |s.write| < s.settings.outBufferMax
    case SendersGone => s.outcome.Running? && |s.write| < s.settings.outBufferMax
    case Logic(_) => s.outcome.Running?
  }

  /** The run returns an error, and its caller makes the last `on_close`. */
  function Fail(s: Conn, error: NetError): Conn {
    s.(outcome := Failed(error), callbacks := s.callbacks + [ERROR_CLOSE])
  }

  function Push(s: Conn, m: Message): Conn {
    s.(write := s.write + Encode(m, s.settings.isRaw),
       sent := if Encodes(m, s.settings.isRaw) then s.sent + [m] else s.sent)
  }

  function LocalClose(s: Conn, code: CloseCode, reason: Str): Conn {
    Push(s, Close(code, reason)).(phase := Closing(code, reason))
  }

  function Begin(s: Conn, accepted: bool, ready: bool): Conn {
    if !accepted then Fail(s, Io)
    else
      var s1 := s.(outcome := Running, callbacks := s.callbacks + [OnOpen]);
      if ready then s1 else Fail(s1, HandlerError)
  }

  /** The run loop's reaction to a decoded message. */
  function Handle(s: Conn, m: Message, reply: Reply): Conn {
    var s1 := s.(callbacks := s.callbacks + [CallbackOf(m)]);
    if m.Close? then s1.(outcome := Returned)
    else if reply.Refused? then Fail(s1, HandlerError)
    else if m.Ping? && reply.pong.Some? then Push(s1, Pong(reply.pong.value))
    else s1
  }

  function DeliverStep(s: Conn, reply: Reply): Conn {
    match Parse(s.read, s.settings)
    case Incomplete => Fail(s, OverInbufferSize)
    case Malformed(error, used) => Fail(s.(read := s.read[used..]), error)
    case Complete(m, used) =>
      Handle(s.(read := s.read[used..], delivered := s.delivered + [m]), m, reply)
  }

  function WriteStep(s: Conn, n: nat): Conn
    requires n <= |s.write|
  {
    var s1 := s.(write := s.write[n..], written := s.written + s.write[..n]);
    if s.phase.Closing? && |s1.write| == 0 then
      s1.(phase := Closed, flushed := true,
          outcome := if s.transport.Kcp? then Returned else s1.outcome)
    else s1
  }

  function TimerStep(s: Conn): Conn {
    if s.phase.Open? then Fail(s, ReadTimeout) else s.(phase := Closed, outcome := Returned)
  }

  function CommandStep(s: Conn, m: Message): Conn {
    match m
    case Close(code, reason) => LocalClose(s, code, reason)
    case Shutdown => LocalClose(s, Away, SHUTDOWN)
    case _ => Push(s, m)
  }

  function Step(s: Conn, ev: Event): Conn
    requires Enabled(s, ev)
  {
    match ev
    case Start(accepted, ready) => Begin(s, accepted, ready)
    case Deliver(reply) => DeliverStep(s, reply)
    case ReadBytes(chunk) => s.(read := s.read + chunk, received := s.received + chunk)
    case ReadEof => s.(outcome := Returned)
    case ReadError => Fail(s, Io)
    case WriteBytes(n) => WriteStep(s, n)
    case WriteError => Fail(s, Io)
    case Timer => TimerStep(s)
    case Finish => s.(outcome := Returned)
    case Command(m) => CommandStep(s, m)
    case SendersGone => s.(outcome := Returned)
    case Logic(ok) => if ok then s else Fail(s, HandlerError)
  }

  /** The message an event passes to the encoder, if any. */
  function Pushed(s: Conn, ev: Event): Option<Message> {
    match ev
    case Command(Shutdown) => Some(Close(Away, SHUTDOWN))
    case Command(m) => Some(m)
    case Deliver(Done(Some(data))) =>
      var p := Parse(s.read, s.settings);
      if p.Complete? && p.msg.Ping? then Some(Pong(data)) else None
    case _ => None
  }

  /** How `s'` differs from `s` on the output side when `pushed` went to the encoder. */
  ghost predicate Output(s: Conn, s': Conn, pushed: Option<Message>) {
    && s'.settings == s.settings && s'.transport == s.transport && s'.written == s.written
    && match pushed
       case None => s'.write == s.write && s'.sent == s.sent
       case Some(m) =>
         && s'.write == s.write + Encode(m, s.settings.isRaw)
         && s'.sent == (if Encodes(m, s.settings.isRaw) then s.sent + [m] else s.sent)
  }

  lemma DeliverOutput(s: Conn, reply: Reply)
    ensures Output(s, DeliverStep(s, reply), Pushed(s, Deliver(reply)))
  {
  }

  lemma CommandOutput(s: Conn, m: Message)
    ensures Output(s, CommandStep(s, m), Pushed(s, Command(m)))
  {
  }

  /** What an event does to the output side. */
  lemma OutputEffect(s: Conn, ev: Event)
    requires Enabled(s, ev) && !ev.WriteBytes?
    ensures Output(s, Step(s, ev), Pushed(s, ev))
  {
    match ev
    case Deliver(reply) => DeliverOutput(s, reply);
    case Command(m) => CommandOutput(s, m);
    case _ =>
  }

  /** How `s'` differs from `s` on the input side when `chunk` was read. */
  ghost predicate Input(s: Conn, s': Conn, chunk: seq<byte>) {
    s'.read == s.read + chunk && s'.received == s.received + chunk && s'.delivered == s.delivered
  }

  lemma CommandInput(s: Conn, m: Message)
    ensures Input(s, CommandStep(s, m), [])
  {
  }

  /** What an event other than a delivery does to the input side. */
  lemma InputEffect(s: Conn, ev: Event)
    requires Enabled(s, ev) && !ev.Deliver?
    ensures Input(s, Step(s, ev), if ev.ReadBytes? then ev.chunk else [])
  {
    match ev
    case Command(m) => CommandInput(s, m);
    case _ =>
  }

  /** A message is put through the local close of the run loop. */
  predicate IsLocalClose(ev: Event) {
    ev.Command? && (ev.msg.Close? || ev.msg.Shutdown?)
  }

  /** What a command does to the state and the outcome. */
  lemma CommandOutcome(s: Conn, m: Message)
    ensures var s' := CommandStep(s, m);
            && s'.outcome == s.outcome && s'.callbacks == s.callbacks && s'.flushed == s.flushed
            && (if IsLocalClose(Command(m)) then s'.phase.Closing? else s'.phase == s.phase)
  {
  }

  lemma DeliverOutcome(s: Conn, reply: Reply)
    requires s.outcome.Running?
    ensures var s' := DeliverStep(s, reply);
            && s'.phase == s.phase && s'.flushed == s.flushed
            && !s'.outcome.Fresh?
            && (s'.outcome == Failed(OverInbufferSize) ==> Parse(s.read, s.settings).Incomplete?)
  {
  }

  /** The phase changes only by a local close, by the Closing write branch that empties
      the buffer, and by the Closing timer. */
  lemma PhaseEffect(s: Conn, ev: Event)
    requires Enabled(s, ev)
    ensures var s' := Step(s, ev);
            if IsLocalClose(ev) then s'.phase.Closing? && s'.flushed == s.flushed
            else if s.phase.Closing? && ev.WriteBytes? && ev.n == |s.write| then
              && s'.phase.Closed? && s'.flushed && s'.write == []
              && (s.transport.Kcp? ==> s'.outcome.Returned?)
            else if s.phase.Closing? && ev.Timer? then
              s'.phase.Closed? && s'.flushed == s.flushed && s'.outcome.Returned?
            else s'.phase == s.phase && s'.flushed == s.flushed
  {
    match ev
    case Command(m) => CommandOutcome(s, m);
    case Deliver(reply) => DeliverOutcome(s, reply);
    case _ =>
  }

  /** An event other than the start and a delivery makes no callback but the error close. */
  lemma OutcomeEffect(s: Conn, ev: Event)
    requires Enabled(s, ev) && !ev.Deliver?
    ensures var s' := Step(s, ev);
            && !s'.outcome.Fresh?
            && s'.settings == s.settings && s'.transport == s.transport
            && s'.callbacks == s.callbacks + (if ev.Start? && ev.accepted then [OnOpen] else []) + ErrorTail(s'.outcome)
            && s'.outcome != Failed(OverInbufferSize)
  {
    assert s.callbacks + [] + [] == s.callbacks + [] == s.callbacks;
    assert s.callbacks + [OnOpen] + [] == s.callbacks + [OnOpen];
    assert s.callbacks + [] + [ERROR_CLOSE] == s.callbacks + [ERROR_CLOSE];
    match ev
    case Command(m) => CommandOutcome(s, m); CommandOutput(s, m);
    case _ =>
  }

  predicate ValidRun(s: Conn, evs: seq<Event>)
    decreases |evs|
  {
    |evs| == 0 || (Enabled(s, evs[0]) && ValidRun(Step(s, evs[0]), evs[1..]))
  }

  function Exec(s: Conn, evs: seq<Event>): Conn
    requires ValidRun(s, evs)
    decreases |evs|
  {
    if |evs| == 0 then s else Exec(Step(s, evs[0]), evs[1..])
  }

  lemma {:induction false} ExecSnoc(s: Conn, evs: seq<Event>, ev: Event)
    requires ValidRun(s, evs) && Enabled(Exec(s, evs), ev)
    ensures ValidRun(s, evs + [ev]) && Exec(s, evs + [ev]) == Step(Exec(s, evs), ev)
    decreases |evs|
  {
    if |evs| == 0 {
      assert evs + [ev] == [ev] && [ev][1..] == [];
      assert ValidRun(Step(s, ev), []);
    } else {
      assert (evs + [ev])[1..] == evs[1..] + [ev];
      ExecSnoc(Step(s, evs[0]), evs[1..], ev);
    }
  }

  lemma {:induction false} RunAppend(s: Conn, before: seq<Event>, after: seq<Event>)
    requires ValidRun(s, before + after)
    ensures ValidRun(s, before) && ValidRun(Exec(s, before), after)
    ensures Exec(s, before + after) == Exec(Exec(s, before), after)
    decreases |before|
  {
    if |before| == 0 {
      assert before + after == after;
    } else {
      assert (before + after)[1..] == before[1..] + after;
      RunAppend(Step(s, before[0]), before[1..], after);
    }
  }
}
