/** A connection together with its command queue: commands come from the head of the queue,
    and the run loop's turns say what its environment does. A turn whose branch is not there
    changes nothing, so every sequence of turns is a run. */
module Session {
  import opened Bytes
  import opened Protocol
  import opened Framing
  import opened Callbacks
  import opened Channel
  import opened Sender

  datatype Session = Session(conn: Conn, box: Mailbox)

  datatype SessionEvent = Make(ev: Event) | Post(msg: Message) | DropSenders

  predicate Ended(s: Conn) {
    s.outcome.Returned? || s.outcome.Failed?
  }

  /** The queue's part in an event of the connection. */
  predicate Admits(b: Mailbox, ev: Event) {
    && (ev.Command? ==> b.queue != [] && ev.msg == b.queue[0])
    && (ev.SendersGone? ==> b.queue == [] && b.gone)
  }

  /** A command leaves the queue, and a run that ends drops the receiver. */
  function BoxAfter(b: Mailbox, ev: Event, after: Conn): Mailbox
    requires Admits(b, ev)
  {
    var b1 := if ev.Command? then Take(b) else b;
    if Ended(after) then b1.(closed := true) else b1
  }

  predicate SessionEnabled(s: Session, e: SessionEvent) {
    match e
    case Make(ev) => Enabled(s.conn, ev) && Admits(s.box, ev)
    case Post(_) => !s.box.gone
    case DropSenders => !s.box.gone
  }

  function SessionStep(s: Session, e: SessionEvent): Session
    requires SessionEnabled(s, e)
  {
    match e
    case Make(ev) => Session(Step(s.conn, ev), BoxAfter(s.box, ev, Step(s.conn, ev)))
    case Post(m) => s.(box := Put(s.box, m))
    case DropSenders => s.(box := s.box.(gone := true))
  }

  predicate SessionRun(s: Session, es: seq<SessionEvent>)
    decreases |es|
  {
    |es| == 0 || (SessionEnabled(s, es[0]) && SessionRun(SessionStep(s, es[0]), es[1..]))
  }

  function SessionExec(s: Session, es: seq<SessionEvent>): Session
    requires SessionRun(s, es)
    decreases |es|
  {
    if |es| == 0 then s else SessionExec(SessionStep(s, es[0]), es[1..])
  }

  // ---------- turns ----------

  /** What the stream or the clock has ready when `process()` is polled. */
  datatype Io = Arrives(chunk: seq<byte>) | ReadBreaks | Leaves(n: nat) | WriteBreaks | Elapses

  /** A turn of the loop polls one branch of its `select!`, or lets a sender act. */
  datatype Turn =
    | Process(io: Io, reply: Reply)
    | Recv
    | OnLogic(ok: bool)
    | Send(msg: Message)
    | LastSenderDrops

  /** What `process()` completes with. In Open the decoder comes first, then the branches;
      the write branch is there if there is something to write. */
  function ProcessEvent(s: Conn, io: Io, reply: Reply): Option<Event> {
    if s.phase.Open? && !Idle(s) then Some(Deliver(reply))
    else if s.phase.Closed? then Some(Finish)
    else
      match io
      case Arrives(chunk) =>
        if s.phase.Open? then Some(if chunk == [] then ReadEof else ReadBytes(chunk)) else None
      case ReadBreaks => if s.phase.Open? then Some(ReadError) else None
      case Leaves(n) => if 0 < n <= |s.write| then Some(WriteBytes(n)) else None
      case WriteBreaks => if |s.write| > 0 then Some(WriteError) else None
      case Elapses => Some(Timer)
  }

  /** What the receive branch completes with; it is there while the write buffer is below
      its limit. */
  function RecvEvent(s: Session): Option<Event> {
    if |s.conn.write| >= s.conn.settings.outBufferMax then None
    else if s.box.queue != [] then Some(Command(s.box.queue[0]))
    else if s.box.gone then Some(SendersGone)
    else None
  }

  function MadeBy(ev: Option<Event>): Option<SessionEvent> {
    match ev
    case Some(e) => Some(Make(e))
    case None => None
  }

  /** The event a turn of a running loop makes, if any. */
  function EventOf(s: Session, turn: Turn): Option<SessionEvent> {
    match turn
    case Process(io, reply) => MadeBy(ProcessEvent(s.conn, io, reply))
    case Recv => MadeBy(RecvEvent(s))
    case OnLogic(ok) => Some(Make(Logic(ok)))
    case Send(m) => if s.box.gone then None else Some(Post(m))
    case LastSenderDrops => if s.box.gone then None else Some(DropSenders)
  }

  /** The turns make exactly the events of the state machine. */
  lemma {:induction false} TurnsAreEvents(s: Session)
    requires s.conn.outcome.Running?
    ensures forall turn :: EventOf(s, turn).Some? ==> SessionEnabled(s, EventOf(s, turn).value)
    ensures forall e :: SessionEnabled(s, e) ==> exists turn :: EventOf(s, turn) == Some(e)
  {
    forall turn | EventOf(s, turn).Some? ensures SessionEnabled(s, EventOf(s, turn).value) {
      EventIsEnabled(s, turn);
    }
    forall e | SessionEnabled(s, e) ensures exists turn :: EventOf(s, turn) == Some(e) {
      var turn := TurnFor(s, e);
    }
  }

  lemma {:induction false} EventIsEnabled(s: Session, turn: Turn)
    requires s.conn.outcome.Running? && EventOf(s, turn).Some?
    ensures SessionEnabled(s, EventOf(s, turn).value)
  {
    hide Parse;
  }

  lemma {:induction false} TurnFor(s: Session, e: SessionEvent) returns (turn: Turn)
    requires s.conn.outcome.Running? && SessionEnabled(s, e)
    ensures EventOf(s, turn) == Some(e)
  {
    hide Parse;
    match e
    case Post(m) => turn := Send(m);
    case DropSenders => turn := LastSenderDrops;
    case Make(ev) =>
      match ev {
        case Deliver(reply) => turn := Process(Elapses, reply);
        case ReadBytes(chunk) => turn := Process(Arrives(chunk), Refused);
        case ReadEof => turn := Process(Arrives([]), Refused);
        case ReadError => turn := Process(ReadBreaks, Refused);
        case WriteBytes(n) => turn := Process(Leaves(n), Refused);
        case WriteError => turn := Process(WriteBreaks, Refused);
        case Timer => turn := Process(Elapses, Refused);
        case Finish => turn := Process(Elapses, Refused);
        case Command(_) => turn := Recv;
        case SendersGone => turn := Recv;
        case Logic(ok) => turn := OnLogic(ok);
        case Start(_, _) => assert false;
      }
  }

  function Turned(s: Session, turn: Turn): Session
    requires s.conn.outcome.Running?
  {
    if EventOf(s, turn).Some? then
      EventIsEnabled(s, turn);
      SessionStep(s, EventOf(s, turn).value)
    else s
  }

  /** The loop goes on until it returns. */
  function Play(s: Session, turns: seq<Turn>): Session
    decreases |turns|
  {
    if |turns| == 0 || !s.conn.outcome.Running? then s
    else Play(Turned(s, turns[0]), turns[1..])
  }

  /** Any turns whatever make a run of the state machine. */
  lemma {:induction false} PlayIsRun(s: Session, turns: seq<Turn>) returns (es: seq<SessionEvent>)
    ensures SessionRun(s, es) && SessionExec(s, es) == Play(s, turns)
    decreases |turns|
  {
    es := [];
    if |turns| > 0 && s.conn.outcome.Running? {
      es := PlayIsRun(Turned(s, turns[0]), turns[1..]);
      if EventOf(s, turns[0]).Some? {
        EventIsEnabled(s, turns[0]);
        var e := EventOf(s, turns[0]).value;
        assert ([e] + es)[1..] == es;
        es := [e] + es;
      }
    }
  }

  /** And every run of the state machine is made by some turns. */
  lemma {:induction false} EveryRunIsPlayed(s: Session, es: seq<SessionEvent>) returns (turns: seq<Turn>)
    requires SessionRun(s, es) && !s.conn.outcome.Fresh?
    ensures Play(s, turns).conn == SessionExec(s, es).conn
    decreases |es|
  {
    hide Enabled, Step, EventOf, Put;
    turns := [];
    if |es| > 0 {
      NotFreshAgain(s, es[0]);
      var rest := EveryRunIsPlayed(SessionStep(s, es[0]), es[1..]);
      if s.conn.outcome.Running? {
        var turn := TurnFor(s, es[0]);
        turns := [turn] + rest;
        assert turns[1..] == rest;
      }
    }
  }

  lemma {:induction false} NotFreshAgain(s: Session, e: SessionEvent)
    requires SessionEnabled(s, e) && !s.conn.outcome.Fresh?
    ensures !SessionStep(s, e).conn.outcome.Fresh?
    ensures !s.conn.outcome.Running? ==> SessionStep(s, e).conn == s.conn
  {
    if e.Make? {
      if e.ev.Deliver? {
        DeliverOutcome(s.conn, e.ev.reply);
      } else {
        OutcomeEffect(s.conn, e.ev);
      }
    }
  }

  // ---------- the connection's part of a session ----------

  function EventsMade(es: seq<SessionEvent>): seq<Event> {
    if |es| == 0 then [] else (if es[0].Make? then [es[0].ev] else []) + EventsMade(es[1..])
  }

  /** The connection of a session makes a run of its own, so all that is proved about runs
      holds for it. */
  lemma {:induction false} SessionProjects(s: Session, es: seq<SessionEvent>)
    requires SessionRun(s, es)
    ensures ValidRun(s.conn, EventsMade(es)) && Exec(s.conn, EventsMade(es)) == SessionExec(s, es).conn
    decreases |es|
  {
    if |es| > 0 {
      SessionProjects(SessionStep(s, es[0]), es[1..]);
      if es[0].Make? {
        assert EventsMade(es)[0] == es[0].ev && EventsMade(es)[1..] == EventsMade(es[1..]);
      } else {
        assert EventsMade(es) == EventsMade(es[1..]);
      }
    }
  }
}
