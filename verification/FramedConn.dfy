/** A TCP or KCP connection in the source's own form: an object whose methods decode,
    encode and move its state in place (src/tcp/mod.rs, src/kcp/mod.rs). The two files
    differ in the closing step only, so one class carries the transport as a tag. The run
    loop is proved to make exactly the steps of `Channel`. */
module FramedConnection {
  import opened Bytes
  import opened Protocol
  import opened Buffer
  import opened Framing
  import opened Codec
  import opened Callbacks
  import opened Channel
  import opened Sender
  import opened Session

  /** How a poll of `process()` ends: it waits, it hands over a message, or it fails. */
  datatype Polled = Pending | Received(msg: Message) | Broke(error: NetError)

  class FramedConn {
    const transport: Transport
    const settings: Settings
    const read: BinaryMut
    const write: BinaryMut
    var state: Phase
    var outcome: Outcome
    /** The calls made to the handler so far. */
    var calls: seq<Callback>
    /** The state machine this object follows. */
    ghost var model: Conn

    ghost predicate BuffersValid()
      reads this, read, write
    {
      read != write && read.Valid() && write.Valid()
    }

    ghost predicate Valid()
      reads this, read, write
    {
      && BuffersValid()
      && model.transport == transport && model.settings == settings
      && model.phase == state && model.outcome == outcome && model.callbacks == calls
      && model.read == read.Unread() && model.write == write.Unread()
    }

    constructor (transport: Transport, settings: Settings)
      ensures Valid() && model == Init(transport, settings)
      ensures fresh(read) && fresh(write)
    {
      this.transport := transport;
      this.settings := settings;
      read := new BinaryMut();
      write := new BinaryMut();
      state, outcome, calls := Open, Fresh, [];
      model := Init(transport, settings);
    }

    // ---------- process(), one suspension point at a time ----------

    /** The head of the open loop: decode, then check the read limit. */
    method ProcessDecode() returns (r: Polled)
      requires BuffersValid()
      modifies read
      ensures BuffersValid()
      ensures var s := old(read.Unread()); var p := Parse(s, settings);
              && read.Unread() == s[Taken(p)..]
              && r == match p
                      case Complete(m, _) => Received(m)
                      case Malformed(e, _) => Broke(e)
                      case Incomplete => if |s| >= settings.inBufferMax then Broke(OverInbufferSize) else Pending
    {
      var d := DecodeMessage(read, settings);
      match d
      case DecodeFailed(e) =>
        return Broke(e);
      case Decoded(Some(m)) =>
        return Received(m);
      case Decoded(None) =>
        var n := read.Len();
        if n >= settings.inBufferMax {
          return Broke(OverInbufferSize);
        }
        return Pending;
    }

    /** The read branch; no bytes mean the end of the stream. */
    method ProcessRead(chunk: seq<byte>) returns (r: Polled)
      requires BuffersValid()
      modifies read
      ensures BuffersValid() && read.Unread() == old(read.Unread()) + chunk
      ensures r == if chunk == [] then Received(Shutdown) else Pending
    {
      read.PutSlice(chunk);
      return if chunk == [] then Received(Shutdown) else Pending;
    }

    /** The write branch of an open connection: `n` bytes went out. */
    method ProcessWriteOpen(n: nat)
      requires BuffersValid() && n <= |write.Unread()|
      modifies write
      ensures BuffersValid() && write.Unread() == old(write.Unread())[n..]
    {
      write.Advance(n);
      var left := write.Len();
      if left == 0 {
        write.Clear();
      }
    }

    /** The write branch of a closing connection. When the buffer is empty the connection
        is Closed; KCP returns at once, TCP lingers first. */
    method ProcessWriteClosing(n: nat) returns (r: Polled)
      requires BuffersValid() && n <= |write.Unread()|
      modifies this`state, write
      ensures BuffersValid() && write.Unread() == old(write.Unread())[n..]
      ensures var emptied := |old(write.Unread())| == n;
              && state == (if emptied then Closed else old(state))
              && r == if emptied && transport.Kcp? then Received(Shutdown) else Pending
    {
      write.Advance(n);
      var left := write.Len();
      if left == 0 {
        write.Clear();
        state := Closed;
        return if transport.Kcp? then Received(Shutdown) else Pending;
      }
      return Pending;
    }

    // ---------- the run loop ----------

    method Close(code: CloseCode, reason: Str)
      requires BuffersValid()
      modifies this`state, write
      ensures BuffersValid() && state == Closing(code, reason)
      ensures write.Unread() == old(write.Unread()) + Encode(Message.Close(code, reason), settings.isRaw)
    {
      EncodeMessage(write, Message.Close(code, reason), settings.isRaw);
      state := Closing(code, reason);
    }

    /** The loop returns an error; its caller makes the last `on_close`. */
    method ReturnError(e: NetError)
      modifies this`outcome, this`calls
      ensures outcome == Failed(e) && calls == old(calls) + [OnClose(Error, NET_ERROR)]
    {
      outcome := Failed(e);
      calls := calls + [OnClose(Error, NET_ERROR)];
    }

    /** What the loop does with the result of `process()`. */
    method HandlePolled(r: Polled, reply: Reply)
      requires BuffersValid() && outcome.Running?
      modifies this`outcome, this`calls, write
      ensures BuffersValid()
      ensures match r
              case Pending => outcome.Running? && calls == old(calls) && write.Unread() == old(write.Unread())
              case Broke(e) =>
                && outcome == Failed(e) && calls == old(calls) + [ERROR_CLOSE]
                && write.Unread() == old(write.Unread())
              case Received(m) =>
                if m.Shutdown? || m.Unvaid? then
                  outcome.Returned? && calls == old(calls) && write.Unread() == old(write.Unread())
                else
                  && calls == old(calls) + [CallbackOf(m)] + ErrorTail(outcome)
                  && outcome == (if m.Close? then Returned
                                 else if reply.Refused? then Failed(HandlerError) else Running)
                  && write.Unread() == old(write.Unread())
                       + (if m.Ping? && reply.Done? && reply.pong.Some?
                          then Encode(Pong(reply.pong.value), settings.isRaw) else [])
    {
      match r
      case Pending =>
      case Broke(e) =>
        ReturnError(e);
      case Received(m) =>
        match m {
          case Text(_) =>
            calls := calls + [OnMessage(m)];
          case Binary(_) =>
            calls := calls + [OnMessage(m)];
          case Close(code, reason) =>
            calls := calls + [OnClose(code, reason)];
            outcome := Returned;
            return;
          case Ping(data) =>
            calls := calls + [OnPing(data)];
            if reply.Done? && reply.pong.Some? {
              EncodeMessage(write, Pong(reply.pong.value), settings.isRaw);
            }
          case Pong(data) =>
            calls := calls + [OnPong(data)];
          case Shutdown =>
            outcome := Returned;
            return;
          case Unvaid =>
            outcome := Returned;
            return;
        }
        if reply.Refused? {
          ReturnError(HandlerError);
        }
    }

    /** What the loop does with a command from the queue. */
    method HandleCommand(m: Message)
      requires BuffersValid()
      modifies this`state, write
      ensures BuffersValid()
      ensures var out := if m.Shutdown? then Message.Close(Away, SHUTDOWN) else m;
              && write.Unread() == old(write.Unread()) + Encode(out, settings.isRaw)
              && state == if out.Close? then Closing(out.code, out.reason) else old(state)
    {
      match m
      case Close(code, reason) =>
        Close(code, reason);
      case Shutdown =>
        Close(Away, SHUTDOWN);
      case _ =>
        EncodeMessage(write, m, settings.isRaw);
    }

    method Begin(accepted: bool, ready: bool)
      modifies this`outcome, this`calls
      ensures outcome == (if !accepted then Failed(Io) else if ready then Running else Failed(HandlerError))
      ensures calls == old(calls) + (if accepted then [OnOpen] else []) + ErrorTail(outcome)
    {
      if !accepted {
        ReturnError(Io);
        return;
      }
      outcome, calls := Running, calls + [OnOpen];
      if !ready {
        ReturnError(HandlerError);
      }
    }

    // ---------- refinement ----------

    method StepStart(accepted: bool, ready: bool)
      requires Valid() && Enabled(model, Start(accepted, ready))
      modifies this`outcome, this`calls, this`model
      ensures Valid() && model == Step(old(model), Start(accepted, ready))
    {
      Begin(accepted, ready);
      model := Step(model, Start(accepted, ready));
    }

    /** The head of an open `process()`: it hands over a message or an error, or it goes on to
        wait, and then the connection is idle. */
    method StepDeliver(reply: Reply) returns (waits: bool)
      requires Valid() && outcome.Running? && state.Open?
      modifies this`outcome, this`calls, this`model, read, write
      ensures Valid() && waits == Idle(old(model))
      ensures if waits then model == old(model) && outcome == old(outcome) && state == old(state)
              else Enabled(old(model), Deliver(reply)) && model == Step(old(model), Deliver(reply))
    {
      var r := ProcessDecode();
      waits := r.Pending?;
      if !waits {
        HandlePolled(r, reply);
        model := Step(model, Deliver(reply));
      }
    }

    method StepRead(chunk: seq<byte>)
      requires Valid() && Enabled(model, if chunk == [] then ReadEof else ReadBytes(chunk))
      modifies this`outcome, this`calls, this`model, read, write
      ensures Valid() && model == Step(old(model), if chunk == [] then ReadEof else ReadBytes(chunk))
    {
      var r := ProcessRead(chunk);
      HandlePolled(r, Done(None));
      model := Step(model, if chunk == [] then ReadEof else ReadBytes(chunk));
    }

    method StepWrite(n: nat)
      requires Valid() && Enabled(model, WriteBytes(n))
      modifies this`state, this`outcome, this`calls, this`model, write
      ensures Valid() && model == Step(old(model), WriteBytes(n))
    {
      if state.Open? {
        ProcessWriteOpen(n);
      } else {
        var r := ProcessWriteClosing(n);
        HandlePolled(r, Done(None));
      }
      model := Step(model, WriteBytes(n));
    }

    method StepTimer()
      requires Valid() && Enabled(model, Timer)
      modifies this`state, this`outcome, this`calls, this`model, write
      ensures Valid() && model == Step(old(model), Timer)
    {
      if state.Open? {
        HandlePolled(Broke(ReadTimeout), Done(None));
      } else {
        state := Closed;
        HandlePolled(Received(Shutdown), Done(None));
      }
      model := Step(model, Timer);
    }

    method StepCommand(m: Message)
      requires Valid() && Enabled(model, Command(m))
      modifies this`state, this`model, write
      ensures Valid() && outcome == old(outcome) && model == Step(old(model), Command(m))
    {
      HandleCommand(m);
      CommandOutput(model, m);
      CommandInput(model, m);
      CommandOutcome(model, m);
      model := Step(model, Command(m));
    }

    method StepBroken(e: NetError)
      requires Valid() && outcome.Running?
      modifies this`outcome, this`calls, this`model
      ensures Valid() && model == Fail(old(model), e)
    {
      ReturnError(e);
      model := Fail(model, e);
    }

    method StepReturn()
      requires Valid() && outcome.Running?
      modifies this`outcome, this`model
      ensures Valid() && model == old(model).(outcome := Returned)
    {
      outcome := Returned;
      model := model.(outcome := Returned);
    }

    /** The state after `process()` was polled and completed, or still waits. */
    ghost predicate Polls(s: Conn, io: Io, reply: Reply, s': Conn) {
      match ProcessEvent(s, io, reply)
      case Some(ev) => Enabled(s, ev) && s' == Step(s, ev)
      case None => s' == s
    }

    /** The write branch, behind its guard: there is something to write. */
    method SelectWrite(n: nat)
      requires Valid() && outcome.Running? && (Idle(model) || state.Closing?)
      modifies this`state, this`outcome, this`calls, this`model, write
      ensures Valid() && Polls(old(model), Leaves(n), Refused, model)
    {
      var left := write.Len();
      if left > 0 && 0 < n <= left {
        StepWrite(n);
      }
    }

    method SelectWriteBreaks()
      requires Valid() && outcome.Running? && (Idle(model) || state.Closing?)
      modifies this`outcome, this`calls, this`model
      ensures Valid() && Polls(old(model), WriteBreaks, Refused, model)
    {
      var left := write.Len();
      if left > 0 {
        StepBroken(Io);
      }
    }

    /** The `select!` of an open `process()`. */
    method SelectOpen(io: Io)
      requires Valid() && outcome.Running? && Idle(model)
      modifies this`state, this`outcome, this`calls, this`model, read, write
      ensures Valid() && Polls(old(model), io, Refused, model)
    {
      match io
      case Arrives(chunk) => StepRead(chunk);
      case ReadBreaks => StepBroken(Io);
      case Leaves(n) => SelectWrite(n);
      case WriteBreaks => SelectWriteBreaks();
      case Elapses => StepTimer();
    }

    /** The `select!` of a closing `process()`, which reads nothing. */
    method SelectClosing(io: Io)
      requires Valid() && outcome.Running? && state.Closing?
      modifies this`state, this`outcome, this`calls, this`model, write
      ensures Valid() && Polls(old(model), io, Refused, model)
    {
      match io
      case Leaves(n) => SelectWrite(n);
      case WriteBreaks => SelectWriteBreaks();
      case Elapses => StepTimer();
      case _ =>
    }

    /** A poll of `process()`. */
    method PollProcess(io: Io, reply: Reply)
      requires Valid() && outcome.Running?
      modifies this`state, this`outcome, this`calls, this`model, read, write
      ensures Valid() && Polls(old(model), io, reply, model)
    {
      match state
      case Open =>
        var waits := StepDeliver(reply);
        if waits {
          SelectOpen(io);
        }
      case Closing(_, _) =>
        SelectClosing(io);
      case Closed =>
        StepReturn();
    }

    /** The receive branch, behind its guard: the write buffer is below its limit. */
    method Receive(box: NetSender)
      requires Valid() && outcome.Running? && box.Valid()
      modifies this`state, this`outcome, this`model, write, box`queue, box`taken
      ensures Valid() && box.Valid()
      ensures match RecvEvent(Session(old(model), old(box.Box())))
              case Some(ev) =>
                && Enabled(old(model), ev) && Admits(old(box.Box()), ev) && model == Step(old(model), ev)
                && box.Box() == if ev.Command? then Take(old(box.Box())) else old(box.Box())
              case None => model == old(model) && box.Box() == old(box.Box())
      ensures outcome.Running? || outcome.Returned?
    {
      var size := write.Len();
      if size < settings.outBufferMax {
        var r := box.Receive();
        match r {
          case Got(m) => StepCommand(m);
          case AllGone => StepReturn();
          case NotYet =>
        }
      }
    }

    /** A loop that returns drops its receiver. */
    method LeaveIfOver(box: NetSender)
      requires box.Valid() && !box.closed
      modifies box`closed
      ensures box.Valid()
      ensures box.Box() == if outcome.Running? then old(box.Box()) else old(box.Box()).(closed := true)
    {
      if !outcome.Running? {
        box.DropReceiver();
      }
    }

    method TurnProcess(box: NetSender, io: Io, reply: Reply)
      requires Valid() && outcome.Running? && box.Valid() && !box.closed
      modifies this`state, this`outcome, this`calls, this`model, read, write, box`closed
      ensures Valid() && box.Valid()
      ensures Session(model, box.Box()) == Turned(Session(old(model), old(box.Box())), Process(io, reply))
    {
      hide Step, Enabled, Idle;
      ghost var s := Session(model, box.Box());
      PollProcess(io, reply);
      if ProcessEvent(s.conn, io, reply).Some? {
        NotFreshAgain(s, Make(ProcessEvent(s.conn, io, reply).value));
      }
      LeaveIfOver(box);
    }

    method TurnRecv(box: NetSender)
      requires Valid() && outcome.Running? && box.Valid() && !box.closed
      modifies this`state, this`outcome, this`model, write, box
      ensures Valid() && box.Valid()
      ensures Session(model, box.Box()) == Turned(Session(old(model), old(box.Box())), Recv)
    {
      hide Step, Enabled, RecvEvent;
      Receive(box);
      LeaveIfOver(box);
    }

    method TurnLogic(box: NetSender, ok: bool)
      requires Valid() && outcome.Running? && box.Valid() && !box.closed
      modifies this`outcome, this`calls, this`model, box`closed
      ensures Valid() && box.Valid()
      ensures Session(model, box.Box()) == Turned(Session(old(model), old(box.Box())), OnLogic(ok))
    {
      if !ok {
        StepBroken(HandlerError);
      }
      LeaveIfOver(box);
    }

    /** A turn of the loop is what the state machine makes of it: each guard is computed here,
        and none is assumed. */
    method TakeTurn(box: NetSender, turn: Turn)
      requires Valid() && outcome.Running? && box.Valid() && !box.closed
      modifies this`state, this`outcome, this`calls, this`model, read, write, box
      ensures Valid() && box.Valid() && (outcome.Running? ==> !box.closed)
      ensures Session(model, box.Box()) == Turned(Session(old(model), old(box.Box())), turn)
    {
      match turn
      case Process(io, reply) =>
        TurnProcess(box, io, reply);
      case Recv =>
        TurnRecv(box);
      case OnLogic(ok) =>
        TurnLogic(box, ok);
      case Send(m) =>
        if !box.gone {
          var r := box.SendMessage(m);
        }
      case LastSenderDrops =>
        if !box.gone {
          box.DropSenders();
        }
    }

    /** The run loop. Whatever its turns offer, it makes the run that `Play` describes, and it
        returns exactly when that run has ended. */
    method RunWithHandler(box: NetSender, accepted: bool, ready: bool, turns: seq<Turn>)
      requires Valid() && outcome.Fresh? && box.Valid() && !box.closed
      modifies this`state, this`outcome, this`calls, this`model, read, write, box
      ensures Valid() && box.Valid()
      ensures var start := Make(Start(accepted || transport.Kcp?, ready));
              var s := Session(old(model), old(box.Box()));
              SessionEnabled(s, start) && Session(model, box.Box()) == Play(SessionStep(s, start), turns)
    {
      StepStart(accepted || transport.Kcp?, ready);
      if !outcome.Running? {
        box.DropReceiver();
      }
      ghost var s := Session(model, box.Box());
      var i := 0;
      while i < |turns| && outcome.Running?
        invariant 0 <= i <= |turns|
        invariant Valid() && box.Valid() && (outcome.Running? ==> !box.closed)
        invariant Play(Session(model, box.Box()), turns[i..]) == Play(s, turns)
      {
        TakeTurn(box, turns[i]);
        assert turns[i..][0] == turns[i] && turns[i..][1..] == turns[i + 1..];
        i := i + 1;
      }
    }
  }
}
