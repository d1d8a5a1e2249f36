/** A WebSocket connection in the source's own form: an endpoint object, server or client,
    that changes its state and fills its write buffer in place, and the connection object
    whose run loop drives it (src/ws/server.rs, src/ws/client.rs, src/ws/mod.rs). The run
    loop is proved to make exactly the steps of `WebSocket`; the places the source marks
    unreachable are preconditions the loop is shown to meet. */
module WsConnection {
  import opened Bytes
  import opened Protocol
  import opened Callbacks
  import opened WebSocket
  import opened WebSocketRuns

  /** `WsServer` and `WsClient`; they differ in the handshake. `write` is everything ever
      put into the write buffer, whatever of it has been sent. */
  class Endpoint {
    const side: Side
    var state: WsState
    var write: seq<Out>

    constructor (side: Side)
      ensures this.side == side && state == Wait && write == []
    {
      this.side := side;
      state, write := Wait, [];
    }

    method SendMessage(m: Message)
      modifies this`write
      ensures write == old(write) + [FrameOut(ToOwned(m))]
    {
      write := write + [FrameOut(ToOwned(m))];
    }

    /** A Close frame goes out from Open only, and a connection that is closing already
        keeps its first code and reason. */
    method Close(code: CloseCode, reason: Str)
      modifies this
      ensures state == (if old(state).WsClosing? || old(state).WsClosed? then old(state)
                        else WsClosing(CloseInfo(code, reason)))
      ensures write == (if old(state).WsOpen? then old(write) + [FrameOut(ToOwned(Message.Close(code, reason)))]
                        else old(write))
    {
      match state
      case WsOpen =>
        SendMessage(Message.Close(code, reason));
        state := WsClosing(CloseInfo(code, reason));
      case WsClosing(_) =>
      case WsClosed(_) =>
      case _ =>
        state := WsClosing(CloseInfo(code, reason));
    }

    /** Fails with the bad-status error unless the endpoint waits for the response. */
    method HandlerResponse(status: nat) returns (ok: bool)
      modifies this
      ensures ok == old(state).WaitRet?
      ensures ok ==> state.WsOpen?
                     && write == old(write) + (if side.Server? then [HttpResponse(status)] else [])
      ensures !ok ==> state == old(state) && write == old(write)
    {
      match state
      case WaitRet =>
        if side.Server? {
          write := write + [HttpResponse(status)];
        }
        state := WsOpen;
        ok := true;
      case _ =>
        ok := false;
    }

    /** The source has `unreachable!()` for every other state. */
    method ClosingToClosed()
      requires state.WsClosing?
      modifies this`state
      ensures state == WsClosed(old(state).info)
    {
      state := WsClosed(state.info);
    }

    /** `process()` up to its first wait; true if it returns with Shutdown at once. */
    method Poll() returns (shutdown: bool)
      modifies this
      ensures shutdown == old(state).WsClosed?
      ensures state == (if side.Client? && old(state).Wait? then WaitRet
                        else if side.Server? && old(state).WaitRet? then WsOpen else old(state))
      ensures write == old(write) + (if side.Client? && old(state).Wait? then [HttpRequest] else [])
    {
      match state
      case Wait =>
        if side.Client? {
          write := write + [HttpRequest];
          state := WaitRet;
        }
        shutdown := false;
      case WaitRet =>
        if side.Server? {
          state := WsOpen;
        }
        shutdown := false;
      case WsClosed(_) =>
        shutdown := true;
      case _ =>
        shutdown := false;
    }
  }

  class WsConn {
    const ws: Endpoint
    const entry: Entry
    var ready: bool
    var outcome: Outcome
    /** Whether the loop is in its `select!`, and whether `process()` is suspended there. */
    var selecting: bool
    var suspended: bool
    /** The calls made to the handler so far. */
    var calls: seq<Callback>
    /** The state machine this object follows. */
    ghost var model: Conn

    ghost predicate Valid()
      reads this, ws
    {
      && Inv(model)
      && model.pc == (if selecting then Select else Head) && (model.arm != NoArm <==> suspended)
      && model.side == ws.side && model.state == ws.state && model.queued == ws.write
      && model.entry == entry && model.ready == ready
      && model.outcome == outcome && model.callbacks == calls
    }

    constructor (side: Side, entry: Entry)
      ensures Valid() && model == Init(side, entry) && fresh(ws)
    {
      ws := new Endpoint(side);
      this.entry := entry;
      ready, outcome, calls := false, Fresh, [];
      selecting, suspended := false, false;
      model := Init(side, entry);
      new;
      InitInv(side, entry);
    }

    method ReturnError(e: NetError)
      modifies this`outcome, this`calls
      ensures outcome == Failed(e) && calls == old(calls) + [OnClose(Error, NET_ERROR)]
    {
      outcome := Failed(e);
      calls := calls + [OnClose(Error, NET_ERROR)];
    }

    /** Back to the head of the loop; a suspended `process()` is dropped. */
    method StartOver()
      modifies this`selecting, this`suspended
      ensures !selecting && !suspended
    {
      selecting, suspended := false, false;
    }

    /** What the loop does with a message from `process()`. */
    method HandleMsg(m: Message, reply: Reply)
      requires Valid() && outcome.Running?
      modifies this`outcome, this`calls, ws`write
      ensures var s' := OnMsg(model, m, reply);
              outcome == s'.outcome && calls == s'.callbacks && ws.write == s'.queued
    {
      match m {
        case Text(_) =>
          calls := calls + [OnMessage(m)];
        case Binary(_) =>
          calls := calls + [OnMessage(m)];
        case Close(code, reason) =>
          calls := calls + [OnClose(code, reason)];
          outcome := Returned;
          return;
        case Ping(data) =>
          calls := calls + [OnPing(data)];
          if reply.Done? && reply.pong.Some? {
            ws.SendMessage(Pong(reply.pong.value));
          }
        case Pong(data) =>
          calls := calls + [OnPong(data)];
        case Shutdown =>
          outcome := Returned;
          return;
        case Unvaid =>
          outcome := Returned;
          return;
      }
      if reply.Refused? {
        ReturnError(HandlerError);
      }
    }

    method StepStart(accepted: bool)
      requires Valid() && Enabled(model, Start(accepted))
      modifies this`outcome, this`calls, this`model
      ensures Valid() && model == Step(old(model), Start(accepted))
    {
      StepInv(model, Start(accepted));
      if accepted {
        outcome := Running;
      } else if entry.RunHandler? {
        outcome := Failed(Io);
      } else {
        ReturnError(Io);
      }
      model := Step(model, Start(accepted));
    }

    method StepHead(ok: bool)
      requires Valid() && Enabled(model, LoopHead(ok))
      modifies this`selecting, this`outcome, this`calls, this`ready, this`model
      ensures Valid() && model == Step(old(model), LoopHead(ok))
    {
      StepInv(model, LoopHead(ok));
      if !ready && ws.state.WsOpen? {
        calls := calls + [OnOpen];
        if ok {
          ready, selecting := true, true;
        } else {
          ReturnError(HandlerError);
        }
      } else {
        selecting := true;
      }
      model := Step(model, LoopHead(ok));
    }

    /** A connection still running is not Closed, so `process()` never returns at once. */
    method StepPoll()
      requires Valid() && Enabled(model, Poll)
      modifies this`suspended, this`model, ws
      ensures Valid() && model == Step(old(model), Poll)
    {
      StepInv(model, Poll);
      var shutdown := ws.Poll();
      assert !shutdown;
      suspended := true;
      model := Step(model, Poll);
    }

    /** A server passes the request to the handler, which may refuse it. */
    method StepRequestRefused(status: nat)
      requires Valid() && Enabled(model, Handshake(status, Refused)) && ws.side.Server?
      modifies this`selecting, this`suspended, this`outcome, this`calls, this`model, ws
      ensures Valid() && model == Step(old(model), Handshake(status, Refused))
    {
      StepInv(model, Handshake(status, Refused));
      HandshakeIs(model, status, Refused);
      hide Log, Control;
      ws.state := WaitRet;
      calls := calls + [OnRequest];
      ReturnError(HandlerError);
      StartOver();
      model := HandshakeResult(model, status, Refused);
    }

    /** The response goes out and opens the connection; unless it is a 101 the connection
        closes at once. */
    method Respond(status: nat)
      requires ws.state.WaitRet? && ws.side.Server?
      modifies ws
      ensures var answered := old(ws.write) + [HttpResponse(status)];
              if status == 101 then ws.state == WsOpen && ws.write == answered
              else
                && ws.state == WsClosing(CloseInfo(Normal, HANDSHAKE_FAILED))
                && ws.write == answered + [FrameOut(ToOwned(Message.Close(Normal, HANDSHAKE_FAILED)))]
    {
      var ok := ws.HandlerResponse(status);
      assert ok;
      if status != 101 {
        ws.Close(Normal, HANDSHAKE_FAILED);
      }
    }

    method StepRequest(status: nat, pong: Option<seq<byte>>)
      requires Valid() && Enabled(model, Handshake(status, Done(pong))) && ws.side.Server?
      modifies this`selecting, this`suspended, this`outcome, this`calls, this`model, ws
      ensures Valid() && model == Step(old(model), Handshake(status, Done(pong)))
    {
      StepInv(model, Handshake(status, Done(pong)));
      HandshakeIs(model, status, Done(pong));
      hide HandshakeStep, ToOwned, Ascii, Log, Control;
      ws.state := WaitRet;
      calls := calls + [OnRequest];
      Respond(status);
      StartOver();
      model := HandshakeResult(model, status, Done(pong));
    }

    /** A client checks the status before it takes the response. */
    method StepResponse(status: nat, reply: Reply)
      requires Valid() && Enabled(model, Handshake(status, reply)) && ws.side.Client?
      modifies this`selecting, this`suspended, this`outcome, this`calls, this`model, ws
      ensures Valid() && model == Step(old(model), Handshake(status, reply))
    {
      StepInv(model, Handshake(status, reply));
      HandshakeIs(model, status, reply);
      if status != 101 {
        ReturnError(FailStatus(status));
      } else {
        var ok := ws.HandlerResponse(status);
        assert ok;
        StartOver();
      }
      model := HandshakeResult(model, status, reply);
    }

    method StepFrame(owned: Owned, reply: Reply)
      requires Valid() && Enabled(model, Frame(owned, reply))
      modifies this`selecting, this`suspended, this`outcome, this`calls, this`model, ws`write
      ensures Valid() && model == Step(old(model), Frame(owned, reply))
    {
      StepInv(model, Frame(owned, reply));
      FrameKeeps(model, FromOwned(owned), reply);
      HandleMsg(FromOwned(owned), reply);
      StartOver();
      model := Step(model, Frame(owned, reply));
    }

    /** The closing arm: the write side is done, and `process()` returns from Closed. */
    method StepDrained()
      requires Valid() && Enabled(model, Drained)
      modifies this`suspended, this`outcome, this`model, ws`state
      ensures Valid() && model == Step(old(model), Drained)
    {
      StepInv(model, Drained);
      ws.ClosingToClosed();
      outcome, suspended := Returned, false;
      model := Step(model, Drained);
    }

    method StepClose(code: CloseCode, reason: Str)
      requires Valid() && AtSelect(model)
      modifies this`selecting, this`suspended, this`model, ws
      ensures Valid() && model == NextRound(LocalClose(old(model), code, reason))
    {
      CloseKeeps(model, code, reason);
      ws.Close(code, reason);
      StartOver();
      model := NextRound(LocalClose(model, code, reason));
    }

    method StepCommand(m: Message)
      requires Valid() && Enabled(model, Command(m))
      modifies this`selecting, this`suspended, this`model, ws
      ensures Valid() && model == Step(old(model), Command(m))
    {
      hide Inv, LocalClose, ToOwned, Ascii;
      match m
      case Close(code, reason) =>
        StepClose(code, reason);
      case Shutdown =>
        StepClose(Normal, SHUTDOWN);
      case _ =>
        StepSend(m);
    }

    method StepSend(m: Message)
      requires Valid() && Enabled(model, Command(m)) && !m.Close? && !m.Shutdown?
      modifies this`selecting, this`suspended, this`model, ws
      ensures Valid() && model == Step(old(model), Command(m))
    {
      StepInv(model, Command(m));
      ws.SendMessage(m);
      StartOver();
      hide Inv, ToOwned;
      model := NextRound(WebSocket.SendMessage(model, m));
    }

    /** Which of the events the loop can take now: an arm of `process()` when it is suspended
        there, which the state tells, and the other branches while the loop selects. */
    method Ready(ev: Event) returns (r: bool)
      requires Valid()
      ensures r == Enabled(model, ev)
    {
      var at := outcome.Running? && selecting;
      match ev
      case Start(accepted) => r := outcome.Fresh? && (ws.side.Client? ==> accepted);
      case LoopHead(_) => r := outcome.Running? && !selecting;
      case Poll => r := at && !suspended;
      case Handshake(_, _) => r := at && suspended && (ws.state.Wait? || ws.state.WaitRet?);
      case Frame(_, _) => r := at && suspended && ws.state.WsOpen?;
      case Eof => r := at && suspended && !ws.state.WsClosing?;
      case IoFails(e) => r := at && suspended && !ws.state.WsClosing? && IsIoError(e);
      case Drained => r := at && suspended && ws.state.WsClosing?;
      case Command(_) => r := at;
      case SendersGone => r := at;
      case Logic(_) => r := at;
    }

    method StepEof()
      requires Valid() && Enabled(model, Eof)
      modifies this`selecting, this`suspended, this`outcome, this`calls, this`model, ws`write
      ensures Valid() && model == Step(old(model), Eof)
    {
      StepInv(model, Eof);
      HandleMsg(Shutdown, Done(None));
      StartOver();
      model := Step(model, Eof);
    }

    method StepIoFails(e: NetError)
      requires Valid() && Enabled(model, IoFails(e))
      modifies this`outcome, this`calls, this`model
      ensures Valid() && model == Step(old(model), IoFails(e))
    {
      StepInv(model, IoFails(e));
      ReturnError(e);
      model := Step(model, IoFails(e));
    }

    method StepSendersGone()
      requires Valid() && Enabled(model, SendersGone)
      modifies this`outcome, this`model
      ensures Valid() && model == Step(old(model), SendersGone)
    {
      StepInv(model, SendersGone);
      outcome := Returned;
      model := Step(model, SendersGone);
    }

    method StepLogic(ok: bool)
      requires Valid() && Enabled(model, Logic(ok))
      modifies this`selecting, this`suspended, this`outcome, this`calls, this`model
      ensures Valid() && model == Step(old(model), Logic(ok))
    {
      StepInv(model, Logic(ok));
      if ok {
        StartOver();
      } else {
        ReturnError(HandlerError);
      }
      model := Step(model, Logic(ok));
    }

    method Dispatch(ev: Event)
      requires Valid() && Enabled(model, ev)
      modifies this`selecting, this`suspended, this`outcome, this`calls, this`ready, this`model, ws
      ensures Valid() && model == Step(old(model), ev)
    {
      hide Inv, Step;
      match ev
      case Start(accepted) => StepStart(accepted);
      case LoopHead(ok) => StepHead(ok);
      case Poll => StepPoll();
      case Handshake(status, reply) =>
        if ws.side.Server? {
          match reply {
            case Done(pong) => StepRequest(status, pong);
            case Refused => StepRequestRefused(status);
          }
        } else {
          StepResponse(status, reply);
        }
      case Frame(owned, reply) => StepFrame(owned, reply);
      case Drained => StepDrained();
      case Command(m) => StepCommand(m);
      case Eof => StepEof();
      case IoFails(e) => StepIoFails(e);
      case SendersGone => StepSendersGone();
      case Logic(ok) => StepLogic(ok);
    }

    /** The run loop. Whatever events are offered to it, in any order, it takes those that its
        state has a branch for; that is a run of the state machine. */
    method Run(offers: seq<Event>)
      requires Valid()
      modifies this`selecting, this`suspended, this`outcome, this`calls, this`ready, this`model, ws
      ensures Valid() && model == Offered(old(model), offers)
    {
      var i := 0;
      while i < |offers|
        invariant 0 <= i <= |offers|
        invariant Valid()
        invariant Offered(model, offers[i..]) == Offered(old(model), offers)
      {
        assert offers[i..][0] == offers[i] && offers[i..][1..] == offers[i + 1..];
        var r := Ready(offers[i]);
        if r {
          Dispatch(offers[i]);
        }
        i := i + 1;
      }
    }
  }

  /** What becomes of a connection that takes the events it can take. */
  function Offered(s: Conn, offers: seq<Event>): Conn
    decreases |offers|
  {
    if |offers| == 0 then s
    else Offered(if Enabled(s, offers[0]) then Step(s, offers[0]) else s, offers[1..])
  }

  /** Any offers make a run, and a run that is offered is made. */
  lemma {:induction false} OffersAreRuns(s: Conn, offers: seq<Event>) returns (evs: seq<Event>)
    ensures ValidRun(s, evs) && Exec(s, evs) == Offered(s, offers)
    ensures ValidRun(s, offers) ==> evs == offers
    decreases |offers|
  {
    hide Enabled, Step;
    evs := [];
    if |offers| > 0 {
      if Enabled(s, offers[0]) {
        var rest := OffersAreRuns(Step(s, offers[0]), offers[1..]);
        evs := [offers[0]] + rest;
        assert evs[1..] == rest && offers == [offers[0]] + offers[1..];
      } else {
        evs := OffersAreRuns(s, offers[1..]);
      }
    }
  }

  lemma {:induction false} CloseKeeps(s: Conn, code: CloseCode, reason: Str)
    requires Inv(s) && AtSelect(s)
    ensures Inv(NextRound(LocalClose(s, code, reason)))
  {
    CloseControl(s, code, reason);
    CloseLog(s, code, reason);
  }

  lemma {:induction false} FrameKeeps(s: Conn, m: Message, reply: Reply)
    ensures var t := OnMsg(s, m, reply);
            t.state == s.state && t.side == s.side && t.ready == s.ready && t.entry == s.entry
  {
  }
}
