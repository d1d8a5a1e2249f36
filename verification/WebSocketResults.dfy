/** The main results about WebSocket connections, over every run of either side through
    either entry point. */
module WebSocketResults {
  import opened Bytes
  import opened Protocol
  import opened Callbacks
  import opened WebSocket
  import opened WebSocketRuns

  // ---------- states ----------

  function CloseInfoOf(st: WsState): Option<CloseInfo> {
    match st
    case WsClosing(info) => Some(info)
    case WsClosed(info) => Some(info)
    case _ => None
  }

  /** The close an event asks for, if any. */
  function Requested(s: Conn, ev: Event): Option<CloseInfo> {
    if ev.Command? && ev.msg.Close? then Some(CloseInfo(ev.msg.code, ev.msg.reason))
    else if ev.Command? && ev.msg.Shutdown? then Some(CloseInfo(Normal, SHUTDOWN))
    else if ev.Handshake? && s.side.Server? && ev.status != 101 && ev.reply.Done? then
      Some(CloseInfo(Normal, HANDSHAKE_FAILED))
    else None
  }

  /** How a step moves the state: up the order of states, and into closing exactly by the
      first close that is asked for. */
  ghost predicate Moves(s: Conn, ev: Event, t: Conn) {
    && t.side == s.side
    && Rank(s.state) <= Rank(t.state)
    && CloseInfoOf(t.state) ==
         (if CloseInfoOf(s.state).Some? then CloseInfoOf(s.state) else Requested(s, ev))
    && (t.state.WsClosed? ==> s.state.WsClosing? && t.outcome.Returned?)
  }

  lemma {:induction false} CloseMoves(s: Conn, code: CloseCode, reason: Str)
    requires !s.state.WsClosed?
    ensures Moves(s, Command(Close(code, reason)), NextRound(LocalClose(s, code, reason)))
  {
  }

  lemma {:induction false} CommandMoves(s: Conn, m: Message)
    requires !s.state.WsClosed?
    ensures Moves(s, Command(m), CommandStep(s, m))
  {
    hide LocalClose, ToOwned, Ascii;
    match m
    case Close(code, reason) => CloseMoves(s, code, reason);
    case Shutdown => CloseMoves(s, Normal, SHUTDOWN);
    case _ =>
  }

  lemma {:induction false} HandshakeMoves(s: Conn, status: nat, reply: Reply)
    requires Control(s) && AtSelect(s) && s.arm.InHandshake?
    ensures Moves(s, Handshake(status, reply), HandshakeStep(s, status, reply))
  {
    HandshakeIs(s, status, reply);
    hide HandshakeStep, ToOwned, Ascii;
    if s.side.Client? {
    } else if reply.Refused? {
    } else if status == 101 {
    } else {
    }
  }

  lemma {:induction false} FrameMoves(s: Conn, m: Message, reply: Reply)
    ensures var t := OnMsg(s, m, reply); t.state == s.state && t.side == s.side
  {
  }

  lemma {:induction false} StepMoves(s: Conn, ev: Event)
    requires Control(s) && Enabled(s, ev)
    ensures Moves(s, ev, Step(s, ev))
  {
    match ev
    case Command(m) => CommandMoves(s, m);
    case Handshake(status, reply) => HandshakeMoves(s, status, reply);
    case Frame(owned, reply) => FrameMoves(s, FromOwned(owned), reply);
    case _ =>
  }

  /** The states are passed in the order Wait, WaitRet, Open, Closing, Closed. */
  lemma {:induction false} RankNeverFalls(s: Conn, evs: seq<Event>)
    requires Inv(s) && ValidRun(s, evs)
    ensures Rank(s.state) <= Rank(Exec(s, evs).state)
    decreases |evs|
  {
    if |evs| > 0 {
      StepMoves(s, evs[0]);
      StepInv(s, evs[0]);
      RankNeverFalls(Step(s, evs[0]), evs[1..]);
    }
  }

  /** No run reaches an `unreachable!()` or a `todo!()`, or the bad-status error; a running
      server is never in WaitRet between two events, and Closed is only seen once the run
      has returned. */
  lemma {:induction false} NothingUnreachableIsReached(side: Side, entry: Entry, evs: seq<Event>)
    requires ValidRun(Init(side, entry), evs)
    ensures var t := Exec(Init(side, entry), evs);
            && !t.panicked && t.outcome != Failed(BadStatus)
            && (t.side.Server? && t.outcome.Running? ==> !t.state.WaitRet?)
            && (t.state.WsClosed? ==> t.outcome.Returned?)
  {
    InitInv(side, entry);
    ExecInv(Init(side, entry), evs);
  }

  /** A client's answer with a status other than 101 never gets as far as the run loop's own
      check: `process()` has failed the run with that status. */
  lemma {:induction false} ClientHandshakeExact(s: Conn, status: nat, reply: Reply)
    requires Inv(s) && s.side.Client? && Enabled(s, Handshake(status, reply))
    ensures var t := Step(s, Handshake(status, reply));
            if status == 101 then t.state.WsOpen? && t.outcome.Running?
            else t.outcome == Failed(FailStatus(status)) && t.state == s.state && t.queued == s.queued
    ensures match ProcessHandshake(s, status)
            case Got(_, what) => what == Res(101)
            case Broke(e) => e == FailStatus(status)
  {
  }

  // ---------- the first close wins ----------

  datatype FirstClose = FirstClose(info: CloseInfo, framed: bool)

  /** The first close a run is asked for, and whether the connection is open for it, so that
      a Close frame goes out. A refused upgrade counts: its response opens the connection. */
  function FirstRequest(s: Conn, evs: seq<Event>): Option<FirstClose>
    requires ValidRun(s, evs)
    decreases |evs|
  {
    if |evs| == 0 then None
    else if Requested(s, evs[0]).Some? then
      Some(FirstClose(Requested(s, evs[0]).value, s.state.WsOpen? || evs[0].Handshake?))
    else FirstRequest(Step(s, evs[0]), evs[1..])
  }

  predicate IsCloseFrame(o: Out) {
    o.FrameOut? && o.msg.OwnedClose?
  }

  function CountClose(q: seq<Out>): nat {
    if |q| == 0 then 0
    else CountClose(q[..|q| - 1]) + (if IsCloseFrame(q[|q| - 1]) then 1 else 0)
  }

  function CountUnvaid(evs: seq<Event>): nat {
    if |evs| == 0 then 0
    else (if evs[0].Command? && evs[0].msg.Unvaid? then 1 else 0) + CountUnvaid(evs[1..])
  }

  lemma CountOneMore(q: seq<Out>, o: Out)
    ensures CountClose(q + [o]) == CountClose(q) + (if IsCloseFrame(o) then 1 else 0)
  {
    assert (q + [o])[..|q|] == q;
  }

  /** The Close frames a step puts into the write buffer. */
  function CloseFrames(s: Conn, ev: Event): nat {
    if ev.Command? && ev.msg.Unvaid? then 1
    else if CloseInfoOf(s.state).None? && Requested(s, ev).Some? && (s.state.WsOpen? || ev.Handshake?) then 1
    else 0
  }

  lemma {:induction false} LocalCloseFrames(s: Conn, code: CloseCode, reason: Str)
    ensures CountClose(LocalClose(s, code, reason).queued)
            == CountClose(s.queued) + (if s.state.WsOpen? then 1 else 0)
  {
    CountOneMore(s.queued, FrameOut(ToOwned(Close(code, reason))));
  }

  lemma {:induction false} CommandFrames(s: Conn, m: Message)
    ensures CountClose(CommandStep(s, m).queued) == CountClose(s.queued) + CloseFrames(s, Command(m))
  {
    hide CountClose, Ascii;
    match m
    case Close(code, reason) => LocalCloseFrames(s, code, reason);
    case Shutdown => LocalCloseFrames(s, Normal, SHUTDOWN);
    case _ => CountOneMore(s.queued, FrameOut(ToOwned(m)));
  }

  lemma {:induction false} AnsweredFrames(s: Conn, status: nat)
    ensures CountClose(Answered(s, status).queued) == CountClose(s.queued)
    ensures CountClose(LocalClose(Answered(s, status), Normal, HANDSHAKE_FAILED).queued) == CountClose(s.queued) + 1
  {
    hide CountClose, LocalClose, Ascii;
    CountOneMore(s.queued, HttpResponse(status));
    LocalCloseFrames(Answered(s, status), Normal, HANDSHAKE_FAILED);
  }

  lemma {:induction false} ResultFrames(s: Conn, status: nat, reply: Reply)
    ensures CountClose(HandshakeResult(s, status, reply).queued)
            == CountClose(s.queued) + (if s.side.Server? && status != 101 && reply.Done? then 1 else 0)
  {
    AnsweredFrames(s, status);
    hide CountClose, LocalClose, Answered, Ascii;
    if s.side.Client? {
    } else if reply.Refused? {
    } else if status == 101 {
    } else {
    }
  }

  lemma {:induction false} HandshakeFrames(s: Conn, status: nat, reply: Reply)
    requires Control(s) && AtSelect(s) && s.arm.InHandshake?
    ensures CountClose(HandshakeStep(s, status, reply).queued)
            == CountClose(s.queued) + CloseFrames(s, Handshake(status, reply))
  {
    HandshakeIs(s, status, reply);
    ResultFrames(s, status, reply);
    assert CloseInfoOf(s.state).None?;
    hide HandshakeStep, HandshakeResult, CountClose, Control;
    if s.side.Client? {
    } else if reply.Refused? {
    } else if status == 101 {
    } else {
    }
  }

  lemma {:induction false} FrameFrames(s: Conn, m: Message, reply: Reply)
    ensures CountClose(OnMsg(s, m, reply).queued) == CountClose(s.queued)
  {
    if reply.Done? && reply.pong.Some? {
      CountOneMore(s.queued, FrameOut(ToOwned(Pong(reply.pong.value))));
    }
  }

  lemma {:induction false} StepFrames(s: Conn, ev: Event)
    requires Control(s) && Enabled(s, ev)
    ensures CountClose(Step(s, ev).queued) == CountClose(s.queued) + CloseFrames(s, ev)
  {
    CountOneMore(s.queued, HttpRequest);
    match ev
    case Command(m) => CommandFrames(s, m);
    case Handshake(status, reply) => HandshakeFrames(s, status, reply);
    case Frame(owned, reply) => FrameFrames(s, FromOwned(owned), reply);
    case _ =>
  }

  lemma {:induction false} CloseSticks(s: Conn, evs: seq<Event>)
    requires Inv(s) && ValidRun(s, evs) && CloseInfoOf(s.state).Some?
    ensures var t := Exec(s, evs);
            && CloseInfoOf(t.state) == CloseInfoOf(s.state)
            && CountClose(t.queued) == CountClose(s.queued) + CountUnvaid(evs)
    decreases |evs|
  {
    if |evs| > 0 {
      StepMoves(s, evs[0]);
      StepFrames(s, evs[0]);
      StepInv(s, evs[0]);
      CloseSticks(Step(s, evs[0]), evs[1..]);
    }
  }

  lemma {:induction false} FirstCloseFrom(s: Conn, evs: seq<Event>)
    requires Inv(s) && ValidRun(s, evs) && CloseInfoOf(s.state).None?
    ensures var t := Exec(s, evs);
            match FirstRequest(s, evs)
            case None =>
              CloseInfoOf(t.state).None? && CountClose(t.queued) == CountClose(s.queued) + CountUnvaid(evs)
            case Some(f) =>
              && CloseInfoOf(t.state) == Some(f.info)
              && CountClose(t.queued) == CountClose(s.queued) + CountUnvaid(evs) + (if f.framed then 1 else 0)
    decreases |evs|
  {
    if |evs| > 0 {
      StepMoves(s, evs[0]);
      StepFrames(s, evs[0]);
      StepInv(s, evs[0]);
      if Requested(s, evs[0]).Some? {
        CloseSticks(Step(s, evs[0]), evs[1..]);
      } else {
        FirstCloseFrom(Step(s, evs[0]), evs[1..]);
      }
    }
  }

  /** The first close wins: over any run, the connection is closing or closed exactly when a
      close was asked for, with the code and reason of the first such request; and the
      Close frames ever queued are one if that request met an open connection, plus one for
      every `Unvaid` command. */
  lemma {:induction false} FirstCloseWins(side: Side, entry: Entry, evs: seq<Event>)
    requires ValidRun(Init(side, entry), evs)
    ensures var s := Init(side, entry);
            var t := Exec(s, evs);
            match FirstRequest(s, evs)
            case None => CloseInfoOf(t.state).None? && CountClose(t.queued) == CountUnvaid(evs)
            case Some(f) =>
              && CloseInfoOf(t.state) == Some(f.info)
              && CountClose(t.queued) == CountUnvaid(evs) + (if f.framed then 1 else 0)
  {
    InitInv(side, entry);
    FirstCloseFrom(Init(side, entry), evs);
  }

  /** A Close from the other side ends the run without a Close in answer: when it is
      delivered, the only Close frames ever queued are those of `Unvaid` commands. */
  lemma {:induction false} RemoteCloseUnanswered(side: Side, entry: Entry, evs: seq<Event>, close: Option<CloseData>, reply: Reply)
    requires ValidRun(Init(side, entry), evs)
    requires Enabled(Exec(Init(side, entry), evs), Frame(OwnedClose(close), reply))
    ensures var t := Step(Exec(Init(side, entry), evs), Frame(OwnedClose(close), reply));
            t.outcome.Returned? && CountClose(t.queued) == CountUnvaid(evs)
  {
    var s := Exec(Init(side, entry), evs);
    InitInv(side, entry);
    ExecInv(Init(side, entry), evs);
    FirstCloseWins(side, entry, evs);
    FrameFrames(s, FromOwned(OwnedClose(close)), reply);
  }

  // ---------- termination after close ----------

  /** The events left to a closing connection without the environment's help: the head of
      the loop, the poll of `process()`, and its closing arm. */
  function StepsLeft(s: Conn): nat {
    if !s.outcome.Running? then 0
    else if s.pc.Head? then 3
    else if s.arm.NoArm? then 2
    else 1
  }

  /** The events of the environment, each of which starts the loop over. */
  predicate IsOutside(ev: Event) {
    ev.Command? || ev.Logic?
  }

  function CountOutside(evs: seq<Event>): nat {
    if |evs| == 0 then 0 else (if IsOutside(evs[0]) then 1 else 0) + CountOutside(evs[1..])
  }

  lemma {:induction false} CommandStartsOver(s: Conn, m: Message)
    ensures StepsLeft(CommandStep(s, m)) <= 3
  {
  }

  lemma {:induction false} ClosingStepCosts(s: Conn, ev: Event)
    requires Control(s) && Enabled(s, ev) && s.state.WsClosing? && s.outcome.Running?
    ensures StepsLeft(Step(s, ev)) + 1 <= StepsLeft(s) + (if IsOutside(ev) then 3 else 0)
  {
    hide CommandStep, HandshakeStep;
    match ev
    case Command(m) => CommandStartsOver(s, m);
    case _ =>
  }

  /** A closing connection terminates: every run from there has at most three events, and
      three more for every command and every `on_logic` completion. */
  lemma {:induction false} ClosingTerminates(s: Conn, evs: seq<Event>)
    requires Inv(s) && ValidRun(s, evs) && s.state.WsClosing? && s.outcome.Running?
    ensures |evs| + StepsLeft(Exec(s, evs)) <= StepsLeft(s) + 3 * CountOutside(evs)
    ensures StepsLeft(s) <= 3
    decreases |evs|
  {
    if |evs| > 0 {
      var s' := Step(s, evs[0]);
      ClosingStepCosts(s, evs[0]);
      StepInv(s, evs[0]);
      StepMoves(s, evs[0]);
      StepTells(s, evs[0]);
      if s'.outcome.Running? {
        ClosingTerminates(s', evs[1..]);
      } else {
        EndedIsFinal(s', evs[1..]);
      }
    }
  }

  lemma {:induction false} EndedIsFinal(s: Conn, evs: seq<Event>)
    requires ValidRun(s, evs) && !s.outcome.Running? && !s.outcome.Fresh?
    ensures evs == []
  {
  }

  /** What a closing connection does next when it is left alone. */
  function NextAlone(s: Conn): Event {
    if s.pc.Head? then LoopHead(true) else if s.arm.NoArm? then Poll else Drained
  }

  /** And it is never stuck: left alone it takes these events, and has returned with them. */
  lemma {:induction false} ClosingCanEnd(s: Conn) returns (evs: seq<Event>)
    requires Inv(s) && s.state.WsClosing? && s.outcome.Running?
    ensures |evs| == StepsLeft(s) && ValidRun(s, evs) && Exec(s, evs).outcome.Returned?
    ensures CountOutside(evs) == 0
    decreases StepsLeft(s)
  {
    var ev := NextAlone(s);
    var s' := Step(s, ev);
    StepInv(s, ev);
    if ev.Drained? {
      evs := [ev];
      assert ValidRun(s', []) && evs[1..] == [];
    } else {
      var rest := ClosingCanEnd(s');
      evs := [ev] + rest;
      assert evs[1..] == rest;
    }
  }

  // ---------- callbacks ----------

  predicate IsMessageCallback(c: Callback) {
    c.OnMessage? || c.OnPing? || c.OnPong?
  }

  ghost predicate Opened(log: seq<Callback>, before: nat) {
    exists i :: 0 <= i < before && i < |log| && log[i].OnOpen?
  }

  lemma {:induction false} HandshakeWasSeen(s: Conn, evs: seq<Event>)
    requires Inv(s) && ValidRun(s, evs) && Exec(s, evs).handshake != s.handshake
    ensures exists k :: 0 <= k < |evs| && evs[k].Handshake? && Exec(s, evs).handshake == Some(evs[k].status)
    decreases |evs|
  {
    var s' := Step(s, evs[0]);
    StepInv(s, evs[0]);
    if Exec(s, evs).handshake != s'.handshake {
      HandshakeWasSeen(s', evs[1..]);
      var k :| 0 <= k < |evs[1..]| && evs[1..][k].Handshake?
               && Exec(s', evs[1..]).handshake == Some(evs[1..][k].status);
      assert evs[k + 1].Handshake?;
    } else {
      HandshakeOnly(s, evs[0]);
    }
  }

  lemma {:induction false} HandshakeOnly(s: Conn, ev: Event)
    requires Control(s) && Enabled(s, ev)
    ensures Step(s, ev).handshake == s.handshake
            || (ev.Handshake? && Step(s, ev).handshake == Some(ev.status))
  {
    hide HandshakeStep, CommandStep;
    match ev
    case Command(m) => CommandQuiet(s, m);
    case Frame(owned, reply) => FrameKeepsHandshake(s, FromOwned(owned), reply);
    case Handshake(status, reply) => HandshakeSets(s, status, reply);
    case _ =>
  }

  /** A local close makes no callback and leaves the handshake and the outcome alone. */
  lemma {:induction false} LocalCloseQuiet(s: Conn, code: CloseCode, reason: Str)
    ensures var t := LocalClose(s, code, reason);
            t.handshake == s.handshake && t.outcome == s.outcome && t.callbacks == s.callbacks
  {
  }

  /** And so does every command. */
  lemma {:induction false} CommandQuiet(s: Conn, m: Message)
    ensures var t := CommandStep(s, m);
            t.handshake == s.handshake && t.outcome == s.outcome && t.callbacks == s.callbacks
  {
    match m
    case Close(code, reason) => LocalCloseQuiet(s, code, reason);
    case Shutdown => LocalCloseQuiet(s, Normal, SHUTDOWN);
    case _ =>
  }

  lemma {:induction false} FrameKeepsHandshake(s: Conn, m: Message, reply: Reply)
    ensures OnMsg(s, m, reply).handshake == s.handshake
  {
  }

  lemma {:induction false} HandshakeSets(s: Conn, status: nat, reply: Reply)
    requires Control(s) && AtSelect(s) && s.arm.InHandshake?
    ensures var t := HandshakeStep(s, status, reply);
            t.handshake == s.handshake || t.handshake == Some(status)
  {
    HandshakeIs(s, status, reply);
    LocalCloseQuiet(Answered(s, status), Normal, HANDSHAKE_FAILED);
    hide HandshakeStep, LocalClose, ToOwned, Ascii;
    if s.side.Client? {
    } else if reply.Refused? {
    } else if status == 101 {
    } else {
    }
  }

  /** On every run `on_open` is called at most once, and only after a handshake with status
      101; every message, ping and pong callback, and the `on_close` of a delivered Close,
      comes after it. */
  lemma {:induction false} OnOpenComesFirst(side: Side, entry: Entry, evs: seq<Event>)
    requires ValidRun(Init(side, entry), evs)
    ensures var t := Exec(Init(side, entry), evs);
            && (forall i, j :: 0 <= i < j < |t.callbacks| ==> !(t.callbacks[i].OnOpen? && t.callbacks[j].OnOpen?))
            && (forall j :: 0 <= j < |t.callbacks| && IsMessageCallback(t.callbacks[j]) ==> Opened(t.callbacks, j))
            && (HasClose(t.delivered) ==> Opened(t.callbacks, |t.callbacks|))
            && (Opened(t.callbacks, |t.callbacks|) ==>
                  exists k :: 0 <= k < |evs| && evs[k].Handshake? && evs[k].status == 101)
  {
    var s := Init(side, entry);
    var t := Exec(s, evs);
    InitInv(side, entry);
    ExecInv(s, evs);
    ShapeGivesOpen(t);
    if t.greeted {
      HandshakeWasSeen(s, evs);
    }
  }

  lemma {:induction false} ShapeGivesOpen(t: Conn)
    requires Inv(t)
    ensures forall i, j :: 0 <= i < j < |t.callbacks| ==> !(t.callbacks[i].OnOpen? && t.callbacks[j].OnOpen?)
    ensures forall j :: 0 <= j < |t.callbacks| && IsMessageCallback(t.callbacks[j]) ==> Opened(t.callbacks, j)
    ensures Opened(t.callbacks, |t.callbacks|) <==> t.greeted
    ensures t.delivered != [] ==> t.greeted
  {
    var o := if t.asked then 1 else 0;
    if t.greeted {
      assert t.callbacks[o].OnOpen?;
    }
  }

  /** On every run `on_close` is called at most once and last. It is called exactly when a
      Close was delivered or the run failed, except that `run_handler` makes no call when
      the stream could not even be accepted. */
  lemma {:induction false} OnCloseAtMostOnce(side: Side, entry: Entry, evs: seq<Event>)
    requires ValidRun(Init(side, entry), evs)
    ensures var t := Exec(Init(side, entry), evs);
            && CloseIsLast(t.callbacks)
            && (CalledClose(t.callbacks) <==>
                  HasClose(t.delivered) || (t.outcome.Failed? && !(entry.RunHandler? && evs == [Start(false)])))
  {
    var t := Exec(Init(side, entry), evs);
    InitInv(side, entry);
    ExecInv(Init(side, entry), evs);
    AcceptFailedExactly(side, entry, evs);
    ShapeGivesClose(t);
  }

  lemma {:induction false} ShapeGivesClose(t: Conn)
    requires Inv(t)
    ensures CloseIsLast(t.callbacks)
    ensures CalledClose(t.callbacks) <==> HasClose(t.delivered) || (t.outcome.Failed? && t.callbacks != [])
  {
    var n := |Prelude(t)|;
    if t.outcome.Failed? && t.callbacks != [] {
      assert t.callbacks[|t.callbacks| - 1] == ERROR_CLOSE;
    } else if HasClose(t.delivered) {
      var i :| 0 <= i < |t.delivered| && t.delivered[i].Close?;
      assert t.callbacks[n + i] == CallbackOf(t.delivered[i]);
    }
  }

  /** A failed run without any callback is one whose stream was not accepted. */
  lemma {:induction false} AcceptFailedExactly(side: Side, entry: Entry, evs: seq<Event>)
    requires ValidRun(Init(side, entry), evs)
    ensures var t := Exec(Init(side, entry), evs);
            t.outcome.Failed? && t.callbacks == [] <==> entry.RunHandler? && evs == [Start(false)]
  {
    var s := Init(side, entry);
    if |evs| > 0 {
      var s1 := Step(s, evs[0]);
      assert evs[0].Start?;
      InitInv(side, entry);
      StepInv(s, evs[0]);
      if s1.outcome.Failed? {
        FailedIsFinal(s1, evs[1..]);
        assert evs == [evs[0]];
      } else {
        FailureIsTold(s1, evs[1..]);
      }
    }
  }

  lemma {:induction false} FailedIsFinal(s: Conn, evs: seq<Event>)
    requires ValidRun(s, evs) && s.outcome.Failed?
    ensures evs == []
  {
  }

  lemma {:induction false} FailureIsTold(s: Conn, evs: seq<Event>)
    requires Inv(s) && ValidRun(s, evs) && !s.outcome.Fresh?
    requires s.outcome.Failed? ==> s.callbacks != []
    ensures Exec(s, evs).outcome.Failed? ==> Exec(s, evs).callbacks != []
    decreases |evs|
  {
    if |evs| > 0 {
      StepInv(s, evs[0]);
      StepTells(s, evs[0]);
      FailureIsTold(Step(s, evs[0]), evs[1..]);
    }
  }

  lemma {:induction false} StepTells(s: Conn, ev: Event)
    requires Inv(s) && Enabled(s, ev) && s.outcome.Running?
    ensures !Step(s, ev).outcome.Fresh?
    ensures Step(s, ev).outcome.Failed? ==> Step(s, ev).callbacks != []
  {
    hide HandshakeStep, CommandStep;
    match ev
    case Command(m) => CommandQuiet(s, m);
    case Frame(owned, reply) => FrameTells(s, FromOwned(owned), reply);
    case Handshake(status, reply) => HandshakeTells(s, status, reply);
    case _ =>
  }

  lemma {:induction false} FrameTells(s: Conn, m: Message, reply: Reply)
    requires s.outcome.Running?
    ensures var t := OnMsg(s, m, reply);
            !t.outcome.Fresh? && (t.outcome.Failed? ==> t.callbacks != [])
  {
  }

  lemma {:induction false} HandshakeTells(s: Conn, status: nat, reply: Reply)
    requires Inv(s) && AtSelect(s) && s.arm.InHandshake?
    ensures var t := HandshakeStep(s, status, reply);
            !t.outcome.Fresh? && (t.outcome.Failed? ==> t.callbacks != [])
  {
    HandshakeIs(s, status, reply);
    LocalCloseQuiet(Answered(s, status), Normal, HANDSHAKE_FAILED);
    hide HandshakeStep, LocalClose, ToOwned, Ascii;
    if s.side.Client? {
    } else if reply.Refused? {
    } else if status == 101 {
    } else {
    }
  }
}
