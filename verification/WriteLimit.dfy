/** The limit on the write buffer: it holds commands back, and Pongs not. */
module WriteLimit {
  import opened Bytes
  import opened Protocol
  import opened Framing
  import opened Callbacks
  import opened Channel
  import opened ChannelInvariants
  import opened ChannelRuns
  import opened Outcomes

  /** The bytes of the Pong by which an event answers a Ping. */
  function PongOf(s: Conn, ev: Event): seq<byte> {
    if ev.Deliver? then
      var p := Parse(s.read, s.settings);
      if p.Complete? && p.msg.Ping? && ev.reply.Done? && ev.reply.pong.Some?
      then Encode(Pong(ev.reply.pong.value), s.settings.isRaw) else []
    else []
  }

  function PongBytes(s: Conn, evs: seq<Event>): nat
    requires ValidRun(s, evs)
    decreases |evs|
  {
    if |evs| == 0 then 0 else |PongOf(s, evs[0])| + PongBytes(Step(s, evs[0]), evs[1..])
  }

  /** At its limit the buffer takes no command, and grows exactly by answered Pings. */
  lemma {:induction false} AtLimit(s: Conn, ev: Event)
    requires Enabled(s, ev) && |s.write| >= s.settings.outBufferMax
    ensures !ev.Command? && !ev.SendersGone?
    ensures |Step(s, ev).write| > |s.write| <==> PongOf(s, ev) != []
  {
    WriteGrows(s, ev);
  }

  /** Below it, every command is taken. */
  lemma {:induction false} BelowLimit(s: Conn, m: Message)
    requires s.outcome.Running?
    ensures Enabled(s, Command(m)) <==> |s.write| < s.settings.outBufferMax
  {
  }

  /** What an event writes at most. */
  lemma {:induction false} WriteGrows(s: Conn, ev: Event)
    requires Enabled(s, ev)
    ensures |Step(s, ev).write|
            <= |s.write| + |PongOf(s, ev)| + (if ev.Command? then |EncodeAll(Asked(ev.msg), s.settings.isRaw)| else 0)
    ensures !ev.Command? && !ev.WriteBytes? ==> Step(s, ev).write == s.write + PongOf(s, ev)
  {
    hide Parse;
    assert s.write + [] == s.write;
    match ev
    case Deliver(reply) => DeliverWrites(s, reply);
    case Command(m) =>
      CommandWrites(s, m);
      AskedLength(m, s.settings.isRaw);
    case WriteBytes(n) =>
    case _ => OutputEffect(s, ev);
  }

  lemma {:induction false} AskedLength(m: Message, raw: bool)
    ensures EncodeAll(Asked(m), raw)
            == if m.Unvaid? then [] else if m.Shutdown? then Encode(Close(Away, SHUTDOWN), raw) else Encode(m, raw)
  {
    var e := if m.Shutdown? then Close(Away, SHUTDOWN) else m;
    if !m.Unvaid? {
      assert Asked(m) == [e] && [e][1..] == [];
      assert EncodeAll([e], raw) == Encode(e, raw) + [] == Encode(e, raw);
    }
  }

  /** No command asks for more than `most` bytes. */
  ghost predicate CommandsWithin(evs: seq<Event>, raw: bool, most: nat) {
    forall i :: 0 <= i < |evs| && evs[i].Command? ==> |EncodeAll(Asked(evs[i].msg), raw)| <= most
  }

  lemma {:induction false} StaysWithin(s: Conn, evs: seq<Event>, most: nat, bound: nat)
    requires ValidRun(s, evs) && CommandsWithin(evs, s.settings.isRaw, most)
    requires bound == (if s.settings.outBufferMax == 0 then 0 else s.settings.outBufferMax - 1 + most)
    ensures |Exec(s, evs).write| <= (if |s.write| <= bound then bound else |s.write|) + PongBytes(s, evs)
    decreases |evs|
  {
    if |evs| > 0 {
      WriteGrows(s, evs[0]);
      StepConst(s, evs[0]);
      assert evs[0].Command? ==> |s.write| < s.settings.outBufferMax;
      hide Step, PongOf;
      forall i | 0 <= i < |evs[1..]| && evs[1..][i].Command?
        ensures |EncodeAll(Asked(evs[1..][i].msg), s.settings.isRaw)| <= most
      {
        assert evs[1..][i] == evs[i + 1];
      }
      StaysWithin(Step(s, evs[0]), evs[1..], most, bound);
    }
  }

  /** Over every run the write buffer stays below its limit plus the largest command, but for
      the Pongs that were encoded. */
  lemma {:induction false} WriteBound(transport: Transport, settings: Settings, evs: seq<Event>, most: nat)
    requires ValidRun(Init(transport, settings), evs) && CommandsWithin(evs, settings.isRaw, most)
    ensures var s := Init(transport, settings);
            |Exec(s, evs).write|
            <= (if settings.outBufferMax == 0 then 0 else settings.outBufferMax - 1 + most) + PongBytes(s, evs)
  {
    StaysWithin(Init(transport, settings), evs, most,
                if settings.outBufferMax == 0 then 0 else settings.outBufferMax - 1 + most);
  }

  // ---------- Pongs pass the limit ----------

  const PING := Ping([])

  lemma {:induction false} PingFrame()
    ensures |Encode(PING, false)| == 4 && |Encode(Pong([]), false)| == 4
    ensures Parse(Encode(PING, false), DEFAULT_SETTINGS) == Complete(PING, 4)
    ensures Parse([], DEFAULT_SETTINGS).Incomplete?
  {
    var e := Encode(PING, false);
    assert |e| == 4 && e + [] == e;
    RoundTripExact(PING, [], DEFAULT_SETTINGS);
  }

  /** A default connection whose peer pings `n` times, while nothing can be written, holds
      `n` Pongs of four bytes: no limit bounds the buffer, and no command was taken. */
  lemma {:induction false} PongsPassAnyLimit(transport: Transport, n: nat) returns (evs: seq<Event>)
    ensures var s0 := Init(transport, DEFAULT_SETTINGS);
            && ValidRun(s0, evs) && CommandsWithin(evs, false, 0)
            && var s := Exec(s0, evs);
               && s.outcome.Running? && s.phase.Open? && s.settings == DEFAULT_SETTINGS
               && s.read == [] && |s.write| == 4 * n
  {
    var s0 := Init(transport, DEFAULT_SETTINGS);
    if n == 0 {
      hide Parse, Encode, DeliverStep, CommandStep, WriteStep;
      assert ValidRun(s0, []) && Exec(s0, []) == s0;
      ExecSnoc(s0, [], Start(true, true));
      evs := [] + [Start(true, true)];
    } else {
      var before := PongsPassAnyLimit(transport, n - 1);
      evs := OnePing(s0, before);
    }
  }

  lemma {:induction false} OnePing(s0: Conn, before: seq<Event>) returns (evs: seq<Event>)
    requires ValidRun(s0, before) && CommandsWithin(before, false, 0)
    requires var s := Exec(s0, before);
             s.outcome.Running? && s.phase.Open? && s.settings == DEFAULT_SETTINGS && s.read == []
    ensures ValidRun(s0, evs) && CommandsWithin(evs, false, 0)
    ensures var s, t := Exec(s0, before), Exec(s0, evs);
            && t.outcome.Running? && t.phase.Open? && t.settings == DEFAULT_SETTINGS
            && t.read == [] && |t.write| == |s.write| + 4
  {
    hide Parse, Encode;
    PingFrame();
    var s := Exec(s0, before);
    var ping, pong := ReadBytes(Encode(PING, false)), Deliver(Done(Some([])));
    ExecSnoc(s0, before, ping);
    var s1 := Step(s, ping);
    assert s1.read == Encode(PING, false);
    ExecSnoc(s0, before + [ping], pong);
    evs := before + [ping] + [pong];
    PingIsAnswered(s1);
  }

  lemma {:induction false} PingIsAnswered(s: Conn)
    requires s.outcome.Running? && s.phase.Open? && Enabled(s, Deliver(Done(Some([]))))
    requires s.settings == DEFAULT_SETTINGS && Parse(s.read, s.settings) == Complete(PING, |s.read|)
    ensures var t := Step(s, Deliver(Done(Some([]))));
            && t.outcome.Running? && t.phase.Open? && t.settings == s.settings
            && t.read == [] && |t.write| == |s.write| + 4
  {
    hide Parse, Encode;
    PingFrame();
  }
}
