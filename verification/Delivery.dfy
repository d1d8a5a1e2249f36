/** Progress of the network: what was sent keeps moving until it is delivered. */
module Delivery {
  import opened Bytes
  import opened Protocol
  import opened Framing
  import opened Callbacks
  import opened Channel
  import opened ChannelInvariants
  import opened ChannelRuns
  import opened Network
  import opened EndToEnd

  /** The events that carry bytes from a to b: a writes, b reads, b hands over a message
      and its callback does not refuse. */
  predicate Carry(e: NetEvent) {
    (e.AtA? && e.ev.WriteBytes?) || (e.AtB? && (e.ev.ReadBytes? || (e.ev.Deliver? && e.ev.reply.Done?)))
  }

  /** Events beside these: `on_logic` completions of either side, and b's own commands, except
      a close, and writes. */
  predicate Beside(e: NetEvent) {
    || (e.ev.Logic? && e.ev.ok)
    || (e.AtB? && (e.ev.WriteBytes? || (e.ev.Command? && !IsLocalClose(e.ev))))
  }

  ghost predicate CarryOrBeside(es: seq<NetEvent>) {
    forall i :: 0 <= i < |es| ==> Carry(es[i]) || Beside(es[i])
  }

  function Carried(es: seq<NetEvent>): nat {
    if |es| == 0 then 0 else (if Carry(es[0]) then 1 else 0) + Carried(es[1..])
  }

  /** Every such event brings bytes at least one station further. */
  function StationsLeft(n: Net): nat {
    3 * |n.a.write| + 2 * |n.ab| + |n.b.read|
  }

  /** The write branch is there for what is in the write buffer. */
  predicate CanWrite(s: Conn) {
    s.write == [] || (s.outcome.Running? && (Idle(s) || s.phase.Closing?))
  }

  /** b is open and has not stopped for a reason of its own. */
  ghost predicate Listens(s: Conn) {
    s.phase.Open? && (s.outcome.Running? || (s.outcome.Returned? && HasClose(s.delivered)))
  }

  ghost predicate InMotion(n: Net) {
    && NetInv(n)
    && !n.a.settings.isRaw && !n.b.settings.isRaw
    && AllFit(n.a.sent, n.b.settings) && n.b.settings.inBufferMax >= ReadBound(n.b.settings)
    && CanWrite(n.a) && Listens(n.b)
  }

  lemma {:induction false} WriteMoves(s: Conn, k: nat)
    requires Enabled(s, WriteBytes(k))
    ensures var t := Step(s, WriteBytes(k));
            t.write == s.write[k..] && CanWrite(t) && t.sent == s.sent && t.settings == s.settings
  {
    hide Parse;
  }

  lemma {:induction false} WriteKeepsMoving(n: Net, k: nat)
    requires InMotion(n) && NetEnabled(n, AtA(WriteBytes(k)))
    ensures var m := NetStep(n, AtA(WriteBytes(k)));
            InMotion(m) && m.a.sent == n.a.sent && StationsLeft(m) < StationsLeft(n)
  {
    NetStepInv(n, AtA(WriteBytes(k)));
    WriteMoves(n.a, k);
    hide Parse, Inv, NetInv, EncodeAll, Step;
  }

  lemma {:induction false} ReadKeepsMoving(n: Net, chunk: seq<byte>)
    requires InMotion(n) && NetEnabled(n, AtB(ReadBytes(chunk)))
    ensures var m := NetStep(n, AtB(ReadBytes(chunk)));
            InMotion(m) && m.a == n.a && StationsLeft(m) < StationsLeft(n)
  {
    NetStepInv(n, AtB(ReadBytes(chunk)));
    hide Parse, Inv, NetInv, EncodeAll;
  }

  /** A receiver that is not idle has a message, not an error. */
  lemma {:induction false} NotIdleHasMessage(n: Net)
    requires InMotion(n) && n.b.outcome.Running? && !Idle(n.b)
    ensures Parse(n.b.read, n.b.settings).Complete?
  {
    NoRejection(n.a, n.ab, n.b);
    if Parse(n.b.read, n.b.settings).Incomplete? {
      IncompleteIsSmall(n.b.read, n.b.settings);
      assert false;
    }
  }

  lemma {:induction false} DeliverKeepsMoving(n: Net, reply: Reply)
    requires InMotion(n) && NetEnabled(n, AtB(Deliver(reply))) && reply.Done?
    ensures var m := NetStep(n, AtB(Deliver(reply)));
            InMotion(m) && m.a == n.a && StationsLeft(m) < StationsLeft(n)
  {
    NetStepInv(n, AtB(Deliver(reply)));
    NotIdleHasMessage(n);
    DeliverGoesOn(n.b, reply);
    DeliverOutput(n.b, reply);
    DeliverOutcome(n.b, reply);
    hide Parse, Inv, NetInv, EncodeAll, DeliverStep;
  }

  lemma {:induction false} CarryKeepsMoving(n: Net, e: NetEvent)
    requires InMotion(n) && NetEnabled(n, e) && Carry(e)
    ensures var m := NetStep(n, e);
            InMotion(m) && m.a.sent == n.a.sent && StationsLeft(m) < StationsLeft(n)
  {
    match e
    case AtA(ev) => WriteKeepsMoving(n, ev.n);
    case AtB(ev) =>
      if ev.ReadBytes? {
        ReadKeepsMoving(n, ev.chunk);
      } else {
        DeliverKeepsMoving(n, ev.reply);
      }
  }

  lemma {:induction false} BesideKeeps(s: Conn, ev: Event)
    requires Enabled(s, ev) && (ev.WriteBytes? || (ev.Command? && !IsLocalClose(ev)) || (ev.Logic? && ev.ok))
    requires s.phase.Open?
    ensures var t := Step(s, ev);
            t.phase.Open? && t.outcome == s.outcome && t.read == s.read && t.delivered == s.delivered && ChunkOf(ev) == []
  {
    InputEffect(s, ev);
    PhaseEffect(s, ev);
    if ev.Command? {
      CommandOutcome(s, ev.msg);
    }
  }

  lemma {:induction false} BesideKeepsMoving(n: Net, e: NetEvent)
    requires InMotion(n) && NetEnabled(n, e) && Beside(e)
    ensures var m := NetStep(n, e);
            InMotion(m) && m.a.sent == n.a.sent && StationsLeft(m) == StationsLeft(n)
  {
    NetStepInv(n, e);
    if e.AtB? {
      BesideKeeps(n.b, e.ev);
      StepConst(n.b, e.ev);
      assert n.ab[0..] == n.ab;
    } else {
      assert n.ab + [] == n.ab;
    }
    hide Parse, Inv, NetInv, EncodeAll, Step;
  }

  /** As long as something sent is undelivered, one of these events is possible. */
  lemma {:induction false} NeverStuck(n: Net) returns (e: NetEvent)
    requires InMotion(n) && n.b.outcome.Running? && n.b.delivered != CanonAll(n.a.sent)
    ensures NetEnabled(n, e) && Carry(e)
  {
    if n.a.write != [] {
      e := AtA(WriteBytes(|n.a.write|));
    } else if !Idle(n.b) {
      e := AtB(Deliver(Done(None)));
    } else if n.ab != [] {
      e := AtB(ReadBytes(n.ab));
    } else {
      e := AtB(Deliver(Done(None)));
      FitsFramed(n.a.sent, n.b.settings);
      WhatIsLeft(n.a, n.ab, n.b);
      var left := n.a.sent[|n.b.delivered|..];
      if |left| > 0 {
        assert n.b.read + n.ab + n.a.write == n.b.read;
        RoundTripExact(left[0], EncodeAll(left[1..], false), n.b.settings);
      }
      assert false;
    }
  }

  lemma {:induction false} CarryOn(n: Net, es: seq<NetEvent>)
    requires InMotion(n) && NetRun(n, es) && CarryOrBeside(es)
    ensures var m := NetExec(n, es);
            InMotion(m) && m.a.sent == n.a.sent && Carried(es) + StationsLeft(m) <= StationsLeft(n)
    decreases |es|
  {
    hide NetStep, NetEnabled, InMotion, StationsLeft, Beside, Carry;
    if |es| > 0 {
      assert Carry(es[0]) || Beside(es[0]);
      if Carry(es[0]) {
        CarryKeepsMoving(n, es[0]);
      } else {
        BesideKeepsMoving(n, es[0]);
      }
      forall i | 0 <= i < |es[1..]| ensures Carry(es[1..][i]) || Beside(es[1..][i]) {
        assert es[1..][i] == es[i + 1];
      }
      CarryOn(NetStep(n, es[0]), es[1..]);
    }
  }

  /** Everything sent is delivered. In a reachable network whose frames are within b's
      limits, let a be able to write and b be open and running. However a's writes and b's
      reads and deliveries then alternate, however they cut the bytes, and whatever commands (but no
      close) and writes of b and `on_logic` completions happen beside: there are at most as many of the
      former as there are stations left, and while b was not handed every message a sent, up to
      the first Close, another one is possible. */
  lemma {:induction false} EverythingIsDelivered(
      ta: Transport, sa: Settings, tb: Transport, sb: Settings, es: seq<NetEvent>, more: seq<NetEvent>)
    requires !sa.isRaw && !sb.isRaw && sb.inBufferMax >= ReadBound(sb)
    requires NetRun(NetInit(ta, sa, tb, sb), es)
    requires var n := NetExec(NetInit(ta, sa, tb, sb), es);
             && AllFit(n.a.sent, sb) && CanWrite(n.a) && n.b.outcome.Running? && n.b.phase.Open?
             && NetRun(n, more) && CarryOrBeside(more)
    ensures var n := NetExec(NetInit(ta, sa, tb, sb), es);
            var m := NetExec(n, more);
            && Carried(more) <= StationsLeft(n) && m.a.sent == n.a.sent
            && (m.b.delivered == CutAtClose(CanonAll(n.a.sent))
                || exists e :: NetEnabled(m, e) && Carry(e))
  {
    Reached(ta, sa, tb, sb, es);
    var n := NetExec(NetInit(ta, sa, tb, sb), es);
    CarryOn(n, more);
    DeliveredOrMoving(NetExec(n, more));
  }

  lemma {:induction false} DeliveredOrMoving(n: Net)
    requires InMotion(n)
    ensures n.b.delivered == CutAtClose(CanonAll(n.a.sent)) || exists e :: NetEnabled(n, e) && Carry(e)
  {
    FitsFramed(n.a.sent, n.b.settings);
    DeliveredIsPrefix(n.a, n.ab, n.b);
    if n.b.outcome.Running? {
      if n.b.delivered == CanonAll(n.a.sent) {
        CutIsPrefix(CanonAll(n.a.sent));
      } else {
        var e := NeverStuck(n);
      }
    }
  }
}
