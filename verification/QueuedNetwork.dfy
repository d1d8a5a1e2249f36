/** The network of `Network` with a's command queue in front of it: from a handler's
    `send_message` to the peer's callbacks. */
module QueuedNetwork {
  import opened Bytes
  import opened Protocol
  import opened Framing
  import opened Callbacks
  import opened Channel
  import opened ChannelInvariants
  import opened ChannelRuns
  import opened Sender
  import opened Session
  import opened Network
  import opened EndToEnd
  import opened Outcomes

  datatype Queued = Queued(net: Net, box: Mailbox)

  datatype QueuedEvent = Happens(e: NetEvent) | Accepts(msg: Message) | SendersDrop

  /** b's commands are not restricted to a queue. */
  predicate QEnabled(q: Queued, e: QueuedEvent) {
    match e
    case Happens(ne) => NetEnabled(q.net, ne) && (ne.AtA? ==> Admits(q.box, ne.ev))
    case Accepts(_) => !q.box.gone
    case SendersDrop => !q.box.gone
  }

  function QStep(q: Queued, e: QueuedEvent): Queued
    requires QEnabled(q, e)
  {
    match e
    case Happens(ne) =>
      var n := NetStep(q.net, ne);
      Queued(n, if ne.AtA? then BoxAfter(q.box, ne.ev, n.a) else q.box)
    case Accepts(m) => q.(box := Put(q.box, m))
    case SendersDrop => q.(box := q.box.(gone := true))
  }

  predicate QRun(q: Queued, es: seq<QueuedEvent>)
    decreases |es|
  {
    |es| == 0 || (QEnabled(q, es[0]) && QRun(QStep(q, es[0]), es[1..]))
  }

  function QExec(q: Queued, es: seq<QueuedEvent>): Queued
    requires QRun(q, es)
    decreases |es|
  {
    if |es| == 0 then q else QExec(QStep(q, es[0]), es[1..])
  }

  function NetEvents(es: seq<QueuedEvent>): seq<NetEvent> {
    if |es| == 0 then [] else (if es[0].Happens? then [es[0].e] else []) + NetEvents(es[1..])
  }

  /** The commands one event takes from a's queue. */
  function TakenBy(e: QueuedEvent): seq<Message> {
    if e.Happens? && e.e.AtA? && e.e.ev.Command? then [e.e.ev.msg] else []
  }

  /** The commands a's loop has made are what was taken from the queue. */
  lemma {:induction false} BoxStep(q: Queued, e: QueuedEvent)
    requires QEnabled(q, e) && InOrder(q.box)
    ensures var t := QStep(q, e);
            InOrder(t.box) && t.box.capacity == q.box.capacity && t.box.taken == q.box.taken + TakenBy(e)
  {
    assert q.box.taken + [] == q.box.taken;
    match e
    case Happens(ne) =>
      if ne.AtA? && ne.ev.Command? {
        TakeInOrder(q.box);
      }
    case Accepts(m) => PutInOrder(q.box, m);
    case SendersDrop =>
  }

  lemma {:induction false} QProjects(q: Queued, es: seq<QueuedEvent>)
    requires QRun(q, es) && InOrder(q.box)
    ensures NetRun(q.net, NetEvents(es)) && NetExec(q.net, NetEvents(es)) == QExec(q, es).net
    ensures var t := QExec(q, es);
            && InOrder(t.box) && t.box.capacity == q.box.capacity
            && t.box.taken == q.box.taken + CommandsOf(EventsAtA(NetEvents(es)))
    decreases |es|
  {
    hide NetEnabled, NetStep;
    if |es| == 0 {
      assert q.box.taken + [] == q.box.taken;
    } else {
      var head, rest := es[0], NetEvents(es[1..]);
      BoxStep(q, head);
      QProjects(QStep(q, head), es[1..]);
      if head.Happens? {
        assert NetEvents(es)[0] == head.e && NetEvents(es)[1..] == rest;
        QCommands(head.e, rest);
      } else {
        assert NetEvents(es) == rest;
        assert q.box.taken + [] == q.box.taken;
      }
      assert q.box.taken + TakenBy(head) + CommandsOf(EventsAtA(rest))
             == q.box.taken + (TakenBy(head) + CommandsOf(EventsAtA(rest)));
    }
  }

  lemma {:induction false} QCommands(e: NetEvent, rest: seq<NetEvent>)
    ensures CommandsOf(EventsAtA([e] + rest)) == TakenBy(Happens(e)) + CommandsOf(EventsAtA(rest))
  {
    assert ([e] + rest)[1..] == rest;
    if e.AtA? {
      assert ([e.ev] + EventsAtA(rest))[1..] == EventsAtA(rest);
    } else {
      assert EventsAtA([e] + rest) == EventsAtA(rest);
    }
  }

  function QInit(ta: Transport, sa: Settings, tb: Transport, sb: Settings, capacity: nat): Queued {
    Queued(NetInit(ta, sa, tb, sb), NewMailbox(capacity))
  }

  // ---------- a longer queue only adds to what is promised ----------

  lemma {:induction false} AskedAppend(ms: seq<Message>, ns: seq<Message>)
    ensures AskedAll(ms + ns) == AskedAll(ms) + AskedAll(ns)
  {
    if |ms| == 0 {
      assert ms + ns == ns;
    } else {
      assert (ms + ns)[1..] == ms[1..] + ns;
      AskedAppend(ms[1..], ns);
      assert Asked(ms[0]) + AskedAll(ms[1..]) + AskedAll(ns) == Asked(ms[0]) + (AskedAll(ms[1..]) + AskedAll(ns));
    }
  }

  lemma {:induction false} CutGrows(ms: seq<Message>, ns: seq<Message>)
    ensures CutAtClose(ms) <= CutAtClose(ms + ns)
  {
    if |ms| > 0 {
      assert (ms + ns)[1..] == ms[1..] + ns;
      CutGrows(ms[1..], ns);
    }
  }

  /** What the peer is to see of the messages `ms` put into the queue. */
  function Visible(ms: seq<Message>): seq<Message> {
    CutAtClose(CanonAll(WithoutPongs(AskedAll(ms))))
  }

  lemma {:induction false} VisibleGrows(ms: seq<Message>, ns: seq<Message>)
    ensures Visible(ms) <= Visible(ms + ns)
  {
    AskedAppend(ms, ns);
    WithoutPongsAppend(AskedAll(ms), AskedAll(ns));
    var a, b := WithoutPongs(AskedAll(ms)), WithoutPongs(AskedAll(ns));
    assert CanonAll(a + b) == CanonAll(a) + CanonAll(b);
    CutGrows(CanonAll(a), CanonAll(b));
  }

  /** End to end. However sends, the two run loops and the streams interleave: the messages
      a's queue accepted are those its loop took, followed by those still queued; and apart
      from Pongs, what b's callbacks see is a prefix of what the taken ones ask for, and so of
      what the accepted ones ask for, in order, with Shutdown as its Close, Unvaid dropped,
      close codes in wire form, up to the first Close. */
  lemma {:induction false} QueueToCallbacks(
      ta: Transport, sa: Settings, tb: Transport, sb: Settings, capacity: nat, es: seq<QueuedEvent>)
    requires !sa.isRaw && !sb.isRaw && QRun(QInit(ta, sa, tb, sb, capacity), es)
    requires AllFramed(QExec(QInit(ta, sa, tb, sb, capacity), es).net.a.sent)
    ensures var q := QExec(QInit(ta, sa, tb, sb, capacity), es);
            && q.box.accepted == q.box.taken + q.box.queue && |q.box.queue| <= capacity
            && Heard(q.net.b.callbacks) == q.net.b.delivered + ErrorHeard(q.net.b.outcome)
            && WithoutPongs(q.net.b.delivered) <= Visible(q.box.taken) <= Visible(q.box.accepted)
  {
    var q := QExec(QInit(ta, sa, tb, sb, capacity), es);
    QProjects(QInit(ta, sa, tb, sb, capacity), es);
    CommandsToCallbacks(ta, sa, tb, sb, NetEvents(es));
    PostedIsAsked(EventsAtA(NetEvents(es)));
    assert [] + q.box.taken == q.box.taken;
    assert q.box.taken == CommandsOf(EventsAtA(NetEvents(es)));
    VisibleGrows(q.box.taken, q.box.queue);
  }
}
