/** What a TCP or KCP connection does after its first local close: it goes on encoding
    commands, and every further close replaces the code and reason it closes with. The
    peer is told the first ones. */
module AfterClose {
  import opened Bytes
  import opened Protocol
  import opened Framing
  import opened Callbacks
  import opened Channel
  import opened ChannelInvariants
  import opened ChannelRuns

  // ---------- what is encoded after a close ----------

  lemma {:induction false} PostsOutOfOpen(s: Conn, ev: Event)
    requires Enabled(s, ev) && !s.settings.isRaw && !s.phase.Open? && s.outcome.Running?
    ensures EncodedBy(s, ev) == Posted(ev) && !ev.Deliver?
  {
  }

  /** Out of Open every command is still encoded, and nothing else is. */
  lemma {:induction false} ClosedStillEncodes(s: Conn, evs: seq<Event>)
    requires ValidRun(s, evs) && !s.settings.isRaw && !s.phase.Open? && s.outcome.Running?
    ensures Exec(s, evs).sent == s.sent + PostedOver(evs)
    decreases |evs|
  {
    hide Step, Enabled, EncodedBy, Posted;
    if |evs| == 0 {
      assert s.sent + [] == s.sent;
    } else {
      var s' := Step(s, evs[0]);
      StepHistories(s, evs[0]);
      PostsOutOfOpen(s, evs[0]);
      PhaseEffect(s, evs[0]);
      OutcomeEffect(s, evs[0]);
      if s'.outcome.Running? {
        ClosedStillEncodes(s', evs[1..]);
      } else {
        EndedIsFinal(s', evs[1..]);
      }
      assert s.sent + Posted(evs[0]) + PostedOver(evs[1..]) == s.sent + (Posted(evs[0]) + PostedOver(evs[1..]));
    }
  }

  /** The Close a local close passes to the encoder. */
  function CloseOf(ev: Event): Message
    requires IsLocalClose(ev)
  {
    if ev.msg.Close? then ev.msg else Close(Away, SHUTDOWN)
  }

  ghost predicate NoLocalClose(evs: seq<Event>) {
    forall i :: 0 <= i < |evs| ==> !IsLocalClose(evs[i])
  }

  /** Nothing is posted by commands that are all `Unvaid`, and by no others. */
  ghost predicate OnlyUnvaid(evs: seq<Event>) {
    forall i :: 0 <= i < |evs| && evs[i].Command? ==> evs[i].msg.Unvaid?
  }

  lemma {:induction false} PostsNothingExactly(evs: seq<Event>)
    ensures PostedOver(evs) == [] <==> OnlyUnvaid(evs)
  {
    if |evs| > 0 {
      PostsNothingExactly(evs[1..]);
      assert forall i :: 0 <= i < |evs[1..]| ==> evs[1..][i] == evs[i + 1];
      assert OnlyUnvaid(evs) <==> (evs[0].Command? ==> evs[0].msg.Unvaid?) && OnlyUnvaid(evs[1..]) by {
        assert forall i :: 0 < i < |evs| ==> evs[i] == evs[1..][i - 1];
      }
    }
  }

  /** Before its first local close a connection is Open and has encoded no Close. */
  lemma {:induction false} OpenBeforeClose(s: Conn, evs: seq<Event>)
    requires ValidRun(s, evs) && NoLocalClose(evs) && s.phase.Open? && !HasClose(s.sent)
    ensures Exec(s, evs).phase.Open? && !HasClose(Exec(s, evs).sent)
    decreases |evs|
  {
    if |evs| > 0 {
      assert !IsLocalClose(evs[0]);
      PhaseEffect(s, evs[0]);
      StepHistories(s, evs[0]);
      assert forall m :: m in EncodedBy(s, evs[0]) ==> !m.Close?;
      assert forall i :: 0 <= i < |evs[1..]| ==> evs[1..][i] == evs[i + 1];
      OpenBeforeClose(Step(s, evs[0]), evs[1..]);
    }
  }

  lemma {:induction false} CutAtFirst(ms: seq<Message>, m: Message, more: seq<Message>)
    requires !HasClose(ms) && m.Close?
    ensures CutAtClose(ms + [m] + more) == ms + [m]
  {
    if |ms| == 0 {
      assert ms + [m] + more == [m] + more;
    } else {
      assert !ms[0].Close?;
      assert (ms + [m] + more)[1..] == ms[1..] + [m] + more;
      assert forall i :: 0 <= i < |ms[1..]| ==> ms[1..][i] == ms[i + 1];
      CutAtFirst(ms[1..], m, more);
    }
  }

  /** A framed run up to its first local close, and what follows: the peer's stream goes on
      with what the later commands post, and ends with the Close exactly when they are all
      `Unvaid`. */
  lemma {:induction false} StreamAfterFirstClose(
      transport: Transport, settings: Settings, before: seq<Event>, close: Event, after: seq<Event>)
    requires !settings.isRaw && IsLocalClose(close) && NoLocalClose(before)
    requires ValidRun(Init(transport, settings), before + [close] + after)
    ensures var t := Exec(Init(transport, settings), before + [close] + after);
            && t.sent == CutAtClose(t.sent) + PostedOver(after)
            && |CutAtClose(t.sent)| > 0 && CutAtClose(t.sent)[|CutAtClose(t.sent)| - 1] == CloseOf(close)
            && t.written + t.write == EncodeAll(CutAtClose(t.sent), false) + EncodeAll(PostedOver(after), false)
            && (t.written + t.write == EncodeAll(CutAtClose(t.sent), false) <==> OnlyUnvaid(after))
  {
    hide Step, Enabled, EncodeAll, Parse;
    var s := Init(transport, settings);
    RunAppend(s, before + [close], after);
    RunAppend(s, before, [close]);
    var s1 := Exec(s, before);
    var s2 := Exec(s, before + [close]);
    assert [close][1..] == [] && s2 == Step(s1, close);
    OpenBeforeClose(s, before);
    RunHistories(s, before);
    StepHistories(s1, close);
    PhaseEffect(s1, close);
    OutcomeEffect(s1, close);
    CloseKeepsRunning(s1, close);
    ClosedStillEncodes(s2, after);
    var t := Exec(s2, after);
    CutAtFirst(s1.sent, CloseOf(close), PostedOver(after));
    InitInv(transport, settings);
    ExecInv(s, before + [close] + after);
    RunHistories(s, before + [close] + after);
    EncodeAllAppend(CutAtClose(t.sent), PostedOver(after), false);
    PostsNothingExactly(after);
    PostedIsNotEmpty(after);
  }

  lemma {:induction false} CloseKeepsRunning(s: Conn, close: Event)
    requires IsLocalClose(close) && Enabled(s, close)
    ensures Step(s, close).outcome.Running? && EncodedBy(s, close) == if s.settings.isRaw then [] else [CloseOf(close)]
  {
    CommandOutcome(s, close.msg);
  }

  /** A posted message has a frame of at least four bytes. */
  lemma {:induction false} PostedIsNotEmpty(evs: seq<Event>)
    ensures PostedOver(evs) != [] ==> EncodeAll(PostedOver(evs), false) != []
  {
    if |evs| > 0 {
      if Posted(evs[0]) == [] {
        assert PostedOver(evs) == PostedOver(evs[1..]);
        PostedIsNotEmpty(evs[1..]);
      } else {
        EncodeNonEmpty(PostedOver(evs)[0]);
      }
    }
  }

  // ---------- the code and reason a connection closes with ----------

  function FirstClose(evs: seq<Event>): Option<Message> {
    if |evs| == 0 then None
    else if IsLocalClose(evs[0]) then Some(CloseOf(evs[0]))
    else FirstClose(evs[1..])
  }

  function LastClose(evs: seq<Event>): Option<Message> {
    if |evs| == 0 then None
    else if LastClose(evs[1..]).Some? then LastClose(evs[1..])
    else if IsLocalClose(evs[0]) then Some(CloseOf(evs[0]))
    else None
  }

  lemma {:induction false} StepClosesWith(s: Conn, ev: Event)
    requires Enabled(s, ev) && Step(s, ev).phase.Closing?
    ensures Step(s, ev).phase
            == if IsLocalClose(ev) then Closing(CloseOf(ev).code, CloseOf(ev).reason) else s.phase
  {
    PhaseEffect(s, ev);
  }

  /** A closing connection holds the code and reason of the last local close. */
  lemma {:induction false} LastCloseIsKept(s: Conn, evs: seq<Event>)
    requires ValidRun(s, evs) && Exec(s, evs).phase.Closing?
    ensures match LastClose(evs)
            case Some(m) => m.Close? && Exec(s, evs).phase == Closing(m.code, m.reason)
            case None => Exec(s, evs).phase == s.phase
    decreases |evs|
  {
    if |evs| > 0 {
      LastCloseIsKept(Step(s, evs[0]), evs[1..]);
      if LastClose(evs[1..]).None? {
        StepClosesWith(s, evs[0]);
      }
    }
  }

  lemma {:induction false} SplitAtFirstClose(evs: seq<Event>) returns (before: seq<Event>, close: Event, after: seq<Event>)
    requires FirstClose(evs).Some?
    ensures evs == before + [close] + after
    ensures NoLocalClose(before) && IsLocalClose(close) && FirstClose(evs) == Some(CloseOf(close))
  {
    if IsLocalClose(evs[0]) {
      before, close, after := [], evs[0], evs[1..];
    } else {
      before, close, after := SplitAtFirstClose(evs[1..]);
      before := [evs[0]] + before;
    }
  }

  lemma {:induction false} FirstAndLast(evs: seq<Event>)
    ensures FirstClose(evs).Some? <==> LastClose(evs).Some?
    ensures LastClose(evs).Some? ==> FirstClose(evs).value.Close? && LastClose(evs).value.Close?
  {
    if |evs| > 0 {
      FirstAndLast(evs[1..]);
    }
  }

  /** What the peer of a closing connection is told: the last message up to the first
      Close, in wire form. */
  function Told(s: Conn): Message
    requires |CutAtClose(s.sent)| > 0
  {
    Canon(CutAtClose(s.sent)[|CutAtClose(s.sent)| - 1])
  }

  /** A closing framed connection tells its peer the first close it was asked for, and holds
      the last; the two agree exactly when both have the same reason and the same code on
      the wire. */
  lemma {:induction false} ToldAndKeptAgreeExactly(transport: Transport, settings: Settings, evs: seq<Event>)
    requires !settings.isRaw && ValidRun(Init(transport, settings), evs)
    requires Exec(Init(transport, settings), evs).phase.Closing?
    ensures FirstClose(evs).Some? && LastClose(evs).Some?
    ensures var t := Exec(Init(transport, settings), evs);
            var first, last := FirstClose(evs).value, LastClose(evs).value;
            && first.Close? && last.Close? && |CutAtClose(t.sent)| > 0
            && Told(t) == Canon(first)
            && Close(t.phase.code, t.phase.reason) == last
            && (Told(t) == Canon(Close(t.phase.code, t.phase.reason))
                <==> CodeToU16(first.code) == CodeToU16(last.code) && first.reason == last.reason)
  {
    LastCloseIsKept(Init(transport, settings), evs);
    FirstAndLast(evs);
    var before, close, after := SplitAtFirstClose(evs);
    StreamAfterFirstClose(transport, settings, before, close, after);
    CanonCodeExact(FirstClose(evs).value.code);
  }

  // ---------- both happen ----------

  lemma {:induction false} EmptyTextLength()
    ensures |Encode(Text([]), false)| == 4
  {
  }

  /** The stream can go on behind a Close: a default connection closes, is given a text to
      send, and writes both. */
  lemma {:induction false} BytesFollowClose(transport: Transport) returns (evs: seq<Event>)
    ensures var s0 := Init(transport, DEFAULT_SETTINGS);
            && ValidRun(s0, evs)
            && EncodeAll(CutAtClose(Exec(s0, evs).sent), false) < Exec(s0, evs).written
  {
    hide DeliverStep, Idle, Encode, Ascii;
    EmptyTextLength();
    var s0 := Init(transport, DEFAULT_SETTINGS);
    var text, write := Command(Text([])), WriteBytes(10);
    evs := ClosedOnce(transport);
    var s2 := Exec(s0, evs);
    ExecSnoc(s0, evs, text);
    var s3 := Step(s2, text);
    assert s3.sent == [Close(Normal, []), Text([])];
    assert CutAtClose(s3.sent) == [Close(Normal, [])];
    ExecSnoc(s0, evs + [text], write);
    evs := evs + [text] + [write];
    assert Exec(s0, evs).written == s3.write;
    assert EncodeAll([Close(Normal, [])], false) == Encode(Close(Normal, []), false);
  }

  /** And a connection can hold another close than the one its peer is told: it is closed
      twice, with different codes. */
  lemma {:induction false} KeptIsNotTold(transport: Transport) returns (evs: seq<Event>)
    ensures var s0 := Init(transport, DEFAULT_SETTINGS);
            && ValidRun(s0, evs)
            && var t := Exec(s0, evs);
               t.phase == Closing(Away, []) && |CutAtClose(t.sent)| > 0 && Told(t) == Close(Normal, [])
  {
    hide DeliverStep, WriteStep, Idle, Encode, Ascii;
    var s0 := Init(transport, DEFAULT_SETTINGS);
    var again := Command(Close(Away, []));
    evs := ClosedOnce(transport);
    ExecSnoc(s0, evs, again);
    assert Step(Exec(s0, evs), again).sent == [Close(Normal, []), Close(Away, [])];
    evs := evs + [again];
  }
}
