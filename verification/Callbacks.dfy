/** The handler as a connection sees it (src/handler.rs): an arbitrary party that is
    called back, answers, and may make a run fail. */
module Callbacks {
  import opened Bytes
  import opened Protocol

  datatype Callback =
    | OnRequest
    | OnOpen
    | OnMessage(msg: Message)
    | OnPing(data: seq<byte>)
    | OnPong(data: seq<byte>)
    | OnClose(code: CloseCode, reason: Str)

  /** A callback's answer; only `on_ping` uses `pong`. */
  datatype Reply = Done(pong: Option<seq<byte>>) | Refused

  /** How far a run has come. */
  datatype Outcome = Fresh | Running | Returned | Failed(error: NetError)

  /** The callback a decoded message causes. */
  function CallbackOf(m: Message): Callback {
    match m
    case Text(_) => OnMessage(m)
    case Binary(_) => OnMessage(m)
    case Close(code, reason) => OnClose(code, reason)
    case Ping(data) => OnPing(data)
    case Pong(data) => OnPong(data)
    case Shutdown => OnMessage(m)
    case Unvaid => OnMessage(m)
  }

  function CallbacksOf(ms: seq<Message>): (r: seq<Callback>)
    ensures |r| == |ms| && forall i :: 0 <= i < |ms| ==> r[i] == CallbackOf(ms[i])
  {
    seq(|ms|, i requires 0 <= i < |ms| => CallbackOf(ms[i]))
  }

  /** The messages a handler makes out of its callbacks: `on_message` carries one, and the
      others tell of theirs. `on_open` and `on_request` tell of none. */
  function HeardIn(c: Callback): seq<Message> {
    match c
    case OnMessage(m) => [m]
    case OnPing(data) => [Ping(data)]
    case OnPong(data) => [Pong(data)]
    case OnClose(code, reason) => [Close(code, reason)]
    case OnOpen => []
    case OnRequest => []
  }

  function Heard(log: seq<Callback>): seq<Message> {
    if |log| == 0 then [] else HeardIn(log[0]) + Heard(log[1..])
  }

  /** `on_message` is for texts and binaries only. */
  ghost predicate MessagesAreData(log: seq<Callback>) {
    forall i :: 0 <= i < |log| && log[i].OnMessage? ==> log[i].msg.Text? || log[i].msg.Binary?
  }

  ghost predicate AllReal(ms: seq<Message>) {
    forall i :: 0 <= i < |ms| ==> !ms[i].Shutdown? && !ms[i].Unvaid?
  }

  lemma {:induction false} DataAppend(a: seq<Callback>, b: seq<Callback>)
    requires MessagesAreData(a) && MessagesAreData(b)
    ensures MessagesAreData(a + b)
  {
  }

  lemma {:induction false} HeardAppend(a: seq<Callback>, b: seq<Callback>)
    ensures Heard(a + b) == Heard(a) + Heard(b)
  {
    if |a| == 0 {
      assert a + b == b;
    } else {
      assert (a + b)[1..] == a[1..] + b;
      HeardAppend(a[1..], b);
    }
  }

  lemma {:induction false} HeardOne(c: Callback)
    ensures Heard([c]) == HeardIn(c)
  {
    assert [c][1..] == [];
  }

  lemma {:induction false} HeardInCallbacks(ms: seq<Message>)
    requires AllReal(ms)
    ensures Heard(CallbacksOf(ms)) == ms && MessagesAreData(CallbacksOf(ms))
  {
    if |ms| > 0 {
      assert CallbacksOf(ms)[1..] == CallbacksOf(ms[1..]);
      HeardInCallbacks(ms[1..]);
      assert HeardIn(CallbackOf(ms[0])) == [ms[0]] && ms == [ms[0]] + ms[1..];
    }
  }

  /** What the caller of a failed run adds: the last `on_close`. */
  const ERROR_CLOSE := OnClose(Error, NET_ERROR)

  function ErrorTail(o: Outcome): seq<Callback> {
    if o.Failed? then [ERROR_CLOSE] else []
  }

  /** `on_close` is the last callback if it is called at all. */
  ghost predicate CloseIsLast(log: seq<Callback>) {
    forall i :: 0 <= i < |log| && log[i].OnClose? ==> i == |log| - 1
  }

  ghost predicate CalledClose(log: seq<Callback>) {
    exists i :: 0 <= i < |log| && log[i].OnClose?
  }

  ghost predicate HasClose(ms: seq<Message>) {
    exists i :: 0 <= i < |ms| && ms[i].Close?
  }

  /** A Close message is the last one if there is one at all. */
  ghost predicate CloseEnds(ms: seq<Message>) {
    forall i :: 0 <= i < |ms| && ms[i].Close? ==> i == |ms| - 1
  }
}
