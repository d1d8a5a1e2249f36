/** Close codes, opcodes and messages (src/protocol.rs, src/message.rs). */
module Protocol {
  import opened Bytes

  datatype CloseCode =
    | Normal | Away | Protocol | Unsupported | Status | Abnormal | Invalid | Policy
    | Size | Extension | Error | Restart | Again | Tls | Empty | Other(code: u16)

  function CodeToU16(c: CloseCode): u16 {
    match c
    case Normal => 1000
    case Away => 1001
    case Protocol => 1002
    case Unsupported => 1003
    case Status => 1005
    case Abnormal => 1006
    case Invalid => 1007
    case Policy => 1008
    case Size => 1009
    case Extension => 1010
    case Error => 1011
    case Restart => 1012
    case Again => 1013
    case Tls => 1015
    case Empty => 0
    case Other(code) => code
  }

  function CodeFromU16(n: u16): CloseCode {
    match n
    case 1000 => Normal
    case 1001 => Away
    case 1002 => Protocol
    case 1003 => Unsupported
    case 1005 => Status
    case 1006 => Abnormal
    case 1007 => Invalid
    case 1008 => Policy
    case 1009 => Size
    case 1010 => Extension
    case 1011 => Error
    case 1012 => Restart
    case 1013 => Again
    case 1015 => Tls
    case 0 => Empty
    case _ => Other(n)
  }

  /** What a close code looks like after it has crossed the wire. */
  function CanonCode(c: CloseCode): (r: CloseCode)
    ensures CodeToU16(r) == CodeToU16(c)
  {
    CodeFromU16(CodeToU16(c))
  }

  /** The only close codes the wire does not preserve are `Other(n)` for an `n` that has
      a name of its own. */
  lemma CanonCodeExact(c: CloseCode)
    ensures CanonCode(c) == c <==> !(c.Other? && !CodeFromU16(c.code).Other?)
    ensures CanonCode(CanonCode(c)) == CanonCode(c)
    ensures forall d :: CodeToU16(c) == CodeToU16(d) <==> CanonCode(c) == CanonCode(d)
  {
    forall d ensures CodeToU16(c) == CodeToU16(d) <==> CanonCode(c) == CanonCode(d) {
      assert CodeToU16(CanonCode(c)) == CodeToU16(c) && CodeToU16(CanonCode(d)) == CodeToU16(d);
    }
  }

  datatype OpCode = OpText | OpBinary | OpClose | OpPing | OpPong | OpShutdown | OpBad

  function OpToU8(op: OpCode): byte {
    match op
    case OpText => 1
    case OpBinary => 2
    case OpClose => 8
    case OpPing => 9
    case OpPong => 10
    case OpShutdown => 10
    case OpBad => 8
  }

  function OpFromU8(b: byte): OpCode {
    match b
    case 1 => OpText
    case 2 => OpBinary
    case 8 => OpClose
    case 9 => OpPing
    case 10 => OpPong
    case _ => OpBad
  }

  datatype Message =
    | Text(text: Str)
    | Binary(data: seq<byte>)
    | Close(code: CloseCode, reason: Str)
    | Ping(data: seq<byte>)
    | Pong(data: seq<byte>)
    | Shutdown
    | Unvaid

  /** A message with its close code in wire form. */
  function Canon(m: Message): Message {
    match m
    case Close(code, reason) => Close(CanonCode(code), reason)
    case _ => m
  }

  function CanonAll(ms: seq<Message>): (r: seq<Message>)
    ensures |r| == |ms| && forall i :: 0 <= i < |ms| ==> r[i] == Canon(ms[i])
  {
    seq(|ms|, i requires 0 <= i < |ms| => Canon(ms[i]))
  }

  /** The connection settings the model uses (src/settings.rs); times are events and
      carry no duration. */
  datatype Settings = Settings(
    maxConnections: nat,
    queueSize: nat,
    inBufferMax: nat,
    outBufferMax: nat,
    oneMsgMaxSize: nat,
    isRaw: bool)

  const DEFAULT_SETTINGS := Settings(1024, 10, 10485760, 10485760, 65535, false)

  datatype NetError =
    | TooShort | BadCode | BadText | OverMsgSize | OverInbufferSize
    | ReadTimeout | Timeout | Io | HandlerError
    | BadStatus | FailStatus(status: nat)

  /** The errors `decode_message` can return. */
  predicate IsDecodeError(e: NetError) {
    e.TooShort? || e.BadCode? || e.BadText? || e.OverMsgSize?
  }
}
