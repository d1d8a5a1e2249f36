/** What the codec means (src/decode.rs, src/encode.rs, src/lib.rs): a printer and an
    incremental parser over byte strings, and the laws that tie them together. */
module Framing {
  import opened Bytes
  import opened Protocol

  function U24Value(b0: byte, b1: byte, b2: byte): nat {
    (b0 as int) * 0x1_0000 + (b1 as int) * 0x100 + b2
  }

  /** The three low bytes of a 32-bit value, most significant first. */
  function U24Bytes(v: u32): (s: seq<byte>)
    ensures |s| == 3
  {
    [v / 0x1_0000 % 0x100, v / 0x100 % 0x100, v % 0x100]
  }

  function U16Value(hi: byte, lo: byte): (n: u16) {
    (hi as int) * 0x100 + lo
  }

  function U16Bytes(n: u16): (s: seq<byte>)
    ensures |s| == 2
  {
    [n / 0x100, n % 0x100]
  }

  /** Length, opcode, payload. The length is cast to 32 bits and then loses its top byte. */
  function Frame(op: OpCode, payload: seq<byte>): seq<byte> {
    U24Bytes((|payload| + 4) % U32_LIMIT) + [OpToU8(op)] + payload
  }

  function Encode(m: Message, raw: bool): seq<byte> {
    if raw then
      match m
      case Text(text) => text
      case Binary(data) => data
      case _ => []
    else
      match m
      case Text(text) => Frame(OpText, text)
      case Binary(data) => Frame(OpBinary, data)
      case Close(code, reason) => Frame(OpClose, U16Bytes(CodeToU16(code)) + reason)
      case Ping(data) => Frame(OpPing, data)
      case Pong(data) => Frame(OpPong, data)
      case Shutdown => []
      case Unvaid => []
  }

  /** Whether `encode_message` writes the message at all. */
  predicate Encodes(m: Message, raw: bool) {
    m.Text? || m.Binary? || (!raw && (m.Close? || m.Ping? || m.Pong?))
  }

  function EncodeAll(ms: seq<Message>, raw: bool): seq<byte> {
    if |ms| == 0 then [] else Encode(ms[0], raw) + EncodeAll(ms[1..], raw)
  }

  /** `used` counts the bytes the parser takes from the buffer. */
  datatype Parsed =
    | Incomplete
    | Complete(msg: Message, used: nat)
    | Malformed(error: NetError, used: nat)

  function ParseBody(op: OpCode, val: seq<byte>): Parsed {
    var used := |val| + 4;
    match op
    case OpText => if ValidUtf8(val) then Complete(Text(val), used) else Malformed(BadText, used)
    case OpBinary => Complete(Binary(val), used)
    case OpClose =>
      if |val| < 2 then Malformed(TooShort, used)
      else if ValidUtf8(val[2..]) then
        Complete(Close(CodeFromU16(U16Value(val[0], val[1])), val[2..]), used)
      else Malformed(BadText, used)
    case OpPing => Complete(Ping(val), used)
    case OpPong => Complete(Pong(val), used)
    case OpShutdown => Malformed(BadCode, used)
    case OpBad => Malformed(BadCode, used)
  }

  /** One call of the decoder on the unread bytes `s`. */
  function Parse(s: seq<byte>, settings: Settings): (p: Parsed)
    ensures p.Complete? ==> 0 < p.used <= |s|
    ensures p.Malformed? ==> p.used <= |s| && IsDecodeError(p.error)
  {
    if settings.isRaw then
      if |s| == 0 then Incomplete else Complete(Binary(s), |s|)
    else if |s| < 4 then Incomplete
    else
      var length := U24Value(s[0], s[1], s[2]);
      if length < 4 then Malformed(TooShort, 3)
      else if length > settings.oneMsgMaxSize then Malformed(OverMsgSize, 3)
      else if |s| < length then Incomplete
      else ParseBody(OpFromU8(s[3]), s[4..length])
  }

  /** The frame of `m` is one the peer's decoder can take back. */
  predicate Fits(m: Message, settings: Settings) {
    |Encode(m, false)| <= settings.oneMsgMaxSize && |Encode(m, false)| < U24_LIMIT
  }

  // ---------- lengths and numbers ----------

  lemma U24RoundTrip(v: u32)
    ensures var s := U24Bytes(v); U24Value(s[0], s[1], s[2]) == v % U24_LIMIT
  {
    assert v / 0x100 == v / 0x1_0000 * 0x100 + v / 0x100 % 0x100;
  }

  /** Three bytes are determined by their value. */
  lemma {:induction false} U24Canonical(b0: byte, b1: byte, b2: byte)
    ensures var v := U24Value(b0, b1, b2); v < U24_LIMIT && U24Bytes(v) == [b0, b1, b2]
  {
    var v := U24Value(b0, b1, b2);
    assert v / 0x1_0000 == b0;
    assert v / 0x100 == (b0 as int) * 0x100 + b1;
  }

  lemma {:induction false} FrameLength(op: OpCode, payload: seq<byte>, rest: seq<byte>)
    ensures var s := Frame(op, payload) + rest;
            && |Frame(op, payload)| == |payload| + 4
            && U24Value(s[0], s[1], s[2]) == (|payload| + 4) % U24_LIMIT
            && s[3] == OpToU8(op) && s[4..|payload| + 4] == payload && s[|payload| + 4..] == rest
  {
    U24RoundTrip((|payload| + 4) % U32_LIMIT);
    CutTwice(|payload| + 4);
  }

  /** Cutting to 32 bits and then to 24 is cutting to 24. */
  lemma {:induction false} CutTwice(n: nat)
    ensures n % U32_LIMIT % U24_LIMIT == n % U24_LIMIT
  {
    var q, r := n / U32_LIMIT, n % U32_LIMIT;
    assert n == (q * 0x100 + r / U24_LIMIT) * U24_LIMIT + r % U24_LIMIT;
  }

  // ---------- round trip ----------

  function FramePayload(m: Message): seq<byte>
    requires Encodes(m, false)
  {
    match m
    case Text(text) => text
    case Binary(data) => data
    case Close(code, reason) => U16Bytes(CodeToU16(code)) + reason
    case Ping(data) => data
    case Pong(data) => data
  }

  function FrameOp(m: Message): OpCode
    requires Encodes(m, false)
  {
    match m
    case Text(_) => OpText
    case Binary(_) => OpBinary
    case Close(_, _) => OpClose
    case Ping(_) => OpPing
    case Pong(_) => OpPong
  }

  lemma {:induction false} ParseOwnBody(m: Message)
    requires Encodes(m, false)
    ensures ParseBody(FrameOp(m), FramePayload(m)) == Complete(Canon(m), |FramePayload(m)| + 4)
    ensures OpFromU8(OpToU8(FrameOp(m))) == FrameOp(m)
    ensures Encode(m, false) == Frame(FrameOp(m), FramePayload(m))
  {
    if m.Close? {
      assert FramePayload(m)[2..] == m.reason;
    }
  }

  /** The decoder's view of an encoded message: only the length modulo 2^24 survives. */
  lemma {:induction false} ParseEncoded(m: Message, rest: seq<byte>, settings: Settings)
    requires Encodes(m, false) && !settings.isRaw
    ensures var s := Encode(m, false) + rest;
            var n := |Encode(m, false)|;
            var length := n % U24_LIMIT;
            && n >= 4
            && Parse(s, settings) ==
                 if length < 4 then Malformed(TooShort, 3)
                 else if length > settings.oneMsgMaxSize then Malformed(OverMsgSize, 3)
                 else if length == n then Complete(Canon(m), n)
                 else ParseBody(FrameOp(m), s[4..length])
  {
    hide ParseBody, Encode, Frame;
    ParseOwnBody(m);
    FrameLength(FrameOp(m), FramePayload(m), rest);
  }

  /** Encoding then decoding gives the canonical message and leaves what follows it, for
      every continuation, exactly when the frame is within the peer's limit and below
      2^24 bytes. */
  lemma {:induction false} RoundTripExact(m: Message, rest: seq<byte>, settings: Settings)
    requires Encodes(m, false) && !settings.isRaw
    ensures Parse(Encode(m, false) + rest, settings) == Complete(Canon(m), |Encode(m, false)|)
            <==> Fits(m, settings)
  {
    hide Parse, Encode;
    ParseEncoded(m, rest, settings);
    if |Encode(m, false)| >= U24_LIMIT {
      TooLongFails(m, rest, settings);
    }
  }

  /** Why a frame over the limits fails: over the peer's limit it is refused; at 2^24
      bytes or more the receiver sees the length reduced modulo 2^24. */
  lemma {:induction false} TooLongFails(m: Message, rest: seq<byte>, settings: Settings)
    requires Encodes(m, false) && !settings.isRaw && !Fits(m, settings)
    ensures var n := |Encode(m, false)|; var p := Parse(Encode(m, false) + rest, settings);
            && (n < U24_LIMIT ==> p == Malformed(OverMsgSize, 3))
            && (n % U24_LIMIT < 4 ==> p == Malformed(TooShort, 3))
            && (p.Complete? ==> n >= U24_LIMIT && p.used == n % U24_LIMIT)
  {
    hide Parse, Encode;
    ParseEncoded(m, rest, settings);
    BodyUses(FrameOp(m), (Encode(m, false) + rest)[4..Max(4, |Encode(m, false)| % U24_LIMIT)]);
  }

  lemma BodyUses(op: OpCode, val: seq<byte>)
    ensures var p := ParseBody(op, val);
            !p.Incomplete? && p.used == |val| + 4
  {
  }

  /** The decoder accepts only what the encoder prints: the bytes taken are the encoding
      of the message returned, and that message is canonical. */
  lemma {:induction false} OnlyCanonicalFrames(s: seq<byte>, settings: Settings)
    requires Parse(s, settings).Complete?
    ensures var p := Parse(s, settings);
            && Encode(p.msg, settings.isRaw) == s[..p.used]
            && Canon(p.msg) == p.msg && Encodes(p.msg, settings.isRaw)
            && (!settings.isRaw ==> Fits(p.msg, settings))
  {
    if !settings.isRaw {
      OnlyCanonicalFramed(s, settings);
    }
  }

  lemma {:induction false} OnlyCanonicalFramed(s: seq<byte>, settings: Settings)
    requires !settings.isRaw && Parse(s, settings).Complete?
    ensures var p := Parse(s, settings);
            && Encode(p.msg, false) == s[..p.used]
            && Canon(p.msg) == p.msg && Encodes(p.msg, false) && Fits(p.msg, settings)
  {
    hide ParseBody, Encode;
    var length := U24Value(s[0], s[1], s[2]);
    var val := s[4..length];
    U24Canonical(s[0], s[1], s[2]);
    BodyIsCanonical(s[3], val);
    assert s[..length] == U24Bytes(length) + [s[3]] + val;
  }

  lemma {:induction false} BodyIsCanonical(op: byte, val: seq<byte>)
    requires ParseBody(OpFromU8(op), val).Complete?
    ensures var p := ParseBody(OpFromU8(op), val);
            && Encodes(p.msg, false) && Canon(p.msg) == p.msg && p.used == |val| + 4
            && OpToU8(FrameOp(p.msg)) == op && FramePayload(p.msg) == val
            && Encode(p.msg, false) == Frame(FrameOp(p.msg), val)
  {
    if OpFromU8(op) == OpClose {
      assert val == [val[0], val[1]] + val[2..];
      assert U16Bytes(U16Value(val[0], val[1])) == [val[0], val[1]];
    }
  }

  lemma EncodeCanon(m: Message)
    ensures Encode(Canon(m), false) == Encode(m, false)
  {
  }

  // ---------- incremental parsing ----------

  /** A verdict on the bytes so far is not changed by the bytes that follow. */
  lemma {:induction false} ParseStable(s: seq<byte>, more: seq<byte>, settings: Settings)
    requires !settings.isRaw && !Parse(s, settings).Incomplete?
    ensures Parse(s + more, settings) == Parse(s, settings)
  {
    var length := U24Value(s[0], s[1], s[2]);
    if 4 <= length <= |s| {
      assert (s + more)[4..length] == s[4..length];
    }
  }

  function Min(a: nat, b: nat): nat { if a <= b then a else b }

  function Max(a: nat, b: nat): nat { if a >= b then a else b }

  /** The bytes an undecided decoder can be holding stay below this. */
  function ReadBound(settings: Settings): nat {
    if settings.isRaw then 1 else Max(4, Min(settings.oneMsgMaxSize, U24_LIMIT - 1))
  }

  lemma IncompleteIsSmall(s: seq<byte>, settings: Settings)
    requires Parse(s, settings).Incomplete?
    ensures |s| < ReadBound(settings)
  {
    if !settings.isRaw && |s| >= 4 {
      U24Canonical(s[0], s[1], s[2]);
    }
  }

  /** The length of an undecided frame says that more is to come. */
  lemma {:induction false} AnnouncedIsIncomplete(s: seq<byte>, length: nat, settings: Settings)
    requires 4 <= |s| < length <= settings.oneMsgMaxSize && U24Value(s[0], s[1], s[2]) == length && !settings.isRaw
    ensures Parse(s, settings).Incomplete?
  {
    hide ParseBody, OpFromU8;
  }

  /** The bound is reached: any shorter length is that of some undecided input. */
  lemma IncompleteOfAnyLength(n: nat, settings: Settings) returns (s: seq<byte>)
    requires n < ReadBound(settings)
    ensures |s| == n && Parse(s, settings).Incomplete?
  {
    hide ParseBody, OpFromU8;
    if settings.isRaw || n < 4 {
      s := seq(n, _ => 0);
    } else {
      hide Parse;
      var length := Min(settings.oneMsgMaxSize, U24_LIMIT - 1);
      U24RoundTrip(length);
      var head := U24Bytes(length);
      hide U24Bytes;
      s := head + seq(n - 3, _ => 0);
      assert s[0] == head[0] && s[1] == head[1] && s[2] == head[2];
      AnnouncedIsIncomplete(s, length, settings);
    }
  }

  // ---------- sequences of messages ----------

  lemma {:induction false} EncodeAllAppend(ms: seq<Message>, ns: seq<Message>, raw: bool)
    ensures EncodeAll(ms + ns, raw) == EncodeAll(ms, raw) + EncodeAll(ns, raw)
  {
    if |ms| == 0 {
      assert ms + ns == ns;
    } else {
      assert (ms + ns)[1..] == ms[1..] + ns;
      EncodeAllAppend(ms[1..], ns, raw);
      ConcatAssoc(Encode(ms[0], raw), EncodeAll(ms[1..], raw), EncodeAll(ns, raw));
    }
  }

  lemma {:induction false} EncodeAllSnoc(ms: seq<Message>, m: Message, raw: bool)
    ensures EncodeAll(ms + [m], raw) == EncodeAll(ms, raw) + Encode(m, raw)
  {
    EncodeAllAppend(ms, [m], raw);
    assert EncodeAll([m], raw) == Encode(m, raw);
  }

  /** A message whose frame states its own length. */
  predicate Framed(m: Message) {
    Encodes(m, false) && |Encode(m, false)| < U24_LIMIT
  }

  ghost predicate AllFramed(ms: seq<Message>) {
    forall i :: 0 <= i < |ms| ==> Framed(ms[i])
  }

  ghost predicate AllFit(ms: seq<Message>, settings: Settings) {
    forall i :: 0 <= i < |ms| ==> Fits(ms[i], settings)
  }

  ghost predicate AllEncode(ms: seq<Message>, raw: bool) {
    forall i :: 0 <= i < |ms| ==> Encodes(ms[i], raw)
  }

  /** Two byte strings that agree and start with frames start with the same frame. */
  lemma {:induction false} SameFirstFrame(m: Message, mRest: seq<byte>, n: Message, nRest: seq<byte>)
    requires Framed(m) && Framed(n)
    requires Encode(m, false) + mRest == Encode(n, false) + nRest
    ensures Canon(m) == Canon(n) && mRest == nRest
  {
    var wide := DEFAULT_SETTINGS.(oneMsgMaxSize := U24_LIMIT);
    RoundTripExact(m, mRest, wide);
    RoundTripExact(n, nRest, wide);
    assert mRest == (Encode(m, false) + mRest)[|Encode(m, false)|..];
    assert nRest == (Encode(n, false) + nRest)[|Encode(n, false)|..];
  }

  /** Distinct canonical messages have distinct encodings. */
  lemma {:induction false} EncodeInjective(m: Message, n: Message)
    requires Framed(m) && Framed(n)
    ensures Encode(m, false) == Encode(n, false) <==> Canon(m) == Canon(n)
  {
    EncodeCanon(m);
    EncodeCanon(n);
    if Encode(m, false) == Encode(n, false) {
      SameFirstFrame(m, [], n, []);
    }
  }

  lemma {:induction false} EncodeNonEmpty(m: Message)
    requires Encodes(m, false)
    ensures |Encode(m, false)| >= 4
  {
    ParseOwnBody(m);
  }

  /** Two byte strings that agree and start with frames start with the same frames. */
  lemma {:induction false} SameFront(ds: seq<Message>, x: seq<byte>, ns: seq<Message>, y: seq<byte>)
    requires AllFramed(ds) && AllFramed(ns) && |ds| <= |ns|
    requires EncodeAll(ds, false) + x == EncodeAll(ns, false) + y
    ensures forall i :: 0 <= i < |ds| ==> Canon(ds[i]) == Canon(ns[i])
    ensures x == EncodeAll(ns[|ds|..], false) + y
  {
    if |ds| == 0 {
      assert ns[0..] == ns;
    } else {
      ConcatAssoc(Encode(ds[0], false), EncodeAll(ds[1..], false), x);
      ConcatAssoc(Encode(ns[0], false), EncodeAll(ns[1..], false), y);
      SameFirstFrame(ds[0], EncodeAll(ds[1..], false) + x, ns[0], EncodeAll(ns[1..], false) + y);
      SameFront(ds[1..], x, ns[1..], y);
      assert ns[|ds|..] == ns[1..][|ds| - 1..];
      forall i | 0 < i < |ds| ensures Canon(ds[i]) == Canon(ns[i]) {
        assert ds[i] == ds[1..][i - 1] && ns[i] == ns[1..][i - 1];
      }
    }
  }

  /** Frames form a prefix code: if the encodings of `ds` followed by `tail` are the
      encodings of `ns`, then `ds` are the first messages of `ns` up to wire form and
      `tail` is the encoding of the others. */
  lemma {:induction false} PrefixCode(ds: seq<Message>, tail: seq<byte>, ns: seq<Message>)
    requires AllFramed(ds) && AllFramed(ns)
    requires EncodeAll(ds, false) + tail == EncodeAll(ns, false)
    ensures |ds| <= |ns|
    ensures forall i :: 0 <= i < |ds| ==> Canon(ds[i]) == Canon(ns[i])
    ensures tail == EncodeAll(ns[|ds|..], false)
  {
    assert EncodeAll(ns, false) + [] == EncodeAll(ns, false);
    if |ds| <= |ns| {
      SameFront(ds, tail, ns, []);
      assert EncodeAll(ns[|ds|..], false) + [] == EncodeAll(ns[|ds|..], false);
    } else {
      SameFront(ns, [], ds, tail);
      EncodeNonEmpty(ds[|ns|]);
      assert false;
    }
  }
}
