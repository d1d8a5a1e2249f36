/** The codec as the source runs it: methods that put into and take from a mutable
    buffer (src/lib.rs, src/encode.rs, src/decode.rs), each proved against `Framing`. */
module Codec {
  import opened Bytes
  import opened Protocol
  import opened Buffer
  import opened Framing

  datatype Decoded = Decoded(result: Option<Message>) | DecodeFailed(error: NetError)

  /** What the caller of the decoder sees of a parse. */
  function Seen(p: Parsed): Decoded {
    match p
    case Incomplete => Decoded(None)
    case Complete(msg, _) => Decoded(Some(msg))
    case Malformed(error, _) => DecodeFailed(error)
  }

  function Taken(p: Parsed): nat {
    if p.Incomplete? then 0 else p.used
  }

  method ReadU24(buf: BinaryMut) returns (v: nat)
    requires buf.Valid()
    modifies buf`cursor
    ensures buf.Valid()
    ensures var s := old(buf.Unread());
            if |s| < 3 then v == 0 && buf.Unread() == s
            else v == U24Value(s[0], s[1], s[2]) && buf.Unread() == s[3..]
  {
    var n := buf.Len();
    if n < 3 {
      return 0;
    }
    var b0 := buf.GetU8();
    var b1 := buf.GetU8();
    var b2 := buf.GetU8();
    v := U24Value(b0, b1, b2);
  }

  method EncodeU24(buf: BinaryMut, v: u32) returns (n: nat)
    requires buf.Valid()
    modifies buf
    ensures buf.Valid() && n == 3
    ensures buf.Unread() == old(buf.Unread()) + U24Bytes(v)
  {
    buf.PutU8(v / 0x1_0000 % 0x100);
    buf.PutU8(v / 0x100 % 0x100);
    buf.PutU8(v % 0x100);
    n := 3;
  }

  method PutHead(data: BinaryMut, length: nat, op: OpCode)
    requires data.Valid()
    modifies data
    ensures data.Valid()
    ensures data.Unread() == old(data.Unread()) + (U24Bytes(length % U32_LIMIT) + [OpToU8(op)])
  {
    var _ := EncodeU24(data, length % U32_LIMIT);
    data.PutU8(OpToU8(op));
  }

  method PutFrame(data: BinaryMut, op: OpCode, payload: seq<byte>)
    requires data.Valid()
    modifies data
    ensures data.Valid() && data.Unread() == old(data.Unread()) + Frame(op, payload)
  {
    PutHead(data, |payload| + 4, op);
    data.PutSlice(payload);
  }

  method PutClose(data: BinaryMut, code: CloseCode, reason: Str)
    requires data.Valid()
    modifies data
    ensures data.Valid()
    ensures data.Unread() == old(data.Unread()) + Frame(OpClose, U16Bytes(CodeToU16(code)) + reason)
  {
    var n := CodeToU16(code);
    PutHead(data, |reason| + 6, OpClose);
    data.PutU16(n);
    data.PutSlice(reason);
    ghost var head := U24Bytes((|reason| + 6) % U32_LIMIT) + [OpToU8(OpClose)];
    assert Frame(OpClose, U16Bytes(n) + reason) == head + U16Bytes(n) + reason;
  }

  /** Appends exactly the encoding of the message. */
  method EncodeMessage(data: BinaryMut, msg: Message, isRaw: bool)
    requires data.Valid()
    modifies data
    ensures data.Valid()
    ensures data.Unread() == old(data.Unread()) + Encode(msg, isRaw)
  {
    match msg
    case Text(bytes) =>
      if isRaw {
        data.PutSlice(bytes);
      } else {
        PutFrame(data, OpText, bytes);
      }
    case Binary(bytes) =>
      if isRaw {
        data.PutSlice(bytes);
      } else {
        PutFrame(data, OpBinary, bytes);
      }
    case Close(code, reason) =>
      if !isRaw {
        PutClose(data, code, reason);
      }
    case Ping(bytes) =>
      if !isRaw {
        PutFrame(data, OpPing, bytes);
      }
    case Pong(bytes) =>
      if !isRaw {
        PutFrame(data, OpPong, bytes);
      }
    case Shutdown =>
    case Unvaid =>
  }

  /** Takes one message, or nothing, from the front of the buffer. An undecided frame is
      put back by rewinding to the mark; an error keeps what was already taken. */
  method DecodeMessage(data: BinaryMut, settings: Settings) returns (r: Decoded)
    requires data.Valid()
    modifies data`cursor, data`marked
    ensures data.Valid()
    ensures var p := Parse(old(data.Unread()), settings);
            r == Seen(p) && data.Unread() == old(data.Unread())[Taken(p)..]
  {
    hide ParseBody, OpFromU8;
    ghost var s := data.Unread();
    var n := data.Len();
    if settings.isRaw {
      if n == 0 {
        return Decoded(None);
      }
      var all := data.CopyToSlice(n);
      assert all == s;
      return Decoded(Some(Binary(all)));
    }
    if n < 4 {
      return Decoded(None);
    }
    data.Mark();
    var length := ReadU24(data);
    if length < 4 {
      return DecodeFailed(TooShort);
    }
    if length > settings.oneMsgMaxSize {
      return DecodeFailed(OverMsgSize);
    }
    n := data.Len();
    if n + 3 < length {
      data.RewindMark();
      return Decoded(None);
    }
    var op := data.GetU8();
    var val := data.CopyToSlice(length - 4);
    assert val == s[4..length];
    r := DecodeBody(op, val);
  }

  /** The message of a whole frame. */
  method DecodeBody(op: byte, val: seq<byte>) returns (r: Decoded)
    ensures r == Seen(ParseBody(OpFromU8(op), val)) && Taken(ParseBody(OpFromU8(op), val)) == |val| + 4
  {
    hide ValidUtf8, CodeFromU16;
    match OpFromU8(op)
    case OpText =>
      return if ValidUtf8(val) then Decoded(Some(Text(val))) else DecodeFailed(BadText);
    case OpBinary =>
      return Decoded(Some(Binary(val)));
    case OpClose =>
      if |val| < 2 {
        return DecodeFailed(TooShort);
      }
      var code := U16Value(val[0], val[1]);
      return if ValidUtf8(val[2..]) then Decoded(Some(Close(CodeFromU16(code), val[2..])))
        else DecodeFailed(BadText);
    case OpPing =>
      return Decoded(Some(Ping(val)));
    case OpPong =>
      return Decoded(Some(Pong(val)));
    case OpShutdown =>
      return DecodeFailed(BadCode);
    case OpBad =>
      return DecodeFailed(BadCode);
  }
}
