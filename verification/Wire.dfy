/** The wire format in numbers: what `Framing` and `Protocol` come to, byte by byte. */
module Wire {
  import opened Bytes
  import opened Protocol
  import opened Framing
  import opened Utf8

  // ---------- numbers ----------

  /** The close codes with a name, in the order of their numbers. */
  const NAMED := [Empty, Normal, Away, Protocol, Unsupported, Status, Abnormal, Invalid, Policy,
                  Size, Extension, Error, Restart, Again, Tls]

  /** Their numbers rise strictly from 0 over 1000 to 1015, without 1004 and 1014, so each is
      determined; every other number belongs to `Other`. */
  lemma CodeNumbers(n: u16)
    ensures forall i, j :: 0 <= i < j < |NAMED| ==> CodeToU16(NAMED[i]) < CodeToU16(NAMED[j])
    ensures CodeToU16(Empty) == 0 && CodeToU16(Normal) == 1000 && CodeToU16(Tls) == 1015
    ensures forall i :: 0 <= i < |NAMED| ==> CodeToU16(NAMED[i]) != 1004 && CodeToU16(NAMED[i]) != 1014
    ensures CodeToU16(Other(n)) == n
    ensures CodeFromU16(n).Other? <==> n != 0 && (n < 1000 || n == 1004 || n == 1014 || n > 1015)
  {
  }

  /** Data opcodes are 1 and 2 and control opcodes 8 to 10; nothing else is read. */
  lemma OpcodeRanges(b: byte)
    ensures OpFromU8(b).OpBad? <==> !(b == 1 || b == 2 || 8 <= b <= 10)
    ensures OpFromU8(b).OpText? || OpFromU8(b).OpBinary? <==> 1 <= b <= 2
    ensures !OpFromU8(b).OpShutdown?
    ensures !OpFromU8(b).OpBad? ==> OpToU8(OpFromU8(b)) == b
  {
  }

  /** The number in the first three bytes, most significant first. */
  function HeadNumber(f: seq<byte>): nat
    requires |f| >= 3
  {
    (f[0] as int * 0x100 + f[1] as int) * 0x100 + f[2] as int
  }

  function PairNumber(hi: byte, lo: byte): nat {
    hi as int * 0x100 + lo as int
  }

  // ---------- frames ----------

  /** A frame: its own length in three bytes, cut to 24 bits; the opcode; the content. */
  ghost predicate IsFrame(f: seq<byte>, op: byte, content: seq<byte>) {
    && |f| == 4 + |content| && HeadNumber(f) == |f| % 0x100_0000
    && f[3] == op && f[4..] == content
  }

  lemma {:induction false} CutTwice(n: nat)
    ensures n % U32_LIMIT % U24_LIMIT == n % U24_LIMIT
  {
    var q, r := n / U32_LIMIT, n % U32_LIMIT;
    var k := q * 0x100 + r / U24_LIMIT;
    assert n == k * U24_LIMIT + r % U24_LIMIT;
  }

  lemma {:induction false} FrameIsFrame(op: OpCode, content: seq<byte>)
    ensures IsFrame(Frame(op, content), OpToU8(op), content)
  {
    hide OpToU8;
    var n := |content| + 4;
    U24RoundTrip(n % U32_LIMIT);
    CutTwice(n);
    var head := U24Bytes(n % U32_LIMIT);
    hide U24Bytes;
    assert Frame(op, content) == head + [OpToU8(op)] + content;
    assert U24Value(head[0], head[1], head[2]) == n % U24_LIMIT;
  }

  /** Every message in framed mode, byte by byte. */
  lemma {:induction false} FrameLayout(m: Message)
    ensures var f := Encode(m, false);
            match m
            case Text(text) => IsFrame(f, 1, text)
            case Binary(data) => IsFrame(f, 2, data)
            case Close(code, reason) =>
              && |f| == 6 + |reason| && HeadNumber(f) == |f| % 0x100_0000 && f[3] == 8
              && PairNumber(f[4], f[5]) == CodeToU16(code) && f[6..] == reason
            case Ping(data) => IsFrame(f, 9, data)
            case Pong(data) => IsFrame(f, 10, data)
            case Shutdown => f == []
            case Unvaid => f == []
  {
    hide Frame;
    match m
    case Text(text) => FrameIsFrame(OpText, text);
    case Binary(data) => FrameIsFrame(OpBinary, data);
    case Close(code, reason) => CloseLayout(code, reason);
    case Ping(data) => FrameIsFrame(OpPing, data);
    case Pong(data) => FrameIsFrame(OpPong, data);
    case _ =>
  }

  lemma {:induction false} CloseLayout(code: CloseCode, reason: Str)
    ensures var f := Encode(Close(code, reason), false);
            && |f| == 6 + |reason| && HeadNumber(f) == |f| % 0x100_0000 && f[3] == 8
            && PairNumber(f[4], f[5]) == CodeToU16(code) && f[6..] == reason
  {
    hide Frame, CodeToU16;
    var content := U16Bytes(CodeToU16(code)) + reason;
    FrameIsFrame(OpClose, content);
    var f := Encode(Close(code, reason), false);
    assert f[4] == f[4..][0] && f[5] == f[4..][1];
    assert f[6..] == f[4..][2..] == reason;
  }

  /** `a` comes before `b` in dictionary order. */
  predicate Before(a: seq<byte>, b: seq<byte>)
    requires |a| == |b|
  {
    |a| > 0 && (a[0] < b[0] || (a[0] == b[0] && Before(a[1..], b[1..])))
  }

  lemma {:induction false} BeforeIsLess(a: seq<byte>, b: seq<byte>)
    requires |a| == |b| == 3
    ensures Before(a, b) <==> HeadNumber(a) < HeadNumber(b)
  {
    assert a[1..][0] == a[1] && b[1..][0] == b[1];
    assert a[1..][1..] == [a[2]] && b[1..][1..] == [b[2]];
    assert Before([a[2]], [b[2]]) <==> a[2] < b[2];
    assert Before(a[1..], b[1..]) <==> a[1] < b[1] || (a[1] == b[1] && a[2] < b[2]);
  }

  /** Heads of frames that state their length compare as the lengths do. */
  lemma {:induction false} HeadsCompare(m: Message, n: Message)
    requires Framed(m) && Framed(n)
    ensures |Encode(m, false)| >= 4 && |Encode(n, false)| >= 4
    ensures Before(Encode(m, false)[..3], Encode(n, false)[..3]) <==> |Encode(m, false)| < |Encode(n, false)|
  {
    HeadIsLength(m);
    HeadIsLength(n);
    hide Encode, Before;
    BeforeIsLess(Encode(m, false)[..3], Encode(n, false)[..3]);
  }

  lemma {:induction false} HeadIsLength(m: Message)
    requires Framed(m)
    ensures |Encode(m, false)| >= 4 && HeadNumber(Encode(m, false)[..3]) == |Encode(m, false)|
  {
    FrameLayout(m);
    hide Encode;
  }

  // ---------- what the decoder takes ----------

  /** The decoder hands over a message exactly when its frame, within the limits, is at the
      front of the buffer; and takes just that frame. */
  lemma {:induction false} DecodesExactly(s: seq<byte>, settings: Settings, m: Message, n: nat)
    requires !settings.isRaw
    ensures Parse(s, settings) == Complete(m, n)
            <==> Encodes(m, false) && Canon(m) == m && Fits(m, settings)
                 && Encode(m, false) <= s && n == |Encode(m, false)|
  {
    if Parse(s, settings) == Complete(m, n) {
      OnlyCanonicalFrames(s, settings);
    }
    if Encodes(m, false) && Encode(m, false) <= s {
      RoundTripExact(m, s[|Encode(m, false)|..], settings);
      assert s == Encode(m, false) + s[|Encode(m, false)|..];
    }
  }

  /** A whole frame whose content is not that of a message, and the error for it. */
  function BadContent(op: byte, content: seq<byte>): (e: Option<NetError>)
    ensures op == 1 ==> (e == Some(BadText) <==> !IsText(content)) && (e.None? <==> IsText(content))
    ensures op == 8 ==> (e == Some(TooShort) <==> |content| < 2)
                        && (e == Some(BadText) <==> |content| >= 2 && !IsText(content[2..]))
                        && (e.None? <==> |content| >= 2 && IsText(content[2..]))
    ensures op == 2 || op == 9 || op == 10 ==> e.None?
    ensures !(1 <= op <= 2 || 8 <= op <= 10) ==> e == Some(BadCode)
  {
    Utf8Exact(content);
    if op == 1 then (if ValidUtf8(content) then None else Some(BadText))
    else if op == 8 then
      if |content| < 2 then Some(TooShort)
      else
        Utf8Exact(content[2..]);
        if ValidUtf8(content[2..]) then None else Some(BadText)
    else if op == 2 || op == 9 || op == 10 then None
    else Some(BadCode)
  }

  /** When it asks for more, and when it fails with which error, having taken the three bytes
      of the length or the whole frame. */
  lemma {:induction false} RefusesExactly(s: seq<byte>, settings: Settings)
    requires !settings.isRaw
    ensures var p := Parse(s, settings);
            if |s| < 4 then p.Incomplete?
            else
              var n := HeadNumber(s);
              if n < 4 then p == Malformed(TooShort, 3)
              else if n > settings.oneMsgMaxSize then p == Malformed(OverMsgSize, 3)
              else if |s| < n then p.Incomplete?
              else match BadContent(s[3], s[4..n])
                   case Some(e) => p == Malformed(e, n)
                   case None => p.Complete? && p.used == n
  {
    if |s| >= 4 {
      var n := HeadNumber(s);
      assert U24Value(s[0], s[1], s[2]) == n;
      if 4 <= n <= |s| {
        BodyRefusesExactly(s[3], s[4..n]);
      }
    }
  }

  lemma {:induction false} BodyRefusesExactly(op: byte, content: seq<byte>)
    ensures var p := ParseBody(OpFromU8(op), content);
            match BadContent(op, content)
            case Some(e) => p == Malformed(e, |content| + 4)
            case None => p.Complete? && p.used == |content| + 4
  {
    Utf8Exact(content);
    if |content| >= 2 {
      Utf8Exact(content[2..]);
    }
    hide ValidUtf8, CodeFromU16;
  }

  // ---------- raw mode ----------

  /** A raw decoder takes the whole buffer as one binary, and nothing only from an empty one. */
  lemma RawDecodes(s: seq<byte>, settings: Settings)
    requires settings.isRaw
    ensures Parse(s, settings).Incomplete? <==> s == []
    ensures s != [] ==> Parse(s, settings) == Complete(Binary(s), |s|)
  {
  }

  /** The bytes of a text or binary. */
  function PayloadOf(m: Message): seq<byte> {
    match m
    case Text(text) => text
    case Binary(data) => data
    case _ => []
  }

  function Payloads(ms: seq<Message>): seq<byte> {
    if |ms| == 0 then [] else PayloadOf(ms[0]) + Payloads(ms[1..])
  }

  /** Raw mode writes the bytes of texts and binaries and nothing else. */
  lemma {:induction false} RawIsPayloads(ms: seq<Message>)
    ensures EncodeAll(ms, true) == Payloads(ms)
  {
    if |ms| > 0 {
      RawIsPayloads(ms[1..]);
      assert Encode(ms[0], true) == PayloadOf(ms[0]);
    }
  }

  lemma {:induction false} PayloadsAppend(ms: seq<Message>, ns: seq<Message>)
    ensures Payloads(ms + ns) == Payloads(ms) + Payloads(ns)
  {
    if |ms| == 0 {
      assert ms + ns == ns;
    } else {
      assert (ms + ns)[1..] == ms[1..] + ns;
      PayloadsAppend(ms[1..], ns);
      ConcatAssoc(PayloadOf(ms[0]), Payloads(ms[1..]), Payloads(ns));
    }
  }
}
