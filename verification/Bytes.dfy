/** Machine integers, byte strings and UTF-8 text.

    Rust integers are modelled as bounded subset types of `int`; every place where the
    source truncates or wraps says so with an explicit `%`. A Rust `String` is a byte
    string that satisfies the UTF-8 rules of RFC 3629, section 4. */
module Bytes {

  const U16_LIMIT := 0x1_0000
  const U24_LIMIT := 0x100_0000
  const U32_LIMIT := 0x1_0000_0000
  const U64_LIMIT := 0x1_0000_0000_0000_0000
  const USIZE_MAX := U64_LIMIT - 1

  type byte = n: int | 0 <= n < 0x100
  type u16 = n: int | 0 <= n < U16_LIMIT
  type u32 = n: int | 0 <= n < U32_LIMIT
  type u64 = n: int | 0 <= n < U64_LIMIT

  datatype Option<+T> = None | Some(value: T)

  predicate Tail(b: byte) {
    0x80 <= b <= 0xBF
  }

  /** The number of bytes of the well-formed character at the front of `s`, or 0 when
      `s` starts with none. */
  function CharLength(s: seq<byte>): (n: nat)
    requires |s| > 0
    ensures n <= |s|
  {
    if s[0] <= 0x7F then 1
    else if 0xC2 <= s[0] <= 0xDF then
      if |s| >= 2 && Tail(s[1]) then 2 else 0
    else if 0xE0 <= s[0] <= 0xEF then
      if |s| >= 3 && Tail(s[1]) && Tail(s[2])
         && (s[0] == 0xE0 ==> s[1] >= 0xA0) && (s[0] == 0xED ==> s[1] <= 0x9F) then 3 else 0
    else if 0xF0 <= s[0] <= 0xF4 then
      if |s| >= 4 && Tail(s[1]) && Tail(s[2]) && Tail(s[3])
         && (s[0] == 0xF0 ==> s[1] >= 0x90) && (s[0] == 0xF4 ==> s[1] <= 0x8F) then 4 else 0
    else 0
  }

  predicate ValidUtf8(s: seq<byte>)
    decreases |s|, 1
  {
    |s| == 0 || CharThenRest(s)
  }

  predicate CharThenRest(s: seq<byte>)
    requires |s| > 0
    decreases |s|, 0
  {
    var n := CharLength(s);
    n > 0 && ValidUtf8(s[n..])
  }

  type Str = s: seq<byte> | ValidUtf8(s) witness []

  predicate IsAscii(s: string) {
    forall i :: 0 <= i < |s| ==> s[i] as int < 0x80
  }

  lemma {:induction false} AsciiIsUtf8(s: seq<byte>)
    requires forall i :: 0 <= i < |s| ==> s[i] < 0x80
    ensures ValidUtf8(s)
  {
    if |s| > 0 {
      AsciiIsUtf8(s[1..]);
    }
  }

  /** The bytes of an ASCII literal. */
  function Ascii(s: string): (r: Str)
    requires IsAscii(s)
    ensures |r| == |s| && forall i :: 0 <= i < |s| ==> r[i] == s[i] as int
  {
    var r: seq<byte> := seq(|s|, i requires 0 <= i < |s| => s[i] as int);
    AsciiIsUtf8(r);
    r
  }

  const NET_ERROR: Str := Ascii("NetError")
  const SHUTDOWN: Str := Ascii("Shutdown")
  const HANDSHAKE_FAILED: Str := Ascii("handshake failed!")

  /** The reasons a connection gives itself, byte by byte. */
  lemma Reasons()
    ensures NET_ERROR == [78, 101, 116, 69, 114, 114, 111, 114]
    ensures SHUTDOWN == [83, 104, 117, 116, 100, 111, 119, 110]
    ensures HANDSHAKE_FAILED
            == [104, 97, 110, 100, 115, 104, 97, 107, 101, 32, 102, 97, 105, 108, 101, 100, 33]
  {
    hide ValidUtf8;
  }

  lemma ConcatAssoc<T>(a: seq<T>, b: seq<T>, c: seq<T>)
    ensures (a + b) + c == a + (b + c)
  {
  }

  lemma PrefixAfter<T>(a: seq<T>, b: seq<T>, c: seq<T>)
    requires b <= c
    ensures a + b <= a + c
  {
    assert a + c == a + b + c[|b|..];
  }
}
