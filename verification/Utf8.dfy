/** UTF-8 by the arithmetic of RFC 3629, section 3: a text is the encoding of a sequence of
    Unicode scalar values, and `Bytes.ValidUtf8` accepts exactly the texts. */
module Utf8 {
  import opened Bytes

  /** A code point that is not a surrogate. */
  type Scalar = c: int | 0 <= c <= 0x10FFFF && !(0xD800 <= c <= 0xDFFF)

  /** The six lowest bits of `c`, in a byte that is not the first. */
  function SixBits(c: nat): byte {
    0x80 + c % 0x40
  }

  function EncodeScalar(c: Scalar): seq<byte> {
    if c < 0x80 then [c]
    else if c < 0x800 then [0xC0 + c / 0x40, SixBits(c)]
    else if c < 0x1_0000 then [0xE0 + c / 0x1000, SixBits(c / 0x40), SixBits(c)]
    else [0xF0 + c / 0x4_0000, SixBits(c / 0x1000), SixBits(c / 0x40), SixBits(c)]
  }

  function EncodeScalars(cs: seq<Scalar>): seq<byte> {
    if |cs| == 0 then [] else EncodeScalar(cs[0]) + EncodeScalars(cs[1..])
  }

  ghost predicate IsText(s: seq<byte>) {
    exists cs :: s == EncodeScalars(cs)
  }

  lemma {:induction false} EncodedLength(c: Scalar, rest: seq<byte>)
    ensures CharLength(EncodeScalar(c) + rest) == |EncodeScalar(c)|
  {
    var s := EncodeScalar(c) + rest;
    if c < 0x80 {
    } else if c < 0x800 {
      assert s[0] == 0xC0 + c / 0x40 && s[1] == SixBits(c);
    } else if c < 0x1_0000 {
      assert s[0] == 0xE0 + c / 0x1000 && s[1] == SixBits(c / 0x40) && s[2] == SixBits(c);
    } else {
      assert s[0] == 0xF0 + c / 0x4_0000 && s[1] == SixBits(c / 0x1000);
      assert s[2] == SixBits(c / 0x40) && s[3] == SixBits(c);
    }
  }

  lemma {:induction false} TwoBytes(a: nat, b: nat) returns (c: Scalar)
    requires 2 <= a < 0x20 && b < 0x40
    ensures EncodeScalar(c) == [0xC0 + a, 0x80 + b]
  {
    c := a * 0x40 + b;
  }

  lemma {:induction false} ThreeBytes(a: nat, b: nat, d: nat) returns (c: Scalar)
    requires a < 0x10 && b < 0x40 && d < 0x40
    requires (a == 0 ==> b >= 0x20) && (a == 0xD ==> b < 0x20)
    ensures EncodeScalar(c) == [0xE0 + a, 0x80 + b, 0x80 + d]
  {
    c := a * 0x1000 + b * 0x40 + d;
    assert c / 0x1000 == a && c / 0x40 == a * 0x40 + b;
  }

  lemma {:induction false} FourBytes(a: nat, b: nat, d: nat, e: nat) returns (c: Scalar)
    requires a < 5 && b < 0x40 && d < 0x40 && e < 0x40
    requires (a == 0 ==> b >= 0x10) && (a == 4 ==> b < 0x10)
    ensures EncodeScalar(c) == [0xF0 + a, 0x80 + b, 0x80 + d, 0x80 + e]
  {
    c := a * 0x4_0000 + b * 0x1000 + d * 0x40 + e;
    assert c / 0x4_0000 == a && c / 0x1000 == a * 0x40 + b && c / 0x40 == (a * 0x40 + b) * 0x40 + d;
  }

  /** The character at the front of `s`. */
  lemma {:induction false} FrontScalar(s: seq<byte>) returns (c: Scalar)
    requires |s| > 0 && CharLength(s) > 0
    ensures s[..CharLength(s)] == EncodeScalar(c)
  {
    hide EncodeScalar;
    var n := CharLength(s);
    var b0: int := s[0];
    if n == 1 {
      c := b0;
      OneByte(c);
    } else if n == 2 {
      c := TwoBytes(b0 - 0xC0, (s[1] as int) - 0x80);
    } else if n == 3 {
      c := ThreeBytes(b0 - 0xE0, (s[1] as int) - 0x80, (s[2] as int) - 0x80);
    } else {
      c := FourBytes(b0 - 0xF0, (s[1] as int) - 0x80, (s[2] as int) - 0x80, (s[3] as int) - 0x80);
    }
  }

  lemma {:induction false} OneByte(c: Scalar)
    requires c < 0x80
    ensures EncodeScalar(c) == [c]
  {
  }

  lemma {:induction false} EncodedIsValid(cs: seq<Scalar>)
    ensures ValidUtf8(EncodeScalars(cs))
  {
    if |cs| > 0 {
      var head, rest := EncodeScalar(cs[0]), EncodeScalars(cs[1..]);
      EncodedLength(cs[0], rest);
      EncodedIsValid(cs[1..]);
      assert (head + rest)[|head|..] == rest;
    }
  }

  lemma {:induction false} ValidIsEncoded(s: seq<byte>) returns (cs: seq<Scalar>)
    requires ValidUtf8(s)
    ensures s == EncodeScalars(cs)
    decreases |s|
  {
    cs := [];
    if |s| > 0 {
      assert CharThenRest(s);
      var n := CharLength(s);
      var c := FrontScalar(s);
      var rest := ValidIsEncoded(s[n..]);
      cs := [c] + rest;
      assert cs[1..] == rest && s == s[..n] + s[n..];
    }
  }

  /** The byte strings accepted as text are exactly the encodings of scalar values. */
  lemma {:induction false} Utf8Exact(s: seq<byte>)
    ensures ValidUtf8(s) <==> IsText(s)
  {
    if ValidUtf8(s) {
      var cs := ValidIsEncoded(s);
    }
    if IsText(s) {
      var cs :| s == EncodeScalars(cs);
      EncodedIsValid(cs);
    }
  }
}
