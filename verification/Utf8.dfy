/** UTF-8 of Unicode scalar values, and reading it back. */
module Utf8 {
  import opened Wrappers
  import opened Bytes

  function EncodeChar(c: char): (b: seq<Byte>)
    ensures 1 <= |b| <= 4
  {
    var n := c as int;
    if n < 0x80 then [n]
    else if n < 0x800 then [0xC0 + n / 0x40, 0x80 + n % 0x40]
    else if n < 0x1_0000 then [0xE0 + n / 0x1000, 0x80 + n / 0x40 % 0x40, 0x80 + n % 0x40]
    else [0xF0 + n / 0x4_0000, 0x80 + n / 0x1000 % 0x40, 0x80 + n / 0x40 % 0x40, 0x80 + n % 0x40]
  }

  function Encode(s: string): seq<Byte> {
    if |s| == 0 then [] else EncodeChar(s[0]) + Encode(s[1..])
  }

  function ToChar(n: int): Option<char> {
    if 0 <= n < 0xD800 || 0xE000 <= n < 0x11_0000 then Some(n as char) else None
  }

  /** The character at the front and the number of bytes it takes. */
  function DecodeChar(b: seq<Byte>): Option<(char, nat)>
    requires |b| > 0
  {
    var n :=
      if b[0] < 0x80 then (b[0] as int, 1)
      else if b[0] < 0xE0 && |b| >= 2 then ((b[0] as int - 0xC0) * 0x40 + (b[1] as int - 0x80), 2)
      else if b[0] < 0xF0 && |b| >= 3 then
        (((b[0] as int - 0xE0) * 0x40 + (b[1] as int - 0x80)) * 0x40 + (b[2] as int - 0x80), 3)
      else if |b| >= 4 then
        ((((b[0] as int - 0xF0) * 0x40 + (b[1] as int - 0x80)) * 0x40 + (b[2] as int - 0x80)) * 0x40
          + (b[3] as int - 0x80), 4)
      else (-1, 1);
    match ToChar(n.0)
    case None => None
    case Some(c) => Some((c, n.1))
  }

  function Decode(b: seq<Byte>): Option<string> {
    if |b| == 0 then Some("")
    else match DecodeChar(b)
      case None => None
      case Some((c, k)) =>
        match Decode(b[if k <= |b| then k else |b|..])
        case None => None
        case Some(rest) => Some([c] + rest)
  }

  lemma DecodeEncodedChar(c: char, rest: seq<Byte>)
    ensures DecodeChar(EncodeChar(c) + rest) == Some((c, |EncodeChar(c)|))
  {
    var n := c as int;
    var b := EncodeChar(c);
    assert forall k :: 0 <= k < |b| ==> (b + rest)[k] == b[k];
    if n >= 0x1_0000 {
      assert n / 0x4_0000 == n / 0x40 / 0x40 / 0x40 && n / 0x1000 == n / 0x40 / 0x40;
    } else if n >= 0x800 {
      assert n / 0x1000 == n / 0x40 / 0x40;
    }
    assert n as char == c;
  }

  lemma {:induction false} DecodeEncode(s: string)
    ensures Decode(Encode(s)) == Some(s)
    decreases |s|
  {
    if |s| == 0 {
    } else {
      var rest := Encode(s[1..]);
      DecodeEncodedChar(s[0], rest);
      assert (EncodeChar(s[0]) + rest)[|EncodeChar(s[0])|..] == rest;
      DecodeEncode(s[1..]);
      assert s == [s[0]] + s[1..];
    }
  }

  /** RFC 3629, section 3: how many bytes, what each may be, and that their payload bits are the character. */
  lemma EncodedCharIsWellFormed(c: char)
    ensures var n, b := c as int, EncodeChar(c);
            && (|b| == 1 <==> n < 0x80) && (|b| == 2 <==> 0x80 <= n < 0x800) && (|b| == 3 <==> 0x800 <= n < 0x1_0000)
            && (forall k :: 1 <= k < |b| ==> 0x80 <= b[k] < 0xC0)
            && (|b| == 1 ==> b[0] as int == n)
            && (|b| == 2 ==> 0xC2 <= b[0] < 0xE0 && n == Payload(b, 0xC0))
            && (|b| == 3 ==> 0xE0 <= b[0] < 0xF0 && n == Payload(b, 0xE0))
            && (|b| == 4 ==> 0xF0 <= b[0] <= 0xF4 && n == Payload(b, 0xF0))
  {
    var n, b := c as int, EncodeChar(c);
    if n >= 0x1_0000 {
      assert n / 0x4_0000 == n / 0x40 / 0x40 / 0x40 && n / 0x1000 == n / 0x40 / 0x40;
      PayloadUnfolds(b, 0xF0);
    } else if n >= 0x800 {
      assert n / 0x1000 == n / 0x40 / 0x40;
      PayloadUnfolds(b, 0xE0);
    } else if n >= 0x80 {
      PayloadUnfolds(b, 0xC0);
    }
  }

  lemma PayloadUnfolds(b: seq<Byte>, marker: int)
    requires 2 <= |b| <= 4
    ensures |b| == 2 ==> Payload(b, marker) == (b[0] as int - marker) * 64 + (b[1] as int - 0x80)
    ensures |b| == 3 ==>
              Payload(b, marker) == ((b[0] as int - marker) * 64 + (b[1] as int - 0x80)) * 64 + (b[2] as int - 0x80)
    ensures |b| == 4 ==>
              Payload(b, marker)
              == (((b[0] as int - marker) * 64 + (b[1] as int - 0x80)) * 64 + (b[2] as int - 0x80)) * 64
                 + (b[3] as int - 0x80)
  {
    assert Payload(b[..1], marker) == b[0] as int - marker;
    assert b[..2][..1] == b[..1];
    assert Payload(b[..2], marker) == Payload(b[..1], marker) * 64 + (b[1] as int - 0x80);
    if |b| >= 3 {
      assert b[..3][..2] == b[..2];
      assert Payload(b[..3], marker) == Payload(b[..2], marker) * 64 + (b[2] as int - 0x80);
    }
    assert b[..|b|] == b;
  }

  /** The lead byte less its marker, then six bits from each byte after it. */
  ghost function Payload(b: seq<Byte>, marker: int): int
    requires |b| > 0
  {
    if |b| == 1 then b[0] as int - marker else Payload(b[..|b| - 1], marker) * 64 + (b[|b| - 1] as int - 0x80)
  }
}
