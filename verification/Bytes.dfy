/** Bytes, and the big-endian words file formats are made of. */
module Bytes {
  type Byte = x: int | 0 <= x < 256

  function Word16(b: seq<Byte>, i: nat): (n: nat)
    requires i + 2 <= |b|
    ensures n < 0x1_0000
  {
    b[i] as int * 256 + b[i + 1] as int
  }

  function Word32(b: seq<Byte>, i: nat): (n: nat)
    requires i + 4 <= |b|
    ensures n < 0x1_0000_0000
  {
    Word16(b, i) * 0x1_0000 + Word16(b, i + 2)
  }

  function Bytes16(n: nat): (b: seq<Byte>)
    requires n < 0x1_0000
    ensures |b| == 2 && Word16(b, 0) == n
  {
    [n / 256, n % 256]
  }

  function Bytes32(n: nat): (b: seq<Byte>)
    requires n < 0x1_0000_0000
    ensures |b| == 4 && Word32(b, 0) == n
  {
    Bytes16(n / 0x1_0000) + Bytes16(n % 0x1_0000)
  }

  lemma DigitsAgree(a: Byte, b: Byte, c: Byte, d: Byte)
    requires a as int * 256 + b as int == c as int * 256 + d as int
    ensures a == c && b == d
  {
  }

  lemma HalvesAgree(x: nat, y: nat, z: nat, w: nat)
    requires x < 0x1_0000 && y < 0x1_0000 && z < 0x1_0000 && w < 0x1_0000
    requires x * 0x1_0000 + y == z * 0x1_0000 + w
    ensures x == z && y == w
  {
  }

  /** Equal words are equal bytes. */
  lemma WordsDetermineBytes(b: seq<Byte>, i: nat, c: seq<Byte>, j: nat)
    requires i + 4 <= |b| && j + 4 <= |c|
    ensures Word32(b, i) == Word32(c, j) <==> b[i..i + 4] == c[j..j + 4]
  {
    if Word32(b, i) == Word32(c, j) {
      HalvesAgree(Word16(b, i), Word16(b, i + 2), Word16(c, j), Word16(c, j + 2));
      DigitsAgree(b[i], b[i + 1], c[j], c[j + 1]);
      DigitsAgree(b[i + 2], b[i + 3], c[j + 2], c[j + 3]);
    }
    FourBytes(b, i);
    FourBytes(c, j);
  }

  lemma FourBytes(b: seq<Byte>, i: nat)
    requires i + 4 <= |b|
    ensures b[i..i + 4] == [b[i], b[i + 1], b[i + 2], b[i + 3]]
  {
  }
}
