/** Machine bytes, the C conversions the analyzer code relies on, and big-endian integers. */
module Bytes {

  datatype Option<+T> = None | Some(value: T)

  type byte = x: int | 0 <= x < 256

  type word = x: int | 0 <= x < 0x1_0000_0000

  /** Conversion of an int to `unsigned char`: the value modulo 256. */
  function UChar(n: int): byte {
    n % 256
  }

  /** A byte read as a (signed) `char`. */
  function Signed(b: byte): (n: int)
    ensures -128 <= n < 128
  {
    if b < 128 then b else b - 256
  }

  /** Conversion of an int to a signed `char`. */
  function SChar(n: int): (c: int)
    ensures -128 <= c < 128
  {
    Signed(UChar(n))
  }

  /** The conversion to `char` keeps exactly the values a `char` can hold. */
  lemma SCharKeeps(n: int)
    ensures SChar(n) == n <==> -128 <= n < 128
  {
  }

  /** Negating twice in `char` arithmetic gives the value back, -128 included. */
  lemma SCharNegNeg(c: int)
    requires -128 <= c < 128
    ensures SChar(-SChar(-c)) == c
  {
  }

  /** Bit i of a byte, the test `b & (1 << i)`. */
  predicate Bit(b: byte, i: nat)
    requires i < 8
  {
    (b / [1, 2, 4, 8, 16, 32, 64, 128][i]) % 2 == 1
  }

  /** A 16-bit value, most significant byte first. */
  function Be16(n: int): seq<byte>
    requires 0 <= n < 0x1_0000
  {
    [n / 0x100, n % 0x100]
  }

  /** A 32-bit value, most significant byte first. */
  function Be32(n: int): seq<byte>
    requires 0 <= n < 0x1_0000_0000
  {
    [n / 0x100_0000, n / 0x1_0000 % 0x100, n / 0x100 % 0x100, n % 0x100]
  }

  /** The number a big-endian byte sequence denotes. */
  function FromBe(bs: seq<byte>): nat {
    if |bs| == 0 then 0 else FromBe(bs[..|bs| - 1]) * 0x100 + bs[|bs| - 1]
  }

  /** The values of two, respectively four, bytes from a position on, combined by shifts and `|`. */
  function Word16(b: seq<byte>, at: nat): (n: nat)
    requires at + 2 <= |b|
  {
    b[at] as int * 0x100 + b[at + 1]
  }

  function Word32(b: seq<byte>, at: nat): (n: nat)
    requires at + 4 <= |b|
    ensures n < 0x1_0000_0000
  {
    b[at] as int * 0x100_0000 + b[at + 1] as int * 0x1_0000 + b[at + 2] as int * 0x100 + b[at + 3]
  }

  /** A 32-bit pattern read as a C `int`. */
  function Signed32(n: int): int
    requires 0 <= n < 0x1_0000_0000
  {
    if n < 0x8000_0000 then n else n - 0x1_0000_0000
  }

  lemma FromBe1(bs: seq<byte>)
    requires |bs| == 1
    ensures FromBe(bs) == bs[0]
  {
  }

  lemma FromBe2(bs: seq<byte>)
    requires |bs| == 2
    ensures FromBe(bs) == Word16(bs, 0) < 0x1_0000
  {
    assert FromBe(bs[..1]) == FromBe(bs[..1][..0]) * 0x100 + bs[0];
  }

  lemma FromBe4(bs: seq<byte>)
    requires |bs| == 4
    ensures FromBe(bs) == Word32(bs, 0) < 0x1_0000_0000
  {
    assert bs[..3][..2] == bs[..2];
    FromBe2(bs[..2]);
  }

  /** Big-endian encoding and decoding undo each other, in both directions. */
  lemma Be32RoundTrip(n: int)
    requires 0 <= n < 0x1_0000_0000
    ensures FromBe(Be32(n)) == n
  {
    FromBe4(Be32(n));
    assert n / 0x100 / 0x100 == n / 0x1_0000;
    assert n / 0x1_0000 / 0x100 == n / 0x100_0000;
  }

  lemma Word32Digits(b: seq<byte>)
    requires |b| == 4
    ensures var n := Word32(b, 0);
      n / 0x100_0000 == b[0] && n / 0x1_0000 % 0x100 == b[1] && n / 0x100 % 0x100 == b[2] && n % 0x100 == b[3]
  {
    var n := Word32(b, 0);
    assert n / 0x100 == b[0] as int * 0x1_0000 + b[1] as int * 0x100 + b[2];
    assert n / 0x1_0000 == b[0] as int * 0x100 + b[1];
  }

  lemma Be32Inverse(bs: seq<byte>)
    requires |bs| == 4
    ensures FromBe(bs) < 0x1_0000_0000 && Be32(FromBe(bs)) == bs
  {
    FromBe4(bs);
    Word32Digits(bs);
  }
}
