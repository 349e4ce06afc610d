/** Bytes and little-endian numbers. */
module Bytes {

  type Byte = x: int | 0 <= x < 256

  const TWO_16 := 0x1_0000
  const TWO_32 := 0x1_0000_0000

  function Le16(b0: Byte, b1: Byte): (n: nat)
    ensures n < TWO_16
  {
    b0 + 0x100 * b1
  }

  function Le32(b0: Byte, b1: Byte, b2: Byte, b3: Byte): (n: nat)
    ensures n < TWO_32
  {
    b0 + 0x100 * b1 + 0x1_0000 * b2 + 0x100_0000 * b3
  }

  /** The low `count` bytes of a number, least significant first. */
  function LeBytes(n: nat, count: nat): (b: seq<Byte>)
    ensures |b| == count
    decreases n, count
  {
    if count == 0 then [] else [n % 256] + LeBytes(n / 256, count - 1)
  }

  lemma LeBytesAt(n: nat, count: nat)
    requires count > 0
    ensures LeBytes(n, count)[0] == n % 256 && LeBytes(n, count)[1..] == LeBytes(n / 256, count - 1)
  {
  }

  lemma Le16Bytes(n: nat)
    ensures var b := LeBytes(n, 2); Le16(b[0], b[1]) == n % TWO_16
  {
    LeBytesAt(n, 2);
    LeBytesAt(n / 256, 1);
    assert LeBytes(n, 2)[1] == LeBytes(n, 2)[1..][0];
  }

  lemma Le32Bytes(n: nat)
    ensures var b := LeBytes(n, 4); Le32(b[0], b[1], b[2], b[3]) == n % TWO_32
  {
    var n1 := n / 256;
    var n2 := n1 / 256;
    var n3 := n2 / 256;
    FourBytes(n, LeBytes(n, 4));
    assert n == 256 * n1 + n % 256 && n1 == 256 * n2 + n1 % 256 && n2 == 256 * n3 + n2 % 256;
    assert n3 == 256 * (n3 / 256) + n3 % 256;
  }

  lemma FourBytes(n: nat, b: seq<Byte>)
    requires b == LeBytes(n, 4)
    ensures b == [n % 256, n / 256 % 256, n / 256 / 256 % 256, n / 256 / 256 / 256 % 256]
  {
    LeBytesAt(n, 4);
    LeBytesAt(n / 256, 3);
    LeBytesAt(n / 256 / 256, 2);
    LeBytesAt(n / 256 / 256 / 256, 1);
    assert b[1..][1..][1..] == LeBytes(n / 256 / 256 / 256, 1);
  }
}
