/** Bytes and the little-endian 32-bit numbers of the wire formats. */
module Bytes {

  type byte = x: int | 0 <= x < 256

  const TWO32: nat := 0x1_0000_0000

  function LE32(n: nat): (b: seq<byte>)
    requires n < TWO32
    ensures |b| == 4
  {
    [n % 256, n / 256 % 256, n / 0x1_0000 % 256, n / 0x100_0000]
  }

  function FromLE32(b: seq<byte>): nat
    requires |b| == 4
  {
    b[0] as int + 256 * (b[1] as int) + 0x1_0000 * (b[2] as int) + 0x100_0000 * (b[3] as int)
  }

  lemma FromLE32RoundTrip(b: seq<byte>)
    requires |b| == 4
    ensures FromLE32(b) < TWO32 && LE32(FromLE32(b)) == b
  {
    var n, b1, b2, b3 := FromLE32(b), b[1] as int, b[2] as int, b[3] as int;
    assert n / 256 == b1 + 256 * b2 + 0x1_0000 * b3;
    assert n / 0x1_0000 == b2 + 256 * b3;
    assert n / 0x100_0000 == b3;
  }

  lemma LE32RoundTrip(n: nat)
    requires n < TWO32
    ensures FromLE32(LE32(n)) == n
  {
    var a := n / 256;
    var b := a / 256;
    assert n / 0x1_0000 == b && n / 0x100_0000 == b / 256;
  }

  /** The least significant byte comes first: 1 is [1, 0, 0, 0], and a number with
      one byte more below it is shifted by one place. */
  lemma LeastSignificantFirst(low: byte, n: nat)
    requires n < 0x100_0000
    ensures LE32(1) == [1, 0, 0, 0]
    ensures LE32(low as int + 256 * n) == [low] + LE32(n)[..3]
  {
    var m := low as int + 256 * n;
    assert m / 256 == n && m % 256 == low as int;
    assert m / 0x1_0000 == n / 256 && m / 0x100_0000 == n / 0x1_0000;
    assert n / 0x1_0000 == n / 0x1_0000 % 256;
  }

  function Min(a: nat, b: nat): nat { if a < b then a else b }

  /** ArrayBuffer.slice: positions beyond the end are clamped to it. */
  function Slice(data: seq<byte>, from: nat, to: nat): seq<byte>
    requires from <= to
  {
    data[Min(from, |data|)..Min(to, |data|)]
  }
}
