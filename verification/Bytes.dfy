/** Bytes and fixed-width integers on the wire and in flash. */
module Bytes {

  type byte = b: int | 0 <= b < 256

  const U32_MODULUS: nat := 0x1_0000_0000

  /** Byte `i` of the low 32 bits of `n`, least significant first. */
  function ByteOf(n: nat, i: nat): (b: int)
    ensures 0 <= b < 256
  {
    if i == 0 then n % 256
    else if i == 1 then n / 0x100 % 256
    else if i == 2 then n / 0x1_0000 % 256
    else n / 0x100_0000 % 256
  }

  function LE32(n: nat): (r: seq<byte>)
    ensures |r| == 4 && forall i :: 0 <= i < 4 ==> r[i] == ByteOf(n, i)
  {
    seq(4, i requires 0 <= i => ByteOf(n, i))
  }

  lemma {:induction false} LE32RoundTrip(n: nat)
    requires n < U32_MODULUS
    ensures ByteOf(n, 0) + 0x100 * ByteOf(n, 1) + 0x1_0000 * ByteOf(n, 2) + 0x100_0000 * ByteOf(n, 3) == n
  {
    var (a, b) := (n / 0x100, n / 0x1_0000);
    assert a / 0x100 == b;
    assert b / 0x100 == n / 0x100_0000 < 256;
  }

  /** Big-endian 16-bit value. */
  function BE16(hi: byte, lo: byte): nat {
    0x100 * hi + lo
  }

  function Repeat(b: byte, n: nat): (r: seq<byte>)
    ensures |r| == n && forall i :: 0 <= i < n ==> r[i] == b
  {
    seq(n, _ => b)
  }
}
