/** Bytes, and the 32-bit integers that the protocol writes in network byte order. */
module Bytes {
  type Byte = b: int | 0 <= b < 256
  type Int32 = x: int | -0x8000_0000 <= x < 0x8000_0000

  function Zeros(n: nat): (z: seq<Byte>)
    ensures |z| == n && forall i :: 0 <= i < n ==> z[i] == 0
  {
    seq(n, i => 0)
  }

  /** htonl followed by memcpy: two's complement, most significant byte first. */
  function ToNet(x: Int32): (bytes: seq<Byte>)
    ensures |bytes| == 4
  {
    var u := if x < 0 then x + 0x1_0000_0000 else x;
    [u / 0x100_0000, u / 0x1_0000 % 0x100, u / 0x100 % 0x100, u % 0x100]
  }

  /** getInt32FromNetByte. */
  function FromNet(bytes: seq<Byte>): Int32
    requires |bytes| == 4
  {
    var b0: int, b1: int, b2: int, b3: int := bytes[0], bytes[1], bytes[2], bytes[3];
    var u := b0 * 0x100_0000 + b1 * 0x1_0000 + b2 * 0x100 + b3;
    if u >= 0x8000_0000 then u - 0x1_0000_0000 else u
  }

  lemma Split32(u: nat)
    requires u < 0x1_0000_0000
    ensures
      u / 0x100_0000 * 0x100_0000 + u / 0x1_0000 % 0x100 * 0x1_0000 + u / 0x100 % 0x100 * 0x100 + u % 0x100 == u
  {
    assert u / 0x1_0000 == u / 0x100 / 0x100;
    assert u / 0x100_0000 == u / 0x1_0000 / 0x100;
  }

  lemma NetRoundTrip(x: Int32)
    ensures FromNet(ToNet(x)) == x
  {
    Split32(if x < 0 then x + 0x1_0000_0000 else x);
  }

  /** The first byte counts most. */
  lemma NetOrder(x: Int32)
    ensures
      var b: seq<int> := ToNet(x);
      ((b[0] * 256 + b[1]) * 256 + b[2]) * 256 + b[3] == if x < 0 then x + 0x1_0000_0000 else x
  {
    Split32(if x < 0 then x + 0x1_0000_0000 else x);
  }
}
