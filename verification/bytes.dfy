/** Bytes and machine words as small integers. */
module Bytes {
  type byte = b: int | 0 <= b < 256
  type u16 = v: int | 0 <= v < 0x1_0000
  type u32 = v: int | 0 <= v < 0x1_0000_0000
  type i32 = v: int | -0x8000_0000 <= v < 0x8000_0000

  const CR: byte := 13
  const LF: byte := 10
  const NUL: byte := 0

  predicate IsAsciiSpace(b: byte) { b == 32 || 9 <= b <= 13 }

  function Zeros(n: nat): (z: seq<byte>)
    ensures |z| == n && forall i | 0 <= i < n :: z[i] == 0
  {
    seq(n, _ => 0)
  }
}
