/** The division steps on machine words, and facts about single bits of words. */
module CrcBits {
  import opened Options

  /** One step of the division by x^32 + x^26 + x^23 + ... + 1 with the bits in reverse order: the divisor is
      subtracted where the bit shifted out is 1. */
  function Shift32(r: bv32): bv32 { (r >> 1) ^ (0xEDB8_8320 & (0 - (r & 1))) }

  function Divide32(steps: nat, r: bv32): bv32 { if steps == 0 then r else Divide32(steps - 1, Shift32(r)) }

  /** One step of the division by x^16 + x^12 + x^5 + 1. */
  function Shift16(r: bv16): bv16 { (r << 1) ^ (0x1021 & (0 - (r >> 15))) }

  function Divide16(steps: nat, r: bv16): bv16 { if steps == 0 then r else Divide16(steps - 1, Shift16(r)) }

  lemma Shift16Adds(a: bv16, b: bv16)
    ensures Shift16(a ^ b) == Shift16(a) ^ Shift16(b)
  {}

  lemma Xor16Associates(a: bv16, b: bv16, c: bv16)
    ensures a ^ (b ^ c) == (a ^ b) ^ c
  {}

  lemma Xor16Zero(a: bv16)
    ensures a ^ 0 == a
  {}

  /** The coefficient of x to the `i`. */
  function Coef16(r: bv16, i: nat): bool { i < 16 && (r >> (i as bv6)) & 1 == 1 }

  /** x^16 + x^12 + x^5 + 1. */
  function P16(i: nat): bool { i == 0 || i == 5 || i == 12 || i == 16 }

  lemma StepCoef16(x: bv16, i: nat)
    requires i < 16
    ensures Coef16(Shift16(x), i) == ((i > 0 && Coef16(x, i - 1)) != (Coef16(x, 15) && P16(i)))
  {
    if i < 4 { assert i == 0 || i == 1 || i == 2 || i == 3; }
    else if i < 8 { assert i == 4 || i == 5 || i == 6 || i == 7; }
    else if i < 12 { assert i == 8 || i == 9 || i == 10 || i == 11; }
    else { assert i == 12 || i == 13 || i == 14 || i == 15; }
  }

  lemma LowerBits16(a: bv16, i: nat)
    requires i < 15
    ensures Coef16(a ^ 0x8000, i) == Coef16(a, i)
  {
    if i < 4 { assert i == 0 || i == 1 || i == 2 || i == 3; }
    else if i < 8 { assert i == 4 || i == 5 || i == 6 || i == 7; }
    else if i < 12 { assert i == 8 || i == 9 || i == 10 || i == 11; }
    else { assert i == 12 || i == 13 || i == 14; }
  }

  lemma TopBit16(a: bv16)
    ensures ((a ^ 0x8000) >> 15) & 1 == ((a >> 15) & 1) ^ 1
  {}

  lemma OneBit16(a: bv16)
    ensures ((a & 1) ^ 1 == 1) == (a & 1 != 1)
  {}

  lemma FlipCoef16(a: bv16, i: nat)
    requires i < 16
    ensures Coef16(a ^ 0x8000, i) == (Coef16(a, i) != (i == 15))
  {
    if i < 15 {
      LowerBits16(a, i);
    } else {
      TopBit16(a);
      OneBit16(a >> 15);
    }
  }

  lemma TopAndRest16(a: bv16)
    ensures a & 0x8000 != 0 ==> 0x8000 ^ (a & 0x7FFF) == a
    ensures a & 0x8000 == 0 ==> 0 ^ (a & 0x7FFF) == a
  {}

  lemma ShiftRest16(a: bv16)
    ensures Shift16(a & 0x7FFF) == a << 1
  {}

  lemma Halves16(a: bv16)
    ensures (((a >> 8) & 255) << 8) ^ (a & 0xFF) == a
  {}

  lemma HighHalf16(a: bv16)
    ensures (a >> 8) & 255 < 256
  {}

  lemma LowHalf16(a: bv16)
    ensures (a & 0xFF) << 8 == a << 8 && a & 0xFF < 256
  {}

  /** `r` shifted left `n` times, if no 1 is shifted out. */
  function Left16(n: nat, r: bv16): Option<bv16> {
    if n == 0 then Some(r) else if r >> 15 != 0 then None else Left16(n - 1, r << 1)
  }

  /** Steps that shift out no 1 only shift. */
  lemma {:induction false} Divide16Low(n: nat, r: bv16, e: bv16)
    requires Left16(n, r) == Some(e)
    ensures Divide16(n, r) == e
  {
    if n > 0 {
      assert r >> 15 == 0 ==> Shift16(r) == r << 1;
      Divide16Low(n - 1, r << 1, e);
    }
  }

  lemma FourLeft16(n: nat, r: bv16, r1: bv16, r2: bv16, r3: bv16, r4: bv16)
    requires r < 0x1000 && r1 == r << 1 && r2 == r1 << 1 && r3 == r2 << 1 && r4 == r3 << 1
    ensures Left16(n + 4, r) == Left16(n, r4)
  {
    assert r1 < 0x2000 && r2 < 0x4000 && r3 < 0x8000;
    assert Left16(n + 4, r) == Left16(n + 3, r1) == Left16(n + 2, r2);
  }

  lemma Octet16Low(r: bv16)
    requires r < 256
    ensures Divide16(8, r) == r << 8
  {
    assert Left16(8, r) == Left16(4, r << 4) by { FourLeft16(4, r, r << 1, r << 2, r << 3, r << 4); }
    assert Left16(4, r << 4) == Left16(0, r << 8) by { FourLeft16(0, r << 4, r << 5, r << 6, r << 7, r << 8); }
    Divide16Low(8, r, r << 8);
  }

  // ---------------------------------------------------------------- octets in 16 bits

  /** The bits of an octet, highest first. */
  function HighFirst(b: bv8): seq<bool> {
    [b & 0x80 != 0, b & 0x40 != 0, b & 0x20 != 0, b & 0x10 != 0, b & 8 != 0, b & 4 != 0, b & 2 != 0, b & 1 != 0]
  }

  /** Shifting `a` to the left brings out `bits` and leaves nothing. */
  predicate Yields16(a: bv16, bits: seq<bool>)
    decreases |bits|
  {
    if bits == [] then a == 0 else (a & 0x8000 != 0) == bits[0] && Yields16(a << 1, bits[1..])
  }

  lemma YieldOne16(a: bv16, b: bool, a': bv16, bits: seq<bool>)
    requires (a & 0x8000 != 0) == b && a' == a << 1 && Yields16(a', bits)
    ensures Yields16(a, [b] + bits)
  {
    assert ([b] + bits)[1..] == bits;
  }

  lemma YieldFour16(a0: bv16, a1: bv16, a2: bv16, a3: bv16, a4: bv16, b0: bool, b1: bool, b2: bool, b3: bool, bits: seq<bool>)
    requires a1 == a0 << 1 && a2 == a1 << 1 && a3 == a2 << 1 && a4 == a3 << 1 && Yields16(a4, bits)
    requires (a0 & 0x8000 != 0) == b0 && (a1 & 0x8000 != 0) == b1 && (a2 & 0x8000 != 0) == b2 && (a3 & 0x8000 != 0) == b3
    ensures Yields16(a0, [b0, b1, b2, b3] + bits)
  {
    YieldOne16(a3, b3, a4, bits);
    YieldOne16(a2, b2, a3, [b3] + bits);
    YieldOne16(a1, b1, a2, [b2] + ([b3] + bits));
    YieldOne16(a0, b0, a1, [b1] + ([b2] + ([b3] + bits)));
    assert [b0] + ([b1] + ([b2] + ([b3] + bits))) == [b0, b1, b2, b3] + bits;
  }

  lemma FirstFour16(b: bv8, x0: bv16, x1: bv16, x2: bv16, x3: bv16, x4: bv16)
    requires x0 == (b as bv16) << 8 && x1 == x0 << 1 && x2 == x1 << 1 && x3 == x2 << 1 && x4 == x3 << 1
    ensures (x0 & 0x8000 != 0) == (b & 0x80 != 0) && (x1 & 0x8000 != 0) == (b & 0x40 != 0)
    ensures (x2 & 0x8000 != 0) == (b & 0x20 != 0) && (x3 & 0x8000 != 0) == (b & 0x10 != 0) && x4 == (b as bv16) << 12
  {}

  lemma LastFour16(b: bv8, x0: bv16, x1: bv16, x2: bv16, x3: bv16, x4: bv16)
    requires x0 == (b as bv16) << 12 && x1 == x0 << 1 && x2 == x1 << 1 && x3 == x2 << 1 && x4 == x3 << 1
    ensures (x0 & 0x8000 != 0) == (b & 8 != 0) && (x1 & 0x8000 != 0) == (b & 4 != 0)
    ensures (x2 & 0x8000 != 0) == (b & 2 != 0) && (x3 & 0x8000 != 0) == (b & 1 != 0) && x4 == 0
  {}

  lemma LastYields16(b: bv8, x0: bv16, x1: bv16, x2: bv16, x3: bv16, x4: bv16)
    requires x0 == (b as bv16) << 12 && x1 == x0 << 1 && x2 == x1 << 1 && x3 == x2 << 1 && x4 == x3 << 1
    ensures Yields16(x0, [b & 8 != 0, b & 4 != 0, b & 2 != 0, b & 1 != 0])
  {
    LastFour16(b, x0, x1, x2, x3, x4);
    YieldFour16(x0, x1, x2, x3, x4, b & 8 != 0, b & 4 != 0, b & 2 != 0, b & 1 != 0, []);
    assert [b & 8 != 0, b & 4 != 0, b & 2 != 0, b & 1 != 0] + [] == [b & 8 != 0, b & 4 != 0, b & 2 != 0, b & 1 != 0];
  }

  lemma FirstYields16(b: bv8, x0: bv16, x1: bv16, x2: bv16, x3: bv16, x4: bv16, more: seq<bool>)
    requires x0 == (b as bv16) << 8 && x1 == x0 << 1 && x2 == x1 << 1 && x3 == x2 << 1 && x4 == x3 << 1 && Yields16(x4, more)
    ensures Yields16(x0, [b & 0x80 != 0, b & 0x40 != 0, b & 0x20 != 0, b & 0x10 != 0] + more)
  {
    FirstFour16(b, x0, x1, x2, x3, x4);
    YieldFour16(x0, x1, x2, x3, x4, b & 0x80 != 0, b & 0x40 != 0, b & 0x20 != 0, b & 0x10 != 0, more);
  }

  lemma OctetYields16(b: bv8)
    ensures Yields16((b as bv16) << 8, HighFirst(b))
  {
    var x, y := (b as bv16) << 8, (b as bv16) << 12;
    LastYields16(b, y, y << 1, (y << 1) << 1, ((y << 1) << 1) << 1, (((y << 1) << 1) << 1) << 1);
    FourShifts16(b);
    FirstYields16(b, x, x << 1, (x << 1) << 1, ((x << 1) << 1) << 1, y, [b & 8 != 0, b & 4 != 0, b & 2 != 0, b & 1 != 0]);
    SplitOctet(b);
  }

  lemma FourShifts16(b: bv8)
    ensures (((((b as bv16) << 8) << 1) << 1) << 1) << 1 == (b as bv16) << 12
  {}

  lemma SplitOctet(b: bv8)
    ensures HighFirst(b) == [b & 0x80 != 0, b & 0x40 != 0, b & 0x20 != 0, b & 0x10 != 0] + [b & 8 != 0, b & 4 != 0, b & 2 != 0, b & 1 != 0]
  {}

  /** An octet added at the top of a register. */
  lemma OctetOnTop16(c: bv16, b: bv8, x: bv16)
    requires x == c ^ ((b as bv16) << 8)
    ensures (x >> 8) & 255 == (c >> 8) ^ (b as bv16) && x << 8 == c << 8
  {}

  lemma OctetIsSmall16(b: bv8)
    ensures (b as bv16) < 256
  {}
}
