/** Facts about single bits of 32-bit words, for the register that shifts to the right. */
module CrcBits32 {
  import opened Options
  import opened CrcBits

  lemma HalfAdds32(a: bv32, b: bv32)
    ensures (a ^ b) >> 1 == (a >> 1) ^ (b >> 1)
  {}

  lemma DivisorAdds32(a: bv32, b: bv32)
    ensures 0xEDB8_8320 & (0 - ((a ^ b) & 1)) == (0xEDB8_8320 & (0 - (a & 1))) ^ (0xEDB8_8320 & (0 - (b & 1)))
  {}

  lemma Crosswise32(a: bv32, b: bv32, c: bv32, d: bv32)
    ensures (a ^ b) ^ (c ^ d) == (a ^ c) ^ (b ^ d)
  {}

  lemma Shift32Adds(a: bv32, b: bv32)
    ensures Shift32(a ^ b) == Shift32(a) ^ Shift32(b)
  {
    HalfAdds32(a, b);
    DivisorAdds32(a, b);
    Crosswise32(a >> 1, b >> 1, 0xEDB8_8320 & (0 - (a & 1)), 0xEDB8_8320 & (0 - (b & 1)));
  }

  lemma Xor32Associates(a: bv32, b: bv32, c: bv32)
    ensures a ^ (b ^ c) == (a ^ b) ^ c
  {}

  lemma Xor32Zero(a: bv32)
    ensures a ^ 0 == a
  {}

  /** The coefficient of x to the `i`: the register holds the highest power in its lowest bit. */
  function Coef32(r: bv32, i: nat): bool { i < 32 && (r >> ((31 - i) as bv6)) & 1 == 1 }

  /** x^32 + x^26 + x^23 + x^22 + x^16 + x^12 + x^11 + x^10 + x^8 + x^7 + x^5 + x^4 + x^2 + x + 1. */
  function P32(i: nat): bool {
    i == 0 || i == 1 || i == 2 || i == 4 || i == 5 || i == 7 || i == 8 || i == 10 || i == 11 || i == 12 || i == 16 || i == 22 || i == 23
    || i == 26 || i == 32
  }

  lemma StepCoef32(x: bv32, i: nat)
    requires i < 32
    ensures Coef32(Shift32(x), i) == ((i > 0 && Coef32(x, i - 1)) != (Coef32(x, 31) && P32(i)))
  {
    if i < 4 { assert i == 0 || i == 1 || i == 2 || i == 3; }
    else if i < 8 { assert i == 4 || i == 5 || i == 6 || i == 7; }
    else if i < 12 { assert i == 8 || i == 9 || i == 10 || i == 11; }
    else if i < 16 { assert i == 12 || i == 13 || i == 14 || i == 15; }
    else if i < 20 { assert i == 16 || i == 17 || i == 18 || i == 19; }
    else if i < 24 { assert i == 20 || i == 21 || i == 22 || i == 23; }
    else if i < 28 { assert i == 24 || i == 25 || i == 26 || i == 27; }
    else { assert i == 28 || i == 29 || i == 30 || i == 31; }
  }

  lemma HigherBits32(a: bv32, i: nat)
    requires i < 31
    ensures Coef32(a ^ 1, i) == Coef32(a, i)
  {
    if i < 4 { assert i == 0 || i == 1 || i == 2 || i == 3; }
    else if i < 8 { assert i == 4 || i == 5 || i == 6 || i == 7; }
    else if i < 12 { assert i == 8 || i == 9 || i == 10 || i == 11; }
    else if i < 16 { assert i == 12 || i == 13 || i == 14 || i == 15; }
    else if i < 20 { assert i == 16 || i == 17 || i == 18 || i == 19; }
    else if i < 24 { assert i == 20 || i == 21 || i == 22 || i == 23; }
    else if i < 28 { assert i == 24 || i == 25 || i == 26 || i == 27; }
    else { assert i == 28 || i == 29 || i == 30; }
  }

  lemma LowestBit32(a: bv32)
    ensures (a ^ 1) & 1 == (a & 1) ^ 1
  {}

  lemma OneBit32(a: bv32)
    ensures ((a & 1) ^ 1 == 1) == (a & 1 != 1)
  {}

  lemma FlipCoef32(a: bv32, i: nat)
    requires i < 32
    ensures Coef32(a ^ 1, i) == (Coef32(a, i) != (i == 31))
  {
    if i < 31 {
      HigherBits32(a, i);
    } else {
      LowestBit32(a);
      OneBit32(a);
    }
  }

  lemma TopAndRest32(a: bv32)
    ensures a & 1 != 0 ==> 1 ^ (a & 0xFFFF_FFFE) == a
    ensures a & 1 == 0 ==> 0 ^ (a & 0xFFFF_FFFE) == a
  {}

  lemma ShiftRest32(a: bv32)
    ensures Shift32(a & 0xFFFF_FFFE) == a >> 1
  {}

  lemma Halves32(a: bv32)
    ensures (a & 0xFF) ^ (a & 0xFFFF_FF00) == a
  {}

  lemma LowHalf32(a: bv32)
    ensures a & 0xFF < 256
  {}

  lemma HighHalf32(a: bv32)
    ensures (a & 0xFFFF_FF00) >> 8 == a >> 8 && (a & 0xFFFF_FF00) & 0xFF == 0
  {}

  /** `r` shifted right `n` times, if no 1 is shifted out. */
  function Right32(n: nat, r: bv32): Option<bv32> {
    if n == 0 then Some(r) else if r & 1 != 0 then None else Right32(n - 1, r >> 1)
  }

  /** Steps that shift out no 1 only shift. */
  lemma {:induction false} Divide32High(n: nat, r: bv32, e: bv32)
    requires Right32(n, r) == Some(e)
    ensures Divide32(n, r) == e
  {
    if n > 0 {
      assert r & 1 == 0 ==> Shift32(r) == r >> 1;
      Divide32High(n - 1, r >> 1, e);
    }
  }

  lemma RightOne32(n: nat, r: bv32, r': bv32)
    requires r & 1 == 0 && r' == r >> 1
    ensures Right32(n + 1, r) == Right32(n, r')
  {}

  /** Four steps to the right, with every register named. */
  lemma RightFour32(n: nat, r0: bv32, r1: bv32, r2: bv32, r3: bv32, r4: bv32)
    requires r0 & 1 == 0 && r1 & 1 == 0 && r2 & 1 == 0 && r3 & 1 == 0
    requires r1 == r0 >> 1 && r2 == r1 >> 1 && r3 == r2 >> 1 && r4 == r3 >> 1
    ensures Right32(n + 4, r0) == Right32(n, r4)
  {
    RightOne32(n, r3, r4);
    RightOne32(n + 1, r2, r3);
    RightOne32(n + 2, r1, r2);
    RightOne32(n + 3, r0, r1);
  }

  lemma FourZeros32(r: bv32, r1: bv32, r2: bv32, r3: bv32)
    requires r & 15 == 0 && r1 == r >> 1 && r2 == r1 >> 1 && r3 == r2 >> 1
    ensures r & 1 == 0 && r1 & 1 == 0 && r2 & 1 == 0 && r3 & 1 == 0
  {}

  lemma FourthHalf32(r: bv32, r1: bv32, r2: bv32, r3: bv32, r4: bv32)
    requires r1 == r >> 1 && r2 == r1 >> 1 && r3 == r2 >> 1 && r4 == r3 >> 1
    ensures r4 == r >> 4
  {}

  lemma RightFourZeros32(n: nat, r: bv32, r1: bv32, r2: bv32, r3: bv32, r4: bv32)
    requires r & 15 == 0 && r1 == r >> 1 && r2 == r1 >> 1 && r3 == r2 >> 1 && r4 == r3 >> 1
    ensures Right32(n + 4, r) == Right32(n, r4)
  {
    FourZeros32(r, r1, r2, r3);
    RightFour32(n, r, r1, r2, r3, r4);
  }

  lemma FourRight32(n: nat, r: bv32) returns (r4: bv32)
    requires r & 15 == 0
    ensures Right32(n + 4, r) == Right32(n, r4) && r4 == r >> 4
  {
    var r1 := r >> 1;
    var r2 := r1 >> 1;
    var r3 := r2 >> 1;
    r4 := r3 >> 1;
    RightFourZeros32(n, r, r1, r2, r3, r4);
    FourthHalf32(r, r1, r2, r3, r4);
  }

  lemma EightZeros32(r: bv32)
    requires r & 0xFF == 0
    ensures r & 15 == 0 && (r >> 4) & 15 == 0 && (r >> 4) >> 4 == r >> 8
  {}

  lemma Octet32High(r: bv32)
    requires r & 0xFF == 0
    ensures Divide32(8, r) == r >> 8
  {
    EightZeros32(r);
    var r4 := FourRight32(4, r);
    var r8 := FourRight32(0, r4);
    Divide32High(8, r, r >> 8);
  }

  // ---------------------------------------------------------------- octets in 32 bits

  /** The bits of an octet, lowest first. */
  function LowFirst(b: bv8): seq<bool> {
    [b & 1 != 0, b & 2 != 0, b & 4 != 0, b & 8 != 0, b & 0x10 != 0, b & 0x20 != 0, b & 0x40 != 0, b & 0x80 != 0]
  }

  /** Shifting `a` to the right brings out `bits` and leaves nothing. */
  predicate Yields32(a: bv32, bits: seq<bool>)
    decreases |bits|
  {
    if bits == [] then a == 0 else (a & 1 != 0) == bits[0] && Yields32(a >> 1, bits[1..])
  }

  lemma YieldOne32(a: bv32, b: bool, a': bv32, bits: seq<bool>)
    requires (a & 1 != 0) == b && a' == a >> 1 && Yields32(a', bits)
    ensures Yields32(a, [b] + bits)
  {
    assert ([b] + bits)[1..] == bits;
  }

  lemma YieldFour32(a0: bv32, a1: bv32, a2: bv32, a3: bv32, a4: bv32, b0: bool, b1: bool, b2: bool, b3: bool, bits: seq<bool>)
    requires a1 == a0 >> 1 && a2 == a1 >> 1 && a3 == a2 >> 1 && a4 == a3 >> 1 && Yields32(a4, bits)
    requires (a0 & 1 != 0) == b0 && (a1 & 1 != 0) == b1 && (a2 & 1 != 0) == b2 && (a3 & 1 != 0) == b3
    ensures Yields32(a0, [b0, b1, b2, b3] + bits)
  {
    YieldOne32(a3, b3, a4, bits);
    YieldOne32(a2, b2, a3, [b3] + bits);
    YieldOne32(a1, b1, a2, [b2] + ([b3] + bits));
    YieldOne32(a0, b0, a1, [b1] + ([b2] + ([b3] + bits)));
    assert [b0] + ([b1] + ([b2] + ([b3] + bits))) == [b0, b1, b2, b3] + bits;
  }

  lemma FirstFour32(b: bv8, x0: bv32, x1: bv32, x2: bv32, x3: bv32, x4: bv32)
    requires x0 == b as bv32 && x1 == x0 >> 1 && x2 == x1 >> 1 && x3 == x2 >> 1 && x4 == x3 >> 1
    ensures (x0 & 1 != 0) == (b & 1 != 0) && (x1 & 1 != 0) == (b & 2 != 0)
    ensures (x2 & 1 != 0) == (b & 4 != 0) && (x3 & 1 != 0) == (b & 8 != 0) && x4 == (b as bv32) >> 4
  {}

  lemma LastFour32(b: bv8, x0: bv32, x1: bv32, x2: bv32, x3: bv32, x4: bv32)
    requires x0 == (b as bv32) >> 4 && x1 == x0 >> 1 && x2 == x1 >> 1 && x3 == x2 >> 1 && x4 == x3 >> 1
    ensures (x0 & 1 != 0) == (b & 0x10 != 0) && (x1 & 1 != 0) == (b & 0x20 != 0)
    ensures (x2 & 1 != 0) == (b & 0x40 != 0) && (x3 & 1 != 0) == (b & 0x80 != 0) && x4 == 0
  {}

  lemma LastYields32(b: bv8, x0: bv32, x1: bv32, x2: bv32, x3: bv32, x4: bv32)
    requires x0 == (b as bv32) >> 4 && x1 == x0 >> 1 && x2 == x1 >> 1 && x3 == x2 >> 1 && x4 == x3 >> 1
    ensures Yields32(x0, [b & 0x10 != 0, b & 0x20 != 0, b & 0x40 != 0, b & 0x80 != 0])
  {
    LastFour32(b, x0, x1, x2, x3, x4);
    YieldFour32(x0, x1, x2, x3, x4, b & 0x10 != 0, b & 0x20 != 0, b & 0x40 != 0, b & 0x80 != 0, []);
    assert [b & 0x10 != 0, b & 0x20 != 0, b & 0x40 != 0, b & 0x80 != 0] + [] == [b & 0x10 != 0, b & 0x20 != 0, b & 0x40 != 0, b & 0x80 != 0];
  }

  lemma FirstYields32(b: bv8, x0: bv32, x1: bv32, x2: bv32, x3: bv32, x4: bv32, more: seq<bool>)
    requires x0 == b as bv32 && x1 == x0 >> 1 && x2 == x1 >> 1 && x3 == x2 >> 1 && x4 == x3 >> 1 && Yields32(x4, more)
    ensures Yields32(x0, [b & 1 != 0, b & 2 != 0, b & 4 != 0, b & 8 != 0] + more)
  {
    FirstFour32(b, x0, x1, x2, x3, x4);
    YieldFour32(x0, x1, x2, x3, x4, b & 1 != 0, b & 2 != 0, b & 4 != 0, b & 8 != 0, more);
  }

  lemma OctetYields32(b: bv8)
    ensures Yields32(b as bv32, LowFirst(b))
  {
    var x, y := b as bv32, (b as bv32) >> 4;
    LastYields32(b, y, y >> 1, (y >> 1) >> 1, ((y >> 1) >> 1) >> 1, (((y >> 1) >> 1) >> 1) >> 1);
    FourShifts32(b);
    FirstYields32(b, x, x >> 1, (x >> 1) >> 1, ((x >> 1) >> 1) >> 1, y, [b & 0x10 != 0, b & 0x20 != 0, b & 0x40 != 0, b & 0x80 != 0]);
    SplitOctet32(b);
  }

  lemma FourShifts32(b: bv8)
    ensures ((((b as bv32) >> 1) >> 1) >> 1) >> 1 == (b as bv32) >> 4
  {}

  lemma SplitOctet32(b: bv8)
    ensures LowFirst(b) == [b & 1 != 0, b & 2 != 0, b & 4 != 0, b & 8 != 0] + [b & 0x10 != 0, b & 0x20 != 0, b & 0x40 != 0, b & 0x80 != 0]
  {}

  /** An octet added at the low end of a register. */
  lemma OctetOnTop32(c: bv32, b: bv8, x: bv32)
    requires x == c ^ (b as bv32)
    ensures x & 0xFF == (c & 0xFF) ^ (b as bv32) && x >> 8 == c >> 8
  {}
}
