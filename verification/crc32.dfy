/** The 32-bit checksum of names and files: the table computes polynomial division. */
module Crc32 {
  import opened CrcPolynomials
  import opened CrcRegister
  import opened CrcBits
  import opened CrcBits32
  import opened CrcTables

  function Entry32(i: bv32): bv32 { if i < 256 then Table32(i) else 0 }

  function UpdateWith32(table: bv32 -> bv32, crc: bv32, octet: bv8): bv32 {
    table((crc & 0xFF) ^ (octet as bv32)) ^ (crc >> 8)
  }

  function Update32(crc: bv32, octet: bv8): bv32 { UpdateWith32(Entry32, crc, octet) }

  method ComputeCrc32(buf: seq<bv8>, start: bv32) returns (c: bv32)
    ensures c == Fold(Update32, start, buf)
  {
    c := start;
    for i := 0 to |buf|
      invariant c == Fold(Update32, start, buf[..i])
    {
      assert buf[..i + 1][..i] == buf[..i];
      c := Update32(c, buf[i]);
    }
    assert buf[..|buf|] == buf;
  }

  /** A 32-bit register. */
  datatype Word32 = Word32(v: bv32)

  /** Mark the registers that a proof adds, steps, or looks up. */
  predicate Adds32(a: bv32, b: bv32) { true }
  predicate Steps32(a: bv32) { true }
  predicate Looks32(a: bv32) { true }

  /** `o` is the 32-bit register; its operations are opened only where a proof says so. */
  ghost predicate Is32(o: Register<Word32>, table: bv32 -> bv32) {
    IsAdd32(o) && IsShift32(o) && IsTop32(o) && IsClear32(o) && IsLook32(o, table) && IsOctet32(o) && IsCoef32(o)
  }

  ghost predicate IsAdd32(o: Register<Word32>) {
    && o.zero == Word32(0) && o.bit(true) == Word32(1) && o.bit(false) == Word32(0)
    && forall a: bv32, b: bv32 {:trigger Adds32(a, b)} :: Adds32(a, b) ==> o.plus(Word32(a), Word32(b)) == Word32(a ^ b)
  }

  ghost predicate IsShift32(o: Register<Word32>) {
    forall a: bv32 {:trigger Steps32(a)} :: Steps32(a) ==> o.shift(Word32(a)) == Word32(Shift32(a))
  }

  ghost predicate IsTop32(o: Register<Word32>) {
    forall a: bv32 {:trigger Steps32(a)} :: Steps32(a) ==> o.top(Word32(a)) == (a & 1 != 0)
  }

  ghost predicate IsClear32(o: Register<Word32>) {
    forall a: bv32 {:trigger Steps32(a)} :: Steps32(a) ==> o.clear(Word32(a)) == Word32(a & 0xFFFF_FFFE)
  }

  ghost predicate IsLook32(o: Register<Word32>, table: bv32 -> bv32) {
    forall a: bv32 {:trigger Looks32(a)} :: Looks32(a) ==>
      o.look(Word32(a)) == Word32(table(a & 0xFF)) && o.push(Word32(a)) == Word32(a >> 8)
  }

  ghost predicate IsOctet32(o: Register<Word32>) { forall b: bv8 :: o.inject(b) == Word32(b as bv32) }

  ghost predicate IsCoef32(o: Register<Word32>) { forall a: bv32, i: nat :: o.coef(Word32(a), i) == Coef32(a, i) }

  lemma Additive32(o: Register<Word32>, table: bv32 -> bv32, a: bv32, b: bv32)
    requires Is32(o, table)
    ensures o.shift(o.plus(Word32(a), Word32(b))) == o.plus(o.shift(Word32(a)), o.shift(Word32(b)))
  {
    assert Adds32(a, b) && Adds32(Shift32(a), Shift32(b)) && Steps32(a) && Steps32(b) && Steps32(a ^ b);
    Shift32Adds(a, b);
  }

  lemma Associative32(o: Register<Word32>, table: bv32 -> bv32, a: bv32, b: bv32, c: bv32)
    requires Is32(o, table)
    ensures o.plus(Word32(a), o.plus(Word32(b), Word32(c))) == o.plus(o.plus(Word32(a), Word32(b)), Word32(c))
  {
    assert Adds32(b, c) && Adds32(a, b) && Adds32(a, b ^ c) && Adds32(a ^ b, c);
    Xor32Associates(a, b, c);
  }

  lemma Zero32(o: Register<Word32>, table: bv32 -> bv32, a: bv32)
    requires Is32(o, table)
    ensures o.plus(Word32(a), o.zero) == Word32(a)
  {
    assert Adds32(a, 0);
    Xor32Zero(a);
  }

  lemma Linear32(o: Register<Word32>, table: bv32 -> bv32)
    requires Is32(o, table)
    ensures Linear(o)
  {
    forall a: Word32, b: Word32 ensures o.shift(o.plus(a, b)) == o.plus(o.shift(a), o.shift(b)) { Additive32(o, table, a.v, b.v); }
    forall a: Word32, b: Word32, c: Word32 ensures o.plus(a, o.plus(b, c)) == o.plus(o.plus(a, b), c) { Associative32(o, table, a.v, b.v, c.v); }
    forall a: Word32 ensures o.plus(a, o.zero) == a { Zero32(o, table, a.v); }
  }

  lemma Divides32(o: Register<Word32>, table: bv32 -> bv32)
    requires Is32(o, table)
    ensures DividesBy(o, P32, 32)
  {
    forall a: Word32, i: nat | i >= 32 ensures !o.coef(a, i) { assert a == Word32(a.v); }
    forall a: Word32, b: bool, i: nat | Watches(a, b, i) && i < 32
      ensures o.coef(Feed(o, a, b), i) == ((i > 0 && o.coef(a, i - 1)) != ((o.coef(a, 31) != b) && P32(i)))
    {
      FedCoef32(o, table, a.v, b, i);
    }
  }

  lemma FedCoef32(o: Register<Word32>, table: bv32 -> bv32, a: bv32, b: bool, i: nat)
    requires Is32(o, table) && i < 32
    ensures o.coef(Feed(o, Word32(a), b), i) == ((i > 0 && o.coef(Word32(a), i - 1)) != ((o.coef(Word32(a), 31) != b) && P32(i)))
  {
    if b { FedOne32(o, a, i); } else { FedZero32(o, a, i); }
  }

  lemma FedOne32(o: Register<Word32>, a: bv32, i: nat)
    requires IsAdd32(o) && IsShift32(o) && IsCoef32(o) && i < 32
    ensures o.coef(Feed(o, Word32(a), true), i) == ((i > 0 && Coef32(a, i - 1)) != (!Coef32(a, 31) && P32(i)))
  {
    assert Adds32(a, 1) && Steps32(a ^ 1);
    StepCoef32(a ^ 1, i);
    if i > 0 { FlipCoef32(a, i - 1); }
    FlipCoef32(a, 31);
  }

  lemma FedZero32(o: Register<Word32>, a: bv32, i: nat)
    requires IsAdd32(o) && IsShift32(o) && IsCoef32(o) && i < 32
    ensures o.coef(Feed(o, Word32(a), false), i) == ((i > 0 && Coef32(a, i - 1)) != (Coef32(a, 31) && P32(i)))
  {
    assert Adds32(a, 0) && Steps32(a);
    Xor32Zero(a);
    StepCoef32(a, i);
  }

  lemma {:induction false} StepsAre32(o: Register<Word32>, table: bv32 -> bv32, n: nat, r: bv32)
    requires Is32(o, table)
    ensures Steps(o.shift, n, Word32(r)) == Word32(Divide32(n, r))
  {
    if n > 0 {
      assert Steps32(r);
      StepsAre32(o, table, n - 1, Shift32(r));
    }
  }

  /** Each entry is eight steps of its index. */
  ghost predicate Tabulates32(table: bv32 -> bv32) {
    forall h: bv32 {:trigger Looks32(h)} :: Looks32(h) && h < 256 ==> table(h) == Divide32(8, h)
  }

  lemma LowPart32(table: bv32 -> bv32, a: bv32, low: bv32)
    requires Tabulates32(table) && low == a & 0xFF
    ensures Divide32(8, low) == table(a & 0xFF)
  {
    LowHalf32(a);
    assert Looks32(low);
  }

  lemma HighPart32(a: bv32, high: bv32)
    requires high == a & 0xFFFF_FF00
    ensures Divide32(8, high) == a >> 8
  {
    HighHalf32(a);
    Octet32High(high);
  }

  /** The two parts of a register, and what becomes of them. */
  lemma Parts32(table: bv32 -> bv32, a: bv32) returns (low: bv32, high: bv32)
    requires Tabulates32(table)
    ensures low ^ high == a && Divide32(8, low) == table(a & 0xFF) && Divide32(8, high) == a >> 8
  {
    low, high := a & 0xFF, a & 0xFFFF_FF00;
    Halves32(a);
    LowPart32(table, a, low);
    HighPart32(a, high);
  }

  lemma LookAndPush32(o: Register<Word32>, table: bv32 -> bv32, a: bv32)
    requires Is32(o, table) && Linear(o) && Tabulates32(table)
    ensures o.plus(o.look(Word32(a)), o.push(Word32(a))) == Steps(o.shift, 8, Word32(a))
  {
    var low, high := Parts32(table, a);
    var e, up := Divide32(8, low), Divide32(8, high);
    assert Looks32(a) && Adds32(low, high) && Adds32(e, up);
    StepsAdd(o, 8, Word32(low), Word32(high));
    StepsAre32(o, table, 8, high);
    StepsAre32(o, table, 8, low);
  }

  lemma LooksUp32(o: Register<Word32>, table: bv32 -> bv32)
    requires Is32(o, table) && Linear(o) && Tabulates32(table)
    ensures LooksUp(o)
  {
    forall a: Word32 ensures o.plus(o.look(a), o.push(a)) == Steps(o.shift, 8, a) { LookAndPush32(o, table, a.v); }
  }

  lemma TopAndRestAdd32(o: Register<Word32>, table: bv32 -> bv32, a: bv32)
    requires Is32(o, table)
    ensures Word32(a) == o.plus(o.bit(o.top(Word32(a))), o.clear(Word32(a)))
  {
    TopAndRest32(a);
    assert Steps32(a) && Adds32(1, a & 0xFFFF_FFFE) && Adds32(0, a & 0xFFFF_FFFE);
  }

  /** One bit taken. */
  lemma Take32(o: Register<Word32>, table: bv32 -> bv32, a: bv32, n: nat)
    requires Is32(o, table) && n > 0
    ensures Rest(o, Word32(a), n) == Rest(o, Word32(a >> 1), n - 1)
    ensures Bits(o, Word32(a), n) == [a & 1 != 0] + Bits(o, Word32(a >> 1), n - 1)
  {
    ShiftRest32(a);
    assert Steps32(a) && Steps32(a & 0xFFFF_FFFE);
  }

  lemma {:induction false} YieldedBits32(o: Register<Word32>, table: bv32 -> bv32, a: bv32, bits: seq<bool>)
    requires Is32(o, table) && Yields32(a, bits)
    ensures Rest(o, Word32(a), |bits|) == Word32(0) && Bits(o, Word32(a), |bits|) == bits
    decreases |bits|
  {
    if bits != [] {
      Take32(o, table, a, |bits|);
      YieldedBits32(o, table, a >> 1, bits[1..]);
    }
  }

  /** Eight steps take the bits of an octet, lowest first, and leave nothing. */
  lemma OctetBits32(o: Register<Word32>, table: bv32 -> bv32, b: bv8)
    requires Is32(o, table)
    ensures Rest(o, o.inject(b), 8) == o.zero && Bits(o, o.inject(b), 8) == LowFirst(b)
  {
    OctetYields32(b);
    YieldedBits32(o, table, b as bv32, LowFirst(b));
  }

  lemma TakesBits32(o: Register<Word32>, table: bv32 -> bv32)
    requires Is32(o, table)
    ensures TakesBits(o)
  {
    forall a: Word32 ensures a == o.plus(o.bit(o.top(a)), o.clear(a)) { TopAndRestAdd32(o, table, a.v); }
    forall b: bv8 ensures Rest(o, o.inject(b), 8) == o.zero { OctetBits32(o, table, b); }
  }

  // ---------------------------------------------------------------- what the 32-bit checksum is

  function Plus32(a: Word32, b: Word32): Word32 { Word32(a.v ^ b.v) }
  function Step32(a: Word32): Word32 { Word32(Shift32(a.v)) }
  function Top32(a: Word32): bool { a.v & 1 != 0 }
  function Bit32(b: bool): Word32 { Word32(if b then 1 else 0) }
  function Clear32(a: Word32): Word32 { Word32(a.v & 0xFFFF_FFFE) }
  function Look32(table: bv32 -> bv32, a: Word32): Word32 { Word32(table(a.v & 0xFF)) }
  function Push32(a: Word32): Word32 { Word32(a.v >> 8) }
  function Inject32(b: bv8): Word32 { Word32(b as bv32) }
  function Power32(a: Word32, i: nat): bool { Coef32(a.v, i) }

  function Register32(table: bv32 -> bv32): Register<Word32> {
    Register(Word32(0), Plus32, Step32, Top32, Bit32, Clear32, (a: Word32) => Look32(table, a), Push32, Inject32, Power32)
  }

  lemma RegisterAdds32(table: bv32 -> bv32) ensures IsAdd32(Register32(table)) {}

  lemma RegisterShifts32(table: bv32 -> bv32) ensures IsShift32(Register32(table)) {}

  lemma RegisterTops32(table: bv32 -> bv32) ensures IsTop32(Register32(table)) {}

  lemma RegisterClears32(table: bv32 -> bv32) ensures IsClear32(Register32(table)) {}

  lemma RegisterLooks32(table: bv32 -> bv32) ensures IsLook32(Register32(table), table) {}

  lemma RegisterEnds32(table: bv32 -> bv32) ensures IsOctet32(Register32(table)) && IsCoef32(Register32(table)) {}

  lemma Register32Is(table: bv32 -> bv32)
    ensures Is32(Register32(table), table)
  {
    RegisterAdds32(table);
    RegisterShifts32(table);
    RegisterTops32(table);
    RegisterClears32(table);
    RegisterLooks32(table);
    RegisterEnds32(table);
  }

  lemma EntriesTabulate32()
    ensures Tabulates32(Entry32)
  {
    forall h: bv32 | h < 256 ensures Entry32(h) == Divide32(8, h) { Table32Divides(h); }
  }

  /** The register with its laws. */
  lemma Laws32(o: Register<Word32>, table: bv32 -> bv32)
    requires Is32(o, table) && Tabulates32(table)
    ensures Linear(o) && TakesBits(o) && LooksUp(o) && DividesBy(o, P32, 32)
  {
    Linear32(o, table);
    TakesBits32(o, table);
    LooksUp32(o, table);
    Divides32(o, table);
  }

  lemma Looked32(o: Register<Word32>, table: bv32 -> bv32, c: bv32, i: bv32, up: bv32, e: bv32)
    requires IsAdd32(o) && IsLook32(o, table) && c & 0xFF == i && c >> 8 == up && e == table(i) ^ up
    ensures o.plus(o.look(Word32(c)), o.push(Word32(c))) == Word32(e)
  {
    var t := table(i);
    assert Looks32(c) && Adds32(t, up);
  }

  lemma Added32(o: Register<Word32>, a: bv32, b: bv32, e: bv32)
    requires IsAdd32(o) && e == a ^ b
    ensures o.plus(Word32(a), Word32(b)) == Word32(e)
  {
    assert Adds32(a, b);
  }

  lemma UpdateOf32(table: bv32 -> bv32, c: bv32, b: bv8, i: bv32, up: bv32)
    requires i == (c & 0xFF) ^ (b as bv32) && up == c >> 8
    ensures UpdateWith32(table, c, b) == table(i) ^ up
  {}

  lemma OctetAdded32(o: Register<Word32>, c: bv32, b: bv8, x: bv32)
    requires IsAdd32(o) && IsOctet32(o) && x == c ^ (b as bv32)
    ensures o.plus(Word32(c), o.inject(b)) == Word32(x)
  {
    assert o.inject(b) == Word32(b as bv32);
    Added32(o, c, b as bv32, x);
  }

  /** The register after an octet was added, its table index, and the rest. */
  lemma Injected32(o: Register<Word32>, table: bv32 -> bv32, c: bv32, b: bv8) returns (x: bv32, i: bv32, up: bv32)
    requires IsAdd32(o) && IsOctet32(o)
    ensures o.plus(Word32(c), o.inject(b)) == Word32(x) && x & 0xFF == i && x >> 8 == up && UpdateWith32(table, c, b) == table(i) ^ up
  {
    x, i, up := c ^ (b as bv32), (c & 0xFF) ^ (b as bv32), c >> 8;
    OctetOnTop32(c, b, x);
    OctetAdded32(o, c, b, x);
    UpdateOf32(table, c, b, i, up);
  }

  lemma DirectIs32(o: Register<Word32>, table: bv32 -> bv32, c: bv32, b: bv8)
    requires Is32(o, table)
    ensures Direct(o, Word32(c), b) == Word32(UpdateWith32(table, c, b))
  {
    var x, i, up := Injected32(o, table, c, b);
    Looked32(o, table, x, i, up, UpdateWith32(table, c, b));
    DirectOf(o, Word32(c), b, Word32(x), Word32(UpdateWith32(table, c, b)));
  }

  lemma {:induction false} FoldWord32(f: (Word32, bv8) -> Word32, g: (bv32, bv8) -> bv32, c: bv32, s: seq<bv8>)
    requires forall a: bv32, b: bv8 {:trigger g(a, b)} :: f(Word32(a), b) == Word32(g(a, b))
    ensures Fold(f, Word32(c), s) == Word32(Fold(g, c, s))
  {
    if s != [] { FoldWord32(f, g, c, s[..|s| - 1]); }
  }

  // ---------------------------------------------------------------- theorems about the 32-bit checksum

  function OnWords32(u: (bv32, bv8) -> bv32): (Word32, bv8) -> Word32 { (a: Word32, b: bv8) => Word32(u(a.v, b)) }

  /** The bits of a message, each octet lowest bit first. */
  function BitsLowFirst(s: seq<bv8>): seq<bool> {
    if s == [] then [] else BitsLowFirst(s[..|s| - 1]) + LowFirst(s[|s| - 1])
  }

  lemma {:induction false} MessageBits32(o: Register<Word32>, table: bv32 -> bv32, s: seq<bv8>)
    requires Is32(o, table)
    ensures MessageBits(o, s) == BitsLowFirst(s)
  {
    if s != [] {
      MessageBits32(o, table, s[..|s| - 1]);
      OctetBits32(o, table, s[|s| - 1]);
    }
  }

  lemma UpdateDivides32(o: Register<Word32>, table: bv32 -> bv32, v: (bv32, bv8) -> bv32, start: bv32, s: seq<bv8>)
    requires Is32(o, table) && Tabulates32(table)
    requires forall c: bv32, b: bv8 :: v(c, b) == UpdateWith32(table, c, b)
    ensures IsRemainder(Dividend(BitsLowFirst(s), 32, Coefs(o, Word32(start))), P32, 32, Coefs(o, Word32(Fold(v, start, s))))
  {
    Laws32(o, table);
    forall a: Word32, b: bv8 ensures OnWords32(v)(a, b) == Direct(o, a, b) { DirectIs32(o, table, a.v, b); }
    FoldFeeds(o, OnWords32(v), Word32(start), s);
    FoldWord32(OnWords32(v), v, start, s);
    MessageBits32(o, table, s);
    FeedingLeavesRemainder(o, P32, 32, Word32(start), BitsLowFirst(s));
  }

  /** The coefficients of a 32-bit word. */
  function Bits32(r: bv32): Poly { (i: nat) => Coef32(r, i) }

  /** The 32-bit checksum is the remainder of the message, times x^32, plus the register it starts from, times x to the
      number of bits, divided by the polynomial 0xEDB88320 stands for: the only one. */
  lemma Crc32IsRemainder(buf: seq<bv8>, start: bv32, r: Poly, i: nat)
    ensures IsRemainder(Dividend(BitsLowFirst(buf), 32, Bits32(start)), P32, 32, Bits32(Fold(Update32, start, buf)))
    ensures IsRemainder(Dividend(BitsLowFirst(buf), 32, Bits32(start)), P32, 32, r) ==> r(i) == Bits32(Fold(Update32, start, buf))(i)
  {
    var o := Register32(Entry32);
    Register32Is(Entry32);
    EntriesTabulate32();
    UpdateDivides32(o, Entry32, Update32, start, buf);
    var m, m' := Dividend(BitsLowFirst(buf), 32, Coefs(o, Word32(start))), Dividend(BitsLowFirst(buf), 32, Bits32(start));
    SameRemainder(m, m', P32, 32, Coefs(o, Word32(Fold(Update32, start, buf))), Bits32(Fold(Update32, start, buf)));
    if IsRemainder(m', P32, 32, r) { RemainderIsUnique(m', P32, 32, r, Bits32(Fold(Update32, start, buf)), i); }
  }
}
