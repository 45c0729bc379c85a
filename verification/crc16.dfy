/** The 16-bit checksum of EMSI handshakes: the table computes polynomial division. */
module Crc16 {
  import opened CrcPolynomials
  import opened CrcRegister
  import opened CrcBits
  import opened CrcTables

  function Entry16(i: bv16): bv16 { if i < 256 then Table16(i) else 0 }

  /** `UpdCrc`: the octet is added after the lookup, so two zero octets must follow the message. */
  function UpdateWith16(table: bv16 -> bv16, crc: bv16, octet: bv8): bv16 {
    table((crc >> 8) & 255) ^ (crc << 8) ^ (octet as bv16)
  }

  function Update16(crc: bv16, octet: bv8): bv16 { UpdateWith16(Entry16, crc, octet) }

  function Emsi16(payload: seq<bv8>): bv16 {
    Update16(Update16(Fold(Update16, 0, payload), 0), 0)
  }

  method ComputeEmsi16(payload: seq<bv8>) returns (c: bv16)
    ensures c == Emsi16(payload)
  {
    c := 0;
    for i := 0 to |payload|
      invariant c == Fold(Update16, 0, payload[..i])
    {
      assert payload[..i + 1][..i] == payload[..i];
      c := Update16(c, payload[i]);
    }
    assert payload[..|payload|] == payload;
    c := Update16(c, 0);
    c := Update16(c, 0);
  }

  /** The usual table form, which adds the octet before the lookup. */
  function DirectWith16(table: bv16 -> bv16, crc: bv16, octet: bv8): bv16 {
    table((crc >> 8) ^ (octet as bv16)) ^ (crc << 8)
  }

  function Direct16(crc: bv16, octet: bv8): bv16 { DirectWith16(Entry16, crc, octet) }

  /** A 16-bit register. */
  datatype Word16 = Word16(v: bv16)

  /** Mark the registers that a proof adds, steps, or looks up. */
  predicate Adds16(a: bv16, b: bv16) { true }
  predicate Steps16(a: bv16) { true }
  predicate Looks16(a: bv16) { true }

  /** `o` is the 16-bit register; its operations are opened only where a proof says so. */
  ghost predicate Is16(o: Register<Word16>, table: bv16 -> bv16) {
    IsAdd16(o) && IsShift16(o) && IsTop16(o) && IsClear16(o) && IsLook16(o, table) && IsOctet16(o) && IsCoef16(o)
  }

  ghost predicate IsAdd16(o: Register<Word16>) {
    && o.zero == Word16(0) && o.bit(true) == Word16(0x8000) && o.bit(false) == Word16(0)
    && forall a: bv16, b: bv16 {:trigger Adds16(a, b)} :: Adds16(a, b) ==> o.plus(Word16(a), Word16(b)) == Word16(a ^ b)
  }

  ghost predicate IsShift16(o: Register<Word16>) {
    forall a: bv16 {:trigger Steps16(a)} :: Steps16(a) ==> o.shift(Word16(a)) == Word16(Shift16(a))
  }

  ghost predicate IsTop16(o: Register<Word16>) {
    forall a: bv16 {:trigger Steps16(a)} :: Steps16(a) ==> o.top(Word16(a)) == (a & 0x8000 != 0)
  }

  ghost predicate IsClear16(o: Register<Word16>) {
    forall a: bv16 {:trigger Steps16(a)} :: Steps16(a) ==> o.clear(Word16(a)) == Word16(a & 0x7FFF)
  }

  ghost predicate IsLook16(o: Register<Word16>, table: bv16 -> bv16) {
    forall a: bv16 {:trigger Looks16(a)} :: Looks16(a) ==>
      o.look(Word16(a)) == Word16(table((a >> 8) & 255)) && o.push(Word16(a)) == Word16(a << 8)
  }

  ghost predicate IsOctet16(o: Register<Word16>) { forall b: bv8 :: o.inject(b) == Word16((b as bv16) << 8) }

  ghost predicate IsCoef16(o: Register<Word16>) { forall a: bv16, i: nat :: o.coef(Word16(a), i) == Coef16(a, i) }

  lemma Additive16(o: Register<Word16>, table: bv16 -> bv16, a: bv16, b: bv16)
    requires Is16(o, table)
    ensures o.shift(o.plus(Word16(a), Word16(b))) == o.plus(o.shift(Word16(a)), o.shift(Word16(b)))
  {
    assert Adds16(a, b) && Adds16(Shift16(a), Shift16(b)) && Steps16(a) && Steps16(b) && Steps16(a ^ b);
    Shift16Adds(a, b);
  }

  lemma Associative16(o: Register<Word16>, table: bv16 -> bv16, a: bv16, b: bv16, c: bv16)
    requires Is16(o, table)
    ensures o.plus(Word16(a), o.plus(Word16(b), Word16(c))) == o.plus(o.plus(Word16(a), Word16(b)), Word16(c))
  {
    assert Adds16(b, c) && Adds16(a, b) && Adds16(a, b ^ c) && Adds16(a ^ b, c);
    Xor16Associates(a, b, c);
  }

  lemma Zero16(o: Register<Word16>, table: bv16 -> bv16, a: bv16)
    requires Is16(o, table)
    ensures o.plus(Word16(a), o.zero) == Word16(a)
  {
    assert Adds16(a, 0);
    Xor16Zero(a);
  }

  lemma Linear16(o: Register<Word16>, table: bv16 -> bv16)
    requires Is16(o, table)
    ensures Linear(o)
  {
    forall a: Word16, b: Word16 ensures o.shift(o.plus(a, b)) == o.plus(o.shift(a), o.shift(b)) { Additive16(o, table, a.v, b.v); }
    forall a: Word16, b: Word16, c: Word16 ensures o.plus(a, o.plus(b, c)) == o.plus(o.plus(a, b), c) { Associative16(o, table, a.v, b.v, c.v); }
    forall a: Word16 ensures o.plus(a, o.zero) == a { Zero16(o, table, a.v); }
  }

  lemma Divides16(o: Register<Word16>, table: bv16 -> bv16)
    requires Is16(o, table)
    ensures DividesBy(o, P16, 16)
  {
    forall a: Word16, i: nat | i >= 16 ensures !o.coef(a, i) { assert a == Word16(a.v); }
    forall a: Word16, b: bool, i: nat | Watches(a, b, i) && i < 16
      ensures o.coef(Feed(o, a, b), i) == ((i > 0 && o.coef(a, i - 1)) != ((o.coef(a, 15) != b) && P16(i)))
    {
      FedCoef16(o, table, a.v, b, i);
    }
  }

  lemma FedCoef16(o: Register<Word16>, table: bv16 -> bv16, a: bv16, b: bool, i: nat)
    requires Is16(o, table) && i < 16
    ensures o.coef(Feed(o, Word16(a), b), i) == ((i > 0 && o.coef(Word16(a), i - 1)) != ((o.coef(Word16(a), 15) != b) && P16(i)))
  {
    if b {
      assert Adds16(a, 0x8000) && Steps16(a ^ 0x8000);
      StepCoef16(a ^ 0x8000, i);
      if i > 0 { FlipCoef16(a, i - 1); }
      FlipCoef16(a, 15);
    } else {
      assert Adds16(a, 0) && Steps16(a);
      Xor16Zero(a);
      StepCoef16(a, i);
    }
  }

  lemma {:induction false} StepsAre16(o: Register<Word16>, table: bv16 -> bv16, n: nat, r: bv16)
    requires Is16(o, table)
    ensures Steps(o.shift, n, Word16(r)) == Word16(Divide16(n, r))
  {
    if n > 0 {
      assert Steps16(r);
      StepsAre16(o, table, n - 1, Shift16(r));
    }
  }

  /** Each entry is eight steps of its index. */
  ghost predicate Tabulates16(table: bv16 -> bv16) {
    forall h: bv16 {:trigger Looks16(h)} :: Looks16(h) && h < 256 ==> table(h) == Divide16(8, h << 8)
  }

  /** The two halves of a register, and what becomes of them. */
  lemma Parts16(table: bv16 -> bv16, a: bv16) returns (high: bv16, low: bv16)
    requires Tabulates16(table)
    ensures high ^ low == a && Divide16(8, high) == table((a >> 8) & 255) && Divide16(8, low) == a << 8
  {
    high, low := ((a >> 8) & 255) << 8, a & 0xFF;
    Halves16(a);
    LowHalf16(a);
    Octet16Low(low);
    HighHalf16(a);
    assert Looks16((a >> 8) & 255);
  }

  lemma LookAndPush16(o: Register<Word16>, table: bv16 -> bv16, a: bv16)
    requires Is16(o, table) && Linear(o) && Tabulates16(table)
    ensures o.plus(o.look(Word16(a)), o.push(Word16(a))) == Steps(o.shift, 8, Word16(a))
  {
    var high, low := Parts16(table, a);
    var e, up := Divide16(8, high), Divide16(8, low);
    assert Looks16(a) && Adds16(high, low) && Adds16(e, up);
    StepsAdd(o, 8, Word16(high), Word16(low));
    StepsAre16(o, table, 8, high);
    StepsAre16(o, table, 8, low);
  }

  lemma LooksUp16(o: Register<Word16>, table: bv16 -> bv16)
    requires Is16(o, table) && Linear(o) && Tabulates16(table)
    ensures LooksUp(o)
  {
    forall a: Word16 ensures o.plus(o.look(a), o.push(a)) == Steps(o.shift, 8, a) { LookAndPush16(o, table, a.v); }
  }

  lemma TopAndRestAdd16(o: Register<Word16>, table: bv16 -> bv16, a: bv16)
    requires Is16(o, table)
    ensures Word16(a) == o.plus(o.bit(o.top(Word16(a))), o.clear(Word16(a)))
  {
    TopAndRest16(a);
    assert Steps16(a) && Adds16(0x8000, a & 0x7FFF) && Adds16(0, a & 0x7FFF);
  }

  /** One bit taken. */
  lemma Take16(o: Register<Word16>, table: bv16 -> bv16, a: bv16, n: nat)
    requires Is16(o, table) && n > 0
    ensures Rest(o, Word16(a), n) == Rest(o, Word16(a << 1), n - 1)
    ensures Bits(o, Word16(a), n) == [a & 0x8000 != 0] + Bits(o, Word16(a << 1), n - 1)
  {
    ShiftRest16(a);
    assert Steps16(a) && Steps16(a & 0x7FFF);
  }

  lemma {:induction false} YieldedBits16(o: Register<Word16>, table: bv16 -> bv16, a: bv16, bits: seq<bool>)
    requires Is16(o, table) && Yields16(a, bits)
    ensures Rest(o, Word16(a), |bits|) == Word16(0) && Bits(o, Word16(a), |bits|) == bits
    decreases |bits|
  {
    if bits != [] {
      Take16(o, table, a, |bits|);
      YieldedBits16(o, table, a << 1, bits[1..]);
    }
  }

  /** Eight steps take the bits of an octet, highest first, and leave nothing. */
  lemma OctetBits16(o: Register<Word16>, table: bv16 -> bv16, b: bv8)
    requires Is16(o, table)
    ensures Rest(o, o.inject(b), 8) == o.zero && Bits(o, o.inject(b), 8) == HighFirst(b)
  {
    OctetYields16(b);
    YieldedBits16(o, table, (b as bv16) << 8, HighFirst(b));
  }

  lemma TakesBits16(o: Register<Word16>, table: bv16 -> bv16)
    requires Is16(o, table)
    ensures TakesBits(o)
  {
    forall a: Word16 ensures a == o.plus(o.bit(o.top(a)), o.clear(a)) { TopAndRestAdd16(o, table, a.v); }
    forall b: bv8 ensures Rest(o, o.inject(b), 8) == o.zero { OctetBits16(o, table, b); }
  }

  // ---------------------------------------------------------------- what the 16-bit checksum is

  function Plus16(a: Word16, b: Word16): Word16 { Word16(a.v ^ b.v) }
  function Step16(a: Word16): Word16 { Word16(Shift16(a.v)) }
  function Top16(a: Word16): bool { a.v & 0x8000 != 0 }
  function Bit16(b: bool): Word16 { Word16(if b then 0x8000 else 0) }
  function Clear16(a: Word16): Word16 { Word16(a.v & 0x7FFF) }
  function Look16(table: bv16 -> bv16, a: Word16): Word16 { Word16(table((a.v >> 8) & 255)) }
  function Push16(a: Word16): Word16 { Word16(a.v << 8) }
  function Inject16(b: bv8): Word16 { Word16((b as bv16) << 8) }
  function Power16(a: Word16, i: nat): bool { Coef16(a.v, i) }

  function Register16(table: bv16 -> bv16): Register<Word16> {
    Register(Word16(0), Plus16, Step16, Top16, Bit16, Clear16, (a: Word16) => Look16(table, a), Push16, Inject16, Power16)
  }

  lemma RegisterAdds16(table: bv16 -> bv16) ensures IsAdd16(Register16(table)) {}

  lemma RegisterShifts16(table: bv16 -> bv16) ensures IsShift16(Register16(table)) {}

  lemma RegisterTops16(table: bv16 -> bv16) ensures IsTop16(Register16(table)) {}

  lemma RegisterClears16(table: bv16 -> bv16) ensures IsClear16(Register16(table)) {}

  lemma RegisterLooks16(table: bv16 -> bv16) ensures IsLook16(Register16(table), table) {}

  lemma RegisterEnds16(table: bv16 -> bv16) ensures IsOctet16(Register16(table)) && IsCoef16(Register16(table)) {}

  lemma Register16Is(table: bv16 -> bv16)
    ensures Is16(Register16(table), table)
  {
    RegisterAdds16(table);
    RegisterShifts16(table);
    RegisterTops16(table);
    RegisterClears16(table);
    RegisterLooks16(table);
    RegisterEnds16(table);
  }

  lemma EntriesTabulate16()
    ensures Tabulates16(Entry16)
  {
    forall h: bv16 | h < 256 ensures Entry16(h) == Divide16(8, h << 8) { Table16Divides(h); }
  }

  /** The register with its laws. */
  lemma Laws16(o: Register<Word16>, table: bv16 -> bv16)
    requires Is16(o, table) && Tabulates16(table)
    ensures Linear(o) && TakesBits(o) && LooksUp(o) && DividesBy(o, P16, 16)
  {
    Linear16(o, table);
    TakesBits16(o, table);
    LooksUp16(o, table);
    Divides16(o, table);
  }

  lemma Looked16(o: Register<Word16>, table: bv16 -> bv16, c: bv16, i: bv16, up: bv16, e: bv16)
    requires IsAdd16(o) && IsLook16(o, table) && (c >> 8) & 255 == i && c << 8 == up && e == table(i) ^ up
    ensures o.plus(o.look(Word16(c)), o.push(Word16(c))) == Word16(e)
  {
    var t := table(i);
    assert Looks16(c) && Adds16(t, up);
  }

  lemma Added16(o: Register<Word16>, a: bv16, b: bv16, e: bv16)
    requires IsAdd16(o) && e == a ^ b
    ensures o.plus(Word16(a), Word16(b)) == Word16(e)
  {
    assert Adds16(a, b);
  }

  /** The parts of an update. */
  lemma Updated16(table: bv16 -> bv16, c: bv16, b: bv8) returns (i: bv16, up: bv16, e: bv16)
    ensures (c >> 8) & 255 == i && c << 8 == up && e == table(i) ^ up && UpdateWith16(table, c, b) == e ^ (b as bv16)
  {
    i, up := (c >> 8) & 255, c << 8;
    e := table(i) ^ up;
  }

  lemma Augments16(o: Register<Word16>, table: bv16 -> bv16, low: bv8 -> Word16, c: bv16, b: bv8,
                   i: bv16, up: bv16, e: bv16, w: bv16, r: bv16)
    requires IsAdd16(o) && IsLook16(o, table) && low(b) == Word16(w)
    requires (c >> 8) & 255 == i && c << 8 == up && e == table(i) ^ up && r == e ^ w
    ensures Augmented(o, low, Word16(c), b) == Word16(r)
  {
    Looked16(o, table, c, i, up, e);
    Added16(o, e, w, r);
    AugmentedOf(o, low, Word16(c), b, Word16(e), Word16(w), Word16(r));
  }

  lemma UpdateIs16(o: Register<Word16>, table: bv16 -> bv16, low: bv8 -> Word16, c: bv16, b: bv8)
    requires Is16(o, table) && low(b) == Word16(b as bv16)
    ensures Augmented(o, low, Word16(c), b) == Word16(UpdateWith16(table, c, b))
  {
    var i, up, e := Updated16(table, c, b);
    Augments16(o, table, low, c, b, i, up, e, b as bv16, UpdateWith16(table, c, b));
  }

  lemma Injected16(o: Register<Word16>, c: bv16, b: bv8) returns (x: bv16)
    requires IsAdd16(o) && IsOctet16(o)
    ensures o.plus(Word16(c), o.inject(b)) == Word16(x) && (x >> 8) & 255 == (c >> 8) ^ (b as bv16) && x << 8 == c << 8
  {
    x := c ^ ((b as bv16) << 8);
    OctetOnTop16(c, b, x);
    assert o.inject(b) == Word16((b as bv16) << 8);
    Added16(o, c, (b as bv16) << 8, x);
  }

  lemma DirectIs16(o: Register<Word16>, table: bv16 -> bv16, c: bv16, b: bv8)
    requires Is16(o, table)
    ensures Direct(o, Word16(c), b) == Word16(DirectWith16(table, c, b))
  {
    var x := Injected16(o, c, b);
    Looked16(o, table, x, (c >> 8) ^ (b as bv16), c << 8, DirectWith16(table, c, b));
    DirectOf(o, Word16(c), b, Word16(x), Word16(DirectWith16(table, c, b)));
  }

  lemma {:induction false} FoldWord16(f: (Word16, bv8) -> Word16, g: (bv16, bv8) -> bv16, c: bv16, s: seq<bv8>)
    requires forall a: bv16, b: bv8 {:trigger g(a, b)} :: f(Word16(a), b) == Word16(g(a, b))
    ensures Fold(f, Word16(c), s) == Word16(Fold(g, c, s))
  {
    if s != [] { FoldWord16(f, g, c, s[..|s| - 1]); }
  }

  // ---------------------------------------------------------------- theorems about the 16-bit checksum

  lemma Octets16(o: Register<Word16>, table: bv16 -> bv16, b: bv8)
    requires Is16(o, table)
    ensures Octet(o, Word16(b as bv16)) == o.inject(b)
  {
    OctetIsSmall16(b);
    Octet16Low(b as bv16);
    StepsAre16(o, table, 8, b as bv16);
  }

  lemma ZeroStays16(o: Register<Word16>, table: bv16 -> bv16)
    requires Is16(o, table)
    ensures Octet(o, o.zero) == o.zero
  {
    Octet16Low(0);
    StepsAre16(o, table, 8, 0);
  }

  function LowOctet16(b: bv8): Word16 { Word16(b as bv16) }

  /** The two zero octets at the end step the register through two more octets. */
  lemma ZeroOctet16(o: Register<Word16>, table: bv16 -> bv16, c: bv16)
    requires Is16(o, table) && Linear(o) && LooksUp(o)
    ensures Word16(UpdateWith16(table, c, 0)) == Octet(o, Word16(c))
  {
    UpdateIs16(o, table, LowOctet16, c, 0);
    ZeroIsLow16();
    assert o.plus(o.look(Word16(c)), o.push(Word16(c))) == Octet(o, Word16(c));
    assert o.plus(Octet(o, Word16(c)), o.zero) == Octet(o, Word16(c));
  }

  lemma ZeroIsLow16()
    ensures LowOctet16(0) == Word16(0)
  {}

  function OnWords16(u: (bv16, bv8) -> bv16): (Word16, bv8) -> Word16 { (a: Word16, b: bv8) => Word16(u(a.v, b)) }

  /** The same for any function that updates with this table. */
  lemma FoldsAgree16(o: Register<Word16>, table: bv16 -> bv16, u: (bv16, bv8) -> bv16, v: (bv16, bv8) -> bv16, payload: seq<bv8>)
    requires Is16(o, table) && Tabulates16(table)
    requires forall c: bv16, b: bv8 :: u(c, b) == UpdateWith16(table, c, b)
    requires forall c: bv16, b: bv8 :: v(c, b) == DirectWith16(table, c, b)
    ensures Octet(o, Octet(o, Fold(OnWords16(u), o.zero, payload))) == Fold(OnWords16(v), o.zero, payload)
  {
    Laws16(o, table);
    ZeroStays16(o, table);
    forall b: bv8 ensures Octet(o, LowOctet16(b)) == o.inject(b) { Octets16(o, table, b); }
    forall a: Word16, b: bv8
      ensures OnWords16(u)(a, b) == Augmented(o, LowOctet16, a, b) && OnWords16(v)(a, b) == Direct(o, a, b)
    {
      UpdateIs16(o, table, LowOctet16, a.v, b);
      DirectIs16(o, table, a.v, b);
    }
    AugmentedIsDirect(o, LowOctet16, OnWords16(u), OnWords16(v), payload);
  }

  lemma ZeroOctets16(o: Register<Word16>, table: bv16 -> bv16, u: (bv16, bv8) -> bv16, c: bv16)
    requires Is16(o, table) && Tabulates16(table) && forall c: bv16, b: bv8 :: u(c, b) == UpdateWith16(table, c, b)
    ensures Word16(u(u(c, 0), 0)) == Octet(o, Octet(o, Word16(c)))
  {
    Laws16(o, table);
    ZeroOctet16(o, table, c);
    ZeroOctet16(o, table, u(c, 0));
  }

  lemma EmsiWith16(o: Register<Word16>, table: bv16 -> bv16, u: (bv16, bv8) -> bv16, v: (bv16, bv8) -> bv16, payload: seq<bv8>)
    requires Is16(o, table) && Tabulates16(table)
    requires forall c: bv16, b: bv8 :: u(c, b) == UpdateWith16(table, c, b)
    requires forall c: bv16, b: bv8 :: v(c, b) == DirectWith16(table, c, b)
    ensures u(u(Fold(u, 0, payload), 0), 0) == Fold(v, 0, payload)
  {
    FoldsAgree16(o, table, u, v, payload);
    FoldWord16(OnWords16(u), u, 0, payload);
    FoldWord16(OnWords16(v), v, 0, payload);
    ZeroOctets16(o, table, u, Fold(u, 0, payload));
  }

  /** The augmented checksum with its two zero octets is the usual table form without them. */
  lemma EmsiIsDirect(payload: seq<bv8>)
    ensures Emsi16(payload) == Fold(Direct16, 0, payload)
  {
    Register16Is(Entry16);
    EntriesTabulate16();
    EmsiWith16(Register16(Entry16), Entry16, Update16, Direct16, payload);
  }

  /** The bits of a message, each octet highest bit first. */
  function BitsHighFirst(s: seq<bv8>): seq<bool> {
    if s == [] then [] else BitsHighFirst(s[..|s| - 1]) + HighFirst(s[|s| - 1])
  }

  lemma {:induction false} MessageBits16(o: Register<Word16>, table: bv16 -> bv16, s: seq<bv8>)
    requires Is16(o, table)
    ensures MessageBits(o, s) == BitsHighFirst(s)
  {
    if s != [] {
      MessageBits16(o, table, s[..|s| - 1]);
      OctetBits16(o, table, s[|s| - 1]);
    }
  }

  lemma DirectDivides16(o: Register<Word16>, table: bv16 -> bv16, v: (bv16, bv8) -> bv16, s: seq<bv8>)
    requires Is16(o, table) && Tabulates16(table)
    requires forall c: bv16, b: bv8 :: v(c, b) == DirectWith16(table, c, b)
    ensures IsRemainder(Dividend(BitsHighFirst(s), 16, Coefs(o, o.zero)), P16, 16, Coefs(o, Word16(Fold(v, 0, s))))
  {
    Laws16(o, table);
    forall a: Word16, b: bv8 ensures OnWords16(v)(a, b) == Direct(o, a, b) { DirectIs16(o, table, a.v, b); }
    FoldFeeds(o, OnWords16(v), o.zero, s);
    FoldWord16(OnWords16(v), v, 0, s);
    MessageBits16(o, table, s);
    FeedingLeavesRemainder(o, P16, 16, o.zero, BitsHighFirst(s));
  }

  /** The EMSI checksum is the remainder of the message, times x^16, divided by x^16 + x^12 + x^5 + 1: the only one. */
  lemma EmsiIsRemainder(payload: seq<bv8>, r: Poly, i: nat)
    ensures IsRemainder(Dividend(BitsHighFirst(payload), 16, NoBits), P16, 16, Bits16(Emsi16(payload)))
    ensures IsRemainder(Dividend(BitsHighFirst(payload), 16, NoBits), P16, 16, r) ==> r(i) == Bits16(Emsi16(payload))(i)
  {
    var o := Register16(Entry16);
    Register16Is(Entry16);
    EntriesTabulate16();
    EmsiIsDirect(payload);
    DirectDivides16(o, Entry16, Direct16, payload);
    ZeroHasNoBits();
    var m, m' := Dividend(BitsHighFirst(payload), 16, Coefs(o, o.zero)), Dividend(BitsHighFirst(payload), 16, NoBits);
    SameRemainder(m, m', P16, 16, Coefs(o, Word16(Emsi16(payload))), Bits16(Emsi16(payload)));
    if IsRemainder(m', P16, 16, r) { RemainderIsUnique(m', P16, 16, r, Bits16(Emsi16(payload)), i); }
  }

  function NoBits(i: nat): bool { false }

  /** The coefficients of a 16-bit word. */
  function Bits16(r: bv16): Poly { (i: nat) => Coef16(r, i) }

  lemma ZeroHasNoBits()
    ensures forall i: nat :: !Coef16(0, i)
  {
  }
}
