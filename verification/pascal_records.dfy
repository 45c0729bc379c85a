/** Packed records: fields one after another, numbers low byte first, strings at their full width. */
module PascalRecords {
  import opened Bytes
  import opened CodePage
  import opened PascalStrings

  datatype Field = Int(width: nat, signed: bool) | Str(max: nat) | Raw(n: nat)

  datatype Value = Number(n: int) | Text(s: text) | Octets(b: seq<byte>)

  const U8: Field := Int(1, false)
  const U16: Field := Int(2, false)
  const I16: Field := Int(2, true)
  const U32: Field := Int(4, false)
  const I32: Field := Int(4, true)

  predicate ValidField(f: Field) {
    match f
    case Int(w, _) => w == 1 || w == 2 || w == 4
    case Str(_) => true
    case Raw(_) => true
  }

  function Width(f: Field): nat {
    match f
    case Int(w, _) => w
    case Str(max) => max + 1
    case Raw(n) => n
  }

  function Range(width: nat): int { if width == 1 then 0x100 else if width == 2 then 0x1_0000 else 0x1_0000_0000 }

  predicate Matches(f: Field, v: Value) {
    match f
    case Int(w, signed) =>
      v.Number? && (if signed then -Range(w) <= 2 * v.n < Range(w) else 0 <= v.n < Range(w))
    case Str(_) => v.Text?
    case Raw(n) => v.Octets? && |v.b| == n
  }

  // ---------------------------------------------------------------- numbers

  function LowFirst(v: nat, k: nat): (s: seq<byte>)
    ensures |s| == k
  {
    if k == 0 then [] else [v % 256] + LowFirst(v / 256, k - 1)
  }

  function FromLowFirst(s: seq<byte>): nat {
    if s == [] then 0 else s[0] + 256 * FromLowFirst(s[1..])
  }

  function Below(k: nat): nat { if k == 0 then 1 else 256 * Below(k - 1) }

  lemma {:induction false} NumberReadsBack(v: nat, k: nat)
    requires v < Below(k)
    ensures FromLowFirst(LowFirst(v, k)) == v
  {
    if k > 0 {
      NumberReadsBack(v / 256, k - 1);
      assert LowFirst(v, k)[1..] == LowFirst(v / 256, k - 1);
    }
  }

  lemma {:induction false} NumberFits(s: seq<byte>)
    ensures FromLowFirst(s) < Below(|s|)
  {
    if s != [] { NumberFits(s[1..]); }
  }

  lemma RangeIsBelow(w: nat)
    requires w == 1 || w == 2 || w == 4
    ensures Range(w) == Below(w)
  {
    assert Below(1) == 256 && Below(2) == 0x1_0000 && Below(3) == 0x100_0000;
  }

  /** A number as a word of `w` bytes, and back. */
  function ToWord(n: int, w: nat): nat
    requires -Range(w) <= n < Range(w)
  {
    if n < 0 then n + Range(w) else n
  }

  function FromWord(v: nat, w: nat, signed: bool): int { if signed && 2 * v >= Range(w) then v - Range(w) else v }

  // ---------------------------------------------------------------- one field

  function FieldBytes(p: Page, f: Field, v: Value): (b: seq<byte>)
    requires ValidField(f) && Matches(f, v)
    ensures |b| == Width(f)
  {
    match f
    case Int(w, _) => LowFirst(ToWord(v.n, w), w)
    case Str(max) => Packed(p, max, v.s)
    case Raw(_) => v.b
  }

  /** What is read from the bytes `s` that were left for the field, which may be too few. */
  function FieldValue(p: Page, f: Field, s: seq<byte>): Value
    requires |s| <= Width(f)
  {
    match f
    case Int(w, signed) => Number(if |s| < w then 0 else FromWord(FromLowFirst(s), w, signed))
    case Str(_) => Text(Unpacked(p, s))
    case Raw(n) => Octets(s + Zeros(n - |s|))
  }

  predicate Kept(p: Page, f: Field, v: Value) {
    f.Str? && v.Text? ==> Holds(p, f.max, v.s)
  }

  lemma FieldReadsBack(p: Page, f: Field, v: Value)
    requires ValidField(f) && Matches(f, v)
    ensures FieldValue(p, f, FieldBytes(p, f, v)) == v <==> Kept(p, f, v)
  {
    match f
    case Int(w, _) => RangeIsBelow(w); NumberReadsBack(ToWord(v.n, w), w);
    case Str(max) => StringReadsBack(p, max, v.s);
    case Raw(_) =>
  }

  /** Whatever is read from a field can be written to it and read again. */
  lemma ReadValueIsKept(p: Page, f: Field, s: seq<byte>)
    requires IsPage(p) && ValidField(f) && |s| <= Width(f)
    ensures Matches(f, FieldValue(p, f, s)) && Kept(p, f, FieldValue(p, f, s))
  {
    match f
    case Int(w, _) => RangeIsBelow(w); NumberFits(s);
    case Str(max) => ReadFits(p, max, s);
    case Raw(_) =>
  }

  // ---------------------------------------------------------------- whole records

  type Layout = seq<Field>

  predicate ValidLayout(fs: Layout) { forall i | 0 <= i < |fs| :: ValidField(fs[i]) }

  predicate AllMatch(fs: Layout, vs: seq<Value>) { |fs| == |vs| && forall i | 0 <= i < |fs| :: Matches(fs[i], vs[i]) }

  predicate AllKept(p: Page, fs: Layout, vs: seq<Value>) {
    |fs| == |vs| && forall i | 0 <= i < |fs| :: Kept(p, fs[i], vs[i])
  }

  function Size(fs: Layout): nat { if fs == [] then 0 else Size(fs[..|fs| - 1]) + Width(fs[|fs| - 1]) }

  lemma {:induction false} SizesAdd(a: Layout, b: Layout)
    ensures Size(a + b) == Size(a) + Size(b)
    decreases |b|
  {
    if b == [] {
      assert a + b == a;
    } else {
      var k := |b| - 1;
      SizesAdd(a, b[..k]);
      assert (a + b)[..|a + b| - 1] == a + b[..k];
    }
  }

  function Many(n: nat, f: Field): Layout { seq(n, _ => f) }

  lemma {:induction false} SizeOfMany(n: nat, f: Field)
    ensures Size(Many(n, f)) == n * Width(f)
  {
    if n > 0 {
      SizeOfMany(n - 1, f);
      assert Many(n, f)[..n - 1] == Many(n - 1, f);
    }
  }

  /** The size of a layout followed by `n` fields like `f`. */
  lemma SizeWith(a: Layout, n: nat, f: Field)
    ensures Size(a + Many(n, f)) == Size(a) + n * Width(f)
  {
    SizesAdd(a, Many(n, f));
    SizeOfMany(n, f);
  }

  function EncodeAll(p: Page, fs: Layout, vs: seq<Value>): (b: seq<byte>)
    requires ValidLayout(fs) && AllMatch(fs, vs)
    ensures |b| == Size(fs)
    decreases |fs|
  {
    if fs == [] then [] else
    var k := |fs| - 1;
    EncodeAll(p, fs[..k], vs[..k]) + FieldBytes(p, fs[k], vs[k])
  }

  /** The bytes at `at`, fewer than `n` of them near the end. */
  function Piece(b: seq<byte>, at: nat, n: nat): (s: seq<byte>)
    ensures |s| <= n
  {
    b[Least(at, |b|)..Least(at + n, |b|)]
  }

  function DecodeAll(p: Page, fs: Layout, b: seq<byte>): (vs: seq<Value>)
    ensures |vs| == |fs|
    decreases |fs|
  {
    if fs == [] then [] else
    var k := |fs| - 1;
    DecodeAll(p, fs[..k], b) + [FieldValue(p, fs[k], Piece(b, Size(fs[..k]), Width(fs[k])))]
  }

  lemma DecodeMore(p: Page, fs: Layout, f: Field, b: seq<byte>)
    ensures Size(fs + [f]) == Size(fs) + Width(f)
    ensures DecodeAll(p, fs + [f], b) == DecodeAll(p, fs, b) + [FieldValue(p, f, Piece(b, Size(fs), Width(f)))]
  {
    assert (fs + [f])[..|fs|] == fs;
  }

  lemma EncodeMore(p: Page, fs: Layout, vs: seq<Value>, f: Field, v: Value)
    requires ValidLayout(fs) && AllMatch(fs, vs) && ValidField(f) && Matches(f, v)
    ensures ValidLayout(fs + [f]) && AllMatch(fs + [f], vs + [v])
    ensures EncodeAll(p, fs + [f], vs + [v]) == EncodeAll(p, fs, vs) + FieldBytes(p, f, v)
  {
    assert (fs + [f])[..|fs|] == fs && (vs + [v])[..|vs|] == vs;
  }

  /** Each field is read from the bytes that were written for it. */
  lemma {:induction false} DecodedField(p: Page, fs: Layout, vs: seq<Value>, b: seq<byte>, i: nat)
    requires ValidLayout(fs) && AllMatch(fs, vs) && EncodeAll(p, fs, vs) <= b && i < |fs|
    ensures DecodeAll(p, fs, b)[i] == FieldValue(p, fs[i], FieldBytes(p, fs[i], vs[i]))
    decreases |fs|
  {
    var k := |fs| - 1;
    var front := EncodeAll(p, fs[..k], vs[..k]);
    assert front <= b;
    if i < k {
      DecodedField(p, fs[..k], vs[..k], b, i);
    } else {
      PieceOf(b, front, FieldBytes(p, fs[k], vs[k]));
    }
  }

  lemma PieceOf(b: seq<byte>, front: seq<byte>, x: seq<byte>)
    requires front + x <= b
    ensures Piece(b, |front|, |x|) == x
  {
    assert b[|front|..|front| + |x|] == (front + x)[|front|..];
  }

  /** A record comes back, whatever follows it, exactly when each of its strings fits its field. */
  lemma RecordReadsBack(p: Page, fs: Layout, vs: seq<Value>, rest: seq<byte>)
    requires ValidLayout(fs) && AllMatch(fs, vs)
    ensures DecodeAll(p, fs, EncodeAll(p, fs, vs) + rest) == vs <==> AllKept(p, fs, vs)
  {
    var b := EncodeAll(p, fs, vs) + rest;
    var ws := DecodeAll(p, fs, b);
    forall i | 0 <= i < |fs| ensures ws[i] == vs[i] <==> Kept(p, fs[i], vs[i]) {
      DecodedField(p, fs, vs, b, i);
      FieldReadsBack(p, fs[i], vs[i]);
    }
    if AllKept(p, fs, vs) {
      assert forall i | 0 <= i < |fs| :: Kept(p, fs[i], vs[i]);
    }
    if ws == vs {
      assert forall i | 0 <= i < |fs| :: ws[i] == vs[i];
    }
  }

  /** What is read from any bytes at all can be written back and read again. */
  lemma {:induction false} ReadRecordIsKept(p: Page, fs: Layout, b: seq<byte>)
    requires IsPage(p) && ValidLayout(fs)
    ensures AllMatch(fs, DecodeAll(p, fs, b)) && AllKept(p, fs, DecodeAll(p, fs, b))
    decreases |fs|
  {
    if fs != [] {
      var k := |fs| - 1;
      ReadRecordIsKept(p, fs[..k], b);
      ReadValueIsKept(p, fs[k], Piece(b, Size(fs[..k]), Width(fs[k])));
    }
  }

  // ---------------------------------------------------------------- the cursor and the writer

  function Word2(s: seq<byte>): (v: u16)
    requires |s| == 2
  {
    var a: int, b: int := s[0], s[1];
    a + 256 * b
  }

  function Word4(s: seq<byte>): (v: u32)
    requires |s| == 4
  {
    var a: int, b: int, c: int, d: int := s[0], s[1], s[2], s[3];
    a + 256 * b + 0x1_0000 * c + 0x100_0000 * d
  }

  lemma OneByte(s: seq<byte>)
    requires |s| == 1
    ensures FromLowFirst(s) == s[0]
  {
    assert FromLowFirst(s[1..]) == 0;
  }

  lemma TwoBytes(s: seq<byte>)
    requires |s| == 2
    ensures FromLowFirst(s) == Word2(s)
  {
    OneByte(s[1..]);
  }

  lemma FourBytes(s: seq<byte>)
    requires |s| == 4
    ensures FromLowFirst(s) == Word4(s)
  {
    TwoBytes(s[2..]);
    assert s[1..][1..] == s[2..];
    assert FromLowFirst(s) == s[0] + 256 * FromLowFirst(s[1..]);
    assert FromLowFirst(s[1..]) == s[1] + 256 * FromLowFirst(s[2..]);
  }

  /** Marks where a proof looks into the state of a cursor or a writer. */
  predicate Looks(k: int) { true }

  /** The cursor at `i` has read `fs` from `b`, with values `vs`. */
  ghost predicate HasRead(p: Page, b: seq<byte>, i: nat, fs: Layout, vs: seq<Value>) {
    forall k {:trigger Looks(k)} :: Looks(k) ==> i == Least(Size(fs), |b|) && vs == DecodeAll(p, fs, b)
  }

  /** `b` is what writing `vs` as `fs` gives. */
  ghost predicate HasWritten(p: Page, b: seq<byte>, fs: Layout, vs: seq<Value>) {
    forall k {:trigger Looks(k)} :: Looks(k) ==> ValidLayout(fs) && AllMatch(fs, vs) && b == EncodeAll(p, fs, vs)
  }

  class Buf {
    const P: Page
    const B: seq<byte>
    var I: nat
    /** The fields read so far and what they held. */
    ghost var Fields: Layout
    ghost var Values: seq<Value>

    ghost predicate Valid()
      reads this
    {
      I <= |B| && HasRead(P, B, I, Fields, Values)
    }

    constructor (p: Page, b: seq<byte>)
      ensures Valid() && P == p && B == b && Fields == [] && Values == []
    {
      P, B, I := p, b, 0;
      Fields, Values := [], [];
    }

    /** The next `n` bytes, or what is left of them. */
    method Slice(n: nat, ghost f: Field) returns (s: seq<byte>)
      requires Valid() && n == Width(f)
      modifies this
      ensures Valid() && |s| <= n && Fields == old(Fields) + [f] && Values == old(Values) + [FieldValue(P, f, s)]
    {
      assert Looks(0);
      var m := if I + n > |B| then |B| - I else n;
      s := B[I..I + m];
      assert s == Piece(B, Size(Fields), n);
      DecodeMore(P, Fields, f, B);
      I := I + m;
      Fields := Fields + [f];
      Values := Values + [FieldValue(P, f, s)];
    }

    method ReadU8() returns (v: byte)
      requires Valid()
      modifies this
      ensures Valid() && Fields == old(Fields) + [U8] && Values == old(Values) + [Number(v)]
    {
      var s := Slice(1, U8);
      if |s| == 0 { return 0; }
      v := s[0];
      OneByte(s);
    }

    method ReadU16() returns (v: u16)
      requires Valid()
      modifies this
      ensures Valid() && Fields == old(Fields) + [U16] && Values == old(Values) + [Number(v)]
    {
      var s := Slice(2, U16);
      if |s| < 2 { return 0; }
      v := Word2(s);
      TwoBytes(s);
    }

    method ReadU32() returns (v: u32)
      requires Valid()
      modifies this
      ensures Valid() && Fields == old(Fields) + [U32] && Values == old(Values) + [Number(v)]
    {
      var s := Slice(4, U32);
      if |s| < 4 { return 0; }
      v := Word4(s);
      FourBytes(s);
    }

    method ReadI32() returns (v: i32)
      requires Valid()
      modifies this
      ensures Valid() && Fields == old(Fields) + [I32] && Values == old(Values) + [Number(v)]
    {
      var s := Slice(4, I32);
      if |s| < 4 { return 0; }
      var u: int := Word4(s);
      FourBytes(s);
      v := if u >= 0x8000_0000 then u - 0x1_0000_0000 else u;
    }

    method ReadPString(max: nat) returns (s: text)
      requires Valid()
      modifies this
      ensures Valid() && Fields == old(Fields) + [Str(max)] && Values == old(Values) + [Text(s)]
    {
      var b := Slice(max + 1, Str(max));
      s := String(P, b);
    }

    method ReadBytes(n: nat) returns (s: seq<byte>)
      requires Valid()
      modifies this
      ensures Valid() && |s| <= n && Fields == old(Fields) + [Raw(n)] && Values == old(Values) + [Octets(s + Zeros(n - |s|))]
    {
      s := Slice(n, Raw(n));
    }
  }

  lemma FourLow(v: u32)
    ensures LowFirst(v, 4) == [v % 256, v / 256 % 256, v / 0x1_0000 % 256, v / 0x100_0000 % 256]
  {
    assert v / 256 / 256 == v / 0x1_0000 && v / 0x1_0000 / 256 == v / 0x100_0000;
    assert LowFirst(v / 0x100_0000, 1) == [v / 0x100_0000 % 256];
    assert LowFirst(v / 0x1_0000, 2) == [v / 0x1_0000 % 256] + LowFirst(v / 0x100_0000, 1);
    assert LowFirst(v / 256, 3) == [v / 256 % 256] + LowFirst(v / 0x1_0000, 2);
  }

  class Writer {
    const P: Page
    const Table: map<rune, byte>
    var B: seq<byte>
    /** The fields written so far and their values. */
    ghost var Fields: Layout
    ghost var Values: seq<Value>

    ghost predicate Valid()
      reads this
    {
      Tabulates(P, Table) && HasWritten(P, B, Fields, Values)
    }

    constructor (p: Page, table: map<rune, byte>)
      requires Tabulates(p, table)
      ensures Valid() && P == p && Fields == [] && Values == []
    {
      P, Table, B := p, table, [];
      Fields, Values := [], [];
    }

    method Put(b: seq<byte>, ghost f: Field, ghost v: Value)
      requires Valid() && ValidField(f) && Matches(f, v) && b == FieldBytes(P, f, v)
      modifies this
      ensures Valid() && Fields == old(Fields) + [f] && Values == old(Values) + [v]
    {
      assert Looks(0);
      EncodeMore(P, Fields, Values, f, v);
      B := B + b;
      Fields := Fields + [f];
      Values := Values + [v];
    }

    method WriteU8(v: byte)
      requires Valid()
      modifies this
      ensures Valid() && Fields == old(Fields) + [U8] && Values == old(Values) + [Number(v)]
    {
      assert LowFirst(v, 1) == [v];
      Put([v], U8, Number(v));
    }

    method WriteU16(v: u16)
      requires Valid()
      modifies this
      ensures Valid() && Fields == old(Fields) + [U16] && Values == old(Values) + [Number(v)]
    {
      assert LowFirst(v / 256, 1) == [v / 256 % 256];
      assert LowFirst(v, 2) == [v % 256, v / 256 % 256];
      Put([v % 256, v / 256 % 256], U16, Number(v));
    }

    method WriteU32(v: u32)
      requires Valid()
      modifies this
      ensures Valid() && Fields == old(Fields) + [U32] && Values == old(Values) + [Number(v)]
    {
      FourLow(v);
      Put([v % 256, v / 256 % 256, v / 0x1_0000 % 256, v / 0x100_0000 % 256], U32, Number(v));
    }

    method WriteI32(v: i32)
      requires Valid()
      modifies this
      ensures Valid() && Fields == old(Fields) + [I32] && Values == old(Values) + [Number(v)]
    {
      var u: u32 := if v < 0 then v + 0x1_0000_0000 else v;
      FourLow(u);
      Put([u % 256, u / 256 % 256, u / 0x1_0000 % 256, u / 0x100_0000 % 256], I32, Number(v));
    }

    method WritePString(max: nat, s: text)
      requires Valid()
      modifies this
      ensures Valid() && Fields == old(Fields) + [Str(max)] && Values == old(Values) + [Text(s)]
    {
      var buf := new byte[max + 1](_ => 0);
      PutString(P, Table, buf, s);
      Put(buf[..], Str(max), Text(s));
    }

    method WriteBytes(b: seq<byte>)
      requires Valid()
      modifies this
      ensures Valid() && Fields == old(Fields) + [Raw(|b|)] && Values == old(Values) + [Octets(b)]
    {
      Put(b, Raw(|b|), Octets(b));
    }
  }
}
