/** The records of a JAM base: subfields, the fixed header, index slots, and how they are read. */
module JamFormat {
  import opened Options
  import opened Bytes
  import opened JamBytes
  import opened JamText

  const HDR_SIZE: nat := 76
  const IDX_SIZE: nat := 8
  const SUB_MAX: nat := 4000

  type text = seq<byte>

  const SIGNATURE: text := [0x4A, 0x41, 0x4D]   // "JAM"

  // ---------------------------------------------------------------- text helpers

  function TrimRight(s: text, p: byte -> bool): text {
    if s != [] && p(s[|s| - 1]) then TrimRight(s[..|s| - 1], p) else s
  }

  function TrimLeft(s: text): text {
    if s != [] && IsAsciiSpace(s[0]) then TrimLeft(s[1..]) else s
  }

  function Trim(s: text): text { TrimRight(TrimLeft(s), IsAsciiSpace) }

  function TrimNul(s: text): text { TrimRight(s, (b: byte) => b == 0) }

  predicate NoTrailingNul(s: text) { s == [] || s[|s| - 1] != 0 }

  /** Neither starts nor ends with white space. */
  predicate Tight(s: text) { s == [] || (!IsAsciiSpace(s[0]) && !IsAsciiSpace(s[|s| - 1])) }

  lemma TightIsTrimmed(s: text)
    ensures Tight(s) ==> Trim(s) == s
    ensures NoTrailingNul(s) ==> TrimNul(s) == s
  {}

  function UpByte(b: byte): byte { if 97 <= b <= 122 then b - 32 else b }

  function LowByte(b: byte): byte { if 65 <= b <= 90 then b + 32 else b }

  function Upper(s: text): (u: text) ensures |u| == |s| { seq(|s|, i requires 0 <= i < |s| => UpByte(s[i])) }

  function Lower(s: text): (l: text) ensures |l| == |s| { seq(|s|, i requires 0 <= i < |s| => LowByte(s[i])) }

  /** The same character, or the same ASCII letter in two cases. */
  predicate SameLetter(a: byte, b: byte) { a == b || (65 <= a <= 90 && b == a + 32) || (65 <= b <= 90 && a == b + 32) }

  /** Letter for letter the same but for case. */
  predicate SameText(s: text, t: text) { |s| == |t| && forall i | 0 <= i < |s| :: SameLetter(s[i], t[i]) }

  /** Texts are the same in capitals, or in small letters, exactly when they are the same but for case. */
  lemma SameInCapitals(s: text, t: text)
    ensures (Upper(s) == Upper(t) <==> SameText(s, t)) && (Lower(s) == Lower(t) <==> SameText(s, t))
  {
    if Upper(s) == Upper(t) || Lower(s) == Lower(t) {
      forall i | 0 <= i < |s| ensures |s| == |t| && SameLetter(s[i], t[i]) {
        assert |Upper(s)| == |Lower(s)| == |s| && |Upper(t)| == |Lower(t)| == |t|;
        assert Upper(s)[i] == Upper(t)[i] || Lower(s)[i] == Lower(t)[i];
      }
    }
  }

  // ---------------------------------------------------------------- subfields

  datatype Fields = Fields(orig: text, dest: text, from: text, to: text, msgId: text, replyId: text, subject: text)

  const NO_FIELDS: Fields := Fields([], [], [], [], [], [], [])

  function Sub(id: nat, s: text): text
    requires id < 256
  {
    LE16(id) + [0, 0] + LE32(Word(|s|)) + s
  }

  type Item = (byte, text)

  function Optional(id: byte, s: text): seq<Item> { if s == [] then [] else [(id, s)] }

  /** The subfields written for a message, in order; the address and id fields only if not empty. */
  function Items(f: Fields): seq<Item> {
    [(2, f.from), (3, f.to), (6, f.subject)] + Optional(0, f.orig) + Optional(1, f.dest) + Optional(4, f.msgId) + Optional(5, f.replyId)
  }

  function Cat(items: seq<Item>): text {
    if items == [] then [] else Sub(items[0].0, items[0].1) + Cat(items[1..])
  }

  function Subs(f: Fields): text { Cat(Items(f)) }

  function StoreField(f: Fields, id: int, s: text): Fields {
    match id
    case 0 => f.(orig := Trim(s))
    case 1 => f.(dest := Trim(s))
    case 2 => f.(from := s)
    case 3 => f.(to := s)
    case 4 => f.(msgId := Trim(s))
    case 5 => f.(replyId := Trim(s))
    case 6 => f.(subject := s)
    case _ => f
  }

  /** The fields of the subfields from `off` on, added to `f`. Parsing stops at a subfield that is too long. */
  function ParseFrom(buf: text, off: nat, f: Fields): Fields
    decreases |buf| - off
  {
    if off + 8 > |buf| then f else
    var len := U32At(buf, off + 4);
    if len > SUB_MAX || off + 8 + len > |buf| then f
    else ParseFrom(buf, off + 8 + len, StoreField(f, U16At(buf, off), TrimNul(buf[off + 8..off + 8 + len])))
  }

  function ParseSubs(buf: text, f: Fields): Fields { ParseFrom(buf, 0, f) }

  method DoParseSubs(buf: text) returns (f: Fields)
    ensures f == ParseSubs(buf, NO_FIELDS)
  {
    f := NO_FIELDS;
    var off := 0;
    while off + 8 <= |buf|
      invariant off <= |buf| && ParseFrom(buf, 0, NO_FIELDS) == ParseFrom(buf, off, f)
      decreases |buf| - off
    {
      var id, len := U16At(buf, off), U32At(buf, off + 4);
      if len > SUB_MAX || off + 8 + len > |buf| {
        return;
      }
      f, off := StoreField(f, id, TrimNul(buf[off + 8..off + 8 + len])), off + 8 + len;
    }
  }

  /** `x` lies whole in `s` from `at` on. */
  predicate LiesAt(s: text, at: nat, x: text) {
    at + |x| <= |s| && s[at..at + |x|] == x
  }

  lemma SubHead(id: nat, s: text)
    requires id < 256 && |s| <= SUB_MAX
    ensures |Sub(id, s)| == 8 + |s| && U16At(Sub(id, s), 0) == id && U32At(Sub(id, s), 4) == |s| && Sub(id, s)[8..] == s
  {
    var front := LE16(id) + [0, 0];
    ReadLE32(front, |s|, s);
    assert Sub(id, s) == front + LE32(|s|) + s;
    assert Sub(id, s)[0] == front[0] && Sub(id, s)[1] == front[1];
  }

  lemma ParseOne(buf: text, at: nat, id: nat, s: text, f: Fields)
    requires id < 256 && |s| <= SUB_MAX && LiesAt(buf, at, Sub(id, s))
    ensures ParseFrom(buf, at, f) == ParseFrom(buf, at + 8 + |s|, StoreField(f, id, TrimNul(s)))
  {
    SubHead(id, s);
    var x := Sub(id, s);
    var y := buf[at..at + |x|];
    assert y == x && buf[at] == y[0] && buf[at + 1] == y[1];
    assert buf[at + 4..at + 8] == y[4..8];
    SameWord(buf, at + 4, y, 4);
    assert buf[at + 8..at + 8 + |s|] == y[8..];
  }

  function StoreAll(items: seq<Item>, f: Fields): Fields {
    if items == [] then f else StoreAll(items[1..], StoreField(f, items[0].0, TrimNul(items[0].1)))
  }

  /** Parsing what was written stores the items one after another. */
  lemma {:induction false} ParseItems(buf: text, at: nat, items: seq<Item>, f: Fields)
    requires at <= |buf| && buf[at..] == Cat(items) && forall i | 0 <= i < |items| :: |items[i].1| <= SUB_MAX
    ensures ParseFrom(buf, at, f) == StoreAll(items, f)
    decreases |items|
  {
    if items != [] {
      var (id, s) := items[0];
      SubHead(id, s);
      var rest := at + 8 + |s|;
      assert buf[at..] == Sub(id, s) + Cat(items[1..]);
      assert buf[at..rest] == buf[at..][..8 + |s|] == Sub(id, s);
      assert buf[rest..] == buf[at..][8 + |s|..] == Cat(items[1..]);
      ParseOne(buf, at, id, s, f);
      ParseItems(buf, rest, items[1..], StoreField(f, id, TrimNul(s)));
    } else {
      assert |buf| == at;
    }
  }

  lemma {:induction false} StoreAllAdds(a: seq<Item>, b: seq<Item>, f: Fields)
    ensures StoreAll(a + b, f) == StoreAll(b, StoreAll(a, f))
  {
    if a == [] {
      assert a + b == b;
    } else {
      assert (a + b)[1..] == a[1..] + b;
      StoreAllAdds(a[1..], b, StoreField(f, a[0].0, TrimNul(a[0].1)));
    }
  }

  /** Field texts that the stored form can hold: no NUL at the end, ids and addresses without outer blanks,
      at most 4000 bytes together. */
  predicate Storable(f: Fields) {
    && NoTrailingNul(f.from) && NoTrailingNul(f.to) && NoTrailingNul(f.subject)
    && Tight(f.orig) && Tight(f.dest) && Tight(f.msgId) && Tight(f.replyId)
    && NoTrailingNul(f.orig) && NoTrailingNul(f.dest) && NoTrailingNul(f.msgId) && NoTrailingNul(f.replyId)
    && |Subs(f)| <= SUB_MAX
  }

  lemma {:induction false} ItemsAreShort(items: seq<Item>)
    ensures forall i | 0 <= i < |items| :: |items[i].1| + 8 <= |Cat(items)|
  {
    if items != [] {
      ItemsAreShort(items[1..]);
      assert forall i | 1 <= i < |items| :: items[i] == items[1..][i - 1];
    }
  }

  lemma SubsReadBack(f: Fields)
    requires Storable(f)
    ensures ParseSubs(Subs(f), NO_FIELDS) == f
  {
    ItemsAreShort(Items(f));
    assert Subs(f)[0..] == Subs(f);
    ParseItems(Subs(f), 0, Items(f), NO_FIELDS);
    ItemsRestore(f);
  }

  lemma ItemsRestore(f: Fields)
    requires NoTrailingNul(f.from) && NoTrailingNul(f.to) && NoTrailingNul(f.subject)
    requires Tight(f.orig) && Tight(f.dest) && Tight(f.msgId) && Tight(f.replyId)
    requires NoTrailingNul(f.orig) && NoTrailingNul(f.dest) && NoTrailingNul(f.msgId) && NoTrailingNul(f.replyId)
    ensures StoreAll(Items(f), NO_FIELDS) == f
  {
    var a: seq<Item> := [(2, f.from), (3, f.to), (6, f.subject)];
    var f1 := NO_FIELDS.(from := f.from, to := f.to, subject := f.subject);
    var a1 := a + Optional(0, f.orig);
    var a2 := a1 + Optional(1, f.dest);
    var a3 := a2 + Optional(4, f.msgId);
    MandatoryRestore(f);
    StoreAllAdds(a, Optional(0, f.orig), NO_FIELDS);
    StoreAllAdds(a1, Optional(1, f.dest), NO_FIELDS);
    StoreAllAdds(a2, Optional(4, f.msgId), NO_FIELDS);
    StoreAllAdds(a3, Optional(5, f.replyId), NO_FIELDS);
    OptionalRestores(0, f.orig, f1);
    OptionalRestores(1, f.dest, f1.(orig := f.orig));
    OptionalRestores(4, f.msgId, f1.(orig := f.orig, dest := f.dest));
    OptionalRestores(5, f.replyId, f1.(orig := f.orig, dest := f.dest, msgId := f.msgId));
  }

  lemma MandatoryRestore(f: Fields)
    requires NoTrailingNul(f.from) && NoTrailingNul(f.to) && NoTrailingNul(f.subject)
    ensures StoreAll([(2, f.from), (3, f.to), (6, f.subject)], NO_FIELDS) == NO_FIELDS.(from := f.from, to := f.to, subject := f.subject)
  {
    TightIsTrimmed(f.from);
    TightIsTrimmed(f.to);
    TightIsTrimmed(f.subject);
    var a: seq<Item> := [(2, f.from), (3, f.to), (6, f.subject)];
    var b: seq<Item> := [(3, f.to), (6, f.subject)];
    var c: seq<Item> := [(6, f.subject)];
    assert a[1..] == b && b[1..] == c && c[1..] == [];
    var f1 := NO_FIELDS.(from := f.from);
    StoreOne(a, NO_FIELDS);
    StoreOne(b, f1);
    StoreOne(c, f1.(to := f.to));
  }

  lemma StoreOne(items: seq<Item>, f: Fields)
    requires items != []
    ensures StoreAll(items, f) == StoreAll(items[1..], StoreField(f, items[0].0, TrimNul(items[0].1)))
  {}

  lemma OptionalRestores(id: byte, s: text, f: Fields)
    requires id in {0, 1, 4, 5} && Tight(s) && NoTrailingNul(s)
    requires [] == match id case 0 => f.orig case 1 => f.dest case 4 => f.msgId case _ => f.replyId
    ensures StoreAll(Optional(id, s), f) ==
            match id case 0 => f.(orig := s) case 1 => f.(dest := s) case 4 => f.(msgId := s) case _ => f.(replyId := s)
  {
    TightIsTrimmed(s);
    if s != [] { assert Optional(id, s)[1..] == []; }
  }

  // ---------------------------------------------------------------- the fixed header

  /** 76 bytes: signature, revision, and six numbers at their offsets; the rest is zero. */
  function Header(subLen: u32, date: u32, num: u32, attr: u32, textOfs: u32, textLen: u32): (h: text)
    ensures |h| == HDR_SIZE && h[..3] == SIGNATURE
    ensures U32At(h, 8) == subLen && U32At(h, 36) == date && U32At(h, 48) == num && U32At(h, 52) == attr
    ensures U32At(h, 60) == textOfs && U32At(h, 64) == textLen
  {
    var h0 := SIGNATURE + [0, 1, 0] + seq(70, _ => 0);
    var h := PutU32(PutU32(PutU32(PutU32(PutU32(PutU32(h0, 8, subLen), 36, date), 48, num), 60, textOfs), 64, textLen), 52, attr);
    assert h[..3] == SIGNATURE;
    h
  }

  /** The header at `loc`, if 76 bytes can be read there and they carry the signature. */
  function HeaderAt(jhr: text, loc: int): (r: Option<text>)
    ensures r.Some? ==> |r.value| == HDR_SIZE
  {
    match ReadAt(jhr, loc, HDR_SIZE)
    case None => None
    case Some(h) => if h[..3] == SIGNATURE then Some(h) else None
  }

  predicate LiveAt(jhr: text, loc: int) {
    HeaderAt(jhr, loc).Some? && !Deleted(U32At(HeaderAt(jhr, loc).value, 52))
  }

  // ---------------------------------------------------------------- index slots

  function Slots(jdx: text): nat { |jdx| / IDX_SIZE }

  function ToCrc(jdx: text, i: nat): u32
    requires i < Slots(jdx)
  {
    U32At(jdx, i * IDX_SIZE)
  }

  function Loc(jdx: text, i: nat): int
    requires i < Slots(jdx)
  {
    Signed(U32At(jdx, i * IDX_SIZE + 4))
  }

  /** Slot `i` points at a header that is there and not deleted. */
  predicate Live(jdx: text, jhr: text, i: nat) {
    i < Slots(jdx) && Loc(jdx, i) >= 0 && LiveAt(jhr, Loc(jdx, i))
  }

  /** The number a header gives, or `fallback` if it gives none. */
  function NumberAt(jhr: text, loc: int, fallback: int): int
    requires LiveAt(jhr, loc)
  {
    var n := U32At(HeaderAt(jhr, loc).value, 48);
    if n == 0 then fallback else n
  }

  /** The message number slot `i` stands for. */
  function Number(jdx: text, jhr: text, base: int, i: nat): int
    requires Live(jdx, jhr, i)
  {
    NumberAt(jhr, Loc(jdx, i), base + i)
  }

  // ---------------------------------------------------------------- articles

  datatype Article = Article(num: int, date: u32, attr: u32, fields: Fields, body: text, kludges: seq<text>)

  /** Text of length `len` at `ofs`, as far as the file has it. */
  function TextAt(jdt: text, ofs: nat, len: nat): (text, seq<text>) {
    if len == 0 || ofs >= |jdt| then ([], [])
    else SplitJamText(jdt[ofs..if ofs + len <= |jdt| then ofs + len else |jdt|])
  }

  function FieldsAt(jhr: text, loc: int, subLen: nat): Fields {
    if 0 < subLen <= SUB_MAX && ReadAt(jhr, loc + HDR_SIZE, subLen).Some?
    then ParseSubs(ReadAt(jhr, loc + HDR_SIZE, subLen).value, NO_FIELDS)
    else NO_FIELDS
  }

  function ArticleAt(jhr: text, jdt: text, loc: int, fallback: int): Option<Article> {
    if !LiveAt(jhr, loc) then None else
    var h := HeaderAt(jhr, loc).value;
    var (body, kludges) := TextAt(jdt, U32At(h, 60), U32At(h, 64));
    Some(Article(NumberAt(jhr, loc, fallback), U32At(h, 36), U32At(h, 52), FieldsAt(jhr, loc, U32At(h, 8)), body, kludges))
  }
}
