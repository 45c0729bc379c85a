/** What a base looks like after a list of messages was appended to it, and what its slots then hold. */
module JamLayout {
  import opened Options
  import opened Bytes
  import opened JamBytes
  import opened JamText
  import opened JamFormat

  /** A message as stored. */
  datatype Msg = Msg(fields: Fields, body: text, kludges: seq<text>, date: u32, attr: u32)

  function Raw(m: Msg): text { RawText(m.body, m.kludges) }

  /** A header with the numbers given, followed by the subfields. */
  function EntryOf(subs: text, rawLen: nat, date: u32, attr: u32, num: nat, ofs: nat): text {
    Header(Word(|subs|), date, Word(num), attr, Word(ofs), Word(rawLen)) + subs
  }

  /** Header and subfields of message number `num` whose text starts at `ofs`. */
  function Entry(m: Msg, num: nat, ofs: nat): text {
    EntryOf(Subs(m.fields), |Raw(m)|, m.date, m.attr, num, ofs)
  }

  function IndexRecord(hash: text -> u32, m: Msg, loc: nat): (r: text)
    ensures |r| == IDX_SIZE
  {
    LE32(hash(Lower(m.fields.to))) + LE32(Word(loc))
  }

  // ---------------------------------------------------------------- the three files

  /** How one message becomes text, a header and an index slot: `head` takes its number and the place of its
      text, `slot` the place of its header. The layout of the files is the same for every such format. */
  datatype Format = Format(raw: Msg -> text, head: (Msg, nat, nat) -> text, slot: (Msg, nat) -> text)

  function Jdt(f: Format, ms: seq<Msg>): text {
    if ms == [] then [] else var k := |ms| - 1; Jdt(f, ms[..k]) + f.raw(ms[k])
  }

  function Jhr(f: Format, base: nat, ms: seq<Msg>): text {
    if ms == [] then [] else var k := |ms| - 1; Jhr(f, base, ms[..k]) + f.head(ms[k], base + k, |Jdt(f, ms[..k])|)
  }

  function Jdx(f: Format, base: nat, ms: seq<Msg>): text {
    if ms == [] then [] else var k := |ms| - 1; Jdx(f, base, ms[..k]) + f.slot(ms[k], |Jhr(f, base, ms[..k])|)
  }

  /** One more message adds its text, its header and its slot at the ends of the files. */
  lemma LayoutGrows(f: Format, base: nat, ms: seq<Msg>, m: Msg)
    ensures Jdt(f, ms + [m]) == Jdt(f, ms) + f.raw(m)
    ensures Jhr(f, base, ms + [m]) == Jhr(f, base, ms) + f.head(m, base + |ms|, |Jdt(f, ms)|)
    ensures Jdx(f, base, ms + [m]) == Jdx(f, base, ms) + f.slot(m, |Jhr(f, base, ms)|)
  {
    Unfold(f, base, ms + [m], ms, m);
  }

  lemma Unfold(f: Format, base: nat, q: seq<Msg>, ms: seq<Msg>, m: Msg)
    requires |q| > 0 && q[..|q| - 1] == ms && q[|q| - 1] == m
    ensures Jdt(f, q) == Jdt(f, ms) + f.raw(m)
    ensures Jhr(f, base, q) == Jhr(f, base, ms) + f.head(m, base + |ms|, |Jdt(f, ms)|)
    ensures Jdx(f, base, q) == Jdx(f, base, ms) + f.slot(m, |Jhr(f, base, ms)|)
  {}

  /** Where the text, and the header, of message `k` start. */
  function TextPos(f: Format, ms: seq<Msg>, k: nat): nat
    requires k <= |ms|
  {
    |Jdt(f, ms[..k])|
  }

  function HeadPos(f: Format, base: nat, ms: seq<Msg>, k: nat): nat
    requires k <= |ms|
  {
    |Jhr(f, base, ms[..k])|
  }

  lemma {:induction false} TextAt(f: Format, ms: seq<Msg>, k: nat)
    requires k < |ms|
    ensures LiesAt(Jdt(f, ms), TextPos(f, ms, k), f.raw(ms[k]))
  {
    var last := |ms| - 1;
    if k < last {
      TextAt(f, ms[..last], k);
      assert ms[..last][..k] == ms[..k];
    }
  }

  lemma {:induction false} HeadAt(f: Format, base: nat, ms: seq<Msg>, k: nat)
    requires k < |ms|
    ensures LiesAt(Jhr(f, base, ms), HeadPos(f, base, ms, k), f.head(ms[k], base + k, TextPos(f, ms, k)))
  {
    var last := |ms| - 1;
    if k < last {
      HeadAt(f, base, ms[..last], k);
      assert ms[..last][..k] == ms[..k];
    }
  }

  lemma {:induction false} SlotAt(f: Format, base: nat, ms: seq<Msg>, k: nat)
    requires k < |ms| && Sized(f)
    ensures LiesAt(Jdx(f, base, ms), IDX_SIZE * k, f.slot(ms[k], HeadPos(f, base, ms, k)))
  {
    var last := |ms| - 1;
    JdxSize(f, base, ms);
    JdxSize(f, base, ms[..last]);
    if k < last {
      SlotAt(f, base, ms[..last], k);
      assert ms[..last][..k] == ms[..k];
    }
  }

  lemma {:induction false} JdxSize(f: Format, base: nat, ms: seq<Msg>)
    requires Sized(f)
    ensures |Jdx(f, base, ms)| == IDX_SIZE * |ms|
  {
    if ms != [] { JdxSize(f, base, ms[..|ms| - 1]); }
  }

  /** Later messages lie behind earlier ones: the regions of two messages do not meet. */
  lemma {:induction false} RegionsInOrder(f: Format, base: nat, ms: seq<Msg>, j: nat, k: nat)
    requires j < k <= |ms|
    ensures TextPos(f, ms, j) + |f.raw(ms[j])| <= TextPos(f, ms, k) <= |Jdt(f, ms)|
    ensures HeadPos(f, base, ms, j) + |f.head(ms[j], base + j, TextPos(f, ms, j))| <= HeadPos(f, base, ms, k) <= |Jhr(f, base, ms)|
    decreases |ms| - k, k
  {
    assert ms[..k][..j] == ms[..j];
    TextAt(f, ms[..k], j);
    HeadAt(f, base, ms[..k], j);
    if k == |ms| {
      assert ms[..k] == ms;
    } else {
      RegionsInOrder(f, base, ms, j, k + 1);
      assert ms[..k + 1][..k] == ms[..k];
      RegionsEnd(f, base, ms, k);
    }
  }

  lemma {:induction false} RegionsEnd(f: Format, base: nat, ms: seq<Msg>, k: nat)
    requires k <= |ms|
    ensures TextPos(f, ms, k) <= |Jdt(f, ms)| && HeadPos(f, base, ms, k) <= |Jhr(f, base, ms)|
  {
    if k == |ms| {
      assert ms[..k] == ms;
    } else {
      TextAt(f, ms, k);
      HeadAt(f, base, ms, k);
    }
  }

  lemma PatchOfSum(a: text, t: text, off: nat, y: text)
    ensures off + |y| <= |a| ==> Patch(a + t, off, y) == Patch(a, off, y) + t
    ensures |y| == |t| ==> Patch(a + t, |a|, y) == a + y
  {}

  /** A message that can stand in for another without moving anything. */
  ghost predicate SameShape(f: Format, m: Msg, m': Msg) {
    && f.raw(m) == f.raw(m')
    && (forall p: nat {:trigger f.slot(m, p)} :: f.slot(m, p) == f.slot(m', p))
    && (forall num: nat, p: nat {:trigger f.head(m, num, p)} :: |f.head(m, num, p)| == |f.head(m', num, p)|)
  }

  ghost predicate Alike(f: Format, base: nat, a: seq<Msg>, b: seq<Msg>) {
    |a| == |b| && Jdt(f, a) == Jdt(f, b) && |Jhr(f, base, a)| == |Jhr(f, base, b)| && Jdx(f, base, a) == Jdx(f, base, b)
  }

  lemma AlikeGrows(f: Format, base: nat, a: seq<Msg>, b: seq<Msg>, x: Msg, y: Msg, qa: seq<Msg>, qb: seq<Msg>)
    requires Alike(f, base, a, b) && SameShape(f, x, y)
    requires |qa| == |qb| == |a| + 1 && qa[..|a|] == a && qb[..|b|] == b && qa[|a|] == x && qb[|b|] == y
    ensures Alike(f, base, qa, qb)
  {
    Unfold(f, base, qa, a, x);
    Unfold(f, base, qb, b, y);
  }

  lemma {:induction false} SamePlaces(f: Format, base: nat, ms: seq<Msg>, k: nat, m: Msg)
    requires k < |ms| && SameShape(f, m, ms[k])
    ensures Alike(f, base, ms[k := m], ms)
    decreases |ms|
  {
    var last := |ms| - 1;
    var short := ms[..last];
    if k == last {
      AlikeGrows(f, base, short, short, m, ms[k], ms[k := m], ms);
    } else {
      SamePlaces(f, base, short, k, m);
      AlikeGrows(f, base, short[k := m], short, ms[last], ms[last], ms[k := m], ms);
    }
  }

  /** A change inside the first part of a file is the same change of the file. */
  lemma PatchWhole(a: text, a': text, t: text, s: text, s': text, off: nat, y: text)
    requires off + |y| <= |a| && a' == Patch(a, off, y) && s == a + t && s' == a' + t
    ensures off + |y| <= |s| && s' == Patch(s, off, y)
  {
    PatchOfSum(a, t, off, y);
  }

  /** The same message behind two lists of one layout adds the same bytes. */
  lemma SameTail(f: Format, base: nat, a: seq<Msg>, b: seq<Msg>, x: Msg, qa: seq<Msg>, qb: seq<Msg>) returns (t: text)
    requires Alike(f, base, a, b)
    requires |qa| == |qb| == |a| + 1 && qa[..|a|] == a && qb[..|b|] == b && qa[|a|] == qb[|b|] == x
    ensures Jhr(f, base, qa) == Jhr(f, base, a) + t && Jhr(f, base, qb) == Jhr(f, base, b) + t
  {
    t := f.head(x, base + |a|, |Jdt(f, a)|);
    Unfold(f, base, qa, a, x);
    Unfold(f, base, qb, b, x);
  }

  /** Replacing message `k` by one of the same shape rewrites its header and nothing else. */
  lemma {:induction false} LayoutUpdates(f: Format, base: nat, ms: seq<Msg>, k: nat, m: Msg)
    requires k < |ms| && SameShape(f, m, ms[k])
    ensures var at := HeadPos(f, base, ms, k); var y := f.head(m, base + k, TextPos(f, ms, k));
            at + |y| <= |Jhr(f, base, ms)| && Jhr(f, base, ms[k := m]) == Patch(Jhr(f, base, ms), at, y)
    decreases |ms|
  {
    var last := |ms| - 1;
    var short := ms[..last];
    if k == last {
      LastUpdates(f, base, ms, m);
    } else {
      assert short[..k] == ms[..k];
      LayoutUpdates(f, base, short, k, m);
      SamePlaces(f, base, short, k, m);
      var t := SameTail(f, base, short, short[k := m], ms[last], ms, ms[k := m]);
      PatchWhole(Jhr(f, base, short), Jhr(f, base, short[k := m]), t, Jhr(f, base, ms), Jhr(f, base, ms[k := m]),
                 HeadPos(f, base, ms, k), f.head(m, base + k, TextPos(f, ms, k)));
    }
  }

  lemma LastUpdates(f: Format, base: nat, ms: seq<Msg>, m: Msg)
    requires |ms| > 0 && SameShape(f, m, ms[|ms| - 1])
    ensures var k := |ms| - 1; var at := HeadPos(f, base, ms, k); var y := f.head(m, base + k, TextPos(f, ms, k));
            at + |y| <= |Jhr(f, base, ms)| && Jhr(f, base, ms[k := m]) == Patch(Jhr(f, base, ms), at, y)
  {
    var k := |ms| - 1;
    var short := ms[..k];
    Unfold(f, base, ms, short, ms[k]);
    assert ms[k := m][..k] == short;
    Unfold(f, base, ms[k := m], short, m);
    PatchOfSum(Jhr(f, base, short), f.head(ms[k], base + k, |Jdt(f, short)|), |Jhr(f, base, short)|, f.head(m, base + k, |Jdt(f, short)|));
  }

  // ---------------------------------------------------------------- the JAM format

  function Jam(hash: text -> u32): Format {
    Format((m: Msg) => Raw(m), (m: Msg, num: nat, ofs: nat) => Entry(m, num, ofs), (m: Msg, loc: nat) => IndexRecord(hash, m, loc))
  }

  /** Marks the message a proof opens the format for. */
  predicate Opens(m: Msg, num: nat, pos: nat) { true }

  /** `f` is the JAM format; opened only where a proof says `Opens`. */
  ghost predicate IsJam(f: Format, hash: text -> u32) {
    forall m: Msg, num: nat, pos: nat {:trigger Opens(m, num, pos)} :: Opens(m, num, pos) ==>
      f.raw(m) == Raw(m) && f.head(m, num, pos) == Entry(m, num, pos) && f.slot(m, pos) == IndexRecord(hash, m, pos)
  }

  lemma JamIsJam(hash: text -> u32)
    ensures IsJam(Jam(hash), hash)
  {
    var f := Jam(hash);
    forall m: Msg, num: nat, pos: nat | Opens(m, num, pos)
      ensures f.raw(m) == Raw(m) && f.head(m, num, pos) == Entry(m, num, pos) && f.slot(m, pos) == IndexRecord(hash, m, pos) {}
  }

  /** Every slot takes 8 bytes and every header at least 76. */
  ghost predicate Sized(f: Format) {
    && (forall m: Msg, p: nat {:trigger f.slot(m, p)} :: |f.slot(m, p)| == IDX_SIZE)
    && (forall m: Msg, num: nat, p: nat {:trigger f.head(m, num, p)} :: |f.head(m, num, p)| >= HDR_SIZE)
  }

  lemma JamIsSized(f: Format, hash: text -> u32)
    requires IsJam(f, hash)
    ensures Sized(f)
  {
    forall m: Msg, p: nat ensures |f.slot(m, p)| == IDX_SIZE { FormatOf(f, hash, m, 0, p); }
    forall m: Msg, num: nat, p: nat ensures |f.head(m, num, p)| >= HDR_SIZE { FormatOf(f, hash, m, num, p); }
  }

  lemma FormatOf(f: Format, hash: text -> u32, m: Msg, num: nat, pos: nat)
    requires IsJam(f, hash)
    ensures f.raw(m) == Raw(m) && f.head(m, num, pos) == Entry(m, num, pos) && f.slot(m, pos) == IndexRecord(hash, m, pos)
  {
    assert Opens(m, num, pos);
  }

  /** The files stay below the sizes their 32-bit offsets can address. */
  predicate Fits(f: Format, base: nat, ms: seq<Msg>) {
    1 <= base && base + |ms| < 0x8000_0000 && |Jhr(f, base, ms)| < 0x8000_0000 && |Jdt(f, ms)| < 0x1_0000_0000
  }

  /** A message that reads back as it was given. */
  predicate Faithful(m: Msg) {
    && Storable(m.fields) && AllOneLine(m.kludges) && NoKludge(Split(Norm(Terminated(m.body))))
    && |Raw(m)| < 0x1_0000_0000
  }

  /** Marks the message a proof needs to read back. */
  predicate Trusts(i: nat) { true }

  ghost predicate AllFaithful(ms: seq<Msg>) {
    forall i: nat {:trigger Trusts(i)} :: Trusts(i) && i < |ms| ==> Faithful(ms[i])
  }

  /** What reading message number `num` gives. */
  function ReadBack(m: Msg, num: int): Article {
    Article(num, m.date, m.attr, m.fields, Norm(Terminated(m.body)), m.kludges)
  }

  /** Index slot `k` holds the hash of the addressee and the place of the header. */
  lemma SlotOf(f: Format, hash: text -> u32, base: nat, ms: seq<Msg>, k: nat)
    requires Fits(f, base, ms) && k < |ms| && IsJam(f, hash)
    ensures Slots(Jdx(f, base, ms)) == |ms|
    ensures ToCrc(Jdx(f, base, ms), k) == hash(Lower(ms[k].fields.to))
    ensures Loc(Jdx(f, base, ms), k) == HeadPos(f, base, ms, k)
  {
    var crc, loc := hash(Lower(ms[k].fields.to)), HeadPos(f, base, ms, k);
    JamIsSized(f, hash);
    JdxSize(f, base, ms);
    SlotAt(f, base, ms, k);
    RegionsEnd(f, base, ms, k);
    SlotBytes(f, hash, ms[k], loc);
    ReadSlot(Jdx(f, base, ms), k, crc, loc);
  }

  lemma SlotBytes(f: Format, hash: text -> u32, m: Msg, loc: u32)
    requires IsJam(f, hash)
    ensures f.slot(m, loc) == LE32(hash(Lower(m.fields.to))) + LE32(loc)
  {
    FormatOf(f, hash, m, 0, loc);
  }

  lemma ReadSlot(jdx: text, k: nat, crc: u32, loc: u32)
    requires LiesAt(jdx, IDX_SIZE * k, LE32(crc) + LE32(loc))
    ensures k < Slots(jdx) && ToCrc(jdx, k) == crc && Loc(jdx, k) == Signed(loc)
  {
    RecordWords(crc, loc);
    WordsOf(jdx, k * IDX_SIZE, LE32(crc) + LE32(loc));
  }

  lemma RecordWords(crc: u32, loc: u32)
    ensures U32At(LE32(crc) + LE32(loc), 0) == crc && U32At(LE32(crc) + LE32(loc), 4) == loc
  {
    ReadLE32([], crc, LE32(loc));
    assert [] + LE32(crc) + LE32(loc) == LE32(crc) + LE32(loc);
    ReadLE32(LE32(crc), loc, []);
    assert LE32(crc) + LE32(loc) + [] == LE32(crc) + LE32(loc);
  }

  lemma WordsOf(s: text, at: nat, rec: text)
    requires |rec| == 8 && at + 8 <= |s| && s[at..at + 8] == rec
    ensures U32At(s, at) == U32At(rec, 0) && U32At(s, at + 4) == U32At(rec, 4)
  {
    assert s[at..at + 4] == rec[0..4] && s[at + 4..at + 8] == rec[4..8];
    SameWord(s, at, rec, 0);
    SameWord(s, at + 4, rec, 4);
  }

  // ---------------------------------------------------------------- headers and articles

  /** A header and its subfields read back from where they were written. */
  lemma ReadEntry(jhr: text, at: nat, h: text, subs: text)
    requires LiesAt(jhr, at, h + subs) && |h| == HDR_SIZE && h[..3] == SIGNATURE
    ensures HeaderAt(jhr, at) == Some(h) && ReadAt(jhr, at + HDR_SIZE, |subs|) == Some(subs)
  {
    var e := jhr[at..at + |h| + |subs|];
    assert jhr[at..at + |h|] == e[..|h|] == h;
    assert jhr[at + |h|..at + |h| + |subs|] == e[|h|..] == subs;
  }

  lemma ReadText(jdt: text, ofs: nat, m: Msg)
    requires LiesAt(jdt, ofs, Raw(m)) && Faithful(m)
    ensures JamFormat.TextAt(jdt, ofs, |Raw(m)|) == (Norm(Terminated(m.body)), m.kludges)
  {
    TextReadsBack(m.body, m.kludges);
    if Raw(m) == [] {
      assert Crlf(Terminated(m.body)) == [] && KludgeBytes(m.kludges) == [];
    }
  }

  /** A header says which article stands behind it. */
  lemma ArticleFrom(jhr: text, jdt: text, at: nat, h: text, fallback: int)
    requires HeaderAt(jhr, at) == Some(h) && U32At(h, 48) > 0
    ensures ArticleAt(jhr, jdt, at, fallback) ==
            if Deleted(U32At(h, 52)) then None else
            var (body, kludges) := JamFormat.TextAt(jdt, U32At(h, 60), U32At(h, 64));
            Some(Article(U32At(h, 48), U32At(h, 36), U32At(h, 52), FieldsAt(jhr, at, U32At(h, 8)), body, kludges))
  {}

  lemma ReadFields(jhr: text, at: nat, f: Fields)
    requires ReadAt(jhr, at + HDR_SIZE, |Subs(f)|) == Some(Subs(f)) && Storable(f)
    ensures FieldsAt(jhr, at, |Subs(f)|) == f
  {
    SubsReadBack(f);
    SubsNotEmpty(f);
  }

  /** The article read from where a message was written is the message, unless it is deleted. */
  lemma ReadArticle(jhr: text, jdt: text, at: nat, ofs: nat, m: Msg, num: nat, fallback: int)
    requires LiesAt(jhr, at, Entry(m, num, ofs)) && LiesAt(jdt, ofs, Raw(m)) && Faithful(m)
    requires 0 < num < 0x1_0000_0000 && ofs < 0x1_0000_0000
    ensures ArticleAt(jhr, jdt, at, fallback) == if Deleted(m.attr) then None else Some(ReadBack(m, num))
  {
    var h := EntryHeader(jhr, at, Subs(m.fields), |Raw(m)|, m.date, m.attr, num, ofs);
    ArticleFrom(jhr, jdt, at, h, fallback);
    ReadText(jdt, ofs, m);
    ReadFields(jhr, at, m.fields);
  }

  /** The same for a message stored in the format `f`. */
  lemma ReadWritten(f: Format, hash: text -> u32, jhr: text, jdt: text, at: nat, ofs: nat, m: Msg, num: nat, fallback: int)
    requires IsJam(f, hash) && LiesAt(jhr, at, f.head(m, num, ofs)) && LiesAt(jdt, ofs, f.raw(m)) && Faithful(m)
    requires 0 < num < 0x1_0000_0000 && ofs < 0x1_0000_0000
    ensures ArticleAt(jhr, jdt, at, fallback) == if Deleted(m.attr) then None else Some(ReadBack(m, num))
  {
    FormatOf(f, hash, m, num, ofs);
    ReadArticle(jhr, jdt, at, ofs, m, num, fallback);
  }

  lemma WrittenHeader(f: Format, hash: text -> u32, jhr: text, at: nat, m: Msg, num: u32, ofs: u32) returns (h: text)
    requires IsJam(f, hash) && LiesAt(jhr, at, f.head(m, num, ofs)) && Faithful(m)
    ensures HeaderAt(jhr, at) == Some(h) && |h| == HDR_SIZE
    ensures U32At(h, 8) == |Subs(m.fields)| && U32At(h, 48) == num && U32At(h, 52) == m.attr
    ensures ReadAt(jhr, at + HDR_SIZE, |Subs(m.fields)|) == Some(Subs(m.fields))
  {
    FormatOf(f, hash, m, num, ofs);
    h := EntryHeader(jhr, at, Subs(m.fields), |Raw(m)|, m.date, m.attr, num, ofs);
  }

  /** The header of a message where it was written, and its six numbers. */
  lemma EntryHeader(jhr: text, at: nat, subs: text, rawLen: u32, date: u32, attr: u32, num: u32, ofs: u32) returns (h: text)
    requires LiesAt(jhr, at, EntryOf(subs, rawLen, date, attr, num, ofs)) && |subs| <= SUB_MAX
    ensures |h| == HDR_SIZE && HeaderAt(jhr, at) == Some(h)
    ensures U32At(h, 8) == |subs| && U32At(h, 36) == date && U32At(h, 48) == num && U32At(h, 52) == attr
    ensures U32At(h, 60) == ofs && U32At(h, 64) == rawLen
    ensures ReadAt(jhr, at + HDR_SIZE, |subs|) == Some(subs)
  {
    h := Header(|subs|, date, num, attr, ofs, rawLen);
    assert Word(|subs|) == |subs| && Word(num) == num && Word(ofs) == ofs && Word(rawLen) == rawLen;
    assert EntryOf(subs, rawLen, date, attr, num, ofs) == h + subs;
    ReadEntry(jhr, at, h, subs);
  }

  lemma SubsNotEmpty(f: Fields)
    ensures |Subs(f)| >= 8
  {
    ItemsAreShort(Items(f));
    assert Items(f)[0] == (2, f.from);
  }
}
