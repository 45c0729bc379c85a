/** A file area's catalogue: header and index records side by side, and a text file their pointers lead into. */
module FileCatalog {
  import opened Bytes
  import opened CodePage
  import opened PascalStrings
  import opened PascalRecords
  import opened FileRecords
  import opened CatalogText

  /** The record codecs as values: `cut` is a name after a trip through its field. */
  datatype Codec = Codec(hdr: FilesHdr -> seq<byte>, parse: (seq<byte>, u16) -> FilesHdr,
                         idx: FilesIdx -> seq<byte>, parseIdx: seq<byte> -> FilesIdx,
                         holds: FilesHdr -> bool, pack: text -> seq<byte>, cut: text -> text)

  const NO_KEYWORDS: seq<text> := [[], [], [], [], []]

  /** The strings of two headers are the same. */
  predicate SameText(g: FilesHdr, h: FilesHdr) {
    g.name == h.name && g.nameRaw == h.nameRaw && g.uploader == h.uploader && g.password == h.password && g.keywords == h.keywords
  }

  ghost predicate Sizes(c: Codec) {
    (forall h: FilesHdr | Shaped(h) :: |c.hdr(h)| == HDR_SIZE) && (forall x: FilesIdx | |x.keywordCRC| == 5 :: |c.idx(x)| == IDX_SIZE)
    && forall s: text :: |c.pack(s)| == 13
  }

  /** What is parsed can be kept, and stays so when its numbers change. */
  ghost predicate ParsesWhatHolds(c: Codec) {
    (forall b: seq<byte>, k: u16 :: Shaped(c.parse(b, k)) && c.holds(c.parse(b, k)) && c.parse(b, k).recordNum == k)
    && (forall h: FilesHdr, k: u16 | Shaped(h) && c.holds(h) :: c.parse(c.hdr(h), k) == h.(recordNum := k))
  }

  ghost predicate HoldsByText(c: Codec) {
    (forall g: FilesHdr, h: FilesHdr | SameText(g, h) && c.holds(h) :: c.holds(g))
    && forall h: FilesHdr | Shaped(h) && c.holds(h) :: c.cut(h.name) == h.name && (h.nameRaw[0] == 0 ==> h.name == [])
  }

  /** The numbers, the name and empty keywords of any header survive, and the index agrees on the name. */
  ghost predicate KeepsNumbers(c: Codec) {
    (forall h: FilesHdr, k: u16 | Shaped(h) ::
      c.parse(c.hdr(h), k).longDescPtr == h.longDescPtr && c.parse(c.hdr(h), k).attrib == h.attrib
      && c.parse(c.hdr(h), k).uploadDate == h.uploadDate && c.parse(c.hdr(h), k).lfnPtr == h.lfnPtr)
    && (forall h: FilesHdr, k: u16 | Shaped(h) && h.nameRaw == c.pack(h.name) && h.keywords == NO_KEYWORDS ::
      c.parse(c.hdr(h), k).name == c.cut(h.name) && c.parse(c.hdr(h), k).keywords == NO_KEYWORDS)
    && forall x: FilesIdx | |x.keywordCRC| == 5 :: c.parseIdx(c.idx(x)) == x.(name := c.cut(x.name))
  }

  /** The name and keywords of a header that can be kept survive in any header that has them. */
  ghost predicate KeepsText(c: Codec) {
    forall g: FilesHdr, h: FilesHdr, k: u16 {:trigger c.holds(g), c.parse(c.hdr(h), k)} |
      Shaped(g) && Shaped(h) && c.holds(g) && h.name == g.name && h.nameRaw == g.nameRaw && h.keywords == g.keywords ::
      c.parse(c.hdr(h), k).name == h.name && c.parse(c.hdr(h), k).nameRaw == h.nameRaw && c.parse(c.hdr(h), k).keywords == h.keywords
  }

  /** Marks where a proof looks into the codec. */
  predicate Trusts(k: int) { true }

  ghost predicate IsCodec(c: Codec) {
    forall k {:trigger Trusts(k)} :: Trusts(k) ==>
      Sizes(c) && ParsesWhatHolds(c) && HoldsByText(c) && KeepsNumbers(c) && KeepsText(c)
  }

  // ---------------------------------------------------------------- the three files

  datatype Files = Files(hdr: seq<byte>, idx: seq<byte>, txt: seq<byte>)

  datatype Entry = Entry(hdr: FilesHdr, desc: text)

  function Count(f: Files): nat { |f.hdr| / HDR_SIZE }

  function HdrAt(c: Codec, hdr: seq<byte>, i: nat): FilesHdr
    requires i < |hdr| / HDR_SIZE
  {
    c.parse(hdr[i * HDR_SIZE..i * HDR_SIZE + HDR_SIZE], i % 0x1_0000)
  }

  function IdxAt(c: Codec, idx: seq<byte>, i: nat): FilesIdx
    requires i < |idx| / IDX_SIZE
  {
    c.parseIdx(idx[i * IDX_SIZE..i * IDX_SIZE + IDX_SIZE])
  }

  function DescOf(p: Page, txt: seq<byte>, ptr: int): text {
    if 0 <= ptr < |txt| then DescAt(p, txt, ptr) else []
  }

  function EntryAt(c: Codec, p: Page, f: Files, i: nat): Entry
    requires i < Count(f)
  {
    var h := HdrAt(c, f.hdr, i);
    Entry(h, DescOf(p, f.txt, h.longDescPtr))
  }

  function Entries(c: Codec, p: Page, f: Files): (es: seq<Entry>)
    ensures |es| == Count(f) && forall i | 0 <= i < |es| :: es[i] == EntryAt(c, p, f, i)
  {
    seq(Count(f), i requires 0 <= i < Count(f) => EntryAt(c, p, f, i))
  }

  function Keys(key: text -> i32, ks: seq<text>): (crcs: seq<i32>)
    ensures |crcs| == |ks|
  {
    seq(|ks|, i requires 0 <= i < |ks| => key(ks[i]))
  }

  function HeaderToIdx(key: text -> i32, h: FilesHdr): FilesIdx {
    FilesIdx(h.name, h.uploadDate, Keys(key, h.keywords), h.longDescPtr)
  }

  /** Whole records only, and as many index records as headers. */
  predicate Aligned(f: Files) { |f.hdr| % HDR_SIZE == 0 && |f.idx| == Count(f) * IDX_SIZE }

  /** As many index records as headers, every description ends, every pointer leads into the text or nowhere. */
  ghost predicate Sound(c: Codec, f: Files) {
    Aligned(f) && Terminated(f.txt)
    && forall i | 0 <= i < Count(f) :: HdrAt(c, f.hdr, i).longDescPtr < |f.txt|
  }

  /** An index record is its header's, but perhaps for the date, which `Dated` is about. */
  predicate Indexes(key: text -> i32, x: FilesIdx, h: FilesHdr) {
    x.name == h.name && x.longDescPtr == h.longDescPtr && x.keywordCRC == Keys(key, h.keywords)
  }

  ghost predicate Indexed(c: Codec, key: text -> i32, f: Files) {
    |f.idx| == Count(f) * IDX_SIZE && forall i | 0 <= i < Count(f) :: Indexes(key, IdxAt(c, f.idx, i), HdrAt(c, f.hdr, i))
  }

  /** The index record of entry `k` has the upload date of its header. */
  predicate Dated(c: Codec, f: Files, k: nat)
    requires k < Count(f) && |f.idx| == Count(f) * IDX_SIZE
  {
    IdxAt(c, f.idx, k).uploadDate == HdrAt(c, f.hdr, k).uploadDate
  }

  ghost predicate AllDated(c: Codec, f: Files) {
    |f.idx| == Count(f) * IDX_SIZE && forall k | 0 <= k < Count(f) :: Dated(c, f, k)
  }

  /** Rewriting the text file leaves the description of a settled entry alone. */
  predicate Settled(e: Entry) { !Blank(e.desc) || (e.desc == [] && e.hdr.longDescPtr != 0) }

  ghost predicate AllSettled(c: Codec, p: Page, f: Files) {
    forall i | 0 <= i < Count(f) :: Settled(EntryAt(c, p, f, i))
  }

  // ---------------------------------------------------------------- one more record at the end

  function Grown(f: Files, rec: seq<byte>, ix: seq<byte>, more: seq<byte>): Files {
    Files(f.hdr + rec, f.idx + ix, f.txt + more)
  }

  lemma SlotsStay(c: Codec, f: Files, rec: seq<byte>, ix: seq<byte>, more: seq<byte>, i: nat)
    requires Aligned(f) && |rec| == HDR_SIZE && |ix| == IDX_SIZE && i <= Count(f)
    ensures Count(Grown(f, rec, ix, more)) == Count(f) + 1 && |Grown(f, rec, ix, more).idx| == (Count(f) + 1) * IDX_SIZE
    ensures HdrAt(c, f.hdr + rec, i) == if i < Count(f) then HdrAt(c, f.hdr, i) else c.parse(rec, i % 0x1_0000)
    ensures IdxAt(c, f.idx + ix, i) == if i < Count(f) then IdxAt(c, f.idx, i) else c.parseIdx(ix)
  {
    var a, b := i * HDR_SIZE, i * IDX_SIZE;
    if i < Count(f) {
      assert (f.hdr + rec)[a..a + HDR_SIZE] == f.hdr[a..a + HDR_SIZE];
      assert (f.idx + ix)[b..b + IDX_SIZE] == f.idx[b..b + IDX_SIZE];
    } else {
      assert (f.hdr + rec)[a..a + HDR_SIZE] == rec;
      assert (f.idx + ix)[b..b + IDX_SIZE] == ix;
    }
  }

  /** Every old entry reads as before, description and all. */
  lemma OldEntryStays(c: Codec, p: Page, f: Files, rec: seq<byte>, ix: seq<byte>, more: seq<byte>, i: nat)
    requires Sound(c, f) && |rec| == HDR_SIZE && |ix| == IDX_SIZE && i < Count(f)
    ensures i < Count(Grown(f, rec, ix, more)) && EntryAt(c, p, Grown(f, rec, ix, more), i) == EntryAt(c, p, f, i)
  {
    SlotsStay(c, f, rec, ix, more, i);
    var ptr := HdrAt(c, f.hdr, i).longDescPtr;
    if ptr >= 0 { DescStays(p, f.txt, more, ptr); }
  }

  predicate Deleted(h: FilesHdr) { h.attrib % 2 == 1 }

  /** A header with a name but no stored name gets one. */
  function Named(c: Codec, h: FilesHdr): FilesHdr
    requires Shaped(h)
  {
    if h.nameRaw[0] == 0 && h.name != [] then h.(nameRaw := c.pack(h.name)) else h
  }

  /** The records of one header added to the catalogue, with `more` text. */
  function WithHeader(c: Codec, key: text -> i32, f: Files, h: FilesHdr, more: seq<byte>): Files {
    Grown(f, c.hdr(h), c.idx(HeaderToIdx(key, h)), more)
  }

  /** Adding a header whose pointer leads into the new text keeps the catalogue sound. */
  lemma HeaderKeepsSound(c: Codec, p: Page, key: text -> i32, f: Files, h: FilesHdr, more: seq<byte>)
    requires Sizes(c) && KeepsNumbers(c) && Sound(c, f) && Shaped(h) && Terminated(more) && h.longDescPtr < |f.txt| + |more|
    ensures Sound(c, WithHeader(c, key, f, h, more)) && Count(WithHeader(c, key, f, h, more)) == Count(f) + 1
  {
    var g := WithHeader(c, key, f, h, more);
    var rec, ix := c.hdr(h), c.idx(HeaderToIdx(key, h));
    SlotsStay(c, f, rec, ix, more, Count(f));
    forall i | 0 <= i < Count(g) ensures HdrAt(c, g.hdr, i).longDescPtr < |g.txt| {
      SlotsStay(c, f, rec, ix, more, i);
    }
  }

  lemma HeaderKeepsIndexed(c: Codec, key: text -> i32, f: Files, h: FilesHdr, more: seq<byte>)
    requires Sizes(c) && Sound(c, f) && Shaped(h) && Indexed(c, key, f)
    requires Indexes(key, c.parseIdx(c.idx(HeaderToIdx(key, h))), c.parse(c.hdr(h), Count(f) % 0x1_0000))
    ensures Indexed(c, key, WithHeader(c, key, f, h, more))
  {
    var g := WithHeader(c, key, f, h, more);
    var rec, ix := c.hdr(h), c.idx(HeaderToIdx(key, h));
    SlotsStay(c, f, rec, ix, more, Count(f));
    forall i | 0 <= i < Count(g) ensures Indexes(key, IdxAt(c, g.idx, i), HdrAt(c, g.hdr, i)) {
      SlotsStay(c, f, rec, ix, more, i);
    }
  }

  /** The dates after a header was added: its own in both records, and the old ones. */
  lemma HeaderDates(c: Codec, key: text -> i32, f: Files, h: FilesHdr, more: seq<byte>, k: nat)
    requires Sizes(c) && KeepsNumbers(c) && Aligned(f) && Shaped(h) && k <= Count(f)
    ensures Aligned(WithHeader(c, key, f, h, more)) && Count(WithHeader(c, key, f, h, more)) == Count(f) + 1
    ensures var g := WithHeader(c, key, f, h, more);
            HdrAt(c, g.hdr, k).uploadDate == (if k < Count(f) then HdrAt(c, f.hdr, k).uploadDate else h.uploadDate)
            && IdxAt(c, g.idx, k).uploadDate == (if k < Count(f) then IdxAt(c, f.idx, k).uploadDate else h.uploadDate)
  {
    assert |HeaderToIdx(key, h).keywordCRC| == 5;
    SlotsStay(c, f, c.hdr(h), c.idx(HeaderToIdx(key, h)), more, k);
  }

  /** The old entries are as they were. */
  ghost predicate Extends(c: Codec, p: Page, f: Files, g: Files) {
    Count(f) <= Count(g) && f.txt <= g.txt && forall i | 0 <= i < Count(f) :: EntryAt(c, p, g, i) == EntryAt(c, p, f, i)
  }

  lemma HeaderExtends(c: Codec, p: Page, key: text -> i32, f: Files, h: FilesHdr, more: seq<byte>)
    requires Sizes(c) && Sound(c, f) && Shaped(h)
    ensures Extends(c, p, f, WithHeader(c, key, f, h, more))
    ensures Count(WithHeader(c, key, f, h, more)) == Count(f) + 1
    ensures HdrAt(c, WithHeader(c, key, f, h, more).hdr, Count(f)) == c.parse(c.hdr(h), Count(f) % 0x1_0000)
  {
    var rec, ix := c.hdr(h), c.idx(HeaderToIdx(key, h));
    SlotsStay(c, f, rec, ix, more, Count(f));
    forall i | 0 <= i < Count(f)
      ensures i < Count(Grown(f, rec, ix, more)) && EntryAt(c, p, Grown(f, rec, ix, more), i) == EntryAt(c, p, f, i) {
      OldEntryStays(c, p, f, rec, ix, more, i);
    }
  }

  /** The index record of a header whose strings are its own. */
  lemma IndexOfHeld(c: Codec, key: text -> i32, h: FilesHdr, k: u16)
    requires ParsesWhatHolds(c) && HoldsByText(c) && KeepsNumbers(c) && Shaped(h) && c.holds(h)
    ensures Indexes(key, c.parseIdx(c.idx(HeaderToIdx(key, h))), c.parse(c.hdr(h), k))
  {
    assert c.parse(c.hdr(h), k) == h.(recordNum := k);
    assert |HeaderToIdx(key, h).keywordCRC| == 5;
  }

  /** The index record of a new header, whose name may be too long for it. */
  lemma IndexOfNew(c: Codec, key: text -> i32, h: FilesHdr, k: u16)
    requires KeepsNumbers(c) && Shaped(h) && h.nameRaw == c.pack(h.name) && h.keywords == NO_KEYWORDS
    ensures Indexes(key, c.parseIdx(c.idx(HeaderToIdx(key, h))), c.parse(c.hdr(h), k))
  {
    assert |HeaderToIdx(key, h).keywordCRC| == 5;
  }

  // ---------------------------------------------------------------- cataloguing an upload

  /** What an upload brings: `long` is what isLFN says of its name, `dosName` its short name on disk, if any. */
  datatype Upload = Upload(name: text, long: bool, dosName: text, uploader: text, desc: text, attrib: byte, cost: u16,
                           size: u32, crc: u32, fileDate: u32, now: u32)

  /** A file offset as a 32-bit number. */
  function Int32(n: nat): i32 {
    var m := n % 0x1_0000_0000;
    if m < 0x8000_0000 then m else m - 0x1_0000_0000
  }

  /** What AddDescription adds to the text file. */
  function Ended(raw: seq<byte>): (b: seq<byte>)
    ensures Terminated(b)
  {
    if raw == [] then [] else if raw[|raw| - 1] == 0 then raw else raw + [0]
  }

  function PtrFor(txt: seq<byte>, raw: seq<byte>): i32 { if raw == [] then -1 else Int32(|txt|) }

  function LongRaw(p: Page, u: Upload): seq<byte> { if u.long then Encoded(p, u.name) else [] }

  function DescRaw(p: Page, u: Upload): seq<byte> { if Blank(u.desc) then [] else Encoded(p, u.desc) }

  function NewText(p: Page, u: Upload): (b: seq<byte>)
    ensures Terminated(b)
  {
    Ended(LongRaw(p, u)) + Ended(DescRaw(p, u))
  }

  function ShortName(u: Upload): text { if u.long && u.dosName != [] then u.dosName else u.name }

  function NewHeader(c: Codec, p: Page, txt: seq<byte>, u: Upload): FilesHdr {
    FilesHdr(ShortName(u), c.pack(ShortName(u)), u.size, 0xFFFF_FFFF, u.uploader, u.now, u.fileDate, u.now, 0, u.attrib, [],
             NO_KEYWORDS, u.cost, PtrFor(txt + Ended(LongRaw(p, u)), DescRaw(p, u)), PtrFor(txt, LongRaw(p, u)), 0)
  }

  function Cataloged(c: Codec, p: Page, key: text -> i32, f: Files, u: Upload): Files {
    WithHeader(c, key, f, NewHeader(c, p, f.txt, u), NewText(p, u))
  }

  lemma NewPointer(c: Codec, p: Page, txt: seq<byte>, u: Upload)
    requires |txt| + |Ended(LongRaw(p, u))| < 0x8000_0000
    ensures var ptr := NewHeader(c, p, txt, u).longDescPtr;
            ptr < |txt| + |NewText(p, u)| && ptr == if Blank(u.desc) then -1 else |txt| + |Ended(LongRaw(p, u))|
  {
    var raw := DescRaw(p, u);
    PointerOf(txt + Ended(LongRaw(p, u)), raw);
    assert raw == [] <==> Blank(u.desc);
  }

  lemma PointerOf(txt: seq<byte>, raw: seq<byte>)
    requires |txt| < 0x8000_0000
    ensures PtrFor(txt, raw) == (if raw == [] then -1 else |txt|) && PtrFor(txt, raw) < |txt| + |Ended(raw)|
  {}

  /** A catalogued upload changes no old entry, whatever its name and description are. */
  lemma CatalogedExtends(c: Codec, p: Page, key: text -> i32, f: Files, u: Upload)
    requires IsCodec(c) && Sound(c, f) && |f.txt| + |Ended(LongRaw(p, u))| < 0x8000_0000
    ensures Extends(c, p, f, Cataloged(c, p, key, f, u)) && Count(Cataloged(c, p, key, f, u)) == Count(f) + 1
    ensures Sound(c, Cataloged(c, p, key, f, u))
    ensures Indexed(c, key, f) ==> Indexed(c, key, Cataloged(c, p, key, f, u))
  {
    assert Trusts(0);
    var h := NewHeader(c, p, f.txt, u);
    NewPointer(c, p, f.txt, u);
    HeaderKeepsSound(c, p, key, f, h, NewText(p, u));
    HeaderExtends(c, p, key, f, h, NewText(p, u));
    if Indexed(c, key, f) {
      IndexOfNew(c, key, h, Count(f) % 0x1_0000);
      HeaderKeepsIndexed(c, key, f, h, NewText(p, u));
    }
  }

  /** What the new text file holds where the new header's pointer leads. */
  lemma NewDesc(p: Page, txt: seq<byte>, u: Upload, ptr: int)
    requires IsPage(p) && ptr == if Blank(u.desc) then -1 else |txt| + |Ended(LongRaw(p, u))|
    ensures var d := DescOf(p, txt + NewText(p, u), ptr);
            if Blank(u.desc) then d == [] else NoStops(u.desc) ==> d == Normal(Decoded(p, Encoded(p, u.desc))) && !Blank(d)
  {
    if !Blank(u.desc) {
      Regroup(txt, Ended(LongRaw(p, u)), Ended(DescRaw(p, u)));
      DescAfter(p, txt + Ended(LongRaw(p, u)), u.desc, txt + NewText(p, u), ptr);
    }
  }

  lemma Regroup(a: seq<byte>, b: seq<byte>, c: seq<byte>)
    ensures a + (b + c) == (a + b) + c
  {}

  lemma DescAfter(p: Page, front: seq<byte>, d: text, whole: seq<byte>, ptr: int)
    requires IsPage(p) && !Blank(d) && whole == front + Ended(Encoded(p, d)) && ptr == |front|
    ensures NoStops(d) ==> DescOf(p, whole, ptr) == Normal(Decoded(p, Encoded(p, d))) && !Blank(DescOf(p, whole, ptr))
  {
    if NoStops(d) { NewDescription(p, front, d); }
  }

  lemma CatalogedHeader(c: Codec, p: Page, key: text -> i32, f: Files, u: Upload)
    requires IsCodec(c) && Sound(c, f) && |f.txt| + |Ended(LongRaw(p, u))| < 0x8000_0000
    ensures Count(Cataloged(c, p, key, f, u)) == Count(f) + 1
    ensures var h := HdrAt(c, Cataloged(c, p, key, f, u).hdr, Count(f));
            h.longDescPtr == (if Blank(u.desc) then -1 else |f.txt| + |Ended(LongRaw(p, u))|)
            && (c.holds(NewHeader(c, p, f.txt, u)) ==> h == NewHeader(c, p, f.txt, u).(recordNum := Count(f) % 0x1_0000))
  {
    assert Trusts(0);
    NewPointer(c, p, f.txt, u);
    HeaderExtends(c, p, key, f, NewHeader(c, p, f.txt, u), NewText(p, u));
  }

  /** The new entry: its header as made if the strings fit, and its description but for line ends. */
  lemma CatalogedEntry(c: Codec, p: Page, key: text -> i32, f: Files, u: Upload)
    requires IsCodec(c) && IsPage(p) && Sound(c, f) && |f.txt| + |Ended(LongRaw(p, u))| < 0x8000_0000
    ensures Count(Cataloged(c, p, key, f, u)) == Count(f) + 1
    ensures var e := EntryAt(c, p, Cataloged(c, p, key, f, u), Count(f));
            (c.holds(NewHeader(c, p, f.txt, u)) ==> e.hdr == NewHeader(c, p, f.txt, u).(recordNum := Count(f) % 0x1_0000))
            && (if Blank(u.desc) then e.desc == [] else NoStops(u.desc) ==> e.desc == Normal(Decoded(p, Encoded(p, u.desc))))
            && (NoStops(u.desc) || Blank(u.desc) ==> Settled(e))
  {
    CatalogedHeader(c, p, key, f, u);
    NewDesc(p, f.txt, u, HdrAt(c, Cataloged(c, p, key, f, u).hdr, Count(f)).longDescPtr);
  }

  lemma NewDescription(p: Page, front: seq<byte>, d: text)
    requires IsPage(p) && NoStops(d) && !Blank(d)
    ensures |front| < |front + Ended(Encoded(p, d))|
    ensures DescAt(p, front + Ended(Encoded(p, d)), |front|) == Normal(Decoded(p, Encoded(p, d)))
    ensures !Blank(DescAt(p, front + Ended(Encoded(p, d)), |front|))
  {
    var b := Encoded(p, d);
    NoStopBytes(p, d);
    EndAfter(front, b, []);
    InkStays(p, front, d, []);
    assert front + Ended(b) == front + b + [0] + [];
  }

  // ---------------------------------------------------------------- one header overwritten in place

  /** `x` written over `b` from `off` on, past the end if need be. */
  function Overwritten(b: seq<byte>, off: nat, x: seq<byte>): seq<byte> {
    if off > |b| then b + Zeros(off - |b|) + x
    else b[..off] + x + (if off + |x| < |b| then b[off + |x|..] else [])
  }

  lemma OtherSlotsStay(c: Codec, hdr: seq<byte>, rec: seq<byte>, i: nat, k: nat)
    requires |hdr| % HDR_SIZE == 0 && |rec| == HDR_SIZE && i < |hdr| / HDR_SIZE && k < |hdr| / HDR_SIZE
    ensures |Overwritten(hdr, i * HDR_SIZE, rec)| == |hdr|
    ensures HdrAt(c, Overwritten(hdr, i * HDR_SIZE, rec), k) == if k == i then c.parse(rec, i % 0x1_0000) else HdrAt(c, hdr, k)
  {
    var a, b := i * HDR_SIZE, k * HDR_SIZE;
    var t := Overwritten(hdr, a, rec);
    if k == i {
      assert t[a..a + HDR_SIZE] == rec;
    } else {
      assert t[b..b + HDR_SIZE] == hdr[b..b + HDR_SIZE];
    }
  }

  /** The header of a file that was uploaded again. */
  function Refreshed(h: FilesHdr, u: Upload): FilesHdr {
    h.(crc32 := u.crc, size := u.size, fileDate := u.fileDate, uploadDate := u.now, lastDL := u.now)
  }

  function Updated(c: Codec, f: Files, i: nat, u: Upload): Files
    requires i < Count(f)
  {
    f.(hdr := Overwritten(f.hdr, i * HDR_SIZE, c.hdr(Refreshed(HdrAt(c, f.hdr, i), u))))
  }

  lemma RefreshedReadsBack(c: Codec, h: FilesHdr, u: Upload)
    requires IsCodec(c) && Shaped(h) && c.holds(h)
    ensures c.parse(c.hdr(Refreshed(h, u)), h.recordNum) == Refreshed(h, u) && |c.hdr(Refreshed(h, u))| == HDR_SIZE
  {
    assert Trusts(0);
    assert SameText(Refreshed(h, u), h);
  }

  /** Only entry `i` changes, and its description does not. */
  lemma UpdatedEntry(c: Codec, p: Page, f: Files, i: nat, u: Upload, k: nat)
    requires IsCodec(c) && Aligned(f) && i < Count(f) && k < Count(f)
    ensures Aligned(Updated(c, f, i, u)) && Count(Updated(c, f, i, u)) == Count(f)
    ensures EntryAt(c, p, Updated(c, f, i, u), k)
            == if k == i then EntryAt(c, p, f, i).(hdr := Refreshed(HdrAt(c, f.hdr, i), u)) else EntryAt(c, p, f, k)
  {
    assert Trusts(0);
    RefreshedReadsBack(c, HdrAt(c, f.hdr, i), u);
    OtherSlotsStay(c, f.hdr, c.hdr(Refreshed(HdrAt(c, f.hdr, i), u)), i, k);
  }

  /** Updating a header in place keeps everything the catalogue relies on. */
  lemma UpdateKeeps(c: Codec, p: Page, key: text -> i32, f: Files, i: nat, u: Upload)
    requires IsCodec(c) && Sound(c, f) && i < Count(f)
    ensures Sound(c, Updated(c, f, i, u))
    ensures Indexed(c, key, f) ==> Indexed(c, key, Updated(c, f, i, u))
    ensures AllSettled(c, p, f) ==> AllSettled(c, p, Updated(c, f, i, u))
  {
    var g := Updated(c, f, i, u);
    UpdatedEntry(c, p, f, i, u, i);
    forall k | 0 <= k < Count(g) ensures HdrAt(c, g.hdr, k).longDescPtr == HdrAt(c, f.hdr, k).longDescPtr < |g.txt| {
      UpdatedEntry(c, p, f, i, u, k);
    }
    if Indexed(c, key, f) {
      forall k | 0 <= k < Count(g) ensures Indexes(key, IdxAt(c, g.idx, k), HdrAt(c, g.hdr, k)) {
        UpdatedEntry(c, p, f, i, u, k);
        assert Indexes(key, IdxAt(c, f.idx, k), HdrAt(c, f.hdr, k));
      }
    }
    if AllSettled(c, p, f) {
      forall k | 0 <= k < Count(g) ensures Settled(EntryAt(c, p, g, k)) {
        UpdatedEntry(c, p, f, i, u, k);
        assert Settled(EntryAt(c, p, f, k));
      }
    }
  }

  /** From agreeing dates, an update in place leaves exactly the updated entry's apart, unless the time is the old one. */
  lemma UpdatedDates(c: Codec, p: Page, f: Files, i: nat, u: Upload, k: nat)
    requires IsCodec(c) && Aligned(f) && i < Count(f) && k < Count(f) && Dated(c, f, k)
    ensures Aligned(Updated(c, f, i, u)) && Count(Updated(c, f, i, u)) == Count(f)
    ensures Dated(c, Updated(c, f, i, u), k) <==> k != i || u.now == HdrAt(c, f.hdr, i).uploadDate
  {
    UpdatedEntry(c, p, f, i, u, k);
    assert EntryAt(c, p, Updated(c, f, i, u), k).hdr == HdrAt(c, Updated(c, f, i, u).hdr, k);
  }

  /** `h` may take the place of `g`: same name, same keywords, same description. */
  predicate TakesPlace(g: FilesHdr, h: FilesHdr) {
    Shaped(h) && h.name == g.name && h.nameRaw == g.nameRaw && h.keywords == g.keywords && h.longDescPtr == g.longDescPtr
  }

  /** Header `i` overwritten by `h`. */
  function Replaced(c: Codec, f: Files, i: nat, h: FilesHdr): Files
    requires i < Count(f) && Shaped(h)
  {
    f.(hdr := Overwritten(f.hdr, i * HDR_SIZE, c.hdr(Named(c, h))))
  }

  lemma PlaceTaken(c: Codec, g: FilesHdr, h: FilesHdr, k: u16)
    requires IsCodec(c) && Shaped(g) && c.holds(g) && TakesPlace(g, h)
    ensures Named(c, h) == h && |c.hdr(h)| == HDR_SIZE
    ensures TakesPlace(g, c.parse(c.hdr(h), k)) && c.parse(c.hdr(h), k).attrib == h.attrib
    ensures c.parse(c.hdr(h), k).uploadDate == h.uploadDate && c.parse(c.hdr(h), k).lfnPtr == h.lfnPtr
    ensures c.holds(h) ==> c.parse(c.hdr(h), k) == h.(recordNum := k)
  {
    assert Trusts(0);
    assert c.parse(c.hdr(h), k).name == h.name;
  }

  /** Whatever else it says, such a header changes no description and no other entry. */
  lemma ReplacedEntry(c: Codec, p: Page, f: Files, i: nat, h: FilesHdr, k: nat)
    requires IsCodec(c) && Aligned(f) && i < Count(f) && k < Count(f) && TakesPlace(HdrAt(c, f.hdr, i), h)
    ensures Aligned(Replaced(c, f, i, h)) && Count(Replaced(c, f, i, h)) == Count(f)
    ensures k != i ==> EntryAt(c, p, Replaced(c, f, i, h), k) == EntryAt(c, p, f, k)
    ensures EntryAt(c, p, Replaced(c, f, i, h), k).desc == EntryAt(c, p, f, k).desc
    ensures TakesPlace(HdrAt(c, f.hdr, k), HdrAt(c, Replaced(c, f, i, h).hdr, k))
    ensures k == i ==> HdrAt(c, Replaced(c, f, i, h).hdr, k).attrib == h.attrib
    ensures k == i ==> HdrAt(c, Replaced(c, f, i, h).hdr, k).uploadDate == h.uploadDate
    ensures k == i ==> HdrAt(c, Replaced(c, f, i, h).hdr, k).lfnPtr == h.lfnPtr
    ensures k == i && c.holds(h) ==> HdrAt(c, Replaced(c, f, i, h).hdr, k) == h.(recordNum := i % 0x1_0000)
  {
    ParsedHolds(c, f.hdr, i);
    ParsedHolds(c, f.hdr, k);
    PlaceTaken(c, HdrAt(c, f.hdr, i), h, i % 0x1_0000);
    OtherSlotsStay(c, f.hdr, c.hdr(h), i, k);
  }

  /** The same of dates: only an entry whose header gets another date is left apart, whatever else it says. */
  lemma ReplacedDates(c: Codec, p: Page, f: Files, i: nat, h: FilesHdr, k: nat)
    requires IsCodec(c) && Aligned(f) && i < Count(f) && k < Count(f) && TakesPlace(HdrAt(c, f.hdr, i), h) && Dated(c, f, k)
    ensures Aligned(Replaced(c, f, i, h)) && Count(Replaced(c, f, i, h)) == Count(f)
    ensures Dated(c, Replaced(c, f, i, h), k) <==> k != i || h.uploadDate == HdrAt(c, f.hdr, i).uploadDate
  {
    ReplacedEntry(c, p, f, i, h, k);
    if k != i { assert EntryAt(c, p, Replaced(c, f, i, h), k).hdr == EntryAt(c, p, f, k).hdr; }
  }

  /** And the catalogue keeps everything it relies on. */
  lemma ReplaceKeeps(c: Codec, p: Page, key: text -> i32, f: Files, i: nat, h: FilesHdr)
    requires IsCodec(c) && Sound(c, f) && i < Count(f) && TakesPlace(HdrAt(c, f.hdr, i), h)
    ensures Sound(c, Replaced(c, f, i, h))
    ensures Indexed(c, key, f) ==> Indexed(c, key, Replaced(c, f, i, h))
    ensures AllSettled(c, p, f) ==> AllSettled(c, p, Replaced(c, f, i, h))
  {
    ReplacedEntry(c, p, f, i, h, i);
    SameButNumbers(c, p, key, f, Replaced(c, f, i, h), i, h);
  }

  lemma SameButNumbers(c: Codec, p: Page, key: text -> i32, f: Files, g: Files, i: nat, h: FilesHdr)
    requires IsCodec(c) && Sound(c, f) && i < Count(f) && TakesPlace(HdrAt(c, f.hdr, i), h)
    requires g == Replaced(c, f, i, h) && Aligned(g) && Count(g) == Count(f)
    ensures Sound(c, g) && (Indexed(c, key, f) ==> Indexed(c, key, g)) && (AllSettled(c, p, f) ==> AllSettled(c, p, g))
  {
    forall k | 0 <= k < Count(g)
      ensures TakesPlace(HdrAt(c, f.hdr, k), HdrAt(c, g.hdr, k)) && EntryAt(c, p, g, k).desc == EntryAt(c, p, f, k).desc {
      ReplacedEntry(c, p, f, i, h, k);
    }
    if Indexed(c, key, f) {
      forall k | 0 <= k < Count(g) ensures Indexes(key, IdxAt(c, g.idx, k), HdrAt(c, g.hdr, k)) {
        assert Indexes(key, IdxAt(c, f.idx, k), HdrAt(c, f.hdr, k));
      }
    }
    if AllSettled(c, p, f) {
      forall k | 0 <= k < Count(g) ensures Settled(EntryAt(c, p, g, k)) { assert Settled(EntryAt(c, p, f, k)); }
    }
  }

  // ---------------------------------------------------------------- the catalogue written anew

  function NewPtr(txt: seq<byte>, e: Entry): i32 {
    if !Blank(e.desc) then Int32(|txt|)
    else if e.hdr.longDescPtr > 0 && e.desc == [] then -1 else e.hdr.longDescPtr
  }

  function NewTxt(p: Page, e: Entry): seq<byte> { if Blank(e.desc) then [] else Stored(p, e.desc) }

  function Rewritten(c: Codec, f: Files, e: Entry): FilesHdr
    requires Shaped(e.hdr)
  {
    Named(c, e.hdr.(recordNum := Count(f) % 0x1_0000, longDescPtr := NewPtr(f.txt, e)))
  }

  function WriteOne(c: Codec, p: Page, key: text -> i32, f: Files, e: Entry): Files
    requires Shaped(e.hdr)
  {
    WithHeader(c, key, f, Rewritten(c, f, e), NewTxt(p, e))
  }

  predicate AllShaped(es: seq<Entry>) { forall i | 0 <= i < |es| :: Shaped(es[i].hdr) }

  /** What WriteFDB leaves. */
  function WriteAll(c: Codec, p: Page, key: text -> i32, es: seq<Entry>): Files
    requires AllShaped(es)
  {
    if es == [] then Files([], [], []) else
    WriteOne(c, p, key, WriteAll(c, p, key, es[..|es| - 1]), es[|es| - 1])
  }

  /** The same entry at another place with its text elsewhere. */
  predicate SameEntry(e: Entry, g: Entry) {
    g == Entry(e.hdr.(longDescPtr := g.hdr.longDescPtr, recordNum := g.hdr.recordNum), e.desc)
  }

  /** An entry as reading yields it. */
  predicate Read(c: Codec, p: Page, e: Entry) { Shaped(e.hdr) && c.holds(e.hdr) && Clean(p, e.desc) }

  lemma RewrittenReadsBack(c: Codec, f: Files, e: Entry)
    requires IsCodec(c) && Shaped(e.hdr) && c.holds(e.hdr)
    ensures Rewritten(c, f, e) == e.hdr.(recordNum := Count(f) % 0x1_0000, longDescPtr := NewPtr(f.txt, e))
    ensures c.holds(Rewritten(c, f, e)) && c.parse(c.hdr(Rewritten(c, f, e)), Count(f) % 0x1_0000) == Rewritten(c, f, e)
  {
    assert Trusts(0);
    var h := e.hdr.(recordNum := Count(f) % 0x1_0000, longDescPtr := NewPtr(f.txt, e));
    assert SameText(h, e.hdr);
  }

  /** The description of a settled entry, read from the new text file. */
  lemma RewrittenDesc(p: Page, txt: seq<byte>, e: Entry)
    requires IsPage(p) && Clean(p, e.desc) && Settled(e) && |txt| < 0x8000_0000
    ensures DescOf(p, txt + NewTxt(p, e), NewPtr(txt, e)) == e.desc && NewPtr(txt, e) < |txt + NewTxt(p, e)|
    ensures e.desc == [] ==> NewPtr(txt, e) != 0
  {
    if Blank(e.desc) {
      assert txt + NewTxt(p, e) == txt;
    } else {
      StoredDesc(p, txt, e.desc, NewPtr(txt, e));
    }
  }

  lemma StoredDesc(p: Page, txt: seq<byte>, d: text, ptr: int)
    requires IsPage(p) && Clean(p, d) && ptr == |txt|
    ensures DescOf(p, txt + Stored(p, d), ptr) == d && ptr < |txt + Stored(p, d)|
  {
    DescReadsBack(p, txt, d, []);
    assert txt + Stored(p, d) + [] == txt + Stored(p, d);
  }

  lemma WroteOne(c: Codec, p: Page, key: text -> i32, f: Files, e: Entry)
    requires IsCodec(c) && IsPage(p) && Sound(c, f) && Indexed(c, key, f) && Read(c, p, e) && Settled(e) && |f.txt| < 0x8000_0000
    ensures Sound(c, WriteOne(c, p, key, f, e)) && Indexed(c, key, WriteOne(c, p, key, f, e))
    ensures Extends(c, p, f, WriteOne(c, p, key, f, e)) && Count(WriteOne(c, p, key, f, e)) == Count(f) + 1
    ensures SameEntry(e, EntryAt(c, p, WriteOne(c, p, key, f, e), Count(f))) && Settled(EntryAt(c, p, WriteOne(c, p, key, f, e), Count(f)))
  {
    assert Trusts(0);
    var h := Rewritten(c, f, e);
    RewrittenReadsBack(c, f, e);
    RewrittenDesc(p, f.txt, e);
    HeaderKeepsSound(c, p, key, f, h, NewTxt(p, e));
    HeaderExtends(c, p, key, f, h, NewTxt(p, e));
    IndexOfHeld(c, key, h, Count(f) % 0x1_0000);
    HeaderKeepsIndexed(c, key, f, h, NewTxt(p, e));
  }

  ghost predicate AllRead(c: Codec, p: Page, es: seq<Entry>) { forall i | 0 <= i < |es| :: Read(c, p, es[i]) && Settled(es[i]) }

  /** `g` holds the entries `es`, each settled, and keeps everything the catalogue relies on. */
  ghost predicate Keeps(c: Codec, p: Page, key: text -> i32, es: seq<Entry>, g: Files) {
    Sound(c, g) && Indexed(c, key, g) && Count(g) == |es|
    && forall i | 0 <= i < |es| :: SameEntry(es[i], EntryAt(c, p, g, i)) && Settled(EntryAt(c, p, g, i))
  }

  lemma KeepsMore(c: Codec, p: Page, key: text -> i32, es: seq<Entry>, f: Files, e: Entry, g: Files)
    requires Keeps(c, p, key, es, f) && Extends(c, p, f, g) && Count(g) == Count(f) + 1 && Sound(c, g) && Indexed(c, key, g)
    requires SameEntry(e, EntryAt(c, p, g, Count(f))) && Settled(EntryAt(c, p, g, Count(f)))
    ensures Keeps(c, p, key, es + [e], g)
  {
    forall i | 0 <= i < |es + [e]| ensures SameEntry((es + [e])[i], EntryAt(c, p, g, i)) && Settled(EntryAt(c, p, g, i)) {
      if i < |es| {
        assert SameEntry(es[i], EntryAt(c, p, f, i)) && Settled(EntryAt(c, p, f, i));
      }
    }
  }

  lemma TextGrows(c: Codec, p: Page, key: text -> i32, f: Files, e: Entry)
    requires Shaped(e.hdr)
    ensures |f.txt| <= |WriteOne(c, p, key, f, e).txt|
  {}

  lemma LastEntry(es: seq<Entry>)
    requires es != []
    ensures es == es[..|es| - 1] + [es[|es| - 1]]
  {}

  /** Writing settled entries anew keeps each of them. */
  lemma {:induction false} WroteAll(c: Codec, p: Page, key: text -> i32, es: seq<Entry>)
    requires IsCodec(c) && IsPage(p) && AllShaped(es) && AllRead(c, p, es) && |WriteAll(c, p, key, es).txt| < 0x8000_0000
    ensures Keeps(c, p, key, es, WriteAll(c, p, key, es)) && AllDated(c, WriteAll(c, p, key, es))
  {
    WroteDates(c, p, key, es);
    if es == [] {
      assert WriteAll(c, p, key, es) == Files([], [], []);
    } else {
      var k := |es| - 1;
      FrontIsRead(c, p, es);
      LastEntry(es);
      TextGrows(c, p, key, WriteAll(c, p, key, es[..k]), es[k]);
      WroteAll(c, p, key, es[..k]);
      WroteNext(c, p, key, es[..k], WriteAll(c, p, key, es[..k]), es[k]);
    }
  }

  lemma FrontIsRead(c: Codec, p: Page, es: seq<Entry>)
    requires es != [] && AllRead(c, p, es)
    ensures AllRead(c, p, es[..|es| - 1]) && Read(c, p, es[|es| - 1]) && Settled(es[|es| - 1])
  {
    var fs := es[..|es| - 1];
    forall i | 0 <= i < |fs| ensures Read(c, p, fs[i]) && Settled(fs[i]) { assert fs[i] == es[i]; }
  }

  lemma WroteNext(c: Codec, p: Page, key: text -> i32, es: seq<Entry>, f: Files, e: Entry)
    requires IsCodec(c) && IsPage(p) && Keeps(c, p, key, es, f) && Read(c, p, e) && Settled(e) && |f.txt| < 0x8000_0000
    ensures Keeps(c, p, key, es + [e], WriteOne(c, p, key, f, e))
  {
    WroteOne(c, p, key, f, e);
    KeepsMore(c, p, key, es, f, e, WriteOne(c, p, key, f, e));
  }

  /** Whatever the entries are, writing them anew gives every index record the date of its header. */
  lemma {:induction false} WroteDates(c: Codec, p: Page, key: text -> i32, es: seq<Entry>)
    requires IsCodec(c) && AllShaped(es)
    ensures Aligned(WriteAll(c, p, key, es)) && Count(WriteAll(c, p, key, es)) == |es| && AllDated(c, WriteAll(c, p, key, es))
  {
    if es == [] {
      assert WriteAll(c, p, key, es) == Files([], [], []);
    } else {
      var f, e := WriteAll(c, p, key, es[..|es| - 1]), es[|es| - 1];
      WroteDates(c, p, key, es[..|es| - 1]);
      RewrittenIsShaped(c, f, e);
      DatesOfOne(c, key, f, Rewritten(c, f, e), NewTxt(p, e));
    }
  }

  lemma RewrittenIsShaped(c: Codec, f: Files, e: Entry)
    requires IsCodec(c) && Shaped(e.hdr)
    ensures Shaped(Rewritten(c, f, e))
  {
    assert Trusts(0);
  }

  lemma DatesOfOne(c: Codec, key: text -> i32, f: Files, h: FilesHdr, more: seq<byte>)
    requires IsCodec(c) && Aligned(f) && AllDated(c, f) && Shaped(h)
    ensures var g := WithHeader(c, key, f, h, more); Aligned(g) && Count(g) == Count(f) + 1 && AllDated(c, g)
  {
    assert Trusts(0);
    var g := WithHeader(c, key, f, h, more);
    HeaderDates(c, key, f, h, more, Count(f));
    forall k | 0 <= k < Count(g) ensures Dated(c, g, k) {
      HeaderDates(c, key, f, h, more, k);
      if k < Count(f) { assert Dated(c, f, k); }
    }
  }

  /** The entries that are not deleted. */
  function Keepers(es: seq<Entry>): seq<Entry> {
    if es == [] then [] else
    Keepers(es[..|es| - 1]) + (if Deleted(es[|es| - 1].hdr) then [] else [es[|es| - 1]])
  }

  lemma {:induction false} KeeperIs(es: seq<Entry>, i: nat)
    requires i < |Keepers(es)|
    ensures Keepers(es)[i] in es && !Deleted(Keepers(es)[i].hdr)
  {
    if i < |Keepers(es[..|es| - 1])| { KeeperIs(es[..|es| - 1], i); }
  }

  lemma EntriesAreRead(c: Codec, p: Page, f: Files, i: nat)
    requires IsCodec(c) && IsPage(p) && i < Count(f)
    ensures Read(c, p, EntryAt(c, p, f, i))
  {
    assert Trusts(0);
    var ptr := HdrAt(c, f.hdr, i).longDescPtr;
    if 0 <= ptr < |f.txt| { ReadIsClean(p, f.txt, ptr); }
  }

  lemma KeepersAreRead(c: Codec, p: Page, f: Files)
    requires IsCodec(c) && IsPage(p)
    ensures AllShaped(Keepers(Entries(c, p, f))) && (AllSettled(c, p, f) ==> AllRead(c, p, Keepers(Entries(c, p, f))))
  {
    var es := Entries(c, p, f);
    var ks := Keepers(es);
    forall i | 0 <= i < |ks| ensures Read(c, p, ks[i]) && (AllSettled(c, p, f) ==> Settled(ks[i])) {
      KeeperIs(es, i);
      var k :| 0 <= k < |es| && es[k] == ks[i];
      EntriesAreRead(c, p, f, k);
    }
  }

  function Compressed(c: Codec, p: Page, key: text -> i32, f: Files): Files
    requires IsCodec(c) && IsPage(p)
  {
    KeepersAreRead(c, p, f);
    WriteAll(c, p, key, Keepers(Entries(c, p, f)))
  }

  /** Compressing a settled catalogue leaves exactly the undeleted entries, in order, with their descriptions. */
  lemma CompressKeeps(c: Codec, p: Page, key: text -> i32, f: Files)
    requires IsCodec(c) && IsPage(p) && AllSettled(c, p, f) && |Compressed(c, p, key, f).txt| < 0x8000_0000
    ensures var g, ks := Compressed(c, p, key, f), Keepers(Entries(c, p, f));
            Keeps(c, p, key, ks, g) && AllSettled(c, p, g) && AllDated(c, g) && forall i | 0 <= i < |ks| :: !Deleted(EntryAt(c, p, g, i).hdr)
  {
    var ks := Keepers(Entries(c, p, f));
    KeepersAreRead(c, p, f);
    WroteAll(c, p, key, ks);
    forall i | 0 <= i < |ks| ensures !Deleted(EntryAt(c, p, WriteAll(c, p, key, ks), i).hdr) {
      KeeperIs(Entries(c, p, f), i);
      assert SameEntry(ks[i], EntryAt(c, p, WriteAll(c, p, key, ks), i)) && !Deleted(ks[i].hdr);
    }
  }

  // ---------------------------------------------------------------- what compressing can lose

  predicate NoInk(es: seq<Entry>) { forall i | 0 <= i < |es| :: Blank(es[i].desc) }

  /** The new text file is empty, or what it starts with is not blank. */
  predicate StartsWithInk(p: Page, txt: seq<byte>) {
    Terminated(txt) && (txt != [] ==> !Blank(DescAt(p, txt, 0)))
  }

  lemma MoreInk(p: Page, txt: seq<byte>, e: Entry)
    requires IsPage(p) && Clean(p, e.desc) && StartsWithInk(p, txt)
    ensures StartsWithInk(p, txt + NewTxt(p, e)) && (txt + NewTxt(p, e) == [] <==> txt == [] && Blank(e.desc))
  {
    if Blank(e.desc) {
      assert txt + NewTxt(p, e) == txt;
    } else if txt == [] {
      StoredDesc(p, txt, e.desc, 0);
    } else {
      DescStays(p, txt, NewTxt(p, e), 0);
    }
  }

  ghost predicate AllClean(c: Codec, p: Page, es: seq<Entry>) { forall i | 0 <= i < |es| :: Read(c, p, es[i]) }

  lemma {:induction false} TextOfAll(c: Codec, p: Page, key: text -> i32, es: seq<Entry>)
    requires IsPage(p) && AllShaped(es) && AllClean(c, p, es)
    ensures StartsWithInk(p, WriteAll(c, p, key, es).txt) && (WriteAll(c, p, key, es).txt == [] <==> NoInk(es))
  {
    if es != [] {
      var fs, e := es[..|es| - 1], es[|es| - 1];
      forall i | 0 <= i < |fs| ensures Read(c, p, fs[i]) { assert fs[i] == es[i]; }
      assert Read(c, p, e);
      TextOfAll(c, p, key, fs);
      MoreInk(p, WriteAll(c, p, key, fs).txt, e);
      InkOfMore(fs, e);
      LastEntry(es);
    }
  }

  lemma InkOfMore(es: seq<Entry>, e: Entry)
    ensures NoInk(es + [e]) <==> NoInk(es) && Blank(e.desc)
  {
    var fs := es + [e];
    if NoInk(fs) {
      forall i | 0 <= i < |es| ensures Blank(es[i].desc) { assert fs[i] == es[i]; }
      assert fs[|es|] == e;
    }
  }

  lemma AddedHeader(c: Codec, p: Page, key: text -> i32, f: Files, e: Entry, j: nat)
    requires IsCodec(c) && Aligned(f) && Shaped(e.hdr) && c.holds(e.hdr) && j <= Count(f)
    ensures Aligned(WriteOne(c, p, key, f, e)) && Count(WriteOne(c, p, key, f, e)) == Count(f) + 1
    ensures HdrAt(c, WriteOne(c, p, key, f, e).hdr, j).longDescPtr
            == if j < Count(f) then HdrAt(c, f.hdr, j).longDescPtr else NewPtr(f.txt, e)
  {
    assert Trusts(0);
    var h := Rewritten(c, f, e);
    RewrittenReadsBack(c, f, e);
    assert |HeaderToIdx(key, h).keywordCRC| == 5;
    SlotsStay(c, f, c.hdr(h), c.idx(HeaderToIdx(key, h)), NewTxt(p, e), j);
  }

  /** The text file that rewriting these entries makes, whatever their headers. */
  function TextOf(p: Page, es: seq<Entry>): seq<byte> {
    if es == [] then [] else TextOf(p, es[..|es| - 1]) + NewTxt(p, es[|es| - 1])
  }

  lemma {:induction false} TextIsThat(c: Codec, p: Page, key: text -> i32, es: seq<Entry>)
    requires AllShaped(es)
    ensures WriteAll(c, p, key, es).txt == TextOf(p, es)
  {
    if es != [] { TextIsThat(c, p, key, es[..|es| - 1]); }
  }

  lemma {:induction false} TextAround(p: Page, es: seq<Entry>, j: nat) returns (more: seq<byte>)
    requires j < |es|
    ensures TextOf(p, es) == TextOf(p, es[..j]) + NewTxt(p, es[j]) + more
    decreases |es|
  {
    var k := |es| - 1;
    TextLast(p, es);
    if j == k {
      more := [];
    } else {
      var less := TextAround(p, es[..k], j);
      SameFront(es, j, k);
      more := less + NewTxt(p, es[k]);
      Behind(TextOf(p, es), TextOf(p, es[..k]), TextOf(p, es[..j]) + NewTxt(p, es[j]), less, NewTxt(p, es[k]));
    }
  }

  lemma TextLast(p: Page, es: seq<Entry>)
    requires es != []
    ensures TextOf(p, es) == TextOf(p, es[..|es| - 1]) + NewTxt(p, es[|es| - 1]) == TextOf(p, es) + []
  {}

  lemma Behind(whole: seq<byte>, front: seq<byte>, a: seq<byte>, b: seq<byte>, c: seq<byte>)
    requires whole == front + c && front == a + b
    ensures whole == a + (b + c)
  {}

  lemma SameFront(es: seq<Entry>, j: nat, k: nat)
    requires j < k <= |es|
    ensures es[..k][..j] == es[..j] && es[..k][j] == es[j]
  {}

  lemma FrontIsClean(c: Codec, p: Page, es: seq<Entry>)
    requires es != [] && AllClean(c, p, es)
    ensures AllClean(c, p, es[..|es| - 1]) && Read(c, p, es[|es| - 1])
  {
    var fs := es[..|es| - 1];
    forall i | 0 <= i < |fs| ensures Read(c, p, fs[i]) { assert fs[i] == es[i]; }
  }

  /** Where each rewritten header points: behind the text of the entries before it, or where it did. */
  lemma {:induction false} PointersOf(c: Codec, p: Page, key: text -> i32, es: seq<Entry>, j: nat)
    requires IsCodec(c) && AllShaped(es) && AllClean(c, p, es) && j <= |es|
    ensures Aligned(WriteAll(c, p, key, es)) && Count(WriteAll(c, p, key, es)) == |es|
    ensures j < |es| ==> HdrAt(c, WriteAll(c, p, key, es).hdr, j).longDescPtr == NewPtr(TextOf(p, es[..j]), es[j])
  {
    if es == [] {
      assert WriteAll(c, p, key, es) == Files([], [], []);
    } else {
      var k := |es| - 1;
      FrontIsClean(c, p, es);
      PointersOf(c, p, key, es[..k], if j < k then j else k);
      TextIsThat(c, p, key, es[..k]);
      AddedHeader(c, p, key, WriteAll(c, p, key, es[..k]), es[k], if j < |es| then j else k);
      if j < k { assert es[..k][..j] == es[..j] && es[..k][j] == es[j]; }
    }
  }

  /** `ptr` leads into the text that entry `i` gets in the new file. */
  predicate Spans(p: Page, es: seq<Entry>, i: nat, ptr: int)
    requires i < |es|
  {
    0 <= ptr - |TextOf(p, es[..i])| < |NewTxt(p, es[i])|
  }

  /** `ptr` leads into the text of entry `i`, which from there on is `d`. */
  predicate TailAt(p: Page, es: seq<Entry>, i: nat, ptr: int, d: text)
    requires i < |es|
  {
    Spans(p, es, i, ptr) && DescAt(p, NewTxt(p, es[i]), ptr - |TextOf(p, es[..i])|) == d
  }

  ghost predicate TailIs(p: Page, es: seq<Entry>, ptr: int, d: text) {
    exists i: nat :: i < |es| && TailAt(p, es, i, ptr, d)
  }

  /** Every place in the new file lies in the text of some entry. */
  lemma {:induction false} SomeSpans(p: Page, es: seq<Entry>, ptr: nat) returns (i: nat)
    requires ptr < |TextOf(p, es)|
    ensures i < |es| && Spans(p, es, i, ptr)
  {
    var k := |es| - 1;
    i := k;
    if ptr < |TextOf(p, es[..k])| {
      i := SomeSpans(p, es[..k], ptr);
      SameFront(es, i, k);
    }
  }

  /** What is read there is the rest of that text. */
  lemma SpanRead(p: Page, es: seq<Entry>, i: nat, ptr: nat)
    requires i < |es| && Spans(p, es, i, ptr)
    ensures ptr < |TextOf(p, es)| && DescAt(p, TextOf(p, es), ptr) == DescAt(p, NewTxt(p, es[i]), ptr - |TextOf(p, es[..i])|)
  {
    var more := TextAround(p, es, i);
    DescInside(p, TextOf(p, es[..i]), NewTxt(p, es[i]), more, ptr - |TextOf(p, es[..i])|);
  }

  lemma TailExactly(p: Page, es: seq<Entry>, ptr: int, d: text)
    ensures DescOf(p, TextOf(p, es), ptr) == d <==> if 0 <= ptr < |TextOf(p, es)| then TailIs(p, es, ptr, d) else d == []
  {
    if 0 <= ptr < |TextOf(p, es)| { TailInside(p, es, ptr, d); }
  }

  lemma TailRead(p: Page, es: seq<Entry>, i: nat, ptr: nat, d: text)
    requires i < |es| && Spans(p, es, i, ptr)
    ensures ptr < |TextOf(p, es)| && (TailAt(p, es, i, ptr, d) <==> DescAt(p, TextOf(p, es), ptr) == d)
  {
    SpanRead(p, es, i, ptr);
  }

  lemma TailFound(p: Page, es: seq<Entry>, ptr: nat, d: text)
    requires TailIs(p, es, ptr, d) && ptr < |TextOf(p, es)|
    ensures DescAt(p, TextOf(p, es), ptr) == d
  {
    var i: nat :| i < |es| && TailAt(p, es, i, ptr, d);
    TailRead(p, es, i, ptr, d);
  }

  lemma TailInside(p: Page, es: seq<Entry>, ptr: nat, d: text)
    requires ptr < |TextOf(p, es)|
    ensures DescAt(p, TextOf(p, es), ptr) == d <==> TailIs(p, es, ptr, d)
  {
    var k := SomeSpans(p, es, ptr);
    TailRead(p, es, k, ptr, d);
    if TailIs(p, es, ptr, d) { TailFound(p, es, ptr, d); }
  }

  /** A description survives rewriting exactly when its entry is settled; or the old pointer leads into the new text of
      some entry, which from there on is the same; or the pointer leads nowhere and the description is empty. */
  lemma RewriteExact(c: Codec, p: Page, key: text -> i32, es: seq<Entry>, j: nat)
    requires IsCodec(c) && IsPage(p) && AllShaped(es) && AllClean(c, p, es) && j < |es| && |TextOf(p, es)| < 0x8000_0000
    ensures Count(WriteAll(c, p, key, es)) == |es|
    ensures var ptr, d := es[j].hdr.longDescPtr, es[j].desc;
            EntryAt(c, p, WriteAll(c, p, key, es), j).desc == d <==>
            Settled(es[j]) || if 0 <= ptr < |TextOf(p, es)| then TailIs(p, es, ptr, d) else d == []
  {
    PointersOf(c, p, key, es, j);
    TextIsThat(c, p, key, es);
    TailExactly(p, es, es[j].hdr.longDescPtr, es[j].desc);
    var more := TextAround(p, es, j);
    if Settled(es[j]) { SettledDesc(p, TextOf(p, es[..j]), es[j], more); }
  }

  lemma SettledDesc(p: Page, front: seq<byte>, e: Entry, more: seq<byte>)
    requires IsPage(p) && Clean(p, e.desc) && Settled(e) && |front| < 0x8000_0000
    ensures DescOf(p, front + NewTxt(p, e) + more, NewPtr(front, e)) == e.desc
  {
    if !Blank(e.desc) { InkDesc(p, front, e.desc, more, NewPtr(front, e)); }
  }

  lemma InkDesc(p: Page, front: seq<byte>, d: text, more: seq<byte>, ptr: int)
    requires IsPage(p) && Clean(p, d) && ptr == |front|
    ensures DescOf(p, front + Stored(p, d) + more, ptr) == d
  {
    DescReadsBack(p, front, d, more);
  }

  /** So a blank description at the start of the old file is kept exactly when it is empty and no entry has one that is
      not blank. */
  lemma ZeroPointer(c: Codec, p: Page, key: text -> i32, es: seq<Entry>, j: nat)
    requires IsCodec(c) && IsPage(p) && AllShaped(es) && AllClean(c, p, es) && j < |es|
    requires es[j].hdr.longDescPtr == 0 && Blank(es[j].desc)
    ensures Count(WriteAll(c, p, key, es)) == |es|
    ensures EntryAt(c, p, WriteAll(c, p, key, es), j).desc == es[j].desc <==> es[j].desc == [] && NoInk(es)
  {
    PointersOf(c, p, key, es, j);
    TextOfAll(c, p, key, es);
  }

  /** A blank description of one space in front of the description "A": after rewriting it reads "A". */
  lemma BlankTakesAnother(c: Codec, p: Page, key: text -> i32, h: FilesHdr)
    requires IsCodec(c) && IsPage(p) && Shaped(h) && c.holds(h)
    ensures var es := [Entry(h.(longDescPtr := 0), [32]), Entry(h.(longDescPtr := 2), [65])];
            AllShaped(es) && Count(WriteAll(c, p, key, es)) == 2
            && DescOf(p, [32, 0, 65, 0], 0) == [32] && DescOf(p, [32, 0, 65, 0], 2) == [65]
            && EntryAt(c, p, WriteAll(c, p, key, es), 0).desc == [65]
  {
    var a, b := Entry(h.(longDescPtr := 0), [32]), Entry(h.(longDescPtr := 2), [65]);
    TwoAreClean(c, p, h, a, b);
    SpaceThenLetter(p);
    LetterStored(p);
    TwoTexts(p, a, b);
    ZeroMoves(c, p, key, [a, b]);
  }

  lemma TwoAreClean(c: Codec, p: Page, h: FilesHdr, a: Entry, b: Entry)
    requires IsCodec(c) && IsPage(p) && Shaped(h) && c.holds(h)
    requires a == Entry(h.(longDescPtr := 0), [32]) && b == Entry(h.(longDescPtr := 2), [65])
    ensures AllShaped([a, b]) && AllClean(c, p, [a, b])
  {
    assert Trusts(0) && SameText(a.hdr, h) && SameText(b.hdr, h);
    AsciiStays(p, 32);
    AsciiStays(p, 65);
  }

  lemma TwoTexts(p: Page, a: Entry, b: Entry)
    requires a.desc == [32] && b.desc == [65]
    ensures TextOf(p, [a, b]) == Stored(p, [65])
  {
    assert [a, b][..1] == [a] && [a][..0] == [];
    assert TextOf(p, [a]) == [] + [];
  }

  lemma ZeroMoves(c: Codec, p: Page, key: text -> i32, es: seq<Entry>)
    requires IsCodec(c) && AllShaped(es) && AllClean(c, p, es) && es != [] && es[0].hdr.longDescPtr == 0 && es[0].desc == [32]
    ensures Count(WriteAll(c, p, key, es)) == |es|
    ensures EntryAt(c, p, WriteAll(c, p, key, es), 0).desc == DescOf(p, TextOf(p, es), 0)
  {
    PointersOf(c, p, key, es, 0);
    TextIsThat(c, p, key, es);
  }

  lemma AsciiStays(p: Page, c: byte)
    requires IsPage(p) && 32 <= c < 128
    ensures Clean(p, [c]) && p.encode(c) == c
  {
    assert p.decode(c) == c && p.encode(p.decode(c)) == c;
  }

  lemma LetterBytes(p: Page, c: byte)
    requires IsPage(p) && 32 <= c < 128
    ensures Stored(p, [c]) == [c, 0]
  {
    AsciiStays(p, c);
    assert AddCr([c]) == [c] by { assert [c][1..] == []; }
  }

  lemma LetterStored(p: Page)
    requires IsPage(p)
    ensures DescOf(p, Stored(p, [65]), 0) == [65]
  {
    AsciiStays(p, 65);
    DescReadsBack(p, [], [65], []);
    assert [] + Stored(p, [65]) + [] == Stored(p, [65]);
  }

  lemma SpaceThenLetter(p: Page)
    requires IsPage(p)
    ensures DescOf(p, [32, 0, 65, 0], 0) == [32] && DescOf(p, [32, 0, 65, 0], 2) == [65]
  {
    AsciiStays(p, 32);
    AsciiStays(p, 65);
    LetterBytes(p, 32);
    LetterBytes(p, 65);
    DescReadsBack(p, [], [32], [65, 0]);
    assert [] + [32, 0] + [65, 0] == [32, 0, 65, 0];
    DescReadsBack(p, [32, 0], [65], []);
    assert [32, 0] + [65, 0] + [] == [32, 0, 65, 0];
  }

  // ---------------------------------------------------------------- looking a file up

  function TrimLeft(s: text): text { if s != [] && IsSpace(s[0]) then TrimLeft(s[1..]) else s }

  function TrimRight(s: text): text { if s != [] && IsSpace(s[|s| - 1]) then TrimRight(s[..|s| - 1]) else s }

  function TrimSpace(s: text): text { TrimRight(TrimLeft(s)) }

  /** The first NUL at or after `i`, or `limit`. */
  function NulFrom(b: seq<byte>, i: nat, limit: nat): (e: nat)
    requires i <= limit <= |b|
    ensures i <= e <= limit
    decreases limit - i
  {
    if i == limit || b[i] == 0 then i else NulFrom(b, i + 1, limit)
  }

  /** The long name the header points to, in the text file or, where that is empty, in the name file; else its own name. */
  function LongName(p: Page, txt: seq<byte>, lfn: seq<byte>, h: FilesHdr): text {
    var short := TrimSpace(h.name);
    var raw := if |txt| > 0 then txt else lfn;
    if h.lfnPtr <= 0 || h.lfnPtr >= |raw| then short else
    var off: nat := h.lfnPtr;
    var s := TrimSpace(Decoded(p, raw[off..NulFrom(raw, off, Least(off + 255, |raw|))]));
    if s == [] then short else s
  }

  /** The first entry from `i` on that a test picks; the number of entries if there is none. */
  function FirstWith(es: seq<Entry>, test: FilesHdr -> bool, i: nat): (k: nat)
    requires i <= |es|
    ensures i <= k <= |es| && (k < |es| ==> test(es[k].hdr)) && forall j | i <= j < k :: !test(es[j].hdr)
    decreases |es| - i
  {
    if i == |es| || test(es[i].hdr) then i else FirstWith(es, test, i + 1)
  }

  function Called(same: (text, text) -> bool, name: text): FilesHdr -> bool {
    h => !Deleted(h) && same(h.name, name)
  }

  function Numbered(num: u16): FilesHdr -> bool { (h: FilesHdr) => h.recordNum == num }

  /** The header with the deletion bit set. */
  function Marked(h: FilesHdr): FilesHdr { if Deleted(h) then h else h.(attrib := h.attrib + 1) }

  function Bumped(h: FilesHdr): FilesHdr { h.(timesDL := (h.timesDL + 1) % 0x1_0000) }

  function Known(p: Page, same: (text, text) -> bool, txt: seq<byte>, lfn: seq<byte>, name: text): FilesHdr -> bool {
    h => !Deleted(h) && (same(h.name, name) || same(LongName(p, txt, lfn, h), name))
  }

  // ---------------------------------------------------------------- the catalogue itself

  class Fdb {
    const C: Codec
    const P: Page
    const Key: text -> i32
    const Same: (text, text) -> bool
    var hdr: seq<byte>
    var idx: seq<byte>
    var txt: seq<byte>

    ghost predicate Valid()
      reads this
    {
      IsCodec(C) && IsPage(P)
    }

    function State(): Files
      reads this
    {
      Files(hdr, idx, txt)
    }

    /** A new area: no files yet. */
    constructor (c: Codec, p: Page, key: text -> i32, same: (text, text) -> bool)
      requires IsCodec(c) && IsPage(p)
      ensures Valid() && C == c && P == p && Key == key && Same == same && State() == Files([], [], [])
    {
      C, P, Key, Same := c, p, key, same;
      hdr, idx, txt := [], [], [];
    }

    method ReadFDB() returns (es: seq<Entry>)
      requires Valid()
      ensures es == Entries(C, P, State())
    {
      es := [];
      var n := |hdr| / HDR_SIZE;
      var i := 0;
      while i < n
        invariant 0 <= i <= n && |es| == i && forall k | 0 <= k < i :: es[k] == EntryAt(C, P, State(), k)
      {
        var h := C.parse(hdr[i * HDR_SIZE..(i + 1) * HDR_SIZE], i % 0x1_0000);
        var desc: text := [];
        if h.longDescPtr >= 0 && h.longDescPtr < |txt| {
          var end := FindEnd(txt, h.longDescPtr);
          desc := Normal(Decoded(P, txt[h.longDescPtr..end]));
        }
        es := es + [Entry(h, desc)];
        i := i + 1;
      }
    }

    method AppendDescription(raw: seq<byte>) returns (ptr: i32)
      modifies this`txt
      ensures txt == old(txt) + Ended(raw) && ptr == PtrFor(old(txt), raw)
    {
      if |raw| == 0 { return -1; }
      var b := raw;
      if b[|b| - 1] != 0 {
        b := b + [0];
      }
      var off := |txt|;
      txt := txt + b;
      return Int32(off);
    }

    method AddHeader(h: FilesHdr)
      requires Shaped(h)
      modifies this`hdr, this`idx
      ensures txt == old(txt) && hdr == old(hdr) + C.hdr(Named(C, h))
      ensures idx == old(idx) + C.idx(HeaderToIdx(Key, Named(C, h)))
    {
      var g := h;
      if g.nameRaw[0] == 0 && g.name != [] {
        g := g.(nameRaw := C.pack(g.name));
      }
      hdr := hdr + C.hdr(g);
      idx := idx + C.idx(HeaderToIdx(Key, g));
    }

    method WriteHdr(rec: int, h: FilesHdr) returns (ok: bool)
      requires Shaped(h)
      modifies this`hdr
      ensures ok == (rec >= 0)
      ensures hdr == if rec >= 0 then Overwritten(old(hdr), rec * HDR_SIZE, C.hdr(Named(C, h))) else old(hdr)
    {
      if rec < 0 { return false; }
      var g := h;
      if g.nameRaw[0] == 0 && g.name != [] {
        g := g.(nameRaw := C.pack(g.name));
      }
      hdr := Overwritten(hdr, rec * HDR_SIZE, C.hdr(g));
      return true;
    }

    method AddLfnPtr(u: Upload) returns (ptr: i32, short: text)
      modifies this`txt
      ensures txt == old(txt) + Ended(LongRaw(P, u)) && ptr == PtrFor(old(txt), LongRaw(P, u)) && short == ShortName(u)
    {
      short := u.name;
      if !u.long { return -1, short; }
      ptr := AppendDescription(Encoded(P, u.name));
      if u.dosName != [] {
        short := u.dosName;
      }
    }

    /** Catalogues an upload unless a live entry has its name. */
    method CatalogFrom(u: Upload) returns (ok: bool)
      requires Valid() && Sound(C, State()) && |txt| + |Ended(LongRaw(P, u))| < 0x8000_0000
      modifies this`hdr, this`idx, this`txt
      ensures ok == forall i | 0 <= i < Count(old(State())) :: !Called(Same, u.name)(HdrAt(C, old(hdr), i))
      ensures State() == if ok then Cataloged(C, P, Key, old(State()), u) else old(State())
      ensures Valid() && Sound(C, State()) && Extends(C, P, old(State()), State())
      ensures Indexed(C, Key, old(State())) ==> Indexed(C, Key, State())
    {
      ghost var f := State();
      var ents := ReadFDB();
      var i := 0;
      while i < |ents|
        invariant 0 <= i <= |ents| && State() == f
        invariant forall k | 0 <= k < i :: !Called(Same, u.name)(HdrAt(C, f.hdr, k))
      {
        if !Deleted(ents[i].hdr) && Same(ents[i].hdr.name, u.name) {
          assert Called(Same, u.name)(HdrAt(C, f.hdr, i));
          return false;
        }
        i := i + 1;
      }
      AddNew(u);
      CatalogedExtends(C, P, Key, f, u);
      return true;
    }

    /** The records and texts of a new entry. */
    method AddNew(u: Upload)
      requires Valid()
      modifies this`hdr, this`idx, this`txt
      ensures State() == Cataloged(C, P, Key, old(State()), u)
    {
      ghost var f := State();
      var lfnPtr, short := AddLfnPtr(u);
      var ptr := AddDesc(u);
      var h := FilesHdr(short, C.pack(short), u.size, 0xFFFF_FFFF, u.uploader, u.now, u.fileDate, u.now, 0, u.attrib, [],
                        NO_KEYWORDS, u.cost, ptr, lfnPtr, 0);
      Regroup(f.txt, Ended(LongRaw(P, u)), Ended(DescRaw(P, u)));
      NamedNew(C, P, f.txt, u);
      AddHeader(h);
    }

    method AddDesc(u: Upload) returns (ptr: i32)
      modifies this`txt
      ensures txt == old(txt) + Ended(DescRaw(P, u)) && ptr == PtrFor(old(txt), DescRaw(P, u))
    {
      ptr := -1;
      if !Blank(u.desc) {
        ptr := AppendDescription(Encoded(P, u.desc));
      }
    }

    /** An upload of a file that may be known: its entry is brought up to date in place, or a new one is added. */
    method AfterUpload(u: Upload, lfn: seq<byte>) returns (at: nat)
      requires Valid() && Sound(C, State()) && |txt| + |Ended(LongRaw(P, u))| < 0x8000_0000 && u.desc == []
      modifies this`hdr, this`idx, this`txt
      ensures at == FirstWith(Entries(C, P, old(State())), Known(P, Same, old(txt), lfn, u.name), 0)
      ensures at < Count(old(State())) ==> State() == Updated(C, old(State()), at, u)
      ensures at == Count(old(State())) ==> State() == Cataloged(C, P, Key, old(State()), u)
      ensures Valid() && Sound(C, State())
      ensures Indexed(C, Key, old(State())) ==> Indexed(C, Key, State())
    {
      ghost var f := State();
      var ents := ReadFDB();
      at := FindKnown(ents, lfn, u.name);
      if at < |ents| {
        UpdateInPlace(u, at, ents[at].hdr);
        UpdateKeeps(C, P, Key, f, at, u);
        return;
      }
      NoneIsCalled(C, P, Same, f, lfn, u.name);
      var _ := CatalogFrom(u);
    }

    method FindKnown(ents: seq<Entry>, lfn: seq<byte>, name: text) returns (at: nat)
      ensures at == FirstWith(ents, Known(P, Same, txt, lfn, name), 0)
    {
      ghost var test := Known(P, Same, txt, lfn, name);
      at := 0;
      while at < |ents|
        invariant 0 <= at <= |ents|
        invariant FirstWith(ents, test, at) == FirstWith(ents, test, 0)
      {
        var h := ents[at].hdr;
        if !Deleted(h) && (Same(h.name, name) || Same(LongName(P, txt, lfn, h), name)) {
          assert test(h);
          return;
        }
        assert !test(h);
        at := at + 1;
      }
    }

    method UpdateInPlace(u: Upload, i: nat, h0: FilesHdr)
      requires Valid() && i < Count(State()) && h0 == HdrAt(C, hdr, i)
      modifies this`hdr
      ensures State() == Updated(C, old(State()), i, u)
    {
      var h := h0;
      h := h.(crc32 := u.crc);
      h := h.(size := u.size);
      h := h.(fileDate := u.fileDate);
      h := h.(uploadDate := u.now);
      h := h.(lastDL := u.now);
      ParsedHolds(C, hdr, i);
      NamedHeld(C, h0);
      var _ := WriteHdr(i, h);
    }

    /** Deletes the first entry with record number `num`, by marking its header. */
    method Delete(num: u16) returns (at: nat)
      requires Valid() && Sound(C, State())
      modifies this`hdr
      ensures at == FirstWith(Entries(C, P, old(State())), Numbered(num), 0)
      ensures if at < Count(old(State()))
              then Shaped(HdrAt(C, old(hdr), at)) && State() == Replaced(C, old(State()), at, Marked(HdrAt(C, old(hdr), at)))
              else State() == old(State())
      ensures Sound(C, State())
    {
      ghost var f := State();
      var ents := ReadFDB();
      at := FindNumber(ents, num);
      if at < |ents| {
        var h := ents[at].hdr;
        h := Marked(h);
        ParsedHolds(C, hdr, at);
        ReplaceKeeps(C, P, Key, f, at, h);
        var _ := WriteHdr(at, h);
      }
    }

    method FindNumber(ents: seq<Entry>, num: u16) returns (at: nat)
      ensures at == FirstWith(ents, Numbered(num), 0)
    {
      at := 0;
      while at < |ents| && ents[at].hdr.recordNum != num
        invariant 0 <= at <= |ents|
        invariant FirstWith(ents, Numbered(num), at) == FirstWith(ents, Numbered(num), 0)
      {
        at := at + 1;
      }
    }

    /** Counts one more download of entry `rec`, if there is one; the counter has 16 bits. */
    method BumpTimesDL(rec: u16)
      requires Valid() && Sound(C, State())
      modifies this`hdr
      ensures if rec < Count(old(State()))
              then Shaped(HdrAt(C, old(hdr), rec)) && State() == Replaced(C, old(State()), rec, Bumped(HdrAt(C, old(hdr), rec)))
              else State() == old(State())
      ensures Sound(C, State())
    {
      ghost var f := State();
      var ents := ReadFDB();
      if rec >= |ents| { return; }
      var h := Bumped(ents[rec].hdr);
      ParsedHolds(C, hdr, rec);
      ReplaceKeeps(C, P, Key, f, rec, h);
      var _ := WriteHdr(rec, h);
    }

    /** Header and text of entry `i` behind text `t`. */
    method Renew(i: nat, t: seq<byte>, e: Entry, ghost f: Files) returns (g: FilesHdr, more: seq<byte>)
      requires Shaped(e.hdr) && i == Count(f) && t == f.txt
      ensures g == Rewritten(C, f, e) && more == NewTxt(P, e)
    {
      g := e.hdr.(recordNum := i % 0x1_0000);
      more := [];
      if !Blank(e.desc) {
        g := g.(longDescPtr := Int32(|t|));
        more := Encoded(P, AddCr(e.desc)) + [0];
      } else if g.longDescPtr > 0 && e.desc == [] {
        g := g.(longDescPtr := -1);
      }
      if g.nameRaw[0] == 0 && g.name != [] {
        g := g.(nameRaw := C.pack(g.name));
      }
    }

    method WriteFDB(entries: seq<Entry>)
      requires Valid() && AllShaped(entries)
      modifies this`hdr, this`idx, this`txt
      ensures State() == WriteAll(C, P, Key, entries)
    {
      var h, x, t: seq<byte> := [], [], [];
      var i := 0;
      while i < |entries|
        invariant 0 <= i <= |entries|
        invariant Files(h, x, t) == WriteAll(C, P, Key, entries[..i]) && Count(Files(h, x, t)) == i && |h| % HDR_SIZE == 0
      {
        var g, more := Renew(i, t, entries[i], Files(h, x, t));
        CountGrows(C, P, Key, Files(h, x, t), entries[i]);
        h := h + C.hdr(g);
        x := x + C.idx(HeaderToIdx(Key, g));
        t := t + more;
        assert entries[..i + 1][..i] == entries[..i];
        i := i + 1;
      }
      assert entries[..i] == entries;
      hdr, idx, txt := h, x, t;
    }

    /** Drops the deleted entries and writes the others anew. */
    method Compress() returns (removed: nat)
      requires Valid()
      modifies this`hdr, this`idx, this`txt
      ensures Valid() && State() == Compressed(C, P, Key, old(State()))
      ensures removed == Count(old(State())) - |Keepers(Entries(C, P, old(State())))|
    {
      ghost var f := State();
      var ents := ReadFDB();
      var keep: seq<Entry> := [];
      removed := 0;
      var i := 0;
      while i < |ents|
        invariant 0 <= i <= |ents| && State() == f
        invariant keep == Keepers(ents[..i]) && removed == i - |keep|
      {
        assert ents[..i + 1][..i] == ents[..i];
        if Deleted(ents[i].hdr) {
          removed := removed + 1;
        } else {
          keep := keep + [ents[i]];
        }
        i := i + 1;
      }
      assert ents[..i] == ents;
      KeepersAreRead(C, P, f);
      WriteFDB(keep);
    }
  }

  lemma CountGrows(c: Codec, p: Page, key: text -> i32, f: Files, e: Entry)
    requires IsCodec(c) && Shaped(e.hdr) && |f.hdr| % HDR_SIZE == 0
    ensures Count(WriteOne(c, p, key, f, e)) == Count(f) + 1 && |WriteOne(c, p, key, f, e).hdr| % HDR_SIZE == 0
  {
    assert Trusts(0);
    assert Shaped(Rewritten(c, f, e));
  }

  lemma NamedNew(c: Codec, p: Page, txt: seq<byte>, u: Upload)
    requires IsCodec(c)
    ensures Shaped(NewHeader(c, p, txt, u)) && Named(c, NewHeader(c, p, txt, u)) == NewHeader(c, p, txt, u)
  {
    assert Trusts(0);
  }

  lemma NamedHeld(c: Codec, h: FilesHdr)
    requires IsCodec(c) && Shaped(h) && c.holds(h)
    ensures forall u: Upload :: Named(c, Refreshed(h, u)) == Refreshed(h, u)
  {
    assert Trusts(0);
  }

  lemma ParsedHolds(c: Codec, hdr: seq<byte>, i: nat)
    requires IsCodec(c) && i < |hdr| / HDR_SIZE
    ensures Shaped(HdrAt(c, hdr, i)) && c.holds(HdrAt(c, hdr, i))
  {
    assert Trusts(0);
  }

  /** Where no entry is known by the name, none is called by it. */
  lemma NoneIsCalled(c: Codec, p: Page, same: (text, text) -> bool, f: Files, lfn: seq<byte>, name: text)
    requires FirstWith(Entries(c, p, f), Known(p, same, f.txt, lfn, name), 0) == Count(f)
    ensures forall i | 0 <= i < Count(f) :: !Called(same, name)(HdrAt(c, f.hdr, i))
  {
    var es := Entries(c, p, f);
    forall i | 0 <= i < Count(f) ensures !Called(same, name)(HdrAt(c, f.hdr, i)) {
      assert !Known(p, same, f.txt, lfn, name)(es[i].hdr);
    }
  }
}
