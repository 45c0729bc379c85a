/** The records of the file catalogue and of the user base. */
module FileRecords {
  import opened Bytes
  import opened CodePage
  import opened PascalStrings
  import opened PascalRecords

  const HDR_SIZE: nat := 194
  const IDX_SIZE: nat := 41
  const USER_SIZE: nat := 1016

  datatype FilesHdr = FilesHdr(name: text, nameRaw: seq<byte>, size: u32, crc32: u32, uploader: text, uploadDate: u32,
                               fileDate: u32, lastDL: u32, timesDL: u16, attrib: byte, password: text,
                               keywords: seq<text>, cost: u16, longDescPtr: i32, lfnPtr: i32, recordNum: u16)

  datatype FilesIdx = FilesIdx(name: text, uploadDate: u32, keywordCRC: seq<i32>, longDescPtr: i32)

  /** The two fields that are arrays have their lengths. */
  predicate Shaped(h: FilesHdr) { |h.nameRaw| == 13 && |h.keywords| == 5 }

  const HDR: Layout := [Raw(13), U32, U32, Str(35), U32, U32, U32, U16, U8, Str(15),
                        Str(15), Str(15), Str(15), Str(15), Str(15), U16, I32, I32]

  const IDX: Layout := [Str(12), U32, I32, I32, I32, I32, I32, I32]

  /** The name as stored: a header made by hand may have only the text. */
  function StoredName(p: Page, h: FilesHdr): seq<byte>
    requires Shaped(h)
  {
    if h.nameRaw[0] == 0 && h.name != [] then Packed(p, 12, h.name) else h.nameRaw
  }

  function HdrValues(p: Page, h: FilesHdr): (vs: seq<Value>)
    requires Shaped(h)
    ensures AllMatch(HDR, vs)
  {
    [Octets(StoredName(p, h)), Number(h.size), Number(h.crc32), Text(h.uploader), Number(h.uploadDate), Number(h.fileDate),
     Number(h.lastDL), Number(h.timesDL), Number(h.attrib), Text(h.password),
     Text(h.keywords[0]), Text(h.keywords[1]), Text(h.keywords[2]), Text(h.keywords[3]), Text(h.keywords[4]),
     Number(h.cost), Number(h.longDescPtr), Number(h.lfnPtr)]
  }

  function IdxValues(x: FilesIdx): (vs: seq<Value>)
    requires |x.keywordCRC| == 5
    ensures AllMatch(IDX, vs)
  {
    [Text(x.name), Number(x.uploadDate), Number(x.keywordCRC[0]), Number(x.keywordCRC[1]), Number(x.keywordCRC[2]),
     Number(x.keywordCRC[3]), Number(x.keywordCRC[4]), Number(x.longDescPtr)]
  }

  function HdrOf(p: Page, vs: seq<Value>, rec: u16): (h: FilesHdr)
    requires AllMatch(HDR, vs)
    ensures Shaped(h)
  {
    assert Matches(HDR[0], vs[0]) && Matches(HDR[1], vs[1]) && Matches(HDR[2], vs[2]) && Matches(HDR[3], vs[3])
        && Matches(HDR[4], vs[4]) && Matches(HDR[5], vs[5]) && Matches(HDR[6], vs[6]) && Matches(HDR[7], vs[7])
        && Matches(HDR[8], vs[8]) && Matches(HDR[9], vs[9]) && Matches(HDR[10], vs[10]) && Matches(HDR[11], vs[11])
        && Matches(HDR[12], vs[12]) && Matches(HDR[13], vs[13]) && Matches(HDR[14], vs[14]) && Matches(HDR[15], vs[15])
        && Matches(HDR[16], vs[16]) && Matches(HDR[17], vs[17]);
    FilesHdr(Unpacked(p, vs[0].b), vs[0].b, vs[1].n, vs[2].n, vs[3].s, vs[4].n, vs[5].n, vs[6].n, vs[7].n, vs[8].n, vs[9].s,
             [vs[10].s, vs[11].s, vs[12].s, vs[13].s, vs[14].s], vs[15].n, vs[16].n, vs[17].n, rec)
  }

  function IdxOf(vs: seq<Value>): (x: FilesIdx)
    requires AllMatch(IDX, vs)
    ensures |x.keywordCRC| == 5
  {
    assert Matches(IDX[0], vs[0]) && Matches(IDX[1], vs[1]) && Matches(IDX[2], vs[2]) && Matches(IDX[3], vs[3])
        && Matches(IDX[4], vs[4]) && Matches(IDX[5], vs[5]) && Matches(IDX[6], vs[6]) && Matches(IDX[7], vs[7]);
    FilesIdx(vs[0].s, vs[1].n, [vs[2].n, vs[3].n, vs[4].n, vs[5].n, vs[6].n], vs[7].n)
  }

  // ---------------------------------------------------------------- sizes

  lemma HdrSize()
    ensures Size(HDR) == 178
  {
    var a := Many(1, Raw(13)) + Many(2, U32) + Many(1, Str(35)) + Many(3, U32);
    var b := a + Many(1, U16) + Many(1, U8) + Many(6, Str(15)) + Many(1, U16) + Many(2, I32);
    SizeOfMany(1, Raw(13));
    SizeWith(Many(1, Raw(13)), 2, U32);
    SizeWith(Many(1, Raw(13)) + Many(2, U32), 1, Str(35));
    SizeWith(Many(1, Raw(13)) + Many(2, U32) + Many(1, Str(35)), 3, U32);
    SizeWith(a, 1, U16);
    SizeWith(a + Many(1, U16), 1, U8);
    SizeWith(a + Many(1, U16) + Many(1, U8), 6, Str(15));
    SizeWith(a + Many(1, U16) + Many(1, U8) + Many(6, Str(15)), 1, U16);
    SizeWith(a + Many(1, U16) + Many(1, U8) + Many(6, Str(15)) + Many(1, U16), 2, I32);
    assert HDR == b;
  }

  lemma IdxSize()
    ensures Size(IDX) == IDX_SIZE
  {
    SizeOfMany(1, Str(12));
    SizeWith(Many(1, Str(12)), 1, U32);
    SizeWith(Many(1, Str(12)) + Many(1, U32), 6, I32);
    assert IDX == Many(1, Str(12)) + Many(1, U32) + Many(6, I32);
  }

  // ---------------------------------------------------------------- headers

  /** A header record as EncodeFilesHdr makes it. */
  function HdrBytes(p: Page, h: FilesHdr): (b: seq<byte>)
    requires Shaped(h)
    ensures |b| == HDR_SIZE
  {
    HdrSize();
    EncodeAll(p, HDR, HdrValues(p, h)) + Zeros(16)
  }

  function ParsedHdr(p: Page, b: seq<byte>, rec: u16): (h: FilesHdr)
    requires IsPage(p)
    ensures Shaped(h)
  {
    ReadRecordIsKept(p, HDR, b);
    HdrOf(p, DecodeAll(p, HDR, b), rec)
  }

  /** Every string fits, and the name is the one stored. */
  predicate HdrHolds(p: Page, h: FilesHdr)
    requires Shaped(h)
  {
    h.name == Unpacked(p, h.nameRaw) && Holds(p, 35, h.uploader) && Holds(p, 15, h.password)
    && forall i | 0 <= i < 5 :: Holds(p, 15, h.keywords[i])
  }

  lemma HdrValuesKept(p: Page, h: FilesHdr)
    requires Shaped(h)
    ensures AllKept(p, HDR, HdrValues(p, h)) <==>
            Holds(p, 35, h.uploader) && Holds(p, 15, h.password) && forall i | 0 <= i < 5 :: Holds(p, 15, h.keywords[i])
  {
    var vs := HdrValues(p, h);
    assert Kept(p, HDR[3], vs[3]) <==> Holds(p, 35, h.uploader);
    assert Kept(p, HDR[9], vs[9]) <==> Holds(p, 15, h.password);
    forall i | 0 <= i < 5 ensures Kept(p, HDR[10 + i], vs[10 + i]) <==> Holds(p, 15, h.keywords[i]) {}
  }

  /** A header without a stored name has an empty one, or the stored name would change. */
  lemma StoredNameStays(p: Page, h: FilesHdr)
    requires Shaped(h)
    ensures StoredName(p, h) == h.nameRaw <==> !(h.nameRaw[0] == 0 && h.name != [])
    ensures h.name == Unpacked(p, h.nameRaw) ==> StoredName(p, h) == h.nameRaw
  {
    if h.nameRaw[0] == 0 {
      assert h.nameRaw[1..1] == [];
      assert Packed(p, 12, h.name)[0] == Least(|h.name|, 12);
    }
  }

  /** Parsing an encoded header gives back every field exactly when its strings fit and its name is the stored one. */
  lemma HdrReadsBack(p: Page, h: FilesHdr, rec: u16)
    requires IsPage(p) && Shaped(h)
    ensures ParsedHdr(p, HdrBytes(p, h), rec) == h.(recordNum := rec) <==> HdrHolds(p, h)
  {
    var vs := HdrValues(p, h);
    var ws := DecodeAll(p, HDR, HdrBytes(p, h));
    RecordReadsBack(p, HDR, vs, Zeros(16));
    HdrValuesKept(p, h);
    StoredNameStays(p, h);
    ReadRecordIsKept(p, HDR, HdrBytes(p, h));
    assert h.keywords == [h.keywords[0], h.keywords[1], h.keywords[2], h.keywords[3], h.keywords[4]];
    if HdrOf(p, ws, rec) == h.(recordNum := rec) {
      SameValues(p, h, ws, rec);
    }
  }

  lemma SameValues(p: Page, h: FilesHdr, ws: seq<Value>, rec: u16)
    requires Shaped(h) && AllMatch(HDR, ws) && HdrOf(p, ws, rec) == h.(recordNum := rec) && StoredName(p, h) == h.nameRaw
    ensures ws == HdrValues(p, h)
  {
    assert forall i | 0 <= i < 18 :: Matches(HDR[i], ws[i]);
    var k := HdrOf(p, ws, rec).keywords;
    assert k[0] == ws[10].s && k[1] == ws[11].s && k[2] == ws[12].s && k[3] == ws[13].s && k[4] == ws[14].s;
  }

  /** What was parsed from any bytes holds, whatever its numbers are changed to. */
  lemma ParsedHdrHolds(p: Page, b: seq<byte>, rec: u16)
    requires IsPage(p)
    ensures HdrHolds(p, ParsedHdr(p, b, rec))
  {
    ReadRecordIsKept(p, HDR, b);
    var vs := DecodeAll(p, HDR, b);
    assert Kept(p, HDR[3], vs[3]) && Kept(p, HDR[9], vs[9]);
    forall i | 0 <= i < 5 ensures Holds(p, 15, ParsedHdr(p, b, rec).keywords[i]) {
      assert Kept(p, HDR[10 + i], vs[10 + i]);
    }
  }

  function Texts(ks: seq<text>): seq<Value> { seq(|ks|, i requires 0 <= i < |ks| => Text(ks[i])) }

  /** The first ten fields, one by one. */
  function HeadLayout(): Layout {
    [Raw(13)] + [U32] + [U32] + [Str(35)] + [U32] + [U32] + [U32] + [U16] + [U8] + [Str(15)]
  }

  function HeadValues(name: seq<byte>, h: FilesHdr): seq<Value> {
    [Octets(name)] + [Number(h.size)] + [Number(h.crc32)] + [Text(h.uploader)] + [Number(h.uploadDate)] + [Number(h.fileDate)]
    + [Number(h.lastDL)] + [Number(h.timesDL)] + [Number(h.attrib)] + [Text(h.password)]
  }

  method WriteHead(w: Writer, name: seq<byte>, h: FilesHdr)
    requires w.Valid() && w.Fields == [] && w.Values == [] && |name| == 13
    modifies w
    ensures w.Valid() && w.Fields == HeadLayout() && w.Values == HeadValues(name, h)
  {
    w.WriteBytes(name);
    assert w.Fields == [Raw(13)] && w.Values == [Octets(name)];
    w.WriteU32(h.size);
    w.WriteU32(h.crc32);
    w.WritePString(35, h.uploader);
    w.WriteU32(h.uploadDate);
    w.WriteU32(h.fileDate);
    w.WriteU32(h.lastDL);
    w.WriteU16(h.timesDL);
    w.WriteU8(h.attrib);
    w.WritePString(15, h.password);
  }

  method WriteTexts(w: Writer, max: nat, ks: seq<text>)
    requires w.Valid()
    modifies w
    ensures w.Valid() && w.Fields == old(w.Fields) + Many(|ks|, Str(max)) && w.Values == old(w.Values) + Texts(ks)
  {
    var i := 0;
    while i < |ks|
      invariant 0 <= i <= |ks| && w.Valid()
      invariant w.Fields == old(w.Fields) + Many(i, Str(max)) && w.Values == old(w.Values) + Texts(ks[..i])
    {
      w.WritePString(max, ks[i]);
      assert Many(i + 1, Str(max)) == Many(i, Str(max)) + [Str(max)];
      assert Texts(ks[..i + 1]) == Texts(ks[..i]) + [Text(ks[i])];
      i := i + 1;
    }
    assert ks[..i] == ks;
  }

  method WriteTail(w: Writer, h: FilesHdr)
    requires w.Valid()
    modifies w
    ensures w.Valid() && w.Fields == old(w.Fields) + [U16, I32, I32]
    ensures w.Values == old(w.Values) + [Number(h.cost), Number(h.longDescPtr), Number(h.lfnPtr)]
  {
    w.WriteU16(h.cost);
    w.WriteI32(h.longDescPtr);
    w.WriteI32(h.lfnPtr);
  }

  lemma LayoutParts()
    ensures HDR == HeadLayout() + Many(5, Str(15)) + [U16, I32, I32]
  {
    assert Many(5, Str(15)) == [Str(15), Str(15), Str(15), Str(15), Str(15)];
    assert HeadLayout() == [Raw(13), U32, U32, Str(35), U32, U32, U32, U16, U8, Str(15)];
  }

  lemma HdrParts(p: Page, h: FilesHdr)
    requires Shaped(h)
    ensures HdrValues(p, h) == HeadValues(StoredName(p, h), h) + Texts(h.keywords)
                               + [Number(h.cost), Number(h.longDescPtr), Number(h.lfnPtr)]
  {
    var ks := h.keywords;
    assert Texts(ks) == [Text(ks[0]), Text(ks[1]), Text(ks[2]), Text(ks[3]), Text(ks[4])];
    HeadParts(StoredName(p, h), h);
  }

  lemma HeadParts(name: seq<byte>, h: FilesHdr)
    ensures HeadValues(name, h) == [Octets(name), Number(h.size), Number(h.crc32), Text(h.uploader), Number(h.uploadDate),
                                    Number(h.fileDate), Number(h.lastDL), Number(h.timesDL), Number(h.attrib), Text(h.password)]
  {}

  lemma Finished(p: Page, h: FilesHdr, b: seq<byte>, fs: Layout, vs: seq<Value>)
    requires Shaped(h) && HasWritten(p, b, fs, vs) && fs == HeadLayout() + Many(5, Str(15)) + [U16, I32, I32]
    requires vs == HeadValues(StoredName(p, h), h) + Texts(h.keywords) + [Number(h.cost), Number(h.longDescPtr), Number(h.lfnPtr)]
    ensures |b| == 178 && HdrBytes(p, h) == b + Zeros(16)
  {
    HdrParts(p, h);
    LayoutParts();
    HdrSize();
    assert Looks(0);
  }

  method EncodeFilesHdr(p: Page, table: map<rune, byte>, h: FilesHdr) returns (b: seq<byte>)
    requires Tabulates(p, table) && Shaped(h)
    ensures b == HdrBytes(p, h)
  {
    var name := new byte[13](i requires 0 <= i < 13 => h.nameRaw[i]);
    assert name[..] == h.nameRaw;
    if name[0] == 0 && h.name != [] {
      PutString(p, table, name, h.name);
    }
    var w := new Writer(p, table);
    WriteHead(w, name[..], h);
    WriteTexts(w, 15, h.keywords);
    WriteTail(w, h);
    Finished(p, h, w.B, w.Fields, w.Values);
    b := w.B + Zeros(HDR_SIZE - |w.B|);
  }

  method ReadTexts(r: Buf, n: nat, max: nat) returns (ks: seq<text>)
    requires r.Valid()
    modifies r
    ensures r.Valid() && |ks| == n && r.Fields == old(r.Fields) + Many(n, Str(max)) && r.Values == old(r.Values) + Texts(ks)
  {
    ks := [];
    var i := 0;
    while i < n
      invariant 0 <= i <= n && r.Valid() && |ks| == i
      invariant r.Fields == old(r.Fields) + Many(i, Str(max)) && r.Values == old(r.Values) + Texts(ks)
    {
      var k := r.ReadPString(max);
      assert Many(i + 1, Str(max)) == Many(i, Str(max)) + [Str(max)];
      assert Texts(ks + [k]) == Texts(ks) + [Text(k)];
      ks := ks + [k];
      i := i + 1;
    }
  }

  method ReadName(r: Buf) returns (raw: seq<byte>, name: text)
    requires r.Valid() && r.Fields == [] && r.Values == [] && IsPage(r.P)
    modifies r
    ensures r.Valid() && r.Fields == [Raw(13)] && |raw| == 13 && r.Values == [Octets(raw)] && name == Unpacked(r.P, raw)
  {
    var b := r.ReadBytes(13);
    name := String(r.P, b);
    ShortField(r.P, b, 13 - |b|);
    raw := b + Zeros(13 - |b|);
  }

  /** The first ten fields of a header; the others as in `h0`. */
  method ReadHead(r: Buf, h0: FilesHdr) returns (h: FilesHdr)
    requires r.Valid() && r.Fields == [] && r.Values == [] && IsPage(r.P)
    modifies r
    ensures r.Valid() && r.Fields == HeadLayout() && |h.nameRaw| == 13 && r.Values == HeadValues(h.nameRaw, h)
    ensures h.name == Unpacked(r.P, h.nameRaw)
    ensures h.keywords == h0.keywords && h.recordNum == h0.recordNum
  {
    var raw, name := ReadName(r);
    var size := r.ReadU32();
    var crc32 := r.ReadU32();
    var uploader := r.ReadPString(35);
    var uploadDate := r.ReadU32();
    var fileDate := r.ReadU32();
    var lastDL := r.ReadU32();
    var timesDL := r.ReadU16();
    var attrib := r.ReadU8();
    var password := r.ReadPString(15);
    h := h0.(name := name, nameRaw := raw, size := size, crc32 := crc32, uploader := uploader, uploadDate := uploadDate, fileDate := fileDate,
            lastDL := lastDL, timesDL := timesDL, attrib := attrib, password := password);
  }

  method ReadTail(r: Buf, h0: FilesHdr) returns (h: FilesHdr)
    requires r.Valid()
    modifies r
    ensures r.Valid() && r.Fields == old(r.Fields) + [U16, I32, I32]
    ensures r.Values == old(r.Values) + [Number(h.cost), Number(h.longDescPtr), Number(h.lfnPtr)]
    ensures h == h0.(cost := h.cost, longDescPtr := h.longDescPtr, lfnPtr := h.lfnPtr)
  {
    var cost := r.ReadU16();
    var longDescPtr := r.ReadI32();
    var lfnPtr := r.ReadI32();
    h := h0.(cost := cost, longDescPtr := longDescPtr, lfnPtr := lfnPtr);
  }

  method ParseFilesHdr(p: Page, b: seq<byte>, rec: u16) returns (h: FilesHdr)
    requires IsPage(p)
    ensures h == ParsedHdr(p, b, rec)
  {
    var r := new Buf(p, b);
    h := FilesHdr([], Zeros(13), 0, 0, [], 0, 0, 0, 0, 0, [], [], 0, 0, 0, rec);
    h := ReadHead(r, h);
    ghost var head := HeadValues(h.nameRaw, h);
    var ks := ReadTexts(r, 5, 15);
    h := h.(keywords := ks);
    assert HeadValues(h.nameRaw, h) == head;
    h := ReadTail(r, h);
    assert HeadValues(h.nameRaw, h) == head;
    assert Looks(0);
    ReadBack(p, b, rec, h, r.Fields, r.Values);
  }

  lemma ReadBack(p: Page, b: seq<byte>, rec: u16, h: FilesHdr, fs: Layout, vs: seq<Value>)
    requires IsPage(p) && Shaped(h) && h.recordNum == rec && h.name == Unpacked(p, h.nameRaw) && vs == DecodeAll(p, fs, b)
    requires fs == HeadLayout() + Many(5, Str(15)) + [U16, I32, I32]
    requires vs == HeadValues(h.nameRaw, h) + Texts(h.keywords) + [Number(h.cost), Number(h.longDescPtr), Number(h.lfnPtr)]
    ensures h == ParsedHdr(p, b, rec)
  {
    HdrParts(p, h);
    LayoutParts();
    StoredNameStays(p, h);
    assert vs == HdrValues(p, h);
    assert h.keywords == [h.keywords[0], h.keywords[1], h.keywords[2], h.keywords[3], h.keywords[4]];
  }

  // ---------------------------------------------------------------- index records

  function IdxBytes(p: Page, x: FilesIdx): (b: seq<byte>)
    requires |x.keywordCRC| == 5
    ensures |b| == IDX_SIZE
  {
    IdxSize();
    EncodeAll(p, IDX, IdxValues(x))
  }

  function ParsedIdx(p: Page, b: seq<byte>): FilesIdx
    requires IsPage(p)
  {
    ReadRecordIsKept(p, IDX, b);
    IdxOf(DecodeAll(p, IDX, b))
  }

  /** An index record gives back every field exactly when its name fits. */
  lemma IdxReadsBack(p: Page, x: FilesIdx)
    requires IsPage(p) && |x.keywordCRC| == 5
    ensures ParsedIdx(p, IdxBytes(p, x)) == x <==> Holds(p, 12, x.name)
  {
    var vs := IdxValues(x);
    var b := IdxBytes(p, x);
    var ws := DecodeAll(p, IDX, b);
    RecordReadsBack(p, IDX, vs, []);
    assert b + [] == b;
    ReadRecordIsKept(p, IDX, b);
    assert Kept(p, IDX[0], vs[0]) <==> Holds(p, 12, x.name);
    assert x.keywordCRC == [x.keywordCRC[0], x.keywordCRC[1], x.keywordCRC[2], x.keywordCRC[3], x.keywordCRC[4]];
    if IdxOf(ws) == x {
      assert forall i | 0 <= i < 8 :: Matches(IDX[i], ws[i]);
      SameIdx(ws, x);
    }
  }

  lemma SameIdx(ws: seq<Value>, x: FilesIdx)
    requires AllMatch(IDX, ws) && IdxOf(ws) == x
    ensures ws == IdxValues(x)
  {
    assert forall i | 0 <= i < 8 :: Matches(IDX[i], ws[i]);
    var k := x.keywordCRC;
    assert k[0] == ws[2].n && k[1] == ws[3].n && k[2] == ws[4].n && k[3] == ws[5].n && k[4] == ws[6].n;
  }

  function Numbers(ns: seq<i32>): seq<Value> { seq(|ns|, i requires 0 <= i < |ns| => Number(ns[i])) }

  method WriteNumbers(w: Writer, ns: seq<i32>)
    requires w.Valid()
    modifies w
    ensures w.Valid() && w.Fields == old(w.Fields) + Many(|ns|, I32) && w.Values == old(w.Values) + Numbers(ns)
  {
    var i := 0;
    while i < |ns|
      invariant 0 <= i <= |ns| && w.Valid()
      invariant w.Fields == old(w.Fields) + Many(i, I32) && w.Values == old(w.Values) + Numbers(ns[..i])
    {
      w.WriteI32(ns[i]);
      assert Many(i + 1, I32) == Many(i, I32) + [I32];
      assert Numbers(ns[..i + 1]) == Numbers(ns[..i]) + [Number(ns[i])];
      i := i + 1;
    }
    assert ns[..i] == ns;
  }

  method EncodeFilesIdx(p: Page, table: map<rune, byte>, x: FilesIdx) returns (b: seq<byte>)
    requires Tabulates(p, table) && |x.keywordCRC| == 5
    ensures b == IdxBytes(p, x)
  {
    var w := new Writer(p, table);
    w.WritePString(12, x.name);
    w.WriteU32(x.uploadDate);
    WriteNumbers(w, x.keywordCRC);
    w.WriteI32(x.longDescPtr);
    b := w.B;
    IdxFinished(p, x, b, w.Fields, w.Values);
  }

  lemma IdxFinished(p: Page, x: FilesIdx, b: seq<byte>, fs: Layout, vs: seq<Value>)
    requires |x.keywordCRC| == 5 && HasWritten(p, b, fs, vs) && fs == [] + [Str(12)] + [U32] + Many(5, I32) + [I32]
    requires vs == [] + [Text(x.name)] + [Number(x.uploadDate)] + Numbers(x.keywordCRC) + [Number(x.longDescPtr)]
    ensures b == IdxBytes(p, x)
  {
    var k := x.keywordCRC;
    assert Many(5, I32) == [I32, I32, I32, I32, I32];
    assert fs == IDX;
    assert Numbers(k) == [Number(k[0]), Number(k[1]), Number(k[2]), Number(k[3]), Number(k[4])];
    assert vs == IdxValues(x);
    assert Looks(0);
  }

  // ---------------------------------------------------------------- user records

  const USER_HEAD: Layout :=
    [Str(35), Str(25), Str(50), Str(50), Str(50), Str(50), Str(35), Str(80), I32, Str(15), Str(15), Str(5), Str(8), U8, U8, Raw(4),
     I32, I32, U16, U16, I32, I32, I32, I32, I32, I32, I32, I16, U16, U8, U16]

  const USER_TAIL: Layout :=
    [Str(8), Str(8), Str(8), U8, U8, U8, Str(35), U16, U16, U8, U16, U8, U8, I32, U16, U8, Str(15)]

  /** The fields of a user record in order, with the 200 combined-area numbers between head and tail. */
  const USER: Layout := USER_HEAD + Many(200, U16) + USER_TAIL

  const SCREEN_LENGTH: nat := 28
  const SCREEN_WIDTH: nat := 234

  lemma HeadSize()
    ensures Size(USER_HEAD) == 487
  {
    var a := Many(1, Str(35));
    var b := a + Many(1, Str(25));
    var c := b + Many(4, Str(50));
    var d := c + Many(1, Str(35));
    var e := d + Many(1, Str(80));
    var f := e + Many(1, I32);
    var g := f + Many(2, Str(15));
    SizeOfMany(1, Str(35));
    SizeWith(a, 1, Str(25));
    SizeWith(b, 4, Str(50));
    SizeWith(c, 1, Str(35));
    SizeWith(d, 1, Str(80));
    SizeWith(e, 1, I32);
    SizeWith(f, 2, Str(15));
    var h := g + Many(1, Str(5));
    var i := h + Many(1, Str(8));
    var j := i + Many(2, U8);
    var k := j + Many(1, Raw(4));
    var l := k + Many(2, I32);
    var m := l + Many(2, U16);
    var n := m + Many(7, I32);
    SizeWith(g, 1, Str(5));
    SizeWith(h, 1, Str(8));
    SizeWith(i, 2, U8);
    SizeWith(j, 1, Raw(4));
    SizeWith(k, 2, I32);
    SizeWith(l, 2, U16);
    SizeWith(m, 7, I32);
    var o := n + Many(1, I16);
    var q := o + Many(1, U16);
    var r := q + Many(1, U8);
    SizeWith(n, 1, I16);
    SizeWith(o, 1, U16);
    SizeWith(q, 1, U8);
    SizeWith(r, 1, U16);
    assert USER_HEAD == r + Many(1, U16);
  }

  lemma TailSize()
    ensures Size(USER_TAIL) == 98
  {
    var a := Many(3, Str(8));
    var b := a + Many(3, U8);
    var c := b + Many(1, Str(35));
    var d := c + Many(2, U16);
    var e := d + Many(1, U8);
    var f := e + Many(1, U16);
    var g := f + Many(2, U8);
    var h := g + Many(1, I32);
    var i := h + Many(1, U16);
    var j := i + Many(1, U8);
    SizeOfMany(3, Str(8));
    SizeWith(a, 3, U8);
    SizeWith(b, 1, Str(35));
    SizeWith(c, 2, U16);
    SizeWith(d, 1, U8);
    SizeWith(e, 1, U16);
    SizeWith(f, 2, U8);
    SizeWith(g, 1, I32);
    SizeWith(h, 1, U16);
    SizeWith(i, 1, U8);
    SizeWith(j, 1, Str(15));
    assert USER_TAIL == j + Many(1, Str(15));
  }

  lemma UserSize()
    ensures Size(USER) == 985 && |USER| == 248 && ValidLayout(USER)
    ensures USER[SCREEN_LENGTH] == U16 && USER[SCREEN_WIDTH] == U8
  {
    HeadSize();
    TailSize();
    SizesAdd(USER_HEAD, Many(200, U16));
    SizeOfMany(200, U16);
    SizesAdd(USER_HEAD + Many(200, U16), USER_TAIL);
    assert ValidLayout(USER_HEAD) && ValidLayout(USER_TAIL) && ValidLayout(Many(200, U16));
  }

  function UserBytes(p: Page, vs: seq<Value>): (b: seq<byte>)
    requires ValidLayout(USER) && AllMatch(USER, vs)
    ensures |b| == USER_SIZE
  {
    UserSize();
    EncodeAll(p, USER, vs) + Zeros(31)
  }

  /** A screen of no lines or no columns is read as 25 or 80. */
  function Defaulted(vs: seq<Value>): (ws: seq<Value>)
    requires |vs| == 248
    ensures |ws| == 248
  {
    var us := if vs[SCREEN_LENGTH] == Number(0) then vs[SCREEN_LENGTH := Number(25)] else vs;
    if us[SCREEN_WIDTH] == Number(0) then us[SCREEN_WIDTH := Number(80)] else us
  }

  function ParsedUser(p: Page, b: seq<byte>): seq<Value> {
    UserSize();
    Defaulted(DecodeAll(p, USER, b))
  }

  /** A user record gives back every field exactly when its strings fit and its screen is not empty. */
  lemma UserReadsBack(p: Page, vs: seq<Value>)
    requires ValidLayout(USER) && AllMatch(USER, vs)
    ensures ParsedUser(p, UserBytes(p, vs)) == vs <==>
            AllKept(p, USER, vs) && vs[SCREEN_LENGTH] != Number(0) && vs[SCREEN_WIDTH] != Number(0)
  {
    UserSize();
    var b := UserBytes(p, vs);
    var ws := DecodeAll(p, USER, b);
    RecordReadsBack(p, USER, vs, Zeros(31));
    DecodedField(p, USER, vs, b, SCREEN_LENGTH);
    FieldReadsBack(p, USER[SCREEN_LENGTH], vs[SCREEN_LENGTH]);
    DecodedField(p, USER, vs, b, SCREEN_WIDTH);
    FieldReadsBack(p, USER[SCREEN_WIDTH], vs[SCREEN_WIDTH]);
    assert ws[SCREEN_LENGTH] == vs[SCREEN_LENGTH] && ws[SCREEN_WIDTH] == vs[SCREEN_WIDTH];
    OnlyDefaults(ws, vs);
  }

  lemma OnlyDefaults(ws: seq<Value>, vs: seq<Value>)
    requires |ws| == |vs| == 248 && ws[SCREEN_LENGTH] == vs[SCREEN_LENGTH] && ws[SCREEN_WIDTH] == vs[SCREEN_WIDTH]
    ensures Defaulted(ws) == vs <==> ws == vs && vs[SCREEN_LENGTH] != Number(0) && vs[SCREEN_WIDTH] != Number(0)
  {
    var ds := Defaulted(ws);
    if ds == vs {
      assert ds[SCREEN_LENGTH] == vs[SCREEN_LENGTH] && ds[SCREEN_WIDTH] == vs[SCREEN_WIDTH];
    }
  }
}
