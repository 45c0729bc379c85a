/** Where the fields of a record lie, byte by byte. */
module RecordLayout {
  import opened Bytes
  import opened CodePage
  import opened PascalStrings
  import opened PascalRecords
  import opened FileRecords

  /** Each field has its bytes behind those of the fields before it. */
  lemma {:induction false} FieldLiesAt(p: Page, fs: Layout, vs: seq<Value>, i: nat)
    requires ValidLayout(fs) && AllMatch(fs, vs) && i < |fs|
    ensures Size(fs[..i]) + Width(fs[i]) <= |EncodeAll(p, fs, vs)| && |FieldBytes(p, fs[i], vs[i])| == Width(fs[i])
    ensures EncodeAll(p, fs, vs)[Size(fs[..i])..Size(fs[..i]) + Width(fs[i])] == FieldBytes(p, fs[i], vs[i])
    decreases |fs|
  {
    var k := |fs| - 1;
    var front := EncodeAll(p, fs[..k], vs[..k]);
    if i < k {
      FieldLiesAt(p, fs[..k], vs[..k], i);
      assert fs[..k][..i] == fs[..i];
      var a, b := Size(fs[..i]), Size(fs[..i]) + Width(fs[i]);
      assert EncodeAll(p, fs, vs)[a..b] == front[a..b];
    }
  }

  lemma SizeNext(fs: Layout, i: nat)
    requires i < |fs|
    ensures Size(fs[..i + 1]) == Size(fs[..i]) + Width(fs[i])
  {
    assert fs[..i + 1][..i] == fs[..i];
  }

  /** Where the fields of a file header begin. */
  const HDR_OFFSETS: seq<nat> := [0, 13, 17, 21, 57, 61, 65, 69, 71, 72, 88, 104, 120, 136, 152, 168, 170, 174, 178]

  predicate Offsets(fs: Layout, at: seq<nat>) {
    |at| == |fs| + 1 && at[0] == 0 && forall i | 0 <= i < |fs| :: at[i + 1] == at[i] + Width(fs[i])
  }

  lemma {:induction false} OffsetIs(fs: Layout, at: seq<nat>, i: nat)
    requires Offsets(fs, at) && i <= |fs|
    ensures Size(fs[..i]) == at[i]
  {
    if i > 0 {
      OffsetIs(fs, at, i - 1);
      SizeNext(fs, i - 1);
    }
  }

  lemma HdrOffsets()
    ensures Offsets(HDR, HDR_OFFSETS)
  {}

  /** Field `i` of a record, at its offset. */
  lemma FieldAt(p: Page, fs: Layout, vs: seq<Value>, at: seq<nat>, b: seq<byte>, more: seq<byte>, i: nat)
    requires ValidLayout(fs) && AllMatch(fs, vs) && Offsets(fs, at) && i < |fs| && b == EncodeAll(p, fs, vs) + more
    ensures at[i] <= at[i + 1] <= |b| && b[at[i]..at[i + 1]] == FieldBytes(p, fs[i], vs[i])
  {
    OffsetIs(fs, at, i);
    FieldLiesAt(p, fs, vs, i);
    var e := EncodeAll(p, fs, vs);
    assert b[at[i]..at[i + 1]] == e[at[i]..at[i + 1]];
  }

  lemma NumberLies(p: Page, h: FilesHdr, i: nat, lo: nat, hi: nat, v: nat, w: nat)
    requires Shaped(h) && i < 18 && HDR_OFFSETS[i] == lo && HDR_OFFSETS[i + 1] == hi && hi <= HDR_SIZE
    requires HDR[i].Int? && HDR[i].width == w && HdrValues(p, h)[i] == Number(v)
    ensures lo <= hi && HdrBytes(p, h)[lo..hi] == LowFirst(v, w)
  {
    HdrOffsets();
    FieldAt(p, HDR, HdrValues(p, h), HDR_OFFSETS, HdrBytes(p, h), Zeros(16), i);
  }

  /** The numbers of a file header: where each lies, lowest byte first. */
  lemma HdrNumbersLie(p: Page, h: FilesHdr)
    requires Shaped(h)
    ensures var b := HdrBytes(p, h);
            && b[13..17] == LowFirst(h.size, 4) && b[17..21] == LowFirst(h.crc32, 4) && b[69..71] == LowFirst(h.timesDL, 2)
            && b[71..72] == LowFirst(h.attrib, 1) && b[168..170] == LowFirst(h.cost, 2)
  {
    NumberLies(p, h, 1, 13, 17, h.size, 4);
    NumberLies(p, h, 2, 17, 21, h.crc32, 4);
    NumberLies(p, h, 7, 69, 71, h.timesDL, 2);
    NumberLies(p, h, 8, 71, 72, h.attrib, 1);
    NumberLies(p, h, 15, 168, 170, h.cost, 2);
  }

  /** Its dates and, where there is something to point to, its pointers. */
  lemma HdrDatesLie(p: Page, h: FilesHdr)
    requires Shaped(h)
    ensures var b := HdrBytes(p, h);
            b[57..61] == LowFirst(h.uploadDate, 4) && b[61..65] == LowFirst(h.fileDate, 4) && b[65..69] == LowFirst(h.lastDL, 4)
    ensures h.longDescPtr >= 0 ==> HdrBytes(p, h)[170..174] == LowFirst(h.longDescPtr, 4)
    ensures h.lfnPtr >= 0 ==> HdrBytes(p, h)[174..178] == LowFirst(h.lfnPtr, 4)
  {
    NumberLies(p, h, 4, 57, 61, h.uploadDate, 4);
    NumberLies(p, h, 5, 61, 65, h.fileDate, 4);
    NumberLies(p, h, 6, 65, 69, h.lastDL, 4);
    if h.longDescPtr >= 0 { NumberLies(p, h, 16, 170, 174, h.longDescPtr, 4); }
    if h.lfnPtr >= 0 { NumberLies(p, h, 17, 174, 178, h.lfnPtr, 4); }
  }

  /** And its texts: each behind its length, zeros to the end of its field. */
  lemma HdrTextsLie(p: Page, h: FilesHdr, k: nat)
    requires Shaped(h) && k < 5
    ensures var b := HdrBytes(p, h);
            b[0..13] == StoredName(p, h) && b[21..57] == Packed(p, 35, h.uploader) && b[72..88] == Packed(p, 15, h.password)
            && b[88 + 16 * k..104 + 16 * k] == Packed(p, 15, h.keywords[k])
  {
    HdrOffsets();
    var vs, b := HdrValues(p, h), HdrBytes(p, h);
    FieldAt(p, HDR, vs, HDR_OFFSETS, b, Zeros(16), 0);
    FieldAt(p, HDR, vs, HDR_OFFSETS, b, Zeros(16), 3);
    FieldAt(p, HDR, vs, HDR_OFFSETS, b, Zeros(16), 9);
    FieldAt(p, HDR, vs, HDR_OFFSETS, b, Zeros(16), 10 + k);
  }
}
