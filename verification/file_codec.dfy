/** The real record codecs are what the catalogue takes them for. */
module FileCodec {
  import opened Bytes
  import opened CodePage
  import opened PascalStrings
  import opened PascalRecords
  import opened FileRecords
  import opened FileCatalog

  function Cut(p: Page, s: text): text { Unpacked(p, Packed(p, 12, s)) }

  function RealCodec(p: Page): Codec
    requires IsPage(p)
  {
    Codec((h: FilesHdr) => if Shaped(h) then HdrBytes(p, h) else Zeros(HDR_SIZE),
          (b: seq<byte>, k: u16) => ParsedHdr(p, b, k),
          (x: FilesIdx) => if |x.keywordCRC| == 5 then IdxBytes(p, x) else Zeros(IDX_SIZE),
          (b: seq<byte>) => ParsedIdx(p, b),
          (h: FilesHdr) => Shaped(h) && HdrHolds(p, h),
          (s: text) => Packed(p, 12, s),
          (s: text) => Cut(p, s))
  }

  lemma RealSizes(p: Page)
    requires IsPage(p)
    ensures Sizes(RealCodec(p))
  {}

  lemma RealParses(p: Page)
    requires IsPage(p)
    ensures ParsesWhatHolds(RealCodec(p))
  {
    forall b: seq<byte>, k: u16 ensures Shaped(ParsedHdr(p, b, k)) && HdrHolds(p, ParsedHdr(p, b, k)) && ParsedHdr(p, b, k).recordNum == k {
      ParsedHdrHolds(p, b, k);
    }
    forall h: FilesHdr, k: u16 | Shaped(h) && HdrHolds(p, h) ensures ParsedHdr(p, HdrBytes(p, h), k) == h.(recordNum := k) {
      HdrReadsBack(p, h, k);
    }
  }

  /** A name read from its field fits it, and is empty where the length byte is zero. */
  lemma HeldName(p: Page, h: FilesHdr)
    requires IsPage(p) && Shaped(h) && HdrHolds(p, h)
    ensures Cut(p, h.name) == h.name && (h.nameRaw[0] == 0 ==> h.name == [])
  {
    ReadFits(p, 12, h.nameRaw);
    StringReadsBack(p, 12, h.name);
    if h.nameRaw[0] == 0 { assert h.nameRaw[1..1] == []; }
  }

  lemma SameTextHolds(p: Page, g: FilesHdr, h: FilesHdr)
    requires SameText(g, h) && Shaped(h) && HdrHolds(p, h)
    ensures Shaped(g) && HdrHolds(p, g)
  {}

  lemma RealHoldsByText(p: Page)
    requires IsPage(p)
    ensures HoldsByText(RealCodec(p))
  {
    forall g: FilesHdr, h: FilesHdr | SameText(g, h) && Shaped(h) && HdrHolds(p, h) ensures Shaped(g) && HdrHolds(p, g) {
      SameTextHolds(p, g, h);
    }
    forall h: FilesHdr | Shaped(h) && HdrHolds(p, h) ensures Cut(p, h.name) == h.name && (h.nameRaw[0] == 0 ==> h.name == []) {
      HeldName(p, h);
    }
  }

  /** Field `i` of an encoded header that is not a string too long for it. */
  lemma HdrField(p: Page, h: FilesHdr, i: nat)
    requires IsPage(p) && Shaped(h) && i < 18 && Kept(p, HDR[i], HdrValues(p, h)[i])
    ensures DecodeAll(p, HDR, HdrBytes(p, h))[i] == HdrValues(p, h)[i]
  {
    DecodedField(p, HDR, HdrValues(p, h), HdrBytes(p, h), i);
    FieldReadsBack(p, HDR[i], HdrValues(p, h)[i]);
  }

  lemma NumbersSurvive(p: Page, h: FilesHdr, k: u16)
    requires IsPage(p) && Shaped(h)
    ensures ParsedHdr(p, HdrBytes(p, h), k).longDescPtr == h.longDescPtr && ParsedHdr(p, HdrBytes(p, h), k).attrib == h.attrib
    ensures ParsedHdr(p, HdrBytes(p, h), k).uploadDate == h.uploadDate && ParsedHdr(p, HdrBytes(p, h), k).lfnPtr == h.lfnPtr
  {
    HdrField(p, h, 4);
    HdrField(p, h, 17);
    HdrField(p, h, 16);
    HdrField(p, h, 8);
  }

  lemma EmptyKeyword(p: Page, h: FilesHdr, i: nat)
    requires IsPage(p) && Shaped(h) && h.keywords == NO_KEYWORDS && i < 5
    ensures DecodeAll(p, HDR, HdrBytes(p, h))[10 + i] == Text([])
  {
    assert HdrValues(p, h)[10 + i] == Text(h.keywords[i]) && h.keywords[i] == [];
    HdrField(p, h, 10 + i);
  }

  lemma FiveOf(ks: seq<text>)
    requires |ks| == 5
    ensures ks == [ks[0], ks[1], ks[2], ks[3], ks[4]]
  {}

  lemma KeywordsAre(p: Page, h: FilesHdr, k: u16, ks: seq<text>)
    requires IsPage(p) && Shaped(h) && |ks| == 5 && forall i | 0 <= i < 5 :: DecodeAll(p, HDR, HdrBytes(p, h))[10 + i] == Text(ks[i])
    ensures ParsedHdr(p, HdrBytes(p, h), k).keywords == ks
  {
    var vs := DecodeAll(p, HDR, HdrBytes(p, h));
    assert vs[10 + 0] == Text(ks[0]) && vs[10 + 1] == Text(ks[1]) && vs[10 + 2] == Text(ks[2]);
    assert vs[10 + 3] == Text(ks[3]) && vs[10 + 4] == Text(ks[4]);
    FiveOf(ks);
  }

  lemma EmptyKeywordsSurvive(p: Page, h: FilesHdr, k: u16)
    requires IsPage(p) && Shaped(h) && h.keywords == NO_KEYWORDS
    ensures ParsedHdr(p, HdrBytes(p, h), k).keywords == NO_KEYWORDS
  {
    forall i: nat | i < 5 ensures DecodeAll(p, HDR, HdrBytes(p, h))[10 + i] == Text(NO_KEYWORDS[i]) { EmptyKeyword(p, h, i); }
    KeywordsAre(p, h, k, NO_KEYWORDS);
  }

  lemma NewNameSurvives(p: Page, h: FilesHdr, k: u16)
    requires IsPage(p) && Shaped(h) && h.nameRaw == Packed(p, 12, h.name) && h.keywords == NO_KEYWORDS
    ensures ParsedHdr(p, HdrBytes(p, h), k).name == Cut(p, h.name) && ParsedHdr(p, HdrBytes(p, h), k).keywords == NO_KEYWORDS
  {
    HdrField(p, h, 0);
    EmptyKeywordsSurvive(p, h, k);
  }

  lemma IdxField(p: Page, x: FilesIdx, i: nat)
    requires |x.keywordCRC| == 5 && i < 8
    ensures DecodeAll(p, IDX, IdxBytes(p, x))[i] == if i == 0 then Text(Cut(p, x.name)) else IdxValues(x)[i]
  {
    DecodedField(p, IDX, IdxValues(x), IdxBytes(p, x), i);
    FieldReadsBack(p, IDX[i], IdxValues(x)[i]);
  }

  lemma IndexSurvives(p: Page, x: FilesIdx)
    requires IsPage(p) && |x.keywordCRC| == 5
    ensures ParsedIdx(p, IdxBytes(p, x)) == x.(name := Cut(p, x.name))
  {
    var ws := DecodeAll(p, IDX, IdxBytes(p, x));
    forall i | 0 <= i < 8 ensures ws[i] == if i == 0 then Text(Cut(p, x.name)) else IdxValues(x)[i] { IdxField(p, x, i); }
    var k := x.keywordCRC;
    assert k == [k[0], k[1], k[2], k[3], k[4]];
    assert ws[1] == IdxValues(x)[1] && ws[2] == IdxValues(x)[2] && ws[3] == IdxValues(x)[3] && ws[4] == IdxValues(x)[4];
    assert ws[5] == IdxValues(x)[5] && ws[6] == IdxValues(x)[6] && ws[7] == IdxValues(x)[7];
  }

  lemma RealKeepsNumbers(p: Page)
    requires IsPage(p)
    ensures KeepsNumbers(RealCodec(p))
  {
    forall h: FilesHdr, k: u16 | Shaped(h)
      ensures ParsedHdr(p, HdrBytes(p, h), k).longDescPtr == h.longDescPtr && ParsedHdr(p, HdrBytes(p, h), k).attrib == h.attrib
      ensures ParsedHdr(p, HdrBytes(p, h), k).uploadDate == h.uploadDate && ParsedHdr(p, HdrBytes(p, h), k).lfnPtr == h.lfnPtr {
      NumbersSurvive(p, h, k);
    }
    forall h: FilesHdr, k: u16 | Shaped(h) && h.nameRaw == Packed(p, 12, h.name) && h.keywords == NO_KEYWORDS
      ensures ParsedHdr(p, HdrBytes(p, h), k).name == Cut(p, h.name) && ParsedHdr(p, HdrBytes(p, h), k).keywords == NO_KEYWORDS {
      NewNameSurvives(p, h, k);
    }
    forall x: FilesIdx | |x.keywordCRC| == 5 ensures ParsedIdx(p, IdxBytes(p, x)) == x.(name := Cut(p, x.name)) {
      IndexSurvives(p, x);
    }
  }

  lemma HeldKeyword(p: Page, h: FilesHdr, i: nat)
    requires IsPage(p) && Shaped(h) && i < 5 && Holds(p, 15, h.keywords[i])
    ensures DecodeAll(p, HDR, HdrBytes(p, h))[10 + i] == Text(h.keywords[i])
  {
    assert HdrValues(p, h)[10 + i] == Text(h.keywords[i]);
    HdrField(p, h, 10 + i);
  }

  lemma HeldNameSurvives(p: Page, g: FilesHdr, h: FilesHdr, k: u16)
    requires IsPage(p) && Shaped(g) && Shaped(h) && HdrHolds(p, g) && h.name == g.name && h.nameRaw == g.nameRaw
    ensures ParsedHdr(p, HdrBytes(p, h), k).name == h.name && ParsedHdr(p, HdrBytes(p, h), k).nameRaw == h.nameRaw
  {
    HeldName(p, g);
    HdrField(p, h, 0);
  }

  lemma HeldKeywordsSurvive(p: Page, g: FilesHdr, h: FilesHdr, k: u16)
    requires IsPage(p) && Shaped(g) && Shaped(h) && HdrHolds(p, g) && h.keywords == g.keywords
    ensures ParsedHdr(p, HdrBytes(p, h), k).keywords == h.keywords
  {
    forall i: nat | i < 5 ensures DecodeAll(p, HDR, HdrBytes(p, h))[10 + i] == Text(h.keywords[i]) { HeldKeyword(p, h, i); }
    KeywordsAre(p, h, k, h.keywords);
  }

  lemma HeldTextSurvives(p: Page, g: FilesHdr, h: FilesHdr, k: u16)
    requires IsPage(p) && Shaped(g) && Shaped(h) && HdrHolds(p, g)
    requires h.name == g.name && h.nameRaw == g.nameRaw && h.keywords == g.keywords
    ensures ParsedHdr(p, HdrBytes(p, h), k).name == h.name && ParsedHdr(p, HdrBytes(p, h), k).nameRaw == h.nameRaw
    ensures ParsedHdr(p, HdrBytes(p, h), k).keywords == h.keywords
  {
    HeldNameSurvives(p, g, h, k);
    HeldKeywordsSurvive(p, g, h, k);
  }

  lemma RealKeepsText(p: Page)
    requires IsPage(p)
    ensures KeepsText(RealCodec(p))
  {
    forall g: FilesHdr, h: FilesHdr, k: u16 |
      Shaped(g) && Shaped(h) && HdrHolds(p, g) && h.name == g.name && h.nameRaw == g.nameRaw && h.keywords == g.keywords
      ensures ParsedHdr(p, HdrBytes(p, h), k).name == h.name && ParsedHdr(p, HdrBytes(p, h), k).nameRaw == h.nameRaw
      ensures ParsedHdr(p, HdrBytes(p, h), k).keywords == h.keywords {
      HeldTextSurvives(p, g, h, k);
    }
  }

  /** Everything proved of the catalogue holds of the program's records. */
  lemma RealIsCodec(p: Page)
    requires IsPage(p)
    ensures IsCodec(RealCodec(p))
  {
    RealSizes(p);
    RealParses(p);
    RealHoldsByText(p);
    RealKeepsNumbers(p);
    RealKeepsText(p);
  }
}
