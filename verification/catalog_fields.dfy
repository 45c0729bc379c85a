/** What a catalogue entry says of a file: when it is catalogued, uploaded again, downloaded and deleted. */
module CatalogFields {
  import opened Bytes
  import opened CodePage
  import opened PascalStrings
  import opened FileRecords
  import opened CatalogText
  import opened FileCatalog

  // ---------------------------------------------------------------- descriptions

  lemma {:induction false} NothingToUndo(s: text)
    requires CR !in s
    ensures UnCrlf(s) == s
  {
    if s != [] {
      assert s[0] in s && forall r | r in s[1..] :: r in s;
      NothingToUndo(s[1..]);
    }
  }

  /** A description is read as it was given, whether its lines ended with LF or with CR LF. */
  lemma DescriptionIsRead(c: Codec, p: Page, key: text -> i32, f: Files, u: Upload, d: text)
    requires IsCodec(c) && IsPage(p) && Sound(c, f) && |f.txt| + |Ended(LongRaw(p, u))| < 0x8000_0000
    requires Clean(p, d) && !Blank(d) && (u.desc == d || u.desc == AddCr(d))
    ensures Count(Cataloged(c, p, key, f, u)) == Count(f) + 1
    ensures EntryAt(c, p, Cataloged(c, p, key, f, u), Count(f)).desc == d
  {
    StoredBytes(p, d);
    CleanIsNormal(p, d);
    GoodStays(p, d);
    CrStaysInk(d);
    GoodAddCr(p, d);
    CatalogedEntry(c, p, key, f, u);
  }

  lemma GoodStays(p: Page, d: text)
    requires Clean(p, d)
    ensures Decoded(p, Encoded(p, d)) == d && NoStops(d) && Normal(d) == d
  {
    forall i | 0 <= i < |d| ensures Decoded(p, Encoded(p, d))[i] == d[i] { assert Good(p, d[i]); }
    assert CR !in d by { forall i | 0 <= i < |d| ensures d[i] != CR { assert Good(p, d[i]); } }
    forall i | 0 <= i < |d| ensures d[i] != 0 && d[i] != SUB { assert Good(p, d[i]); }
    NothingToUndo(d);
    assert CrToLf(d) == d;
  }

  lemma GoodAddCr(p: Page, d: text)
    requires Clean(p, d)
    ensures NoStops(AddCr(d))
  {
    var good := (r: rune) => r != 0 && r != SUB;
    forall i | 0 <= i < |d| ensures good(d[i]) { assert Good(p, d[i]); }
    AddCrKeeps(d, good);
    forall i | 0 <= i < |AddCr(d)| ensures AddCr(d)[i] != 0 && AddCr(d)[i] != SUB { assert good(AddCr(d)[i]); }
  }

  lemma {:induction false} CrStaysInk(d: text)
    ensures Blank(AddCr(d)) ==> Blank(d)
  {
    if d != [] && Blank(AddCr(d)) {
      var n := if d[0] == LF then 2 else 1;
      assert AddCr(d)[n..] == AddCr(d[1..]);
      assert AddCr(d)[0] == if d[0] == LF then CR else d[0];
      assert Blank(AddCr(d[1..])) by { forall i | 0 <= i < |AddCr(d[1..])| ensures IsSpace(AddCr(d[1..])[i]) { assert AddCr(d)[n + i] == AddCr(d[1..])[i]; } }
      CrStaysInk(d[1..]);
      forall i | 0 <= i < |d| ensures IsSpace(d[i]) { if i > 0 { assert d[i] == d[1..][i - 1]; } }
    }
  }

  // ---------------------------------------------------------------- fields

  /** A file newly catalogued: who uploaded it and when, its size and date, no downloads, no checksum, no password or keywords. */
  lemma NewEntrySays(c: Codec, p: Page, key: text -> i32, f: Files, u: Upload)
    requires IsCodec(c) && IsPage(p) && Sound(c, f) && |f.txt| + |Ended(LongRaw(p, u))| < 0x8000_0000
    requires c.holds(NewHeader(c, p, f.txt, u))
    ensures Count(Cataloged(c, p, key, f, u)) == Count(f) + 1
    ensures var h := EntryAt(c, p, Cataloged(c, p, key, f, u), Count(f)).hdr;
            && h.name == (if u.long && u.dosName != [] then u.dosName else u.name) && h.uploader == u.uploader
            && h.size == u.size && h.fileDate == u.fileDate && h.uploadDate == u.now && h.lastDL == u.now && h.timesDL == 0
            && h.attrib == u.attrib && h.cost == u.cost && h.crc32 == 0xFFFF_FFFF && h.password == [] && h.keywords == NO_KEYWORDS
            && (u.long || h.lfnPtr == -1) && (Blank(u.desc) ==> h.longDescPtr == -1)
  {
    CatalogedEntry(c, p, key, f, u);
    NewPointer(c, p, f.txt, u);
  }

  /** A file uploaded again: the entry has the new size, checksum and dates; its name, uploader, downloads, description
      pointers and everything else are as they were, and so are the other entries. */
  lemma UploadedAgainSays(c: Codec, p: Page, f: Files, i: nat, u: Upload, k: nat)
    requires IsCodec(c) && Aligned(f) && i < Count(f) && k < Count(f)
    ensures Aligned(Updated(c, f, i, u)) && Count(Updated(c, f, i, u)) == Count(f)
    ensures var h, o := EntryAt(c, p, Updated(c, f, i, u), k).hdr, EntryAt(c, p, f, k).hdr;
            if k != i then h == o else
            && h.size == u.size && h.crc32 == u.crc && h.fileDate == u.fileDate && h.uploadDate == u.now && h.lastDL == u.now
            && h.name == o.name && h.uploader == o.uploader && h.timesDL == o.timesDL && h.attrib == o.attrib && h.cost == o.cost
            && h.password == o.password && h.keywords == o.keywords && h.longDescPtr == o.longDescPtr && h.lfnPtr == o.lfnPtr
  {
    UpdatedEntry(c, p, f, i, u, k);
  }

  /** Deleting sets one bit of the attribute, once. */
  lemma MarkedSays(h: FilesHdr)
    ensures Deleted(Marked(h)) && Marked(h).attrib / 2 == h.attrib / 2 && Marked(h) == h.(attrib := Marked(h).attrib)
    ensures Marked(Marked(h)) == Marked(h)
  {}

  function BumpedTimes(h: FilesHdr, n: nat): FilesHdr { if n == 0 then h else Bumped(BumpedTimes(h, n - 1)) }

  /** After n downloads the counter, of 16 bits, is n higher, and nothing else changes. */
  lemma {:induction false} DownloadsAreCounted(h: FilesHdr, n: nat)
    ensures BumpedTimes(h, n).timesDL == (h.timesDL + n) % 0x1_0000 && BumpedTimes(h, n) == h.(timesDL := BumpedTimes(h, n).timesDL)
  {
    if n > 0 {
      DownloadsAreCounted(h, n - 1);
      OneMoreCounted(h.timesDL + n - 1);
    }
  }

  lemma OneMoreCounted(t: nat)
    ensures (t % 0x1_0000 + 1) % 0x1_0000 == (t + 1) % 0x1_0000
  {}
}
