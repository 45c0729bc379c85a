/** The upload dates in a catalogue's index: when they agree with the headers', over its whole life. */
module CatalogDates {
  import opened Bytes
  import opened CodePage
  import opened PascalStrings
  import opened PascalRecords
  import opened FileRecords
  import opened CatalogText
  import opened FileCatalog
  import opened FileCodec
  import opened CatalogLife

  /** A new entry has its date in both records, and no old entry's changes. */
  lemma CatalogedDates(c: Codec, p: Page, key: text -> i32, f: Files, u: Upload, k: nat)
    requires IsCodec(c) && Aligned(f) && k <= Count(f)
    ensures Aligned(Cataloged(c, p, key, f, u)) && Count(Cataloged(c, p, key, f, u)) == Count(f) + 1
    ensures Dated(c, Cataloged(c, p, key, f, u), k) <==> k == Count(f) || Dated(c, f, k)
    ensures IdxAt(c, Cataloged(c, p, key, f, u).idx, k).uploadDate == if k < Count(f) then IdxAt(c, f.idx, k).uploadDate else u.now
  {
    assert Trusts(0);
    HeaderDates(c, key, f, NewHeader(c, p, f.txt, u), NewText(p, u), k);
  }

  /** What an event does to the dates in the index: it adds the one of a new entry, if there is one. */
  lemma StepDates(c: Codec, p: Page, key: text -> i32, same: (text, text) -> bool, f: Files, e: Event, k: nat)
    requires IsCodec(c) && Aligned(f) && k < Count(Step(c, p, key, same, f, e))
    ensures var g := Step(c, p, key, same, f, e);
            Aligned(g) && Count(g) == Count(f) + (if Grows(c, p, same, f, e) then 1 else 0)
            && IdxAt(c, g.idx, k).uploadDate == if k < Count(f) then IdxAt(c, f.idx, k).uploadDate else e.u.now
  {
    if Grows(c, p, same, f, e) {
      CatalogedDates(c, p, key, f, e.u, Count(f));
      CatalogedDates(c, p, key, f, e.u, k);
    } else if e.Again? {
      UpdatedEntry(c, p, f, FirstWith(Entries(c, p, f), Known(p, same, f.txt, e.lfn, e.u.name), 0), e.u, 0);
    } else if e.Rewrite? && e.i < Count(f) && TakesPlace(HdrAt(c, f.hdr, e.i), e.h) {
      ReplacedEntry(c, p, f, e.i, e.h, 0);
    }
  }

  /** The event catalogues a new entry. */
  predicate Grows(c: Codec, p: Page, same: (text, text) -> bool, f: Files, e: Event) {
    match e
    case Add(u) => FirstWith(Entries(c, p, f), Called(same, u.name), 0) == Count(f)
    case Again(u, lfn) => FirstWith(Entries(c, p, f), Known(p, same, f.txt, lfn, u.name), 0) == Count(f)
    case Rewrite(_, _) => false
  }

  /** The times at which the entries of a run were catalogued, in order. */
  function Times(c: Codec, p: Page, key: text -> i32, same: (text, text) -> bool, es: seq<Event>): seq<u32> {
    if es == [] then [] else
    var front, e := es[..|es| - 1], es[|es| - 1];
    Times(c, p, key, same, front) + if Grows(c, p, same, Run(c, p, key, same, front), e) then [e.u.now] else []
  }

  /** After any events the index has for every entry the time it was catalogued at. */
  lemma {:induction false} IndexDates(c: Codec, p: Page, key: text -> i32, same: (text, text) -> bool, es: seq<Event>)
    requires IsCodec(c)
    ensures var f, ts := Run(c, p, key, same, es), Times(c, p, key, same, es);
            Aligned(f) && Count(f) == |ts| && forall k | 0 <= k < |ts| :: IdxAt(c, f.idx, k).uploadDate == ts[k]
  {
    if es == [] {
      assert Run(c, p, key, same, es) == Files([], [], []);
    } else {
      IndexDates(c, p, key, same, es[..|es| - 1]);
      NextDates(c, p, key, same, Run(c, p, key, same, es[..|es| - 1]), es[|es| - 1], Times(c, p, key, same, es[..|es| - 1]));
    }
  }

  lemma NextDates(c: Codec, p: Page, key: text -> i32, same: (text, text) -> bool, f: Files, e: Event, ts: seq<u32>)
    requires IsCodec(c) && Aligned(f) && Count(f) == |ts| && forall k | 0 <= k < |ts| :: IdxAt(c, f.idx, k).uploadDate == ts[k]
    ensures var g, us := Step(c, p, key, same, f, e), ts + if Grows(c, p, same, f, e) then [e.u.now] else [];
            Aligned(g) && Count(g) == |us| && forall k | 0 <= k < |us| :: IdxAt(c, g.idx, k).uploadDate == us[k]
  {
    var g := Step(c, p, key, same, f, e);
    StepAligned(c, p, key, same, f, e);
    forall k: nat | k < Count(g)
      ensures IdxAt(c, g.idx, k).uploadDate == if k < Count(f) then IdxAt(c, f.idx, k).uploadDate else e.u.now {
      StepDates(c, p, key, same, f, e, k);
    }
  }

  lemma StepAligned(c: Codec, p: Page, key: text -> i32, same: (text, text) -> bool, f: Files, e: Event)
    requires IsCodec(c) && Aligned(f)
    ensures var g := Step(c, p, key, same, f, e); Aligned(g) && Count(g) == Count(f) + (if Grows(c, p, same, f, e) then 1 else 0)
  {
    if Grows(c, p, same, f, e) {
      CatalogedDates(c, p, key, f, e.u, Count(f));
    } else if Count(f) > 0 {
      var g := Step(c, p, key, same, f, e);
      if Count(g) > 0 { StepDates(c, p, key, same, f, e, 0); }
    }
  }

  /** So the two dates of an entry agree exactly when its header has the time it was catalogued at. */
  lemma DatedExactly(c: Codec, p: Page, key: text -> i32, same: (text, text) -> bool, es: seq<Event>, k: nat)
    requires IsCodec(c) && k < Count(Run(c, p, key, same, es))
    ensures Aligned(Run(c, p, key, same, es)) && |Times(c, p, key, same, es)| == Count(Run(c, p, key, same, es))
    ensures Dated(c, Run(c, p, key, same, es), k) <==> HdrAt(c, Run(c, p, key, same, es).hdr, k).uploadDate == Times(c, p, key, same, es)[k]
  {
    IndexDates(c, p, key, same, es);
  }

  // ---------------------------------------------------------------- a date left behind

  /** A file "A" at some time. */
  function Letter(now: u32): Upload { Upload([65], false, [], [], [], 0, 0, 1, 0, 0, now) }

  lemma LetterHolds(p: Page, now: u32)
    requires IsPage(p)
    ensures RealCodec(p).holds(NewHeader(RealCodec(p), p, [], Letter(now)))
  {
    StringReadsBack(p, 12, [65]);
    assert p.decode(65) == 65 && p.encode(p.decode(65)) == 65;
  }

  lemma FirstUpload(c: Codec, p: Page, key: text -> i32, now: u32)
    requires IsCodec(c) && IsPage(p) && c.holds(NewHeader(c, p, [], Letter(now)))
    ensures var f := Cataloged(c, p, key, Files([], [], []), Letter(now));
            Aligned(f) && Count(f) == 1 && Dated(c, f, 0) && HdrAt(c, f.hdr, 0).uploadDate == now
            && HdrAt(c, f.hdr, 0).name == [65] && HdrAt(c, f.hdr, 0).attrib == 0
  {
    var none := Files([], [], []);
    CatalogedHeader(c, p, key, none, Letter(now));
    CatalogedDates(c, p, key, none, Letter(now), 0);
  }

  /** A file uploaded twice: the index keeps the first time, the header has the second. */
  lemma SecondUploadIsNotDated(p: Page, key: text -> i32, same: (text, text) -> bool, now: u32, later: u32)
    requires IsPage(p) && same([65], [65]) && now != later
    ensures var c := RealCodec(p);
            var f := Run(c, p, key, same, [Again(Letter(now), []), Again(Letter(later), [])]);
            Aligned(f) && Count(f) == 1 && HdrAt(c, f.hdr, 0).uploadDate == later && IdxAt(c, f.idx, 0).uploadDate == now
            && !Dated(c, f, 0)
  {
    RealIsCodec(p);
    LetterHolds(p, now);
    TwoUploads(RealCodec(p), p, key, same, now, later);
  }

  lemma TwoUploads(c: Codec, p: Page, key: text -> i32, same: (text, text) -> bool, now: u32, later: u32)
    requires IsCodec(c) && IsPage(p) && same([65], [65]) && now != later && c.holds(NewHeader(c, p, [], Letter(now)))
    ensures var f := Run(c, p, key, same, [Again(Letter(now), []), Again(Letter(later), [])]);
            Aligned(f) && Count(f) == 1 && HdrAt(c, f.hdr, 0).uploadDate == later && IdxAt(c, f.idx, 0).uploadDate == now
            && !Dated(c, f, 0)
  {
    var one := Cataloged(c, p, key, Files([], [], []), Letter(now));
    FirstUpload(c, p, key, now);
    TwoSteps(c, p, key, same, Again(Letter(now), []), Again(Letter(later), []));
    assert FirstWith(Entries(c, p, one), Known(p, same, one.txt, [], [65]), 0) == 0;
    UpdatedEntry(c, p, one, 0, Letter(later), 0);
    assert HdrAt(c, Updated(c, one, 0, Letter(later)).hdr, 0) == EntryAt(c, p, Updated(c, one, 0, Letter(later)), 0).hdr;
    UpdatedDates(c, p, one, 0, Letter(later), 0);
  }

  lemma TwoSteps(c: Codec, p: Page, key: text -> i32, same: (text, text) -> bool, a: Event, b: Event)
    ensures Run(c, p, key, same, [a, b]) == Step(c, p, key, same, Step(c, p, key, same, Files([], [], []), a), b)
  {
    assert [a, b][..1] == [a] && [a][..0] == [];
    assert Run(c, p, key, same, [a]) == Step(c, p, key, same, Run(c, p, key, same, []), a);
  }
}
