/** A catalogue over its whole life: uploads, deletions and other changes of headers in any order, then a compression. */
module CatalogLife {
  import opened Bytes
  import opened CodePage
  import opened PascalStrings
  import opened PascalRecords
  import opened FileRecords
  import opened CatalogText
  import opened FileCatalog

  /** A file catalogued with a description; one that came in by transfer and may be known; or a header overwritten
      by one with the same name, keywords and description, as deleting a file and counting a download do. */
  datatype Event = Add(u: Upload) | Again(u: Upload, lfn: seq<byte>) | Rewrite(i: nat, h: FilesHdr)

  function Step(c: Codec, p: Page, key: text -> i32, same: (text, text) -> bool, f: Files, e: Event): Files {
    match e
    case Add(u) =>
      if FirstWith(Entries(c, p, f), Called(same, u.name), 0) < Count(f) then f else Cataloged(c, p, key, f, u)
    case Again(u, lfn) =>
      var at := FirstWith(Entries(c, p, f), Known(p, same, f.txt, lfn, u.name), 0);
      if at < Count(f) then Updated(c, f, at, u) else Cataloged(c, p, key, f, u)
    case Rewrite(i, h) =>
      if i < Count(f) && TakesPlace(HdrAt(c, f.hdr, i), h) then Replaced(c, f, i, h) else f
  }

  function Run(c: Codec, p: Page, key: text -> i32, same: (text, text) -> bool, es: seq<Event>): Files {
    if es == [] then Files([], [], []) else Step(c, p, key, same, Run(c, p, key, same, es[..|es| - 1]), es[|es| - 1])
  }

  /** A description without NUL or SUB in it, or a blank one, which is not stored. */
  predicate Plain(e: Event) { e.Rewrite? || NoStops(e.u.desc) || Blank(e.u.desc) }

  predicate AllPlain(es: seq<Event>) { forall i | 0 <= i < |es| :: Plain(es[i]) }

  ghost predicate Healthy(c: Codec, p: Page, key: text -> i32, f: Files) {
    Sound(c, f) && Indexed(c, key, f) && AllSettled(c, p, f)
  }

  lemma AddKeepsHealth(c: Codec, p: Page, key: text -> i32, f: Files, u: Upload)
    requires IsCodec(c) && IsPage(p) && Healthy(c, p, key, f) && (NoStops(u.desc) || Blank(u.desc))
    requires |Cataloged(c, p, key, f, u).txt| < 0x8000_0000
    ensures Healthy(c, p, key, Cataloged(c, p, key, f, u)) && f.txt <= Cataloged(c, p, key, f, u).txt
  {
    TextOfAdded(c, p, key, f, u);
    CatalogedExtends(c, p, key, f, u);
    CatalogedEntry(c, p, key, f, u);
    OneMoreSettled(c, p, f, Cataloged(c, p, key, f, u));
  }

  lemma TextOfAdded(c: Codec, p: Page, key: text -> i32, f: Files, u: Upload)
    ensures |Cataloged(c, p, key, f, u).txt| >= |f.txt| + |Ended(LongRaw(p, u))|
  {}

  lemma OneMoreSettled(c: Codec, p: Page, f: Files, g: Files)
    requires AllSettled(c, p, f) && Extends(c, p, f, g) && Count(g) == Count(f) + 1 && Settled(EntryAt(c, p, g, Count(f)))
    ensures AllSettled(c, p, g)
  {
    forall i | 0 <= i < Count(g) ensures Settled(EntryAt(c, p, g, i)) {
      if i < Count(f) { assert Settled(EntryAt(c, p, f, i)) && EntryAt(c, p, g, i) == EntryAt(c, p, f, i); }
    }
  }

  /** Every event keeps the catalogue healthy and its text file's old contents. */
  lemma StepKeepsHealth(c: Codec, p: Page, key: text -> i32, same: (text, text) -> bool, f: Files, e: Event)
    requires IsCodec(c) && IsPage(p) && Healthy(c, p, key, f) && Plain(e)
    requires |Step(c, p, key, same, f, e).txt| < 0x8000_0000
    ensures Healthy(c, p, key, Step(c, p, key, same, f, e)) && f.txt <= Step(c, p, key, same, f, e).txt
  {
    var g := Step(c, p, key, same, f, e);
    if e.Rewrite? {
      if g != f { ReplaceKeeps(c, p, key, f, e.i, e.h); }
    } else if g == Cataloged(c, p, key, f, e.u) {
      AddKeepsHealth(c, p, key, f, e.u);
    } else if e.Again? {
      UpdateKeeps(c, p, key, f, FirstWith(Entries(c, p, f), Known(p, same, f.txt, e.lfn, e.u.name), 0), e.u);
    }
  }

  lemma StepGrows(c: Codec, p: Page, key: text -> i32, same: (text, text) -> bool, f: Files, e: Event)
    ensures |f.txt| <= |Step(c, p, key, same, f, e).txt|
  {}

  /** After any events: as many index records as headers, each the header's, the text ended and every entry settled. */
  lemma {:induction false} RunIsHealthy(c: Codec, p: Page, key: text -> i32, same: (text, text) -> bool, es: seq<Event>)
    requires IsCodec(c) && IsPage(p) && AllPlain(es) && |Run(c, p, key, same, es).txt| < 0x8000_0000
    ensures Healthy(c, p, key, Run(c, p, key, same, es))
  {
    if es == [] {
      assert Run(c, p, key, same, es) == Files([], [], []);
    } else {
      var f, e := Run(c, p, key, same, es[..|es| - 1]), es[|es| - 1];
      StepGrows(c, p, key, same, f, e);
      RunIsHealthy(c, p, key, same, es[..|es| - 1]);
      StepKeepsHealth(c, p, key, same, f, e);
    }
  }

  // ---------------------------------------------------------------- deleting

  /** Deleting and counting downloads are such changes. */
  lemma MarkedTakesPlace(h: FilesHdr)
    requires Shaped(h)
    ensures TakesPlace(h, Marked(h)) && Deleted(Marked(h)) && (!Deleted(h) ==> Marked(h).attrib == h.attrib + 1)
    ensures TakesPlace(h, Bumped(h)) && (Deleted(Bumped(h)) <==> Deleted(h))
  {}

  lemma {:induction false} KeepersAdd(a: seq<Entry>, b: seq<Entry>)
    ensures Keepers(a + b) == Keepers(a) + Keepers(b)
    decreases |b|
  {
    if b == [] {
      assert a + b == a;
    } else {
      var k := |b| - 1;
      KeepersAdd(a, b[..k]);
      assert (a + b)[..|a + b| - 1] == a + b[..k];
    }
  }

  /** A deleted entry is all that a deletion takes out of the entries that will stay. */
  lemma DeletionLeavesTheRest(c: Codec, p: Page, f: Files, i: nat)
    requires IsCodec(c) && Aligned(f) && i < Count(f)
    ensures Shaped(HdrAt(c, f.hdr, i)) && Count(Replaced(c, f, i, Marked(HdrAt(c, f.hdr, i)))) == Count(f)
    ensures var es := Entries(c, p, f);
            Keepers(Entries(c, p, Replaced(c, f, i, Marked(HdrAt(c, f.hdr, i))))) == Keepers(es[..i]) + Keepers(es[i + 1..])
  {
    ParsedHolds(c, f.hdr, i);
    var h := Marked(HdrAt(c, f.hdr, i));
    MarkedTakesPlace(HdrAt(c, f.hdr, i));
    ReplacedEntry(c, p, f, i, h, i);
    var es, gs := Entries(c, p, f), Entries(c, p, Replaced(c, f, i, h));
    forall k | 0 <= k < |es| && k != i ensures gs[k] == es[k] { ReplacedEntry(c, p, f, i, h, k); }
    OneDropped(es, gs, i);
  }

  lemma OneDropped(es: seq<Entry>, gs: seq<Entry>, i: nat)
    requires i < |es| == |gs| && Deleted(gs[i].hdr) && forall k | 0 <= k < |es| && k != i :: gs[k] == es[k]
    ensures Keepers(gs) == Keepers(es[..i]) + Keepers(es[i + 1..])
  {
    assert gs == es[..i] + ([gs[i]] + es[i + 1..]);
    DroppedBetween(es[..i], gs[i], es[i + 1..]);
  }

  lemma DroppedBetween(a: seq<Entry>, x: Entry, b: seq<Entry>)
    requires Deleted(x.hdr)
    ensures Keepers(a + ([x] + b)) == Keepers(a) + Keepers(b)
  {
    KeepersAdd(a, [x] + b);
    KeepersAdd([x], b);
    KeepNone(x);
  }

  lemma KeepNone(x: Entry)
    requires Deleted(x.hdr)
    ensures Keepers([x]) == []
  {
    assert [x][..0] == [];
  }

  /** Then compressing leaves exactly the undeleted entries, in order, with their names and descriptions. */
  lemma CompressAfterRun(c: Codec, p: Page, key: text -> i32, same: (text, text) -> bool, es: seq<Event>)
    requires IsCodec(c) && IsPage(p) && AllPlain(es) && |Run(c, p, key, same, es).txt| < 0x8000_0000
    requires |Compressed(c, p, key, Run(c, p, key, same, es)).txt| < 0x8000_0000
    ensures var f := Run(c, p, key, same, es);
            Keeps(c, p, key, Keepers(Entries(c, p, f)), Compressed(c, p, key, f))
            && Healthy(c, p, key, Compressed(c, p, key, f)) && AllDated(c, Compressed(c, p, key, f))
  {
    RunIsHealthy(c, p, key, same, es);
    CompressKeeps(c, p, key, Run(c, p, key, same, es));
  }
}
