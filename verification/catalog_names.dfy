/** Long file names: where they are stored, and that an upload of the same name finds its entry again. */
module CatalogNames {
  import opened Bytes
  import opened CodePage
  import opened PascalStrings
  import opened PascalRecords
  import opened FileRecords
  import opened CatalogText
  import opened FileCatalog
  import opened FileCodec
  import opened CatalogLife

  /** Taking outer blanks off takes off blanks only, and all of them. */
  lemma TrimmedIs(s: text) returns (a: text, b: text)
    ensures s == a + TrimSpace(s) + b && Blank(a) && Blank(b)
    ensures TrimSpace(s) != [] ==> !IsSpace(TrimSpace(s)[0]) && !IsSpace(TrimSpace(s)[|TrimSpace(s)| - 1])
  {
    a := TrimmedLeft(s);
    b := TrimmedRight(TrimLeft(s));
    assert s == a + (TrimSpace(s) + b);
  }

  lemma {:induction false} TrimmedLeft(s: text) returns (a: text)
    ensures s == a + TrimLeft(s) && Blank(a) && (TrimLeft(s) != [] ==> !IsSpace(TrimLeft(s)[0]))
  {
    a := [];
    if s != [] && IsSpace(s[0]) {
      var more := TrimmedLeft(s[1..]);
      a := [s[0]] + more;
      assert s == [s[0]] + s[1..];
    }
  }

  lemma {:induction false} TrimmedRight(s: text) returns (b: text)
    ensures s == TrimRight(s) + b && Blank(b) && (TrimRight(s) != [] ==> !IsSpace(TrimRight(s)[|TrimRight(s)| - 1]) && TrimRight(s)[0] == s[0])
  {
    b := [];
    if s != [] && IsSpace(s[|s| - 1]) {
      var more := TrimmedRight(s[..|s| - 1]);
      b := more + [s[|s| - 1]];
      assert s == s[..|s| - 1] + [s[|s| - 1]];
    }
  }

  // ---------------------------------------------------------------- what is stored of a long name

  /** `n` bytes of `raw` are stored: up to the first NUL, and at most 255. */
  predicate Keeps(raw: seq<byte>, n: nat) {
    n <= |raw| && n <= 255 && (forall k | 0 <= k < n :: raw[k] != 0) && (n == 255 || n == |raw| || raw[n] == 0)
  }

  lemma {:induction false} NulFromIs(b: seq<byte>, i: nat, limit: nat)
    requires i <= limit <= |b|
    ensures var e := NulFrom(b, i, limit); (forall k | i <= k < e :: b[k] != 0) && (e < limit ==> b[e] == 0)
    decreases limit - i
  {
    if i < limit && b[i] != 0 { NulFromIs(b, i + 1, limit); }
  }

  /** Read back from where it was put, with whatever behind it. */
  lemma StoredPart(front: seq<byte>, raw: seq<byte>, more: seq<byte>) returns (n: nat)
    requires raw != []
    ensures Keeps(raw, n)
    ensures var t := front + Ended(raw) + more; var e := NulFrom(t, |front|, Least(|front| + 255, |t|)); e == |front| + n && t[|front|..e] == raw[..n]
  {
    var t := front + Ended(raw) + more;
    var e := NulFrom(t, |front|, Least(|front| + 255, |t|));
    NulFromIs(t, |front|, Least(|front| + 255, |t|));
    n := e - |front|;
    Inside(front, Ended(raw), more);
    EndsThere(t, |front|, raw, e);
  }

  lemma Inside(a: seq<byte>, b: seq<byte>, c: seq<byte>)
    ensures |a| + |b| <= |a + b + c| && forall k | 0 <= k < |b| :: (a + b + c)[|a| + k] == b[k]
  {}

  lemma EndsThere(t: seq<byte>, at: nat, raw: seq<byte>, e: nat)
    requires raw != [] && at + |Ended(raw)| <= |t| && forall k | 0 <= k < |Ended(raw)| :: t[at + k] == Ended(raw)[k]
    requires at <= e <= Least(at + 255, |t|) && (forall k | at <= k < e :: t[k] != 0) && (e < Least(at + 255, |t|) ==> t[e] == 0)
    ensures Keeps(raw, e - at) && t[at..e] == raw[..e - at]
  {
    var last := |Ended(raw)| - 1;
    assert Ended(raw)[last] == 0 && t[at + last] == 0;
    assert e <= at + last;
    assert forall k | 0 <= k < |raw| :: Ended(raw)[k] == raw[k];
    forall k | 0 <= k < e - at ensures raw[k] != 0 { assert t[at + k] != 0; }
    if e - at < 255 && e - at < |raw| { assert t[e] == raw[e - at]; }
  }

  /** The long name of an entry whose pointer leads to `raw` in the text file: what is stored of it, or the short name where
      that is blank. With a pointer of 0 it is always the short name. */
  lemma LongNameIs(p: Page, front: seq<byte>, raw: seq<byte>, more: seq<byte>, lfn: seq<byte>, h: FilesHdr) returns (n: nat)
    requires raw != [] && h.lfnPtr == |front|
    ensures Keeps(raw, n)
    ensures var s := TrimSpace(Decoded(p, raw[..n]));
            LongName(p, front + Ended(raw) + more, lfn, h) == if front == [] || s == [] then TrimSpace(h.name) else s
  {
    n := StoredPart(front, raw, more);
  }

  /** A name that is stored whole: in the code page, at most 255 characters, no NUL, not empty, without outer blanks. */
  predicate Whole(p: Page, name: text) {
    && 1 <= |name| <= 255 && !IsSpace(name[0]) && !IsSpace(name[|name| - 1])
    && forall k | 0 <= k < |name| :: name[k] != 0 && p.decode(p.encode(name[k])) == name[k]
  }

  lemma WholeName(p: Page, name: text, n: nat)
    requires IsPage(p) && Whole(p, name) && Keeps(Encoded(p, name), n)
    ensures TrimSpace(Decoded(p, Encoded(p, name)[..n])) == name
  {
    var raw := Encoded(p, name);
    assert p.decode(0) == 0;
    forall k | 0 <= k < |name| ensures raw[k] != 0 {}
    assert n == |raw| && raw[..n] == raw;
    assert Decoded(p, raw) == name;
    assert TrimLeft(name) == name && TrimRight(name) == name;
  }

  // ---------------------------------------------------------------- a new entry with a long name

  /** Entry `i` of `g` is live and has its long name at place `at` of a text that has gone on growing since. */
  ghost predicate NamedAt(c: Codec, p: Page, g: Files, i: nat, at: nat, name: text) {
    && i < Count(g) && !Deleted(HdrAt(c, g.hdr, i)) && HdrAt(c, g.hdr, i).lfnPtr == at
    && exists more: seq<byte> :: HasName(p, g.txt, at, name, more)
  }

  predicate HasName(p: Page, txt: seq<byte>, at: nat, name: text, more: seq<byte>) {
    at <= |txt| && txt == txt[..at] + Ended(Encoded(p, name)) + more
  }

  lemma NewNumbers(c: Codec, p: Page, key: text -> i32, f: Files, u: Upload)
    requires IsCodec(c) && Sound(c, f)
    ensures var g, h := Cataloged(c, p, key, f, u), NewHeader(c, p, f.txt, u);
            Count(g) == Count(f) + 1 && HdrAt(c, g.hdr, Count(f)).lfnPtr == h.lfnPtr && HdrAt(c, g.hdr, Count(f)).attrib == u.attrib
  {
    assert Trusts(0);
    HeaderExtends(c, p, key, f, NewHeader(c, p, f.txt, u), NewText(p, u));
  }

  lemma CatalogedName(c: Codec, p: Page, key: text -> i32, f: Files, u: Upload)
    requires IsCodec(c) && Sound(c, f) && |f.txt| + |Ended(LongRaw(p, u))| < 0x8000_0000
    requires u.long && u.name != [] && u.attrib % 2 == 0
    ensures NamedAt(c, p, Cataloged(c, p, key, f, u), Count(f), |f.txt|, u.name)
  {
    NewNumbers(c, p, key, f, u);
    PointerOf(f.txt, LongRaw(p, u));
    NameAfter(p, f.txt, u.name, Ended(DescRaw(p, u)), Cataloged(c, p, key, f, u).txt);
  }

  lemma NameAfter(p: Page, front: seq<byte>, name: text, more: seq<byte>, whole: seq<byte>)
    requires whole == front + (Ended(Encoded(p, name)) + more)
    ensures HasName(p, whole, |front|, name, more)
  {
    Regroup(front, Ended(Encoded(p, name)), more);
    assert whole[..|front|] == front;
  }

  /** Such an entry has that long name, unless it is the first text of the area: then it has its short name only. */
  lemma NamedLongName(c: Codec, p: Page, g: Files, i: nat, at: nat, name: text, lfn: seq<byte>) returns (n: nat)
    requires NamedAt(c, p, g, i, at, name) && name != []
    ensures Keeps(Encoded(p, name), n)
    ensures var s := TrimSpace(Decoded(p, Encoded(p, name)[..n])); var h := HdrAt(c, g.hdr, i);
            LongName(p, g.txt, lfn, h) == if at == 0 || s == [] then TrimSpace(h.name) else s
  {
    var more :| HasName(p, g.txt, at, name, more);
    n := LongNameIs(p, g.txt[..at], Encoded(p, name), more, lfn, HdrAt(c, g.hdr, i));
  }

  /** So an upload of a name stored whole knows the entry exactly if its text was not the first, or the short name will do. */
  lemma KnownExactly(c: Codec, p: Page, same: (text, text) -> bool, g: Files, i: nat, at: nat, name: text, lfn: seq<byte>)
    requires IsPage(p) && NamedAt(c, p, g, i, at, name) && Whole(p, name) && same(name, name)
    ensures Known(p, same, g.txt, lfn, name)(HdrAt(c, g.hdr, i)) <==>
            at > 0 || same(HdrAt(c, g.hdr, i).name, name) || same(TrimSpace(HdrAt(c, g.hdr, i).name), name)
  {
    var n := NamedLongName(c, p, g, i, at, name, lfn);
    WholeName(p, name, n);
  }

  // ---------------------------------------------------------------- later events

  /** The event does not overwrite entry `i` by a header that is deleted or points elsewhere for the name. */
  predicate Spares(e: Event, i: nat, at: nat) { e.Rewrite? && e.i == i ==> !Deleted(e.h) && e.h.lfnPtr == at }

  lemma MoreText(p: Page, txt: seq<byte>, at: nat, name: text, more: seq<byte>, next: seq<byte>)
    requires HasName(p, txt, at, name, more)
    ensures HasName(p, txt + next, at, name, more + next)
  {
    assert (txt + next)[..at] == txt[..at];
    assert txt + next == txt[..at] + Ended(Encoded(p, name)) + more + next;
    assert txt[..at] + Ended(Encoded(p, name)) + more + next == txt[..at] + Ended(Encoded(p, name)) + (more + next);
  }

  lemma TextStays(c: Codec, p: Page, f: Files, g: Files, i: nat, at: nat, name: text)
    requires NamedAt(c, p, f, i, at, name) && i < Count(g) && f.txt <= g.txt
    requires !Deleted(HdrAt(c, g.hdr, i)) && HdrAt(c, g.hdr, i).lfnPtr == at
    ensures NamedAt(c, p, g, i, at, name)
  {
    var more :| HasName(p, f.txt, at, name, more);
    var next := g.txt[|f.txt|..];
    MoreText(p, f.txt, at, name, more, next);
    assert g.txt == f.txt + next;
  }

  /** Uploads of any kind, and changes of other entries, leave it so. */
  lemma StepKeepsName(c: Codec, p: Page, key: text -> i32, same: (text, text) -> bool, f: Files, e: Event, i: nat, at: nat, name: text)
    requires IsCodec(c) && IsPage(p) && Healthy(c, p, key, f) && Plain(e) && |Step(c, p, key, same, f, e).txt| < 0x8000_0000
    requires NamedAt(c, p, f, i, at, name) && Spares(e, i, at)
    ensures NamedAt(c, p, Step(c, p, key, same, f, e), i, at, name)
  {
    var g := Step(c, p, key, same, f, e);
    StepKeepsHealth(c, p, key, same, f, e);
    HeaderAfter(c, p, key, same, f, e, i, at);
    TextStays(c, p, f, g, i, at, name);
  }

  lemma HeaderAfter(c: Codec, p: Page, key: text -> i32, same: (text, text) -> bool, f: Files, e: Event, i: nat, at: nat)
    requires IsCodec(c) && IsPage(p) && Healthy(c, p, key, f) && |Step(c, p, key, same, f, e).txt| < 0x8000_0000
    requires i < Count(f) && !Deleted(HdrAt(c, f.hdr, i)) && HdrAt(c, f.hdr, i).lfnPtr == at && Spares(e, i, at)
    ensures var g := Step(c, p, key, same, f, e); i < Count(g) && !Deleted(HdrAt(c, g.hdr, i)) && HdrAt(c, g.hdr, i).lfnPtr == at
  {
    var g := Step(c, p, key, same, f, e);
    if e.Rewrite? {
      if g != f {
        ReplacedEntry(c, p, f, e.i, e.h, i);
        if i != e.i { assert EntryAt(c, p, g, i).hdr == EntryAt(c, p, f, i).hdr; }
      }
    } else if g == Cataloged(c, p, key, f, e.u) {
      TextOfAdded(c, p, key, f, e.u);
      CatalogedExtends(c, p, key, f, e.u);
      assert EntryAt(c, p, g, i) == EntryAt(c, p, f, i);
    } else if e.Again? {
      UpdatedEntry(c, p, f, FirstWith(Entries(c, p, f), Known(p, same, f.txt, e.lfn, e.u.name), 0), e.u, i);
      assert EntryAt(c, p, g, i).hdr == HdrAt(c, g.hdr, i);
    }
  }

  /** The catalogue after more events. */
  function Later(c: Codec, p: Page, key: text -> i32, same: (text, text) -> bool, f: Files, es: seq<Event>): Files {
    if es == [] then f else Step(c, p, key, same, Later(c, p, key, same, f, es[..|es| - 1]), es[|es| - 1])
  }

  lemma {:induction false} LaterKeepsName(c: Codec, p: Page, key: text -> i32, same: (text, text) -> bool, f: Files, es: seq<Event>, i: nat, at: nat, name: text)
    requires IsCodec(c) && IsPage(p) && Healthy(c, p, key, f) && AllPlain(es) && |Later(c, p, key, same, f, es).txt| < 0x8000_0000
    requires NamedAt(c, p, f, i, at, name) && forall k | 0 <= k < |es| :: Spares(es[k], i, at)
    ensures Healthy(c, p, key, Later(c, p, key, same, f, es)) && NamedAt(c, p, Later(c, p, key, same, f, es), i, at, name)
  {
    if es != [] {
      var front, e := es[..|es| - 1], es[|es| - 1];
      StepGrows(c, p, key, same, Later(c, p, key, same, f, front), e);
      LaterKeepsName(c, p, key, same, f, front, i, at, name);
      StepKeepsHealth(c, p, key, same, Later(c, p, key, same, f, front), e);
      StepKeepsName(c, p, key, same, Later(c, p, key, same, f, front), e, i, at, name);
    }
  }

  /** A file with a long name, catalogued in an area that has some text already: however many uploads follow, and whatever
      happens to other entries, uploading the name again updates that entry or an earlier one, and catalogues nothing new. */
  lemma LongNameIsFound(c: Codec, p: Page, key: text -> i32, same: (text, text) -> bool, f: Files, u: Upload, es: seq<Event>, again: Upload, lfn: seq<byte>)
    requires IsCodec(c) && IsPage(p) && Healthy(c, p, key, f) && f.txt != [] && (NoStops(u.desc) || Blank(u.desc))
    requires u.long && Whole(p, u.name) && u.attrib % 2 == 0 && same(u.name, u.name) && again.name == u.name
    requires AllPlain(es) && forall k | 0 <= k < |es| :: Spares(es[k], Count(f), |f.txt|)
    requires |Cataloged(c, p, key, f, u).txt| < 0x8000_0000
    requires |Later(c, p, key, same, Cataloged(c, p, key, f, u), es).txt| < 0x8000_0000
    ensures var g := Later(c, p, key, same, Cataloged(c, p, key, f, u), es);
            var at := FirstWith(Entries(c, p, g), Known(p, same, g.txt, lfn, again.name), 0);
            at <= Count(f) < Count(g) && Step(c, p, key, same, g, Again(again, lfn)) == Updated(c, g, at, again)
  {
    var g := Later(c, p, key, same, Cataloged(c, p, key, f, u), es);
    TextOfAdded(c, p, key, f, u);
    AddKeepsHealth(c, p, key, f, u);
    CatalogedName(c, p, key, f, u);
    LaterKeepsName(c, p, key, same, Cataloged(c, p, key, f, u), es, Count(f), |f.txt|, u.name);
    KnownExactly(c, p, same, g, Count(f), |f.txt|, u.name, lfn);
    assert Entries(c, p, g)[Count(f)].hdr == HdrAt(c, g.hdr, Count(f));
  }

  // ---------------------------------------------------------------- the first long name of an area

  /** A long name of printable ASCII that does not fit the name field, with no blank where either ends. */
  predicate LongAscii(name: text) {
    12 < |name| <= 255 && name[0] != 32 && name[11] != 32 && name[|name| - 1] != 32 && forall k | 0 <= k < |name| :: 32 <= name[k] < 128
  }

  function Game(name: text, now: u32): Upload { Upload(name, true, [], [], [], 0, 0, 1, 0, 0, now) }

  lemma CutName(p: Page, name: text)
    requires IsPage(p) && LongAscii(name)
    ensures Cut(p, name) == name[..12] && TrimSpace(name[..12]) == name[..12] && Whole(p, name)
  {
    PackedText(p, 12, name);
    forall k | 0 <= k < |name| ensures p.decode(p.encode(name[k])) == name[k] { assert p.decode(name[k]) == name[k]; }
    assert Decoded(p, Encoded(p, name)[..12]) == name[..12];
    assert TrimNul(name[..12]) == name[..12];
  }

  lemma NewName(c: Codec, p: Page, key: text -> i32, f: Files, u: Upload)
    requires IsCodec(c) && Sound(c, f) && |f.txt| + |Ended(LongRaw(p, u))| < 0x8000_0000 && u.dosName == []
    ensures Count(Cataloged(c, p, key, f, u)) == Count(f) + 1
    ensures HdrAt(c, Cataloged(c, p, key, f, u).hdr, Count(f)).name == c.cut(u.name)
  {
    assert Trusts(0);
    HeaderExtends(c, p, key, f, NewHeader(c, p, f.txt, u), NewText(p, u));
  }

  /** The first text of an area is a long name: uploading that name again does not find its entry, and catalogues it twice. */
  lemma FirstLongNameIsMissed(p: Page, key: text -> i32, same: (text, text) -> bool, name: text, now: u32, later: u32)
    requires IsPage(p) && LongAscii(name) && same(name, name) && !same(name[..12], name)
    ensures Count(Run(RealCodec(p), p, key, same, [Again(Game(name, now), [])])) == 1
    ensures Count(Run(RealCodec(p), p, key, same, [Again(Game(name, now), []), Again(Game(name, later), [])])) == 2
  {
    RealIsCodec(p);
    CutName(p, name);
    MissedTwice(RealCodec(p), p, key, same, name, now, later);
  }

  lemma MissedTwice(c: Codec, p: Page, key: text -> i32, same: (text, text) -> bool, name: text, now: u32, later: u32)
    requires IsCodec(c) && IsPage(p) && Whole(p, name) && |name| > 12 && same(name, name) && !same(name[..12], name)
    requires c.cut(name) == name[..12] == TrimSpace(name[..12])
    ensures Count(Run(c, p, key, same, [Again(Game(name, now), [])])) == 1
    ensures Count(Run(c, p, key, same, [Again(Game(name, now), []), Again(Game(name, later), [])])) == 2
  {
    var one := Cataloged(c, p, key, Files([], [], []), Game(name, now));
    NotKnown(c, p, key, same, name, now);
    OneMoreEntry(c, p, key, one, Game(name, later));
    TwoRuns(c, p, key, same, Again(Game(name, now), []), Again(Game(name, later), []));
  }

  lemma NotKnown(c: Codec, p: Page, key: text -> i32, same: (text, text) -> bool, name: text, now: u32)
    requires IsCodec(c) && IsPage(p) && Whole(p, name) && |name| > 12 && same(name, name) && !same(name[..12], name)
    requires c.cut(name) == name[..12] == TrimSpace(name[..12])
    ensures var one := Cataloged(c, p, key, Files([], [], []), Game(name, now));
            Sound(c, one) && Count(one) == 1 && FirstWith(Entries(c, p, one), Known(p, same, one.txt, [], name), 0) == 1
  {
    var none := Files([], [], []);
    var one := Cataloged(c, p, key, none, Game(name, now));
    CatalogedExtends(c, p, key, none, Game(name, now));
    CatalogedName(c, p, key, none, Game(name, now));
    NewName(c, p, key, none, Game(name, now));
    KnownExactly(c, p, same, one, 0, 0, name, []);
  }

  lemma OneMoreEntry(c: Codec, p: Page, key: text -> i32, f: Files, u: Upload)
    requires IsCodec(c) && Sound(c, f)
    ensures Count(Cataloged(c, p, key, f, u)) == Count(f) + 1
  {
    assert Trusts(0);
    HeaderExtends(c, p, key, f, NewHeader(c, p, f.txt, u), NewText(p, u));
  }

  lemma TwoRuns(c: Codec, p: Page, key: text -> i32, same: (text, text) -> bool, a: Event, b: Event)
    ensures Run(c, p, key, same, [a]) == Step(c, p, key, same, Files([], [], []), a)
    ensures Run(c, p, key, same, [a, b]) == Step(c, p, key, same, Run(c, p, key, same, [a]), b)
  {
    assert [a, b][..1] == [a] && [a][..0] == [];
    assert Run(c, p, key, same, []) == Files([], [], []);
  }
}
