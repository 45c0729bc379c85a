/** What holds of every base that `AppendMsg` built. */
module JamTheorems {
  import opened Options
  import opened Bytes
  import opened JamBytes
  import opened JamText
  import opened JamFormat
  import opened JamView
  import opened JamLayout
  import opened JamBase

  /** Marks where a proof looks at the files of a built base. */
  predicate Compares(n: nat) { true }

  /** The files hold exactly the messages `ms`, numbered from `base`; compared only where a proof says `Compares`. */
  ghost predicate Built(f: Format, hash: text -> u32, jdx: text, jhr: text, jdt: text, base: int, ms: seq<Msg>) {
    IsJam(f, hash) && base >= 1 && forall n: nat {:trigger Compares(n)} :: Compares(n) ==>
      jdx == Jdx(f, base, ms) && jhr == Jhr(f, base, ms) && jdt == Jdt(f, ms)
  }

  /** The messages the first `n` drafts become, each stored at its own time. */
  function StoredAll(drafts: seq<Draft>, nows: seq<u32>, n: nat): (ms: seq<Msg>)
    requires n <= |drafts| == |nows|
    ensures |ms| == n
  {
    if n == 0 then [] else StoredAll(drafts, nows, n - 1) + [Stored(drafts[n - 1], nows[n - 1])]
  }

  /** Appending every draft to an empty base builds it. */
  method AppendAll(b: Base, drafts: seq<Draft>, nows: seq<u32>)
    requires |nows| == |drafts| && IsJam(b.format, b.hash) && b.jdx == [] && b.jhr == [] && b.jdt == []
    modifies b`jdx, b`jhr, b`jdt, b`jhd
    ensures BaseMsg(b.jhd) == old(BaseMsg(b.jhd))
    ensures Built(b.format, b.hash, b.jdx, b.jhr, b.jdt, BaseMsg(b.jhd), StoredAll(drafts, nows, |drafts|))
  {
    for i := 0 to |drafts|
      invariant BaseMsg(b.jhd) == old(BaseMsg(b.jhd))
      invariant Built(b.format, b.hash, b.jdx, b.jhr, b.jdt, BaseMsg(b.jhd), StoredAll(drafts, nows, i))
    {
      var num := AppendOne(b, StoredAll(drafts, nows, i), drafts[i], nows[i]);
    }
  }

  /** One append to a built base: the new message gets the next number, the files those of the longer list. */
  method AppendOne(b: Base, ghost ms: seq<Msg>, d: Draft, now: u32) returns (num: int)
    requires Built(b.format, b.hash, b.jdx, b.jhr, b.jdt, BaseMsg(b.jhd), ms)
    modifies b`jdx, b`jhr, b`jdt, b`jhd
    ensures num == BaseMsg(b.jhd) + |ms| && BaseMsg(b.jhd) == old(BaseMsg(b.jhd))
    ensures Built(b.format, b.hash, b.jdx, b.jhr, b.jdt, BaseMsg(b.jhd), ms + [Stored(d, now)])
  {
    assert Compares(0);
    SlotCount(b.format, b.hash, BaseMsg(b.jhd), ms);
    LayoutGrows(b.format, BaseMsg(b.jhd), ms, Stored(d, now));
    num := b.AppendMsg(d, now);
  }

  lemma SlotCount(f: Format, hash: text -> u32, base: nat, ms: seq<Msg>)
    requires IsJam(f, hash)
    ensures Slots(Jdx(f, base, ms)) == |ms|
  {
    JamIsSized(f, hash);
    JdxSize(f, base, ms);
  }

  // ---------------------------------------------------------------- slot by slot

  /** What message number `num` shows: nothing once it is deleted. */
  function SlotArticle(m: Msg, num: int): Option<Article> {
    if Deleted(m.attr) then None else Some(ReadBack(m, num))
  }

  lemma OpenSlot(jdx: text, jhr: text, jdt: text, base: int, k: nat, at: nat, r: Option<Article>)
    requires k < Slots(jdx) && Loc(jdx, k) == at && ArticleAt(jhr, jdt, at, base + k) == r
    ensures ArtSlot(jdx, jhr, jdt, base, k) == r
  {}

  /** A slot whose index entry, header and text are those of message number `num`. */
  lemma SlotHolds(f: Format, hash: text -> u32, jdx: text, jhr: text, jdt: text, base: int, k: nat, at: nat, ofs: nat, m: Msg)
    requires k < Slots(jdx) && Loc(jdx, k) == at && Faithful(m) && IsJam(f, hash)
    requires 1 <= base && base + k < 0x8000_0000 && ofs < 0x1_0000_0000
    requires LiesAt(jhr, at, f.head(m, base + k, ofs)) && LiesAt(jdt, ofs, f.raw(m))
    ensures ArtSlot(jdx, jhr, jdt, base, k) == SlotArticle(m, base + k)
  {
    ReadWritten(f, hash, jhr, jdt, at, ofs, m, base + k, base + k);
    OpenSlot(jdx, jhr, jdt, base, k, at, SlotArticle(m, base + k));
  }

  lemma HighHolds(f: Format, hash: text -> u32, jdx: text, jhr: text, base: int, k: nat, at: nat, ofs: nat, m: Msg)
    requires k < Slots(jdx) && Loc(jdx, k) == at && Faithful(m) && IsJam(f, hash)
    requires 1 <= base && base + k < 0x8000_0000 && ofs < 0x1_0000_0000
    requires LiesAt(jhr, at, f.head(m, base + k, ofs))
    ensures HighSlot(jdx, jhr, base, k) == if Deleted(m.attr) || at < BASE_SIZE then 0 else base + k
  {
    var h := WrittenHeader(f, hash, jhr, at, m, base + k, ofs);
    HighOfHeader(jdx, jhr, base, k, at, h);
  }

  lemma HighOfHeader(jdx: text, jhr: text, base: int, k: nat, at: nat, h: text)
    requires k < Slots(jdx) && Loc(jdx, k) == at && HeaderAt(jhr, at) == Some(h)
    requires 1 <= U32At(h, 48) < 0x8000_0000
    ensures HighSlot(jdx, jhr, base, k) == if Deleted(U32At(h, 52)) || at < BASE_SIZE then 0 else U32At(h, 48)
  {}

  lemma BuiltSize(v: View, f: Format, hash: text -> u32, jdx: text, jhr: text, jdt: text, base: int, ms: seq<Msg>)
    requires Built(f, hash, jdx, jhr, jdt, base, ms) && Shows(v, jdx, jhr, jdt, base)
    ensures v.n == |ms|
  {
    assert Compares(0);
    SlotCount(f, hash, base, ms);
  }

  lemma BuiltSlot(v: View, f: Format, hash: text -> u32, jdx: text, jhr: text, jdt: text, base: int, ms: seq<Msg>, k: nat)
    requires Built(f, hash, jdx, jhr, jdt, base, ms) && Fits(f, base, ms) && AllFaithful(ms) && k < |ms|
    requires Shows(v, jdx, jhr, jdt, base)
    ensures v.art(k) == SlotArticle(ms[k], base + k)
    ensures v.high(k) == if Deleted(ms[k].attr) || HeadPos(f, base, ms, k) < BASE_SIZE then 0 else base + k
  {
    var at, ofs, m := HeadPos(f, base, ms, k), TextPos(f, ms, k), ms[k];
    assert Compares(0) && Trusts(k);
    SlotOf(f, hash, base, ms, k);
    HeadAt(f, base, ms, k);
    JamLayout.TextAt(f, ms, k);
    RegionsEnd(f, base, ms, k);
    SlotHolds(f, hash, jdx, jhr, jdt, base, k, at, ofs, m);
    HighHolds(f, hash, jdx, jhr, base, k, at, ofs, m);
    assert Peeks(k);
  }

  /** Every slot shows its message; a message is opened only where a proof says `Trusts`. */
  ghost predicate Pictures(v: View, base: int, ms: seq<Msg>) {
    && v.n == |ms|
    && (forall k: nat | k < |ms| :: v.art(k).Some? <==> !Deleted(ms[k].attr))
    && (forall k: nat | v.Live(k) :: v.Num(k) == base + k)
    && (forall k: nat {:trigger Trusts(k)} :: Trusts(k) && k < |ms| ==> v.art(k) == SlotArticle(ms[k], base + k))
  }

  lemma BuiltPictures(v: View, f: Format, hash: text -> u32, jdx: text, jhr: text, jdt: text, base: int, ms: seq<Msg>)
    requires Built(f, hash, jdx, jhr, jdt, base, ms) && Fits(f, base, ms) && AllFaithful(ms)
    requires Shows(v, jdx, jhr, jdt, base)
    ensures Pictures(v, base, ms)
  {
    BuiltSize(v, f, hash, jdx, jhr, jdt, base, ms);
    forall k: nat | k < |ms| ensures v.art(k) == SlotArticle(ms[k], base + k) {
      BuiltSlot(v, f, hash, jdx, jhr, jdt, base, ms, k);
    }
    SlotsArePictures(v, base, ms);
  }

  lemma SlotsArePictures(v: View, base: int, ms: seq<Msg>)
    requires v.n == |ms| && forall k: nat | k < |ms| :: v.art(k) == SlotArticle(ms[k], base + k)
    ensures Pictures(v, base, ms)
  {}

  /** Message `k` of a built base sits in slot `k` with number base + k, and reads back as it was given, however
      many messages were appended after it. */
  lemma EveryMessageReadsBack(v: View, f: Format, hash: text -> u32, jdx: text, jhr: text, jdt: text, base: int, ms: seq<Msg>, num: int)
    requires Built(f, hash, jdx, jhr, jdt, base, ms) && Fits(f, base, ms) && AllFaithful(ms)
    requires Shows(v, jdx, jhr, jdt, base)
    ensures Numbered(v, base)
    ensures (exists i: nat :: v.Has(i, num)) <==> base <= num < base + |ms| && !Deleted(ms[num - base].attr)
    ensures forall i: nat | v.Has(i, num) :: i == num - base && i < |ms| && v.art(i) == Some(ReadBack(ms[i], num))
  {
    BuiltPictures(v, f, hash, jdx, jhr, jdt, base, ms);
    PicturesNumber(v, base, ms, num);
  }

  lemma PicturesNumber(v: View, base: int, ms: seq<Msg>, num: int)
    requires Pictures(v, base, ms)
    ensures Numbered(v, base)
    ensures (exists i: nat :: v.Has(i, num)) <==> base <= num < base + |ms| && !Deleted(ms[num - base].attr)
    ensures forall i: nat | v.Has(i, num) :: i == num - base && i < |ms| && v.art(i) == Some(ReadBack(ms[i], num))
  {
    if base <= num < base + |ms| && !Deleted(ms[num - base].attr) {
      assert Trusts(num - base);
      assert v.Has(num - base, num);
    }
  }

  // ---------------------------------------------------------------- the highest number

  /** The last live slot with a number below `hi`, searched by slot. */
  lemma {:induction false} LastHighIs(v: View, lo: nat, hi: nat, k: nat)
    requires lo <= k < hi <= v.n && v.high(k) > 0 && forall i | k < i < hi :: v.high(i) <= 0
    ensures LastHigh(v, lo, hi) == v.high(k)
    decreases hi
  {
    if k < hi - 1 { LastHighIs(v, lo, hi - 1, k); }
  }

  lemma {:induction false} LastHighNone(v: View, lo: nat, hi: nat)
    requires lo <= hi <= v.n && forall i | lo <= i < hi :: v.high(i) <= 0
    ensures LastHigh(v, lo, hi) == 0
    decreases hi
  {
    if lo < hi { LastHighNone(v, lo, hi - 1); }
  }

  /** Slot `k` of the fast scan, for live messages numbered by slot: nothing if its header lies before byte 1024. */
  ghost predicate HighSlots(v: View, base: int) {
    forall k: nat | k < v.n :: v.high(k) == 0 || (v.Live(k) && v.high(k) == base + k)
  }

  /** The headers that lie past byte 1024 are the later ones. */
  ghost predicate LaterAreFar(v: View) {
    forall j: nat, k: nat | j < k < v.n && v.Live(k) && v.high(j) > 0 :: v.high(k) > 0
  }

  /** What `Stats` must say when messages are numbered by slot: the number of the last live slot. */
  lemma StatsHighIsLast(v: View, base: int, s: Stats)
    requires Numbered(v, base) && base >= 1 && IsStats(v, v.n, s)
    ensures s.high == 0 ==> forall i: nat :: !v.Live(i)
    ensures s.high > 0 ==> base <= s.high < base + v.n && v.Live(s.high - base) && forall i: nat | v.Live(i) :: base + i <= s.high
  {
    if s.active > 0 {
      var i: nat :| i < v.n && v.Has(i, s.high);
    }
  }

  /** From slot 14 on, live messages have their headers past byte 1024. */
  ghost predicate LateAreFar(v: View) {
    forall k: nat | 14 <= k < v.n && v.Live(k) :: v.high(k) > 0
  }

  /** With nothing deleted the fast path gives the highest number, for any number of slots. */
  lemma FastHighUndeleted(v: View, base: int, s: Stats)
    requires Numbered(v, base) && base >= 1 && IsStats(v, v.n, s)
    requires HighSlots(v, base) && LaterAreFar(v) && LateAreFar(v) && forall i: nat | i < v.n :: v.Live(i)
    ensures FastHigh(v, base) == s.high == (if v.n == 0 then 0 else base + v.n - 1)
  {
    StatsHighIsLast(v, base, s);
    if v.n > 0 {
      assert v.Live(v.n - 1);
      UndeletedHigh(v, base);
    }
  }

  lemma UndeletedHigh(v: View, base: int)
    requires v.n > 0 && base >= 1 && HighSlots(v, base) && LaterAreFar(v) && LateAreFar(v) && v.Live(v.n - 1)
    ensures FastHigh(v, base) == base + v.n - 1
  {
    var last := v.n - 1;
    if v.high(last) > 0 {
      LastHighIs(v, if v.n > HIGH_SCAN_MAX then v.n - HIGH_SCAN_MAX else 0, v.n, last);
    } else {
      assert forall j: nat | j < last :: v.high(j) <= 0;
      LastHighNone(v, 0, v.n);
    }
  }

  ghost predicate NumberedIn(v: View, lo: nat, hi: nat) { exists k: nat :: lo <= k < hi && v.high(k) > 0 }

  ghost predicate LiveIn(v: View, lo: nat, hi: nat) { exists k: nat :: lo <= k < hi && v.Live(k) }

  /** Where the last window of slots begins. */
  function LastWindow(v: View): nat { if v.n > HIGH_SCAN_MAX then v.n - HIGH_SCAN_MAX else 0 }

  /** When the fast path is right: a numbered slot in the last window; or one in the first window only, and nothing
      live between the two; or none in either, and the last slot live (nothing live at all on a base too long to
      count slots on). */
  ghost predicate FastIsRight(v: View) {
    if NumberedIn(v, LastWindow(v), v.n) then true
    else if v.n > HIGH_SCAN_MAX && NumberedIn(v, 0, HIGH_SCAN_MAX) then !LiveIn(v, HIGH_SCAN_MAX, LastWindow(v))
    else if v.n <= IDX_SANE_MAX then v.n == 0 || v.Live(v.n - 1)
    else !LiveIn(v, 0, v.n)
  }

  /** The last window: its last numbered slot is the last live slot of all. */
  lemma NumberedAtEnd(v: View, base: int, s: Stats)
    requires Numbered(v, base) && base >= 1 && IsStats(v, v.n, s) && HighSlots(v, base) && LaterAreFar(v)
    requires NumberedIn(v, LastWindow(v), v.n)
    ensures FastHigh(v, base) == s.high
  {
    StatsHighIsLast(v, base, s);
    var k: nat :| LastWindow(v) <= k < v.n && v.high(k) > 0;
    var last := s.high - base;
    if last > k { assert v.high(last) > 0; }
    LastHighIs(v, LastWindow(v), v.n, last);
  }

  /** The first window: its last numbered slot is the last live one below the end of the window. */
  lemma NumberedAtStart(v: View, base: int, s: Stats) returns (k: nat)
    requires Numbered(v, base) && base >= 1 && IsStats(v, v.n, s) && HighSlots(v, base) && LaterAreFar(v)
    requires v.n > HIGH_SCAN_MAX && !NumberedIn(v, LastWindow(v), v.n) && NumberedIn(v, 0, HIGH_SCAN_MAX)
    ensures k < HIGH_SCAN_MAX && v.Live(k) && FastHigh(v, base) == base + k
    ensures forall i: nat | k < i < HIGH_SCAN_MAX || LastWindow(v) <= i < v.n :: !v.Live(i)
  {
    k := LastNumbered(v, HIGH_SCAN_MAX);
    LastHighNone(v, LastWindow(v), v.n);
    LastHighIs(v, 0, HIGH_SCAN_MAX, k);
    forall i: nat | k < i < HIGH_SCAN_MAX || LastWindow(v) <= i < v.n ensures !v.Live(i) {
      if k < i { assert v.Live(i) ==> v.high(i) > 0; }
    }
  }

  lemma {:induction false} LastNumbered(v: View, hi: nat) returns (k: nat)
    requires NumberedIn(v, 0, hi)
    ensures k < hi && v.high(k) > 0 && forall i | k < i < hi :: v.high(i) <= 0
    decreases hi
  {
    if v.high(hi - 1) > 0 { return hi - 1; }
    k := LastNumbered(v, hi - 1);
  }

  /** Neither window has a number: the answer is counted from the slots, or 0. */
  lemma NumberedNowhere(v: View, base: int, s: Stats)
    requires Numbered(v, base) && base >= 1 && IsStats(v, v.n, s) && HighSlots(v, base)
    requires !NumberedIn(v, LastWindow(v), v.n) && (v.n > HIGH_SCAN_MAX ==> !NumberedIn(v, 0, HIGH_SCAN_MAX))
    ensures FastHigh(v, base) == s.high <==>
            if v.n <= IDX_SANE_MAX then v.n == 0 || v.Live(v.n - 1) else !LiveIn(v, 0, v.n)
  {
    StatsHighIsLast(v, base, s);
    LastHighNone(v, LastWindow(v), v.n);
    if v.n > HIGH_SCAN_MAX { LastHighNone(v, 0, HIGH_SCAN_MAX); }
    if s.high > 0 { assert v.Live(s.high - base); }
  }

  /** With any deletions and any number of slots, the fast path is right exactly when `FastIsRight` says. */
  lemma FastHighExact(v: View, base: int, s: Stats)
    requires Numbered(v, base) && base >= 1 && IsStats(v, v.n, s)
    requires HighSlots(v, base) && LaterAreFar(v)
    ensures FastHigh(v, base) == s.high <==> FastIsRight(v)
  {
    if NumberedIn(v, LastWindow(v), v.n) {
      NumberedAtEnd(v, base, s);
    } else if v.n > HIGH_SCAN_MAX && NumberedIn(v, 0, HIGH_SCAN_MAX) {
      var k := NumberedAtStart(v, base, s);
      StatsHighIsLast(v, base, s);
      if LiveIn(v, HIGH_SCAN_MAX, LastWindow(v)) {
        var i: nat :| HIGH_SCAN_MAX <= i < LastWindow(v) && v.Live(i);
      } else {
        assert v.Live(s.high - base) && s.high - base >= k;
      }
    } else {
      NumberedNowhere(v, base, s);
    }
  }

  /** Headers take at least 76 bytes each. */
  lemma {:induction false} HeadPosAtLeast(f: Format, base: nat, ms: seq<Msg>, k: nat)
    requires k <= |ms| && Sized(f)
    ensures HeadPos(f, base, ms, k) >= HDR_SIZE * k
  {
    if k > 0 {
      HeadPosAtLeast(f, base, ms, k - 1);
      assert ms[..k][..k - 1] == ms[..k - 1];
    }
  }

  /** Where headers start at or past byte 1024 they do so from there on. */
  lemma FarStaysFar(v: View, f: Format, hash: text -> u32, jdx: text, jhr: text, jdt: text, base: int, ms: seq<Msg>, j: nat, k: nat)
    requires Built(f, hash, jdx, jhr, jdt, base, ms) && Fits(f, base, ms) && AllFaithful(ms)
    requires Shows(v, jdx, jhr, jdt, base) && j < k < |ms| && v.Live(k) && v.high(j) > 0
    ensures v.high(k) > 0
  {
    BuiltSlot(v, f, hash, jdx, jhr, jdt, base, ms, j);
    BuiltSlot(v, f, hash, jdx, jhr, jdt, base, ms, k);
    RegionsInOrder(f, base, ms, j, k);
  }

  /** From message 14 on, headers lie past byte 1024. */
  lemma LateIsFar(v: View, f: Format, hash: text -> u32, jdx: text, jhr: text, jdt: text, base: int, ms: seq<Msg>, k: nat)
    requires Built(f, hash, jdx, jhr, jdt, base, ms) && Fits(f, base, ms) && AllFaithful(ms)
    requires Shows(v, jdx, jhr, jdt, base) && 14 <= k < |ms| && v.Live(k)
    ensures v.high(k) > 0
  {
    BuiltSlot(v, f, hash, jdx, jhr, jdt, base, ms, k);
    JamIsSized(f, hash);
    HeadPosAtLeast(f, base, ms, k);
  }

  lemma BuiltHighSlots(v: View, f: Format, hash: text -> u32, jdx: text, jhr: text, jdt: text, base: int, ms: seq<Msg>)
    requires Built(f, hash, jdx, jhr, jdt, base, ms) && Fits(f, base, ms) && AllFaithful(ms)
    requires Shows(v, jdx, jhr, jdt, base) && Pictures(v, base, ms)
    ensures HighSlots(v, base)
  {
    forall k: nat | k < |ms| ensures v.high(k) == 0 || (v.Live(k) && v.high(k) == base + k) {
      BuiltSlot(v, f, hash, jdx, jhr, jdt, base, ms, k);
    }
  }

  lemma BuiltLaterAreFar(v: View, f: Format, hash: text -> u32, jdx: text, jhr: text, jdt: text, base: int, ms: seq<Msg>)
    requires Built(f, hash, jdx, jhr, jdt, base, ms) && Fits(f, base, ms) && AllFaithful(ms)
    requires Shows(v, jdx, jhr, jdt, base) && v.n == |ms|
    ensures LaterAreFar(v)
  {
    forall j: nat, k: nat | j < k < v.n && v.Live(k) && v.high(j) > 0 ensures v.high(k) > 0 {
      FarStaysFar(v, f, hash, jdx, jhr, jdt, base, ms, j, k);
    }
  }

  lemma BuiltLateAreFar(v: View, f: Format, hash: text -> u32, jdx: text, jhr: text, jdt: text, base: int, ms: seq<Msg>)
    requires Built(f, hash, jdx, jhr, jdt, base, ms) && Fits(f, base, ms) && AllFaithful(ms)
    requires Shows(v, jdx, jhr, jdt, base) && v.n == |ms|
    ensures LateAreFar(v)
  {
    forall k: nat | 14 <= k < v.n && v.Live(k) ensures v.high(k) > 0 {
      LateIsFar(v, f, hash, jdx, jhr, jdt, base, ms, k);
    }
  }

  /** On every undeleted base that appends built, the fast path and the full scan name the same highest message. */
  lemma FastHighOfBuilt(v: View, f: Format, hash: text -> u32, jdx: text, jhr: text, jdt: text, base: int, ms: seq<Msg>, s: Stats)
    requires Built(f, hash, jdx, jhr, jdt, base, ms) && Fits(f, base, ms) && AllFaithful(ms)
    requires Shows(v, jdx, jhr, jdt, base) && IsStats(v, v.n, s)
    requires forall i | 0 <= i < |ms| :: !Deleted(ms[i].attr)
    ensures FastHigh(v, base) == s.high == (if |ms| == 0 then 0 else base + |ms| - 1)
  {
    BuiltPictures(v, f, hash, jdx, jhr, jdt, base, ms);
    BuiltHighSlots(v, f, hash, jdx, jhr, jdt, base, ms);
    BuiltLaterAreFar(v, f, hash, jdx, jhr, jdt, base, ms);
    BuiltLateAreFar(v, f, hash, jdx, jhr, jdt, base, ms);
    PicturesUndeleted(v, base, ms);
    FastHighUndeleted(v, base, s);
  }

  lemma PicturesUndeleted(v: View, base: int, ms: seq<Msg>)
    requires Pictures(v, base, ms) && forall i | 0 <= i < |ms| :: !Deleted(ms[i].attr)
    ensures Numbered(v, base) && forall i: nat | i < v.n :: v.Live(i)
  {}

  /** So it is on every base that appends built, whatever was deleted since. */
  lemma FastHighOfDeleted(v: View, f: Format, hash: text -> u32, jdx: text, jhr: text, jdt: text, base: int, ms: seq<Msg>, s: Stats)
    requires Built(f, hash, jdx, jhr, jdt, base, ms) && Fits(f, base, ms) && AllFaithful(ms)
    requires Shows(v, jdx, jhr, jdt, base) && IsStats(v, v.n, s)
    ensures FastHigh(v, base) == s.high <==> FastIsRight(v)
  {
    BuiltPictures(v, f, hash, jdx, jhr, jdt, base, ms);
    BuiltHighSlots(v, f, hash, jdx, jhr, jdt, base, ms);
    BuiltLaterAreFar(v, f, hash, jdx, jhr, jdt, base, ms);
    PicturesAreNumbered(v, base, ms);
    FastHighExact(v, base, s);
  }

  lemma PicturesAreNumbered(v: View, base: int, ms: seq<Msg>)
    requires Pictures(v, base, ms)
    ensures Numbered(v, base)
  {}

  // ---------------------------------------------------------------- bases on which the fast path is wrong

  const EMPTY_LIVE: Msg := Msg(NO_FIELDS, [], [], 0, LOCAL)
  const EMPTY_DELETED: Msg := Msg(NO_FIELDS, [], [], 0, 0x8000_0000)

  /** `n` empty messages, deleted but for those `live` names. */
  function Sparse(n: nat, live: nat -> bool): (ms: seq<Msg>)
    ensures |ms| == n && forall i | 0 <= i < n :: ms[i] == if live(i) then EMPTY_LIVE else EMPTY_DELETED
  {
    seq(n, i requires 0 <= i < n => if live(i) then EMPTY_LIVE else EMPTY_DELETED)
  }

  lemma EmptyEntry(m: Msg, num: nat, ofs: nat)
    requires m == EMPTY_LIVE || m == EMPTY_DELETED
    ensures |Entry(m, num, ofs)| == 100 && Raw(m) == [] && Faithful(m)
  {
    var x: seq<Item> := [(2, []), (3, []), (6, [])];
    assert Items(NO_FIELDS) == x;
    assert x[1..] == [(3, []), (6, [])] && x[1..][1..] == [(6, [])] && x[1..][1..][1..] == [];
    assert |Cat(x)| == 24;
    EmptyText();
  }

  lemma EmptyText()
    ensures Crlf([]) == [] && KludgeBytes([]) == [] && Norm([]) == [] && Split([]) == [[]]
  {}

  lemma EmptyFormat(f: Format, hash: text -> u32, m: Msg, num: nat, ofs: nat)
    requires IsJam(f, hash) && (m == EMPTY_LIVE || m == EMPTY_DELETED)
    ensures |f.head(m, num, ofs)| == 100 && f.raw(m) == []
  {
    FormatOf(f, hash, m, num, ofs);
    EmptyEntry(m, num, ofs);
  }

  predicate AllEmpty(ms: seq<Msg>) { forall i | 0 <= i < |ms| :: ms[i] == EMPTY_LIVE || ms[i] == EMPTY_DELETED }

  lemma {:induction false} SparseSizes(f: Format, hash: text -> u32, base: nat, ms: seq<Msg>)
    requires IsJam(f, hash) && AllEmpty(ms)
    ensures |Jhr(f, base, ms)| == 100 * |ms| && Jdt(f, ms) == []
  {
    if ms != [] {
      var k := |ms| - 1;
      SparseSizes(f, hash, base, ms[..k]);
      EmptyFormat(f, hash, ms[k], base + k, |Jdt(f, ms[..k])|);
    }
  }

  lemma SparseHeads(f: Format, hash: text -> u32, base: nat, ms: seq<Msg>, k: nat)
    requires IsJam(f, hash) && AllEmpty(ms) && k <= |ms|
    ensures HeadPos(f, base, ms, k) == 100 * k
  {
    SparseSizes(f, hash, base, ms[..k]);
  }

  /** Such a base, as its slots show it. */
  lemma SparseSlots(v: View, f: Format, hash: text -> u32, jdx: text, jhr: text, jdt: text, base: nat, n: nat, live: nat -> bool)
    requires Built(f, hash, jdx, jhr, jdt, base, Sparse(n, live)) && n <= 1_000_000 && base <= 1_000_000 && Shows(v, jdx, jhr, jdt, base)
    ensures Numbered(v, base) && v.n == n
    ensures forall i: nat | i < n :: v.Live(i) == live(i) && v.high(i) == if live(i) && i >= 11 then base + i else 0
  {
    var ms := Sparse(n, live);
    SparseSizes(f, hash, base, ms);
    forall i: nat | i < n ensures Faithful(ms[i]) { EmptyEntry(ms[i], 0, 0); }
    BuiltPictures(v, f, hash, jdx, jhr, jdt, base, ms);
    PicturesAreNumbered(v, base, ms);
    forall i: nat | i < n ensures v.Live(i) == live(i) && v.high(i) == if live(i) && i >= 11 then base + i else 0 {
      BuiltSlot(v, f, hash, jdx, jhr, jdt, base, ms, i);
      SparseHeads(f, hash, base, ms, i);
    }
  }

  /** Two messages, the second deleted: the fast path still answers 2. */
  lemma DeletedLastIsAnswered(v: View, f: Format, hash: text -> u32, jdx: text, jhr: text, jdt: text, s: Stats)
    requires Built(f, hash, jdx, jhr, jdt, 1, Sparse(2, i => i == 0)) && Shows(v, jdx, jhr, jdt, 1) && IsStats(v, v.n, s)
    ensures FastHigh(v, 1) == 2 && s.high == 1
  {
    SparseSlots(v, f, hash, jdx, jhr, jdt, 1, 2, i => i == 0);
    StatsHighIsLast(v, 1, s);
    assert v.Live(0) && !v.Live(1);
    LastHighNone(v, 0, 2);
  }

  /** One message, number 5, on a base numbered from 5: going back from 1 answers it. */
  lemma BackFromOneGoesUp(v: View, f: Format, hash: text -> u32, jdx: text, jhr: text, jdt: text)
    requires Built(f, hash, jdx, jhr, jdt, 5, Sparse(1, i => true)) && Shows(v, jdx, jhr, jdt, 5)
    ensures NextSlot(v, 5, 1, false) == Some(0) && v.Live(0) && v.Num(0) == 5
  {
    SparseSlots(v, f, hash, jdx, jhr, jdt, 5, 1, i => true);
    assert v.Live(0);
    BackwardBelowBase(v, 5, 1);
  }

  predicate TwoLive(i: nat) { i == 20 || i == 100_000 }

  /** 200000 messages of which only the 21st and the 100001st are left: the fast path looks at neither end of the
      middle and answers 21. */
  lemma MiddleIsMissed(v: View, f: Format, hash: text -> u32, jdx: text, jhr: text, jdt: text, s: Stats)
    requires Built(f, hash, jdx, jhr, jdt, 1, Sparse(200_000, TwoLive)) && Shows(v, jdx, jhr, jdt, 1) && IsStats(v, v.n, s)
    ensures FastHigh(v, 1) == 21 && s.high == 100_001
  {
    SparseSlots(v, f, hash, jdx, jhr, jdt, 1, 200_000, TwoLive);
    TwoOfMany(v, s);
  }

  lemma TwoOfMany(v: View, s: Stats)
    requires v.n == 200_000 && Numbered(v, 1) && IsStats(v, v.n, s)
    requires forall i: nat | i < v.n :: v.Live(i) == TwoLive(i) && v.high(i) == if TwoLive(i) && i >= 11 then 1 + i else 0
    ensures FastHigh(v, 1) == 21 && s.high == 100_001
  {
    LastHighNone(v, 134_464, 200_000);
    LastHighIs(v, 0, 65_536, 20);
    assert v.high(20) == 21 && v.Live(100_000);
    StatsHighIsLast(v, 1, s);
  }

  /** There are such bases and such views, for every hash. */
  lemma SparseIsBuilt(hash: text -> u32, base: nat, ms: seq<Msg>)
    requires base >= 1
    ensures var f := Jam(hash);
            Built(f, hash, Jdx(f, base, ms), Jhr(f, base, ms), Jdt(f, ms), base, ms)
            && Shows(ViewOf(hash, Jdx(f, base, ms), Jhr(f, base, ms), Jdt(f, ms), base, [], []),
                     Jdx(f, base, ms), Jhr(f, base, ms), Jdt(f, ms), base)
  {
    var f := Jam(hash);
    JamIsJam(hash);
    ViewShows(hash, Jdx(f, base, ms), Jhr(f, base, ms), Jdt(f, ms), base, [], []);
  }
}
