/** The mailbox scan of a built base, and what marking a message received does to it. */
module JamMail {
  import opened Options
  import opened Bytes
  import opened JamBytes
  import opened JamText
  import opened JamFormat
  import opened JamView
  import opened JamLayout
  import opened JamBase
  import opened JamTheorems

  /** New mail: not deleted, not received, and to this name or handle. */
  predicate NewMail(m: Msg, name: text, handle: text) {
    !Deleted(m.attr) && !Received(m.attr) && YoursHeader(m.fields.to, name, handle)
  }

  /** The index shows the name or the handle: it holds the hash of the recipient as given, outer spaces and all. */
  predicate ShownByIndex(hash: text -> u32, m: Msg, name: text, handle: text) {
    CrcWanted(hash, hash(Lower(m.fields.to)), name, handle)
  }

  function Mine(name: text, handle: text): Msg -> bool { m => NewMail(m, name, handle) }

  function MineByIndex(hash: text -> u32, name: text, handle: text): Msg -> bool {
    m => NewMail(m, name, handle) && ShownByIndex(hash, m, name, handle)
  }

  /** The numbers of the messages that are `mine` among the first `n`, in order. */
  function MailBelow(base: int, ms: seq<Msg>, mine: Msg -> bool, n: nat): seq<int>
    requires n <= |ms|
  {
    if n == 0 then [] else
    MailBelow(base, ms, mine, n - 1) + if mine(ms[n - 1]) then [base + n - 1] else []
  }

  lemma CaseFolds(a: text, b: text)
    requires Upper(a) == Upper(b)
    ensures Lower(a) == Lower(b)
  {
    assert |a| == |Upper(a)| == |b|;
    forall i | 0 <= i < |a| ensures LowByte(a[i]) == LowByte(b[i]) {
      assert Upper(a)[i] == Upper(b)[i];
    }
  }

  /** The index loses no mail: whatever the header accepts, the hash in the index accepts. */
  lemma HashAgrees(hash: text -> u32, to: text, name: text, handle: text)
    requires Tight(to) && Tight(name) && Tight(handle) && YoursHeader(to, name, handle)
    ensures CrcWanted(hash, hash(Lower(to)), name, handle)
  {
    TightIsTrimmed(to);
    TightIsTrimmed(name);
    TightIsTrimmed(handle);
    if Upper(to) == Upper(name) { CaseFolds(to, name); } else { CaseFolds(to, handle); }
  }

  /** A written header shows the caller's mail exactly if the message is. */
  lemma HeaderShowsMail(jhr: text, at: nat, h: text, f: Fields, name: text, handle: text)
    requires HeaderAt(jhr, at) == Some(h) && U32At(h, 8) == |Subs(f)| && Storable(f)
    requires ReadAt(jhr, at + HDR_SIZE, |Subs(f)|) == Some(Subs(f))
    ensures YoursAt(jhr, at, name, handle) ==
            if !Deleted(U32At(h, 52)) && !Received(U32At(h, 52)) && YoursHeader(f.to, name, handle)
            then Some(U32At(h, 48)) else None
  {
    ReadFields(jhr, at, f);
    SubsNotEmpty(f);
  }

  lemma SlotShowsMail(f: Format, hash: text -> u32, jdx: text, jhr: text, base: int, name: text, handle: text, k: nat, at: nat, ofs: nat, m: Msg)
    requires k < Slots(jdx) && Loc(jdx, k) == at && ToCrc(jdx, k) == hash(Lower(m.fields.to)) && Faithful(m) && IsJam(f, hash)
    requires 1 <= base && base + k < 0x8000_0000 && ofs < 0x1_0000_0000 && LiesAt(jhr, at, f.head(m, base + k, ofs))
    ensures YoursSlot(hash, jdx, jhr, base, name, handle, k) == if MineByIndex(hash, name, handle)(m) then [base + k] else []
  {
    var h := WrittenHeader(f, hash, jhr, at, m, base + k, ofs);
    HeaderShowsMail(jhr, at, h, m.fields, name, handle);
  }

  /** On a built base the scan finds exactly the new mail that the index shows, whatever the names and the hash. */
  lemma ScanFindsMail(v: View, f: Format, hash: text -> u32, jdx: text, jhr: text, jdt: text, base: int, ms: seq<Msg>, name: text, handle: text)
    requires Built(f, hash, jdx, jhr, jdt, base, ms) && Fits(f, base, ms) && AllFaithful(ms)
    requires ShowsMail(v, hash, jdx, jhr, base, name, handle) && v.n == |ms|
    ensures YoursBelow(v, v.n) == MailBelow(base, ms, MineByIndex(hash, name, handle), |ms|)
  {
    var mine := MineByIndex(hash, name, handle);
    forall k: nat | k < |ms| ensures v.yours(k) == if mine(ms[k]) then [base + k] else [] {
      BuiltMailSlot(v, f, hash, jdx, jhr, jdt, base, ms, name, handle, k);
    }
    SumOfSlots(v, base, ms, mine, |ms|);
  }

  lemma {:induction false} SumOfSlots(v: View, base: int, ms: seq<Msg>, mine: Msg -> bool, n: nat)
    requires v.n == |ms| && n <= |ms|
    requires forall k: nat | k < |ms| :: v.yours(k) == if mine(ms[k]) then [base + k] else []
    ensures YoursBelow(v, n) == MailBelow(base, ms, mine, n)
  {
    if n > 0 { SumOfSlots(v, base, ms, mine, n - 1); }
  }

  lemma BuiltMailSlot(v: View, f: Format, hash: text -> u32, jdx: text, jhr: text, jdt: text, base: int, ms: seq<Msg>,
                      name: text, handle: text, k: nat)
    requires Built(f, hash, jdx, jhr, jdt, base, ms) && Fits(f, base, ms) && AllFaithful(ms)
    requires ShowsMail(v, hash, jdx, jhr, base, name, handle) && v.n == |ms| && k < |ms|
    ensures v.yours(k) == if MineByIndex(hash, name, handle)(ms[k]) then [base + k] else []
  {
    var at, ofs, m := HeadPos(f, base, ms, k), TextPos(f, ms, k), ms[k];
    assert Compares(0) && Trusts(k);
    SlotOf(f, hash, base, ms, k);
    HeadAt(f, base, ms, k);
    RegionsEnd(f, base, ms, k);
    SlotShowsMail(f, hash, jdx, jhr, base, name, handle, k, at, ofs, m);
    assert Peeks(k);
  }

  lemma {:induction false} SameMail(base: int, ms: seq<Msg>, mine: Msg -> bool, also: Msg -> bool, n: nat)
    requires n <= |ms| && forall i | 0 <= i < |ms| :: mine(ms[i]) == also(ms[i])
    ensures MailBelow(base, ms, mine, n) == MailBelow(base, ms, also, n)
  {
    if n > 0 { SameMail(base, ms, mine, also, n - 1); }
  }

  /** Without outer spaces in names and recipients the index hides nothing: the scan finds all the new mail. */
  lemma ScanFindsAll(v: View, f: Format, hash: text -> u32, jdx: text, jhr: text, jdt: text, base: int, ms: seq<Msg>, name: text, handle: text)
    requires Built(f, hash, jdx, jhr, jdt, base, ms) && Fits(f, base, ms) && AllFaithful(ms)
    requires ShowsMail(v, hash, jdx, jhr, base, name, handle) && v.n == |ms|
    requires Tight(name) && Tight(handle) && forall i | 0 <= i < |ms| :: Tight(ms[i].fields.to)
    ensures YoursBelow(v, v.n) == MailBelow(base, ms, Mine(name, handle), |ms|)
  {
    ScanFindsMail(v, f, hash, jdx, jhr, jdt, base, ms, name, handle);
    forall i | 0 <= i < |ms| ensures MineByIndex(hash, name, handle)(ms[i]) == Mine(name, handle)(ms[i]) {
      if NewMail(ms[i], name, handle) { HashAgrees(hash, ms[i].fields.to, name, handle); }
    }
    SameMail(base, ms, MineByIndex(hash, name, handle), Mine(name, handle), |ms|);
  }

  // ---------------------------------------------------------------- marking received

  function AddReceived(attr: u32): u32 { SetBit(attr, RECEIVED) }

  lemma PutTwice(x: text, off: nat, a: u32, b: u32)
    requires off + 4 <= |x|
    ensures PutU32(PutU32(x, off, a), off, b) == PutU32(x, off, b)
  {}

  lemma PatchWithin(s: text, at: nat, e: text, off: nat, x: text)
    requires LiesAt(s, at, e) && off + |x| <= |e|
    ensures Patch(s, at, Patch(e, off, x)) == Patch(s, at + off, x)
  {}

  /** Changing the attribute of an entry changes its attribute word. */
  lemma EntryWithAttr(subs: text, rawLen: nat, date: u32, attr: u32, attr': u32, num: nat, ofs: nat)
    ensures EntryOf(subs, rawLen, date, attr', num, ofs) == Patch(EntryOf(subs, rawLen, date, attr, num, ofs), 52, LE32(attr'))
  {
    HeaderWithAttr(Word(|subs|), date, Word(num), attr, attr', Word(ofs), Word(rawLen));
    PatchOfSum(Header(Word(|subs|), date, Word(num), attr, Word(ofs), Word(rawLen)), subs, 52, LE32(attr'));
  }

  lemma HeaderWithAttr(subLen: u32, date: u32, num: u32, attr: u32, attr': u32, textOfs: u32, textLen: u32)
    ensures Header(subLen, date, num, attr', textOfs, textLen) == Patch(Header(subLen, date, num, attr, textOfs, textLen), 52, LE32(attr'))
  {
    var h0 := SIGNATURE + [0, 1, 0] + seq(70, _ => 0);
    var h := PutU32(PutU32(PutU32(PutU32(PutU32(h0, 8, subLen), 36, date), 48, num), 60, textOfs), 64, textLen);
    PutTwice(h, 52, attr, attr');
  }

  /** The entry with another attribute, written over the old one, changes one word of the file. */
  lemma MarkBytes(jhr: text, at: nat, m: Msg, attr: u32, num: nat, ofs: nat)
    requires LiesAt(jhr, at, Entry(m, num, ofs))
    ensures at + 56 <= |jhr| && |Entry(m, num, ofs)| == |Entry(m.(attr := attr), num, ofs)|
    ensures Patch(jhr, at, Entry(m.(attr := attr), num, ofs)) == PutU32(jhr, at + 52, attr)
  {
    EntryWithAttr(Subs(m.fields), |Raw(m)|, m.date, m.attr, attr, num, ofs);
    PatchWithin(jhr, at, Entry(m, num, ofs), 52, LE32(attr));
  }

  /** A message with another attribute can stand in for the first. */
  lemma MarkedShape(f: Format, hash: text -> u32, m: Msg, attr: u32)
    requires IsJam(f, hash)
    ensures SameShape(f, m.(attr := attr), m)
  {
    var m' := m.(attr := attr);
    forall p: nat ensures f.slot(m', p) == f.slot(m, p) { assert Opens(m, 0, p) && Opens(m', 0, p); }
    forall num: nat, p: nat ensures |f.head(m', num, p)| == |f.head(m, num, p)| {
      assert Opens(m, num, p) && Opens(m', num, p);
      MarkBytes(Entry(m, num, p), 0, m, attr, num, p);
    }
    assert Opens(m, 0, 0) && Opens(m', 0, 0);
  }

  /** The same for a message stored in the format `f`. */
  lemma MarkHead(f: Format, hash: text -> u32, jhr: text, at: nat, m: Msg, attr: u32, num: nat, ofs: nat)
    requires IsJam(f, hash) && LiesAt(jhr, at, f.head(m, num, ofs))
    ensures at + 56 <= |jhr| && |f.head(m, num, ofs)| == |f.head(m.(attr := attr), num, ofs)|
    ensures Patch(jhr, at, f.head(m.(attr := attr), num, ofs)) == PutU32(jhr, at + 52, attr)
  {
    FormatOf(f, hash, m, num, ofs);
    FormatOf(f, hash, m.(attr := attr), num, ofs);
    MarkBytes(jhr, at, m, attr, num, ofs);
  }

  /** A message of the same shape, written over message `k`, gives the files of the changed list. */
  lemma ReplacedIsBuilt(f: Format, hash: text -> u32, jdx: text, jhr: text, jdt: text, base: int, ms: seq<Msg>, k: nat, m: Msg, jhr': text)
    requires Built(f, hash, jdx, jhr, jdt, base, ms) && k < |ms| && SameShape(f, m, ms[k])
    requires HeadPos(f, base, ms, k) + |f.head(m, base + k, TextPos(f, ms, k))| <= |jhr|
    requires jhr' == Patch(jhr, HeadPos(f, base, ms, k), f.head(m, base + k, TextPos(f, ms, k)))
    ensures Built(f, hash, jdx, jhr', jdt, base, ms[k := m])
  {
    assert Compares(0);
    SamePlaces(f, base, ms, k, m);
    LayoutUpdates(f, base, ms, k, m);
  }

  /** Rewriting the attribute word in place gives the files of the list with that message changed. */
  lemma MarkedIsBuilt(f: Format, hash: text -> u32, jdx: text, jhr: text, jdt: text, base: int, ms: seq<Msg>, k: nat, attr: u32)
    requires Built(f, hash, jdx, jhr, jdt, base, ms) && k < |ms|
    ensures var at := HeadPos(f, base, ms, k) + 52;
            at + 4 <= |jhr| && Built(f, hash, jdx, PutU32(jhr, at, attr), jdt, base, ms[k := ms[k].(attr := attr)])
  {
    var m, at, ofs := ms[k], HeadPos(f, base, ms, k), TextPos(f, ms, k);
    assert Compares(0);
    HeadAt(f, base, ms, k);
    MarkHead(f, hash, jhr, at, m, attr, base + k, ofs);
    MarkedShape(f, hash, m, attr);
    ReplacedIsBuilt(f, hash, jdx, jhr, jdt, base, ms, k, m.(attr := attr), PutU32(jhr, at + 52, attr));
  }

  /** The attribute word of message `k` lies 52 bytes into its header. */
  lemma AttrWord(f: Format, hash: text -> u32, jhr: text, base: nat, ms: seq<Msg>, k: nat)
    requires IsJam(f, hash) && jhr == Jhr(f, base, ms) && Fits(f, base, ms) && k < |ms| && Faithful(ms[k])
    ensures HeadPos(f, base, ms, k) + HDR_SIZE <= |jhr| && U32At(jhr, HeadPos(f, base, ms, k) + 52) == ms[k].attr
  {
    var at := HeadPos(f, base, ms, k);
    HeadAt(f, base, ms, k);
    RegionsEnd(f, base, ms, k);
    var h := WrittenHeader(f, hash, jhr, at, ms[k], base + k, TextPos(f, ms, k));
    WordOfHeader(jhr, at, h);
  }

  lemma WordOfHeader(jhr: text, at: nat, h: text)
    requires HeaderAt(jhr, at) == Some(h)
    ensures at + HDR_SIZE <= |jhr| && U32At(jhr, at + 52) == U32At(h, 52)
  {
    assert h == jhr[at..at + HDR_SIZE];
    assert forall i | 0 <= i < HDR_SIZE :: h[i] == jhr[at + i];
  }

  lemma RewrittenAt(jdx: text, jhr: text, jhr': text, k: nat, g: u32 -> u32, at: nat, attr: u32)
    requires AttrRewritten(jdx, jhr, jhr', k, g) && k < Slots(jdx) && Loc(jdx, k) == at
    requires at + HDR_SIZE <= |jhr| && U32At(jhr, at + 52) == attr
    ensures jhr' == PutU32(jhr, at + 52, g(attr))
  {
    assert Rewrites(0);
  }

  /** Changing the attribute behind slot `k` changes message `k` of the list. */
  lemma RewrittenIsBuilt(f: Format, hash: text -> u32, jdx: text, jhr: text, jdt: text, base: int, ms: seq<Msg>, k: nat,
                         jhr': text, g: u32 -> u32)
    requires Built(f, hash, jdx, jhr, jdt, base, ms) && Fits(f, base, ms) && k < |ms| && AllFaithful(ms)
    requires AttrRewritten(jdx, jhr, jhr', k, g)
    ensures Built(f, hash, jdx, jhr', jdt, base, ms[k := ms[k].(attr := g(ms[k].attr))])
  {
    assert Compares(0) && Trusts(k);
    SlotOf(f, hash, base, ms, k);
    AttrWord(f, hash, jhr, base, ms, k);
    RewrittenAt(jdx, jhr, jhr', k, g, HeadPos(f, base, ms, k), ms[k].attr);
    MarkedIsBuilt(f, hash, jdx, jhr, jdt, base, ms, k, g(ms[k].attr));
  }

  /** Changing an attribute by message number changes that message, if it is live, and nothing otherwise. */
  ghost predicate ChangedByNumber(v: View, jdx: text, jhr: text, jhr': text, num: int, g: u32 -> u32) {
    && ((forall i: nat :: !v.Has(i, num)) ==> jhr' == jhr)
    && ((exists i: nat :: v.Has(i, num)) ==> exists i: nat :: v.Has(i, num) && AttrRewritten(jdx, jhr, jhr', i, g))
  }

  /** The list with the attribute of the live message number `num`, if there is one, changed by `g`. */
  function Changed(base: int, ms: seq<Msg>, num: int, g: u32 -> u32): (r: seq<Msg>)
    ensures |r| == |ms|
  {
    if IsLive(base, ms, num) then ms[num - base := ms[num - base].(attr := g(ms[num - base].attr))] else ms
  }

  predicate IsLive(base: int, ms: seq<Msg>, num: int) { base <= num < base + |ms| && !Deleted(ms[num - base].attr) }

  lemma OnlySlot(v: View, base: int, ms: seq<Msg>, num: int)
    requires Pictures(v, base, ms)
    ensures IsLive(base, ms, num) <==> num >= base && v.Has(num - base, num)
    ensures forall i: nat | v.Has(i, num) :: i == num - base
  {
    PicturesNumber(v, base, ms, num);
  }

  lemma ChangedSlot(v: View, jdx: text, jhr: text, jhr': text, base: int, num: int, g: u32 -> u32)
    requires ChangedByNumber(v, jdx, jhr, jhr', num, g) && forall i: nat | v.Has(i, num) :: i == num - base
    ensures num >= base && v.Has(num - base, num) ==> AttrRewritten(jdx, jhr, jhr', num - base, g)
    ensures !(num >= base && v.Has(num - base, num)) ==> jhr' == jhr
  {}

  lemma ChangedPlace(v: View, jdx: text, jhr: text, base: int, ms: seq<Msg>, num: int, jhr': text, g: u32 -> u32)
    requires Pictures(v, base, ms) && ChangedByNumber(v, jdx, jhr, jhr', num, g)
    ensures if IsLive(base, ms, num) then AttrRewritten(jdx, jhr, jhr', num - base, g) else jhr' == jhr
  {
    OnlySlot(v, base, ms, num);
    ChangedSlot(v, jdx, jhr, jhr', base, num, g);
  }

  lemma ChangedIsBuilt(v: View, f: Format, hash: text -> u32, jdx: text, jhr: text, jdt: text, base: int, ms: seq<Msg>, num: int,
                       jhr': text, g: u32 -> u32)
    requires Built(f, hash, jdx, jhr, jdt, base, ms) && Fits(f, base, ms) && AllFaithful(ms)
    requires Shows(v, jdx, jhr, jdt, base) && ChangedByNumber(v, jdx, jhr, jhr', num, g)
    ensures Built(f, hash, jdx, jhr', jdt, base, Changed(base, ms, num, g))
  {
    BuiltPictures(v, f, hash, jdx, jhr, jdt, base, ms);
    ChangedPlace(v, jdx, jhr, base, ms, num, jhr', g);
    PlaceIsBuilt(f, hash, jdx, jhr, jdt, base, ms, num, jhr', g);
  }

  lemma PlaceIsBuilt(f: Format, hash: text -> u32, jdx: text, jhr: text, jdt: text, base: int, ms: seq<Msg>, num: int, jhr': text, g: u32 -> u32)
    requires Built(f, hash, jdx, jhr, jdt, base, ms) && Fits(f, base, ms) && AllFaithful(ms)
    requires if IsLive(base, ms, num) then AttrRewritten(jdx, jhr, jhr', num - base, g) else jhr' == jhr
    ensures Built(f, hash, jdx, jhr', jdt, base, Changed(base, ms, num, g))
  {
    if IsLive(base, ms, num) {
      RewrittenIsBuilt(f, hash, jdx, jhr, jdt, base, ms, num - base, jhr', g);
    }
  }

  /** Marks a message received by its number. On a built base the files are then those of the list with that
      message, if it is live, marked. */
  method SetReceived(b: Base, ghost v: View, ghost ms: seq<Msg>, num: int)
    requires Built(b.format, b.hash, b.jdx, b.jhr, b.jdt, BaseMsg(b.jhd), ms) && Fits(b.format, BaseMsg(b.jhd), ms) && AllFaithful(ms)
    requires Shows(v, b.jdx, b.jhr, b.jdt, BaseMsg(b.jhd))
    modifies b`jhr
    ensures Built(b.format, b.hash, b.jdx, b.jhr, b.jdt, BaseMsg(b.jhd), Changed(BaseMsg(b.jhd), ms, num, AddReceived))
  {
    ghost var jhr := b.jhr;
    b.ChangeAttr(v, num, AddReceived);
    ChangedIsBuilt(v, b.format, b.hash, b.jdx, jhr, b.jdt, BaseMsg(b.jhd), ms, num, b.jhr, AddReceived);
  }

  /** `s` without `x`. */
  function Without(s: seq<int>, x: int): seq<int> {
    if s == [] then [] else (if s[0] == x then [] else [s[0]]) + Without(s[1..], x)
  }

  lemma {:induction false} WithoutAdds(a: seq<int>, b: seq<int>, x: int)
    ensures Without(a + b, x) == Without(a, x) + Without(b, x)
  {
    if a == [] {
      assert a + b == b;
    } else {
      assert (a + b)[1..] == a[1..] + b;
      WithoutAdds(a[1..], b, x);
    }
  }

  /** Marking a message takes its number, and no other, out of the new mail. */
  lemma {:induction false} OnlyItLeaves(base: int, ms: seq<Msg>, mine: Msg -> bool, num: int, n: nat)
    requires n <= |ms| && forall i | 0 <= i < |ms| ::
               !mine(ms[i].(attr := AddReceived(ms[i].attr))) && (mine(ms[i]) ==> !Deleted(ms[i].attr))
    ensures MailBelow(base, Changed(base, ms, num, AddReceived), mine, n) == Without(MailBelow(base, ms, mine, n), num)
  {
    if n > 0 {
      OnlyItLeaves(base, ms, mine, num, n - 1);
      var m, m' := ms[n - 1], Changed(base, ms, num, AddReceived)[n - 1];
      var one := if mine(m) then [base + n - 1] else [];
      WithoutAdds(MailBelow(base, ms, mine, n - 1), one, num);
      assert m' == if num == base + n - 1 && !Deleted(m.attr) then m.(attr := AddReceived(m.attr)) else m;
      if one != [] { assert one[1..] == []; }
    }
  }

  lemma MarkedMail(m: Msg, name: text, handle: text)
    ensures !NewMail(m.(attr := AddReceived(m.attr)), name, handle)
  {
    SetReceivedBit(m.attr);
  }

  /** A changed attribute leaves sizes and contents as they were. */
  lemma ChangedFits(f: Format, hash: text -> u32, base: nat, ms: seq<Msg>, num: int, g: u32 -> u32)
    requires IsJam(f, hash) && Fits(f, base, ms) && AllFaithful(ms)
    ensures Fits(f, base, Changed(base, ms, num, g)) && AllFaithful(Changed(base, ms, num, g))
  {
    if IsLive(base, ms, num) {
      var k := num - base;
      MarkedShape(f, hash, ms[k], g(ms[k].attr));
      SamePlaces(f, base, ms, k, ms[k].(attr := g(ms[k].attr)));
    }
    ChangedFaithful(base, ms, num, g);
  }

  lemma ChangedFaithful(base: int, ms: seq<Msg>, num: int, g: u32 -> u32)
    requires AllFaithful(ms)
    ensures AllFaithful(Changed(base, ms, num, g))
  {
    var changed := Changed(base, ms, num, g);
    forall i: nat | Trusts(i) && i < |ms| ensures Faithful(changed[i]) {
      FaithfulWithAttr(ms[i], g(ms[i].attr));
      assert changed[i] == ms[i] || changed[i] == ms[i].(attr := g(ms[i].attr));
    }
  }

  lemma FaithfulWithAttr(m: Msg, attr: u32)
    ensures Faithful(m) ==> Faithful(m.(attr := attr))
  {}

  /** Reading a message once takes it out of the caller's new mail: the scan after `SetReceived` finds what the
      scan before found, without that number. */
  lemma MarkedScan(v: View, w: View, f: Format, hash: text -> u32, jdx: text, jhr: text, jhr': text, jdt: text, base: int, ms: seq<Msg>,
                   name: text, handle: text, num: int)
    requires Built(f, hash, jdx, jhr, jdt, base, ms) && Fits(f, base, ms) && AllFaithful(ms)
    requires Built(f, hash, jdx, jhr', jdt, base, Changed(base, ms, num, AddReceived))
    requires ShowsMail(v, hash, jdx, jhr, base, name, handle) && ShowsMail(w, hash, jdx, jhr', base, name, handle) && v.n == |ms|
    ensures YoursBelow(w, w.n) == Without(YoursBelow(v, v.n), num)
  {
    var mine := MineByIndex(hash, name, handle);
    ChangedFits(f, hash, base, ms, num, AddReceived);
    ScanFindsMail(v, f, hash, jdx, jhr, jdt, base, ms, name, handle);
    ScanFindsMail(w, f, hash, jdx, jhr', jdt, base, Changed(base, ms, num, AddReceived), name, handle);
    forall i | 0 <= i < |ms| ensures !mine(ms[i].(attr := AddReceived(ms[i].attr))) { MarkedMail(ms[i], name, handle); }
    OnlyItLeaves(base, ms, mine, num, |ms|);
  }
}
