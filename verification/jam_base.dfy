/** A JAM message base: four byte files read and changed in place. */
module JamBase {
  import opened Options
  import opened Bytes
  import opened JamBytes
  import opened JamText
  import opened JamFormat
  import opened JamView
  import opened JamLayout

  const IDX_CHUNK: nat := 512
  const BASE_SIZE := 1024
  const JHD_SIZE: nat := 1024
  const JHD_SIGNATURE: u32 := 0x4D414A   // "JAM" and a zero byte

  /** The number of the first message, from the base header file; 1 if it gives none. */
  function BaseMsg(jhd: text): (n: int)
    ensures n >= 1
  {
    if |jhd| < 24 || Signed(U32At(jhd, 20)) < 1 then 1 else Signed(U32At(jhd, 20))
  }

  /** The number stands in bytes 20 to 23, lowest byte first; zero, negative or missing counts as 1. */
  lemma BaseMsgReads(front: text, base: u32, more: text)
    requires |front| == 20
    ensures BaseMsg(front + LE32(base) + more) == if 1 <= base < 0x8000_0000 then base else 1
    ensures BaseMsg(front) == 1
  {
    ReadLE32(front, base, more);
  }

  // ---------------------------------------------------------------- whose mail

  /** Mail to this name or handle, outer blanks and ASCII case aside. */
  predicate YoursHeader(to: text, name: text, handle: text) {
    var t := Upper(Trim(to));
    t != [] && (t == Upper(Trim(name)) || (Trim(handle) != [] && t == Upper(Trim(handle))))
  }

  /** Hash of a name without regard to ASCII case. */
  function NameCrc(hash: text -> u32, s: text): u32 { hash(Lower(s)) }

  predicate CrcWanted(hash: text -> u32, crc: u32, name: text, handle: text) {
    crc == NameCrc(hash, name) || (Trim(handle) != [] && crc == NameCrc(hash, handle))
  }

  /** The header at `loc` is undeleted, unreceived mail of the caller: its stored number. */
  function YoursAt(jhr: text, loc: int, name: text, handle: text): Option<u32> {
    if !LiveAt(jhr, loc) then None else
    var h := HeaderAt(jhr, loc).value;
    var subLen := U32At(h, 8);
    if Received(U32At(h, 52)) || subLen == 0 || subLen > SUB_MAX || ReadAt(jhr, loc + HDR_SIZE, subLen).None? then None
    else if YoursHeader(FieldsAt(jhr, loc, subLen).to, name, handle) then Some(U32At(h, 48))
    else None
  }

  /** The message number of slot `i`, if the index and then the header say it is the caller's new mail. */
  function YoursSlot(hash: text -> u32, jdx: text, jhr: text, base: int, name: text, handle: text, i: nat): seq<int>
    requires i < Slots(jdx)
  {
    if !CrcWanted(hash, ToCrc(jdx, i), name, handle) || Loc(jdx, i) < 0 then [] else
    match YoursAt(jhr, Loc(jdx, i), name, handle)
    case None => []
    case Some(num) => [if num < 1 then base + i else num]
  }

  // ---------------------------------------------------------------- the base slot by slot

  function ArtSlot(jdx: text, jhr: text, jdt: text, base: int, i: nat): Option<Article> {
    if i < Slots(jdx) && Loc(jdx, i) >= 0 then ArticleAt(jhr, jdt, Loc(jdx, i), base + i) else None
  }

  /** The signed number of slot `i` if its header lies at or past byte 1024 and is live; 0 if there is none. */
  function HighSlot(jdx: text, jhr: text, base: int, i: nat): int {
    if i >= Slots(jdx) || Loc(jdx, i) < BASE_SIZE || !LiveAt(jhr, Loc(jdx, i)) then 0 else
    var stored := Signed(U32At(HeaderAt(jhr, Loc(jdx, i)).value, 48));
    var num := if stored <= 0 then base + i else stored;
    if num <= 0 then 0 else num
  }

  /** Marks the slots a proof looks at. */
  predicate Peeks(i: nat) { true }

  /** `v` shows these files slot by slot; a slot is opened only where a proof says `Peeks`. */
  ghost predicate Shows(v: View, jdx: text, jhr: text, jdt: text, base: int) {
    v.n == Slots(jdx) && forall i: nat {:trigger Peeks(i)} :: Peeks(i) ==>
      v.art(i) == ArtSlot(jdx, jhr, jdt, base, i) && v.high(i) == HighSlot(jdx, jhr, base, i)
  }

  /** The same with the mail of one caller. */
  ghost predicate ShowsMail(v: View, hash: text -> u32, jdx: text, jhr: text, base: int, name: text, handle: text) {
    v.n == Slots(jdx) && forall i: nat {:trigger Peeks(i)} :: Peeks(i) && i < v.n ==>
      v.yours(i) == YoursSlot(hash, jdx, jhr, base, name, handle, i)
  }

  function ViewOf(hash: text -> u32, jdx: text, jhr: text, jdt: text, base: int, name: text, handle: text): View {
    View(Slots(jdx), (i: nat) => ArtSlot(jdx, jhr, jdt, base, i), (i: nat) => HighSlot(jdx, jhr, base, i),
         (i: nat) => if i < Slots(jdx) then YoursSlot(hash, jdx, jhr, base, name, handle, i) else [])
  }

  lemma ViewShows(hash: text -> u32, jdx: text, jhr: text, jdt: text, base: int, name: text, handle: text)
    ensures Shows(ViewOf(hash, jdx, jhr, jdt, base, name, handle), jdx, jhr, jdt, base)
    ensures ShowsMail(ViewOf(hash, jdx, jhr, jdt, base, name, handle), hash, jdx, jhr, base, name, handle)
  {
    var v := ViewOf(hash, jdx, jhr, jdt, base, name, handle);
    forall i: nat | Peeks(i) ensures v.art(i) == ArtSlot(jdx, jhr, jdt, base, i) && v.high(i) == HighSlot(jdx, jhr, base, i) {}
    forall i: nat | Peeks(i) && i < v.n ensures v.yours(i) == YoursSlot(hash, jdx, jhr, base, name, handle, i) {}
  }

  lemma NumbersArePositive(v: View, jdx: text, jhr: text, jdt: text, base: int)
    requires Shows(v, jdx, jhr, jdt, base) && base >= 1
    ensures forall i: nat | v.Live(i) :: v.Num(i) >= 1
  {
    forall i: nat | v.Live(i) ensures v.Num(i) >= 1 {
      assert Peeks(i);
    }
  }

  /** Once `max` numbers are found, more slots change nothing. */
  lemma {:induction false} TakeMore(v: View, n: nat, max: int)
    requires n <= v.n && 0 < max <= |YoursBelow(v, n)|
    ensures Take(YoursBelow(v, v.n), max) == Take(YoursBelow(v, n), max)
    decreases v.n - n
  {
    if n < v.n {
      TakeMore(v, n + 1, max);
      assert (YoursBelow(v, n) + v.yours(n))[..max] == YoursBelow(v, n)[..max];
    }
  }

  /** Marks where a proof compares header files before and after. */
  predicate Rewrites(n: nat) { true }

  /** `jhr'` is `jhr` with the attribute word of slot `i`, and nothing else, changed by `g`. */
  ghost predicate AttrRewritten(jdx: text, jhr: text, jhr': text, i: nat, g: u32 -> u32) {
    forall n: nat {:trigger Rewrites(n)} :: Rewrites(n) ==>
      && i < Slots(jdx) && 0 <= Loc(jdx, i) && Loc(jdx, i) + HDR_SIZE <= |jhr|
      && jhr' == PutU32(jhr, Loc(jdx, i) + 52, g(U32At(jhr, Loc(jdx, i) + 52)))
  }

  // ---------------------------------------------------------------- messages to append

  datatype Draft = Draft(fields: Fields, body: text, kludges: seq<text>, date: Option<u32>, attr: u32,
                         private: bool, fAttach: bool, killSent: bool, crash: bool)

  function With(attr: u32, on: bool, p: u32): u32
    requires p in {PRIVATE, RECEIVED, KILL_SENT, CRASH, FILE_ATTACH}
  {
    if on then SetBit(attr, p) else attr
  }

  /** The attribute stored for a draft. */
  function DraftAttr(d: Draft): u32 {
    var a := if d.attr == 0 then LOCAL + TYPE_LOCAL else d.attr;
    With(With(With(With(a, d.private, PRIVATE), d.fAttach, FILE_ATTACH), d.killSent, KILL_SENT), d.crash, CRASH)
  }

  /** The message a draft becomes; a draft without date gets the current time. */
  function Stored(d: Draft, now: u32): Msg {
    Msg(d.fields, d.body, d.kludges, if d.date.Some? then d.date.value else now, DraftAttr(d))
  }

  /** A word of the base header; 0 where the file is too short to hold its first part. */
  function HeadWord(jhd: text, o: nat): u32
    requires o + 4 <= 24
  {
    if |jhd| >= 24 then U32At(jhd, o) else 0
  }

  lemma SameHead(a: text, b: text, o: nat)
    requires o + 4 <= 24 <= |a| && 24 <= |b| && a[..24] == b[..24]
    ensures U32At(a, o) == U32At(b, o)
  {
    assert a[o..o + 4] == a[..24][o..o + 4] && b[o..o + 4] == b[..24][o..o + 4];
    SameWord(a, o, b, o);
  }

  class Base {
    const hash: text -> u32
    ghost const format: Format   // how a message becomes bytes
    var jdx: text
    var jhr: text
    var jdt: text
    var jhd: text

    constructor (hash: text -> u32, jhd: text)
      ensures this.hash == hash && IsJam(format, hash) && jdx == [] && jhr == [] && jdt == [] && this.jhd == jhd
    {
      JamIsJam(hash);
      this.hash, format, jdx, jhr, jdt, this.jhd := hash, Jam(hash), [], [], [], jhd;
    }

    /** Does slot `slot` hold number `num`? */
    method Match(ghost v: View, slot: int, base: int, num: int) returns (loc: int, fallback: int, ok: bool)
      requires Shows(v, jdx, jhr, jdt, base)
      ensures ok <==> slot >= 0 && v.Has(slot, num)
      ensures ok ==> slot < Slots(jdx) && loc == Loc(jdx, slot) && fallback == base + slot
    {
      loc, fallback, ok := 0, 0, false;
      if slot < 0 || slot >= Slots(jdx) {
        return;
      }
      assert Peeks(slot);
      var off := Signed(U32At(jdx, slot * IDX_SIZE + 4));
      if off < 0 {
        return;
      }
      var h := HeaderAt(jhr, off);
      if h.None? || Deleted(U32At(h.value, 52)) {
        return;
      }
      var msgNum := U32At(h.value, 48);
      var fb := base + slot;
      if (if msgNum == 0 then fb else msgNum) != num {
        return;
      }
      return off, fb, true;
    }

    /** Finds a live message by number: first at the slot the number suggests, then slot by slot, in chunks. */
    method FindMsg(ghost v: View, base: int, num: int) returns (loc: int, fallback: int, ok: bool, ghost slot: nat)
      requires Shows(v, jdx, jhr, jdt, base) && base >= 1
      ensures ok <==> exists i: nat :: v.Has(i, num)
      ensures ok ==> v.Has(slot, num) && slot < Slots(jdx) && loc == Loc(jdx, slot) && fallback == base + slot
    {
      var n := Slots(jdx);
      NumbersArePositive(v, jdx, jhr, jdt, base);
      slot := 0;
      if num < 1 || n == 0 {
        return 0, 0, false, 0;
      }
      loc, fallback, ok := Match(v, num - base, base, num);
      if ok {
        slot := num - base;
        return;
      }
      var start := 0;
      while start < n
        invariant start <= n
        invariant forall i | 0 <= i < start :: !v.Has(i, num)
      {
        var chunk := if IDX_CHUNK > n - start then n - start else IDX_CHUNK;
        loc, fallback, ok := FindInChunk(v, base, num, start, chunk);
        if ok {
          slot := fallback - base;
          return;
        }
        start := start + chunk;
      }
      return 0, 0, false, 0;
    }

    /** One chunk of the index, read in one piece. */
    method FindInChunk(ghost v: View, base: int, num: int, start: nat, chunk: nat) returns (loc: int, fallback: int, ok: bool)
      requires Shows(v, jdx, jhr, jdt, base) && start + chunk <= Slots(jdx)
      ensures !ok ==> forall i | start <= i < start + chunk :: !v.Has(i, num)
      ensures ok ==> start <= fallback - base < start + chunk && v.Has(fallback - base, num) && loc == Loc(jdx, fallback - base)
    {
      var buf := jdx[start * IDX_SIZE..(start + chunk) * IDX_SIZE];
      for i := 0 to chunk
        invariant forall i' | start <= i' < start + i :: !v.Has(i', num)
      {
        var idxLoc := ChunkLoc(buf, start, chunk, i);
        if idxLoc >= 0 {
          loc, fallback, ok := Match(v, start + i, base, num);
          if ok {
            return;
          }
        } else {
          assert Peeks(start + i);
        }
      }
      return 0, 0, false;
    }

    /** The header location of entry `i` of a chunk that starts at slot `start`. */
    method ChunkLoc(buf: text, start: nat, chunk: nat, i: nat) returns (loc: int)
      requires start + chunk <= Slots(jdx) && i < chunk && buf == jdx[start * IDX_SIZE..(start + chunk) * IDX_SIZE]
      ensures loc == Loc(jdx, start + i)
    {
      SameWord(jdx, (start + i) * IDX_SIZE + 4, buf, i * IDX_SIZE + 4);
      loc := Signed(U32At(buf, i * IDX_SIZE + 4));
    }

    method ReadMsg(ghost v: View, num: int) returns (a: Option<Article>)
      requires Shows(v, jdx, jhr, jdt, BaseMsg(jhd))
      ensures a.Some? <==> exists i: nat :: v.Has(i, num)
      ensures a.Some? ==> exists i: nat :: v.Has(i, num) && a == v.art(i)
    {
      var loc, fb, ok, slot := FindMsg(v, BaseMsg(jhd), num);
      if !ok {
        return None;
      }
      assert Peeks(slot);
      a := ArticleAt(jhr, jdt, loc, fb);
    }

    /** The article at slot `i`, if it is live. */
    method Load(ghost v: View, base: int, i: nat) returns (a: Option<Article>)
      requires Shows(v, jdx, jhr, jdt, base) && i < Slots(jdx)
      ensures a == v.art(i)
    {
      assert Peeks(i);
      var loc := Signed(U32At(jdx, i * IDX_SIZE + 4));
      if loc < 0 {
        return None;
      }
      a := ArticleAt(jhr, jdt, loc, base + i);
    }

    method NextActive(ghost v: View, wanted: int, forward: bool) returns (a: Option<Article>)
      requires Shows(v, jdx, jhr, jdt, BaseMsg(jhd))
      ensures var slot := NextSlot(v, BaseMsg(jhd), if wanted < 1 then 1 else wanted, forward);
              a == if slot.None? then None else v.art(slot.value)
    {
      var num := if wanted < 1 then 1 else wanted;
      var base, n := BaseMsg(jhd), Slots(jdx);
      if n == 0 {
        return None;
      }
      var start := num - base;
      if forward {
        if start < 0 || start >= n {
          start := 0;
        }
        a := WalkUp(v, base, num, start, n);
        if a.None? && start > 0 {
          a := WalkUp(v, base, num, 0, start);
        }
        return;
      }
      if start >= n {
        start := n - 1;
      }
      if start < 0 {
        start := n - 1;
      }
      a := WalkDown(v, base, num, start + 1);
    }

    method WalkUp(ghost v: View, base: int, num: int, lo: nat, hi: nat) returns (a: Option<Article>)
      requires Shows(v, jdx, jhr, jdt, base) && lo <= hi <= v.n
      ensures var slot := FirstFrom(v, num, lo, hi); a == if slot.None? then None else v.art(slot.value)
    {
      for i := lo to hi
        invariant FirstFrom(v, num, lo, hi) == FirstFrom(v, num, i, hi)
      {
        a := Load(v, base, i);
        if a.Some? && a.value.num >= num {
          return;
        }
      }
      a := None;
    }

    method WalkDown(ghost v: View, base: int, num: int, hi: nat) returns (a: Option<Article>)
      requires Shows(v, jdx, jhr, jdt, base) && hi <= v.n
      ensures var slot := LastUpTo(v, num, hi); a == if slot.None? then None else v.art(slot.value)
    {
      var i := hi;
      while i > 0
        invariant 0 <= i <= hi && LastUpTo(v, num, hi) == LastUpTo(v, num, i)
      {
        i := i - 1;
        a := Load(v, base, i);
        if a.Some? && (num <= 1 || a.value.num <= num) {
          return;
        }
      }
      a := None;
    }

    /** Counts the live messages and finds the lowest and the highest number. */
    method GetStats(ghost v: View) returns (s: Stats)
      requires Shows(v, jdx, jhr, jdt, BaseMsg(jhd))
      ensures IsStats(v, v.n, s)
    {
      var base := BaseMsg(jhd);
      s := Stats(0, 0, 0);
      NumbersArePositive(v, jdx, jhr, jdt, base);
      for i := 0 to Slots(jdx)
        invariant IsStats(v, i, s)
      {
        var live, num := StatsSlot(v, base, i);
        AddSlotIsStats(v, i, s);
        s := AddSlot(s, live, num);
      }
    }

    method StatsSlot(ghost v: View, base: int, i: nat) returns (live: bool, num: int)
      requires Shows(v, jdx, jhr, jdt, base) && i < Slots(jdx)
      ensures live == v.Live(i) && (live ==> num == v.Num(i))
    {
      assert Peeks(i);
      var loc := Signed(U32At(jdx, i * IDX_SIZE + 4));
      live := loc >= 0 && LiveAt(jhr, loc);
      num := if live then NumberAt(jhr, loc, base + i) else 0;
    }

    /** `HighSlot` of slot `slot`, whose index entry says `loc`. */
    method NumAt(ghost v: View, base: int, slot: nat, loc: int) returns (num: int)
      requires Shows(v, jdx, jhr, jdt, base) && slot < Slots(jdx) && loc == Loc(jdx, slot)
      ensures num == v.high(slot) && num >= 0 && (num > 0 ==> loc >= BASE_SIZE)
    {
      assert Peeks(slot);
      if loc < BASE_SIZE {
        return 0;
      }
      var h := HeaderAt(jhr, loc);
      if h.None? || Deleted(U32At(h.value, 52)) {
        return 0;
      }
      num := Signed(U32At(h.value, 48));
      if num <= 0 {
        num := base + slot;
      }
      if num <= 0 {
        return 0;
      }
    }

    method ScanBack(ghost v: View, base: int, lo: nat, hi: nat) returns (num: int)
      requires Shows(v, jdx, jhr, jdt, base) && lo <= hi <= v.n
      ensures num == LastHigh(v, lo, hi)
    {
      var end := hi;
      while end > lo
        invariant lo <= end <= hi && LastHigh(v, lo, hi) == LastHigh(v, lo, end)
      {
        var chunk := if IDX_CHUNK > end - lo then end - lo else IDX_CHUNK;
        var start := end - chunk;
        var buf := jdx[start * IDX_SIZE..(start + chunk) * IDX_SIZE];
        var i := chunk;
        while i > 0
          invariant 0 <= i <= chunk && LastHigh(v, lo, hi) == LastHigh(v, lo, start + i)
        {
          i := i - 1;
          var loc := ChunkLoc(buf, start, chunk, i);
          num := NumAt(v, base, start + i, loc);
          if loc >= 0 && num > 0 {
            return;
          }
        }
        end := start;
      }
      num := 0;
    }

    method ScanForward(ghost v: View, base: int, lo: nat, hi: nat) returns (last: int)
      requires Shows(v, jdx, jhr, jdt, base) && lo <= hi <= v.n
      ensures last == LastHigh(v, lo, hi)
    {
      last := 0;
      var start := lo;
      while start < hi
        invariant lo <= start <= hi && last == LastHigh(v, lo, start)
      {
        var chunk := if IDX_CHUNK > hi - start then hi - start else IDX_CHUNK;
        var buf := jdx[start * IDX_SIZE..(start + chunk) * IDX_SIZE];
        for i := 0 to chunk
          invariant last == LastHigh(v, lo, start + i)
        {
          var loc := ChunkLoc(buf, start, chunk, i);
          var num := NumAt(v, base, start + i, loc);
          if loc >= 0 && num > 0 {
            last := num;
          }
        }
        start := start + chunk;
      }
    }

    /** The highest message number, without reading every header. */
    method HighMsg(ghost v: View) returns (high: int)
      requires Shows(v, jdx, jhr, jdt, BaseMsg(jhd))
      ensures high == FastHigh(v, BaseMsg(jhd))
    {
      var n := Slots(jdx);
      if n == 0 {
        return 0;
      }
      var base := BaseMsg(jhd);
      var lo := 0;
      if n > HIGH_SCAN_MAX {
        lo := n - HIGH_SCAN_MAX;
      }
      high := ScanBack(v, base, lo, n);
      if high > 0 {
        return;
      }
      if lo > 0 {
        high := ScanForward(v, base, 0, HIGH_SCAN_MAX);
        if high > 0 {
          return;
        }
      }
      if n <= IDX_SANE_MAX {
        high := base + n - 1;
        if high > 0 {
          return;
        }
      }
      high := 0;
    }

    /** The numbers of the first `max` new messages to this name or handle: the index is read in chunks from the
        front, and a header only where the index matches. */
    method CollectYours(ghost v: View, name: text, handle: text, max: int) returns (out: seq<int>)
      requires ShowsMail(v, hash, jdx, jhr, BaseMsg(jhd), name, handle)
      ensures out == Take(YoursBelow(v, v.n), max)
    {
      out := [];
      if max <= 0 {
        return;
      }
      var pos, slot := 0, 0;
      while |out| < max
        invariant pos == slot * IDX_SIZE && slot <= v.n && |out| < max && out == Take(YoursBelow(v, slot), max)
        decreases v.n - slot, max - |out|
      {
        var got := if |jdx| - pos < IDX_CHUNK * IDX_SIZE then |jdx| - pos else IDX_CHUNK * IDX_SIZE;
        if got < IDX_SIZE {
          break;
        }
        got := got - got % IDX_SIZE;
        ghost var first := slot;
        var off := 0;
        while off < got && |out| < max
          invariant off == (slot - first) * IDX_SIZE && off <= got && pos == first * IDX_SIZE && first <= slot <= v.n
          invariant pos + got <= |jdx| && got % IDX_SIZE == 0
          invariant |out| <= max && out == Take(YoursBelow(v, slot), max)
        {
          var more := YoursHere(v, name, handle, slot);
          out := out + more;
          slot := slot + 1;
          off := off + IDX_SIZE;
        }
        if |out| < max {
          pos := pos + got;
        } else {
          TakeMore(v, slot, max);
          return;
        }
      }
      assert slot == v.n;
    }

    /** The number of slot `slot`, if it is the caller's new mail. */
    method YoursHere(ghost v: View, name: text, handle: text, slot: nat) returns (out: seq<int>)
      requires ShowsMail(v, hash, jdx, jhr, BaseMsg(jhd), name, handle) && slot < Slots(jdx)
      ensures out == v.yours(slot) && |out| <= 1
    {
      assert Peeks(slot);
      var nameCrc, hdlCrc := NameCrc(hash, name), NameCrc(hash, handle);
      var wantHdl := Trim(handle) != [] && hdlCrc != nameCrc;
      var toCrc := U32At(jdx, slot * IDX_SIZE);
      var loc := Signed(U32At(jdx, slot * IDX_SIZE + 4));
      if toCrc != nameCrc && !(wantHdl && toCrc == hdlCrc) {
        return [];
      }
      if loc < 0 {
        return [];
      }
      var num := YoursAt(jhr, loc, name, handle);
      if num.None? {
        return [];
      }
      out := [if num.value < 1 then BaseMsg(jhd) + slot else num.value];
    }

    /** Rewrites the attribute word of one message in place. */
    method ChangeAttr(ghost v: View, num: int, f: u32 -> u32)
      requires Shows(v, jdx, jhr, jdt, BaseMsg(jhd))
      modifies this`jhr
      ensures (forall i: nat :: !v.Has(i, num)) ==> jhr == old(jhr)
      ensures (exists i: nat :: v.Has(i, num)) ==> exists i: nat :: v.Has(i, num) && AttrRewritten(jdx, old(jhr), jhr, i, f)
    {
      if num < 1 {
        NumbersArePositive(v, jdx, jhr, jdt, BaseMsg(jhd));
        return;
      }
      var loc, _, ok, slot := FindMsg(v, BaseMsg(jhd), num);
      if !ok {
        return;
      }
      assert Peeks(slot);
      var attr := f(U32At(jhr, loc + 52));
      jhr := PutU32(jhr, loc + 52, attr);
    }

    /** Rewrites the base header: signature, a creation time if there is none, one more modification, the number
        of active messages, and the base number if there is none. Its last 1000 bytes become zeros. */
    method EnsureJhd(active: u32, base: int, now: u32)
      requires base == BaseMsg(jhd)
      modifies this`jhd
      ensures BaseMsg(jhd) == base && |jhd| == (if |old(jhd)| > JHD_SIZE then |old(jhd)| else JHD_SIZE)
      ensures U32At(jhd, 0) == JHD_SIGNATURE && U32At(jhd, 4) == (if HeadWord(old(jhd), 4) == 0 then now else HeadWord(old(jhd), 4))
      ensures U32At(jhd, 8) == Word(HeadWord(old(jhd), 8) + 1) && U32At(jhd, 12) == active && U32At(jhd, 16) == HeadWord(old(jhd), 16)
      ensures U32At(jhd, 20) == (if HeadWord(old(jhd), 20) == 0 then base else HeadWord(old(jhd), 20))
      ensures forall o | 24 <= o < JHD_SIZE :: jhd[o] == 0
      ensures |old(jhd)| > JHD_SIZE ==> jhd[JHD_SIZE..] == old(jhd)[JHD_SIZE..]
    {
      var buf := ReadHead();
      buf := FillStart(buf, now);
      buf := FillCounts(buf, active, base);
      WriteHead(buf);
    }

    static method FillStart(buf: text, now: u32) returns (r: text)
      requires |buf| == JHD_SIZE
      ensures |r| == JHD_SIZE && U32At(r, 0) == JHD_SIGNATURE && U32At(r, 4) == (if U32At(buf, 4) == 0 then now else U32At(buf, 4))
      ensures forall o: nat {:trigger U32At(r, o)} | 8 <= o && o + 4 <= 24 :: U32At(r, o) == U32At(buf, o)
      ensures forall o | 24 <= o < JHD_SIZE :: r[o] == buf[o]
    {
      r := PutU32(buf, 0, JHD_SIGNATURE);
      if U32At(r, 4) == 0 {
        r := PutU32(r, 4, now);
      }
    }

    static method FillCounts(buf: text, active: u32, base: int) returns (r: text)
      requires |buf| == JHD_SIZE && 0 <= base < 0x1_0000_0000
      ensures |r| == JHD_SIZE && U32At(r, 0) == U32At(buf, 0) && U32At(r, 4) == U32At(buf, 4)
      ensures U32At(r, 8) == Word(U32At(buf, 8) + 1) && U32At(r, 12) == active && U32At(r, 16) == U32At(buf, 16)
      ensures U32At(r, 20) == (if U32At(buf, 20) == 0 then base else U32At(buf, 20))
      ensures forall o | 24 <= o < JHD_SIZE :: r[o] == buf[o]
    {
      r := PutU32(buf, 8, Word(U32At(buf, 8) + 1));
      r := PutU32(r, 12, active);
      if U32At(r, 20) == 0 {
        r := PutU32(r, 20, base);
      }
    }

    /** The first 24 bytes of the base header in a zeroed record. */
    method ReadHead() returns (buf: text)
      ensures |buf| == JHD_SIZE && forall o | 24 <= o < JHD_SIZE :: buf[o] == 0
      ensures forall o: nat {:trigger U32At(buf, o)} | o + 4 <= 24 :: U32At(buf, o) == HeadWord(jhd, o)
    {
      buf := seq(JHD_SIZE, _ => 0);
      if |jhd| >= 24 {
        buf := jhd[..24] + buf[24..];
        assert buf[..24] == jhd[..24];
        forall o: nat | o + 4 <= 24 ensures U32At(buf, o) == U32At(jhd, o) { SameHead(buf, jhd, o); }
      }
    }

    method WriteHead(buf: text)
      requires |buf| == JHD_SIZE
      modifies this`jhd
      ensures |jhd| == (if |old(jhd)| > JHD_SIZE then |old(jhd)| else JHD_SIZE) && jhd[..JHD_SIZE] == buf
      ensures |old(jhd)| > JHD_SIZE ==> jhd[JHD_SIZE..] == old(jhd)[JHD_SIZE..]
      ensures forall o: nat {:trigger U32At(jhd, o)} | o + 4 <= JHD_SIZE :: U32At(jhd, o) == U32At(buf, o)
    {
      jhd := buf + (if |jhd| > JHD_SIZE then jhd[JHD_SIZE..] else []);
    }

    /** The bytes stored for a body and its control lines. */
    method BuildText(body: text, kludges: seq<text>) returns (raw: text)
      ensures raw == RawText(body, kludges)
    {
      var full := body;
      if body != [] && body[|body| - 1] != LF && body[|body| - 1] != CR {
        full := full + [CR, LF];
      }
      raw := StringsCRLF(full);
      assert kludges[0..] == kludges;
      for i := 0 to |kludges|
        invariant RawText(body, kludges) == raw + KludgeBytes(kludges[i..])
      {
        assert kludges[i..][1..] == kludges[i + 1..];
        ghost var rest := KludgeBytes(kludges[i + 1..]);
        assert raw + ([SOH] + kludges[i] + [CR] + rest) == raw + [SOH] + kludges[i] + [CR] + rest;
        raw := raw + [SOH] + kludges[i] + [CR];
      }
      assert kludges[|kludges|..] == [];
    }

    /** Adds one message at the end of all three files and returns its number. */
    method AppendMsg(d: Draft, now: u32) returns (num: int)
      requires IsJam(format, hash)
      modifies this`jdx, this`jhr, this`jdt, this`jhd
      ensures var m, base := Stored(d, now), BaseMsg(old(jhd));
              && num == base + Slots(old(jdx)) && BaseMsg(jhd) == base
              && jdt == old(jdt) + format.raw(m)
              && jhr == old(jhr) + format.head(m, num, |old(jdt)|)
              && jdx == old(jdx) + format.slot(m, |old(jhr)|)
    {
      var base := BaseMsg(jhd);
      num := base + Slots(jdx);
      ghost var m := Stored(d, now);
      WriteMsg(m, d, num, now);
      ghost var v := ViewOf(hash, jdx, jhr, jdt, base, [], []);
      ViewShows(hash, jdx, jhr, jdt, base, [], []);
      var st := GetStats(v);
      EnsureJhd(Word(st.active), base, now);
    }

    /** Writes text, header and index record. */
    method WriteMsg(ghost m: Msg, d: Draft, num: nat, now: u32)
      requires IsJam(format, hash) && m == Stored(d, now)
      modifies this`jdx, this`jhr, this`jdt
      ensures jdt == old(jdt) + format.raw(m) && jhr == old(jhr) + format.head(m, num, |old(jdt)|) && jdx == old(jdx) + format.slot(m, |old(jhr)|)
    {
      FormatOf(format, hash, m, num, |jdt|);
      FormatOf(format, hash, m, 0, |jhr|);
      var date := if d.date.Some? then d.date.value else now;
      var raw := BuildText(d.body, d.kludges);
      var textOfs := |jdt|;
      jdt := jdt + raw;
      var subs := Subs(d.fields);
      var loc := |jhr|;
      var h := Header(Word(|subs|), date, Word(num), DraftAttr(d), Word(textOfs), Word(|raw|)) + subs;
      jhr := jhr + h;
      jdx := jdx + (LE32(hash(Lower(d.fields.to))) + LE32(Word(loc)));
    }
  }
}
