/** A base seen slot by slot: what each fast walk over the slots answers, and what it should answer. */
module JamView {
  import opened Options
  import opened JamBytes
  import opened JamFormat

  /** Slot `i` below `n`: its article if it is live, its number for the fast scan (0 for none), and the
      numbers of the caller's new mail in it (at most one). */
  datatype View = View(n: nat, art: nat -> Option<Article>, high: nat -> int, yours: nat -> seq<int>)
  {
    predicate Live(i: nat) { i < n && art(i).Some? }

    function Num(i: nat): int
      requires Live(i)
    {
      art(i).value.num
    }

    /** Slot `i` holds the live message number `num`. */
    predicate Has(i: nat, num: int) { Live(i) && Num(i) == num }
  }

  // ---------------------------------------------------------------- next and previous

  /** The first live slot from `lo` up to `hi` with a number of at least `num`. */
  function FirstFrom(v: View, num: int, lo: nat, hi: nat): (r: Option<nat>)
    requires lo <= hi <= v.n
    ensures r.Some? ==> lo <= r.value < hi && v.Live(r.value) && v.Num(r.value) >= num
    ensures forall i | lo <= i < (if r.Some? then r.value else hi) && v.Live(i) :: v.Num(i) < num
    decreases hi - lo
  {
    if lo == hi then None
    else if v.Live(lo) && v.Num(lo) >= num then Some(lo)
    else FirstFrom(v, num, lo + 1, hi)
  }

  /** The last live slot below `hi` with a number of at most `num`, any number if `num` is 1. */
  function LastUpTo(v: View, num: int, hi: nat): (r: Option<nat>)
    requires hi <= v.n
    ensures r.Some? ==> r.value < hi && v.Live(r.value) && (num <= 1 || v.Num(r.value) <= num)
    ensures forall i | (if r.Some? then r.value + 1 else 0) <= i < hi && v.Live(i) :: num > 1 && v.Num(i) > num
  {
    if hi == 0 then None
    else if v.Live(hi - 1) && (num <= 1 || v.Num(hi - 1) <= num) then Some(hi - 1)
    else LastUpTo(v, num, hi - 1)
  }

  /** The slot a step from number `num` stops at. The walk begins at the slot the number suggests. */
  function NextSlot(v: View, base: int, num: int, forward: bool): (r: Option<nat>)
    ensures r.Some? ==> v.Live(r.value)
  {
    var start := num - base;
    if v.n == 0 then None
    else if forward then
      if start < 0 || start >= v.n then FirstFrom(v, num, 0, v.n)
      else if FirstFrom(v, num, start, v.n).Some? then FirstFrom(v, num, start, v.n)
      else FirstFrom(v, num, 0, start)
    else LastUpTo(v, num, if start >= v.n || start < 0 then v.n else start + 1)
  }

  /** Every live message has the number its slot gives it. */
  ghost predicate Numbered(v: View, base: int) {
    forall i | v.Live(i) :: v.Num(i) == base + i
  }

  /** A step forward reaches the least live number at or above `num`, and None only if there is none. */
  lemma ForwardIsLeast(v: View, base: int, num: int)
    requires Numbered(v, base)
    ensures var r := NextSlot(v, base, num, true);
            && (r.Some? ==> v.Num(r.value) >= num && forall i | v.Live(i) && v.Num(i) >= num :: v.Num(r.value) <= v.Num(i))
            && (r.None? ==> forall i | v.Live(i) :: v.Num(i) < num)
  {}

  /** A step back from `num` at or above the base number reaches the greatest live number at or below it. */
  lemma BackwardIsGreatest(v: View, base: int, num: int)
    requires Numbered(v, base) && base >= 1 && num >= base
    ensures var r := NextSlot(v, base, num, false);
            && (r.Some? ==> v.Num(r.value) <= num && forall i | v.Live(i) && v.Num(i) <= num :: v.Num(i) <= v.Num(r.value))
            && (r.None? ==> forall i | v.Live(i) :: v.Num(i) > num)
  {}

  /** Below the base number no live number qualifies; the walk still answers, with the last message, exactly
      when `num` is 1 and some message is live. */
  lemma BackwardBelowBase(v: View, base: int, num: int)
    requires Numbered(v, base) && 1 <= num < base
    ensures forall i | v.Live(i) :: v.Num(i) > num
    ensures NextSlot(v, base, num, false).Some? <==> num == 1 && exists i :: v.Live(i)
  {}

  // ---------------------------------------------------------------- the full scan

  datatype Stats = Stats(active: nat, first: int, high: int)

  function LiveBelow(v: View, n: nat): nat {
    if n == 0 then 0 else LiveBelow(v, n - 1) + if v.Live(n - 1) then 1 else 0
  }

  /** What a full scan of the first `n` slots finds. */
  ghost predicate IsStats(v: View, n: nat, s: Stats) {
    && s.active == LiveBelow(v, n)
    && (s.active == 0 ==> s.first == s.high == 0)
    && (s.active > 0 ==> (exists i: nat :: i < n && v.Has(i, s.first)) && (exists i: nat :: i < n && v.Has(i, s.high)))
    && (forall i: nat | i < n && v.Live(i) :: s.active > 0 && s.first <= v.Num(i) <= s.high)
  }

  /** One more slot. */
  function AddSlot(s: Stats, live: bool, num: int): Stats {
    if !live then s
    else Stats(s.active + 1, if s.first == 0 || num < s.first then num else s.first, if num > s.high then num else s.high)
  }

  lemma AddSlotIsStats(v: View, n: nat, s: Stats)
    requires IsStats(v, n, s) && (forall i | v.Live(i) :: v.Num(i) >= 1)
    ensures IsStats(v, n + 1, if v.Live(n) then AddSlot(s, true, v.Num(n)) else s)
  {
    if v.Live(n) {
      var s' := AddSlot(s, true, v.Num(n));
      assert v.Has(n, v.Num(n));
      if s'.first != v.Num(n) {
        var i: nat :| i < n && v.Has(i, s.first);
        assert v.Has(i, s'.first);
      }
      if s'.high != v.Num(n) {
        var i: nat :| i < n && v.Has(i, s.high);
        assert v.Has(i, s'.high);
      }
    }
  }

  // ---------------------------------------------------------------- the highest number, fast

  const HIGH_SCAN_MAX: nat := 65536
  const IDX_SANE_MAX: nat := 2_000_000

  /** The number of the last slot from `lo` up to `hi` that has one; 0 if none has. */
  function LastHigh(v: View, lo: nat, hi: nat): int
    requires lo <= hi <= v.n
    decreases hi
  {
    if lo == hi then 0 else if v.high(hi - 1) > 0 then v.high(hi - 1) else LastHigh(v, lo, hi - 1)
  }

  /** What the fast path answers: the last number in the scanned window, else in the first window, else by
      counting slots. */
  function FastHigh(v: View, base: int): int {
    var lo: nat := if v.n > HIGH_SCAN_MAX then v.n - HIGH_SCAN_MAX else 0;
    if v.n == 0 then 0
    else if LastHigh(v, lo, v.n) > 0 then LastHigh(v, lo, v.n)
    else if lo > 0 && LastHigh(v, 0, HIGH_SCAN_MAX) > 0 then LastHigh(v, 0, HIGH_SCAN_MAX)
    else if v.n <= IDX_SANE_MAX && base + v.n - 1 > 0 then base + v.n - 1
    else 0
  }

  // ---------------------------------------------------------------- the caller's new mail

  function YoursBelow(v: View, n: nat): seq<int>
    requires n <= v.n
  {
    if n == 0 then [] else YoursBelow(v, n - 1) + v.yours(n - 1)
  }

  function Take(s: seq<int>, max: int): (r: seq<int>)
    ensures r <= s && |r| == if max < 0 then 0 else if max < |s| then max else |s|
  {
    if max <= 0 then [] else if max < |s| then s[..max] else s
  }
}
