/** The terminal's own note of where the caller's cursor is, kept up from the bytes it sends. */
module CursorTracker {
  import opened Bytes
  import opened AnsiNumbers
  import opened AnsiScreen

  const BS: byte := 8

  /** The tracked cursor, counted from 1, and the control sequence a write broke off in. */
  datatype Track = Track(x: int, y: int, pend: seq<byte>)

  function Plain(t: Track, c: byte): Track {
    if c == CR then t.(x := 1)
    else if c == LF then t.(y := t.y + 1)
    else if c == BS then (if t.x > 1 then t.(x := t.x - 1) else t)
    else if c >= 32 then t.(x := t.x + 1)
    else t
  }

  function AtLeastOne(n: int): int { if n < 1 then 1 else n }

  function Applied(t: Track, ns: seq<int>, cmd: byte): Track {
    var n := Param(ns, 0, 1);
    if cmd == 72 || cmd == 102 then t.(y := n, x := Param(ns, 1, 1))
    else if cmd == 71 then t.(x := n)
    else if cmd == 65 then t.(y := AtLeastOne(t.y - n))
    else if cmd == 66 then t.(y := t.y + n)
    else if cmd == 67 then t.(x := t.x + n)
    else if cmd == 68 then t.(x := AtLeastOne(t.x - n))
    else t
  }

  /** One byte at a time: the simple form of TrackCursor, which scans ahead for the end of a sequence. */
  function TrackByte(t: Track, c: byte): Track {
    if t.pend == [] then (if c == ESC then t.(pend := [ESC]) else Plain(t, c))
    else if |t.pend| == 1 then
      if c == BRACKET then t.(pend := [ESC, BRACKET])
      else if c == ESC then t.(pend := [ESC])
      else Plain(t.(pend := []), c)
    else if Final(c) then Applied(t.(pend := []), Numbers(ScanInt, t.pend[2..]), c)
    else t.(pend := t.pend + [c])
  }

  type Stepper = (Track, byte) -> Track

  function Fold(f: Stepper, t: Track, b: seq<byte>): Track
    decreases |b|
  {
    if b == [] then t else Fold(f, f(t, b[0]), b[1..])
  }

  function TrackAll(t: Track, b: seq<byte>): Track { Fold(TrackByte, t, b) }

  /** Marks the steps a proof looks into. */
  predicate Steps(t: Track, c: byte) { true }

  ghost predicate IsStep(f: Stepper) {
    forall t: Track, c: byte {:trigger Steps(t, c)} :: Steps(t, c) ==> f(t, c) == TrackByte(t, c)
  }

  lemma {:induction false} FoldSplits(f: Stepper, t: Track, b: seq<byte>, c: seq<byte>)
    ensures Fold(f, Fold(f, t, b), c) == Fold(f, t, b + c)
    decreases |b|
  {
    if b == [] {
      assert b + c == c;
    } else {
      FoldSplits(f, f(t, b[0]), b[1..], c);
      assert (b + c)[1..] == b[1..] + c;
    }
  }

  lemma FoldOne(f: Stepper, t: Track, c: byte)
    ensures Fold(f, t, [c]) == f(t, c)
  {
    assert [c][1..] == [];
  }

  /** However the output is split, the cursor is tracked to the same place. */
  lemma TrackSplits(t: Track, b: seq<byte>, c: seq<byte>)
    ensures TrackAll(TrackAll(t, b), c) == TrackAll(t, b + c)
  {
    FoldSplits(TrackByte, t, b, c);
  }

  /** What is left of a write can only be the beginning of one control sequence. */
  predicate Unfinished(q: seq<byte>) {
    q == [] || (q[0] == ESC && (|q| == 1 || (q[1] == BRACKET && forall i | 2 <= i < |q| :: !Final(q[i]))))
  }

  /** Scanning the beginning of a sequence again leads to the same place. */
  lemma {:induction false} Replays(f: Stepper, t: Track, q: seq<byte>)
    requires IsStep(f) && t.pend == [] && Unfinished(q)
    ensures Fold(f, t, q) == t.(pend := q)
    decreases |q|
  {
    if q != [] {
      var k := |q| - 1;
      Replays(f, t, q[..k]);
      FoldSplits(f, t, q[..k], [q[k]]);
      assert q == q[..k] + [q[k]];
      FoldOne(f, t.(pend := q[..k]), q[k]);
      GoesOn(f, t.(pend := q[..k]), q[k]);
    }
  }

  lemma GoesOn(f: Stepper, t: Track, c: byte)
    requires IsStep(f) && Unfinished(t.pend + [c])
    ensures f(t, c) == t.(pend := t.pend + [c])
  {
    var q := t.pend + [c];
    assert q[|q| - 1] == c && Steps(t, c);
    if |q| == 2 { assert q == [ESC, BRACKET]; }
  }

  /** An escape that starts no sequence might as well not be there. */
  lemma StrayEscape(f: Stepper, t: Track, q: seq<byte>)
    requires IsStep(f) && t.pend == [] && |q| > 1 && q[0] == ESC && q[1] != BRACKET
    ensures Fold(f, t, q) == Fold(f, t, q[1..])
  {
    assert Steps(t, ESC);
    NoBracket(f, t, q[1]);
  }

  lemma NoBracket(f: Stepper, t: Track, c: byte)
    requires IsStep(f) && t.pend == [] && c != BRACKET
    ensures f(t.(pend := [ESC]), c) == f(t, c)
  {
    assert Steps(t, c) && Steps(t.(pend := [ESC]), c);
  }

  lemma Ends(f: Stepper, t: Track, q: seq<byte>, c: byte)
    requires IsStep(f) && |q| >= 2 && Final(c)
    ensures f(t.(pend := q), c) == Applied(t.(pend := []), Numbers(ScanInt, q[2..]), c)
  {
    assert Steps(t.(pend := q), c);
  }

  lemma PlainStep(f: Stepper, t: Track, c: byte)
    requires IsStep(f) && t.pend == [] && c != ESC
    ensures f(t, c) == Plain(t, c)
  {
    assert Steps(t, c);
  }

  lemma PlainEscape(t: Track)
    ensures Plain(t, ESC) == t
  {}

  /** A whole sequence at the front is applied. */
  lemma WholeSequence(f: Stepper, t: Track, q: seq<byte>, j: nat)
    requires IsStep(f) && t.pend == [] && 2 <= j < |q| && Unfinished(q[..j]) && Final(q[j])
    ensures Fold(f, t, q) == Fold(f, Applied(t, Numbers(ScanInt, q[2..j]), q[j]), q[j + 1..])
  {
    Replays(f, t, q[..j]);
    FoldSplits(f, t, q[..j], q[j..]);
    assert q == q[..j] + q[j..];
    Ends(f, t, q[..j], q[j]);
    assert q[..j][2..] == q[2..j] && q[j..][1..] == q[j + 1..];
  }

  lemma SequenceAt(f: Stepper, t: Track, p: seq<byte>, i: nat, j: nat)
    requires IsStep(f) && t.pend == [] && i + 2 <= j < |p| && p[i] == ESC && p[i + 1] == BRACKET && Final(p[j])
    requires forall k | i + 2 <= k < j :: !Final(p[k])
    ensures Fold(f, t, p[i..]) == Fold(f, Applied(t, Numbers(ScanInt, p[i + 2..j]), p[j]), p[j + 1..])
  {
    var q := p[i..];
    WholeSequence(f, t, q, j - i);
    assert q[2..j - i] == p[i + 2..j] && q[j - i + 1..] == p[j + 1..];
  }

  lemma OpenSequence(f: Stepper, t: Track, p: seq<byte>, i: nat)
    requires IsStep(f) && t.pend == [] && i + 2 <= |p| && p[i] == ESC && p[i + 1] == BRACKET
    requires forall k | i + 2 <= k < |p| :: !Final(p[k])
    ensures Unfinished(p[i..]) && Fold(f, t, p[i..]) == t.(pend := p[i..]) && p[|p|..] == []
  {
    Replays(f, t, p[i..]);
  }

  class Terminal {
    var CurX: int
    var CurY: int
    var csiPend: seq<byte>

    ghost predicate Valid()
      reads this
    {
      Unfinished(csiPend)
    }

    function State(): Track
      reads this
    {
      Track(CurX, CurY, csiPend)
    }

    constructor ()
      ensures Valid() && State() == Track(1, 1, [])
    {
      CurX, CurY, csiPend := 1, 1, [];
    }

    method ApplyCSI(params: seq<byte>, cmd: byte)
      modifies this`CurX, this`CurY
      ensures State() == Applied(old(State()), Numbers(ScanInt, params), cmd)
    {
      var ps: seq<int> := [];
      if params != [] {
        var parts := Split(params);
        var i := 0;
        while i < |parts|
          invariant 0 <= i <= |parts| && State() == old(State())
          invariant ps == ReadAll(ScanInt, parts[..i])
        {
          assert parts[..i + 1][..i] == parts[..i];
          ps := ps + [ScanInt(parts[i])];
          i := i + 1;
        }
        assert parts[..i] == parts;
      }
      var n := Param(ps, 0, 1);
      match cmd
      case 72 => CurY, CurX := n, Param(ps, 1, 1);
      case 102 => CurY, CurX := n, Param(ps, 1, 1);
      case 71 => CurX := n;
      case 65 => CurY := AtLeastOne(CurY - n);
      case 66 => CurY := CurY + n;
      case 67 => CurX := CurX + n;
      case 68 => CurX := AtLeastOne(CurX - n);
      case _ =>
    }

    method TrackPlain(c: byte)
      modifies this`CurX, this`CurY
      ensures State() == Plain(old(State()), c)
    {
      match c
      case 13 => CurX := 1;
      case 10 => CurY := CurY + 1;
      case 8 => if CurX > 1 { CurX := CurX - 1; }
      case _ => if c >= 32 { CurX := CurX + 1; }
    }

    /** The byte after the last one of the parameters that start at `i`. */
    method FindFinal(p: seq<byte>, i: nat) returns (j: nat)
      requires i <= |p|
      ensures i <= j <= |p| && forall k | i <= k < j :: !Final(p[k])
      ensures j < |p| ==> Final(p[j])
    {
      j := i;
      while j < |p| && (p[j] < 0x40 || p[j] > 0x7E)
        invariant i <= j <= |p| && forall k | i <= k < j :: !Final(p[k])
      {
        j := j + 1;
      }
    }

    /** One turn of the loop in TrackCursor, at the escape sequence that starts at `i`. */
    method TakeSequence(ghost f: Stepper, p: seq<byte>, i: nat) returns (i': nat)
      requires IsStep(f) && i + 1 < |p| && p[i] == ESC && p[i + 1] == BRACKET && csiPend == []
      modifies this
      ensures i < i' <= |p| && Valid() && (csiPend != [] ==> i' == |p|)
      ensures Fold(f, old(State()), p[i..]) == Fold(f, State(), p[i'..])
    {
      ghost var t := State();
      var j := FindFinal(p, i + 2);
      if j >= |p| {
        OpenSequence(f, t, p, i);
        csiPend := p[i..];
        assert p[j..] == [];
        return j;
      }
      SequenceAt(f, t, p, i, j);
      ApplyCSI(p[i + 2..j], p[j]);
      return j + 1;
    }

    /** One turn of the loop in TrackCursor. */
    method TakeOne(ghost f: Stepper, p: seq<byte>, i: nat) returns (i': nat)
      requires IsStep(f) && i < |p| && csiPend == []
      modifies this
      ensures i < i' <= |p| && Valid() && (csiPend != [] ==> i' == |p|)
      ensures Fold(f, old(State()), p[i..]) == Fold(f, State(), p[i'..])
    {
      ghost var q := p[i..];
      assert q[1..] == p[i + 1..];
      if p[i] == ESC {
        if i + 1 >= |p| {
          Replays(f, State(), q);
          csiPend := [ESC];
          assert q == [ESC];
          return i + 1;
        }
        if p[i + 1] == BRACKET {
          i' := TakeSequence(f, p, i);
          return;
        }
        StrayEscape(f, State(), q);
        PlainEscape(State());
      } else {
        PlainStep(f, State(), p[i]);
      }
      TrackPlain(p[i]);
      return i + 1;
    }

    method TrackCursor(b: seq<byte>)
      requires Valid()
      modifies this
      ensures Valid()
      ensures State() == TrackAll(Track(AtLeastOne(old(CurX)), AtLeastOne(old(CurY)), old(csiPend)), b)
    {
      if CurX < 1 { CurX := 1; }
      if CurY < 1 { CurY := 1; }
      ghost var f: Stepper := TrackByte;
      Rest(f, b);
    }

    /** TrackCursor from where the cursor is on the screen. */
    method Rest(ghost f: Stepper, b: seq<byte>)
      requires Valid() && IsStep(f)
      modifies this
      ensures Valid() && State() == Fold(f, old(State()), b)
    {
      ghost var start := State();
      var p := b;
      if |csiPend| > 0 {
        p := csiPend + p;
        csiPend := [];
      }
      assert start.pend + b == p;
      Replays(f, State(), start.pend);
      FoldSplits(f, State(), start.pend, b);
      var i := 0;
      assert p[i..] == p;
      while i < |p|
        invariant 0 <= i <= |p| && Valid() && (csiPend != [] ==> i == |p|)
        invariant Fold(f, State(), p[i..]) == Fold(f, start, b)
      {
        i := TakeOne(f, p, i);
      }
    }
  }

  predicate Positive(t: Track) { t.x >= 1 && t.y >= 1 }

  lemma StepPositive(f: Stepper, t: Track, c: byte)
    requires IsStep(f) && Positive(t)
    ensures Positive(f(t, c))
  {
    assert Steps(t, c);
  }

  /** The tracked cursor stays on or below and right of (1, 1). */
  lemma {:induction false} StaysPositive(f: Stepper, t: Track, b: seq<byte>)
    requires IsStep(f) && Positive(t)
    ensures Positive(Fold(f, t, b))
    decreases |b|
  {
    if b != [] {
      StepPositive(f, t, b[0]);
      StaysPositive(f, f(t, b[0]), b[1..]);
    }
  }

  /** However the output is cut into writes, the cursor is tracked to the same place. */
  method TrackEach(io: Terminal, pieces: seq<seq<byte>>)
    requires io.Valid() && Positive(io.State())
    modifies io
    ensures io.Valid() && io.State() == TrackAll(old(io.State()), Concat(pieces))
  {
    ghost var f: Stepper := TrackByte;
    ghost var start := io.State();
    var i := 0;
    while i < |pieces|
      invariant 0 <= i <= |pieces| && io.Valid()
      invariant io.State() == Fold(f, start, Concat(pieces[..i]))
    {
      StaysPositive(f, start, Concat(pieces[..i]));
      io.TrackCursor(pieces[i]);
      assert pieces[..i + 1][..i] == pieces[..i];
      FoldSplits(f, start, Concat(pieces[..i]), pieces[i]);
      i := i + 1;
    }
    assert pieces[..i] == pieces;
  }
}
