/** The local screen's ANSI emulation: bytes in, screen operations out. */
module AnsiScreen {
  import opened Bytes
  import opened AnsiNumbers
  import opened AnsiGrid

  const ESC: byte := 27
  const FF: byte := 12
  const BRACKET: byte := 91
  const MAX_CSI: nat := 32

  datatype Mode = InText | InEsc | InCsi

  datatype Pen = Pen(fg: nat, bg: nat, bold: bool, blink: bool, rev: bool)

  /** The whole emulator between two bytes. */
  datatype Ansi = Ansi(mode: Mode, csi: seq<byte>, pen: Pen, sx: int, sy: int, scr: Screen)

  // ---------------------------------------------------------------- colours

  function Color(i: nat): (c: nat)
    ensures c < 8
  {
    match i % 8
    case 0 => 0
    case 1 => 4
    case 2 => 2
    case 3 => 6
    case 4 => 1
    case 5 => 5
    case 6 => 3
    case _ => 7
  }

  function Attr(p: Pen): (a: nat)
    ensures a < 256
  {
    var (f, b) := if p.rev then (p.bg, p.fg) else (p.fg, p.bg);
    Color(f) + 16 * Color(b) + (if p.bold then 8 else 0) + (if p.blink then 128 else 0)
  }

  function Drawn(p: Pen, n: int): Pen {
    if n == 0 then Pen(7, 0, false, false, false)
    else if n == 1 then p.(bold := true)
    else if n == 2 || n == 22 then p.(bold := false)
    else if n == 5 || n == 6 then p.(blink := true)
    else if n == 25 then p.(blink := false)
    else if n == 7 then p.(rev := true)
    else if n == 27 then p.(rev := false)
    else if 30 <= n <= 37 then p.(fg := n - 30)
    else if n == 39 then p.(fg := 7)
    else if 40 <= n <= 47 then p.(bg := n - 40)
    else if n == 49 then p.(bg := 0)
    else if 90 <= n <= 97 then p.(fg := n - 90, bold := true)
    else if 100 <= n <= 107 then p.(bg := n - 100, blink := true)
    else p
  }

  function DrawnAll(p: Pen, ns: seq<int>): Pen {
    if ns == [] then p else Drawn(DrawnAll(p, ns[..|ns| - 1]), ns[|ns| - 1])
  }

  // ---------------------------------------------------------------- one control sequence

  /** 64-bit addition of two non-negative numbers. */
  function Add64(a: int, b: int): int { if a + b > MAX_INT then a + b - 2 * (MAX_INT + 1) else a + b }

  function Erased(s: Screen, how: int): (t: Screen)
    requires Inside(s)
    ensures Inside(t) && t.w == s.w && t.h == s.h
  {
    RowsFit(s.w, s.h, s.y);
    if how == 0 then Fill(s, s.x, s.y, (s.w - s.x) + (s.h - s.y - 1) * s.w)
    else if how == 1 then Fill(s, 0, 0, s.y * s.w + s.x + 1)
    else Fill(s, 0, 0, s.w * s.h).(x := 0, y := 0)
  }

  function LineErased(s: Screen, how: int): (t: Screen)
    requires Inside(s)
    ensures Inside(t) && t.w == s.w && t.h == s.h && t.x == s.x && t.y == s.y
  {
    RowsFit(s.w, s.h, s.y);
    if how == 0 then Fill(s, s.x, s.y, s.w - s.x)
    else if how == 1 then Fill(s, 0, s.y, s.x + 1)
    else if how == 2 then Fill(s, 0, s.y, s.w)
    else s
  }

  /** Where the sequences that move the cursor send it. */
  function Target(s: Screen, ns: seq<int>, cmd: byte): (p: (int, int))
  {
    var n := Param(ns, 0, 1);
    if cmd == 72 || cmd == 102 then (Param(ns, 1, 1) - 1, n - 1)    // H f
    else if cmd == 65 then (s.x, s.y - n)                          // A
    else if cmd == 66 then (s.x, Add64(s.y, n))                    // B
    else if cmd == 67 then (Add64(s.x, n), s.y)                    // C
    else if cmd == 68 then (s.x - n, s.y)                          // D
    else if cmd == 71 then (n - 1, s.y)                            // G
    else (s.x, n - 1)                                              // d
  }

  predicate Moves(cmd: byte) { cmd == 72 || cmd == 102 || 65 <= cmd <= 68 || cmd == 71 || cmd == 100 }

  predicate Private(csi: seq<byte>) { csi != [] && (csi[0] == 63 || csi[0] == 61) }

  function Coloured(a: Ansi, ns: seq<int>): Ansi {
    var p := DrawnAll(a.pen, if ns == [] then [0] else ns);
    a.(pen := p, scr := a.scr.(attr := Attr(p)))
  }

  function Done(a: Ansi, cmd: byte): (r: Ansi)
    requires Inside(a.scr)
    ensures Inside(r.scr) && r.scr.w == a.scr.w && r.scr.h == a.scr.h && r.mode == a.mode
  {
    var ns := Numbers(AtoiTrimmed, a.csi);
    if Private(a.csi) then a
    else if Moves(cmd) then var (x, y) := Target(a.scr, ns, cmd); a.(scr := MovedTo(a.scr, x, y))
    else if cmd == 74 then a.(scr := Erased(a.scr, Param(ns, 0, 0)))       // J
    else if cmd == 75 then a.(scr := LineErased(a.scr, Param(ns, 0, 0)))   // K
    else if cmd == 115 then a.(sx := a.scr.x, sy := a.scr.y)               // s
    else if cmd == 117 then a.(scr := MovedTo(a.scr, a.sx, a.sy))          // u
    else if cmd == 109 then Coloured(a, ns)                                // m
    else a
  }

  // ---------------------------------------------------------------- bytes one by one

  predicate Final(c: byte) { 0x40 <= c <= 0x7E }

  /** Each byte takes effect at once: the simple form of Write, which saves up text. */
  function Feed(a: Ansi, c: byte): (r: Ansi)
    requires Inside(a.scr)
    ensures Inside(r.scr) && r.scr.w == a.scr.w && r.scr.h == a.scr.h
  {
    match a.mode
    case InText =>
      if c == ESC then a.(mode := InEsc)
      else if c == FF then a.(scr := Erased(a.scr, 2))
      else if c == NUL then a
      else a.(scr := TextByte(a.scr, c))
    case InEsc =>
      if c == BRACKET then a.(mode := InCsi, csi := []) else a.(mode := InText)
    case InCsi =>
      if Final(c) then Done(a.(mode := InText), c)
      else if |a.csi| < MAX_CSI then a.(csi := a.csi + [c])
      else a.(mode := InText)
  }

  function FeedAll(a: Ansi, b: seq<byte>): (r: Ansi)
    requires Inside(a.scr)
    ensures Inside(r.scr) && r.scr.w == a.scr.w && r.scr.h == a.scr.h
  {
    if b == [] then a else Feed(FeedAll(a, b[..|b| - 1]), b[|b| - 1])
  }

  /** However the output is split, the emulator ends in the same state. */
  lemma {:induction false} SplitsAgree(a: Ansi, b: seq<byte>, c: seq<byte>)
    requires Inside(a.scr)
    ensures FeedAll(FeedAll(a, b), c) == FeedAll(a, b + c)
  {
    if c == [] {
      assert b + c == b;
    } else {
      var k := |c| - 1;
      SplitsAgree(a, b, c[..k]);
      assert (b + c)[..|b + c| - 1] == b + c[..k];
    }
  }

  // ---------------------------------------------------------------- the emulator itself

  class Emulator {
    var st: Mode
    var csi: seq<byte>
    var text: seq<byte>
    var fg: nat
    var bg: nat
    var bold: bool
    var blink: bool
    var rev: bool
    var sx: int
    var sy: int
    var ops: Screen

    /** Text is saved up only between control sequences. */
    ghost predicate Valid()
      reads this
    {
      Inside(ops) && (text != [] ==> st == InText)
    }

    function ThePen(): Pen
      reads this
    {
      Pen(fg, bg, bold, blink, rev)
    }

    /** The state with the saved text written out. */
    ghost function State(): (a: Ansi)
      requires Inside(ops)
      reads this
    {
      Ansi(st, csi, ThePen(), sx, sy, TextAll(ops, text))
    }

    constructor (scr: Screen)
      requires Inside(scr)
      ensures Valid() && text == []
      ensures State() == Ansi(InText, [], Pen(7, 0, false, false, false), 0, 0, scr.(attr := 7))
    {
      st, csi, text := InText, [], [];
      fg, bg, bold, blink, rev := 7, 0, false, false, false;
      sx, sy := 0, 0;
      ops := scr.(attr := Attr(Pen(7, 0, false, false, false)));
    }

    method Flush()
      requires Valid()
      modifies this`ops, this`text
      ensures Valid() && text == [] && ops == TextAll(old(ops), old(text))
    {
      if |text| > 0 {
        ops := TextAll(ops, text);
        text := [];
      }
    }

    method MoveTo(x: int, y: int)
      requires Valid()
      modifies this`ops
      ensures Valid() && ops == MovedTo(old(ops), x, y)
    {
      var w, h := ops.w, ops.h;
      var x' := Max(0, Min(x, w - 1));
      var y' := Max(0, Min(y, h - 1));
      ops := ops.(x := x', y := y');
    }

    method Erase(how: int)
      requires Valid()
      modifies this`ops
      ensures Valid() && ops == Erased(old(ops), how)
    {
      var w, h := ops.w, ops.h;
      var x, y := ops.x, ops.y;
      RowsFit(w, h, y);
      if how == 0 {
        ops := Fill(ops, x, y, (w - x) + (h - y - 1) * w);
      } else if how == 1 {
        ops := Fill(ops, 0, 0, y * w + x + 1);
      } else {
        ops := Fill(ops, 0, 0, w * h);
        ops := ops.(x := 0, y := 0);
      }
    }

    method EraseLine(how: int)
      requires Valid()
      modifies this`ops
      ensures Valid() && ops == LineErased(old(ops), how)
    {
      var w, x, y := ops.w, ops.x, ops.y;
      RowsFit(w, ops.h, y);
      match how
      case 0 => ops := Fill(ops, x, y, w - x);
      case 1 => ops := Fill(ops, 0, y, x + 1);
      case 2 => ops := Fill(ops, 0, y, w);
      case _ =>
    }

    method Params() returns (ns: seq<int>)
      ensures ns == Numbers(AtoiTrimmed, csi)
    {
      ns := [];
      if |csi| == 0 { return; }
      var parts := Split(csi);
      var i := 0;
      while i < |parts|
        invariant 0 <= i <= |parts|
        invariant ns == ReadAll(AtoiTrimmed, parts[..i])
      {
        assert parts[..i + 1][..i] == parts[..i];
        ns := ns + [AtoiTrimmed(parts[i])];
        i := i + 1;
      }
      assert parts[..i] == parts;
    }

    /** One number of an SGR sequence. */
    method Draw(n: int)
      modifies this`fg, this`bg, this`bold, this`blink, this`rev
      ensures ThePen() == Drawn(old(ThePen()), n)
    {
      if n == 0 { fg, bg, bold, blink, rev := 7, 0, false, false, false; }
      else if n == 1 { bold := true; }
      else if n == 2 || n == 22 { bold := false; }
      else if n == 5 || n == 6 { blink := true; }
      else if n == 25 { blink := false; }
      else if n == 7 { rev := true; }
      else if n == 27 { rev := false; }
      else if 30 <= n <= 37 { fg := n - 30; }
      else if n == 39 { fg := 7; }
      else if 40 <= n <= 47 { bg := n - 40; }
      else if n == 49 { bg := 0; }
      else if 90 <= n <= 97 { fg, bold := n - 90, true; }
      else if 100 <= n <= 107 { bg, blink := n - 100, true; }
    }

    method Sgr(numbers: seq<int>)
      requires Valid() && text == []
      modifies this`fg, this`bg, this`bold, this`blink, this`rev, this`ops
      ensures Valid() && State() == Coloured(old(State()), numbers)
    {
      var ns := if |numbers| == 0 then [0] else numbers;
      var i := 0;
      while i < |ns|
        invariant 0 <= i <= |ns| && ops == old(ops)
        invariant ThePen() == DrawnAll(old(ThePen()), ns[..i])
      {
        Draw(ns[i]);
        assert ns[..i + 1][..i] == ns[..i];
        i := i + 1;
      }
      assert ns[..i] == ns;
      ops := ops.(attr := Attr(ThePen()));
    }

    /** The cases of Do that only move the cursor. */
    method Move(cmd: byte, ns: seq<int>)
      requires Valid() && Moves(cmd)
      modifies this`ops
      ensures Valid()
      ensures var (x, y) := Target(old(ops), ns, cmd); ops == MovedTo(old(ops), x, y)
    {
      var x, y := ops.x, ops.y;
      var n := Param(ns, 0, 1);
      match cmd
      case 72 => MoveTo(Param(ns, 1, 1) - 1, n - 1);
      case 102 => MoveTo(Param(ns, 1, 1) - 1, n - 1);
      case 65 => MoveTo(x, y - n);
      case 66 => MoveTo(x, Add64(y, n));
      case 67 => MoveTo(Add64(x, n), y);
      case 68 => MoveTo(x - n, y);
      case 71 => MoveTo(n - 1, y);
      case _ => MoveTo(x, n - 1);
    }

    method Do(cmd: byte)
      requires Valid() && text == []
      modifies this
      ensures Valid() && text == [] && State() == Done(old(State()), cmd)
    {
      if |csi| > 0 && (csi[0] == 63 || csi[0] == 61) { return; }
      var ns := Params();
      if Moves(cmd) {
        Move(cmd, ns);
        return;
      }
      match cmd
      case 74 => Erase(Param(ns, 0, 0));
      case 75 => EraseLine(Param(ns, 0, 0));
      case 115 => sx, sy := ops.x, ops.y;
      case 117 => MoveTo(sx, sy);
      case 109 => Sgr(ns);
      case _ =>
    }

    /** One turn of the loop in Write. */
    method Take(c: byte)
      requires Valid()
      modifies this
      ensures Valid() && State() == Feed(old(State()), c)
    {
      match st
      case InText =>
        if c == ESC {
          Flush();
          st := InEsc;
        } else if c == FF {
          Flush();
          Erase(2);
        } else if c != NUL {
          text := text + [c];
        }
      case InEsc =>
        st := InText;
        if c == BRACKET {
          st := InCsi;
          csi := [];
        }
      case InCsi =>
        if c >= 0x40 && c <= 0x7E {
          st := InText;
          Do(c);
        } else if |csi| < MAX_CSI {
          csi := csi + [c];
        } else {
          st := InText;
        }
    }

    /** Writes `b`; what was saved up is on the screen afterwards. */
    method Write(b: seq<byte>) returns (n: nat)
      requires Valid() && text == []
      modifies this
      ensures Valid() && text == [] && n == |b|
      ensures State() == FeedAll(old(State()), b)
    {
      var i := 0;
      while i < |b|
        invariant 0 <= i <= |b| && Valid()
        invariant State() == FeedAll(old(State()), b[..i])
      {
        Take(b[i]);
        assert b[..i + 1][..i] == b[..i];
        i := i + 1;
      }
      assert b[..i] == b;
      Flush();
      n := |b|;
    }
  }

  function Concat(pieces: seq<seq<byte>>): seq<byte> {
    if pieces == [] then [] else Concat(pieces[..|pieces| - 1]) + pieces[|pieces| - 1]
  }

  /** Any number of writes leaves the emulator, screen and all, as one write of everything would. */
  method WriteEach(a: Emulator, pieces: seq<seq<byte>>)
    requires a.Valid() && a.text == []
    modifies a
    ensures a.Valid() && a.text == [] && a.State() == FeedAll(old(a.State()), Concat(pieces))
  {
    var i := 0;
    while i < |pieces|
      invariant 0 <= i <= |pieces| && a.Valid() && a.text == []
      invariant a.State() == FeedAll(old(a.State()), Concat(pieces[..i]))
    {
      var _ := a.Write(pieces[i]);
      assert pieces[..i + 1][..i] == pieces[..i];
      SplitsAgree(old(a.State()), Concat(pieces[..i]), pieces[i]);
      i := i + 1;
    }
    assert pieces[..i] == pieces;
  }
}
