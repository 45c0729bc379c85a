/** What output does to the local screen: text, erasing, the saved cursor and the codes for colours. */
module AnsiEffects {
  import opened Bytes
  import opened AnsiNumbers
  import opened AnsiGrid
  import opened AnsiScreen
  import opened AnsiAgreement
  import opened AnsiColors

  const SAVE: byte := 115
  const RESTORE: byte := 117

  // ---------------------------------------------------------------- one sequence

  predicate Short(ns: seq<nat>) { |Params(ns)| <= MAX_CSI && forall i | 0 <= i < |ns| :: ns[i] <= MAX_INT }

  /** A sequence with decimal numbers is carried out with those numbers. */
  lemma SequenceActs(a: Ansi, ns: seq<nat>, cmd: byte) returns (q: seq<byte>)
    requires Inside(a.scr) && a.mode.InText? && Short(ns) && Final(cmd)
    ensures FeedAll(a, Written(Sequence(ns, cmd))) == Done(a.(csi := q), cmd)
    ensures !Private(q) && Numbers(AtoiTrimmed, q) == ns
  {
    q := Params(ns);
    JoinNotFinal(Decimals(ns));
    NumbersReadBack(ns);
    SequenceFeeds(a, q, cmd);
  }

  // ---------------------------------------------------------------- the saved cursor

  /** Anything a program writes but a sequence that saves the cursor. */
  predicate Keeps(t: Token) {
    match t
    case Glyph(c) => c >= 32
    case Sequence(ns, cmd) => Final(cmd) && cmd != SAVE && Short(ns)
    case _ => true
  }

  lemma TokenKeeps(a: Ansi, t: Token)
    requires Inside(a.scr) && a.mode.InText? && Keeps(t)
    ensures var r := FeedAll(a, Written(t)); r.mode.InText? && r.sx == a.sx && r.sy == a.sy && r.scr.w == a.scr.w && r.scr.h == a.scr.h
  {
    if t.Sequence? {
      var q := SequenceActs(a, t.ns, t.cmd);
    } else {
      assert Written(t) == [Written(t)[0]];
      FeedOne(a, Written(t)[0]);
    }
  }

  lemma {:induction false} TokensKeep(a: Ansi, ts: seq<Token>)
    requires Inside(a.scr) && a.mode.InText? && forall i | 0 <= i < |ts| :: Keeps(ts[i])
    ensures var r := FeedAll(a, Stream(ts)); r.mode.InText? && r.sx == a.sx && r.sy == a.sy && r.scr.w == a.scr.w && r.scr.h == a.scr.h
  {
    if ts != [] {
      var k := |ts| - 1;
      TokensKeep(a, ts[..k]);
      TokenKeeps(FeedAll(a, Stream(ts[..k])), ts[k]);
      SplitsAgree(a, Stream(ts[..k]), Written(ts[k]));
    }
  }

  lemma Saves(a: Ansi)
    requires Inside(a.scr) && a.mode.InText?
    ensures var r := FeedAll(a, Written(Sequence([], SAVE))); r.sx == a.scr.x && r.sy == a.scr.y && r.scr == a.scr && r.mode.InText?
  {
    NoParams();
    var q := SequenceActs(a, [], SAVE);
  }

  lemma Restores(a: Ansi)
    requires Inside(a.scr) && a.mode.InText? && 0 <= a.sx < a.scr.w && 0 <= a.sy < a.scr.h
    ensures var r := FeedAll(a, Written(Sequence([], RESTORE))); r.scr == a.scr.(x := a.sx, y := a.sy) && r.mode.InText?
  {
    NoParams();
    var q := SequenceActs(a, [], RESTORE);
  }

  /** Whatever is written between saving the cursor and restoring it, the cursor ends where it was. */
  lemma CursorComesBack(a: Ansi, ts: seq<Token>)
    requires Inside(a.scr) && a.mode.InText? && forall i | 0 <= i < |ts| :: Keeps(ts[i])
    ensures var r := FeedAll(a, Written(Sequence([], SAVE)) + Stream(ts) + Written(Sequence([], RESTORE)));
            r.scr.x == a.scr.x && r.scr.y == a.scr.y && r.mode.InText?
  {
    var b, c, d := Written(Sequence([], SAVE)), Stream(ts), Written(Sequence([], RESTORE));
    Saves(a);
    TokensKeep(FeedAll(a, b), ts);
    SplitsAgree(a, b, c);
    Restores(FeedAll(a, b + c));
    SplitsAgree(a, b + c, d);
  }

  lemma NoParams()
    ensures Short([])
  {
    assert Decimals([]) == [];
  }

  // ---------------------------------------------------------------- colours

  /** Of a colour attribute: the letters' colour, whether it is bright, the colour behind them, whether they blink. */
  function Front(attr: nat): nat { attr % 8 }
  function Bright(attr: nat): bool { attr / 8 % 2 == 1 }
  function Behind(attr: nat): nat { attr / 16 % 8 }
  function Blinks(attr: nat): bool { attr / 128 % 2 == 1 }

  /** A colour of the sequences has red in its lowest bit and blue in its highest; an attribute has them the other way. */
  lemma RedAndBlue(i: nat)
    requires i < 8
    ensures Color(i) == i / 4 + 2 * (i / 2 % 2) + 4 * (i % 2)
  {}

  lemma AttrParts(p: Pen)
    ensures Front(Attr(p)) == Color(if p.rev then p.bg else p.fg) && Behind(Attr(p)) == Color(if p.rev then p.fg else p.bg)
    ensures Bright(Attr(p)) == p.bold && Blinks(Attr(p)) == p.blink
  {}

  /** The screen writes in the colours the sequences have set. */
  predicate Painted(a: Ansi) { a.scr.attr == Attr(a.pen) }

  lemma DonePaints(a: Ansi, cmd: byte)
    requires Inside(a.scr) && Painted(a)
    ensures Painted(Done(a, cmd))
  {}

  lemma FeedPaints(a: Ansi, c: byte)
    requires Inside(a.scr) && Painted(a)
    ensures Painted(Feed(a, c))
  {
    if a.mode.InCsi? && Final(c) { DonePaints(a.(mode := InText), c); }
  }

  /** No output makes it write in others. */
  lemma {:induction false} StaysPainted(a: Ansi, b: seq<byte>)
    requires Inside(a.scr) && Painted(a)
    ensures Painted(FeedAll(a, b))
  {
    if b != [] {
      StaysPainted(a, b[..|b| - 1]);
      FeedPaints(FeedAll(a, b[..|b| - 1]), b[|b| - 1]);
    }
  }

  function Coded(a: Ansi, n: nat): Ansi
    requires Inside(a.scr)
  {
    FeedAll(a, Written(Sequence([n], SGR)))
  }

  lemma {:induction false} DecimalIsShort(n: nat)
    ensures n < 1000 ==> |Decimal(n)| <= 3
  {
    if n < 10 { assert |Decimal(n)| == 1; }
    else if n < 100 { assert |Decimal(n / 10)| == 1; }
    else if n < 1000 { assert |Decimal(n / 100)| == 1 && |Decimal(n / 10)| == 2; }
  }

  lemma CodeActs(a: Ansi, n: nat)
    requires Inside(a.scr) && a.mode.InText? && n < 1000
    ensures Coded(a, n).pen == Drawn(a.pen, n) && Coded(a, n).scr == a.scr.(attr := Attr(Drawn(a.pen, n))) && Coded(a, n).mode.InText?
  {
    DecimalIsShort(n);
    assert Decimals([n]) == [Decimal(n)] && Params([n]) == Decimal(n);
    var q := SequenceActs(a, [n], SGR);
    assert [n][..0] == [];
    assert DrawnAll(a.pen, [n]) == Drawn(DrawnAll(a.pen, []), n);
  }

  /** 7 swaps the two colours of the attribute and leaves bright and blinking; once more changes nothing; 27 takes it back. */
  lemma ReverseSwaps(a: Ansi)
    requires Inside(a.scr) && a.mode.InText? && Painted(a) && !a.pen.rev
    ensures var r, o := Coded(a, 7).scr.attr, a.scr.attr;
            Front(r) == Behind(o) && Behind(r) == Front(o) && Bright(r) == Bright(o) && Blinks(r) == Blinks(o)
    ensures Coded(Coded(a, 7), 7).scr == Coded(a, 7).scr && Coded(Coded(a, 7), 27).scr == a.scr
  {
    CodeActs(a, 7);
    CodeActs(Coded(a, 7), 7);
    CodeActs(Coded(a, 7), 27);
    AttrParts(a.pen);
    AttrParts(Drawn(a.pen, 7));
    assert Drawn(Drawn(a.pen, 7), 27) == a.pen;
  }

  /** What one code changes of the attribute: a colour, bright or blinking, and nothing else. */
  lemma CodeChanges(a: Ansi, n: nat)
    requires Inside(a.scr) && a.mode.InText? && Painted(a) && !a.pen.rev && n < 1000 && n != 7
    ensures var r, o := Coded(a, n).scr.attr, a.scr.attr;
            && Front(r) == (if 30 <= n <= 37 then Color(n - 30) else if 90 <= n <= 97 then Color(n - 90) else if n == 39 || n == 0 then 7 else Front(o))
            && Behind(r) == (if 40 <= n <= 47 then Color(n - 40) else if 100 <= n <= 107 then Color(n - 100) else if n == 49 || n == 0 then 0 else Behind(o))
            && (Bright(r) <==> n == 1 || 90 <= n <= 97 || (Bright(o) && n != 0 && n != 2 && n != 22))
            && (Blinks(r) <==> n == 5 || n == 6 || 100 <= n <= 107 || (Blinks(o) && n != 0 && n != 25))
  {
    CodeActs(a, n);
    AttrParts(a.pen);
    AttrParts(Drawn(a.pen, n));
  }

  // ---------------------------------------------------------------- erasing and what shows nothing

  /** J erases the screen and K the line, from the cursor on unless a number says otherwise. */
  lemma SequenceErases(a: Ansi, ns: seq<nat>)
    requires Inside(a.scr) && a.mode.InText? && |ns| <= 1 && forall i | 0 <= i < |ns| :: ns[i] < 1000
    ensures var how := if ns == [] then 0 else ns[0];
            && FeedAll(a, Written(Sequence(ns, 74))).scr == Erased(a.scr, how)
            && FeedAll(a, Written(Sequence(ns, 75))).scr == LineErased(a.scr, how)
  {
    FewAreShort(ns);
    var q := SequenceActs(a, ns, 74);
    var q' := SequenceActs(a, ns, 75);
  }

  lemma FewAreShort(ns: seq<nat>)
    requires |ns| <= 1 && forall i | 0 <= i < |ns| :: ns[i] < 1000
    ensures Short(ns)
  {
    if ns == [] {
      NoParams();
    } else {
      DecimalIsShort(ns[0]);
      assert Decimals(ns) == [Decimal(ns[0])] && Params(ns) == Decimal(ns[0]);
    }
  }

  /** A form feed blanks the screen and goes to its first cell; a NUL does nothing. */
  lemma FeedsForm(a: Ansi, i: nat)
    requires Inside(a.scr) && a.mode.InText? && i < |a.scr.cells|
    ensures var r := FeedAll(a, [FF]).scr; r.x == 0 && r.y == 0 && |r.cells| == |a.scr.cells| && r.cells[i] == Cell(BLANK, a.scr.attr)
    ensures FeedAll(a, [NUL]) == a
  {
    FeedOne(a, FF);
    FeedOne(a, NUL);
    ErasedCells(a.scr, 2, i);
  }

  /** A sequence whose numbers begin with a question mark or an equals sign shows nothing. */
  lemma PrivateShowsNothing(a: Ansi, q: seq<byte>, cmd: byte)
    requires Inside(a.scr) && a.mode.InText? && Private(q) && |q| <= MAX_CSI && Final(cmd) && forall i | 0 <= i < |q| :: !Final(q[i])
    ensures FeedAll(a, [ESC, BRACKET] + q + [cmd]) == a.(csi := q)
  {
    BytesAreKept(a, q);
    FeedMore(a, [ESC, BRACKET] + q, cmd);
    assert a.(mode := InCsi, csi := q).(mode := InText) == a.(csi := q);
  }

  lemma {:induction false} BytesAreKept(a: Ansi, q: seq<byte>)
    requires Inside(a.scr) && a.mode.InText? && |q| <= MAX_CSI && forall i | 0 <= i < |q| :: !Final(q[i])
    ensures FeedAll(a, [ESC, BRACKET] + q) == a.(mode := InCsi, csi := q)
  {
    if q == [] {
      FeedOne(a, ESC);
      FeedMore(a, [ESC], BRACKET);
      assert [ESC] + [BRACKET] == [ESC, BRACKET] + q;
    } else {
      var k := |q| - 1;
      BytesAreKept(a, q[..k]);
      FeedMore(a, [ESC, BRACKET] + q[..k], q[k]);
      assert [ESC, BRACKET] + q[..k] + [q[k]] == [ESC, BRACKET] + q;
      assert q == q[..k] + [q[k]];
    }
  }

  // ---------------------------------------------------------------- text

  predicate AllShown(b: seq<byte>) { forall i | 0 <= i < |b| :: b[i] >= 32 }

  lemma CellsApart(w: int, h: int, x: int, y: int)
    requires w >= 1 && 0 <= x < w && 0 <= y < h
    ensures 0 <= At(w, x, y) < w * h
  {
    RowsFit(w, h, y);
  }

  /** Screen `r` is `s` with the text `b` in its line, as far as cell `i` and the cursor show. */
  predicate Stands(s: Screen, b: seq<byte>, r: Screen, i: nat) {
    var at := At(s.w, s.x, s.y);
    && r.w == s.w && r.h == s.h && r.attr == s.attr && |r.cells| == |s.cells| && i < |s.cells|
    && r.cells[i] == (if at <= i < at + |b| then Cell(b[i - at], s.attr) else s.cells[i])
    && (r.x, r.y) == if b != [] && s.x + |b| == s.w then (0, Min(s.y + 1, s.h - 1)) else (s.x + |b|, s.y)
  }

  /** Text that fits in the line stands in it from the cursor on, in the colours set, and no other cell changes. The cursor
      goes behind it; where the line is full, to the next line or, from the last line, to its own beginning. */
  lemma {:induction false} TextStands(a: Ansi, b: seq<byte>, i: nat)
    requires Inside(a.scr) && a.mode.InText? && AllShown(b) && a.scr.x + |b| <= a.scr.w && i < |a.scr.cells|
    ensures var r := FeedAll(a, b); r.mode.InText? && Stands(a.scr, b, r.scr, i)
  {
    if b != [] {
      var k := |b| - 1;
      TextStands(a, b[..k], i);
      var r := FeedAll(a, b[..k]);
      OneMoreByte(r, b[k]);
      OneMoreStands(a.scr, b, r.scr, Feed(r, b[k]).scr, k, i);
    }
  }

  lemma OneMoreByte(r: Ansi, c: byte)
    requires Inside(r.scr) && r.mode.InText? && c >= 32
    ensures var n := Feed(r, c); n.mode.InText? && n.scr == Put(r.scr, c)
  {}

  lemma OneMoreStands(s: Screen, b: seq<byte>, r: Screen, n: Screen, k: nat, i: nat)
    requires Inside(s) && Inside(r) && |b| == k + 1 && s.x + |b| <= s.w && Stands(s, b[..k], r, i) && n == Put(r, b[k])
    ensures Stands(s, b, n, i)
  {
    CellsApart(s.w, s.h, s.x, s.y);
    CellsApart(s.w, s.h, r.x, r.y);
  }
}
