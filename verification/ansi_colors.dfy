/** What the terminal writes to set a colour is what the screen shows; what erasing leaves. */
module AnsiColors {
  import opened Bytes
  import opened AnsiNumbers
  import opened AnsiGrid
  import opened AnsiScreen
  import opened AnsiAgreement

  const SGR: byte := 109

  /** The sequence for a colour attribute: reset, bright, blink, then the two colours. */
  method AnsiColor(attr: byte) returns (b: seq<byte>)
    ensures b == Written(Sequence(ColorNumbers(attr), SGR))
  {
    var fg: nat := attr % 16;
    var bg: nat := attr / 16 % 16;
    b := [48, SEMICOLON];
    if fg > 7 {
      b := b + [49, SEMICOLON];
      fg := fg - 8;
    }
    if bg > 7 {
      b := b + [53, SEMICOLON];
      bg := bg - 8;
    }
    b := b + [51, 48 + Color(fg), SEMICOLON, 52, 48 + Color(bg)];
    Halves(attr);
    ColorText(attr >= 128, attr % 16 > 7, Color(attr % 8), Color(attr / 16 % 8));
    assert b == ColorBytes(attr >= 128, attr % 16 > 7, Color(attr % 8), Color(attr / 16 % 8));
    b := [ESC, BRACKET] + b + [SGR];
  }

  lemma Halves(attr: byte)
    ensures attr % 8 == (if attr % 16 > 7 then attr % 16 - 8 else attr % 16)
    ensures attr / 16 % 8 == (if attr / 16 % 16 > 7 then attr / 16 % 16 - 8 else attr / 16 % 16)
    ensures attr / 16 % 16 > 7 <==> attr >= 128
  {}

  function Numbered(blink: bool, bold: bool, f: nat, g: nat): seq<nat> {
    [0] + (if bold then [1] else []) + (if blink then [5] else []) + [30 + f] + [40 + g]
  }

  function ColorNumbers(attr: byte): seq<nat> {
    Numbered(attr >= 128, attr % 16 > 7, Color(attr % 8), Color(attr / 16 % 8))
  }

  // ---------------------------------------------------------------- the bytes are the numbers

  lemma TwoDigits(n: nat)
    requires 10 <= n < 100
    ensures Decimal(n) == [48 + n / 10, 48 + n % 10]
  {
    assert Decimal(n / 10) == [48 + n / 10];
  }

  lemma JoinMore(ns: seq<nat>, n: nat)
    requires ns != []
    ensures Params(ns + [n]) == Params(ns) + [SEMICOLON] + Decimal(n)
  {
    assert Decimals(ns + [n]) == Decimals(ns) + [Decimal(n)];
    JoinAdds(Decimals(ns), Decimal(n));
  }

  lemma {:induction false} JoinAdds(ps: seq<seq<byte>>, p: seq<byte>)
    requires ps != []
    ensures Join(ps + [p]) == Join(ps) + [SEMICOLON] + p
  {
    if |ps| == 1 {
      assert ps + [p] == [ps[0], p];
      assert Join([p]) == p;
    } else {
      JoinAdds(ps[1..], p);
      assert (ps + [p])[1..] == ps[1..] + [p];
    }
  }

  lemma BoldText(bold: bool)
    ensures Params([0] + if bold then [1] else []) == [48] + if bold then [SEMICOLON, 49] else []
  {
    var a: seq<nat> := [0];
    assert Decimals(a) == [Decimal(0)] && Params(a) == [48];
    if bold {
      JoinMore(a, 1);
      assert Decimal(1) == [49];
    } else {
      assert a + [] == a;
    }
  }

  lemma BlinkText(a: seq<nat>, blink: bool)
    requires a != []
    ensures Params(a + if blink then [5] else []) == Params(a) + if blink then [SEMICOLON, 53] else []
  {
    if blink {
      JoinMore(a, 5);
      assert Decimal(5) == [53];
    } else {
      assert a + [] == a;
    }
  }

  lemma ShadeText(a: seq<nat>, f: nat, g: nat)
    requires a != [] && f < 8 && g < 8
    ensures Params(a + [30 + f] + [40 + g]) == Params(a) + [SEMICOLON, 51, 48 + f, SEMICOLON, 52, 48 + g]
  {
    JoinMore(a, 30 + f);
    JoinMore(a + [30 + f], 40 + g);
    TwoDigits(30 + f);
    TwoDigits(40 + g);
  }

  /** The parameters, each followed by a semicolon but the last. */
  function ColorBytes(blink: bool, bold: bool, f: nat, g: nat): seq<byte>
    requires f < 8 && g < 8
  {
    [48, SEMICOLON] + (if bold then [49, SEMICOLON] else []) + (if blink then [53, SEMICOLON] else [])
    + [51, 48 + f, SEMICOLON, 52, 48 + g]
  }

  lemma Regrouped(blink: bool, bold: bool, f: nat, g: nat)
    requires f < 8 && g < 8
    ensures [48] + (if bold then [SEMICOLON, 49] else []) + (if blink then [SEMICOLON, 53] else [])
            + [SEMICOLON, 51, 48 + f, SEMICOLON, 52, 48 + g] == ColorBytes(blink, bold, f, g)
  {}

  lemma ColorText(blink: bool, bold: bool, f: nat, g: nat)
    requires f < 8 && g < 8
    ensures Params(Numbered(blink, bold, f, g)) == ColorBytes(blink, bold, f, g)
  {
    var a: seq<nat> := [0] + if bold then [1] else [];
    BoldText(bold);
    BlinkText(a, blink);
    ShadeText(a + (if blink then [5] else []), f, g);
    Regrouped(blink, bold, f, g);
  }

  // ---------------------------------------------------------------- the numbers are the colour

  lemma DrawMore(p: Pen, ns: seq<int>, n: int)
    ensures DrawnAll(p, ns + [n]) == Drawn(DrawnAll(p, ns), n)
  {
    assert (ns + [n])[..|ns|] == ns;
  }

  lemma DrawnColor(p: Pen, blink: bool, bold: bool, f: nat, g: nat)
    requires f < 8 && g < 8
    ensures DrawnAll(p, Numbered(blink, bold, f, g)) == Pen(f, g, bold, blink, false)
  {
    var a: seq<int> := [0];
    var b := a + (if bold then [1] else []);
    var c := b + (if blink then [5] else []);
    DrawMore(p, [], 0);
    assert [] + [0] == a;
    if bold { DrawMore(p, a, 1); }
    if blink { DrawMore(p, b, 5); }
    DrawMore(p, c, 30 + f);
    DrawMore(p, c + [30 + f], 40 + g);
  }

  lemma ColorTwice(i: nat)
    requires i < 8
    ensures Color(Color(i)) == i
  {}

  lemma AttrOfColor(attr: byte)
    ensures Attr(Pen(Color(attr % 8), Color(attr / 16 % 8), attr % 16 > 7, attr >= 128, false)) == attr
  {
    ColorTwice(attr % 8);
    ColorTwice(attr / 16 % 8);
  }

  /** Whatever the screen's colours were, after the terminal's sequence for a colour attribute it has that attribute. */
  lemma ColorIsShown(a: Ansi, attr: byte)
    requires Inside(a.scr) && a.mode.InText?
    ensures var r := FeedAll(a, Written(Sequence(ColorNumbers(attr), SGR)));
            r.mode.InText? && r.scr == a.scr.(attr := attr as nat)
  {
    var ns := ColorNumbers(attr);
    var q := Params(ns);
    JoinNotFinal(Decimals(ns));
    ShortColor(attr);
    NumbersReadBack(ns);
    SequenceFeeds(a, q, SGR);
    DrawnAttr(a.pen, attr);
    Shown(a.(csi := q), ns, attr);
  }

  lemma ShortColor(attr: byte)
    ensures |Params(ColorNumbers(attr))| <= MAX_CSI
  {
    ColorText(attr >= 128, attr % 16 > 7, Color(attr % 8), Color(attr / 16 % 8));
  }

  lemma DrawnAttr(p: Pen, attr: byte)
    ensures Attr(DrawnAll(p, ColorNumbers(attr))) == attr
  {
    DrawnColor(p, attr >= 128, attr % 16 > 7, Color(attr % 8), Color(attr / 16 % 8));
    AttrOfColor(attr);
  }

  lemma Shown(a: Ansi, ns: seq<int>, attr: byte)
    requires Inside(a.scr) && !Private(a.csi) && ns != [] && Numbers(AtoiTrimmed, a.csi) == ns && Attr(DrawnAll(a.pen, ns)) == attr
    ensures Done(a, SGR).scr == a.scr.(attr := attr as nat) && Done(a, SGR).mode == a.mode
  {}

  // ---------------------------------------------------------------- erasing

  /** Erasing blanks, in reading order, from the cursor on, up to the cursor, or everything and goes home. */
  lemma ErasedCells(s: Screen, how: int, i: nat)
    requires Inside(s) && i < |s.cells|
    ensures Erased(s, how).cells[i] ==
            if (how == 0 && i < At(s.w, s.x, s.y)) || (how == 1 && i > At(s.w, s.x, s.y)) then s.cells[i] else Cell(BLANK, s.attr)
    ensures (Erased(s, how).x, Erased(s, how).y) == if how == 0 || how == 1 then (s.x, s.y) else (0, 0)
  {
    RowsFit(s.w, s.h, s.y);
  }

  /** Erasing the line touches no other line. */
  lemma LineErasedCells(s: Screen, how: int, x: nat, y: nat)
    requires Inside(s) && x < s.w && y < s.h
    ensures 0 <= At(s.w, x, y) < |s.cells|
    ensures LineErased(s, how).cells[At(s.w, x, y)] ==
            if y == s.y && (how == 2 || (how == 0 && x >= s.x) || (how == 1 && x <= s.x)) then Cell(BLANK, s.attr)
            else s.cells[At(s.w, x, y)]
  {
    RowsFit(s.w, s.h, s.y);
    RowsFit(s.w, s.h, y);
    if y < s.y { Product(y + 1, s.y, s.w); assert (y + 1) * s.w == y * s.w + s.w; }
    if y > s.y { Product(s.y + 1, y, s.w); assert (s.y + 1) * s.w == s.y * s.w + s.w; }
  }
}
