/** A text screen of w by h cells with a cursor: what an ANSI emulator drives. */
module AnsiGrid {
  import opened Bytes

  const BS: byte := 8
  const BLANK: byte := 32

  datatype Cell = Cell(ch: byte, attr: nat)

  /** Cell (x, y) is `cells[y * w + x]`. */
  datatype Screen = Screen(w: int, h: int, x: int, y: int, attr: nat, cells: seq<Cell>)

  /** A screen of at least one cell with its cursor on it. */
  predicate Inside(s: Screen) {
    s.w >= 1 && s.h >= 1 && 0 <= s.x < s.w && 0 <= s.y < s.h && |s.cells| == s.w * s.h
  }

  function At(w: int, x: int, y: int): int { y * w + x }

  lemma Product(a: int, b: int, w: int)
    requires a <= b && w >= 0
    ensures a * w <= b * w
  {
    assert (b - a) * w == b * w - a * w;
  }

  /** Where the cells of row `y` lie in a grid of `h` rows. */
  lemma RowsFit(w: int, h: int, y: int)
    requires w >= 1 && 0 <= y < h
    ensures 0 <= y * w && y * w + w <= h * w && w + (h - y - 1) * w == h * w - y * w && h * w == w * h
  {
    Product(0, y, w);
    Product(y + 1, h, w);
    assert (y + 1) * w == y * w + w;
    assert (h - y - 1) * w == h * w - y * w - w;
  }

  /** `n` cells from `at` made blank in the current attribute. */
  function FillAt(s: Screen, at: int, n: int): (t: Screen)
    requires 0 <= at && 0 <= n && at + n <= |s.cells|
    ensures |t.cells| == |s.cells| && forall i | 0 <= i < |s.cells| ::
              t.cells[i] == if at <= i < at + n then Cell(BLANK, s.attr) else s.cells[i]
  {
    s.(cells := s.cells[..at] + seq(n, _ => Cell(BLANK, s.attr)) + s.cells[at + n..])
  }

  /** Fill is only ever asked for cells of the grid. */
  predicate FillFits(s: Screen, x: int, y: int, n: int) {
    0 <= x && 0 <= y && 0 <= n && 0 <= At(s.w, x, y) && At(s.w, x, y) + n <= |s.cells|
  }

  function Fill(s: Screen, x: int, y: int, n: int): Screen
    requires FillFits(s, x, y, n)
  {
    FillAt(s, At(s.w, x, y), n)
  }

  function Min(a: int, b: int): int { if a < b then a else b }
  function Max(a: int, b: int): int { if a < b then b else a }

  /** One character in the cell under the cursor, which moves on and, past the last column, to the next line. */
  function Put(s: Screen, c: byte): (t: Screen)
    requires Inside(s)
    ensures Inside(t) && t.w == s.w && t.h == s.h
  {
    RowsFit(s.w, s.h, s.y);
    var u := s.(cells := s.cells[At(s.w, s.x, s.y) := Cell(c, s.attr)]);
    if s.x + 1 >= s.w then u.(x := 0, y := Min(s.y + 1, s.h - 1)) else u.(x := s.x + 1)
  }

  function TextByte(s: Screen, c: byte): (t: Screen)
    requires Inside(s)
    ensures Inside(t) && t.w == s.w && t.h == s.h
  {
    if c == CR then s.(x := 0)
    else if c == LF then s.(y := Min(s.y + 1, s.h - 1))
    else if c == BS then s.(x := Max(s.x - 1, 0))
    else Put(s, c)
  }

  function TextAll(s: Screen, b: seq<byte>): (t: Screen)
    requires Inside(s)
    ensures Inside(t) && t.w == s.w && t.h == s.h
  {
    if b == [] then s else TextByte(TextAll(s, b[..|b| - 1]), b[|b| - 1])
  }

  /** The cursor moved to (x, y), or to the nearest cell of the screen. */
  function MovedTo(s: Screen, x: int, y: int): (t: Screen)
    requires Inside(s)
    ensures Inside(t) && t.w == s.w && t.h == s.h && t.cells == s.cells && t.attr == s.attr
  {
    s.(x := Max(0, Min(x, s.w - 1)), y := Max(0, Min(y, s.h - 1)))
  }
}
