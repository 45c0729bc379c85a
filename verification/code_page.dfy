/** Code page 437: bytes to characters and back. */
module CodePage {
  import opened Bytes

  type rune = r: int | 0 <= r < 0x11_0000

  const QUESTION: byte := 63

  // ---------------------------------------------------------------- the upper half of code page 437

  function Glyphs0(i: nat): (r: rune)
    ensures r >= 128
  {
    match i
    case 0 => 0x00C7 case 1 => 0x00FC case 2 => 0x00E9 case 3 => 0x00E2
    case 4 => 0x00E4 case 5 => 0x00E0 case 6 => 0x00E5 case 7 => 0x00E7
    case 8 => 0x00EA case 9 => 0x00EB case 10 => 0x00E8 case 11 => 0x00EF
    case 12 => 0x00EE case 13 => 0x00EC case 14 => 0x00C4 case _ => 0x00C5
  }

  function Glyphs16(i: nat): (r: rune)
    ensures r >= 128
  {
    match i
    case 16 => 0x00C9 case 17 => 0x00E6 case 18 => 0x00C6 case 19 => 0x00F4
    case 20 => 0x00F6 case 21 => 0x00F2 case 22 => 0x00FB case 23 => 0x00F9
    case 24 => 0x00FF case 25 => 0x00D6 case 26 => 0x00DC case 27 => 0x00A2
    case 28 => 0x00A3 case 29 => 0x00A5 case 30 => 0x20A7 case _ => 0x0192
  }

  function Glyphs32(i: nat): (r: rune)
    ensures r >= 128
  {
    match i
    case 32 => 0x00E1 case 33 => 0x00ED case 34 => 0x00F3 case 35 => 0x00FA
    case 36 => 0x00F1 case 37 => 0x00D1 case 38 => 0x00AA case 39 => 0x00BA
    case 40 => 0x00BF case 41 => 0x2310 case 42 => 0x00AC case 43 => 0x00BD
    case 44 => 0x00BC case 45 => 0x00A1 case 46 => 0x00AB case _ => 0x00BB
  }

  function Glyphs48(i: nat): (r: rune)
    ensures r >= 128
  {
    match i
    case 48 => 0x2591 case 49 => 0x2592 case 50 => 0x2593 case 51 => 0x2502
    case 52 => 0x2524 case 53 => 0x2561 case 54 => 0x2562 case 55 => 0x2556
    case 56 => 0x2555 case 57 => 0x2563 case 58 => 0x2551 case 59 => 0x2557
    case 60 => 0x255D case 61 => 0x255C case 62 => 0x255B case _ => 0x2510
  }

  function Glyphs64(i: nat): (r: rune)
    ensures r >= 128
  {
    match i
    case 64 => 0x2514 case 65 => 0x2534 case 66 => 0x252C case 67 => 0x251C
    case 68 => 0x2500 case 69 => 0x253C case 70 => 0x255E case 71 => 0x255F
    case 72 => 0x255A case 73 => 0x2554 case 74 => 0x2569 case 75 => 0x2566
    case 76 => 0x2560 case 77 => 0x2550 case 78 => 0x256C case _ => 0x2567
  }

  function Glyphs80(i: nat): (r: rune)
    ensures r >= 128
  {
    match i
    case 80 => 0x2568 case 81 => 0x2564 case 82 => 0x2565 case 83 => 0x2559
    case 84 => 0x2558 case 85 => 0x2552 case 86 => 0x2553 case 87 => 0x256B
    case 88 => 0x256A case 89 => 0x2518 case 90 => 0x250C case 91 => 0x2588
    case 92 => 0x2584 case 93 => 0x258C case 94 => 0x2590 case _ => 0x2580
  }

  function Glyphs96(i: nat): (r: rune)
    ensures r >= 128
  {
    match i
    case 96 => 0x03B1 case 97 => 0x00DF case 98 => 0x0393 case 99 => 0x03C0
    case 100 => 0x03A3 case 101 => 0x03C3 case 102 => 0x00B5 case 103 => 0x03C4
    case 104 => 0x03A6 case 105 => 0x0398 case 106 => 0x03A9 case 107 => 0x03B4
    case 108 => 0x221E case 109 => 0x03C6 case 110 => 0x03B5 case _ => 0x2229
  }

  function Glyphs112(i: nat): (r: rune)
    ensures r >= 128
  {
    match i
    case 112 => 0x2261 case 113 => 0x00B1 case 114 => 0x2265 case 115 => 0x2264
    case 116 => 0x2320 case 117 => 0x2321 case 118 => 0x00F7 case 119 => 0x2248
    case 120 => 0x00B0 case 121 => 0x2219 case 122 => 0x00B7 case 123 => 0x221A
    case 124 => 0x207F case 125 => 0x00B2 case 126 => 0x25A0 case _ => 0x00A0
  }

  /** Character `i` of the upper half. */
  function Glyph(i: nat): (r: rune)
    ensures r >= 128
  {
    if i < 64 then
      if i < 32 then (if i < 16 then Glyphs0(i) else Glyphs16(i)) else if i < 48 then Glyphs32(i) else Glyphs48(i)
    else
      if i < 96 then (if i < 80 then Glyphs64(i) else Glyphs80(i)) else if i < 112 then Glyphs96(i) else Glyphs112(i)
  }

  function Latin(r: rune): nat {
    match r
    case 0x00A0 => 127 case 0x00A1 => 45 case 0x00A2 => 27 case 0x00A3 => 28
    case 0x00A5 => 29 case 0x00AA => 38 case 0x00AB => 46 case 0x00AC => 42
    case 0x00B0 => 120 case 0x00B1 => 113 case 0x00B2 => 125 case 0x00B5 => 102
    case 0x00B7 => 122 case 0x00BA => 39 case 0x00BB => 47 case 0x00BC => 44
    case 0x00BD => 43 case 0x00BF => 40 case 0x00C4 => 14 case 0x00C5 => 15
    case 0x00C6 => 18 case 0x00C7 => 0 case 0x00C9 => 16 case 0x00D1 => 37
    case 0x00D6 => 25 case 0x00DC => 26 case 0x00DF => 97
    case _ => 128
  }

  function Accents(r: rune): nat {
    match r
    case 0x00E0 => 5 case 0x00E1 => 32 case 0x00E2 => 3 case 0x00E4 => 4
    case 0x00E5 => 6 case 0x00E6 => 17 case 0x00E7 => 7 case 0x00E8 => 10
    case 0x00E9 => 2 case 0x00EA => 8 case 0x00EB => 9 case 0x00EC => 13
    case 0x00ED => 33 case 0x00EE => 12 case 0x00EF => 11 case 0x00F1 => 36
    case 0x00F2 => 21 case 0x00F3 => 34 case 0x00F4 => 19 case 0x00F6 => 20
    case 0x00F7 => 118 case 0x00F9 => 23 case 0x00FA => 35 case 0x00FB => 22
    case 0x00FC => 1 case 0x00FF => 24
    case _ => 128
  }

  function Symbols(r: rune): nat {
    match r
    case 0x0192 => 31 case 0x0393 => 98 case 0x0398 => 105 case 0x03A3 => 100
    case 0x03A6 => 104 case 0x03A9 => 106 case 0x03B1 => 96 case 0x03B4 => 107
    case 0x03B5 => 110 case 0x03C0 => 99 case 0x03C3 => 101 case 0x03C4 => 103
    case 0x03C6 => 109 case 0x207F => 124 case 0x20A7 => 30 case 0x2219 => 121
    case 0x221A => 123 case 0x221E => 108 case 0x2229 => 111 case 0x2248 => 119
    case 0x2261 => 112 case 0x2264 => 115 case 0x2265 => 114 case 0x2310 => 41
    case 0x2320 => 116 case 0x2321 => 117
    case _ => 128
  }

  function Lines(r: rune): nat {
    match r
    case 0x2500 => 68 case 0x2502 => 51 case 0x250C => 90 case 0x2510 => 63
    case 0x2514 => 64 case 0x2518 => 89 case 0x251C => 67 case 0x2524 => 52
    case 0x252C => 66 case 0x2534 => 65 case 0x253C => 69 case 0x2550 => 77
    case 0x2551 => 58 case 0x2552 => 85 case 0x2553 => 86 case 0x2554 => 73
    case 0x2555 => 56 case 0x2556 => 55 case 0x2557 => 59 case 0x2558 => 84
    case 0x2559 => 83 case 0x255A => 72 case 0x255B => 62 case 0x255C => 61
    case 0x255D => 60 case 0x255E => 70 case 0x255F => 71
    case _ => 128
  }

  function Corners(r: rune): nat {
    match r
    case 0x2560 => 76 case 0x2561 => 53 case 0x2562 => 54 case 0x2563 => 57
    case 0x2564 => 81 case 0x2565 => 82 case 0x2566 => 75 case 0x2567 => 79
    case 0x2568 => 80 case 0x2569 => 74 case 0x256A => 88 case 0x256B => 87
    case 0x256C => 78 case 0x2580 => 95 case 0x2584 => 92 case 0x2588 => 91
    case 0x258C => 93 case 0x2590 => 94 case 0x2591 => 48 case 0x2592 => 49
    case 0x2593 => 50 case 0x25A0 => 126
    case _ => 128
  }

  /** The place of a character in the upper half. */
  function Rank(r: rune): nat {
    if r < 0xE0 then Latin(r) else if r < 0x100 then Accents(r)
    else if r < 0x2500 then Symbols(r) else if r < 0x2560 then Lines(r) else Corners(r)
  }

  lemma Differ0(i: nat)
    requires 0 <= i < 16
    ensures Rank(Glyph(i)) == i
  {}

  lemma Differ16(i: nat)
    requires 16 <= i < 32
    ensures Rank(Glyph(i)) == i
  {}

  lemma Differ32(i: nat)
    requires 32 <= i < 48
    ensures Rank(Glyph(i)) == i
  {}

  lemma Differ48(i: nat)
    requires 48 <= i < 64
    ensures Rank(Glyph(i)) == i
  {}

  lemma Differ64(i: nat)
    requires 64 <= i < 80
    ensures Rank(Glyph(i)) == i
  {}

  lemma Differ80(i: nat)
    requires 80 <= i < 96
    ensures Rank(Glyph(i)) == i
  {}

  lemma Differ96(i: nat)
    requires 96 <= i < 112
    ensures Rank(Glyph(i)) == i
  {}

  lemma Differ112(i: nat)
    requires 112 <= i < 128
    ensures Rank(Glyph(i)) == i
  {}

  /** No two places hold the same character. */
  lemma GlyphsDiffer(i: nat)
    requires i < 128
    ensures Rank(Glyph(i)) == i
  {
    if i < 16 { Differ0(i); }
    else if i < 32 { Differ16(i); }
    else if i < 48 { Differ32(i); }
    else if i < 64 { Differ48(i); }
    else if i < 80 { Differ64(i); }
    else if i < 96 { Differ80(i); }
    else if i < 112 { Differ96(i); }
    else { Differ112(i); }
  }

  // ---------------------------------------------------------------- bytes to characters and back

  function FromByte(c: byte): rune { if c < 128 then c else Glyph(c - 128) }

  /** The first place from `i` on that holds `r`; 128 if there is none. */
  function IndexFrom(glyph: nat -> rune, r: rune, i: nat): (k: nat)
    requires i <= 128
    ensures i <= k <= 128 && (k < 128 ==> glyph(k) == r) && forall j | i <= j < k :: glyph(j) != r
    decreases 128 - i
  {
    if i == 128 then 128 else if glyph(i) == r then i else IndexFrom(glyph, r, i + 1)
  }

  /** A question mark for what the code page lacks. */
  function ToByte(r: rune): byte {
    if r < 128 then r else
    var k := IndexFrom(Glyph, r, 0);
    if k < 128 then 128 + k else QUESTION
  }

  ghost predicate AllDiffer(glyph: nat -> rune, rank: rune -> nat) {
    forall i | 0 <= i < 128 :: rank(glyph(i)) == i
  }

  lemma GlyphsAllDiffer()
    ensures AllDiffer(Glyph, Rank)
  {
    forall i | 0 <= i < 128 ensures Rank(Glyph(i)) == i { GlyphsDiffer(i); }
  }

  lemma IndexOfGlyph(glyph: nat -> rune, rank: rune -> nat, k: nat)
    requires AllDiffer(glyph, rank) && k < 128
    ensures IndexFrom(glyph, glyph(k), 0) == k
  {
    var j := IndexFrom(glyph, glyph(k), 0);
    assert rank(glyph(j)) == j && rank(glyph(k)) == k;
  }

  /** Every byte survives the way to a character and back. */
  lemma ByteReadsBack(c: byte)
    ensures ToByte(FromByte(c)) == c
  {
    if c >= 128 {
      GlyphsAllDiffer();
      IndexOfGlyph(Glyph, Rank, c - 128);
    }
  }

  /** Every character survives the way to a byte and back, or becomes a question mark. */
  lemma KnownOrQuestion(r: rune)
    ensures FromByte(ToByte(r)) == r || ToByte(r) == QUESTION
  {}

  function Place(glyph: nat -> rune): rune -> nat { r => IndexFrom(glyph, r, 0) }

  /** `place` finds the one place of each character of the page. */
  ghost predicate Places(place: rune -> nat, glyph: nat -> rune) {
    forall r: rune, i: nat | i < 128 :: place(r) == i <==> glyph(i) == r
  }

  lemma PlaceIs(glyph: nat -> rune, rank: rune -> nat)
    requires AllDiffer(glyph, rank)
    ensures Places(Place(glyph), glyph)
  {
    forall r: rune, i: nat | i < 128 ensures Place(glyph)(r) == i <==> glyph(i) == r {
      IndexOfGlyph(glyph, rank, i);
    }
  }

  /** The table holds the first `n` characters. */
  ghost predicate Filled(m: map<rune, byte>, place: rune -> nat, n: nat)
    requires n <= 128
  {
    forall r: rune :: (r in m <==> place(r) < n) && (r in m ==> m[r] == 128 + place(r))
  }

  /** The table from characters to upper bytes, filled in order of the bytes. */
  method FillTable(glyph: nat -> rune, ghost place: rune -> nat) returns (m: map<rune, byte>)
    requires Places(place, glyph)
    ensures Filled(m, place, 128)
  {
    m := map[];
    var i := 0;
    while i < 128
      invariant 0 <= i <= 128 && Filled(m, place, i)
    {
      m := m[glyph(i) := 128 + i];
      i := i + 1;
    }
  }
}
