/** Strings in records: a length byte, the text in the record's code page, zeros up to the field's width. */
module PascalStrings {
  import opened Bytes
  import opened CodePage

  type text = seq<rune>

  /** A code page, as the two directions of one table. */
  datatype Page = Page(decode: byte -> rune, encode: rune -> byte)

  /** The page gives every byte back, its lower half is ASCII, and what it lacks becomes a question mark. */
  ghost predicate IsPage(p: Page) {
    (forall c: byte :: p.encode(p.decode(c)) == c) && (forall c: byte | c < 128 :: p.decode(c) == c)
    && forall r: rune :: p.decode(p.encode(r)) == r || p.encode(r) == QUESTION
  }

  function Cp437(): Page { Page(FromByte, ToByte) }

  lemma Cp437IsPage()
    ensures IsPage(Cp437())
  {
    forall c: byte ensures ToByte(FromByte(c)) == c { ByteReadsBack(c); }
    forall r: rune ensures FromByte(ToByte(r)) == r || ToByte(r) == QUESTION { KnownOrQuestion(r); }
  }

  function Decoded(p: Page, b: seq<byte>): (s: text)
    ensures |s| == |b| && forall i | 0 <= i < |b| :: s[i] == p.decode(b[i])
  {
    seq(|b|, i requires 0 <= i < |b| => p.decode(b[i]))
  }

  function Encoded(p: Page, s: text): (b: seq<byte>)
    ensures |b| == |s| && forall i | 0 <= i < |s| :: b[i] == p.encode(s[i])
  {
    seq(|s|, i requires 0 <= i < |s| => p.encode(s[i]))
  }

  /** A table of the upper bytes that agrees with the page. */
  ghost predicate Tabulates(p: Page, table: map<rune, byte>) {
    forall r: rune :: p.encode(r) == if r < 0x80 then r else if r in table then table[r] else QUESTION
  }

  /** The program's page with the table its start-up code fills. */
  method StartUp() returns (p: Page, table: map<rune, byte>)
    ensures p == Cp437() && IsPage(p) && Tabulates(p, table)
  {
    p := Cp437();
    Cp437IsPage();
    GlyphsAllDiffer();
    PlaceIs(Glyph, Rank);
    table := FillTable(Glyph, Place(Glyph));
  }

  method FromCP437(p: Page, b: seq<byte>) returns (r: text)
    ensures r == Decoded(p, b)
  {
    r := [];
    var i := 0;
    while i < |b|
      invariant 0 <= i <= |b| && |r| == i && forall k | 0 <= k < i :: r[k] == p.decode(b[k])
    {
      r := r + [p.decode(b[i])];
      i := i + 1;
    }
  }

  method ToCP437(ghost p: Page, table: map<rune, byte>, s: text) returns (out: seq<byte>)
    requires Tabulates(p, table)
    ensures out == Encoded(p, s)
  {
    out := [];
    var i := 0;
    while i < |s|
      invariant 0 <= i <= |s| && |out| == i && forall k | 0 <= k < i :: out[k] == p.encode(s[k])
    {
      if s[i] < 0x80 {
        out := out + [s[i]];
      } else if s[i] in table {
        out := out + [table[s[i]]];
      } else {
        out := out + [QUESTION];
      }
      i := i + 1;
    }
  }

  // ---------------------------------------------------------------- length-prefixed fields

  function TrimNul(s: text): text {
    if s != [] && s[|s| - 1] == 0 then TrimNul(s[..|s| - 1]) else s
  }

  function Least(a: nat, b: nat): nat { if a < b then a else b }

  /** A length as the one byte it is stored in. */
  function Low(n: nat): byte { n % 256 }

  /** What PutString leaves in a field of `max` bytes. */
  function Packed(p: Page, max: nat, s: text): (b: seq<byte>)
    ensures |b| == max + 1
  {
    var n := Least(|s|, max);
    [Low(n)] + Encoded(p, s)[..n] + Zeros(max - n)
  }

  /** What String reads from a field. */
  function Unpacked(p: Page, b: seq<byte>): text {
    if b == [] then [] else TrimNul(Decoded(p, b[1..1 + Least(b[0], |b| - 1)]))
  }

  method PutString(ghost p: Page, table: map<rune, byte>, buf: array<byte>, s: text)
    requires Tabulates(p, table)
    modifies buf
    ensures buf.Length > 0 ==> buf[..] == Packed(p, buf.Length - 1, s)
  {
    if buf.Length == 0 { return; }
    var raw := ToCP437(p, table, s);
    var max := buf.Length - 1;
    if |raw| > max {
      raw := raw[..max];
    }
    buf[0] := Low(|raw|);
    ghost var n := |raw|;
    forall i | 0 <= i < |raw| { buf[1 + i] := raw[i]; }
    var i := 1 + |raw|;
    while i < buf.Length
      invariant 1 + n <= i <= buf.Length && buf[0] == Low(n)
      invariant forall k | 0 <= k < n :: buf[1 + k] == raw[k]
      invariant forall k | 1 + n <= k < i :: buf[k] == 0
    {
      buf[i] := 0;
      i := i + 1;
    }
    assert buf[..] == [Low(n)] + raw + Zeros(max - n);
  }

  method String(p: Page, buf: seq<byte>) returns (s: text)
    ensures s == Unpacked(p, buf)
  {
    if |buf| == 0 { return []; }
    var n: nat := buf[0];
    if n > |buf| - 1 {
      n := |buf| - 1;
    }
    s := FromCP437(p, buf[1..1 + n]);
    s := TrimNul(s);
  }

  // ---------------------------------------------------------------- what survives a record

  /** A string its field can hold: in the code page, short enough for the field and its length byte, and not ending in
      NUL. */
  predicate Holds(p: Page, max: nat, s: text) {
    |s| <= max && |s| < 256 && (s != [] ==> s[|s| - 1] != 0) && forall i | 0 <= i < |s| :: p.decode(p.encode(s[i])) == s[i]
  }

  lemma {:induction false} TrimNulEnds(s: text)
    ensures |TrimNul(s)| <= |s| && TrimNul(s) == s[..|TrimNul(s)|]
    ensures TrimNul(s) != [] ==> TrimNul(s)[|TrimNul(s)| - 1] != 0
  {
    if s != [] && s[|s| - 1] == 0 { TrimNulEnds(s[..|s| - 1]); }
  }

  lemma PackedText(p: Page, max: nat, s: text)
    requires Least(|s|, max) < 256
    ensures Unpacked(p, Packed(p, max, s)) == TrimNul(Decoded(p, Encoded(p, s)[..Least(|s|, max)]))
  {
    var b := Packed(p, max, s);
    var n := Least(|s|, max);
    assert b[0] == n && b[1..1 + n] == Encoded(p, s)[..n];
  }

  lemma ReadIsShort(p: Page, b: seq<byte>)
    ensures |Unpacked(p, b)| < 256
  {
    if b != [] { TrimNulEnds(Decoded(p, b[1..1 + Least(b[0], |b| - 1)])); }
  }

  /** A string comes back from its field exactly when the field can hold it. */
  lemma StringReadsBack(p: Page, max: nat, s: text)
    ensures Unpacked(p, Packed(p, max, s)) == s <==> Holds(p, max, s)
  {
    if Least(|s|, max) < 256 {
      ShortReadsBack(p, max, s);
    } else {
      ReadIsShort(p, Packed(p, max, s));
    }
  }

  lemma ShortReadsBack(p: Page, max: nat, s: text)
    requires Least(|s|, max) < 256
    ensures Unpacked(p, Packed(p, max, s)) == s <==> Holds(p, max, s)
  {
    PackedText(p, max, s);
    var n := Least(|s|, max);
    var d := Decoded(p, Encoded(p, s)[..n]);
    TrimNulEnds(d);
    if Holds(p, max, s) {
      assert d == s;
    }
    if TrimNul(d) == s {
      assert d == s && |s| <= max;
      forall i | 0 <= i < |s| ensures p.decode(p.encode(s[i])) == s[i] { assert d[i] == s[i]; }
    }
  }

  /** What was read from a field of `max` bytes fits it. */
  lemma ReadFits(p: Page, max: nat, b: seq<byte>)
    requires IsPage(p) && |b| <= max + 1
    ensures Holds(p, max, Unpacked(p, b))
  {
    if b != [] {
      var d := Decoded(p, b[1..1 + Least(b[0], |b| - 1)]);
      TrimNulEnds(d);
      assert forall i | 0 <= i < |d| :: p.decode(p.encode(d[i])) == d[i];
    }
  }

  lemma {:induction false} TrimNulOfZeros(s: text, n: nat)
    ensures TrimNul(s + seq(n, _ => 0)) == TrimNul(s)
    decreases n
  {
    var t := s + seq(n, _ => 0);
    if n == 0 {
      assert t == s;
    } else {
      TrimNulOfZeros(s, n - 1);
      assert t[..|t| - 1] == s + seq(n - 1, _ => 0);
    }
  }

  /** A field cut short reads as if the rest of it were zeros. */
  lemma ShortField(p: Page, b: seq<byte>, n: nat)
    requires IsPage(p)
    ensures Unpacked(p, b + Zeros(n)) == Unpacked(p, b)
  {
    if b != [] {
      var k, m := Least(b[0], |b| - 1), Least(b[0], |b| + n - 1);
      var d := Decoded(p, b[1..1 + k]);
      assert Decoded(p, (b + Zeros(n))[1..1 + m]) == d + seq(m - k, _ => 0);
      TrimNulOfZeros(d, m - k);
    }
  }
}
