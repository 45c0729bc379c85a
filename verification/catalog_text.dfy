/** Descriptions in the catalogue's text file: NUL-terminated, line ends as CR LF in the file and LF in memory. */
module CatalogText {
  import opened Bytes
  import opened CodePage
  import opened PascalStrings

  const SUB: byte := 0x1A

  predicate Stops(c: byte) { c == 0 || c == SUB }

  /** The white space that strings.TrimSpace removes. */
  predicate IsSpace(r: rune) {
    9 <= r <= 13 || r == 32 || r == 0x85 || r == 0xA0 || r == 0x1680 || 0x2000 <= r <= 0x200A
    || r == 0x2028 || r == 0x2029 || r == 0x202F || r == 0x205F || r == 0x3000
  }

  /** Nothing is left after TrimSpace. */
  predicate Blank(s: text) { forall i | 0 <= i < |s| :: IsSpace(s[i]) }

  // ---------------------------------------------------------------- reading

  /** The first stop at or after `off`, or the end. */
  function EndOf(txt: seq<byte>, off: nat): (e: nat)
    requires off <= |txt|
    ensures off <= e <= |txt| && (e < |txt| ==> Stops(txt[e])) && forall k | off <= k < e :: !Stops(txt[k])
    decreases |txt| - off
  {
    if off == |txt| || Stops(txt[off]) then off else EndOf(txt, off + 1)
  }

  function UnCrlf(s: text): text {
    if s == [] then [] else
    if s[0] == CR && |s| > 1 && s[1] == LF then [LF] + UnCrlf(s[2..]) else [s[0]] + UnCrlf(s[1..])
  }

  function CrToLf(s: text): (t: text)
    ensures |t| == |s| && forall i | 0 <= i < |s| :: t[i] == if s[i] == CR then LF else s[i]
  {
    seq(|s|, i requires 0 <= i < |s| => if s[i] == CR then LF else s[i])
  }

  function TrimLf(s: text): text {
    if s != [] && s[|s| - 1] == LF then TrimLf(s[..|s| - 1]) else s
  }

  function Normal(s: text): text { TrimLf(CrToLf(UnCrlf(s))) }

  function DescAt(p: Page, txt: seq<byte>, off: nat): text
    requires off <= |txt|
  {
    Normal(Decoded(p, txt[off..EndOf(txt, off)]))
  }

  method FindEnd(txt: seq<byte>, off: nat) returns (e: nat)
    requires off <= |txt|
    ensures e == EndOf(txt, off)
  {
    e := off;
    while e < |txt| && txt[e] != 0 && txt[e] != SUB
      invariant off <= e <= |txt| && EndOf(txt, e) == EndOf(txt, off)
    {
      e := e + 1;
    }
  }

  // ---------------------------------------------------------------- writing

  function AddCr(s: text): text {
    if s == [] then [] else (if s[0] == LF then [CR, LF] else [s[0]]) + AddCr(s[1..])
  }

  function Stored(p: Page, d: text): seq<byte> { Encoded(p, AddCr(d)) + [0] }

  /** A text file in which every description ends. */
  predicate Terminated(txt: seq<byte>) { txt == [] || txt[|txt| - 1] == 0 }

  /** Whatever is added to the end of the file, a description in it stays. */
  lemma DescStays(p: Page, txt: seq<byte>, more: seq<byte>, off: nat)
    requires Terminated(txt) && off < |txt|
    ensures DescAt(p, txt + more, off) == DescAt(p, txt, off)
  {
    var e, f := EndOf(txt, off), EndOf(txt + more, off);
    assert Stops(txt[|txt| - 1]);
    assert e < |txt|;
    assert (txt + more)[e] == txt[e];
    assert f <= e;
    assert forall k | off <= k < e :: (txt + more)[k] == txt[k];
    assert (txt + more)[off..e] == txt[off..e];
  }

  /** What is read inside a terminated stretch of the file depends on that stretch alone. */
  lemma DescInside(p: Page, front: seq<byte>, x: seq<byte>, more: seq<byte>, off: nat)
    requires Terminated(x) && off < |x|
    ensures DescAt(p, front + x + more, |front| + off) == DescAt(p, x, off)
  {
    var t := front + x;
    var e, f := EndOf(x, off), EndOf(t, |front| + off);
    assert forall k | 0 <= k < |x| :: t[|front| + k] == x[k];
    assert Stops(x[|x| - 1]) && e < |x|;
    assert Stops(t[|front| + e]) && f <= |front| + e;
    assert t[|front| + (f - |front|)] == x[f - |front|];
    assert f == |front| + e;
    assert t[|front| + off..f] == x[off..e];
    DescStays(p, t, more, |front| + off);
  }

  // ---------------------------------------------------------------- what a description can hold

  /** A character that survives the text file. */
  predicate Good(p: Page, r: rune) { r != 0 && r != SUB && r != CR && p.decode(p.encode(r)) == r }

  /** A description as reading yields it. */
  predicate Clean(p: Page, d: text) {
    (forall i | 0 <= i < |d| :: Good(p, d[i])) && (d != [] ==> d[|d| - 1] != LF)
  }

  lemma {:induction false} UnCrlfKeeps(s: text, good: rune -> bool)
    requires good(LF) && forall i | 0 <= i < |s| :: good(s[i])
    ensures forall i | 0 <= i < |UnCrlf(s)| :: good(UnCrlf(s)[i])
    decreases |s|
  {
    if s == [] {
    } else if s[0] == CR && |s| > 1 && s[1] == LF {
      UnCrlfKeeps(s[2..], good);
    } else {
      UnCrlfKeeps(s[1..], good);
    }
  }

  lemma {:induction false} TrimLfIsFront(s: text)
    ensures |TrimLf(s)| <= |s| && TrimLf(s) == s[..|TrimLf(s)|]
    ensures TrimLf(s) != [] ==> TrimLf(s)[|TrimLf(s)| - 1] != LF
  {
    if s != [] && s[|s| - 1] == LF { TrimLfIsFront(s[..|s| - 1]); }
  }

  /** Every description that is read is clean. */
  lemma ReadIsClean(p: Page, txt: seq<byte>, off: nat)
    requires IsPage(p) && off <= |txt|
    ensures Clean(p, DescAt(p, txt, off))
  {
    var b := txt[off..EndOf(txt, off)];
    var s := Decoded(p, b);
    var good := (r: rune) => r != 0 && r != SUB && p.decode(p.encode(r)) == r;
    forall i | 0 <= i < |s| ensures good(s[i]) {
      assert !Stops(b[i]);
      CharOfByte(p, b[i]);
    }
    assert p.decode(10) == 10 && p.encode(p.decode(10)) == 10;
    UnCrlfKeeps(s, good);
    var u := UnCrlf(s);
    var t := CrToLf(u);
    forall i | 0 <= i < |t| ensures Good(p, t[i]) { assert good(u[i]); }
    TrimLfIsFront(t);
  }

  lemma CharOfByte(p: Page, c: byte)
    requires IsPage(p) && !Stops(c)
    ensures p.decode(c) != 0 && p.decode(c) != SUB && p.decode(p.encode(p.decode(c))) == p.decode(c)
  {
    assert p.encode(p.decode(c)) == c && p.encode(p.decode(0)) == 0 && p.encode(p.decode(SUB)) == SUB;
    assert p.decode(0) == 0 && p.decode(SUB) == SUB;
  }

  lemma {:induction false} AddCrKeeps(s: text, good: rune -> bool)
    requires good(CR) && good(LF) && forall i | 0 <= i < |s| :: good(s[i])
    ensures forall i | 0 <= i < |AddCr(s)| :: good(AddCr(s)[i])
  {
    if s != [] { AddCrKeeps(s[1..], good); }
  }

  lemma {:induction false} UnCrlfOfAddCr(s: text)
    requires CR !in s
    ensures UnCrlf(AddCr(s)) == s
  {
    if s != [] {
      UnCrlfOfAddCr(s[1..]);
      if s[0] == LF {
        assert AddCr(s)[2..] == AddCr(s[1..]);
      } else {
        assert s[0] in s;
        assert AddCr(s)[1..] == AddCr(s[1..]);
      }
    }
  }

  lemma CleanIsNormal(p: Page, d: text)
    requires Clean(p, d)
    ensures Normal(AddCr(d)) == d
  {
    assert forall i | 0 <= i < |d| :: Good(p, d[i]);
    UnCrlfOfAddCr(d);
    assert CrToLf(d) == d;
  }

  /** What lies between `off` and the first stop is what was put there. */
  lemma EndAfter(front: seq<byte>, b: seq<byte>, more: seq<byte>)
    requires forall i | 0 <= i < |b| :: !Stops(b[i])
    ensures EndOf(front + b + [0] + more, |front|) == |front| + |b|
    ensures (front + b + [0] + more)[|front|..|front| + |b|] == b
  {
    var t := front + b + [0] + more;
    var e := EndOf(t, |front|);
    assert t[|front| + |b|] == 0;
    assert forall k | |front| <= k < |front| + |b| :: t[k] == b[k - |front|];
  }

  lemma StoredBytes(p: Page, d: text)
    requires IsPage(p) && Clean(p, d)
    ensures forall i | 0 <= i < |AddCr(d)| :: !Stops(Encoded(p, AddCr(d))[i])
    ensures Decoded(p, Encoded(p, AddCr(d))) == AddCr(d)
  {
    var good := (r: rune) => r != 0 && r != SUB && p.decode(p.encode(r)) == r;
    assert p.decode(10) == 10 && p.encode(p.decode(10)) == 10 && p.decode(13) == 13 && p.encode(p.decode(13)) == 13;
    forall i | 0 <= i < |d| ensures good(d[i]) { assert Good(p, d[i]); }
    AddCrKeeps(d, good);
    var a := AddCr(d);
    forall i | 0 <= i < |a| ensures !Stops(p.encode(a[i])) && p.decode(p.encode(a[i])) == a[i] {
      assert good(a[i]) && p.decode(0) == 0 && p.decode(SUB) == SUB;
    }
  }

  /** A clean description written anywhere in the file reads back as it was. */
  lemma DescReadsBack(p: Page, front: seq<byte>, d: text, more: seq<byte>)
    requires IsPage(p) && Clean(p, d)
    ensures DescAt(p, front + Stored(p, d) + more, |front|) == d
  {
    var b := Encoded(p, AddCr(d));
    StoredBytes(p, d);
    EndAfter(front, b, more);
    assert front + Stored(p, d) + more == front + b + [0] + more;
    CleanIsNormal(p, d);
  }

  // ---------------------------------------------------------------- descriptions that are not blank

  lemma {:induction false} UnCrlfInk(s: text, i: nat)
    requires i < |s| && !IsSpace(s[i])
    ensures !Blank(UnCrlf(s))
    decreases |s|
  {
    var u := UnCrlf(s);
    if s[0] == CR && |s| > 1 && s[1] == LF {
      UnCrlfInk(s[2..], i - 2);
      Longer(LF, UnCrlf(s[2..]));
    } else if i == 0 {
      assert u[0] == s[0];
    } else {
      UnCrlfInk(s[1..], i - 1);
      Longer(s[0], UnCrlf(s[1..]));
    }
  }

  lemma Longer(r: rune, s: text)
    requires !Blank(s)
    ensures !Blank([r] + s)
  {
    var i :| 0 <= i < |s| && !IsSpace(s[i]);
    assert ([r] + s)[i + 1] == s[i];
  }

  lemma {:induction false} TrimLfInk(s: text, i: nat)
    requires i < |s| && !IsSpace(s[i])
    ensures !Blank(TrimLf(s))
    decreases |s|
  {
    if s[|s| - 1] == LF { TrimLfInk(s[..|s| - 1], i); }
  }

  lemma NormalInk(s: text, i: nat)
    requires i < |s| && !IsSpace(s[i])
    ensures !Blank(Normal(s))
  {
    UnCrlfInk(s, i);
    var u := UnCrlf(s);
    var k :| 0 <= k < |u| && !IsSpace(u[k]);
    TrimLfInk(CrToLf(u), k);
  }

  predicate NoStops(d: text) { forall i | 0 <= i < |d| :: d[i] != 0 && d[i] != SUB }

  lemma NoStopBytes(p: Page, d: text)
    requires IsPage(p) && NoStops(d)
    ensures forall i | 0 <= i < |d| :: !Stops(Encoded(p, d)[i])
  {
    forall i | 0 <= i < |d| ensures !Stops(p.encode(d[i])) {
      assert p.decode(p.encode(d[i])) == d[i] || p.encode(d[i]) == QUESTION;
      assert p.decode(0) == 0 && p.decode(SUB) == SUB;
    }
  }

  /** A description that is not blank and has no NUL or SUB in it does not become blank in the file. */
  lemma InkStays(p: Page, front: seq<byte>, d: text, more: seq<byte>)
    requires IsPage(p) && !Blank(d) && NoStops(d)
    ensures !Blank(DescAt(p, front + Encoded(p, d) + [0] + more, |front|))
  {
    var b := Encoded(p, d);
    NoStopBytes(p, d);
    EndAfter(front, b, more);
    var i :| 0 <= i < |d| && !IsSpace(d[i]);
    assert p.decode(p.encode(d[i])) == d[i] || p.encode(d[i]) == QUESTION;
    assert p.decode(QUESTION) == QUESTION;
    NormalInk(Decoded(p, b), i);
  }
}
