/** Message text in a base: line ends, control lines, and how they come apart again. */
module JamText {
  import opened Bytes

  const SOH: byte := 1

  /** Every LF not preceded by CR gets one; `after` says the byte before `s` is a CR. */
  function CrlfAfter(s: seq<byte>, after: bool): seq<byte> {
    if s == [] then []
    else if s[0] == LF then (if after then [LF] else [CR, LF]) + CrlfAfter(s[1..], false)
    else [s[0]] + CrlfAfter(s[1..], s[0] == CR)
  }

  function Crlf(s: seq<byte>): seq<byte> { CrlfAfter(s, false) }

  method StringsCRLF(s: seq<byte>) returns (out: seq<byte>)
    ensures out == Crlf(s)
  {
    out := [];
    assert s[0..] == s;
    for i := 0 to |s|
      invariant Crlf(s) == out + CrlfAfter(s[i..], i > 0 && s[i - 1] == CR)
    {
      ghost var was := out;
      if s[i] == LF {
        if i == 0 || s[i - 1] != CR {
          out := out + [CR];
        }
        out := out + [LF];
      } else {
        out := out + [s[i]];
      }
      CrlfStep(s, i, was, out);
    }
    assert s[|s|..] == [];
  }

  lemma CrlfStep(s: seq<byte>, i: nat, was: seq<byte>, out: seq<byte>)
    requires i < |s|
    requires out == was + (if s[i] != LF then [s[i]] else if i > 0 && s[i - 1] == CR then [LF] else [CR, LF])
    ensures was + CrlfAfter(s[i..], i > 0 && s[i - 1] == CR) == out + CrlfAfter(s[i + 1..], s[i] == CR)
  {
    assert s[i..][1..] == s[i + 1..];
  }

  /** CR LF and single CR both become LF. */
  function Norm(s: seq<byte>): seq<byte> {
    if s == [] then []
    else if s[0] != CR then [s[0]] + Norm(s[1..])
    else if |s| > 1 && s[1] == LF then [LF] + Norm(s[2..])
    else [LF] + Norm(s[1..])
  }

  function Split(s: seq<byte>): (ls: seq<seq<byte>>)
    ensures |ls| > 0
  {
    if s == [] then [[]]
    else
      var ls := Split(s[1..]);
      if s[0] == LF then [[]] + ls else [[s[0]] + ls[0]] + ls[1..]
  }

  function Join(ls: seq<seq<byte>>): seq<byte> {
    if ls == [] then [] else if |ls| == 1 then ls[0] else ls[0] + [LF] + Join(ls[1..])
  }

  predicate IsKludge(ln: seq<byte>) { ln != [] && ln[0] == SOH }

  function KludgesOf(ls: seq<seq<byte>>): seq<seq<byte>> {
    if ls == [] then [] else (if IsKludge(ls[0]) then [ls[0][1..]] else []) + KludgesOf(ls[1..])
  }

  function PlainOf(ls: seq<seq<byte>>): seq<seq<byte>> {
    if ls == [] then [] else (if IsKludge(ls[0]) then [] else [ls[0]]) + PlainOf(ls[1..])
  }

  /** Body and control lines of stored text. */
  function SplitJamText(raw: seq<byte>): (seq<byte>, seq<seq<byte>>) {
    var ls := Split(Norm(raw));
    (Join(PlainOf(ls)), KludgesOf(ls))
  }

  method DoSplitJamText(raw: seq<byte>) returns (body: seq<byte>, kludges: seq<seq<byte>>)
    ensures (body, kludges) == SplitJamText(raw)
  {
    var ls := Split(Norm(raw));
    var plain: seq<seq<byte>> := [];
    kludges := [];
    assert ls[0..] == ls;
    for i := 0 to |ls|
      invariant KludgesOf(ls) == kludges + KludgesOf(ls[i..]) && PlainOf(ls) == plain + PlainOf(ls[i..])
    {
      FilterHead(ls, i);
      ghost var k, p := KludgesOf(ls[i + 1..]), PlainOf(ls[i + 1..]);
      if IsKludge(ls[i]) {
        assert kludges + ([ls[i][1..]] + k) == kludges + [ls[i][1..]] + k;
        kludges := kludges + [ls[i][1..]];
      } else {
        assert plain + ([ls[i]] + p) == plain + [ls[i]] + p;
        plain := plain + [ls[i]];
      }
    }
    assert ls[|ls|..] == [];
    assert KludgesOf(ls) == kludges && PlainOf(ls) == plain;
    body := Join(plain);
  }

  lemma FilterHead(ls: seq<seq<byte>>, i: nat)
    requires i < |ls|
    ensures KludgesOf(ls[i..]) == (if IsKludge(ls[i]) then [ls[i][1..]] else []) + KludgesOf(ls[i + 1..])
    ensures PlainOf(ls[i..]) == (if IsKludge(ls[i]) then [] else [ls[i]]) + PlainOf(ls[i + 1..])
  {
    assert ls[i..][1..] == ls[i + 1..];
  }

  /** A body that does not end a line gets a CR LF. */
  function Terminated(body: seq<byte>): seq<byte> {
    if body != [] && body[|body| - 1] != LF && body[|body| - 1] != CR then body + [CR, LF] else body
  }

  function KludgeBytes(ks: seq<seq<byte>>): seq<byte> {
    if ks == [] then [] else [SOH] + ks[0] + [CR] + KludgeBytes(ks[1..])
  }

  /** What is stored for a body and its control lines. */
  function RawText(body: seq<byte>, ks: seq<seq<byte>>): seq<byte> { Crlf(Terminated(body)) + KludgeBytes(ks) }

  // ---------------------------------------------------------------- reading back

  lemma {:induction false} NormOfCrlf(s: seq<byte>)
    ensures Norm(Crlf(s)) == Norm(s)
    decreases |s|
  {
    if s != [] {
      if s[0] == CR && |s| > 1 && s[1] == LF {
        NormOfCrlf(s[2..]);
        assert s[1..][1..] == s[2..];
        assert CrlfAfter(s[1..], true) == [LF] + Crlf(s[2..]);
        assert Crlf(s) == [CR] + ([LF] + Crlf(s[2..]));
        assert Crlf(s)[2..] == Crlf(s[2..]);
      } else if s[0] == CR {
        NormOfCrlf(s[1..]);
        assert CrlfAfter(s[1..], true) == Crlf(s[1..]);
        assert Crlf(s) == [CR] + Crlf(s[1..]);
      } else if s[0] == LF {
        NormOfCrlf(s[1..]);
        assert Crlf(s) == [CR, LF] + Crlf(s[1..]);
        assert Crlf(s)[2..] == Crlf(s[1..]);
      } else {
        NormOfCrlf(s[1..]);
      }
    }
  }

  /** In stored text every LF has a CR in front. */
  lemma {:induction false} CrlfEndsLines(s: seq<byte>, after: bool, k: nat)
    requires k < |CrlfAfter(s, after)| && CrlfAfter(s, after)[k] == LF
    ensures if k == 0 then after else CrlfAfter(s, after)[k - 1] == CR
    decreases |s|
  {
    var front := if s[0] != LF then [s[0]] else if after then [LF] else [CR, LF];
    var more := CrlfAfter(s[1..], s[0] == CR);
    assert CrlfAfter(s, after) == front + more;
    if k >= |front| { CrlfEndsLines(s[1..], s[0] == CR, k - |front|); }
  }

  /** The text without the CR directly in front of each LF. */
  function WithoutCr(s: seq<byte>): seq<byte>
    decreases |s|
  {
    if s == [] then []
    else if |s| > 1 && s[0] == CR && s[1] == LF then [LF] + WithoutCr(s[2..])
    else [s[0]] + WithoutCr(s[1..])
  }

  /** Nothing else is added: without the CRs in front of LFs, the text is what it was without them. */
  lemma {:induction false} CrlfAddsOnlyCr(s: seq<byte>)
    ensures WithoutCr(Crlf(s)) == WithoutCr(s)
    decreases |s|
  {
    if s != [] {
      if s[0] == CR && |s| > 1 && s[1] == LF {
        CrlfAddsOnlyCr(s[2..]);
        assert s[1..][1..] == s[2..];
        assert CrlfAfter(s[1..], true) == [LF] + Crlf(s[2..]);
        assert Crlf(s) == [CR] + ([LF] + Crlf(s[2..]));
        assert Crlf(s)[2..] == Crlf(s[2..]);
      } else if s[0] == CR {
        CrlfAddsOnlyCr(s[1..]);
        assert CrlfAfter(s[1..], true) == Crlf(s[1..]);
        assert Crlf(s) == [CR] + Crlf(s[1..]);
        if |s| > 1 { assert Crlf(s[1..])[0] == s[1]; }
      } else if s[0] == LF {
        CrlfAddsOnlyCr(s[1..]);
        assert Crlf(s) == [CR, LF] + Crlf(s[1..]);
        assert Crlf(s)[2..] == Crlf(s[1..]);
      } else {
        CrlfAddsOnlyCr(s[1..]);
      }
    }
  }

  lemma Prepended(x: seq<byte>, a: seq<byte>, b: seq<byte>, ab: seq<byte>)
    requires ab == a + b
    ensures x + ab == x + a + b
  {}

  lemma {:induction false} NormAdds(a: seq<byte>, b: seq<byte>)
    requires b == [] || b[0] != LF
    ensures Norm(a + b) == Norm(a) + Norm(b)
    decreases |a|
  {
    if a == [] {
      assert a + b == b;
    } else if a[0] == CR && |a| > 1 && a[1] == LF {
      NormAdds(a[2..], b);
      assert (a + b)[2..] == a[2..] + b;
      Prepended([LF], Norm(a[2..]), Norm(b), Norm(a[2..] + b));
    } else {
      NormAdds(a[1..], b);
      assert (a + b)[1..] == a[1..] + b;
      Prepended([if a[0] == CR then LF else a[0]], Norm(a[1..]), Norm(b), Norm(a[1..] + b));
    }
  }

  /** No CR is left; text without CR stays; CR LF, and CR with no LF behind it, each make one LF where they stand. */
  lemma {:induction false} NormHasNoCr(s: seq<byte>)
    ensures CR !in Norm(s) && (CR !in s ==> Norm(s) == s)
    decreases |s|
  {
    if s != [] {
      assert s[0] in s;
      if s[0] == CR && |s| > 1 && s[1] == LF { NormHasNoCr(s[2..]); } else { NormHasNoCr(s[1..]); }
      if CR !in s { assert forall b | b in s[1..] :: b in s; }
    }
  }

  lemma NormLineEnds(a: seq<byte>, b: seq<byte>)
    ensures Norm(a + [CR, LF] + b) == Norm(a) + [LF] + Norm(b)
    ensures b == [] || b[0] != LF ==> Norm(a + [CR] + b) == Norm(a) + [LF] + Norm(b)
  {
    var x, y := [CR, LF] + b, [CR] + b;
    assert a + [CR, LF] + b == a + x && a + [CR] + b == a + y;
    NormAdds(a, x);
    NormAdds(a, y);
    assert x[2..] == b && y[1..] == b;
    Prepended(Norm(a), [LF], Norm(b), [LF] + Norm(b));
  }

  predicate EndsLine(s: seq<byte>) { s == [] || s[|s| - 1] == LF }

  lemma {:induction false} NormEndsLine(s: seq<byte>)
    requires s == [] || s[|s| - 1] == LF || s[|s| - 1] == CR
    ensures EndsLine(Norm(s))
    decreases |s|
  {
    if s != [] {
      if s[0] == CR && |s| > 1 && s[1] == LF { NormEndsLine(s[2..]); }
      else { NormEndsLine(s[1..]); }
    }
  }

  lemma {:induction false} SplitEnds(a: seq<byte>)
    requires EndsLine(a)
    ensures Split(a)[|Split(a)| - 1] == []
    decreases |a|
  {
    if a != [] { SplitEnds(a[1..]); }
  }

  /** After a complete line, splitting starts afresh. */
  lemma {:induction false} SplitAdds(a: seq<byte>, b: seq<byte>)
    requires EndsLine(a)
    ensures Split(a + b) == Split(a)[..|Split(a)| - 1] + Split(b)
    decreases |a|
  {
    if a == [] {
      assert a + b == b;
    } else {
      SplitAdds(a[1..], b);
      assert (a + b)[1..] == a[1..] + b && (a + b)[0] == a[0];
      assert a[0] != LF ==> |Split(a[1..])| > 1 by { if |a| > 1 && a[0] != LF { SplitLong(a[1..]); } }
      SplitStep(a[0], Split(a[1..]), Split(b));
    }
  }

  lemma {:induction false} SplitLong(a: seq<byte>)
    requires a != [] && EndsLine(a)
    ensures |Split(a)| > 1
    decreases |a|
  {
    if |a| > 1 { SplitLong(a[1..]); }
  }

  /** One byte in front of lines that were split. */
  lemma SplitStep(x: byte, la: seq<seq<byte>>, lb: seq<seq<byte>>)
    requires la != [] && lb != []
    ensures [[]] + (la[..|la| - 1] + lb) == ([[]] + la)[..|la|] + lb
    ensures |la| > 1 ==> var all := la[..|la| - 1] + lb; var front := [[x] + la[0]] + la[1..];
            [[x] + all[0]] + all[1..] == front[..|front| - 1] + lb
  {}

  lemma {:induction false} JoinOfSplit(s: seq<byte>)
    ensures Join(Split(s)) == s
  {
    if s != [] {
      JoinOfSplit(s[1..]);
    }
  }

  /** A control line as given to `AppendMsg`: one line. */
  predicate OneLine(k: seq<byte>) { CR !in k && LF !in k }

  predicate AllOneLine(ks: seq<seq<byte>>) { forall i | 0 <= i < |ks| :: OneLine(ks[i]) }

  predicate NoKludge(ls: seq<seq<byte>>) { forall i | 0 <= i < |ls| :: !IsKludge(ls[i]) }

  lemma {:induction false} NormOfLine(k: seq<byte>, rest: seq<byte>)
    requires OneLine(k)
    ensures Norm(k + [CR] + rest) == k + Norm([CR] + rest)
  {
    if k == [] {
      assert k + [CR] + rest == [CR] + rest;
    } else {
      NormOfLine(k[1..], rest);
      assert (k + [CR] + rest)[1..] == k[1..] + [CR] + rest;
    }
  }

  lemma {:induction false} SplitOfLine(k: seq<byte>, rest: seq<byte>)
    requires OneLine(k)
    ensures Split(k + [LF] + rest) == [k] + Split(rest)
  {
    if k == [] {
      assert (k + [LF] + rest)[1..] == rest;
    } else {
      SplitOfLine(k[1..], rest);
      assert (k + [LF] + rest)[1..] == k[1..] + [LF] + rest;
      assert ([k[1..]] + Split(rest))[1..] == Split(rest) && [k[0]] + k[1..] == k;
    }
  }

  /** The stored control lines split into themselves and one empty line. */
  lemma {:induction false} KludgesComeBack(ks: seq<seq<byte>>)
    requires AllOneLine(ks)
    ensures var ls := Split(Norm(KludgeBytes(ks)));
            KludgesOf(ls) == ks && PlainOf(ls) == [[]] && (KludgeBytes(ks) == [] || KludgeBytes(ks)[0] == SOH)
  {
    if ks == [] {
      assert Split([]) == [[]];
    } else {
      var rest := KludgeBytes(ks[1..]);
      var k := [SOH] + ks[0];
      KludgesComeBack(ks[1..]);
      assert KludgeBytes(ks) == k + [CR] + rest;
      NormOfLine(k, rest);
      assert ([CR] + rest)[1..] == rest;
      assert k + Norm([CR] + rest) == k + [LF] + Norm(rest);
      SplitOfLine(k, Norm(rest));
      var ls := Split(Norm(rest));
      assert ([k] + ls)[1..] == ls && k[1..] == ks[0];
    }
  }

  lemma {:induction false} FiltersAdd(a: seq<seq<byte>>, b: seq<seq<byte>>)
    requires NoKludge(a)
    ensures KludgesOf(a + b) == KludgesOf(b) && PlainOf(a + b) == a + PlainOf(b)
  {
    if a == [] {
      assert a + b == b;
    } else {
      assert (a + b)[0] == a[0] && (a + b)[1..] == a[1..] + b && !IsKludge(a[0]);
      FiltersAdd(a[1..], b);
      assert [a[0]] + (a[1..] + PlainOf(b)) == a + PlainOf(b);
    }
  }

  lemma NormOfRaw(body: seq<byte>, ks: seq<seq<byte>>)
    ensures Norm(RawText(body, ks)) == Norm(Terminated(body)) + Norm(KludgeBytes(ks))
  {
    NormAdds(Crlf(Terminated(body)), KludgeBytes(ks));
    NormOfCrlf(Terminated(body));
  }

  /** Stored text reads back as the body, with every line end a single LF and the last line ended, and the
      control lines in order. */
  lemma TextReadsBack(body: seq<byte>, ks: seq<seq<byte>>)
    requires AllOneLine(ks) && NoKludge(Split(Norm(Terminated(body))))
    ensures SplitJamText(RawText(body, ks)) == (Norm(Terminated(body)), ks)
  {
    NormOfRaw(body, ks);
    NormEndsLine(Terminated(body));
    KludgesComeBack(ks);
    SplitsBack(Norm(RawText(body, ks)), Norm(Terminated(body)), Norm(KludgeBytes(ks)), ks);
  }

  lemma SplitsBack(raw: seq<byte>, a: seq<byte>, b: seq<byte>, ks: seq<seq<byte>>)
    requires raw == a + b && EndsLine(a) && NoKludge(Split(a)) && PlainOf(Split(b)) == [[]] && KludgesOf(Split(b)) == ks
    ensures Join(PlainOf(Split(raw))) == a && KludgesOf(Split(raw)) == ks
  {
    SplitAdds(a, b);
    SplitEnds(a);
    LinesComeApart(Split(a), Split(b));
    JoinOfSplit(a);
  }

  lemma LinesComeApart(la: seq<seq<byte>>, lb: seq<seq<byte>>)
    requires |la| > 0 && la[|la| - 1] == [] && NoKludge(la) && PlainOf(lb) == [[]]
    ensures var ls := la[..|la| - 1] + lb; PlainOf(ls) == la && KludgesOf(ls) == KludgesOf(lb)
  {
    var front := la[..|la| - 1];
    FiltersAdd(front, lb);
    assert front + [la[|la| - 1]] == la;
  }
}
