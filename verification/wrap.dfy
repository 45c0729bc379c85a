/** Breaking message text into lines of bounded width. */
module MailWrap {
  import opened Bytes
  import JamText

  const SOFT_CR: byte := 141
  const SP: byte := 32

  type text = seq<byte>

  /** What wrapping keeps of a paragraph: everything but soft line ends and zero bytes. */
  function Strip(s: text): text {
    if s == [] then [] else Strip(s[..|s| - 1]) + (if s[|s| - 1] == SOFT_CR || s[|s| - 1] == NUL then [] else [s[|s| - 1]])
  }

  /** Index of the last space; -1 if there is none. */
  function LastSpace(s: text): (k: int)
    ensures -1 <= k < |s| && (k >= 0 ==> s[k] == SP) && forall i | k < i < |s| :: s[i] != SP
  {
    if s == [] then -1 else if s[|s| - 1] == SP then |s| - 1 else LastSpace(s[..|s| - 1])
  }

  // ---------------------------------------------------------------- what wrapping does

  /** Finished lines, and the one being filled. */
  datatype Run = Run(out: seq<text>, cur: text)

  /** A line that reached the width ends at its last space, or, if it has none after its first byte, right there. */
  function Break(width: nat, r: Run): Run {
    if |r.cur| < width then r
    else
      var k := LastSpace(r.cur);
      if k > 0 then Run(r.out + [r.cur[..k]], r.cur[k + 1..]) else Run(r.out + [r.cur], [])
  }

  function Feed(width: nat, r: Run, b: byte): Run {
    if b == SOFT_CR || b == NUL then r
    else if b == LF then Run(r.out + [r.cur], [])
    else Break(width, r.(cur := r.cur + [b]))
  }

  function FeedAll(width: nat, s: text): Run {
    if s == [] then Run([], []) else Feed(width, FeedAll(width, s[..|s| - 1]), s[|s| - 1])
  }

  function Finish(r: Run): seq<text> { if r.cur != [] || r.out == [] then r.out + [r.cur] else r.out }

  function Wrap(width: nat, paragraph: text): seq<text> { Finish(FeedAll(width, paragraph)) }

  function WrapAll(width: nat, paragraphs: seq<text>): seq<text> {
    if paragraphs == [] then [] else WrapAll(width, paragraphs[..|paragraphs| - 1]) + Wrap(width, paragraphs[|paragraphs| - 1])
  }

  // ---------------------------------------------------------------- how it is done

  /** Wraps one paragraph. */
  class RunWrapper {
    var out: seq<text>
    var cur: text
    var lastSpace: int

    ghost predicate Valid()
      reads this
    {
      lastSpace == LastSpace(cur)
    }

    ghost function Now(): Run
      reads this
    {
      Run(out, cur)
    }

    constructor ()
      ensures Valid() && Now() == Run([], [])
    {
      out, cur, lastSpace := [], [], -1;
    }

    /** Ends a line after `cut` bytes, drops the space there if there is one, and starts the next with the rest. */
    method Flush(cut: nat)
      requires cut <= |cur|
      modifies this
      ensures Valid() && out == old(out) + [old(cur)[..cut]]
      ensures cur == if cut < |old(cur)| && old(cur)[cut] == SP then old(cur)[cut + 1..] else old(cur)[cut..]
    {
      out := out + [cur[..cut]];
      var rest := cur[cut..];
      if |rest| > 0 && rest[0] == SP {
        rest := rest[1..];
      }
      cur := rest;
      lastSpace := -1;
      for i := 0 to |cur|
        invariant cur == rest && out == old(out) + [old(cur)[..cut]] && lastSpace == LastSpace(cur[..i])
      {
        assert cur[..i + 1][..i] == cur[..i];
        if cur[i] == SP {
          lastSpace := i;
        }
      }
      assert cur[..|cur|] == cur;
    }

    method Add(ch: byte, maxLen: nat)
      requires Valid() && maxLen >= 1
      modifies this
      ensures Valid() && Now() == Feed(maxLen, old(Now()), ch)
    {
      if ch == SOFT_CR || ch == NUL {
        return;
      }
      assert cur[..|cur|] == cur;
      if ch == LF {
        Flush(|cur|);
        return;
      }
      cur := cur + [ch];
      assert cur[..|cur| - 1] == old(cur);
      if ch == SP {
        lastSpace := |cur| - 1;
      }
      if |cur| < maxLen {
        return;
      }
      EndLine(maxLen);
    }

    /** Ends a line that reached the width. */
    method EndLine(ghost maxLen: nat)
      requires Valid() && |cur| >= maxLen
      modifies this
      ensures Valid() && Now() == Break(maxLen, old(Now()))
    {
      assert cur[..|cur|] == cur;
      if lastSpace > 0 {
        Flush(lastSpace);
      } else {
        Flush(|cur|);
      }
    }
  }

  method WrapRun(s: text, maxLen: nat) returns (lines: seq<text>)
    requires maxLen >= 1
    ensures lines == Wrap(maxLen, s)
  {
    if s == [] {
      return [[]];
    }
    var w := new RunWrapper();
    for i := 0 to |s|
      invariant w.Valid() && w.Now() == FeedAll(maxLen, s[..i])
    {
      assert s[..i + 1][..i] == s[..i];
      w.Add(s[i], maxLen);
    }
    assert s[..|s|] == s;
    lines := w.out;
    if |w.cur| > 0 || |w.out| == 0 {
      lines := lines + [w.cur];
    }
  }

  /** Wraps a whole text; a width below 1 means 79. */
  method WrapLines(raw: text, maxLen: int) returns (lines: seq<text>)
    ensures lines == WrapAll(if maxLen < 1 then 79 else maxLen, JamText.Split(JamText.Norm(raw)))
  {
    var width := if maxLen < 1 then 79 else maxLen;
    var paragraphs := JamText.Split(JamText.Norm(raw));
    lines := [];
    for i := 0 to |paragraphs|
      invariant lines == WrapAll(width, paragraphs[..i])
    {
      assert paragraphs[..i + 1][..i] == paragraphs[..i];
      var more := WrapRun(paragraphs[i], width);
      lines := lines + more;
    }
    assert paragraphs[..|paragraphs|] == paragraphs;
  }

  // ---------------------------------------------------------------- the width

  /** A line that a space ended is shorter than the width; one that was cut fills it and has no space to break at. */
  predicate Fits(width: nat, line: text) {
    |line| < width || (|line| == width && forall i | 1 <= i < width :: line[i] != SP)
  }

  predicate AllFit(width: nat, lines: seq<text>) { forall k | 0 <= k < |lines| :: Fits(width, lines[k]) }

  lemma {:induction false} LinesFit(width: nat, s: text)
    requires width >= 1
    ensures AllFit(width, FeedAll(width, s).out) && |FeedAll(width, s).cur| < width
  {
    if s != [] {
      var short, b := s[..|s| - 1], s[|s| - 1];
      LinesFit(width, short);
      var r := FeedAll(width, short);
      if b == LF { AllFitMore(width, r.out, r.cur); } else { BreakFits(width, r.(cur := r.cur + [b])); }
    }
  }

  lemma AllFitMore(width: nat, out: seq<text>, line: text)
    requires AllFit(width, out) && Fits(width, line)
    ensures AllFit(width, out + [line])
  {}

  lemma {:induction false} BreakFits(width: nat, r: Run)
    requires width >= 1 && AllFit(width, r.out) && |r.cur| <= width
    ensures AllFit(width, Break(width, r).out) && |Break(width, r).cur| < width
  {
    if |r.cur| == width {
      var k := LastSpace(r.cur);
      AllFitMore(width, r.out, if k > 0 then r.cur[..k] else r.cur);
    }
  }

  /** Every line is at most as long as the width, and only as long as it if it holds no space to break at. */
  lemma WidthBound(width: nat, paragraph: text)
    requires width >= 1
    ensures AllFit(width, Wrap(width, paragraph)) && Wrap(width, paragraph) != []
  {
    LinesFit(width, paragraph);
  }

  // ---------------------------------------------------------------- the text

  /** What stands between a line and the next: the space it was broken at, or nothing where it was cut. */
  function Gap(width: nat, line: text): text { if |line| < width then [SP] else [] }

  /** Finished lines with their gaps. */
  function Ended(width: nat, out: seq<text>): text {
    if out == [] then [] else Ended(width, out[..|out| - 1]) + out[|out| - 1] + Gap(width, out[|out| - 1])
  }

  /** Lines joined again. */
  function Rejoin(width: nat, lines: seq<text>): text
    requires lines != []
  {
    Ended(width, lines[..|lines| - 1]) + lines[|lines| - 1]
  }

  predicate OneParagraph(s: text) { LF !in s }

  /** The paragraphs that `WrapLines` wraps hold no line end, so that all that follows holds for each of them. */
  lemma {:induction false} ParagraphsHaveNoLineEnds(s: text)
    ensures forall k | 0 <= k < |JamText.Split(s)| :: OneParagraph(JamText.Split(s)[k])
  {
    if s != [] { ParagraphsHaveNoLineEnds(s[1..]); }
  }

  /** Nothing is lost and nothing added on the way. */
  lemma {:induction false} NothingLost(width: nat, s: text)
    requires width >= 1 && OneParagraph(s)
    ensures Ended(width, FeedAll(width, s).out) + FeedAll(width, s).cur == Strip(s)
  {
    if s != [] {
      var short, b := s[..|s| - 1], s[|s| - 1];
      NothingLost(width, short);
      LinesFit(width, short);
      var r := FeedAll(width, short);
      if b != SOFT_CR && b != NUL {
        BreakKeeps(width, r.(cur := r.cur + [b]));
        assert Ended(width, r.out) + (r.cur + [b]) == (Ended(width, r.out) + r.cur) + [b];
      }
    }
  }

  lemma EndedGrows(width: nat, out: seq<text>, line: text)
    ensures Ended(width, out + [line]) == Ended(width, out) + line + Gap(width, line)
  {
    assert (out + [line])[..|out|] == out;
  }

  lemma Regroup(a: text, b: text, c: text, d: text)
    ensures a + b + c + d == a + (b + c + d)
  {}

  lemma {:induction false} BreakKeeps(width: nat, r: Run)
    requires |r.cur| <= width
    ensures Ended(width, Break(width, r).out) + Break(width, r).cur == Ended(width, r.out) + r.cur
  {
    if |r.cur| == width {
      var k := LastSpace(r.cur);
      if k > 0 {
        EndedGrows(width, r.out, r.cur[..k]);
        Regroup(Ended(width, r.out), r.cur[..k], [SP], r.cur[k + 1..]);
        assert r.cur[..k] + [SP] + r.cur[k + 1..] == r.cur;
      } else {
        EndedGrows(width, r.out, r.cur);
      }
    }
  }

  /** The paragraph ends in a space that ended its last line. */
  predicate DropsLastSpace(width: nat, s: text) { FeedAll(width, s).cur == [] && FeedAll(width, s).out != [] && EndsShort(width, FeedAll(width, s).out) }

  predicate EndsShort(width: nat, out: seq<text>)
    requires out != []
  {
    |out[|out| - 1]| < width
  }

  /** Joining the lines of a paragraph, with a space where a line is shorter than the width, gives its text: all of it,
      or all but a space at the very end. */
  lemma TextConserved(width: nat, s: text)
    requires width >= 1 && OneParagraph(s)
    ensures Strip(s) == Rejoin(width, Wrap(width, s)) + (if DropsLastSpace(width, s) then [SP] else [])
  {
    NothingLost(width, s);
    var r := FeedAll(width, s);
    if r.cur != [] || r.out == [] {
      assert (r.out + [r.cur])[..|r.out|] == r.out;
    } else {
      var last := |r.out| - 1;
      assert Ended(width, r.out) == Ended(width, r.out[..last]) + r.out[last] + Gap(width, r.out[last]);
    }
  }

  /** Soft line ends and zero bytes change nothing. */
  lemma {:induction false} StripFeeds(width: nat, s: text)
    ensures FeedAll(width, s) == FeedAll(width, Strip(s))
  {
    if s != [] {
      var short, b := s[..|s| - 1], s[|s| - 1];
      StripFeeds(width, short);
      var t := Strip(short);
      assert (t + [b])[..|t|] == t;
      assert t + [] == t;
    }
  }

  lemma {:induction false} StripMember(s: text, b: byte)
    requires b in Strip(s)
    ensures b in s && b != SOFT_CR && b != NUL
  {
    if b in Strip(s[..|s| - 1]) {
      StripMember(s[..|s| - 1], b);
      assert b in s[..|s| - 1];
    }
  }

  /** A space is dropped exactly if it is the last byte kept, comes in the last column of a line, and that is not the
      first column. */
  lemma DroppedExactly(width: nat, s: text)
    requires width >= 1 && OneParagraph(s)
    ensures DropsLastSpace(width, s) <==>
            Strip(s) != [] && Strip(s)[|Strip(s)| - 1] == SP && |FeedAll(width, Strip(s)[..|Strip(s)| - 1]).cur| == width - 1 >= 1
  {
    StripFeeds(width, s);
    var t := Strip(s);
    if t != [] {
      var b := t[|t| - 1];
      StripMember(s, b);
      if LF in t { StripMember(s, LF); }
      assert t == t[..|t| - 1] + [b];
      DroppedAfter(width, t[..|t| - 1], b);
    }
  }

  lemma DroppedAfter(width: nat, s: text, b: byte)
    requires width >= 1 && b != LF && b != SOFT_CR && b != NUL
    ensures DropsLastSpace(width, s + [b]) <==> b == SP && |FeedAll(width, s).cur| == width - 1 >= 1
  {
    assert (s + [b])[..|s|] == s;
    LinesFit(width, s);
    var r := FeedAll(width, s);
    var c := r.cur + [b];
    if |c| == width { DroppedBreak(width, r, b); }
  }

  lemma DroppedBreak(width: nat, r: Run, b: byte)
    requires |r.cur| + 1 == width
    ensures var e := Break(width, r.(cur := r.cur + [b]));
            e.out != [] && (e.cur == [] && EndsShort(width, e.out) <==> b == SP && width > 1)
  {
    var c := r.cur + [b];
    var k := LastSpace(c);
    if k > 0 {
      assert |c[k + 1..]| == width - 1 - k;
    }
  }

  /** Four letters' width: the space after "abc" is lost. */
  lemma LosesASpace()
    ensures Wrap(4, [97, 98, 99, SP]) == [[97, 98, 99]] && Strip([97, 98, 99, SP]) == [97, 98, 99, SP]
  {
    var s: text := [97, 98, 99, SP];
    assert s[..3] == [97, 98, 99] && s[..3][..2] == [97, 98] && s[..3][..2][..1] == [97] && s[..3][..2][..1][..0] == [];
    assert FeedAll(4, []) == Run([], []);
    assert FeedAll(4, s[..3][..2][..1]) == Run([], [97]);
    assert FeedAll(4, s[..3][..2]) == Run([], [97, 98]);
    assert FeedAll(4, s[..3]) == Run([], [97, 98, 99]);
    assert LastSpace(s) == 3;
    assert FeedAll(4, s) == Run([[97, 98, 99]], []);
    assert Strip([97]) == [97] && Strip(s[..3][..2]) == [97, 98];
  }

  // ---------------------------------------------------------------- the whole text

  /** The lines of all paragraphs in order, paragraph by paragraph. */
  function Concat(groups: seq<seq<text>>): seq<text> {
    if groups == [] then [] else groups[0] + Concat(groups[1..])
  }

  function Groups(width: nat, ps: seq<text>): seq<seq<text>> {
    seq(|ps|, i requires 0 <= i < |ps| => Wrap(width, ps[i]))
  }

  lemma {:induction false} ConcatAdds(groups: seq<seq<text>>, last: seq<text>)
    ensures Concat(groups + [last]) == Concat(groups) + last
  {
    if groups != [] {
      ConcatAdds(groups[1..], last);
      assert (groups + [last])[1..] == groups[1..] + [last];
      assert groups[0] + (Concat(groups[1..]) + last) == Concat(groups) + last;
    } else {
      assert Concat([last]) == last + Concat([last][1..]);
    }
  }

  lemma {:induction false} WrapAllGroups(width: nat, ps: seq<text>)
    requires width >= 1
    ensures WrapAll(width, ps) == Concat(Groups(width, ps)) && AllFit(width, WrapAll(width, ps))
  {
    if ps != [] {
      var front, last := ps[..|ps| - 1], ps[|ps| - 1];
      WrapAllGroups(width, front);
      WidthBound(width, last);
      ConcatAdds(Groups(width, front), Wrap(width, last));
      assert Groups(width, ps) == Groups(width, front) + [Wrap(width, last)];
    }
  }

  lemma {:induction false} StripAdds(a: text, b: text)
    ensures Strip(a + b) == Strip(a) + Strip(b)
  {
    if b == [] {
      assert a + b == a;
    } else {
      var short, x := b[..|b| - 1], b[|b| - 1];
      StripAdds(a, short);
      assert (a + b)[..|a + b| - 1] == a + short;
    }
  }

  /** How often a byte is left: not at all, or as often as it was there. */
  lemma {:induction false} StripCounts(s: text, b: byte)
    ensures multiset(Strip(s))[b] == if b == SOFT_CR || b == NUL then 0 else multiset(s)[b]
  {
    if s != [] {
      var k := |s| - 1;
      assert s == s[..k] + [s[k]];
      StripCounts(s[..k], b);
    }
  }

  /** What paragraphs keep. */
  function Kept(ps: seq<text>): seq<text> { seq(|ps|, i requires 0 <= i < |ps| => Strip(ps[i])) }

  lemma {:induction false} StripJoins(ps: seq<text>)
    ensures Strip(JamText.Join(ps)) == JamText.Join(Kept(ps))
  {
    if |ps| > 1 {
      StripJoins(ps[1..]);
      StripAdds(ps[0] + [LF], JamText.Join(ps[1..]));
      StripAdds(ps[0], [LF]);
      assert [LF][..0] == [];
      assert Kept(ps)[1..] == Kept(ps[1..]);
    }
  }

  /** A paragraph as its lines give it back, with the space they may have dropped. */
  function GivenBack(width: nat, p: text): text {
    var lines := Wrap(width, p);
    if lines == [] then [] else Rejoin(width, lines) + (if DropsLastSpace(width, p) then [SP] else [])
  }

  /** Over a whole text: every line fits, the lines come paragraph by paragraph, and the paragraphs they give back are
      the text with line ends made one kind and without soft CR and NUL. */
  lemma WholeTextConserved(width: nat, raw: text)
    requires width >= 1
    ensures var ps := JamText.Split(JamText.Norm(raw));
            && WrapAll(width, ps) == Concat(Groups(width, ps)) && AllFit(width, WrapAll(width, ps))
            && Strip(JamText.Norm(raw)) == JamText.Join(seq(|ps|, i requires 0 <= i < |ps| => GivenBack(width, ps[i])))
  {
    var n := JamText.Norm(raw);
    var ps := JamText.Split(n);
    WrapAllGroups(width, ps);
    JamText.JoinOfSplit(n);
    StripJoins(ps);
    ParagraphsHaveNoLineEnds(n);
    forall i | 0 <= i < |ps| ensures GivenBack(width, ps[i]) == Kept(ps)[i] {
      WidthBound(width, ps[i]);
      TextConserved(width, ps[i]);
    }
    assert Kept(ps) == seq(|ps|, i requires 0 <= i < |ps| => GivenBack(width, ps[i]));
  }

  // ---------------------------------------------------------------- breaks where they are needed

  /** After a line that a space ended come, without a space among them, at least so many bytes that they would have
      filled the width. */
  predicate Needed(width: nat, line: text, next: text) {
    |line| < width ==> |line| + 1 + |next| >= width && forall i | 0 <= i < width - 1 - |line| :: next[i] != SP
  }

  predicate AllNeeded(width: nat, out: seq<text>, cur: text) {
    && (forall k | 0 <= k < |out| - 1 :: Needed(width, out[k], out[k + 1]))
    && (out != [] ==> Needed(width, out[|out| - 1], cur))
  }

  /** No line ends at a space before the next word would have filled it. */
  lemma {:induction false} BreaksAreNeeded(width: nat, s: text)
    requires width >= 1 && OneParagraph(s)
    ensures AllNeeded(width, FeedAll(width, s).out, FeedAll(width, s).cur)
  {
    if s != [] {
      var short, b := s[..|s| - 1], s[|s| - 1];
      BreaksAreNeeded(width, short);
      LinesFit(width, short);
      var r := FeedAll(width, short);
      if b != SOFT_CR && b != NUL { BreakIsNeeded(width, r.(cur := r.cur + [b])); }
    }
  }

  lemma NeededGrows(width: nat, line: text, a: text, b: text)
    requires Needed(width, line, a) && a <= b
    ensures Needed(width, line, b)
  {}

  /** What is needed before a line is needed before the part of it up to its last space. */
  lemma {:induction false} NeededCut(width: nat, line: text, c: text, k: nat)
    requires c != [] && Needed(width, line, c[..|c| - 1]) && k == LastSpace(c)
    ensures Needed(width, line, c[..k])
  {
    if |line| < width {
      var n := width - 1 - |line|;
      forall i | 0 <= i < n ensures c[i] != SP { assert c[..|c| - 1][i] == c[i]; }
    }
  }

  lemma NeededMore(width: nat, out: seq<text>, line: text, cur: text)
    requires AllNeeded(width, out, line) && Needed(width, line, cur)
    ensures AllNeeded(width, out + [line], cur)
  {
    var all := out + [line];
    forall k | 0 <= k < |all| - 1 ensures Needed(width, all[k], all[k + 1]) {
      if k < |out| - 1 { assert all[k + 1] == out[k + 1]; }
    }
  }

  lemma {:induction false} BreakIsNeeded(width: nat, r: Run)
    requires 1 <= |r.cur| <= width && AllNeeded(width, r.out, r.cur[..|r.cur| - 1])
    ensures AllNeeded(width, Break(width, r).out, Break(width, r).cur)
  {
    var k := LastSpace(r.cur);
    if r.out != [] { NeededGrows(width, r.out[|r.out| - 1], r.cur[..|r.cur| - 1], r.cur); }
    if |r.cur| == width && k > 0 {
      if r.out != [] { NeededCut(width, r.out[|r.out| - 1], r.cur, k); }
      assert Needed(width, r.cur[..k], r.cur[k + 1..]);
      NeededMore(width, r.out, r.cur[..k], r.cur[k + 1..]);
    } else if |r.cur| == width {
      NeededMore(width, r.out, r.cur, []);
    }
  }
}
