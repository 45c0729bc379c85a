/** The two readers of the same output agree: the cursor the terminal tracks is the cursor on the local screen. */
module AnsiAgreement {
  import opened Bytes
  import opened AnsiNumbers
  import opened AnsiGrid
  import opened AnsiScreen
  import opened Tracking = CursorTracker

  /** What a program writes: a printable character, one of the three moves, or a control sequence with decimals. */
  datatype Token = Glyph(c: byte) | Return | LineFeed | BackSpace | Sequence(ns: seq<nat>, cmd: byte)

  function Params(ns: seq<nat>): seq<byte> { Join(Decimals(ns)) }

  function Written(t: Token): seq<byte> {
    match t
    case Glyph(c) => [c]
    case Return => [CR]
    case LineFeed => [LF]
    case BackSpace => [Tracking.BS]
    case Sequence(ns, cmd) => [ESC, BRACKET] + Params(ns) + [cmd]
  }

  /** H f A B C D G m K */
  predicate Known(cmd: byte) { cmd == 72 || cmd == 102 || 65 <= cmd <= 68 || cmd == 71 || cmd == 109 || cmd == 75 }

  predicate Proper(t: Token) {
    match t
    case Glyph(c) => c >= 32
    case Sequence(ns, cmd) => Known(cmd) && |Params(ns)| <= MAX_CSI && forall i | 0 <= i < |ns| :: ns[i] <= MAX_INT
    case _ => true
  }

  function Stream(ts: seq<Token>): seq<byte> {
    if ts == [] then [] else Stream(ts[..|ts| - 1]) + Written(ts[|ts| - 1])
  }

  // ---------------------------------------------------------------- a control sequence, byte by byte

  predicate NoneFinal(q: seq<byte>) { forall i | 0 <= i < |q| :: !Final(q[i]) && q[i] != 63 && q[i] != 61 }

  lemma {:induction false} JoinNotFinal(ps: seq<seq<byte>>)
    requires forall i | 0 <= i < |ps| :: AllDigits(ps[i])
    ensures NoneFinal(Join(ps))
  {
    if |ps| > 1 { JoinNotFinal(ps[1..]); }
    if ps != [] {
      assert forall k | 0 <= k < |ps[0]| :: IsDigit(ps[0][k]);
    }
  }

  lemma FeedMore(a: Ansi, b: seq<byte>, c: byte)
    requires Inside(a.scr)
    ensures FeedAll(a, b + [c]) == Feed(FeedAll(a, b), c)
  {
    assert (b + [c])[..|b + [c]| - 1] == b;
  }

  lemma FeedOne(a: Ansi, c: byte)
    requires Inside(a.scr)
    ensures FeedAll(a, [c]) == Feed(a, c)
  {
    FeedMore(a, [], c);
    assert [] + [c] == [c];
  }

  lemma {:induction false} ParamsFeed(a: Ansi, q: seq<byte>)
    requires Inside(a.scr) && a.mode.InText? && NoneFinal(q) && |q| <= MAX_CSI
    ensures FeedAll(a, [ESC, BRACKET] + q) == a.(mode := InCsi, csi := q)
  {
    if q == [] {
      FeedOne(a, ESC);
      FeedMore(a, [ESC], BRACKET);
      assert [ESC] + [BRACKET] == [ESC, BRACKET] + q;
    } else {
      var k := |q| - 1;
      ParamsFeed(a, q[..k]);
      FeedMore(a, [ESC, BRACKET] + q[..k], q[k]);
      assert [ESC, BRACKET] + q[..k] + [q[k]] == [ESC, BRACKET] + q;
      assert q == q[..k] + [q[k]];
    }
  }

  lemma SequenceFeeds(a: Ansi, q: seq<byte>, cmd: byte)
    requires Inside(a.scr) && a.mode.InText? && NoneFinal(q) && |q| <= MAX_CSI && Final(cmd)
    ensures FeedAll(a, [ESC, BRACKET] + q + [cmd]) == Done(a.(csi := q), cmd)
  {
    ParamsFeed(a, q);
    FeedMore(a, [ESC, BRACKET] + q, cmd);
    assert a.(mode := InCsi, csi := q).(mode := InText) == a.(csi := q);
  }

  lemma SequenceTracks(f: Stepper, t: Track, q: seq<byte>, cmd: byte)
    requires IsStep(f) && t.pend == [] && NoneFinal(q) && Final(cmd)
    ensures Fold(f, t, [ESC, BRACKET] + q + [cmd]) == Applied(t, Numbers(ScanInt, q), cmd)
  {
    var s := [ESC, BRACKET] + q + [cmd];
    var j := 2 + |q|;
    assert s[..j] == [ESC, BRACKET] + q && s[2..j] == q && s[j + 1..] == [];
    WholeSequence(f, t, s, j);
  }

  // ---------------------------------------------------------------- one token

  predicate Agree(a: Ansi, t: Track) { t.x == a.scr.x + 1 && t.y == a.scr.y + 1 }

  predicate OnScreen(s: Screen, t: Track) { 1 <= t.x <= s.w && 1 <= t.y <= s.h }

  /** Between two tokens, on a screen whose sides are machine integers. */
  predicate Settled(a: Ansi, t: Track) {
    Inside(a.scr) && a.scr.w <= MAX_INT && a.scr.h <= MAX_INT && a.mode.InText? && t.pend == []
  }

  lemma MovesAgree(a: Ansi, t: Track, ns: seq<int>, cmd: byte)
    requires Settled(a, t) && Agree(a, t) && Known(cmd) && Moves(cmd) && forall i | 0 <= i < |ns| :: ns[i] <= MAX_INT
    ensures var (x, y) := Target(a.scr, ns, cmd);
            Agree(a.(scr := MovedTo(a.scr, x, y)), Applied(t, ns, cmd)) <==> OnScreen(a.scr, Applied(t, ns, cmd))
    ensures Applied(t, ns, cmd).pend == []
  {}

  lemma PlainAgrees(a: Ansi, t: Track, c: byte)
    requires Settled(a, t) && Agree(a, t) && (c >= 32 || c == CR || c == LF || c == Tracking.BS)
    ensures Settled(Feed(a, c), Plain(t, c))
    ensures Agree(Feed(a, c), Plain(t, c)) <==> OnScreen(a.scr, Plain(t, c))
  {}

  lemma SequenceAgrees(f: Stepper, a: Ansi, t: Track, ns: seq<nat>, cmd: byte)
    requires IsStep(f) && Settled(a, t) && Agree(a, t) && Proper(Sequence(ns, cmd))
    ensures var a' := FeedAll(a, Written(Sequence(ns, cmd))); var t' := Fold(f, t, Written(Sequence(ns, cmd)));
            Settled(a', t') && a'.scr.w == a.scr.w && a'.scr.h == a.scr.h && (Agree(a', t') <==> OnScreen(a.scr, t'))
  {
    var q := Params(ns);
    JoinNotFinal(Decimals(ns));
    NumbersReadBack(ns);
    SequenceFeeds(a, q, cmd);
    SequenceTracks(f, t, q, cmd);
    SameNumbers(a.(csi := q), t, ns, cmd);
  }

  /** Both readers at the end of a sequence whose numbers both have read as `ns`. */
  lemma SameNumbers(a: Ansi, t: Track, ns: seq<int>, cmd: byte)
    requires Settled(a, t) && Agree(a, t) && Known(cmd) && !Private(a.csi) && forall i | 0 <= i < |ns| :: ns[i] <= MAX_INT
    requires Numbers(AtoiTrimmed, a.csi) == ns
    ensures Settled(Done(a, cmd), Applied(t, ns, cmd))
    ensures Agree(Done(a, cmd), Applied(t, ns, cmd)) <==> OnScreen(a.scr, Applied(t, ns, cmd))
  {
    if Moves(cmd) { MovesAgree(a, t, ns, cmd); }
  }

  /** After one token from agreeing cursors: they agree again exactly when the tracked one is on the screen. */
  lemma TokenAgrees(f: Stepper, a: Ansi, t: Track, k: Token)
    requires IsStep(f) && Settled(a, t) && Agree(a, t) && Proper(k)
    ensures var a' := FeedAll(a, Written(k)); var t' := Fold(f, t, Written(k));
            Settled(a', t') && a'.scr.w == a.scr.w && a'.scr.h == a.scr.h && (Agree(a', t') <==> OnScreen(a.scr, t'))
  {
    if k.Sequence? {
      SequenceAgrees(f, a, t, k.ns, k.cmd);
    } else {
      var c := Written(k)[0];
      assert Written(k) == [c];
      FeedOne(a, c);
      FoldOne(f, t, c);
      PlainStep(f, t, c);
      PlainAgrees(a, t, c);
    }
  }

  // ---------------------------------------------------------------- whole outputs

  predicate AllProper(ts: seq<Token>) { forall i | 0 <= i < |ts| :: Proper(ts[i]) }

  function ScreenAfter(a: Ansi, ts: seq<Token>, k: nat): (r: Ansi)
    requires Inside(a.scr) && k <= |ts|
    ensures Inside(r.scr) && r.scr.w == a.scr.w && r.scr.h == a.scr.h
  {
    FeedAll(a, Stream(ts[..k]))
  }

  function TrackAfter(f: Stepper, t: Track, ts: seq<Token>, k: nat): Track
    requires k <= |ts|
  {
    Fold(f, t, Stream(ts[..k]))
  }

  /** Both readers went over token `k` between states (a, t) and (a', t'). */
  predicate Passes(f: Stepper, a: Ansi, t: Track, k: Token, a': Ansi, t': Track) {
    Inside(a.scr) && a' == FeedAll(a, Written(k)) && t' == Fold(f, t, Written(k))
  }

  lemma NextToken(f: Stepper, a: Ansi, t: Track, ts: seq<Token>, k: nat)
    requires Inside(a.scr) && k < |ts|
    ensures Passes(f, ScreenAfter(a, ts, k), TrackAfter(f, t, ts, k), ts[k], ScreenAfter(a, ts, k + 1), TrackAfter(f, t, ts, k + 1))
  {
    var b, c := Stream(ts[..k]), Written(ts[k]);
    assert ts[..k + 1][..k] == ts[..k];
    assert Stream(ts[..k + 1]) == b + c;
    SplitsAgree(a, b, c);
    FoldSplits(f, t, b, c);
  }

  lemma NoToken(f: Stepper, a: Ansi, t: Track, ts: seq<Token>)
    requires Inside(a.scr)
    ensures ScreenAfter(a, ts, 0) == a && TrackAfter(f, t, ts, 0) == t
  {
    assert ts[..0] == [];
  }

  lemma PassAgrees(f: Stepper, a: Ansi, t: Track, k: Token, a': Ansi, t': Track)
    requires IsStep(f) && Settled(a, t) && Agree(a, t) && Proper(k) && Passes(f, a, t, k, a', t')
    ensures Settled(a', t') && (OnScreen(a.scr, t') ==> Agree(a', t'))
  {
    TokenAgrees(f, a, t, k);
  }

  /** The cursors agree after each of the first `n` tokens. */
  ghost predicate AgreeUpTo(f: Stepper, a: Ansi, t: Track, ts: seq<Token>, n: nat)
    requires Inside(a.scr) && n <= |ts|
  {
    forall k | 0 <= k <= n :: Agree(ScreenAfter(a, ts, k), TrackAfter(f, t, ts, k))
  }

  /** The tracked cursor is on the screen after each of the first `n` tokens. */
  ghost predicate OnScreenUpTo(f: Stepper, a: Ansi, t: Track, ts: seq<Token>, n: nat)
    requires n <= |ts|
  {
    forall k | 0 <= k <= n :: OnScreen(a.scr, TrackAfter(f, t, ts, k))
  }

  lemma {:induction false} AgreeWhileOnScreen(f: Stepper, ts: seq<Token>, n: nat, sa: nat -> Ansi, st: nat -> Track)
    requires IsStep(f) && AllProper(ts) && n <= |ts|
    requires Settled(sa(0), st(0)) && Agree(sa(0), st(0))
    requires forall k: nat | k < n :: Passes(f, sa(k), st(k), ts[k], sa(k + 1), st(k + 1))
    requires forall k: nat | k < n :: OnScreen(sa(k).scr, st(k + 1))
    ensures Settled(sa(n), st(n)) && Agree(sa(n), st(n))
    decreases n
  {
    if n > 0 {
      var k := n - 1;
      AgreeWhileOnScreen(f, ts, k, sa, st);
      PassAgrees(f, sa(k), st(k), ts[k], sa(n), st(n));
    }
  }

  lemma AgreesThroughout(f: Stepper, a: Ansi, t: Track, ts: seq<Token>)
    requires IsStep(f) && Settled(a, t) && Agree(a, t) && AllProper(ts)
    requires OnScreenUpTo(f, a, t, ts, |ts|)
    ensures AgreeUpTo(f, a, t, ts, |ts|)
  {
    var sa := (k: nat) => if k <= |ts| then ScreenAfter(a, ts, k) else a;
    var st := (k: nat) => if k <= |ts| then TrackAfter(f, t, ts, k) else t;
    NoToken(f, a, t, ts);
    forall k: nat | k < |ts| ensures Passes(f, sa(k), st(k), ts[k], sa(k + 1), st(k + 1)) {
      NextToken(f, a, t, ts, k);
    }
    forall n: nat | n <= |ts| ensures Agree(ScreenAfter(a, ts, n), TrackAfter(f, t, ts, n)) {
      AgreeWhileOnScreen(f, ts, n, sa, st);
    }
  }

  /** The cursors agree all along exactly when the tracked cursor never leaves the screen. */
  lemma CursorsAgree(f: Stepper, a: Ansi, t: Track, ts: seq<Token>)
    requires IsStep(f) && Settled(a, t) && Agree(a, t) && AllProper(ts)
    ensures AgreeUpTo(f, a, t, ts, |ts|) <==> OnScreenUpTo(f, a, t, ts, |ts|)
  {
    if OnScreenUpTo(f, a, t, ts, |ts|) {
      AgreesThroughout(f, a, t, ts);
    }
    if AgreeUpTo(f, a, t, ts, |ts|) {
      forall k | 0 <= k <= |ts| ensures OnScreen(a.scr, TrackAfter(f, t, ts, k)) {
        assert Agree(ScreenAfter(a, ts, k), TrackAfter(f, t, ts, k));
      }
    }
  }

  /** A character written in the last column takes the tracked cursor off the screen and the other one to the next line,
      or nowhere: they no longer agree. */
  lemma LastColumnDisagrees(f: Stepper, a: Ansi, t: Track, c: byte)
    requires IsStep(f) && Settled(a, t) && Agree(a, t) && a.scr.x == a.scr.w - 1 && c >= 32
    ensures !Agree(FeedAll(a, [c]), Fold(f, t, [c])) && !AgreeUpTo(f, a, t, [Glyph(c)], 1)
  {
    TokenAgrees(f, a, t, Glyph(c));
    FoldOne(f, t, c);
    PlainStep(f, t, c);
    assert Fold(f, t, [c]).x == t.x + 1;
    assert [Glyph(c)][..1] == [Glyph(c)] && [Glyph(c)][..0] == [] && [] + [c] == [c];
    assert Stream([Glyph(c)]) == [c];
    assert !Agree(ScreenAfter(a, [Glyph(c)], 1), TrackAfter(f, t, [Glyph(c)], 1));
  }

  /** A blank screen of 80 columns and 25 lines with the cursor at the end of the first. */
  function LineEnd(): Ansi {
    Ansi(InText, [], Pen(7, 0, false, false, false), 0, 0, Screen(80, 25, 79, 0, 7, seq(2000, _ => Cell(32, 7))))
  }

  /** So it is with an "A" written there. */
  lemma LetterAtLineEnd(f: Stepper)
    requires IsStep(f)
    ensures var a, t := LineEnd(), Track(80, 1, []);
            Inside(a.scr) && Agree(a, t) && !Agree(FeedAll(a, [65]), Fold(f, t, [65]))
  {
    LastColumnDisagrees(f, LineEnd(), Track(80, 1, []), 65);
  }

  /** The same tokens through the emulator and the tracker, each cut into writes of its own. */
  method MirrorOutput(screen: Emulator, io: Terminal, ghost ts: seq<Token>, local: seq<seq<byte>>, remote: seq<seq<byte>>)
    requires screen.Valid() && screen.text == [] && io.Valid()
    requires Settled(screen.State(), io.State()) && Agree(screen.State(), io.State()) && AllProper(ts) && Concat(local) == Concat(remote) == Stream(ts)
    requires OnScreenUpTo(TrackByte, screen.State(), io.State(), ts, |ts|)
    modifies screen, io
    ensures screen.Valid() && screen.text == [] && io.CurX == screen.ops.x + 1 && io.CurY == screen.ops.y + 1
  {
    ghost var f: Stepper := TrackByte;
    ghost var a, t := screen.State(), io.State();
    WriteEach(screen, local);
    TrackEach(io, remote);
    AgreesThroughout(f, a, t, ts);
    assert ts[..|ts|] == ts;
    assert Agree(ScreenAfter(a, ts, |ts|), TrackAfter(f, t, ts, |ts|));
  }
}
