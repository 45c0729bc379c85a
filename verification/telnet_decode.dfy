/** Telnet input: what a byte stream means when it is read in one piece, and when it arrives in chunks. */
module TelnetDecode {
  import opened Options
  import opened Bytes

  const IAC: byte := 255
  const DONT: byte := 254
  const DO: byte := 253
  const WONT: byte := 252
  const WILL: byte := 251
  const SB: byte := 250
  const SE: byte := 240

  predicate Mate(b: byte) { b == LF || b == NUL }

  // ---------------------------------------------------------------- tokens of a whole stream

  /** What stands at the front of a stream, and how many bytes it takes. `Cut` is a command whose end has not come. */
  datatype Token = Char(b: byte) | Escaped | Block(size: nat) | Command(cmd: byte, opt: byte) | Cut

  /** One past the IAC SE that ends a subnegotiation whose contents start at `i`. */
  function BlockEnd(s: seq<byte>, i: nat): (r: Option<nat>)
    ensures r.Some? ==> i + 2 <= r.value <= |s|
    decreases |s| - i
  {
    if i >= |s| then None
    else if s[i] != IAC then BlockEnd(s, i + 1)
    else if i + 1 >= |s| then None
    else if s[i + 1] == SE then Some(i + 2)
    else BlockEnd(s, i + 2)
  }

  function Front(s: seq<byte>): Token
    requires s != []
  {
    if s[0] != IAC then Char(s[0])
    else if |s| == 1 then Cut
    else if s[1] == IAC then Escaped
    else if s[1] == SB then
      match BlockEnd(s, 2)
      case None => Cut
      case Some(n) => Block(n)
    else if |s| == 2 then Cut
    else Command(s[1], s[2])
  }

  function Size(s: seq<byte>): (n: nat)
    requires s != []
    ensures 1 <= n <= |s|
  {
    match Front(s)
    case Char(_) => 1
    case Escaped => 2
    case Block(n) => n
    case Command(_, _) => 3
    case Cut => |s|
  }

  /** The one-pass reference: IAC IAC is 255, commands and subnegotiations vanish, LF or NUL right after CR is dropped. */
  function Decode(s: seq<byte>): seq<byte>
    decreases |s|
  {
    if s == [] then [] else
    match Front(s)
    case Char(b) =>
      if b == CR && |s| > 1 && Mate(s[1]) then [CR] + Decode(s[2..]) else [b] + Decode(s[1..])
    case Escaped => [IAC] + Decode(s[2..])
    case _ => Decode(s[Size(s)..])
  }

  /** The option commands of a stream, in order. */
  function Commands(s: seq<byte>): seq<(byte, byte)>
    decreases |s|
  {
    if s == [] then [] else
    match Front(s)
    case Command(cmd, opt) => [(cmd, opt)] + Commands(s[3..])
    case _ => Commands(s[Size(s)..])
  }

  // ---------------------------------------------------------------- a stream in chunks

  /** What the reader holds (`buf`) and the chunks still to come, none of them empty. */
  datatype Input = Input(buf: seq<byte>, more: seq<seq<byte>>)

  predicate Chunked(i: Input) {
    forall k | 0 <= k < |i.more| :: i.more[k] != []
  }

  function Concat(chunks: seq<seq<byte>>): seq<byte> {
    if chunks == [] then [] else chunks[0] + Concat(chunks[1..])
  }

  function Flat(i: Input): seq<byte> { i.buf + Concat(i.more) }

  /** After one byte: an empty buffer first takes the next chunk. */
  function Rest(i: Input): (r: Input)
    requires Chunked(i) && Flat(i) != []
    ensures Chunked(r) && Flat(r) == Flat(i)[1..]
  {
    if i.buf != [] then Input(i.buf[1..], i.more)
    else
      assert Flat(i) == i.more[0] + Concat(i.more[1..]);
      Input(i.more[0][1..], i.more[1..])
  }

  function Skip(i: Input, n: nat): (r: Input)
    requires Chunked(i) && n <= |Flat(i)|
    ensures Chunked(r) && Flat(r) == Flat(i)[n..]
    decreases n
  {
    if n == 0 then i else Skip(Rest(i), n - 1)
  }

  /** Everything repeated reads deliver from `i`; `pending` says a CR came last in its chunk. */
  function Deliver(i: Input, pending: bool): seq<byte>
    requires Chunked(i)
    decreases |Flat(i)|
  {
    var s := Flat(i);
    if s == [] then [] else
    match Front(s)
    case Char(b) =>
      var r := Rest(i);
      if pending && Mate(b) then Deliver(r, false)
      else if b != CR then [b] + Deliver(r, false)
      else if r.buf == [] then [CR] + Deliver(r, true)
      else if Mate(r.buf[0]) then [CR] + Deliver(Rest(r), false)
      else [CR] + Deliver(r, false)
    case Escaped => [IAC] + Deliver(Skip(i, 2), pending)
    case _ => Deliver(Skip(i, Size(s)), pending)
  }

  // ---------------------------------------------------------------- when chunking matters

  /** The stream after the commands, blocks and escaped bytes at its front. */
  function PastCommands(s: seq<byte>): (r: seq<byte>)
    ensures |r| <= |s|
    decreases |s|
  {
    if s == [] || s[0] != IAC then s else PastCommands(s[Size(s)..])
  }

  predicate StartsWithMate(s: seq<byte>) { s != [] && Mate(s[0]) }

  /** Some CR is separated from a following LF or NUL by nothing but commands or escaped bytes. */
  predicate Ambiguous(s: seq<byte>)
    decreases |s|
  {
    s != [] &&
    match Front(s)
    case Char(b) =>
      if b == CR && |s| > 1 && Mate(s[1]) then Ambiguous(s[2..])
      else (b == CR && StartsWithMate(PastCommands(s[1..]))) || Ambiguous(s[1..])
    case _ => Ambiguous(s[Size(s)..])
  }

  /** Without such a CR every chunking delivers the reference decoding. */
  lemma {:induction false} ChunkingIsInvisible(i: Input, pending: bool)
    requires Chunked(i)
    requires pending && StartsWithMate(Flat(i)) ==> !Ambiguous(Flat(i)[1..])
    requires !(pending && StartsWithMate(Flat(i))) ==> !Ambiguous(Flat(i)) && (pending ==> !StartsWithMate(PastCommands(Flat(i))))
    ensures Deliver(i, pending) == Decode(if pending && StartsWithMate(Flat(i)) then Flat(i)[1..] else Flat(i))
    decreases |Flat(i)|
  {
    var s := Flat(i);
    if s != [] {
      match Front(s)
      case Char(b) =>
        var r := Rest(i);
        if !(pending && Mate(b)) && b == CR && r.buf == [] {
          ChunkingIsInvisible(r, true);
        } else if !(pending && Mate(b)) && b == CR && Mate(r.buf[0]) {
          assert Flat(r)[0] == r.buf[0];
          ChunkingIsInvisible(Rest(r), false);
        } else {
          if r.buf != [] { assert Flat(r)[0] == r.buf[0]; }
          ChunkingIsInvisible(r, false);
        }
      case _ => ChunkingIsInvisible(Skip(i, Size(s)), pending);
    }
  }

  /** The whole stream in one chunk. */
  predicate OnePiece(i: Input) {
    i.more == [] || (i.buf == [] && |i.more| == 1 && i.more[0] != [])
  }

  lemma {:induction false} SkipKeepsShape(i: Input, n: nat)
    requires Chunked(i) && n <= |Flat(i)|
    ensures OnePiece(i) ==> OnePiece(Skip(i, n))
    ensures Bytewise(i) ==> Bytewise(Skip(i, n))
    decreases n
  {
    if n > 0 { SkipKeepsShape(Rest(i), n - 1); }
  }

  lemma {:induction false} OnePieceIsDecoded(i: Input)
    requires Chunked(i) && OnePiece(i)
    ensures Deliver(i, false) == Decode(Flat(i))
    decreases |Flat(i)|
  {
    var s := Flat(i);
    if s != [] {
      match Front(s)
      case Char(b) =>
        var r := Rest(i);
        assert r.more == [] && Flat(r) == r.buf;
        if b == CR && r.buf != [] && Mate(r.buf[0]) {
          OnePieceIsDecoded(Rest(r));
        } else {
          OnePieceIsDecoded(r);
        }
      case _ =>
        SkipKeepsShape(i, Size(s));
        OnePieceIsDecoded(Skip(i, Size(s)));
    }
  }

  /** Every byte in a chunk of its own. */
  predicate Bytewise(i: Input) {
    i.buf == [] && forall k | 0 <= k < |i.more| :: |i.more[k]| == 1
  }

  function Singles(s: seq<byte>): seq<seq<byte>> {
    seq(|s|, k requires 0 <= k < |s| => [s[k]])
  }

  lemma {:induction false} SinglesAreFlat(s: seq<byte>)
    ensures Concat(Singles(s)) == s
  {
    if s != [] {
      SinglesAreFlat(s[1..]);
      assert Singles(s)[1..] == Singles(s[1..]);
    }
  }

  /** Read byte by byte, the stream loses every LF or NUL that only commands separate from a CR. */
  lemma {:induction false} BytewiseLoses(i: Input, pending: bool)
    requires Chunked(i) && Bytewise(i)
    ensures var s := Flat(i);
            var t := if pending && StartsWithMate(s) then s[1..] else s;
            |Deliver(i, pending)| <= |Decode(t)| &&
            (Ambiguous(t) || (pending && !StartsWithMate(s) && StartsWithMate(PastCommands(s))) ==> |Deliver(i, pending)| < |Decode(t)|)
    decreases |Flat(i)|, 1
  {
    var s := Flat(i);
    if s != [] {
      match Front(s)
      case Char(b) =>
        var r := Rest(i);
        if !(pending && Mate(b)) && b == CR {
          BytewiseLoses(r, true);
        } else {
          BytewiseLoses(r, false);
        }
      case _ => BytewisePastCommand(i, pending);
    }
  }

  /** The step over a command. */
  lemma {:induction false} BytewisePastCommand(i: Input, pending: bool)
    requires Chunked(i) && Bytewise(i) && Flat(i) != [] && !Front(Flat(i)).Char?
    ensures var s := Flat(i);
            var t := if pending && StartsWithMate(s) then s[1..] else s;
            |Deliver(i, pending)| <= |Decode(t)| &&
            (Ambiguous(t) || (pending && !StartsWithMate(s) && StartsWithMate(PastCommands(s))) ==> |Deliver(i, pending)| < |Decode(t)|)
    decreases |Flat(i)|, 0
  {
    var s := Flat(i);
    var rest := Skip(i, Size(s));
    SkipKeepsShape(i, Size(s));
    BytewiseLoses(rest, pending);
    if pending && StartsWithMate(Flat(rest)) { MateDecodes(Flat(rest)); }
  }

  lemma MateDecodes(s: seq<byte>)
    requires StartsWithMate(s)
    ensures Decode(s) == [s[0]] + Decode(s[1..])
  {}

  /** Delivery does not depend on how a stream is cut into chunks exactly when it is not ambiguous,
      and then it is the reference decoding. */
  lemma ChunkIndependence(s: seq<byte>)
    ensures (forall i | Chunked(i) && Flat(i) == s :: Deliver(i, false) == Decode(s)) <==> !Ambiguous(s)
  {
    if Ambiguous(s) {
      var i := Input([], Singles(s));
      SinglesAreFlat(s);
      BytewiseLoses(i, false);
      assert Chunked(i) && Flat(i) == s && Deliver(i, false) != Decode(s);
    } else {
      forall i | Chunked(i) && Flat(i) == s ensures Deliver(i, false) == Decode(s) {
        ChunkingIsInvisible(i, false);
      }
    }
  }

  /** One chunk always gives the reference decoding, so on an ambiguous stream two chunkings disagree. */
  lemma AmbiguousStreamsDisagree(s: seq<byte>)
    requires Ambiguous(s)
    ensures Chunked(Input([], [s])) && Flat(Input([], [s])) == s && Deliver(Input([], [s]), false) == Decode(s)
    ensures exists i :: Chunked(i) && Flat(i) == s && Deliver(i, false) != Deliver(Input([], [s]), false)
  {
    var one, single := Input([], [s]), Input([], Singles(s));
    assert Flat(one) == s by { assert Concat([s]) == s + Concat([]); }
    OnePieceIsDecoded(one);
    SinglesAreFlat(s);
    BytewiseLoses(single, false);
    assert Chunked(single) && Flat(single) == s && Deliver(single, false) != Deliver(one, false);
  }

  // ---------------------------------------------------------------- what the other side wrote

  /** `Write`: every 255 is doubled. */
  function Escape(p: seq<byte>): seq<byte> {
    if p == [] then [] else (if p[0] == IAC then [IAC, IAC] else [p[0]]) + Escape(p[1..])
  }

  function PastIacs(p: seq<byte>): seq<byte> {
    if p != [] && p[0] == IAC then PastIacs(p[1..]) else p
  }

  /** No CR is followed by LF or NUL, not even across bytes 255. */
  predicate Clean(p: seq<byte>) {
    p != [] ==> !(p[0] == CR && StartsWithMate(PastIacs(p[1..]))) && Clean(p[1..])
  }

  lemma EscapeHead(p: seq<byte>)
    requires p != []
    ensures p[0] != IAC ==> Escape(p)[0] == p[0] && Escape(p)[1..] == Escape(p[1..]) && Front(Escape(p)) == Char(p[0])
    ensures p[0] == IAC ==> Escape(p)[2..] == Escape(p[1..]) && Front(Escape(p)) == Escaped && Size(Escape(p)) == 2
  {}

  lemma {:induction false} PastEscapes(p: seq<byte>)
    ensures StartsWithMate(PastCommands(Escape(p))) == StartsWithMate(PastIacs(p))
  {
    if p != [] {
      EscapeHead(p);
      PastEscapes(p[1..]);
    }
  }

  lemma {:induction false} EscapeIsUndone(p: seq<byte>)
    requires Clean(p)
    ensures !Ambiguous(Escape(p)) && Decode(Escape(p)) == p
  {
    if p != [] {
      EscapeHead(p);
      EscapeIsUndone(p[1..]);
      if p[0] == CR {
        PastEscapes(p[1..]);
        if |p| > 1 { EscapeHead(p[1..]); }
      }
    }
  }

  lemma {:induction false} DirtyTextIsAltered(p: seq<byte>)
    requires !Clean(p)
    ensures Ambiguous(Escape(p)) || |Decode(Escape(p))| < |p|
    ensures |Decode(Escape(p))| <= |p|
    decreases |p|
  {
    EscapeHead(p);
    DecodeShrinks(p);
    if p[0] == CR && |p| > 1 && Mate(p[1]) {
      EscapeHead(p[1..]);
      DecodeShrinks(p[2..]);
      assert Escape(p)[2..] == Escape(p[2..]);
    } else {
      if |p| > 1 { EscapeHead(p[1..]); }
      PastEscapes(p[1..]);
      if !Clean(p[1..]) { DirtyTextIsAltered(p[1..]); }
    }
  }

  lemma {:induction false} DecodeShrinks(p: seq<byte>)
    ensures |Decode(Escape(p))| <= |p|
    decreases |p|
  {
    if p != [] {
      EscapeHead(p);
      DecodeShrinks(p[1..]);
      if |p| > 1 {
        EscapeHead(p[1..]);
        DecodeShrinks(p[2..]);
      }
    }
  }

  /** What `Write` sends reads back as itself under every chunking exactly when the text is clean. */
  lemma WrittenTextSurvives(p: seq<byte>)
    ensures (forall i | Chunked(i) && Flat(i) == Escape(p) :: Deliver(i, false) == p) <==> Clean(p)
  {
    ChunkIndependence(Escape(p));
    if Clean(p) {
      EscapeIsUndone(p);
    } else {
      DirtyTextIsAltered(p);
      if Ambiguous(Escape(p)) {
        AmbiguousStreamsDisagree(Escape(p));
      } else {
        var one := Input(Escape(p), []);
        assert Flat(one) == Escape(p);
        OnePieceIsDecoded(one);
        assert Chunked(one) && Deliver(one, false) != p;
      }
    }
  }

  /** One such stream: CR, an escaped 255, LF. In one piece the LF is delivered; cut after the CR it is lost. */
  lemma CutsDisagree()
    ensures var whole, cut := Input([], [[CR, IAC, IAC, LF]]), Input([], [[CR], [IAC, IAC, LF]]);
            Chunked(whole) && Chunked(cut) && Flat(whole) == Flat(cut) == [CR, IAC, IAC, LF] && Ambiguous(Flat(whole))
            && Deliver(whole, false) == [CR, IAC, LF] && Deliver(cut, false) == [CR, IAC]
  {
    WholeKeepsLf();
    CutLosesLf();
  }

  lemma WholeKeepsLf()
    ensures var whole := Input([], [[CR, IAC, IAC, LF]]);
            Chunked(whole) && Flat(whole) == [CR, IAC, IAC, LF] && Ambiguous(Flat(whole)) && Deliver(whole, false) == [CR, IAC, LF]
  {
    var s := [CR, IAC, IAC, LF];
    OneChunk(s);
    assert Rest(Input([], [s])) == Input([IAC, IAC, LF], []);
    EscapeThenLf(Input([IAC, IAC, LF], []));
    assert s[1..] == [IAC, IAC, LF] && PastCommands(s[1..]) == [IAC, IAC, LF][2..] == [LF];
  }

  lemma CutLosesLf()
    ensures var cut := Input([], [[CR], [IAC, IAC, LF]]);
            Chunked(cut) && Flat(cut) == [CR, IAC, IAC, LF] && Deliver(cut, false) == [CR, IAC]
  {
    var cut := Input([], [[CR], [IAC, IAC, LF]]);
    OneChunk([IAC, IAC, LF]);
    assert [[CR], [IAC, IAC, LF]][1..] == [[IAC, IAC, LF]];
    assert Rest(cut) == Input([], [[IAC, IAC, LF]]);
    EscapeThenLf(Input([], [[IAC, IAC, LF]]));
  }

  lemma OneChunk(s: seq<byte>)
    ensures Concat([s]) == s
  {
    var none: seq<seq<byte>> := [s][1..];
    assert none == [] && s + [] == s;
  }

  lemma PastEscape(i: Input) returns (j: Input)
    requires Chunked(i) && Flat(i) == [IAC, IAC, LF]
    ensures Chunked(j) && Flat(j) == [LF]
    ensures Deliver(i, false) == [IAC] + Deliver(j, false) && Deliver(i, true) == [IAC] + Deliver(j, true)
  {
    j := Skip(i, 2);
    assert Flat(j) == [LF];
  }

  lemma LastLf(j: Input)
    requires Chunked(j) && Flat(j) == [LF]
    ensures Deliver(j, false) == [LF] && Deliver(j, true) == []
  {
    assert Flat(Rest(j)) == [];
    assert Deliver(Rest(j), false) == [];
  }

  /** After a CR: the escaped byte is delivered, the LF behind it only if no CR is waiting. */
  lemma EscapeThenLf(i: Input)
    requires Chunked(i) && Flat(i) == [IAC, IAC, LF]
    ensures Deliver(i, false) == [IAC, LF] && Deliver(i, true) == [IAC]
  {
    var j := PastEscape(i);
    LastLf(j);
  }

  /** A line end written as CR LF is read as CR. */
  lemma LineEndIsAltered()
    ensures Escape([CR, LF]) == [CR, LF] && Deliver(Input([CR, LF], []), false) == [CR]
  {
    assert [CR, LF][1..] == [LF] && [LF][1..] == [];
    assert Escape([LF]) == [LF];
    assert Rest(Input([CR, LF], [])) == Input([LF], []);
    assert Rest(Input([LF], [])) == Input([], []);
  }

  /** RFC 854 has commands of two bytes, from NOP to GA. Here each takes the byte behind it along, which is lost: but for
      CR and 255, it would be delivered as it is. */
  lemma ShortCommandTakesAByte(cmd: byte, b: byte, rest: seq<byte>)
    requires 241 <= cmd <= 249
    ensures Decode([IAC, cmd, b] + rest) == Decode(rest)
    ensures b != IAC && b != CR ==> Decode([b] + rest) == [b] + Decode(rest)
  {
    assert ([IAC, cmd, b] + rest)[3..] == rest && ([b] + rest)[1..] == rest;
  }

  /** A block ends at the first IAC SE behind its contents, in which a 255 is doubled. */
  lemma {:induction false} BlockEndIs(s: seq<byte>, i: nat, data: seq<byte>)
    requires i + |Escape(data)| + 2 <= |s| && s[i..i + |Escape(data)|] == Escape(data)
    requires s[i + |Escape(data)|] == IAC && s[i + |Escape(data)| + 1] == SE
    ensures BlockEnd(s, i) == Some(i + |Escape(data)| + 2)
    decreases |data|
  {
    if data != [] {
      var n := if data[0] == IAC then 2 else 1;
      var e := Escape(data);
      assert e[n..] == Escape(data[1..]);
      assert s[i] == s[i..i + |e|][0] && (n == 2 ==> s[i + 1] == s[i..i + |e|][1]);
      assert s[i + n..i + |e|] == s[i..i + |e|][n..];
      BlockEndIs(s, i + n, data[1..]);
    }
  }

  /** A subnegotiation is passed over whole, whatever is in it; nothing of it is delivered or taken for a command. */
  lemma BlockVanishes(data: seq<byte>, rest: seq<byte>)
    ensures var s := [IAC, SB] + Escape(data) + [IAC, SE] + rest; Decode(s) == Decode(rest) && Commands(s) == Commands(rest)
  {
    var e := Escape(data);
    var s := [IAC, SB] + e + [IAC, SE] + rest;
    assert s[2..2 + |e|] == e && s[2 + |e|..] == [IAC, SE] + rest;
    assert s[2 + |e|] == IAC && s[2 + |e| + 1] == SE && s[2 + |e| + 2..] == rest;
    BlockEndIs(s, 2, data);
  }

  /** A command with its option is heard, and nothing of it delivered. */
  lemma CommandIsHeard(cmd: byte, opt: byte, rest: seq<byte>)
    requires cmd == WILL || cmd == WONT || cmd == DO || cmd == DONT
    ensures var s := [IAC, cmd, opt] + rest; Decode(s) == Decode(rest) && Commands(s) == [(cmd, opt)] + Commands(rest)
  {
    assert ([IAC, cmd, opt] + rest)[3..] == rest;
  }
}
