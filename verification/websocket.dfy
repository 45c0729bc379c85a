/** The server side of a WebSocket connection: frames read from the stream, unmasked in place, put together
    into messages and handed out to buffers of any size. */
module WebSocket {
  import opened Options
  import opened Bytes
  import opened WebSocketFrames
  import opened WebSocketMessages

  predicate AllSmall(fs: seq<Frame>) { forall i | 0 <= i < |fs| :: |fs[i].payload| < Pow256(8) }

  /** Frames one after another in the byte form `g`. */
  function Chain(g: Frame -> seq<byte>, fs: seq<Frame>): seq<byte> {
    if fs == [] then [] else var last := |fs| - 1; Chain(g, fs[..last]) + g(fs[last])
  }

  /** The bytes of frames the server sent. */
  function SentBytes(fs: seq<Frame>): seq<byte> { Chain((f: Frame) => ServerFrame(f.op, f.payload), fs) }

  /** A client's reading of everything the server sent. */
  function ReadServerFrames(s: seq<byte>): seq<(opcode, seq<byte>)>
    decreases |s|
  {
    match ReadServerFrame(s)
    case None => []
    case Some(r) => if |r.2| < |s| then [(r.0, r.1)] + ReadServerFrames(r.2) else []
  }

  function Plain(fs: seq<Frame>): seq<(opcode, seq<byte>)> {
    if fs == [] then [] else [(fs[0].op, fs[0].payload)] + Plain(fs[1..])
  }

  lemma {:induction false} ChainInFront(g: Frame -> seq<byte>, fs: seq<Frame>)
    requires fs != []
    ensures Chain(g, fs) == g(fs[0]) + Chain(g, fs[1..])
    decreases |fs|
  {
    var last := |fs| - 1;
    if last > 0 {
      ChainInFront(g, fs[..last]);
      assert fs[1..][..last - 1] == fs[..last][1..];
    }
  }

  lemma SentInFront(fs: seq<Frame>)
    requires fs != []
    ensures SentBytes(fs) == ServerFrame(fs[0].op, fs[0].payload) + SentBytes(fs[1..])
  {
    ChainInFront((f: Frame) => ServerFrame(f.op, f.payload), fs);
  }

  /** The client reads back, in order, exactly the frames that were sent. */
  lemma {:induction false} SentReadsBack(fs: seq<Frame>)
    requires AllSmall(fs)
    ensures ReadServerFrames(SentBytes(fs)) == Plain(fs)
    decreases |fs|
  {
    if fs != [] {
      SentInFront(fs);
      ServerFrameReadsBack(fs[0].op, fs[0].payload, SentBytes(fs[1..]));
      SentReadsBack(fs[1..]);
    }
  }

  class WsConn {
    const text: Decoder         // how text messages are decoded
    var input: seq<byte>        // what the client will still send
    var written: seq<byte>      // what was written to the client
    var pend: seq<byte>
    var msg: seq<byte>
    var cont: opcode
    var done: bool
    ghost var sent: seq<Frame>  // the frames in `written`

    /** The message being put together never exceeds the limit. */
    ghost predicate Valid()
      reads this
    {
      |msg| <= MAX_MESSAGE && AllSmall(sent) && written == SentBytes(sent)
    }

    ghost function Now(): State
      reads this
    {
      State(msg, cont, done)
    }

    /** Bytes delivered so far but not handed out, frames sent so far, and all that the input will still bring. */
    ghost function Total(): Transcript
      reads this
    {
      Then(pend, sent, Hear(text, input, Now()))
    }

    constructor (text: Decoder, input: seq<byte>)
      ensures Valid() && this.text == text && Total() == Hear(text, input, START) && pend == []
    {
      this.text, this.input, written, sent := text, input, [], [];
      pend, msg, cont, done := [], [], 0, false;
    }

    method ReadFull(n: nat) returns (b: seq<byte>, short: bool)
      modifies this`input
      ensures short == (|old(input)| < n)
      ensures if short then input == [] else b == old(input)[..n] && input == old(input)[n..]
    {
      if |input| < n {
        input := [];
        return [], true;
      }
      b, input, short := input[..n], input[n..], false;
    }

    /** Reads the extra length bytes that the 7-bit `size` calls for. */
    method ReadSize(size7: nat) returns (size: nat, short: bool)
      requires size7 < 128
      modifies this`input
      ensures var extra := ExtraBytes(size7);
              short == (|old(input)| < extra) &&
              if short then input == [] else size == (if extra == 0 then size7 else Number(old(input)[..extra])) && input == old(input)[extra..]
    {
      size, short := size7, false;
      var b;
      if size7 == 126 {
        b, short := ReadFull(2);
        size := Number(b);
      } else if size7 == 127 {
        b, short := ReadFull(8);
        size := Number(b);
      }
    }

    static method Unmask(data: array<byte>, mask: seq<byte>)
      requires |mask| == 4
      modifies data
      ensures data[..] == Masked(old(data[..]), mask)
    {
      for i := 0 to data.Length
        invariant forall k | 0 <= k < i :: data[k] == Xor(old(data[k]), mask[k % 4])
        invariant forall k | i <= k < data.Length :: data[k] == old(data[k])
      {
        data[i] := Xor(data[i], mask[i % 4]);
      }
    }

    /** Reads the mask and the payload. */
    method ReadPayload(size: nat) returns (data: seq<byte>, short: bool)
      modifies this`input
      ensures short == (|old(input)| < 4 + size)
      ensures if short then input == [] else data == Masked(old(input)[4..4 + size], old(input)[..4]) && input == old(input)[4 + size..]
    {
      data := [];
      var mask, raw;
      mask, short := ReadFull(4);
      if short {
        return;
      }
      raw, short := ReadFull(size);
      if short {
        return;
      }
      var a := new byte[size](i requires 0 <= i < size => raw[i]);
      assert a[..] == raw;
      Unmask(a, mask);
      data := a[..];
    }

    /** Takes one frame off the input. */
    method TakeFrame() returns (t: Taken)
      modifies this`input
      ensures t == Take(old(input), |msg|)
      ensures input == if t.Short? then [] else t.rest
    {
      ghost var s := input;
      var hdr, short := ReadFull(2);
      if short {
        return Short;
      }
      var size;
      size, short := ReadSize(hdr[1] % 128);
      if short {
        return Short;
      }
      ghost var at := 2 + ExtraBytes(hdr[1] % 128);
      assert input == s[at..] && s[2..][..at - 2] == s[2..at];
      if hdr[1] < 128 {
        return Refused(false, input);
      }
      if size > MAX_MESSAGE || |msg| + size > MAX_MESSAGE {
        return Refused(true, input);
      }
      var data;
      data, short := ReadPayload(size);
      if short {
        return Short;
      }
      assert s[at..][4..4 + size] == s[at + 4..at + 4 + size] && s[at..][..4] == s[at..at + 4];
      t := Got(Frame(hdr[0] >= 128, hdr[0] % 16, data), input);
    }

    method WriteFrame(op: opcode, data: seq<byte>)
      requires Valid() && |data| < Pow256(8)
      modifies this`written, this`sent
      ensures Valid() && sent == old(sent) + [Frame(true, op, data)]
    {
      var n := |data|;
      var hdr: seq<byte> := [128 + op, 0];
      assert Pow256(2) == 0x1_0000;
      if n < 126 {
        hdr := hdr[1 := n];
      } else if n <= 0xFFFF {
        hdr := hdr[1 := 126] + BigEndian(n, 2);
      } else {
        hdr := hdr[1 := 127] + BigEndian(n, 8);
      }
      assert hdr + data == ServerFrame(op, data);
      written := written + (hdr + data);
      sent := sent + [Frame(true, op, data)];
      assert sent[..|sent| - 1] == old(sent);
    }

    /** Acts on one frame. */
    method Handle(f: Frame) returns (failed: bool)
      requires Valid() && pend == [] && |msg| + |f.payload| <= MAX_MESSAGE
      modifies this
      ensures Valid() && input == old(input)
      ensures var e := Apply(text, old(Now()), f);
              Now() == e.st && pend == e.out && sent == old(sent) + e.replies && failed == e.failed
    {
      assert Pow256(4) == 0x1_0000_0000 && Pow256(8) >= Pow256(4);
      assert sent + [] == sent;
      if f.op == OP_PING {
        WriteFrame(OP_PONG, f.payload);
        return false;
      }
      if f.op == OP_PONG {
        return false;
      }
      if f.op == OP_CLOSE {
        var code: seq<byte> := [0x03, 0xE8];
        if |f.payload| >= 2 {
          code := f.payload[..2];
        }
        WriteFrame(OP_CLOSE, code);
        done := true;
        return false;
      }
      if f.op == OP_TEXT || f.op == OP_BINARY {
        cont := f.op;
        msg := f.payload;
      } else if f.op == OP_CONT {
        msg := msg + f.payload;
      } else {
        return true;
      }
      if !f.fin {
        return false;
      }
      var b := Decode(text, cont, msg);
      msg := [];
      if b.None? {
        return true;
      }
      pend := b.value;
      failed := false;
    }

    /** Reads one frame and acts on it. What was to come is what is now there and what is still to come. */
    method ReadFrame() returns (failed: bool)
      requires Valid() && pend == [] && !done
      modifies this
      ensures Valid() && (!failed ==> |input| < |old(input)| && Total() == old(Total()))
      ensures failed ==> pend == [] && !done && old(Total()).out == [] && old(Total()).replies == sent && !old(Total()).end.Closed?
    {
      ghost var was := Total();
      var t := TakeFrame();
      match t
      case Short =>
        assert sent + [] == sent;
        return true;
      case Refused(tooBig, _) =>
        assert sent + [] == sent;
        if tooBig {
          assert Pow256(1) == 256 && Pow256(8) >= Pow256(1);
          WriteFrame(OP_CLOSE, [0x03, 0xF1]);
        }
        return true;
      case Got(f, rest) =>
        ghost var e, old_sent := Apply(text, Now(), f), sent;
        TakenFits(old(input), |msg|);
        failed := Handle(f);
        if !failed {
          ThenThen([], e.out, old_sent, e.replies, Hear(text, input, Now()));
          assert [] + e.out == e.out;
        }
    }

    /** Reads frames until something is pending. */
    method Await() returns (failed: bool)
      requires Valid()
      modifies this
      ensures Valid() && (!failed ==> pend != [] && Total() == old(Total()))
      ensures failed ==> pend == [] && old(Total()).out == [] && old(Total()).replies == sent
      ensures failed ==> (done <==> old(Total()).end.Closed?)
    {
      while pend == []
        invariant Valid() && Total() == old(Total())
        decreases |input|
      {
        if done {
          assert sent + [] == sent;
          return true;
        }
        var err := ReadFrame();
        if err {
          return true;
        }
      }
      failed := false;
    }

    /** Hands out what is pending, reading frames until something is. */
    method Read(p: array<byte>) returns (n: nat, failed: bool)
      requires Valid()
      modifies this, p
      ensures Valid() && n <= p.Length
      ensures !failed ==> Then(p[..n], [], Total()) == old(Total())
      ensures !failed && p.Length > 0 ==> n > 0
      ensures failed ==> n == 0 && pend == [] && old(Total()).out == [] && old(Total()).replies == sent
      ensures failed ==> (done <==> old(Total()).end.Closed?)
    {
      n := 0;
      failed := Await();
      if failed {
        return;
      }
      n := if p.Length < |pend| then p.Length else |pend|;
      ghost var all := pend;
      forall i | 0 <= i < n { p[i] := pend[i]; }
      pend := pend[n..];
      HandedOut(p[..n], pend, all, sent, Hear(text, input, Now()));
    }

    /** Reads with one buffer after another until a read fails or the buffers run out. Whatever their sizes, the
        bytes handed out are those of the whole input, in order. */
    method ReadAll(sizes: seq<nat>) returns (got: seq<byte>, ended: bool)
      requires Valid()
      modifies this
      ensures Valid() && got <= old(Total()).out
      ensures ended ==> got == old(Total()).out && sent == old(Total()).replies && (done <==> old(Total()).end.Closed?)
    {
      got, ended := [], false;
      NothingThen(Total());
      for i := 0 to |sizes|
        invariant Valid() && (!ended ==> Then(got, [], Total()) == old(Total()))
        invariant ended ==> got == old(Total()).out && sent == old(Total()).replies && (done <==> old(Total()).end.Closed?)
      {
        if !ended {
          var piece;
          ghost var before := Total();
          piece, ended := ReadSome(sizes[i]);
          if ended {
            assert got + [] == got && [] + sent == sent;
          } else {
            ThenThen(got, piece, [], [], Total());
            got := got + piece;
          }
        }
      }
    }

    method ReadSome(size: nat) returns (got: seq<byte>, failed: bool)
      requires Valid()
      modifies this
      ensures Valid() && (!failed ==> Then(got, [], Total()) == old(Total()))
      ensures failed ==> got == [] && old(Total()).out == [] && old(Total()).replies == sent && (done <==> old(Total()).end.Closed?)
    {
      var p := new byte[size];
      var n;
      n, failed := Read(p);
      got := p[..n];
    }
  }

  lemma HandedOut(a: seq<byte>, b: seq<byte>, all: seq<byte>, sent: seq<Frame>, t: Transcript)
    requires all == a + b
    ensures Then(a, [], Then(b, sent, t)) == Then(all, sent, t)
  {
    ThenThen(a, b, [], sent, t);
    assert [] + sent == sent;
  }

  lemma TakenFits(s: seq<byte>, have: nat)
    ensures Take(s, have).Got? ==> have + |Take(s, have).frame.payload| <= MAX_MESSAGE
  {}
}
