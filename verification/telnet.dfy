/** The telnet endpoint: a reader over a chunked stream that strips commands, answers them, and fills
    the caller's buffer; and the writer that escapes 255. */
module Telnet {
  import opened Options
  import opened Bytes
  import opened TelnetDecode
  import opened TelnetNegotiation

  predicate Recalls(heard: seq<Cmd>) { true }

  /** The options whose flag is set. */
  function Marked(flags: seq<bool>): set<byte>
    requires |flags| == 256
  {
    set o: byte | 0 <= o < 256 && flags[o]
  }

  /** Who said what: the flags, the option commands sent, and those heard. */
  class Negotiator {
    var sent: seq<Cmd>          // option commands written to the stream
    const usWill: array<bool>
    const usDo: array<bool>
    const saidWont: array<bool>
    const saidDont: array<bool>
    ghost var heard: seq<Cmd>   // option commands received so far

    ghost predicate Shaped()
      reads this
    {
      && usWill.Length == usDo.Length == saidWont.Length == saidDont.Length == 256
      && usWill != usDo && usWill != saidWont && usWill != saidDont && usDo != saidWont && usDo != saidDont && saidWont != saidDont
    }

    ghost function Flags(): Neg
      requires Shaped()
      reads this, usWill, usDo, saidWont, saidDont
    {
      Neg(Marked(usWill[..]), Marked(usDo[..]), Marked(saidWont[..]), Marked(saidDont[..]))
    }

    /** What was sent, and the flags, are the answer to what was heard; compared only where a proof says `Recalls`. */
    ghost predicate Valid()
      reads this, usWill, usDo, saidWont, saidDont
    {
      Shaped() && forall h {:trigger Recalls(h)} :: Recalls(h) && h == heard ==> (sent, Flags()) == Converse(h)
    }

    /** Opens the conversation with the offer. */
    constructor ()
      ensures Valid() && fresh(usWill) && fresh(usDo) && fresh(saidWont) && fresh(saidDont) && heard == []
    {
      sent, heard := [], [];
      usWill := new bool[256](_ => false);
      usDo := new bool[256](_ => false);
      saidWont := new bool[256](_ => false);
      saidDont := new bool[256](_ => false);
      new;
      assert Flags() == Neg({}, {}, {}, {});
      OfferSteps();
      SendWill(3);
      SendWill(1);
      SendWill(0);
      SendDo(0);
    }

    method SendWill(opt: byte)
      requires Shaped()
      modifies this`sent, usWill, saidWont
      ensures Shaped() && (sent, Flags()) == (old(sent) + TelnetNegotiation.SendWill(old(Flags()), opt).0,
                                              TelnetNegotiation.SendWill(old(Flags()), opt).1)
    {
      if usWill[opt] {
        assert opt in Flags().will;
        assert sent + [] == sent;
        return;
      }
      usWill[opt] := true;
      saidWont[opt] := false;
      sent := sent + [(WILL, opt)];
      assert Flags().will == old(Flags()).will + {opt} && Flags().wont == old(Flags()).wont - {opt};
    }

    method SendDo(opt: byte)
      requires Shaped()
      modifies this`sent, usDo, saidDont
      ensures Shaped() && (sent, Flags()) == (old(sent) + TelnetNegotiation.SendDo(old(Flags()), opt).0,
                                              TelnetNegotiation.SendDo(old(Flags()), opt).1)
    {
      if usDo[opt] {
        assert opt in Flags().do;
        assert sent + [] == sent;
        return;
      }
      usDo[opt] := true;
      saidDont[opt] := false;
      sent := sent + [(DO, opt)];
      assert Flags().do == old(Flags()).do + {opt} && Flags().dont == old(Flags()).dont - {opt};
    }

    method SendWont(opt: byte)
      requires Shaped()
      modifies this`sent, usWill, saidWont
      ensures Shaped() && (sent, Flags()) == (old(sent) + TelnetNegotiation.SendWont(old(Flags()), opt).0,
                                              TelnetNegotiation.SendWont(old(Flags()), opt).1)
    {
      if saidWont[opt] {
        assert opt in Flags().wont;
        assert sent + [] == sent;
        return;
      }
      saidWont[opt] := true;
      usWill[opt] := false;
      sent := sent + [(WONT, opt)];
      assert Flags().wont == old(Flags()).wont + {opt} && Flags().will == old(Flags()).will - {opt};
    }

    method SendDont(opt: byte)
      requires Shaped()
      modifies this`sent, usDo, saidDont
      ensures Shaped() && (sent, Flags()) == (old(sent) + TelnetNegotiation.SendDont(old(Flags()), opt).0,
                                              TelnetNegotiation.SendDont(old(Flags()), opt).1)
    {
      if saidDont[opt] {
        assert opt in Flags().dont;
        assert sent + [] == sent;
        return;
      }
      saidDont[opt] := true;
      usDo[opt] := false;
      sent := sent + [(DONT, opt)];
      assert Flags().dont == old(Flags()).dont + {opt} && Flags().do == old(Flags()).do - {opt};
    }

    /** Answers one option command. */
    method Answer(cmd: byte, opt: byte)
      requires Valid()
      modifies this`sent, this`heard, usWill, usDo, saidWont, saidDont
      ensures Valid() && heard == old(heard) + [(cmd, opt)]
    {
      assert Recalls(heard);
      ConverseOneMore(heard, (cmd, opt));
      ghost var was := sent;
      heard := heard + [(cmd, opt)];
      if cmd == WILL {
        if Accepts(opt) { SendDo(opt); } else { SendDont(opt); }
      } else if cmd == DO {
        if Accepts(opt) { SendWill(opt); } else { SendWont(opt); }
      } else if cmd == WONT {
        SendDont(opt);
      } else if cmd == DONT {
        SendWont(opt);
      } else {
        assert was + [] == was;
      }
    }
  }

  class Endpoint {
    var buf: seq<byte>          // what the buffered reader holds
    var more: seq<seq<byte>>    // chunks not yet read from the stream
    var written: seq<byte>      // data bytes written to the stream
    var pendingCR: bool
    const nego: Negotiator
    ghost const owed: (Input, bool) -> seq<byte>   // Deliver, under a name that a proof opens only where it looks
    ghost const orders: Input -> seq<Cmd>          // Commands of the whole input, likewise

    function In(): Input
      reads this
    {
      Input(buf, more)
    }

    ghost predicate Valid()
      reads this, nego, nego.usWill, nego.usDo, nego.saidWont, nego.saidDont
    {
      nego.Valid() && Chunked(In()) && Meant(owed, orders)
    }

    constructor (chunks: seq<seq<byte>>)
      requires Chunked(Input([], chunks))
      ensures Valid() && fresh(nego) && fresh(nego.usWill) && fresh(nego.usDo) && fresh(nego.saidWont) && fresh(nego.saidDont)
      ensures In() == Input([], chunks) && !pendingCR && nego.heard == [] && written == []
    {
      buf, more, written, pendingCR := [], chunks, [], false;
      owed := (i: Input, pending: bool) => if Chunked(i) then Deliver(i, pending) else [];
      orders := (i: Input) => Commands(Flat(i));
      nego := new Negotiator();
      new;
      assert Meant(owed, orders) by {
        forall i: Input, pending: bool | Looks(i, pending) && Chunked(i)
          ensures owed(i, pending) == Deliver(i, pending) && orders(i) == Commands(Flat(i)) {}
      }
    }

    method ReadByte() returns (b: byte, failed: bool)
      requires Chunked(In())
      modifies this`buf, this`more
      ensures Chunked(In())
      ensures failed == (old(Flat(In())) == []) && (failed ==> In() == old(In()))
      ensures !failed ==> b == old(Flat(In()))[0] && In() == Rest(old(In()))
    {
      b := 0;
      if buf == [] {
        if more == [] {
          return 0, true;
        }
        assert Flat(In()) == more[0] + Concat(more[1..]);
        buf, more := more[0], more[1..];
      }
      b, buf, failed := buf[0], buf[1..], false;
    }

    /** Reads byte `k` of the stream that began at `start`. */
    method ReadAt(ghost start: Input, ghost k: nat) returns (b: byte, failed: bool)
      requires Chunked(start) && k <= |Flat(start)| && In() == Skip(start, k)
      modifies this`buf, this`more
      ensures failed == (k == |Flat(start)|)
      ensures !failed ==> b == Flat(start)[k] && In() == Skip(start, k + 1)
      ensures failed ==> In() == Skip(start, k)
    {
      if k < |Flat(start)| { SkipOne(start, k); }
      b, failed := ReadByte();
    }

    /** Passes over a subnegotiation up to its IAC SE, or to the end of the stream. `IAC SB` has been read. */
    method SkipBlock(ghost start: Input) returns (failed: bool)
      requires Chunked(start) && |Flat(start)| >= 2 && In() == Skip(start, 2)
      modifies this`buf, this`more
      ensures failed == BlockEnd(Flat(start), 2).None?
      ensures In() == Skip(start, if failed then |Flat(start)| else BlockEnd(Flat(start), 2).value)
    {
      ghost var s, k := Flat(start), 2;
      while true
        invariant 2 <= k <= |s| && In() == Skip(start, k)
        invariant BlockEnd(s, 2) == BlockEnd(s, k)
        decreases |s| - k
      {
        var x, end := ReadAt(start, k);
        if end { return true; }
        k := k + 1;
        if x == IAC {
          var y, end' := ReadAt(start, k);
          if end' { return true; }
          k := k + 1;
          if y == SE { return false; }
        }
      }
    }

    /** Takes a byte that is no command, read at `at`: whether it is delivered, and what becomes of the mate of a CR. */
    method TakeChar(b: byte, ghost at: Input) returns (keep: bool)
      requires Chunked(at) && Flat(at) != [] && Front(Flat(at)) == Char(b) && In() == Rest(at)
      modifies this`buf, this`more, this`pendingCR
      ensures Chunked(In()) && |Flat(In())| < |Flat(at)|
      ensures Deliver(at, old(pendingCR)) == (if keep then [b] else []) + Deliver(In(), pendingCR)
      ensures Commands(Flat(at)) == Commands(Flat(In()))
    {
      if pendingCR {
        pendingCR := false;
        if b == LF || b == NUL {
          return false;
        }
      }
      if b == CR {
        if buf != [] {
          if buf[0] == LF || buf[0] == NUL {
            assert Flat(In())[0] == buf[0];
            var _, _ := ReadByte();
          }
        } else {
          pendingCR := true;
        }
      }
      keep := true;
    }

    method TakeCharHere(b: byte, ghost at: Input) returns (keep: bool)
      requires Valid() && Chunked(at) && Flat(at) != [] && Front(Flat(at)) == Char(b) && In() == Rest(at)
      modifies this`buf, this`more, this`pendingCR
      ensures Valid() && |Flat(In())| < |Flat(at)|
      ensures owed(at, old(pendingCR)) == (if keep then [b] else []) + owed(In(), pendingCR) && orders(at) == orders(In())
    {
      assert Looks(at, pendingCR);
      keep := TakeChar(b, at);
      assert Looks(In(), pendingCR);
    }

    /** Takes what follows an IAC read at `at`: a doubled IAC, a subnegotiation, or a command, which is answered. */
    method TakeCommand(ghost at: Input) returns (escaped: bool, failed: bool)
      requires Valid() && Chunked(at) && Flat(at) != [] && Flat(at)[0] == IAC && In() == Skip(at, 1)
      modifies this`buf, this`more, nego, nego.usWill, nego.usDo, nego.saidWont, nego.saidDont
      ensures Valid() && In() == Skip(at, Size(Flat(at)))
      ensures escaped == Front(Flat(at)).Escaped? && failed == Front(Flat(at)).Cut?
      ensures nego.heard == old(nego.heard) + Heard(Flat(at))
    {
      var cmd, end := ReadAt(at, 1);
      if end {
        return false, true;
      }
      if cmd == IAC {
        return true, false;
      }
      if cmd == SB {
        failed := SkipBlock(at);
        return false, failed;
      }
      var opt, end' := ReadAt(at, 2);
      if end' {
        return false, true;
      }
      nego.Answer(cmd, opt);
      return false, false;
    }

    lemma PastCommandHere(at: Input)
      requires Valid() && Chunked(at) && Flat(at) != [] && Flat(at)[0] == IAC
      ensures var s := Flat(at); var r := Skip(at, Size(s));
              && owed(at, pendingCR) == (if Front(s).Escaped? then [IAC] else []) + owed(r, pendingCR)
              && orders(at) == Heard(s) + orders(r) && (Front(s).Cut? ==> Flat(r) == [])
    {
      PastCommand(at, pendingCR);
      assert Looks(at, pendingCR) && Looks(Skip(at, Size(Flat(at))), pendingCR);
    }

    method TakeCommandHere(ghost at: Input) returns (escaped: bool, failed: bool)
      requires Valid() && Chunked(at) && Flat(at) != [] && Flat(at)[0] == IAC && In() == Skip(at, 1)
      modifies this`buf, this`more, nego, nego.usWill, nego.usDo, nego.saidWont, nego.saidDont
      ensures Valid() && |Flat(In())| < |Flat(at)|
      ensures owed(at, pendingCR) == (if escaped then [IAC] else []) + owed(In(), pendingCR)
      ensures old(nego.heard) + orders(at) == nego.heard + orders(In())
      ensures failed ==> Flat(In()) == [] && !escaped
    {
      escaped, failed := TakeCommand(at);
      PastCommandHere(at);
      assert old(nego.heard) + (Heard(Flat(at)) + orders(In())) == nego.heard + orders(In());
    }

    /** Takes one token: the byte it delivers if `keep`, whether it was a plain byte, or the end of the stream. */
    method TakeOne() returns (b: byte, keep: bool, plain: bool, failed: bool)
      requires Valid() && Flat(In()) != []
      modifies this`buf, this`more, this`pendingCR, nego, nego.usWill, nego.usDo, nego.saidWont, nego.saidDont
      ensures Valid() && |Flat(In())| < |old(Flat(In()))|
      ensures owed(old(In()), old(pendingCR)) == (if keep then [b] else []) + owed(In(), pendingCR)
      ensures old(nego.heard) + orders(old(In())) == nego.heard + orders(In())
      ensures failed ==> Flat(In()) == [] && !keep
    {
      ghost var at := In();
      var end;
      b, end := ReadByte();
      if b != IAC {
        keep := TakeCharHere(b, at);
        return b, keep, true, false;
      }
      SkipOne(at, 0);
      keep, failed := TakeCommandHere(at);
      plain := false;
    }

    /** One turn of the loop of `Read`: puts at most one byte at `p[n]`; `full` if the call should return. */
    method FillOne(p: array<byte>, n: nat, ghost all: seq<byte>, ghost cmds: seq<Cmd>) returns (n': nat, full: bool, failed: bool)
      requires Valid() && n < p.Length && Flat(In()) != []
      requires all == p[..n] + owed(In(), pendingCR) && cmds == nego.heard + orders(In())
      modifies this`buf, this`more, this`pendingCR, nego, nego.usWill, nego.usDo, nego.saidWont, nego.saidDont, p
      ensures Valid() && n <= n' <= n + 1 && |Flat(In())| < |old(Flat(In()))|
      ensures all == p[..n'] + owed(In(), pendingCR) && cmds == nego.heard + orders(In())
      ensures (failed ==> Flat(In()) == []) && (full ==> n' == n + 1)
    {
      var b, keep, plain;
      b, keep, plain, failed := TakeOne();
      n', full := n, false;
      if keep {
        p[n] := b;
        n' := n + 1;
        full := plain && buf == [];
        assert p[..n'] + owed(In(), pendingCR) == old(p[..n]) + ([b] + owed(In(), pendingCR));
      } else {
        assert [] + owed(In(), pendingCR) == owed(In(), pendingCR);
      }
    }

    /** The loop of `Read`. */
    method Fill(p: array<byte>) returns (n: nat, failed: bool)
      requires Valid()
      modifies this`buf, this`more, this`pendingCR, nego, nego.usWill, nego.usDo, nego.saidWont, nego.saidDont, p
      ensures Valid() && n <= p.Length
      ensures owed(old(In()), old(pendingCR)) == p[..n] + owed(In(), pendingCR)
      ensures old(nego.heard) + orders(old(In())) == nego.heard + orders(In())
      ensures failed ==> Flat(In()) == []
      ensures p.Length > 0 && !failed ==> n > 0
    {
      n := 0;
      ghost var all, cmds := owed(In(), pendingCR), nego.heard + orders(In());
      while n < p.Length
        invariant Valid() && n <= p.Length
        invariant all == p[..n] + owed(In(), pendingCR) && cmds == nego.heard + orders(In())
        decreases |Flat(In())|
      {
        if buf == [] && more == [] {
          return n, n == 0;
        }
        var full, end;
        n, full, end := FillOne(p, n, all, cmds);
        if end || full {
          return n, end;
        }
      }
      failed := false;
    }

    /** Fills `p` from the front. `failed` reports the end of the stream. */
    method Read(p: array<byte>) returns (n: nat, failed: bool)
      requires Valid()
      modifies this`buf, this`more, this`pendingCR, nego, nego.usWill, nego.usDo, nego.saidWont, nego.saidDont, p
      ensures Valid() && n <= p.Length
      ensures Deliver(old(In()), old(pendingCR)) == p[..n] + Deliver(In(), pendingCR)
      ensures old(nego.heard) + Commands(old(Flat(In()))) == nego.heard + Commands(Flat(In()))
      ensures failed ==> Flat(In()) == []
      ensures p.Length > 0 && !failed ==> n > 0
    {
      n, failed := Fill(p);
      assert Looks(old(In()), old(pendingCR)) && Looks(In(), pendingCR);
    }

    method Write(p: seq<byte>)
      modifies this`written
      ensures written == old(written) + Escape(p)
    {
      var escaped: seq<byte> := [];
      var i := 0;
      while i < |p|
        invariant i <= |p| && Escape(p) == escaped + Escape(p[i..])
      {
        escaped := escaped + [p[i]];
        if p[i] == IAC {
          escaped := escaped + [IAC];
        }
        i := i + 1;
      }
      written := written + escaped;
    }

    /** One read into a buffer of `size` bytes. */
    method ReadSome(size: nat) returns (got: seq<byte>, ended: bool)
      requires Valid()
      modifies this`buf, this`more, this`pendingCR, nego, nego.usWill, nego.usDo, nego.saidWont, nego.saidDont
      ensures Valid() && |got| <= size
      ensures owed(old(In()), old(pendingCR)) == got + owed(In(), pendingCR)
      ensures old(nego.heard) + orders(old(In())) == nego.heard + orders(In())
      ensures ended ==> Flat(In()) == []
    {
      var p := new byte[size];
      var n;
      n, ended := Fill(p);
      got := p[..n];
    }

    /** Reads with one buffer after another until the stream ends or the buffers run out. */
    method ReadEach(sizes: seq<nat>) returns (got: seq<byte>, ended: bool)
      requires Valid()
      modifies this`buf, this`more, this`pendingCR, nego, nego.usWill, nego.usDo, nego.saidWont, nego.saidDont
      ensures Valid() && owed(old(In()), old(pendingCR)) == got + owed(In(), pendingCR)
      ensures old(nego.heard) + orders(old(In())) == nego.heard + orders(In())
      ensures ended ==> Flat(In()) == []
    {
      got, ended := [], false;
      ghost var all, cmds := owed(In(), pendingCR), nego.heard + orders(In());
      for i := 0 to |sizes|
        invariant Valid() && all == got + owed(In(), pendingCR) && cmds == nego.heard + orders(In())
        invariant ended ==> Flat(In()) == []
      {
        if !ended {
          var piece;
          piece, ended := ReadSome(sizes[i]);
          Regroup(got, piece, owed(In(), pendingCR));
          got := got + piece;
        }
      }
    }

    /** Whatever the chunks and the buffer sizes, the bytes come out as the reference decodes them. */
    method ReadAll(sizes: seq<nat>) returns (got: seq<byte>, ended: bool)
      requires Valid() && !pendingCR && !Ambiguous(Flat(In()))
      modifies this`buf, this`more, this`pendingCR, nego, nego.usWill, nego.usDo, nego.saidWont, nego.saidDont
      ensures Valid()
      ensures got <= Decode(old(Flat(In())))
      ensures ended ==> got == Decode(old(Flat(In()))) && nego.heard == old(nego.heard) + Commands(old(Flat(In())))
    {
      ChunkingIsInvisible(In(), false);
      assert Looks(In(), false);
      got, ended := ReadEach(sizes);
      assert Looks(In(), pendingCR);
    }
  }

  lemma Regroup(a: seq<byte>, b: seq<byte>, c: seq<byte>)
    ensures a + (b + c) == (a + b) + c
  {}

  predicate Looks(i: Input, pending: bool) { true }

  /** The two functions are `Deliver` and `Commands`. */
  ghost predicate Meant(owed: (Input, bool) -> seq<byte>, orders: Input -> seq<Cmd>) {
    forall i: Input, pending: bool {:trigger Looks(i, pending)} :: Looks(i, pending) && Chunked(i) ==>
      owed(i, pending) == Deliver(i, pending) && orders(i) == Commands(Flat(i))
  }

  /** The command at the front of a stream, if it is one. */
  function Heard(s: seq<byte>): seq<Cmd>
    requires s != []
  {
    if Front(s).Command? then [(Front(s).cmd, Front(s).opt)] else []
  }

  /** What is delivered and heard beyond whatever an IAC at the front starts. */
  lemma PastCommand(i: Input, pending: bool)
    requires Chunked(i) && Flat(i) != [] && Flat(i)[0] == IAC
    ensures var s := Flat(i); var r := Skip(i, Size(s));
            && Deliver(i, pending) == (if Front(s).Escaped? then [IAC] else []) + Deliver(r, pending)
            && Commands(s) == Heard(s) + Commands(Flat(r))
            && (Front(s).Cut? ==> Flat(r) == [])
  {}

  /** One more byte read is one more byte skipped. */
  lemma {:induction false} SkipOne(i: Input, n: nat)
    requires Chunked(i) && n < |Flat(i)|
    ensures Skip(i, n + 1) == Rest(Skip(i, n)) && Flat(Skip(i, n))[0] == Flat(i)[n]
    decreases n
  {
    if n > 0 { SkipOne(Rest(i), n - 1); }
  }
}
