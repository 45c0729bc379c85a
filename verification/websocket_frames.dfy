/** WebSocket frames as bytes (sections 5.2 and 5.3 of RFC 6455): lengths, masking, and one frame taken off
    the front of a client's stream. */
module WebSocketFrames {
  import opened Options
  import opened Bytes

  const MAX_MESSAGE: nat := 1048576

  const OP_CONT: opcode := 0
  const OP_TEXT: opcode := 1
  const OP_BINARY: opcode := 2
  const OP_CLOSE: opcode := 8
  const OP_PING: opcode := 9
  const OP_PONG: opcode := 10

  type opcode = b: int | 0 <= b < 16

  datatype Frame = Frame(fin: bool, op: opcode, payload: seq<byte>)

  // ---------------------------------------------------------------- numbers, high byte first

  function Pow256(k: nat): (p: nat) {
    if k == 0 then 1 else 256 * Pow256(k - 1)
  }

  function BigEndian(n: nat, k: nat): (s: seq<byte>)
    ensures |s| == k
  {
    if k == 0 then [] else BigEndian(n / 256, k - 1) + [n % 256]
  }

  function Number(s: seq<byte>): nat {
    if s == [] then 0 else 256 * Number(s[..|s| - 1]) + s[|s| - 1]
  }

  lemma {:induction false} NumberOfBigEndian(n: nat, k: nat)
    requires n < Pow256(k)
    ensures Number(BigEndian(n, k)) == n
  {
    if k > 0 {
      NumberOfBigEndian(n / 256, k - 1);
      assert BigEndian(n, k)[..k - 1] == BigEndian(n / 256, k - 1);
    }
  }

  // ---------------------------------------------------------------- masking

  function Pow2(k: nat): nat { if k == 0 then 1 else 2 * Pow2(k - 1) }

  /** Exclusive or of the low `k` bits. */
  function XorBits(a: nat, b: nat, k: nat): (r: nat)
    ensures r < Pow2(k)
  {
    if k == 0 then 0 else (if a % 2 == b % 2 then 0 else 1) + 2 * XorBits(a / 2, b / 2, k - 1)
  }

  /** The lowest bit and the others. */
  lemma LowestBit(a: nat, b: nat, k: nat)
    requires k > 0
    ensures XorBits(a, b, k) / 2 == XorBits(a / 2, b / 2, k - 1)
    ensures XorBits(a, b, k) % 2 == if a % 2 == b % 2 then 0 else 1
  {}

  lemma {:induction false} XorBitsTwice(a: nat, b: nat, k: nat)
    requires a < Pow2(k)
    ensures XorBits(XorBits(a, b, k), b, k) == a
  {
    if k > 0 {
      var x := XorBits(a, b, k);
      XorBitsTwice(a / 2, b / 2, k - 1);
      LowestBit(a, b, k);
      LowestBit(x, b, k);
      TwoHalves(XorBits(x, b, k), a);
    }
  }

  lemma TwoHalves(x: nat, y: nat)
    requires x / 2 == y / 2 && x % 2 == y % 2
    ensures x == y
  {}

  function Xor(a: byte, b: byte): byte {
    assert Pow2(4) == 16 && Pow2(8) == 16 * Pow2(4);
    XorBits(a, b, 8)
  }

  /** `data` with the four bytes of `key` over it again and again. */
  function Masked(data: seq<byte>, key: seq<byte>): (r: seq<byte>)
    requires |key| == 4
    ensures |r| == |data|
  {
    seq(|data|, i requires 0 <= i < |data| => Xor(data[i], key[i % 4]))
  }

  lemma MaskedTwice(data: seq<byte>, key: seq<byte>)
    requires |key| == 4
    ensures Masked(Masked(data, key), key) == data
  {
    forall i | 0 <= i < |data| ensures Masked(Masked(data, key), key)[i] == data[i] {
      assert Pow2(4) == 16 && Pow2(8) == 16 * Pow2(4);
      XorBitsTwice(data[i], key[i % 4], 8);
    }
  }

  // ---------------------------------------------------------------- frames on the wire

  /** The bytes a length takes after the second header byte. */
  function ExtraBytes(size: nat): nat { if size == 126 then 2 else if size == 127 then 8 else 0 }

  /** A length written in `form` extra bytes, the second header byte first. */
  predicate Holds(form: nat, n: nat) { (form == 0 && n < 126) || (form == 2 && n < Pow256(2)) || (form == 8 && n < Pow256(8)) }

  function LengthBytes(form: nat, n: nat, maskBit: byte): (s: seq<byte>)
    requires (form == 0 ==> n < 126) && maskBit in {0, 128}
    ensures |s| == 1 + form
  {
    if form == 0 then [maskBit + n] else [maskBit + if form == 2 then 126 else 127] + BigEndian(n, form)
  }

  function FirstByte(fin: bool, op: opcode): byte { (if fin then 128 else 0) + op }

  /** A frame as a client sends it: masked with `key`, its length in any form that holds it. */
  datatype Wire = Wire(frame: Frame, key: seq<byte>, form: nat)

  predicate Sendable(w: Wire) { |w.key| == 4 && Holds(w.form, |w.frame.payload|) }

  function Encoded(w: Wire): seq<byte>
    requires Sendable(w)
  {
    [FirstByte(w.frame.fin, w.frame.op)] + LengthBytes(w.form, |w.frame.payload|, 128) + w.key + Masked(w.frame.payload, w.key)
  }

  /** What came off the stream: a frame; nothing, because the stream ended, which uses up what was there; or a
      frame refused for being unmasked or too long. */
  datatype Taken = Got(frame: Frame, rest: seq<byte>) | Short | Refused(tooBig: bool, rest: seq<byte>)

  /** Takes one frame off `s` when `have` bytes of a message are waiting. */
  function Take(s: seq<byte>, have: nat): (t: Taken)
    ensures !t.Short? ==> |t.rest| < |s|
  {
    if |s| < 2 then Short else
    var extra := ExtraBytes(s[1] % 128);
    var at := 2 + extra;
    if |s| < at then Short else
    var size := if extra == 0 then s[1] % 128 else Number(s[2..at]);
    if s[1] < 128 then Refused(false, s[at..])
    else if size > MAX_MESSAGE || have + size > MAX_MESSAGE then Refused(true, s[at..])
    else if |s| < at + 4 + size then Short
    else Got(Frame(s[0] >= 128, s[0] % 16, Masked(s[at + 4..at + 4 + size], s[at..at + 4])), s[at + 4 + size..])
  }

  /** The length written is the length read, in every form. */
  lemma LengthReadsBack(a: byte, form: nat, n: nat, maskBit: byte, rest: seq<byte>)
    requires Holds(form, n) && maskBit in {0, 128}
    ensures var s := [a] + LengthBytes(form, n, maskBit) + rest;
            && ExtraBytes(s[1] % 128) == form && (s[1] >= 128 <==> maskBit == 128)
            && (if form == 0 then s[1] % 128 else Number(s[2..2 + form])) == n
            && s[0] == a && s[2 + form..] == rest
  {
    var s := [a] + LengthBytes(form, n, maskBit) + rest;
    assert s[1] == LengthBytes(form, n, maskBit)[0];
    if form != 0 {
      assert s[2..2 + form] == BigEndian(n, form);
      NumberOfBigEndian(n, form);
    }
  }

  lemma Regrouped(a: seq<byte>, b: seq<byte>, c: seq<byte>, d: seq<byte>, e: seq<byte>)
    ensures a + b + c + d + e == a + b + (c + d + e)
  {}

  /** The parts of an encoded frame. */
  lemma EncodedParts(w: Wire, rest: seq<byte>) returns (s: seq<byte>, data: seq<byte>)
    requires Sendable(w)
    ensures s == Encoded(w) + rest && |s| >= 2 + w.form && s[0] == FirstByte(w.frame.fin, w.frame.op)
    ensures s[1] >= 128 && ExtraBytes(s[1] % 128) == w.form
    ensures (if w.form == 0 then s[1] % 128 else Number(s[2..2 + w.form])) == |w.frame.payload|
    ensures s[2 + w.form..] == w.key + data + rest && Masked(data, w.key) == w.frame.payload
  {
    var n := |w.frame.payload|;
    var a := FirstByte(w.frame.fin, w.frame.op);
    data := Masked(w.frame.payload, w.key);
    MaskedTwice(w.frame.payload, w.key);
    var tail := w.key + data + rest;
    s := Encoded(w) + rest;
    Regrouped([a], LengthBytes(w.form, n, 128), w.key, data, rest);
    LengthReadsBack(a, w.form, n, 128, tail);
  }

  /** A frame that fits is read back whole, with what follows it; one that is too long is refused. */
  lemma TakeEncoded(w: Wire, rest: seq<byte>, have: nat)
    requires Sendable(w)
    ensures var t := Take(Encoded(w) + rest, have);
            if have + |w.frame.payload| <= MAX_MESSAGE then t == Got(w.frame, rest)
            else t.Refused? && t.tooBig
  {
    var s, data := EncodedParts(w, rest);
    TakeSized(s, have, w.form, w.frame, w.key, data, rest);
  }

  lemma TakeSized(s: seq<byte>, have: nat, form: nat, f: Frame, key: seq<byte>, data: seq<byte>, rest: seq<byte>)
    requires |s| >= 2 + form && s[0] == FirstByte(f.fin, f.op) && s[1] >= 128 && ExtraBytes(s[1] % 128) == form
    requires (if form == 0 then s[1] % 128 else Number(s[2..2 + form])) == |f.payload|
    requires s[2 + form..] == key + data + rest && |key| == 4 && Masked(data, key) == f.payload
    ensures var t := Take(s, have);
            if have + |f.payload| <= MAX_MESSAGE then t == Got(f, rest) else t.Refused? && t.tooBig
  {
    KeyAndData(s, 2 + form, key, data, rest);
  }

  lemma KeyAndData(s: seq<byte>, at: nat, key: seq<byte>, data: seq<byte>, rest: seq<byte>)
    requires at <= |s| && s[at..] == key + data + rest && |key| == 4
    ensures |s| >= at + 4 + |data| && s[at..at + 4] == key && s[at + 4..at + 4 + |data|] == data && s[at + 4 + |data|..] == rest
  {
    var tail := s[at..];
    assert s[at..at + 4] == tail[..4];
    assert s[at + 4..at + 4 + |data|] == tail[4..4 + |data|];
    assert s[at + 4 + |data|..] == tail[4 + |data|..];
  }

  // ---------------------------------------------------------------- the server's frames

  /** The form the server writes a length in: the shortest. */
  function ShortestForm(n: nat): nat { if n < 126 then 0 else if n <= 0xFFFF then 2 else 8 }

  function ServerFrame(op: opcode, data: seq<byte>): seq<byte> {
    [FirstByte(true, op)] + LengthBytes(ShortestForm(|data|), |data|, 0) + data
  }

  /** A client's reading of an unmasked frame: opcode and payload, and what follows. */
  function ReadServerFrame(s: seq<byte>): Option<(opcode, seq<byte>, seq<byte>)> {
    if |s| < 2 || s[0] < 128 || s[1] >= 128 then None else
    var extra := ExtraBytes(s[1]);
    var at := 2 + extra;
    if |s| < at then None else
    var size := if extra == 0 then s[1] else Number(s[2..at]);
    if |s| < at + size then None else Some((s[0] % 16, s[at..at + size], s[at + size..]))
  }

  /** Whatever its length, a frame the server writes is read as what was written. */
  lemma ServerFrameReadsBack(op: opcode, data: seq<byte>, rest: seq<byte>)
    requires |data| < Pow256(8)
    ensures ReadServerFrame(ServerFrame(op, data) + rest) == Some((op, data, rest))
  {
    var form := ShortestForm(|data|);
    assert Pow256(2) == 0x1_0000;
    var s := ServerFrame(op, data) + rest;
    assert s == [FirstByte(true, op)] + LengthBytes(form, |data|, 0) + (data + rest);
    LengthReadsBack(FirstByte(true, op), form, |data|, 0, data + rest);
    var at := 2 + form;
    assert s[at..at + |data|] == s[at..][..|data|] == data;
    assert s[at + |data|..] == s[at..][|data|..] == rest;
  }

  /** The server writes a length in the fewest bytes that hold it. */
  lemma ShortestHolds(n: nat, form: nat)
    requires Holds(form, n)
    ensures ShortestForm(n) <= form && Holds(ShortestForm(n), n)
  {
    assert Pow256(2) == 0x1_0000;
    assert Pow256(8) == 0x1_0000 * Pow256(6);
  }

  /** A frame that is not masked is refused, whatever is in it. */
  lemma TakeUnmasked(op: opcode, data: seq<byte>, rest: seq<byte>, have: nat)
    requires |data| < Pow256(8)
    ensures var t := Take(ServerFrame(op, data) + rest, have); t.Refused? && !t.tooBig
  {
    var form := ShortestForm(|data|);
    assert Pow256(2) == 0x1_0000;
    var s := ServerFrame(op, data) + rest;
    assert s == [FirstByte(true, op)] + LengthBytes(form, |data|, 0) + (data + rest);
    LengthReadsBack(FirstByte(true, op), form, |data|, 0, data + rest);
  }
}
