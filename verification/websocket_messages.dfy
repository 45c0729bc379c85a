/** Messages put together from a client's frames (sections 5.4 and 5.5 of RFC 6455). */
module WebSocketMessages {
  import opened Options
  import opened Bytes
  import opened WebSocketFrames

  /** How the payload of a text message becomes bytes; fixed by the subprotocol. */
  type Decoder = seq<byte> -> Option<seq<byte>>

  /** The message being put together, the kind of the last one begun, and whether a close frame came. */
  datatype State = State(msg: seq<byte>, cont: opcode, done: bool)

  const START: State := State([], 0, false)

  const TOO_BIG: Frame := Frame(true, OP_CLOSE, [0x03, 0xF1])

  function Decode(text: Decoder, op: opcode, msg: seq<byte>): Option<seq<byte>> {
    if op == OP_BINARY then Some(msg) else text(msg)
  }

  /** What a frame does: the new state, the bytes it completes, the frames sent back. */
  datatype Effect = Effect(st: State, out: seq<byte>, replies: seq<Frame>, failed: bool)

  function Complete(text: Decoder, fin: bool, st: State): Effect {
    if !fin then Effect(st, [], [], false) else
    match Decode(text, st.cont, st.msg)
    case None => Effect(st.(msg := []), [], [], true)
    case Some(b) => Effect(st.(msg := []), b, [], false)
  }

  /** The status code sent back for a close frame: its own, or 1000. */
  function CloseCode(data: seq<byte>): seq<byte> { if |data| >= 2 then data[..2] else [0x03, 0xE8] }

  function Apply(text: Decoder, st: State, f: Frame): Effect {
    if f.op == OP_PING then Effect(st, [], [Frame(true, OP_PONG, f.payload)], false)
    else if f.op == OP_PONG then Effect(st, [], [], false)
    else if f.op == OP_CLOSE then Effect(st.(done := true), [], [Frame(true, OP_CLOSE, CloseCode(f.payload))], false)
    else if f.op == OP_TEXT || f.op == OP_BINARY then Complete(text, f.fin, st.(cont := f.op, msg := f.payload))
    else if f.op == OP_CONT then Complete(text, f.fin, st.(msg := st.msg + f.payload))
    else Effect(st, [], [], true)
  }

  datatype End = Closed | Failed | Starved

  /** All that comes of a stream: the bytes delivered, the frames sent back, and how it ended. */
  datatype Transcript = Transcript(out: seq<byte>, replies: seq<Frame>, end: End)

  function Then(out: seq<byte>, replies: seq<Frame>, t: Transcript): Transcript {
    Transcript(out + t.out, replies + t.replies, t.end)
  }

  /** What the bytes `s` bring, from state `st`, up to the close frame, an error, or the end of the stream. */
  function Hear(text: Decoder, s: seq<byte>, st: State): Transcript
    decreases |s|
  {
    if st.done then Transcript([], [], Closed) else
    match Take(s, |st.msg|)
    case Short => Transcript([], [], Starved)
    case Refused(tooBig, _) => Transcript([], if tooBig then [TOO_BIG] else [], Failed)
    case Got(f, rest) =>
      var e := Apply(text, st, f);
      if e.failed then Transcript([], e.replies, Failed) else Then(e.out, e.replies, Hear(text, rest, e.st))
  }

  /** The same for frames already taken apart. */
  function HearFrames(text: Decoder, fs: seq<Frame>, st: State): Transcript
    decreases |fs|
  {
    if st.done then Transcript([], [], Closed)
    else if fs == [] then Transcript([], [], Starved)
    else if |st.msg| + |fs[0].payload| > MAX_MESSAGE then Transcript([], [TOO_BIG], Failed)
    else
      var e := Apply(text, st, fs[0]);
      if e.failed then Transcript([], e.replies, Failed) else Then(e.out, e.replies, HearFrames(text, fs[1..], e.st))
  }

  // ---------------------------------------------------------------- from bytes to frames

  predicate AllSendable(ws: seq<Wire>) { forall i | 0 <= i < |ws| :: Sendable(ws[i]) }

  function EncodeAll(ws: seq<Wire>): seq<byte>
    requires AllSendable(ws)
  {
    if ws == [] then [] else Encoded(ws[0]) + EncodeAll(ws[1..])
  }

  function FramesOf(ws: seq<Wire>): (fs: seq<Frame>)
    ensures |fs| == |ws|
  {
    if ws == [] then [] else [ws[0].frame] + FramesOf(ws[1..])
  }

  /** One frame more in front, in bytes and taken apart. */
  lemma FrameInFront(text: Decoder, w: Wire, more: seq<byte>, fs: seq<Frame>, st: State)
    requires Sendable(w) && !st.done && fs != [] && fs[0] == w.frame
    ensures |st.msg| + |w.frame.payload| > MAX_MESSAGE || Apply(text, st, w.frame).failed ==>
              Hear(text, Encoded(w) + more, st) == HearFrames(text, fs, st)
    ensures |st.msg| + |w.frame.payload| <= MAX_MESSAGE && !Apply(text, st, w.frame).failed ==>
              var e := Apply(text, st, w.frame);
              && Hear(text, Encoded(w) + more, st) == Then(e.out, e.replies, Hear(text, more, e.st))
              && HearFrames(text, fs, st) == Then(e.out, e.replies, HearFrames(text, fs[1..], e.st))
  {
    TakeEncoded(w, more, |st.msg|);
  }

  /** Whatever keys and length forms a client uses, its bytes mean its frames; what follows the end is ignored. */
  lemma {:induction false} BytesMeanFrames(text: Decoder, ws: seq<Wire>, junk: seq<byte>, st: State)
    requires AllSendable(ws) && (junk == [] || !HearFrames(text, FramesOf(ws), st).end.Starved?)
    ensures Hear(text, EncodeAll(ws) + junk, st) == HearFrames(text, FramesOf(ws), st)
    decreases |ws|
  {
    if st.done {
    } else if ws == [] {
      assert EncodeAll(ws) + junk == [];
    } else {
      var more := EncodeAll(ws[1..]) + junk;
      assert EncodeAll(ws) + junk == Encoded(ws[0]) + more;
      FrameInFront(text, ws[0], more, FramesOf(ws), st);
      var e := Apply(text, st, ws[0].frame);
      if |st.msg| + |ws[0].frame.payload| <= MAX_MESSAGE && !e.failed {
        assert FramesOf(ws)[1..] == FramesOf(ws[1..]);
        BytesMeanFrames(text, ws[1..], junk, e.st);
      }
    }
  }

  // ---------------------------------------------------------------- well-formed sessions

  /** A piece of a message after its first, with the control frames sent before it. */
  datatype Fragment = Fragment(before: seq<Frame>, data: seq<byte>)

  datatype Message = Message(before: seq<Frame>, op: opcode, head: seq<byte>, tail: seq<Fragment>)

  /** Messages, then control frames, then a close frame. */
  datatype Session = Session(messages: seq<Message>, after: seq<Frame>, bye: seq<byte>)

  predicate Control(f: Frame) { f.fin && (f.op == OP_PING || f.op == OP_PONG) && |f.payload| <= 125 }

  predicate Controls(fs: seq<Frame>) { forall i | 0 <= i < |fs| :: Control(fs[i]) }

  predicate WellFormedTail(tail: seq<Fragment>) { forall i | 0 <= i < |tail| :: Controls(tail[i].before) }

  predicate WellFormed(m: Message) {
    (m.op == OP_TEXT || m.op == OP_BINARY) && Controls(m.before) && WellFormedTail(m.tail)
  }

  predicate WellFormedSession(s: Session) {
    (forall i | 0 <= i < |s.messages| :: WellFormed(s.messages[i])) && Controls(s.after) && |s.bye| <= 125
  }

  function TailFrames(tail: seq<Fragment>): seq<Frame> {
    if tail == [] then []
    else tail[0].before + ([Frame(|tail| == 1, OP_CONT, tail[0].data)] + TailFrames(tail[1..]))
  }

  function MessageFrames(m: Message): seq<Frame> {
    m.before + ([Frame(m.tail == [], m.op, m.head)] + TailFrames(m.tail))
  }

  function AllFrames(ms: seq<Message>): seq<Frame> {
    if ms == [] then [] else MessageFrames(ms[0]) + AllFrames(ms[1..])
  }

  function SessionFrames(s: Session): seq<Frame> {
    AllFrames(s.messages) + (s.after + [Frame(true, OP_CLOSE, s.bye)])
  }

  /** The payload of a message: its pieces one after another. */
  function Joined(have: seq<byte>, tail: seq<Fragment>): seq<byte>
    decreases |tail|
  {
    if tail == [] then have else Joined(have + tail[0].data, tail[1..])
  }

  function Pongs(fs: seq<Frame>): seq<Frame> {
    if fs == [] then []
    else (if fs[0].op == OP_PING then [Frame(true, OP_PONG, fs[0].payload)] else []) + Pongs(fs[1..])
  }

  function TailPongs(tail: seq<Fragment>): seq<Frame> {
    if tail == [] then [] else Pongs(tail[0].before) + TailPongs(tail[1..])
  }

  function AllPongs(ms: seq<Message>): seq<Frame> {
    if ms == [] then [] else Pongs(ms[0].before) + TailPongs(ms[0].tail) + AllPongs(ms[1..])
  }

  predicate Readable(text: Decoder, m: Message) { Decode(text, m.op, Joined(m.head, m.tail)).Some? }

  predicate AllReadable(text: Decoder, ms: seq<Message>) { forall i | 0 <= i < |ms| :: Readable(text, ms[i]) }

  /** The bytes of all messages, in order. */
  function Contents(text: Decoder, ms: seq<Message>): seq<byte>
    requires AllReadable(text, ms)
  {
    if ms == [] then [] else Decode(text, ms[0].op, Joined(ms[0].head, ms[0].tail)).value + Contents(text, ms[1..])
  }

  // ---------------------------------------------------------------- the length limit

  /** Every control frame fits on top of the `have` bytes waiting: the limit is checked for it, too. */
  predicate RoomyControls(have: nat, fs: seq<Frame>) { forall i | 0 <= i < |fs| :: have + |fs[i].payload| <= MAX_MESSAGE }

  predicate RoomyTail(have: nat, tail: seq<Fragment>)
    decreases |tail|
  {
    tail == [] || (RoomyControls(have, tail[0].before) && have + |tail[0].data| <= MAX_MESSAGE
                   && RoomyTail(have + |tail[0].data|, tail[1..]))
  }

  predicate Roomy(m: Message) { |m.head| <= MAX_MESSAGE && RoomyTail(|m.head|, m.tail) }

  predicate AllRoomy(ms: seq<Message>) { forall i | 0 <= i < |ms| :: Roomy(ms[i]) }

  // ---------------------------------------------------------------- from frames to messages

  lemma {:induction false} ControlsHeard(text: Decoder, cs: seq<Frame>, rest: seq<Frame>, st: State)
    requires Controls(cs) && !st.done
    ensures RoomyControls(|st.msg|, cs) ==> HearFrames(text, cs + rest, st) == Then([], Pongs(cs), HearFrames(text, rest, st))
    ensures !RoomyControls(|st.msg|, cs) ==> HearFrames(text, cs + rest, st).end.Failed?
  {
    if cs == [] {
      assert cs + rest == rest;
    } else {
      assert (cs + rest)[0] == cs[0] && (cs + rest)[1..] == cs[1..] + rest;
      ControlsHeard(text, cs[1..], rest, st);
      assert RoomyControls(|st.msg|, cs) <==> |st.msg| + |cs[0].payload| <= MAX_MESSAGE && RoomyControls(|st.msg|, cs[1..]) by {
        RoomyHead(|st.msg|, cs);
      }
      assert HearFrames(text, cs + rest, st).replies == Pongs(cs) + HearFrames(text, rest, st).replies || !RoomyControls(|st.msg|, cs);
    }
  }

  lemma RoomyHead(have: nat, cs: seq<Frame>)
    requires cs != []
    ensures RoomyControls(have, cs) <==> have + |cs[0].payload| <= MAX_MESSAGE && RoomyControls(have, cs[1..])
  {
    if have + |cs[0].payload| <= MAX_MESSAGE && RoomyControls(have, cs[1..]) {
      forall i | 0 <= i < |cs| ensures have + |cs[i].payload| <= MAX_MESSAGE {
        if i > 0 { assert cs[i] == cs[1..][i - 1]; }
      }
    }
  }

  /** One data frame that does not end the message, or that ends it. */
  lemma PieceHeard(text: Decoder, f: Frame, rest: seq<Frame>, st: State, began: State)
    requires !st.done && |st.msg| + |f.payload| <= MAX_MESSAGE && f.op in {OP_CONT, OP_TEXT, OP_BINARY}
    requires began == if f.op == OP_CONT then st.(msg := st.msg + f.payload) else st.(cont := f.op, msg := f.payload)
    ensures !f.fin ==> HearFrames(text, [f] + rest, st) == HearFrames(text, rest, began)
    ensures f.fin && Decode(text, began.cont, began.msg).Some? ==>
              HearFrames(text, [f] + rest, st) == Then(Decode(text, began.cont, began.msg).value, [], HearFrames(text, rest, began.(msg := [])))
  {
    assert ([f] + rest)[0] == f && ([f] + rest)[1..] == rest;
    NothingThen(HearFrames(text, rest, began));
  }

  lemma PieceTooBig(text: Decoder, f: Frame, rest: seq<Frame>, st: State)
    requires !st.done && |st.msg| + |f.payload| > MAX_MESSAGE
    ensures HearFrames(text, [f] + rest, st).end.Failed?
  {
    assert ([f] + rest)[0] == f;
  }

  lemma NothingThen(t: Transcript)
    ensures Then([], [], t) == t
  {}

  lemma ThenThen(a: seq<byte>, b: seq<byte>, r: seq<Frame>, q: seq<Frame>, t: Transcript)
    ensures Then(a, r, Then(b, q, t)) == Then(a + b, r + q, t)
  {}

  /** Marks the frames a proof takes apart. */
  predicate Opens(fs: seq<Frame>, st: State) { true }

  /** `h` is `HearFrames`; opened only where a proof says `Opens`. */
  ghost predicate IsHearing(h: (seq<Frame>, State) -> Transcript, text: Decoder) {
    forall fs: seq<Frame>, st: State {:trigger Opens(fs, st)} :: Opens(fs, st) ==> h(fs, st) == HearFrames(text, fs, st)
  }

  /** Control frames, a piece that does not end its message, and one that does. */
  lemma ControlsPass(h: (seq<Frame>, State) -> Transcript, text: Decoder, cs: seq<Frame>, rest: seq<Frame>, st: State)
    requires IsHearing(h, text) && Controls(cs) && !st.done
    ensures if RoomyControls(|st.msg|, cs) then h(cs + rest, st) == Then([], Pongs(cs), h(rest, st)) else h(cs + rest, st).end.Failed?
  {
    assert Opens(cs + rest, st) && Opens(rest, st);
    ControlsHeard(text, cs, rest, st);
  }

  lemma PieceJoins(h: (seq<Frame>, State) -> Transcript, text: Decoder, f: Frame, rest: seq<Frame>, st: State, began: State)
    requires IsHearing(h, text) && !st.done && !f.fin && f.op in {OP_CONT, OP_TEXT, OP_BINARY}
    requires began == if f.op == OP_CONT then st.(msg := st.msg + f.payload) else st.(cont := f.op, msg := f.payload)
    ensures if |st.msg| + |f.payload| <= MAX_MESSAGE then h([f] + rest, st) == h(rest, began) else h([f] + rest, st).end.Failed?
  {
    assert Opens([f] + rest, st) && Opens(rest, began);
    if |st.msg| + |f.payload| <= MAX_MESSAGE { PieceHeard(text, f, rest, st, began); } else { PieceTooBig(text, f, rest, st); }
  }

  lemma PieceEnds(h: (seq<Frame>, State) -> Transcript, text: Decoder, f: Frame, rest: seq<Frame>, st: State, began: State, b: seq<byte>)
    requires IsHearing(h, text) && !st.done && f.fin && f.op in {OP_CONT, OP_TEXT, OP_BINARY}
    requires began == if f.op == OP_CONT then st.(msg := st.msg + f.payload) else st.(cont := f.op, msg := f.payload)
    requires Decode(text, began.cont, began.msg) == Some(b)
    ensures if |st.msg| + |f.payload| <= MAX_MESSAGE then h([f] + rest, st) == Then(b, [], h(rest, began.(msg := [])))
            else h([f] + rest, st).end.Failed?
  {
    assert Opens([f] + rest, st) && Opens(rest, began.(msg := []));
    if |st.msg| + |f.payload| <= MAX_MESSAGE { PieceHeard(text, f, rest, st, began); } else { PieceTooBig(text, f, rest, st); }
  }

  /** The rest of a message: its bytes come out when its last piece is in, its pings are answered in order. */
  lemma {:induction false} TailHeard(h: (seq<Frame>, State) -> Transcript, text: Decoder, tail: seq<Fragment>, rest: seq<Frame>, st: State, b: seq<byte>)
    requires IsHearing(h, text)
    requires tail != [] && WellFormedTail(tail) && !st.done && Decode(text, st.cont, Joined(st.msg, tail)) == Some(b)
    ensures if RoomyTail(|st.msg|, tail)
            then h(TailFrames(tail) + rest, st) == Then(b, TailPongs(tail), h(rest, st.(msg := [])))
            else h(TailFrames(tail) + rest, st).end.Failed?
    decreases |tail|
  {
    var t, more := tail[0], tail[1..];
    var f := Frame(|tail| == 1, OP_CONT, t.data);
    var next := TailFrames(more) + rest;
    var grown := st.(msg := st.msg + t.data);
    assert TailFrames(tail) + rest == t.before + ([f] + next);
    ControlsPass(h, text, t.before, [f] + next, st);
    var end := h(rest, st.(msg := []));
    assert grown.(msg := []) == st.(msg := []);
    assert RoomyTail(|st.msg|, tail) <==>
      RoomyControls(|st.msg|, t.before) && |st.msg| + |t.data| <= MAX_MESSAGE && RoomyTail(|grown.msg|, more);
    if more == [] {
      assert next == rest && TailPongs(more) == [];
      PieceEnds(h, text, f, next, st, grown, b);
    } else {
      PieceJoins(h, text, f, next, st, grown);
      TailHeard(h, text, more, rest, grown, b);
    }
    ThenThen([], b, Pongs(t.before), TailPongs(more), end);
    assert TailPongs(tail) == Pongs(t.before) + TailPongs(more) && [] + b == b;
  }

  /** A whole message. */
  lemma MessageHeard(h: (seq<Frame>, State) -> Transcript, text: Decoder, m: Message, rest: seq<Frame>, st: State)
    requires IsHearing(h, text) && WellFormed(m) && !st.done && st.msg == [] && Readable(text, m)
    ensures var t := h(MessageFrames(m) + rest, st);
            if Roomy(m)
            then t == Then(Decode(text, m.op, Joined(m.head, m.tail)).value, Pongs(m.before) + TailPongs(m.tail), h(rest, State([], m.op, false)))
            else t.end.Failed?
  {
    var f := Frame(m.tail == [], m.op, m.head);
    var next := TailFrames(m.tail) + rest;
    var b := Decode(text, m.op, Joined(m.head, m.tail)).value;
    var begun := State(m.head, m.op, false);
    assert MessageFrames(m) + rest == m.before + ([f] + next);
    ControlsPass(h, text, m.before, [f] + next, st);
    if m.tail == [] {
      assert next == rest && TailPongs(m.tail) == [];
      PieceEnds(h, text, f, next, st, begun, b);
    } else {
      PieceJoins(h, text, f, next, st, begun);
      TailHeard(h, text, m.tail, rest, begun, b);
    }
    ThenThen([], b, Pongs(m.before), TailPongs(m.tail), h(rest, State([], m.op, false)));
    assert [] + b == b;
  }

  lemma {:induction false} MessagesHeard(h: (seq<Frame>, State) -> Transcript, text: Decoder, ms: seq<Message>, rest: seq<Frame>, st: State)
    returns (cont: opcode)
    requires IsHearing(h, text)
    requires (forall i | 0 <= i < |ms| :: WellFormed(ms[i])) && AllReadable(text, ms) && !st.done && st.msg == []
    ensures var t := h(AllFrames(ms) + rest, st);
            if AllRoomy(ms) then t == Then(Contents(text, ms), AllPongs(ms), h(rest, State([], cont, false))) else t.end.Failed?
    decreases |ms|
  {
    cont := st.cont;
    if ms == [] {
      assert AllFrames(ms) + rest == rest;
      NothingThen(h(rest, st));
    } else {
      var m, more := ms[0], ms[1..];
      var next := AllFrames(more) + rest;
      assert AllFrames(ms) + rest == MessageFrames(m) + next;
      MessageHeard(h, text, m, next, st);
      cont := MessagesHeard(h, text, more, rest, State([], m.op, false));
      RoomyFirst(ms);
      ThenThen(Decode(text, m.op, Joined(m.head, m.tail)).value, Contents(text, more), Pongs(m.before) + TailPongs(m.tail), AllPongs(more),
               h(rest, State([], cont, false)));
    }
  }

  lemma RoomyFirst(ms: seq<Message>)
    requires ms != []
    ensures AllRoomy(ms) <==> Roomy(ms[0]) && AllRoomy(ms[1..])
  {
    if Roomy(ms[0]) && AllRoomy(ms[1..]) {
      forall i | 0 <= i < |ms| ensures Roomy(ms[i]) {
        if i > 0 { assert ms[i] == ms[1..][i - 1]; }
      }
    }
  }

  /** Every well-formed session, in whatever frames, keys and length forms it is sent, delivers exactly the bytes of
      its messages and answers its pings and its close in order: if and only if no frame in the middle of a message
      (a control frame included) exceeds the limit together with the pieces before it. */
  lemma SessionsAreDelivered(text: Decoder, s: Session, ws: seq<Wire>, junk: seq<byte>)
    requires WellFormedSession(s) && AllReadable(text, s.messages) && AllSendable(ws) && FramesOf(ws) == SessionFrames(s)
    ensures var t := Hear(text, EncodeAll(ws) + junk, START);
            if AllRoomy(s.messages)
            then t == Transcript(Contents(text, s.messages),
                                 AllPongs(s.messages) + (Pongs(s.after) + [Frame(true, OP_CLOSE, CloseCode(s.bye))]), Closed)
            else t.end == Failed
  {
    var bye := Frame(true, OP_CLOSE, s.bye);
    var h := (fs: seq<Frame>, st: State) => HearFrames(text, fs, st);
    assert IsHearing(h, text) by {
      forall fs: seq<Frame>, st: State | Opens(fs, st) ensures h(fs, st) == HearFrames(text, fs, st) {}
    }
    var cont := MessagesHeard(h, text, s.messages, s.after + [bye], START);
    ControlsPass(h, text, s.after, [bye], State([], cont, false));
    ByeHeard(text, s.bye, State([], cont, false));
    assert Opens([bye], State([], cont, false)) && Opens(SessionFrames(s), START);
    BytesMeanFrames(text, ws, junk, START);
  }

  lemma ByeHeard(text: Decoder, data: seq<byte>, st: State)
    requires !st.done && st.msg == [] && |data| <= 125
    ensures HearFrames(text, [Frame(true, OP_CLOSE, data)], st) == Transcript([], [Frame(true, OP_CLOSE, CloseCode(data))], Closed)
  {}

  /** The payloads of all messages, each taken as `read` takes it. */
  function Payloads(read: Decoder, ms: seq<Message>): seq<byte>
    requires forall i | 0 <= i < |ms| :: read(Joined(ms[i].head, ms[i].tail)).Some?
  {
    if ms == [] then [] else read(Joined(ms[0].head, ms[0].tail)).value + Payloads(read, ms[1..])
  }

  /** Messages all of one kind, text or binary. */
  predicate AllOfKind(op: opcode, ms: seq<Message>) { forall i | 0 <= i < |ms| :: ms[i].op == op }

  /** How a kind of message is read: text by the subprotocol, binary as it is. */
  ghost predicate ReadsKind(read: Decoder, text: Decoder, op: opcode) {
    || (op == OP_TEXT && forall b: seq<byte> :: read(b) == text(b))
    || (op == OP_BINARY && forall b: seq<byte> :: read(b) == Some(b))
  }

  lemma {:induction false} OneKind(text: Decoder, read: Decoder, op: opcode, ms: seq<Message>)
    requires ReadsKind(read, text, op) && AllOfKind(op, ms)
    requires forall i | 0 <= i < |ms| :: read(Joined(ms[i].head, ms[i].tail)).Some?
    ensures AllReadable(text, ms) && Contents(text, ms) == Payloads(read, ms)
  {
    forall i | 0 <= i < |ms| ensures Readable(text, ms[i]) {}
    if ms != [] { OneKind(text, read, op, ms[1..]); }
  }

  /** What comes of a session of text messages alone are their payloads as the subprotocol reads them; of binary messages
      alone, the payloads byte for byte. The last frame sent back is a close with the client's first two bytes, or 1000. */
  lemma KindsAreDelivered(text: Decoder, read: Decoder, op: opcode, s: Session, ws: seq<Wire>, junk: seq<byte>)
    requires WellFormedSession(s) && AllRoomy(s.messages) && AllSendable(ws) && FramesOf(ws) == SessionFrames(s)
    requires ReadsKind(read, text, op) && AllOfKind(op, s.messages)
    requires forall i | 0 <= i < |s.messages| :: read(Joined(s.messages[i].head, s.messages[i].tail)).Some?
    ensures var t := Hear(text, EncodeAll(ws) + junk, START);
            && t.out == Payloads(read, s.messages) && t.end == Closed && |t.replies| > 0
            && t.replies[|t.replies| - 1] == Frame(true, OP_CLOSE, if |s.bye| < 2 then [1000 / 256, 1000 % 256] else [s.bye[0], s.bye[1]])
  {
    OneKind(text, read, op, s.messages);
    SessionsAreDelivered(text, s, ws, junk);
    LastReply(AllPongs(s.messages), Pongs(s.after), s.bye);
  }

  lemma LastReply(a: seq<Frame>, b: seq<Frame>, bye: seq<byte>)
    ensures var r := a + (b + [Frame(true, OP_CLOSE, CloseCode(bye))]);
            |r| > 0 && r[|r| - 1] == Frame(true, OP_CLOSE, if |bye| < 2 then [1000 / 256, 1000 % 256] else [bye[0], bye[1]])
  {
    if |bye| >= 2 { assert bye[..2] == [bye[0], bye[1]]; }
  }

  /** Messages that leave room for one control frame are always delivered. */
  lemma {:induction false} ShortMessagesAreRoomy(have: seq<byte>, tail: seq<Fragment>)
    requires WellFormedTail(tail) && |Joined(have, tail)| + 125 <= MAX_MESSAGE
    ensures RoomyTail(|have|, tail) && |have| <= |Joined(have, tail)|
    decreases |tail|
  {
    if tail != [] { ShortMessagesAreRoomy(have + tail[0].data, tail[1..]); }
  }

  /** A message of just the permitted length is refused if a ping comes between its pieces. */
  lemma FullMessageWithPing(head: seq<byte>)
    requires |head| == MAX_MESSAGE
    ensures var ping := Frame(true, OP_PING, [0]);
            var m := Message([], OP_BINARY, head, [Fragment([ping], [])]);
            WellFormed(m) && |Joined(m.head, m.tail)| == MAX_MESSAGE && !Roomy(m)
  {
    var ping := Frame(true, OP_PING, [0]);
    assert Joined(head, [Fragment([ping], [])]) == Joined(head + [], []) == head;
    assert !RoomyControls(|head|, [ping]) by { assert [ping][0] == ping; }
  }

  /** And the connection then fails, however the frames of that session are encoded. */
  lemma FullMessageIsRefused(text: Decoder, head: seq<byte>, bye: seq<byte>, ws: seq<Wire>, junk: seq<byte>)
    requires |head| == MAX_MESSAGE && |bye| <= 125 && AllSendable(ws)
    requires FramesOf(ws) == SessionFrames(Session([Message([], OP_BINARY, head, [Fragment([Frame(true, OP_PING, [0])], [])])], [], bye))
    ensures Hear(text, EncodeAll(ws) + junk, START).end == Failed
  {
    var m := Message([], OP_BINARY, head, [Fragment([Frame(true, OP_PING, [0])], [])]);
    FullMessageWithPing(head);
    var s := Session([m], [], bye);
    assert s.messages[0] == m;
    SessionsAreDelivered(text, s, ws, junk);
  }

  /** A frame longer than a message may be is answered with a close that says so, 1009, and ends the connection. */
  lemma LongFrameIsAnswered(text: Decoder, w: Wire, more: seq<byte>, st: State)
    requires Sendable(w) && !st.done && |st.msg| + |w.frame.payload| > MAX_MESSAGE
    ensures Hear(text, Encoded(w) + more, st) == Transcript([], [Frame(true, OP_CLOSE, [1009 / 256, 1009 % 256])], Failed)
  {
    TakeEncoded(w, more, |st.msg|);
  }

  /** A frame the client did not mask ends the connection without an answer. */
  lemma UnmaskedEndsIt(text: Decoder, op: opcode, data: seq<byte>, more: seq<byte>, st: State)
    requires |data| < Pow256(8) && !st.done
    ensures Hear(text, ServerFrame(op, data) + more, st) == Transcript([], [], Failed)
  {
    TakeUnmasked(op, data, more, |st.msg|);
  }

  /** So does a frame of a kind that is not one of the six. */
  lemma UnknownKindEndsIt(text: Decoder, w: Wire, more: seq<byte>, st: State)
    requires Sendable(w) && !st.done && |st.msg| + |w.frame.payload| <= MAX_MESSAGE
    requires w.frame.op != 0 && w.frame.op != 1 && w.frame.op != 2 && w.frame.op != 8 && w.frame.op != 9 && w.frame.op != 10
    ensures Hear(text, Encoded(w) + more, st) == Transcript([], [], Failed)
  {
    TakeEncoded(w, more, |st.msg|);
  }
}
