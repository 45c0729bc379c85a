/** Option negotiation: what is answered, and why it cannot loop. */
module TelnetNegotiation {
  import opened Options
  import opened Bytes
  import opened TelnetDecode

  type Cmd = (byte, byte)

  /** The options we last said WILL, DO, WONT and DONT for. */
  datatype Neg = Neg(will: set<byte>, do: set<byte>, wont: set<byte>, dont: set<byte>)

  predicate Accepts(opt: byte) { opt == 0 || opt == 1 || opt == 3 }

  function SendWill(n: Neg, opt: byte): (seq<Cmd>, Neg) {
    if opt in n.will then ([], n) else ([(WILL, opt)], n.(will := n.will + {opt}, wont := n.wont - {opt}))
  }

  function SendDo(n: Neg, opt: byte): (seq<Cmd>, Neg) {
    if opt in n.do then ([], n) else ([(DO, opt)], n.(do := n.do + {opt}, dont := n.dont - {opt}))
  }

  function SendWont(n: Neg, opt: byte): (seq<Cmd>, Neg) {
    if opt in n.wont then ([], n) else ([(WONT, opt)], n.(wont := n.wont + {opt}, will := n.will - {opt}))
  }

  function SendDont(n: Neg, opt: byte): (seq<Cmd>, Neg) {
    if opt in n.dont then ([], n) else ([(DONT, opt)], n.(dont := n.dont + {opt}, do := n.do - {opt}))
  }

  /** The answer to one received command. */
  function React(n: Neg, c: Cmd): (seq<Cmd>, Neg) {
    if c.0 == WILL then (if Accepts(c.1) then SendDo(n, c.1) else SendDont(n, c.1))
    else if c.0 == DO then (if Accepts(c.1) then SendWill(n, c.1) else SendWont(n, c.1))
    else if c.0 == WONT then SendDont(n, c.1)
    else if c.0 == DONT then SendWont(n, c.1)
    else ([], n)
  }

  const OFFER: seq<Cmd> := [(WILL, 3), (WILL, 1), (WILL, 0), (DO, 0)]
  const OFFERED: Neg := Neg({3, 1, 0}, {0}, {}, {})

  /** Everything sent, opening offer included, and the state, after hearing `heard`. */
  function Converse(heard: seq<Cmd>): (seq<Cmd>, Neg) {
    if heard == [] then (OFFER, OFFERED) else
    var (sent, n) := Converse(heard[..|heard| - 1]);
    var (more, n') := React(n, heard[|heard| - 1]);
    (sent + more, n')
  }

  // ---------------------------------------------------------------- alternation

  /** The last of the two commands `yes` and `no` sent for an option. */
  function LastSaid(sent: seq<Cmd>, opt: byte, yes: byte, no: byte): Option<byte> {
    if sent == [] then None else
    var c := sent[|sent| - 1];
    if c.1 == opt && (c.0 == yes || c.0 == no) then Some(c.0) else LastSaid(sent[..|sent| - 1], opt, yes, no)
  }

  predicate Mine(c: Cmd, opt: byte, yes: byte, no: byte) {
    c.1 == opt && (c.0 == yes || c.0 == no)
  }

  function Opposite(c: Cmd, yes: byte, no: byte): Cmd { (if c.0 == yes then no else yes, c.1) }

  ghost predicate Between(sent: seq<Cmd>, i: nat, j: nat, c: Cmd)
    requires j <= |sent|
  {
    exists k :: i < k < j && sent[k] == c
  }

  /** Between two equal commands for an option lies its opposite. */
  ghost predicate Alternate(sent: seq<Cmd>, opt: byte, yes: byte, no: byte) {
    forall i: nat, j: nat {:trigger sent[i], sent[j]} | i < j < |sent| && sent[i] == sent[j] && Mine(sent[i], opt, yes, no) ::
      Between(sent, i, j, Opposite(sent[i], yes, no))
  }

  /** The two sets know what was said last. */
  predicate Remembers(sent: seq<Cmd>, opt: byte, yes: byte, no: byte, said: set<byte>, refused: set<byte>) {
    && !(opt in said && opt in refused)
    && LastSaid(sent, opt, yes, no) == (if opt in said then Some(yes) else if opt in refused then Some(no) else None)
  }

  /** Nothing for the option follows its last command. */
  lemma {:induction false} LastIsLast(sent: seq<Cmd>, opt: byte, yes: byte, no: byte, i: nat)
    requires i < |sent| && Mine(sent[i], opt, yes, no)
    requires LastSaid(sent, opt, yes, no) != Some(sent[i].0)
    ensures Between(sent, i, |sent|, Opposite(sent[i], yes, no))
    decreases |sent|
  {
    var last := |sent| - 1;
    if Mine(sent[last], opt, yes, no) {
      assert sent[last] == Opposite(sent[i], yes, no);
    } else {
      var shorter := sent[..last];
      LastIsLast(shorter, opt, yes, no, i);
      var k :| i < k < last && shorter[k] == Opposite(sent[i], yes, no);
      assert sent[k] == shorter[k];
    }
  }

  /** Sending what was not said last keeps the alternation. */
  lemma AppendAlternates(sent: seq<Cmd>, opt: byte, yes: byte, no: byte, c: Cmd)
    requires yes != no && Alternate(sent, opt, yes, no)
    requires Mine(c, opt, yes, no) ==> LastSaid(sent, opt, yes, no) != Some(c.0)
    ensures Alternate(sent + [c], opt, yes, no)
  {
    var longer := sent + [c];
    forall i: nat, j: nat | i < j < |longer| && longer[i] == longer[j] && Mine(longer[i], opt, yes, no)
      ensures Between(longer, i, j, Opposite(longer[i], yes, no))
    {
      assert sent[i] == longer[i];
      if j < |sent| {
        assert sent[j] == longer[j];
      } else {
        LastIsLast(sent, opt, yes, no, i);
      }
      var k :| i < k < j && sent[k] == Opposite(sent[i], yes, no);
      assert longer[k] == sent[k];
    }
  }

  /** A pair of commands is remembered and alternates. */
  ghost predicate Tracked(sent: seq<Cmd>, opt: byte, yes: byte, no: byte, said: set<byte>, refused: set<byte>) {
    Remembers(sent, opt, yes, no, said, refused) && Alternate(sent, opt, yes, no)
  }

  lemma TrackOther(sent: seq<Cmd>, opt: byte, yes: byte, no: byte, said: set<byte>, refused: set<byte>, c: Cmd)
    requires yes != no && Tracked(sent, opt, yes, no, said, refused) && !Mine(c, opt, yes, no)
    ensures Tracked(sent + [c], opt, yes, no, said, refused)
  {
    assert (sent + [c])[..|sent|] == sent;
    AppendAlternates(sent, opt, yes, no, c);
  }

  lemma TrackYes(sent: seq<Cmd>, opt: byte, yes: byte, no: byte, said: set<byte>, refused: set<byte>)
    requires yes != no && Tracked(sent, opt, yes, no, said, refused) && opt !in said
    ensures Tracked(sent + [(yes, opt)], opt, yes, no, said + {opt}, refused - {opt})
  {
    AppendAlternates(sent, opt, yes, no, (yes, opt));
  }

  lemma TrackNo(sent: seq<Cmd>, opt: byte, yes: byte, no: byte, said: set<byte>, refused: set<byte>)
    requires yes != no && Tracked(sent, opt, yes, no, said, refused) && opt !in refused
    ensures Tracked(sent + [(no, opt)], opt, yes, no, said - {opt}, refused + {opt})
  {
    AppendAlternates(sent, opt, yes, no, (no, opt));
  }

  ghost predicate BothTracked(sent: seq<Cmd>, n: Neg, opt: byte) {
    Tracked(sent, opt, WILL, WONT, n.will, n.wont) && Tracked(sent, opt, DO, DONT, n.do, n.dont)
  }

  lemma WillKeepsTrack(sent: seq<Cmd>, n: Neg, o: byte, opt: byte)
    requires BothTracked(sent, n, opt)
    ensures BothTracked(sent + SendWill(n, o).0, SendWill(n, o).1, opt)
  {
    if o in n.will {
      assert sent + [] == sent;
    } else {
      TrackOther(sent, opt, DO, DONT, n.do, n.dont, (WILL, o));
      if o == opt {
        TrackYes(sent, opt, WILL, WONT, n.will, n.wont);
      } else {
        TrackOther(sent, opt, WILL, WONT, n.will, n.wont, (WILL, o));
      }
    }
  }

  lemma DoKeepsTrack(sent: seq<Cmd>, n: Neg, o: byte, opt: byte)
    requires BothTracked(sent, n, opt)
    ensures BothTracked(sent + SendDo(n, o).0, SendDo(n, o).1, opt)
  {
    if o in n.do {
      assert sent + [] == sent;
    } else {
      TrackOther(sent, opt, WILL, WONT, n.will, n.wont, (DO, o));
      if o == opt {
        TrackYes(sent, opt, DO, DONT, n.do, n.dont);
      } else {
        TrackOther(sent, opt, DO, DONT, n.do, n.dont, (DO, o));
      }
    }
  }

  lemma WontKeepsTrack(sent: seq<Cmd>, n: Neg, o: byte, opt: byte)
    requires BothTracked(sent, n, opt)
    ensures BothTracked(sent + SendWont(n, o).0, SendWont(n, o).1, opt)
  {
    if o in n.wont {
      assert sent + [] == sent;
    } else {
      TrackOther(sent, opt, DO, DONT, n.do, n.dont, (WONT, o));
      if o == opt {
        TrackNo(sent, opt, WILL, WONT, n.will, n.wont);
      } else {
        TrackOther(sent, opt, WILL, WONT, n.will, n.wont, (WONT, o));
      }
    }
  }

  lemma DontKeepsTrack(sent: seq<Cmd>, n: Neg, o: byte, opt: byte)
    requires BothTracked(sent, n, opt)
    ensures BothTracked(sent + SendDont(n, o).0, SendDont(n, o).1, opt)
  {
    if o in n.dont {
      assert sent + [] == sent;
    } else {
      TrackOther(sent, opt, WILL, WONT, n.will, n.wont, (DONT, o));
      if o == opt {
        TrackNo(sent, opt, DO, DONT, n.do, n.dont);
      } else {
        TrackOther(sent, opt, DO, DONT, n.do, n.dont, (DONT, o));
      }
    }
  }

  lemma ReactKeepsTrack(sent: seq<Cmd>, n: Neg, c: Cmd, opt: byte)
    requires BothTracked(sent, n, opt)
    ensures BothTracked(sent + React(n, c).0, React(n, c).1, opt)
  {
    if c.0 == WILL && Accepts(c.1) { DoKeepsTrack(sent, n, c.1, opt); }
    else if c.0 == DO && Accepts(c.1) { WillKeepsTrack(sent, n, c.1, opt); }
    else if c.0 == WILL || c.0 == WONT { DontKeepsTrack(sent, n, c.1, opt); }
    else if c.0 == DO || c.0 == DONT { WontKeepsTrack(sent, n, c.1, opt); }
    else { assert sent + [] == sent; }
  }

  lemma {:induction false} ConversationRemembers(heard: seq<Cmd>, opt: byte)
    ensures BothTracked(Converse(heard).0, Converse(heard).1, opt)
  {
    if heard == [] {
      var none := Neg({}, {}, {}, {});
      OfferSteps();
      WillKeepsTrack([], none, 3, opt);
      WillKeepsTrack([(WILL, 3)], Neg({3}, {}, {}, {}), 1, opt);
      WillKeepsTrack([(WILL, 3), (WILL, 1)], Neg({3, 1}, {}, {}, {}), 0, opt);
      DoKeepsTrack([(WILL, 3), (WILL, 1), (WILL, 0)], Neg({3, 1, 0}, {}, {}, {}), 0, opt);
    } else {
      ConversationRemembers(heard[..|heard| - 1], opt);
      var (sent, n) := Converse(heard[..|heard| - 1]);
      ReactKeepsTrack(sent, n, heard[|heard| - 1], opt);
    }
  }

  /** The opening offer is WILL 3, WILL 1, WILL 0 and DO 0 sent from nothing. */
  lemma OfferSteps()
    ensures SendWill(Neg({}, {}, {}, {}), 3) == ([(WILL, 3)], Neg({3}, {}, {}, {})) && [] + [(WILL, 3)] == [(WILL, 3)]
    ensures SendWill(Neg({3}, {}, {}, {}), 1) == ([(WILL, 1)], Neg({3, 1}, {}, {}, {})) && [(WILL, 3)] + [(WILL, 1)] == [(WILL, 3), (WILL, 1)]
    ensures SendWill(Neg({3, 1}, {}, {}, {}), 0) == ([(WILL, 0)], Neg({3, 1, 0}, {}, {}, {}))
    ensures [(WILL, 3), (WILL, 1)] + [(WILL, 0)] == [(WILL, 3), (WILL, 1), (WILL, 0)]
    ensures SendDo(Neg({3, 1, 0}, {}, {}, {}), 0) == ([(DO, 0)], OFFERED) && [(WILL, 3), (WILL, 1), (WILL, 0)] + [(DO, 0)] == OFFER
  {
    var none: set<byte> := {};
    assert none + {3} == {3} && {3} + {1} == {3, 1} && {3, 1} + {0} == {3, 1, 0} && none + {0} == {0};
    assert none - {3} == none && none - {1} == none && none - {0} == none;
  }

  /** Whatever is heard, WILL and WONT for an option strictly alternate in what is sent, and so do DO and DONT. */
  lemma RepliesAlternate(heard: seq<Cmd>, opt: byte)
    ensures Alternate(Converse(heard).0, opt, WILL, WONT) && Alternate(Converse(heard).0, opt, DO, DONT)
  {
    ConversationRemembers(heard, opt);
  }

  // ---------------------------------------------------------------- every request is answered

  /** What should have been said last of an option: the answer to the last command heard of it, or the opening offer. */
  function Demanded(heard: seq<Cmd>, opt: byte, asks: byte, refuses: byte, yes: byte, no: byte): Option<byte> {
    match LastSaid(heard, opt, asks, refuses)
    case None => LastSaid(OFFER, opt, yes, no)
    case Some(c) => Some(if c == asks && (opt == 0 || opt == 1 || opt == 3) then yes else no)
  }

  /** One more command heard changes what is demanded of its own option only, and of one of the two pairs. */
  lemma DemandedNext(heard: seq<Cmd>, c: Cmd, opt: byte, asks: byte, refuses: byte, yes: byte, no: byte)
    ensures Demanded(heard + [c], opt, asks, refuses, yes, no) ==
            if !Mine(c, opt, asks, refuses) then Demanded(heard, opt, asks, refuses, yes, no)
            else Some(if c.0 == asks && (opt == 0 || opt == 1 || opt == 3) then yes else no)
  {
    assert (heard + [c])[..|heard|] == heard;
  }

  /** What the flags remember of an option. */
  function Flagged(opt: byte, yes: byte, no: byte, said: set<byte>, refused: set<byte>): Option<byte> {
    if opt in said then Some(yes) else if opt in refused then Some(no) else None
  }

  lemma ReactFlags(n: Neg, c: Cmd, opt: byte)
    requires !(opt in n.do && opt in n.dont) && !(opt in n.will && opt in n.wont)
    ensures var n' := React(n, c).1;
            && Flagged(opt, DO, DONT, n'.do, n'.dont) == (if !Mine(c, opt, WILL, WONT) then Flagged(opt, DO, DONT, n.do, n.dont)
                                                         else Some(if c.0 == WILL && (opt == 0 || opt == 1 || opt == 3) then DO else DONT))
            && Flagged(opt, WILL, WONT, n'.will, n'.wont) == (if !Mine(c, opt, DO, DONT) then Flagged(opt, WILL, WONT, n.will, n.wont)
                                                             else Some(if c.0 == DO && (opt == 0 || opt == 1 || opt == 3) then WILL else WONT))
  {}

  lemma {:induction false} FlagsAreDemanded(heard: seq<Cmd>, opt: byte)
    ensures var n := Converse(heard).1;
            && Flagged(opt, DO, DONT, n.do, n.dont) == Demanded(heard, opt, WILL, WONT, DO, DONT)
            && Flagged(opt, WILL, WONT, n.will, n.wont) == Demanded(heard, opt, DO, DONT, WILL, WONT)
  {
    ConversationRemembers(heard, opt);
    if heard == [] {
      assert Converse(heard) == (OFFER, OFFERED);
    } else {
      var front, c := heard[..|heard| - 1], heard[|heard| - 1];
      assert heard == front + [c];
      FlagsAreDemanded(front, opt);
      ConversationRemembers(front, opt);
      ReactFlags(Converse(front).1, c, opt);
      DemandedNext(front, c, opt, WILL, WONT, DO, DONT);
      DemandedNext(front, c, opt, DO, DONT, WILL, WONT);
    }
  }

  /** After any conversation, what was said last of DO and DONT for an option is what the last WILL or WONT heard for it
      demands: DO for a WILL of option 0, 1 or 3, DONT for any other. If none was heard it is the opening offer. The same
      holds of WILL and WONT, from DO and DONT. */
  lemma EveryRequestIsAnswered(heard: seq<Cmd>, opt: byte)
    ensures LastSaid(Converse(heard).0, opt, DO, DONT) == Demanded(heard, opt, WILL, WONT, DO, DONT)
    ensures LastSaid(Converse(heard).0, opt, WILL, WONT) == Demanded(heard, opt, DO, DONT, WILL, WONT)
  {
    ConversationRemembers(heard, opt);
    FlagsAreDemanded(heard, opt);
  }

  // ---------------------------------------------------------------- only three options are taken up

  lemma {:induction false} OnlyThreeOptions(heard: seq<Cmd>)
    ensures forall c | c in Converse(heard).0 && (c.0 == WILL || c.0 == DO) :: Accepts(c.1)
  {
    if heard != [] {
      OnlyThreeOptions(heard[..|heard| - 1]);
    }
  }

  // ---------------------------------------------------------------- how much can be drawn

  /** The options below `k`. */
  function Below(k: nat): (s: set<byte>)
    requires k <= 256
    ensures |s| == k && forall o: byte :: o in s <==> o < k
  {
    if k == 0 then {} else Below(k - 1) + {k - 1}
  }

  lemma AtMostAllOptions(s: set<byte>, t: set<byte>)
    requires s !! t
    ensures |s| + |t| <= 256
  {
    Subset(s + t, Below(256));
  }

  lemma {:induction false} Subset(s: set<byte>, t: set<byte>)
    requires s <= t
    ensures |s| <= |t|
  {
    if s != {} {
      var x :| x in s;
      Subset(s - {x}, t - {x});
    }
  }

  predicate NeverRefuses(heard: seq<Cmd>) {
    forall c | c in heard :: c.0 != WONT && c.0 != DONT
  }

  /** Every command sent so far put its option into one of the four sets, for good. */
  predicate Counted(sent: seq<Cmd>, n: Neg) {
    && |sent| == |n.will| + |n.do| + |n.wont| + |n.dont|
    && (forall o | o in n.will || o in n.do :: Accepts(o)) && (forall o | o in n.wont || o in n.dont :: !Accepts(o))
  }

  lemma OneMore(s: set<byte>, o: byte)
    requires o !in s
    ensures |s + {o}| == |s| + 1
  {}

  /** Putting an option into one set takes none out of a set it was never in. */
  lemma DoIsCounted(sent: seq<Cmd>, n: Neg, o: byte)
    requires Counted(sent, n) && Accepts(o)
    ensures Counted(sent + SendDo(n, o).0, SendDo(n, o).1)
  {
    if o in n.do { assert sent + [] == sent; } else { OneMore(n.do, o); }
    assert n.dont - {o} == n.dont;
  }

  lemma WillIsCounted(sent: seq<Cmd>, n: Neg, o: byte)
    requires Counted(sent, n) && Accepts(o)
    ensures Counted(sent + SendWill(n, o).0, SendWill(n, o).1)
  {
    if o in n.will { assert sent + [] == sent; } else { OneMore(n.will, o); }
    assert n.wont - {o} == n.wont;
  }

  lemma DontIsCounted(sent: seq<Cmd>, n: Neg, o: byte)
    requires Counted(sent, n) && !Accepts(o)
    ensures Counted(sent + SendDont(n, o).0, SendDont(n, o).1)
  {
    if o in n.dont { assert sent + [] == sent; } else { OneMore(n.dont, o); }
    assert n.do - {o} == n.do;
  }

  lemma WontIsCounted(sent: seq<Cmd>, n: Neg, o: byte)
    requires Counted(sent, n) && !Accepts(o)
    ensures Counted(sent + SendWont(n, o).0, SendWont(n, o).1)
  {
    if o in n.wont { assert sent + [] == sent; } else { OneMore(n.wont, o); }
    assert n.will - {o} == n.will;
  }

  lemma ReactIsCounted(sent: seq<Cmd>, n: Neg, c: Cmd)
    requires Counted(sent, n) && c.0 != WONT && c.0 != DONT
    ensures Counted(sent + React(n, c).0, React(n, c).1)
  {
    if c.0 != WILL && c.0 != DO {
      assert sent + [] == sent;
    } else if Accepts(c.1) {
      if c.0 == WILL { DoIsCounted(sent, n, c.1); } else { WillIsCounted(sent, n, c.1); }
    } else {
      if c.0 == WILL { DontIsCounted(sent, n, c.1); } else { WontIsCounted(sent, n, c.1); }
    }
  }

  lemma {:induction false} FriendlyPeer(heard: seq<Cmd>)
    requires NeverRefuses(heard)
    ensures Counted(Converse(heard).0, Converse(heard).1)
  {
    if heard != [] {
      var last := |heard| - 1;
      assert heard[last] in heard;
      forall c | c in heard[..last] ensures c in heard {}
      FriendlyPeer(heard[..last]);
      ReactIsCounted(Converse(heard[..last]).0, Converse(heard[..last]).1, heard[last]);
    }
  }

  /** A peer that never says WONT or DONT draws at most 512 commands, however long it talks. */
  lemma AtMost512(heard: seq<Cmd>)
    requires NeverRefuses(heard)
    ensures |Converse(heard).0| <= 512
  {
    FriendlyPeer(heard);
    var n := Converse(heard).1;
    AtMostAllOptions(n.will, n.wont);
    AtMostAllOptions(n.do, n.dont);
  }

  /** `n` times WONT 0, WILL 0. */
  function Flapping(n: nat): seq<Cmd> {
    if n == 0 then [] else Flapping(n - 1) + [(WONT, 0), (WILL, 0)]
  }

  lemma ConverseOneMore(heard: seq<Cmd>, c: Cmd)
    ensures var (sent, n) := Converse(heard);
            Converse(heard + [c]) == (sent + React(n, c).0, React(n, c).1)
  {
    assert (heard + [c])[..|heard|] == heard;
  }

  /** The proviso is needed: a peer that keeps changing its mind is answered every time. */
  lemma {:induction false} FlappingIsAnswered(n: nat)
    ensures |Converse(Flapping(n)).0| == 4 + 2 * n && Converse(Flapping(n)).1 == OFFERED
  {
    if n > 0 {
      FlappingIsAnswered(n - 1);
      ConverseOneMore(Flapping(n - 1), (WONT, 0));
      ConverseOneMore(Flapping(n - 1) + [(WONT, 0)], (WILL, 0));
      assert Flapping(n) == Flapping(n - 1) + [(WONT, 0)] + [(WILL, 0)];
      var n1 := React(OFFERED, (WONT, 0)).1;
      assert n1 == Neg({3, 1, 0}, {}, {}, {0});
      assert React(n1, (WILL, 0)).1 == OFFERED;
    }
  }

  // ---------------------------------------------------------------- two endpoints

  /** Two endpoints that both run this code, and the commands on their way from a to b and from b to a. */
  datatype Net = Net(a: Neg, b: Neg, ab: seq<Cmd>, ba: seq<Cmd>)

  const OPENED: Net := Net(OFFERED, OFFERED, OFFER, OFFER)

  predicate Quiet(n: Net) { n.ab == [] && n.ba == [] }

  /** One command arrives: at b if `toB`, else at a. Nothing happens if none is on its way there. */
  function Arrive(n: Net, toB: bool): Net {
    if toB then
      if n.ab == [] then n else
      var (r, b) := React(n.b, n.ab[0]);
      n.(b := b, ab := n.ab[1..], ba := n.ba + r)
    else
      if n.ba == [] then n else
      var (r, a) := React(n.a, n.ba[0]);
      n.(a := a, ba := n.ba[1..], ab := n.ab + r)
  }

  /** The network after the arrivals of `order`, and how many commands arrived. */
  function Interleave(order: seq<bool>): (Net, nat) {
    if order == [] then (OPENED, 0) else
    var (n, count) := Interleave(order[..|order| - 1]);
    var toB := order[|order| - 1];
    (Arrive(n, toB), if (if toB then n.ab else n.ba) == [] then count else count + 1)
  }

  const ACCEPTED: set<byte> := {0, 1, 3}

  predicate Willing(n: Neg, incoming: seq<Cmd>) {
    && n.will == ACCEPTED && n.do <= ACCEPTED && n.wont == {} && n.dont == {}
    && (forall c | c in incoming :: (c.0 == WILL || c.0 == DO) && Accepts(c.1))
    && (forall o | o in ACCEPTED :: o in n.do || (WILL, o) in incoming)
  }

  lemma {:induction false} ArrivalsCount(order: seq<bool>)
    ensures var (n, count) := Interleave(order);
            && Willing(n.a, n.ba) && Willing(n.b, n.ab)
            && |n.ab| + |n.ba| + (3 - |n.a.do|) + (3 - |n.b.do|) + count == 12
  {
    if order == [] {
      assert OFFER[0] == (WILL, 3) && OFFER[1] == (WILL, 1) && OFFER[2] == (WILL, 0);
    } else {
      ArrivalsCount(order[..|order| - 1]);
      var (n, count) := Interleave(order[..|order| - 1]);
      var toB := order[|order| - 1];
      if toB && n.ab != [] {
        OneArrival(n.b, n.ab, n.a, n.ba);
      } else if !toB && n.ba != [] {
        OneArrival(n.a, n.ba, n.b, n.ab);
      }
    }
  }

  lemma OneArrival(x: Neg, toX: seq<Cmd>, y: Neg, toY: seq<Cmd>)
    requires Willing(x, toX) && Willing(y, toY) && toX != []
    ensures var (r, x') := React(x, toX[0]);
            Willing(x', toX[1..]) && Willing(y, toY + r) && |r| == |x'.do| - |x.do|
  {
    var (r, x') := React(x, toX[0]);
    assert toX == [toX[0]] + toX[1..];
    assert toX[0] in toX;
    assert {} - {toX[0].1} == {};
    forall o | o in ACCEPTED ensures o in x'.do || (WILL, o) in toX[1..] {
      if o !in x.do { assert (WILL, o) in toX; }
    }
    assert forall c | c in toX[1..] :: c in toX;
  }

  /** Two such endpoints fall silent in every interleaving, after exactly 12 commands have arrived, and
      then both have agreed on the same three options in both directions. */
  lemma EndpointsGoQuiet(order: seq<bool>)
    ensures var (n, count) := Interleave(order);
            && count <= 12 && (Quiet(n) <==> count == 12)
            && (Quiet(n) ==> n.a == n.b == Neg(ACCEPTED, ACCEPTED, {}, {}))
  {
    ArrivalsCount(order);
    var (n, count) := Interleave(order);
    assert |ACCEPTED| == 3;
    Subset(n.a.do, ACCEPTED);
    Subset(n.b.do, ACCEPTED);
    if Quiet(n) {
      assert n.a.do == ACCEPTED && n.b.do == ACCEPTED;
    }
  }
}
