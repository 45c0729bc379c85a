/** The flat machine does exactly what the structured meaning says, and stops exactly when it does. */
module ScriptSimulation {
  import opened Options
  import opened Script

  lemma {:induction false} RunAdds<D>(turn: Machine<D> -> Machine<D>, a: nat, b: nat, m: Machine<D>)
    ensures Run(turn, a + b, m) == Run(turn, b, Run(turn, a, m))
  {
    if a > 0 {
      RunAdds(turn, a - 1, b, turn(m));
    }
  }

  lemma {:induction false} StillStays<D>(turn: Machine<D> -> Machine<D>, n: nat, m: Machine<D>)
    requires turn(m) == m
    ensures Run(turn, n, m) == m
  {
    if n > 0 {
      StillStays(turn, n - 1, m);
    }
  }

  /** Marks the machines whose next turn a proof looks at. */
  predicate At<D>(m: Machine<D>) { true }

  /** `turn` is the run loop of `code`; stated so that a turn is opened only where a proof says `At`. */
  ghost predicate Turns<D(!new)>(turn: Machine<D> -> Machine<D>, ops: Ops<D>, labels: map<string, nat>, code: seq<Line>) {
    forall m: Machine<D> {:trigger At(m)} :: At(m) ==> turn(m) == Step(ops, labels, code, m)
  }

  /** `code` holds the lines `ls` from line `start` on. */
  predicate Holds(code: seq<Line>, start: nat, ls: seq<Line>) {
    start + |ls| <= |code| && code[start..start + |ls|] == ls
  }

  lemma HoldsSplit(code: seq<Line>, start: nat, a: seq<Line>, b: seq<Line>)
    requires Holds(code, start, a + b)
    ensures Holds(code, start, a) && Holds(code, start + |a|, b)
  {
    assert code[start..start + |a|] == (a + b)[..|a|] == a;
    assert code[start + |a|..start + |a| + |b|] == (a + b)[|a|..] == b;
  }

  lemma HoldsHead(code: seq<Line>, start: nat, x: Line, b: seq<Line>)
    requires Holds(code, start, [x] + b)
    ensures start < |code| && code[start] == x && Holds(code, start + 1, b)
  {
    HoldsSplit(code, start, [x], b);
    assert code[start..start + 1][0] == x;
  }

  /** Where the parts of an IF, an IF with ELSE and a WHILE lie in the code. */
  lemma LayoutCond(code: seq<Line>, at: nat, p: Prog) returns (tail: nat)
    requires p.Cond? && Holds(code, at, Flatten(p))
    ensures tail == at + 1 + |Flatten(p.thn)| && tail + 1 + |Flatten(p.next)| == at + |Flatten(p)| <= |code|
    ensures code[at] == p.head && Holds(code, at + 1, Flatten(p.thn)) && code[tail] == p.tail && Holds(code, tail + 1, Flatten(p.next))
  {
    tail := at + 1 + |Flatten(p.thn)|;
    HoldsHead(code, at, p.head, Flatten(p.thn) + ([p.tail] + Flatten(p.next)));
    HoldsSplit(code, at + 1, Flatten(p.thn), [p.tail] + Flatten(p.next));
    HoldsHead(code, tail, p.tail, Flatten(p.next));
  }

  lemma LayoutCondElse(code: seq<Line>, at: nat, p: Prog) returns (mid: nat, tail: nat)
    requires p.CondElse? && Holds(code, at, Flatten(p))
    ensures mid == at + 1 + |Flatten(p.thn)| && tail == mid + 1 + |Flatten(p.els)|
    ensures tail + 1 + |Flatten(p.next)| == at + |Flatten(p)| <= |code|
    ensures code[at] == p.head && Holds(code, at + 1, Flatten(p.thn)) && code[mid] == p.mid && Holds(code, mid + 1, Flatten(p.els))
    ensures code[tail] == p.tail && Holds(code, tail + 1, Flatten(p.next))
  {
    mid := at + 1 + |Flatten(p.thn)|;
    tail := mid + 1 + |Flatten(p.els)|;
    var r3 := [p.tail] + Flatten(p.next);
    var r2 := [p.mid] + (Flatten(p.els) + r3);
    HoldsHead(code, at, p.head, Flatten(p.thn) + r2);
    HoldsSplit(code, at + 1, Flatten(p.thn), r2);
    HoldsHead(code, mid, p.mid, Flatten(p.els) + r3);
    HoldsSplit(code, mid + 1, Flatten(p.els), r3);
    HoldsHead(code, tail, p.tail, Flatten(p.next));
  }

  lemma LayoutLoop(code: seq<Line>, at: nat, p: Prog) returns (tail: nat)
    requires p.Loop? && Holds(code, at, Flatten(p))
    ensures tail == at + 1 + |Flatten(p.body)| && tail + 1 + |Flatten(p.next)| == at + |Flatten(p)| <= |code|
    ensures code[at] == p.head && Holds(code, at + 1, Flatten(p.body)) && code[tail] == p.tail && Holds(code, tail + 1, Flatten(p.next))
  {
    tail := at + 1 + |Flatten(p.body)|;
    HoldsHead(code, at, p.head, Flatten(p.body) + ([p.tail] + Flatten(p.next)));
    HoldsSplit(code, at + 1, Flatten(p.body), [p.tail] + Flatten(p.next));
    HoldsHead(code, tail, p.tail, Flatten(p.next));
  }

  /** Not skipping anything and not stopped. */
  predicate Idle<D>(m: Machine<D>) {
    !m.skipIf && m.ignIf == 0 && !m.skipWhile && m.ignWhile == 0 && !m.done
  }

  function Entry<D>(m: Machine<D>): State<D> { State(m.data, m.whileIters, false) }

  /** `m` moved to line `pc` with new data and counter, everything else as before. */
  function Moved<D>(m: Machine<D>, pc: nat, s: State<D>): Machine<D> {
    m.(pc := pc, data := s.data, whileIters := s.iters)
  }

  /** After `n` turns the machine, now `e`, shows result `r` of lines `from..to`: it left them at the bottom
      with every flag and stack as at entry, it stopped by QUIT, or (None) it is still inside and running. */
  ghost predicate Shows<D>(e: Machine<D>, n: nat, r: Option<State<D>>, exit: Machine<D>, from: nat, to: nat, fuel: nat) {
    match r
    case None => n >= fuel && from <= e.pc < to && !e.done
    case Some(s) =>
      if s.done then e.done && e.data == s.data && e.whileIters == s.iters
      else e == Moved(exit, to, s)
  }

  // ---------------------------------------------------------------- skipping

  /** The ignore counter after skipping `ls` for an IF branch from count `k`; None if the skip ends on the way. */
  function IfDepth(ls: seq<Line>, k: nat): Option<nat> {
    if ls == [] then Some(k) else
    match ls[0].op
    case If => IfDepth(ls[1..], k + 1)
    case EndIf => if k > 0 then IfDepth(ls[1..], k - 1) else None
    case Else => if k > 0 then IfDepth(ls[1..], k) else None
    case _ => IfDepth(ls[1..], k)
  }

  /** The same for a skipped WHILE body. */
  function WhileDepth(ls: seq<Line>, k: nat): Option<nat> {
    if ls == [] then Some(k) else
    match ls[0].op
    case While => WhileDepth(ls[1..], k + 1)
    case EndWhile => if k > 0 then WhileDepth(ls[1..], k - 1) else None
    case _ => WhileDepth(ls[1..], k)
  }

  lemma {:induction false} DepthsAdd(a: seq<Line>, b: seq<Line>, k: nat)
    ensures IfDepth(a, k).Some? ==> IfDepth(a + b, k) == IfDepth(b, IfDepth(a, k).value)
    ensures WhileDepth(a, k).Some? ==> WhileDepth(a + b, k) == WhileDepth(b, WhileDepth(a, k).value)
  {
    if a == [] {
      assert a + b == b;
    } else {
      assert (a + b)[1..] == a[1..] + b;
      DepthsAdd(a[1..], b, k);
      DepthsAdd(a[1..], b, k + 1);
      if k > 0 { DepthsAdd(a[1..], b, k - 1); }
    }
  }

  lemma DepthsHead(x: Line, b: seq<Line>)
    ensures ([x] + b)[0] == x && ([x] + b)[1..] == b
  {}

  /** Every structured block is balanced for both skips. */
  lemma {:induction false} BlocksBalance(p: Prog, k: nat)
    requires WellFormed(p)
    ensures IfDepth(Flatten(p), k) == Some(k)
    ensures WhileDepth(Flatten(p), k) == Some(k)
    decreases p, 0
  {
    match p
    case Empty =>
    case Plain(line, next) =>
      DepthsHead(line, Flatten(next));
      BlocksBalance(next, k);
    case Cond(head, thn, tail, next) =>
      BlocksBalance(next, k);
      BalancedThen(thn, k, tail, Flatten(next));
      BalancedThen(thn, k + 1, tail, Flatten(next));
      DepthsHead(head, Flatten(thn) + ([tail] + Flatten(next)));
    case CondElse(head, thn, mid, els, tail, next) =>
      BlocksBalance(next, k);
      BalancedThen(els, k, tail, Flatten(next));
      BalancedThen(els, k + 1, tail, Flatten(next));
      var rest := Flatten(els) + ([tail] + Flatten(next));
      BalancedThen(thn, k, mid, rest);
      BalancedThen(thn, k + 1, mid, rest);
      DepthsHead(head, Flatten(thn) + ([mid] + rest));
    case Loop(head, body, tail, next) =>
      BlocksBalance(next, k);
      BalancedThen(body, k, tail, Flatten(next));
      BalancedThen(body, k + 1, tail, Flatten(next));
      DepthsHead(head, Flatten(body) + ([tail] + Flatten(next)));
  }

  /** A balanced block before more lines can be left out of the count. */
  lemma {:induction false} BalancedThen(p: Prog, k: nat, x: Line, rest: seq<Line>)
    requires WellFormed(p)
    ensures IfDepth(Flatten(p) + ([x] + rest), k) == IfDepth([x] + rest, k)
    ensures WhileDepth(Flatten(p) + ([x] + rest), k) == WhileDepth([x] + rest, k)
    ensures ([x] + rest)[0] == x && ([x] + rest)[1..] == rest
    decreases p, 1
  {
    BlocksBalance(p, k);
    DepthsAdd(Flatten(p), [x] + rest, k);
  }

  lemma OneTurn<D(!new)>(turn: Machine<D> -> Machine<D>, ops: Ops<D>, labels: map<string, nat>, code: seq<Line>, m: Machine<D>, e: Machine<D>)
    requires Turns(turn, ops, labels, code) && Step(ops, labels, code, m) == e
    ensures Run(turn, 1, m) == turn(m) == e
  {
    assert At(m);
    assert Run(turn, 0, turn(m)) == turn(m);
  }

  /** A turn over a line that is passed while an IF branch, or a WHILE body, is skipped. */
  lemma StepSkippingIf<D>(ops: Ops<D>, labels: map<string, nat>, code: seq<Line>, m: Machine<D>)
    requires m.pc < |code| && m.skipIf && !m.done && IfDepth([code[m.pc]], m.ignIf).Some?
    ensures Step(ops, labels, code, m) == m.(pc := m.pc + 1, ignIf := IfDepth([code[m.pc]], m.ignIf).value)
  {}

  lemma StepSkippingWhile<D>(ops: Ops<D>, labels: map<string, nat>, code: seq<Line>, m: Machine<D>)
    requires m.pc < |code| && !m.skipIf && m.skipWhile && !m.done && WhileDepth([code[m.pc]], m.ignWhile).Some?
    ensures Step(ops, labels, code, m) == m.(pc := m.pc + 1, ignWhile := WhileDepth([code[m.pc]], m.ignWhile).value)
  {}

  lemma {:induction false} SkipIfLines<D(!new)>(turn: Machine<D> -> Machine<D>, ops: Ops<D>, labels: map<string, nat>, code: seq<Line>, ls: seq<Line>, m: Machine<D>)
    requires Turns(turn, ops, labels, code)
    requires Holds(code, m.pc, ls) && m.skipIf && !m.done && IfDepth(ls, m.ignIf).Some?
    ensures Run(turn, |ls|, m) == m.(pc := m.pc + |ls|, ignIf := IfDepth(ls, m.ignIf).value)
    decreases |ls|
  {
    if ls != [] {
      assert ls == [ls[0]] + ls[1..];
      HoldsHead(code, m.pc, ls[0], ls[1..]);
      DepthsHead(ls[0], ls[1..]);
      DepthsAdd([ls[0]], ls[1..], m.ignIf);
      StepSkippingIf(ops, labels, code, m);
      OneTurn(turn, ops, labels, code, m, Step(ops, labels, code, m));
      SkipIfLines(turn, ops, labels, code, ls[1..], turn(m));
    }
  }

  lemma {:induction false} SkipWhileLines<D(!new)>(turn: Machine<D> -> Machine<D>, ops: Ops<D>, labels: map<string, nat>, code: seq<Line>, ls: seq<Line>, m: Machine<D>)
    requires Turns(turn, ops, labels, code)
    requires Holds(code, m.pc, ls) && !m.skipIf && m.skipWhile && !m.done && WhileDepth(ls, m.ignWhile).Some?
    ensures Run(turn, |ls|, m) == m.(pc := m.pc + |ls|, ignWhile := WhileDepth(ls, m.ignWhile).value)
    decreases |ls|
  {
    if ls != [] {
      assert ls == [ls[0]] + ls[1..];
      HoldsHead(code, m.pc, ls[0], ls[1..]);
      DepthsHead(ls[0], ls[1..]);
      DepthsAdd([ls[0]], ls[1..], m.ignWhile);
      StepSkippingWhile(ops, labels, code, m);
      OneTurn(turn, ops, labels, code, m, Step(ops, labels, code, m));
      SkipWhileLines(turn, ops, labels, code, ls[1..], turn(m));
    }
  }

  /** A balanced block passes a machine that skips an IF branch (or a WHILE body) without effect. */
  lemma SkipIfBlock<D(!new)>(turn: Machine<D> -> Machine<D>, ops: Ops<D>, labels: map<string, nat>, code: seq<Line>, p: Prog, m: Machine<D>)
    requires Turns(turn, ops, labels, code) && WellFormed(p)
    requires Holds(code, m.pc, Flatten(p)) && m.skipIf && !m.done && m.ignIf == 0
    ensures Run(turn, |Flatten(p)|, m) == m.(pc := m.pc + |Flatten(p)|)
  {
    BlocksBalance(p, 0);
    SkipIfLines(turn, ops, labels, code, Flatten(p), m);
  }

  lemma SkipWhileBlock<D(!new)>(turn: Machine<D> -> Machine<D>, ops: Ops<D>, labels: map<string, nat>, code: seq<Line>, p: Prog, m: Machine<D>)
    requires Turns(turn, ops, labels, code) && WellFormed(p)
    requires Holds(code, m.pc, Flatten(p)) && !m.skipIf && m.skipWhile && !m.done && m.ignWhile == 0
    ensures Run(turn, |Flatten(p)|, m) == m.(pc := m.pc + |Flatten(p)|)
  {
    BlocksBalance(p, 0);
    SkipWhileLines(turn, ops, labels, code, Flatten(p), m);
  }

  // ---------------------------------------------------------------- single turns

  lemma StepPlain<D(!new)>(ops: Ops<D>, labels: map<string, nat>, code: seq<Line>, m: Machine<D>)
    requires Idle(m) && m.pc < |code| && PlainOp(code[m.pc].op)
    ensures var s := EvalLine(ops, code[m.pc], Entry(m));
            Step(ops, labels, code, m) == Moved(m, m.pc + 1, s).(done := s.done)
  {}

  lemma TurnPlain<D(!new)>(turn: Machine<D> -> Machine<D>, ops: Ops<D>, labels: map<string, nat>, code: seq<Line>, m: Machine<D>)
    requires Turns(turn, ops, labels, code) && Idle(m) && m.pc < |code| && PlainOp(code[m.pc].op)
    ensures var s := EvalLine(ops, code[m.pc], Entry(m));
            Run(turn, 1, m) == Moved(m, m.pc + 1, s).(done := s.done)
  {
    StepPlain(ops, labels, code, m);
    OneTurn(turn, ops, labels, code, m, Step(ops, labels, code, m));
  }

  lemma StepIf<D(!new)>(ops: Ops<D>, labels: map<string, nat>, code: seq<Line>, m: Machine<D>)
    requires Idle(m) && m.pc < |code| && code[m.pc].op.If?
    ensures var (ok, d) := ops.test(code[m.pc].rest, m.data);
            Step(ops, labels, code, m) == m.(pc := m.pc + 1, ifNest := m.ifNest + 1, skipIf := !ok, data := d)
  {}

  lemma TurnIf<D(!new)>(turn: Machine<D> -> Machine<D>, ops: Ops<D>, labels: map<string, nat>, code: seq<Line>, m: Machine<D>)
    requires Turns(turn, ops, labels, code) && Idle(m) && m.pc < |code| && code[m.pc].op.If?
    ensures var (ok, d) := ops.test(code[m.pc].rest, m.data);
            Run(turn, 1, m) == m.(pc := m.pc + 1, ifNest := m.ifNest + 1, skipIf := !ok, data := d)
  {
    StepIf(ops, labels, code, m);
    OneTurn(turn, ops, labels, code, m, Step(ops, labels, code, m));
  }

  lemma StepElse<D(!new)>(ops: Ops<D>, labels: map<string, nat>, code: seq<Line>, m: Machine<D>)
    requires Idle(m.(skipIf := false)) && m.pc < |code| && code[m.pc].op.Else?
    ensures Step(ops, labels, code, m) == m.(pc := m.pc + 1, skipIf := !m.skipIf)
  {}

  lemma TurnElse<D(!new)>(turn: Machine<D> -> Machine<D>, ops: Ops<D>, labels: map<string, nat>, code: seq<Line>, m: Machine<D>)
    requires Turns(turn, ops, labels, code) && Idle(m.(skipIf := false)) && m.pc < |code| && code[m.pc].op.Else?
    ensures Run(turn, 1, m) == m.(pc := m.pc + 1, skipIf := !m.skipIf)
  {
    StepElse(ops, labels, code, m);
    OneTurn(turn, ops, labels, code, m, Step(ops, labels, code, m));
  }

  lemma StepEndIf<D(!new)>(ops: Ops<D>, labels: map<string, nat>, code: seq<Line>, m: Machine<D>)
    requires Idle(m.(skipIf := false)) && m.ifNest > 0 && m.pc < |code| && code[m.pc].op.EndIf?
    ensures Step(ops, labels, code, m) == m.(pc := m.pc + 1, ifNest := m.ifNest - 1, skipIf := false)
  {}

  lemma TurnEndIf<D(!new)>(turn: Machine<D> -> Machine<D>, ops: Ops<D>, labels: map<string, nat>, code: seq<Line>, m: Machine<D>)
    requires Turns(turn, ops, labels, code) && Idle(m.(skipIf := false)) && m.ifNest > 0 && m.pc < |code| && code[m.pc].op.EndIf?
    ensures Run(turn, 1, m) == m.(pc := m.pc + 1, ifNest := m.ifNest - 1, skipIf := false)
  {
    StepEndIf(ops, labels, code, m);
    OneTurn(turn, ops, labels, code, m, Step(ops, labels, code, m));
  }

  lemma StepWhile<D(!new)>(ops: Ops<D>, labels: map<string, nat>, code: seq<Line>, m: Machine<D>)
    requires Idle(m) && m.pc < |code| && code[m.pc].op.While? && |m.whilePC| < MAX_WHILE
    ensures var (ok, d) := ops.testWhile(code[m.pc].rest, m.data);
            Step(ops, labels, code, m) == if ok then m.(pc := m.pc + 1, whilePC := m.whilePC + [m.pc], whileIters := 0, data := d)
                               else m.(pc := m.pc + 1, skipWhile := true, data := d)
  {}

  lemma TurnWhile<D(!new)>(turn: Machine<D> -> Machine<D>, ops: Ops<D>, labels: map<string, nat>, code: seq<Line>, m: Machine<D>)
    requires Turns(turn, ops, labels, code) && Idle(m) && m.pc < |code| && code[m.pc].op.While? && |m.whilePC| < MAX_WHILE
    ensures var (ok, d) := ops.testWhile(code[m.pc].rest, m.data);
            Run(turn, 1, m) == if ok then m.(pc := m.pc + 1, whilePC := m.whilePC + [m.pc], whileIters := 0, data := d)
                               else m.(pc := m.pc + 1, skipWhile := true, data := d)
  {
    StepWhile(ops, labels, code, m);
    OneTurn(turn, ops, labels, code, m, Step(ops, labels, code, m));
  }

  lemma StepSkippedEndWhile<D(!new)>(ops: Ops<D>, labels: map<string, nat>, code: seq<Line>, m: Machine<D>)
    requires Idle(m.(skipWhile := false)) && m.skipWhile && m.pc < |code| && code[m.pc].op.EndWhile?
    ensures Step(ops, labels, code, m) == m.(pc := m.pc + 1, skipWhile := false)
  {}

  lemma TurnSkippedEndWhile<D(!new)>(turn: Machine<D> -> Machine<D>, ops: Ops<D>, labels: map<string, nat>, code: seq<Line>, m: Machine<D>)
    requires Turns(turn, ops, labels, code) && Idle(m.(skipWhile := false)) && m.skipWhile && m.pc < |code| && code[m.pc].op.EndWhile?
    ensures Run(turn, 1, m) == m.(pc := m.pc + 1, skipWhile := false)
  {
    StepSkippedEndWhile(ops, labels, code, m);
    OneTurn(turn, ops, labels, code, m, Step(ops, labels, code, m));
  }

  lemma StepEndWhile<D(!new)>(ops: Ops<D>, labels: map<string, nat>, code: seq<Line>,
                              m: Machine<D>, outer: seq<nat>, start: nat)
    requires Idle(m) && m.pc < |code| && code[m.pc].op.EndWhile?
    requires m.whilePC == outer + [start] && |outer| < MAX_WHILE && start < |code|
    ensures var (ok, d) := ops.testWhile(code[start].rest, m.data);
            Step(ops, labels, code, m) ==
              if !ok then m.(pc := m.pc + 1, whilePC := outer, data := d)
              else if m.whileIters + 1 > MAX_ITERS then m.(pc := m.pc + 1, whilePC := outer, whileIters := m.whileIters + 1, data := d)
              else m.(pc := start + 1, whileIters := m.whileIters + 1, data := d)
  {
    assert m.whilePC[..|m.whilePC| - 1] == outer;
  }

  lemma TurnEndWhile<D(!new)>(turn: Machine<D> -> Machine<D>, ops: Ops<D>, labels: map<string, nat>, code: seq<Line>,
                              m: Machine<D>, outer: seq<nat>, start: nat)
    requires Turns(turn, ops, labels, code) && Idle(m) && m.pc < |code| && code[m.pc].op.EndWhile?
    requires m.whilePC == outer + [start] && |outer| < MAX_WHILE && start < |code|
    ensures var (ok, d) := ops.testWhile(code[start].rest, m.data);
            Run(turn, 1, m) ==
              if !ok then m.(pc := m.pc + 1, whilePC := outer, data := d)
              else if m.whileIters + 1 > MAX_ITERS then m.(pc := m.pc + 1, whilePC := outer, whileIters := m.whileIters + 1, data := d)
              else m.(pc := start + 1, whileIters := m.whileIters + 1, data := d)
  {
    StepEndWhile(ops, labels, code, m, outer, start);
    OneTurn(turn, ops, labels, code, m, Step(ops, labels, code, m));
  }

  // ---------------------------------------------------------------- the simulation

  /** From a machine standing idle at the first line of `p`, some number of turns shows the meaning of `p`. */
  lemma {:induction false} Simulate<D(!new)>(turn: Machine<D> -> Machine<D>, ops: Ops<D>, labels: map<string, nat>, code: seq<Line>,
                                             p: Prog, m: Machine<D>, fuel: nat) returns (n: nat)
    requires Turns(turn, ops, labels, code) && WellFormed(p)
    requires Holds(code, m.pc, Flatten(p)) && Idle(m) && |m.whilePC| + Depth(p) <= MAX_WHILE
    ensures Shows(Run(turn, n, m), n, Eval(ops, fuel, p, Entry(m)), m, m.pc, m.pc + |Flatten(p)|, fuel)
    decreases fuel, p, 4
  {
    if p.Empty? { return 0; }
    var at;
    n, at := SimulateFirst(turn, ops, labels, code, p, m, fuel);
    var r := First(ops, fuel, p, Entry(m));
    if r.Some? && r.value.done {
      assert Eval(ops, fuel, p.next, r.value) == r;
    } else if r.Some? {
      var m1 := Moved(m, at, r.value);
      var n1 := Simulate(turn, ops, labels, code, p.next, m1, fuel);
      assert Entry(m1) == r.value;
      RunAdds(turn, n, n1, m);
      n := n + n1;
    }
  }

  /** The same for the first statement alone; `at` is the line below it. */
  lemma {:induction false} SimulateFirst<D(!new)>(turn: Machine<D> -> Machine<D>, ops: Ops<D>, labels: map<string, nat>, code: seq<Line>,
                                                  p: Prog, m: Machine<D>, fuel: nat) returns (n: nat, at: nat)
    requires Turns(turn, ops, labels, code) && !p.Empty? && WellFormed(p)
    requires Holds(code, m.pc, Flatten(p)) && Idle(m) && |m.whilePC| + Depth(p) <= MAX_WHILE
    ensures m.pc < at && at + |Flatten(p.next)| == m.pc + |Flatten(p)| && Holds(code, at, Flatten(p.next))
    ensures Shows(Run(turn, n, m), n, First(ops, fuel, p, Entry(m)), m, m.pc, at, fuel)
    decreases fuel, p, 3
  {
    match p
    case Plain(line, next) =>
      HoldsHead(code, m.pc, line, Flatten(next));
      TurnPlain(turn, ops, labels, code, m);
      n, at := 1, m.pc + 1;
    case Cond(_, _, _, _) => n, at := SimulateCond(turn, ops, labels, code, p, m, fuel);
    case CondElse(_, _, _, _, _, _) => n, at := SimulateCondElse(turn, ops, labels, code, p, m, fuel);
    case Loop(_, _, _, _) => n, at := SimulateLoop(turn, ops, labels, code, p, m, fuel);
  }

  lemma {:induction false} SimulateCond<D(!new)>(turn: Machine<D> -> Machine<D>, ops: Ops<D>, labels: map<string, nat>, code: seq<Line>,
                                                 p: Prog, m: Machine<D>, fuel: nat) returns (n: nat, at: nat)
    requires Turns(turn, ops, labels, code) && p.Cond? && WellFormed(p)
    requires Holds(code, m.pc, Flatten(p)) && Idle(m) && |m.whilePC| + Depth(p) <= MAX_WHILE
    ensures m.pc < at && at + |Flatten(p.next)| == m.pc + |Flatten(p)| && Holds(code, at, Flatten(p.next))
    ensures Shows(Run(turn, n, m), n, First(ops, fuel, p, Entry(m)), m, m.pc, at, fuel)
    decreases fuel, p, 1
  {
    var tail := LayoutCond(code, m.pc, p);
    at := tail + 1;
    TurnIf(turn, ops, labels, code, m);
    var m1 := Run(turn, 1, m);
    if m1.skipIf {
      n := |Flatten(p.thn)|;
      SkipIfBlock(turn, ops, labels, code, p.thn, m1);
    } else {
      n := Simulate(turn, ops, labels, code, p.thn, m1, fuel);
    }
    n := CloseIf(turn, ops, labels, code, m, m1.skipIf, n, First(ops, fuel, p, Entry(m)), tail, fuel);
  }

  lemma {:induction false} SimulateCondElse<D(!new)>(turn: Machine<D> -> Machine<D>, ops: Ops<D>, labels: map<string, nat>, code: seq<Line>,
                                                     p: Prog, m: Machine<D>, fuel: nat) returns (n: nat, at: nat)
    requires Turns(turn, ops, labels, code) && p.CondElse? && WellFormed(p)
    requires Holds(code, m.pc, Flatten(p)) && Idle(m) && |m.whilePC| + Depth(p) <= MAX_WHILE
    ensures m.pc < at && at + |Flatten(p.next)| == m.pc + |Flatten(p)| && Holds(code, at, Flatten(p.next))
    ensures Shows(Run(turn, n, m), n, First(ops, fuel, p, Entry(m)), m, m.pc, at, fuel)
    decreases fuel, p, 1
  {
    var mid, tail := LayoutCondElse(code, m.pc, p);
    at := tail + 1;
    TurnIf(turn, ops, labels, code, m);
    var m1 := Run(turn, 1, m);
    if m1.skipIf {
      n := SkipThenRunElse(turn, ops, labels, code, p.thn, p.els, m1, mid, fuel);
    } else {
      n := RunThenSkipElse(turn, ops, labels, code, p.thn, p.els, m1, mid, fuel);
    }
    n := CloseIf(turn, ops, labels, code, m, !m1.skipIf, n, First(ops, fuel, p, Entry(m)), tail, fuel);
  }

  /** The ENDIF of an IF at `m` whose branches showed `r` after `n1` further turns. */
  lemma CloseIf<D(!new)>(turn: Machine<D> -> Machine<D>, ops: Ops<D>, labels: map<string, nat>, code: seq<Line>,
                         m: Machine<D>, skip: bool, n1: nat, r: Option<State<D>>, tail: nat, fuel: nat) returns (n: nat)
    requires Turns(turn, ops, labels, code) && Idle(m)
    requires var m1 := Run(turn, 1, m);
             m1 == Moved(m, m.pc + 1, Entry(m1)).(ifNest := m.ifNest + 1, skipIf := m1.skipIf) &&
             Shows(Run(turn, n1, m1), n1, r, m1.(skipIf := skip), m.pc + 1, tail, fuel)
    requires tail < |code| && code[tail].op.EndIf?
    ensures Shows(Run(turn, n, m), n, r, m, m.pc, tail + 1, fuel)
  {
    RunAdds(turn, 1, n1, m);
    n := 1 + n1;
    if r.Some? && !r.value.done {
      TurnEndIf(turn, ops, labels, code, Run(turn, n, m));
      RunAdds(turn, n, 1, m);
      n := n + 1;
    }
  }

  /** The branch below a true IF, then ELSE and the skipped other branch, up to the ENDIF. */
  lemma {:induction false} RunThenSkipElse<D(!new)>(turn: Machine<D> -> Machine<D>, ops: Ops<D>, labels: map<string, nat>, code: seq<Line>,
                                                    thn: Prog, els: Prog, m: Machine<D>, mid: nat, fuel: nat) returns (n: nat)
    requires Turns(turn, ops, labels, code) && WellFormed(thn) && WellFormed(els)
    requires Holds(code, m.pc, Flatten(thn)) && mid == m.pc + |Flatten(thn)| < |code| && code[mid].op.Else? && Holds(code, mid + 1, Flatten(els))
    requires Idle(m) && |m.whilePC| + Depth(thn) <= MAX_WHILE
    ensures Shows(Run(turn, n, m), n, Eval(ops, fuel, thn, Entry(m)), m.(skipIf := true), m.pc, mid + 1 + |Flatten(els)|, fuel)
    decreases fuel, thn, 5
  {
    n := Simulate(turn, ops, labels, code, thn, m, fuel);
    var r := Eval(ops, fuel, thn, Entry(m));
    if r.Some? && !r.value.done {
      var m2 := Run(turn, n, m);
      TurnElse(turn, ops, labels, code, m2);
      SkipIfBlock(turn, ops, labels, code, els, Run(turn, 1, m2));
      RunAdds(turn, 1, |Flatten(els)|, m2);
      RunAdds(turn, n, 1 + |Flatten(els)|, m);
      n := n + (1 + |Flatten(els)|);
    }
  }

  /** The skipped branch below a false IF, then ELSE and the other branch, up to the ENDIF. */
  lemma {:induction false} SkipThenRunElse<D(!new)>(turn: Machine<D> -> Machine<D>, ops: Ops<D>, labels: map<string, nat>, code: seq<Line>,
                                                    thn: Prog, els: Prog, m: Machine<D>, mid: nat, fuel: nat) returns (n: nat)
    requires Turns(turn, ops, labels, code) && WellFormed(thn) && WellFormed(els)
    requires Holds(code, m.pc, Flatten(thn)) && mid == m.pc + |Flatten(thn)| < |code| && code[mid].op.Else? && Holds(code, mid + 1, Flatten(els))
    requires m.skipIf && Idle(m.(skipIf := false)) && |m.whilePC| + Depth(els) <= MAX_WHILE
    ensures Shows(Run(turn, n, m), n, Eval(ops, fuel, els, Entry(m)), m.(skipIf := false), m.pc, mid + 1 + |Flatten(els)|, fuel)
    decreases fuel, els, 5
  {
    SkipIfBlock(turn, ops, labels, code, thn, m);
    var m2 := Run(turn, |Flatten(thn)|, m);
    TurnElse(turn, ops, labels, code, m2);
    var m3 := Run(turn, 1, m2);
    n := Simulate(turn, ops, labels, code, els, m3, fuel);
    RunAdds(turn, 1, n, m2);
    RunAdds(turn, |Flatten(thn)|, 1 + n, m);
    n := |Flatten(thn)| + (1 + n);
  }

  lemma {:induction false} SimulateLoop<D(!new)>(turn: Machine<D> -> Machine<D>, ops: Ops<D>, labels: map<string, nat>, code: seq<Line>,
                                                 p: Prog, m: Machine<D>, fuel: nat) returns (n: nat, at: nat)
    requires Turns(turn, ops, labels, code) && p.Loop? && WellFormed(p)
    requires Holds(code, m.pc, Flatten(p)) && Idle(m) && |m.whilePC| + Depth(p) <= MAX_WHILE
    ensures m.pc < at && at + |Flatten(p.next)| == m.pc + |Flatten(p)| && Holds(code, at, Flatten(p.next))
    ensures Shows(Run(turn, n, m), n, First(ops, fuel, p, Entry(m)), m, m.pc, at, fuel)
    decreases fuel, p, 2
  {
    var tail := LayoutLoop(code, m.pc, p);
    at := tail + 1;
    n := SimulateWhile(turn, ops, labels, code, p, m, tail, fuel);
  }

  /** A loop laid out from `m.pc` to `tail`, entered or passed over. */
  lemma {:induction false} SimulateWhile<D(!new)>(turn: Machine<D> -> Machine<D>, ops: Ops<D>, labels: map<string, nat>, code: seq<Line>,
                                                  p: Prog, m: Machine<D>, tail: nat, fuel: nat) returns (n: nat)
    requires Turns(turn, ops, labels, code) && p.Loop? && WellFormed(p) && Idle(m) && |m.whilePC| + Depth(p) <= MAX_WHILE
    requires m.pc < tail < |code| && code[m.pc] == p.head && code[tail] == p.tail
    requires Holds(code, m.pc + 1, Flatten(p.body)) && tail == m.pc + 1 + |Flatten(p.body)|
    ensures Shows(Run(turn, n, m), n, First(ops, fuel, p, Entry(m)), m, m.pc, tail + 1, fuel)
    decreases fuel, p, 1
  {
    TurnWhile(turn, ops, labels, code, m);
    var m1 := Run(turn, 1, m);
    if m1.skipWhile {
      n := |Flatten(p.body)| + 1;
      PassLoop(turn, ops, labels, code, p.body, m1);
    } else {
      n := SimulateIterate(turn, ops, labels, code, p, m, m1, tail, fuel);
    }
    RunAdds(turn, 1, n, m);
    n := 1 + n;
  }

  /** Over the body and the ENDWHILE of a loop whose condition failed. */
  lemma PassLoop<D(!new)>(turn: Machine<D> -> Machine<D>, ops: Ops<D>, labels: map<string, nat>, code: seq<Line>, body: Prog, m: Machine<D>)
    requires Turns(turn, ops, labels, code) && WellFormed(body) && Holds(code, m.pc, Flatten(body))
    requires m.skipWhile && Idle(m.(skipWhile := false))
    requires m.pc + |Flatten(body)| < |code| && code[m.pc + |Flatten(body)|].op.EndWhile?
    ensures Run(turn, |Flatten(body)| + 1, m) == m.(pc := m.pc + |Flatten(body)| + 1, skipWhile := false)
  {
    SkipWhileBlock(turn, ops, labels, code, body, m);
    TurnSkippedEndWhile(turn, ops, labels, code, Run(turn, |Flatten(body)|, m));
    RunAdds(turn, |Flatten(body)|, 1, m);
  }

  /** From the first body line of an entered loop to the line below its ENDWHILE; `m` is the machine at its WHILE. */
  lemma {:induction false} SimulateIterate<D(!new)>(turn: Machine<D> -> Machine<D>, ops: Ops<D>, labels: map<string, nat>, code: seq<Line>,
                                                    p: Prog, m: Machine<D>, m1: Machine<D>, tail: nat, fuel: nat) returns (n: nat)
    requires Turns(turn, ops, labels, code) && p.Loop? && WellFormed(p.body) && Idle(m) && |m.whilePC| + 1 + Depth(p.body) <= MAX_WHILE
    requires m.pc < tail < |code| && code[m.pc] == p.head && code[tail].op.EndWhile?
    requires Holds(code, m.pc + 1, Flatten(p.body)) && tail == m.pc + 1 + |Flatten(p.body)|
    requires m1 == Moved(m, m.pc + 1, Entry(m1)).(whilePC := m.whilePC + [m.pc])
    ensures Shows(Run(turn, n, m1), n, Iterate(ops, fuel, p, Entry(m1)), m, m.pc + 1, tail + 1, fuel)
    decreases fuel, p, 0
  {
    if fuel == 0 { return 0; }
    n := Simulate(turn, ops, labels, code, p.body, m1, fuel);
    var r := Eval(ops, fuel, p.body, Entry(m1));
    if r.None? || r.value.done { return; }
    var m3 := CloseLoop(turn, ops, labels, code, m, m1, n, r.value, tail);
    n := n + 1;
    if m3.pc == m.pc + 1 {
      var n2 := SimulateIterate(turn, ops, labels, code, p, m, m3, tail, fuel - 1);
      RunAdds(turn, n, n2, m1);
      n := n + n2;
    }
  }

  /** The ENDWHILE of the loop at `m` whose body took `m1` to state `s` in `n` turns. */
  lemma CloseLoop<D(!new)>(turn: Machine<D> -> Machine<D>, ops: Ops<D>, labels: map<string, nat>, code: seq<Line>,
                           m: Machine<D>, m1: Machine<D>, n: nat, s: State<D>, tail: nat) returns (m3: Machine<D>)
    requires Turns(turn, ops, labels, code) && Idle(m) && |m.whilePC| < MAX_WHILE && m.pc < tail < |code| && code[tail].op.EndWhile?
    requires m1 == Moved(m, m.pc + 1, Entry(m1)).(whilePC := m.whilePC + [m.pc]) && Run(turn, n, m1) == Moved(m1, tail, s)
    ensures m3 == Run(turn, n + 1, m1)
    ensures var (ok, d) := ops.testWhile(code[m.pc].rest, s.data);
            m3 == if !ok then Moved(m, tail + 1, State(d, s.iters, false))
                  else if s.iters + 1 > MAX_ITERS then Moved(m, tail + 1, State(d, s.iters + 1, false))
                  else Moved(m1, m.pc + 1, State(d, s.iters + 1, false))
  {
    var m2 := Run(turn, n, m1);
    TurnEndWhile(turn, ops, labels, code, m2, m.whilePC, m.pc);
    RunAdds(turn, n, 1, m1);
    m3 := Run(turn, n + 1, m1);
  }
}
