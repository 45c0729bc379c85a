/** The control part of the Q-A script machine and the structured programs it is meant to run.

    The machine is flat: it holds one line counter, skip flags and a bounded stack of WHILE lines.
    The meaning of a structured program is given separately, by recursion over its tree.
    What a condition or a command does to the answers is a parameter (`Ops`), so every result
    here holds for every command set. */
module Script {
  import opened Options

  const MAX_WHILE: nat := 5
  const MAX_GOSUB: nat := 20
  const MAX_ITERS: nat := 10000

  /** What the first word of a line selects. `Act` is any command without control effect. */
  datatype Op = Blank | If | Else | EndIf | While | EndWhile | Quit | Goto | Gosub | Return | Break | Act(cmd: string)

  datatype Line = Line(op: Op, rest: string)

  /** Conditions, commands and label names, as functions of the data they read and change. */
  datatype Ops<!D> = Ops(
    test: (string, D) -> (bool, D),
    testWhile: (string, D) -> (bool, D),
    act: (string, string, D) -> D,
    target: (string, D) -> string)

  datatype Machine<D> = Machine(
    pc: nat, skipIf: bool, ifNest: nat, ignIf: nat, skipWhile: bool, ignWhile: nat,
    whilePC: seq<nat>, whileIters: nat, gosub: seq<nat>, done: bool, data: D)

  function Start<D>(d: D): Machine<D> {
    Machine(0, false, 0, 0, false, 0, [], 0, [], false, d)
  }

  /** A GOTO to a known label abandons every open IF and WHILE; an unknown label does nothing. */
  function Jump<D>(ops: Ops<D>, labels: map<string, nat>, rest: string, m: Machine<D>): Machine<D> {
    var lab := ops.target(rest, m.data);
    if lab in labels then
      m.(pc := labels[lab], ifNest := 0, skipIf := false, ignIf := 0, skipWhile := false, ignWhile := 0, whilePC := [])
    else m
  }

  function EnterWhile<D>(ops: Ops<D>, rest: string, m: Machine<D>): Machine<D> {
    var (ok, d) := ops.testWhile(rest, m.data);
    if ok then
      if |m.whilePC| < MAX_WHILE then m.(whilePC := m.whilePC + [m.pc], whileIters := 0, data := d)
      else m.(data := d)
    else m.(skipWhile := true, data := d)
  }

  function LeaveWhile<D>(ops: Ops<D>, code: seq<Line>, m: Machine<D>): Machine<D> {
    if |m.whilePC| == 0 then m else
    var start := m.whilePC[|m.whilePC| - 1];
    var popped := m.(whilePC := m.whilePC[..|m.whilePC| - 1]);
    if start >= |code| then popped else
    var (ok, d) := ops.testWhile(code[start].rest, m.data);
    if !ok then popped.(data := d)
    else if m.whileIters + 1 > MAX_ITERS then popped.(data := d, whileIters := m.whileIters + 1)
    else popped.(data := d, whileIters := m.whileIters + 1, pc := start,
                 whilePC := if |popped.whilePC| < MAX_WHILE then popped.whilePC + [start] else popped.whilePC)
  }

  /** One line while an IF branch is being skipped. */
  function SkippingIf<D>(op: Op, m: Machine<D>): Machine<D> {
    match op
    case If => m.(ignIf := m.ignIf + 1)
    case EndIf =>
      if m.ignIf > 0 then m.(ignIf := m.ignIf - 1)
      else m.(ifNest := if m.ifNest > 0 then m.ifNest - 1 else 0, skipIf := false)
    case Else => if m.ignIf == 0 then m.(skipIf := false) else m
    case _ => m
  }

  /** One line while a WHILE body is being skipped. */
  function SkippingWhile<D>(op: Op, m: Machine<D>): Machine<D> {
    match op
    case While => m.(ignWhile := m.ignWhile + 1)
    case EndWhile => if m.ignWhile > 0 then m.(ignWhile := m.ignWhile - 1) else m.(skipWhile := false)
    case _ => m
  }

  function Execute<D>(ops: Ops<D>, labels: map<string, nat>, code: seq<Line>, line: Line, m: Machine<D>): Machine<D> {
    if line.op.Blank? then m
    else if m.skipIf then SkippingIf(line.op, m)
    else if m.skipWhile then SkippingWhile(line.op, m)
    else match line.op
      case Blank => m
      case Quit => m.(done := true)
      case If =>
        var (ok, d) := ops.test(line.rest, m.data);
        m.(ifNest := m.ifNest + 1, skipIf := !ok, data := d)
      case Else => m.(skipIf := true)
      case EndIf => m.(ifNest := if m.ifNest > 0 then m.ifNest - 1 else 0, skipIf := false)
      case While => EnterWhile(ops, line.rest, m)
      case EndWhile => LeaveWhile(ops, code, m)
      case Goto => Jump(ops, labels, line.rest, m)
      case Gosub =>
        var pushed := if |m.gosub| < MAX_GOSUB then m.(gosub := m.gosub + [m.pc]) else m;
        Jump(ops, labels, line.rest, pushed)
      case Return =>
        if |m.gosub| > 0 then m.(pc := m.gosub[|m.gosub| - 1], gosub := m.gosub[..|m.gosub| - 1]) else m
      case Break => m.(skipWhile := true)
      case Act(cmd) => m.(data := ops.act(cmd, line.rest, m.data))
  }

  predicate Halted<D>(code: seq<Line>, m: Machine<D>) {
    m.pc >= |code| || m.done
  }

  function Step<D>(ops: Ops<D>, labels: map<string, nat>, code: seq<Line>, m: Machine<D>): Machine<D> {
    if Halted(code, m) then m else
    var e := Execute(ops, labels, code, code[m.pc], m);
    e.(pc := e.pc + 1)
  }

  /** The machine after `n` turns of `turn`. */
  function Run<D>(turn: Machine<D> -> Machine<D>, n: nat, m: Machine<D>): Machine<D> {
    if n == 0 then m else Run(turn, n - 1, turn(m))
  }

  /** The turn of the run loop on `code`; a halted machine stays as it is. */
  function Turn<D>(ops: Ops<D>, labels: map<string, nat>, code: seq<Line>): Machine<D> -> Machine<D> {
    (m: Machine<D>) => Step(ops, labels, code, m)
  }

  // ---------------------------------------------------------------- structured programs

  /** A structured program. Each node keeps the source lines it was written with. */
  datatype Prog =
    | Empty
    | Plain(line: Line, next: Prog)
    | Cond(head: Line, thn: Prog, tail: Line, next: Prog)
    | CondElse(head: Line, thn: Prog, mid: Line, els: Prog, tail: Line, next: Prog)
    | Loop(head: Line, body: Prog, tail: Line, next: Prog)

  predicate PlainOp(op: Op) {
    op.Blank? || op.Quit? || op.Act?
  }

  predicate WellFormed(p: Prog) {
    match p
    case Empty => true
    case Plain(line, next) => PlainOp(line.op) && WellFormed(next)
    case Cond(head, thn, tail, next) => head.op.If? && tail.op.EndIf? && WellFormed(thn) && WellFormed(next)
    case CondElse(head, thn, mid, els, tail, next) =>
      head.op.If? && mid.op.Else? && tail.op.EndIf? && WellFormed(thn) && WellFormed(els) && WellFormed(next)
    case Loop(head, body, tail, next) => head.op.While? && tail.op.EndWhile? && WellFormed(body) && WellFormed(next)
  }

  /** The lines of a program, top to bottom. */
  function Flatten(p: Prog): seq<Line> {
    match p
    case Empty => []
    case Plain(line, next) => [line] + Flatten(next)
    case Cond(head, thn, tail, next) => [head] + (Flatten(thn) + ([tail] + Flatten(next)))
    case CondElse(head, thn, mid, els, tail, next) =>
      [head] + (Flatten(thn) + ([mid] + (Flatten(els) + ([tail] + Flatten(next)))))
    case Loop(head, body, tail, next) => [head] + (Flatten(body) + ([tail] + Flatten(next)))
  }

  function Max(a: nat, b: nat): nat { if a >= b then a else b }

  /** How deep WHILE loops are nested. */
  function Depth(p: Prog): nat {
    match p
    case Empty => 0
    case Plain(_, next) => Depth(next)
    case Cond(_, thn, _, next) => Max(Depth(thn), Depth(next))
    case CondElse(_, thn, _, els, _, next) => Max(Max(Depth(thn), Depth(els)), Depth(next))
    case Loop(_, body, _, next) => Max(1 + Depth(body), Depth(next))
  }

  /** What a program works on: the data, the one loop counter all loops share, and whether QUIT ran. */
  datatype State<D> = State(data: D, iters: nat, done: bool)

  function EvalLine<D>(ops: Ops<D>, line: Line, s: State<D>): State<D> {
    match line.op
    case Quit => s.(done := true)
    case Act(cmd) => s.(data := ops.act(cmd, line.rest, s.data))
    case _ => s
  }

  /** Meaning of a program. `fuel` bounds how often any one entry into a loop may run its body;
      None means the bound was too small. */
  function Eval<D>(ops: Ops<D>, fuel: nat, p: Prog, s: State<D>): Option<State<D>>
    decreases fuel, p, 2
  {
    if s.done || p.Empty? then Some(s) else
    var r := First(ops, fuel, p, s);
    if r.None? then None else Eval(ops, fuel, p.next, r.value)
  }

  /** Meaning of the first statement alone. */
  function First<D>(ops: Ops<D>, fuel: nat, p: Prog, s: State<D>): Option<State<D>>
    requires !p.Empty?
    decreases fuel, p, 1
  {
    match p
    case Plain(line, _) => Some(EvalLine(ops, line, s))
    case Cond(head, thn, _, _) =>
      var (ok, d) := ops.test(head.rest, s.data);
      if ok then Eval(ops, fuel, thn, s.(data := d)) else Some(s.(data := d))
    case CondElse(head, thn, _, els, _, _) =>
      var (ok, d) := ops.test(head.rest, s.data);
      Eval(ops, fuel, if ok then thn else els, s.(data := d))
    case Loop(head, body, _, _) =>
      var (ok, d) := ops.testWhile(head.rest, s.data);
      if ok then Iterate(ops, fuel, p, State(d, 0, false)) else Some(s.(data := d))
  }

  /** Runs the body of loop `p` once, then again while its condition holds and the counter allows it. */
  function Iterate<D>(ops: Ops<D>, fuel: nat, p: Prog, s: State<D>): Option<State<D>>
    requires p.Loop?
    decreases fuel, p, 0
  {
    if fuel == 0 then None else
    var r := Eval(ops, fuel, p.body, s);
    if r.None? then None else
    if r.value.done then r else
    var (ok, d) := ops.testWhile(p.head.rest, r.value.data);
    var s1 := r.value.(data := d);
    if !ok then Some(s1)
    else if s1.iters + 1 > MAX_ITERS then Some(s1.(iters := s1.iters + 1))
    else Iterate(ops, fuel - 1, p, s1.(iters := s1.iters + 1))
  }
}
