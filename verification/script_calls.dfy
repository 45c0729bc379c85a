/** GOSUB and RETURN, GOTO and BREAK: where the jumps of a script lead. */
module ScriptCalls {
  import opened Options
  import opened Script
  import opened ScriptSimulation
  import opened ScriptTheorems

  /** The line `at` jumps to a label of the script, on line `to`. */
  predicate LeadsTo<D>(ops: Ops<D>, labels: map<string, nat>, code: seq<Line>, m: Machine<D>, to: nat) {
    m.pc < |code| && ops.target(code[m.pc].rest, m.data) in labels && labels[ops.target(code[m.pc].rest, m.data)] == to
  }

  /** Out of every IF and WHILE, on line `pc`. */
  function Outside<D>(m: Machine<D>, pc: nat, gosub: seq<nat>): Machine<D> {
    Machine(pc, false, 0, 0, false, 0, [], m.whileIters, gosub, m.done, m.data)
  }

  lemma StepGosub<D>(ops: Ops<D>, labels: map<string, nat>, code: seq<Line>, m: Machine<D>, to: nat)
    requires Idle(m) && LeadsTo(ops, labels, code, m, to) && code[m.pc].op.Gosub?
    ensures Step(ops, labels, code, m) == Outside(m, to + 1, if |m.gosub| < MAX_GOSUB then m.gosub + [m.pc] else m.gosub)
  {}

  lemma TurnGosub<D(!new)>(turn: Machine<D> -> Machine<D>, ops: Ops<D>, labels: map<string, nat>, code: seq<Line>, m: Machine<D>, to: nat)
    requires Turns(turn, ops, labels, code) && Idle(m) && LeadsTo(ops, labels, code, m, to) && code[m.pc].op.Gosub?
    ensures Run(turn, 1, m) == Outside(m, to + 1, if |m.gosub| < MAX_GOSUB then m.gosub + [m.pc] else m.gosub)
  {
    StepGosub(ops, labels, code, m, to);
    OneTurn(turn, ops, labels, code, m, Step(ops, labels, code, m));
  }

  lemma TurnReturn<D(!new)>(turn: Machine<D> -> Machine<D>, ops: Ops<D>, labels: map<string, nat>, code: seq<Line>, m: Machine<D>,
                            outer: seq<nat>, back: nat)
    requires Turns(turn, ops, labels, code) && Idle(m) && m.pc < |code| && code[m.pc].op.Return? && m.gosub == outer + [back]
    ensures Run(turn, 1, m) == m.(pc := back + 1, gosub := outer)
  {
    assert m.gosub[..|m.gosub| - 1] == outer;
    OneTurn(turn, ops, labels, code, m, Step(ops, labels, code, m));
  }

  /** A subroutine: its lines stand below the label, and a RETURN below them. */
  predicate Subroutine(code: seq<Line>, to: nat, p: Prog) {
    && WellFormed(p) && Depth(p) <= MAX_WHILE && Holds(code, to + 1, Flatten(p))
    && to + 1 + |Flatten(p)| < |code| && code[to + 1 + |Flatten(p)|].op.Return?
  }

  /** What a call leaves behind when its subroutine has come to `s`. */
  ghost predicate Called<D>(m: Machine<D>, e: Machine<D>, s: State<D>) {
    && e.data == s.data && e.whileIters == s.iters && e.done == s.done
    && (!s.done && |m.gosub| < MAX_GOSUB ==> e == Moved(Outside(m, 0, m.gosub), m.pc + 1, s))
    && (!s.done && |m.gosub| == MAX_GOSUB ==> e == Moved(Outside(m, 0, m.gosub[..MAX_GOSUB - 1]), m.gosub[MAX_GOSUB - 1] + 1, s))
  }

  lemma CallRuns<D(!new)>(turn: Machine<D> -> Machine<D>, ops: Ops<D>, labels: map<string, nat>, code: seq<Line>, p: Prog, m: Machine<D>,
                          to: nat, fuel: nat, s: State<D>) returns (n: nat)
    requires Turns(turn, ops, labels, code) && Idle(m) && LeadsTo(ops, labels, code, m, to) && code[m.pc].op.Gosub?
    requires Subroutine(code, to, p) && |m.gosub| <= MAX_GOSUB && Eval(ops, fuel, p, Entry(m)) == Some(s)
    ensures Called(m, Run(turn, n, m), s)
  {
    var stored := if |m.gosub| < MAX_GOSUB then m.gosub + [m.pc] else m.gosub;
    var m1 := Outside(m, to + 1, stored);
    TurnGosub(turn, ops, labels, code, m, to);
    n := Simulate(turn, ops, labels, code, p, m1, fuel);
    if !s.done {
      ComeBack(turn, ops, labels, code, m, Moved(m1, to + 1 + |Flatten(p)|, s), s, stored);
      RunAdds(turn, n, 1, m1);
      n := n + 1;
    }
    RunAdds(turn, 1, n, m);
    n := 1 + n;
  }

  /** A call of a subroutine with a meaning carries that out, out of every IF and WHILE, and then, unless QUIT stopped it,
      goes on below the line stored last. With fewer than 20 lines stored that is the line of the call itself, and the
      stored lines are as they were. */
  lemma CallReturns<D(!new)>(ops: Ops<D>, labels: map<string, nat>, code: seq<Line>, p: Prog, m: Machine<D>, to: nat, fuel: nat) returns (n: nat)
    requires Idle(m) && LeadsTo(ops, labels, code, m, to) && code[m.pc].op.Gosub? && Subroutine(code, to, p) && |m.gosub| <= MAX_GOSUB
    requires Eval(ops, fuel, p, Entry(m)).Some?
    ensures Called(m, Run(Turn(ops, labels, code), n, m), Eval(ops, fuel, p, Entry(m)).value)
  {
    TurnTurns(ops, labels, code);
    n := CallRuns(Turn(ops, labels, code), ops, labels, code, p, m, to, fuel, Eval(ops, fuel, p, Entry(m)).value);
  }

  /** The RETURN of that call. */
  lemma ComeBack<D(!new)>(turn: Machine<D> -> Machine<D>, ops: Ops<D>, labels: map<string, nat>, code: seq<Line>, m: Machine<D>,
                          m2: Machine<D>, s: State<D>, stored: seq<nat>)
    requires Turns(turn, ops, labels, code) && Idle(m) && |m.gosub| <= MAX_GOSUB && m2.pc < |code| && code[m2.pc].op.Return?
    requires stored == if |m.gosub| < MAX_GOSUB then m.gosub + [m.pc] else m.gosub
    requires m2 == Moved(Outside(m, 0, stored), m2.pc, s)
    ensures |m.gosub| < MAX_GOSUB ==> Run(turn, 1, m2) == Moved(Outside(m, 0, m.gosub), m.pc + 1, s)
    ensures |m.gosub| == MAX_GOSUB ==> Run(turn, 1, m2) == Moved(Outside(m, 0, m.gosub[..MAX_GOSUB - 1]), m.gosub[MAX_GOSUB - 1] + 1, s)
  {
    var outer := if |m.gosub| < MAX_GOSUB then m.gosub else m.gosub[..MAX_GOSUB - 1];
    var back := if |m.gosub| < MAX_GOSUB then m.pc else m.gosub[MAX_GOSUB - 1];
    assert stored == outer + [back];
    TurnReturn(turn, ops, labels, code, m2, outer, back);
  }

  /** So a call comes back below itself with the stored lines as they were exactly when fewer than 20 are stored. */
  lemma CallReturnsExactly<D(!new)>(ops: Ops<D>, labels: map<string, nat>, code: seq<Line>, p: Prog, m: Machine<D>, to: nat, fuel: nat) returns (n: nat)
    requires Idle(m) && LeadsTo(ops, labels, code, m, to) && code[m.pc].op.Gosub? && Subroutine(code, to, p) && |m.gosub| <= MAX_GOSUB
    requires Eval(ops, fuel, p, Entry(m)).Some? && !Eval(ops, fuel, p, Entry(m)).value.done
    ensures var e := Run(Turn(ops, labels, code), n, m); e.pc == m.pc + 1 && e.gosub == m.gosub <==> |m.gosub| < MAX_GOSUB
  {
    n := CallReturns(ops, labels, code, p, m, to, fuel);
  }

  lemma StepJump<D>(ops: Ops<D>, labels: map<string, nat>, code: seq<Line>, m: Machine<D>, lab: string, stored: seq<nat>)
    requires Idle(m) && m.pc < |code| && (code[m.pc].op.Goto? || code[m.pc].op.Gosub?) && lab == ops.target(code[m.pc].rest, m.data)
    requires stored == if code[m.pc].op.Gosub? && |m.gosub| < MAX_GOSUB then m.gosub + [m.pc] else m.gosub
    ensures Step(ops, labels, code, m) == if lab in labels then Outside(m, labels[lab] + 1, stored) else m.(pc := m.pc + 1, gosub := stored)
  {}

  /** A jump to a label goes on below it, out of every IF and WHILE; the stored lines stay. To a word that is no label it
      goes nowhere, though a GOSUB stores its line all the same. */
  lemma JumpGoesOn<D(!new)>(ops: Ops<D>, labels: map<string, nat>, code: seq<Line>, m: Machine<D>)
    requires Idle(m) && m.pc < |code| && (code[m.pc].op.Goto? || code[m.pc].op.Gosub?)
    ensures var lab := ops.target(code[m.pc].rest, m.data); var e := Run(Turn(ops, labels, code), 1, m);
            var stored := if code[m.pc].op.Gosub? && |m.gosub| < MAX_GOSUB then m.gosub + [m.pc] else m.gosub;
            e == if lab in labels then Outside(m, labels[lab] + 1, stored) else m.(pc := m.pc + 1, gosub := stored)
  {
    TurnTurns(ops, labels, code);
    StepJump(ops, labels, code, m, ops.target(code[m.pc].rest, m.data),
             if code[m.pc].op.Gosub? && |m.gosub| < MAX_GOSUB then m.gosub + [m.pc] else m.gosub);
    OneTurn(Turn(ops, labels, code), ops, labels, code, m, Step(ops, labels, code, m));
  }

  // ---------------------------------------------------------------- BREAK

  lemma StepBreak<D>(ops: Ops<D>, labels: map<string, nat>, code: seq<Line>, m: Machine<D>)
    requires Idle(m) && m.pc < |code| && code[m.pc].op.Break?
    ensures Step(ops, labels, code, m) == m.(pc := m.pc + 1, skipWhile := true)
  {}

  /** No WHILE and no ENDWHILE in `ls` goes without the other. */
  ghost predicate Closed(ls: seq<Line>) {
    forall k: nat :: WhileDepth(ls, k) == Some(k)
  }

  lemma {:induction false} DeeperAlike(ls: seq<Line>, j: nat, k: nat)
    requires WhileDepth(ls, j).Some?
    ensures WhileDepth(ls, j + k) == Some(WhileDepth(ls, j).value + k)
  {
    if ls != [] {
      DeeperAlike(ls[1..], if ls[0].op.While? then j + 1 else if ls[0].op.EndWhile? then j - 1 else j, k);
    }
  }

  lemma ClosedAlike(ls: seq<Line>)
    requires WhileDepth(ls, 0) == Some(0)
    ensures Closed(ls)
  {
    forall k: nat ensures WhileDepth(ls, k) == Some(k) { DeeperAlike(ls, 0, k); }
  }

  lemma SkipToEnd<D(!new)>(turn: Machine<D> -> Machine<D>, ops: Ops<D>, labels: map<string, nat>, code: seq<Line>, ls: seq<Line>, m: Machine<D>)
    requires Turns(turn, ops, labels, code) && m.skipWhile && Idle(m.(skipWhile := false)) && Holds(code, m.pc, ls) && Closed(ls)
    requires m.pc + |ls| < |code| && code[m.pc + |ls|].op.EndWhile?
    ensures Run(turn, |ls| + 1, m) == m.(pc := m.pc + |ls| + 1, skipWhile := false)
  {
    assert WhileDepth(ls, m.ignWhile) == Some(0);
    SkipWhileLines(turn, ops, labels, code, ls, m);
    TurnSkippedEndWhile(turn, ops, labels, code, Run(turn, |ls|, m));
    RunAdds(turn, |ls|, 1, m);
  }

  /** BREAK goes on below the ENDWHILE of its loop, over any lines in which WHILE and ENDWHILE are balanced. The loop's line
      stays on the stack. */
  lemma BreakGoesBelow<D(!new)>(ops: Ops<D>, labels: map<string, nat>, code: seq<Line>, ls: seq<Line>, m: Machine<D>)
    requires Idle(m) && m.pc < |code| && code[m.pc].op.Break? && Holds(code, m.pc + 1, ls) && WhileDepth(ls, 0) == Some(0)
    requires m.pc + 1 + |ls| < |code| && code[m.pc + 1 + |ls|].op.EndWhile?
    ensures Run(Turn(ops, labels, code), |ls| + 2, m) == m.(pc := m.pc + |ls| + 2)
  {
    TurnTurns(ops, labels, code);
    ClosedAlike(ls);
    BreakRuns(Turn(ops, labels, code), ops, labels, code, ls, m);
  }

  lemma BreakRuns<D(!new)>(turn: Machine<D> -> Machine<D>, ops: Ops<D>, labels: map<string, nat>, code: seq<Line>, ls: seq<Line>, m: Machine<D>)
    requires Turns(turn, ops, labels, code) && Idle(m)
    requires m.pc < |code| && code[m.pc].op.Break? && Holds(code, m.pc + 1, ls) && Closed(ls)
    requires m.pc + 1 + |ls| < |code| && code[m.pc + 1 + |ls|].op.EndWhile?
    ensures Run(turn, |ls| + 2, m) == m.(pc := m.pc + |ls| + 2)
  {
    var m1 := m.(pc := m.pc + 1, skipWhile := true);
    BreakFirst(turn, ops, labels, code, |ls| + 1, m, m1);
    Broken(turn, ops, labels, code, ls, m, m1, Run(turn, |ls| + 1, m1));
  }

  lemma Broken<D(!new)>(turn: Machine<D> -> Machine<D>, ops: Ops<D>, labels: map<string, nat>, code: seq<Line>, ls: seq<Line>,
                        m: Machine<D>, m1: Machine<D>, e: Machine<D>)
    requires Turns(turn, ops, labels, code) && Idle(m) && m1 == m.(pc := m.pc + 1, skipWhile := true) && Holds(code, m1.pc, ls) && Closed(ls)
    requires m1.pc + |ls| < |code| && code[m1.pc + |ls|].op.EndWhile? && e == Run(turn, |ls| + 1, m1)
    ensures e == m.(pc := m.pc + |ls| + 2)
  {
    SkipToEnd(turn, ops, labels, code, ls, m1);
  }

  lemma BreakFirst<D(!new)>(turn: Machine<D> -> Machine<D>, ops: Ops<D>, labels: map<string, nat>, code: seq<Line>, k: nat,
                            m: Machine<D>, m1: Machine<D>)
    requires Turns(turn, ops, labels, code) && Idle(m) && m.pc < |code| && code[m.pc].op.Break?
    requires m1 == m.(pc := m.pc + 1, skipWhile := true)
    ensures Run(turn, k + 1, m) == Run(turn, k, m1)
  {
    StepBreak(ops, labels, code, m);
    OneTurn(turn, ops, labels, code, m, m1);
  }

  /** So the next ENDWHILE tests the condition of the loop that was left, and goes back into that loop while it holds. */
  lemma BrokenLoopComesBack<D(!new)>(ops: Ops<D>, labels: map<string, nat>, code: seq<Line>, ls: seq<Line>, m: Machine<D>, outer: seq<nat>, start: nat)
    requires Idle(m) && m.pc < |code| && code[m.pc].op.Break? && Holds(code, m.pc + 1, ls) && WhileDepth(ls, 0) == Some(0)
    requires m.pc + 2 + |ls| < |code| && code[m.pc + 1 + |ls|].op.EndWhile? && code[m.pc + 2 + |ls|].op.EndWhile?
    requires m.whilePC == outer + [start] && |outer| < MAX_WHILE && start < |code| && m.whileIters < MAX_ITERS
    ensures var (ok, d) := ops.testWhile(code[start].rest, m.data); var e := Run(Turn(ops, labels, code), |ls| + 3, m);
            e.data == d && e.pc == (if ok then start + 1 else m.pc + |ls| + 3) && e.whilePC == if ok then m.whilePC else outer
  {
    var turn := Turn(ops, labels, code);
    TurnTurns(ops, labels, code);
    BreakGoesBelow(ops, labels, code, ls, m);
    TurnEndWhile(turn, ops, labels, code, Run(turn, |ls| + 2, m), outer, start);
    RunAdds(turn, |ls| + 2, 1, m);
  }
}
