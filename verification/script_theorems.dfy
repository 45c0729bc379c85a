/** What holds of every run of the script machine. */
module ScriptTheorems {
  import opened Options
  import opened Script
  import opened ScriptSimulation

  // ---------------------------------------------------------------- the flat machine has the structured meaning

  lemma TurnTurns<D(!new)>(ops: Ops<D>, labels: map<string, nat>, code: seq<Line>)
    ensures Turns(Turn(ops, labels, code), ops, labels, code)
  {
    forall m: Machine<D> | At(m) ensures Turn(ops, labels, code)(m) == Step(ops, labels, code, m) {}
  }

  /** The program `p` is the whole script and its first line is next. */
  ghost predicate Loaded<D>(code: seq<Line>, p: Prog, m: Machine<D>) {
    && WellFormed(p) && code == Flatten(p)
    && m.pc == 0 && Idle(m) && |m.whilePC| + Depth(p) <= MAX_WHILE
  }

  /** A machine that has stopped shows `s`: QUIT stopped it, or it ran off the end with every flag,
      nesting count and stack as it was at the start. */
  ghost predicate StoppedWith<D>(code: seq<Line>, m: Machine<D>, e: Machine<D>, s: State<D>) {
    && Halted(code, e) && e.data == s.data && e.whileIters == s.iters && e.done == s.done
    && (!s.done ==> e == Moved(m, |code|, s))
  }

  /** If the meaning of the program is `s`, the run loop stops, and stops with `s`. */
  lemma MeaningIsReached<D(!new)>(ops: Ops<D>, labels: map<string, nat>, code: seq<Line>, p: Prog, m: Machine<D>, fuel: nat) returns (n: nat)
    requires Loaded(code, p, m)
    requires Eval(ops, fuel, p, Entry(m)).Some?
    ensures StoppedWith(code, m, Run(Turn(ops, labels, code), n, m), Eval(ops, fuel, p, Entry(m)).value)
  {
    TurnTurns(ops, labels, code);
    n := Simulate(Turn(ops, labels, code), ops, labels, code, p, m, fuel);
  }

  /** If the run loop stops after `n` turns, the program has a meaning (no loop entry ran its body more
      than `n` times) and the machine stopped with it. So a program without meaning never stops. */
  lemma StopsOnlyWithMeaning<D(!new)>(ops: Ops<D>, labels: map<string, nat>, code: seq<Line>, p: Prog, m: Machine<D>, n: nat)
    requires Loaded(code, p, m)
    requires Halted(code, Run(Turn(ops, labels, code), n, m))
    ensures Eval(ops, n + 1, p, Entry(m)).Some?
    ensures StoppedWith(code, m, Run(Turn(ops, labels, code), n, m), Eval(ops, n + 1, p, Entry(m)).value)
  {
    var turn := Turn(ops, labels, code);
    TurnTurns(ops, labels, code);
    var n' := Simulate(turn, ops, labels, code, p, m, n + 1);
    var e, e' := Run(turn, n, m), Run(turn, n', m);
    assert turn(e) == e;
    if n' >= n {
      RunAdds(turn, n, n' - n, m);
      StillStays(turn, n' - n, e);
    } else {
      assert turn(e') == e';
      RunAdds(turn, n', n - n', m);
      StillStays(turn, n - n', e');
    }
  }

  // ---------------------------------------------------------------- stacks, for every script

  /** Whatever the lines are, jumps and BREAK included, the loop stack holds at most 5 lines and the
      GOSUB stack at most 20. */
  lemma {:induction false} StacksStayBounded<D(!new)>(ops: Ops<D>, labels: map<string, nat>, code: seq<Line>, n: nat, m: Machine<D>)
    requires |m.whilePC| <= MAX_WHILE && |m.gosub| <= MAX_GOSUB
    ensures var e := Run(Turn(ops, labels, code), n, m); |e.whilePC| <= MAX_WHILE && |e.gosub| <= MAX_GOSUB
  {
    if n > 0 {
      StacksStayBounded(ops, labels, code, n - 1, Turn(ops, labels, code)(m));
    }
  }

  // ---------------------------------------------------------------- the loop counter

  /** Holds no WHILE. */
  predicate LoopFree(p: Prog) {
    Depth(p) == 0
  }

  lemma {:induction false} LoopFreeKeepsCounter<D>(ops: Ops<D>, fuel: nat, p: Prog, s: State<D>)
    requires LoopFree(p)
    ensures Eval(ops, fuel, p, s).Some? && Eval(ops, fuel, p, s).value.iters == s.iters
    decreases p
  {
    if !s.done && !p.Empty? {
      match p {
        case Plain(_, _) =>
        case Cond(head, thn, _, _) => LoopFreeKeepsCounter(ops, fuel, thn, s.(data := ops.test(head.rest, s.data).1));
        case CondElse(head, thn, _, els, _, _) =>
          LoopFreeKeepsCounter(ops, fuel, thn, s.(data := ops.test(head.rest, s.data).1));
          LoopFreeKeepsCounter(ops, fuel, els, s.(data := ops.test(head.rest, s.data).1));
      }
      LoopFreeKeepsCounter(ops, fuel, p.next, First(ops, fuel, p, s).value);
    }
  }

  /** A loop without inner loop runs its body at most 10001 times per entry. */
  lemma {:induction false} InnermostLoopIsBounded<D>(ops: Ops<D>, fuel: nat, p: Prog, s: State<D>)
    requires p.Loop? && LoopFree(p.body) && s.iters <= MAX_ITERS && fuel >= MAX_ITERS + 1 - s.iters
    ensures Iterate(ops, fuel, p, s).Some?
    decreases fuel
  {
    LoopFreeKeepsCounter(ops, fuel, p.body, s);
    var s1 := Eval(ops, fuel, p.body, s).value;
    if !s1.done {
      var (ok, d) := ops.testWhile(p.head.rest, s1.data);
      if ok && s1.iters + 1 <= MAX_ITERS {
        InnermostLoopIsBounded(ops, fuel - 1, p, s1.(data := d, iters := s1.iters + 1));
      }
    }
  }

  /** So every program whose loops are not nested has a meaning ... */
  lemma {:induction false} UnnestedHasMeaning<D>(ops: Ops<D>, p: Prog, s: State<D>)
    requires Depth(p) <= 1
    ensures Eval(ops, MAX_ITERS + 1, p, s).Some?
    decreases p
  {
    if !s.done && !p.Empty? {
      match p {
        case Plain(_, _) =>
        case Cond(head, thn, _, _) => UnnestedHasMeaning(ops, thn, s.(data := ops.test(head.rest, s.data).1));
        case CondElse(head, thn, _, els, _, _) =>
          UnnestedHasMeaning(ops, thn, s.(data := ops.test(head.rest, s.data).1));
          UnnestedHasMeaning(ops, els, s.(data := ops.test(head.rest, s.data).1));
        case Loop(head, _, _, _) =>
          InnermostLoopIsBounded(ops, MAX_ITERS + 1, p, State(ops.testWhile(head.rest, s.data).1, 0, false));
      }
      UnnestedHasMeaning(ops, p.next, First(ops, MAX_ITERS + 1, p, s).value);
    }
  }

  /** ... and the machine stops on it, whatever its conditions and commands do. */
  lemma UnnestedScriptsStop<D(!new)>(ops: Ops<D>, labels: map<string, nat>, code: seq<Line>, p: Prog, m: Machine<D>) returns (n: nat)
    requires Loaded(code, p, m) && Depth(p) <= 1
    ensures Halted(code, Run(Turn(ops, labels, code), n, m))
  {
    UnnestedHasMeaning(ops, p, Entry(m));
    n := MeaningIsReached(ops, labels, code, p, m, MAX_ITERS + 1);
  }

  /** Wherever such a program stands in arbitrary lines, jumps, BREAK and deeper loops elsewhere included, and however
      deep in loops the machine is when it comes to it: the machine comes out below it, with every flag and stack as
      before, unless it stops there by QUIT. */
  lemma UnnestedBlockEnds<D(!new)>(ops: Ops<D>, labels: map<string, nat>, code: seq<Line>, p: Prog, m: Machine<D>) returns (n: nat)
    requires WellFormed(p) && Depth(p) <= 1 && Holds(code, m.pc, Flatten(p)) && Idle(m) && |m.whilePC| + Depth(p) <= MAX_WHILE
    ensures var r := Eval(ops, MAX_ITERS + 1, p, Entry(m)); var e := Run(Turn(ops, labels, code), n, m);
            r.Some? && e.data == r.value.data && e.done == r.value.done && (!e.done ==> e == Moved(m, m.pc + |Flatten(p)|, r.value))
  {
    TurnTurns(ops, labels, code);
    UnnestedHasMeaning(ops, p, Entry(m));
    n := Simulate(Turn(ops, labels, code), ops, labels, code, p, m, MAX_ITERS + 1);
  }

  predicate NeverQuits<D>(r: Option<State<D>>) {
    r.Some? ==> !r.value.done
  }

  /** The bound is exact: an entered loop whose condition stays true and whose body neither loops nor
      quits runs its body exactly 10001 times. */
  lemma {:induction false} EndlessConditionRunsOut<D(!new)>(ops: Ops<D>, fuel: nat, p: Prog, s: State<D>)
    requires p.Loop? && LoopFree(p.body) && s.iters <= MAX_ITERS && !s.done
    requires forall d: D :: ops.testWhile(p.head.rest, d).0
    requires forall d: D, i: nat, f: nat :: NeverQuits(Eval(ops, f, p.body, State(d, i, false)))
    ensures Iterate(ops, fuel, p, s).Some? <==> fuel >= MAX_ITERS + 1 - s.iters
    ensures Iterate(ops, fuel, p, s).Some? ==> Iterate(ops, fuel, p, s).value.iters == MAX_ITERS + 1
    decreases fuel
  {
    if fuel > 0 {
      LoopFreeKeepsCounter(ops, fuel, p.body, s);
      var s1 := Eval(ops, fuel, p.body, s).value;
      assert s == State(s.data, s.iters, false);
      var (ok, d) := ops.testWhile(p.head.rest, s1.data);
      if s1.iters + 1 <= MAX_ITERS {
        EndlessConditionRunsOut(ops, fuel - 1, p, s1.(data := d, iters := s1.iters + 1));
      }
    }
  }

  /** One run of the body of `p` from data satisfying `inv` leaves the counter below the limit, the
      condition true and `inv` intact. */
  ghost predicate ComesBack<D>(ops: Ops<D>, p: Prog, inv: D -> bool, r: Option<State<D>>)
    requires p.Loop?
  {
    r.Some? ==>
      var (ok, d) := ops.testWhile(p.head.rest, r.value.data);
      !r.value.done && r.value.iters < MAX_ITERS && ok && inv(d)
  }

  /** The limit protects only loops that do not enter another loop: entering one clears the shared
      counter, so a loop whose body always comes back with a low counter has no meaning at any bound. */
  lemma {:induction false} ResetCounterLoopsForever<D(!new)>(ops: Ops<D>, fuel: nat, p: Prog, s: State<D>, inv: D -> bool)
    requires p.Loop? && !s.done && inv(s.data)
    requires forall d: D, i: nat, f: nat | inv(d) :: ComesBack(ops, p, inv, Eval(ops, f, p.body, State(d, i, false)))
    ensures Iterate(ops, fuel, p, s) == None
    decreases fuel
  {
    if fuel > 0 {
      var r := Eval(ops, fuel, p.body, s);
      assert s == State(s.data, s.iters, false);
      if r.Some? {
        assert ComesBack(ops, p, inv, r);
        var (ok, d) := ops.testWhile(p.head.rest, r.value.data);
        ResetCounterLoopsForever(ops, fuel - 1, p, State(d, r.value.iters + 1, false), inv);
      }
    }
  }
}
