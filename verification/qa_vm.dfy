/** The questionnaire interpreter itself: one object whose methods change its line counter, flags and
    stacks in place. Every method is tied to the machine of module Script. */
module QaInterpreter {
  import opened Options
  import opened Script
  import opened ScriptSimulation
  import opened ScriptTheorems
  import opened QaText
  import opened QaCommands
  import opened QaAnswerBook

  function ParseAll(lines: seq<string>): seq<Line> {
    seq(|lines|, i requires 0 <= i < |lines| => Parse(lines[i]))
  }

  /** The label a line defines, if any. */
  function LabelOf(raw: string): Option<string> {
    var s := TrimSpace(raw);
    if !HasPrefix(s, ":") then None else
    var lab := Upper(TrimSpace(s[1..]));
    var j := Index(lab, " ");
    Some(if 0 <= j < |lab| then lab[..j] else lab)
  }

  /** Where each label of the first `n` lines is defined; the last definition counts. */
  function LabelsOf(lines: seq<string>, n: nat): map<string, nat>
    requires n <= |lines|
  {
    if n == 0 then map[] else
    match LabelOf(lines[n - 1])
    case None => LabelsOf(lines, n - 1)
    case Some(lab) => LabelsOf(lines, n - 1)[lab := n - 1]
  }

  class Vm<W(!new)> {
    const book: AnswerBook<W>
    const code: seq<Line>
    const labels: map<string, nat>
    ghost const turn: Machine<Data<W>> -> Machine<Data<W>>
    var pc: nat
    var skipIf: bool
    var ifNest: nat
    var ignIf: nat
    var skipWhile: bool
    var ignWhile: nat
    var whilePC: seq<nat>
    var whileIters: nat
    var gosub: seq<nat>
    var done: bool

    ghost predicate Valid()
      reads this, book
    {
      book.Valid() && Turns(turn, book.ops, labels, code)
    }

    /** The interpreter as a machine value. */
    ghost function State(): Machine<Data<W>>
      requires Valid()
      reads this, book, book.ans
    {
      Machine(pc, skipIf, ifNest, ignIf, skipWhile, ignWhile, whilePC, whileIters, gosub, done, book.Now())
    }

    /** Loads a script: every line is taken apart and every label remembered. */
    constructor (env: Env<W>, lines: seq<string>, preset: map<int, string>, world: W)
      ensures Valid() && fresh(book) && fresh(book.ans) && book.env == env && book.ops == QaOps(env)
      ensures code == ParseAll(lines) && labels == LabelsOf(lines, |lines|) && turn == Turn(book.ops, labels, code)
      ensures State() == Start(Data(Overlaid(NoAnswers(), preset), world))
    {
      book := new AnswerBook(env, world);
      var table: map<string, nat> := map[];
      for i := 0 to |lines|
        invariant table == LabelsOf(lines, i)
      {
        var lab := LabelOf(lines[i]);
        if lab.Some? {
          table := table[lab.value := i];
        }
      }
      code, labels, turn := ParseAll(lines), table, Turn(QaOps(env), table, ParseAll(lines));
      pc, skipIf, ifNest, ignIf, skipWhile, ignWhile := 0, false, 0, 0, false, 0;
      whilePC, whileIters, gosub, done := [], 0, [], false;
      new;
      book.PutAll(preset);
      assert Turns(turn, book.ops, labels, code) by {
        forall m: Machine<Data<W>> | At(m) ensures turn(m) == Step(book.ops, labels, code, m) {}
      }
    }

    method GotoLabel(rest: string)
      requires Valid()
      modifies this
      ensures Valid() && State() == Jump(book.ops, labels, rest, old(State()))
    {
      var lab := book.FindTarget(rest);
      if lab in labels {
        pc := labels[lab];
        ifNest, skipIf, ignIf, skipWhile, ignWhile, whilePC := 0, false, 0, false, 0, [];
      }
    }

    method CmdWhile(rest: string)
      requires Valid()
      modifies this, book, book.ans
      ensures Valid() && State() == EnterWhile(book.ops, rest, old(State()))
    {
      var ok := book.TestWhile(rest);
      if ok {
        if |whilePC| < MAX_WHILE {
          whilePC := whilePC + [pc];
          whileIters := 0;
        }
        return;
      }
      skipWhile := true;
    }

    method CmdEndWhile()
      requires Valid()
      modifies this, book, book.ans
      ensures Valid() && State() == LeaveWhile(book.ops, code, old(State()))
    {
      if |whilePC| == 0 {
        return;
      }
      var start := whilePC[|whilePC| - 1];
      whilePC := whilePC[..|whilePC| - 1];
      if start >= |code| {
        return;
      }
      var ok := book.TestWhile(code[start].rest);
      if ok {
        whileIters := whileIters + 1;
        if whileIters > MAX_ITERS {
          return;
        }
        if |whilePC| < MAX_WHILE {
          whilePC := whilePC + [start];
        }
        pc := start;
      }
    }

    method SkipInIf(op: Op)
      requires Valid()
      modifies this
      ensures Valid() && State() == SkippingIf(op, old(State()))
    {
      match op
      case If => ignIf := ignIf + 1;
      case EndIf =>
        if ignIf > 0 {
          ignIf := ignIf - 1;
        } else {
          if ifNest > 0 {
            ifNest := ifNest - 1;
          }
          skipIf := false;
        }
      case Else =>
        if ignIf == 0 {
          skipIf := false;
        }
      case _ =>
    }

    method SkipInWhile(op: Op)
      requires Valid()
      modifies this
      ensures Valid() && State() == SkippingWhile(op, old(State()))
    {
      match op
      case While => ignWhile := ignWhile + 1;
      case EndWhile =>
        if ignWhile > 0 {
          ignWhile := ignWhile - 1;
        } else {
          skipWhile := false;
        }
      case _ =>
    }

    /** One line. */
    method Exec(line: Line)
      requires Valid()
      modifies this, book, book.ans
      ensures Valid() && State() == Execute(book.ops, labels, code, line, old(State()))
    {
      if line.op.Blank? {
        return;
      }
      if skipIf {
        SkipInIf(line.op);
        return;
      }
      if skipWhile {
        SkipInWhile(line.op);
        return;
      }
      match line.op
      case Blank =>
      case Quit => done := true;
      case Goto => GotoLabel(line.rest);
      case If =>
        var ok := book.Test(line.rest);
        ifNest := ifNest + 1;
        if !ok {
          skipIf := true;
        }
      case Else => skipIf := true;
      case EndIf =>
        if ifNest > 0 {
          ifNest := ifNest - 1;
        }
        skipIf := false;
      case While => CmdWhile(line.rest);
      case EndWhile => CmdEndWhile();
      case Gosub =>
        if |gosub| < MAX_GOSUB {
          gosub := gosub + [pc];
        }
        GotoLabel(line.rest);
      case Return =>
        if |gosub| > 0 {
          pc := gosub[|gosub| - 1];
          gosub := gosub[..|gosub| - 1];
        }
      case Break => skipWhile := true;
      case Act(cmd) => book.Do(cmd, line.rest);
    }

    /** One turn of the run loop. */
    method OneLine()
      requires Valid() && pc < |code| && !done
      modifies this, book, book.ans
      ensures Valid() && State() == turn(old(State()))
    {
      assert At(State());
      Exec(code[pc]);
      pc := pc + 1;
    }

    /** The run loop, for at most `limit` lines: a script can run forever. */
    method RunLoop(limit: nat) returns (stopped: bool)
      requires Valid()
      modifies this, book, book.ans
      ensures Valid() && State() == Run(turn, limit, old(State()))
      ensures stopped == Halted(code, State())
    {
      var left := limit;
      while left > 0 && pc < |code| && !done
        invariant Valid() && Run(turn, left, State()) == Run(turn, limit, old(State()))
      {
        OneLine();
        left := left - 1;
      }
      stopped := pc >= |code| || done;
      if left > 0 {
        assert At(State());
        StillStays(turn, left, State());
      }
    }
  }

  /** The interpreter after `limit` turns on these lines, started with these answers. */
  ghost function Played<W(!new)>(env: Env<W>, lines: seq<string>, preset: map<int, string>, world: W, limit: nat): Machine<Data<W>> {
    Run(Turn(QaOps(env), LabelsOf(lines, |lines|), ParseAll(lines)), limit, Start(Data(Overlaid(NoAnswers(), preset), world)))
  }

  /** Runs a questionnaire until it stops by itself or the caller hangs up, which is after `limit` lines. */
  method RunQuestionnaire<W(!new)>(env: Env<W>, lines: seq<string>, preset: map<int, string>, world: W, limit: nat)
    returns (stopped: bool, data: Data<W>)
    ensures var e := Played(env, lines, preset, world, limit); data == e.data && stopped == Halted(ParseAll(lines), e)
  {
    var vm := new Vm(env, lines, preset, world);
    stopped := vm.RunLoop(limit);
    data := vm.book.Now();
  }

  /** Where the lines are a structured program: what a run ends with, when it stops, is the program's meaning. */
  lemma StructuredRun<W(!new)>(env: Env<W>, lines: seq<string>, preset: map<int, string>, world: W, p: Prog, limit: nat)
    requires WellFormed(p) && ParseAll(lines) == Flatten(p) && Depth(p) <= MAX_WHILE
    requires Halted(ParseAll(lines), Played(env, lines, preset, world, limit))
    ensures var r := Eval(QaOps(env), limit + 1, p, State(Data(Overlaid(NoAnswers(), preset), world), 0, false));
            r.Some? && Played(env, lines, preset, world, limit).data == r.value.data
  {
    StopsOnlyWithMeaning(QaOps(env), LabelsOf(lines, |lines|), ParseAll(lines), p, Start(Data(Overlaid(NoAnswers(), preset), world)), limit);
  }
}
