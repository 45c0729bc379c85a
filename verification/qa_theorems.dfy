/** What holds of whole questionnaires: a script that never ends, and what a run can change. */
module QaTheorems {
  import opened Options
  import opened Script
  import opened ScriptSimulation
  import opened ScriptTheorems
  import opened QaText
  import opened QaCommands
  import opened QaInterpreter

  // ---------------------------------------------------------------- plain tests

  lemma {:induction false} NatTextIsDigits(n: nat)
    ensures AllOf(NatText(n), IsDigit) && NatText(n) != ""
  {
    if n >= 10 { NatTextIsDigits(n / 10); }
  }

  lemma NoDo(t: string)
    requires t != "" && IsDigit(t[|t| - 1])
    ensures !HasSuffix(Lower(t), " do")
  {
    if |t| >= 3 { assert Lower(t)[|t| - 3..][2] == t[|t| - 1]; }
  }

  lemma ValuePlain(ans: Answers, s: string, k: int)
    requires TrimRA(s) == s && s != "" && IsDigit(s[0]) && Atoi(s) == k && 1 <= k <= MAX_ANSWERS
    requires '\\' !in s && '/' !in s && '.' !in s
    ensures Value(ans, s) == s
  {}

  /** A number from 1 to 100 stands for itself. */
  lemma ValueOfNumber(ans: Answers, k: int)
    requires 1 <= k <= MAX_ANSWERS
    ensures Value(ans, Itoa(k)) == Itoa(k)
  {
    NatTextIsDigits(k);
    AtoiOfItoa(k);
    TrimBare(Itoa(k), IsBlank);
    ValuePlain(ans, Itoa(k), k);
  }

  /** The test whether answer `n` differs from a number is taken apart as such. */
  lemma DiffersIs(n: nat, k: nat)
    ensures ParseCondition(Itoa(n) + "" + " " + ("<>" + " " + Itoa(k))) == Condition(Itoa(n), false, "<>", Itoa(k))
  {
    NatTextIsDigits(n);
    NatTextIsDigits(k);
    NoDo(Itoa(k));
    ConditionReadsBack(Itoa(n), false, "<>", Itoa(k));
  }

  lemma DecideText<W>(c: Condition, n: int, right: string, d: Data<W>)
    requires !c.numeric && Atoi(c.left) == n && Value(d.ans, c.right) == right
    ensures Decide(Differs, c, d) == (Upper(Get(d.ans, n)) != Upper(right), d)
  {}

  lemma DiffersDecides<W>(n: int, k: int, d: Data<W>)
    requires 1 <= k <= MAX_ANSWERS
    ensures Decide(Differs, Condition(Itoa(n), false, "<>", Itoa(k)), d) == (Upper(Get(d.ans, n)) != Upper(Itoa(k)), d)
  {
    AtoiOfItoa(n);
    ValueOfNumber(d.ans, k);
    DecideText(Condition(Itoa(n), false, "<>", Itoa(k)), n, Itoa(k), d);
  }

  lemma DiffersIsAnOperator()
    ensures OperatorOf("<>") == Differs
  {
    assert Upper("<>") == "<>";
  }

  lemma DiffersTests<W>(text: string, n: int, k: int, d: Data<W>)
    requires 1 <= n && 1 <= k <= MAX_ANSWERS && text == Itoa(n) + "" + " " + ("<>" + " " + Itoa(k))
    ensures TestIf(text, d) == (Upper(Get(d.ans, n)) != Upper(Itoa(k)), d)
  {
    DiffersIs(n, k);
    DiffersIsAnOperator();
    DiffersDecides(n, k, d);
  }

  lemma DigitText(n: nat)
    requires n < 10
    ensures Itoa(n) == [DigitChar(n)] && Upper(Itoa(n)) == Itoa(n)
  {}

  // ---------------------------------------------------------------- a script that never ends

  const OUTER := "1 <> 2"
  const INNER := "2 <> 1"

  function EndlessLines(): seq<string> {
    ["WHILE 1 <> 2", "WHILE 2 <> 1", "INC 2", "ENDWHILE", "DEC 2", "ENDWHILE"]
  }

  /** While answer 1 is not 2: while answer 2 is not 1, count it up; then count it down. */
  function Endless(): Prog {
    Loop(Line(While, OUTER), Counting(), Line(EndWhile, ""), Empty)
  }

  function Counting(): Prog {
    Loop(Line(While, INNER), Plain(Line(Act("INC"), "2"), Empty), Line(EndWhile, ""),
         Plain(Line(Act("DEC"), "2"), Empty))
  }

  predicate Ready<W>(d: Data<W>) { d.ans[1] == "" && (d.ans[2] == "" || d.ans[2] == "0") }

  lemma PlainText(text: string)
    requires |text| == 6 && IsDigit(text[0]) && IsDigit(text[5])
    ensures StripDo(text) == text
  {
    NoDo(text);
    StripNothing(text);
  }

  lemma DiffersText(n: nat, k: nat)
    requires n < 10 && k < 10
    ensures [DigitChar(n)] + " <> " + [DigitChar(k)] == Itoa(n) + "" + " " + ("<>" + " " + Itoa(k))
  {
    DigitText(n);
    DigitText(k);
  }

  lemma WhileIs<W>(env: Env<W>, text: string, d: Data<W>)
    requires StripDo(text) == text
    ensures QaOps(env).testWhile(text, d) == TestIf(text, d)
  {}

  lemma WhileDiffers<W>(env: Env<W>, text: string, n: nat, k: nat, d: Data<W>)
    requires 1 <= n < 10 && 1 <= k < 10 && text == [DigitChar(n)] + " <> " + [DigitChar(k)]
    ensures QaOps(env).testWhile(text, d) == (Upper(d.ans[n]) != [DigitChar(k)], d)
  {
    DigitText(k);
    PlainText(text);
    DiffersText(n, k);
    DiffersTests(text, n, k, d);
    WhileIs(env, text, d);
  }

  lemma ActIs<W>(env: Env<W>, cmd: string, rest: string, d: Data<W>)
    ensures QaOps(env).act(cmd, rest, d) == Command(env, cmd, rest, d)
  {}

  lemma IncIs<W>(env: Env<W>, cmd: string, rest: string, d: Data<W>)
    requires VerbOf(cmd) == Inc
    ensures Command(env, cmd, rest, d) == AddTo(rest, 1, d)
  {}

  lemma DecIs<W>(env: Env<W>, cmd: string, rest: string, d: Data<W>)
    requires VerbOf(cmd) == Dec
    ensures Command(env, cmd, rest, d) == AddTo(rest, -1, d)
  {}

  lemma VerbsAre()
    ensures VerbOf("INC") == Inc && VerbOf("DEC") == Dec
  {}

  lemma AddStepIs<W>(d: Data<W>, n: nat, from: int, step: int)
    requires Atoi(Get(d.ans, n)) == from
    ensures AddStep(n, step, d) == Put(d, n, Itoa(from + step))
  {}

  lemma AddsTo<W>(d: Data<W>, n: nat, from: nat, step: int)
    requires 1 <= n < 10 && from < 10 && 0 <= from + step < 10 && (d.ans[n] == Itoa(from) || (d.ans[n] == "" && from == 0))
    ensures AddTo(Itoa(n), step, d) == Put(d, n, [DigitChar(from + step)])
  {
    AtoiOfItoa(from);
    assert Atoi("") == 0;
    AddToNames(d, n, step);
    AddStepIs(d, n, from, step);
    DigitText(from + step);
  }

  lemma IncActs<W>(env: Env<W>, rest: string, d: Data<W>)
    ensures QaOps(env).act("INC", rest, d) == AddTo(rest, 1, d)
  {
    VerbsAre();
    IncIs(env, "INC", rest, d);
    ActIs(env, "INC", rest, d);
  }

  lemma DecActs<W>(env: Env<W>, rest: string, d: Data<W>)
    ensures QaOps(env).act("DEC", rest, d) == AddTo(rest, -1, d)
  {
    VerbsAre();
    DecIs(env, "DEC", rest, d);
    ActIs(env, "DEC", rest, d);
  }

  lemma Counts<W>(d: Data<W>)
    ensures Ready(d) ==> AddTo("2", 1, d) == Put(d, 2, "1")
    ensures d.ans[2] == "1" ==> AddTo("2", -1, d) == Put(d, 2, "0")
  {
    DigitText(0);
    DigitText(1);
    DigitText(2);
    if Ready(d) {
      AddsTo(d, 2, 0, 1);
    } else if d.ans[2] == "1" {
      AddsTo(d, 2, 1, -1);
    }
  }

  /** The inner loop from data `d`, where counting up and down lead to `up` and `down`. */
  lemma CountingOnce<D>(ops: Ops<D>, d: D, up: D, down: D, i: nat, f: nat)
    requires ops.testWhile(INNER, d) == (true, d) && ops.testWhile(INNER, up) == (false, up)
    requires ops.act("INC", "2", d) == up && ops.act("DEC", "2", up) == down
    ensures Eval(ops, f, Counting(), State(d, i, false)) == if f == 0 then None else Some(State(down, 0, false))
  {
    if f > 0 {
      CountingBody(ops, d, up, f);
      CountingNext(ops, up, down, f);
      assert Iterate(ops, f, Counting(), State(d, 0, false)) == Some(State(up, 0, false));
    }
  }

  lemma CountingBody<D>(ops: Ops<D>, d: D, up: D, f: nat)
    requires ops.act("INC", "2", d) == up
    ensures Eval(ops, f, Counting().body, State(d, 0, false)) == Some(State(up, 0, false))
  {
    assert Eval(ops, f, Empty, State(up, 0, false)) == Some(State(up, 0, false));
  }

  lemma CountingNext<D>(ops: Ops<D>, up: D, down: D, f: nat)
    requires ops.act("DEC", "2", up) == down
    ensures Eval(ops, f, Counting().next, State(up, 0, false)) == Some(State(down, 0, false))
  {
    assert Eval(ops, f, Empty, State(down, 0, false)) == Some(State(down, 0, false));
  }

  lemma InnerTest<W>(env: Env<W>, d: Data<W>)
    ensures Ready(d) ==> QaOps(env).testWhile(INNER, d) == (true, d)
    ensures d.ans[2] == "1" ==> QaOps(env).testWhile(INNER, d) == (false, d)
  {
    assert Upper("") == "" && Upper("0") == "0" && Upper("1") == "1";
    WhileDiffers(env, INNER, 2, 1, d);
  }

  lemma OuterTest<W>(env: Env<W>, d: Data<W>)
    requires Ready(d)
    ensures QaOps(env).testWhile(OUTER, d) == (true, d)
  {
    assert Upper("") == "";
    WhileDiffers(env, OUTER, 1, 2, d);
  }

  lemma UpFacts<W>(env: Env<W>, d: Data<W>, up: Data<W>)
    requires Ready(d) && up == Put(d, 2, "1")
    ensures QaOps(env).testWhile(INNER, d) == (true, d) && QaOps(env).testWhile(INNER, up) == (false, up)
    ensures QaOps(env).act("INC", "2", d) == up
  {
    InnerTest(env, d);
    InnerTest(env, up);
    Counts(d);
    IncActs(env, "2", d);
  }

  lemma DownFacts<W>(env: Env<W>, up: Data<W>, down: Data<W>)
    requires up.ans[2] == "1" && down == Put(up, 2, "0") && Ready(down)
    ensures QaOps(env).act("DEC", "2", up) == down && QaOps(env).testWhile(OUTER, down) == (true, down)
  {
    Counts(up);
    DecActs(env, "2", up);
    OuterTest(env, down);
  }

  lemma CountingComesBack<W>(env: Env<W>, d: Data<W>, i: nat, f: nat)
    requires Ready(d)
    ensures ComesBack(QaOps(env), Endless(), Ready, Eval(QaOps(env), f, Counting(), State(d, i, false)))
  {
    var up := Put(d, 2, "1");
    var down := Put(up, 2, "0");
    UpFacts(env, d, up);
    DownFacts(env, up, down);
    RoundComesBack(QaOps(env), d, up, down, i, f);
  }

  lemma RoundComesBack<W>(ops: Ops<Data<W>>, d: Data<W>, up: Data<W>, down: Data<W>, i: nat, f: nat)
    requires ops.testWhile(INNER, d) == (true, d) && ops.testWhile(INNER, up) == (false, up)
    requires ops.act("INC", "2", d) == up && ops.act("DEC", "2", up) == down
    requires Ready(down) && ops.testWhile(OUTER, down) == (true, down)
    ensures ComesBack(ops, Endless(), Ready, Eval(ops, f, Counting(), State(d, i, false)))
  {
    CountingOnce(ops, d, up, down, i, f);
    Returns(ops, down, f);
  }

  lemma Returns<W>(ops: Ops<Data<W>>, down: Data<W>, f: nat)
    requires Ready(down) && ops.testWhile(OUTER, down) == (true, down)
    ensures ComesBack(ops, Endless(), Ready, if f == 0 then None else Some(State(down, 0, false)))
  {}

  lemma NoMeaning<D(!new)>(ops: Ops<D>, fuel: nat, d: D, inv: D -> bool)
    requires inv(d) && ops.testWhile(OUTER, d) == (true, d)
    requires forall e: D, i: nat, f: nat | inv(e) :: ComesBack(ops, Endless(), inv, Eval(ops, f, Endless().body, State(e, i, false)))
    ensures Eval(ops, fuel, Endless(), State(d, 0, false)) == None
  {
    ResetCounterLoopsForever(ops, fuel, Endless(), State(d, 0, false), inv);
  }

  /** The program has no meaning at any bound. */
  lemma EndlessHasNoMeaning<W(!new)>(env: Env<W>, fuel: nat, d: Data<W>)
    requires Ready(d)
    ensures Eval(QaOps(env), fuel, Endless(), State(d, 0, false)) == None
  {
    forall e: Data<W>, i: nat, f: nat | Ready(e)
      ensures ComesBack(QaOps(env), Endless(), Ready, Eval(QaOps(env), f, Endless().body, State(e, i, false)))
    {
      CountingComesBack(env, e, i, f);
    }
    OuterTest(env, d);
    NoMeaning(QaOps(env), fuel, d, Ready);
  }

  predicate IsCapital(c: char) { 'A' <= c <= 'Z' }

  lemma Capitals(word: string)
    requires AllOf(word, IsCapital)
    ensures AllOf(word, IsLetter) && Upper(word) == word
  {}

  lemma ParseIs(raw: string, word: string, rest: string)
    requires TrimRA(raw) == raw && raw != "" && IsLetter(raw[0]) && SplitCmd(raw) == (word, rest)
    ensures Parse(raw) == Line(OpOf(word), rest)
  {}

  lemma ParseOf(raw: string, word: string, rest: string)
    requires word != "" && AllOf(word, IsCapital) && rest != "" && Bare(rest, IsBlank) && raw == word + " " + rest
    ensures Parse(raw) == Line(OpOf(word), rest)
  {
    Capitals(word);
    SplitOf(word, rest);
    TrimBare(raw, IsBlank);
    ParseIs(raw, word, rest);
  }

  lemma ParseOfWord(word: string)
    requires word != "" && AllOf(word, IsCapital)
    ensures Parse(word) == Line(OpOf(word), "")
  {
    Capitals(word);
    SplitWord(word);
    TrimBare(word, IsBlank);
    ParseIs(word, word, "");
  }

  function CountingLines(): seq<Line> {
    [Line(While, INNER), Line(Act("INC"), "2"), Line(EndWhile, ""), Line(Act("DEC"), "2")]
  }

  lemma CountingFlat()
    ensures Flatten(Counting()) == CountingLines()
  {
    assert Flatten(Plain(Line(Act("DEC"), "2"), Empty)) == [Line(Act("DEC"), "2")];
    assert Flatten(Plain(Line(Act("INC"), "2"), Empty)) == [Line(Act("INC"), "2")];
  }

  lemma EndlessFlat()
    ensures Flatten(Endless()) == [Line(While, OUTER)] + CountingLines() + [Line(EndWhile, "")]
  {
    CountingFlat();
    assert Flatten(Empty) == [];
  }

  lemma WordsAre()
    ensures OpOf("WHILE") == While && OpOf("ENDWHILE") == EndWhile && OpOf("INC") == Act("INC") && OpOf("DEC") == Act("DEC")
  {}

  lemma LineParses(raw: string, line: Line)
    requires (raw == "WHILE 1 <> 2" && line == Line(While, OUTER)) || (raw == "WHILE 2 <> 1" && line == Line(While, INNER))
    ensures Parse(raw) == line
  {
    WordsAre();
    ParseOf(raw, "WHILE", if raw == "WHILE 1 <> 2" then OUTER else INNER);
  }

  lemma StepParses(raw: string, line: Line)
    requires (raw == "INC 2" && line == Line(Act("INC"), "2")) || (raw == "DEC 2" && line == Line(Act("DEC"), "2"))
    ensures Parse(raw) == line
  {
    WordsAre();
    ParseOf(raw, if raw == "INC 2" then "INC" else "DEC", "2");
  }

  lemma EndParses(raw: string)
    requires raw == "ENDWHILE"
    ensures Parse(raw) == Line(EndWhile, "")
  {
    WordsAre();
    ParseOfWord(raw);
  }

  lemma ParseSix(l: seq<string>, ls: seq<Line>)
    requires |l| == |ls| == 6 && forall k | 0 <= k < 6 :: Parse(l[k]) == ls[k]
    ensures ParseAll(l) == ls
  {}

  function SixLines(): seq<Line> {
    [Line(While, OUTER), Line(While, INNER), Line(Act("INC"), "2"), Line(EndWhile, ""), Line(Act("DEC"), "2"), Line(EndWhile, "")]
  }

  lemma LineAt(k: nat)
    requires k < 6
    ensures Parse(EndlessLines()[k]) == SixLines()[k]
  {
    var raw, line := EndlessLines()[k], SixLines()[k];
    if k < 2 {
      LineParses(raw, line);
    } else if k == 2 || k == 4 {
      StepParses(raw, line);
    } else {
      EndParses(raw);
    }
  }

  lemma EndlessReads()
    ensures ParseAll(EndlessLines()) == SixLines()
  {
    forall k: nat | k < 6 ensures Parse(EndlessLines()[k]) == SixLines()[k] { LineAt(k); }
    ParseSix(EndlessLines(), SixLines());
  }

  lemma SixAre()
    ensures SixLines() == [Line(While, OUTER)] + CountingLines() + [Line(EndWhile, "")]
  {}

  lemma EndlessParses()
    ensures ParseAll(EndlessLines()) == Flatten(Endless())
  {
    EndlessReads();
    EndlessFlat();
    SixAre();
  }

  lemma EndlessIsStructured()
    ensures WellFormed(Endless()) && Depth(Endless()) == 2
  {
    assert WellFormed(Counting()) && Depth(Counting()) == 1;
  }

  /** Started with answers 1 and 2 empty, the interpreter never stops on these six lines, however many
      turns it makes: the limit of 10000 rounds does not protect nested loops. */
  lemma EndlessNeverStops<W(!new)>(env: Env<W>, preset: map<int, string>, world: W, n: nat)
    requires 1 !in preset && 2 !in preset
    ensures !Halted(ParseAll(EndlessLines()), Played(env, EndlessLines(), preset, world, n))
  {
    EndlessParses();
    EndlessIsStructured();
    var d := Data(Overlaid(NoAnswers(), preset), world);
    EndlessHasNoMeaning(env, n + 1, d);
    if Halted(ParseAll(EndlessLines()), Played(env, EndlessLines(), preset, world, n)) {
      StructuredRun(env, EndlessLines(), preset, world, Endless(), n);
    }
  }

  // ---------------------------------------------------------------- what a run can change

  /** Every command of the script is one of those modelled here. */
  predicate OwnCommands(code: seq<Line>) {
    forall i | 0 <= i < |code| :: code[i].op.Act? ==> !VerbOf(code[i].op.cmd).Foreign?
  }

  /** Nothing but answers 1 to 100 differs. */
  ghost predicate OnlyAnswers<W>(d: Data<W>, e: Data<W>) { e.ans[0] == d.ans[0] && e.world == d.world }

  lemma PutTouches<W>(d: Data<W>, n: int, s: string)
    ensures OnlyAnswers(d, Put(d, n, s))
  {}

  lemma DecideTouches<W>(op: Operator, c: Condition, d: Data<W>)
    ensures OnlyAnswers(d, Decide(op, c, d).1)
  {
    var (hay, at) := Haystack(d.ans, c.right);
    var lv := Get(d.ans, Atoi(c.left));
    FindTouches(lv, hay, at, d);
  }

  lemma FindTouches<W>(needle: string, hay: string, at: int, d: Data<W>)
    ensures OnlyAnswers(d, Search(needle, hay, at, d).1)
  {}

  lemma IfTouches<W>(text: string, d: Data<W>)
    ensures OnlyAnswers(d, TestIf(text, d).1)
  {
    var c := ParseCondition(text);
    DecideTouches(OperatorOf(c.op), c, d);
  }

  lemma TestsTouchAnswers<W>(env: Env<W>, text: string, d: Data<W>)
    ensures OnlyAnswers(d, QaOps(env).test(text, d).1) && OnlyAnswers(d, QaOps(env).testWhile(text, d).1)
  {
    IfTouches(text, d);
    IfTouches(StripDo(text), d);
  }

  lemma PerformTouches<W>(env: Env<W>, verb: Verb, cmd: string, rest: string, d: Data<W>)
    requires !verb.Foreign?
    ensures OnlyAnswers(d, Perform(env, verb, cmd, rest, d))
  {
    match verb
    case Assignment =>
      var (word, val) := FirstWord(rest);
      assert OnlyAnswers(d, StoreValue(env, Destination(word, d.ans), val, d));
    case _ =>
  }

  lemma CommandsTouchAnswers<W>(env: Env<W>, cmd: string, rest: string, d: Data<W>)
    requires !VerbOf(cmd).Foreign?
    ensures OnlyAnswers(d, QaOps(env).act(cmd, rest, d))
  {
    PerformTouches(env, VerbOf(cmd), cmd, rest, d);
    ActIs(env, cmd, rest, d);
  }

  /** Where the data after a turn come from. */
  lemma StepData<D>(ops: Ops<D>, labels: map<string, nat>, code: seq<Line>, m: Machine<D>)
    requires !Halted(code, m)
    ensures var line := code[m.pc]; var e := Step(ops, labels, code, m).data;
            || e == m.data || e == ops.test(line.rest, m.data).1 || e == ops.testWhile(line.rest, m.data).1
            || (exists k | 0 <= k < |code| :: e == ops.testWhile(code[k].rest, m.data).1)
            || (line.op.Act? && e == ops.act(line.op.cmd, line.rest, m.data))
  {}

  lemma StepTouchesAnswers<W(!new)>(env: Env<W>, labels: map<string, nat>, code: seq<Line>, m: Machine<Data<W>>)
    requires OwnCommands(code)
    ensures OnlyAnswers(m.data, Step(QaOps(env), labels, code, m).data)
  {
    if !Halted(code, m) {
      var line := code[m.pc];
      forall k | 0 <= k < |code| ensures OnlyAnswers(m.data, QaOps(env).testWhile(code[k].rest, m.data).1) {
        TestsTouchAnswers(env, code[k].rest, m.data);
      }
      TestsTouchAnswers(env, line.rest, m.data);
      if line.op.Act? { CommandsTouchAnswers(env, line.op.cmd, line.rest, m.data); }
      StepStays(QaOps(env), labels, code, m);
    }
  }

  lemma StepStays<W(!new)>(ops: Ops<Data<W>>, labels: map<string, nat>, code: seq<Line>, m: Machine<Data<W>>)
    requires !Halted(code, m)
    requires OnlyAnswers(m.data, ops.test(code[m.pc].rest, m.data).1)
    requires forall k | 0 <= k < |code| :: OnlyAnswers(m.data, ops.testWhile(code[k].rest, m.data).1)
    requires code[m.pc].op.Act? ==> OnlyAnswers(m.data, ops.act(code[m.pc].op.cmd, code[m.pc].rest, m.data))
    ensures OnlyAnswers(m.data, Step(ops, labels, code, m).data)
  {
    StepData(ops, labels, code, m);
  }

  /** Over any run of a script of these commands, jumps and loops included, nothing but answers 1 to 100 changes. */
  lemma {:induction false} RunTouchesAnswers<W(!new)>(env: Env<W>, labels: map<string, nat>, code: seq<Line>, n: nat, m: Machine<Data<W>>)
    requires OwnCommands(code)
    ensures OnlyAnswers(m.data, Run(Turn(QaOps(env), labels, code), n, m).data)
  {
    if n > 0 {
      StepTouchesAnswers(env, labels, code, m);
      RunTouchesAnswers(env, labels, code, n - 1, Turn(QaOps(env), labels, code)(m));
    }
  }
}
