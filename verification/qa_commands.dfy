/** Answers, conditions and the text commands of a questionnaire. */
module QaCommands {
  import opened Script
  import opened QaText

  const MAX_ANSWERS := 100

  /** Slot 0 is never read or written. */
  type Answers = a: seq<string> | |a| == MAX_ANSWERS + 1 witness seq(MAX_ANSWERS + 1, _ => "")

  /** The answers and everything else commands can touch (terminal, files, user record). */
  datatype Data<!W> = Data(ans: Answers, world: W)

  /** What this model leaves open: expansion of control codes in text, and every other command. */
  datatype Env<!W> = Env(expand: (string, Data<W>) -> string, other: (string, string, Data<W>) -> Data<W>)

  function Get(ans: Answers, n: int): string {
    if 1 <= n <= MAX_ANSWERS then ans[n] else ""
  }

  function Put<W>(d: Data<W>, n: int, s: string): Data<W> {
    if 1 <= n <= MAX_ANSWERS then d.(ans := d.ans[n := s]) else d
  }

  /** The answers with those given in advance put over them. */
  function Overlaid(a: Answers, preset: map<int, string>): Answers {
    seq(MAX_ANSWERS + 1, i requires 0 <= i <= MAX_ANSWERS => if 1 <= i && i in preset then preset[i] else a[i])
  }

  function NoAnswers(): Answers { seq(MAX_ANSWERS + 1, _ => "") }

  /** The text an argument stands for: #n is answer n, %n the answer whose number is in answer n. */
  function Value(ans: Answers, arg: string): string {
    var s := TrimRA(arg);
    if s == "" then ""
    else if s[0] == '#' then Get(ans, Atoi(s[1..]))
    else if s[0] == '%' then Get(ans, Atoi(Get(ans, Atoi(s[1..]))))
    else if IsQuote(s[0]) then Unquote(s)
    else if 0 < Atoi(s) <= MAX_ANSWERS && '\\' !in s && '/' !in s && '.' !in s then s
    else Unquote(s)
  }

  // ---------------------------------------------------------------- conditions

  /** A condition taken apart: the answer number on the left, whether it compares numbers, operator and right side. */
  datatype Condition = Condition(left: string, numeric: bool, op: string, right: string)

  function OperatorAndRight(tail: string): (string, string) {
    var (op, rest) := FirstWord(TrimSpace(tail));
    (op, StripDo(TrimSpace(rest)))
  }

  function ParseCondition(text: string): Condition {
    var s := TrimSpace(text);
    var i := SkipWhile(s, 0, IsDigit);
    var first := i < |s| && s[i] == '~';
    var j := if first then i + 1 else i;
    var second := j < |s| && s[j] == '~';
    var k := if second then j + 1 else j;
    var (op, right) := OperatorAndRight(s[k..]);
    Condition(s[..i], first || second, op, right)
  }

  method DoParseCondition(text: string) returns (c: Condition)
    ensures c == ParseCondition(text)
  {
    var s := TrimSpace(text);
    var numeric, left, i := false, "", 0;
    while i < |s| && (IsDigit(s[i]) || s[i] == '~')
      invariant i <= |s| && !numeric && left == s[..i] && SkipWhile(s, 0, IsDigit) == SkipWhile(s, i, IsDigit)
    {
      if s[i] == '~' {
        numeric := true;
        i := i + 1;
        break;
      }
      left := left + [s[i]];
      i := i + 1;
    }
    if i < |s| && s[i] == '~' {
      numeric := true;
      i := i + 1;
    }
    var op, rest := DoFirstWord(TrimSpace(s[i..]));
    c := Condition(left, numeric, op, StripDo(TrimSpace(rest)));
  }

  datatype Operator = Equal | Differs | Above | Below | AtLeast | AtMost | In | NotIn | Unknown

  function OperatorOf(word: string): Operator {
    var op := Upper(word);
    if op == "=" || op == "==" then Equal
    else if op == "<>" || op == "!=" then Differs
    else if op == ">" then Above
    else if op == "<" then Below
    else if op == ">=" || op == "=>" then AtLeast
    else if op == "<=" || op == "=<" then AtMost
    else if op == "IN" then In
    else if op == "NIN" then NotIn
    else Unknown
  }

  predicate CompareNumbers(op: Operator, a: int, b: int) {
    match op
    case Equal => a == b
    case Differs => a != b
    case Above => a > b
    case Below => a < b
    case AtLeast => a >= b
    case AtMost => a <= b
    case _ => false
  }

  predicate CompareText(op: Operator, a: string, b: string) {
    match op
    case Equal => a == b
    case Differs => a != b
    case Above => Less(b, a)
    case Below => Less(a, b)
    case AtLeast => !Less(a, b)
    case AtMost => !Less(b, a)
    case _ => false
  }

  /** The text searched by IN, and the answer that receives the position (0 for none). */
  function Haystack(ans: Answers, right: string): (string, int) {
    if right != "" && IsMark(right[0]) then
      var (w1, more) := FirstWord(right[1..]);
      var (aw, more2) := FirstWord(more);
      (Get(ans, Atoi(w1)), if Upper(aw) == "AT" then Atoi(FirstWord(more2).0) else 0)
    else (Value(ans, right), 0)
  }

  /** Searches `hay` for `needle` without regard to case; where it is found goes to answer `at`. An empty
      needle is never found. */
  function Search<W>(needle: string, hay: string, at: int, d: Data<W>): (bool, Data<W>) {
    var pos := Index(Upper(hay), Upper(needle));
    var found := needle != "" && pos >= 0;
    (found, if found && at >= 1 then Put(d, at, Itoa(pos + 1)) else d)
  }

  /** A condition already taken apart. IN and NIN may write an answer; no other condition changes anything. */
  function Decide<W>(op: Operator, c: Condition, d: Data<W>): (bool, Data<W>) {
    var lv := Get(d.ans, Atoi(c.left));
    if op.In? || op.NotIn? then
      var (hay, at) := Haystack(d.ans, c.right);
      var (found, d') := Search(lv, hay, at, d);
      (found == op.In?, d')
    else if c.numeric then (CompareNumbers(op, Atoi(lv), Atoi(Value(d.ans, c.right))), d)
    else (CompareText(op, Upper(lv), Upper(Value(d.ans, c.right))), d)
  }

  function TestIf<W>(text: string, d: Data<W>): (bool, Data<W>) {
    var c := ParseCondition(text);
    Decide(OperatorOf(c.op), c, d)
  }

  // ---------------------------------------------------------------- commands

  /** The answer number an assignment names: a number, or % and the number of the answer that holds it. */
  function Destination(word: string, ans: Answers): int {
    if word != "" && word[0] == '%' then Atoi(Get(ans, Atoi(word[1..]))) else Atoi(word)
  }

  /** Stores a value; text that is not another answer has its macros expanded. */
  function StoreValue<W>(env: Env<W>, dst: int, val: string, d: Data<W>): Data<W> {
    if val != "" && IsMark(val[0]) then Put(d, dst, Value(d.ans, val))
    else Put(d, dst, env.expand(Value(d.ans, val), d))
  }

  function Assign<W>(env: Env<W>, rest: string, d: Data<W>): Data<W> {
    var (word, val) := FirstWord(rest);
    StoreValue(env, Destination(word, d.ans), val, d)
  }

  function AddStep<W>(n: int, step: int, d: Data<W>): Data<W> { Put(d, n, Itoa(Atoi(Get(d.ans, n)) + step)) }

  /** INC and DEC: the answer numbered in `rest` plus `step`. */
  function AddTo<W>(rest: string, step: int, d: Data<W>): Data<W> {
    var s := TrimSpace(rest);
    AddStep(Atoi(if HasPrefix(s, "%") then s[1..] else s), step, d)
  }

  /** `n` characters of `src` from 1-based position `start`; a negative `n` means all the rest. */
  function Substring(src: string, start: int, n: int): string {
    var i := if start < 1 then 0 else start - 1;
    if i >= |src| then ""
    else if n < 0 || i + n > |src| then src[i..]
    else src[i..i + n]
  }

  datatype Verb = Inc | Dec | Concat | Length | UpperCase | LowerCase | Assignment | Part | PartVar | Foreign

  function VerbOf(cmd: string): Verb {
    if cmd == "ASSIGN" then Assignment else if cmd == "INC" then Inc else if cmd == "DEC" then Dec
    else if cmd == "CONCAT" then Concat else if cmd == "LENGTH" then Length
    else if cmd == "UPPERCASE" then UpperCase else if cmd == "LOWERCASE" then LowerCase
    else if cmd == "SUBSTRING" then Part else if cmd == "SUBSTRINGVAR" then PartVar
    else Foreign
  }

  function Perform<W>(env: Env<W>, verb: Verb, cmd: string, rest: string, d: Data<W>): Data<W> {
    var w := Fields(rest);
    match verb
    case Assignment => Assign(env, rest, d)
    case Inc => AddTo(rest, 1, d)
    case Dec => AddTo(rest, -1, d)
    case Concat => if |w| >= 3 then Put(d, Atoi(w[0]), Get(d.ans, Atoi(w[1])) + Get(d.ans, Atoi(w[2]))) else d
    case Length => if |w| >= 2 then Put(d, Atoi(w[0]), Itoa(|Get(d.ans, Atoi(w[1]))|)) else d
    case UpperCase => var n := Atoi(TrimSpace(rest)); Put(d, n, Upper(Get(d.ans, n)))
    case LowerCase => var n := Atoi(TrimSpace(rest)); Put(d, n, Lower(Get(d.ans, n)))
    case Part =>
      if |w| >= 4 then Put(d, Atoi(w[0]), Substring(Get(d.ans, Atoi(w[1])), Atoi(w[2]), Atoi(w[3]))) else d
    case PartVar =>
      if |w| >= 4 then
        Put(d, Atoi(w[0]), Substring(Get(d.ans, Atoi(w[1])), Atoi(Get(d.ans, Atoi(w[2]))), Atoi(Get(d.ans, Atoi(w[3])))))
      else d
    case Foreign => env.other(cmd, rest, d)
  }

  function Command<W>(env: Env<W>, cmd: string, rest: string, d: Data<W>): Data<W> {
    Perform(env, VerbOf(cmd), cmd, rest, d)
  }

  /** The label a GOTO names: #n, or a word ending in #n, takes the text of answer n. */
  function Target<W>(rest: string, d: Data<W>): string {
    var s := TrimSpace(rest);
    var lab := if HasPrefix(s, "#") then Get(d.ans, Atoi(s[1..])) else s;
    var i := Index(lab, "#");
    Upper(if 0 <= i < |lab| then lab[..i] + Get(d.ans, Atoi(lab[i + 1..])) else lab)
  }

  function QaOps<W>(env: Env<W>): Ops<Data<W>> {
    Ops((text: string, d: Data<W>) => TestIf(text, d),
        (text: string, d: Data<W>) => TestIf(StripDo(text), d),
        (cmd: string, rest: string, d: Data<W>) => Command(env, cmd, rest, d),
        (rest: string, d: Data<W>) => Target(rest, d))
  }

  /** Marks the text and data a proof applies `ops` to. */
  predicate Asks<W>(text: string, d: Data<W>) { true }

  /** `ops` are the questionnaire's; stated so that they are opened only where a proof says `Asks`. */
  ghost predicate IsQa<W(!new)>(ops: Ops<Data<W>>, env: Env<W>) {
    forall text: string, d: Data<W> {:trigger Asks(text, d)} :: Asks(text, d) ==>
      && ops.test(text, d) == TestIf(text, d)
      && ops.testWhile(text, d) == TestIf(StripDo(text), d)
      && ops.target(text, d) == Target(text, d)
      && forall cmd: string :: ops.act(cmd, text, d) == Command(env, cmd, text, d)
  }

  lemma QaOpsAreQa<W(!new)>(env: Env<W>)
    ensures IsQa(QaOps(env), env)
  {
    var ops := QaOps(env);
    forall text: string, d: Data<W>, cmd: string
      ensures ops.test(text, d) == TestIf(text, d) && ops.testWhile(text, d) == TestIf(StripDo(text), d)
      ensures ops.target(text, d) == Target(text, d) && ops.act(cmd, text, d) == Command(env, cmd, text, d)
    {}
  }

  // ---------------------------------------------------------------- lines

  function OpOf(cmd: string): Op {
    if cmd == "IF" then If else if cmd == "ELSE" then Else else if cmd == "ENDIF" then EndIf
    else if cmd == "WHILE" then While else if cmd == "ENDWHILE" then EndWhile
    else if cmd == "QUIT" then Quit
    else if cmd == "GOTO" then Goto else if cmd == "GOSUB" then Gosub else if cmd == "RETURN" then Return
    else if cmd == "BREAK" then Break
    else Act(cmd)
  }

  /** One source line. Empty lines, comments and labels do nothing. */
  function Parse(raw: string): Line {
    var line := TrimRA(raw);
    var (cmd, rest) := SplitCmd(raw);
    if line == "" || line[0] == ';' || line[0] == ':' then Line(Blank, rest)
    else Line(OpOf(cmd), rest)
  }

  // ---------------------------------------------------------------- what commands do to the answers

  /** What is put in an answer is there afterwards, and nowhere else. */
  lemma PutGet<W>(d: Data<W>, n: int, s: string, m: int)
    ensures Get(Put(d, n, s).ans, m) == if m == n && 1 <= n <= MAX_ANSWERS then s else Get(d.ans, m)
    ensures Put(d, n, s).ans[0] == d.ans[0] && Put(d, n, s).world == d.world
  {}

  lemma Stored<W>(d: Data<W>, n: int, v: int, m: int)
    requires 1 <= n <= MAX_ANSWERS
    ensures Atoi(Get(Put(d, n, Itoa(v)).ans, n)) == v
    ensures m != n ==> Get(Put(d, n, Itoa(v)).ans, m) == Get(d.ans, m)
  {
    AtoiOfItoa(v);
    PutGet(d, n, Itoa(v), n);
    PutGet(d, n, Itoa(v), m);
  }

  /** INC and DEC: the answer read as a number is then higher by the step, and no other answer changes. */
  lemma AddStepCounts<W>(d: Data<W>, n: int, step: int, m: int)
    requires 1 <= n <= MAX_ANSWERS
    ensures Atoi(Get(AddStep(n, step, d).ans, n)) == Atoi(Get(d.ans, n)) + step
    ensures m != n ==> Get(AddStep(n, step, d).ans, m) == Get(d.ans, m)
  {
    Stored(d, n, Atoi(Get(d.ans, n)) + step, m);
  }

  lemma ItoaIsBare(n: int, p: char -> bool)
    requires forall c: char | c == '-' || IsDigit(c) :: !p(c)
    ensures Itoa(n) != "" && Bare(Itoa(n), p) && (IsDigit(Itoa(n)[0]) || Itoa(n)[0] == '-')
  {
    var a: nat := if n < 0 then -n else n;
    ReadDigitsOfText(a, 0, []);
  }

  /** The number the command names. */
  lemma AddToNames<W>(d: Data<W>, n: int, step: int)
    ensures AddTo(Itoa(n), step, d) == AddStep(n, step, d) && AddTo("%" + Itoa(n), step, d) == AddStep(n, step, d)
  {
    var t := Itoa(n);
    ItoaIsBare(n, IsSpace);
    AtoiOfItoa(n);
    TrimBare(t, IsSpace);
    TrimBare("%" + t, IsSpace);
    assert ("%" + t)[..1] == "%" && ("%" + t)[1..] == t;
    assert !HasPrefix(t, "%") by { assert t[..1][0] == t[0]; }
  }

  lemma ValueOfHash(ans: Answers, s: string, n: int)
    requires s != "" && s[0] == '#' && TrimRA(s) == s && Atoi(s[1..]) == n
    ensures Value(ans, s) == Get(ans, n)
  {}

  lemma ValueOfPercent(ans: Answers, s: string, n: int)
    requires s != "" && s[0] == '%' && TrimRA(s) == s && Atoi(s[1..]) == n
    ensures Value(ans, s) == Get(ans, Atoi(Get(ans, n)))
  {}

  lemma MarkedNumber(mark: char, n: int)
    requires IsMark(mark)
    ensures var s := [mark] + Itoa(n); s != "" && s[0] == mark && TrimRA(s) == s && Atoi(s[1..]) == n
  {
    ItoaIsBare(n, IsBlank);
    AtoiOfItoa(n);
    TrimBare([mark] + Itoa(n), IsBlank);
    assert ([mark] + Itoa(n))[1..] == Itoa(n);
  }

  /** #n stands for answer n, %n for the answer whose number answer n holds. */
  lemma ValueOfMark(ans: Answers, n: int)
    ensures Value(ans, "#" + Itoa(n)) == Get(ans, n)
    ensures Value(ans, "%" + Itoa(n)) == Get(ans, Atoi(Get(ans, n)))
  {
    MarkedNumber('#', n);
    MarkedNumber('%', n);
    ValueOfHash(ans, "#" + Itoa(n), n);
    ValueOfPercent(ans, "%" + Itoa(n), n);
  }

  /** An assignment goes to the answer it names, or to the one whose number is in the answer it names with a %. */
  lemma DestinationOf(ans: Answers, n: int)
    ensures Destination(Itoa(n), ans) == n && Destination("%" + Itoa(n), ans) == Atoi(Get(ans, n))
  {
    ItoaIsBare(n, IsBlank);
    AtoiOfItoa(n);
    assert ("%" + Itoa(n))[1..] == Itoa(n);
  }

  lemma {:induction false} NatTextHasNoGap(n: nat)
    ensures AllOf(NatText(n), NotGap)
  {
    if n >= 10 { NatTextHasNoGap(n / 10); }
  }

  lemma ItoaHasNoGap(n: int)
    ensures AllOf(Itoa(n), NotGap)
  {
    NatTextHasNoGap(if n < 0 then -n else n);
  }

  lemma AssignIs<W>(env: Env<W>, d: Data<W>, rest: string, word: string, val: string)
    requires FirstWord(rest) == (word, val) && val != "" && IsMark(val[0])
    ensures Assign(env, rest, d) == Put(d, Destination(word, d.ans), Value(d.ans, val))
  {}

  /** ASSIGN n #m copies answer m to answer n, as it is. */
  lemma AssignCopies<W>(env: Env<W>, d: Data<W>, n: int, m: int)
    ensures Assign(env, Itoa(n) + " " + ("#" + Itoa(m)), d) == Put(d, n, Get(d.ans, m))
  {
    ItoaIsBare(n, IsBlank);
    ItoaIsBare(m, IsBlank);
    ItoaHasNoGap(n);
    FirstWordOf(Itoa(n), "#" + Itoa(m));
    AssignIs(env, d, Itoa(n) + " " + ("#" + Itoa(m)), Itoa(n), "#" + Itoa(m));
    DestinationOf(d.ans, n);
    ValueOfMark(d.ans, m);
  }

  /** A substring: which characters of the source it has, and how many. */
  lemma SubstringIs(src: string, start: int, n: int)
    ensures var r := Substring(src, start, n); var i := if start < 1 then 0 else start - 1;
            |r| == (if i >= |src| then 0 else if n < 0 || i + n > |src| then |src| - i else n)
            && forall k | 0 <= k < |r| :: r[k] == src[i + k]
  {}

  /** Cut anywhere, a text is its first characters and its rest. */
  lemma SubstringsRejoin(src: string, k: nat)
    requires k <= |src|
    ensures Substring(src, 1, k) + Substring(src, k + 1, -1) == src
  {}

  /** IN finds exactly a text that occurs, whatever the case of its letters, and stores its first position. */
  lemma SearchIs<W>(needle: string, hay: string, at: int, d: Data<W>)
    ensures Search(needle, hay, at, d).0 <==> needle != "" && exists k | 0 <= k <= |hay| :: HasPrefix(Upper(hay)[k..], Upper(needle))
    ensures var (found, e) := Search(needle, hay, at, d);
            if found && 1 <= at <= MAX_ANSWERS
            then var k := Atoi(Get(e.ans, at)) - 1;
                 0 <= k <= |hay| && HasPrefix(Upper(hay)[k..], Upper(needle)) && forall j | 0 <= j < k :: !HasPrefix(Upper(hay)[j..], Upper(needle))
            else e == d
  {
    IndexFromIs(Upper(hay), Upper(needle), 0);
    AtoiOfItoa(Index(Upper(hay), Upper(needle)) + 1);
  }

  lemma ConditionOf(text: string, s: string, i: nat, k: nat, op: string, right: string)
    requires TrimSpace(text) == s && SkipWhile(s, 0, IsDigit) == i
    requires i <= k < |s| && k == (if s[i] == '~' then i + 1 else i) && s[k] != '~'
    requires OperatorAndRight(s[k..]) == (op, right)
    ensures ParseCondition(text) == Condition(s[..i], i < k, op, right)
  {
    var j := if i < |s| && s[i] == '~' then i + 1 else i;
    assert j == k;
  }

  lemma LeftOf(left: string, s: string, rest: string)
    requires left != "" && AllOf(left, IsDigit) && rest != "" && !IsDigit(rest[0]) && !IsSpace(rest[|rest| - 1]) && s == left + rest
    ensures TrimSpace(s) == s && SkipWhile(s, 0, IsDigit) == |left| && s[..|left|] == left
  {
    TrimBare(s, IsSpace);
    SkipWhileIs(s, 0, |left|, IsDigit);
  }

  lemma TailOf(front: string, s: string, more: string)
    requires Bare(more, IsSpace) && s == front + (" " + more)
    ensures TrimSpace(s[|front|..]) == more
  {
    TrimOf(" ", more, "", IsSpace);
    assert s[|front|..] == " " + more + "";
  }

  lemma Shapes(left: string, mark: string, more: string)
    ensures left + mark + " " + more == left + (mark + (" " + more)) == (left + mark) + (" " + more)
  {}

  lemma MarkOf(left: string, numeric: bool, more: string)
    ensures var s := left + (if numeric then "~" else "") + " " + more; var k := if numeric then |left| + 1 else |left|;
            k < |s| && k == (if s[|left|] == '~' then |left| + 1 else |left|) && s[k] != '~'
  {}

  lemma ConditionParts(s: string, left: string, numeric: bool, more: string) returns (k: nat)
    requires left != "" && AllOf(left, IsDigit) && more != "" && Bare(more, IsSpace)
    requires s == left + (if numeric then "~" else "") + " " + more
    ensures TrimSpace(s) == s && SkipWhile(s, 0, IsDigit) == |left| && s[..|left|] == left
    ensures |left| <= k < |s| && k == (if s[|left|] == '~' then |left| + 1 else |left|) && s[k] != '~'
    ensures TrimSpace(s[k..]) == more && (|left| < k <==> numeric)
  {
    var mark := if numeric then "~" else "";
    Shapes(left, mark, more);
    LeftOf(left, s, mark + (" " + more));
    TailOf(left + mark, s, more);
    MarkOf(left, numeric, more);
    k := if numeric then |left| + 1 else |left|;
  }

  lemma StripNothing(right: string)
    requires Bare(right, IsSpace) && !HasSuffix(Lower(right), " do")
    ensures TrimSpace(right) == right && StripDo(right) == right
  {
    TrimBare(right, IsSpace);
    TrimBare(right, IsBlank);
  }

  lemma RightOf(tail: string, op: string, right: string)
    requires TrimSpace(tail) == op + " " + right
    requires op != "" && AllOf(op, NotGap) && Bare(op, IsBlank) && Bare(right, IsSpace) && !HasSuffix(Lower(right), " do")
    ensures OperatorAndRight(tail) == (op, right)
  {
    FirstWordOf(op, right);
    StripNothing(right);
  }

  /** A DO at the end of a WHILE, in any case of letters, is not part of its condition. */
  lemma StripDoOf(t: string, word: string)
    requires t != "" && Bare(t, IsBlank) && |word| == 3 && Lower(word) == " do"
    ensures StripDo(t + word) == t
  {
    var s := t + word;
    assert LowChar(word[2]) == Lower(word)[2];
    TrimBare(s, IsBlank);
    assert Lower(s)[|t|..] == Lower(word);
    assert s[..|t|] == t;
    TrimBare(t, IsBlank);
  }

  /** A condition written as number, mark for numbers, operator and right side comes apart into these. */
  lemma ConditionReadsBack(left: string, numeric: bool, op: string, right: string)
    requires left != "" && AllOf(left, IsDigit) && op != "" && AllOf(op, NotGap) && Bare(op, IsSpace)
    requires right != "" && Bare(right, IsSpace) && !HasSuffix(Lower(right), " do")
    ensures ParseCondition(left + (if numeric then "~" else "") + " " + (op + " " + right)) == Condition(left, numeric, op, right)
  {
    var more := op + " " + right;
    var s := left + (if numeric then "~" else "") + " " + more;
    var k := ConditionParts(s, left, numeric, more);
    RightOf(s[k..], op, right);
    ConditionOf(s, s, |left|, k, op, right);
  }

  lemma PlainTarget<W>(d: Data<W>, rest: string, lab: string)
    requires TrimSpace(rest) == rest && '#' !in lab
    requires lab == if HasPrefix(rest, "#") then Get(d.ans, Atoi(rest[1..])) else rest
    ensures Target(rest, d) == Upper(lab)
  {
    NoMark(lab);
  }

  /** A plain label is itself in capitals; #n is the label answer n holds. */
  lemma TargetIs<W>(d: Data<W>, lab: string, n: int)
    requires Bare(lab, IsSpace) && '#' !in lab
    ensures Target(lab, d) == Upper(lab)
    ensures Get(d.ans, n) == lab ==> Target("#" + Itoa(n), d) == Upper(lab)
  {
    TrimBare(lab, IsSpace);
    assert !HasPrefix(lab, "#") by { if lab != "" { assert lab[..1][0] == lab[0] && lab[0] in lab; } }
    PlainTarget(d, lab, lab);
    if Get(d.ans, n) == lab { MarkedTarget(d, lab, n); }
  }

  lemma MarkedTarget<W>(d: Data<W>, lab: string, n: int)
    requires '#' !in lab && Get(d.ans, n) == lab
    ensures Target("#" + Itoa(n), d) == Upper(lab)
  {
    var rest := "#" + Itoa(n);
    ItoaIsBare(n, IsSpace);
    AtoiOfItoa(n);
    TrimBare(rest, IsSpace);
    assert rest[1..] == Itoa(n) && rest[..1] == "#";
    PlainTarget(d, rest, lab);
  }

  lemma NoMark(s: string)
    requires '#' !in s
    ensures Index(s, "#") == -1
  {
    IndexFromIs(s, "#", 0);
    forall k | 0 <= k <= |s| ensures !HasPrefix(s[k..], "#") {
      if k < |s| { assert s[k..][..1] == [s[k]]; }
    }
  }
}
