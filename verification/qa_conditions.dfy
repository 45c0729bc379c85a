/** What conditions and commands mean when they are written out as text. */
module QaConditions {
  import opened Options
  import opened Script
  import opened ScriptSimulation
  import opened ScriptTheorems
  import opened QaText
  import opened QaCommands
  import opened QaInterpreter
  import opened QaTheorems

  // ---------------------------------------------------------------- numbers

  lemma ValueUnmarked(ans: Answers, s: string)
    requires s != "" && Bare(s, IsBlank) && !IsMark(s[0]) && !IsQuote(s[0])
    ensures Value(ans, s) == s
  {
    TrimBare(s, IsBlank);
  }

  /** A number stands for itself. */
  lemma ValueOfAny(ans: Answers, k: int)
    ensures Value(ans, Itoa(k)) == Itoa(k)
  {
    ItoaIsBare(k, IsBlank);
    ValueUnmarked(ans, Itoa(k));
  }

  lemma ItoaEnds(k: int)
    ensures Itoa(k) != "" && Bare(Itoa(k), IsSpace) && IsDigit(Itoa(k)[|Itoa(k)| - 1])
  {
    ItoaIsBare(k, IsSpace);
    ReadDigitsOfText(if k < 0 then -k else k, 0, []);
  }

  /** The word of an operator, and what it says of two numbers. */
  predicate SaysOf(word: string, a: int, b: int, yes: bool) {
    || ((word == "=" || word == "==") && (yes <==> a == b))
    || ((word == "<>" || word == "!=") && (yes <==> a != b))
    || (word == "<" && (yes <==> a < b))
    || (word == ">" && (yes <==> b < a))
    || ((word == "<=" || word == "=<") && (yes <==> a < b || a == b))
    || ((word == ">=" || word == "=>") && (yes <==> b < a || a == b))
  }

  predicate Symbol(c: char) { c == '=' || c == '<' || c == '>' || c == '!' }

  lemma SymbolsAreWords(word: string)
    requires word != "" && |word| <= 2 && AllOf(word, Symbol)
    ensures AllOf(word, NotGap) && Bare(word, IsSpace) && Upper(word) == word
  {}

  lemma SaysSymbols(word: string, a: int, b: int, yes: bool)
    requires SaysOf(word, a, b, yes)
    ensures word != "" && |word| <= 2 && AllOf(word, Symbol) && Upper(word) == word
    ensures CompareNumbers(OperatorOf(word), a, b) == yes && !OperatorOf(word).In? && !OperatorOf(word).NotIn?
  {
    assert |word| <= 2 && word != "" && AllOf(word, Symbol);
    SymbolsAreWords(word);
  }

  lemma DecideNumbers<W>(op: Operator, c: Condition, n: int, k: int, d: Data<W>)
    requires c.numeric && Atoi(c.left) == n && Value(d.ans, c.right) == Itoa(k) && !op.In? && !op.NotIn?
    ensures Decide(op, c, d) == (CompareNumbers(op, Atoi(Get(d.ans, n)), k), d)
  {
    AtoiOfItoa(k);
  }

  lemma NumberReads(n: nat, word: string, k: int)
    requires word != "" && |word| <= 2 && AllOf(word, Symbol)
    ensures ParseCondition(Itoa(n) + "~" + " " + (word + " " + Itoa(k))) == Condition(Itoa(n), true, word, Itoa(k))
  {
    NatTextIsDigits(n);
    ItoaEnds(k);
    NoDo(Itoa(k));
    SymbolsAreWords(word);
    ConditionReadsBack(Itoa(n), true, word, Itoa(k));
  }

  /** A comparison marked with ~ compares the numbers: the answer on the left with the one on the right. It changes nothing. */
  lemma NumbersAreCompared<W>(d: Data<W>, n: nat, word: string, k: int, yes: bool)
    requires SaysOf(word, Atoi(Get(d.ans, n)), k, yes)
    ensures TestIf(Itoa(n) + "~" + " " + (word + " " + Itoa(k)), d) == (yes, d)
  {
    SaysSymbols(word, Atoi(Get(d.ans, n)), k, yes);
    NumberReads(n, word, k);
    AtoiOfItoa(n);
    ValueOfAny(d.ans, k);
    DecideNumbers(OperatorOf(word), Condition(Itoa(n), true, word, Itoa(k)), n, k, d);
  }

  // ---------------------------------------------------------------- texts

  /** `a` comes before `b`: it is a shorter beginning of it, or has the smaller character where they first differ. */
  ghost predicate Before(a: string, b: string) {
    exists k: nat :: DifferAt(a, b, k)
  }

  predicate DifferAt(a: string, b: string, k: nat) {
    k <= |a| && k < |b| && a[..k] == b[..k] && (k == |a| || a[k] < b[k])
  }

  lemma {:induction false} LessIsBefore(a: string, b: string)
    ensures Less(a, b) <==> Before(a, b)
  {
    if b == [] {
    } else if a == [] {
      assert DifferAt(a, b, 0);
    } else if a[0] != b[0] {
      if a[0] < b[0] { assert DifferAt(a, b, 0); }
      forall k: nat | DifferAt(a, b, k) ensures a[0] < b[0] { AtTheFirst(a, b, k); }
    } else {
      LessIsBefore(a[1..], b[1..]);
      forall k: nat | DifferAt(a[1..], b[1..], k) ensures DifferAt(a, b, k + 1) { OneFurther(a, b, k); }
      forall k: nat | DifferAt(a, b, k) ensures k > 0 && DifferAt(a[1..], b[1..], k - 1) { OneBack(a, b, k); }
    }
  }

  lemma AtTheFirst(a: string, b: string, k: nat)
    requires a != [] && b != [] && DifferAt(a, b, k)
    ensures a[0] < b[0] || a[0] == b[0]
  {
    if k > 0 { assert a[0] == a[..k][0] == b[..k][0] == b[0]; }
  }

  lemma OneFurther(a: string, b: string, k: nat)
    requires a != [] && b != [] && a[0] == b[0] && DifferAt(a[1..], b[1..], k)
    ensures DifferAt(a, b, k + 1)
  {
    assert a[..k + 1] == [a[0]] + a[1..][..k] && b[..k + 1] == [b[0]] + b[1..][..k];
  }

  lemma OneBack(a: string, b: string, k: nat)
    requires a != [] && b != [] && a[0] == b[0] && DifferAt(a, b, k)
    ensures k > 0 && DifferAt(a[1..], b[1..], k - 1)
  {
    assert a[1..][..k - 1] == a[..k][1..] && b[1..][..k - 1] == b[..k][1..];
  }

  /** The word of an operator, and what it says of two texts. */
  ghost predicate TextSays(word: string, a: string, b: string, yes: bool) {
    || ((word == "=" || word == "==") && (yes <==> a == b))
    || ((word == "<>" || word == "!=") && (yes <==> a != b))
    || (word == "<" && (yes <==> Before(a, b)))
    || (word == ">" && (yes <==> Before(b, a)))
    || ((word == "<=" || word == "=<") && (yes <==> Before(a, b) || a == b))
    || ((word == ">=" || word == "=>") && (yes <==> Before(b, a) || a == b))
  }

  lemma {:induction false} OneIsLess(a: string, b: string)
    ensures Less(a, b) || Less(b, a) <==> a != b
    ensures !(Less(a, b) && Less(b, a))
  {
    if a != [] && b != [] {
      OneIsLess(a[1..], b[1..]);
      if a[0] == b[0] && a[1..] == b[1..] { assert a == [a[0]] + a[1..] == [b[0]] + b[1..] == b; }
    }
  }

  lemma TextSaysSymbols(word: string, a: string, b: string, yes: bool)
    requires TextSays(word, a, b, yes)
    ensures word != "" && |word| <= 2 && AllOf(word, Symbol)
  {}

  lemma TextCompares(word: string, a: string, b: string, yes: bool)
    requires TextSays(word, a, b, yes) && Upper(word) == word
    ensures CompareText(OperatorOf(word), a, b) == yes && !OperatorOf(word).In? && !OperatorOf(word).NotIn?
  {
    LessIsBefore(a, b);
    LessIsBefore(b, a);
    OneIsLess(a, b);
  }

  lemma DecideTexts<W>(op: Operator, c: Condition, n: int, right: string, d: Data<W>)
    requires !c.numeric && Atoi(c.left) == n && Value(d.ans, c.right) == right && !op.In? && !op.NotIn?
    ensures Decide(op, c, d) == (CompareText(op, Upper(Get(d.ans, n)), Upper(right)), d)
  {}

  lemma TextReads(n: nat, word: string, m: int)
    requires word != "" && |word| <= 2 && AllOf(word, Symbol)
    ensures ParseCondition(Itoa(n) + "" + " " + (word + " " + ("#" + Itoa(m)))) == Condition(Itoa(n), false, word, "#" + Itoa(m))
  {
    NatTextIsDigits(n);
    ItoaEnds(m);
    NoDo("#" + Itoa(m));
    SymbolsAreWords(word);
    ConditionReadsBack(Itoa(n), false, word, "#" + Itoa(m));
  }

  /** A comparison without ~ compares two answers as texts, without regard to the case of letters. */
  lemma TextsAreCompared<W>(d: Data<W>, n: nat, word: string, m: int, yes: bool)
    requires TextSays(word, Upper(Get(d.ans, n)), Upper(Get(d.ans, m)), yes)
    ensures TestIf(Itoa(n) + "" + " " + (word + " " + ("#" + Itoa(m))), d) == (yes, d)
  {
    var a, b := Upper(Get(d.ans, n)), Upper(Get(d.ans, m));
    TextSaysSymbols(word, a, b, yes);
    SymbolsAreWords(word);
    TextCompares(word, a, b, yes);
    TextReads(n, word, m);
    AtoiOfItoa(n);
    ValueOfMark(d.ans, m);
    DecideTexts(OperatorOf(word), Condition(Itoa(n), false, word, "#" + Itoa(m)), n, Get(d.ans, m), d);
  }

  // ---------------------------------------------------------------- searching

  lemma WordAlone(word: string)
    requires word != "" && AllOf(word, NotGap) && Bare(word, IsBlank)
    ensures FirstWord(word) == (word, "")
  {
    TrimBare(word, IsBlank);
    SkipWhileIs(word, 0, |word|, NotGap);
    assert word[|word|..] == "" && word[..|word|] == word;
    TrimBare("", IsBlank);
  }

  lemma HaystackParts(ans: Answers, right: string, w: string, at: string, more: string, place: string)
    requires right != "" && IsMark(right[0]) && FirstWord(right[1..]) == (w, more) && FirstWord(more).0 == at && Upper(at) == "AT"
    requires FirstWord(FirstWord(more).1).0 == place
    ensures Haystack(ans, right) == (Get(ans, Atoi(w)), Atoi(place))
  {}

  lemma HaystackIs(ans: Answers, m: int, k: int)
    ensures Haystack(ans, "#" + (Itoa(m) + " " + ("AT" + " " + Itoa(k)))) == (Get(ans, m), k)
  {
    assert Upper("AT") == "AT";
    HaystackAt(ans, m, "AT", k);
  }

  lemma HaystackAt(ans: Answers, m: int, at: string, k: int)
    requires at != "" && AllOf(at, NotGap) && Bare(at, IsBlank) && Upper(at) == "AT"
    ensures Haystack(ans, "#" + (Itoa(m) + " " + (at + " " + Itoa(k)))) == (Get(ans, m), k)
  {
    var more := at + " " + Itoa(k);
    var right := "#" + (Itoa(m) + " " + more);
    assert right[1..] == Itoa(m) + " " + more;
    PlaceReads(m, at, k);
    AtoiOfItoa(m);
    AtoiOfItoa(k);
    HaystackParts(ans, right, Itoa(m), at, more, Itoa(k));
  }

  lemma PlaceReads(m: int, at: string, k: int)
    requires at != "" && AllOf(at, NotGap) && Bare(at, IsBlank)
    ensures var more := at + " " + Itoa(k);
            FirstWord(Itoa(m) + " " + more) == (Itoa(m), more) && FirstWord(more) == (at, Itoa(k)) && FirstWord(Itoa(k)).0 == Itoa(k)
  {
    ItoaIsBare(m, IsBlank);
    ItoaIsBare(k, IsBlank);
    ItoaHasNoGap(m);
    ItoaHasNoGap(k);
    FirstWordOf(Itoa(m), at + " " + Itoa(k));
    FirstWordOf(at, Itoa(k));
    WordAlone(Itoa(k));
  }

  lemma SearchReads(n: nat, word: string, m: int, k: int)
    requires word == "IN" || word == "NIN"
    ensures ParseCondition(Itoa(n) + "" + " " + (word + " " + ("#" + (Itoa(m) + " " + ("AT" + " " + Itoa(k))))))
            == Condition(Itoa(n), false, word, "#" + (Itoa(m) + " " + ("AT" + " " + Itoa(k))))
  {
    var right := "#" + (Itoa(m) + " " + ("AT" + " " + Itoa(k)));
    NatTextIsDigits(n);
    ItoaEnds(k);
    assert right[|right| - 1] == Itoa(k)[|Itoa(k)| - 1];
    NoDo(right);
    ConditionReadsBack(Itoa(n), false, word, right);
  }

  lemma DecideSearch<W>(op: Operator, c: Condition, n: int, hay: string, at: int, d: Data<W>)
    requires Atoi(c.left) == n && Haystack(d.ans, c.right) == (hay, at) && (op.In? || op.NotIn?)
    ensures var (found, e) := Search(Get(d.ans, n), hay, at, d); Decide(op, c, d) == (found == op.In?, e)
  {}

  /** IN searches one answer for another and stores the place where the words behind AT say; NIN answers the opposite. */
  lemma AnswersAreSearched<W>(d: Data<W>, n: nat, m: int, k: int)
    ensures var (found, e) := Search(Get(d.ans, n), Get(d.ans, m), k, d);
            var right := "#" + (Itoa(m) + " " + ("AT" + " " + Itoa(k)));
            && TestIf(Itoa(n) + "" + " " + ("IN" + " " + right), d) == (found, e)
            && TestIf(Itoa(n) + "" + " " + ("NIN" + " " + right), d) == (!found, e)
  {
    var right := "#" + (Itoa(m) + " " + ("AT" + " " + Itoa(k)));
    SearchWords();
    SearchReads(n, "IN", m, k);
    SearchReads(n, "NIN", m, k);
    HaystackIs(d.ans, m, k);
    AtoiOfItoa(n);
    DecideSearch(In, Condition(Itoa(n), false, "IN", right), n, Get(d.ans, m), k, d);
    DecideSearch(NotIn, Condition(Itoa(n), false, "NIN", right), n, Get(d.ans, m), k, d);
  }

  lemma SearchWords()
    ensures OperatorOf("IN") == In && OperatorOf("NIN") == NotIn
  {
    assert Upper("IN") == "IN" && Upper("NIN") == "NIN";
  }

  // ---------------------------------------------------------------- commands on texts

  lemma FieldsOf(word: string, rest: string)
    requires word != "" && AllOf(word, NotSpace)
    ensures Fields(word) == [word] && Fields(word + " " + rest) == [word] + Fields(" " + rest)
  {
    SkipWhileIs(word, 0, 0, IsSpace);
    SkipWhileIs(word, 0, |word|, NotSpace);
    assert word[0..|word|] == word && word[|word|..] == "";
    var s := word + " " + rest;
    SkipWhileIs(s, 0, 0, IsSpace);
    SkipWhileIs(s, 0, |word|, NotSpace);
    assert s[0..|word|] == word && s[|word|..] == " " + rest;
  }

  lemma FirstField(s: string, i: nat, j: nat)
    requires SkipWhile(s, 0, IsSpace) == i < |s| && SkipWhile(s, i, NotSpace) == j && 0 < j
    ensures j <= |s| && Fields(s) == [s[i..j]] + Fields(s[j..])
  {}

  lemma FieldsBehindBlank(s: string)
    ensures Fields(" " + s) == Fields(s)
  {
    var t := " " + s;
    assert t[1..] == s;
    SkipAlong(s, t, 0, IsSpace);
    var i := SkipWhile(s, 0, IsSpace);
    if i < |s| {
      SkipWhileStops(s, 0, IsSpace);
      SkipAlong(s, t, i, NotSpace);
      SameField(s, t, i, SkipWhile(s, i, NotSpace));
    }
  }

  lemma SameField(s: string, t: string, i: nat, j: nat)
    requires |t| == |s| + 1 && t[1..] == s && i < j <= |s|
    requires SkipWhile(s, 0, IsSpace) == i && SkipWhile(s, i, NotSpace) == j && SkipWhile(t, 0, IsSpace) == i + 1 && SkipWhile(t, i + 1, NotSpace) == j + 1
    ensures Fields(t) == Fields(s)
  {
    FirstField(s, i, j);
    FirstField(t, i + 1, j + 1);
    assert t[i + 1..j + 1] == s[i..j] && t[j + 1..] == s[j..];
  }

  lemma {:induction false} SkipAlong(s: string, t: string, i: nat, p: char -> bool)
    requires i <= |s| && |t| == |s| + 1 && t[1..] == s
    ensures SkipWhile(t, i + 1, p) == SkipWhile(s, i, p) + 1
    decreases |s| - i
  {
    if i < |s| {
      assert t[i + 1] == t[1..][i] == s[i];
      if p(s[i]) { SkipAlong(s, t, i + 1, p); }
    }
  }

  lemma NumberIsWord(n: int)
    ensures Itoa(n) != "" && AllOf(Itoa(n), NotSpace)
  {
    NatTextIsDigits(if n < 0 then -n else n);
  }

  lemma TwoWords(a: int, b: int)
    ensures Fields(Itoa(a) + " " + Itoa(b)) == [Itoa(a), Itoa(b)]
  {
    NumberIsWord(a);
    NumberIsWord(b);
    FieldsOf(Itoa(a), Itoa(b));
    FieldsBehindBlank(Itoa(b));
    FieldsOf(Itoa(b), "");
  }

  lemma OneMoreWord(a: int, rest: string)
    ensures Fields(Itoa(a) + " " + rest) == [Itoa(a)] + Fields(rest)
  {
    NumberIsWord(a);
    FieldsOf(Itoa(a), rest);
    FieldsBehindBlank(rest);
  }

  lemma ThreeWords(a: int, b: int, c: int)
    ensures Fields(Itoa(a) + " " + (Itoa(b) + " " + Itoa(c))) == [Itoa(a), Itoa(b), Itoa(c)]
  {
    OneMoreWord(a, Itoa(b) + " " + Itoa(c));
    TwoWords(b, c);
  }

  lemma FourWords(a: int, b: int, c: int, e: int)
    ensures Fields(Itoa(a) + " " + (Itoa(b) + " " + (Itoa(c) + " " + Itoa(e)))) == [Itoa(a), Itoa(b), Itoa(c), Itoa(e)]
  {
    OneMoreWord(a, Itoa(b) + " " + (Itoa(c) + " " + Itoa(e)));
    ThreeWords(b, c, e);
  }

  lemma CommandIs<W>(env: Env<W>, d: Data<W>, cmd: string, rest: string, verb: Verb)
    requires VerbOf(cmd) == verb
    ensures Command(env, cmd, rest, d) == Perform(env, verb, cmd, rest, d)
  {}

  lemma VerbWords()
    ensures VerbOf("CONCAT") == Concat && VerbOf("LENGTH") == Length && VerbOf("UPPERCASE") == UpperCase && VerbOf("LOWERCASE") == LowerCase
    ensures VerbOf("SUBSTRING") == Part && VerbOf("SUBSTRINGVAR") == PartVar
  {}

  lemma ConcatWords<W>(env: Env<W>, d: Data<W>, cmd: string, rest: string, w: seq<string>, n: int, a: int, b: int)
    requires VerbOf(cmd) == Concat && Fields(rest) == w && |w| == 3 && Atoi(w[0]) == n && Atoi(w[1]) == a && Atoi(w[2]) == b
    ensures Command(env, cmd, rest, d) == Put(d, n, Get(d.ans, a) + Get(d.ans, b))
  {
    CommandIs(env, d, cmd, rest, Concat);
  }

  /** CONCAT n a b puts answer a and answer b, in that order, into answer n. */
  lemma ConcatJoins<W>(env: Env<W>, d: Data<W>, n: int, a: int, b: int)
    ensures Command(env, "CONCAT", Itoa(n) + " " + (Itoa(a) + " " + Itoa(b)), d) == Put(d, n, Get(d.ans, a) + Get(d.ans, b))
  {
    ThreeWords(n, a, b);
    AtoiOfItoa(n);
    AtoiOfItoa(a);
    AtoiOfItoa(b);
    VerbWords();
    ConcatWords(env, d, "CONCAT", Itoa(n) + " " + (Itoa(a) + " " + Itoa(b)), [Itoa(n), Itoa(a), Itoa(b)], n, a, b);
  }

  lemma LengthWords<W>(env: Env<W>, d: Data<W>, cmd: string, rest: string, w: seq<string>, n: int, a: int)
    requires VerbOf(cmd) == Length && Fields(rest) == w && |w| == 2 && Atoi(w[0]) == n && Atoi(w[1]) == a
    ensures Command(env, cmd, rest, d) == Put(d, n, Itoa(|Get(d.ans, a)|))
  {
    CommandIs(env, d, cmd, rest, Length);
  }

  /** LENGTH n a leaves in answer n a text that reads as the number of characters of answer a, and changes nothing else. */
  lemma LengthCounts<W>(env: Env<W>, d: Data<W>, n: int, a: int, m: int)
    requires 1 <= n <= MAX_ANSWERS
    ensures var e := Command(env, "LENGTH", Itoa(n) + " " + Itoa(a), d);
            Atoi(Get(e.ans, n)) == |Get(d.ans, a)| && (m != n ==> Get(e.ans, m) == Get(d.ans, m)) && e.world == d.world
  {
    TwoWords(n, a);
    AtoiOfItoa(n);
    AtoiOfItoa(a);
    VerbWords();
    LengthWords(env, d, "LENGTH", Itoa(n) + " " + Itoa(a), [Itoa(n), Itoa(a)], n, a);
    Stored(d, n, |Get(d.ans, a)|, m);
    PutGet(d, n, Itoa(|Get(d.ans, a)|), m);
  }

  lemma PartWords<W>(env: Env<W>, d: Data<W>, cmd: string, rest: string, w: seq<string>, n: int, a: int, start: int, count: int)
    requires VerbOf(cmd) == Part && Fields(rest) == w
    requires |w| == 4 && Atoi(w[0]) == n && Atoi(w[1]) == a && Atoi(w[2]) == start && Atoi(w[3]) == count
    ensures Command(env, cmd, rest, d) == Put(d, n, Substring(Get(d.ans, a), start, count))
  {
    CommandIs(env, d, cmd, rest, Part);
  }

  lemma PartVarWords<W>(env: Env<W>, d: Data<W>, cmd: string, rest: string, w: seq<string>, n: int, a: int, start: int, count: int)
    requires VerbOf(cmd) == PartVar && Fields(rest) == w
    requires |w| == 4 && Atoi(w[0]) == n && Atoi(w[1]) == a && Atoi(w[2]) == start && Atoi(w[3]) == count
    ensures Command(env, cmd, rest, d) == Put(d, n, Substring(Get(d.ans, a), Atoi(Get(d.ans, start)), Atoi(Get(d.ans, count))))
  {
    CommandIs(env, d, cmd, rest, PartVar);
  }

  /** SUBSTRING n a s c takes c characters of answer a from character s on; SUBSTRINGVAR reads both numbers from answers. */
  lemma SubstringTakes<W>(env: Env<W>, d: Data<W>, n: int, a: int, start: int, count: int)
    ensures var rest := Itoa(n) + " " + (Itoa(a) + " " + (Itoa(start) + " " + Itoa(count)));
            && Command(env, "SUBSTRING", rest, d) == Put(d, n, Substring(Get(d.ans, a), start, count))
            && Command(env, "SUBSTRINGVAR", rest, d)
               == Put(d, n, Substring(Get(d.ans, a), Atoi(Get(d.ans, start)), Atoi(Get(d.ans, count))))
  {
    var rest := Itoa(n) + " " + (Itoa(a) + " " + (Itoa(start) + " " + Itoa(count)));
    FourWords(n, a, start, count);
    AtoiOfItoa(n);
    AtoiOfItoa(a);
    AtoiOfItoa(start);
    AtoiOfItoa(count);
    var w := [Itoa(n), Itoa(a), Itoa(start), Itoa(count)];
    VerbWords();
    PartWords(env, d, "SUBSTRING", rest, w, n, a, start, count);
    PartVarWords(env, d, "SUBSTRINGVAR", rest, w, n, a, start, count);
  }

  lemma PutTwice<W>(d: Data<W>, n: int, m: int, s: string, t: string)
    requires n != m && 1 <= n <= MAX_ANSWERS && 1 <= m <= MAX_ANSWERS
    ensures var e := Put(Put(d, n, s), m, t); Get(e.ans, n) == s && Get(e.ans, m) == t
  {}

  /** An answer taken apart anywhere by two SUBSTRINGs and put together by CONCAT is itself again. */
  lemma CutAndJoined<W>(env: Env<W>, d: Data<W>, n: int, m: int, a: int, k: nat)
    requires 1 <= n <= MAX_ANSWERS && 1 <= m <= MAX_ANSWERS && n != m && n != a && k <= |Get(d.ans, a)|
    ensures var d1 := Command(env, "SUBSTRING", Itoa(n) + " " + (Itoa(a) + " " + (Itoa(1) + " " + Itoa(k))), d);
            var d2 := Command(env, "SUBSTRING", Itoa(m) + " " + (Itoa(a) + " " + (Itoa(k + 1) + " " + Itoa(-1))), d1);
            Get(Command(env, "CONCAT", Itoa(n) + " " + (Itoa(n) + " " + Itoa(m)), d2).ans, n) == Get(d.ans, a)
  {
    var src := Get(d.ans, a);
    var d1 := Put(d, n, Substring(src, 1, k));
    var d2 := Put(d1, m, Substring(src, k + 1, -1));
    SubstringTakes(env, d, n, a, 1, k);
    PutGet(d, n, Substring(src, 1, k), a);
    SubstringTakes(env, d1, m, a, k + 1, -1);
    PutTwice(d, n, m, Substring(src, 1, k), Substring(src, k + 1, -1));
    ConcatJoins(env, d2, n, n, m);
    PutGet(d2, n, src, n);
    SubstringsRejoin(src, k);
  }

  /** The capital letter of a small one. */
  predicate CapitalOf(c: char, d: char) { if 'a' <= c <= 'z' then d as int - 'A' as int == c as int - 'a' as int else d == c }

  predicate SmallOf(c: char, d: char) { if 'A' <= c <= 'Z' then d as int - 'a' as int == c as int - 'A' as int else d == c }

  lemma CaseWords<W>(env: Env<W>, d: Data<W>, cmd: string, rest: string, n: int)
    requires Atoi(TrimSpace(rest)) == n
    ensures VerbOf(cmd) == UpperCase ==> Command(env, cmd, rest, d) == Put(d, n, Upper(Get(d.ans, n)))
    ensures VerbOf(cmd) == LowerCase ==> Command(env, cmd, rest, d) == Put(d, n, Lower(Get(d.ans, n)))
  {
    CommandIs(env, d, cmd, rest, VerbOf(cmd));
  }

  lemma CaseCommand<W>(env: Env<W>, d: Data<W>, cmd: string, n: int)
    ensures VerbOf(cmd) == UpperCase ==> Command(env, cmd, Itoa(n), d) == Put(d, n, Upper(Get(d.ans, n)))
    ensures VerbOf(cmd) == LowerCase ==> Command(env, cmd, Itoa(n), d) == Put(d, n, Lower(Get(d.ans, n)))
  {
    AtoiOfItoa(n);
    ItoaIsBare(n, IsSpace);
    TrimBare(Itoa(n), IsSpace);
    CaseWords(env, d, cmd, Itoa(n), n);
  }

  lemma CaseCommands<W>(env: Env<W>, d: Data<W>, n: int)
    ensures Command(env, "UPPERCASE", Itoa(n), d) == Put(d, n, Upper(Get(d.ans, n)))
    ensures Command(env, "LOWERCASE", Itoa(n), d) == Put(d, n, Lower(Get(d.ans, n)))
  {
    VerbWords();
    CaseCommand(env, d, "UPPERCASE", n);
    CaseCommand(env, d, "LOWERCASE", n);
  }

  /** UPPERCASE n makes every small letter of answer n the same capital letter, LOWERCASE n the other way round. */
  lemma CaseChanges<W>(env: Env<W>, d: Data<W>, n: int, i: nat)
    requires i < |Get(d.ans, n)|
    ensures var u := Get(Command(env, "UPPERCASE", Itoa(n), d).ans, n); |u| == |Get(d.ans, n)| && CapitalOf(Get(d.ans, n)[i], u[i])
    ensures var l := Get(Command(env, "LOWERCASE", Itoa(n), d).ans, n); |l| == |Get(d.ans, n)| && SmallOf(Get(d.ans, n)[i], l[i])
  {
    var s := Get(d.ans, n);
    CaseCommands(env, d, n);
    PutGet(d, n, Upper(s), n);
    PutGet(d, n, Lower(s), n);
  }

  // ---------------------------------------------------------------- IF, ELSE and ENDIF

  lemma WordParses(word: string, op: Op)
    requires word != "" && AllOf(word, IsCapital) && OpOf(word) == op
    ensures Parse(word) == Line(op, "")
  {
    ParseOfWord(word);
  }

  lemma WordAndRestParse(word: string, rest: string, op: Op)
    requires word != "" && AllOf(word, IsCapital) && OpOf(word) == op && rest != "" && Bare(rest, IsBlank)
    ensures Parse(word + " " + rest) == Line(op, rest)
  {
    ParseOf(word + " " + rest, word, rest);
  }

  /** A word alone on a line, and what it does. */
  predicate LoneWord(word: string, op: Op) {
    || (word == "RETURN" && op == Return) || (word == "BREAK" && op == Break) || (word == "QUIT" && op == Quit)
    || (word == "ELSE" && op == Else) || (word == "ENDIF" && op == EndIf) || (word == "ENDWHILE" && op == EndWhile)
  }

  lemma LoneWordIs(word: string, op: Op)
    requires LoneWord(word, op)
    ensures OpOf(word) == op && word != "" && AllOf(word, IsCapital)
  {}

  lemma LoneWords(word: string, op: Op)
    requires LoneWord(word, op)
    ensures Parse(word) == Line(op, "")
  {
    LoneWordIs(word, op);
    WordParses(word, op);
  }

  /** A word with something behind it, and what it does. */
  predicate LeadingWord(word: string, op: Op) {
    (word == "IF" && op == If) || (word == "WHILE" && op == While) || (word == "GOTO" && op == Goto) || (word == "GOSUB" && op == Gosub)
  }

  lemma LeadingWordIs(word: string, op: Op)
    requires LeadingWord(word, op)
    ensures OpOf(word) == op && word != "" && AllOf(word, IsCapital)
  {}

  lemma LeadingWords(word: string, rest: string, op: Op)
    requires LeadingWord(word, op) && rest != "" && Bare(rest, IsBlank)
    ensures Parse(word + " " + rest) == Line(op, rest)
  {
    LeadingWordIs(word, op);
    WordAndRestParse(word, rest, op);
  }

  function BranchLines(cond: string, a: string, b: string): seq<string> {
    ["IF" + " " + cond, a, "ELSE", b, "ENDIF"]
  }

  function Branch(cond: string, a: Line, b: Line): Prog {
    CondElse(Line(If, cond), Plain(a, Empty), Line(Else, ""), Plain(b, Empty), Line(EndIf, ""), Empty)
  }

  lemma BranchFlat(cond: string, a: Line, b: Line)
    ensures Flatten(Branch(cond, a, b)) == [Line(If, cond), a, Line(Else, ""), b, Line(EndIf, "")]
  {
    assert Flatten(Empty) == [];
    assert Flatten(Plain(a, Empty)) == [a] && Flatten(Plain(b, Empty)) == [b];
  }

  lemma BranchParses(lines: seq<string>, head: string, mid: string, tail: string, cond: string, a: string, b: string)
    requires lines == [head + " " + cond, a, mid, b, tail] && cond != "" && Bare(cond, IsBlank)
    requires LeadingWord(head, If) && LoneWord(mid, Else) && LoneWord(tail, EndIf)
    ensures ParseAll(lines) == [Line(If, cond), Parse(a), Line(Else, ""), Parse(b), Line(EndIf, "")]
  {
    LeadingWords(head, cond, If);
    LoneWords(mid, Else);
    LoneWords(tail, EndIf);
    FiveParse(lines, head + " " + cond, a, mid, b, tail);
  }

  lemma FiveParse(lines: seq<string>, r0: string, r1: string, r2: string, r3: string, r4: string)
    requires lines == [r0, r1, r2, r3, r4]
    ensures ParseAll(lines) == [Parse(r0), Parse(r1), Parse(r2), Parse(r3), Parse(r4)]
  {
    var ls := [Parse(r0), Parse(r1), Parse(r2), Parse(r3), Parse(r4)];
    forall k | 0 <= k < 5 ensures ParseAll(lines)[k] == ls[k] {}
  }

  lemma BranchMeans<D>(ops: Ops<D>, cond: string, a: Line, b: Line, d: D)
    requires a.op.Act? && b.op.Act?
    ensures var (ok, d1) := ops.test(cond, d); var line := if ok then a else b;
            Eval(ops, 1, Branch(cond, a, b), State(d, 0, false)) == Some(State(ops.act(line.op.cmd, line.rest, d1), 0, false))
  {
    var (ok, d1) := ops.test(cond, d);
    var line := if ok then a else b;
    OneLineMeans(ops, line, d1);
  }

  lemma OneLineMeans<D>(ops: Ops<D>, line: Line, d: D)
    requires line.op.Act?
    ensures Eval(ops, 1, Plain(line, Empty), State(d, 0, false)) == Some(State(ops.act(line.op.cmd, line.rest, d), 0, false))
  {}

  /** IF, a command, ELSE, a command, ENDIF: the run stops with the first command carried out if the condition
      holds, with the second if not. */
  lemma BranchRuns<W(!new)>(env: Env<W>, cond: string, a: string, b: string, preset: map<int, string>, world: W) returns (n: nat)
    requires cond != "" && Bare(cond, IsBlank) && Parse(a).op.Act? && Parse(b).op.Act?
    ensures var e := Played(env, BranchLines(cond, a, b), preset, world, n);
            var (ok, d) := TestIf(cond, Data(Overlaid(NoAnswers(), preset), world)); var line := Parse(if ok then a else b);
            Halted(ParseAll(BranchLines(cond, a, b)), e) && e.data == Command(env, line.op.cmd, line.rest, d)
  {
    var lines, d0 := BranchLines(cond, a, b), Data(Overlaid(NoAnswers(), preset), world);
    var code, ops, p := ParseAll(lines), QaOps(env), Branch(cond, Parse(a), Parse(b));
    BranchParses(lines, "IF", "ELSE", "ENDIF", cond, a, b);
    BranchFlat(cond, Parse(a), Parse(b));
    BranchMeans(ops, cond, Parse(a), Parse(b), d0);
    n := BranchStops(ops, LabelsOf(lines, |lines|), code, cond, Parse(a), Parse(b), d0);
  }

  lemma BranchStops<D(!new)>(ops: Ops<D>, labels: map<string, nat>, code: seq<Line>, cond: string, a: Line, b: Line, d: D) returns (n: nat)
    requires a.op.Act? && b.op.Act? && code == Flatten(Branch(cond, a, b))
    requires Eval(ops, 1, Branch(cond, a, b), State(d, 0, false)).Some?
    ensures var e := Run(Turn(ops, labels, code), n, Start(d));
            Halted(code, e) && e.data == Eval(ops, 1, Branch(cond, a, b), State(d, 0, false)).value.data
  {
    assert WellFormed(Empty) && Depth(Empty) == 0;
    assert WellFormed(Plain(a, Empty)) && WellFormed(Plain(b, Empty));
    assert Depth(Plain(a, Empty)) == 0 && Depth(Plain(b, Empty)) == 0;
    n := MeaningIsReached(ops, labels, code, Branch(cond, a, b), Start(d), 1);
  }

  // ---------------------------------------------------------------- lines that do nothing

  /** A line does nothing exactly if it is blank or what is not blank of it begins with a semicolon or a colon. */
  lemma BlankExactly(front: string, t: string, back: string)
    requires AllOf(front, IsBlank) && AllOf(back, IsBlank) && Bare(t, IsBlank)
    ensures Parse(front + t + back).op.Blank? <==> t == "" || t[0] == ';' || t[0] == ':'
  {
    TrimOf(front, t, back, IsBlank);
    NeverBlank(SplitCmd(front + t + back).0);
  }

  lemma NeverBlank(cmd: string)
    ensures !OpOf(cmd).Blank?
  {}
}
