/** Labels in the text of a script, and a script whose calls go too deep. */
module QaCalls {
  import opened Options
  import opened Script
  import opened ScriptSimulation
  import opened ScriptTheorems
  import opened ScriptCalls
  import opened QaText
  import opened QaCommands
  import opened QaInterpreter
  import opened QaTheorems

  /** What each line is named. */
  function NamesOf(lines: seq<string>): (names: seq<Option<string>>)
    ensures |names| == |lines| && forall i | 0 <= i < |lines| :: names[i] == LabelOf(lines[i])
  {
    seq(|lines|, i requires 0 <= i < |lines| => LabelOf(lines[i]))
  }

  /** `labels` knows the name `lab` exactly if one of the first `n` lines has it, and leads to the last of these. */
  ghost predicate Knows(labels: map<string, nat>, names: seq<Option<string>>, n: nat, lab: string)
    requires n <= |names|
  {
    && (lab in labels <==> exists i: nat :: i < n && names[i] == Some(lab))
    && (lab in labels ==> labels[lab] < n && names[labels[lab]] == Some(lab) && forall i | labels[lab] < i < n :: names[i] != Some(lab))
  }

  /** A label of the script is the name of some line, and stands for the last line of that name. */
  lemma {:induction false} LabelsAre(lines: seq<string>, n: nat, lab: string)
    requires n <= |lines|
    ensures Knows(LabelsOf(lines, n), NamesOf(lines), n, lab)
  {
    if n > 0 {
      LabelsAre(lines, n - 1, lab);
      KnowsOneMore(LabelsOf(lines, n - 1), LabelsOf(lines, n), NamesOf(lines), n, lab);
    }
  }

  lemma KnowsOneMore(labels: map<string, nat>, labels': map<string, nat>, names: seq<Option<string>>, n: nat, lab: string)
    requires 0 < n <= |names| && Knows(labels, names, n - 1, lab)
    requires labels' == match names[n - 1] case Some(l) => labels[l := n - 1] case None => labels
    ensures Knows(labels', names, n, lab)
  {
    if names[n - 1] == Some(lab) {
      assert lab in labels' && labels'[lab] == n - 1;
    } else {
      assert lab in labels' <==> lab in labels;
    }
  }

  lemma NoBlank(s: string)
    requires ' ' !in s
    ensures Index(s, " ") == -1
  {
    IndexFromIs(s, " ", 0);
    forall k | 0 <= k <= |s| ensures !HasPrefix(s[k..], " ") {
      if k < |s| { assert s[k..][..1] == [s[k]]; }
    }
  }

  lemma UpperHasNoBlank(s: string)
    requires ' ' !in s
    ensures ' ' !in Upper(s)
  {
    forall k | 0 <= k < |s| ensures Upper(s)[k] != ' ' { assert s[k] in s; }
  }

  /** A colon and a word name a line by that word, in capitals. */
  lemma LabelOfWord(name: string)
    requires Bare(name, IsSpace) && ' ' !in name
    ensures LabelOf(":" + name) == Some(Upper(name))
  {
    var s := ":" + name;
    TrimBare(s, IsSpace);
    TrimBare(name, IsSpace);
    assert s[..1] == ":" && s[1..] == name;
    UpperHasNoBlank(name);
    NoBlank(Upper(name));
  }

  /** A line that begins with a letter names nothing. */
  lemma NoLabel(s: string)
    requires s != "" && Bare(s, IsSpace) && s[0] != ':'
    ensures LabelOf(s) == None
  {
    TrimBare(s, IsSpace);
    assert s[..1] == [s[0]];
  }

  // ---------------------------------------------------------------- twenty-one calls

  /** The names A, AA, AAA and so on. */
  function Name(k: nat): (s: string)
    ensures |s| == k + 1 && forall i | 0 <= i < |s| :: s[i] == 'A'
  {
    seq(k + 1, _ => 'A')
  }

  /** GOSUB A, :A, GOSUB AA, :AA and so on: each call leads to the line below it, which is the next call. */
  function Calls(n: nat): (ls: seq<string>)
    ensures |ls| == 2 * n && forall k: nat | k < n :: ls[2 * k] == "GOSUB" + " " + Name(k) && ls[2 * k + 1] == ":" + Name(k)
  {
    if n == 0 then [] else Calls(n - 1) + ["GOSUB" + " " + Name(n - 1), ":" + Name(n - 1)]
  }

  function DeepCalls(): (ls: seq<string>)
    ensures AreDeep(ls)
  {
    Calls(21) + ["RETURN"]
  }

  predicate AreDeep(ls: seq<string>) {
    |ls| == 43 && ls[42] == "RETURN" && forall k: nat | k < 21 :: ls[2 * k] == "GOSUB" + " " + Name(k) && ls[2 * k + 1] == ":" + Name(k)
  }

  lemma CallParses(k: nat)
    ensures Parse("GOSUB" + " " + Name(k)) == Line(Gosub, Name(k))
  {
    ParseOf("GOSUB" + " " + Name(k), "GOSUB", Name(k));
  }

  lemma ReturnParses()
    ensures Parse("RETURN") == Line(Return, "")
  {
    ParseOfWord("RETURN");
  }

  lemma NameIsLabel(k: nat)
    ensures Upper(Name(k)) == Name(k) && LabelOf(":" + Name(k)) == Some(Name(k)) && LabelOf("GOSUB" + " " + Name(k)) == None
  {
    assert Upper(Name(k)) == Name(k);
    LabelOfWord(Name(k));
    NoLabel("GOSUB" + " " + Name(k));
  }

  lemma EvenLine(ls: seq<string>, k: nat)
    requires AreDeep(ls) && k < 21
    ensures LabelOf(ls[2 * k]) == None
  {
    NameIsLabel(k);
  }

  lemma OddLine(ls: seq<string>, k: nat)
    requires AreDeep(ls) && k < 21
    ensures LabelOf(ls[2 * k + 1]) == Some(Name(k))
  {
    NameIsLabel(k);
  }

  lemma LastLine(ls: seq<string>)
    requires AreDeep(ls)
    ensures LabelOf(ls[42]) == None
  {
    NoLabel(ls[42]);
  }

  lemma OnlyThere(ls: seq<string>, k: nat, at: nat)
    requires AreDeep(ls) && at < 43 && LabelOf(ls[at]) == Some(Name(k))
    ensures at == 2 * k + 1
  {
    LastLine(ls);
    if at == 42 {
    } else if at % 2 == 0 {
      EvenLine(ls, at / 2);
    } else {
      OddLine(ls, at / 2);
      assert |Name(at / 2)| == |Name(k)|;
    }
  }

  lemma IsLabel(lines: seq<string>, i: nat, lab: string)
    requires i < |lines| && LabelOf(lines[i]) == Some(lab)
    ensures lab in LabelsOf(lines, |lines|)
  {
    LabelsAre(lines, |lines|, lab);
  }

  lemma LabelStands(lines: seq<string>, lab: string) returns (at: nat)
    requires lab in LabelsOf(lines, |lines|)
    ensures at < |lines| && at == LabelsOf(lines, |lines|)[lab] && LabelOf(lines[at]) == Some(lab)
  {
    LabelsAre(lines, |lines|, lab);
    at := LabelsOf(lines, |lines|)[lab];
  }

  lemma DeepLabels(ls: seq<string>, k: nat)
    requires AreDeep(ls) && k < 21
    ensures Name(k) in LabelsOf(ls, 43) && LabelsOf(ls, 43)[Name(k)] == 2 * k + 1
  {
    OddLine(ls, k);
    IsLabel(ls, 2 * k + 1, Name(k));
    var at := LabelStands(ls, Name(k));
    OnlyThere(ls, k, at);
  }

  /** The lines stored after `k` such calls. */
  function Stored(k: nat): (s: seq<nat>)
    ensures |s| == (if k < 20 then k else 20) && forall i | 0 <= i < |s| :: s[i] == 2 * i
  {
    seq(if k < 20 then k else 20, i => 2 * i)
  }

  lemma NextStored(k: nat)
    ensures Stored(k + 1) == if |Stored(k)| < MAX_GOSUB then Stored(k) + [2 * k] else Stored(k)
  {}

  lemma {:induction false} CallsNest<D(!new)>(turn: Machine<D> -> Machine<D>, ops: Ops<D>, labels: map<string, nat>, code: seq<Line>, k: nat, m: Machine<D>)
    requires Turns(turn, ops, labels, code) && k <= 21 && |code| == 43 && m == Start(m.data)
    requires forall j: nat | j < 21 :: code[2 * j].op.Gosub? && LeadsTo(ops, labels, code, m.(pc := 2 * j), 2 * j + 1)
    ensures Run(turn, k, m) == Outside(m, 2 * k, Stored(k))
  {
    if k > 0 {
      CallsNest(turn, ops, labels, code, k - 1, m);
      var m1 := Outside(m, 2 * (k - 1), Stored(k - 1));
      assert LeadsTo(ops, labels, code, m.(pc := 2 * (k - 1)), 2 * (k - 1) + 1);
      TurnGosub(turn, ops, labels, code, m1, 2 * (k - 1) + 1);
      NextStored(k - 1);
      RunAdds(turn, k - 1, 1, m);
    }
  }

  lemma CallLine<W>(env: Env<W>, ls: seq<string>, m: Machine<Data<W>>, j: nat)
    requires AreDeep(ls) && j < 21
    ensures ParseAll(ls)[2 * j].op.Gosub? && LeadsTo(QaOps(env), LabelsOf(ls, 43), ParseAll(ls), m.(pc := 2 * j), 2 * j + 1)
  {
    CallParses(j);
    DeepLabels(ls, j);
    TargetOfName(env, m.data, j);
  }

  lemma TargetOfName<W>(env: Env<W>, d: Data<W>, j: nat)
    ensures QaOps(env).target(Name(j), d) == Name(j)
  {
    NameIsLabel(j);
    assert '#' !in Name(j);
    TargetIs(d, Name(j), 0);
  }

  /** Of these twenty-one calls the last is not stored. The RETURN behind it, made from line 42, goes on not on line 41,
      below that call, but on line 39, below the call before it. */
  lemma DeepestCallReturnsElsewhere<W(!new)>(env: Env<W>, preset: map<int, string>, world: W)
    ensures var e := Played(env, DeepCalls(), preset, world, 21); e.pc == 42 && e.gosub == Stored(20)
    ensures Played(env, DeepCalls(), preset, world, 22).pc == 39
  {
    var code, labels, ops := ParseAll(DeepCalls()), LabelsOf(DeepCalls(), 43), QaOps(env);
    var m := Start(Data(Overlaid(NoAnswers(), preset), world));
    forall j: nat | j < 21 ensures code[2 * j].op.Gosub? && LeadsTo(ops, labels, code, m.(pc := 2 * j), 2 * j + 1) { CallLine(env, DeepCalls(), m, j); }
    TurnTurns(ops, labels, code);
    CallsNest(Turn(ops, labels, code), ops, labels, code, 21, m);
    ReturnParses();
    LastReturn(Turn(ops, labels, code), ops, labels, code, m, 21);
  }

  lemma LastReturn<D(!new)>(turn: Machine<D> -> Machine<D>, ops: Ops<D>, labels: map<string, nat>, code: seq<Line>, m: Machine<D>, n: nat)
    requires Turns(turn, ops, labels, code) && |code| == 43 && code[42].op.Return? && !m.done
    requires Run(turn, n, m) == Outside(m, 42, Stored(21))
    ensures Run(turn, n + 1, m).pc == 39
  {
    ReturnsTo(turn, ops, labels, code, Outside(m, 42, Stored(21)), Stored(21)[..19], 38);
    RunAdds(turn, n, 1, m);
  }

  lemma ReturnsTo<D(!new)>(turn: Machine<D> -> Machine<D>, ops: Ops<D>, labels: map<string, nat>, code: seq<Line>, e: Machine<D>,
                           outer: seq<nat>, back: nat)
    requires Turns(turn, ops, labels, code) && Idle(e) && e.pc < |code| && code[e.pc].op.Return?
    requires |e.gosub| > 0 && outer == e.gosub[..|e.gosub| - 1] && back == e.gosub[|e.gosub| - 1]
    ensures Run(turn, 1, e).pc == back + 1
  {
    assert e.gosub == outer + [back];
    TurnReturn(turn, ops, labels, code, e, outer, back);
  }
}
