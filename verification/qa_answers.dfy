/** The answers of a questionnaire as an array changed in place, with the condition tests and text
    commands that work on it. */
module QaAnswerBook {
  import opened Script
  import opened QaText
  import opened QaCommands

  class AnswerBook<W(!new)> {
    const env: Env<W>
    ghost const ops: Ops<Data<W>>
    const ans: array<string>
    var world: W

    ghost predicate Valid()
      reads this
    {
      ans.Length == MAX_ANSWERS + 1 && IsQa(ops, env)
    }

    function Now(): Data<W>
      requires ans.Length == MAX_ANSWERS + 1
      reads this, ans
    {
      Data(ans[..], world)
    }

    constructor (env: Env<W>, world: W)
      ensures Valid() && fresh(ans) && this.env == env && ops == QaOps(env)
      ensures Now() == Data(seq(MAX_ANSWERS + 1, _ => ""), world)
    {
      QaOpsAreQa(env);
      this.env, this.ops, this.world := env, QaOps(env), world;
      ans := new string[MAX_ANSWERS + 1](_ => "");
      new;
      assert ans[..] == seq(MAX_ANSWERS + 1, _ => "");
    }

    method PutAnswer(n: int, s: string)
      requires Valid()
      modifies ans
      ensures Valid() && Now() == Put(old(Now()), n, s)
    {
      if n < 1 || n > MAX_ANSWERS {
        return;
      }
      ans[n] := s;
    }

    /** Stores the answers given in advance; those numbered outside 1 to 100 are dropped, so their order
        does not matter. */
    method PutAll(preset: map<int, string>)
      requires Valid()
      modifies ans
      ensures Valid() && Now() == Data(Overlaid(old(Now()).ans, preset), world)
    {
      for n := 1 to MAX_ANSWERS + 1
        invariant Valid() && ans[0] == old(ans[0])
        invariant forall k | 1 <= k < n :: ans[k] == if k in preset then preset[k] else old(ans[k])
        invariant forall k | n <= k <= MAX_ANSWERS :: ans[k] == old(ans[k])
      {
        if n in preset {
          PutAnswer(n, preset[n]);
        }
      }
      assert Now().ans == Overlaid(old(Now()).ans, preset);
    }

    /** Takes over what a command of the environment did. */
    method Store(d: Data<W>)
      requires Valid()
      modifies this`world, ans
      ensures Valid() && Now() == d
    {
      world := d.world;
      for i := 0 to ans.Length
        invariant ans[..i] == d.ans[..i]
        invariant Valid() && world == d.world
      {
        ans[i] := d.ans[i];
      }
      assert ans[..] == d.ans;
    }

    /** Tests a condition; IN and NIN may store a position. */
    method Test(text: string) returns (ok: bool)
      requires Valid()
      modifies ans
      ensures Valid() && (ok, Now()) == ops.test(text, old(Now()))
    {
      assert Asks(text, Now());
      var c := DoParseCondition(text);
      ok := Check(OperatorOf(c.op), c);
    }

    /** The same for WHILE, whose condition may end in " do". */
    method TestWhile(text: string) returns (ok: bool)
      requires Valid()
      modifies ans
      ensures Valid() && (ok, Now()) == ops.testWhile(text, old(Now()))
    {
      assert Asks(text, Now()) && Asks(StripDo(text), Now());
      ok := Test(StripDo(text));
    }

    method FindTarget(rest: string) returns (lab: string)
      requires Valid()
      ensures lab == ops.target(rest, Now())
    {
      assert Asks(rest, Now());
      lab := Target(rest, Now());
    }

    /** A command without control effect. */
    method Do(cmd: string, rest: string)
      requires Valid()
      modifies this`world, ans
      ensures Valid() && Now() == ops.act(cmd, rest, old(Now()))
    {
      assert Asks(rest, Now());
      Act(VerbOf(cmd), cmd, rest);
    }

    method Check(op: Operator, c: Condition) returns (ok: bool)
      requires Valid()
      modifies ans
      ensures Valid() && (ok, Now()) == Decide(op, c, old(Now()))
    {
      var n := DoAtoi(c.left);
      var lv := Get(ans[..], n);
      if op.In? || op.NotIn? {
        var (hay, at) := Haystack(ans[..], c.right);
        var found := Find(lv, hay, at);
        return found == op.In?;
      }
      var rv := Value(ans[..], c.right);
      if c.numeric {
        var a := DoAtoi(lv);
        var b := DoAtoi(rv);
        return CompareNumbers(op, a, b);
      }
      ok := CompareText(op, Upper(lv), Upper(rv));
    }

    method Find(needle: string, hay: string, at: int) returns (found: bool)
      requires Valid()
      modifies ans
      ensures Valid() && (found, Now()) == Search(needle, hay, at, old(Now()))
    {
      var pos := Index(Upper(hay), Upper(needle));
      found := pos >= 0;
      if needle == "" {
        found := false;
      }
      if found && at >= 1 {
        PutAnswer(at, Itoa(pos + 1));
      }
    }

    /** `n` characters of answer `src` from 1-based position `start` on go to answer `dst`. */
    method PutPart(dst: int, src: int, start: int, n: int)
      requires Valid()
      modifies ans
      ensures Valid() && Now() == Put(old(Now()), dst, Substring(Get(old(ans[..]), src), start, n))
    {
      var s := Get(ans[..], src);
      var i := if start < 1 then 0 else start - 1;
      if i >= |s| {
        PutAnswer(dst, "");
        return;
      }
      var j := if n < 0 || i + n > |s| then |s| else i + n;
      assert s[i..|s|] == s[i..];
      PutAnswer(dst, s[i..j]);
    }

    method Act(verb: Verb, cmd: string, rest: string)
      requires Valid()
      modifies this`world, ans
      ensures Valid() && Now() == Perform(env, verb, cmd, rest, old(Now()))
    {
      var w := Fields(rest);
      match verb
      case Assignment => Assign(rest);
      case Inc => AddTo(rest, 1);
      case Dec => AddTo(rest, -1);
      case Concat =>
        if |w| >= 3 {
          PutAnswer(Atoi(w[0]), Get(ans[..], Atoi(w[1])) + Get(ans[..], Atoi(w[2])));
        }
      case Length =>
        if |w| >= 2 {
          PutAnswer(Atoi(w[0]), Itoa(|Get(ans[..], Atoi(w[1]))|));
        }
      case UpperCase =>
        var n := DoAtoi(TrimSpace(rest));
        PutAnswer(n, Upper(Get(ans[..], n)));
      case LowerCase =>
        var n := DoAtoi(TrimSpace(rest));
        PutAnswer(n, Lower(Get(ans[..], n)));
      case Part =>
        if |w| >= 4 {
          PutPart(Atoi(w[0]), Atoi(w[1]), Atoi(w[2]), Atoi(w[3]));
        }
      case PartVar =>
        if |w| >= 4 {
          PutPart(Atoi(w[0]), Atoi(w[1]), Atoi(Get(ans[..], Atoi(w[2]))), Atoi(Get(ans[..], Atoi(w[3]))));
        }
      case Foreign => Store(env.other(cmd, rest, Now()));
    }

    method Assign(rest: string)
      requires Valid()
      modifies ans
      ensures Valid() && Now() == QaCommands.Assign(env, rest, old(Now()))
    {
      var word, val := DoFirstWord(rest);
      var dst := FindDestination(word);
      StoreValue(dst, val);
    }

    method FindDestination(word: string) returns (dst: int)
      requires Valid()
      ensures dst == Destination(word, ans[..])
    {
      dst := DoAtoi(word);
      if word != "" && word[0] == '%' {
        dst := DoAtoi(Get(ans[..], Atoi(word[1..])));
      }
    }

    method StoreValue(dst: int, val: string)
      requires Valid()
      modifies ans
      ensures Valid() && Now() == QaCommands.StoreValue(env, dst, val, old(Now()))
    {
      if val != "" && IsMark(val[0]) {
        PutAnswer(dst, Value(ans[..], val));
      } else {
        PutAnswer(dst, env.expand(Value(ans[..], val), Now()));
      }
    }

    method AddTo(rest: string, step: int)
      requires Valid()
      modifies ans
      ensures Valid() && Now() == QaCommands.AddTo(rest, step, old(Now()))
    {
      var s := TrimSpace(rest);
      var n := DoAtoi(if HasPrefix(s, "%") then s[1..] else s);
      AddStep(n, step);
    }

    method AddStep(n: int, step: int)
      requires Valid()
      modifies ans
      ensures Valid() && Now() == QaCommands.AddStep(n, step, old(Now()))
    {
      var v := DoAtoi(Get(ans[..], n));
      PutAnswer(n, Itoa(v + step));
    }
  }
}
