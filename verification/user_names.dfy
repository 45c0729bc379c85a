/** What names users are found by: the words of a name, without regard to case and to the white space around them. */
module UserNames {
  import opened Options
  import opened Bytes
  import opened JamBytes
  import opened JamFormat
  import opened UserSearch

  /** The words between white space. */
  function Words(s: text): (ws: seq<text>)
    ensures s != [] && !IsAsciiSpace(s[0]) ==> ws != []
  {
    if s == [] then []
    else if IsAsciiSpace(s[0]) then Words(s[1..])
    else if |s| == 1 || IsAsciiSpace(s[1]) then [[s[0]]] + Words(s[1..])
    else var ws := Words(s[1..]); [[s[0]] + ws[0]] + ws[1..]
  }

  /** The same words but for case. */
  predicate SameWords(a: text, b: text) {
    |Words(a)| == |Words(b)| && forall i | 0 <= i < |Words(a)| :: SameText(Words(a)[i], Words(b)[i])
  }

  function Join(ws: seq<text>): text {
    if ws == [] then [] else if |ws| == 1 then ws[0] else ws[0] + [32] + Join(ws[1..])
  }

  function Capitals(ws: seq<text>): (us: seq<text>)
    ensures |us| == |ws| && forall i | 0 <= i < |ws| :: us[i] == Upper(ws[i])
  {
    seq(|ws|, i requires 0 <= i < |ws| => Upper(ws[i]))
  }

  // ---------------------------------------------------------------- words of trimmed and of capital text

  lemma {:induction false} WordsBeforeSpace(s: text, c: byte)
    requires IsAsciiSpace(c)
    ensures Words(s + [c]) == Words(s)
  {
    var t := s + [c];
    if s == [] {
      assert t[1..] == [];
    } else {
      assert t[1..] == s[1..] + [c];
      WordsBeforeSpace(s[1..], c);
      if |s| == 1 { assert Words(s[1..]) == []; }
    }
  }

  lemma {:induction false} WordsOfTrimRight(s: text)
    ensures Words(TrimRight(s, IsAsciiSpace)) == Words(s)
  {
    if s != [] && IsAsciiSpace(s[|s| - 1]) {
      WordsOfTrimRight(s[..|s| - 1]);
      WordsBeforeSpace(s[..|s| - 1], s[|s| - 1]);
      assert s == s[..|s| - 1] + [s[|s| - 1]];
    }
  }

  lemma {:induction false} WordsOfTrimLeft(s: text)
    ensures Words(TrimLeft(s)) == Words(s)
  {
    if s != [] && IsAsciiSpace(s[0]) { WordsOfTrimLeft(s[1..]); }
  }

  lemma {:induction false} WordsOfUpper(s: text)
    ensures Words(Upper(s)) == Capitals(Words(s))
  {
    var u := Upper(s);
    if s != [] {
      assert u[1..] == Upper(s[1..]) && IsAsciiSpace(u[0]) == IsAsciiSpace(s[0]);
      WordsOfUpper(s[1..]);
      if !IsAsciiSpace(s[0]) { UpperWord(s, Words(s[1..])); }
    }
  }

  /** The first character of a word put in front. */
  lemma UpperWord(s: text, ws: seq<text>)
    requires s != []
    ensures Capitals([[s[0]]] + ws) == [[UpByte(s[0])]] + Capitals(ws)
    ensures ws != [] ==> Capitals([[s[0]] + ws[0]] + ws[1..]) == [[UpByte(s[0])] + Capitals(ws)[0]] + Capitals(ws)[1..]
  {
    assert Upper([s[0]]) == [UpByte(s[0])];
    if ws != [] { assert Upper([s[0]] + ws[0]) == [UpByte(s[0])] + Upper(ws[0]); }
  }

  // ---------------------------------------------------------------- a name as it is compared

  lemma JoinFront(c: byte, ws: seq<text>)
    requires ws != []
    ensures Join([[c] + ws[0]] + ws[1..]) == [c] + Join(ws)
    ensures Join([[c]] + ws) == [c] + ([32] + Join(ws))
  {
    JoinLonger(c, ws[0], ws[1..], ws);
    JoinMore([c], ws, [[c]] + ws);
  }

  lemma JoinLonger(c: byte, w: text, more: seq<text>, ws: seq<text>)
    requires ws == [w] + more
    ensures Join([[c] + w] + more) == [c] + Join(ws)
  {
    var grown := [[c] + w] + more;
    assert grown[1..] == more && ws[1..] == more;
  }

  lemma JoinMore(w: text, ws: seq<text>, put: seq<text>)
    requires ws != [] && put == [w] + ws
    ensures Join(put) == w + ([32] + Join(ws))
  {
    assert put[1..] == ws;
  }

  /** Squeezing a text that does not end in white space joins its words with single spaces. */
  lemma {:induction false} SqueezeIsJoin(s: text)
    requires s != [] ==> !IsAsciiSpace(s[|s| - 1])
    ensures s != [] ==> Words(s) != []
    ensures Squeeze(s, true) == Join(Words(s))
    ensures Squeeze(s, false) == (if s != [] && IsAsciiSpace(s[0]) then [32] else []) + Join(Words(s))
  {
    if s != [] {
      var r := s[1..];
      SqueezeIsJoin(r);
      if |s| == 1 {
        assert r == [] && Join([[s[0]]]) == [s[0]];
      } else if !IsAsciiSpace(s[0]) {
        JoinFront(s[0], Words(r));
      }
    }
  }

  /** No white space in it, and not empty. */
  predicate Solid(w: text) { w != [] && forall i | 0 <= i < |w| :: !IsAsciiSpace(w[i]) }

  predicate AllSolid(ws: seq<text>) { forall i | 0 <= i < |ws| :: Solid(ws[i]) }

  lemma {:induction false} WordsAreSolid(s: text)
    ensures AllSolid(Words(s))
  {
    if s != [] { WordsAreSolid(s[1..]); }
  }

  lemma {:induction false} WordsOfWord(w: text, rest: text)
    requires Solid(w) && (rest != [] ==> IsAsciiSpace(rest[0]))
    ensures Words(w + rest) == [w] + Words(rest)
  {
    var s := w + rest;
    assert s[1..] == w[1..] + rest;
    if |w| == 1 {
      assert w == [w[0]] && s[1..] == rest;
      if rest == [] { assert Words(rest) == []; }
    } else {
      WordsOfWord(w[1..], rest);
      assert w == [w[0]] + w[1..];
    }
  }

  lemma {:induction false} WordsOfJoin(ws: seq<text>)
    requires AllSolid(ws)
    ensures Words(Join(ws)) == ws
  {
    if |ws| == 1 {
      WordsOfWord(ws[0], []);
      assert ws[0] + [] == ws[0];
    } else if |ws| > 1 {
      WordsOfJoin(ws[1..]);
      var rest := [32] + Join(ws[1..]);
      assert rest[1..] == Join(ws[1..]);
      WordsOfWord(ws[0], rest);
      assert ws[0] + [32] + Join(ws[1..]) == ws[0] + rest;
    }
  }

  lemma {:induction false} TrimRightEnds(s: text)
    ensures TrimRight(s, IsAsciiSpace) != [] ==> !IsAsciiSpace(TrimRight(s, IsAsciiSpace)[|TrimRight(s, IsAsciiSpace)| - 1])
    ensures TrimRight(s, IsAsciiSpace) != [] ==> TrimRight(s, IsAsciiSpace)[0] == s[0]
  {
    if s != [] && IsAsciiSpace(s[|s| - 1]) { TrimRightEnds(s[..|s| - 1]); }
  }

  lemma {:induction false} TrimLeftStarts(s: text)
    ensures TrimLeft(s) != [] ==> !IsAsciiSpace(TrimLeft(s)[0])
  {
    if s != [] && IsAsciiSpace(s[0]) { TrimLeftStarts(s[1..]); }
  }

  /** A name is compared by its words in capitals. */
  lemma FoldIsWords(s: text)
    ensures Fold(s) == Join(Capitals(Words(s))) && Words(Fold(s)) == Capitals(Words(s))
  {
    var t := Trim(s);
    var u := Upper(t);
    TrimLeftStarts(s);
    TrimRightEnds(TrimLeft(s));
    WordsOfTrimLeft(s);
    WordsOfTrimRight(TrimLeft(s));
    WordsOfUpper(t);
    SqueezeIsJoin(u);
    WordsAreSolid(u);
    WordsOfJoin(Words(u));
  }

  /** Two names are the same to a search exactly when they have the same words but for case. */
  lemma FoldAlike(a: text, b: text)
    ensures Fold(a) == Fold(b) <==> SameWords(a, b)
    ensures Fold(a) == [] <==> Words(a) == []
  {
    FoldIsWords(a);
    FoldIsWords(b);
    SameCapitals(Words(a), Words(b));
    if Words(a) != [] { assert Capitals(Words(a)) != []; }
    assert Words([]) == [] && Join([]) == [];
  }

  lemma SameCapitals(v: seq<text>, w: seq<text>)
    ensures Capitals(v) == Capitals(w) <==> |v| == |w| && forall i | 0 <= i < |v| :: SameText(v[i], w[i])
  {
    if |v| == |w| {
      forall i | 0 <= i < |v| ensures Capitals(v)[i] == Capitals(w)[i] <==> SameText(v[i], w[i]) { SameInCapitals(v[i], w[i]); }
    }
  }

  // ---------------------------------------------------------------- searches

  /** A live user whose name or handle has the words searched for. */
  predicate IsCalled(u: User, name: text) {
    !u.deleted && Words(name) != [] && (SameWords(u.name, name) || SameWords(u.handle, name))
  }

  lemma MatchesIsCalled(u: User, name: text)
    ensures Matches(u, Fold(name)) <==> IsCalled(u, name)
  {
    FoldAlike(u.name, name);
    FoldAlike(u.handle, name);
    FoldAlike(name, name);
  }

  /** Whatever the index holds: a search finds someone exactly if some live user is called so, and then one who is. */
  lemma SearchFindsTheCalled(hash: text -> u32, users: seq<User>, index: text, name: text)
    ensures Found(hash, users, index, name).Some? <==> exists i :: 0 <= i < |users| && IsCalled(users[i], name)
    ensures var r := Found(hash, users, index, name); r.Some? ==> r.value < |users| && IsCalled(users[r.value], name)
  {
    SearchAgreesWithScan(hash, users, index, name);
    forall i | 0 <= i < |users| ensures Matches(users[i], Fold(name)) <==> IsCalled(users[i], name) { MatchesIsCalled(users[i], name); }
    var r := Found(hash, users, index, name);
    if i :| 0 <= i < |users| && IsCalled(users[i], name) { assert Matches(users[i], Fold(name)); }
    if r.Some? { assert IsCalled(users[r.value], name); }
  }

  /** Names that differ only in case, in outer blanks or in the white space between words have one result. */
  lemma SameResult(hash: text -> u32, users: seq<User>, index: text, a: text, b: text)
    requires SameWords(a, b)
    ensures Found(hash, users, index, a) == Found(hash, users, index, b)
  {
    FoldAlike(a, b);
  }

  /** So every live user with a name is found by it, and by his handle, however written, unless another is called so too. */
  lemma EveryUserIsFound(hash: text -> u32, users: seq<User>, index: text, i: nat, name: text)
    requires i < |users| && !users[i].deleted && Words(name) != [] && (SameWords(users[i].name, name) || SameWords(users[i].handle, name))
    ensures Found(hash, users, index, name).Some?
    ensures (forall k | 0 <= k < |users| && IsCalled(users[k], name) :: k == i) ==> Found(hash, users, index, name) == Some(i)
  {
    assert IsCalled(users[i], name);
    SearchFindsTheCalled(hash, users, index, name);
  }

  /** Two records are one person's exactly when a name or handle of one, not blank, is a name or handle of the other. */
  lemma SamePersonExactly(a: User, b: User)
    ensures SamePerson(a, b) <==>
            (Words(b.name) != [] && (SameWords(a.name, b.name) || SameWords(a.handle, b.name)))
            || (Words(b.handle) != [] && (SameWords(a.name, b.handle) || SameWords(a.handle, b.handle)))
  {
    FoldAlike(a.name, b.name);
    FoldAlike(a.handle, b.name);
    FoldAlike(a.name, b.handle);
    FoldAlike(a.handle, b.handle);
    FoldAlike(b.name, b.name);
    FoldAlike(b.handle, b.handle);
  }

  // ---------------------------------------------------------------- single-spaced names

  /** Between words there is one blank, and no other white space. */
  predicate OneBlankBetween(t: text) { forall i | 0 <= i < |t| && IsAsciiSpace(t[i]) :: t[i] == 32 && i + 1 < |t| && !IsAsciiSpace(t[i + 1]) }

  lemma {:induction false} SqueezeKeeps(t: text)
    ensures |Squeeze(t, true)| <= |t| && |Squeeze(t, false)| <= |t|
    ensures t != [] && IsAsciiSpace(t[0]) ==> |Squeeze(t, true)| < |t|
  {
    if t != [] { SqueezeKeeps(t[1..]); }
  }

  lemma {:induction false} SqueezedExactly(t: text)
    requires t != [] ==> !IsAsciiSpace(t[|t| - 1])
    ensures Squeeze(t, false) == t <==> OneBlankBetween(t)
    ensures t != [] && !IsAsciiSpace(t[0]) ==> Squeeze(t, true) == Squeeze(t, false)
  {
    if t != [] {
      var r := t[1..];
      SqueezedExactly(r);
      SqueezeKeeps(r);
      OneLess(t);
      assert t == [t[0]] + r;
    }
  }

  lemma OneLess(t: text)
    requires t != []
    ensures OneBlankBetween(t) <==>
            OneBlankBetween(t[1..]) && (IsAsciiSpace(t[0]) ==> t[0] == 32 && |t| > 1 && !IsAsciiSpace(t[1]))
  {
    var r := t[1..];
    if OneBlankBetween(t) {
      forall i | 0 <= i < |r| && IsAsciiSpace(r[i]) ensures r[i] == 32 && i + 1 < |r| && !IsAsciiSpace(r[i + 1]) { assert t[i + 1] == r[i]; }
    }
    if OneBlankBetween(r) {
      forall i | 1 <= i < |t| && IsAsciiSpace(t[i]) ensures t[i] == 32 && i + 1 < |t| && !IsAsciiSpace(t[i + 1]) { assert r[i - 1] == t[i]; }
    }
  }

  /** A name is single-spaced exactly when, without outer blanks, one blank and nothing else stands between its words. */
  lemma SingleSpacedExactly(s: text)
    ensures SingleSpaced(s) <==> OneBlankBetween(Trim(s))
  {
    var t := Trim(s);
    TrimRightEnds(TrimLeft(s));
    CapitalsKeepBlanks(t);
    SqueezedExactly(Upper(t));
  }

  lemma CapitalsKeepBlanks(t: text)
    ensures OneBlankBetween(Upper(t)) <==> OneBlankBetween(t)
    ensures forall i | 0 <= i < |t| :: IsAsciiSpace(Upper(t)[i]) == IsAsciiSpace(t[i])
  {
    var u := Upper(t);
    forall i | 0 <= i < |t| ensures IsAsciiSpace(u[i]) == IsAsciiSpace(t[i]) && (u[i] == 32 <==> t[i] == 32) {}
  }
}
