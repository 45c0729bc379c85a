/** Reading a script line: trimming, the command word, words, numbers and quoted text.

    Each scanning loop of the program is a method, proved against a function that says what it finds.
    Text is ASCII. */
module QaText {

  // ---------------------------------------------------------------- characters

  predicate IsBlank(c: char) { c == ' ' || c == '\t' || c == '\r' || c == '\n' }

  predicate IsSpace(c: char) { IsBlank(c) || c == '\U{0B}' || c == '\U{0C}' }

  predicate IsLetter(c: char) { 'A' <= c <= 'Z' || 'a' <= c <= 'z' }

  predicate IsDigit(c: char) { '0' <= c <= '9' }

  predicate IsQuote(c: char) { c == '"' || c == '\'' }

  function UpChar(c: char): char { if 'a' <= c <= 'z' then c - 32 as char else c }

  function Upper(s: string): string { seq(|s|, i requires 0 <= i < |s| => UpChar(s[i])) }

  function LowChar(c: char): char { if 'A' <= c <= 'Z' then c + 32 as char else c }

  function Lower(s: string): string { seq(|s|, i requires 0 <= i < |s| => LowChar(s[i])) }

  // ---------------------------------------------------------------- scanning

  /** The first position at or after `i` where `p` fails, or the end. */
  function SkipWhile(s: string, i: nat, p: char -> bool): (j: nat)
    requires i <= |s|
    ensures i <= j <= |s|
    decreases |s| - i
  {
    if i < |s| && p(s[i]) then SkipWhile(s, i + 1, p) else i
  }

  /** The last position at or before `i` where `p` fails for the character in front, or 0. */
  function SkipBack(s: string, i: nat, p: char -> bool): (j: nat)
    requires i <= |s|
    ensures j <= i
  {
    if i > 0 && p(s[i - 1]) then SkipBack(s, i - 1, p) else i
  }

  function Trimmed(s: string, p: char -> bool): string {
    var t := s[SkipWhile(s, 0, p)..];
    t[..SkipBack(t, |t|, p)]
  }

  function TrimRA(s: string): string { Trimmed(s, IsBlank) }

  function TrimSpace(s: string): string { Trimmed(s, IsSpace) }

  method DoTrimRA(s: string) returns (r: string)
    ensures r == TrimRA(s)
  {
    var i := 0;
    while i < |s| && IsBlank(s[i])
      invariant i <= |s| && SkipWhile(s, 0, IsBlank) == SkipWhile(s, i, IsBlank)
    {
      i := i + 1;
    }
    r := s[i..];
    var j := |r|;
    while j > 0 && IsBlank(r[j - 1])
      invariant 0 <= j <= |r| && SkipBack(r, |r|, IsBlank) == SkipBack(r, j, IsBlank)
    {
      j := j - 1;
    }
    r := r[..j];
  }

  /** The command word in upper case and the rest: leading characters up to the first letter are passed over. */
  function SplitCmd(line: string): (string, string) {
    var s := TrimRA(line);
    var i := SkipWhile(s, 0, c => !IsLetter(c));
    var j := SkipWhile(s, i, IsLetter);
    (Upper(s[i..j]), TrimRA(s[j..]))
  }

  method DoSplitCmd(line: string) returns (cmd: string, rest: string)
    ensures (cmd, rest) == SplitCmd(line)
  {
    var s := DoTrimRA(line);
    var notLetter := c => !IsLetter(c);
    var i := 0;
    while i < |s| && !IsLetter(s[i])
      invariant i <= |s| && SkipWhile(s, 0, notLetter) == SkipWhile(s, i, notLetter)
    {
      i := i + 1;
    }
    var j := i;
    while j < |s| && IsLetter(s[j])
      invariant i <= j <= |s| && SkipWhile(s, i, IsLetter) == SkipWhile(s, j, IsLetter)
    {
      j := j + 1;
    }
    rest := DoTrimRA(s[j..]);
    cmd := Upper(s[i..j]);
  }

  predicate NotGap(c: char) { c != ' ' && c != '\t' }

  function FirstWord(s: string): (string, string) {
    var t := TrimRA(s);
    var i := SkipWhile(t, 0, NotGap);
    (t[..i], TrimRA(t[i..]))
  }

  method DoFirstWord(s: string) returns (word: string, rest: string)
    ensures (word, rest) == FirstWord(s)
  {
    var t := DoTrimRA(s);
    var i := 0;
    while i < |t| && t[i] != ' ' && t[i] != '\t'
      invariant i <= |t| && SkipWhile(t, 0, NotGap) == SkipWhile(t, i, NotGap)
    {
      i := i + 1;
    }
    rest := DoTrimRA(t[i..]);
    word := t[..i];
  }

  predicate NotSpace(c: char) { !IsSpace(c) }

  /** The words between white space. */
  function Fields(s: string): seq<string>
    decreases |s|
  {
    var i := SkipWhile(s, 0, IsSpace);
    if i == |s| then [] else
    var j := SkipWhile(s, i, NotSpace);
    [s[i..j]] + if j > 0 then Fields(s[j..]) else []
  }

  predicate HasPrefix(s: string, p: string) { |p| <= |s| && s[..|p|] == p }

  predicate HasSuffix(s: string, p: string) { |p| <= |s| && s[|s| - |p|..] == p }

  /** Where `p` first occurs in `s` at or after `i`, or -1. */
  function IndexFrom(s: string, p: string, i: nat): (r: int)
    requires i <= |s|
    decreases |s| - i
  {
    if HasPrefix(s[i..], p) then i else if i < |s| then IndexFrom(s, p, i + 1) else -1
  }

  function Index(s: string, p: string): int { IndexFrom(s, p, 0) }

  predicate Less(a: string, b: string) {
    b != [] && (a == [] || a[0] < b[0] || (a[0] == b[0] && Less(a[1..], b[1..])))
  }

  // ---------------------------------------------------------------- numbers

  predicate IsMark(c: char) { c == '#' || c == '%' }

  function DigitValue(c: char): nat
    requires IsDigit(c)
  {
    c as nat - '0' as nat
  }

  /** `n` followed by the leading digits of `s`. */
  function ReadDigits(s: string, n: nat): nat {
    if s != [] && IsDigit(s[0]) then ReadDigits(s[1..], 10 * n + DigitValue(s[0])) else n
  }

  /** The number a word starts with, after any # and % marks; 0 if there is none. */
  function Atoi(s: string): int {
    var t := TrimSpace(s[SkipWhile(s, 0, IsMark)..]);
    if t != [] && t[0] == '-' then -(ReadDigits(t[1..], 0) as int) else ReadDigits(t, 0)
  }

  method DoAtoi(s: string) returns (r: int)
    ensures r == Atoi(s)
  {
    var t := TrimSpace(s[SkipWhile(s, 0, IsMark)..]);
    var i, sign := 0, 1;
    if |t| > 0 && t[0] == '-' {
      sign := -1;
      i := 1;
    }
    ghost var start := i;
    assert t[0..] == t;
    var n: nat := 0;
    while i < |t| && IsDigit(t[i])
      invariant start <= i <= |t| && ReadDigits(t[start..], 0) == ReadDigits(t[i..], n)
    {
      n := n * 10 + DigitValue(t[i]);
      i := i + 1;
    }
    r := sign * n;
  }

  function DigitChar(d: nat): char
    requires d < 10
  {
    '0' + d as char
  }

  function NatText(n: nat): string {
    (if n < 10 then [] else NatText(n / 10)) + [DigitChar(n % 10)]
  }

  /** The decimal text of a number. */
  function Itoa(n: int): string { if n < 0 then "-" + NatText(-n) else NatText(n) }

  lemma {:induction false} ReadDigitsOfText(n: nat, m: nat, rest: string)
    ensures |NatText(n)| > 0 && IsDigit(NatText(n)[0]) && IsDigit(NatText(n)[|NatText(n)| - 1])
    ensures m == 0 ==> ReadDigits(NatText(n) + rest, m) == ReadDigits(rest, n)
    decreases n
  {
    var d := [DigitChar(n % 10)];
    assert (d + rest)[1..] == rest;
    if n < 10 {
      assert NatText(n) == d;
    } else {
      ReadDigitsOfText(n / 10, m, d + rest);
      assert NatText(n) + rest == NatText(n / 10) + (d + rest);
    }
  }

  /** Numbers survive being written into an answer and read back, so INC and DEC count. */
  lemma AtoiOfItoa(n: int)
    ensures Atoi(Itoa(n)) == n
  {
    var a: nat := if n < 0 then -n else n;
    var s := Itoa(n);
    ReadDigitsOfText(a, 0, []);
    assert NatText(a) + [] == NatText(a);
    assert SkipWhile(s, 0, IsMark) == 0 && s[0..] == s;
    assert SkipWhile(s, 0, IsSpace) == 0;
    assert SkipBack(s, |s|, IsSpace) == |s|;
    assert TrimSpace(s) == s;
    if n < 0 {
      assert s[1..] == NatText(a);
    }
  }

  // ---------------------------------------------------------------- quotes

  /** The text from position `i` to the closing quote `end`; a backslash takes the next character as it is. */
  function QuotedFrom(s: string, i: nat, end: char): string
    requires i <= |s|
    decreases |s| - i
  {
    if i == |s| then []
    else if s[i] == '\\' && i + 1 < |s| then [s[i + 1]] + QuotedFrom(s, i + 2, end)
    else if s[i] == end then []
    else [s[i]] + QuotedFrom(s, i + 1, end)
  }

  function Unquote(s: string): string {
    var t := TrimRA(s);
    if |t| >= 2 && IsQuote(t[0]) then QuotedFrom(t, 1, t[0]) else t
  }

  method DoUnquote(s: string) returns (r: string)
    ensures r == Unquote(s)
  {
    var t := DoTrimRA(s);
    if |t| < 2 || !IsQuote(t[0]) {
      return t;
    }
    var end := t[0];
    r := [];
    var i := 1;
    while i < |t|
      invariant 1 <= i <= |t| && QuotedFrom(t, 1, end) == r + QuotedFrom(t, i, end)
    {
      var escaped := t[i] == '\\' && i + 1 < |t|;
      if !escaped && t[i] == end {
        return;
      }
      var c, next := if escaped then t[i + 1] else t[i], if escaped then i + 2 else i + 1;
      assert r + ([c] + QuotedFrom(t, next, end)) == (r + [c]) + QuotedFrom(t, next, end);
      r, i := r + [c], next;
    }
  }

  /** A condition without a trailing " do". */
  function StripDo(s: string): string {
    var t := TrimRA(s);
    if HasSuffix(Lower(t), " do") then TrimRA(t[..|t| - 3]) else t
  }

  // ---------------------------------------------------------------- what scanning finds

  predicate AllOf(s: string, p: char -> bool) { forall k | 0 <= k < |s| :: p(s[k]) }

  lemma {:induction false} SkipWhileIs(s: string, i: nat, j: nat, p: char -> bool)
    requires i <= j <= |s| && (forall k | i <= k < j :: p(s[k])) && (j < |s| ==> !p(s[j]))
    ensures SkipWhile(s, i, p) == j
    decreases j - i
  {
    if i < j { SkipWhileIs(s, i + 1, j, p); }
  }

  lemma {:induction false} SkipWhileStops(s: string, i: nat, p: char -> bool)
    requires i <= |s|
    ensures var j := SkipWhile(s, i, p); (forall k | i <= k < j :: p(s[k])) && (j < |s| ==> !p(s[j]))
    decreases |s| - i
  {
    if i < |s| && p(s[i]) { SkipWhileStops(s, i + 1, p); }
  }

  lemma {:induction false} SkipBackIs(s: string, i: nat, j: nat, p: char -> bool)
    requires j <= i <= |s| && (forall k | j <= k < i :: p(s[k])) && (j > 0 ==> !p(s[j - 1]))
    ensures SkipBack(s, i, p) == j
    decreases i
  {
    if j < i { SkipBackIs(s, i - 1, j, p); }
  }

  lemma {:induction false} SkipBackStops(s: string, i: nat, p: char -> bool)
    requires i <= |s|
    ensures var j := SkipBack(s, i, p); (forall k | j <= k < i :: p(s[k])) && (j > 0 ==> !p(s[j - 1]))
    decreases i
  {
    if i > 0 && p(s[i - 1]) { SkipBackStops(s, i - 1, p); }
  }

  /** Neither begins nor ends with a character that `p` takes. */
  predicate Bare(s: string, p: char -> bool) { s == "" || (!p(s[0]) && !p(s[|s| - 1])) }

  /** Trimming takes off characters of the kind only, and all of them at both ends. */
  lemma TrimTakesOff(s: string, p: char -> bool) returns (a: string, b: string)
    ensures s == a + Trimmed(s, p) + b && AllOf(a, p) && AllOf(b, p) && Bare(Trimmed(s, p), p)
  {
    SkipWhileStops(s, 0, p);
    var i := SkipWhile(s, 0, p);
    var t := s[i..];
    SkipBackStops(t, |t|, p);
    var j := SkipBack(t, |t|, p);
    a, b := s[..i], t[j..];
    Between(s, t, i, j, p);
  }

  lemma Between(s: string, t: string, i: nat, j: nat, p: char -> bool)
    requires i <= |s| && t == s[i..] && j <= |t|
    requires (forall k | 0 <= k < i :: p(s[k])) && (i < |s| ==> !p(s[i]))
    requires (forall k | j <= k < |t| :: p(t[k])) && (j > 0 ==> !p(t[j - 1]))
    ensures s == s[..i] + t[..j] + t[j..] && AllOf(s[..i], p) && AllOf(t[j..], p) && Bare(t[..j], p)
  {
    assert t == t[..j] + t[j..];
    if j > 0 { assert t[0] == s[i]; }
  }

  lemma TrimOf(a: string, t: string, b: string, p: char -> bool)
    requires AllOf(a, p) && AllOf(b, p) && Bare(t, p)
    ensures Trimmed(a + t + b, p) == t
  {
    var s := a + t + b;
    if t == "" {
      SkipWhileIs(s, 0, |s|, p);
      assert s[|s|..] == "";
    } else {
      SkipWhileIs(s, 0, |a|, p);
      var u := s[|a|..];
      assert u == t + b;
      SkipBackIs(u, |u|, |t|, p);
    }
  }

  lemma TrimBare(t: string, p: char -> bool)
    requires Bare(t, p)
    ensures Trimmed(t, p) == t
  {
    TrimOf("", t, "", p);
    assert "" + t + "" == t;
  }

  /** The first word, what stands between it and the rest, and the rest make up the trimmed text. */
  lemma FirstWordRejoins(s: string) returns (word: string, tail: string)
    ensures TrimRA(s) == word + tail && FirstWord(s) == (word, TrimRA(tail))
    ensures AllOf(word, NotGap) && (tail != "" ==> !NotGap(tail[0]))
  {
    var t := TrimRA(s);
    SkipWhileStops(t, 0, NotGap);
    var i := SkipWhile(t, 0, NotGap);
    word, tail := t[..i], t[i..];
  }

  /** The first word comes back from a word and a rest. */
  lemma FirstWordOf(word: string, rest: string)
    requires word != "" && AllOf(word, NotGap) && Bare(word, IsBlank) && Bare(rest, IsBlank)
    ensures FirstWord(word + " " + rest) == (word, rest)
  {
    var s := word + " " + rest;
    if rest == "" {
      TrimOf("", word, " ", IsBlank);
      assert s == "" + word + " ";
      assert TrimRA(s) == word && word[..|word|] == word;
      SkipWhileIs(word, 0, |word|, NotGap);
      assert word[|word|..] == "";
      TrimBare("", IsBlank);
    } else {
      TrimBare(s, IsBlank);
      SkipWhileIs(s, 0, |word|, NotGap);
      assert s[..|word|] == word;
      TrimOf(" ", rest, "", IsBlank);
      assert s[|word|..] == " " + rest + "";
    }
  }

  /** What leads up to the command word, the word and what follows make up the trimmed line. */
  lemma SplitRejoins(line: string) returns (lead: string, word: string, tail: string)
    ensures TrimRA(line) == lead + word + tail && SplitCmd(line) == (Upper(word), TrimRA(tail))
    ensures AllOf(lead, c => !IsLetter(c)) && AllOf(word, IsLetter) && (tail != "" ==> word == "" || !IsLetter(tail[0]))
  {
    var s := TrimRA(line);
    SkipWhileStops(s, 0, c => !IsLetter(c));
    var i := SkipWhile(s, 0, c => !IsLetter(c));
    SkipWhileStops(s, i, IsLetter);
    var j := SkipWhile(s, i, IsLetter);
    lead, word, tail := s[..i], s[i..j], s[j..];
  }

  /** A command line comes apart into the word in upper case and its argument. */
  lemma SplitOf(word: string, rest: string)
    requires word != "" && AllOf(word, IsLetter) && Bare(rest, IsBlank)
    ensures SplitCmd(word + " " + rest) == (Upper(word), rest)
  {
    var s := word + " " + rest;
    var notLetter := (c: char) => !IsLetter(c);
    if rest == "" {
      TrimOf("", word, " ", IsBlank);
      assert s == "" + word + " ";
      SkipWhileIs(word, 0, 0, notLetter);
      SkipWhileIs(word, 0, |word|, IsLetter);
      assert word[|word|..] == "" && word[0..|word|] == word;
      TrimBare("", IsBlank);
    } else {
      TrimBare(s, IsBlank);
      SkipWhileIs(s, 0, 0, notLetter);
      SkipWhileIs(s, 0, |word|, IsLetter);
      assert s[0..|word|] == word;
      TrimOf(" ", rest, "", IsBlank);
      assert s[|word|..] == " " + rest + "";
    }
  }

  lemma SplitWord(word: string)
    requires word != "" && AllOf(word, IsLetter)
    ensures SplitCmd(word) == (Upper(word), "")
  {
    TrimBare(word, IsBlank);
    SkipWhileIs(word, 0, 0, (c: char) => !IsLetter(c));
    SkipWhileIs(word, 0, |word|, IsLetter);
    assert word[|word|..] == "" && word[0..|word|] == word;
    TrimBare("", IsBlank);
  }

  /** The first place where `p` occurs, and none before it. */
  lemma {:induction false} IndexFromIs(s: string, p: string, i: nat)
    requires i <= |s|
    ensures var r := IndexFrom(s, p, i);
            if r < 0 then r == -1 && forall k | i <= k <= |s| :: !HasPrefix(s[k..], p)
            else i <= r <= |s| && HasPrefix(s[r..], p) && forall k | i <= k < r :: !HasPrefix(s[k..], p)
    decreases |s| - i
  {
    if !HasPrefix(s[i..], p) && i < |s| { IndexFromIs(s, p, i + 1); }
  }

  // ---------------------------------------------------------------- quoted text comes back

  /** Backslashes before backslashes and quotes. */
  function Escaped(t: string, quote: char): string {
    if t == "" then "" else (if t[0] == '\\' || t[0] == quote then ['\\', t[0]] else [t[0]]) + Escaped(t[1..], quote)
  }

  lemma {:induction false} QuotedComesBack(front: string, t: string, quote: char)
    requires IsQuote(quote)
    ensures QuotedFrom(front + Escaped(t, quote) + [quote], |front|, quote) == t
    decreases |t|
  {
    var s := front + Escaped(t, quote) + [quote];
    if t != "" {
      var one := if t[0] == '\\' || t[0] == quote then ['\\', t[0]] else [t[0]];
      QuotedComesBack(front + one, t[1..], quote);
      assert s == (front + one) + Escaped(t[1..], quote) + [quote];
    }
  }

  /** Any text comes back from its quoted form. */
  lemma UnquoteOfQuoted(t: string, quote: char)
    requires IsQuote(quote)
    ensures Unquote([quote] + Escaped(t, quote) + [quote]) == t
  {
    TrimBare([quote] + Escaped(t, quote) + [quote], IsBlank);
    QuotedComesBack([quote], t, quote);
  }
}
