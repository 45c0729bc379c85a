/** The numbers of an ANSI control sequence, as the screen and the cursor tracker read them. */
module AnsiNumbers {
  import opened Bytes

  type text = seq<byte>

  const SEMICOLON: byte := 59
  const PLUS: byte := 43
  const MINUS: byte := 45
  const MAX_INT: int := 0x7FFF_FFFF_FFFF_FFFF

  predicate IsDigit(c: byte) { 48 <= c <= 57 }

  predicate AllDigits(s: text) { forall i | 0 <= i < |s| :: IsDigit(s[i]) }

  // ---------------------------------------------------------------- lists of numbers

  /** The pieces between semicolons. */
  function Split(s: text): (ps: seq<text>)
    ensures |ps| > 0
  {
    if s == [] then [[]] else
    var ps := Split(s[1..]);
    if s[0] == SEMICOLON then [[]] + ps else [[s[0]] + ps[0]] + ps[1..]
  }

  function Join(ps: seq<text>): text {
    if ps == [] then [] else if |ps| == 1 then ps[0] else ps[0] + [SEMICOLON] + Join(ps[1..])
  }

  lemma {:induction false} SplitOfPiece(a: text, rest: text)
    requires SEMICOLON !in a
    ensures Split(a + [SEMICOLON] + rest) == [a] + Split(rest)
  {
    var s := a + [SEMICOLON] + rest;
    if a == [] {
      assert s[1..] == rest;
    } else {
      assert s[1..] == a[1..] + [SEMICOLON] + rest;
      SplitOfPiece(a[1..], rest);
      assert a == [a[0]] + a[1..];
    }
  }

  lemma {:induction false} SplitOfOne(a: text)
    requires SEMICOLON !in a
    ensures Split(a) == [a]
  {
    if a != [] {
      SplitOfOne(a[1..]);
      assert a == [a[0]] + a[1..];
    }
  }

  lemma {:induction false} SplitOfJoin(ps: seq<text>)
    requires ps != [] && forall i | 0 <= i < |ps| :: SEMICOLON !in ps[i]
    ensures Split(Join(ps)) == ps
  {
    if |ps| == 1 {
      SplitOfOne(ps[0]);
    } else {
      SplitOfJoin(ps[1..]);
      SplitOfPiece(ps[0], Join(ps[1..]));
    }
  }

  // ---------------------------------------------------------------- one number

  function Value(s: text): nat
    requires AllDigits(s)
  {
    if s == [] then 0 else 10 * Value(s[..|s| - 1]) + (s[|s| - 1] - 48)
  }

  function TrimLeft(s: text): text {
    if s != [] && IsAsciiSpace(s[0]) then TrimLeft(s[1..]) else s
  }

  function TrimRight(s: text): text {
    if s != [] && IsAsciiSpace(s[|s| - 1]) then TrimRight(s[..|s| - 1]) else s
  }

  function Unsigned(s: text): text {
    if s != [] && (s[0] == PLUS || s[0] == MINUS) then s[1..] else s
  }

  predicate Negative(s: text) { s != [] && s[0] == MINUS }

  /** strconv.Atoi with its error dropped: zero for a bad number, the nearest integer for one out of range. */
  function Atoi(s: text): (n: int)
    ensures -MAX_INT - 1 <= n <= MAX_INT
  {
    var d := Unsigned(s);
    if d == [] || !AllDigits(d) then 0
    else if Negative(s) then (if Value(d) > MAX_INT + 1 then -MAX_INT - 1 else 0 - Value(d))
    else if Value(d) > MAX_INT then MAX_INT else Value(d)
  }

  function Leading(s: text): (d: text)
    ensures AllDigits(d)
  {
    if s != [] && IsDigit(s[0]) then [s[0]] + Leading(s[1..]) else []
  }

  /** What fmt.Sscanf passes over: white space, but no line feed. */
  function SkipSpace(s: text): text {
    if s != [] && IsAsciiSpace(s[0]) && s[0] != LF then SkipSpace(s[1..]) else s
  }

  /** fmt.Sscanf with "%d" into a zero: the leading number, or zero where there is none or it is out of range. */
  function ScanInt(s: text): int {
    var t := SkipSpace(s);
    var v := Value(Leading(Unsigned(t)));
    if Negative(t) then (if v > MAX_INT + 1 then 0 else 0 - v) else if v > MAX_INT then 0 else v
  }

  function Decimal(n: nat): (s: text)
    ensures s != [] && AllDigits(s)
  {
    if n < 10 then [48 + n] else Decimal(n / 10) + [48 + n % 10]
  }

  lemma {:induction false} ValueOfDecimal(n: nat)
    ensures Value(Decimal(n)) == n
  {
    if n >= 10 {
      ValueOfDecimal(n / 10);
      assert Decimal(n)[..|Decimal(n)| - 1] == Decimal(n / 10);
    }
  }

  lemma {:induction false} LeadingOfDigits(s: text)
    requires AllDigits(s)
    ensures Leading(s) == s
  {
    if s != [] { LeadingOfDigits(s[1..]); }
  }

  lemma DigitsStand(s: text)
    requires s != [] && AllDigits(s)
    ensures TrimLeft(s) == s && SkipSpace(s) == s && TrimRight(s) == s && Unsigned(s) == s && !Negative(s)
  {
    assert IsDigit(s[0]) && IsDigit(s[|s| - 1]);
  }

  /** A plain decimal in range is read alike by both. */
  lemma DecimalReadsBack(n: nat)
    requires n <= MAX_INT
    ensures Atoi(TrimRight(TrimLeft(Decimal(n)))) == n && ScanInt(Decimal(n)) == n
  {
    var s := Decimal(n);
    ValueOfDecimal(n);
    DigitsStand(s);
    LeadingOfDigits(s);
  }

  // ---------------------------------------------------------------- the numbers of a sequence

  function ReadAll(read: text -> int, ps: seq<text>): (ns: seq<int>)
    ensures |ns| == |ps|
  {
    if ps == [] then [] else ReadAll(read, ps[..|ps| - 1]) + [read(ps[|ps| - 1])]
  }

  lemma {:induction false} ReadAllAt(read: text -> int, ps: seq<text>, i: nat)
    requires i < |ps|
    ensures ReadAll(read, ps)[i] == read(ps[i])
  {
    if i < |ps| - 1 { ReadAllAt(read, ps[..|ps| - 1], i); }
  }

  function AtoiTrimmed(s: text): int { Atoi(TrimRight(TrimLeft(s))) }

  function Numbers(read: text -> int, s: text): seq<int> { if s == [] then [] else ReadAll(read, Split(s)) }

  function Decimals(ns: seq<nat>): (ps: seq<text>)
    ensures |ps| == |ns| && forall i | 0 <= i < |ns| :: ps[i] == Decimal(ns[i])
  {
    seq(|ns|, i requires 0 <= i < |ns| => Decimal(ns[i]))
  }

  lemma JoinNotEmpty(ps: seq<text>)
    requires ps != [] && ps[0] != []
    ensures Join(ps) != []
  {}

  /** A list of decimals joined by semicolons reads back as the list, whichever way it is read. */
  lemma NumbersReadBack(ns: seq<nat>)
    requires forall i | 0 <= i < |ns| :: ns[i] <= MAX_INT
    ensures Numbers(AtoiTrimmed, Join(Decimals(ns))) == ns && Numbers(ScanInt, Join(Decimals(ns))) == ns
  {
    if ns != [] {
      var ps := Decimals(ns);
      JoinNotEmpty(ps);
      SplitOfJoin(ps);
      forall i | 0 <= i < |ns| ensures ReadAll(AtoiTrimmed, ps)[i] == ns[i] && ReadAll(ScanInt, ps)[i] == ns[i] {
        DecimalReadsBack(ns[i]);
        ReadAllAt(AtoiTrimmed, ps, i);
        ReadAllAt(ScanInt, ps, i);
      }
    }
  }

  /** The readers differ on a line feed in front of a digit: one trims it, the other stops at it. */
  lemma LineFeedStops()
    ensures AtoiTrimmed([LF, 53]) == 5 && ScanInt([LF, 53]) == 0
  {
    assert [LF, 53][1..] == [53] && [53][..0] == [];
    assert TrimLeft([LF, 53]) == [53] && TrimRight([53]) == [53];
    assert Value([53]) == 10 * Value([]) + 5;
  }

  /** Parameter `i`, or `default` where it is missing or not positive. */
  function Param(ns: seq<int>, i: nat, default: int): int {
    if i < |ns| && ns[i] > 0 then ns[i] else default
  }
}
