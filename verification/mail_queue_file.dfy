/** The outbound mail queue as a file of articles: how articles are written and read back. */
module MailQueueFile {
  import opened Options
  import opened Bytes
  import opened JamBytes

  type text = seq<byte>

  const HEADER_SIZE: nat := 521
  const GROUP_MAX: nat := 100
  const MAX_MSG_BYTES: nat := 5242880

  datatype Article = Article(group: text, number: u32, area: u32, attr: u32, tries: u32, body: text)

  // ---------------------------------------------------------------- headers

  function TrimNul(s: text): text { if s != [] && s[|s| - 1] == 0 then TrimNul(s[..|s| - 1]) else s }

  /** A name as a length byte and up to 100 bytes, filled up with zeros. */
  function GroupField(s: text): (f: text)
    ensures |f| == 1 + GROUP_MAX
  {
    var raw := if |s| > GROUP_MAX then s[..GROUP_MAX] else s;
    [|raw|] + raw + Zeros(GROUP_MAX - |raw|)
  }

  function ReadGroup(h: text): text
    requires |h| > GROUP_MAX
  {
    TrimNul(h[1..if h[0] > GROUP_MAX then 1 + GROUP_MAX else 1 + h[0]])
  }

  /** The part of a name that the field holds. */
  function Named(s: text): text { TrimNul(if |s| > GROUP_MAX then s[..GROUP_MAX] else s) }

  lemma GroupReadsBack(h: text, s: text)
    requires |h| > GROUP_MAX && h[..1 + GROUP_MAX] == GroupField(s)
    ensures ReadGroup(h) == Named(s)
  {
    var raw := if |s| > GROUP_MAX then s[..GROUP_MAX] else s;
    var f := GroupField(s);
    var n := |raw|;
    assert h[..1 + GROUP_MAX][0] == f[0] == n;
    forall i | 0 <= i < n ensures h[1..1 + n][i] == raw[i] { assert h[..1 + GROUP_MAX][1 + i] == f[1 + i]; }
    assert h[1..1 + n] == raw;
  }

  /** 521 bytes: the name, five numbers, and zeros. */
  function Header(a: Article, bodyLen: u32): (h: text)
    ensures |h| == HEADER_SIZE && h[..1 + GROUP_MAX] == GroupField(a.group)
    ensures U32At(h, 101) == a.number && U32At(h, 105) == a.area && U32At(h, 109) == bodyLen
    ensures U32At(h, 113) == a.attr && U32At(h, 117) == a.tries
  {
    var h0 := GroupField(a.group) + Zeros(420);
    var h := PutU32(PutU32(PutU32(PutU32(PutU32(h0, 101, a.number), 105, a.area), 109, bodyLen), 113, a.attr), 117, a.tries);
    assert forall i | 0 <= i <= GROUP_MAX :: h[i] == h0[i];
    h
  }

  // ---------------------------------------------------------------- articles

  /** Bodies are stored with a zero byte at the end. */
  function Terminated(body: text): text { if body == [] || body[|body| - 1] != 0 then body + [0] else body }

  function Encode(a: Article): text { Header(a, Word(|Terminated(a.body)|)) + Terminated(a.body) }

  function EncodeAll(arts: seq<Article>): text {
    if arts == [] then [] else Encode(arts[0]) + EncodeAll(arts[1..])
  }

  function Cut(s: text, n: nat): text { if |s| > n then s[..n] else s }

  /** The length field of the header at `off`. */
  function LenAt(raw: text, off: nat): int { if off + HEADER_SIZE > |raw| then 0 else Signed(U32At(raw, off + 109)) }

  /** The article whose header starts at `off`; its body as far as the file and the size limit allow. */
  function ArticleAt(raw: text, off: nat, bodyLen: nat): Article {
    if off + HEADER_SIZE > |raw| then Article([], 0, 0, 0, 0, []) else
    var h := raw[off..off + HEADER_SIZE];
    Article(ReadGroup(h), U32At(h, 101), U32At(h, 105), U32At(h, 113), U32At(h, 117),
            Cut(Cut(raw[off + HEADER_SIZE..], bodyLen), MAX_MSG_BYTES))
  }

  /** A file as a source of lengths and articles by offset. */
  datatype Reading = Reading(size: nat, len: nat -> int, art: (nat, nat) -> Article)

  function ReadingOf(raw: text): Reading {
    Reading(|raw|, (off: nat) => LenAt(raw, off), (off: nat, n: nat) => ArticleAt(raw, off, n))
  }

  /** Marks the offsets a proof looks at. */
  predicate Peeks(off: nat, n: nat) { true }

  /** `v` reads `raw`; an article is opened only where a proof says `Peeks`. */
  ghost predicate Shows(v: Reading, raw: text) {
    v.size == |raw| && forall off: nat, n: nat {:trigger Peeks(off, n)} :: Peeks(off, n) ==>
      v.len(off) == LenAt(raw, off) && v.art(off, n) == ArticleAt(raw, off, n)
  }

  lemma ReadingShows(raw: text)
    ensures Shows(ReadingOf(raw), raw)
  {
    var v := ReadingOf(raw);
    forall off: nat, n: nat | Peeks(off, n) ensures v.len(off) == LenAt(raw, off) && v.art(off, n) == ArticleAt(raw, off, n) {}
  }

  /** Articles already read, in front of what is still read. */
  function Behind(out: seq<Article>, rest: Option<seq<Article>>): Option<seq<Article>> {
    if rest.None? then None else Some(out + rest.value)
  }

  /** All articles from `off` on; None if a body length is negative. */
  function DecodeFrom(v: Reading, off: nat): Option<seq<Article>>
    decreases v.size - off
  {
    if off + HEADER_SIZE > v.size then Some([]) else
    var n := v.len(off);
    if n < 0 then None else
    var next := if off + HEADER_SIZE + n > v.size then v.size else off + HEADER_SIZE + n;
    Behind([v.art(off, n)], DecodeFrom(v, next))
  }

  function Decode(raw: text): Option<seq<Article>> { DecodeFrom(ReadingOf(raw), 0) }

  lemma BehindMore(out: seq<Article>, a: Article, rest: Option<seq<Article>>)
    ensures Behind(out, Behind([a], rest)) == Behind(out + [a], rest) && Behind([], rest) == rest
  {
    if rest.Some? { assert out + ([a] + rest.value) == (out + [a]) + rest.value && [] + rest.value == rest.value; }
  }

  method ReadNews(raw: text) returns (arts: Option<seq<Article>>)
    ensures arts == Decode(raw)
  {
    ReadingShows(raw);
    arts := ReadFrom(raw, ReadingOf(raw));
  }

  method ReadFrom(raw: text, ghost v: Reading) returns (arts: Option<seq<Article>>)
    requires Shows(v, raw)
    ensures arts == DecodeFrom(v, 0)
  {
    var out: seq<Article> := [];
    var off := 0;
    BehindMore([], Article([], 0, 0, 0, 0, []), DecodeFrom(v, 0));
    while off + HEADER_SIZE <= |raw|
      invariant 0 <= off <= |raw| && DecodeFrom(v, 0) == Behind(out, DecodeFrom(v, off))
      decreases |raw| - off
    {
      var len, a := ReadArticle(raw, off, v);
      if len < 0 {
        return None;
      }
      ghost var next := if off + HEADER_SIZE + len > |raw| then |raw| else off + HEADER_SIZE + len;
      BehindMore(out, a, DecodeFrom(v, next));
      out := out + [a];
      off := off + HEADER_SIZE + len;
      if off > |raw| {
        off := |raw|;
      }
    }
    BehindMore(out, Article([], 0, 0, 0, 0, []), Some([]));
    assert out + [] == out;
    arts := Some(out);
  }

  /** Reads the header at `off` and, if it gives a length, the body. */
  method ReadArticle(raw: text, off: nat, ghost v: Reading) returns (len: int, a: Article)
    requires Shows(v, raw) && off + HEADER_SIZE <= |raw|
    ensures len == v.len(off) && (len >= 0 ==> a == v.art(off, len))
  {
    var h := raw[off..off + HEADER_SIZE];
    a := Article(ReadGroup(h), U32At(h, 101), U32At(h, 105), U32At(h, 113), U32At(h, 117), []);
    WordInside(raw, off, h, 109);
    len := Signed(U32At(h, 109));
    assert Peeks(off, 0);
    if len < 0 {
      return;
    }
    var n := if len > MAX_MSG_BYTES then MAX_MSG_BYTES else len;
    var start := off + HEADER_SIZE;
    if start + n > |raw| {
      n := |raw| - start;
    }
    a := a.(body := raw[start..start + n]);
    BodyOf(raw, start, len, n);
    assert Peeks(off, len);
  }

  lemma WordInside(raw: text, off: nat, h: text, k: nat)
    requires off + |h| <= |raw| && h == raw[off..off + |h|] && k + 4 <= |h|
    ensures U32At(raw, off + k) == U32At(h, k)
  {
    assert h[k] == raw[off + k] && h[k + 1] == raw[off + k + 1] && h[k + 2] == raw[off + k + 2] && h[k + 3] == raw[off + k + 3];
  }

  lemma BodyOf(raw: text, start: nat, len: nat, n: nat)
    requires start <= |raw| && n == (if start + (if len > MAX_MSG_BYTES then MAX_MSG_BYTES else len) > |raw| then |raw| - start
                                     else if len > MAX_MSG_BYTES then MAX_MSG_BYTES else len)
    ensures raw[start..start + n] == Cut(Cut(raw[start..], len), MAX_MSG_BYTES)
  {}

  /** The bytes of one article. */
  method WriteOne(a: Article) returns (code: text)
    ensures code == Encode(a)
  {
    var body := a.body;
    if |body| == 0 || body[|body| - 1] != 0 {
      body := body + [0];
    }
    code := Header(a, Word(|body|)) + body;
  }

  method WriteNews(arts: seq<Article>) returns (file: text)
    ensures file == EncodeAll(arts)
  {
    file := [];
    assert arts[0..] == arts;
    for i := 0 to |arts|
      invariant EncodeAll(arts) == file + EncodeAll(arts[i..])
    {
      assert arts[i..][1..] == arts[i + 1..];
      var code := WriteOne(arts[i]);
      Regroup(file, code, EncodeAll(arts[i + 1..]));
      file := file + code;
    }
  }

  // ---------------------------------------------------------------- reading back what was written

  /** What is read back of an article. */
  function Kept(a: Article): Article { a.(group := Named(a.group), body := Cut(Terminated(a.body), MAX_MSG_BYTES)) }

  function KeptAll(arts: seq<Article>): (r: seq<Article>)
    ensures |r| == |arts| && forall k | 0 <= k < |arts| :: r[k] == Kept(arts[k])
  {
    seq(|arts|, k requires 0 <= k < |arts| => Kept(arts[k]))
  }

  /** Lengths that the length field holds. */
  predicate Sized(a: Article) { |Terminated(a.body)| < 0x8000_0000 }

  predicate AllSized(arts: seq<Article>) { forall i | 0 <= i < |arts| :: Sized(arts[i]) }

  lemma EncodedArticle(raw: text, off: nat, a: Article, more: text)
    requires off <= |raw| && raw[off..] == Encode(a) + more && Sized(a)
    ensures var n := |Terminated(a.body)|;
            off + HEADER_SIZE + n <= |raw| && LenAt(raw, off) == n && raw[off + HEADER_SIZE + n..] == more
            && ArticleAt(raw, off, n) == Kept(a)
  {
    var t := Terminated(a.body);
    var h := Header(a, |t|);
    var rest := raw[off..];
    assert rest == h + t + more;
    assert raw[off..off + HEADER_SIZE] == rest[..HEADER_SIZE] == h;
    WordInside(raw, off, h, 109);
    var at := off + HEADER_SIZE;
    assert raw[at..] == rest[HEADER_SIZE..] == t + more;
    assert Cut(raw[at..], |t|) == t;
    assert raw[at + |t|..] == raw[at..][|t|..] == more;
    GroupReadsBack(h, a.group);
  }

  lemma KeptInFront(arts: seq<Article>)
    requires arts != []
    ensures [Kept(arts[0])] + KeptAll(arts[1..]) == KeptAll(arts)
  {
    var a, b, k := KeptAll(arts), KeptAll(arts[1..]), Kept(arts[0]);
    forall i | 0 <= i < |a| ensures ([k] + b)[i] == a[i] {
      if i > 0 { assert arts[1..][i - 1] == arts[i]; }
    }
  }

  lemma KeptBehind(arts: seq<Article>, a: Article)
    ensures KeptAll(arts + [a]) == KeptAll(arts) + [Kept(a)]
  {}

  lemma DecodeStep(v: Reading, off: nat, next: nat, k: Article, rest: seq<Article>)
    requires off + HEADER_SIZE <= next <= v.size && v.len(off) == next - off - HEADER_SIZE
    requires v.art(off, next - off - HEADER_SIZE) == k && DecodeFrom(v, next) == Some(rest)
    ensures DecodeFrom(v, off) == Some([k] + rest)
  {}

  /** The reading of the first article of a file. */
  lemma FirstReadsBack(v: Reading, raw: text, off: nat, a: Article, more: text) returns (next: nat, k: Article)
    requires Shows(v, raw) && off <= |raw| && raw[off..] == Encode(a) + more && Sized(a)
    ensures off < next <= |raw| && raw[next..] == more && k == Kept(a) && off + HEADER_SIZE <= next
    ensures v.len(off) == next - off - HEADER_SIZE && v.art(off, next - off - HEADER_SIZE) == k
  {
    var n := |Terminated(a.body)|;
    EncodedArticle(raw, off, a, more);
    assert Peeks(off, n);
    next, k := off + HEADER_SIZE + n, Kept(a);
  }

  /** A file of articles reads back, in order, with every field; bodies up to the size limit. */
  lemma {:induction false} ReadsBackFrom(v: Reading, raw: text, off: nat, arts: seq<Article>)
    requires Shows(v, raw) && off <= |raw| && raw[off..] == EncodeAll(arts) && AllSized(arts)
    ensures DecodeFrom(v, off) == Some(KeptAll(arts))
    decreases |arts|
  {
    if arts != [] {
      var next, k := FirstReadsBack(v, raw, off, arts[0], EncodeAll(arts[1..]));
      ReadsBackFrom(v, raw, next, arts[1..]);
      DecodeStep(v, off, next, k, KeptAll(arts[1..]));
      KeptInFront(arts);
    } else {
      assert |raw| == off;
    }
  }

  lemma FileReadsBack(arts: seq<Article>)
    requires AllSized(arts)
    ensures Decode(EncodeAll(arts)) == Some(KeptAll(arts))
  {
    ReadingShows(EncodeAll(arts));
    assert EncodeAll(arts)[0..] == EncodeAll(arts);
    ReadsBackFrom(ReadingOf(EncodeAll(arts)), EncodeAll(arts), 0, arts);
  }

  /** Of a body within the limit everything is read back; of a longer one just that much. */
  lemma WholeBodyExactly(a: Article)
    ensures Kept(a).body == Terminated(a.body) <==> |Terminated(a.body)| <= MAX_MSG_BYTES
  {}

  /** A body of as many bytes as are read that does not end in NUL is one too long: its terminator is lost. */
  lemma LongBodyIsCut(a: Article)
    requires a.body == seq(MAX_MSG_BYTES, _ => 65)
    ensures Terminated(a.body) == a.body + [0] && Kept(a).body == a.body
  {
    assert (a.body + [0])[..MAX_MSG_BYTES] == a.body;
  }

  /** An article that writing and reading leave as it is. */
  predicate Settled(a: Article) { Kept(a) == a && |a.body| <= MAX_MSG_BYTES }

  /** Once written and read, an article does not change any more. */
  lemma KeptIsSettled(a: Article)
    ensures Settled(Kept(a))
  {
    TrimTwice(if |a.group| > GROUP_MAX then a.group[..GROUP_MAX] else a.group);
    CutTwice(a.body);
  }

  lemma CutTwice(body: text)
    ensures var b := Cut(Terminated(body), MAX_MSG_BYTES); Cut(Terminated(b), MAX_MSG_BYTES) == b
  {
    var t := Terminated(body);
    if |t| > MAX_MSG_BYTES { assert (t[..MAX_MSG_BYTES] + [0])[..MAX_MSG_BYTES] == t[..MAX_MSG_BYTES]; }
  }

  lemma {:induction false} TrimTwice(s: text)
    ensures TrimNul(TrimNul(s)) == TrimNul(s) && |TrimNul(s)| <= |s|
  {
    if s != [] && s[|s| - 1] == 0 { TrimTwice(s[..|s| - 1]); }
  }

  predicate AllSettled(arts: seq<Article>) { forall i | 0 <= i < |arts| :: Settled(arts[i]) }

  lemma SettledStay(arts: seq<Article>)
    requires AllSettled(arts)
    ensures KeptAll(arts) == arts && AllSized(arts)
  {
    forall k | 0 <= k < |arts| ensures Kept(arts[k]) == arts[k] && Sized(arts[k]) { assert Settled(arts[k]); }
  }

  lemma Regroup(a: text, b: text, c: text)
    ensures a + (b + c) == (a + b) + c
  {}

  lemma {:induction false} OneMore(arts: seq<Article>, a: Article, code: text)
    requires code == Encode(a)
    ensures EncodeAll(arts + [a]) == EncodeAll(arts) + code
  {
    if arts == [] {
      assert [] + [a] == [a] && [a][1..] == [] && code + [] == code;
    } else {
      OneMore(arts[1..], a, code);
      assert (arts + [a])[1..] == arts[1..] + [a];
      Regroup(Encode(arts[0]), EncodeAll(arts[1..]), code);
    }
  }
}
