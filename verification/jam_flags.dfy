/** The flags of a draft, in the message that is read back. */
module JamFlags {
  import opened Options
  import opened Bytes
  import opened JamBytes
  import opened JamText
  import opened JamFormat
  import opened JamView
  import opened JamLayout
  import opened JamBase
  import opened JamTheorems

  function Pow2(k: nat): (p: nat)
    ensures p > 0
  {
    if k == 0 then 1 else 2 * Pow2(k - 1)
  }

  /** Bit `k` of a number. */
  predicate Bit(a: nat, k: nat) { if k == 0 then a % 2 == 1 else Bit(a / 2, k - 1) }

  lemma HalfOf(a: nat, p: nat)
    requires p > 0
    ensures a / (2 * p) == (a / 2) / p
  {
    var q, r := (a / 2) / p, (a / 2) % p;
    assert a / 2 == q * p + r;
    assert a == (2 * p) * q + (2 * r + a % 2);
    QuotientIs(a, 2 * p, q, 2 * r + a % 2);
  }

  lemma QuotientIs(a: nat, b: nat, q: nat, r: nat)
    requires b > 0 && r < b && a == b * q + r
    ensures a / b == q
  {
    assert a == b * (a / b) + a % b;
    NoMultiple(b, a / b - q, r - a % b);
  }

  lemma NoMultiple(b: int, d: int, e: int)
    requires b > 0 && b * d == e && -b < e < b
    ensures d == 0
  {}

  lemma {:induction false} BitIsQuotient(a: nat, k: nat)
    ensures Bit(a, k) <==> a / Pow2(k) % 2 == 1
  {
    if k > 0 {
      BitIsQuotient(a / 2, k - 1);
      HalfOf(a, Pow2(k - 1));
    }
  }

  /** Adding a bit that is not there sets it and no other. */
  lemma {:induction false} AddedBit(a: nat, j: nat, k: nat)
    requires !Bit(a, j)
    ensures Bit(a + Pow2(j), k) <==> Bit(a, k) || k == j
  {
    if j == 0 {
      assert (a + 1) / 2 == a / 2 && (a + 1) % 2 == 1;
    } else {
      assert (a + 2 * Pow2(j - 1)) / 2 == a / 2 + Pow2(j - 1) && (a + 2 * Pow2(j - 1)) % 2 == a % 2;
      if k > 0 { AddedBit(a / 2, j - 1, k - 1); }
    }
  }

  lemma FlagPowers()
    ensures PRIVATE == Pow2(2) && RECEIVED == Pow2(3) && KILL_SENT == Pow2(5) && CRASH == Pow2(8) && FILE_ATTACH == Pow2(13)
  {
    assert Pow2(2) == 4 && Pow2(4) == 16 && Pow2(6) == 64 && Pow2(8) == 256 && Pow2(10) == 1024 && Pow2(12) == 4096;
  }

  /** Setting a flag sets its bit and no other. */
  lemma SetBitSets(a: u32, p: u32, j: nat, k: nat)
    requires p in {PRIVATE, RECEIVED, KILL_SENT, CRASH, FILE_ATTACH} && p == Pow2(j)
    ensures Bit(SetBit(a, p), k) <==> Bit(a, k) || k == j
  {
    BitIsQuotient(a, j);
    if !HasBit(a, p) { AddedBit(a, j, k); }
  }

  /** The attribute a draft starts from: its own, or that of a local message. */
  predicate GivenBit(d: Draft, k: nat) { if d.attr == 0 then k == 0 || k == 23 else Bit(d.attr, k) }

  lemma LocalBits(k: nat)
    requires k < 32
    ensures Bit(LOCAL + TYPE_LOCAL, k) <==> k == 0 || k == 23
  {
    assert LOCAL + TYPE_LOCAL == 1 + Pow2(23) by { PowerOf23(); }
    AddedBit(1, 23, k) by { assert !Bit(1, 23) by { OneHasOneBit(23); } }
    OneHasOneBit(k);
  }

  lemma PowerOf23()
    ensures Pow2(23) == 0x80_0000
  {
    FlagPowers();
    assert Pow2(15) == 4 * Pow2(13) && Pow2(17) == 4 * Pow2(15) && Pow2(19) == 4 * Pow2(17) && Pow2(21) == 4 * Pow2(19);
  }

  lemma {:induction false} OneHasOneBit(k: nat)
    ensures Bit(1, k) <==> k == 0
  {
    if k > 0 { NoBits(k - 1); }
  }

  lemma {:induction false} NoBits(k: nat)
    ensures !Bit(0, k)
  {
    if k > 0 { NoBits(k - 1); }
  }

  /** Each flag of a draft sets its own bit, and every other bit is as given. */
  lemma DraftBits(d: Draft, k: nat)
    requires k < 32
    ensures Bit(DraftAttr(d), k) <==>
            GivenBit(d, k) || (d.private && k == 2) || (d.killSent && k == 5) || (d.crash && k == 8) || (d.fAttach && k == 13)
  {
    FlagPowers();
    LocalBits(k);
    var a := if d.attr == 0 then LOCAL + TYPE_LOCAL else d.attr;
    var b := With(a, d.private, PRIVATE);
    var c := With(b, d.fAttach, FILE_ATTACH);
    var e := With(c, d.killSent, KILL_SENT);
    SetBitSets(a, PRIVATE, 2, k);
    SetBitSets(b, FILE_ATTACH, 13, k);
    SetBitSets(c, KILL_SENT, 5, k);
    SetBitSets(e, CRASH, 8, k);
  }

  predicate Private(a: Article) { HasBit(a.attr, PRIVATE) }

  /** Who may read an article: a private one only the system operator and those it is from and to. */
  predicate CanRead(a: Article, name: text, handle: text, sysop: bool) {
    !Private(a) || sysop || YoursHeader(a.fields.to, name, handle) || YoursHeader(a.fields.from, name, handle)
  }

  /** The message appended last, read back: its attribute has, bit for bit, what the draft said. */
  lemma AppendedFlags(v: View, f: Format, hash: text -> u32, jdx: text, jhr: text, jdt: text, base: int, ms: seq<Msg>, d: Draft, now: u32, k: nat)
    requires Built(f, hash, jdx, jhr, jdt, base, ms + [Stored(d, now)]) && Shows(v, jdx, jhr, jdt, base)
    requires Fits(f, base, ms + [Stored(d, now)]) && AllFaithful(ms + [Stored(d, now)]) && k < 32
    ensures v.art(|ms|).Some? <==> !GivenBit(d, 31)
    ensures v.art(|ms|).Some? ==> (Bit(v.art(|ms|).value.attr, k) <==>
            GivenBit(d, k) || (d.private && k == 2) || (d.killSent && k == 5) || (d.crash && k == 8) || (d.fAttach && k == 13))
  {
    var all := ms + [Stored(d, now)];
    BuiltSlot(v, f, hash, jdx, jhr, jdt, base, all, |ms|);
    DraftBits(d, k);
    DraftBits(d, 31);
    DeletedIsBit31(DraftAttr(d));
  }

  /** And it is that message: the draft's names, subject, control lines and date, or the time it was posted where the draft has
      no date, and the draft's body with its lines ended. It has the number behind the last. */
  lemma AppendedReadsBack(v: View, f: Format, hash: text -> u32, jdx: text, jhr: text, jdt: text, base: int, ms: seq<Msg>, d: Draft, now: u32)
    requires Built(f, hash, jdx, jhr, jdt, base, ms + [Stored(d, now)]) && Shows(v, jdx, jhr, jdt, base)
    requires Fits(f, base, ms + [Stored(d, now)]) && AllFaithful(ms + [Stored(d, now)]) && !GivenBit(d, 31)
    ensures v.art(|ms|).Some?
    ensures var a := v.art(|ms|).value;
            && a.num == base + |ms| && a.fields == d.fields && a.kludges == d.kludges && a.body == Norm(Terminated(d.body))
            && (d.date.Some? ==> a.date == d.date.value) && (d.date.None? ==> a.date == now)
  {
    var all := ms + [Stored(d, now)];
    AppendedFlags(v, f, hash, jdx, jhr, jdt, base, ms, d, now, 0);
    BuiltSlot(v, f, hash, jdx, jhr, jdt, base, all, |ms|);
  }

  lemma DeletedIsBit31(a: u32)
    ensures Deleted(a) <==> Bit(a, 31)
  {
    PowerOf23();
    assert Pow2(25) == 4 * Pow2(23) && Pow2(27) == 4 * Pow2(25) && Pow2(29) == 4 * Pow2(27) && Pow2(31) == 4 * Pow2(29);
    BitIsQuotient(a, 31);
  }

  /** A message posted as private is private when it is read, and one that was not is not: the first only the system operator
      and those it is from and to can read, the second everybody. */
  lemma PrivateStaysPrivate(v: View, f: Format, hash: text -> u32, jdx: text, jhr: text, jdt: text, base: int, ms: seq<Msg>, d: Draft, now: u32,
                            name: text, handle: text, sysop: bool)
    requires Built(f, hash, jdx, jhr, jdt, base, ms + [Stored(d, now)]) && Shows(v, jdx, jhr, jdt, base)
    requires Fits(f, base, ms + [Stored(d, now)]) && AllFaithful(ms + [Stored(d, now)]) && !GivenBit(d, 31)
    ensures v.art(|ms|).Some?
    ensures Private(v.art(|ms|).value) <==> d.private || GivenBit(d, 2)
    ensures CanRead(v.art(|ms|).value, name, handle, sysop) <==>
            (!d.private && !GivenBit(d, 2)) || sysop || SameName(d.fields.to, name) || SameName(d.fields.to, handle)
            || SameName(d.fields.from, name) || SameName(d.fields.from, handle)
  {
    var all := ms + [Stored(d, now)];
    AppendedFlags(v, f, hash, jdx, jhr, jdt, base, ms, d, now, 2);
    BuiltSlot(v, f, hash, jdx, jhr, jdt, base, all, |ms|);
    FlagPowers();
    BitIsQuotient(v.art(|ms|).value.attr, 2);
    YoursExactly(d.fields.to, name, handle);
    YoursExactly(d.fields.from, name, handle);
  }

  // ---------------------------------------------------------------- whose message it is

  /** Two names, not blank, that are the same but for outer spaces and case. */
  predicate SameName(a: text, b: text) { Trim(a) != [] && SameText(Trim(a), Trim(b)) }

  /** A message is for a caller exactly if it is addressed to the name or to the handle. */
  lemma YoursExactly(to: text, name: text, handle: text)
    ensures YoursHeader(to, name, handle) <==> SameName(to, name) || SameName(to, handle)
  {
    SameInCapitals(Trim(to), Trim(name));
    SameInCapitals(Trim(to), Trim(handle));
  }
}
