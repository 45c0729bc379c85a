/** Mail that the scan misses: the index has the checksum of a recipient as it was given, the scan that of a name. */
module JamHidden {
  import opened Options
  import opened Bytes
  import opened JamBytes
  import opened JamText
  import opened JamFormat
  import opened JamView
  import opened JamLayout
  import opened JamBase
  import opened JamTheorems
  import opened JamMail
  import CrcTables
  import CrcRegister
  import Crc32

  function Octets(s: text): seq<bv8> { seq(|s|, i requires 0 <= i < |s| => s[i] as bv8) }

  function Register(s: text): bv32 { CrcRegister.Fold(Crc32.Update32, 0xFFFF_FFFF, Octets(s)) }

  /** The checksum of a name that is in lower case already, as the index holds it. */
  function NameHash(s: text): u32 { Register(s) as u32 }

  const A: text := [97]
  const SPACE_A: text := [32, 97]

  lemma FoldOfOne(b: bv8)
    ensures CrcRegister.Fold(Crc32.Update32, 0xFFFF_FFFF, [b]) == Crc32.Update32(0xFFFF_FFFF, b)
  {
    assert [b][..0] == [];
  }

  lemma FoldOfTwo(a: bv8, b: bv8)
    ensures CrcRegister.Fold(Crc32.Update32, 0xFFFF_FFFF, [a, b]) == Crc32.Update32(Crc32.Update32(0xFFFF_FFFF, a), b)
  {
    FoldOfOne(a);
    assert [a, b][..1] == [a];
  }

  lemma OneUpdate()
    ensures Crc32.Update32(0xFFFF_FFFF, 97) == 0x1748_41BC
  {}

  lemma TwoUpdates()
    ensures Crc32.Update32(Crc32.Update32(0xFFFF_FFFF, 32), 97) == 0x1117_986C
  {
    assert Crc32.Update32(0xFFFF_FFFF, 32) == Crc32.Entry32(0xDF) ^ 0x00FF_FFFF;
  }

  /** The space in front of a name changes its checksum. */
  lemma SpaceChangesHash()
    ensures NameHash(A) == 390611388 && NameHash(SPACE_A) == 286759020
  {
    assert Octets(A) == [97] && Octets(SPACE_A) == [32, 97];
    FoldOfOne(97);
    FoldOfTwo(32, 97);
    OneUpdate();
    TwoUpdates();
  }

  /** Mail to " a". */
  function Mail(date: u32): Msg { Msg(NO_FIELDS.(to := SPACE_A), [], [], date, 0) }

  lemma MailIsFaithful(date: u32, num: nat, ofs: nat)
    ensures |Entry(Mail(date), num, ofs)| == 102 && Raw(Mail(date)) == [] && Faithful(Mail(date))
  {
    var x: seq<Item> := [(2, []), (3, SPACE_A), (6, [])];
    assert Items(Mail(date).fields) == x;
    var two: seq<Item> := [(3, SPACE_A), (6, [])];
    var one: seq<Item> := [(6, [])];
    assert x[1..] == two && two[1..] == one && one[1..] == [];
    assert |Cat(one)| == 8 && |Cat(two)| == 18 && |Cat(x)| == 26;
    EmptyText();
  }

  lemma OneFits(f: Format, m: Msg, n: nat)
    requires |f.head(m, 1, 0)| == n && f.raw(m) == [] && n < 1000
    ensures Fits(f, 1, [m])
  {
    assert [m][..0] == [];
  }

  /** The base that appending this message to an empty one builds: the message is mail of "a" by its header, is neither
      deleted nor received, and the scan for "a" finds nothing. */
  lemma SpacesHideMail(date: u32)
    ensures var f, ms := Jam(NameHash), [Mail(date)];
            var jdx, jhr, jdt := Jdx(f, 1, ms), Jhr(f, 1, ms), Jdt(f, ms);
            var v := ViewOf(NameHash, jdx, jhr, jdt, 1, A, []);
            Built(f, NameHash, jdx, jhr, jdt, 1, ms) && Fits(f, 1, ms) && AllFaithful(ms) && v.n == 1
            && NewMail(Mail(date), A, []) && YoursBelow(v, v.n) == []
  {
    var f, m := Jam(NameHash), Mail(date);
    var ms := [m];
    var jdx, jhr, jdt := Jdx(f, 1, ms), Jhr(f, 1, ms), Jdt(f, ms);
    JamIsJam(NameHash);
    MailIsFaithful(date, 1, 0);
    FormatOf(f, NameHash, m, 1, 0);
    OneFits(f, m, 102);
    SlotOf(f, NameHash, 1, ms, 0);
    ViewShows(NameHash, jdx, jhr, jdt, 1, A, []);
    ScanFindsMail(ViewOf(NameHash, jdx, jhr, jdt, 1, A, []), f, NameHash, jdx, jhr, jdt, 1, ms, A, []);
    HiddenByHash(NameHash, date);
    SpaceChangesHash();
    assert MailBelow(1, ms, MineByIndex(NameHash, A, []), 1) == MailBelow(1, ms, MineByIndex(NameHash, A, []), 0);
  }

  lemma TrimmedNames()
    ensures Trim(SPACE_A) == A && Trim(A) == A && Trim([]) == []
  {
    assert TrimLeft(SPACE_A) == A by { assert SPACE_A[1..] == A; }
  }

  /** Whatever the hash, the scan can find this message only if it agrees on the two names. */
  lemma HiddenByHash(hash: text -> u32, date: u32)
    ensures NewMail(Mail(date), A, []) && (ShownByIndex(hash, Mail(date), A, []) <==> hash(SPACE_A) == hash(A))
  {
    TrimmedNames();
    assert Lower(SPACE_A) == SPACE_A && Lower(A) == A;
  }
}
