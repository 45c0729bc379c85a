/** Little-endian numbers in byte files, and reads and writes at an offset. */
module JamBytes {
  import opened Options
  import opened Bytes

  /** A number cut to 32 bits. */
  function Word(n: nat): u32 { if n < 0x1_0000_0000 then n else n % 0x1_0000_0000 }

  function LE16(v: int): (s: seq<byte>)
    requires 0 <= v < 0x1_0000
    ensures |s| == 2
  {
    [v % 256, v / 256]
  }

  function LE32(v: u32): (s: seq<byte>)
    ensures |s| == 4
  {
    [v % 256, v / 256 % 256, v / 0x1_0000 % 256, v / 0x100_0000]
  }

  function U16At(s: seq<byte>, off: nat): int
    requires off + 2 <= |s|
  {
    s[off] as int + 256 * (s[off + 1] as int)
  }

  function U32At(s: seq<byte>, off: nat): u32
    requires off + 4 <= |s|
  {
    s[off] as int + 256 * (s[off + 1] as int) + 0x1_0000 * (s[off + 2] as int) + 0x100_0000 * (s[off + 3] as int)
  }

  /** A 32-bit word read as a signed number. */
  function Signed(v: u32): int { if v < 0x8000_0000 then v else v - 0x1_0000_0000 }

  /** A number only depends on its own four bytes. */
  lemma SameWord(s: seq<byte>, i: nat, t: seq<byte>, j: nat)
    requires i + 4 <= |s| && j + 4 <= |t| && s[i..i + 4] == t[j..j + 4]
    ensures U32At(s, i) == U32At(t, j)
  {
    var a, b := s[i..i + 4], t[j..j + 4];
    assert a[0] == s[i] && a[1] == s[i + 1] && a[2] == s[i + 2] && a[3] == s[i + 3];
    assert b[0] == t[j] && b[1] == t[j + 1] && b[2] == t[j + 2] && b[3] == t[j + 3];
  }

  lemma WordFromBytes(v: u32)
    ensures U32At(LE32(v), 0) == v
  {
    assert v == v % 256 + 256 * (v / 256);
    assert v / 256 == v / 256 % 256 + 256 * (v / 0x1_0000);
    assert v / 0x1_0000 == v / 0x1_0000 % 256 + 256 * (v / 0x100_0000);
  }

  lemma ReadLE32(a: seq<byte>, v: u32, b: seq<byte>)
    ensures U32At(a + LE32(v) + b, |a|) == v
  {
    WordFromBytes(v);
    SameWord(a + LE32(v) + b, |a|, LE32(v), 0);
  }

  /** `f` with the bytes of `x` written over it at `off`. */
  function Patch(f: seq<byte>, off: nat, x: seq<byte>): (r: seq<byte>)
    requires off + |x| <= |f|
    ensures |r| == |f|
  {
    f[..off] + x + f[off + |x|..]
  }

  function PutU32(f: seq<byte>, off: nat, v: u32): (r: seq<byte>)
    requires off + 4 <= |f|
    ensures |r| == |f| && U32At(r, off) == v
    ensures forall o: nat {:trigger U32At(r, o)} | o + 4 <= |f| && (o + 4 <= off || off + 4 <= o) :: U32At(r, o) == U32At(f, o)
    ensures forall o: nat {:trigger r[o]} | o < |f| && (o < off || off + 4 <= o) :: r[o] == f[o]
  {
    var r := Patch(f, off, LE32(v));
    ReadLE32(f[..off], v, f[off + 4..]);
    r
  }

  /** A positioned read: all `n` bytes or an error. */
  function ReadAt(f: seq<byte>, off: int, n: nat): Option<seq<byte>> {
    if 0 <= off && off + n <= |f| then Some(f[off..off + n]) else None
  }

  // ---------------------------------------------------------------- flag bits

  /** Bit `p` of `attr`, for a power of two `p`. */
  predicate HasBit(attr: u32, p: u32)
    requires p > 0
  {
    attr / p % 2 == 1
  }

  const DELETED: u32 := 0x8000_0000
  const LOCAL: u32 := 0x1
  const PRIVATE: u32 := 0x4
  const RECEIVED: u32 := 0x8
  const KILL_SENT: u32 := 0x20
  const CRASH: u32 := 0x100
  const FILE_ATTACH: u32 := 0x2000
  const TYPE_LOCAL: u32 := 0x80_0000

  function SetBit(attr: u32, p: u32): u32
    requires p in {PRIVATE, RECEIVED, KILL_SENT, CRASH, FILE_ATTACH}
  {
    if HasBit(attr, p) then attr else attr + p
  }

  predicate Deleted(attr: u32) { attr >= 0x8000_0000 }

  predicate Received(attr: u32) { attr % 16 >= 8 }

  lemma FlagBits(attr: u32)
    ensures Deleted(attr) == HasBit(attr, DELETED) && Received(attr) == HasBit(attr, RECEIVED)
  {}

  /** Marking a message received sets that bit, keeps every other, and does nothing the second time. */
  lemma SetReceivedBit(attr: u32)
    ensures var r := SetBit(attr, RECEIVED); Received(r) && Deleted(r) == Deleted(attr) && SetBit(r, RECEIVED) == r
    ensures SetBit(attr, RECEIVED) / 16 == attr / 16 && SetBit(attr, RECEIVED) % 8 == attr % 8
  {
    FlagBits(attr);
  }
}
