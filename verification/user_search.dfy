/** Looking users up by name or handle, through an index of hashes and by a scan. */
module UserSearch {
  import opened Options
  import opened Bytes
  import opened JamBytes
  import opened JamFormat

  const INDEX_SIZE: nat := 8

  /** A user record; `rest` stands for every other field. */
  datatype User = User(name: text, handle: text, deleted: bool, rest: text)

  // ---------------------------------------------------------------- names

  /** Every run of white space becomes one space. */
  function Squeeze(s: text, afterSpace: bool): text {
    if s == [] then []
    else if IsAsciiSpace(s[0]) then (if afterSpace then [] else [32]) + Squeeze(s[1..], true)
    else [s[0]] + Squeeze(s[1..], false)
  }

  method NoDoubleSpace(s: text) returns (r: text)
    ensures r == Squeeze(s, false)
  {
    r := [];
    var prevSpace := false;
    for i := 0 to |s|
      invariant Squeeze(s, false) == r + Squeeze(s[i..], prevSpace)
    {
      SqueezeStep(s, i, prevSpace, r);
      if IsAsciiSpace(s[i]) {
        if prevSpace {
          continue;
        }
        prevSpace := true;
        r := r + [32];
        continue;
      }
      prevSpace := false;
      r := r + [s[i]];
    }
    assert s[|s|..] == [] && r + [] == r;
  }

  lemma SqueezeStep(s: text, i: nat, afterSpace: bool, r: text)
    requires i < |s|
    ensures r + Squeeze(s[i..], afterSpace) ==
            if !IsAsciiSpace(s[i]) then (r + [s[i]]) + Squeeze(s[i + 1..], false)
            else if afterSpace then r + Squeeze(s[i + 1..], true) else (r + [32]) + Squeeze(s[i + 1..], true)
  {
    var rest := s[i + 1..];
    assert s[i..][1..] == rest && s[i..][0] == s[i];
    assert [] + Squeeze(rest, true) == Squeeze(rest, true);
    var x: byte := if IsAsciiSpace(s[i]) then 32 else s[i];
    assert r + ([x] + Squeeze(rest, IsAsciiSpace(s[i]))) == (r + [x]) + Squeeze(rest, IsAsciiSpace(s[i]));
  }

  /** A name as it is compared: without outer blanks, in capitals, single-spaced. */
  function Fold(s: text): text { Squeeze(Upper(Trim(s)), false) }

  /** A name whose inner white space is single spaces. */
  predicate SingleSpaced(s: text) { Fold(s) == Upper(Trim(s)) }

  predicate NameMatches(stored: text, want: text) { want != [] && Fold(stored) == want }

  predicate Matches(u: User, query: text) { !u.deleted && (NameMatches(u.name, query) || NameMatches(u.handle, query)) }

  // ---------------------------------------------------------------- the scan

  /** The lowest live record from `lo` on that matches. */
  function Scan(users: seq<User>, query: text, lo: nat): (r: Option<nat>)
    requires lo <= |users|
    ensures r.Some? ==> lo <= r.value < |users| && Matches(users[r.value], query)
    ensures forall i | lo <= i < (if r.Some? then r.value else |users|) :: !Matches(users[i], query)
    decreases |users| - lo
  {
    if lo == |users| then None else if Matches(users[lo], query) then Some(lo) else Scan(users, query, lo + 1)
  }

  // ---------------------------------------------------------------- the index

  /** The RemoteAccess hash of a name, in capitals. */
  function Ra(hash: text -> u32, s: text): u32 { hash(Upper(s)) }

  /** Index entry `i` carries this hash, for the name or for the handle. */
  predicate Hit(index: text, crc: u32, i: nat)
    requires (i + 1) * INDEX_SIZE <= |index|
  {
    U32At(index, i * INDEX_SIZE) == crc || U32At(index, i * INDEX_SIZE + 4) == crc
  }

  /** The first index entry from `lo` on that carries the hash and whose record matches. */
  function Indexed(users: seq<User>, index: text, crc: u32, query: text, lo: nat): (r: Option<nat>)
    requires lo <= |index| / INDEX_SIZE
    ensures r.Some? ==> lo <= r.value < |index| / INDEX_SIZE && r.value < |users| && Hit(index, crc, r.value) && Matches(users[r.value], query)
    ensures forall i | lo <= i < (if r.Some? then r.value else |index| / INDEX_SIZE) :: !(Hit(index, crc, i) && i < |users| && Matches(users[i], query))
    decreases |index| / INDEX_SIZE - lo
  {
    if lo == |index| / INDEX_SIZE then None
    else if Hit(index, crc, lo) && lo < |users| && Matches(users[lo], query) then Some(lo)
    else Indexed(users, index, crc, query, lo + 1)
  }

  /** What a search answers: the record the index leads to, else the lowest record that matches. */
  function Found(hash: text -> u32, users: seq<User>, index: text, name: text): Option<nat> {
    var query := Fold(name);
    if query == [] then None else
    var r := Indexed(users, index, Ra(hash, query), query, 0);
    if r.Some? then r else Scan(users, query, 0)
  }

  /** One entry of a fresh index. */
  function Entry(hash: text -> u32, u: User): (e: text)
    ensures |e| == INDEX_SIZE
  {
    LE32(Ra(hash, Trim(u.name))) + LE32(Ra(hash, Trim(u.handle)))
  }

  function FreshIndex(hash: text -> u32, users: seq<User>): (x: text)
    ensures |x| == INDEX_SIZE * |users|
  {
    if users == [] then [] else FreshIndex(hash, users[..|users| - 1]) + Entry(hash, users[|users| - 1])
  }

  /** The user on disk and the new one have a name or a handle in common. */
  predicate SamePerson(a: User, b: User) {
    var qn, qh := Fold(b.name), Fold(b.handle);
    NameMatches(a.name, qn) || NameMatches(a.handle, qn) || NameMatches(a.name, qh) || NameMatches(a.handle, qh)
  }

  class UserBase {
    const hash: text -> u32
    var users: seq<User>
    var index: text

    constructor (hash: text -> u32)
      ensures this.hash == hash && users == [] && index == []
    {
      this.hash, users, index := hash, [], [];
    }

    method Read(rec: nat) returns (u: Option<User>)
      ensures u == if rec < |users| then Some(users[rec]) else None
    {
      u := if rec < |users| then Some(users[rec]) else None;
    }

    /** Looks a user up by name or handle. */
    method Search(name: text) returns (found: Option<nat>)
      ensures found == Found(hash, users, index, name)
    {
      var query := NoDoubleSpace(Upper(Trim(name)));
      if query == [] {
        return None;
      }
      found := SearchIndex(query, Ra(hash, query));
      if found.None? {
        found := SearchRecords(query);
      }
    }

    method SearchIndex(query: text, crc: u32) returns (found: Option<nat>)
      ensures found == Indexed(users, index, crc, query, 0)
    {
      var n := |index| / INDEX_SIZE;
      for i := 0 to n
        invariant Indexed(users, index, crc, query, 0) == Indexed(users, index, crc, query, i)
      {
        if U32At(index, i * INDEX_SIZE) != crc && U32At(index, i * INDEX_SIZE + 4) != crc {
          continue;
        }
        var u := Read(i);
        if u.Some? && !u.value.deleted && (NameMatches(u.value.name, query) || NameMatches(u.value.handle, query)) {
          return Some(i);
        }
      }
      found := None;
    }

    method SearchRecords(query: text) returns (found: Option<nat>)
      ensures found == Scan(users, query, 0)
    {
      for i := 0 to |users|
        invariant Scan(users, query, 0) == Scan(users, query, i)
      {
        var u := users[i];
        if u.deleted {
          continue;
        }
        if NameMatches(u.name, query) || NameMatches(u.handle, query) {
          return Some(i);
        }
      }
      found := None;
    }

    method RebuildIndex()
      modifies this`index
      ensures index == FreshIndex(hash, users)
    {
      var buf: text := [];
      for i := 0 to |users|
        invariant buf == FreshIndex(hash, users[..i])
      {
        assert users[..i + 1][..i] == users[..i];
        buf := buf + LE32(Ra(hash, Trim(users[i].name))) + LE32(Ra(hash, Trim(users[i].handle)));
        assert buf == FreshIndex(hash, users[..i]) + Entry(hash, users[i]);
      }
      assert users[..|users|] == users;
      index := buf;
    }

    /** Adds a record at the end; every old record stays, and the index is fresh. */
    method Append(u: User) returns (rec: nat)
      modifies this`users, this`index
      ensures users == old(users) + [u] && rec == |old(users)| && index == FreshIndex(hash, users)
    {
      rec := |users|;
      users := users + [u];
      RebuildIndex();
    }

    /** Overwrites a record in place: unless forced, only a nameless one or one of the same person. */
    method WriteUser(rec: int, u: User, force: bool) returns (written: bool)
      modifies this`users
      ensures written <==> 0 <= rec < |old(users)| && (force || old(users)[rec].name == [] || SamePerson(old(users)[rec], u))
      ensures users == if written then old(users)[rec := u] else old(users)
    {
      if rec < 0 || rec >= |users| {
        return false;
      }
      var existing := users[rec];
      if !force && existing.name != [] && !SamePerson(existing, u) {
        return false;
      }
      users := users[rec := u];
      written := true;
    }
  }

  // ---------------------------------------------------------------- what a search finds

  /** Whatever the index holds, fresh, stale, cut off or made up: a search finds someone exactly if a scan of all
      records does, and whoever it finds is live and has that name or handle. */
  lemma SearchAgreesWithScan(hash: text -> u32, users: seq<User>, index: text, name: text)
    ensures Found(hash, users, index, name).Some? <==> exists i :: 0 <= i < |users| && Matches(users[i], Fold(name))
    ensures var r := Found(hash, users, index, name); r.Some? ==> r.value < |users| && Matches(users[r.value], Fold(name))
  {
    var query := Fold(name);
    if query != [] && Scan(users, query, 0).Some? { assert Matches(users[Scan(users, query, 0).value], query); }
  }

  lemma {:induction false} FreshEntry(hash: text -> u32, users: seq<User>, i: nat)
    requires i < |users|
    ensures FreshIndex(hash, users)[i * INDEX_SIZE..(i + 1) * INDEX_SIZE] == Entry(hash, users[i])
  {
    var last := |users| - 1;
    if i < last { FreshEntry(hash, users[..last], i); }
  }

  lemma UpperTwice(s: text)
    ensures Upper(Upper(s)) == Upper(s)
  {}

  /** The fresh index carries the hash of every single-spaced name and handle. */
  lemma FreshHits(hash: text -> u32, users: seq<User>, query: text, i: nat)
    requires i < |users| && Matches(users[i], query)
    requires SingleSpaced(users[i].name) && SingleSpaced(users[i].handle)
    ensures Hit(FreshIndex(hash, users), Ra(hash, query), i)
  {
    var u := users[i];
    FreshEntry(hash, users, i);
    UpperTwice(Trim(u.name));
    UpperTwice(Trim(u.handle));
    EntryWords(FreshIndex(hash, users), i, Ra(hash, Trim(u.name)), Ra(hash, Trim(u.handle)));
  }

  lemma EntryWords(index: text, i: nat, a: u32, b: u32)
    requires (i + 1) * INDEX_SIZE <= |index| && index[i * INDEX_SIZE..(i + 1) * INDEX_SIZE] == LE32(a) + LE32(b)
    ensures U32At(index, i * INDEX_SIZE) == a && U32At(index, i * INDEX_SIZE + 4) == b
  {
    var at := i * INDEX_SIZE;
    var e := index[at..at + INDEX_SIZE];
    ReadLE32([], a, LE32(b));
    assert [] + LE32(a) + LE32(b) == e;
    ReadLE32(LE32(a), b, []);
    assert LE32(a) + LE32(b) + [] == e;
    assert e[0..4] == index[at..at + 4] && e[4..8] == index[at + 4..at + 8];
    SameWord(index, at, e, 0);
    SameWord(index, at + 4, e, 4);
  }

  /** For any index: the search answers with the lowest match exactly if that has a hit in the index or no match has. */
  lemma LowestExactly(hash: text -> u32, users: seq<User>, index: text, name: text)
    requires Fold(name) != []
    ensures var query := Fold(name); var crc := Ra(hash, query); var s := Scan(users, query, 0);
            Found(hash, users, index, name) == s <==>
            s.None? || (s.value < |index| / INDEX_SIZE && Hit(index, crc, s.value)) || Indexed(users, index, crc, query, 0).None?
  {
    IndexFirst(users, index, Ra(hash, Fold(name)), Fold(name));
  }

  lemma IndexFirst(users: seq<User>, index: text, crc: u32, query: text)
    ensures var r, s := Indexed(users, index, crc, query, 0), Scan(users, query, 0);
            (if r.Some? then r else s) == s <==> s.None? || (s.value < |index| / INDEX_SIZE && Hit(index, crc, s.value)) || r.None?
  {}

  /** Two users of one name and an index that has the second only: the search answers with the second. */
  lemma StaleIndexMisleads(hash: text -> u32, u: User, other: u32)
    requires u.name == [65] && !u.deleted && other != Ra(hash, [65])
    ensures var index := LE32(other) + LE32(other) + (LE32(Ra(hash, [65])) + LE32(other));
            Fold([65]) == [65] && Found(hash, [u, u], index, [65]) == Some(1) && Scan([u, u], [65], 0) == Some(0)
  {
    var crc := Ra(hash, [65]);
    var index := LE32(other) + LE32(other) + (LE32(crc) + LE32(other));
    OneLetter();
    assert index[0 * INDEX_SIZE..1 * INDEX_SIZE] == LE32(other) + LE32(other);
    assert index[1 * INDEX_SIZE..2 * INDEX_SIZE] == LE32(crc) + LE32(other);
    EntryWords(index, 0, other, other);
    EntryWords(index, 1, crc, other);
    assert Matches(u, [65]) && !Hit(index, crc, 0) && Hit(index, crc, 1);
  }

  lemma OneLetter()
    ensures Fold([65]) == [65]
  {
    assert Trim([65]) == [65] && Upper([65]) == [65];
    assert Squeeze([65], false) == [65] by { assert [65][1..] == []; }
  }

  lemma FirstHits(hash: text -> u32, users: seq<User>, query: text)
    requires forall i | 0 <= i < |users| && !users[i].deleted :: SingleSpaced(users[i].name) && SingleSpaced(users[i].handle)
    ensures var s := Scan(users, query, 0); s.Some? ==> Hit(FreshIndex(hash, users), Ra(hash, query), s.value)
  {
    var s := Scan(users, query, 0);
    if s.Some? { FreshHits(hash, users, query, s.value); }
  }

  /** Right after a rebuild, with single-spaced names and handles, a search finds the same, lowest, record as the scan. */
  lemma FreshSearchIsScan(hash: text -> u32, users: seq<User>, name: text)
    requires forall i | 0 <= i < |users| && !users[i].deleted :: SingleSpaced(users[i].name) && SingleSpaced(users[i].handle)
    ensures Found(hash, users, FreshIndex(hash, users), name) == if Fold(name) == [] then None else Scan(users, Fold(name), 0)
  {
    if Fold(name) != [] {
      FirstHits(hash, users, Fold(name));
      LowestExactly(hash, users, FreshIndex(hash, users), name);
    }
  }

  /** Being the same person works both ways. */
  lemma SamePersonIsMutual(a: User, b: User)
    ensures SamePerson(a, b) <==> SamePerson(b, a)
  {}
}
