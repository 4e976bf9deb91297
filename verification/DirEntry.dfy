/** Directory sectors: 21 slots of 24 bytes, each a name, an inode number and a file type. */
module DirEntries {
  import opened Bytes
  import opened Disks

  const FT_UNKNOWN: u32 := 0
  const FT_REGULAR: u32 := 1
  const FT_DIRECTORY: u32 := 2

  type Name = n: seq<byte> | |n| == 16 witness Copies<byte>(0, 16)

  datatype Entry = Entry(name: Name, no: u32, kind: u32)

  const ZERO_ENTRY := Entry(Copies<byte>(0, 16), 0, FT_UNKNOWN)

  // ----- names -----

  /** A C string of at most 15 characters in a field of 16 bytes cleared before. */
  function Pad(name: seq<byte>): (n: Name)
    requires |name| <= 15
  {
    name + Copies<byte>(0, 16 - |name|)
  }

  /** A component of a path that fits a slot with its terminator. */
  predicate FileName(name: seq<byte>) {
    NoZero(name) && NoSlash(name) && 1 <= |name| <= 15
  }

  lemma FileNameIs(name: seq<byte>)
    ensures FileName(name) <==> NoZero(name) && NoSlash(name) && 1 <= |name| <= 15
  {
  }

  /** Names a directory holds: file names, terminated, zeros behind the terminator. */
  ghost predicate Proper(n: Name) {
    exists len: nat :: len <= 15 && FileName(n[..len]) && n == Pad(n[..len])
  }

  /** `!strcmp(field, name)` for a terminated field. */
  predicate StrEq(field: Name, name: seq<byte>) {
    |name| < 16 && field[..|name|] == name && field[|name|] == 0
  }

  lemma StrEqProper(field: Name, name: seq<byte>)
    requires NoZero(name) && Proper(field)
    ensures StrEq(field, name) <==> |name| <= 15 && field == Pad(name)
  {
    var len: nat :| len <= 15 && FileName(field[..len]) && field == Pad(field[..len]);
    assert |name| < len ==> field[..len][|name|] == field[|name|];
    assert len < |name| < 16 ==> field[..|name|][len] == field[len];
  }

  const DOT: Name := Pad([0x2e])
  const DOT_DOT: Name := Pad([0x2e, 0x2e])

  /** `strcmp(name, ".") && strcmp(name, "..")` */
  predicate IsChild(e: Entry) {
    !StrEq(e.name, [0x2e]) && !StrEq(e.name, [0x2e, 0x2e])
  }

  // ----- slots -----

  function EntryAt(s: Sector, j: nat): Entry
    requires j < 21
  {
    EntryFrom(s, 24 * j)
  }

  function EntryFrom(s: Sector, at: nat): Entry
    requires at + 24 <= 512
  {
    Entry(s[at..at + 16], WordAt(s, at + 16), WordAt(s, at + 20))
  }

  function EntryBytes(e: Entry): (b: seq<byte>)
    ensures |b| == 24
  {
    e.name + WordBytes(e.no) + WordBytes(e.kind)
  }

  /** `memcpy(dir_e + j, &e, 24)` */
  function PutEntry(s: Sector, j: nat, e: Entry): Sector
    requires j < 21
  {
    Splice(s, 24 * j, EntryBytes(e))
  }

  /** Where the fields of slot `j` lie in the sector. */
  lemma EntryLayout(s: Sector, j: nat, e: Entry)
    requires j < 21
    ensures var r := PutEntry(s, j, e);
      && r[24 * j..24 * j + 16] == e.name && WordAt(r, 24 * j + 16) == e.no && WordAt(r, 24 * j + 20) == e.kind
      && r[..24 * j] == s[..24 * j] && r[24 * j + 24..] == s[24 * j + 24..]
  {
    hide WordAt;
    SplicedEntry(s, 24 * j, e);
  }

  lemma PutEntryAt(s: Sector, j: nat, e: Entry, k: nat)
    requires j < 21 && k < 21
    ensures EntryAt(PutEntry(s, j, e), k) == if k == j then e else EntryAt(s, k)
  {
    if k == j {
      SplicedEntry(s, 24 * j, e);
    } else {
      UnsplicedEntry(s, 24 * j, e, 24 * k);
    }
  }

  lemma SplicedEntry(s: Sector, at: nat, e: Entry)
    requires at + 24 <= 512
    ensures EntryFrom(Splice(s, at, EntryBytes(e)), at) == e
  {
    hide WordAt, WordBytes, Splice;
    var b := EntryBytes(e);
    var r: Sector := Splice(s, at, b);
    forall m | 0 <= m < 24
      ensures r[at + m] == b[m]
    {
    }
    assert r[at..at + 16] == b[..16] == e.name;
    WordAtFrame(r, at + 16, WordBytes(e.no), 0);
    WordAtFrame(r, at + 20, WordBytes(e.kind), 0);
  }

  lemma UnsplicedEntry(s: Sector, at: nat, e: Entry, other: nat)
    requires at + 24 <= 512 && other + 24 <= 512 && (other + 24 <= at || at + 24 <= other)
    ensures EntryFrom(Splice(s, at, EntryBytes(e)), other) == EntryFrom(s, other)
  {
    hide WordAt, Splice, EntryBytes;
    var r: Sector := Splice(s, at, EntryBytes(e));
    assert r[other..other + 16] == s[other..other + 16];
    WordAtFrame(r, other + 16, s, other + 16);
    WordAtFrame(r, other + 20, s, other + 20);
  }

  lemma ZeroSector(j: nat)
    requires j < 21
    ensures EntryAt(Copies<byte>(0, 512), j) == ZERO_ENTRY
  {
    assert Copies<byte>(0, 512)[24 * j..24 * j + 16] == Copies<byte>(0, 16);
  }

  /** The live entries of slots `i` to `j` - 1. */
  function Live(s: Sector, i: nat, j: nat): (r: seq<Entry>)
    requires i <= j <= 21
    ensures |r| <= j - i
    decreases j - i
  {
    if i == j then [] else
      Live(s, i, j - 1) + if EntryAt(s, j - 1).kind != FT_UNKNOWN then [EntryAt(s, j - 1)] else []
  }

  lemma {:induction false} LiveSplit(s: Sector, i: nat, m: nat, j: nat)
    requires i <= m <= j <= 21
    ensures Live(s, i, j) == Live(s, i, m) + Live(s, m, j)
    decreases j
  {
    if m < j {
      LiveSplit(s, i, m, j - 1);
    }
  }

  lemma {:induction false} LiveFrame(s: Sector, t: Sector, i: nat, j: nat)
    requires i <= j <= 21
    requires forall k: nat :: i <= k < j ==> EntryAt(s, k) == EntryAt(t, k)
    ensures Live(s, i, j) == Live(t, i, j)
    decreases j
  {
    if i < j {
      LiveFrame(s, t, i, j - 1);
    }
  }

  /** What slot `j` contributes. */
  function LiveSlot(s: Sector, j: nat): seq<Entry>
    requires j < 21
  {
    if EntryAt(s, j).kind != FT_UNKNOWN then [EntryAt(s, j)] else []
  }

  /** Slot `j` in the midst of the others. */
  lemma LiveAround(s: Sector, j: nat)
    requires j < 21
    ensures Live(s, 0, 21) == Live(s, 0, j) + LiveSlot(s, j) + Live(s, j + 1, 21)
  {
    LiveOne(s, j);
    hide *;
    LiveSplit(s, 0, j, 21);
    LiveSplit(s, j, j + 1, 21);
    Associative(Live(s, 0, j), Live(s, j, j + 1), Live(s, j + 1, 21));
  }

  lemma Associative<T>(a: seq<T>, b: seq<T>, c: seq<T>)
    ensures a + (b + c) == a + b + c
  {
  }

  lemma LiveOne(s: Sector, j: nat)
    requires j < 21
    ensures Live(s, j, j + 1) == LiveSlot(s, j)
  {
    assert Live(s, j, j) == [];
  }

  /** Overwriting slot `j` leaves the live entries before and behind it. */
  lemma PutLive(s: Sector, j: nat, e: Entry)
    requires j < 21
    ensures var before, after := Live(s, 0, j), Live(s, j + 1, 21);
      && Live(s, 0, 21) == before + LiveSlot(s, j) + after
      && Live(PutEntry(s, j, e), 0, 21) == before + (if e.kind != FT_UNKNOWN then [e] else []) + after
  {
    hide EntryAt, PutEntry, Live;
    var t := PutEntry(s, j, e);
    forall k: nat | k < 21
      ensures EntryAt(t, k) == if k == j then e else EntryAt(s, k)
    {
      PutEntryAt(s, j, e, k);
    }
    LiveAround(s, j);
    LiveAround(t, j);
    LiveFrame(s, t, 0, j);
    LiveFrame(s, t, j + 1, 21);
  }
}
