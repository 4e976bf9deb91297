/** fs/dir.c: a directory is the list of its live slots, in slot order over its direct blocks. */
module Dirs {
  import opened Bytes
  import opened Wrappers
  import opened Bitmaps
  import opened Disks
  import opened InodeTables
  import opened Partitions
  import opened Files
  import opened DirEntries

  // ----- the listing -----

  function BlockEntries(disk: seq<Sector>, x: u32): (r: seq<Entry>) {
    if 0 < x < |disk| then Live(disk[x], 0, 21) else []
  }

  /** The live entries of blocks `b` to `c` - 1. */
  function Listing(disk: seq<Sector>, sectors: seq<u32>, b: nat, c: nat): (r: seq<Entry>)
    requires b <= c <= |sectors|
    decreases c - b
  {
    if b == c then [] else Listing(disk, sectors, b, c - 1) + BlockEntries(disk, sectors[c - 1])
  }

  /** Every entry of a directory, in the order `dir_read` returns them. */
  function Entries(disk: seq<Sector>, i: DiskInode): seq<Entry> {
    if |i.sectors| == 13 then Listing(disk, i.sectors, 0, 12) else []
  }

  lemma {:induction false} ListingSplit(disk: seq<Sector>, sectors: seq<u32>, b: nat, m: nat, c: nat)
    requires b <= m <= c <= |sectors|
    ensures Listing(disk, sectors, b, c) == Listing(disk, sectors, b, m) + Listing(disk, sectors, m, c)
    decreases c
  {
    if m < c {
      ListingSplit(disk, sectors, b, m, c - 1);
      Associative(Listing(disk, sectors, b, m), Listing(disk, sectors, m, c - 1), BlockEntries(disk, sectors[c - 1]));
    }
  }

  lemma {:induction false} ListingFrame(d: seq<Sector>, s: seq<u32>, d1: seq<Sector>, s1: seq<u32>, b: nat, c: nat)
    requires b <= c <= |s| && |s1| == |s|
    requires forall k :: b <= k < c ==> BlockEntries(d1, s1[k]) == BlockEntries(d, s[k])
    ensures Listing(d1, s1, b, c) == Listing(d, s, b, c)
    decreases c
  {
    hide BlockEntries;
    if b < c {
      ListingFrame(d, s, d1, s1, b, c - 1);
    }
  }

  lemma ListingAround(disk: seq<Sector>, sectors: seq<u32>, b: nat)
    requires b < 12 <= |sectors|
    ensures Listing(disk, sectors, 0, 12)
      == Listing(disk, sectors, 0, b) + BlockEntries(disk, sectors[b]) + Listing(disk, sectors, b + 1, 12)
  {
    ListingSplit(disk, sectors, 0, b, 12);
    ListingSplit(disk, sectors, b, b + 1, 12);
    assert Listing(disk, sectors, b, b) == [];
    assert Listing(disk, sectors, b, b + 1) == BlockEntries(disk, sectors[b]);
    Associative(Listing(disk, sectors, 0, b), Listing(disk, sectors, b, b + 1), Listing(disk, sectors, b + 1, 12));
  }

  /** One block changes: the listing changes in its place. */
  lemma ListingChange(d: seq<Sector>, s: seq<u32>, d1: seq<Sector>, s1: seq<u32>, b: nat)
    requires b < 12 <= |s| && |s1| == |s|
    requires forall k :: 0 <= k < 12 && k != b ==> BlockEntries(d1, s1[k]) == BlockEntries(d, s[k])
    ensures var before, after := Listing(d, s, 0, b), Listing(d, s, b + 1, 12);
      && Listing(d, s, 0, 12) == before + BlockEntries(d, s[b]) + after
      && Listing(d1, s1, 0, 12) == before + BlockEntries(d1, s1[b]) + after
  {
    ListingAround(d, s, b);
    ListingAround(d1, s1, b);
    ListingFrame(d, s, d1, s1, 0, b);
    ListingFrame(d, s, d1, s1, b + 1, 12);
  }

  // ----- well-formed directories -----

  /** The blocks are distinct data blocks whose bits are set; the very first data block can only come first. */
  ghost predicate DirBlocks(disk: seq<Sector>, sb: SuperBlock, bits: seq<byte>, sectors: seq<u32>) {
    && |sectors| == 13 && sectors[12] == 0 && sectors[0] != 0
    && TakenBlock(disk, sb, bits, sb.dataStartLba) && (forall b :: 1 <= b < 12 ==> sectors[b] != sb.dataStartLba)
    && (forall b :: 0 <= b < 12 && sectors[b] != 0 ==> TakenBlock(disk, sb, bits, sectors[b]))
    && (forall b, c :: 0 <= b < c < 12 && sectors[b] != 0 ==> sectors[b] != sectors[c])
  }

  /** Slots without an entry are all zero, whatever block they are in. */
  ghost predicate DeadSlotsZero(s: Sector) {
    forall j: nat :: j < 21 && EntryAt(s, j).kind == FT_UNKNOWN ==> EntryAt(s, j) == ZERO_ENTRY
  }

  /** Two entries of one directory: their names differ and, if both are children, so do their inode numbers. */
  ghost predicate Compatible(e: Entry, f: Entry) {
    e.name != f.name && (IsChild(e) && IsChild(f) ==> e.no != f.no)
  }

  ghost predicate Named(e: Entry) {
    Proper(e.name) && e.kind != FT_UNKNOWN
  }

  ghost predicate GoodEntries(l: seq<Entry>) {
    && (forall k :: 0 <= k < |l| ==> Named(l[k]))
    && (forall k, m :: 0 <= k < m < |l| ==> Compatible(l[k], l[m]))
  }

  /** Every block behind the first holds an entry, and the first starts with the directory itself and its parent. */
  ghost predicate DirShape(disk: seq<Sector>, i: DiskInode, parent: u32)
    requires |i.sectors| == 13
  {
    && 0 < i.sectors[0] < |disk|
    && EntryAt(disk[i.sectors[0]], 0) == Entry(DOT, i.no, FT_DIRECTORY)
    && EntryAt(disk[i.sectors[0]], 1) == Entry(DOT_DOT, parent, FT_DIRECTORY)
    && (forall b :: 0 <= b < 12 && 0 < i.sectors[b] < |disk| ==> DeadSlotsZero(disk[i.sectors[b]]))
    && (forall b :: 1 <= b < 12 && 0 < i.sectors[b] < |disk| ==> Live(disk[i.sectors[b]], 0, 21) != [])
  }

  /** A directory within its direct blocks whose size is 24 bytes for every live slot. */
  ghost predicate Directory(disk: seq<Sector>, sb: SuperBlock, bits: seq<byte>, i: DiskInode, parent: u32) {
    && |i.sectors| == 13
    && DirBlocks(disk, sb, bits, i.sectors)
    && DirShape(disk, i, parent)
    && GoodEntries(Entries(disk, i))
    && i.size == 24 * |Entries(disk, i)|
  }

  /** The blocks a directory owns. */
  ghost function DirOwned(sectors: seq<u32>): set<int> {
    set b | 0 <= b < 12 && b < |sectors| && sectors[b] != 0 :: sectors[b] as int
  }

  class Dir {
    var inode: Inode
    var pos: nat

    constructor (inode: Inode)
      ensures this.inode == inode && pos == 0
    {
      this.inode, pos := inode, 0;
    }
  }

  // ----- search_dir_entry -----

  ghost predicate NoMatch(l: seq<Entry>, name: seq<byte>) {
    forall k :: 0 <= k < |l| ==> !StrEq(l[k].name, name)
  }

  lemma NoMatchConcat(a: seq<Entry>, b: seq<Entry>, name: seq<byte>)
    ensures NoMatch(a + b, name) <==> NoMatch(a, name) && NoMatch(b, name)
  {
    assert NoMatch(a + b, name) ==> NoMatch(a, name) by {
      assert forall k :: 0 <= k < |a| ==> (a + b)[k] == a[k];
    }
    assert NoMatch(a + b, name) ==> NoMatch(b, name) by {
      assert forall k :: 0 <= k < |b| ==> (a + b)[|a| + k] == b[k];
    }
  }

  /** An empty name aside, a dead slot never matches. */
  lemma DeadSlotNoMatch(s: Sector, j: nat, name: seq<byte>)
    requires j < 21 && DeadSlotsZero(s) && NoZero(name) && name != []
    ensures StrEq(EntryAt(s, j).name, name) ==> EntryAt(s, j).kind != FT_UNKNOWN
  {
    hide EntryAt;
    assert ZERO_ENTRY.name[0] != name[0];
  }

  /** One more slot without a match. */
  lemma NoMatchSlot(s: Sector, j: nat, name: seq<byte>)
    requires j < 21 && DeadSlotsZero(s) && NoZero(name) && name != []
    ensures NoMatch(Live(s, 0, j + 1), name) <==> NoMatch(Live(s, 0, j), name) && !StrEq(EntryAt(s, j).name, name)
    ensures StrEq(EntryAt(s, j).name, name) ==> EntryAt(s, j) in Live(s, 0, 21)
  {
    hide EntryAt, DeadSlotsZero, StrEq;
    DeadSlotNoMatch(s, j, name);
    LiveSplit(s, 0, j + 1, 21);
    NoMatchConcat(Live(s, 0, j), LiveSlot(s, j), name);
    assert [EntryAt(s, j)][0] == EntryAt(s, j);
  }

  /** The scan of one sector. */
  method SearchSector(s: Sector, name: seq<byte>) returns (r: Option<Entry>)
    requires NoZero(name) && name != [] && DeadSlotsZero(s)
    ensures r.Some? ==> r.value in Live(s, 0, 21) && StrEq(r.value.name, name)
    ensures r.None? ==> NoMatch(Live(s, 0, 21), name)
  {
    hide DeadSlotsZero, NoMatch, StrEq, EntryAt;
    var dirEntryIdx := 0;
    assert NoMatch(Live(s, 0, 0), name) by {
      NoMatchNothing(name);
    }
    while dirEntryIdx < 21
      invariant 0 <= dirEntryIdx <= 21
      invariant NoMatch(Live(s, 0, dirEntryIdx), name)
    {
      var e := EntryAt(s, dirEntryIdx);
      NoMatchSlot(s, dirEntryIdx, name);
      if StrEq(e.name, name) {
        return Some(e);
      }
      dirEntryIdx := dirEntryIdx + 1;
    }
    return None;
  }

  lemma NoMatchNothing(name: seq<byte>)
    ensures NoMatch([], name)
  {
  }

  lemma NextBlock(disk: seq<Sector>, sectors: seq<u32>, b: nat)
    requires b < 12 <= |sectors|
    ensures Listing(disk, sectors, 0, b + 1) == Listing(disk, sectors, 0, b) + BlockEntries(disk, sectors[b])
    ensures Listing(disk, sectors, 0, 0) == []
    ensures forall e :: e in BlockEntries(disk, sectors[b]) ==> e in Listing(disk, sectors, 0, 12)
  {
    ListingAround(disk, sectors, b);
  }

  /** What the loops over the blocks of a directory rely on. */
  lemma DirFacts(disk: seq<Sector>, sb: SuperBlock, bits: seq<byte>, i: DiskInode, parent: u32)
    requires |i.sectors| == 13 && DirBlocks(disk, sb, bits, i.sectors) && DirShape(disk, i, parent)
    ensures i.sectors[12] == 0 && i.sectors[0] != 0 && Entries(disk, i) == Listing(disk, i.sectors, 0, 12)
    ensures forall b :: 0 <= b < 12 && i.sectors[b] != 0 ==> BlockFacts(disk, sb, i.sectors[b])
  {
    hide DeadSlotsZero, EntryAt, Live, FreeBlocks;
    forall b | 0 <= b < 12 && i.sectors[b] != 0
      ensures BlockFacts(disk, sb, i.sectors[b])
    {
      assert TakenBlock(disk, sb, bits, i.sectors[b]);
    }
  }

  ghost predicate BlockFacts(disk: seq<Sector>, sb: SuperBlock, x: u32) {
    0 < sb.dataStartLba <= x < |disk| && DeadSlotsZero(disk[x]) && BlockEntries(disk, x) == Live(disk[x], 0, 21)
  }

  lemma FirstTwo(s: Sector)
    requires EntryAt(s, 0).kind != FT_UNKNOWN && EntryAt(s, 1).kind != FT_UNKNOWN
    ensures |Live(s, 0, 21)| >= 2 && Live(s, 0, 21)[0] == EntryAt(s, 0) && Live(s, 0, 21)[1] == EntryAt(s, 1)
  {
    hide EntryAt, Live;
    LiveSplit(s, 0, 2, 21);
    LiveSplit(s, 0, 1, 2);
    LiveOne(s, 0);
    LiveOne(s, 1);
  }

  // ----- behind the direct blocks -----

  /** The live entries of blocks `b` to `c` - 1, those that the indirect table lists included. */
  function LongListing(disk: seq<Sector>, sectors: seq<u32>, b: nat, c: nat): (r: seq<Entry>)
    requires b <= c <= 140 && |sectors| == 13
    decreases c - b
  {
    if b == c then [] else LongListing(disk, sectors, b, c - 1) + BlockEntries(disk, Addr(disk, sectors, c - 1))
  }

  /** Every entry that a search can find. */
  function AllEntries(disk: seq<Sector>, i: DiskInode): seq<Entry> {
    if |i.sectors| == 13 then LongListing(disk, i.sectors, 0, 140) else []
  }

  /** The entries behind the twelve direct blocks. */
  function EntriesBehind(disk: seq<Sector>, i: DiskInode): seq<Entry> {
    if |i.sectors| == 13 then LongListing(disk, i.sectors, 12, 140) else []
  }

  lemma {:induction false} LongListingFront(disk: seq<Sector>, sectors: seq<u32>, c: nat)
    requires c <= 12 && |sectors| == 13
    ensures LongListing(disk, sectors, 0, c) == Listing(disk, sectors, 0, c)
  {
    hide BlockEntries;
    if c > 0 {
      LongListingFront(disk, sectors, c - 1);
    }
  }

  lemma {:induction false} LongListingSplit(disk: seq<Sector>, sectors: seq<u32>, c: nat)
    requires 12 <= c <= 140 && |sectors| == 13
    ensures LongListing(disk, sectors, 0, c) == LongListing(disk, sectors, 0, 12) + LongListing(disk, sectors, 12, c)
  {
    hide BlockEntries;
    if c > 12 {
      LongListingSplit(disk, sectors, c - 1);
      var last := BlockEntries(disk, Addr(disk, sectors, c - 1));
      Associative(LongListing(disk, sectors, 0, 12), LongListing(disk, sectors, 12, c - 1), last);
    } else {
      assert LongListing(disk, sectors, 12, 12) == [];
    }
  }

  lemma AllEntriesAre(disk: seq<Sector>, i: DiskInode)
    ensures AllEntries(disk, i) == Entries(disk, i) + EntriesBehind(disk, i)
  {
    hide LongListing, Listing;
    if |i.sectors| == 13 {
      LongListingFront(disk, i.sectors, 12);
      LongListingSplit(disk, i.sectors, 140);
    }
  }

  lemma {:induction false} NothingBehind(disk: seq<Sector>, sectors: seq<u32>, c: nat)
    requires 12 <= c <= 140 && |sectors| == 13 && forall b: nat :: 12 <= b < c ==> Addr(disk, sectors, b) == 0
    ensures LongListing(disk, sectors, 12, c) == []
  {
    if c > 12 {
      NothingBehind(disk, sectors, c - 1);
    }
  }

  /** A block can be searched: slots without an entry are zero. */
  ghost predicate Searchable(disk: seq<Sector>, sectors: seq<u32>) {
    && |sectors| == 13 && sectors[12] < |disk|
    && forall b: nat :: b < 140 && Addr(disk, sectors, b) != 0 ==>
      Addr(disk, sectors, b) < |disk| && DeadSlotsZero(disk[Addr(disk, sectors, b)])
  }

  /** A directory without a table: all its entries are in the direct blocks. */
  lemma DirectorySearchable(disk: seq<Sector>, sb: SuperBlock, bits: seq<byte>, i: DiskInode, parent: u32)
    requires Directory(disk, sb, bits, i, parent)
    ensures Searchable(disk, i.sectors) && AllEntries(disk, i) == Entries(disk, i)
  {
    hide *;
    DirectoryParts(disk, sb, bits, i, parent);
    DirFacts(disk, sb, bits, i, parent);
    AllEntriesAre(disk, i);
    WithoutTable(disk, sb, i);
    NothingBehind(disk, i.sectors, 140);
    EntriesBehindAre(disk, i);
  }

  lemma WithoutTable(disk: seq<Sector>, sb: SuperBlock, i: DiskInode)
    requires |i.sectors| == 13 && i.sectors[12] == 0 && i.sectors[0] != 0
    requires forall b :: 0 <= b < 12 && i.sectors[b] != 0 ==> BlockFacts(disk, sb, i.sectors[b])
    ensures Searchable(disk, i.sectors) && forall b: nat :: 12 <= b < 140 ==> Addr(disk, i.sectors, b) == 0
  {
    hide DeadSlotsZero, BlockEntries, Live;
  }

  lemma EntriesBehindAre(disk: seq<Sector>, i: DiskInode)
    requires |i.sectors| == 13
    ensures EntriesBehind(disk, i) == LongListing(disk, i.sectors, 12, 140)
  {
  }

  /** `search_dir_entry`: the entry of that name, if the directory has one. */
  method SearchDirEntry(part: Partition, dir: Inode, name: seq<byte>) returns (r: Option<Entry>)
    requires Searchable(part.disk, dir.sectors) && NoZero(name) && name != []
    ensures r.Some? ==> r.value in AllEntries(part.disk, dir.Disk()) && StrEq(r.value.name, name)
    ensures r.None? ==> NoMatch(AllEntries(part.disk, dir.Disk()), name)
  {
    hide *;
    SearchableFacts(part.disk, dir.sectors);
    AllEntriesOf(dir, part.disk);
    var allBlocks := dir.sectors[..12] + Copies<u32>(0, 128);
    if dir.sectors[12] != 0 {
      var table := part.disk[dir.sectors[12]];
      allBlocks := dir.sectors[..12] + seq(128, b requires 0 <= b < 128 => TableEntry(table, b));
    }
    AddrIs(part.disk, dir.sectors, allBlocks);
    var blockIdx := 0;
    NoMatchNothing(name);
    LongListingNone(part.disk, dir.sectors);
    while blockIdx < 140
      invariant 0 <= blockIdx <= 140
      invariant NoMatch(LongListing(part.disk, dir.sectors, 0, blockIdx), name)
    {
      LongListingNext(part.disk, dir.sectors, blockIdx);
      NoMatchConcat(LongListing(part.disk, dir.sectors, 0, blockIdx), BlockEntries(part.disk, allBlocks[blockIdx]), name);
      if allBlocks[blockIdx] == 0 {
        BlockEntriesZero(part.disk);
        NoMatchNothing(name);
        blockIdx := blockIdx + 1;
        continue;
      }
      BlockEntriesAt(part.disk, allBlocks[blockIdx]);
      var found := SearchSector(part.disk[allBlocks[blockIdx]], name);
      if found.Some? {
        LongListingHolds(part.disk, dir.sectors, blockIdx, 140, found.value);
        return found;
      }
      blockIdx := blockIdx + 1;
    }
    return None;
  }

  lemma SearchableFacts(disk: seq<Sector>, sectors: seq<u32>)
    requires Searchable(disk, sectors)
    ensures |sectors| == 13 && sectors[12] < |disk|
    ensures forall b: nat :: b < 140 && Addr(disk, sectors, b) != 0 ==>
      Addr(disk, sectors, b) < |disk| && DeadSlotsZero(disk[Addr(disk, sectors, b)])
  {
    hide DeadSlotsZero, Addr;
  }

  lemma AllEntriesOf(dir: Inode, disk: seq<Sector>)
    requires |dir.sectors| == 13
    ensures AllEntries(disk, dir.Disk()) == LongListing(disk, dir.sectors, 0, 140)
  {
  }

  lemma AddrIs(disk: seq<Sector>, sectors: seq<u32>, allBlocks: seq<u32>)
    requires |sectors| == 13 && sectors[12] < |disk| && |allBlocks| == 140 && allBlocks[..12] == sectors[..12]
    requires forall b: nat :: 12 <= b < 140 ==>
      allBlocks[b] == if sectors[12] == 0 then 0 else TableEntry(disk[sectors[12]], b - 12)
    ensures forall b: nat :: b < 140 ==> allBlocks[b] == Addr(disk, sectors, b)
  {
    hide TableEntry;
    forall b: nat | b < 140
      ensures allBlocks[b] == Addr(disk, sectors, b)
    {
      if b < 12 {
        assert allBlocks[b] == allBlocks[..12][b];
      }
    }
  }

  lemma LongListingNone(disk: seq<Sector>, sectors: seq<u32>)
    requires |sectors| == 13
    ensures LongListing(disk, sectors, 0, 0) == []
  {
  }

  lemma LongListingNext(disk: seq<Sector>, sectors: seq<u32>, c: nat)
    requires c < 140 && |sectors| == 13
    ensures LongListing(disk, sectors, 0, c + 1) == LongListing(disk, sectors, 0, c) + BlockEntries(disk, Addr(disk, sectors, c))
  {
  }

  lemma BlockEntriesZero(disk: seq<Sector>)
    ensures BlockEntries(disk, 0) == []
  {
  }

  lemma {:induction false} LongListingHolds(disk: seq<Sector>, sectors: seq<u32>, b: nat, c: nat, e: Entry)
    requires b < c <= 140 && |sectors| == 13 && e in BlockEntries(disk, Addr(disk, sectors, b))
    ensures e in LongListing(disk, sectors, 0, c)
  {
    hide BlockEntries, Addr;
    if b < c - 1 {
      LongListingHolds(disk, sectors, b, c - 1, e);
    }
  }

  lemma BlockEntriesFacts(disk: seq<Sector>, sb: SuperBlock, x: u32)
    ensures x == 0 ==> BlockEntries(disk, x) == []
    ensures BlockFacts(disk, sb, x) ==>
      0 < sb.dataStartLba <= x < |disk| && DeadSlotsZero(disk[x]) && BlockEntries(disk, x) == Live(disk[x], 0, 21)
  {
  }

  // ----- insertion and removal -----

  function Insert(l: seq<Entry>, k: nat, e: Entry): seq<Entry>
    requires k <= |l|
  {
    l[..k] + [e] + l[k..]
  }

  lemma InsertAt(l: seq<Entry>, k: nat, e: Entry)
    requires k <= |l|
    ensures |Insert(l, k, e)| == |l| + 1
    ensures forall a :: 0 <= a <= |l| ==> Insert(l, k, e)[a] == if a < k then l[a] else if a == k then e else l[a - 1]
  {
  }

  /** No entry has this name, and no child this inode number. */
  ghost predicate FreshEntry(l: seq<Entry>, e: Entry) {
    Named(e) && IsChild(e) && forall k :: 0 <= k < |l| ==> Compatible(l[k], e)
  }

  lemma CompatibleSymmetric(e: Entry, f: Entry)
    ensures Compatible(e, f) == Compatible(f, e)
  {
  }

  lemma GoodInsert(l: seq<Entry>, k: nat, e: Entry)
    requires k <= |l| && GoodEntries(l) && FreshEntry(l, e)
    ensures GoodEntries(Insert(l, k, e))
  {
    hide Named, Compatible, IsChild;
    var m := Insert(l, k, e);
    InsertAt(l, k, e);
    forall a, b | 0 <= a < b < |m|
      ensures Compatible(m[a], m[b])
    {
      if a == k {
        CompatibleSymmetric(e, l[b - 1]);
      }
    }
  }

  lemma GoodRemove(l: seq<Entry>, k: nat, e: Entry)
    requires k <= |l| && GoodEntries(Insert(l, k, e))
    ensures GoodEntries(l)
  {
    hide Named, Compatible, IsChild;
    var m := Insert(l, k, e);
    assert forall a :: 0 <= a < |l| ==> l[a] == m[if a < k then a else a + 1];
  }

  /** An entry more in one block is an entry more in the listing. */
  lemma ListingInsert(d: seq<Sector>, s: seq<u32>, d1: seq<Sector>, s1: seq<u32>, b: nat, before: seq<Entry>,
        after: seq<Entry>, e: Entry)
    requires b < 12 <= |s| && |s1| == |s|
    requires forall k :: 0 <= k < 12 && k != b ==> BlockEntries(d1, s1[k]) == BlockEntries(d, s[k])
    requires BlockEntries(d, s[b]) == before + after && BlockEntries(d1, s1[b]) == before + [e] + after
    ensures exists k: nat :: k <= |Listing(d, s, 0, 12)| && Listing(d1, s1, 0, 12) == Insert(Listing(d, s, 0, 12), k, e)
    ensures
      var k := |Listing(d, s, 0, b)| + |before|;
      k <= |Listing(d, s, 0, 12)| && Listing(d1, s1, 0, 12) == Insert(Listing(d, s, 0, 12), k, e)
  {
    hide *;
    ListingChange(d, s, d1, s1, b);
    InsertMiddle(Listing(d, s, 0, b), before, after, Listing(d, s, b + 1, 12), e);
  }

  lemma InsertMiddle(l: seq<Entry>, before: seq<Entry>, after: seq<Entry>, r: seq<Entry>, e: Entry)
    ensures
      var k, whole := |l| + |before|, l + (before + after) + r;
      k <= |whole| && l + (before + [e] + after) + r == Insert(whole, k, e)
  {
    var k, whole := |l| + |before|, l + (before + after) + r;
    assert whole[..k] == l + before && whole[k..] == after + r;
    assert l + (before + [e] + after) + r == (l + before) + [e] + (after + r);
  }

  // ----- sync_dir_entry -----

  /** The directory gained the entry `e` and at most one block; nothing else changed but the block bitmap. */
  ghost predicate Inserted(sb: SuperBlock, d0: seq<Sector>, b0: seq<byte>, i0: DiskInode,
      d1: seq<Sector>, b1: seq<byte>, i1: DiskInode, parent: u32, e: Entry)
  {
    && |d1| == |d0| && |b1| == |b0| && i1.no == i0.no && i1.size == i0.size + 24
    && (exists k: nat :: k <= |Entries(d0, i0)| && Entries(d1, i1) == Insert(Entries(d0, i0), k, e))
    && Directory(d1, sb, b1, i1, parent)
    && BlockMirror(d1, sb, b1)
    && DirOwned(i0.sectors) <= DirOwned(i1.sectors)
    && DirOwned(i1.sectors) - DirOwned(i0.sectors) <= FreeBlocks(sb, b0)
    && FreeBlocks(sb, b1) == FreeBlocks(sb, b0) - DirOwned(i1.sectors)
    && (forall l :: 0 <= l < |d0| && !InBlockBitmap(sb, l) && l !in DirOwned(i1.sectors) ==> d1[l] == d0[l])
  }

  /** Of the slots of a directory, those of missing blocks included, slot `j` of block `b` is the first that is free. */
  ghost predicate FirstRoom(d: seq<Sector>, sectors: seq<u32>, b: nat, j: nat) {
    && |sectors| == 13 && b < 12 && j < 21
    && (forall k :: 0 <= k < b ==> |BlockEntries(d, sectors[k])| == 21)
    && (if sectors[b] == 0 then j == 0 else
      && sectors[b] < |d| && EntryAt(d[sectors[b]], j).kind == FT_UNKNOWN
      && forall i: nat :: i < j ==> EntryAt(d[sectors[b]], i).kind != FT_UNKNOWN)
  }

  /** The entry is in that slot now, in a new block if there was none, and all other slots are as before. Every slot before
      it is in use, so that it comes after as many entries. */
  ghost predicate Placed(d0: seq<Sector>, s0: seq<u32>, d1: seq<Sector>, s1: seq<u32>, e: Entry, b: nat, j: nat) {
    && FirstRoom(d0, s0, b, j)
    && |s1| == 13 && s1 == s0[b := s1[b]] && (s0[b] != 0 ==> s1[b] == s0[b]) && 0 < s1[b] < |d1| && |d1| == |d0|
    && (forall i: nat :: i < 21 ==>
      EntryAt(d1[s1[b]], i) == if i == j then e else if s0[b] != 0 then EntryAt(d0[s0[b]], i) else ZERO_ENTRY)
    && (forall k :: 0 <= k < 12 && k != b ==> BlockEntries(d1, s1[k]) == BlockEntries(d0, s0[k]))
    && 21 * b + j <= |Listing(d0, s0, 0, 12)|
    && Listing(d1, s1, 0, 12) == Insert(Listing(d0, s0, 0, 12), 21 * b + j, e)
  }

  /** The scan of one sector: its first slot without an entry takes `e`. */
  method FillSlot(s: Sector, e: Entry) returns (r: Option<Sector>, ghost j: nat)
    ensures r.None? ==> |Live(s, 0, 21)| == 21
    ensures r.Some? ==> j < 21 && EntryAt(s, j).kind == FT_UNKNOWN && r.value == PutEntry(s, j, e) && |Live(s, 0, 21)| < 21
    ensures r.Some? ==> |Live(s, 0, j)| == j && forall i: nat :: i < j ==> EntryAt(s, i).kind != FT_UNKNOWN
  {
    hide EntryAt, PutEntry;
    var dirEntryIdx := 0;
    while dirEntryIdx < 21
      invariant 0 <= dirEntryIdx <= 21 && |Live(s, 0, dirEntryIdx)| == dirEntryIdx
      invariant forall i: nat :: i < dirEntryIdx ==> EntryAt(s, i).kind != FT_UNKNOWN
    {
      if EntryAt(s, dirEntryIdx).kind == FT_UNKNOWN {
        LiveAround(s, dirEntryIdx);
        return Some(PutEntry(s, dirEntryIdx, e)), dirEntryIdx;
      }
      dirEntryIdx := dirEntryIdx + 1;
    }
    return None, 0;
  }

  lemma PutDeadSlots(s: Sector, j: nat, e: Entry)
    requires j < 21 && DeadSlotsZero(s) && (e.kind == FT_UNKNOWN ==> e == ZERO_ENTRY)
    ensures DeadSlotsZero(PutEntry(s, j, e))
  {
    hide EntryAt, PutEntry;
    forall k: nat | k < 21
      ensures EntryAt(PutEntry(s, j, e), k) == if k == j then e else EntryAt(s, k)
    {
      PutEntryAt(s, j, e, k);
    }
  }

  /** The blocks of a directory are apart from each other. */
  lemma OtherBlocks(d: seq<Sector>, sb: SuperBlock, bits: seq<byte>, sectors: seq<u32>, b: nat, s: Sector)
    requires DirBlocks(d, sb, bits, sectors) && b < 12 && sectors[b] != 0
    ensures sectors[b] < |d|
    ensures forall k :: 0 <= k < 12 && k != b ==>
      BlockEntries(d[sectors[b] := s], sectors[k]) == BlockEntries(d, sectors[k])
    ensures forall k :: 0 <= k < 12 && k != b && 0 < sectors[k] < |d| ==> d[sectors[b] := s][sectors[k]] == d[sectors[k]]
    ensures DirBlocks(d[sectors[b] := s], sb, bits, sectors)
  {
    hide FreeBlocks, Live;
    assert TakenBlock(d, sb, bits, sectors[b]);
  }

  /** One slot of one block overwritten, the first two of the first block excepted: the shape stays. */
  lemma ShapePut(d: seq<Sector>, sb: SuperBlock, bits: seq<byte>, i: DiskInode, parent: u32, b: nat, j: nat, e: Entry)
    requires |i.sectors| == 13 && DirBlocks(d, sb, bits, i.sectors) && DirShape(d, i, parent)
    requires b < 12 && 0 < i.sectors[b] < |d| && j < 21 && (b == 0 ==> j >= 2) && (e.kind == FT_UNKNOWN ==> e == ZERO_ENTRY)
    requires b > 0 ==> Live(PutEntry(d[i.sectors[b]], j, e), 0, 21) != []
    ensures DirShape(d[i.sectors[b] := PutEntry(d[i.sectors[b]], j, e)], i, parent)
  {
    hide EntryAt, PutEntry, Live, DeadSlotsZero, TakenBlock, FreeBlocks;
    var s := d[i.sectors[b]];
    PutDeadSlots(s, j, e);
    if b == 0 {
      PutEntryAt(s, j, e, 0);
      PutEntryAt(s, j, e, 1);
    }
  }

  lemma SlotInserted(sb: SuperBlock, d: seq<Sector>, bits: seq<byte>, i: DiskInode, parent: u32, b: nat, j: nat, e: Entry,
      s: Sector, i1: DiskInode)
    requires |i.sectors| == 13 && b < 12 && 0 < i.sectors[b] < |d| && d[i.sectors[b]] == s
    requires j < 21 && EntryAt(s, j).kind == FT_UNKNOWN
    requires i1.no == i.no && i1.sectors == i.sectors && i1.size == i.size + 24
    requires Geometry(sb, |d|) && BlockMirror(d, sb, bits) && Directory(d, sb, bits, i, parent)
    requires FreshEntry(Entries(d, i), e)
    ensures Inserted(sb, d, bits, i, d[i.sectors[b] := PutEntry(s, j, e)], bits, i1, parent, e)
  {
    hide *;
    var d1 := d[i.sectors[b] := PutEntry(s, j, e)];
    var before, after := Live(s, 0, j), Live(s, j + 1, 21);
    DirectoryParts(d, sb, bits, i, parent);
    FreshFacts(Entries(d, i), e);
    PutLive(s, j, e);
    DeadSlotIsEmpty(s, j);
    assert before + [] + after == before + after;
    SlotBehindDots(d, i, parent, b, j);
    OtherBlocks(d, sb, bits, i.sectors, b, PutEntry(s, j, e));
    ShapePut(d, sb, bits, i, parent, b, j, e);
    ShapeSize(d1, i, parent, i1);
    EntriesAre(d, i);
    EntriesAre(d1, i1);
    BlockEntriesAt(d, i.sectors[b]);
    BlockEntriesAt(d1, i.sectors[b]);
    ListingInsert(d, i.sectors, d1, i.sectors, b, before, after, e);
    GoodInserted(Entries(d, i), Entries(d1, i1), e);
    BlockIndex(d, sb, bits, i, parent, b);
    MirrorFrame(sb, d, bits, d1) by { BeyondBitmap(sb, |d|, i.sectors[b]); }
    OwnedTaken(d, sb, bits, i.sectors);
    InsertedIntro(sb, d, bits, i, d1, bits, i1, parent, e);
  }

  lemma SlotPlaced(sb: SuperBlock, d: seq<Sector>, bits: seq<byte>, i: DiskInode, parent: u32, b: nat, j: nat, e: Entry, s: Sector)
    requires |i.sectors| == 13 && b < 12 && 0 < i.sectors[b] < |d| && d[i.sectors[b]] == s && Directory(d, sb, bits, i, parent)
    requires j < 21 && EntryAt(s, j).kind == FT_UNKNOWN && |Live(s, 0, j)| == j && e.kind != FT_UNKNOWN
    requires forall k: nat :: k < j ==> EntryAt(s, k).kind != FT_UNKNOWN
    requires |Listing(d, i.sectors, 0, b)| == 21 * b
    ensures Placed(d, i.sectors, d[i.sectors[b] := PutEntry(s, j, e)], i.sectors, e, b, j)
  {
    hide *;
    var d1 := d[i.sectors[b] := PutEntry(s, j, e)];
    var before, after := Live(s, 0, j), Live(s, j + 1, 21);
    DirectoryParts(d, sb, bits, i, parent);
    PutLive(s, j, e);
    DeadSlotIsEmpty(s, j);
    assert before + [] + after == before + after;
    OtherBlocks(d, sb, bits, i.sectors, b, PutEntry(s, j, e));
    BlockEntriesAt(d, i.sectors[b]);
    BlockEntriesAt(d1, i.sectors[b]);
    ListingInsert(d, i.sectors, d1, i.sectors, b, before, after, e);
    ListingFull(d, i.sectors, b);
    forall k: nat | k < 21
      ensures EntryAt(d1[i.sectors[b]], k) == if k == j then e else EntryAt(s, k)
    {
      PutEntryAt(s, j, e, k);
    }
    FirstRoomIntro(d, i.sectors, b, j);
    PlacedIntro(d, i.sectors, d1, i.sectors, e, b, j);
  }

  lemma HolePlaced(sb: SuperBlock, d: seq<Sector>, bits: seq<byte>, i: DiskInode, parent: u32, b: nat, e: Entry,
      dx: seq<Sector>, b1: seq<byte>, x: u32)
    requires Geometry(sb, |d|) && FreeWithin(sb, bits) && Directory(d, sb, bits, i, parent) && |i.sectors| == 13
    requires b < 12 && i.sectors[b] == 0 && Grown(sb, d, bits, dx, b1, {x as int}) && e.kind != FT_UNKNOWN
    requires |Listing(d, i.sectors, 0, b)| == 21 * b
    ensures x < |d| == |dx|
    ensures Placed(d, i.sectors, dx[x := PutEntry(Copies<byte>(0, 512), 0, e)], i.sectors[b := x], e, b, 0)
  {
    hide *;
    GrownTakes(sb, d, bits, dx, b1, x);
    HoleFilled(sb, d, bits, i, parent, b, e, dx, b1, x);
    var d1, s1 := dx[x := PutEntry(Copies<byte>(0, 512), 0, e)], i.sectors[b := x];
    BlockEntriesZero(d);
    ListingInsert(d, i.sectors, d1, s1, b, [], [], e);
    ListingFull(d, i.sectors, b);
    forall k: nat | k < 21
      ensures EntryAt(d1[x], k) == if k == 0 then e else ZERO_ENTRY
    {
      PutEntryAt(Copies<byte>(0, 512), 0, e, k);
      ZeroSector(k);
    }
    FirstRoomIntro(d, i.sectors, b, 0);
    PlacedIntro(d, i.sectors, d1, s1, e, b, 0);
  }

  lemma GrownTakes(sb: SuperBlock, d: seq<Sector>, bits: seq<byte>, dx: seq<Sector>, b1: seq<byte>, x: u32)
    requires Geometry(sb, |d|) && Grown(sb, d, bits, dx, b1, {x as int})
    ensures 0 < x < |dx| == |d|
  {
    hide BlockMirror, FreeBlock;
    assert x as int in {x as int};
  }

  lemma FirstRoomIntro(d: seq<Sector>, sectors: seq<u32>, b: nat, j: nat)
    requires |sectors| == 13 && b < 12 && j < 21 && forall k :: 0 <= k < b ==> |BlockEntries(d, sectors[k])| == 21
    requires sectors[b] == 0 ==> j == 0
    requires sectors[b] != 0 ==> sectors[b] < |d| && EntryAt(d[sectors[b]], j).kind == FT_UNKNOWN
    requires sectors[b] != 0 ==> forall i: nat :: i < j ==> EntryAt(d[sectors[b]], i).kind != FT_UNKNOWN
    ensures FirstRoom(d, sectors, b, j)
  {
    hide EntryAt, BlockEntries;
  }

  lemma PlacedIntro(d0: seq<Sector>, s0: seq<u32>, d1: seq<Sector>, s1: seq<u32>, e: Entry, b: nat, j: nat)
    requires FirstRoom(d0, s0, b, j) && |s0| == |s1| == 13 && b < 12 && s1 == s0[b := s1[b]] && (s0[b] != 0 ==> s1[b] == s0[b])
    requires 0 < s1[b] < |d1| && |d1| == |d0| && s0[b] < |d0|
    requires forall i: nat :: i < 21 ==>
      EntryAt(d1[s1[b]], i) == if i == j then e else if s0[b] != 0 then EntryAt(d0[s0[b]], i) else ZERO_ENTRY
    requires forall k :: 0 <= k < 12 && k != b ==> BlockEntries(d1, s1[k]) == BlockEntries(d0, s0[k])
    requires 21 * b + j <= |Listing(d0, s0, 0, 12)|
    requires Listing(d1, s1, 0, 12) == Insert(Listing(d0, s0, 0, 12), 21 * b + j, e)
    ensures Placed(d0, s0, d1, s1, e, b, j)
  {
    hide FirstRoom, EntryAt, BlockEntries, Listing, Insert;
  }

  // ----- creation order -----

  /** No slot is free before the last entry, as long as none was removed. */
  ghost predicate Packed(d: seq<Sector>, sectors: seq<u32>) {
    |sectors| == 13 && forall b: nat, j: nat :: FirstRoom(d, sectors, b, j) ==> |Listing(d, sectors, 0, 12)| == 21 * b + j
  }

  lemma {:induction false} LiveFull(s: Sector, j: nat)
    requires j <= 21 && forall i: nat :: i < j ==> EntryAt(s, i).kind != FT_UNKNOWN
    ensures |Live(s, 0, j)| == j
  {
    hide EntryAt;
    if j > 0 {
      LiveFull(s, j - 1);
    }
  }

  lemma LiveSome(s: Sector, j: nat)
    requires j < 21 && EntryAt(s, j).kind != FT_UNKNOWN
    ensures |Live(s, 0, 21)| >= |Live(s, 0, j)| + 1
  {
    hide EntryAt;
    LiveAround(s, j);
  }

  /** In a packed directory nothing lives behind the first free slot. */
  lemma NothingBehindRoom(d: seq<Sector>, sectors: seq<u32>, b: nat, j: nat)
    requires Packed(d, sectors) && FirstRoom(d, sectors, b, j)
    ensures forall k :: b < k < 12 ==> BlockEntries(d, sectors[k]) == []
    ensures 0 < sectors[b] < |d| ==> forall i: nat :: j < i < 21 ==> EntryAt(d[sectors[b]], i).kind == FT_UNKNOWN
    ensures |Listing(d, sectors, 0, 12)| == 21 * b + j && |BlockEntries(d, sectors[b])| == j
  {
    hide *;
    RoomParts(d, sectors, b, j);
    BlocksFull(d, sectors, b);
    ListingAround(d, sectors, b);
    BlockEntriesZero(d);
    if sectors[b] != 0 {
      var s := d[sectors[b]];
      BlockEntriesAt(d, sectors[b]);
      LiveFull(s, j);
      LiveAround(s, j);
      forall i: nat | j < i < 21
        ensures EntryAt(s, i).kind == FT_UNKNOWN
      {
        if EntryAt(s, i).kind != FT_UNKNOWN {
          LiveSome(s, i);
          LiveSplit(s, 0, j, i);
        }
      }
    }
    forall k | b < k < 12
      ensures BlockEntries(d, sectors[k]) == []
    {
      ListingPart(d, sectors, b + 1, k);
    }
  }

  lemma RoomParts(d: seq<Sector>, sectors: seq<u32>, b: nat, j: nat)
    requires FirstRoom(d, sectors, b, j)
    ensures |sectors| == 13 && b < 12 && j < 21 && (sectors[b] == 0 ==> j == 0)
    ensures Packed(d, sectors) ==> |Listing(d, sectors, 0, 12)| == 21 * b + j
    ensures forall k :: 0 <= k < b ==> |BlockEntries(d, sectors[k])| == 21
    ensures sectors[b] != 0 ==> sectors[b] < |d| && EntryAt(d[sectors[b]], j).kind == FT_UNKNOWN
    ensures sectors[b] != 0 ==> forall i: nat :: i < j ==> EntryAt(d[sectors[b]], i).kind != FT_UNKNOWN
  {
    hide EntryAt, BlockEntries, Listing;
  }

  lemma {:induction false} BlocksFull(d: seq<Sector>, sectors: seq<u32>, b: nat)
    requires b <= |sectors| && forall k :: 0 <= k < b ==> |BlockEntries(d, sectors[k])| == 21
    ensures |Listing(d, sectors, 0, b)| == 21 * b
  {
    hide *;
    ListingStep(d, sectors, b);
    if b > 0 {
      BlocksFull(d, sectors, b - 1);
    }
  }

  /** One block's entries are among those of the blocks around it. */
  lemma {:induction false} ListingPart(d: seq<Sector>, sectors: seq<u32>, b: nat, k: nat)
    requires b <= k < 12 <= |sectors|
    ensures |BlockEntries(d, sectors[k])| <= |Listing(d, sectors, b, 12)|
  {
    hide BlockEntries;
    ListingSplit(d, sectors, b, k, 12);
    ListingSplit(d, sectors, k, k + 1, 12);
    assert Listing(d, sectors, k, k) == [];
    assert Listing(d, sectors, k, k + 1) == [] + BlockEntries(d, sectors[k]);
  }

  /** As long as nothing was removed a directory lists its entries in the order in which they were added. */
  lemma PackedStays(d0: seq<Sector>, s0: seq<u32>, d1: seq<Sector>, s1: seq<u32>, e: Entry, b: nat, j: nat)
    requires Packed(d0, s0) && Placed(d0, s0, d1, s1, e, b, j) && e.kind != FT_UNKNOWN
    ensures Listing(d1, s1, 0, 12) == Listing(d0, s0, 0, 12) + [e] && Packed(d1, s1)
  {
    hide *;
    PlacedParts(d0, s0, d1, s1, e, b, j);
    NothingBehindRoom(d0, s0, b, j);
    RoomParts(d0, s0, b, j);
    InsertEnd(Listing(d0, s0, 0, 12), e);
    DeadSlotIsEmpty(d1[s1[b]], 0);
    BlockEntriesAt(d1, s1[b]);
    forall c: nat, i: nat | FirstRoom(d1, s1, c, i)
      ensures 21 * c + i == 21 * b + j + 1
    {
      RoomParts(d1, s1, c, i);
      RoomNotFull(d1, s1, c, i);
      if c == b {
        assert i > j + 1 ==> EntryAt(d1[s1[b]], j + 1).kind != FT_UNKNOWN;
      } else {
        LiveFullAll(d1[s1[b]]);
        assert j < 20 ==> EntryAt(d1[s1[b]], j + 1).kind == FT_UNKNOWN;
        assert c > b + 1 ==> |BlockEntries(d1, s1[b + 1])| == 21;
        NextRoom(d1, s1, c, i);
      }
    }
    PackedIntro(d1, s1, 21 * b + j + 1);
  }

  lemma InsertEnd(l: seq<Entry>, e: Entry)
    ensures Insert(l, |l|, e) == l + [e]
  {
  }

  lemma RoomNotFull(d: seq<Sector>, sectors: seq<u32>, c: nat, i: nat)
    requires FirstRoom(d, sectors, c, i)
    ensures |BlockEntries(d, sectors[c])| < 21
  {
    hide EntryAt, Live;
    if 0 < sectors[c] < |d| && |Live(d[sectors[c]], 0, 21)| == 21 {
      LiveFullAll(d[sectors[c]]);
    }
  }

  lemma LiveFullAll(s: Sector)
    requires |Live(s, 0, 21)| == 21
    ensures forall i: nat :: i < 21 ==> EntryAt(s, i).kind != FT_UNKNOWN
  {
    forall i: nat | i < 21
      ensures EntryAt(s, i).kind != FT_UNKNOWN
    {
      LiveAround(s, i);
    }
  }

  lemma NextRoom(d: seq<Sector>, sectors: seq<u32>, c: nat, i: nat)
    requires FirstRoom(d, sectors, c, i) && BlockEntries(d, sectors[c]) == []
    ensures i == 0
  {
    hide EntryAt;
    if sectors[c] != 0 && i > 0 {
      LiveSome(d[sectors[c]], 0);
    }
  }

  lemma PlacedParts(d0: seq<Sector>, s0: seq<u32>, d1: seq<Sector>, s1: seq<u32>, e: Entry, b: nat, j: nat)
    requires Placed(d0, s0, d1, s1, e, b, j)
    ensures FirstRoom(d0, s0, b, j) && |s0| == |s1| == 13 && b < 12 && j < 21 && 0 < s1[b] < |d1| && |d1| == |d0|
    ensures s0[b] != 0 ==> s0[b] < |d0| && s1[b] == s0[b]
    ensures s1 == s0[b := s1[b]]
    ensures forall i: nat :: i < 21 ==>
      EntryAt(d1[s1[b]], i) == if i == j then e else if s0[b] != 0 then EntryAt(d0[s0[b]], i) else ZERO_ENTRY
    ensures forall k :: 0 <= k < 12 && k != b ==> BlockEntries(d1, s1[k]) == BlockEntries(d0, s0[k])
    ensures 21 * b + j <= |Listing(d0, s0, 0, 12)|
    ensures Listing(d1, s1, 0, 12) == Insert(Listing(d0, s0, 0, 12), 21 * b + j, e)
  {
    hide EntryAt, BlockEntries, Listing, Insert;
  }

  lemma PackedIntro(d: seq<Sector>, sectors: seq<u32>, n: nat)
    requires |sectors| == 13 && |Listing(d, sectors, 0, 12)| == n
    requires forall b: nat, j: nat :: FirstRoom(d, sectors, b, j) ==> 21 * b + j == n
    ensures Packed(d, sectors)
  {
    hide FirstRoom, Listing;
  }

  lemma DeadSlotIsEmpty(s: Sector, j: nat)
    requires j < 21
    ensures LiveSlot(s, j) == if EntryAt(s, j).kind != FT_UNKNOWN then [EntryAt(s, j)] else []
    ensures ZERO_ENTRY.kind == FT_UNKNOWN
  {
  }

  lemma SlotBehindDots(d: seq<Sector>, i: DiskInode, parent: u32, b: nat, j: nat)
    requires |i.sectors| == 13 && DirShape(d, i, parent) && b < 12 && j < 21 && 0 < i.sectors[b] < |d|
    requires EntryAt(d[i.sectors[b]], j).kind == FT_UNKNOWN || IsChild(EntryAt(d[i.sectors[b]], j))
    ensures b == 0 ==> j >= 2
  {
    hide EntryAt, IsChild;
    DotsAreNoChildren(i.no, parent);
  }

  lemma BlockEntriesAt(d: seq<Sector>, x: u32)
    requires 0 < x < |d|
    ensures BlockEntries(d, x) == Live(d[x], 0, 21)
  {
  }

  lemma BeyondBitmap(sb: SuperBlock, n: nat, x: int)
    requires Geometry(sb, n) && sb.dataStartLba <= x
    ensures !InBlockBitmap(sb, x) && !InInodeTable(sb, x)
  {
  }

  lemma InsertedIntro(sb: SuperBlock, d0: seq<Sector>, b0: seq<byte>, i0: DiskInode,
      d1: seq<Sector>, b1: seq<byte>, i1: DiskInode, parent: u32, e: Entry)
    requires |d1| == |d0| && |b1| == |b0| && i1.no == i0.no && i1.size == i0.size + 24
    requires i0.size == 24 * |Entries(d0, i0)| && |Entries(d1, i1)| == |Entries(d0, i0)| + 1
    requires exists k: nat :: k <= |Entries(d0, i0)| && Entries(d1, i1) == Insert(Entries(d0, i0), k, e)
    requires |i1.sectors| == 13 && DirBlocks(d1, sb, b1, i1.sectors) && DirShape(d1, i1, parent) && GoodEntries(Entries(d1, i1))
    requires BlockMirror(d1, sb, b1)
    requires DirOwned(i0.sectors) <= DirOwned(i1.sectors)
    requires DirOwned(i1.sectors) - DirOwned(i0.sectors) <= FreeBlocks(sb, b0)
    requires FreeBlocks(sb, b1) == FreeBlocks(sb, b0) - DirOwned(i1.sectors)
    requires forall l :: 0 <= l < |d0| && !InBlockBitmap(sb, l) && l !in DirOwned(i1.sectors) ==> d1[l] == d0[l]
    ensures Inserted(sb, d0, b0, i0, d1, b1, i1, parent, e)
  {
    hide Entries, DirOwned, FreeBlocks, DirBlocks, DirShape, GoodEntries, IsChild, BlockMirror, Insert;
  }

  lemma FreshFacts(l: seq<Entry>, e: Entry)
    requires FreshEntry(l, e)
    ensures Proper(e.name) && e.kind != FT_UNKNOWN && IsChild(e)
  {
  }

  lemma GoodInserted(l: seq<Entry>, m: seq<Entry>, e: Entry)
    requires exists k: nat :: k <= |l| && m == Insert(l, k, e)
    requires GoodEntries(l) && FreshEntry(l, e)
    ensures |m| == |l| + 1 && GoodEntries(m)
  {
    var k: nat :| k <= |l| && m == Insert(l, k, e);
    GoodInsert(l, k, e);
  }

  lemma OwnedTaken(d: seq<Sector>, sb: SuperBlock, bits: seq<byte>, sectors: seq<u32>)
    requires DirBlocks(d, sb, bits, sectors)
    ensures DirOwned(sectors) !! FreeBlocks(sb, bits)
    ensures forall x :: x in DirOwned(sectors) ==> sb.dataStartLba <= x < |d|
  {
    forall b | 0 <= b < 12 && sectors[b] != 0
      ensures sectors[b] as int !in FreeBlocks(sb, bits)
    {
      assert TakenBlock(d, sb, bits, sectors[b]);
    }
  }

  /** The sector of a fresh block: zeros with the entry in slot 0. */
  lemma NewSector(e: Entry)
    requires e.kind != FT_UNKNOWN
    ensures Live(PutEntry(Copies<byte>(0, 512), 0, e), 0, 21) == [e] && DeadSlotsZero(PutEntry(Copies<byte>(0, 512), 0, e))
  {
    hide EntryAt, PutEntry, Live;
    ZeroLive(21);
    PutLive(Copies<byte>(0, 512), 0, e);
    assert DeadSlotsZero(Copies<byte>(0, 512)) by {
      forall j: nat | j < 21
        ensures EntryAt(Copies<byte>(0, 512), j) == ZERO_ENTRY
      {
        ZeroSector(j);
      }
    }
    PutDeadSlots(Copies<byte>(0, 512), 0, e);
    var whole := Live(Copies<byte>(0, 512), 0, 0) + LiveSlot(Copies<byte>(0, 512), 0) + Live(Copies<byte>(0, 512), 1, 21);
    assert |Live(Copies<byte>(0, 512), 1, 21)| <= |whole| == 0;
    assert |Live(Copies<byte>(0, 512), 0, 0)| == 0;
  }

  lemma {:induction false} ZeroLive(j: nat)
    requires j <= 21
    ensures Live(Copies<byte>(0, 512), 0, j) == []
  {
    if j > 0 {
      ZeroLive(j - 1);
      ZeroSector(j - 1);
    }
  }

  lemma HoleFilled(sb: SuperBlock, d: seq<Sector>, bits: seq<byte>, i: DiskInode, parent: u32, b: nat, e: Entry,
      dx: seq<Sector>, b1: seq<byte>, x: u32)
    requires Geometry(sb, |d|) && FreeWithin(sb, bits) && Directory(d, sb, bits, i, parent)
    requires b < 12 && i.sectors[b] == 0 && Grown(sb, d, bits, dx, b1, {x as int}) && e.kind != FT_UNKNOWN
    ensures x < |d| && DirBlocks(dx[x := PutEntry(Copies<byte>(0, 512), 0, e)], sb, b1, i.sectors[b := x])
    ensures DirShape(dx[x := PutEntry(Copies<byte>(0, 512), 0, e)], i.(sectors := i.sectors[b := x]), parent)
    ensures forall k :: 0 <= k < 12 && k != b ==>
      BlockEntries(dx[x := PutEntry(Copies<byte>(0, 512), 0, e)], i.sectors[b := x][k]) == BlockEntries(d, i.sectors[k])
    ensures BlockEntries(dx[x := PutEntry(Copies<byte>(0, 512), 0, e)], x) == [e]
  {
    hide EntryAt, PutEntry, Live, DeadSlotsZero, BlockMirror, GoodEntries, Entries;
    var s := PutEntry(Copies<byte>(0, 512), 0, e);
    NewSector(e);
    assert x in FreeBlocks(sb, bits);
    forall k | 0 <= k < 12 && i.sectors[k] != 0
      ensures i.sectors[k] != x && TakenBlock(dx[x := s], sb, b1, i.sectors[k]) && dx[x := s][i.sectors[k]] == d[i.sectors[k]]
    {
      assert TakenBlock(d, sb, bits, i.sectors[k]);
    }
  }

  lemma HoleInserted(sb: SuperBlock, d: seq<Sector>, bits: seq<byte>, i: DiskInode, parent: u32, b: nat, e: Entry,
      dx: seq<Sector>, b1: seq<byte>, x: u32)
    requires Geometry(sb, |d|) && FreeWithin(sb, bits) && Directory(d, sb, bits, i, parent)
    requires b < 12 && i.sectors[b] == 0 && Grown(sb, d, bits, dx, b1, {x as int})
    requires FreshEntry(Entries(d, i), e) && i.size + 24 < 0x1_0000_0000
    ensures x < |d| == |dx| && Inserted(sb, d, bits, i, dx[x := PutEntry(Copies<byte>(0, 512), 0, e)], b1,
      i.(size := i.size + 24, sectors := i.sectors[b := x]), parent, e)
  {
    hide EntryAt, PutEntry, Live, BlockMirror, FreeBlock, Listing, GoodEntries, FreshEntry, BlockEntries, DirShape;
    var i1 := i.(size := i.size + 24, sectors := i.sectors[b := x]);
    var d1 := dx[x := PutEntry(Copies<byte>(0, 512), 0, e)];
    FreshFacts(Entries(d, i), e);
    assert x in FreeBlocks(sb, bits);
    HoleFilled(sb, d, bits, i, parent, b, e, dx, b1, x);
    assert DirShape(d1, i1, parent) by {
      ShapeSize(d1, i.(sectors := i.sectors[b := x]), parent, i1);
    }
    BlockEntriesFacts(d, sb, 0);
    ListingInsert(d, i.sectors, d1, i1.sectors, b, [], [], e);
    GoodInserted(Entries(d, i), Entries(d1, i1), e);
    MirrorFrame(sb, dx, b1, d1);
    OwnedTaken(d, sb, bits, i.sectors);
    OwnedUpdate(i.sectors, b, x);
  }

  lemma ShapeSize(d: seq<Sector>, i: DiskInode, parent: u32, i1: DiskInode)
    requires |i.sectors| == 13 && DirShape(d, i, parent) && i1.no == i.no && i1.sectors == i.sectors
    ensures |i1.sectors| == 13 && DirShape(d, i1, parent)
  {
  }

  lemma OwnedUpdate(sectors: seq<u32>, b: nat, x: u32)
    requires |sectors| == 13 && b < 12 && sectors[b] == 0 && x != 0
    ensures DirOwned(sectors[b := x]) == DirOwned(sectors) + {x as int}
  {
    assert forall k :: 0 <= k < 12 && k != b ==> sectors[b := x][k] == sectors[k];
    forall y | y in DirOwned(sectors)
      ensures y in DirOwned(sectors[b := x])
    {
      var k :| 0 <= k < 12 && sectors[k] != 0 && y == sectors[k] as int;
      assert sectors[b := x][k] == sectors[k];
    }
    assert sectors[b := x][b] == x;
  }

  /** The scan of `sync_dir_entry` meets a missing block before a free slot. */
  ghost predicate NeedsBlock(disk: seq<Sector>, sectors: seq<u32>) {
    exists b :: 0 <= b < 12 && HoleFirst(disk, sectors, b)
  }

  ghost predicate HoleFirst(disk: seq<Sector>, sectors: seq<u32>, b: nat) {
    b < |sectors| && sectors[b] == 0 && |Listing(disk, sectors, 0, b)| == 21 * b
  }

  lemma HoleNeedsBlock(disk: seq<Sector>, sectors: seq<u32>, b: nat)
    requires b < 12 && b < |sectors| && sectors[b] == 0 && |Listing(disk, sectors, 0, b)| == 21 * b
    ensures NeedsBlock(disk, sectors)
  {
    assert HoleFirst(disk, sectors, b);
  }

  lemma {:induction false} ListingFull(disk: seq<Sector>, sectors: seq<u32>, b: nat)
    requires b <= |sectors|
    ensures |Listing(disk, sectors, 0, b)| <= 21 * b
    ensures |Listing(disk, sectors, 0, b)| == 21 * b ==> forall k :: 0 <= k < b ==> |BlockEntries(disk, sectors[k])| == 21
  {
    hide *;
    ListingStep(disk, sectors, b);
    if b > 0 {
      ListingFull(disk, sectors, b - 1);
    }
  }

  lemma ListingStep(disk: seq<Sector>, sectors: seq<u32>, b: nat)
    requires b <= |sectors|
    ensures b == 0 ==> Listing(disk, sectors, 0, b) == []
    ensures b > 0 ==> Listing(disk, sectors, 0, b) == Listing(disk, sectors, 0, b - 1) + BlockEntries(disk, sectors[b - 1])
    ensures b > 0 ==> |BlockEntries(disk, sectors[b - 1])| <= 21
  {
    hide Live;
  }

  /** A block with a free slot before any hole. */
  lemma SlotNoNeed(disk: seq<Sector>, sectors: seq<u32>, b: nat)
    requires b < 12 && |sectors| == 13 && |Listing(disk, sectors, 0, b)| == 21 * b && sectors[b] != 0
    requires |BlockEntries(disk, sectors[b])| < 21
    ensures !NeedsBlock(disk, sectors)
  {
    hide Listing, Live;
    forall h: nat | h < 12
      ensures !HoleFirst(disk, sectors, h)
    {
      ListingFull(disk, sectors, b);
      ListingFull(disk, sectors, h);
      BlockEntriesZero(disk);
    }
  }

  /** All twelve direct blocks are there and hold 21 entries each. */
  ghost predicate Crowded(disk: seq<Sector>, sb: SuperBlock, bits: seq<byte>, sectors: seq<u32>) {
    && |sectors| == 13
    && forall b :: 0 <= b < 12 ==> TakenBlock(disk, sb, bits, sectors[b]) && |BlockEntries(disk, sectors[b])| == 21
  }

  lemma CrowdedNoNeed(disk: seq<Sector>, sb: SuperBlock, bits: seq<byte>, sectors: seq<u32>)
    requires Crowded(disk, sb, bits, sectors)
    ensures !NeedsBlock(disk, sectors)
  {
    hide FreeBlocks;
    forall b: nat | b < 12
      ensures !HoleFirst(disk, sectors, b)
    {
      assert TakenBlock(disk, sb, bits, sectors[b]);
    }
  }

  /** The directory has a new table that lists one block, which holds just the entry `e`. */
  ghost predicate Spilled(sb: SuperBlock, d0: seq<Sector>, b0: seq<byte>, i0: DiskInode, d1: seq<Sector>, b1: seq<byte>,
        i1: DiskInode, e: Entry) {
    && |d1| == |d0| && |b1| == |b0| && |i0.sectors| == |i1.sectors| == 13
    && i1.no == i0.no && i1.size == U32(i0.size + 24) && i1.sectors == i0.sectors[12 := i1.sectors[12]]
    && var table, x := i1.sectors[12] as int, Addr(d1, i1.sectors, 12) as int;
    && BlockMirror(d1, sb, b1) && {table, x} <= UsableBlocks(sb, |d0|, b0) && table != x
    && FreeBlocks(sb, b1) == FreeBlocks(sb, b0) - {table, x}
    && (forall l :: 0 <= l < |d0| && !InBlockBitmap(sb, l) && l != table && l != x ==> d1[l] == d0[l])
    && EntriesBehind(d1, i1) == [e]
  }

  /** The end of `sync_dir_entry` behind twelve full blocks. `all_blocks` is 0 there whether the directory has a table or not, as
      none has been read: it gets a new one, which lists nothing but the block of the new entry. */
  method SyncBehind(part: Partition, dir: Inode, e: Entry) returns (ok: bool)
    requires part.Writable() && |dir.sectors| == 13 && OnDisk(part.sb, |part.disk|, part.Bits(), 2)
    requires Proper(e.name) && e.kind != FT_UNKNOWN
    modifies part`disk, part.blockBitmap.bits, dir`size, dir`sectors
    ensures ok <==> |UsableBlocks(part.sb, |old(part.disk)|, old(part.Bits()))| >= 2
    ensures ok ==> part.Writable()
    ensures ok ==> Spilled(part.sb, old(part.disk), old(part.Bits()), old(dir.Disk()), part.disk, part.Bits(), dir.Disk(), e)
  {
    hide *;
    ghost var sb, d0, b0, i0 := part.sb, part.disk, part.Bits(), dir.Disk();
    InodeDisk(dir);
    part.WritableFacts();
    OnDiskTwice(sb, |d0|, b0);
    var got := part.AllocBlock();
    if got.None? {
      return false;
    }
    var table := got.value;
    dir.sectors := dir.sectors[12 := table];
    ghost var d1, b1 := part.disk, part.Bits();
    OnDiskRest(sb, d0, b0, d1, b1, table);
    got := part.AllocBlock();
    if got.None? {
      return false;
    }
    var blockLba := got.value;
    ghost var d2 := part.disk;
    TwoTaken(sb, d0, b0, d1, b1, d2, part.Bits(), table, blockLba);
    part.WritableFacts();
    var allBlocks := [blockLba] + Copies<u32>(0, 127);
    TableOfOne(allBlocks, blockLba);
    part.disk := WriteSectors(part.disk, table, 1, WordsBytes(allBlocks));
    ghost var d3: seq<Sector> := d2[table := SectorOf(WordsBytes(allBlocks), 0)];
    assert part.disk == d3;
    part.disk := part.disk[blockLba := PutEntry(Copies<byte>(0, 512), 0, e)];
    dir.size := U32(dir.size + 24);
    InodeDisk(dir);
    SpillWritten(sb, d0, b0, i0, d2, part.Bits(), table, blockLba, allBlocks, e, part.disk, dir.Disk());
    part.StillWritable(d2);
    return true;
  }

  lemma OnDiskTwice(sb: SuperBlock, n: nat, bits: seq<byte>)
    requires OnDisk(sb, n, bits, 2)
    ensures UsableBlocks(sb, n, bits) == {} ==> FreeBlocks(sb, bits) == {}
    ensures |UsableBlocks(sb, n, bits)| == 1 ==> |FreeBlocks(sb, bits)| == 1
  {
    hide FreeBlocks;
    UsableAmong(sb, n, bits);
  }

  lemma OnDiskRest(sb: SuperBlock, d0: seq<Sector>, b0: seq<byte>, d1: seq<Sector>, b1: seq<byte>, x: u32)
    requires Grown(sb, d0, b0, d1, b1, {x as int})
    requires |UsableBlocks(sb, |d0|, b0)| == 1 ==> |FreeBlocks(sb, b0)| == 1
    requires |UsableBlocks(sb, |d1|, b1)| == |UsableBlocks(sb, |d1|, b0)| - 1
    ensures UsableBlocks(sb, |d1|, b1) == {} ==> FreeBlocks(sb, b1) == {}
  {
    hide FreeBlocks, BlockMirror;
    assert x as int in {x as int};
    assert |FreeBlocks(sb, b1)| == |FreeBlocks(sb, b0)| - 1;
  }

  lemma TwoTaken(sb: SuperBlock, d0: seq<Sector>, b0: seq<byte>, d1: seq<Sector>, b1: seq<byte>, d2: seq<Sector>,
        b2: seq<byte>, table: u32, x: u32)
    requires Grown(sb, d0, b0, d1, b1, {table as int}) && Grown(sb, d1, b1, d2, b2, {x as int}) && Geometry(sb, |d0|)
    ensures table != x && Grown(sb, d0, b0, d2, b2, {table as int, x as int})
    ensures 0 < table < |d2| && 0 < x < |d2|
    ensures !InBlockBitmap(sb, table) && !InBlockBitmap(sb, x)
  {
    hide BlockMirror, FreeBlock;
    assert table as int in {table as int} && x as int in {x as int};
  }

  /** A sector whose first word is `x` and whose other words are 0, as a table. */
  lemma TableOfOne(ws: seq<u32>, x: u32)
    requires ws == [x] + Copies<u32>(0, 127)
    ensures |WordsBytes(ws)| == 512 && forall j: nat :: j < 128 ==>
      TableEntry(SectorOf(WordsBytes(ws), 0), j) == if j == 0 then x else 0
  {
    hide WordsBytes, SectorOf;
    forall j: nat | j < 128
      ensures TableEntry(SectorOf(WordsBytes(ws), 0), j) == ws[j]
    {
      TableBytes(ws, j);
    }
  }

  lemma TableBytes(ws: seq<u32>, j: nat)
    requires |ws| == 128 && j < 128
    ensures |WordsBytes(ws)| == 512 && TableEntry(SectorOf(WordsBytes(ws), 0), j) == ws[j]
  {
    WordsBytesAt(ws, j);
    WordAtFrame(WordsBytes(ws), 4 * j, SectorOf(WordsBytes(ws), 0), 4 * j);
  }

  lemma SpillWritten(sb: SuperBlock, d0: seq<Sector>, b0: seq<byte>, i0: DiskInode, d2: seq<Sector>, b2: seq<byte>,
        table: u32, x: u32,
      ws: seq<u32>, e: Entry, d3: seq<Sector>, i1: DiskInode)
    requires Grown(sb, d0, b0, d2, b2, {table as int, x as int}) && table != x && |i0.sectors| == 13
    requires 0 < table < |d2| && 0 < x < |d2| && !InBlockBitmap(sb, table) && !InBlockBitmap(sb, x) && Geometry(sb, |d0|)
    requires ws == [x] + Copies<u32>(0, 127) && Proper(e.name) && e.kind != FT_UNKNOWN
    requires |d3| == |d2| && d3[table] == SectorOf(WordsBytes(ws), 0) && d3[x] == PutEntry(Copies<byte>(0, 512), 0, e)
    requires forall l :: 0 <= l < |d2| && l != table as int && l != x as int ==> d3[l] == d2[l]
    requires i1 == DiskInode(i0.no, U32(i0.size + 24), i0.sectors[12 := table])
    ensures Spilled(sb, d0, b0, i0, d3, b2, i1, e) && BlockMirror(d3, sb, b2) && |d3| == |d2|
  {
    hide *;
    TableOfOne(ws, x);
    NewSector(e);
    SpillAddr(d3, i1.sectors, SectorOf(WordsBytes(ws), 0), x);
    BlockEntriesAt(d3, x);
    OneBehind(d3, i1.sectors, e, 140);
    SpillMirror(sb, d0, b0, d2, b2, d3, table, x);
    SpillIntro(sb, d0, b0, i0, d3, b2, i1, e);
  }

  lemma SpillAddr(d: seq<Sector>, sectors: seq<u32>, table: Sector, x: u32)
    requires |sectors| == 13 && 0 < sectors[12] < |d| && d[sectors[12]] == table
    requires forall j: nat :: j < 128 ==> TableEntry(table, j) == if j == 0 then x else 0
    ensures forall b: nat :: 12 <= b < 140 ==> Addr(d, sectors, b) == if b == 12 then x else 0
  {
    hide TableEntry;
  }

  lemma {:induction false} OneBehind(d: seq<Sector>, sectors: seq<u32>, e: Entry, c: nat)
    requires 12 < c <= 140 && |sectors| == 13 && BlockEntries(d, Addr(d, sectors, 12)) == [e]
    requires forall b: nat :: 12 < b < c ==> Addr(d, sectors, b) == 0
    ensures LongListing(d, sectors, 12, c) == [e]
  {
    hide Addr, BlockEntries;
    BlockEntriesZero(d);
    if c > 13 {
      OneBehind(d, sectors, e, c - 1);
      assert LongListing(d, sectors, 12, c) == [e] + [];
    } else {
      assert LongListing(d, sectors, 12, 12) == [];
      assert LongListing(d, sectors, 12, 13) == [] + [e];
    }
  }

  lemma SpillMirror(sb: SuperBlock, d0: seq<Sector>, b0: seq<byte>, d2: seq<Sector>, b2: seq<byte>, d3: seq<Sector>,
        table: u32, x: u32)
    requires Grown(sb, d0, b0, d2, b2, {table as int, x as int}) && Geometry(sb, |d0|)
    requires table < |d2| && x < |d2| && !InBlockBitmap(sb, table) && !InBlockBitmap(sb, x)
    requires |d3| == |d2| && forall l :: 0 <= l < |d2| && l != table as int && l != x as int ==> d3[l] == d2[l]
    ensures |d2| == |d0| && |b2| == |b0| && BlockMirror(d3, sb, b2)
    ensures {table as int, x as int} <= UsableBlocks(sb, |d0|, b0)
    ensures FreeBlocks(sb, b2) == FreeBlocks(sb, b0) - {table as int, x as int}
    ensures forall l :: 0 <= l < |d0| && !InBlockBitmap(sb, l) && l != table as int && l != x as int ==> d3[l] == d0[l]
  {
    hide FreeBlocks, BlockMirror;
    MirrorFrame(sb, d2, b2, d3);
  }

  lemma SpillIntro(sb: SuperBlock, d0: seq<Sector>, b0: seq<byte>, i0: DiskInode, d1: seq<Sector>, b1: seq<byte>,
        i1: DiskInode, e: Entry)
    requires |d1| == |d0| && |b1| == |b0| && |i0.sectors| == |i1.sectors| == 13
    requires i1.no == i0.no && i1.size == U32(i0.size + 24) && i1.sectors == i0.sectors[12 := i1.sectors[12]]
    requires BlockMirror(d1, sb, b1)
    requires var table, x := i1.sectors[12] as int, Addr(d1, i1.sectors, 12) as int;
      && {table, x} <= UsableBlocks(sb, |d0|, b0) && table != x && FreeBlocks(sb, b1) == FreeBlocks(sb, b0) - {table, x}
      && (forall l :: 0 <= l < |d0| && !InBlockBitmap(sb, l) && l != table && l != x ==> d1[l] == d0[l])
    requires LongListing(d1, i1.sectors, 12, 140) == [e]
    ensures Spilled(sb, d0, b0, i0, d1, b1, i1, e)
  {
    hide FreeBlocks, UsableBlocks, BlockMirror, Addr, LongListing;
  }

  /** The entry behind 252 others. They stay and the new one is found, but what the directory had behind its direct blocks is no
      longer: nothing is lost exactly if it had no such entry. */
  lemma SpillLoses(sb: SuperBlock, d0: seq<Sector>, b0: seq<byte>, i0: DiskInode, d1: seq<Sector>, b1: seq<byte>,
        i1: DiskInode, e: Entry)
    requires Crowded(d0, sb, b0, i0.sectors) && Spilled(sb, d0, b0, i0, d1, b1, i1, e) && Geometry(sb, |d0|)
    ensures AllEntries(d0, i0) == Entries(d0, i0) + EntriesBehind(d0, i0)
    ensures AllEntries(d1, i1) == Entries(d0, i0) + [e] && |AllEntries(d1, i1)| == 253
    ensures AllEntries(d1, i1) == AllEntries(d0, i0) + [e] <==> EntriesBehind(d0, i0) == []
  {
    hide *;
    AllEntriesAre(d0, i0);
    AllEntriesAre(d1, i1);
    CrowdedKept(sb, d0, b0, i0, d1, b1, i1, e);
    SpilledBehind(sb, d0, b0, i0, d1, b1, i1, e);
    CrowdedCount(d0, sb, b0, i0, 12);
    if AllEntries(d1, i1) == AllEntries(d0, i0) + [e] {
      assert |AllEntries(d0, i0)| == 252;
    } else {
      assert EntriesBehind(d0, i0) == [] ==> Entries(d0, i0) + EntriesBehind(d0, i0) == Entries(d0, i0);
    }
  }

  lemma SpilledBehind(sb: SuperBlock, d0: seq<Sector>, b0: seq<byte>, i0: DiskInode, d1: seq<Sector>, b1: seq<byte>,
        i1: DiskInode, e: Entry)
    requires Spilled(sb, d0, b0, i0, d1, b1, i1, e)
    ensures EntriesBehind(d1, i1) == [e]
  {
    hide EntriesBehind, BlockMirror, UsableBlocks, FreeBlocks, Addr;
  }

  lemma {:induction false} CrowdedCount(disk: seq<Sector>, sb: SuperBlock, bits: seq<byte>, i: DiskInode, b: nat)
    requires Crowded(disk, sb, bits, i.sectors) && b <= 12
    ensures |Listing(disk, i.sectors, 0, b)| == 21 * b && (b == 12 ==> |Entries(disk, i)| == 252)
  {
    hide BlockEntries, TakenBlock;
    if b > 0 {
      CrowdedCount(disk, sb, bits, i, b - 1);
    }
  }

  lemma CrowdedKept(sb: SuperBlock, d0: seq<Sector>, b0: seq<byte>, i0: DiskInode, d1: seq<Sector>, b1: seq<byte>,
        i1: DiskInode, e: Entry)
    requires Crowded(d0, sb, b0, i0.sectors) && Spilled(sb, d0, b0, i0, d1, b1, i1, e) && Geometry(sb, |d0|)
    ensures Entries(d1, i1) == Entries(d0, i0)
  {
    hide FreeBlocks, BlockMirror, EntriesBehind, Addr, Live;
    forall b | 0 <= b < 12
      ensures BlockEntries(d1, i1.sectors[b]) == BlockEntries(d0, i0.sectors[b])
    {
      assert TakenBlock(d0, sb, b0, i0.sectors[b]);
    }
    ListingFrame(d0, i0.sectors, d1, i1.sectors, 0, 12);
  }

  datatype SyncResult = SyncHalted | Listed | Spill

  /** The block that `sync_dir_entry` is about to take, or the two, are on the disk. */
  ghost predicate SyncRoom(sb: SuperBlock, d: seq<Sector>, bits: seq<byte>, i: DiskInode) {
    && (NeedsBlock(d, i.sectors) && UsableBlocks(sb, |d|, bits) == {} ==> FreeBlocks(sb, bits) == {})
    && (Crowded(d, sb, bits, i.sectors) ==> OnDisk(sb, |d|, bits, 2))
  }

  /** `sync_dir_entry`: the entry goes to the first free slot or hole of the twelve direct blocks. Only if they are full it goes
      behind them. Without a free block the kernel stops. */
  method SyncDirEntry(part: Partition, dir: Inode, e: Entry, ghost parent: u32) returns (r: SyncResult)
    requires part.Writable() && SyncRoom(part.sb, part.disk, part.Bits(), dir.Disk())
    requires
      || Directory(part.disk, part.sb, part.Bits(), dir.Disk(), parent)
      || Crowded(part.disk, part.sb, part.Bits(), dir.sectors)
    requires FreshEntry(Entries(part.disk, dir.Disk()), e)
    modifies part`disk, part.blockBitmap.bits, dir`size, dir`sectors
    ensures
      var sb, d, b := part.sb, old(part.disk), old(part.Bits());
      var crowded, u := Crowded(d, sb, b, old(dir.sectors)), UsableBlocks(sb, |d|, b);
      && (r.Listed? <==> !crowded && (NeedsBlock(d, old(dir.sectors)) ==> u != {}))
      && (r.Spill? <==> crowded && |u| >= 2)
    ensures !r.SyncHalted? ==> part.Writable() && |dir.sectors| == 13 && |part.disk| == |old(part.disk)|
    ensures r.Listed? ==>
      Inserted(part.sb, old(part.disk), old(part.Bits()), old(dir.Disk()), part.disk, part.Bits(), dir.Disk(), parent, e)
    ensures r.Listed? ==> exists b: nat, j: nat :: Placed(old(part.disk), old(dir.sectors), part.disk, dir.sectors, e, b, j)
    ensures r.Spill? ==>
      Spilled(part.sb, old(part.disk), old(part.Bits()), old(dir.Disk()), part.disk, part.Bits(), dir.Disk(), e)
  {
    hide *;
    ghost var sb, d0, b0, i0 := part.sb, part.disk, part.Bits(), dir.Disk();
    part.WritableFacts();
    InodeDisk(dir);
    SyncFacts(d0, sb, b0, i0, parent);
    FreshFacts(Entries(d0, i0), e);
    var allBlocks := dir.sectors[..12];
    var blockIdx := 0;
    NextBlock(d0, i0.sectors, 0);
    while blockIdx < 12
      invariant 0 <= blockIdx <= 12 && part.disk == d0 && part.Bits() == b0 && part.Writable()
      invariant dir.no == i0.no && dir.size == i0.size && dir.sectors == i0.sectors
      invariant |Listing(d0, i0.sectors, 0, blockIdx)| == 21 * blockIdx
    {
      NextBlock(d0, i0.sectors, blockIdx);
      if allBlocks[blockIdx] == 0 {
        HoleNeedsBlock(d0, i0.sectors, blockIdx);
        var got := part.AllocBlock();
        if got.None? {
          return SyncHalted;
        }
        var blockLba := got.value;
        ghost var dx := part.disk;
        part.WritableFacts();
        HoleInserted(sb, d0, b0, i0, parent, blockIdx, e, dx, part.Bits(), blockLba);
        HolePlaced(sb, d0, b0, i0, parent, blockIdx, e, dx, part.Bits(), blockLba);
        dir.sectors := dir.sectors[blockIdx := blockLba];
        part.disk := part.disk[blockLba := PutEntry(Copies<byte>(0, 512), 0, e)];
        dir.size := U32(dir.size + 24);
        InodeDisk(dir);
        InsertedFacts(sb, d0, b0, i0, part.disk, part.Bits(), dir.Disk(), parent, e);
        part.StillWritable(dx);
        return Listed;
      }
      var filled, j := FillSlot(part.disk[allBlocks[blockIdx]], e);
      if filled.Some? {
        SlotNoNeed(d0, i0.sectors, blockIdx);
        part.disk := part.disk[allBlocks[blockIdx] := filled.value];
        dir.size := U32(dir.size + 24);
        InodeDisk(dir);
        SlotInserted(sb, d0, b0, i0, parent, blockIdx, j, e, d0[allBlocks[blockIdx]], dir.Disk());
        SlotPlaced(sb, d0, b0, i0, parent, blockIdx, j, e, d0[allBlocks[blockIdx]]);
        InsertedFacts(sb, d0, b0, i0, part.disk, part.Bits(), dir.Disk(), parent, e);
        part.StillWritable(d0);
        return Listed;
      }
      blockIdx := blockIdx + 1;
    }
    AllFull(d0, sb, b0, i0, parent);
    var ok := SyncBehind(part, dir, e);
    InodeDisk(dir);
    if !ok {
      return SyncHalted;
    }
    SpilledSizes(sb, d0, b0, i0, part.disk, part.Bits(), dir.Disk(), e);
    return Spill;
  }

  lemma SpilledSizes(sb: SuperBlock, d0: seq<Sector>, b0: seq<byte>, i0: DiskInode, d1: seq<Sector>, b1: seq<byte>,
        i1: DiskInode, e: Entry)
    requires Spilled(sb, d0, b0, i0, d1, b1, i1, e)
    ensures |d1| == |d0| && |i1.sectors| == 13
  {
    hide EntriesBehind, BlockMirror, UsableBlocks, FreeBlocks, Addr;
  }

  /** What the loop of `sync_dir_entry` relies on. */
  lemma SyncFacts(d: seq<Sector>, sb: SuperBlock, bits: seq<byte>, i: DiskInode, parent: u32)
    requires SyncRoom(sb, d, bits, i) && (Directory(d, sb, bits, i, parent) || Crowded(d, sb, bits, i.sectors))
    ensures |i.sectors| == 13
    ensures NeedsBlock(d, i.sectors) && UsableBlocks(sb, |d|, bits) == {} ==> FreeBlocks(sb, bits) == {}
    ensures forall b :: 0 <= b < 12 && i.sectors[b] != 0 ==>
      0 < i.sectors[b] < |d| && BlockEntries(d, i.sectors[b]) == Live(d[i.sectors[b]], 0, 21)
    ensures forall b :: 0 <= b < 12 && (i.sectors[b] == 0 || |BlockEntries(d, i.sectors[b])| < 21) ==>
      !Crowded(d, sb, bits, i.sectors)
    ensures Crowded(d, sb, bits, i.sectors) ==> !NeedsBlock(d, i.sectors)
    ensures !Crowded(d, sb, bits, i.sectors) ==> Directory(d, sb, bits, i, parent) && i.size + 24 < 0x1_0000_0000
  {
    hide Live, DeadSlotsZero, FreeBlocks, GoodEntries, Listing, HoleFirst;
    if Crowded(d, sb, bits, i.sectors) {
      CrowdedNoNeed(d, sb, bits, i.sectors);
    } else {
      DirFacts(d, sb, bits, i, parent);
      ListingFull(d, i.sectors, 12);
    }
  }

  lemma AllFull(d: seq<Sector>, sb: SuperBlock, bits: seq<byte>, i: DiskInode, parent: u32)
    requires SyncRoom(sb, d, bits, i) && (Directory(d, sb, bits, i, parent) || Crowded(d, sb, bits, i.sectors))
    requires |i.sectors| == 13 && |Listing(d, i.sectors, 0, 12)| == 252
    ensures Crowded(d, sb, bits, i.sectors) && OnDisk(sb, |d|, bits, 2)
  {
    hide Live, DeadSlotsZero, FreeBlocks, GoodEntries, Listing, NeedsBlock, OnDisk;
    ListingFull(d, i.sectors, 12);
    BlockEntriesZero(d);
  }

  lemma InsertedFacts(sb: SuperBlock, d0: seq<Sector>, b0: seq<byte>, i0: DiskInode,
      d1: seq<Sector>, b1: seq<byte>, i1: DiskInode, parent: u32, e: Entry)
    requires Inserted(sb, d0, b0, i0, d1, b1, i1, parent, e)
    ensures |d1| == |d0| && BlockMirror(d1, sb, b1)
  {
  }

  // ----- delete_dir_entry -----

  function ChildCount(l: seq<Entry>): nat {
    if l == [] then 0 else ChildCount(l[..|l| - 1]) + if IsChild(l[|l| - 1]) then 1 else 0
  }

  lemma {:induction false} ChildCountAll(l: seq<Entry>)
    ensures ChildCount(l) <= |l|
    ensures (forall k :: 0 <= k < |l| ==> IsChild(l[k])) ==> ChildCount(l) == |l|
    ensures forall k :: 0 <= k < |l| && IsChild(l[k]) ==> ChildCount(l) >= 1
  {
    if l != [] {
      ChildCountAll(l[..|l| - 1]);
    }
  }

  /** Slot `j` holds the child with inode number `no`. */
  ghost predicate ChildSlot(s: Sector, j: nat, no: u32)
    requires j < 21
  {
    EntryAt(s, j).kind != FT_UNKNOWN && IsChild(EntryAt(s, j)) && EntryAt(s, j).no == no
  }

  ghost predicate NoChild(l: seq<Entry>, no: u32) {
    forall k :: 0 <= k < |l| ==> !(IsChild(l[k]) && l[k].no == no)
  }

  lemma NoChildConcat(a: seq<Entry>, b: seq<Entry>, no: u32)
    ensures NoChild(a + b, no) <==> NoChild(a, no) && NoChild(b, no)
  {
    assert NoChild(a + b, no) ==> NoChild(a, no) by {
      assert forall k :: 0 <= k < |a| ==> (a + b)[k] == a[k];
    }
    assert NoChild(a + b, no) ==> NoChild(b, no) by {
      assert forall k :: 0 <= k < |b| ==> (a + b)[|a| + k] == b[k];
    }
  }

  lemma GoodParts(a: seq<Entry>, b: seq<Entry>)
    requires GoodEntries(a + b)
    ensures GoodEntries(a) && GoodEntries(b)
    ensures forall j, k :: 0 <= j < |a| && 0 <= k < |b| ==> Compatible(a[j], b[k])
  {
    hide Named, Compatible;
    assert forall k :: 0 <= k < |a| ==> (a + b)[k] == a[k];
    assert forall k :: 0 <= k < |b| ==> (a + b)[|a| + k] == b[k];
  }

  /** The entries of a block behind some others of which one is the child sought. */
  lemma OneChild(a: seq<Entry>, e: Entry, no: u32)
    requires GoodEntries(a + [e]) && !NoChild(a, no)
    ensures !(IsChild(e) && e.no == no)
  {
    GoodParts(a, [e]);
    var k :| 0 <= k < |a| && IsChild(a[k]) && a[k].no == no;
    assert Compatible(a[k], [e][0]);
  }

  /** The scan of one sector: the slot of the child sought (-1 if it is not here), the number of children, and whether
      the directory's own entry is here. The assertion that no second slot matches holds. */
  method ScanSector(s: Sector, no: u32) returns (found: int, dirEntryCnt: nat, isDirFirstBlock: bool)
    requires GoodEntries(Live(s, 0, 21))
    ensures -1 <= found < 21 && dirEntryCnt == ChildCount(Live(s, 0, 21))
    ensures found == -1 <==> NoChild(Live(s, 0, 21), no)
    ensures found != -1 ==> ChildSlot(s, found, no)
    ensures isDirFirstBlock <==> !NoMatch(Live(s, 0, 21), [0x2e])
  {
    hide EntryAt, GoodEntries, NoChild, NoMatch, StrEq, ChildSlot;
    found, dirEntryCnt, isDirFirstBlock := -1, 0, false;
    var dirEntryIdx := 0;
    NoMatchNothing([0x2e]);
    NoChildNothing(no);
    while dirEntryIdx < 21
      invariant 0 <= dirEntryIdx <= 21 && -1 <= found < 21
      invariant dirEntryCnt == ChildCount(Live(s, 0, dirEntryIdx))
      invariant found == -1 <==> NoChild(Live(s, 0, dirEntryIdx), no)
      invariant found != -1 ==> ChildSlot(s, found, no)
      invariant isDirFirstBlock <==> !NoMatch(Live(s, 0, dirEntryIdx), [0x2e])
    {
      var e := EntryAt(s, dirEntryIdx);
      ScanOne(s, dirEntryIdx, no);
      if e.kind != FT_UNKNOWN {
        if StrEq(e.name, [0x2e]) {
          isDirFirstBlock := true;
        } else if !StrEq(e.name, [0x2e]) && !StrEq(e.name, [0x2e, 0x2e]) {
          dirEntryCnt := dirEntryCnt + 1;
          if e.no == no {
            assert found == -1;
            found := dirEntryIdx;
          }
        }
      }
      dirEntryIdx := dirEntryIdx + 1;
    }
  }

  lemma NoChildNothing(no: u32)
    ensures NoChild([], no) && ChildCount([]) == 0
  {
  }

  /** One slot of the scan. */
  lemma ScanOne(s: Sector, j: nat, no: u32)
    requires j < 21 && GoodEntries(Live(s, 0, 21))
    ensures var l, m, e := Live(s, 0, j), Live(s, 0, j + 1), EntryAt(s, j);
      && (e.kind == FT_UNKNOWN ==> m == l)
      && (e.kind != FT_UNKNOWN ==>
        && (NoMatch(m, [0x2e]) <==> NoMatch(l, [0x2e]) && !StrEq(e.name, [0x2e]))
        && (NoChild(m, no) <==> NoChild(l, no) && !(IsChild(e) && e.no == no))
        && ChildCount(m) == ChildCount(l) + (if IsChild(e) then 1 else 0)
        && (IsChild(e) && e.no == no ==> NoChild(l, no) && ChildSlot(s, j, no)))
  {
    hide EntryAt, GoodEntries, NoChild, NoMatch, StrEq, IsChild;
    var l, m, e := Live(s, 0, j), Live(s, 0, j + 1), EntryAt(s, j);
    LiveSplit(s, 0, j + 1, 21);
    GoodParts(m, Live(s, j + 1, 21));
    NoMatchConcat(l, [e], [0x2e]);
    NoChildConcat(l, [e], no);
    NoMatchOne(e);
    NoChildOne(e, no);
    if e.kind != FT_UNKNOWN && !NoChild(l, no) {
      OneChild(l, e, no);
    }
  }

  lemma NoMatchOne(e: Entry)
    ensures NoMatch([e], [0x2e]) <==> !StrEq(e.name, [0x2e])
  {
    assert [e][0] == e;
  }

  lemma NoChildOne(e: Entry, no: u32)
    ensures NoChild([e], no) <==> !(IsChild(e) && e.no == no)
  {
    assert [e][0] == e;
  }

  /** The listing lost the child with inode number `no`. */
  ghost predicate ChildGone(l: seq<Entry>, m: seq<Entry>, no: u32) {
    exists k: nat, e :: k <= |m| && IsChild(e) && e.no == no && l == Insert(m, k, e)
  }

  /** In memory and in the directory's own blocks: the child is gone, with its block if it was alone there and the block
      was not the first. */
  ghost predicate Unlisted(sb: SuperBlock, d0: seq<Sector>, b0: seq<byte>, i0: DiskInode,
      d1: seq<Sector>, b1: seq<byte>, i1: DiskInode, parent: u32, no: u32)
  {
    && |d1| == |d0| && |b1| == |b0| && i1.no == i0.no && i0.size == i1.size + 24
    && ChildGone(Entries(d0, i0), Entries(d1, i1), no)
    && Directory(d1, sb, b1, i1, parent)
    && BlockMirror(d1, sb, b1)
    && DirOwned(i1.sectors) <= DirOwned(i0.sectors)
    && FreeBlocks(sb, b1) == FreeBlocks(sb, b0) + (DirOwned(i0.sectors) - DirOwned(i1.sectors))
  }

  /** As `Unlisted`, and the directory's window of the inode table has followed; nothing else changed. */
  ghost predicate Removed(sb: SuperBlock, d0: seq<Sector>, b0: seq<byte>, i0: DiskInode,
      d1: seq<Sector>, b1: seq<byte>, i1: DiskInode, parent: u32, no: u32)
    requires Geometry(sb, |d0|) && |d1| == |d0| && |i1.sectors| == 13 && i0.no < 4096
  {
    && Unlisted(sb, d0, b0, i0, d1, b1, i1, parent, no)
    && InodeWindow(d1, sb, i0.no) == EncodeInode(i1)
    && (forall other: nat :: other < 4096 && other != i0.no ==> InodeWindow(d1, sb, other) == InodeWindow(d0, sb, other))
    && (forall l :: 0 <= l < |d0| && !InBlockBitmap(sb, l) && !InInodeTable(sb, l) && l !in DirOwned(i0.sectors) ==>
      d1[l] == d0[l])
  }

  /** The child's slot is cleared in place. */
  lemma SlotRemoved(sb: SuperBlock, d: seq<Sector>, bits: seq<byte>, i: DiskInode, parent: u32, b: nat, j: nat, no: u32,
      s: Sector, i1: DiskInode)
    requires |i.sectors| == 13 && b < 12 && 0 < i.sectors[b] < |d| && d[i.sectors[b]] == s && j < 21 && ChildSlot(s, j, no)
    requires i1.no == i.no && i1.sectors == i.sectors && i1.size + 24 == i.size
    requires Geometry(sb, |d|) && BlockMirror(d, sb, bits) && Directory(d, sb, bits, i, parent)
    requires b > 0 ==> ChildCount(Live(s, 0, 21)) != 1
    ensures Unlisted(sb, d, bits, i, d[i.sectors[b] := PutEntry(s, j, ZERO_ENTRY)], bits, i1, parent, no)
  {
    hide *;
    var d1 := d[i.sectors[b] := PutEntry(s, j, ZERO_ENTRY)];
    var before, after, e := Live(s, 0, j), Live(s, j + 1, 21), EntryAt(s, j);
    DirectoryParts(d, sb, bits, i, parent);
    ChildSlotFacts(s, j, no);
    PutLive(s, j, ZERO_ENTRY);
    DeadSlotIsEmpty(s, j);
    assert before + [] + after == before + after;
    OtherLeft(before, e, after);
    SlotBehindDots(d, i, parent, b, j);
    OtherBlocks(d, sb, bits, i.sectors, b, PutEntry(s, j, ZERO_ENTRY));
    ShapePut(d, sb, bits, i, parent, b, j, ZERO_ENTRY);
    ShapeSize(d1, i, parent, i1);
    EntriesAre(d, i);
    EntriesAre(d1, i1);
    BlockEntriesAt(d, i.sectors[b]);
    BlockEntriesAt(d1, i.sectors[b]);
    ListingInsert(d1, i.sectors, d, i.sectors, b, before, after, e);
    GoodRemoved(Entries(d, i), Entries(d1, i1), e);
    BlockIndex(d, sb, bits, i, parent, b);
    MirrorFrame(sb, d, bits, d1) by { BeyondBitmap(sb, |d|, i.sectors[b]); }
    UnlistedIntro(sb, d, bits, i, d1, bits, i1, parent, no, e);
  }

  lemma DotsAreNoChildren(no: u32, parent: u32)
    ensures !IsChild(Entry(DOT, no, FT_DIRECTORY)) && !IsChild(Entry(DOT_DOT, parent, FT_DIRECTORY))
  {
  }

  lemma OtherLeft(before: seq<Entry>, e: Entry, after: seq<Entry>)
    requires IsChild(e)
    ensures ChildCount(before + [e] + after) != 1 ==> before + after != []
  {
    assert ChildCount([]) == 0;
    assert [e][..0] == [];
    assert ChildCount([e]) == 1;
    assert before + after == [] ==> before + [e] + after == [e];
  }

  lemma GoodRemoved(l: seq<Entry>, m: seq<Entry>, e: Entry)
    requires exists k: nat :: k <= |m| && l == Insert(m, k, e)
    requires GoodEntries(l)
    ensures |l| == |m| + 1 && GoodEntries(m)
  {
    var k: nat :| k <= |m| && l == Insert(m, k, e);
    GoodRemove(m, k, e);
  }

  /** Behind the first block there are only children. */
  lemma BehindFirst(d: seq<Sector>, sb: SuperBlock, bits: seq<byte>, i: DiskInode, parent: u32, b: nat)
    requires Directory(d, sb, bits, i, parent) && 1 <= b < 12
    ensures forall k :: 0 <= k < |BlockEntries(d, i.sectors[b])| ==> IsChild(BlockEntries(d, i.sectors[b])[k])
    ensures GoodEntries(BlockEntries(d, i.sectors[b]))
  {
    hide EntryAt, Live, Listing, DeadSlotsZero, TakenBlock, FreeBlocks, IsChild, GoodEntries, Compatible, Named;
    var s0 := d[i.sectors[0]];
    var l := BlockEntries(d, i.sectors[b]);
    FirstTwo(s0);
    NextBlock(d, i.sectors, 0);
    ListingSplit(d, i.sectors, 0, 1, b);
    ListingAround(d, i.sectors, b);
    var before := Listing(d, i.sectors, 0, b);
    assert before[0] == EntryAt(s0, 0) && before[1] == EntryAt(s0, 1);
    GoodParts(before + l, Listing(d, i.sectors, b + 1, 12));
    GoodParts(before, l);
    forall k | 0 <= k < |l|
      ensures IsChild(l[k])
    {
      GoodNamed(l, k);
      NotDots(i.no, parent, l[k]);
    }
  }

  lemma GoodNamed(l: seq<Entry>, k: nat)
    requires GoodEntries(l) && k < |l|
    ensures Named(l[k])
  {
  }

  lemma NotDots(no: u32, parent: u32, e: Entry)
    requires Named(e)
    requires Compatible(Entry(DOT, no, FT_DIRECTORY), e) && Compatible(Entry(DOT_DOT, parent, FT_DIRECTORY), e)
    ensures IsChild(e)
  {
    StrEqProper(e.name, [0x2e]);
    StrEqProper(e.name, [0x2e, 0x2e]);
  }

  /** The first block holds the directory's own entry. */
  lemma FirstHasDot(d: seq<Sector>, sb: SuperBlock, bits: seq<byte>, i: DiskInode, parent: u32)
    requires Directory(d, sb, bits, i, parent)
    ensures !NoMatch(BlockEntries(d, i.sectors[0]), [0x2e]) && GoodEntries(BlockEntries(d, i.sectors[0]))
  {
    hide EntryAt, Live, Listing, DeadSlotsZero, TakenBlock, FreeBlocks, GoodEntries;
    FirstTwo(d[i.sectors[0]]);
    assert StrEq(DOT, [0x2e]);
    NextBlock(d, i.sectors, 0);
    ListingSplit(d, i.sectors, 0, 1, 12);
    assert Listing(d, i.sectors, 0, 1) == BlockEntries(d, i.sectors[0]);
    GoodParts(Listing(d, i.sectors, 0, 1), Listing(d, i.sectors, 1, 12));
  }

  /** A directory without one of its later blocks. */
  lemma BlockDropped(sb: SuperBlock, d: seq<Sector>, bits: seq<byte>, i: DiskInode, parent: u32, b: nat,
      d1: seq<Sector>, b1: seq<byte>, i1: DiskInode)
    requires |i.sectors| == 13 && 1 <= b < 12 && i.sectors[b] != 0
    requires i1.no == i.no && i1.sectors == i.sectors[b := 0]
    requires Geometry(sb, |d|) && DirBlocks(d, sb, bits, i.sectors) && DirShape(d, i, parent)
    requires |d1| == |d| && |b1| == |bits|
    requires forall l :: 0 <= l < |d| && !InBlockBitmap(sb, l) ==> d1[l] == d[l]
    requires FreeBlocks(sb, b1) == FreeBlocks(sb, bits) + {i.sectors[b] as int}
    ensures DirBlocks(d1, sb, b1, i1.sectors) && DirShape(d1, i1, parent)
    ensures forall k :: 0 <= k < 12 && k != b ==> BlockEntries(d1, i1.sectors[k]) == BlockEntries(d, i.sectors[k])
  {
    hide EntryAt, Live, DeadSlotsZero, FreeBlocks;
    forall k | 0 <= k < 12 && i1.sectors[k] != 0
      ensures TakenBlock(d1, sb, b1, i1.sectors[k]) && d1[i1.sectors[k]] == d[i.sectors[k]]
    {
      assert TakenBlock(d, sb, bits, i.sectors[k]);
    }
  }

  /** The only entry of a block goes, and the block with it. */
  lemma BlockRecycled(sb: SuperBlock, d: seq<Sector>, bits: seq<byte>, i: DiskInode, parent: u32, b: nat, no: u32, e: Entry,
      d1: seq<Sector>, b1: seq<byte>, i1: DiskInode)
    requires |i.sectors| == 13 && 1 <= b < 12 && i.sectors[b] != 0
    requires i1.no == i.no && i1.sectors == i.sectors[b := 0] && i1.size + 24 == i.size
    requires Geometry(sb, |d|) && Directory(d, sb, bits, i, parent)
    requires BlockEntries(d, i.sectors[b]) == [e] && IsChild(e) && e.no == no
    requires |d1| == |d| && |b1| == |bits| && BlockMirror(d1, sb, b1)
    requires forall l :: 0 <= l < |d| && !InBlockBitmap(sb, l) ==> d1[l] == d[l]
    requires FreeBlocks(sb, b1) == FreeBlocks(sb, bits) + {i.sectors[b] as int}
    ensures Unlisted(sb, d, bits, i, d1, b1, i1, parent, no)
  {
    hide *;
    DirectoryParts(d, sb, bits, i, parent);
    BlockDistinct(d, sb, bits, i, parent);
    BlockDropped(sb, d, bits, i, parent, b, d1, b1, i1);
    BlockEntriesFacts(d1, sb, 0);
    EntriesAre(d, i);
    EntriesAre(d1, i1);
    ListingInsert(d1, i1.sectors, d, i.sectors, b, [], [], e);
    GoodRemoved(Entries(d, i), Entries(d1, i1), e);
    OwnedRemoved(i.sectors, b);
    UnlistedIntro(sb, d, bits, i, d1, b1, i1, parent, no, e);
  }

  lemma EntriesAre(d: seq<Sector>, i: DiskInode)
    requires |i.sectors| == 13
    ensures Entries(d, i) == Listing(d, i.sectors, 0, 12)
  {
  }

  lemma DirectoryParts(d: seq<Sector>, sb: SuperBlock, bits: seq<byte>, i: DiskInode, parent: u32)
    requires Directory(d, sb, bits, i, parent)
    ensures |i.sectors| == 13 && DirBlocks(d, sb, bits, i.sectors) && DirShape(d, i, parent)
    ensures GoodEntries(Entries(d, i)) && i.size == 24 * |Entries(d, i)|
  {
    hide DirBlocks, DirShape, GoodEntries, Entries;
  }

  lemma UnlistedIntro(sb: SuperBlock, d0: seq<Sector>, b0: seq<byte>, i0: DiskInode,
      d1: seq<Sector>, b1: seq<byte>, i1: DiskInode, parent: u32, no: u32, e: Entry)
    requires |d1| == |d0| && |b1| == |b0| && i1.no == i0.no && i0.size == i1.size + 24
    requires i0.size == 24 * |Entries(d0, i0)| && |Entries(d0, i0)| == |Entries(d1, i1)| + 1 && IsChild(e) && e.no == no
    requires exists k: nat :: k <= |Entries(d1, i1)| && Entries(d0, i0) == Insert(Entries(d1, i1), k, e)
    requires |i1.sectors| == 13 && DirBlocks(d1, sb, b1, i1.sectors) && DirShape(d1, i1, parent) && GoodEntries(Entries(d1, i1))
    requires BlockMirror(d1, sb, b1)
    requires DirOwned(i1.sectors) <= DirOwned(i0.sectors)
    requires FreeBlocks(sb, b1) == FreeBlocks(sb, b0) + (DirOwned(i0.sectors) - DirOwned(i1.sectors))
    ensures Unlisted(sb, d0, b0, i0, d1, b1, i1, parent, no)
  {
    hide Entries, DirOwned, FreeBlocks, DirBlocks, DirShape, GoodEntries, IsChild, BlockMirror, Insert;
  }

  lemma BlockDistinct(d: seq<Sector>, sb: SuperBlock, bits: seq<byte>, i: DiskInode, parent: u32)
    requires |i.sectors| == 13 && Directory(d, sb, bits, i, parent)
    ensures forall k, m :: 0 <= k < m < 12 && i.sectors[k] != 0 ==> i.sectors[k] != i.sectors[m]
    ensures DirOwned(i.sectors) !! FreeBlocks(sb, bits)
    ensures forall k :: 0 <= k < 12 && i.sectors[k] != 0 ==> i.sectors[k] as int in DirOwned(i.sectors)
  {
    hide FreeBlocks, Entries, GoodEntries, DirShape;
    OwnedTaken(d, sb, bits, i.sectors);
  }

  lemma OwnedRemoved(sectors: seq<u32>, b: nat)
    requires |sectors| == 13 && b < 12 && sectors[b] != 0
    requires forall k, m :: 0 <= k < m < 12 && sectors[k] != 0 ==> sectors[k] != sectors[m]
    ensures DirOwned(sectors[b := 0]) == DirOwned(sectors) - {sectors[b] as int}
  {
    OwnedUpdate(sectors[b := 0], b, sectors[b]);
    assert sectors[b := 0][b := sectors[b]] == sectors;
    assert forall k :: 0 <= k < 12 && k != b ==> sectors[b := 0][k] == sectors[k];
  }

  /** Blocks of a directory only count from the first data block on. */
  lemma DirectoryFrame(d: seq<Sector>, sb: SuperBlock, bits: seq<byte>, i: DiskInode, parent: u32, d1: seq<Sector>)
    requires Directory(d, sb, bits, i, parent) && |d1| == |d|
    requires forall x :: x in DirOwned(i.sectors) ==> 0 <= x < |d| && d1[x] == d[x]
    ensures Directory(d1, sb, bits, i, parent) && Entries(d1, i) == Entries(d, i)
  {
    hide EntryAt, Live, DeadSlotsZero, FreeBlocks, Listing, GoodEntries;
    forall b | 0 <= b < 12 && i.sectors[b] != 0
      ensures d1[i.sectors[b]] == d[i.sectors[b]] && TakenBlock(d1, sb, bits, i.sectors[b])
    {
      assert i.sectors[b] as int in DirOwned(i.sectors);
      assert TakenBlock(d, sb, bits, i.sectors[b]);
    }
    ListingFrame(d, i.sectors, d1, i.sectors, 0, 12);
  }

  /** A block that is neither the first nor shared holds just the child found in it. */
  lemma LonelyChild(s: Sector, j: nat, no: u32)
    requires j < 21 && ChildSlot(s, j, no) && ChildCount(Live(s, 0, 21)) == 1
    requires forall k :: 0 <= k < |Live(s, 0, 21)| ==> IsChild(Live(s, 0, 21)[k])
    ensures Live(s, 0, 21) == [EntryAt(s, j)]
  {
    hide EntryAt, Live, IsChild;
    LiveAround(s, j);
    ChildCountAll(Live(s, 0, 21));
  }

  lemma NoChildAround(d: seq<Sector>, sectors: seq<u32>, b: nat, no: u32)
    requires b < 12 <= |sectors|
    ensures NoChild(Listing(d, sectors, 0, 12), no) ==> NoChild(BlockEntries(d, sectors[b]), no)
    ensures NoChild(Listing(d, sectors, 0, b + 1), no)
      <==> NoChild(Listing(d, sectors, 0, b), no) && NoChild(BlockEntries(d, sectors[b]), no)
  {
    hide NoChild;
    var l, m, r := Listing(d, sectors, 0, b), BlockEntries(d, sectors[b]), Listing(d, sectors, b + 1, 12);
    ListingAround(d, sectors, b);
    NoChildConcat(l + m, r, no);
    NoChildConcat(l, m, no);
  }

  /** What the scan of block `b` has to know. */
  lemma BlockGood(d: seq<Sector>, sb: SuperBlock, bits: seq<byte>, i: DiskInode, parent: u32, b: nat)
    requires Directory(d, sb, bits, i, parent) && b < 12
    ensures GoodEntries(BlockEntries(d, i.sectors[b]))
    ensures b == 0 ==> !NoMatch(BlockEntries(d, i.sectors[b]), [0x2e])
    ensures b > 0 ==> forall k :: 0 <= k < |BlockEntries(d, i.sectors[b])| ==> IsChild(BlockEntries(d, i.sectors[b])[k])
    ensures b > 0 ==> NoMatch(BlockEntries(d, i.sectors[b]), [0x2e])
    ensures b > 0 ==> i.sectors[b] != sb.dataStartLba
  {
    hide EntryAt, Live, Listing, DeadSlotsZero, TakenBlock, FreeBlocks, GoodEntries, BlockEntries, DirShape;
    if b == 0 {
      FirstHasDot(d, sb, bits, i, parent);
    } else {
      BehindFirst(d, sb, bits, i, parent, b);
    }
  }

  /** The bitmap index of a block a directory may give back. */
  lemma BlockIndex(d: seq<Sector>, sb: SuperBlock, bits: seq<byte>, i: DiskInode, parent: u32, b: nat)
    requires Directory(d, sb, bits, i, parent) && b < 12 && i.sectors[b] != 0
    ensures sb.dataStartLba <= i.sectors[b] < |d| && i.sectors[b] <= PartEnd(sb) && i.sectors[b] - sb.dataStartLba < 8 * |bits|
    ensures i.sectors[b] as int in DirOwned(i.sectors)
  {
    assert TakenBlock(d, sb, bits, i.sectors[b]);
  }

  lemma OwnedFacts(d: seq<Sector>, sb: SuperBlock, bits: seq<byte>, i: DiskInode, parent: u32)
    requires Directory(d, sb, bits, i, parent)
    ensures DirOwned(i.sectors) !! FreeBlocks(sb, bits)
    ensures forall x :: x in DirOwned(i.sectors) ==> sb.dataStartLba <= x < |d| && x <= PartEnd(sb)
  {
    hide Entries, GoodEntries, DirShape, FreeBlocks;
    OwnedTaken(d, sb, bits, i.sectors);
  }

  lemma UnlistedFacts(sb: SuperBlock, d0: seq<Sector>, b0: seq<byte>, i0: DiskInode,
      d1: seq<Sector>, b1: seq<byte>, i1: DiskInode, parent: u32, no: u32)
    requires Unlisted(sb, d0, b0, i0, d1, b1, i1, parent, no)
    ensures |d1| == |d0| && BlockMirror(d1, sb, b1)
  {
  }

  /** A bit cleared and its sector written. */
  lemma RecycledBits(sb: SuperBlock, d: seq<Sector>, b0: seq<byte>, b1: seq<byte>, x: u32)
    requires Geometry(sb, |d|) && BlockMirror(d, sb, b0) && FreeWithin(sb, b0)
    requires sb.dataStartLba <= x < |d| && x <= PartEnd(sb) && BitUpdated(b0, b1, x - sb.dataStartLba, false)
    ensures |b1| == |b0| && x - sb.dataStartLba < 4096 * sb.blockBitmapSects
    ensures var k := (x - sb.dataStartLba) / 4096;
      var d1 := d[sb.blockBitmapLba + k := SectorOf(b1, k)];
      && |d1| == |d| && BlockMirror(d1, sb, b1) && FreeWithin(sb, b1)
      && (forall l :: 0 <= l < |d| && !InBlockBitmap(sb, l) ==> d1[l] == d[l])
    ensures FreeBlocks(sb, b1) == FreeBlocks(sb, b0) + {x as int}
  {
    var idx := x - sb.dataStartLba;
    SyncMirrors(d, sb, b0, b1, idx, false);
    FreeBlocksUpdated(sb, b0, b1, idx, false);
  }

  lemma UnlistedSynced(sb: SuperBlock, d0: seq<Sector>, b0: seq<byte>, i0: DiskInode,
      d1: seq<Sector>, b1: seq<byte>, i1: DiskInode, d2: seq<Sector>, parent: u32, no: u32)
    requires Geometry(sb, |d0|) && |d1| == |d0| && |i0.sectors| == 13 && |i1.sectors| == 13 && i0.no < 4096
    requires DirOwned(i0.sectors) !! FreeBlocks(sb, b0)
    requires (forall x :: x in DirOwned(i0.sectors) ==> sb.dataStartLba <= x < |d0|)
    requires Unlisted(sb, d0, b0, i0, d1, b1, i1, parent, no)
    requires forall l :: 0 <= l < |d0| && !InBlockBitmap(sb, l) && l !in DirOwned(i0.sectors) ==> d1[l] == d0[l]
    requires WindowWritten(d1, d2, sb, i0.no, EncodeInode(i1))
    ensures |d2| == |d0| && BlockMirror(d2, sb, b1) && Removed(sb, d0, b0, i0, d2, b1, i1, parent, no)
  {
    hide Directory, Entries, InodeWindow, EncodeInode, FreeBlocks, DirOwned, ChildGone, BlockMirror;
    DirectoryFrame(d1, sb, b1, i1, parent, d2);
    MirrorFrame(sb, d1, b1, d2);
    forall other: nat | other < 4096
      ensures InodeWindow(d1, sb, other) == InodeWindow(d0, sb, other)
    {
      WindowFrame(sb, d0, d1, other);
    }
  }

  /** `delete_dir_entry`. Its assertions hold: no second child has the number, the scan counts at least one child where
      it finds one, and a block given back is not the first data block. */
  method DeleteDirEntry(part: Partition, dir: Inode, inodeNo: u32, ghost parent: u32) returns (ok: bool)
    requires part.Writable() && dir.no < 4096
    requires Directory(part.disk, part.sb, part.Bits(), dir.Disk(), parent)
    modifies part`disk, part.blockBitmap.bits, dir`size, dir`sectors
    ensures part.Writable() && |dir.sectors| == 13 && |part.disk| == |old(part.disk)|
    ensures ok <==> !NoChild(old(Entries(part.disk, dir.Disk())), inodeNo)
    ensures ok ==> Removed(part.sb, old(part.disk), old(part.Bits()), old(dir.Disk()),
      part.disk, part.Bits(), dir.Disk(), parent, inodeNo)
    ensures !ok ==> part.disk == old(part.disk) && part.Bits() == old(part.Bits()) && dir.Disk() == old(dir.Disk())
  {
    hide *;
    ghost var sb, d0, b0, i0 := part.sb, part.disk, part.Bits(), dir.Disk();
    part.WritableFacts();
    InodeDisk(dir);
    DirectoryParts(d0, sb, b0, i0, parent);
    DirFacts(d0, sb, b0, i0, parent);
    OwnedFacts(d0, sb, b0, i0, parent);
    var allBlocks := dir.sectors[..12] + Copies<u32>(0, 128);
    var blockIdx := 0;
    NextBlock(d0, i0.sectors, 0);
    NoChildNothing(inodeNo);
    while blockIdx < 140
      invariant 0 <= blockIdx <= 140 && part.disk == d0 && part.Bits() == b0 && part.Writable()
      invariant dir.no == i0.no && dir.size == i0.size && dir.sectors == i0.sectors
      invariant NoChild(Listing(d0, i0.sectors, 0, if blockIdx < 12 then blockIdx else 12), inodeNo)
    {
      if blockIdx < 12 {
        BlockEntriesFacts(d0, sb, i0.sectors[blockIdx]);
        NoChildAround(d0, i0.sectors, blockIdx, inodeNo);
      }
      if allBlocks[blockIdx] == 0 {
        blockIdx := blockIdx + 1;
        continue;
      }
      var ioBuf := part.disk[allBlocks[blockIdx]];
      BlockGood(d0, sb, b0, i0, parent, blockIdx);
      var found, dirEntryCnt, isDirFirstBlock := ScanSector(ioBuf, inodeNo);
      if found == -1 {
        blockIdx := blockIdx + 1;
        continue;
      }
      BlockIndex(d0, sb, b0, i0, parent, blockIdx);
      var size := U32(dir.size - 24);
      CountFound(ioBuf, found, inodeNo);
      assert dirEntryCnt >= 1;
      if dirEntryCnt == 1 && !isDirFirstBlock {
        LonelyChild(ioBuf, found, inodeNo);
        ChildSlotFacts(ioBuf, found, inodeNo);
        var blockBitmapIdx := allBlocks[blockIdx] - part.sb.dataStartLba;
        assert blockBitmapIdx >= 1;
        part.BitsFacts();
        part.blockBitmap.Set(blockBitmapIdx, false);
        part.BitsFacts();
        RecycledBits(sb, d0, b0, part.Bits(), allBlocks[blockIdx]);
        part.BitmapSync(blockBitmapIdx, BLOCK_BITMAP);
        dir.sectors := dir.sectors[blockIdx := 0];
        dir.size := size;
        InodeDisk(dir);
        BlockRecycled(sb, d0, b0, i0, parent, blockIdx, inodeNo, EntryAt(ioBuf, found), part.disk, part.Bits(), dir.Disk());
      } else {
        part.disk := part.disk[allBlocks[blockIdx] := PutEntry(ioBuf, found, ZERO_ENTRY)];
        dir.size := size;
        InodeDisk(dir);
        SlotRemoved(sb, d0, b0, i0, parent, blockIdx, found, inodeNo, ioBuf, dir.Disk());
      }
      ghost var d1, b1 := part.disk, part.Bits();
      UnlistedFacts(sb, d0, b0, i0, d1, b1, dir.Disk(), parent, inodeNo);
      part.StillWritable(d1);
      InodeSync(part, dir);
      InodeDisk(dir);
      UnlistedSynced(sb, d0, b0, i0, d1, b1, dir.Disk(), part.disk, parent, inodeNo);
      part.StillWritable(d1);
      return true;
    }
    return false;
  }

  lemma CountFound(s: Sector, j: nat, no: u32)
    requires j < 21 && ChildSlot(s, j, no)
    ensures ChildCount(Live(s, 0, 21)) >= 1
  {
    hide EntryAt, Live, IsChild;
    LiveAround(s, j);
    ChildCountAll(Live(s, 0, 21));
    assert Live(s, 0, 21)[|Live(s, 0, j)|] == EntryAt(s, j);
  }

  lemma ChildSlotFacts(s: Sector, j: nat, no: u32)
    requires j < 21 && ChildSlot(s, j, no)
    ensures EntryAt(s, j).kind != FT_UNKNOWN && IsChild(EntryAt(s, j)) && EntryAt(s, j).no == no
  {
  }

  // ----- dir_read and dir_is_empty -----

  /** The scan of one sector by `dir_read`: `cur` advances over the entries returned by earlier calls, and the entry at
      `pos` is returned. The assertion that the two then agree holds because both are multiples of 24. */
  method ReadSlot(s: Sector, cur0: nat, pos: nat, ghost k: nat) returns (r: Option<Entry>, cur: nat)
    requires pos == cur0 + 24 * k
    ensures r.None? <==> |Live(s, 0, 21)| <= k
    ensures r.None? ==> cur == cur0 + 24 * |Live(s, 0, 21)|
    ensures r.Some? ==> r.value == Live(s, 0, 21)[k]
  {
    hide EntryAt;
    var dirEntryIdx := 0;
    cur := cur0;
    while dirEntryIdx < 21
      invariant 0 <= dirEntryIdx <= 21 && |Live(s, 0, dirEntryIdx)| <= k
      invariant cur == cur0 + 24 * |Live(s, 0, dirEntryIdx)|
    {
      if EntryAt(s, dirEntryIdx).kind != FT_UNKNOWN {
        if cur < pos {
          cur := cur + 24;
          dirEntryIdx := dirEntryIdx + 1;
          continue;
        }
        assert cur == pos;
        LiveAround(s, dirEntryIdx);
        return Some(EntryAt(s, dirEntryIdx)), cur;
      }
      dirEntryIdx := dirEntryIdx + 1;
    }
    return None, cur;
  }

  /** Entry `k` of the listing lies in block `b`. */
  lemma EntryInBlock(d: seq<Sector>, sectors: seq<u32>, b: nat, k: nat)
    requires b < 12 <= |sectors|
    requires |Listing(d, sectors, 0, b)| <= k < |Listing(d, sectors, 0, b)| + |BlockEntries(d, sectors[b])|
    ensures k < |Listing(d, sectors, 0, 12)|
    ensures Listing(d, sectors, 0, 12)[k] == BlockEntries(d, sectors[b])[k - |Listing(d, sectors, 0, b)|]
  {
    ListingAround(d, sectors, b);
  }

  /** `dir_read` at the position behind `k` entries returns the next one, across dead slots and missing blocks. Its loop
      never runs past the direct blocks, because the size counts the live slots. */
  method DirRead(part: Partition, dir: Dir, ghost parent: u32, ghost k: nat) returns (r: Option<Entry>)
    requires Directory(part.disk, part.sb, part.Bits(), dir.inode.Disk(), parent)
    requires dir.pos == 24 * k && k <= |Entries(part.disk, dir.inode.Disk())|
    modifies dir`pos
    ensures r.Some? <==> k < |Entries(part.disk, dir.inode.Disk())|
    ensures r.Some? ==> r.value == Entries(part.disk, dir.inode.Disk())[k] && dir.pos == 24 * (k + 1)
    ensures r.None? ==> dir.pos == old(dir.pos)
  {
    hide *;
    var inode := dir.inode;
    ghost var i := inode.Disk();
    InodeDisk(inode);
    DirectoryParts(part.disk, part.sb, part.Bits(), i, parent);
    DirFacts(part.disk, part.sb, part.Bits(), i, parent);
    var allBlocks := inode.sectors[..12] + Copies<u32>(0, 128);
    var blockIdx, cur := 0, 0;
    NextBlock(part.disk, i.sectors, 0);
    while dir.pos < inode.size
      invariant blockIdx <= 12 && dir.pos == 24 * k
      invariant cur == 24 * |Listing(part.disk, i.sectors, 0, blockIdx)| && |Listing(part.disk, i.sectors, 0, blockIdx)| <= k
      decreases 12 - blockIdx
    {
      NextBlock(part.disk, i.sectors, blockIdx);
      BlockEntriesFacts(part.disk, part.sb, i.sectors[blockIdx]);
      if allBlocks[blockIdx] == 0 {
        blockIdx := blockIdx + 1;
        continue;
      }
      var found, cur1 := ReadSlot(part.disk[allBlocks[blockIdx]], cur, dir.pos, k - |Listing(part.disk, i.sectors, 0, blockIdx)|);
      cur := cur1;
      if found.Some? {
        EntryInBlock(part.disk, i.sectors, blockIdx, k);
        dir.pos := dir.pos + 24;
        return found;
      }
      blockIdx := blockIdx + 1;
    }
    return None;
  }

  /** The loop of `ls`: rewind, then read until there is nothing more. Every entry comes exactly once. */
  method ListDirectory(part: Partition, dir: Dir, ghost parent: u32) returns (l: seq<Entry>)
    requires Directory(part.disk, part.sb, part.Bits(), dir.inode.Disk(), parent)
    modifies dir`pos
    ensures l == Entries(part.disk, dir.inode.Disk())
  {
    hide *;
    dir.pos := 0;
    l := [];
    ghost var all := Entries(part.disk, dir.inode.Disk());
    var e := DirRead(part, dir, parent, 0);
    while e.Some?
      invariant |l| <= |all| && l == all[..|l|]
      invariant e.Some? ==> |l| < |all| && e.value == all[|l|] && dir.pos == 24 * (|l| + 1)
      invariant e.None? ==> |l| == |all|
      decreases |all| - |l|, e.Some?
    {
      l := l + [e.value];
      e := DirRead(part, dir, parent, |l|);
    }
  }

  /** `dir_is_empty` is exact: the size says that only the directory's own two entries are live. */
  method DirIsEmpty(part: Partition, dir: Inode, ghost parent: u32) returns (r: bool)
    requires Directory(part.disk, part.sb, part.Bits(), dir.Disk(), parent)
    ensures r <==> Entries(part.disk, dir.Disk()) == [Entry(DOT, dir.no, FT_DIRECTORY), Entry(DOT_DOT, parent, FT_DIRECTORY)]
  {
    r := dir.size == 24 * 2;
    FirstEntries(part.disk, part.sb, part.Bits(), dir.Disk(), parent);
  }

  lemma FirstEntries(d: seq<Sector>, sb: SuperBlock, bits: seq<byte>, i: DiskInode, parent: u32)
    requires Directory(d, sb, bits, i, parent)
    ensures |Entries(d, i)| >= 2
    ensures Entries(d, i)[..2] == [Entry(DOT, i.no, FT_DIRECTORY), Entry(DOT_DOT, parent, FT_DIRECTORY)]
    ensures |BlockEntries(d, i.sectors[0])| >= 2
  {
    hide EntryAt, Live, Listing, DeadSlotsZero, GoodEntries, FreeBlocks;
    FirstTwo(d[i.sectors[0]]);
    ListingAround(d, i.sectors, 0);
    NextBlock(d, i.sectors, 0);
  }

  /** What `dir_remove` asserts of an empty directory: it has no block but its first. */
  lemma EmptyDirectoryBlocks(d: seq<Sector>, sb: SuperBlock, bits: seq<byte>, i: DiskInode, parent: u32)
    requires Directory(d, sb, bits, i, parent) && i.size == 24 * 2
    ensures |i.sectors| == 13 && forall b :: 1 <= b <= 12 ==> i.sectors[b] == 0
  {
    hide *;
    DirectoryParts(d, sb, bits, i, parent);
    DirFacts(d, sb, bits, i, parent);
    forall b | 1 <= b < 12
      ensures i.sectors[b] == 0
    {
      LaterBlock(d, sb, bits, i, parent, b);
    }
  }

  lemma LaterBlock(d: seq<Sector>, sb: SuperBlock, bits: seq<byte>, i: DiskInode, parent: u32, b: nat)
    requires Directory(d, sb, bits, i, parent) && 1 <= b < 12
    ensures i.sectors[b] != 0 ==> i.size > 24 * 2
  {
    hide EntryAt, Live, Listing, DeadSlotsZero, GoodEntries, FreeBlocks;
    FirstEntries(d, sb, bits, i, parent);
    ListingAround(d, i.sectors, b);
    ListingSplit(d, i.sectors, 0, 1, b);
    NextBlock(d, i.sectors, 0);
    assert i.sectors[b] != 0 ==> TakenBlock(d, sb, bits, i.sectors[b]);
  }

  // ----- a directory as a finite map -----

  /** From names to inode numbers and file types. */
  function Bindings(l: seq<Entry>): map<Name, (u32, u32)> {
    if l == [] then map[] else
      var last := l[|l| - 1];
      Bindings(l[..|l| - 1])[last.name := (last.no, last.kind)]
  }

  lemma {:induction false} BindingsOf(l: seq<Entry>)
    requires GoodEntries(l)
    ensures forall k :: 0 <= k < |l| ==> l[k].name in Bindings(l) && Bindings(l)[l[k].name] == (l[k].no, l[k].kind)
    ensures forall n :: n in Bindings(l) ==> exists k :: 0 <= k < |l| && l[k].name == n
  {
    hide Named, IsChild;
    if l != [] {
      var last := |l| - 1;
      BindingsOf(l[..last]);
      forall k | 0 <= k < last
        ensures l[k].name != l[last].name && l[..last][k] == l[k]
      {
        assert Compatible(l[k], l[last]);
      }
    }
  }

  lemma {:induction false} BindingsConcat(a: seq<Entry>, b: seq<Entry>)
    ensures Bindings(a + b) == Bindings(a) + Bindings(b)
  {
    if b == [] {
      assert a + b == a;
    } else {
      var last := |b| - 1;
      BindingsConcat(a, b[..last]);
      assert (a + b)[..|a + b| - 1] == a + b[..last];
    }
  }

  lemma {:induction false} NotBound(l: seq<Entry>, n: Name)
    requires forall a :: 0 <= a < |l| ==> l[a].name != n
    ensures n !in Bindings(l)
  {
    if l != [] {
      NotBound(l[..|l| - 1], n);
    }
  }

  lemma MapInsert<K, V>(a: map<K, V>, b: map<K, V>, k: K, v: V)
    requires k !in b
    ensures a[k := v] + b == (a + b)[k := v]
  {
  }

  lemma BindingsOne(l: seq<Entry>, e: Entry)
    ensures Bindings(l + [e]) == Bindings(l)[e.name := (e.no, e.kind)]
  {
    assert (l + [e])[..|l + [e]| - 1] == l;
  }

  /** An entry more in the listing is a binding more; an entry less, a binding less. */
  lemma BindingsInsert(l: seq<Entry>, k: nat, e: Entry)
    requires k <= |l| && GoodEntries(Insert(l, k, e))
    ensures e.name !in Bindings(l)
    ensures Bindings(Insert(l, k, e)) == Bindings(l)[e.name := (e.no, e.kind)]
  {
    hide *;
    InsertedApart(l, k, e);
    InsertIs(l, k, e);
    NotBound(l, e.name);
    NotBound(l[k..], e.name);
    assert l[..k] + l[k..] == l;
    BindingsConcat(l[..k], l[k..]);
    BindingsOne(l[..k], e);
    BindingsConcat(l[..k] + [e], l[k..]);
    MapInsert(Bindings(l[..k]), Bindings(l[k..]), e.name, (e.no, e.kind));
  }

  lemma InsertIs(l: seq<Entry>, k: nat, e: Entry)
    requires k <= |l|
    ensures Insert(l, k, e) == l[..k] + [e] + l[k..]
    ensures forall a :: 0 <= a < |l[k..]| ==> l[k..][a] == l[k + a]
  {
  }

  lemma InsertedApart(l: seq<Entry>, k: nat, e: Entry)
    requires k <= |l| && GoodEntries(Insert(l, k, e))
    ensures forall a :: 0 <= a < |l| ==> l[a].name != e.name
  {
    hide Named;
    var m := Insert(l, k, e);
    forall a | 0 <= a < |l|
      ensures l[a].name != e.name
    {
      if a < k {
        assert Compatible(m[a], m[k]);
      } else {
        assert Compatible(m[k], m[a + 1]);
      }
    }
  }

  /** What `search_dir_entry` finds is what the map binds. */
  lemma LookupIsBinding(l: seq<Entry>, name: seq<byte>, r: Option<Entry>)
    requires GoodEntries(l) && NoZero(name) && |name| <= 15
    requires r.Some? ==> r.value in l && StrEq(r.value.name, name)
    requires r.None? ==> NoMatch(l, name)
    ensures r.Some? <==> Pad(name) in Bindings(l)
    ensures r.Some? ==> Bindings(l)[Pad(name)] == (r.value.no, r.value.kind)
  {
    hide Bindings, StrEq, Pad;
    BindingsOf(l);
    if r.Some? {
      var k :| 0 <= k < |l| && l[k] == r.value;
      StrEqProper(l[k].name, name);
    } else {
      forall k | 0 <= k < |l|
        ensures l[k].name != Pad(name)
      {
        StrEqProper(l[k].name, name);
      }
    }
  }

  /** `sync_dir_entry` adds one binding. */
  lemma InsertedBinding(sb: SuperBlock, d0: seq<Sector>, b0: seq<byte>, i0: DiskInode,
      d1: seq<Sector>, b1: seq<byte>, i1: DiskInode, parent: u32, e: Entry)
    requires GoodEntries(Entries(d0, i0)) && Inserted(sb, d0, b0, i0, d1, b1, i1, parent, e)
    ensures e.name !in Bindings(Entries(d0, i0))
    ensures Bindings(Entries(d1, i1)) == Bindings(Entries(d0, i0))[e.name := (e.no, e.kind)]
  {
    hide Entries, GoodEntries, Bindings, Insert, DirBlocks, DirShape, BlockMirror, FreeBlocks, DirOwned;
    var k: nat :| k <= |Entries(d0, i0)| && Entries(d1, i1) == Insert(Entries(d0, i0), k, e);
    BindingsInsert(Entries(d0, i0), k, e);
  }

  /** `delete_dir_entry` removes one binding, that of the child with the given number. */
  lemma UnlistedBinding(sb: SuperBlock, d0: seq<Sector>, b0: seq<byte>, i0: DiskInode,
      d1: seq<Sector>, b1: seq<byte>, i1: DiskInode, parent: u32, no: u32)
    requires GoodEntries(Entries(d0, i0)) && Unlisted(sb, d0, b0, i0, d1, b1, i1, parent, no)
    ensures var before, after := Bindings(Entries(d0, i0)), Bindings(Entries(d1, i1));
      exists n :: n in before && before[n].0 == no && after == before - {n}
  {
    hide Entries, GoodEntries, Bindings, Insert, DirBlocks, DirShape, BlockMirror, FreeBlocks, DirOwned, IsChild;
    var k: nat, e :| k <= |Entries(d1, i1)| && IsChild(e) && e.no == no && Entries(d0, i0) == Insert(Entries(d1, i1), k, e);
    BindingsInsert(Entries(d1, i1), k, e);
    assert Bindings(Entries(d1, i1)) == Bindings(Entries(d0, i0)) - {e.name};
  }
}
