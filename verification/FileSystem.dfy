/** The whole file system: every inode in use, the tree the directories form, and who owns which block. Creating, appending,
    mkdir, unlink and rmdir keep the invariant `FsOk`, whose parts only speak of the disk and the two bitmaps. */
module FileSystems {
  import opened Bytes
  import opened Wrappers
  import opened Bitmaps
  import opened Disks
  import opened InodeTables
  import opened Partitions
  import opened Files
  import opened DirEntries
  import opened Dirs

  /** The disk and the bitmaps in memory. */
  datatype Fs = Fs(disk: seq<Sector>, bits: seq<byte>, ibits: seq<byte>)

  /** For every inode in use its type, the directory that lists it and its depth; for every block in use its owner. */
  datatype Tree = Tree(kind: map<nat, u32>, parent: map<nat, u32>, depth: map<nat, nat>, owner: map<int, nat>)

  /** Inode `no` as a fresh read finds it. */
  ghost function At(sb: SuperBlock, s: Fs, no: nat): DiskInode {
    if Geometry(sb, |s.disk|) && no < 4096 then InodeAt(s.disk, sb, no) else DiskInode(0, 0, [])
  }

  /** The blocks an inode leads to: those of its direct slots, its indirect table, and those the table lists. */
  ghost function Reach(disk: seq<Sector>, i: DiskInode): set<int> {
    if |i.sectors| != 13 then {} else
      (set b | 0 <= b < 140 && Addr(disk, i.sectors, b) != 0 :: Addr(disk, i.sectors, b) as int)
      + if i.sectors[12] == 0 then {} else {i.sectors[12] as int}
  }

  lemma ReachDirectory(disk: seq<Sector>, i: DiskInode)
    requires |i.sectors| == 13 && i.sectors[12] == 0
    ensures Reach(disk, i) == DirOwned(i.sectors)
  {
    assert forall b :: 12 <= b < 140 ==> Addr(disk, i.sectors, b) == 0;
    forall x | x in DirOwned(i.sectors)
      ensures x in Reach(disk, i)
    {
      var b :| 0 <= b < 12 && i.sectors[b] != 0 && x == i.sectors[b] as int;
      assert Addr(disk, i.sectors, b) == i.sectors[b];
    }
  }

  lemma ReachFile(disk: seq<Sector>, sb: SuperBlock, bits: seq<byte>, i: DiskInode)
    requires RegularFile(disk, sb, bits, i)
    ensures Reach(disk, i) == FileBlocks(disk, i)
    ensures forall x :: x in Reach(disk, i) ==> sb.dataStartLba <= x < |disk| && x !in FreeBlocks(sb, bits)
    ensures forall x :: x in Reach(disk, i) ==> x < sb.dataStartLba + 8 * |bits| && x <= PartEnd(sb)
  {
    var a := Addrs(disk, i.sectors, BlockCount(i));
    MapsAddrs(disk, sb, bits, i.sectors, a);
    assert forall b :: 0 <= b < |a| ==> TakenBlock(disk, sb, bits, a[b]);
    forall x | x in FileBlocks(disk, i)
      ensures x in Reach(disk, i)
    {
      if x in (set y | y in a) {
        var b :| 0 <= b < |a| && a[b] as int == x;
        assert Addr(disk, i.sectors, b) == a[b] != 0;
      }
    }
  }

  // ----- the invariant -----

  /** Both bitmaps are the ones on disk, and free blocks are blocks. */
  ghost predicate Mirrors(sb: SuperBlock, s: Fs) {
    && Geometry(sb, |s.disk|)
    && BlockMirror(s.disk, sb, s.bits) && FreeWithin(sb, s.bits)
    && |s.ibits| == 512 && Mirrored(s.disk, sb.inodeBitmapLba, 1, s.ibits)
  }

  /** The set bits of the inode bitmap are the inodes in use. */
  ghost predicate InodesUsed(s: Fs, t: Tree) {
    && |s.ibits| == 512 && t.parent.Keys == t.kind.Keys && t.depth.Keys == t.kind.Keys
    && forall no: nat :: no in t.kind <==> no < 4096 && BitSet(s.ibits, no)
  }

  /** Inode `i` on disk is a well-formed directory or regular file. */
  ghost predicate NodeOk(sb: SuperBlock, s: Fs, t: Tree, i: nat) {
    && i in t.kind && i in t.parent && i < 4096 && At(sb, s, i).no == i
    && (t.kind[i] == FT_DIRECTORY || t.kind[i] == FT_REGULAR)
    && (t.kind[i] == FT_DIRECTORY ==> Directory(s.disk, sb, s.bits, At(sb, s, i), t.parent[i]))
    && (t.kind[i] == FT_REGULAR ==> RegularFile(s.disk, sb, s.bits, At(sb, s, i)))
  }

  /** The blocks of inode `i` are the ones it is recorded to own. */
  ghost predicate OwnsOk(sb: SuperBlock, s: Fs, t: Tree, i: nat) {
    forall x :: x in Reach(s.disk, At(sb, s, i)) <==> OwnedBy(t, x, i)
  }

  ghost predicate DataBlock(sb: SuperBlock, bits: seq<byte>, x: int) {
    sb.dataStartLba <= x < sb.dataStartLba + 8 * |bits|
  }

  /** The set bits of the block bitmap are the owned blocks and the padding behind the last block. */
  ghost predicate BlocksUsed(sb: SuperBlock, s: Fs, t: Tree, padding: set<int>) {
    && (forall x :: x in t.owner ==> DataBlock(sb, s.bits, x) && x !in padding && t.owner[x] in t.kind)
    && (forall x :: DataBlock(sb, s.bits, x) ==> (x in FreeBlocks(sb, s.bits) <==> x !in t.owner && x !in padding))
  }

  /** A child entry of directory `d` names an inode in use, of its type, whose parent is `d`. */
  ghost predicate EntryOk(t: Tree, d: nat, e: Entry) {
    IsChild(e) ==>
      && e.no as nat in t.kind && t.kind[e.no] == e.kind && e.no != 0
      && e.no as nat in t.parent && t.parent[e.no] == d
      && e.no as nat in t.depth && d in t.depth && t.depth[e.no] == t.depth[d] + 1
  }

  ghost predicate EntriesOk(sb: SuperBlock, s: Fs, t: Tree, d: nat) {
    forall k :: 0 <= k < |Entries(s.disk, At(sb, s, d))| ==> EntryOk(t, d, Entries(s.disk, At(sb, s, d))[k])
  }

  /** Inode `i`, unless it is the root, is listed in its parent, which is a directory. */
  ghost predicate ListedOk(sb: SuperBlock, s: Fs, t: Tree, i: nat) {
    i != 0 ==>
      && i in t.parent && t.parent[i] as nat in t.kind && t.kind[t.parent[i]] == FT_DIRECTORY && i < 0x1_0000_0000
      && !NoChild(Entries(s.disk, At(sb, s, t.parent[i])), i)
  }

  /** What the invariant says of inode `i`. */
  ghost predicate InodeOk(sb: SuperBlock, s: Fs, t: Tree, i: nat) {
    && NodeOk(sb, s, t, i) && OwnsOk(sb, s, t, i) && ListedOk(sb, s, t, i)
    && (i in t.kind && t.kind[i] == FT_DIRECTORY ==> EntriesOk(sb, s, t, i))
  }

  ghost predicate RootOk(sb: SuperBlock, s: Fs, t: Tree) {
    && 0 in t.kind && t.kind[0] == FT_DIRECTORY && 0 in t.parent && t.parent[0] == 0 && 0 in t.depth && t.depth[0] == 0
    && |At(sb, s, 0).sectors| == 13 && At(sb, s, 0).sectors[0] == sb.dataStartLba
  }

  ghost predicate FsOk(sb: SuperBlock, s: Fs, t: Tree, padding: set<int>) {
    && SuperHeld(sb, s.disk) && Mirrors(sb, s) && InodesUsed(s, t) && BlocksUsed(sb, s, t, padding) && RootOk(sb, s, t)
    && forall i {:trigger InodeOk(sb, s, t, i)} :: i in t.kind ==> InodeOk(sb, s, t, i)
  }

  // ----- inodes a step does not concern -----

  /** The inode's window and its blocks are as before, and the blocks are still taken. */
  ghost predicate SameInode(sb: SuperBlock, s: Fs, s1: Fs, i: nat) {
    && |s1.disk| == |s.disk| && |s1.bits| == |s.bits|
    && At(sb, s1, i) == At(sb, s, i)
    && (forall x :: x in Reach(s.disk, At(sb, s, i)) && 0 <= x < |s.disk| ==>
      s1.disk[x] == s.disk[x] && x !in FreeBlocks(sb, s1.bits))
  }

  lemma SameAddrs(d: seq<Sector>, d1: seq<Sector>, i: DiskInode)
    requires |d1| == |d| && |i.sectors| == 13
    requires forall x :: x in Reach(d, i) && 0 <= x < |d| ==> d1[x] == d[x]
    ensures forall b :: 0 <= b < 140 ==> Addr(d1, i.sectors, b) == Addr(d, i.sectors, b)
    ensures Reach(d1, i) == Reach(d, i)
  {
    if i.sectors[12] != 0 {
      assert i.sectors[12] as int in Reach(d, i);
    }
  }

  lemma SameRegular(sb: SuperBlock, d: seq<Sector>, b: seq<byte>, d1: seq<Sector>, b1: seq<byte>, i: DiskInode)
    requires |d1| == |d| && |b1| == |b| && RegularFile(d, sb, b, i)
    requires forall x :: x in Reach(d, i) && 0 <= x < |d| ==> d1[x] == d[x] && x !in FreeBlocks(sb, b1)
    ensures RegularFile(d1, sb, b1, i) && Contents(d1, sb, b1, i) == Contents(d, sb, b, i)
  {
    hide FreeBlocks;
    SameAddrs(d, d1, i);
    var a := Addrs(d, i.sectors, BlockCount(i));
    assert Addrs(d1, i.sectors, BlockCount(i)) == a;
    forall c | 0 <= c < |a|
      ensures d1[a[c]] == d[a[c]] && TakenBlock(d1, sb, b1, a[c])
    {
      assert TakenBlock(d, sb, b, a[c]) && Addr(d, i.sectors, c) == a[c];
      assert a[c] as int in Reach(d, i);
    }
    SameMaps(sb, d, b, d1, b1, i, a);
    FlatFrame(d, a, d1, a);
    assert Flat(d1, a)[..512 * |a|] == Flat(d1, a);
  }

  lemma SameMaps(sb: SuperBlock, d: seq<Sector>, b: seq<byte>, d1: seq<Sector>, b1: seq<byte>, i: DiskInode, a: seq<u32>)
    requires |i.sectors| == 13 && |d1| == |d| && |b1| == |b| && Maps(d, sb, b, i.sectors, a)
    requires AllTaken(d1, sb, b1, a)
    requires forall x :: x in Reach(d, i) && 0 <= x < |d| ==> d1[x] == d[x] && x !in FreeBlocks(sb, b1)
    ensures Maps(d1, sb, b1, i.sectors, a)
  {
    hide FreeBlocks;
    if |a| > 12 {
      assert i.sectors[12] as int in Reach(d, i);
    }
  }

  lemma SameDirectory(sb: SuperBlock, d: seq<Sector>, b: seq<byte>, d1: seq<Sector>, b1: seq<byte>, i: DiskInode, parent: u32)
    requires |d1| == |d| && |b1| == |b| && Directory(d, sb, b, i, parent)
    requires sb.dataStartLba as int !in FreeBlocks(sb, b1)
    requires forall x :: x in Reach(d, i) && 0 <= x < |d| ==> d1[x] == d[x] && x !in FreeBlocks(sb, b1)
    ensures Directory(d1, sb, b1, i, parent) && Entries(d1, i) == Entries(d, i)
  {
    hide *;
    DirectoryParts(d, sb, b, i, parent);
    DirFacts(d, sb, b, i, parent);
    ReachDirectory(d, i);
    OwnedTaken(d, sb, b, i.sectors);
    DirectoryFrame(d, sb, b, i, parent, d1);
    SameDirBlocks(sb, d1, b, b1, i, parent);
  }

  lemma SameDirBlocks(sb: SuperBlock, d: seq<Sector>, b: seq<byte>, b1: seq<byte>, i: DiskInode, parent: u32)
    requires |b1| == |b| && Directory(d, sb, b, i, parent) && sb.dataStartLba as int !in FreeBlocks(sb, b1)
    requires forall x :: x in DirOwned(i.sectors) ==> x !in FreeBlocks(sb, b1)
    ensures Directory(d, sb, b1, i, parent)
  {
    hide FreeBlocks, DirShape, GoodEntries, Entries;
    forall k | 0 <= k < 12 && i.sectors[k] != 0
      ensures TakenBlock(d, sb, b1, i.sectors[k])
    {
      assert TakenBlock(d, sb, b, i.sectors[k]);
      assert i.sectors[k] as int in DirOwned(i.sectors);
    }
  }

  /** The root's first block is the first data block, and stays taken. */
  lemma RootTaken(sb: SuperBlock, s: Fs, s1: Fs, t: Tree)
    requires Geometry(sb, |s.disk|) && RootOk(sb, s, t) && SameInode(sb, s, s1, 0)
    ensures sb.dataStartLba as int !in FreeBlocks(sb, s1.bits) && sb.dataStartLba as int in Reach(s.disk, At(sb, s, 0))
  {
    hide FreeBlocks, InodeAt;
    var i := At(sb, s, 0);
    assert Addr(s.disk, i.sectors, 0) == sb.dataStartLba;
  }

  /** From `s` to `s1` only the inodes `changed` change: the windows of the others and the blocks they own are as before,
      and still taken; of all data sectors only free ones and those of `changed` are written. */
  ghost predicate Touches(sb: SuperBlock, s: Fs, s1: Fs, t: Tree, changed: set<nat>) {
    && |s1.disk| == |s.disk| && |s1.bits| == |s.bits|
    && (forall i: nat {:trigger At(sb, s1, i)} :: i < 4096 && i !in changed ==> At(sb, s1, i) == At(sb, s, i))
    && (forall x :: x in t.owner && t.owner[x] !in changed && 0 <= x < |s.disk| ==>
      s1.disk[x] == s.disk[x] && x !in FreeBlocks(sb, s1.bits))
    && (forall l ::
      sb.dataStartLba <= l < |s.disk| && l !in FreeBlocks(sb, s.bits) && !(l in t.owner && t.owner[l] in changed) ==>
      s1.disk[l] == s.disk[l])
  }

  lemma TouchesNot(sb: SuperBlock, s: Fs, s1: Fs, t: Tree, changed: set<nat>, i: nat)
    requires Touches(sb, s, s1, t, changed) && i !in changed && i < 4096 && OwnsOk(sb, s, t, i)
    ensures SameInode(sb, s, s1, i)
  {
    hide FreeBlocks, At, Reach;
  }

  /** The tree says the same of inode `i` and of its children. */
  ghost predicate SameInTree(t: Tree, t1: Tree, i: nat) {
    && i in t.kind && i in t1.kind && t1.kind[i] == t.kind[i]
    && i in t.parent && i in t1.parent && t1.parent[i] == t.parent[i]
    && i in t.depth && i in t1.depth && t1.depth[i] == t.depth[i]
  }

  /** An inode a step does not concern stays well-formed, with the same entries. */
  lemma KeptNode(sb: SuperBlock, s: Fs, s1: Fs, t: Tree, t1: Tree, i: nat)
    requires NodeOk(sb, s, t, i) && SameInode(sb, s, s1, i) && SameInTree(t, t1, i)
    requires sb.dataStartLba as int !in FreeBlocks(sb, s1.bits)
    ensures NodeOk(sb, s1, t1, i) && Reach(s1.disk, At(sb, s1, i)) == Reach(s.disk, At(sb, s, i))
    ensures t.kind[i] == FT_DIRECTORY ==> Entries(s1.disk, At(sb, s1, i)) == Entries(s.disk, At(sb, s, i))
  {
    hide FreeBlocks, Reach, At, Entries, Directory, RegularFile;
    var node := At(sb, s, i);
    if t.kind[i] == FT_DIRECTORY {
      SameDirectory(sb, s.disk, s.bits, s1.disk, s1.bits, node, t.parent[i]);
      DirectorySized(s.disk, sb, s.bits, node, t.parent[i]);
    } else {
      SameRegular(sb, s.disk, s.bits, s1.disk, s1.bits, node);
      RegularSized(s.disk, sb, s.bits, node);
    }
    SameAddrs(s.disk, s1.disk, node);
  }

  lemma DirectorySized(d: seq<Sector>, sb: SuperBlock, b: seq<byte>, i: DiskInode, parent: u32)
    requires Directory(d, sb, b, i, parent)
    ensures |i.sectors| == 13 && i.sectors[12] == 0
  {
    hide DirShape, GoodEntries, Entries, FreeBlocks;
  }

  lemma RegularSized(d: seq<Sector>, sb: SuperBlock, b: seq<byte>, i: DiskInode)
    requires RegularFile(d, sb, b, i)
    ensures |i.sectors| == 13
  {
    hide Maps;
  }

  /** Its entries still name inodes in use, when its children are the same in the tree. */
  lemma KeptEntries(sb: SuperBlock, s: Fs, s1: Fs, t: Tree, t1: Tree, i: nat)
    requires EntriesOk(sb, s, t, i) && Entries(s1.disk, At(sb, s1, i)) == Entries(s.disk, At(sb, s, i))
    requires i in t.depth && i in t1.depth && t1.depth[i] == t.depth[i]
    requires forall c {:trigger SameInTree(t, t1, c)} :: c in t.kind && c in t.parent && t.parent[c] == i ==> SameInTree(t, t1, c)
    ensures EntriesOk(sb, s1, t1, i)
  {
    hide At, Entries, IsChild;
    var l := Entries(s.disk, At(sb, s, i));
    forall k | 0 <= k < |l|
      ensures EntryOk(t1, i, l[k])
    {
      assert EntryOk(t, i, l[k]);
      if IsChild(l[k]) {
        assert SameInTree(t, t1, l[k].no);
      }
    }
  }

  lemma InodeParts(sb: SuperBlock, s: Fs, t: Tree, padding: set<int>, i: nat)
    requires FsOk(sb, s, t, padding) && i in t.kind
    ensures NodeOk(sb, s, t, i) && OwnsOk(sb, s, t, i) && ListedOk(sb, s, t, i)
    ensures i in t.parent && i in t.depth && i < 4096
    ensures t.kind[i] == FT_DIRECTORY ==> EntriesOk(sb, s, t, i)
    ensures Geometry(sb, |s.disk|)
  {
    hide Mirrors, BlocksUsed, RootOk, NodeOk, OwnsOk, ListedOk, EntriesOk;
    assert InodeOk(sb, s, t, i);
    MirrorsParts(sb, s);
  }

  lemma MirrorsParts(sb: SuperBlock, s: Fs)
    requires Mirrors(sb, s)
    ensures Geometry(sb, |s.disk|) && BlockMirror(s.disk, sb, s.bits) && FreeWithin(sb, s.bits)
    ensures |s.ibits| == 512 && Mirrored(s.disk, sb.inodeBitmapLba, 1, s.ibits)
  {
  }

  // ----- appending to a file -----

  ghost predicate WriteStep(sb: SuperBlock, s: Fs, s1: Fs, no: nat, buf: seq<byte>) {
    && Mirrors(sb, s1) && s1.ibits == s.ibits && no < 4096 && |s1.bits| == |s.bits|
    && Appended(sb, no, buf, s.disk, s.bits, At(sb, s, no), s1.disk, s1.bits, At(sb, s1, no))
  }

  /** The tree after the blocks `xs` went to inode `no`. */
  function Owning(t: Tree, xs: set<int>, no: nat): Tree {
    t.(owner := t.owner + map x | x in xs :: no)
  }

  /** The windows of the other inodes are as before. */
  ghost predicate OtherInodes(sb: SuperBlock, s: Fs, s1: Fs, changed: set<nat>) {
    forall i: nat {:trigger At(sb, s1, i)} :: i < 4096 && i !in changed ==> At(sb, s1, i) == At(sb, s, i)
  }

  /** Only blocks in `touched` are written, and they were free or belong to a changed inode, as do blocks given back. */
  lemma TouchesIntro(sb: SuperBlock, s: Fs, s1: Fs, t: Tree, padding: set<int>, changed: set<nat>, touched: set<int>)
    requires |s1.disk| == |s.disk| && |s1.bits| == |s.bits|
    requires BlocksUsed(sb, s, t, padding) && OtherInodes(sb, s, s1, changed)
    requires forall l :: sb.dataStartLba <= l < |s.disk| && l !in touched ==> s1.disk[l] == s.disk[l]
    requires forall x :: x in touched ==> x in FreeBlocks(sb, s.bits) || (x in t.owner && t.owner[x] in changed)
    requires forall x :: x in FreeBlocks(sb, s1.bits) ==> x in FreeBlocks(sb, s.bits) || (x in t.owner && t.owner[x] in changed)
    ensures Touches(sb, s, s1, t, changed)
  {
    hide FreeBlocks, At;
  }

  lemma AppendedFrame(sb: SuperBlock, s: Fs, s1: Fs, no: nat, buf: seq<byte>)
    requires Geometry(sb, |s.disk|) && WriteStep(sb, s, s1, no, buf)
    ensures OtherInodes(sb, s, s1, {no}) && |s1.disk| == |s.disk|
    ensures var r0, r1 := Reach(s.disk, At(sb, s, no)), Reach(s1.disk, At(sb, s1, no));
      && r0 <= r1 && r1 - r0 <= FreeBlocks(sb, s.bits) && FreeBlocks(sb, s1.bits) == FreeBlocks(sb, s.bits) - r1
      && (forall l :: sb.dataStartLba <= l < |s.disk| && l !in r1 ==> s1.disk[l] == s.disk[l])
      && RegularFile(s1.disk, sb, s1.bits, At(sb, s1, no)) && At(sb, s1, no).no == At(sb, s, no).no
  {
    hide InodeOk, RegularFile, Contents, Reach, FreeBlocks, RootOk, InodesUsed, EncodeInode, Mirrors, FileBlocks, InodeWindow;
    ReachFile(s.disk, sb, s.bits, At(sb, s, no));
    ReachFile(s1.disk, sb, s1.bits, At(sb, s1, no));
    forall i: nat | i < 4096 && i != no
      ensures At(sb, s1, i) == At(sb, s, i)
    {
      assert InodeWindow(s1.disk, sb, i) == InodeWindow(s.disk, sb, i);
    }
  }

  lemma WriteTouches(sb: SuperBlock, s: Fs, s1: Fs, t: Tree, padding: set<int>, no: nat, buf: seq<byte>)
    requires Geometry(sb, |s.disk|) && BlocksUsed(sb, s, t, padding) && OwnsOk(sb, s, t, no)
    requires WriteStep(sb, s, s1, no, buf)
    ensures Touches(sb, s, s1, t, {no})
  {
    AppendedFrame(sb, s, s1, no, buf);
    hide FreeBlocks, Reach, At, Appended, Mirrors, DataBlock, OtherInodes, Touches;
    TouchesIntro(sb, s, s1, t, padding, {no}, Reach(s1.disk, At(sb, s1, no)));
  }

  /** The blocks `gained` by inode `no` were free and are not any more. */
  lemma GainedBlocks(sb: SuperBlock, s: Fs, s1: Fs, t: Tree, padding: set<int>, gained: set<int>, no: nat)
    requires BlocksUsed(sb, s, t, padding) && |s1.bits| == |s.bits| && no in t.kind
    requires gained <= FreeBlocks(sb, s.bits) && FreeBlocks(sb, s1.bits) == FreeBlocks(sb, s.bits) - gained
    ensures BlocksUsed(sb, s1, Owning(t, gained, no), padding)
  {
    assert forall x :: x in gained ==> DataBlock(sb, s.bits, x);
    hide FreeBlocks;
  }

  predicate OwnedBy(t: Tree, x: int, i: nat) {
    x in t.owner && t.owner[x] == i
  }

  ghost predicate SameOwned(t: Tree, t1: Tree, i: nat) {
    forall x :: OwnedBy(t1, x, i) <==> OwnedBy(t, x, i)
  }

  /** The tree says the same of inode `i`, of its blocks, and of its children. */
  ghost predicate SameFamily(t: Tree, t1: Tree, i: nat) {
    && SameInTree(t, t1, i)
    && SameOwned(t, t1, i)
    && (forall c {:trigger SameInTree(t, t1, c)} :: c in t.kind && c in t.parent && t.parent[c] == i ==> SameInTree(t, t1, c))
  }

  /** An inode that is not in `changed` keeps its part of the invariant; that a changed parent lists it is for the caller. */
  lemma KeptInode(sb: SuperBlock, s: Fs, s1: Fs, t: Tree, t1: Tree, padding: set<int>, changed: set<nat>, i: nat)
    requires FsOk(sb, s, t, padding) && Touches(sb, s, s1, t, changed)
    requires i in t.kind && i !in changed && SameFamily(t, t1, i) && sb.dataStartLba as int !in FreeBlocks(sb, s1.bits)
    requires i != 0 && t.parent[i] as nat !in changed ==> SameInTree(t, t1, t.parent[i])
    requires i != 0 && t.parent[i] as nat in changed ==> ListedOk(sb, s1, t1, i)
    ensures InodeOk(sb, s1, t1, i)
  {
    hide FsOk, Touches, At, NodeOk, OwnsOk, Reach, Entries, FreeBlocks, NoChild, EntriesOk, SameOwned;
    InodeParts(sb, s, t, padding, i);
    TouchesNot(sb, s, s1, t, changed, i);
    KeptNode(sb, s, s1, t, t1, i);
    KeptOwner(sb, s, s1, t, t1, i);
    if t.kind[i] == FT_DIRECTORY {
      KeptEntries(sb, s, s1, t, t1, i);
    }
    if i != 0 && t.parent[i] as nat !in changed {
      var p := t.parent[i];
      InodeParts(sb, s, t, padding, p);
      TouchesNot(sb, s, s1, t, changed, p);
      KeptNode(sb, s, s1, t, t1, p);
    }
  }

  lemma KeptOwner(sb: SuperBlock, s: Fs, s1: Fs, t: Tree, t1: Tree, i: nat)
    requires OwnsOk(sb, s, t, i) && Reach(s1.disk, At(sb, s1, i)) == Reach(s.disk, At(sb, s, i)) && SameOwned(t, t1, i)
    ensures OwnsOk(sb, s1, t1, i)
  {
    hide At, Reach;
  }

  /** `file_write` keeps the invariant; the blocks it takes become the file's. */
  lemma WriteOk(sb: SuperBlock, s: Fs, s1: Fs, t: Tree, padding: set<int>, no: nat, buf: seq<byte>)
    requires FsOk(sb, s, t, padding) && WriteStep(sb, s, s1, no, buf) && no in t.kind && t.kind[no] == FT_REGULAR
    ensures FsOk(sb, s1, WriteTree(sb, s, s1, t, no), padding)
  {
    hide FsOk, Touches, At, NodeOk, OwnsOk, Reach, Entries, FreeBlocks, NoChild, EntriesOk, ListedOk, InodesUsed, BlocksUsed,
      RootOk,
      Mirrors, WriteStep, RegularFile, Geometry, SameFamily, SuperHeld, Confined;
    var r0, r1 := Reach(s.disk, At(sb, s, no)), Reach(s1.disk, At(sb, s1, no));
    var t1 := WriteTree(sb, s, s1, t, no);
    FsParts(sb, s, t, padding);
    InodeParts(sb, s, t, padding, no);
    WriteConfined(sb, s, s1, no, buf);
    SuperKept(sb, s.disk, s1.disk);
    AppendedFrame(sb, s, s1, no, buf);
    WriteTouches(sb, s, s1, t, padding, no, buf);
    WriteFacts(sb, s, s1, no, buf);
    OwnedNotFree(sb, s, t, padding, no);
    GainedBlocks(sb, s, s1, t, padding, r1 - r0, no);
    GainedOwner(sb, s, s1, t, padding, r1 - r0, no);
    SameUsed(s, s1, t, t1);
    RootIsDirectory(sb, s, t, padding);
    RootKept(sb, s, s1, t, t1, padding, {no});
    forall i | i in t1.kind
      ensures InodeOk(sb, s1, t1, i)
    {
      InodeParts(sb, s, t, padding, i);
      if i == no {
        WrittenNode(sb, s, s1, t, t1, no);
        ParentKept(sb, s, t, padding, no);
        KeptListed(sb, s, s1, t, t1, padding, {no}, no);
        InodeIntro(sb, s1, t1, no);
      } else {
        FamilyKept(t, t1, r1 - r0, no, i);
        if i != 0 {
          ParentKept(sb, s, t, padding, i);
        }
        KeptInode(sb, s, s1, t, t1, padding, {no}, i);
      }
    }
    FsIntro(sb, s1, t1, padding);
  }

  ghost function WriteTree(sb: SuperBlock, s: Fs, s1: Fs, t: Tree, no: nat): Tree {
    Owning(t, Reach(s1.disk, At(sb, s1, no)) - Reach(s.disk, At(sb, s, no)), no)
  }

  lemma FsParts(sb: SuperBlock, s: Fs, t: Tree, padding: set<int>)
    requires FsOk(sb, s, t, padding)
    ensures Mirrors(sb, s) && Geometry(sb, |s.disk|) && InodesUsed(s, t) && BlocksUsed(sb, s, t, padding) && RootOk(sb, s, t)
    ensures SuperHeld(sb, s.disk)
  {
    hide InodeOk, BlocksUsed, InodesUsed, RootOk, SuperHeld;
  }

  lemma FsIntro(sb: SuperBlock, s: Fs, t: Tree, padding: set<int>)
    requires Mirrors(sb, s) && InodesUsed(s, t) && BlocksUsed(sb, s, t, padding) && RootOk(sb, s, t) && SuperHeld(sb, s.disk)
    requires forall i {:trigger InodeOk(sb, s, t, i)} :: i in t.kind ==> InodeOk(sb, s, t, i)
    ensures FsOk(sb, s, t, padding)
  {
    hide InodeOk, BlocksUsed, InodesUsed, RootOk, Mirrors, SuperHeld;
  }

  /** An append writes within the partition. */
  lemma WriteConfined(sb: SuperBlock, s: Fs, s1: Fs, no: nat, buf: seq<byte>)
    requires Geometry(sb, |s.disk|) && WriteStep(sb, s, s1, no, buf)
    ensures Confined(sb, s.disk, s1.disk)
  {
    hide RegularFile, Contents, Reach, FreeBlocks, EncodeInode, Mirrors, FileBlocks, InodeWindow;
    ReachFile(s1.disk, sb, s1.bits, At(sb, s1, no));
    ConfinedIntro(sb, s.disk, s1.disk, Reach(s1.disk, At(sb, s1, no)));
  }

  lemma WriteFacts(sb: SuperBlock, s: Fs, s1: Fs, no: nat, buf: seq<byte>)
    requires WriteStep(sb, s, s1, no, buf)
    ensures Mirrors(sb, s1) && s1.ibits == s.ibits && |s1.bits| == |s.bits| && |s1.disk| == |s.disk|
  {
    hide Mirrors;
  }

  lemma InodeIntro(sb: SuperBlock, s: Fs, t: Tree, i: nat)
    requires NodeOk(sb, s, t, i) && OwnsOk(sb, s, t, i) && ListedOk(sb, s, t, i)
    requires i in t.kind && t.kind[i] == FT_DIRECTORY ==> EntriesOk(sb, s, t, i)
    ensures InodeOk(sb, s, t, i)
  {
    hide NodeOk, OwnsOk, ListedOk, EntriesOk;
  }

  lemma GainedOwner(sb: SuperBlock, s: Fs, s1: Fs, t: Tree, padding: set<int>, gained: set<int>, no: nat)
    requires BlocksUsed(sb, s, t, padding) && gained <= FreeBlocks(sb, s.bits)
    ensures forall x :: x in gained ==> x !in t.owner
    ensures OwnsOk(sb, s, t, no) && Reach(s1.disk, At(sb, s1, no)) == Reach(s.disk, At(sb, s, no)) + gained ==>
      OwnsOk(sb, s1, Owning(t, gained, no), no)
  {
    assert forall x :: x in gained ==> DataBlock(sb, s.bits, x);
    hide At, Reach, FreeBlocks;
  }

  lemma OwnedNotFree(sb: SuperBlock, s: Fs, t: Tree, padding: set<int>, no: nat)
    requires BlocksUsed(sb, s, t, padding) && OwnsOk(sb, s, t, no)
    ensures Reach(s.disk, At(sb, s, no)) !! FreeBlocks(sb, s.bits)
  {
    hide At, Reach, FreeBlocks;
    forall x | x in Reach(s.disk, At(sb, s, no))
      ensures x !in FreeBlocks(sb, s.bits)
    {
      assert x in t.owner && DataBlock(sb, s.bits, x);
    }
  }

  lemma SameUsed(s: Fs, s1: Fs, t: Tree, t1: Tree)
    requires InodesUsed(s, t) && s1.ibits == s.ibits && t1 == t.(owner := t1.owner)
    ensures InodesUsed(s1, t1)
  {
  }

  lemma RootIsDirectory(sb: SuperBlock, s: Fs, t: Tree, padding: set<int>)
    requires FsOk(sb, s, t, padding)
    ensures 0 in t.kind && t.kind[0] == FT_DIRECTORY && OwnsOk(sb, s, t, 0)
  {
    hide At, Reach, NodeOk, ListedOk, OwnsOk;
    assert InodeOk(sb, s, t, 0);
  }

  lemma RootKept(sb: SuperBlock, s: Fs, s1: Fs, t: Tree, t1: Tree, padding: set<int>, changed: set<nat>)
    requires RootOk(sb, s, t) && Geometry(sb, |s.disk|) && Touches(sb, s, s1, t, changed) && 0 !in changed
    requires OwnsOk(sb, s, t, 0) && SameInTree(t, t1, 0)
    ensures RootOk(sb, s1, t1) && sb.dataStartLba as int !in FreeBlocks(sb, s1.bits)
  {
    hide At, Reach, FreeBlocks, OwnsOk, Touches;
    TouchesNot(sb, s, s1, t, changed, 0);
    RootTaken(sb, s, s1, t);
  }

  lemma WrittenNode(sb: SuperBlock, s: Fs, s1: Fs, t: Tree, t1: Tree, no: nat)
    requires NodeOk(sb, s, t, no) && t.kind[no] == FT_REGULAR && t1 == t.(owner := t1.owner)
    requires RegularFile(s1.disk, sb, s1.bits, At(sb, s1, no)) && At(sb, s1, no).no == At(sb, s, no).no
    ensures NodeOk(sb, s1, t1, no)
  {
    hide At, RegularFile, Directory;
  }

  lemma FamilyKept(t: Tree, t1: Tree, gained: set<int>, no: nat, i: nat)
    requires t1 == Owning(t, gained, no) && i != no && (forall x :: x in gained ==> x !in t.owner)
    requires t.parent.Keys == t.kind.Keys && t.depth.Keys == t.kind.Keys && i in t.kind
    ensures SameFamily(t, t1, i)
  {
  }

  lemma ParentKept(sb: SuperBlock, s: Fs, t: Tree, padding: set<int>, i: nat)
    requires FsOk(sb, s, t, padding) && i in t.kind && i != 0
    ensures i in t.parent && t.parent[i] as nat in t.kind && t.kind[t.parent[i]] == FT_DIRECTORY
    ensures t.parent[i] as nat in t.parent && t.parent[i] as nat in t.depth
  {
    InodeParts(sb, s, t, padding, i);
    hide FsOk, At, Entries, NodeOk, OwnsOk, NoChild;
    InodeParts(sb, s, t, padding, t.parent[i]);
  }

  /** An inode whose parent is not changed is still listed there. */
  lemma KeptListed(sb: SuperBlock, s: Fs, s1: Fs, t: Tree, t1: Tree, padding: set<int>, changed: set<nat>, i: nat)
    requires FsOk(sb, s, t, padding) && Touches(sb, s, s1, t, changed) && sb.dataStartLba as int !in FreeBlocks(sb, s1.bits)
    requires i in t.kind && i in t1.parent && i in t.parent && t1.parent[i] == t.parent[i]
    requires i != 0 ==> t.parent[i] as nat !in changed && SameInTree(t, t1, t.parent[i])
    ensures ListedOk(sb, s1, t1, i)
  {
    InodeParts(sb, s, t, padding, i);
    hide FsOk, Touches, At, NodeOk, OwnsOk, Reach, Entries, FreeBlocks, NoChild, EntriesOk;
    if i != 0 {
      var p := t.parent[i];
      InodeParts(sb, s, t, padding, p);
      TouchesNot(sb, s, s1, t, changed, p);
      KeptNode(sb, s, s1, t, t1, p);
    }
  }

  // ----- creating a file or a directory -----

  ghost predicate EntryAdded(l: seq<Entry>, m: seq<Entry>, e: Entry) {
    exists k: nat :: k <= |l| && m == Insert(l, k, e)
  }

  /** Directory `d` lists the entry `e` as well. */
  ghost predicate AddEntry(sb: SuperBlock, s: Fs, s1: Fs, d: nat, parent: u32, e: Entry) {
    var i0, i1 := At(sb, s, d), At(sb, s1, d);
    && IsChild(e) && i1.no == i0.no && Directory(s1.disk, sb, s1.bits, i1, parent)
    && EntryAdded(Entries(s.disk, i0), Entries(s1.disk, i1), e)
  }

  /** The directory's blocks, `o0` before and `o1` after, and those of the new inode, `r`, were free if they are new, and
      only they are written. */
  ghost predicate AddBlocks(sb: SuperBlock, s: Fs, s1: Fs, o0: set<int>, o1: set<int>, r: set<int>) {
    && |s1.disk| == |s.disk| && |s1.bits| == |s.bits|
    && o0 <= o1 && o1 - o0 <= FreeBlocks(sb, s.bits) && r <= FreeBlocks(sb, s.bits) && o1 !! r
    && FreeBlocks(sb, s1.bits) == FreeBlocks(sb, s.bits) - o1 - r
    && (forall l :: sb.dataStartLba <= l < |s.disk| && l !in o1 && l !in r ==> s1.disk[l] == s.disk[l])
  }

  ghost predicate AddUsed(s: Fs, s1: Fs, no: nat) {
    no < 4096 && !BitSetIn(s.ibits, no) && BitUpdated(s.ibits, s1.ibits, no, true)
  }

  /** Inode `e.no` is in use, with an entry `e` in directory `d`; nothing else changed but blocks that were free. */
  ghost predicate AddStep(sb: SuperBlock, s: Fs, s1: Fs, d: nat, parent: u32, e: Entry) {
    && d < 4096 && (e.kind == FT_DIRECTORY || e.kind == FT_REGULAR)
    && Mirrors(sb, s1) && AddUsed(s, s1, e.no) && OtherInodes(sb, s, s1, {d, e.no as nat}) && Confined(sb, s.disk, s1.disk)
    && AddEntry(sb, s, s1, d, parent, e) && NewNode(sb, s1, d, e)
    && AddBlocks(sb, s, s1, DirOwned(At(sb, s, d).sectors), DirOwned(At(sb, s1, d).sectors), Reach(s1.disk, At(sb, s1, e.no)))
  }

  ghost predicate BitSetIn(bits: seq<byte>, no: nat) {
    no < 8 * |bits| && BitSet(bits, no)
  }

  /** The new inode: an empty file, or a directory that holds only itself and its parent. */
  ghost predicate NewNode(sb: SuperBlock, s: Fs, d: nat, e: Entry) {
    var i := At(sb, s, e.no);
    && i.no == e.no && d < 4096
    && (e.kind == FT_REGULAR ==> RegularFile(s.disk, sb, s.bits, i) && i.size == 0)
    && (e.kind == FT_DIRECTORY ==>
      Directory(s.disk, sb, s.bits, i, d)
      && Entries(s.disk, i) == [Entry(DOT, e.no, FT_DIRECTORY), Entry(DOT_DOT, d, FT_DIRECTORY)])
  }

  ghost function AddTree(sb: SuperBlock, s: Fs, s1: Fs, t: Tree, d: nat, e: Entry): Tree {
    var no := e.no as nat;
    var gained := DirOwned(At(sb, s1, d).sectors) - DirOwned(At(sb, s, d).sectors);
    if d !in t.depth || d >= 4096 then t else Tree(t.kind[no := e.kind], t.parent[no := d], t.depth[no := t.depth[d] + 1],
      Owning(Owning(t, gained, d), Reach(s1.disk, At(sb, s1, no)), no).owner)
  }

  lemma AddTouches(sb: SuperBlock, s: Fs, s1: Fs, t: Tree, padding: set<int>, d: nat, parent: u32, e: Entry)
    requires BlocksUsed(sb, s, t, padding) && AddStep(sb, s, s1, d, parent, e)
    requires OwnsOk(sb, s, t, d) && Reach(s.disk, At(sb, s, d)) == DirOwned(At(sb, s, d).sectors)
    ensures Touches(sb, s, s1, t, {d, e.no as nat})
  {
    hide FreeBlocks, Reach, At, Mirrors, DataBlock, OtherInodes, Touches, NewNode, AddEntry, AddUsed, DirOwned, BlocksUsed;
    TouchesIntro(sb, s, s1, t, padding, {d, e.no as nat}, DirOwned(At(sb, s1, d).sectors) + Reach(s1.disk, At(sb, s1, e.no)));
  }

  /** The new inode's number was not in the tree. */
  lemma AddFresh(s: Fs, s1: Fs, t: Tree, no: nat)
    requires InodesUsed(s, t) && AddUsed(s, s1, no)
    ensures no !in t.kind
  {
  }

  lemma AddInodesUsed(s: Fs, s1: Fs, t: Tree, no: nat, t1: Tree)
    requires InodesUsed(s, t) && AddUsed(s, s1, no)
    requires t1.kind.Keys == t.kind.Keys + {no} && t1.parent.Keys == t1.kind.Keys && t1.depth.Keys == t1.kind.Keys
    ensures InodesUsed(s1, t1)
  {
  }

  /** A directory that has the first data block has it first; that block is taken. */
  lemma DirectoryStart(d: seq<Sector>, sb: SuperBlock, b: seq<byte>, i: DiskInode, parent: u32)
    requires Directory(d, sb, b, i, parent)
    ensures sb.dataStartLba as int !in FreeBlocks(sb, b)
    ensures sb.dataStartLba as int in DirOwned(i.sectors) ==> i.sectors[0] == sb.dataStartLba
  {
    hide DirShape, GoodEntries, Entries, FreeBlocks;
  }

  /** Where a parent lists an inode, its depth is one more. */
  lemma ParentDepth(sb: SuperBlock, s: Fs, t: Tree, padding: set<int>, i: nat)
    requires FsOk(sb, s, t, padding) && i in t.kind && i != 0
    ensures i in t.parent && i in t.depth && t.parent[i] as nat in t.depth && t.depth[i] == t.depth[t.parent[i]] + 1
  {
    ParentKept(sb, s, t, padding, i);
    InodeParts(sb, s, t, padding, i);
    InodeParts(sb, s, t, padding, t.parent[i]);
    hide FsOk, At, Entries, NodeOk, OwnsOk, IsChild;
    var l := Entries(s.disk, At(sb, s, t.parent[i]));
    var k :| 0 <= k < |l| && IsChild(l[k]) && l[k].no == i;
    assert EntryOk(t, t.parent[i], l[k]);
  }

  lemma AddBlocksUsed(sb: SuperBlock, s: Fs, s1: Fs, t: Tree, padding: set<int>, d: nat, e: Entry, parent: u32)
    requires BlocksUsed(sb, s, t, padding) && AddStep(sb, s, s1, d, parent, e) && d in t.kind && d in t.depth && d != e.no as nat
    requires OwnsOk(sb, s, t, d) && Reach(s.disk, At(sb, s, d)) == DirOwned(At(sb, s, d).sectors)
    requires Reach(s1.disk, At(sb, s1, d)) == DirOwned(At(sb, s1, d).sectors) && e.no as nat !in t.kind
    ensures var t1 := AddTree(sb, s, s1, t, d, e);
      BlocksUsed(sb, s1, t1, padding) && OwnsOk(sb, s1, t1, d) && OwnsOk(sb, s1, t1, e.no)
    ensures forall i {:trigger SameOwned(t, AddTree(sb, s, s1, t, d, e), i)} :: i != d && i != e.no as nat ==>
      SameOwned(t, AddTree(sb, s, s1, t, d, e), i)
  {
    hide At, Reach, DirOwned, Mirrors, OtherInodes, NewNode, AddEntry, AddUsed;
    FreeAreData(sb, s.bits);
    hide FreeBlocks;
    forall x | x in FreeBlocks(sb, s.bits)
      ensures x !in t.owner && x !in padding
    {
      assert DataBlock(sb, s.bits, x);
    }
    var o0, o1 := DirOwned(At(sb, s, d).sectors), DirOwned(At(sb, s1, d).sectors);
    AddOwner(t, o1 - o0, d, Reach(s1.disk, At(sb, s1, e.no)), e.no, AddTree(sb, s, s1, t, d, e));
  }

  /** Two inodes gain blocks that nobody owned. */
  lemma AddOwner(t: Tree, g: set<int>, d: nat, r: set<int>, no: nat, t1: Tree)
    requires t1.owner == Owning(Owning(t, g, d), r, no).owner && g !! r && d != no
    requires forall x :: x in g || x in r ==> x !in t.owner
    ensures forall x :: OwnedBy(t1, x, d) <==> OwnedBy(t, x, d) || x in g
    ensures forall x :: OwnedBy(t1, x, no) <==> OwnedBy(t, x, no) || x in r
    ensures forall i {:trigger SameOwned(t, t1, i)} :: i != d && i != no ==> SameOwned(t, t1, i)
    ensures forall x :: x in t1.owner <==> x in t.owner || x in g || x in r
    ensures forall x :: x in t1.owner ==> t1.owner[x] == d || t1.owner[x] == no || (x in t.owner && t1.owner[x] == t.owner[x])
  {
  }

  lemma FreeAreData(sb: SuperBlock, bits: seq<byte>)
    ensures forall x :: x in FreeBlocks(sb, bits) ==> DataBlock(sb, bits, x)
  {
  }

  lemma AddFamily(sb: SuperBlock, s: Fs, s1: Fs, t: Tree, d: nat, e: Entry, i: nat)
    requires d in t.kind && d in t.depth && d < 4096 && e.no as nat !in t.kind && i in t.kind && i != d
    requires t.parent.Keys == t.kind.Keys && t.depth.Keys == t.kind.Keys
    requires SameOwned(t, AddTree(sb, s, s1, t, d, e), i)
    ensures SameFamily(t, AddTree(sb, s, s1, t, d, e), i)
  {
    hide At, Reach, DirOwned;
  }

  lemma AddedChild(l: seq<Entry>, m: seq<Entry>, e: Entry, no: u32)
    requires EntryAdded(l, m, e)
    ensures !NoChild(l, no) ==> !NoChild(m, no)
    ensures IsChild(e) ==> !NoChild(m, e.no)
    ensures forall a :: 0 <= a < |m| ==> m[a] == e || m[a] in l
  {
    hide NoChild, Insert;
    var k: nat :| k <= |l| && m == Insert(l, k, e);
    InsertAt(l, k, e);
    InsertParts(l, k, e);
    NoChildConcat(l[..k], l[k..], no);
    NoChildConcat(l[..k] + [e], l[k..], no);
    NoChildConcat(l[..k], [e], no);
    NoChildConcat(l[..k] + [e], l[k..], e.no);
    NoChildConcat(l[..k], [e], e.no);
    NoChildOne(e, e.no);
  }

  lemma InsertParts(l: seq<Entry>, k: nat, e: Entry)
    requires k <= |l|
    ensures l == l[..k] + l[k..] && Insert(l, k, e) == l[..k] + [e] + l[k..]
  {
  }

  lemma AddedEntries(sb: SuperBlock, s: Fs, s1: Fs, t: Tree, t1: Tree, d: nat, e: Entry)
    requires EntriesOk(sb, s, t, d) && EntryAdded(Entries(s.disk, At(sb, s, d)), Entries(s1.disk, At(sb, s1, d)), e)
    requires EntryOk(t1, d, e) && d in t.depth && d in t1.depth && t1.depth[d] == t.depth[d]
    requires forall c {:trigger SameInTree(t, t1, c)} :: c in t.kind && c in t.parent && t.parent[c] == d ==> SameInTree(t, t1, c)
    ensures EntriesOk(sb, s1, t1, d)
  {
    hide At, Entries, IsChild;
    var l, m := Entries(s.disk, At(sb, s, d)), Entries(s1.disk, At(sb, s1, d));
    AddedChild(l, m, e, 0);
    forall k | 0 <= k < |m|
      ensures EntryOk(t1, d, m[k])
    {
      if m[k] in l {
        var a :| 0 <= a < |l| && l[a] == m[k];
        assert EntryOk(t, d, l[a]);
        assert IsChild(l[a]) ==> l[a].no as nat in t.kind && t.parent[l[a].no] == d;
        if IsChild(l[a]) {
          assert SameInTree(t, t1, l[a].no);
        }
      }
    }
  }

  /** Creating a file or a directory keeps the invariant. */
  lemma AddOk(sb: SuperBlock, s: Fs, s1: Fs, t: Tree, padding: set<int>, d: nat, e: Entry)
    requires FsOk(sb, s, t, padding) && d in t.kind && t.kind[d] == FT_DIRECTORY && d in t.parent && d in t.depth && d < 4096
    requires AddStep(sb, s, s1, d, t.parent[d], e)
    ensures e.no as nat !in t.kind && FsOk(sb, s1, AddTree(sb, s, s1, t, d, e), padding)
  {
    hide FsOk, Touches, At, NodeOk, OwnsOk, Reach, Entries, FreeBlocks, NoChild, EntriesOk, ListedOk, InodesUsed, BlocksUsed,
      RootOk,
      Mirrors, RegularFile, Directory, Geometry, SameFamily, DirOwned, AddEntry, AddBlocks, AddUsed, NewNode, OtherInodes,
      EntryAdded, IsChild, SuperHeld,
      Confined;
    var no := e.no as nat;
    var t1 := AddTree(sb, s, s1, t, d, e);
    FsParts(sb, s, t, padding);
    InodesUsedKeys(s, t);
    InodeParts(sb, s, t, padding, d);
    AddFresh(s, s1, t, no);
    AddInodesUsed(s, s1, t, no, t1);
    AddNodes(sb, s, s1, t, d, e);
    AddTouches(sb, s, s1, t, padding, d, t.parent[d], e);
    AddBlocksUsed(sb, s, s1, t, padding, d, e, t.parent[d]);
    RootIsDirectory(sb, s, t, padding);
    AddGrows(sb, s, s1, d, t.parent[d], e);
    SuperKept(sb, s.disk, s1.disk);
    AddRoot(sb, s, s1, t, padding, d, e);
    forall i | i in t1.kind
      ensures InodeOk(sb, s1, t1, i)
    {
      if i == no {
        AddedNew(sb, s, s1, t, d, e);
      } else if i == d {
        AddedDir(sb, s, s1, t, padding, d, e);
      } else {
        InodeParts(sb, s, t, padding, i);
        AddFamily(sb, s, s1, t, d, e, i);
        AddedOther(sb, s, s1, t, padding, d, e, i);
      }
    }
    FsIntro(sb, s1, t1, padding);
  }

  lemma AddGrows(sb: SuperBlock, s: Fs, s1: Fs, d: nat, parent: u32, e: Entry)
    requires AddStep(sb, s, s1, d, parent, e)
    ensures DirOwned(At(sb, s, d).sectors) <= DirOwned(At(sb, s1, d).sectors)
  {
    hide At, Reach, FreeBlocks, Mirrors, AddUsed, OtherInodes, NewNode, AddEntry, DirOwned;
  }

  lemma InodesUsedKeys(s: Fs, t: Tree)
    requires InodesUsed(s, t)
    ensures t.parent.Keys == t.kind.Keys && t.depth.Keys == t.kind.Keys
  {
  }

  lemma AddNodes(sb: SuperBlock, s: Fs, s1: Fs, t: Tree, d: nat, e: Entry)
    requires d in t.kind && t.kind[d] == FT_DIRECTORY && d in t.parent && d in t.depth && d < 4096 && d != e.no as nat
    requires NodeOk(sb, s, t, d) && AddStep(sb, s, s1, d, t.parent[d], e)
    ensures NodeOk(sb, s1, AddTree(sb, s, s1, t, d, e), d) && NodeOk(sb, s1, AddTree(sb, s, s1, t, d, e), e.no)
    ensures Reach(s.disk, At(sb, s, d)) == DirOwned(At(sb, s, d).sectors)
    ensures Reach(s1.disk, At(sb, s1, d)) == DirOwned(At(sb, s1, d).sectors)
    ensures sb.dataStartLba as int !in FreeBlocks(sb, s1.bits)
    ensures sb.dataStartLba as int in DirOwned(At(sb, s1, d).sectors) ==>
      |At(sb, s1, d).sectors| == 13 && At(sb, s1, d).sectors[0] == sb.dataStartLba
  {
    hide At, Reach, Directory, RegularFile, FreeBlocks, DirOwned, EntryAdded, AddBlocks, OtherInodes, Mirrors, Entries, IsChild;
    DirectorySized(s.disk, sb, s.bits, At(sb, s, d), t.parent[d]);
    DirectorySized(s1.disk, sb, s1.bits, At(sb, s1, d), t.parent[d]);
    ReachDirectory(s.disk, At(sb, s, d));
    ReachDirectory(s1.disk, At(sb, s1, d));
    DirectoryStart(s1.disk, sb, s1.bits, At(sb, s1, d), t.parent[d]);
  }

  lemma AddRoot(sb: SuperBlock, s: Fs, s1: Fs, t: Tree, padding: set<int>, d: nat, e: Entry)
    requires RootOk(sb, s, t) && OwnsOk(sb, s, t, 0) && Geometry(sb, |s.disk|) && Touches(sb, s, s1, t, {d, e.no as nat})
    requires d in t.kind && d in t.depth && d < 4096 && e.no as nat !in t.kind && t.parent.Keys == t.kind.Keys
    requires t.depth.Keys == t.kind.Keys
    requires Reach(s.disk, At(sb, s, d)) == DirOwned(At(sb, s, d).sectors)
    requires DirOwned(At(sb, s, d).sectors) <= DirOwned(At(sb, s1, d).sectors)
    requires sb.dataStartLba as int in DirOwned(At(sb, s1, d).sectors) ==>
      |At(sb, s1, d).sectors| == 13 && At(sb, s1, d).sectors[0] == sb.dataStartLba
    ensures RootOk(sb, s1, AddTree(sb, s, s1, t, d, e))
  {
    hide At, Reach, FreeBlocks, OwnsOk, Touches, DirOwned;
    if d == 0 {
      RootStart(sb, s, t);
    } else {
      RootKept(sb, s, s1, t, AddTree(sb, s, s1, t, d, e), padding, {d, e.no as nat});
    }
  }

  lemma RootStart(sb: SuperBlock, s: Fs, t: Tree)
    requires RootOk(sb, s, t) && Geometry(sb, |s.disk|)
    ensures sb.dataStartLba as int in Reach(s.disk, At(sb, s, 0))
  {
    hide InodeAt;
    assert Addr(s.disk, At(sb, s, 0).sectors, 0) == sb.dataStartLba;
  }

  lemma AddedNew(sb: SuperBlock, s: Fs, s1: Fs, t: Tree, d: nat, e: Entry)
    requires d in t.kind && t.kind[d] == FT_DIRECTORY && d in t.parent && d in t.depth && d < 4096 && e.no as nat != d
    requires AddStep(sb, s, s1, d, t.parent[d], e)
    requires NodeOk(sb, s1, AddTree(sb, s, s1, t, d, e), e.no) && OwnsOk(sb, s1, AddTree(sb, s, s1, t, d, e), e.no)
    ensures InodeOk(sb, s1, AddTree(sb, s, s1, t, d, e), e.no)
  {
    hide At, Reach, Directory, RegularFile, FreeBlocks, DirOwned, EntryAdded, AddBlocks, OtherInodes, Mirrors, Entries,
      NodeOk, OwnsOk, NoChild, IsChild;
    var t1 := AddTree(sb, s, s1, t, d, e);
    AddedChild(Entries(s.disk, At(sb, s, d)), Entries(s1.disk, At(sb, s1, d)), e, e.no);
    DotsAreNoChildren(e.no, d);
    assert ListedOk(sb, s1, t1, e.no);
    InodeIntro(sb, s1, t1, e.no);
  }

  lemma AddedDir(sb: SuperBlock, s: Fs, s1: Fs, t: Tree, padding: set<int>, d: nat, e: Entry)
    requires FsOk(sb, s, t, padding) && d in t.kind && t.kind[d] == FT_DIRECTORY && d in t.parent && d in t.depth && d < 4096
    requires e.no as nat !in t.kind && 0 in t.kind && t.parent.Keys == t.kind.Keys && t.depth.Keys == t.kind.Keys
    requires AddStep(sb, s, s1, d, t.parent[d], e) && Touches(sb, s, s1, t, {d, e.no as nat})
    requires sb.dataStartLba as int !in FreeBlocks(sb, s1.bits)
    requires NodeOk(sb, s1, AddTree(sb, s, s1, t, d, e), d) && OwnsOk(sb, s1, AddTree(sb, s, s1, t, d, e), d)
    ensures InodeOk(sb, s1, AddTree(sb, s, s1, t, d, e), d)
  {
    hide FsOk, At, Reach, Directory, RegularFile, FreeBlocks, DirOwned, EntryAdded, AddBlocks, OtherInodes, Mirrors, Entries,
      NodeOk, OwnsOk,
      NoChild, Touches, EntriesOk, ListedOk, NewNode, IsChild;
    var t1 := AddTree(sb, s, s1, t, d, e);
    InodeParts(sb, s, t, padding, d);
    AddedEntries(sb, s, s1, t, t1, d, e);
    if d != 0 {
      ParentKept(sb, s, t, padding, d);
      ParentDepth(sb, s, t, padding, d);
    }
    KeptListed(sb, s, s1, t, t1, padding, {d, e.no as nat}, d);
    InodeIntro(sb, s1, t1, d);
  }

  lemma AddedOther(sb: SuperBlock, s: Fs, s1: Fs, t: Tree, padding: set<int>, d: nat, e: Entry, i: nat)
    requires FsOk(sb, s, t, padding) && d in t.kind && t.kind[d] == FT_DIRECTORY && d in t.parent && d in t.depth && d < 4096
    requires e.no as nat !in t.kind && i in t.kind && i != d && t.parent.Keys == t.kind.Keys && t.depth.Keys == t.kind.Keys
    requires AddStep(sb, s, s1, d, t.parent[d], e) && Touches(sb, s, s1, t, {d, e.no as nat})
    requires SameFamily(t, AddTree(sb, s, s1, t, d, e), i) && sb.dataStartLba as int !in FreeBlocks(sb, s1.bits)
    ensures InodeOk(sb, s1, AddTree(sb, s, s1, t, d, e), i)
  {
    hide FsOk, At, Reach, FreeBlocks, DirOwned, EntryAdded, AddBlocks, OtherInodes, Mirrors, Entries, NodeOk, OwnsOk,
      NoChild, Touches, EntriesOk, NewNode, Directory, IsChild;
    var t1 := AddTree(sb, s, s1, t, d, e);
    InodeParts(sb, s, t, padding, i);
    if i != 0 {
      ParentKept(sb, s, t, padding, i);
      if t.parent[i] as nat == d {
        AddedChild(Entries(s.disk, At(sb, s, d)), Entries(s1.disk, At(sb, s1, d)), e, i);
      }
    }
    KeptInode(sb, s, s1, t, t1, padding, {d, e.no as nat}, i);
  }

  // ----- removing a file or an empty directory -----

  /** Directory `d` does not list inode `no` any more. */
  ghost predicate RemoveEntry(sb: SuperBlock, s: Fs, s1: Fs, d: nat, parent: u32, no: u32) {
    var i0, i1 := At(sb, s, d), At(sb, s1, d);
    && i1.no == i0.no && Directory(s1.disk, sb, s1.bits, i1, parent)
    && ChildGone(Entries(s.disk, i0), Entries(s1.disk, i1), no)
  }

  /** The blocks `r` of the removed inode are free, and a block the directory gave up; only the directory's own blocks are
      written. */
  ghost predicate RemoveBlocks(sb: SuperBlock, s: Fs, s1: Fs, o0: set<int>, o1: set<int>, r: set<int>) {
    && |s1.disk| == |s.disk| && |s1.bits| == |s.bits| && o1 <= o0
    && FreeBlocks(sb, s1.bits) == FreeBlocks(sb, s.bits) + (o0 - o1) + r
    && (forall l :: sb.dataStartLba <= l < |s.disk| && l !in o0 ==> s1.disk[l] == s.disk[l])
  }

  ghost predicate RemoveStep(sb: SuperBlock, s: Fs, s1: Fs, d: nat, parent: u32, no: u32) {
    && d < 4096 && no < 4096
    && Mirrors(sb, s1) && BitUpdated(s.ibits, s1.ibits, no, false) && OtherInodes(sb, s, s1, {d, no as nat})
    && Confined(sb, s.disk, s1.disk)
    && RemoveEntry(sb, s, s1, d, parent, no)
    && RemoveBlocks(sb, s, s1, DirOwned(At(sb, s, d).sectors), DirOwned(At(sb, s1, d).sectors), Reach(s.disk, At(sb, s, no)))
  }

  ghost function RemoveTree(sb: SuperBlock, s: Fs, s1: Fs, t: Tree, d: nat, no: nat): Tree {
    var gone := DirOwned(At(sb, s, d).sectors) - DirOwned(At(sb, s1, d).sectors);
    Tree(t.kind - {no}, t.parent - {no}, t.depth - {no}, map x | x in t.owner && x !in gone && t.owner[x] != no :: t.owner[x])
  }

  /** Nothing has `no` for its parent. */
  ghost predicate Leaf(t: Tree, no: nat) {
    forall c :: c in t.kind && c in t.parent && c != 0 ==> t.parent[c] != no
  }

  lemma LeafFile(sb: SuperBlock, s: Fs, t: Tree, padding: set<int>, no: nat)
    requires FsOk(sb, s, t, padding) && no in t.kind && t.kind[no] == FT_REGULAR
    ensures Leaf(t, no)
  {
    hide FsOk;
    forall c | c in t.kind && c != 0
      ensures c in t.parent && t.parent[c] != no
    {
      ParentKept(sb, s, t, padding, c);
    }
  }

  lemma LeafDirectory(sb: SuperBlock, s: Fs, t: Tree, padding: set<int>, no: nat, parent: u32)
    requires FsOk(sb, s, t, padding) && no in t.kind && no < 4096
    requires Entries(s.disk, At(sb, s, no)) == [Entry(DOT, no, FT_DIRECTORY), Entry(DOT_DOT, parent, FT_DIRECTORY)]
    ensures Leaf(t, no)
  {
    hide FsOk, At, Entries, NodeOk, OwnsOk, IsChild, EntriesOk;
    DotsAreNoChildren(no, parent);
    forall c | c in t.kind && c != 0
      ensures c in t.parent && t.parent[c] != no
    {
      InodeParts(sb, s, t, padding, c);
    }
  }

  lemma RemoveTouches(sb: SuperBlock, s: Fs, s1: Fs, t: Tree, padding: set<int>, d: nat, parent: u32, no: u32)
    requires BlocksUsed(sb, s, t, padding) && RemoveStep(sb, s, s1, d, parent, no)
    requires OwnsOk(sb, s, t, d) && OwnsOk(sb, s, t, no) && Reach(s.disk, At(sb, s, d)) == DirOwned(At(sb, s, d).sectors)
    ensures Touches(sb, s, s1, t, {d, no as nat})
  {
    hide FreeBlocks, Reach, At, Mirrors, DataBlock, OtherInodes, Touches, RemoveEntry, DirOwned, BlocksUsed, BitUpdated;
    TouchesIntro(sb, s, s1, t, padding, {d, no as nat}, DirOwned(At(sb, s, d).sectors));
  }

  lemma RemoveInodesUsed(s: Fs, s1: Fs, t: Tree, no: nat, t1: Tree)
    requires InodesUsed(s, t) && no < 4096 && BitUpdated(s.ibits, s1.ibits, no, false)
    requires t1.kind == t.kind - {no} && t1.parent.Keys == t1.kind.Keys && t1.depth.Keys == t1.kind.Keys
    ensures InodesUsed(s1, t1)
  {
  }

  lemma RemoveBlocksUsed(sb: SuperBlock, s: Fs, s1: Fs, t: Tree, padding: set<int>, d: nat, parent: u32, no: u32)
    requires BlocksUsed(sb, s, t, padding) && RemoveStep(sb, s, s1, d, parent, no) && d != no as nat
    requires OwnsOk(sb, s, t, d) && OwnsOk(sb, s, t, no) && Reach(s.disk, At(sb, s, d)) == DirOwned(At(sb, s, d).sectors)
    requires Reach(s1.disk, At(sb, s1, d)) == DirOwned(At(sb, s1, d).sectors)
    ensures var t1 := RemoveTree(sb, s, s1, t, d, no);
      BlocksUsed(sb, s1, t1, padding) && OwnsOk(sb, s1, t1, d)
    ensures forall i {:trigger SameOwned(t, RemoveTree(sb, s, s1, t, d, no), i)} :: i != d && i != no as nat ==>
      SameOwned(t, RemoveTree(sb, s, s1, t, d, no), i)
  {
    hide At, Reach, DirOwned, Mirrors, OtherInodes, RemoveEntry, BitUpdated, FreeBlocks;
  }

  lemma RemoveFamily(sb: SuperBlock, s: Fs, s1: Fs, t: Tree, d: nat, no: nat, i: nat)
    requires i in t.kind && i != no && i != d && t.parent.Keys == t.kind.Keys && t.depth.Keys == t.kind.Keys
    requires SameOwned(t, RemoveTree(sb, s, s1, t, d, no), i) && no in t.parent && t.parent[no] == d
    ensures SameFamily(t, RemoveTree(sb, s, s1, t, d, no), i)
  {
    hide At, DirOwned, SameOwned;
  }

  lemma RemovedChild(l: seq<Entry>, m: seq<Entry>, no: u32, other: u32)
    requires ChildGone(l, m, no)
    ensures other != no && !NoChild(l, other) ==> !NoChild(m, other)
    ensures forall a :: 0 <= a < |m| ==> m[a] in l
    ensures GoodEntries(l) ==> NoChild(m, no)
  {
    hide IsChild, Named;
    var k: nat, e :| k <= |m| && IsChild(e) && e.no == no && l == Insert(m, k, e);
    InsertAt(m, k, e);
    if other != no && !NoChild(l, other) {
      var a :| 0 <= a < |l| && IsChild(l[a]) && l[a].no == other;
      assert m[if a < k then a else a - 1] == l[a];
    }
    forall a | 0 <= a < |m|
      ensures m[a] in l && (GoodEntries(l) ==> !(IsChild(m[a]) && m[a].no == no))
    {
      assert l[if a < k then a else a + 1] == m[a];
      assert GoodEntries(l) ==> if a < k then Compatible(l[a], l[k]) else Compatible(l[k], l[a + 1]);
    }
  }

  lemma RemovedEntries(sb: SuperBlock, s: Fs, s1: Fs, t: Tree, t1: Tree, d: nat, no: u32)
    requires EntriesOk(sb, s, t, d) && ChildGone(Entries(s.disk, At(sb, s, d)), Entries(s1.disk, At(sb, s1, d)), no)
    requires GoodEntries(Entries(s.disk, At(sb, s, d)))
    requires d in t.depth && d in t1.depth && t1.depth[d] == t.depth[d]
    requires forall c {:trigger SameInTree(t, t1, c)} :: c in t.kind && c in t.parent && t.parent[c] == d && c != no as nat ==>
      SameInTree(t, t1, c)
    ensures EntriesOk(sb, s1, t1, d)
  {
    hide At, Entries, IsChild, GoodEntries;
    var l, m := Entries(s.disk, At(sb, s, d)), Entries(s1.disk, At(sb, s1, d));
    RemovedChild(l, m, no, no);
    forall k | 0 <= k < |m|
      ensures EntryOk(t1, d, m[k])
    {
      var a :| 0 <= a < |l| && l[a] == m[k];
      assert EntryOk(t, d, l[a]);
      if IsChild(l[a]) {
        assert l[a].no != no;
        assert SameInTree(t, t1, l[a].no);
      }
    }
  }

  lemma RemoveNode(sb: SuperBlock, s: Fs, s1: Fs, t: Tree, d: nat, no: u32)
    requires d in t.kind && t.kind[d] == FT_DIRECTORY && d in t.parent && d < 4096 && d != no as nat
    requires NodeOk(sb, s, t, d) && RemoveStep(sb, s, s1, d, t.parent[d], no)
    ensures NodeOk(sb, s1, RemoveTree(sb, s, s1, t, d, no), d)
    ensures Reach(s.disk, At(sb, s, d)) == DirOwned(At(sb, s, d).sectors)
    ensures Reach(s1.disk, At(sb, s1, d)) == DirOwned(At(sb, s1, d).sectors)
    ensures sb.dataStartLba as int !in FreeBlocks(sb, s1.bits)
    ensures sb.dataStartLba as int in DirOwned(At(sb, s1, d).sectors) ==>
      |At(sb, s1, d).sectors| == 13 && At(sb, s1, d).sectors[0] == sb.dataStartLba
    ensures GoodEntries(Entries(s.disk, At(sb, s, d)))
  {
    hide At, Reach, Directory, RegularFile, FreeBlocks, DirOwned, ChildGone, RemoveBlocks, OtherInodes, Mirrors, Entries,
      GoodEntries, BitUpdated;
    DirectorySized(s.disk, sb, s.bits, At(sb, s, d), t.parent[d]);
    DirectorySized(s1.disk, sb, s1.bits, At(sb, s1, d), t.parent[d]);
    ReachDirectory(s.disk, At(sb, s, d));
    ReachDirectory(s1.disk, At(sb, s1, d));
    DirectoryStart(s1.disk, sb, s1.bits, At(sb, s1, d), t.parent[d]);
    DirectoryParts(s.disk, sb, s.bits, At(sb, s, d), t.parent[d]);
  }

  lemma RemoveRoot(sb: SuperBlock, s: Fs, s1: Fs, t: Tree, padding: set<int>, d: nat, no: u32)
    requires RootOk(sb, s, t) && OwnsOk(sb, s, t, 0) && Geometry(sb, |s.disk|) && Touches(sb, s, s1, t, {d, no as nat})
    requires t.parent.Keys == t.kind.Keys && t.depth.Keys == t.kind.Keys && no != 0
    requires Reach(s.disk, At(sb, s, d)) == DirOwned(At(sb, s, d).sectors)
    requires DirOwned(At(sb, s, d).sectors) - DirOwned(At(sb, s1, d).sectors) <= FreeBlocks(sb, s1.bits)
    requires sb.dataStartLba as int !in FreeBlocks(sb, s1.bits)
    requires sb.dataStartLba as int in DirOwned(At(sb, s1, d).sectors) ==>
      |At(sb, s1, d).sectors| == 13 && At(sb, s1, d).sectors[0] == sb.dataStartLba
    ensures RootOk(sb, s1, RemoveTree(sb, s, s1, t, d, no))
  {
    hide At, Reach, FreeBlocks, OwnsOk, Touches, DirOwned;
    if d == 0 {
      RootStart(sb, s, t);
    } else {
      RootKept(sb, s, s1, t, RemoveTree(sb, s, s1, t, d, no), padding, {d, no as nat});
    }
  }

  lemma RemoveShrinks(sb: SuperBlock, s: Fs, s1: Fs, d: nat, parent: u32, no: u32)
    requires RemoveStep(sb, s, s1, d, parent, no)
    ensures DirOwned(At(sb, s, d).sectors) - DirOwned(At(sb, s1, d).sectors) <= FreeBlocks(sb, s1.bits)
  {
    hide At, Reach, FreeBlocks, Mirrors, OtherInodes, RemoveEntry, DirOwned, BitUpdated;
  }

  lemma RemovedDir(sb: SuperBlock, s: Fs, s1: Fs, t: Tree, padding: set<int>, d: nat, no: u32)
    requires FsOk(sb, s, t, padding) && d in t.kind && t.kind[d] == FT_DIRECTORY && d in t.parent && d in t.depth && d < 4096
    requires no != 0 && d != no as nat && t.parent.Keys == t.kind.Keys && t.depth.Keys == t.kind.Keys && Leaf(t, no)
    requires RemoveStep(sb, s, s1, d, t.parent[d], no) && Touches(sb, s, s1, t, {d, no as nat})
    requires sb.dataStartLba as int !in FreeBlocks(sb, s1.bits) && GoodEntries(Entries(s.disk, At(sb, s, d)))
    requires NodeOk(sb, s1, RemoveTree(sb, s, s1, t, d, no), d) && OwnsOk(sb, s1, RemoveTree(sb, s, s1, t, d, no), d)
    ensures InodeOk(sb, s1, RemoveTree(sb, s, s1, t, d, no), d)
  {
    hide FsOk, At, Reach, Directory, FreeBlocks, DirOwned, ChildGone, RemoveBlocks, OtherInodes, Mirrors, Entries, NodeOk, OwnsOk,
      NoChild, Touches, EntriesOk, ListedOk, BitUpdated, GoodEntries;
    var t1 := RemoveTree(sb, s, s1, t, d, no);
    InodeParts(sb, s, t, padding, d);
    RemovedEntries(sb, s, s1, t, t1, d, no);
    if d != 0 {
      ParentKept(sb, s, t, padding, d);
      ParentDepth(sb, s, t, padding, d);
    }
    KeptListed(sb, s, s1, t, t1, padding, {d, no as nat}, d);
    InodeIntro(sb, s1, t1, d);
  }

  lemma RemovedOther(sb: SuperBlock, s: Fs, s1: Fs, t: Tree, padding: set<int>, d: nat, no: u32, i: nat)
    requires FsOk(sb, s, t, padding) && d in t.kind && t.kind[d] == FT_DIRECTORY && d in t.parent && d in t.depth && d < 4096
    requires i in t.kind && i != d && i != no as nat && t.parent.Keys == t.kind.Keys && t.depth.Keys == t.kind.Keys && Leaf(t, no)
    requires no != 0 && d != no as nat && RemoveStep(sb, s, s1, d, t.parent[d], no) && Touches(sb, s, s1, t, {d, no as nat})
    requires SameFamily(t, RemoveTree(sb, s, s1, t, d, no), i) && sb.dataStartLba as int !in FreeBlocks(sb, s1.bits)
    ensures InodeOk(sb, s1, RemoveTree(sb, s, s1, t, d, no), i)
  {
    hide FsOk, At, Reach, FreeBlocks, DirOwned, ChildGone, RemoveBlocks, OtherInodes, Mirrors, Entries, NodeOk, OwnsOk,
      NoChild, Touches, EntriesOk, Directory, BitUpdated;
    var t1 := RemoveTree(sb, s, s1, t, d, no);
    InodeParts(sb, s, t, padding, i);
    if i != 0 {
      ParentKept(sb, s, t, padding, i);
      if t.parent[i] as nat == d {
        RemovedChild(Entries(s.disk, At(sb, s, d)), Entries(s1.disk, At(sb, s1, d)), no, i);
      }
    }
    KeptInode(sb, s, s1, t, t1, padding, {d, no as nat}, i);
  }

  /** Removing a file or an empty directory keeps the invariant: exactly the victim's blocks and number are free again,
      and a block of its directory if it was alone there. */
  lemma RemoveOk(sb: SuperBlock, s: Fs, s1: Fs, t: Tree, padding: set<int>, d: nat, no: u32)
    requires FsOk(sb, s, t, padding) && no as nat in t.kind && no != 0 && no as nat in t.parent && t.parent[no] == d
    requires Leaf(t, no)
    requires d in t.parent && RemoveStep(sb, s, s1, d, t.parent[d], no)
    ensures FsOk(sb, s1, RemoveTree(sb, s, s1, t, d, no), padding)
  {
    hide FsOk, Touches, At, NodeOk, OwnsOk, Reach, Entries, FreeBlocks, NoChild, EntriesOk, ListedOk, InodesUsed, BlocksUsed,
      RootOk,
      Mirrors, Directory, Geometry, SameFamily, DirOwned, RemoveEntry, RemoveBlocks, OtherInodes, IsChild, BitUpdated, Leaf,
      GoodEntries, SuperHeld,
      Confined;
    var t1 := RemoveTree(sb, s, s1, t, d, no);
    ParentKept(sb, s, t, padding, no);
    ParentDepth(sb, s, t, padding, no);
    FsParts(sb, s, t, padding);
    InodesUsedKeys(s, t);
    InodeParts(sb, s, t, padding, d);
    InodeParts(sb, s, t, padding, no);
    RemoveInodesUsed(s, s1, t, no, t1);
    RemoveNode(sb, s, s1, t, d, no);
    RemoveTouches(sb, s, s1, t, padding, d, t.parent[d], no);
    RemoveBlocksUsed(sb, s, s1, t, padding, d, t.parent[d], no);
    RootIsDirectory(sb, s, t, padding);
    RemoveShrinks(sb, s, s1, d, t.parent[d], no);
    SuperKept(sb, s.disk, s1.disk);
    RemoveRoot(sb, s, s1, t, padding, d, no);
    forall i | i in t1.kind
      ensures InodeOk(sb, s1, t1, i)
    {
      InodeParts(sb, s, t, padding, i);
      if i == d {
        RemovedDir(sb, s, s1, t, padding, d, no);
      } else {
        RemoveFamily(sb, s, s1, t, d, no, i);
        RemovedOther(sb, s, s1, t, padding, d, no, i);
      }
    }
    FsIntro(sb, s1, t1, padding);
  }

  // ----- every run -----

  datatype FsAction =
    | Write(no: nat, buf: seq<byte>)
    | Add(d: nat, e: Entry)         // create a file, or make a directory
    | Remove(d: nat, victim: u32)   // unlink a file, or remove an empty directory

  /** One successful operation on a live inode of the right type. */
  ghost predicate FsStep(sb: SuperBlock, s: Fs, t: Tree, a: FsAction, s1: Fs, t1: Tree) {
    match a
    case Write(no, buf) =>
      no in t.kind && t.kind[no] == FT_REGULAR && WriteStep(sb, s, s1, no, buf) && t1 == WriteTree(sb, s, s1, t, no)
    case Add(d, e) =>
      && d in t.kind && t.kind[d] == FT_DIRECTORY && d in t.parent && d in t.depth && d < 4096
      && AddStep(sb, s, s1, d, t.parent[d], e) && t1 == AddTree(sb, s, s1, t, d, e)
    case Remove(d, no) =>
      && no as nat in t.kind && no != 0 && no as nat in t.parent && t.parent[no] == d && d in t.parent
      && (t.kind[no] == FT_REGULAR || |Entries(s.disk, At(sb, s, no))| == 2)
      && RemoveStep(sb, s, s1, d, t.parent[d], no) && t1 == RemoveTree(sb, s, s1, t, d, no)
  }

  lemma FsStepOk(sb: SuperBlock, s: Fs, t: Tree, a: FsAction, s1: Fs, t1: Tree, padding: set<int>)
    requires FsOk(sb, s, t, padding) && FsStep(sb, s, t, a, s1, t1)
    ensures FsOk(sb, s1, t1, padding)
  {
    hide FsOk, WriteStep, AddStep, RemoveStep, At, Entries, WriteTree, AddTree, RemoveTree;
    match a
    case Write(no, buf) => WriteOk(sb, s, s1, t, padding, no, buf);
    case Add(d, e) => AddOk(sb, s, s1, t, padding, d, e);
    case Remove(d, no) =>
      VictimLeaf(sb, s, t, padding, no);
      RemoveOk(sb, s, s1, t, padding, d, no);
  }

  lemma VictimLeaf(sb: SuperBlock, s: Fs, t: Tree, padding: set<int>, no: u32)
    requires FsOk(sb, s, t, padding) && no as nat in t.kind
    requires t.kind[no] == FT_REGULAR || |Entries(s.disk, At(sb, s, no))| == 2
    ensures Leaf(t, no)
  {
    hide FsOk, At, Entries, OwnsOk, ListedOk, EntriesOk, Leaf, NodeOk, Directory;
    InodeParts(sb, s, t, padding, no);
    if t.kind[no] == FT_REGULAR {
      LeafFile(sb, s, t, padding, no);
    } else {
      NodeDirectory(sb, s, t, no);
      TwoEntries(s.disk, sb, s.bits, At(sb, s, no), t.parent[no]);
      LeafDirectory(sb, s, t, padding, no, t.parent[no]);
    }
  }

  lemma TwoEntries(d: seq<Sector>, sb: SuperBlock, bits: seq<byte>, i: DiskInode, parent: u32)
    requires Directory(d, sb, bits, i, parent) && |Entries(d, i)| == 2
    ensures Entries(d, i) == [Entry(DOT, i.no, FT_DIRECTORY), Entry(DOT_DOT, parent, FT_DIRECTORY)]
  {
    hide Directory, Entries;
    FirstEntries(d, sb, bits, i, parent);
    TakeAll(Entries(d, i), 2);
  }

  lemma TakeAll(l: seq<Entry>, n: nat)
    requires |l| == n
    ensures l[..n] == l
  {
  }

  lemma NodeDirectory(sb: SuperBlock, s: Fs, t: Tree, i: nat)
    requires NodeOk(sb, s, t, i) && t.kind[i] != FT_REGULAR
    ensures t.kind[i] == FT_DIRECTORY && Directory(s.disk, sb, s.bits, At(sb, s, i), t.parent[i]) && At(sb, s, i).no == i
  {
    hide At, Directory, RegularFile;
  }

  /** A run of operations from a well-formed file system. */
  ghost predicate FsRun(sb: SuperBlock, padding: set<int>, ss: seq<Fs>, ts: seq<Tree>, acts: seq<FsAction>) {
    && |ss| == |ts| == |acts| + 1 && FsOk(sb, ss[0], ts[0], padding)
    && forall k :: 0 <= k < |acts| ==> FsStep(sb, ss[k], ts[k], acts[k], ss[k + 1], ts[k + 1])
  }

  lemma {:induction false} FsRunOk(sb: SuperBlock, padding: set<int>, ss: seq<Fs>, ts: seq<Tree>, acts: seq<FsAction>, n: nat)
    requires FsRun(sb, padding, ss, ts, acts) && n < |ss|
    ensures FsOk(sb, ss[n], ts[n], padding)
  {
    hide FsOk, FsStep;
    if n > 0 {
      FsRunOk(sb, padding, ss, ts, acts, n - 1);
      FsStepOk(sb, ss[n - 1], ts[n - 1], acts[n - 1], ss[n], ts[n], padding);
    }
  }

  /** The inodes an action changes. */
  function Changed(a: FsAction): set<nat> {
    match a
    case Write(no, _) => {no}
    case Add(d, e) => {d, e.no as nat}
    case Remove(d, no) => {d, no as nat}
  }

  lemma StepTouches(sb: SuperBlock, s: Fs, t: Tree, a: FsAction, s1: Fs, t1: Tree, padding: set<int>)
    requires FsOk(sb, s, t, padding) && FsStep(sb, s, t, a, s1, t1)
    ensures Touches(sb, s, s1, t, Changed(a))
  {
    hide FsOk, Touches, At, NodeOk, OwnsOk, Reach, Entries, FreeBlocks, ListedOk, EntriesOk, InodesUsed, BlocksUsed, RootOk,
      Mirrors,
      WriteStep, AddStep, RemoveStep, WriteTree, AddTree, RemoveTree, DirOwned, Geometry;
    FsParts(sb, s, t, padding);
    match a
    case Write(no, buf) =>
      InodeParts(sb, s, t, padding, no);
      WriteTouches(sb, s, s1, t, padding, no, buf);
    case Add(d, e) =>
      InodeParts(sb, s, t, padding, d);
      AddedNumber(sb, s, s1, t, d, e);
      AddNodes(sb, s, s1, t, d, e);
      AddTouches(sb, s, s1, t, padding, d, t.parent[d], e);
    case Remove(d, no) =>
      ParentKept(sb, s, t, padding, no);
      ParentDepth(sb, s, t, padding, no);
      InodeParts(sb, s, t, padding, d);
      InodeParts(sb, s, t, padding, no);
      RemoveNode(sb, s, s1, t, d, no);
      RemoveTouches(sb, s, s1, t, padding, d, t.parent[d], no);
  }

  lemma AddedNumber(sb: SuperBlock, s: Fs, s1: Fs, t: Tree, d: nat, e: Entry)
    requires InodesUsed(s, t) && d in t.kind && d in t.parent && AddStep(sb, s, s1, d, t.parent[d], e)
    ensures e.no as nat !in t.kind && e.no as nat != d && d < 4096 && (e.kind == FT_DIRECTORY || e.kind == FT_REGULAR)
  {
    hide AddEntry, NewNode, AddBlocks, OtherInodes, Mirrors, At, Reach, DirOwned, Confined;
    AddFresh(s, s1, t, e.no);
  }

  /** A sector that is neither free nor owned is not written, and stays so. */
  lemma StepAway(sb: SuperBlock, s: Fs, t: Tree, a: FsAction, s1: Fs, t1: Tree, padding: set<int>, x: int)
    requires FsOk(sb, s, t, padding) && FsStep(sb, s, t, a, s1, t1) && sb.dataStartLba <= x
    requires x !in FreeBlocks(sb, s.bits) && x !in t.owner
    ensures x !in FreeBlocks(sb, s1.bits) && x !in t1.owner && |s1.disk| == |s.disk|
    ensures x < |s.disk| ==> s1.disk[x] == s.disk[x]
  {
    hide *;
    StepTouches(sb, s, t, a, s1, t1, padding);
    FsStepOk(sb, s, t, a, s1, t1, padding);
    FsParts(sb, s, t, padding);
    FsParts(sb, s1, t1, padding);
    AwayStays(sb, s, t, s1, t1, padding, Changed(a), x);
  }

  lemma AwayStays(sb: SuperBlock, s: Fs, t: Tree, s1: Fs, t1: Tree, padding: set<int>, changed: set<nat>, x: int)
    requires BlocksUsed(sb, s, t, padding) && BlocksUsed(sb, s1, t1, padding) && Touches(sb, s, s1, t, changed)
    requires sb.dataStartLba <= x && x !in FreeBlocks(sb, s.bits) && x !in t.owner
    ensures x !in FreeBlocks(sb, s1.bits) && x !in t1.owner && |s1.disk| == |s.disk|
    ensures x < |s.disk| ==> s1.disk[x] == s.disk[x]
  {
    FreeAreData(sb, s1.bits);
    hide FreeBlocks, At;
    assert |s1.bits| == |s.bits|;
  }

  /** A run that starts with the sector behind the partition neither free nor owned never writes it: it stays within the
      partition. */
  lemma {:induction false} RunInPartition(sb: SuperBlock, padding: set<int>, ss: seq<Fs>, ts: seq<Tree>, acts: seq<FsAction>,
        n: nat)
    requires FsRun(sb, padding, ss, ts, acts) && n < |ss|
    requires PartEnd(sb) !in FreeBlocks(sb, ss[0].bits) && PartEnd(sb) !in ts[0].owner
    ensures PartEnd(sb) !in FreeBlocks(sb, ss[n].bits) && PartEnd(sb) !in ts[n].owner && |ss[n].disk| == |ss[0].disk|
    ensures forall l :: 0 <= l < |ss[0].disk| && !(sb.blockBitmapLba <= l < PartEnd(sb)) ==> ss[n].disk[l] == ss[0].disk[l]
  {
    hide FsOk, FsStep, Confined, SuperHeld, FreeBlocks, Mirrors, InodesUsed, BlocksUsed, RootOk;
    RunConfined(sb, padding, ss, ts, acts, n);
    ConfinedBut(sb, ss[0].disk, ss[n].disk);
    if n > 0 {
      RunInPartition(sb, padding, ss, ts, acts, n - 1);
      FsRunOk(sb, padding, ss, ts, acts, n - 1);
      FsParts(sb, ss[n - 1], ts[n - 1], padding);
      StepAway(sb, ss[n - 1], ts[n - 1], acts[n - 1], ss[n], ts[n], padding, PartEnd(sb));
    }
  }

  lemma ConfinedBut(sb: SuperBlock, d0: seq<Sector>, d1: seq<Sector>)
    requires Confined(sb, d0, d1)
    ensures |d1| == |d0|
    ensures forall l :: 0 <= l < |d0| && !(sb.blockBitmapLba <= l < PartEnd(sb)) && l != PartEnd(sb) ==> d1[l] == d0[l]
  {
  }

  /** In every run no sector outside the partition, the one behind it aside, is written, and the super block stays. */
  lemma {:induction false} RunConfined(sb: SuperBlock, padding: set<int>, ss: seq<Fs>, ts: seq<Tree>, acts: seq<FsAction>, n: nat)
    requires FsRun(sb, padding, ss, ts, acts) && n < |ss|
    ensures Confined(sb, ss[0].disk, ss[n].disk) && SuperHeld(sb, ss[n].disk)
  {
    hide FsOk, FsStep, Confined, SuperHeld;
    FsRunOk(sb, padding, ss, ts, acts, n);
    FsParts(sb, ss[n], ts[n], padding);
    if n == 0 {
      ConfinedSelf(sb, ss[0].disk);
    } else {
      RunConfined(sb, padding, ss, ts, acts, n - 1);
      FsRunOk(sb, padding, ss, ts, acts, n - 1);
      FsParts(sb, ss[n - 1], ts[n - 1], padding);
      StepConfined(sb, ss[n - 1], ts[n - 1], acts[n - 1], ss[n], ts[n]);
      ConfinedTwice(sb, ss[0].disk, ss[n - 1].disk, ss[n].disk);
    }
  }

  lemma ConfinedSelf(sb: SuperBlock, d: seq<Sector>)
    ensures Confined(sb, d, d)
  {
  }

  lemma StepConfined(sb: SuperBlock, s: Fs, t: Tree, a: FsAction, s1: Fs, t1: Tree)
    requires Geometry(sb, |s.disk|) && FsStep(sb, s, t, a, s1, t1)
    ensures Confined(sb, s.disk, s1.disk)
  {
    hide Confined, WriteStep, At, Entries, WriteTree, AddTree, RemoveTree, Mirrors, AddUsed, OtherInodes, AddEntry, NewNode,
      AddBlocks,
      RemoveEntry, RemoveBlocks, BitUpdated;
    if a.Write? {
      WriteConfined(sb, s, s1, a.no, a.buf);
    }
  }

  /** The inode `i` is allocated and leads to block `x`. */
  ghost predicate Leads(sb: SuperBlock, s: Fs, i: nat, x: int) {
    i < 4096 && BitSetIn(s.ibits, i) && x in Reach(s.disk, At(sb, s, i))
  }

  /** In every run: a block that is not padding is in use exactly if an allocated inode leads to it, and then only one does. */
  lemma BlocksExact(sb: SuperBlock, padding: set<int>, ss: seq<Fs>, ts: seq<Tree>, acts: seq<FsAction>, n: nat, x: int)
    requires FsRun(sb, padding, ss, ts, acts) && n < |ss| && DataBlock(sb, ss[n].bits, x) && x !in padding
    ensures x !in FreeBlocks(sb, ss[n].bits) <==> exists i: nat :: Leads(sb, ss[n], i, x)
    ensures forall i: nat, j: nat :: Leads(sb, ss[n], i, x) && Leads(sb, ss[n], j, x) ==> i == j
  {
    hide FsOk, FsStep, InodeOk;
    FsRunOk(sb, padding, ss, ts, acts, n);
    OwnedExactly(sb, ss[n], ts[n], padding, x);
  }

  lemma OwnedExactly(sb: SuperBlock, s: Fs, t: Tree, padding: set<int>, x: int)
    requires FsOk(sb, s, t, padding) && DataBlock(sb, s.bits, x) && x !in padding
    ensures x !in FreeBlocks(sb, s.bits) <==> exists i: nat :: Leads(sb, s, i, x)
    ensures forall i: nat, j: nat :: Leads(sb, s, i, x) && Leads(sb, s, j, x) ==> i == j
  {
    hide FsOk, At, Reach, FreeBlocks, RootOk, Mirrors, NodeOk, ListedOk, EntriesOk, SuperHeld;
    FsParts(sb, s, t, padding);
    forall i: nat
      ensures Leads(sb, s, i, x) <==> i in t.kind && OwnedBy(t, x, i)
    {
      if i in t.kind {
        InodeParts(sb, s, t, padding, i);
      }
    }
    if x !in FreeBlocks(sb, s.bits) {
      assert Leads(sb, s, t.owner[x], x);
    }
  }
}
