/** The operations that create and remove inodes: inode_open, inode_close, inode_delete and inode_realse of fs/inode.c,
    file_create of fs/file.c, and what sys_mkdir, sys_unlink and sys_rmdir do once the path has been found. */
module Operations {
  import opened Bytes
  import opened Wrappers
  import opened Bitmaps
  import opened Disks
  import opened InodeTables
  import opened Partitions
  import opened Files
  import opened DirEntries
  import opened Dirs
  import opened FileSystems

  ghost function View(part: Partition): Fs
    reads part`disk, part.blockBitmap.bits, part.inodeBitmap.bits
  {
    Fs(part.disk, part.Bits(), part.inodeBitmap.bits[..])
  }

  // ----- the inode cache -----

  /** Each number is cached once. */
  ghost predicate NoTwins(l: seq<Inode>)
    reads l`no
  {
    forall j, k :: 0 <= j < k < |l| ==> l[j] != l[k] && l[j].no != l[k].no
  }

  /** A cached inode in use is what a fresh read from the disk would give. */
  ghost predicate CacheAgrees(sb: SuperBlock, s: Fs, l: seq<Inode>)
    reads l
  {
    forall k :: 0 <= k < |l| ==> l[k].no < 4096 && BitSetIn(s.ibits, l[k].no) && l[k].Disk() == At(sb, s, l[k].no)
  }

  /** The cached inodes, and how often each is open. */
  ghost function Cache(part: Partition): map<Inode, nat>
    reads part`openInodes, part.openInodes`openCnts
  {
    map o | o in part.openInodes :: o.openCnts
  }

  ghost predicate Cached(l: seq<Inode>, no: nat)
    reads l`no
  {
    exists o :: o in l && o.no as nat == no
  }

  /** `inode_open`: the cached inode of that number, or one read from the disk and put in front. */
  method InodeOpen(part: Partition, no: nat) returns (inode: Inode)
    requires part.Ready() && no < 4096 && InodeAt(part.disk, part.sb, no).no == no && NoTwins(part.openInodes)
    requires forall k :: 0 <= k < |part.openInodes| && part.openInodes[k].no == no ==>
      part.openInodes[k].Disk() == InodeAt(part.disk, part.sb, no)
    modifies part`openInodes, part.openInodes`openCnts
    ensures inode.Disk() == InodeAt(part.disk, part.sb, no) && inode.no == no
    ensures inode in old(part.openInodes) ==> part.openInodes == old(part.openInodes) && inode.openCnts == old(inode.openCnts) + 1
    ensures inode !in old(part.openInodes) ==>
      fresh(inode) && inode.openCnts == 1 && !inode.writenDeny && part.openInodes == [inode] + old(part.openInodes)
    ensures inode in old(part.openInodes) <==> exists k :: 0 <= k < |old(part.openInodes)| && old(part.openInodes)[k].no == no
    ensures forall o :: o in old(part.openInodes) && o != inode ==> o.openCnts == old(o.openCnts)
    ensures NoTwins(part.openInodes)
  {
    var l := part.openInodes;
    var i := 0;
    while i < |l|
      invariant 0 <= i <= |l| && forall k :: 0 <= k < i ==> l[k].no != no
    {
      if l[i].no == no {
        inode := l[i];
        inode.openCnts := inode.openCnts + 1;
        return;
      }
      i := i + 1;
    }
    inode := new Inode(InodeAt(part.disk, part.sb, no));
    part.openInodes := [inode] + part.openInodes;
    inode.openCnts := 1;
  }

  /** The list without the inode at position `i`. */
  function Dropped(l: seq<Inode>, i: nat): seq<Inode>
    requires i < |l|
  {
    l[..i] + l[i + 1..]
  }

  /** `inode_close` of a cached inode. */
  method InodeClose(part: Partition, inode: Inode)
    requires inode in part.openInodes && inode.openCnts > 0 && NoTwins(part.openInodes)
    modifies part`openInodes, inode`openCnts
    ensures inode.openCnts == old(inode.openCnts) - 1 && NoTwins(part.openInodes)
    ensures inode.openCnts > 0 ==> part.openInodes == old(part.openInodes)
    ensures inode.openCnts == 0 ==>
      forall o :: o in part.openInodes <==> o in old(part.openInodes) && o != inode
  {
    inode.openCnts := inode.openCnts - 1;
    if inode.openCnts == 0 {
      var l := part.openInodes;
      var i := 0;
      while l[i] != inode
        invariant 0 <= i < |l| && forall k :: 0 <= k < i ==> l[k] != inode
        decreases |l| - i
      {
        i := i + 1;
      }
      part.openInodes := Dropped(l, i);
      DroppedHolds(l, i);
    }
  }

  lemma DroppedHolds(l: seq<Inode>, i: nat)
    requires i < |l| && NoTwins(l)
    ensures forall o :: o in Dropped(l, i) <==> o in l && o != l[i]
    ensures NoTwins(Dropped(l, i))
  {
    var m := Dropped(l, i);
    assert forall k :: 0 <= k < |m| ==> m[k] == l[if k < i then k else k + 1];
    assert forall k :: 0 <= k < |l| && k != i ==> l[k] == m[if k < i then k else k - 1];
  }

  // ----- inode_delete and inode_realse -----

  /** `inode_delete`: the inode's window of the table is cleared. */
  method InodeDelete(part: Partition, no: nat)
    requires part.Ready() && no < 4096
    modifies part`disk
    ensures part.Ready() && WindowWritten(old(part.disk), part.disk, part.sb, no, Copies<byte>(0, 76))
  {
    var p := InodeLocate(part.sb, no);
    InodeInTable(part.sb, |part.disk|, no);
    assert p.secLba <= part.sb.dataStartLba;
    part.disk := WriteWindow(part.disk, part.sb, no, Copies<byte>(0, 76));
  }

  /** From (d0, b0) to (d1, b1) the bits of the blocks `freed` were cleared and written through; only sectors of the bitmap
      changed. */
  ghost predicate Freed(sb: SuperBlock, d0: seq<Sector>, b0: seq<byte>, d1: seq<Sector>, b1: seq<byte>, freed: set<int>) {
    && |d1| == |d0| && |b1| == |b0| && BlockMirror(d1, sb, b1) && FreeWithin(sb, b1)
    && FreeBlocks(sb, b1) == FreeBlocks(sb, b0) + freed
    && (forall l :: 0 <= l < |d0| && !InBlockBitmap(sb, l) ==> d1[l] == d0[l])
  }

  lemma FreedMore(sb: SuperBlock, d0: seq<Sector>, b0: seq<byte>, d: seq<Sector>, b: seq<byte>, f: set<int>,
      d1: seq<Sector>, b1: seq<byte>, x: int)
    requires Freed(sb, d0, b0, d, b, f) && Freed(sb, d, b, d1, b1, {x})
    ensures Freed(sb, d0, b0, d1, b1, f + {x})
  {
  }

  /** `bitmap_set(.., 0)` and the `bitmap_sync` that follows it. */
  method FreeBlockBit(part: Partition, x: u32)
    requires part.Writable() && part.sb.dataStartLba <= x < |part.disk| && x < part.sb.dataStartLba + 8 * |part.Bits()|
    requires x <= PartEnd(part.sb)
    modifies part`disk, part.blockBitmap.bits
    ensures part.Writable() && Freed(part.sb, old(part.disk), old(part.Bits()), part.disk, part.Bits(), {x as int})
  {
    hide *;
    ghost var sb, d0, b0 := part.sb, part.disk, part.Bits();
    part.WritableFacts();
    part.BitsFacts();
    var blockBitmapIdx := x - part.sb.dataStartLba;
    part.blockBitmap.Set(blockBitmapIdx, false);
    part.BitsFacts();
    RecycledBits(sb, d0, b0, part.Bits(), x);
    part.BitmapSync(blockBitmapIdx, BLOCK_BITMAP);
    FreedIntro(sb, d0, b0, part.disk, part.Bits(), {x as int});
    part.StillWritable(part.disk);
  }

  lemma FreedIntro(sb: SuperBlock, d0: seq<Sector>, b0: seq<byte>, d1: seq<Sector>, b1: seq<byte>, freed: set<int>)
    requires |d1| == |d0| && |b1| == |b0| && BlockMirror(d1, sb, b1) && FreeWithin(sb, b1)
    requires FreeBlocks(sb, b1) == FreeBlocks(sb, b0) + freed
    requires forall l :: 0 <= l < |d0| && !InBlockBitmap(sb, l) ==> d1[l] == d0[l]
    ensures Freed(sb, d0, b0, d1, b1, freed)
  {
  }

  /** The blocks among the first `n` of `all_blocks`. */
  ghost function Listed(all: seq<u32>, n: nat): set<int> {
    set k | 0 <= k < n && k < |all| && all[k] != 0 :: all[k] as int
  }

  lemma ListedMore(all: seq<u32>, n: nat)
    requires n < |all|
    ensures Listed(all, n + 1) == Listed(all, n) + if all[n] == 0 then {} else {all[n] as int}
    ensures Listed(all, 0) == {}
  {
  }

  /** The collected addresses are the blocks the inode leads to. */
  lemma ListedReach(disk: seq<Sector>, i: DiskInode, all: seq<u32>, cnt: nat)
    requires |i.sectors| == 13 && |all| == 140
    requires forall k :: 0 <= k < 140 ==> all[k] == Addr(disk, i.sectors, k)
    requires cnt == if i.sectors[12] == 0 then 12 else 140
    ensures Reach(disk, i) == Listed(all, cnt) + if i.sectors[12] == 0 then {} else {i.sectors[12] as int}
  {
    forall x | x in Reach(disk, i) && !(i.sectors[12] != 0 && x == i.sectors[12] as int)
      ensures x in Listed(all, cnt)
    {
      var b :| 0 <= b < 140 && Addr(disk, i.sectors, b) != 0 && x == Addr(disk, i.sectors, b) as int;
      assert b < cnt && all[b] as int == x;
    }
    forall x | x in Listed(all, cnt)
      ensures x in Reach(disk, i)
    {
      var k :| 0 <= k < cnt && all[k] != 0 && x == all[k] as int;
      assert Addr(disk, i.sectors, k) as int == x;
    }
  }

  /** What an inode leads to can be given back: blocks in use, not the first data block. */
  ghost predicate Returnable(sb: SuperBlock, n: nat, bits: seq<byte>, xs: set<int>) {
    forall x :: x in xs ==> sb.dataStartLba < x < n && x < sb.dataStartLba + 8 * |bits| && x <= PartEnd(sb)
  }

  /** The collecting part of `inode_realse`. */
  method CollectAll(disk: seq<Sector>, inode: Inode) returns (allBlocks: seq<u32>, blockCnt: nat)
    requires |inode.sectors| == 13 && inode.sectors[12] < |disk|
    ensures |allBlocks| == 140 && forall k :: 0 <= k < 140 ==> allBlocks[k] == Addr(disk, inode.sectors, k)
    ensures blockCnt == if inode.sectors[12] == 0 then 12 else 140
  {
    allBlocks := inode.sectors[..12] + Copies<u32>(0, 128);
    blockCnt := 12;
    if inode.sectors[12] != 0 {
      allBlocks := inode.sectors[..12] + ReadTable(disk, inode.sectors[12])[12..];
      blockCnt := 140;
    }
  }

  /** The loop of `inode_realse` that gives the blocks back. */
  method FreeAll(part: Partition, i: DiskInode, allBlocks: seq<u32>, blockCnt: nat)
    requires part.Writable() && |i.sectors| == 13 && |allBlocks| == 140
    requires forall k :: 0 <= k < 140 ==> allBlocks[k] == Addr(part.disk, i.sectors, k)
    requires blockCnt == if i.sectors[12] == 0 then 12 else 140
    requires Returnable(part.sb, |part.disk|, part.Bits(), Reach(part.disk, i))
    modifies part`disk, part.blockBitmap.bits
    ensures part.Writable()
    ensures Freed(part.sb, old(part.disk), old(part.Bits()), part.disk, part.Bits(), Reach(old(part.disk), i))
  {
    hide *;
    ghost var sb, d0, b0 := part.sb, part.disk, part.Bits();
    ghost var freed: set<int> := {};
    part.WritableFacts();
    FreedIntro(sb, d0, b0, d0, b0, {});
    ListedReach(d0, i, allBlocks, blockCnt);
    if i.sectors[12] != 0 {
      var blockBitmapIdx := i.sectors[12] - part.sb.dataStartLba;
      ReturnableOne(sb, |d0|, b0, Reach(d0, i), i.sectors[12]);
      assert blockBitmapIdx > 0;
      FreeBlockBit(part, i.sectors[12]);
      freed := {i.sectors[12] as int};
    }
    var blockIdx := 0;
    ListedMore(allBlocks, 0);
    while blockIdx < blockCnt
      invariant 0 <= blockIdx <= blockCnt && part.Writable()
      invariant freed == Listed(allBlocks, blockIdx) + if i.sectors[12] == 0 then {} else {i.sectors[12] as int}
      invariant Freed(sb, d0, b0, part.disk, part.Bits(), freed)
    {
      ListedMore(allBlocks, blockIdx);
      FreedSizes(sb, d0, b0, part.disk, part.Bits(), freed);
      if allBlocks[blockIdx] != 0 {
        var blockBitmapIdx := allBlocks[blockIdx] - part.sb.dataStartLba;
        ListedIn(allBlocks, blockCnt, blockIdx);
        ReturnableOne(sb, |d0|, b0, Reach(d0, i), allBlocks[blockIdx]);
        assert blockBitmapIdx > 0;
        ghost var d, b := part.disk, part.Bits();
        FreeBlockBit(part, allBlocks[blockIdx]);
        FreedMore(sb, d0, b0, d, b, freed, part.disk, part.Bits(), allBlocks[blockIdx]);
        freed := freed + {allBlocks[blockIdx] as int};
      }
      blockIdx := blockIdx + 1;
    }
  }

  lemma ListedIn(all: seq<u32>, n: nat, k: nat)
    requires k < n <= |all| && all[k] != 0
    ensures all[k] as int in Listed(all, n)
  {
  }

  lemma ReturnableOne(sb: SuperBlock, n: nat, bits: seq<byte>, xs: set<int>, x: int)
    requires Returnable(sb, n, bits, xs) && x in xs
    ensures sb.dataStartLba < x < n && x < sb.dataStartLba + 8 * |bits| && x <= PartEnd(sb)
  {
  }

  lemma FreedSizes(sb: SuperBlock, d0: seq<Sector>, b0: seq<byte>, d1: seq<Sector>, b1: seq<byte>, freed: set<int>)
    requires Freed(sb, d0, b0, d1, b1, freed)
    ensures |d1| == |d0| && |b1| == |b0|
  {
  }

  /** Inode `no` and all its blocks have been given back; nothing else changed. */
  ghost predicate Released(sb: SuperBlock, s: Fs, s1: Fs, no: nat) {
    && |s1.disk| == |s.disk| && |s1.bits| == |s.bits| && Mirrors(sb, s1)
    && FreeBlocks(sb, s1.bits) == FreeBlocks(sb, s.bits) + Reach(s.disk, At(sb, s, no))
    && BitUpdated(s.ibits, s1.ibits, no, false)
    && OtherInodes(sb, s, s1, {no}) && Confined(sb, s.disk, s1.disk)
    && (forall l :: sb.dataStartLba <= l < |s.disk| ==> s1.disk[l] == s.disk[l])
  }

  /** The inode bitmap in memory changed and its sector was written. */
  lemma InodeBitmapSynced(sb: SuperBlock, d: seq<Sector>, bits: seq<byte>, ibits: seq<byte>)
    requires Geometry(sb, |d|) && BlockMirror(d, sb, bits) && |ibits| == 512
    ensures var d1 := d[sb.inodeBitmapLba := SectorOf(ibits, 0)];
      && |d1| == |d| && BlockMirror(d1, sb, bits) && Mirrored(d1, sb.inodeBitmapLba, 1, ibits)
      && (forall l :: 0 <= l < |d| && l != sb.inodeBitmapLba as int ==> d1[l] == d[l])
  {
    MirrorFrame(sb, d, bits, d[sb.inodeBitmapLba := SectorOf(ibits, 0)]);
  }

  /** A window of the inode table was written: the bitmaps on disk stay. */
  lemma WindowMirrors(sb: SuperBlock, d: seq<Sector>, bits: seq<byte>, ibits: seq<byte>, d1: seq<Sector>, no: nat, w: seq<byte>)
    requires Geometry(sb, |d|) && BlockMirror(d, sb, bits) && FreeWithin(sb, bits)
    requires WindowWritten(d, d1, sb, no, w)
    ensures |d1| == |d| && BlockMirror(d1, sb, bits) && FreeWithin(sb, bits)
    ensures Mirrored(d, sb.inodeBitmapLba, 1, ibits) ==> Mirrored(d1, sb.inodeBitmapLba, 1, ibits)
    ensures forall l :: sb.dataStartLba <= l < |d| ==> d1[l] == d[l]
  {
    hide FreeBlocks, InodeWindow;
    MirrorFrame(sb, d, bits, d1);
  }

  /** Sectors outside the inode table changed: every inode is as before. */
  lemma TableKept(sb: SuperBlock, s: Fs, s1: Fs)
    requires Geometry(sb, |s.disk|) && |s1.disk| == |s.disk|
    requires forall l :: 0 <= l < |s.disk| && InInodeTable(sb, l) ==> s1.disk[l] == s.disk[l]
    ensures forall i: nat {:trigger At(sb, s1, i)} :: i < 4096 ==> At(sb, s1, i) == At(sb, s, i)
  {
    hide InodeWindow, InInodeTable;
    forall i: nat | i < 4096
      ensures At(sb, s1, i) == At(sb, s, i)
    {
      WindowFrame(sb, s.disk, s1.disk, i);
    }
  }

  /** One window was written: the other inodes are as before. */
  lemma WindowOthers(sb: SuperBlock, s: Fs, s1: Fs, no: nat, w: seq<byte>)
    requires WindowWritten(s.disk, s1.disk, sb, no, w)
    ensures OtherInodes(sb, s, s1, {no}) && At(sb, s1, no) == DecodeInode(w)
  {
    hide InodeWindow;
    forall i: nat | i < 4096 && i != no
      ensures At(sb, s1, i) == At(sb, s, i)
    {
      assert InodeWindow(s1.disk, sb, i) == InodeWindow(s.disk, sb, i);
    }
  }

  lemma ReleaseComposes(sb: SuperBlock, s: Fs, d1: seq<Sector>, b1: seq<byte>, ib1: seq<byte>, d3: seq<Sector>, no: nat)
    requires Geometry(sb, |s.disk|) && no < 4096 && |s.ibits| == 512 && BitUpdated(s.ibits, ib1, no, false)
    requires Freed(sb, s.disk, s.bits, d1, b1, Reach(s.disk, At(sb, s, no)))
    requires |d1| == |s.disk|
    requires var d2 := d1[sb.inodeBitmapLba := SectorOf(ib1, 0)]; WindowWritten(d2, d3, sb, no, Copies<byte>(0, 76))
    ensures Released(sb, s, Fs(d3, b1, ib1), no)
  {
    hide FreeBlocks, InodeWindow, Reach, At, Mirrored, InodeAt;
    var d2 := d1[sb.inodeBitmapLba := SectorOf(ib1, 0)];
    InodeBitmapSynced(sb, d1, b1, ib1);
    WindowMirrors(sb, d2, b1, ib1, d3, no, Copies<byte>(0, 76));
    TableKept(sb, s, Fs(d2, b1, ib1));
    WindowOthers(sb, Fs(d2, b1, ib1), Fs(d3, b1, ib1), no, Copies<byte>(0, 76));
    ConfinedIntro(sb, s.disk, d3, {});
  }

  /** `inode_realse`. Its assertions hold when the inode does not own the first data block. */
  method InodeRealse(part: Partition, no: nat)
    requires part.Writable() && no < 4096 && At(part.sb, View(part), no).no == no && NoTwins(part.openInodes)
    requires forall k :: 0 <= k < |part.openInodes| && part.openInodes[k].no == no ==>
      part.openInodes[k].Disk() == At(part.sb, View(part), no) && part.openInodes[k].openCnts > 0
    requires Returnable(part.sb, |part.disk|, part.Bits(), Reach(part.disk, At(part.sb, View(part), no)))
    modifies part`disk, part.blockBitmap.bits, part.inodeBitmap.bits, part`openInodes, part.openInodes`openCnts
    ensures part.Writable() && Released(part.sb, old(View(part)), View(part), no)
    ensures NoTwins(part.openInodes) && forall o :: o in part.openInodes <==> o in old(part.openInodes)
    ensures forall o :: o in part.openInodes ==> o.openCnts == old(o.openCnts)
  {
    hide *;
    ghost var sb, s := part.sb, View(part);
    ViewIs(part);
    part.WritableFacts();
    part.ReadyFacts();
    AtIs(sb, s, no);
    var inode2del := InodeOpen(part, no);
    InodeDisk(inode2del);
    AtSized(sb, s, no);
    if inode2del.sectors[12] != 0 {
      ReachTable(s.disk, At(sb, s, no));
      ReturnableOne(sb, |s.disk|, s.bits, Reach(s.disk, At(sb, s, no)), inode2del.sectors[12]);
    }
    var allBlocks, blockCnt := CollectAll(part.disk, inode2del);
    FreeAll(part, inode2del.Disk(), allBlocks, blockCnt);
    ghost var d1, b1 := part.disk, part.Bits();
    FreedSizes(sb, s.disk, s.bits, d1, b1, Reach(s.disk, At(sb, s, no)));
    part.WritableFacts();
    ReleaseNumber(part, no);
    ReleaseComposes(sb, s, d1, b1, part.inodeBitmap.bits[..], part.disk, no);
    InodeClose(part, inode2del);
    ViewIs(part);
    ReleasedWritable(part, sb, s, no);
  }

  /** The end of `inode_realse`: the number is free again in memory and on disk, and the inode is cleared. */
  method ReleaseNumber(part: Partition, no: nat)
    requires part.Ready() && no < 4096
    modifies part`disk, part.inodeBitmap.bits
    ensures part.Ready() && BitUpdated(old(part.inodeBitmap.bits[..]), part.inodeBitmap.bits[..], no, false)
    ensures WindowWritten(old(part.disk)[part.sb.inodeBitmapLba := SectorOf(part.inodeBitmap.bits[..], 0)],
      part.disk, part.sb, no, Copies<byte>(0, 76))
  {
    hide *;
    ghost var d := part.disk;
    part.ReadyFacts();
    part.inodeBitmap.Set(no, false);
    part.BitmapSync(no, INODE_BITMAP);
    ReadyAgain(part, d);
    InodeDelete(part, no);
  }

  lemma ViewIs(part: Partition)
    ensures View(part) == Fs(part.disk, part.Bits(), part.inodeBitmap.bits[..])
  {
  }

  lemma AtIs(sb: SuperBlock, s: Fs, no: nat)
    requires Geometry(sb, |s.disk|) && no < 4096
    ensures At(sb, s, no) == InodeAt(s.disk, sb, no)
  {
  }

  lemma AtSized(sb: SuperBlock, s: Fs, no: nat)
    requires Geometry(sb, |s.disk|) && no < 4096
    ensures |At(sb, s, no).sectors| == 13
  {
  }

  lemma ReachTable(disk: seq<Sector>, i: DiskInode)
    requires |i.sectors| == 13 && i.sectors[12] != 0
    ensures i.sectors[12] as int in Reach(disk, i)
  {
  }

  lemma ReadyAgain(part: Partition, d: seq<Sector>)
    requires Geometry(part.sb, |d|) && |part.disk| == |d| && part.inodeBitmap.bits.Length == 512
    requires part.blockBitmap.bits.Length == 512 * part.sb.blockBitmapSects && part.blockBitmap.bits != part.inodeBitmap.bits
    ensures part.Ready()
  {
  }

  lemma ReleasedWritable(part: Partition, sb: SuperBlock, s: Fs, no: nat)
    requires sb == part.sb && part.Ready() && View(part) == Fs(part.disk, part.Bits(), part.inodeBitmap.bits[..])
    requires Released(sb, s, View(part), no)
    ensures part.Writable()
  {
    hide FreeBlocks, Reach, At;
  }

  // ----- removing -----

  /** Blocks of an inode in use are real blocks, and only the root has the first one. */
  lemma OwnedReturnable(sb: SuperBlock, s: Fs, t: Tree, padding: set<int>, no: nat)
    requires FsOk(sb, s, t, padding) && no in t.kind && no != 0
    ensures Returnable(sb, |s.disk|, s.bits, Reach(s.disk, At(sb, s, no)))
  {
    hide *;
    FsParts(sb, s, t, padding);
    InodeParts(sb, s, t, padding, no);
    RootIsDirectory(sb, s, t, padding);
    RootStart(sb, s, t);
    NodeReach(sb, s, t, no);
    OwnedInRange(sb, s, t, padding, no);
  }

  lemma OwnedInRange(sb: SuperBlock, s: Fs, t: Tree, padding: set<int>, no: nat)
    requires BlocksUsed(sb, s, t, padding) && OwnsOk(sb, s, t, no) && OwnsOk(sb, s, t, 0) && no != 0
    requires sb.dataStartLba as int in Reach(s.disk, At(sb, s, 0))
    requires forall x :: x in Reach(s.disk, At(sb, s, no)) ==> sb.dataStartLba <= x < |s.disk| && x <= PartEnd(sb)
    ensures Returnable(sb, |s.disk|, s.bits, Reach(s.disk, At(sb, s, no)))
  {
    hide At, Reach, FreeBlocks;
    assert OwnedBy(t, sb.dataStartLba, 0);
    forall x | x in Reach(s.disk, At(sb, s, no))
      ensures sb.dataStartLba < x < |s.disk| && x < sb.dataStartLba + 8 * |s.bits| && x <= PartEnd(sb)
    {
      assert OwnedBy(t, x, no);
    }
  }

  lemma NodeReach(sb: SuperBlock, s: Fs, t: Tree, i: nat)
    requires NodeOk(sb, s, t, i)
    ensures forall x :: x in Reach(s.disk, At(sb, s, i)) ==> sb.dataStartLba <= x < |s.disk| && x <= PartEnd(sb)
  {
    hide At, Reach, Directory, RegularFile, FreeBlocks;
    if t.kind[i] == FT_REGULAR {
      ReachFile(s.disk, sb, s.bits, At(sb, s, i));
    } else {
      DirectorySized(s.disk, sb, s.bits, At(sb, s, i), t.parent[i]);
      ReachDirectory(s.disk, At(sb, s, i));
      OwnedFacts(s.disk, sb, s.bits, At(sb, s, i), t.parent[i]);
    }
  }

  /** Blocks of two inodes in use are apart. */
  lemma OwnersApart(sb: SuperBlock, s: Fs, t: Tree, padding: set<int>, i: nat, j: nat)
    requires FsOk(sb, s, t, padding) && i in t.kind && j in t.kind && i != j
    ensures Reach(s.disk, At(sb, s, i)) !! Reach(s.disk, At(sb, s, j))
  {
    hide *;
    InodeParts(sb, s, t, padding, i);
    InodeParts(sb, s, t, padding, j);
    OwnersDiffer(sb, s, t, i, j);
  }

  lemma OwnersDiffer(sb: SuperBlock, s: Fs, t: Tree, i: nat, j: nat)
    requires OwnsOk(sb, s, t, i) && OwnsOk(sb, s, t, j) && i != j
    ensures Reach(s.disk, At(sb, s, i)) !! Reach(s.disk, At(sb, s, j))
  {
    hide At, Reach;
    forall x | x in Reach(s.disk, At(sb, s, i))
      ensures x !in Reach(s.disk, At(sb, s, j))
    {
      assert OwnedBy(t, x, i);
    }
  }

  /** What `delete_dir_entry` did to the file system, from `s` to `m`. */
  ghost predicate Unlinked(sb: SuperBlock, s: Fs, m: Fs, d: nat, parent: u32, no: u32) {
    var o0, o1 := DirOwned(At(sb, s, d).sectors), DirOwned(At(sb, m, d).sectors);
    && |m.disk| == |s.disk| && |m.bits| == |s.bits| && m.ibits == s.ibits && OtherInodes(sb, s, m, {d})
    && Confined(sb, s.disk, m.disk)
    && Geometry(sb, |m.disk|) && BlockMirror(m.disk, sb, m.bits)
    && RemoveEntry(sb, s, m, d, parent, no)
    && o1 <= o0 && FreeBlocks(sb, m.bits) == FreeBlocks(sb, s.bits) + (o0 - o1)
    && (forall l :: sb.dataStartLba <= l < |s.disk| && l !in o0 ==> m.disk[l] == s.disk[l])
  }

  lemma RemovedUnlinks(sb: SuperBlock, s: Fs, m: Fs, d: nat, i1: DiskInode, parent: u32, no: u32)
    requires Geometry(sb, |s.disk|) && |m.disk| == |s.disk| && m.ibits == s.ibits && d < 4096 && |i1.sectors| == 13
    requires At(sb, s, d).no == d && Removed(sb, s.disk, s.bits, At(sb, s, d), m.disk, m.bits, i1, parent, no)
    requires forall x :: x in DirOwned(At(sb, s, d).sectors) ==> sb.dataStartLba <= x <= PartEnd(sb)
    ensures Unlinked(sb, s, m, d, parent, no) && At(sb, m, d) == i1
  {
    hide FreeBlocks, DirOwned, InodeWindow, ChildGone, Entries, Directory, BlockMirror, EncodeInode, DecodeInode;
    InodeRoundTrip(i1);
    ConfinedIntro(sb, s.disk, m.disk, DirOwned(At(sb, s, d).sectors));
    forall i: nat | i < 4096 && i != d
      ensures At(sb, m, i) == At(sb, s, i)
    {
      assert InodeWindow(m.disk, sb, i) == InodeWindow(s.disk, sb, i);
    }
  }

  /** The victim is untouched while its entry is deleted. */
  lemma VictimKept(sb: SuperBlock, s: Fs, m: Fs, t: Tree, padding: set<int>, d: nat, parent: u32, no: u32)
    requires FsOk(sb, s, t, padding) && d in t.kind && t.kind[d] == FT_DIRECTORY && no as nat in t.kind && no as nat != d
    requires Unlinked(sb, s, m, d, parent, no)
    ensures no < 4096 && At(sb, m, no) == At(sb, s, no)
    ensures Reach(m.disk, At(sb, m, no)) == Reach(s.disk, At(sb, s, no)) && |At(sb, s, no).sectors| == 13
    ensures Reach(s.disk, At(sb, s, d)) == DirOwned(At(sb, s, d).sectors)
  {
    hide *;
    InodeParts(sb, s, t, padding, no);
    InodeParts(sb, s, t, padding, d);
    AtSized(sb, s, no);
    DirectoryReach(sb, s, t, d);
    NodeReach(sb, s, t, no);
    OwnersApart(sb, s, t, padding, d, no);
    UnlinkedFrame(sb, s, m, d, parent, no, Reach(s.disk, At(sb, s, no)));
    SameAddrs(s.disk, m.disk, At(sb, s, no));
  }

  lemma UnlinkedFrame(sb: SuperBlock, s: Fs, m: Fs, d: nat, parent: u32, no: u32, xs: set<int>)
    requires Unlinked(sb, s, m, d, parent, no) && no < 4096 && no as nat != d
    requires xs !! DirOwned(At(sb, s, d).sectors) && forall x :: x in xs ==> sb.dataStartLba <= x < |s.disk|
    ensures At(sb, m, no) == At(sb, s, no) && |m.disk| == |s.disk|
    ensures forall x :: x in xs && 0 <= x < |s.disk| ==> m.disk[x] == s.disk[x]
  {
    hide At, DirOwned, FreeBlocks, RemoveEntry, BlockMirror;
    forall x | x in xs
      ensures x !in DirOwned(At(sb, s, d).sectors)
    {
    }
  }

  lemma DirectoryReach(sb: SuperBlock, s: Fs, t: Tree, d: nat)
    requires NodeOk(sb, s, t, d) && t.kind[d] == FT_DIRECTORY
    ensures Reach(s.disk, At(sb, s, d)) == DirOwned(At(sb, s, d).sectors)
  {
    hide At, Reach, Directory, RegularFile, DirOwned;
    DirectorySized(s.disk, sb, s.bits, At(sb, s, d), t.parent[d]);
    ReachDirectory(s.disk, At(sb, s, d));
  }

  /** Deleting the entry and then the inode removes the inode from the file system. */
  lemma RemoveComposes(sb: SuperBlock, s: Fs, m: Fs, s1: Fs, t: Tree, padding: set<int>, d: nat, parent: u32, no: u32)
    requires FsOk(sb, s, t, padding) && d in t.kind && t.kind[d] == FT_DIRECTORY && no as nat in t.kind && no as nat != d
    requires no != 0
    requires Unlinked(sb, s, m, d, parent, no) && Released(sb, m, s1, no)
    ensures RemoveStep(sb, s, s1, d, parent, no)
  {
    hide *;
    VictimKept(sb, s, m, t, padding, d, parent, no);
    OwnersApart(sb, s, t, padding, d, no);
    OwnedReturnable(sb, s, t, padding, no);
    InodeParts(sb, s, t, padding, d);
    UnlinkedSizes(sb, s, m, d, parent, no);
    RemovedDirectory(sb, s, m, s1, d, parent, no);
    RemoveIntro(sb, s, m, s1, d, parent, no);
  }

  lemma UnlinkedSizes(sb: SuperBlock, s: Fs, m: Fs, d: nat, parent: u32, no: u32)
    requires Unlinked(sb, s, m, d, parent, no)
    ensures |m.disk| == |s.disk| && |m.bits| == |s.bits|
  {
    hide At, DirOwned, FreeBlocks, RemoveEntry, BlockMirror;
  }

  lemma RemoveIntro(sb: SuperBlock, s: Fs, m: Fs, s1: Fs, d: nat, parent: u32, no: u32)
    requires d < 4096 && no < 4096 && Unlinked(sb, s, m, d, parent, no) && Released(sb, m, s1, no)
    requires RemoveEntry(sb, s, s1, d, parent, no) && At(sb, s1, d) == At(sb, m, d)
    requires Reach(m.disk, At(sb, m, no)) == Reach(s.disk, At(sb, s, no))
    ensures RemoveStep(sb, s, s1, d, parent, no)
  {
    hide At, FreeBlocks, BlockMirror, DirOwned, Mirrors, BitUpdated, RemoveEntry, Reach, Confined;
    ConfinedTwice(sb, s.disk, m.disk, s1.disk);
  }

  lemma RemovedDirectory(sb: SuperBlock, s: Fs, m: Fs, s1: Fs, d: nat, parent: u32, no: u32)
    requires d < 4096 && no as nat != d && Unlinked(sb, s, m, d, parent, no) && Released(sb, m, s1, no)
    requires DirOwned(At(sb, s, d).sectors) !! Reach(m.disk, At(sb, m, no)) && |m.bits| == |s.bits| && |m.disk| == |s.disk|
    requires Returnable(sb, |s.disk|, s.bits, Reach(m.disk, At(sb, m, no)))
    ensures RemoveEntry(sb, s, s1, d, parent, no) && At(sb, s1, d) == At(sb, m, d)
  {
    hide At, FreeBlocks, BlockMirror, DirOwned, Mirrors, BitUpdated, ChildGone, Directory, Entries, Reach;
    var i1, r := At(sb, m, d), Reach(m.disk, At(sb, m, no));
    assert At(sb, s1, d) == i1;
    DirectorySized(m.disk, sb, m.bits, i1, parent);
    ReachDirectory(m.disk, i1);
    OwnedFacts(m.disk, sb, m.bits, i1, parent);
    DirectoryStart(m.disk, sb, m.bits, i1, parent);
    SameDirectory(sb, m.disk, m.bits, s1.disk, s1.bits, i1, parent);
  }

  /** A sound file system: the invariant holds, and every cached inode is in use and is what the disk holds. So are the
      bitmaps, whose mirrors are part of the invariant: mounting the disk again gives what is in memory. */
  ghost predicate Sound(part: Partition, t: Tree, padding: set<int>)
    reads part`disk, part`openInodes, part.blockBitmap.bits, part.inodeBitmap.bits, part.openInodes
  {
    && part.Writable() && FsOk(part.sb, View(part), t, padding)
    && NoTwins(part.openInodes) && CacheAgrees(part.sb, View(part), part.openInodes)
    && forall o :: o in part.openInodes ==> o.openCnts > 0
  }

  lemma SoundFacts(part: Partition, t: Tree, padding: set<int>)
    requires Sound(part, t, padding)
    ensures part.Writable() && FsOk(part.sb, View(part), t, padding) && NoTwins(part.openInodes)
    ensures forall o :: o in part.openInodes ==> o.openCnts > 0
    ensures forall o :: o in part.openInodes ==>
      o.no < 4096 && BitSetIn(part.inodeBitmap.bits[..], o.no) && o.Disk() == At(part.sb, View(part), o.no)
  {
    hide FsOk, At, BitSetIn;
  }

  lemma SoundIntro(part: Partition, t: Tree, padding: set<int>)
    requires part.Writable() && FsOk(part.sb, View(part), t, padding) && NoTwins(part.openInodes)
    requires forall o :: o in part.openInodes ==> o.openCnts > 0 && o.no < 4096 && BitSetIn(part.inodeBitmap.bits[..], o.no)
    requires forall o :: o in part.openInodes ==> o.Disk() == At(part.sb, View(part), o.no)
    ensures Sound(part, t, padding)
  {
    hide FsOk, At, BitSetIn;
  }

  lemma RemoveStepFacts(sb: SuperBlock, s: Fs, s1: Fs, t: Tree, d: nat, no: u32)
    requires d in t.parent && RemoveStep(sb, s, s1, d, t.parent[d], no)
    ensures RemovedFrom(sb, s, s1, t, d, no)
    ensures forall i: nat :: i < 4096 && i != d && i != no as nat ==> At(sb, s1, i) == At(sb, s, i)
    ensures forall i: nat :: i != no as nat && BitSetIn(s.ibits, i) ==> BitSetIn(s1.ibits, i)
    ensures !BitSetIn(s1.ibits, no)
  {
    hide At, FreeBlocks, DirOwned, Mirrors, RemoveEntry, RemoveBlocks, Reach;
  }

  lemma DirInode(sb: SuperBlock, s: Fs, t: Tree, padding: set<int>, d: nat)
    requires FsOk(sb, s, t, padding) && d in t.kind && t.kind[d] == FT_DIRECTORY
    ensures d < 4096 && d in t.parent && d in t.depth && At(sb, s, d).no == d && Geometry(sb, |s.disk|)
    ensures Directory(s.disk, sb, s.bits, At(sb, s, d), t.parent[d]) && EntriesOk(sb, s, t, d)
  {
    InodeParts(sb, s, t, padding, d);
    hide FsOk, At, OwnsOk, ListedOk, EntriesOk, Directory;
  }

  /** The inode, found in its parent. */
  lemma ListedThere(sb: SuperBlock, s: Fs, t: Tree, padding: set<int>, no: u32, d: nat)
    requires FsOk(sb, s, t, padding) && no as nat in t.kind && no != 0 && no as nat in t.parent && t.parent[no] == d
    ensures d in t.kind && t.kind[d] == FT_DIRECTORY && d != no as nat && !NoChild(Entries(s.disk, At(sb, s, d)), no)
  {
    InodeParts(sb, s, t, padding, no);
    ParentDepth(sb, s, t, padding, no);
    hide FsOk, At, OwnsOk, Entries, NoChild, NodeOk;
  }

  /** The common part of `sys_unlink` and `dir_remove`: the entry goes, then the inode. Told to delete a directory from itself,
      which the path "/a/." leads to, it finds no entry and releases the inode all the same. */
  method DeleteAndRelease(part: Partition, dir: Inode, no: u32, ghost t: Tree, ghost padding: set<int>)
    requires part.Writable() && FsOk(part.sb, View(part), t, padding) && NoTwins(part.openInodes)
    requires no as nat in t.kind && no != 0 && no as nat in t.parent && Leaf(t, no)
    requires t.parent[no] == dir.no || (dir.no == no && t.kind[no] == FT_DIRECTORY)
    requires dir in part.openInodes && dir.Disk() == At(part.sb, View(part), dir.no)
    requires forall o :: o in part.openInodes && o.no == no ==> o.Disk() == At(part.sb, View(part), no) && o.openCnts > 0
    modifies part`disk, part.blockBitmap.bits, part.inodeBitmap.bits, part`openInodes, part.openInodes`openCnts, dir`size
    modifies dir`sectors
    ensures part.Writable() && NoTwins(part.openInodes) && Cache(part) == old(Cache(part))
    ensures dir.no != no ==> RemovedFrom(part.sb, old(View(part)), View(part), t, dir.no, no)
    ensures dir.no != no ==> FsOk(part.sb, View(part), RemoveTree(part.sb, old(View(part)), View(part), t, dir.no, no), padding)
    ensures dir.no != no ==> dir.Disk() == At(part.sb, View(part), dir.no)
    ensures dir.no == no ==> Released(part.sb, old(View(part)), View(part), no)
  {
    hide *;
    ghost var sb, s, d: u32, c := part.sb, View(part), dir.no, Cache(part);
    ViewIs(part);
    CacheIs(part);
    if t.parent[no] as nat == d as nat {
      ListedThere(sb, s, t, padding, no, d);
    }
    DirInode(sb, s, t, padding, d);
    InodeParts(sb, s, t, padding, no);
    NodeNumber(sb, s, t, no);
    part.WritableFacts();
    part.ReadyFacts();
    ghost var parent := t.parent[d];
    OwnedFacts(s.disk, sb, s.bits, At(sb, s, d), parent);
    OwnedReturnable(sb, s, t, padding, no);
    if d == no {
      NotOwnChild(sb, s, t, d);
    }
    var deleted := DeleteDirEntry(part, dir, no, parent);
    ViewIs(part);
    ghost var m := View(part);
    InodeDisk(dir);
    if d != no {
      RemovedUnlinks(sb, s, m, d, dir.Disk(), parent, no);
      VictimKept(sb, s, m, t, padding, d, parent, no);
      UnlinkedSizes(sb, s, m, d, parent, no);
      ReturnableSame(sb, |s.disk|, s.bits, m.bits, Reach(s.disk, At(sb, s, no)));
    }
    InodeRealse(part, no);
    ViewIs(part);
    CacheIs(part);
    if d != no {
      RemoveComposes(sb, s, m, View(part), t, padding, d, parent, no);
      RemoveOk(sb, s, View(part), t, padding, d, no);
      RemoveStepFacts(sb, s, View(part), t, d, no);
      ReleasedOther(sb, m, View(part), no, d);
    }
  }

  lemma CacheIs(part: Partition)
    ensures forall o :: o in Cache(part) <==> o in part.openInodes
    ensures forall o :: o in part.openInodes ==> Cache(part)[o] == o.openCnts
    ensures Cache(part).Keys == set o | o in part.openInodes
  {
  }

  lemma CachedSame(l: seq<Inode>, m: seq<Inode>, no: nat)
    requires forall o :: o in l <==> o in m
    ensures Cached(l, no) <==> Cached(m, no)
  {
  }

  /** A directory does not list itself. */
  lemma NotOwnChild(sb: SuperBlock, s: Fs, t: Tree, d: nat)
    requires EntriesOk(sb, s, t, d) && d < 0x1_0000_0000
    ensures NoChild(Entries(s.disk, At(sb, s, d)), d)
  {
    hide At, Entries, IsChild;
    var l := Entries(s.disk, At(sb, s, d));
    forall k | 0 <= k < |l|
      ensures !(IsChild(l[k]) && l[k].no as nat == d)
    {
      assert EntryOk(t, d, l[k]);
    }
  }

  /** When inode `no` is released and its entry stays, the directories on the way to the entry are as before in every tree that
      the disk might have. */
  lemma {:induction false} StillDirectory(sb: SuperBlock, s: Fs, t: Tree, padding: set<int>, s1: Fs, t1: Tree,
        padding1: set<int>, no: nat, i: nat)
    requires FsOk(sb, s, t, padding) && FsOk(sb, s1, t1, padding1) && Released(sb, s, s1, no) && Leaf(t, no)
    requires i in t.kind && t.kind[i] == FT_DIRECTORY && i != no
    ensures i in t1.kind && t1.kind[i] == FT_DIRECTORY
    ensures Entries(s1.disk, At(sb, s1, i)) == Entries(s.disk, At(sb, s, i))
    decreases if i in t.depth then t.depth[i] else 0
  {
    hide *;
    DirInode(sb, s, t, padding, i);
    ReleasedOther(sb, s, s1, no, i);
    OwnedFacts(s.disk, sb, s.bits, At(sb, s, i), t.parent[i]);
    ReleasedData(sb, s, s1, no);
    DirectoryFrame(s.disk, sb, s.bits, At(sb, s, i), t.parent[i], s1.disk);
    if i == 0 {
      RootIsDirectory(sb, s1, t1, padding1);
    } else {
      var p := t.parent[i];
      ListedThere(sb, s, t, padding, i, p);
      ParentDepth(sb, s, t, padding, i);
      LeafNot(t, no, i);
      StillDirectory(sb, s, t, padding, s1, t1, padding1, no, p);
      DirInode(sb, s, t, padding, p);
      DirInode(sb, s1, t1, padding1, p);
      ChildAgrees(sb, s, t, s1, t1, p, i);
    }
  }

  lemma LeafNot(t: Tree, no: nat, i: nat)
    requires Leaf(t, no) && i in t.kind && i in t.parent && i != 0
    ensures t.parent[i] as nat != no
  {
  }

  lemma ReleasedData(sb: SuperBlock, s: Fs, s1: Fs, no: nat)
    requires Released(sb, s, s1, no)
    ensures |s1.disk| == |s.disk| && no < 8 * |s.ibits| && !BitSetIn(s1.ibits, no)
    ensures forall l :: sb.dataStartLba <= l < |s.disk| ==> s1.disk[l] == s.disk[l]
    ensures forall i: nat :: i != no && BitSetIn(s.ibits, i) ==> BitSetIn(s1.ibits, i)
  {
    hide At, FreeBlocks, Mirrors, Reach;
  }

  /** An entry of a directory of two trees gives its child the same type. */
  lemma ChildAgrees(sb: SuperBlock, s: Fs, t: Tree, s1: Fs, t1: Tree, p: nat, i: nat)
    requires EntriesOk(sb, s, t, p) && EntriesOk(sb, s1, t1, p) && i < 0x1_0000_0000
    requires Entries(s1.disk, At(sb, s1, p)) == Entries(s.disk, At(sb, s, p)) && !NoChild(Entries(s.disk, At(sb, s, p)), i)
    ensures i in t.kind && i in t1.kind && t1.kind[i] == t.kind[i]
  {
    hide At, Entries, IsChild;
    var l := Entries(s.disk, At(sb, s, p));
    var k :| 0 <= k < |l| && IsChild(l[k]) && l[k].no as nat == i;
    assert EntryOk(t, p, l[k]) && EntryOk(t1, p, l[k]);
  }

  /** A released inode whose entry stays is a dangling entry: no tree describes the disk. */
  lemma Dangling(sb: SuperBlock, s: Fs, t: Tree, padding: set<int>, s1: Fs, no: nat)
    requires FsOk(sb, s, t, padding) && Released(sb, s, s1, no) && Leaf(t, no) && no in t.kind && no != 0
    ensures forall t1: Tree, padding1: set<int> :: !FsOk(sb, s1, t1, padding1)
  {
    hide *;
    InodeParts(sb, s, t, padding, no);
    ListedThere(sb, s, t, padding, no, t.parent[no]);
    ReleasedData(sb, s, s1, no);
    var p := t.parent[no];
    forall t1: Tree, padding1: set<int>
      ensures !FsOk(sb, s1, t1, padding1)
    {
      if FsOk(sb, s1, t1, padding1) {
        StillDirectory(sb, s, t, padding, s1, t1, padding1, no, p);
        DirInode(sb, s, t, padding, p);
        DirInode(sb, s1, t1, padding1, p);
        ChildAgrees(sb, s, t, s1, t1, p, no);
        FsParts(sb, s1, t1, padding1);
        UsedSet(s1, t1, no);
      }
    }
  }

  lemma UsedSet(s: Fs, t: Tree, no: nat)
    requires InodesUsed(s, t) && no in t.kind
    ensures BitSetIn(s.ibits, no)
  {
  }

  lemma NodeNumber(sb: SuperBlock, s: Fs, t: Tree, i: nat)
    requires NodeOk(sb, s, t, i)
    ensures i < 4096 && At(sb, s, i).no == i
  {
    hide At, Directory, RegularFile;
  }

  lemma ReturnableSame(sb: SuperBlock, n: nat, bits: seq<byte>, bits1: seq<byte>, xs: set<int>)
    requires Returnable(sb, n, bits, xs) && |bits1| == |bits|
    ensures Returnable(sb, n, bits1, xs)
  {
  }

  lemma ReleasedOther(sb: SuperBlock, m: Fs, s1: Fs, no: nat, d: nat)
    requires Released(sb, m, s1, no) && d < 4096 && d != no
    ensures At(sb, s1, d) == At(sb, m, d)
  {
    hide At, FreeBlocks, Mirrors, Reach, BitUpdated;
  }

  ghost predicate RemovedFrom(sb: SuperBlock, s: Fs, s1: Fs, t: Tree, d: nat, no: u32) {
    d in t.parent && RemoveStep(sb, s, s1, d, t.parent[d], no)
  }

  /** The file system is sound but for cached inodes of number `no`, which is free. */
  ghost predicate SoundBut(part: Partition, t: Tree, padding: set<int>, no: nat)
    reads part`disk, part`openInodes, part.blockBitmap.bits, part.inodeBitmap.bits, part.openInodes
  {
    && part.Writable() && FsOk(part.sb, View(part), t, padding) && NoTwins(part.openInodes)
    && !BitSetIn(part.inodeBitmap.bits[..], no)
    && (forall o :: o in part.openInodes ==> o.openCnts > 0)
    && (forall o :: o in part.openInodes && o.no as nat != no ==>
      o.no < 4096 && BitSetIn(part.inodeBitmap.bits[..], o.no) && o.Disk() == At(part.sb, View(part), o.no))
  }

  /** No tree describes what is in memory and on disk. */
  ghost predicate Unsound(part: Partition)
    reads part`disk, part`openInodes, part.blockBitmap.bits, part.inodeBitmap.bits, part.openInodes
  {
    forall t: Tree, padding: set<int> :: !Sound(part, t, padding)
  }

  /** A cached inode whose number is free: cache and disk disagree, and no tree can help that. */
  lemma SoundButIff(part: Partition, t: Tree, padding: set<int>, no: nat)
    requires SoundBut(part, t, padding, no)
    ensures Sound(part, t, padding) <==> !Cached(part.openInodes, no)
    ensures Cached(part.openInodes, no) ==> Unsound(part)
  {
    hide FsOk, At, BitSetIn;
    if Cached(part.openInodes, no) {
      var o :| o in part.openInodes && o.no as nat == no;
      StaleUnsound(part, o);
      assert Unsound(part) ==> !Sound(part, t, padding);
    } else {
      SoundIntro(part, t, padding);
    }
  }

  lemma StaleUnsound(part: Partition, o: Inode)
    requires o in part.openInodes && !BitSetIn(part.inodeBitmap.bits[..], o.no)
    ensures Unsound(part)
  {
    hide Sound, BitSetIn;
    forall t: Tree, padding: set<int>
      ensures !Sound(part, t, padding)
    {
      if Sound(part, t, padding) {
        SoundFacts(part, t, padding);
      }
    }
  }

  lemma SoundButIntro(part: Partition, t: Tree, padding: set<int>, no: nat)
    requires part.Writable() && FsOk(part.sb, View(part), t, padding) && NoTwins(part.openInodes)
    requires !BitSetIn(part.inodeBitmap.bits[..], no) && forall o :: o in part.openInodes ==> o.openCnts > 0
    requires forall o :: o in part.openInodes && o.no as nat != no ==> o.no < 4096 && BitSetIn(part.inodeBitmap.bits[..], o.no)
    requires forall o :: o in part.openInodes && o.no as nat != no ==> o.Disk() == At(part.sb, View(part), o.no)
    ensures SoundBut(part, t, padding, no)
  {
    hide FsOk, At, BitSetIn;
  }

  datatype UnlinkResult = InUse | Gone

  /** `sys_unlink` once the path has led to the regular file `no` in directory `dir`. A file with an entry in the file table,
      given by its `fd_inode` fields, is refused. Whether the file is cached is not asked: of two descriptors that share an
      entry after a fork, the first one closed clears the entry. */
  method Unlink(part: Partition, fileTable: seq<Option<Inode>>, dir: Inode, no: u32, ghost t: Tree, ghost padding: set<int>)
    returns (r: UnlinkResult)
    requires Sound(part, t, padding) && dir in part.openInodes
    requires no as nat in t.kind && t.kind[no] == FT_REGULAR && no as nat in t.parent && t.parent[no] == dir.no
    modifies part`disk, part.blockBitmap.bits, part.inodeBitmap.bits, part`openInodes, part.openInodes`openCnts, dir`size
    modifies dir`sectors
    ensures r.InUse? <==> exists k :: 0 <= k < |fileTable| && fileTable[k].Some? && fileTable[k].value.no == no
    ensures r.InUse? ==> View(part) == old(View(part)) && Sound(part, t, padding) && Cache(part) == old(Cache(part))
    ensures r.Gone? ==> RemovedFrom(part.sb, old(View(part)), View(part), t, dir.no, no)
    ensures r.Gone? ==> var t1 := RemoveTree(part.sb, old(View(part)), View(part), t, dir.no, no);
      && FsOk(part.sb, View(part), t1, padding) && SoundBut(part, t1, padding, no) && Cache(part) == old(Cache(part))
    ensures r.Gone? ==> (Sound(part, RemoveTree(part.sb, old(View(part)), View(part), t, dir.no, no), padding) <==>
      !Cached(old(part.openInodes), no))
  {
    hide *;
    var fileIdx := 0;
    while fileIdx < |fileTable|
      invariant 0 <= fileIdx <= |fileTable| && forall k :: 0 <= k < fileIdx ==>
        !(fileTable[k].Some? && fileTable[k].value.no == no)
    {
      if fileTable[fileIdx].Some? && fileTable[fileIdx].value.no == no {
        return InUse;
      }
      fileIdx := fileIdx + 1;
    }
    ghost var s := View(part);
    ViewIs(part);
    CacheIs(part);
    SoundFacts(part, t, padding);
    LeafFile(part.sb, s, t, padding, no);
    RegularNotRoot(part.sb, s, t, padding, no);
    ListedThere(part.sb, s, t, padding, no, dir.no);
    TwinsDiffer(part.openInodes);
    ghost var l := part.openInodes;
    DeleteAndRelease(part, dir, no, t, padding);
    CacheIs(part);
    CachedSame(l, part.openInodes, no);
    RemovedBut(part, dir, s, t, padding, no);
    return Gone;
  }

  lemma TwinsDiffer(l: seq<Inode>)
    requires NoTwins(l)
    ensures forall o, p :: o in l && p in l && o != p ==> o.no != p.no
  {
  }

  /** After a removal: the cache is right but for the inode removed. */
  lemma RemovedBut(part: Partition, dir: Inode, s: Fs, t: Tree, padding: set<int>, no: u32)
    requires part.Writable() && NoTwins(part.openInodes) && dir in part.openInodes && dir.no != no
    requires RemovedFrom(part.sb, s, View(part), t, dir.no, no)
    requires FsOk(part.sb, View(part), RemoveTree(part.sb, s, View(part), t, dir.no, no), padding)
    requires dir.Disk() == At(part.sb, View(part), dir.no)
    requires forall o :: o in part.openInodes ==> o.openCnts > 0 && o.no < 4096 && BitSetIn(s.ibits, o.no)
    requires forall o :: o in part.openInodes && o != dir ==> o.Disk() == At(part.sb, s, o.no)
    ensures SoundBut(part, RemoveTree(part.sb, s, View(part), t, dir.no, no), padding, no)
    ensures Sound(part, RemoveTree(part.sb, s, View(part), t, dir.no, no), padding) <==> !Cached(part.openInodes, no)
  {
    hide *;
    ViewIs(part);
    RemovedStep(part.sb, s, View(part), t, dir.no, no);
    TwinsDiffer(part.openInodes);
    RemoveStepFacts(part.sb, s, View(part), t, dir.no, no);
    SoundButIntro(part, RemoveTree(part.sb, s, View(part), t, dir.no, no), padding, no);
    SoundButIff(part, RemoveTree(part.sb, s, View(part), t, dir.no, no), padding, no);
  }

  lemma RemovedStep(sb: SuperBlock, s: Fs, s1: Fs, t: Tree, d: nat, no: u32)
    requires RemovedFrom(sb, s, s1, t, d, no)
    ensures d in t.parent && RemoveStep(sb, s, s1, d, t.parent[d], no)
  {
    hide RemoveStep;
  }

  lemma RegularNotRoot(sb: SuperBlock, s: Fs, t: Tree, padding: set<int>, no: nat)
    requires FsOk(sb, s, t, padding) && no in t.kind && t.kind[no] == FT_REGULAR
    ensures no != 0
  {
    hide FsOk;
    RootIsDirectory(sb, s, t, padding);
  }

  datatype RmdirResult = NotEmpty | RemovedDir

  /** How the search finds directory `i` in directory `p`: under its name, as ".", or as "..". */
  ghost predicate FoundIn(t: Tree, i: nat, p: nat) {
    && i in t.kind && p in t.kind && t.kind[p] == FT_DIRECTORY && i in t.parent && p in t.parent
    && (t.parent[i] == p || i == p || t.parent[p] == i)
  }

  /** `dir_is_empty` and `dir_remove` of the directory `victim`, found in `dir`; the assertions on the block slots hold. What
      "." has led to is released, but its entry stays. */
  method Rmdir(part: Partition, dir: Inode, victim: Inode, ghost t: Tree, ghost padding: set<int>) returns (r: RmdirResult)
    requires Sound(part, t, padding) && dir in part.openInodes && victim in part.openInodes
    requires victim.no != 0 && victim.no as nat in t.kind && t.kind[victim.no] == FT_DIRECTORY && FoundIn(t, victim.no, dir.no)
    modifies part`disk, part.blockBitmap.bits, part.inodeBitmap.bits, part`openInodes, part.openInodes`openCnts, dir`size
    modifies dir`sectors
    ensures r.NotEmpty? <==> |old(Entries(part.disk, victim.Disk()))| != 2
    ensures r.NotEmpty? ==> View(part) == old(View(part)) && Sound(part, t, padding)
    ensures r.RemovedDir? && dir != victim ==> RemovedFrom(part.sb, old(View(part)), View(part), t, dir.no, victim.no)
    ensures r.RemovedDir? && dir != victim ==>
      SoundBut(part, RemoveTree(part.sb, old(View(part)), View(part), t, dir.no, victim.no), padding, victim.no)
    ensures r.RemovedDir? && dir == victim ==> Released(part.sb, old(View(part)), View(part), victim.no)
    ensures r.RemovedDir? && dir == victim ==> forall t1: Tree, padding1: set<int> :: !FsOk(part.sb, View(part), t1, padding1)
    ensures NoTwins(part.openInodes) && Cache(part) == old(Cache(part))
  {
    hide *;
    ghost var s, no := View(part), victim.no;
    SoundFacts(part, t, padding);
    ViewIs(part);
    CacheIs(part);
    DirInode(part.sb, s, t, padding, no);
    DirectoryParts(part.disk, part.sb, part.Bits(), victim.Disk(), t.parent[no]);
    InodeDisk(victim);
    FoundInCases(t, no, dir.no);
    TwinsDiffer(part.openInodes);
    var empty := DirIsEmpty(part, victim, t.parent[no]);
    if !empty {
      NotTwo(part.disk, part.sb, part.Bits(), victim.Disk(), t.parent[no]);
      return NotEmpty;
    }
    EmptySize(part.disk, victim.Disk());
    EmptyDirectoryBlocks(part.disk, part.sb, part.Bits(), victim.Disk(), t.parent[no]);
    assert forall blockIdx :: 1 <= blockIdx <= 12 ==> victim.sectors[blockIdx] == 0;
    LeafDirectory(part.sb, s, t, padding, no, t.parent[no]);
    FoundInLeaf(part.sb, s, t, padding, no, dir.no);
    if dir != victim {
      ListedThere(part.sb, s, t, padding, no, dir.no);
    }
    DeleteAndRelease(part, dir, victim.no, t, padding);
    CacheIs(part);
    if dir == victim {
      Dangling(part.sb, s, t, padding, View(part), no);
    } else {
      RemovedBut(part, dir, s, t, padding, no);
    }
    return RemovedDir;
  }

  lemma FoundInCases(t: Tree, i: nat, p: nat)
    requires FoundIn(t, i, p)
    ensures i in t.kind && p in t.kind && t.kind[p] == FT_DIRECTORY && i in t.parent && p in t.parent
    ensures t.parent[i] == p || i == p || t.parent[p] == i
  {
  }

  /** A directory without children was not found as "..". */
  lemma FoundInLeaf(sb: SuperBlock, s: Fs, t: Tree, padding: set<int>, i: nat, p: nat)
    requires FsOk(sb, s, t, padding) && FoundIn(t, i, p) && Leaf(t, i) && i != 0
    ensures t.parent[i] == p || i == p
  {
    hide FsOk;
    FsParts(sb, s, t, padding);
    RootIsDirectory(sb, s, t, padding);
    hide *;
    FoundInCases(t, i, p);
    if p != 0 {
      LeafNot(t, i, p);
    }
  }

  lemma NotTwo(d: seq<Sector>, sb: SuperBlock, bits: seq<byte>, i: DiskInode, parent: u32)
    requires Directory(d, sb, bits, i, parent)
    requires Entries(d, i) != [Entry(DOT, i.no, FT_DIRECTORY), Entry(DOT_DOT, parent, FT_DIRECTORY)]
    ensures |Entries(d, i)| != 2
  {
    hide Directory, Entries;
    if |Entries(d, i)| == 2 {
      TwoEntries(d, sb, bits, i, parent);
    }
  }

  lemma EmptySize(d: seq<Sector>, i: DiskInode)
    requires exists e, f :: Entries(d, i) == [e, f]
    ensures |Entries(d, i)| == 2
  {
  }

  // ----- creating -----

  /** Before the entry is written the new inode may have taken the blocks `r`, which were free. */
  ghost predicate Taking(sb: SuperBlock, s: Fs, m: Fs, r: set<int>) {
    && |m.disk| == |s.disk| && |m.bits| == |s.bits| && BlockMirror(m.disk, sb, m.bits)
    && r <= UsableBlocks(sb, |s.disk|, s.bits) && FreeBlocks(sb, m.bits) == FreeBlocks(sb, s.bits) - r
    && (forall l :: 0 <= l < |s.disk| && !InBlockBitmap(sb, l) && l !in r ==> m.disk[l] == s.disk[l])
  }

  /** What the parent's inode, the new inode and the inode bitmap add to the disk after the entry. */
  ghost predicate Written(sb: SuperBlock, d1: seq<Sector>, d: nat, i1: DiskInode, no: nat, in1: DiskInode, ib1: seq<byte>,
        d4: seq<Sector>)
    requires |i1.sectors| == 13 && |in1.sectors| == 13
  {
    exists d2: seq<Sector>, d3: seq<Sector> :: WindowWritten(d1, d2, sb, d, EncodeInode(i1))
      && WindowWritten(d2, d3, sb, no, EncodeInode(in1)) && |ib1| == 512
      && d4 == d3[sb.inodeBitmapLba := SectorOf(ib1, 0)]
  }

  /** Two windows and the inode bitmap are written; all else stays. */
  lemma WrittenFacts(sb: SuperBlock, d1: seq<Sector>, bits: seq<byte>, d: nat, i1: DiskInode, no: nat, in1: DiskInode,
        ib1: seq<byte>, d4: seq<Sector>)
    requires |i1.sectors| == 13 && |in1.sectors| == 13 && d != no && Written(sb, d1, d, i1, no, in1, ib1, d4)
    requires Geometry(sb, |d1|) && BlockMirror(d1, sb, bits) && FreeWithin(sb, bits)
    ensures |d4| == |d1| && d < 4096 && no < 4096 && |ib1| == 512 && Confined(sb, d1, d4)
    ensures BlockMirror(d4, sb, bits) && FreeWithin(sb, bits) && Mirrored(d4, sb.inodeBitmapLba, 1, ib1)
    ensures forall l :: sb.dataStartLba <= l < |d1| ==> d4[l] == d1[l]
    ensures var s1, s4 := Fs(d1, bits, ib1), Fs(d4, bits, ib1);
      && At(sb, s4, d) == i1 && At(sb, s4, no) == in1 && OtherInodes(sb, s1, s4, {d, no})
  {
    hide FreeBlocks, InodeWindow, EncodeInode, DecodeInode, At, Mirrored;
    var d2: seq<Sector>, d3: seq<Sector> :| WindowWritten(d1, d2, sb, d, EncodeInode(i1))
      && WindowWritten(d2, d3, sb, no, EncodeInode(in1)) && |ib1| == 512
      && d4 == d3[sb.inodeBitmapLba := SectorOf(ib1, 0)];
    WindowMirrors(sb, d1, bits, ib1, d2, d, EncodeInode(i1));
    WindowMirrors(sb, d2, bits, ib1, d3, no, EncodeInode(in1));
    InodeBitmapSynced(sb, d3, bits, ib1);
    FreeExistSame(sb, bits, d3, d4);
    WindowOthers(sb, Fs(d1, bits, ib1), Fs(d2, bits, ib1), d, EncodeInode(i1));
    WindowOthers(sb, Fs(d2, bits, ib1), Fs(d3, bits, ib1), no, EncodeInode(in1));
    TableKept(sb, Fs(d3, bits, ib1), Fs(d4, bits, ib1));
    InodeRoundTrip(i1);
    InodeRoundTrip(in1);
    ConfinedIntro(sb, d1, d4, {});
  }

  lemma FreeExistSame(sb: SuperBlock, bits: seq<byte>, d: seq<Sector>, d1: seq<Sector>)
    requires FreeWithin(sb, bits) && |d1| == |d|
    ensures FreeWithin(sb, bits)
  {
    hide FreeBlocks;
  }

  lemma InsertedParts(sb: SuperBlock, d0: seq<Sector>, b0: seq<byte>, i0: DiskInode,
      d1: seq<Sector>, b1: seq<byte>, i1: DiskInode, parent: u32, e: Entry)
    requires Inserted(sb, d0, b0, i0, d1, b1, i1, parent, e)
    ensures |d1| == |d0| && |b1| == |b0| && i1.no == i0.no && BlockMirror(d1, sb, b1)
    ensures EntryAdded(Entries(d0, i0), Entries(d1, i1), e) && Directory(d1, sb, b1, i1, parent)
    ensures DirOwned(i0.sectors) <= DirOwned(i1.sectors)
    ensures DirOwned(i1.sectors) - DirOwned(i0.sectors) <= FreeBlocks(sb, b0)
    ensures FreeBlocks(sb, b1) == FreeBlocks(sb, b0) - DirOwned(i1.sectors)
    ensures forall l :: 0 <= l < |d0| && !InBlockBitmap(sb, l) && l !in DirOwned(i1.sectors) ==> d1[l] == d0[l]
  {
    hide Entries, Directory, DirOwned, FreeBlocks, BlockMirror, Insert;
  }

  /** Sectors from the first data block on are none of the bitmaps or the inode table. */
  lemma DataApart(sb: SuperBlock, n: nat)
    requires Geometry(sb, n)
    ensures forall l :: sb.dataStartLba <= l ==> !InBlockBitmap(sb, l) && !InInodeTable(sb, l) && 0 <= l
    ensures forall l :: InInodeTable(sb, l) ==> !InBlockBitmap(sb, l)
  {
  }

  /** Taking blocks, inserting the entry and writing the inodes and their bitmap add up to a creation. */
  lemma AddComposes(sb: SuperBlock, s: Fs, m: Fs, d1: seq<Sector>, s1: Fs, i1: DiskInode, in1: DiskInode, d: nat, parent: u32,
        e: Entry, r: set<int>)
    requires Geometry(sb, |s.disk|) && FreeWithin(sb, s.bits) && d < 4096 && d != e.no as nat
    requires Taking(sb, s, m, r) && r !! DirOwned(At(sb, s, d).sectors) && IsChild(e)
    requires (forall x :: x in DirOwned(At(sb, s, d).sectors) || x in r ==> sb.dataStartLba <= x < |s.disk|)
    requires (forall x :: x in r ==> x <= PartEnd(sb))
    requires At(sb, s, d).no == d && |i1.sectors| == 13 && |in1.sectors| == 13
    requires Entries(m.disk, At(sb, s, d)) == Entries(s.disk, At(sb, s, d))
    requires Inserted(sb, m.disk, m.bits, At(sb, s, d), d1, s1.bits, i1, parent, e)
    requires Written(sb, d1, d, i1, e.no, in1, s1.ibits, s1.disk)
    ensures Mirrors(sb, s1) && OtherInodes(sb, s, s1, {d, e.no as nat}) && At(sb, s1, d) == i1 && At(sb, s1, e.no) == in1
    ensures AddEntry(sb, s, s1, d, parent, e) && AddBlocks(sb, s, s1, DirOwned(At(sb, s, d).sectors), DirOwned(i1.sectors), r)
    ensures |s1.disk| == |s.disk| == |m.disk| && Confined(sb, s.disk, s1.disk)
    ensures forall x :: x in r ==> sb.dataStartLba <= x < |s.disk| && s1.disk[x] == m.disk[x] && x !in FreeBlocks(sb, s1.bits)
  {
    hide *;
    var i0 := At(sb, s, d);
    DataApart(sb, |s.disk|);
    TakingFacts(sb, s, m, r);
    InsertedParts(sb, m.disk, m.bits, i0, d1, s1.bits, i1, parent, e);
    FreeFewer(sb, s.disk, s.bits, d1, s1.bits);
    WrittenFacts(sb, d1, s1.bits, d, i1, e.no, in1, s1.ibits, s1.disk);
    OwnedFacts(d1, sb, s1.bits, i1, parent);
    DirectoryFrame(d1, sb, s1.bits, i1, parent, s1.disk);
    assert DirOwned(i1.sectors) !! r;
    AddBlocksIntro(sb, s, m, d1, s1, DirOwned(i0.sectors), DirOwned(i1.sectors), r);
    TakenInside(sb, s.disk, m.disk, r);
    TakenInside(sb, m.disk, d1, DirOwned(i1.sectors));
    ConfinedTwice(sb, s.disk, m.disk, d1);
    ConfinedTwice(sb, s.disk, d1, s1.disk);
    TableKept(sb, s, Fs(d1, s1.bits, s1.ibits));
    OthersCompose(sb, s, Fs(d1, s1.bits, s1.ibits), s1, {d, e.no as nat});
    AddEntryIntro(sb, s, s1, d, parent, e, i1);
    MirrorsIntro(sb, s1);
  }

  /** Only the block bitmap and blocks of the partition are written. */
  lemma TakenInside(sb: SuperBlock, d0: seq<Sector>, d1: seq<Sector>, xs: set<int>)
    requires Geometry(sb, |d0|) && |d1| == |d0|
    requires forall l :: 0 <= l < |d0| && !InBlockBitmap(sb, l) && l !in xs ==> d1[l] == d0[l]
    requires forall x :: x in xs ==> sb.dataStartLba <= x <= PartEnd(sb)
    ensures Confined(sb, d0, d1)
  {
  }

  lemma TakingFacts(sb: SuperBlock, s: Fs, m: Fs, r: set<int>)
    requires Taking(sb, s, m, r)
    ensures |m.disk| == |s.disk| && |m.bits| == |s.bits| && BlockMirror(m.disk, sb, m.bits)
    ensures r <= UsableBlocks(sb, |s.disk|, s.bits) && r <= FreeBlocks(sb, s.bits)
    ensures FreeBlocks(sb, m.bits) == FreeBlocks(sb, s.bits) - r
    ensures forall l :: 0 <= l < |s.disk| && !InBlockBitmap(sb, l) && l !in r ==> m.disk[l] == s.disk[l]
  {
    hide FreeBlocks, BlockMirror;
  }

  lemma FreeFewer(sb: SuperBlock, d: seq<Sector>, b: seq<byte>, d1: seq<Sector>, b1: seq<byte>)
    requires FreeWithin(sb, b) && |d1| == |d| && FreeBlocks(sb, b1) <= FreeBlocks(sb, b)
    ensures FreeWithin(sb, b1)
  {
    hide FreeBlocks;
  }

  lemma AddBlocksIntro(sb: SuperBlock, s: Fs, m: Fs, d1: seq<Sector>, s1: Fs, o0: set<int>, o1: set<int>, r: set<int>)
    requires |m.disk| == |s.disk| == |d1| == |s1.disk| && |s1.bits| == |s.bits|
    requires forall l :: sb.dataStartLba <= l ==> !InBlockBitmap(sb, l) && !InInodeTable(sb, l) && 0 <= l
    requires r <= FreeBlocks(sb, s.bits) && FreeBlocks(sb, m.bits) == FreeBlocks(sb, s.bits) - r
    requires forall l :: 0 <= l < |s.disk| && !InBlockBitmap(sb, l) && l !in r ==> m.disk[l] == s.disk[l]
    requires o0 <= o1 && o1 - o0 <= FreeBlocks(sb, m.bits) && FreeBlocks(sb, s1.bits) == FreeBlocks(sb, m.bits) - o1 && o1 !! r
    requires forall l :: 0 <= l < |s.disk| && !InBlockBitmap(sb, l) && l !in o1 ==> d1[l] == m.disk[l]
    requires forall l :: sb.dataStartLba <= l < |s.disk| ==> s1.disk[l] == d1[l]
    ensures AddBlocks(sb, s, s1, o0, o1, r)
    ensures forall x :: x in r && sb.dataStartLba <= x < |s.disk| ==> s1.disk[x] == m.disk[x] && x !in FreeBlocks(sb, s1.bits)
  {
    hide FreeBlocks, InBlockBitmap, InInodeTable;
  }

  lemma OthersCompose(sb: SuperBlock, s: Fs, m: Fs, s1: Fs, changed: set<nat>)
    requires forall i: nat {:trigger At(sb, m, i)} :: i < 4096 ==> At(sb, m, i) == At(sb, s, i)
    requires OtherInodes(sb, m, s1, changed)
    ensures OtherInodes(sb, s, s1, changed)
  {
    hide At;
    forall i: nat | i < 4096 && i !in changed
      ensures At(sb, s1, i) == At(sb, s, i)
    {
      assert At(sb, m, i) == At(sb, s, i);
    }
  }

  lemma AddEntryIntro(sb: SuperBlock, s: Fs, s1: Fs, d: nat, parent: u32, e: Entry, i1: DiskInode)
    requires At(sb, s1, d) == i1 && i1.no == At(sb, s, d).no && IsChild(e) && Directory(s1.disk, sb, s1.bits, i1, parent)
    requires EntryAdded(Entries(s.disk, At(sb, s, d)), Entries(s1.disk, i1), e)
    ensures AddEntry(sb, s, s1, d, parent, e)
  {
    hide At, Directory, EntryAdded, Entries, IsChild;
  }

  lemma MirrorsIntro(sb: SuperBlock, s: Fs)
    requires Geometry(sb, |s.disk|) && BlockMirror(s.disk, sb, s.bits) && FreeWithin(sb, s.bits)
    requires |s.ibits| == 512 && Mirrored(s.disk, sb.inodeBitmapLba, 1, s.ibits)
    ensures Mirrors(sb, s)
  {
  }

  /** `inode_init` */
  function NewInode(no: u32): (i: DiskInode)
    ensures i.no == no && |i.sectors| == 13
  {
    DiskInode(no, 0, Copies<u32>(0, 13))
  }

  lemma EmptyFile(disk: seq<Sector>, sb: SuperBlock, bits: seq<byte>, no: u32)
    ensures RegularFile(disk, sb, bits, NewInode(no)) && Reach(disk, NewInode(no)) == {}
  {
    assert forall b :: 0 <= b < 140 ==> Addr(disk, NewInode(no).sectors, b) == 0;
  }

  lemma PadProper(name: seq<byte>)
    requires FileName(name)
    ensures Proper(Pad(name)) && StrEq(Pad(name), name)
    ensures forall other: seq<byte> :: NoZero(other) && StrEq(Pad(name), other) ==> other == name
  {
    var n := Pad(name);
    assert n[..|name|] == name;
    forall other: seq<byte>
      ensures NoZero(other) && StrEq(n, other) ==> other == name
    {
      assert |other| < |name| ==> n[|other|] == name[|other|];
      assert |name| < |other| < 16 ==> n[..|other|][|name|] == n[|name|] == 0;
    }
  }

  /** A name the directory does not have, for an inode not in use, makes an entry it can take. */
  lemma FreshName(sb: SuperBlock, s: Fs, t: Tree, d: nat, parent: u32, name: seq<byte>, no: u32, kind: u32)
    requires Directory(s.disk, sb, s.bits, At(sb, s, d), parent) && EntriesOk(sb, s, t, d)
    requires NoMatch(Entries(s.disk, At(sb, s, d)), name) && FileName(name)
    requires no as nat !in t.kind && kind != FT_UNKNOWN
    ensures FreshEntry(Entries(s.disk, At(sb, s, d)), Entry(Pad(name), no, kind))
    ensures IsChild(Entry(Pad(name), no, kind))
  {
    hide *;
    FileNameIs(name);
    var i, e := At(sb, s, d), Entry(Pad(name), no, kind);
    var l := Entries(s.disk, i);
    PadProper(name);
    FirstEntries(s.disk, sb, s.bits, i, parent);
    DotsNotFree(l, i.no, parent, name);
    IsChildName(e, name);
    DirectoryParts(s.disk, sb, s.bits, i, parent);
    forall k | 0 <= k < |l|
      ensures Compatible(l[k], e)
    {
      GoodNamed(l, k);
      NamedProper(l[k]);
      StrEqProper(l[k].name, name);
      NoMatchAt(l, name, k);
      EntriesOkAt(sb, s, t, d, k);
      CompatibleNew(t, d, l[k], e);
    }
    FreshIntro(l, e);
  }

  lemma NamedProper(e: Entry)
    ensures Named(e) <==> Proper(e.name) && e.kind != FT_UNKNOWN
  {
  }

  lemma EntriesOkAt(sb: SuperBlock, s: Fs, t: Tree, d: nat, k: nat)
    requires EntriesOk(sb, s, t, d) && k < |Entries(s.disk, At(sb, s, d))|
    ensures EntryOk(t, d, Entries(s.disk, At(sb, s, d))[k])
  {
    hide At, Entries, EntryOk;
  }

  lemma CompatibleNew(t: Tree, d: nat, f: Entry, e: Entry)
    requires EntryOk(t, d, f) && e.no as nat !in t.kind && f.name != e.name
    ensures Compatible(f, e)
  {
    hide IsChild;
  }

  lemma FreshIntro(l: seq<Entry>, e: Entry)
    requires Proper(e.name) && e.kind != FT_UNKNOWN && IsChild(e) && forall k :: 0 <= k < |l| ==> Compatible(l[k], e)
    ensures FreshEntry(l, e)
  {
    hide Compatible, Proper, IsChild;
  }

  lemma NoMatchAt(l: seq<Entry>, name: seq<byte>, k: nat)
    requires NoMatch(l, name) && k < |l|
    ensures !StrEq(l[k].name, name)
  {
  }

  lemma DotsNotFree(l: seq<Entry>, no: u32, parent: u32, name: seq<byte>)
    requires NoMatch(l, name) && |l| >= 2
    requires l[..2] == [Entry(DOT, no, FT_DIRECTORY), Entry(DOT_DOT, parent, FT_DIRECTORY)]
    ensures name != [0x2e] && name != [0x2e, 0x2e]
  {
    assert l[0] == l[..2][0] && l[1] == l[..2][1];
    assert StrEq(DOT, [0x2e]) && StrEq(DOT_DOT, [0x2e, 0x2e]);
  }

  lemma IsChildName(e: Entry, name: seq<byte>)
    requires forall other: seq<byte> :: NoZero(other) && StrEq(e.name, other) ==> other == name
    requires name != [0x2e] && name != [0x2e, 0x2e]
    ensures IsChild(e)
  {
    assert NoZero([0x2e]) && NoZero([0x2e, 0x2e]);
  }

  /** What one more entry in directory `d` takes, besides the `blocks` of what it names. */
  ghost function BlocksFor(sb: SuperBlock, s: Fs, d: nat, blocks: nat): nat {
    blocks + if NeedsBlock(s.disk, At(sb, s, d).sectors) then 1 else 0
  }

  /** There are a number and the blocks for one more entry in directory `d`. Without them `bitmap_scan` stops the kernel. */
  ghost predicate Room(sb: SuperBlock, s: Fs, d: nat, blocks: nat) {
    FreeBits(s.ibits) != {} && |UsableBlocks(sb, |s.disk|, s.bits)| >= BlocksFor(sb, s, d, blocks)
  }

  /** The entry fits into the direct blocks of directory `d`, and the blocks that would be handed out for it are on the disk. */
  ghost predicate Fits(sb: SuperBlock, s: Fs, d: nat, blocks: nat) {
    |Entries(s.disk, At(sb, s, d))| < 252 && OnDisk(sb, |s.disk|, s.bits, BlocksFor(sb, s, d, blocks))
  }

  lemma FitsFacts(sb: SuperBlock, s: Fs, d: nat, blocks: nat)
    requires Fits(sb, s, d, blocks) && blocks <= 1
    ensures |Entries(s.disk, At(sb, s, d))| < 252
    ensures var u, need := UsableBlocks(sb, |s.disk|, s.bits), NeedsBlock(s.disk, At(sb, s, d).sectors);
      && (blocks == 0 && need && u == {} ==> FreeBlocks(sb, s.bits) == {})
      && (blocks == 1 && u == {} ==> FreeBlocks(sb, s.bits) == {})
      && (blocks == 1 && need && |u| == 1 ==> |FreeBlocks(sb, s.bits)| == 1)
      && (Room(sb, s, d, 0) <==> FreeBits(s.ibits) != {} && (need ==> u != {}))
      && (Room(sb, s, d, 1) <==> FreeBits(s.ibits) != {} && u != {} && (need ==> |u| != 1))
  {
    hide NeedsBlock, FreeBlocks, Entries, At, FreeBits;
    UsableAmong(sb, |s.disk|, s.bits);
  }

  /** A number just taken from the inode bitmap. */
  lemma NumberTaken(s: Fs, t: Tree, ib1: seq<byte>, no: nat)
    requires InodesUsed(s, t) && no in FreeBits(s.ibits) && BitUpdated(s.ibits, ib1, no, true)
    ensures no < 4096 && no !in t.kind && !BitSetIn(s.ibits, no) && |ib1| == 512
    ensures forall s1: Fs :: s1.ibits == ib1 ==> AddUsed(s, s1, no)
    ensures forall i: nat :: BitSetIn(s.ibits, i) ==> BitSetIn(ib1, i)
    ensures BitSetIn(ib1, no)
  {
  }

  /** The last three writes of a creation: the parent's inode, the new inode, the inode bitmap. */
  method SyncCreation(part: Partition, dir: Inode, inode: Inode)
    requires part.Writable() && dir.no < 4096 && inode.no < 4096 && |dir.sectors| == 13 && |inode.sectors| == 13
    modifies part`disk
    ensures part.Ready()
    ensures Written(part.sb, old(part.disk), dir.no, dir.Disk(), inode.no, inode.Disk(), part.inodeBitmap.bits[..], part.disk)
  {
    hide *;
    part.WritableFacts();
    part.ReadyFacts();
    InodeDisk(dir);
    InodeDisk(inode);
    ghost var d1 := part.disk;
    InodeSync(part, dir);
    ghost var d2 := part.disk;
    InodeSync(part, inode);
    ghost var d3 := part.disk;
    part.ReadyFacts();
    part.BitmapSync(inode.no, INODE_BITMAP);
    WrittenIntro(part.sb, d1, d2, d3, dir.no, dir.Disk(), inode.no, inode.Disk(), part.inodeBitmap.bits[..]);
    ReadyAgain(part, d3);
  }

  lemma WrittenIntro(sb: SuperBlock, d1: seq<Sector>, d2: seq<Sector>, d3: seq<Sector>, d: nat, i1: DiskInode, no: nat,
        in1: DiskInode, ib1: seq<byte>)
    requires |i1.sectors| == 13 && |in1.sectors| == 13
    requires WindowWritten(d1, d2, sb, d, EncodeInode(i1)) && WindowWritten(d2, d3, sb, no, EncodeInode(in1)) && |ib1| == 512
    requires Geometry(sb, |d3|)
    ensures Written(sb, d1, d, i1, no, in1, ib1, d3[sb.inodeBitmapLba := SectorOf(ib1, 0)])
  {
    hide WindowWritten, EncodeInode;
  }

  ghost predicate AddedTo(sb: SuperBlock, s: Fs, s1: Fs, t: Tree, d: nat, e: Entry) {
    d in t.parent && AddStep(sb, s, s1, d, t.parent[d], e)
  }

  lemma NewFileNode(sb: SuperBlock, s1: Fs, d: nat, e: Entry)
    requires At(sb, s1, e.no) == NewInode(e.no) && e.kind == FT_REGULAR && d < 4096
    ensures NewNode(sb, s1, d, e) && Reach(s1.disk, At(sb, s1, e.no)) == {}
  {
    hide At, Reach, RegularFile, Directory, Entries;
    EmptyFile(s1.disk, sb, s1.bits, e.no);
  }

  lemma AddIntro(sb: SuperBlock, s: Fs, s1: Fs, t: Tree, d: nat, e: Entry, r: set<int>)
    requires d in t.parent && d < 4096 && (e.kind == FT_DIRECTORY || e.kind == FT_REGULAR)
    requires Mirrors(sb, s1) && AddUsed(s, s1, e.no) && OtherInodes(sb, s, s1, {d, e.no as nat}) && Confined(sb, s.disk, s1.disk)
    requires AddEntry(sb, s, s1, d, t.parent[d], e) && NewNode(sb, s1, d, e) && r == Reach(s1.disk, At(sb, s1, e.no))
    requires AddBlocks(sb, s, s1, DirOwned(At(sb, s, d).sectors), DirOwned(At(sb, s1, d).sectors), r)
    ensures AddStep(sb, s, s1, d, t.parent[d], e)
  {
    hide Mirrors, AddUsed, OtherInodes, AddEntry, NewNode, AddBlocks, At, Reach, DirOwned;
  }

  lemma AddStepFacts(sb: SuperBlock, s: Fs, s1: Fs, t: Tree, d: nat, e: Entry)
    requires d in t.parent && AddStep(sb, s, s1, d, t.parent[d], e)
    ensures AddedTo(sb, s, s1, t, d, e)
    ensures forall i: nat :: i < 4096 && i != d && i != e.no as nat ==> At(sb, s1, i) == At(sb, s, i)
  {
    hide At, FreeBlocks, DirOwned, Mirrors, AddEntry, AddBlocks, Reach, AddUsed, NewNode;
  }

  lemma TwinsMore(inode: Inode, l: seq<Inode>)
    requires NoTwins(l) && forall o :: o in l ==> o != inode && o.no != inode.no
    ensures NoTwins([inode] + l)
  {
    var m := [inode] + l;
    assert forall k :: 0 < k < |m| ==> m[k] == l[k - 1] && m[k] in l;
  }

  lemma Kinds()
    ensures FT_REGULAR != FT_UNKNOWN && FT_DIRECTORY != FT_UNKNOWN && FT_REGULAR != FT_DIRECTORY
  {
  }

  /** What a creation leaves behind once the entry, the two inodes and the inode bitmap are on disk. `r` are the blocks the
      new inode took before. */
  ghost predicate Installed(sb: SuperBlock, s: Fs, m: seq<Sector>, s1: Fs, d: nat, parent: u32, e: Entry, i1: DiskInode,
        in1: DiskInode, r: set<int>) {
    && Mirrors(sb, s1) && OtherInodes(sb, s, s1, {d, e.no as nat}) && At(sb, s1, d) == i1 && At(sb, s1, e.no) == in1
    && AddEntry(sb, s, s1, d, parent, e) && AddBlocks(sb, s, s1, DirOwned(At(sb, s, d).sectors), DirOwned(i1.sectors), r)
    && |m| == |s.disk| == |s1.disk| && Confined(sb, s.disk, s1.disk)
    && (forall x :: x in r ==> sb.dataStartLba <= x < |s.disk| && s1.disk[x] == m[x] && x !in FreeBlocks(sb, s1.bits))
  }

  /** The common part of `file_create` and `sys_mkdir`: `sync_dir_entry`, and the three syncs. */
  method Install(part: Partition, dir: Inode, inode: Inode, e: Entry, ghost s: Fs, ghost parent: u32, ghost r: set<int>)
    returns (ok: bool)
    requires part.Writable() && Mirrors(part.sb, s) && dir != inode && dir.no != e.no && inode.no == e.no && e.no < 4096
    requires dir.no < 4096
    requires Taking(part.sb, s, View(part), r) && r !! DirOwned(dir.sectors) && dir.Disk() == At(part.sb, s, dir.no)
    requires Directory(s.disk, part.sb, s.bits, dir.Disk(), parent)
    requires Directory(part.disk, part.sb, part.Bits(), dir.Disk(), parent)
    requires Entries(part.disk, dir.Disk()) == Entries(s.disk, dir.Disk()) && |Entries(s.disk, dir.Disk())| < 252
    requires FreshEntry(Entries(s.disk, dir.Disk()), e) && IsChild(e) && |inode.sectors| == 13
    requires NeedsBlock(part.disk, dir.sectors) && UsableBlocks(part.sb, |part.disk|, part.Bits()) == {} ==>
      FreeBlocks(part.sb, part.Bits()) == {}
    modifies part`disk, part.blockBitmap.bits, dir`size, dir`sectors
    ensures ok <==>
      (NeedsBlock(old(part.disk), old(dir.sectors)) ==> UsableBlocks(part.sb, |old(part.disk)|, old(part.Bits())) != {})
    ensures ok ==> part.Writable() && View(part).ibits == old(View(part)).ibits
    ensures ok ==> Installed(part.sb, s, old(part.disk), View(part), dir.no, parent, e, dir.Disk(), inode.Disk(), r)
  {
    hide *;
    ghost var sb, d: u32, m := part.sb, dir.no, View(part);
    ViewIs(part);
    part.WritableFacts();
    part.ReadyFacts();
    MirrorsParts(sb, s);
    InodeDisk(dir);
    InodeDisk(inode);
    OwnedFacts(s.disk, sb, s.bits, dir.Disk(), parent);
    TakingRange(sb, s, m, r);
    NotCrowded(part.disk, sb, part.Bits(), dir.Disk());
    var synced := SyncDirEntry(part, dir, e, parent);
    ok := synced.Listed?;
    if !ok {
      return;
    }
    ghost var d1 := part.disk;
    part.WritableFacts();
    SyncCreation(part, dir, inode);
    ViewIs(part);
    InodeDisk(dir);
    InodeDisk(inode);
    AddComposes(sb, s, m, d1, View(part), dir.Disk(), inode.Disk(), d, parent, e, r);
    InstalledIntro(part, s, m.disk, d, parent, e, dir.Disk(), inode.Disk(), r);
  }

  lemma NotCrowded(d: seq<Sector>, sb: SuperBlock, bits: seq<byte>, i: DiskInode)
    requires |Entries(d, i)| < 252
    requires NeedsBlock(d, i.sectors) && UsableBlocks(sb, |d|, bits) == {} ==> FreeBlocks(sb, bits) == {}
    ensures SyncRoom(sb, d, bits, i) && !Crowded(d, sb, bits, i.sectors)
  {
    hide Entries, NeedsBlock, UsableBlocks, FreeBlocks, OnDisk;
    if Crowded(d, sb, bits, i.sectors) {
      CrowdedCount(d, sb, bits, i, 12);
    }
  }

  lemma InstalledIntro(part: Partition, s: Fs, m: seq<Sector>, d: nat, parent: u32, e: Entry, i1: DiskInode, in1: DiskInode,
        r: set<int>)
    requires part.Ready() && View(part) == Fs(part.disk, part.Bits(), part.inodeBitmap.bits[..]) && |m| == |s.disk|
    requires var sb, s1 := part.sb, View(part);
      && Mirrors(sb, s1) && OtherInodes(sb, s, s1, {d, e.no as nat}) && At(sb, s1, d) == i1 && At(sb, s1, e.no) == in1
      && AddEntry(sb, s, s1, d, parent, e) && AddBlocks(sb, s, s1, DirOwned(At(sb, s, d).sectors), DirOwned(i1.sectors), r)
      && Confined(sb, s.disk, s1.disk)
      && |s1.disk| == |s.disk|
      && (forall x :: x in r ==> sb.dataStartLba <= x < |s.disk| && s1.disk[x] == m[x] && x !in FreeBlocks(sb, s1.bits))
    ensures part.Writable() && Installed(part.sb, s, m, View(part), d, parent, e, i1, in1, r)
  {
    hide FreeBlocks, At, DirOwned, AddEntry, OtherInodes;
  }

  lemma InstalledFacts(sb: SuperBlock, s: Fs, m: seq<Sector>, s1: Fs, d: nat, parent: u32, e: Entry, i1: DiskInode,
        in1: DiskInode, r: set<int>)
    requires Installed(sb, s, m, s1, d, parent, e, i1, in1, r)
    ensures Mirrors(sb, s1) && OtherInodes(sb, s, s1, {d, e.no as nat}) && At(sb, s1, d) == i1 && At(sb, s1, e.no) == in1
    ensures AddEntry(sb, s, s1, d, parent, e)
    ensures AddBlocks(sb, s, s1, DirOwned(At(sb, s, d).sectors), DirOwned(At(sb, s1, d).sectors), r)
    ensures |m| == |s.disk| == |s1.disk| && Confined(sb, s.disk, s1.disk)
    ensures forall x :: x in r ==> sb.dataStartLba <= x < |s.disk| && s1.disk[x] == m[x] && x !in FreeBlocks(sb, s1.bits)
  {
    hide FreeBlocks, At, DirOwned, AddEntry, OtherInodes, Mirrors, AddBlocks;
  }

  lemma TakingRange(sb: SuperBlock, s: Fs, m: Fs, r: set<int>)
    requires Taking(sb, s, m, r) && FreeWithin(sb, s.bits)
    ensures forall x :: x in r ==> sb.dataStartLba <= x < |s.disk| && x <= PartEnd(sb)
    ensures |m.disk| == |s.disk|
  {
  }

  /** `file_table`, by its `fd_inode` fields. */
  class FileTable {
    var fdInode: seq<Option<Inode>>

    ghost predicate Valid()
      reads this
    {
      |fdInode| == 32
    }
  }

  /** `get_free_slot_in_global`: the first free slot behind the three standard streams. */
  method GetFreeSlotInGlobal(table: FileTable) returns (fdIdx: int)
    requires table.Valid()
    ensures fdIdx == -1 || (3 <= fdIdx < |table.fdInode| && table.fdInode[fdIdx].None?)
    ensures forall k :: 3 <= k < |table.fdInode| && (fdIdx == -1 || k < fdIdx) ==> table.fdInode[k].Some?
  {
    fdIdx := 3;
    while fdIdx < 32
      invariant 3 <= fdIdx <= 32 && forall k :: 3 <= k < fdIdx ==> table.fdInode[k].Some?
    {
      if table.fdInode[fdIdx].None? {
        return;
      }
      fdIdx := fdIdx + 1;
    }
    fdIdx := -1;
  }

  ghost predicate TableFull(l: seq<Option<Inode>>) {
    forall k :: 3 <= k < |l| ==> l[k].Some?
  }

  lemma TableFullIs(l: seq<Option<Inode>>, fdIdx: int)
    requires fdIdx == -1 || (3 <= fdIdx < |l| && l[fdIdx].None?)
    requires forall k :: 3 <= k < |l| && (fdIdx == -1 || k < fdIdx) ==> l[k].Some?
    ensures TableFull(l) <==> fdIdx == -1
  {
  }

  /** The first free slot behind the standard streams now holds the inode. */
  ghost predicate SlotTaken(l: seq<Option<Inode>>, m: seq<Option<Inode>>, fdIdx: int, inode: Inode) {
    3 <= fdIdx < |l| && l[fdIdx].None? && m == l[fdIdx := Some(inode)] && forall k :: 3 <= k < fdIdx ==> l[k].Some?
  }

  lemma SlotTakenIntro(l: seq<Option<Inode>>, m: seq<Option<Inode>>, fdIdx: int, inode: Inode)
    requires 3 <= fdIdx < |l| && l[fdIdx].None? && m == l[fdIdx := Some(inode)] && forall k :: 3 <= k < fdIdx ==> l[k].Some?
    ensures SlotTaken(l, m, fdIdx, inode)
  {
  }

  datatype CreateResult = CreateHalted | NoFreeSlot | NewFile(fdIdx: nat, inode: Inode)

  /** `file_create`: the new inode is listed, written, cached, open once, and in the file table. Without a slot there its number
      is given back; without a number or a block the kernel stops. */
  method FileCreate(part: Partition, table: FileTable, dir: Inode, name: seq<byte>, ghost t: Tree, ghost padding: set<int>)
    returns (r: CreateResult)
    requires Sound(part, t, padding) && dir in part.openInodes && dir.no as nat in t.kind && t.kind[dir.no] == FT_DIRECTORY
    requires Fits(part.sb, View(part), dir.no, 0) && table.Valid() && FileName(name)
    requires NoMatch(Entries(part.disk, dir.Disk()), name)
    modifies table, part`disk, part.blockBitmap.bits, part.inodeBitmap.bits, part`openInodes, dir`size, dir`sectors
    ensures r.NoFreeSlot? <==> FreeBits(old(View(part)).ibits) != {} && TableFull(old(table.fdInode))
    ensures r.NewFile? <==> Room(part.sb, old(View(part)), dir.no, 0) && !TableFull(old(table.fdInode))
    ensures r.NoFreeSlot? ==> View(part) == old(View(part)) && Sound(part, t, padding)
    ensures r.NoFreeSlot? ==> table.fdInode == old(table.fdInode)
    ensures !r.NewFile? ==> part.openInodes == old(part.openInodes)
    ensures r.CreateHalted? ==> !Room(part.sb, old(View(part)), dir.no, 0)
    ensures r.NewFile? ==> Lowest(FreeBits(old(View(part)).ibits), r.inode.no)
    ensures r.NewFile? ==> SlotTaken(old(table.fdInode), table.fdInode, r.fdIdx, r.inode)
    ensures r.NewFile? ==> fresh(r.inode) && r.inode.openCnts == 1 && part.openInodes == [r.inode] + old(part.openInodes)
    ensures r.NewFile? ==>
      var e := Entry(Pad(name), r.inode.no, FT_REGULAR);
      && AddedTo(part.sb, old(View(part)), View(part), t, dir.no, e)
      && Sound(part, AddTree(part.sb, old(View(part)), View(part), t, dir.no, e), padding)
  {
    hide *;
    ghost var sb, s, d: u32 := part.sb, View(part), dir.no;
    ViewIs(part);
    SoundFacts(part, t, padding);
    TwinsDiffer(part.openInodes);
    FitsFacts(sb, s, d, 0);
    NameLength(name);
    FsParts(sb, s, t, padding);
    DirInode(sb, s, t, padding, d);
    part.WritableFacts();
    part.ReadyFacts();
    Kinds();
    ghost var parent := t.parent[d];
    var number := part.InodeBitmapAlloc();
    if number.None? {
      return CreateHalted;
    }
    var no := number.value;
    NumberTaken(s, t, part.inodeBitmap.bits[..], no);
    var inode := new Inode(NewInode(no));
    var fdIdx := GetFreeSlotInGlobal(table);
    TableFullIs(table.fdInode, fdIdx);
    if fdIdx == -1 {
      ViewIs(part);
      GiveBack(part, no, s, t, padding);
      return NoFreeSlot;
    }
    TableLength(table);
    table.fdInode := table.fdInode[fdIdx := Some(inode)];
    SlotTakenIntro(old(table.fdInode), table.fdInode, fdIdx, inode);
    InodeDisk(inode);
    InodeDisk(dir);
    var e := Entry(Pad(name), no, FT_REGULAR);
    FreshName(sb, s, t, d, parent, name, no, FT_REGULAR);
    ViewIs(part);
    TakingNumber(sb, s, View(part));
    ghost var d0 := part.disk;
    var ok := Install(part, dir, inode, e, s, parent, {});
    if !ok {
      return CreateHalted;
    }
    FileInstalled(sb, s, t, padding, d0, View(part), d, e, dir.Disk(), inode.Disk());
    inode.openCnts := 1;
    PushInode(part, inode, dir, s, t, padding, e);
    return NewFile(fdIdx, inode);
  }

  /** An installed file is an addition to the tree. */
  lemma FileInstalled(sb: SuperBlock, s: Fs, t: Tree, padding: set<int>, m: seq<Sector>, s1: Fs, d: u32, e: Entry, i1: DiskInode,
        in1: DiskInode)
    requires FsOk(sb, s, t, padding) && d as nat in t.kind && t.kind[d] == FT_DIRECTORY && d as nat in t.parent
    requires d as nat in t.depth && d < 4096 && e.kind == FT_REGULAR && in1 == NewInode(e.no) && AddUsed(s, s1, e.no)
    requires Installed(sb, s, m, s1, d, t.parent[d], e, i1, in1, {})
    ensures AddedTo(sb, s, s1, t, d, e) && FsOk(sb, s1, AddTree(sb, s, s1, t, d, e), padding)
    ensures OtherInodes(sb, s, s1, {d as nat, e.no as nat}) && At(sb, s1, d) == i1 && At(sb, s1, e.no) == in1
  {
    hide *;
    Kinds();
    InstalledFacts(sb, s, m, s1, d, t.parent[d], e, i1, in1, {});
    NewFileNode(sb, s1, d, e);
    AddIntro(sb, s, s1, t, d, e, {});
    AddOk(sb, s, s1, t, padding, d, e);
    AddStepFacts(sb, s, s1, t, d, e);
  }

  lemma NameLength(name: seq<byte>)
    requires FileName(name)
    ensures |name| <= 15
  {
  }

  /** The roll-back of `file_create`: the number just taken, of which the disk does not know yet, is free again. */
  method GiveBack(part: Partition, no: nat, ghost s: Fs, ghost t: Tree, ghost padding: set<int>)
    requires part.Writable() && FsOk(part.sb, s, t, padding) && NoTwins(part.openInodes)
    requires part.disk == s.disk && part.Bits() == s.bits
    requires no in FreeBits(s.ibits) && BitUpdated(s.ibits, part.inodeBitmap.bits[..], no, true)
    requires forall o :: o in part.openInodes ==> o.openCnts > 0 && o.no < 4096 && BitSetIn(s.ibits, o.no)
    requires forall o :: o in part.openInodes ==> o.Disk() == At(part.sb, s, o.no)
    modifies part.inodeBitmap.bits
    ensures View(part) == s && Sound(part, t, padding)
  {
    hide *;
    ghost var b1 := part.inodeBitmap.bits[..];
    part.WritableFacts();
    part.ReadyFacts();
    ClearBit(s.ibits, no);
    SameLength(s.ibits, b1, no);
    part.inodeBitmap.Set(no, false);
    BitRestored(s.ibits, b1, part.inodeBitmap.bits[..], no);
    ViewIs(part);
    ReadyAgain(part, s.disk);
    part.BitsFacts();
    part.StillWritable(s.disk);
    SoundIntro(part, t, padding);
  }

  lemma SameLength(b0: seq<byte>, b1: seq<byte>, no: nat)
    requires BitUpdated(b0, b1, no, true)
    ensures |b1| == |b0|
  {
  }

  lemma TableLength(table: FileTable)
    requires table.Valid()
    ensures |table.fdInode| == 32
  {
  }

  lemma ClearBit(bits: seq<byte>, no: nat)
    requires no in FreeBits(bits)
    ensures no < 8 * |bits| && !BitSet(bits, no)
  {
  }

  lemma TakingNumber(sb: SuperBlock, s: Fs, m: Fs)
    requires Mirrors(sb, s) && m.disk == s.disk && m.bits == s.bits
    ensures Taking(sb, s, m, {})
  {
    hide FreeBlocks;
  }

  /** `list_push` of the new inode. */
  method PushInode(part: Partition, inode: Inode, dir: Inode, ghost s: Fs, ghost t: Tree, ghost padding: set<int>, ghost e: Entry)
    requires part.Writable() && inode.no == e.no && inode.openCnts > 0 && inode !in part.openInodes && dir.no != e.no
    requires FsOk(part.sb, View(part), AddTree(part.sb, s, View(part), t, dir.no, e), padding)
    requires NoTwins(part.openInodes) && AddUsed(s, View(part), e.no)
    requires forall o :: o in part.openInodes ==> o.openCnts > 0 && o.no < 4096 && BitSetIn(s.ibits, o.no)
    requires forall o :: o in part.openInodes && o != dir ==> o.no != dir.no && o.Disk() == At(part.sb, s, o.no)
    requires dir in part.openInodes && dir.Disk() == At(part.sb, View(part), dir.no)
    requires inode.Disk() == At(part.sb, View(part), e.no)
    requires OtherInodes(part.sb, s, View(part), {dir.no as nat, e.no as nat})
    modifies part`openInodes
    ensures part.openInodes == [inode] + old(part.openInodes)
    ensures Sound(part, AddTree(part.sb, s, View(part), t, dir.no, e), padding)
  {
    hide *;
    ghost var t1 := AddTree(part.sb, s, View(part), t, dir.no, e);
    AddUsedFacts(s, View(part), e.no);
    ViewIs(part);
    OthersFacts(part.sb, s, View(part), dir.no, e.no);
    TwinsMore(inode, part.openInodes);
    part.openInodes := [inode] + part.openInodes;
    ViewIs(part);
    SoundIntro(part, t1, padding);
  }

  lemma AddUsedFacts(s: Fs, s1: Fs, no: nat)
    requires AddUsed(s, s1, no)
    ensures no < 4096 && !BitSetIn(s.ibits, no) && BitSetIn(s1.ibits, no)
    ensures forall i: nat :: BitSetIn(s.ibits, i) ==> BitSetIn(s1.ibits, i) && i != no
  {
  }

  lemma OthersFacts(sb: SuperBlock, s: Fs, s1: Fs, d: nat, no: nat)
    requires OtherInodes(sb, s, s1, {d, no})
    ensures forall i: nat :: i < 4096 && i != d && i != no ==> At(sb, s1, i) == At(sb, s, i)
  {
    hide At;
  }

  // ----- making a directory -----

  /** The first block of a new directory. */
  function DotSector(no: u32, parent: u32): Sector {
    PutEntry(PutEntry(Copies<byte>(0, 512), 0, Entry(DOT, no, FT_DIRECTORY)), 1, Entry(DOT_DOT, parent, FT_DIRECTORY))
  }

  lemma DotSectorEntries(no: u32, parent: u32)
    ensures var s := DotSector(no, parent);
      && EntryAt(s, 0) == Entry(DOT, no, FT_DIRECTORY) && EntryAt(s, 1) == Entry(DOT_DOT, parent, FT_DIRECTORY)
      && (forall j: nat :: 2 <= j < 21 ==> EntryAt(s, j) == ZERO_ENTRY)
  {
    hide EntryAt, PutEntry;
    var s := PutEntry(Copies<byte>(0, 512), 0, Entry(DOT, no, FT_DIRECTORY));
    forall j: nat | j < 21
      ensures EntryAt(DotSector(no, parent), j) ==
        if j == 1 then Entry(DOT_DOT, parent, FT_DIRECTORY) else if j == 0 then Entry(DOT, no, FT_DIRECTORY) else ZERO_ENTRY
    {
      ZeroSector(j);
      PutEntryAt(Copies<byte>(0, 512), 0, Entry(DOT, no, FT_DIRECTORY), j);
      PutEntryAt(s, 1, Entry(DOT_DOT, parent, FT_DIRECTORY), j);
    }
  }

  lemma {:induction false} DeadLive(s: Sector, i: nat, j: nat)
    requires i <= j <= 21 && forall k: nat :: i <= k < j ==> EntryAt(s, k) == ZERO_ENTRY
    ensures Live(s, i, j) == []
    decreases j
  {
    hide EntryAt;
    if i < j {
      DeadLive(s, i, j - 1);
    }
  }

  lemma DotSectorLive(no: u32, parent: u32)
    ensures var s := DotSector(no, parent);
      && Live(s, 0, 21) == [Entry(DOT, no, FT_DIRECTORY), Entry(DOT_DOT, parent, FT_DIRECTORY)]
      && DeadSlotsZero(s)
  {
    hide EntryAt, PutEntry, DotSector;
    var s := DotSector(no, parent);
    DotSectorEntries(no, parent);
    LiveSplit(s, 0, 2, 21);
    LiveSplit(s, 0, 1, 2);
    LiveOne(s, 0);
    LiveOne(s, 1);
    DeadLive(s, 2, 21);
  }

  lemma DotsGood(no: u32, parent: u32)
    ensures GoodEntries([Entry(DOT, no, FT_DIRECTORY), Entry(DOT_DOT, parent, FT_DIRECTORY)])
  {
    DotsAreNoChildren(no, parent);
    DotNames();
    hide IsChild, Proper, Pad;
  }

  lemma DotNames()
    ensures Proper(DOT) && Proper(DOT_DOT) && DOT != DOT_DOT
  {
    assert FileName([0x2e]) && FileName([0x2e, 0x2e]);
    PadProper([0x2e]);
    PadProper([0x2e, 0x2e]);
    assert DOT[1] == 0 && DOT_DOT[1] == 0x2e;
  }

  /** `new_dir_inode` with the block `x`. */
  function DirInodeOf(no: u32, x: u32): (i: DiskInode)
    ensures i.no == no && |i.sectors| == 13
  {
    DiskInode(no, 24 * 2, [x] + Copies<u32>(0, 12))
  }

  /** In a directory with these two entries only, the first free slot is the third: nothing lies behind it. */
  lemma OneBlockPacked(disk: seq<Sector>, sectors: seq<u32>, x: u32)
    requires |sectors| == 13 && sectors[0] == x && 0 < x < |disk| && |Listing(disk, sectors, 0, 12)| == 2
    requires |Live(disk[x], 0, 21)| == 2
    requires EntryAt(disk[x], 0).kind != FT_UNKNOWN && EntryAt(disk[x], 1).kind != FT_UNKNOWN
    requires forall j: nat :: 2 <= j < 21 ==> EntryAt(disk[x], j).kind == FT_UNKNOWN
    ensures Packed(disk, sectors)
  {
    hide EntryAt, Listing, Live, Packed;
    BlockEntriesAt(disk, x);
    forall b: nat, j: nat | FirstRoom(disk, sectors, b, j)
      ensures 21 * b + j == 2
    {
      assert |BlockEntries(disk, sectors[0])| == 2;
      assert EntryAt(disk[x], 2).kind == FT_UNKNOWN;
    }
    PackedIntro(disk, sectors, 2);
  }

  /** A block with the two entries makes a directory, without a gap between its entries. */
  lemma NewDirectory(disk: seq<Sector>, sb: SuperBlock, bits: seq<byte>, no: u32, parent: u32, x: u32)
    requires 0 < sb.dataStartLba <= x < |disk| && disk[x] == DotSector(no, parent) && x as int !in FreeBlocks(sb, bits)
    requires x < sb.dataStartLba + 8 * |bits| && x <= PartEnd(sb)
    requires sb.dataStartLba as int !in FreeBlocks(sb, bits) && sb.dataStartLba < |disk|
    ensures Directory(disk, sb, bits, DirInodeOf(no, x), parent)
    ensures Entries(disk, DirInodeOf(no, x)) == [Entry(DOT, no, FT_DIRECTORY), Entry(DOT_DOT, parent, FT_DIRECTORY)]
    ensures Reach(disk, DirInodeOf(no, x)) == {x as int} && Packed(disk, DirInodeOf(no, x).sectors)
  {
    hide *;
    var i := DirInodeOf(no, x);
    DirInodeIs(no, x);
    DotSectorEntries(no, parent);
    DotSectorLive(no, parent);
    DotsGood(no, parent);
    OneBlockListing(disk, i.sectors, x);
    EntriesAre(disk, i);
    OneBlockShape(disk, sb, bits, i, parent, x);
    DirectoryIntro(disk, sb, bits, i, parent);
    ReachDirectory(disk, i);
    OneBlockOwned(i.sectors, x);
    Kinds();
    DeadSlotIsEmpty(disk[x], 0);
    OneBlockPacked(disk, i.sectors, x);
  }

  lemma DirInodeIs(no: u32, x: u32)
    ensures var i := DirInodeOf(no, x);
      i.size == 48 && i.sectors[0] == x && forall b :: 1 <= b < 13 ==> i.sectors[b] == 0
  {
  }

  lemma OneBlockListing(disk: seq<Sector>, sectors: seq<u32>, x: u32)
    requires |sectors| == 13 && sectors[0] == x && (forall b :: 1 <= b < 13 ==> sectors[b] == 0) && 0 < x < |disk|
    ensures Listing(disk, sectors, 0, 12) == Live(disk[x], 0, 21)
  {
    hide *;
    ListingAround(disk, sectors, 0);
    NextBlock(disk, sectors, 0);
    NoListing(disk, sectors, 1, 12);
    BlockEntriesAt(disk, x);
    var l := Live(disk[x], 0, 21);
    assert [] + l + [] == l;
  }

  lemma {:induction false} NoListing(disk: seq<Sector>, sectors: seq<u32>, b: nat, c: nat)
    requires b <= c <= |sectors| && forall k :: b <= k < c ==> sectors[k] == 0
    ensures Listing(disk, sectors, b, c) == []
    decreases c
  {
    if b < c {
      NoListing(disk, sectors, b, c - 1);
    }
  }

  lemma OneBlockShape(disk: seq<Sector>, sb: SuperBlock, bits: seq<byte>, i: DiskInode, parent: u32, x: u32)
    requires |i.sectors| == 13 && i.sectors[0] == x && forall b :: 1 <= b < 13 ==> i.sectors[b] == 0
    requires 0 < sb.dataStartLba <= x < |disk| && x as int !in FreeBlocks(sb, bits) && x < sb.dataStartLba + 8 * |bits|
    requires sb.dataStartLba as int !in FreeBlocks(sb, bits) && sb.dataStartLba < |disk| && x <= PartEnd(sb)
    requires EntryAt(disk[x], 0) == Entry(DOT, i.no, FT_DIRECTORY) && EntryAt(disk[x], 1) == Entry(DOT_DOT, parent, FT_DIRECTORY)
    requires DeadSlotsZero(disk[x])
    ensures DirBlocks(disk, sb, bits, i.sectors) && DirShape(disk, i, parent)
  {
    hide EntryAt, DeadSlotsZero, FreeBlocks, Live;
  }

  lemma DirectoryIntro(d: seq<Sector>, sb: SuperBlock, bits: seq<byte>, i: DiskInode, parent: u32)
    requires |i.sectors| == 13 && DirBlocks(d, sb, bits, i.sectors) && DirShape(d, i, parent)
    requires GoodEntries(Entries(d, i)) && i.size == 24 * |Entries(d, i)|
    ensures Directory(d, sb, bits, i, parent)
  {
    hide DirBlocks, DirShape, GoodEntries, Entries;
  }

  lemma OneBlockOwned(sectors: seq<u32>, x: u32)
    requires |sectors| == 13 && sectors[0] == x && x != 0 && forall b :: 1 <= b < 13 ==> sectors[b] == 0
    ensures DirOwned(sectors) == {x as int} && sectors[12] == 0
  {
  }

  /** The new directory's block: taken, then written with its two entries. */
  method TakeBlock(part: Partition, no: u32, parent: u32, ghost s: Fs) returns (r: Option<u32>)
    requires part.Writable() && Mirrors(part.sb, s) && part.disk == s.disk && part.Bits() == s.bits
    requires UsableBlocks(part.sb, |part.disk|, part.Bits()) == {} ==> FreeBlocks(part.sb, part.Bits()) == {}
    modifies part`disk, part.blockBitmap.bits
    ensures r.None? <==> UsableBlocks(part.sb, |s.disk|, s.bits) == {}
    ensures r.Some? ==>
      part.Writable() && |part.disk| == |s.disk| && Taking(part.sb, s, Fs(part.disk, part.Bits(), s.ibits), {r.value as int})
    ensures r.Some? ==> part.sb.dataStartLba <= r.value < |part.disk| && r.value < part.sb.dataStartLba + 8 * |part.Bits()|
    ensures r.Some? ==> part.disk[r.value] == DotSector(no, parent) && r.value <= PartEnd(part.sb)
    ensures r.Some? ==> |UsableBlocks(part.sb, |part.disk|, part.Bits())| == |UsableBlocks(part.sb, |part.disk|, s.bits)| - 1
    ensures r.Some? ==> |FreeBlocks(part.sb, part.Bits())| == |FreeBlocks(part.sb, s.bits)| - 1
  {
    hide *;
    ghost var sb := part.sb;
    MirrorsParts(sb, s);
    r := part.AllocBlock();
    if r.None? {
      return;
    }
    var x := r.value;
    part.WritableFacts();
    ghost var d := part.disk;
    GrownBlock(sb, s, d, part.Bits(), x, DotSector(no, parent));
    part.disk := part.disk[x := DotSector(no, parent)];
    part.StillWritable(d);
  }

  lemma GrownBlock(sb: SuperBlock, s: Fs, d: seq<Sector>, b: seq<byte>, x: u32, w: Sector)
    requires Geometry(sb, |s.disk|) && Mirrors(sb, s) && Grown(sb, s.disk, s.bits, d, b, {x as int})
    ensures sb.dataStartLba <= x < |d| == |s.disk| && x < sb.dataStartLba + 8 * |b| && x <= PartEnd(sb)
    ensures Taking(sb, s, Fs(d[x := w], b, s.ibits), {x as int}) && BlockMirror(d[x := w], sb, b)
    ensures |FreeBlocks(sb, b)| == |FreeBlocks(sb, s.bits)| - 1
  {
    assert x as int in FreeBlocks(sb, s.bits);
    MirrorFrame(sb, d, b, d[x := w]);
    hide FreeBlock, BlockMirror;
  }

  /** Blocks the directory does not own changed: it needs a block for the entry just as before. */
  lemma NeedsSame(disk: seq<Sector>, d1: seq<Sector>, i: DiskInode)
    requires |i.sectors| == 13 && |d1| == |disk|
    requires forall x :: x in DirOwned(i.sectors) && 0 <= x < |disk| ==> d1[x] == disk[x]
    ensures NeedsBlock(d1, i.sectors) == NeedsBlock(disk, i.sectors)
  {
    hide Live;
    forall b: nat | b < 12
      ensures HoleFirst(d1, i.sectors, b) == HoleFirst(disk, i.sectors, b)
    {
      forall k | 0 <= k < b
        ensures BlockEntries(d1, i.sectors[k]) == BlockEntries(disk, i.sectors[k])
      {
        assert i.sectors[k] != 0 ==> i.sectors[k] as int in DirOwned(i.sectors);
      }
      ListingFrame(disk, i.sectors, d1, i.sectors, 0, b);
    }
  }

  /** What another directory sees of a block being taken. */
  lemma TakingOther(sb: SuperBlock, s: Fs, m: Fs, t: Tree, padding: set<int>, d: nat, x: u32)
    requires FsOk(sb, s, t, padding) && d in t.kind && t.kind[d] == FT_DIRECTORY && d in t.parent && d < 4096
    requires Taking(sb, s, m, {x as int}) && sb.dataStartLba <= x
    requires Directory(s.disk, sb, s.bits, At(sb, s, d), t.parent[d])
    ensures Directory(m.disk, sb, m.bits, At(sb, s, d), t.parent[d])
    ensures Entries(m.disk, At(sb, s, d)) == Entries(s.disk, At(sb, s, d))
    ensures NeedsBlock(m.disk, At(sb, s, d).sectors) == NeedsBlock(s.disk, At(sb, s, d).sectors)
    ensures {x as int} !! DirOwned(At(sb, s, d).sectors) && x != sb.dataStartLba
    ensures sb.dataStartLba as int !in FreeBlocks(sb, m.bits)
  {
    hide *;
    var i := At(sb, s, d);
    FsParts(sb, s, t, padding);
    DataApart(sb, |s.disk|);
    TakingFacts(sb, s, m, {x as int});
    DirectorySized(s.disk, sb, s.bits, i, t.parent[d]);
    ReachDirectory(s.disk, i);
    OwnedFacts(s.disk, sb, s.bits, i, t.parent[d]);
    DirectoryStart(s.disk, sb, s.bits, i, t.parent[d]);
    assert x as int in {x as int};
    SameDirectory(sb, s.disk, s.bits, m.disk, m.bits, i, t.parent[d]);
    NeedsSame(s.disk, m.disk, i);
  }

  lemma NewDirNode(sb: SuperBlock, s1: Fs, d: nat, e: Entry, x: u32)
    requires At(sb, s1, e.no) == DirInodeOf(e.no, x) && e.kind == FT_DIRECTORY && d < 4096
    requires 0 < sb.dataStartLba <= x < |s1.disk| && s1.disk[x] == DotSector(e.no, d) && x as int !in FreeBlocks(sb, s1.bits)
    requires x < sb.dataStartLba + 8 * |s1.bits| && sb.dataStartLba as int !in FreeBlocks(sb, s1.bits) && x <= PartEnd(sb)
    ensures NewNode(sb, s1, d, e) && Reach(s1.disk, At(sb, s1, e.no)) == {x as int}
  {
    hide At, Reach, RegularFile, Directory, Entries, FreeBlocks, DotSector;
    NewDirectory(s1.disk, sb, s1.bits, e.no, d, x);
    Kinds();
  }

  /** `sys_mkdir` once the path has led to the directory `dir` and no entry of that name is there: the number of the new
      directory. Without a number, a block for it, or one for its entry, the kernel stops. */
  method MakeDirectory(part: Partition, dir: Inode, name: seq<byte>, ghost t: Tree, ghost padding: set<int>)
    returns (r: Option<u32>)
    requires Sound(part, t, padding) && dir in part.openInodes && dir.no as nat in t.kind && t.kind[dir.no] == FT_DIRECTORY
    requires Fits(part.sb, View(part), dir.no, 1) && FileName(name) && NoMatch(Entries(part.disk, dir.Disk()), name)
    modifies part`disk, part.blockBitmap.bits, part.inodeBitmap.bits, dir`size, dir`sectors
    ensures r.Some? <==> Room(part.sb, old(View(part)), dir.no, 1)
    ensures r.Some? ==> Lowest(FreeBits(old(View(part)).ibits), r.value)
    ensures r.Some? ==>
      var e := Entry(Pad(name), r.value, FT_DIRECTORY);
      && AddedTo(part.sb, old(View(part)), View(part), t, dir.no, e)
      && Sound(part, AddTree(part.sb, old(View(part)), View(part), t, dir.no, e), padding)
  {
    hide *;
    ghost var sb, s, d: u32 := part.sb, View(part), dir.no;
    ViewIs(part);
    SoundFacts(part, t, padding);
    TwinsDiffer(part.openInodes);
    FitsFacts(sb, s, d, 1);
    NameLength(name);
    FsParts(sb, s, t, padding);
    DirInode(sb, s, t, padding, d);
    part.WritableFacts();
    part.ReadyFacts();
    Kinds();
    ghost var parent := t.parent[d];
    var number := part.InodeBitmapAlloc();
    if number.None? {
      return None;
    }
    NumberTaken(s, t, part.inodeBitmap.bits[..], number.value);
    var no: u32 := number.value;
    var got := TakeBlock(part, no, dir.no, s);
    if got.None? {
      return None;
    }
    var blockLba := got.value;
    InodeDisk(dir);
    ViewIs(part);
    ghost var m := View(part);
    TakingView(sb, s, m, {blockLba as int});
    TakingOther(sb, s, m, t, padding, d, blockLba);
    assert blockLba - part.sb.dataStartLba != 0;
    var newDirInode := new Inode(DirInodeOf(no, blockLba));
    InodeDisk(newDirInode);
    var e := Entry(Pad(name), no, FT_DIRECTORY);
    FreshName(sb, s, t, d, parent, name, no, FT_DIRECTORY);
    EmptyOrNot(UsableBlocks(sb, |m.disk|, m.bits));
    EmptyOrNot(FreeBlocks(sb, m.bits));
    var ok := Install(part, dir, newDirInode, e, s, parent, {blockLba as int});
    if !ok {
      return None;
    }
    InstalledFacts(sb, s, m.disk, View(part), d, parent, e, dir.Disk(), newDirInode.Disk(), {blockLba as int});
    ViewIs(part);
    InstalledSizes(sb, s, m, View(part), d, parent, e, blockLba);
    MadeDirectory(sb, s, View(part), t, padding, d, e, blockLba);
    AddUsedFacts(s, View(part), no);
    OthersFacts(sb, s, View(part), d, no);
    SoundIntro(part, AddTree(sb, s, View(part), t, d, e), padding);
    return Some(no);
  }

  lemma EmptyOrNot(x: set<int>)
    ensures x == {} <==> |x| == 0
  {
  }

  lemma InstalledSizes(sb: SuperBlock, s: Fs, m: Fs, s1: Fs, d: nat, parent: u32, e: Entry, x: u32)
    requires Taking(sb, s, m, {x as int}) && AddEntry(sb, s, s1, d, parent, e)
    requires AddBlocks(sb, s, s1, DirOwned(At(sb, s, d).sectors), DirOwned(At(sb, s1, d).sectors), {x as int})
    ensures |s1.bits| == |m.bits| == |s.bits| && sb.dataStartLba as int !in FreeBlocks(sb, s1.bits)
  {
    hide FreeBlocks, At, DirOwned, Entries, Directory, EntryAdded, IsChild, BlockMirror;
    DirectoryStart(s1.disk, sb, s1.bits, At(sb, s1, d), parent);
  }

  lemma MadeDirectory(sb: SuperBlock, s: Fs, s1: Fs, t: Tree, padding: set<int>, d: nat, e: Entry, x: u32)
    requires FsOk(sb, s, t, padding) && d in t.kind && t.kind[d] == FT_DIRECTORY && d in t.parent && d in t.depth && d < 4096
    requires Mirrors(sb, s1) && OtherInodes(sb, s, s1, {d, e.no as nat}) && AddUsed(s, s1, e.no) && e.kind == FT_DIRECTORY
    requires Confined(sb, s.disk, s1.disk)
    requires AddEntry(sb, s, s1, d, t.parent[d], e) && At(sb, s1, e.no) == DirInodeOf(e.no, x)
    requires AddBlocks(sb, s, s1, DirOwned(At(sb, s, d).sectors), DirOwned(At(sb, s1, d).sectors), {x as int})
    requires 0 < sb.dataStartLba <= x < |s1.disk| && s1.disk[x] == DotSector(e.no, d) && x as int !in FreeBlocks(sb, s1.bits)
    requires x < sb.dataStartLba + 8 * |s1.bits| && sb.dataStartLba as int !in FreeBlocks(sb, s1.bits) && x <= PartEnd(sb)
    ensures AddedTo(sb, s, s1, t, d, e) && FsOk(sb, s1, AddTree(sb, s, s1, t, d, e), padding)
  {
    hide *;
    NewDirNode(sb, s1, d, e, x);
    AddIntro(sb, s, s1, t, d, e, {x as int});
    AddOk(sb, s, s1, t, padding, d, e);
    AddStepFacts(sb, s, s1, t, d, e);
  }

  lemma TakingView(sb: SuperBlock, s: Fs, m: Fs, r: set<int>)
    requires Taking(sb, s, Fs(m.disk, m.bits, s.ibits), r)
    ensures Taking(sb, s, m, r)
  {
    hide FreeBlocks, BlockMirror;
  }

  // ----- appending -----

  /** `file_write` to a cached file keeps the file system sound; what it writes is in the contract of `FileWrite`. */
  method Append(part: Partition, file: File, buf: seq<byte>, ghost t: Tree, ghost padding: set<int>) returns (r: WriteResult)
    requires Sound(part, t, padding) && file.inode in part.openInodes
    requires file.inode.no as nat in t.kind && t.kind[file.inode.no] == FT_REGULAR
    requires |buf| < 0xC000_0000 && |file.inode.sectors| == 13
    requires file.inode.size + |buf| < 140 * 512 ==>
      BlocksNeeded(file.inode.Disk(), |buf|) <= |UsableBlocks(part.sb, |part.disk|, part.Bits())|
    modifies part`disk, part.blockBitmap.bits, file`pos, file.inode`size, file.inode`sectors
    ensures r.TooBig? <==> old(file.inode.size) + |buf| > 140 * 512
    ensures r.Halted? <==> old(file.inode.size) + |buf| == 140 * 512
    ensures r.Written? ==> WriteStep(part.sb, old(View(part)), View(part), file.inode.no, buf)
    ensures r.Written? ==> Sound(part, WriteTree(part.sb, old(View(part)), View(part), t, file.inode.no), padding)
    ensures r.TooBig? ==> View(part) == old(View(part)) && Sound(part, t, padding)
  {
    hide *;
    ghost var sb, s, no: u32 := part.sb, View(part), file.inode.no;
    ViewIs(part);
    SoundFacts(part, t, padding);
    TwinsDiffer(part.openInodes);
    FsParts(sb, s, t, padding);
    MirrorsParts(sb, s);
    InodeParts(sb, s, t, padding, no);
    part.WritableFacts();
    part.ReadyFacts();
    InodeDisk(file.inode);
    NodeRegular(sb, s, t, no);
    r := FileWrite(part, file, buf);
    ViewIs(part);
    InodeDisk(file.inode);
    if r.Written? {
      AppendedSized(sb, no, buf, s.disk, s.bits, At(sb, s, no), part.disk, part.Bits(), file.inode.Disk());
      AppendedStep(part, s, no, buf, file.inode.Disk());
      WriteOk(sb, s, View(part), t, padding, no, buf);
      AppendedFrame(sb, s, View(part), no, buf);
      WriteOthers(sb, s, View(part), no);
      SoundIntro(part, WriteTree(sb, s, View(part), t, no), padding);
    } else if r.TooBig? {
      ReadyAgain(part, s.disk);
      part.StillWritable(s.disk);
      SoundIntro(part, t, padding);
    }
  }

  lemma NodeRegular(sb: SuperBlock, s: Fs, t: Tree, i: nat)
    requires NodeOk(sb, s, t, i) && t.kind[i] == FT_REGULAR
    ensures RegularFile(s.disk, sb, s.bits, At(sb, s, i)) && i < 4096
  {
    hide At, Directory, RegularFile;
  }

  lemma AppendedSized(sb: SuperBlock, no: nat, buf: seq<byte>, d0: seq<Sector>, b0: seq<byte>, i0: DiskInode,
      d1: seq<Sector>, b1: seq<byte>, i1: DiskInode)
    requires Appended(sb, no, buf, d0, b0, i0, d1, b1, i1)
    ensures |i1.sectors| == 13
  {
    hide Contents, FileBlocks, FreeBlocks;
  }

  lemma AppendedStep(part: Partition, s: Fs, no: nat, buf: seq<byte>, i1: DiskInode)
    requires part.Writable() && |s.ibits| == 512 && View(part) == Fs(part.disk, part.Bits(), part.inodeBitmap.bits[..])
    requires View(part).ibits == s.ibits && Mirrors(part.sb, s) && |i1.sectors| == 13
    requires Appended(part.sb, no, buf, s.disk, s.bits, At(part.sb, s, no), part.disk, part.Bits(), i1)
    ensures WriteStep(part.sb, s, View(part), no, buf) && At(part.sb, View(part), no) == i1
  {
    hide FreeBlocks, FileBlocks, RegularFile, Contents, InodeWindow, EncodeInode, DecodeInode, Reach;
    InodeRoundTrip(i1);
    ReachFile(part.disk, part.sb, part.Bits(), i1);
    assert part.disk[part.sb.inodeBitmapLba] == s.disk[part.sb.inodeBitmapLba];
  }

  lemma WriteOthers(sb: SuperBlock, s: Fs, s1: Fs, no: nat)
    requires OtherInodes(sb, s, s1, {no})
    ensures forall i: nat :: i < 4096 && i != no ==> At(sb, s1, i) == At(sb, s, i)
  {
    hide At;
  }

  // ----- mounting again -----

  lemma MirrorUnique(disk: seq<Sector>, lba: nat, sects: nat, b: seq<byte>, c: seq<byte>)
    requires Mirrored(disk, lba, sects, b) && Mirrored(disk, lba, sects, c)
    ensures b == c
  {
    forall k | 0 <= k < |b|
      ensures b[k] == c[k]
    {
      var q := k / 512;
      assert SectorOf(b, q) == SectorOf(c, q);
      assert SectorOf(b, q)[k - 512 * q] == b[k] && SectorOf(c, q)[k - 512 * q] == c[k];
    }
  }

  /** Mounting the disk of a sound partition, which is all that is left of it, gives the same super block and the same bitmaps,
      and the file system is as sound as before; reading a cached inode afresh gives what was cached. */
  method MountAgain(disk: seq<Sector>, startLba: u32, ghost part: Partition, ghost t: Tree, ghost padding: set<int>)
    returns (again: Partition)
    requires Sound(part, t, padding) && disk == part.disk && startLba == part.sb.partLbaBase
    ensures fresh(again) && again.sb == part.sb && View(again) == View(part) && Sound(again, t, padding) && again.openInodes == []
    ensures forall o :: o in part.openInodes ==> o.no < 4096 && o.Disk() == At(again.sb, View(again), o.no)
  {
    hide *;
    SoundFacts(part, t, padding);
    FsParts(part.sb, View(part), t, padding);
    ViewIs(part);
    MirrorsParts(part.sb, View(part));
    SuperThere(part.sb, disk);
    again := new Partition(startLba, disk);
    ViewIs(again);
    again.BitsFacts();
    BlockMirrorUnique(part.disk, part.sb, part.Bits(), again.Bits());
    MirrorUnique(part.disk, part.sb.inodeBitmapLba, 1, part.inodeBitmap.bits[..], again.inodeBitmap.bits[..]);
    again.StillWritable(part.disk);
    NoInodes(again.openInodes);
    SoundIntro(again, t, padding);
  }

  lemma SuperThere(sb: SuperBlock, disk: seq<Sector>)
    requires SuperHeld(sb, disk)
    ensures sb.partLbaBase + 1 < |disk| && DecodeSuper(disk[sb.partLbaBase + 1]) == sb
  {
    hide DecodeSuper;
  }

  lemma BlockMirrorUnique(disk: seq<Sector>, sb: SuperBlock, b: seq<byte>, c: seq<byte>)
    requires BlockMirror(disk, sb, b) && BlockMirror(disk, sb, c)
    ensures b == c
  {
    hide Mirrored;
    MirrorUnique(disk, sb.blockBitmapLba, sb.blockBitmapSects, b, c);
  }

  lemma NoInodes(l: seq<Inode>)
    ensures l == [] ==> NoTwins(l)
  {
  }
}
