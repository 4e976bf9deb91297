/** partition_format of fs/fs.c and the mount that follows: a run of the file system starts from here. */
module Formatting {
  import opened Bytes
  import opened Wrappers
  import opened Bitmaps
  import opened Disks
  import opened InodeTables
  import opened Partitions
  import Files
  import opened DirEntries
  import opened Dirs
  import opened FileSystems
  import opened Operations

  ghost predicate BehindLast(sb: SuperBlock, bitLen: nat, x: int) {
    sb.dataStartLba + bitLen < x
  }

  /** The sectors of the bits that `partition_format` sets because no block belongs to them. */
  ghost function Padding(sb: SuperBlock, bitLen: nat): set<int> {
    set x: int | sb.dataStartLba <= x < sb.dataStartLba + 4096 * sb.blockBitmapSects && BehindLast(sb, bitLen, x)
  }

  /** The tree of an empty file system. */
  function RootTree(sb: SuperBlock): Tree {
    Tree(map[0 := FT_DIRECTORY], map[0 := 0], map[0 := 0], map[sb.dataStartLba as int := 0])
  }

  /** The disk as mounting finds it, with the bitmaps it reads. */
  ghost function Mounted(sb: SuperBlock, disk: seq<Sector>): Fs {
    if Geometry(sb, |disk|) then
      Fs(disk, ReadSectors(disk, sb.blockBitmapLba, sb.blockBitmapSects), ReadSectors(disk, sb.inodeBitmapLba, 1))
    else Fs(disk, [], [])
  }

  lemma MountedIs(sb: SuperBlock, disk: seq<Sector>)
    requires Geometry(sb, |disk|)
    ensures var s := Mounted(sb, disk);
      && s.disk == disk && |s.bits| == 512 * sb.blockBitmapSects && |s.ibits| == 512
      && BlockMirror(disk, sb, s.bits) && Mirrored(disk, sb.inodeBitmapLba, 1, s.ibits)
  {
    ReadSectorsAre(disk, sb.blockBitmapLba, sb.blockBitmapSects);
    ReadSectorsAre(disk, sb.inodeBitmapLba, 1);
    hide ReadSectors, SectorOf;
  }

  /** What `partition_format` leaves in the regions. */
  ghost predicate Formatted(sb: SuperBlock, disk: seq<Sector>, bitLen: nat) {
    && SuperHeld(sb, disk)
    && Geometry(sb, |disk|) && |Mounted(sb, disk).bits| == 512 * sb.blockBitmapSects && |Mounted(sb, disk).ibits| == 512
    && (forall k: nat :: k < 4096 * sb.blockBitmapSects ==> (BitSet(Mounted(sb, disk).bits, k) <==> k == 0 || k > bitLen))
    && (forall k: nat :: k < 4096 ==> (BitSet(Mounted(sb, disk).ibits, k) <==> k == 0))
    && InodeAt(disk, sb, 0) == DirInodeOf(0, sb.dataStartLba)
    && disk[sb.dataStartLba] == DotSector(0, 0)
  }

  /** `partition_format`; `pad` are the bytes of the super block's padding, which are not set. */
  method PartitionFormat(disk: seq<Sector>, startLba: u32, secCnt: u32, pad: seq<byte>) returns (r: seq<Sector>)
    requires |pad| == 460 && FreeSects(secCnt) >= 16 && startLba + secCnt <= |disk| <= MAX_LBA
    ensures |r| == |disk| && Formatted(Format(startLba, secCnt), r, BlockBitmapBitLen(secCnt))
    ensures SameBut(disk, r, startLba + 1, Format(startLba, secCnt).dataStartLba)
  {
    var sb, bitLen := Format(startLba, secCnt), BlockBitmapBitLen(secCnt);
    hide *;
    FormatFacts(startLba, secCnt, |disk|);
    var superBlock := EncodeSuper(sb, pad);
    r := WriteSectors(disk, startLba + 1, 1, superBlock);
    var buf := FormatBlockBitmap(bitLen, sb.blockBitmapSects);
    ghost var bitmap := buf[..];
    r := WriteSectors(r, sb.blockBitmapLba, sb.blockBitmapSects, buf[..]);
    var inodeBits := Copies<byte>(0, 512 * 608)[0 := 1];
    r := WriteSectors(r, sb.inodeBitmapLba, 1, inodeBits);
    var table := RootTable(sb.dataStartLba);
    r := WriteSectors(r, sb.inodeTableLba, 608, table);
    r := WriteSectors(r, sb.dataStartLba, 1, DotSector(0, 0));
    Written(disk, sb, startLba, superBlock, bitmap, inodeBits, table, DotSector(0, 0));
    SuperRoundTrip(sb, pad);
    RegionsHold(sb, r, bitLen, pad, bitmap, inodeBits, table);
  }

  /** The inode table of an empty file system, as it lies in memory. */
  function RootTable(x: u32): (table: seq<byte>)
    ensures |table| == 512 * 608
  {
    Splice(Copies<byte>(0, 512 * 608), 0, EncodeInode(DirInodeOf(0, x)))
  }

  /** Only the sectors from `first` to `last` differ. */
  ghost predicate SameBut(before: seq<Sector>, after: seq<Sector>, first: nat, last: nat) {
    |after| == |before| && forall l :: 0 <= l < |before| && !(first <= l <= last) ==> after[l] == before[l]
  }

  /** The regions do not overlap, so each holds in the end what was written to it. */
  lemma Written(disk: seq<Sector>, sb: SuperBlock, startLba: u32, superBlock: Sector, bitmap: seq<byte>, inodeBits: seq<byte>,
      table: seq<byte>, root: Sector)
    requires Geometry(sb, |disk|) && sb.blockBitmapLba == startLba + 2
    requires |bitmap| >= 512 * sb.blockBitmapSects && |inodeBits| >= 512 && |table| == 512 * 608
    ensures var d1 := WriteSectors(disk, startLba + 1, 1, superBlock);
      var d2 := WriteSectors(d1, sb.blockBitmapLba, sb.blockBitmapSects, bitmap);
      var d3 := WriteSectors(d2, sb.inodeBitmapLba, 1, inodeBits);
      var r := WriteSectors(WriteSectors(d3, sb.inodeTableLba, 608, table), sb.dataStartLba, 1, root);
      && SameBut(disk, r, startLba + 1, sb.dataStartLba)
      && r[startLba + 1] == SectorOf(superBlock, 0)
      && (forall q: nat :: q < sb.blockBitmapSects ==> r[sb.blockBitmapLba + q] == SectorOf(bitmap, q))
      && r[sb.inodeBitmapLba] == SectorOf(inodeBits, 0) && r[sb.inodeTableLba] == SectorOf(table, 0)
      && r[sb.dataStartLba] == SectorOf(root, 0)
  {
    hide WriteSectors, SectorOf;
  }

  lemma FormatFacts(startLba: u32, secCnt: u32, n: nat)
    requires FreeSects(secCnt) >= 16 && startLba + secCnt <= n <= MAX_LBA
    ensures var sb := Format(startLba, secCnt);
      && Geometry(sb, n) && BlockBitmapBitLen(secCnt) >= 8
      && sb.blockBitmapSects == DivRoundUp(BlockBitmapBitLen(secCnt), 4096)
      && sb.blockBitmapLba == startLba + 2 && sb.inodeBitmapLba == sb.blockBitmapLba + sb.blockBitmapSects
      && sb.inodeTableLba == sb.inodeBitmapLba + 1 && sb.dataStartLba == sb.inodeTableLba + 608 < n
      && sb.dataStartLba + BlockBitmapBitLen(secCnt) <= PartEnd(sb) == startLba + secCnt && sb.partLbaBase == startLba
      && sb.dataStartLba < PartEnd(sb)
  {
  }

  /** The regions hold what was written to them. */
  lemma RegionsHold(sb: SuperBlock, r: seq<Sector>, bitLen: nat, pad: seq<byte>, bitmap: seq<byte>, inodeBits: seq<byte>,
      table: seq<byte>)
    requires |pad| == 460 && sb.partLbaBase + 1 < |r| && r[sb.partLbaBase + 1] == SectorOf(EncodeSuper(sb, pad), 0)
    requires DecodeSuper(EncodeSuper(sb, pad)) == sb && WordAt(EncodeSuper(sb, pad), 0) == SUPER_MAGIC
    requires Geometry(sb, |r|) && |bitmap| >= 512 * sb.blockBitmapSects && |inodeBits| >= 512 && |table| >= 512
    requires forall q: nat :: q < sb.blockBitmapSects ==> r[sb.blockBitmapLba + q] == SectorOf(bitmap, q)
    requires r[sb.inodeBitmapLba] == SectorOf(inodeBits, 0) && r[sb.inodeTableLba] == SectorOf(table, 0)
    requires r[sb.dataStartLba] == SectorOf(DotSector(0, 0), 0)
    requires forall k: nat :: k < 4096 * sb.blockBitmapSects ==> (BitSet(bitmap, k) <==> k == 0 || k > bitLen)
    requires inodeBits == Copies<byte>(0, 512 * 608)[0 := 1]
    requires table == RootTable(sb.dataStartLba)
    ensures Formatted(sb, r, bitLen)
  {
    hide DotSector, EncodeInode, BitSet, EncodeSuper, DecodeSuper, WordAt;
    var s := Mounted(sb, r);
    assert SectorOf(EncodeSuper(sb, pad), 0) == EncodeSuper(sb, pad);
    BitmapRead(r, sb.blockBitmapLba, sb.blockBitmapSects, bitmap);
    BitmapRead(r, sb.inodeBitmapLba, 1, inodeBits);
    forall k: nat | k < 4096
      ensures BitSet(s.ibits, k) <==> k == 0
    {
      FirstBit(inodeBits, k);
    }
    RootWindow(sb, r, table);
    assert SectorOf(DotSector(0, 0), 0) == DotSector(0, 0);
  }

  lemma FirstBit(bits: seq<byte>, k: nat)
    requires k < 8 * |bits| && bits[0] == 1 && forall i :: 1 <= i < |bits| ==> bits[i] == 0
    ensures BitSet(bits, k) <==> k == 0
  {
    OneByte(k % 8);
  }

  /** A bitmap read back has the bits that were written. */
  lemma BitmapRead(disk: seq<Sector>, lba: nat, sects: nat, buf: seq<byte>)
    requires lba + sects <= |disk| && |buf| >= 512 * sects
    requires forall q: nat :: q < sects ==> disk[lba + q] == SectorOf(buf, q)
    ensures forall k: nat :: k < 4096 * sects ==> BitSet(ReadSectors(disk, lba, sects), k) == BitSet(buf, k)
  {
    hide ReadSectors;
    ReadSectorsAre(disk, lba, sects);
    var r := ReadSectors(disk, lba, sects);
    forall k: nat | k < 4096 * sects
      ensures BitSet(r, k) == BitSet(buf, k)
    {
      var i := k / 8;
      var q := i / 512;
      assert SectorOf(r, q) == SectorOf(buf, q);
      assert SectorOf(r, q)[i - 512 * q] == r[i] && SectorOf(buf, q)[i - 512 * q] == buf[i];
    }
  }

  lemma RootWindow(sb: SuperBlock, r: seq<Sector>, table: seq<byte>)
    requires Geometry(sb, |r|) && |table| >= 512 && r[sb.inodeTableLba] == SectorOf(table, 0)
    requires table == RootTable(sb.dataStartLba)
    ensures InodeAt(r, sb, 0) == DirInodeOf(0, sb.dataStartLba)
  {
    hide EncodeInode, DecodeInode, DirInodeOf;
    var i := DirInodeOf(0, sb.dataStartLba);
    forall k | 0 <= k < 76
      ensures InodeWindow(r, sb, 0)[k] == EncodeInode(i)[k]
    {
      assert RegionByte(r, sb.inodeTableLba, k) == SectorOf(table, 0)[k];
    }
    assert InodeWindow(r, sb, 0) == EncodeInode(i);
    InodeRoundTrip(i);
  }

  /** A formatted partition is a well-formed file system with nothing but its root. The first sector behind it is a free block
      exactly if the second sizing step did not give a bitmap sector back. */
  lemma FormattedOk(startLba: u32, secCnt: u32, disk: seq<Sector>)
    requires FreeSects(secCnt) >= 16 && startLba + secCnt <= |disk| <= MAX_LBA
    requires Formatted(Format(startLba, secCnt), disk, BlockBitmapBitLen(secCnt))
    ensures var sb := Format(startLba, secCnt);
      && FsOk(sb, Mounted(sb, disk), RootTree(sb), Padding(sb, BlockBitmapBitLen(secCnt)))
      && (PartEnd(sb) in FreeBlocks(sb, Mounted(sb, disk).bits) <==> !SectorSpared(secCnt))
      && PartEnd(sb) == startLba + secCnt && PartEnd(sb) !in RootTree(sb).owner
  {
    hide *;
    var sb, bitLen := Format(startLba, secCnt), BlockBitmapBitLen(secCnt);
    var s, t := Mounted(sb, disk), RootTree(sb);
    FormatFacts(startLba, secCnt, |disk|);
    FormattedFree(startLba, secCnt, disk);
    RootKey(sb);
    FormattedBlocks(sb, disk, bitLen);
    FormattedRoot(sb, disk, bitLen);
    FsIntro(sb, s, t, Padding(sb, bitLen));
  }

  lemma RootKey(sb: SuperBlock)
    ensures RootTree(sb).kind.Keys == {0} && RootTree(sb).owner.Keys == {sb.dataStartLba as int}
  {
  }

  lemma FormattedFree(startLba: u32, secCnt: u32, disk: seq<Sector>)
    requires FreeSects(secCnt) >= 16 && startLba + secCnt <= |disk| <= MAX_LBA
    requires Formatted(Format(startLba, secCnt), disk, BlockBitmapBitLen(secCnt))
    ensures var sb := Format(startLba, secCnt);
      && Mounted(sb, disk).disk == disk && SuperHeld(sb, disk) && FreeWithin(sb, Mounted(sb, disk).bits)
      && (PartEnd(sb) in FreeBlocks(sb, Mounted(sb, disk).bits) <==> !SectorSpared(secCnt))
  {
    hide *;
    var sb, bits := Format(startLba, secCnt), Mounted(Format(startLba, secCnt), disk).bits;
    FormatFacts(startLba, secCnt, |disk|);
    FormattedParts(sb, disk, BlockBitmapBitLen(secCnt));
    FormatFreeBitsInside(startLba, secCnt, bits);
    FreeEither(sb, bits);
    FreeUpTo(sb, bits, BlockBitmapBitLen(secCnt));
  }

  lemma FormattedParts(sb: SuperBlock, disk: seq<Sector>, bitLen: nat)
    requires Formatted(sb, disk, bitLen)
    ensures Mounted(sb, disk).disk == disk && SuperHeld(sb, disk) && Geometry(sb, |disk|)
    ensures |Mounted(sb, disk).bits| == 512 * sb.blockBitmapSects
    ensures forall k: nat :: k < 4096 * sb.blockBitmapSects ==> (BitSet(Mounted(sb, disk).bits, k) <==> k == 0 || k > bitLen)
  {
    hide BitSet, DotSector, InodeAt, ReadSectors, SuperHeld;
  }

  /** Free blocks by sector and by bit. */
  lemma FreeEither(sb: SuperBlock, bits: seq<byte>)
    ensures (forall k: nat :: k in FreeBits(bits) ==> sb.dataStartLba + k < PartEnd(sb)) ==> PartEnd(sb) !in FreeBlocks(sb, bits)
    ensures (exists k: nat :: k in FreeBits(bits) && sb.dataStartLba + k == PartEnd(sb)) ==> PartEnd(sb) in FreeBlocks(sb, bits)
  {
    hide FreeBits, FreeBlocks, PartEnd;
    FreeBit(sb, bits, PartEnd(sb));
    forall k: nat | k in FreeBits(bits)
      ensures sb.dataStartLba + k in FreeBlocks(sb, bits)
    {
      FreeBit(sb, bits, sb.dataStartLba + k);
    }
  }

  /** The free blocks after the format: those of the bits 1 to `bitLen`. */
  lemma FreeUpTo(sb: SuperBlock, bits: seq<byte>, bitLen: nat)
    requires |bits| == 512 * sb.blockBitmapSects && sb.dataStartLba + bitLen <= PartEnd(sb)
    requires forall k: nat :: k < 4096 * sb.blockBitmapSects ==> (BitSet(bits, k) <==> k == 0 || k > bitLen)
    ensures FreeWithin(sb, bits)
    ensures forall x :: x in FreeBlocks(sb, bits) <==>
      sb.dataStartLba < x <= sb.dataStartLba + bitLen && x < sb.dataStartLba + 4096 * sb.blockBitmapSects
  {
    hide BitSet, PartEnd;
    forall x
      ensures x in FreeBlocks(sb, bits) <==>
        sb.dataStartLba < x <= sb.dataStartLba + bitLen && x < sb.dataStartLba + 4096 * sb.blockBitmapSects
    {
      var k := x - sb.dataStartLba;
      if 0 <= k < 4096 * sb.blockBitmapSects {
        assert BitSet(bits, k) <==> k == 0 || k > bitLen;
      }
    }
  }

  lemma FreeBit(sb: SuperBlock, bits: seq<byte>, x: int)
    ensures x in FreeBlocks(sb, bits) <==> x >= sb.dataStartLba && (x - sb.dataStartLba) as nat in FreeBits(bits)
  {
    hide BitSet;
  }

  lemma FormattedBlocks(sb: SuperBlock, disk: seq<Sector>, bitLen: nat)
    requires Formatted(sb, disk, bitLen) && FreeWithin(sb, Mounted(sb, disk).bits)
    ensures var s := Mounted(sb, disk); var t := RootTree(sb);
      Mirrors(sb, s) && InodesUsed(s, t) && BlocksUsed(sb, s, t, Padding(sb, bitLen))
  {
    hide BitSet, DotSector, InodeAt, ReadSectors, SuperHeld;
    MountedIs(sb, disk);
  }

  lemma FormattedRoot(sb: SuperBlock, disk: seq<Sector>, bitLen: nat)
    requires Formatted(sb, disk, bitLen)
    ensures RootOk(sb, Mounted(sb, disk), RootTree(sb)) && InodeOk(sb, Mounted(sb, disk), RootTree(sb), 0)
  {
    hide BitSet, DotSector, InodeAt, ReadSectors, SuperHeld, Directory, Entries, Reach, IsChild, FreeBlocks;
    var s, t, x := Mounted(sb, disk), RootTree(sb), sb.dataStartLba;
    RootTaken0(sb, disk, bitLen);
    NewDirectory(disk, sb, s.bits, 0, 0, x);
    DirInodeIs(0, x);
    DotsAreNoChildren(0, 0);
    assert At(sb, s, 0) == DirInodeOf(0, x);
    assert NodeOk(sb, s, t, 0);
    assert OwnsOk(sb, s, t, 0);
    assert EntriesOk(sb, s, t, 0);
  }

  lemma RootTaken0(sb: SuperBlock, disk: seq<Sector>, bitLen: nat)
    requires Formatted(sb, disk, bitLen)
    ensures sb.dataStartLba as int !in FreeBlocks(sb, Mounted(sb, disk).bits)
    ensures |Mounted(sb, disk).bits| == 512 * sb.blockBitmapSects
  {
    hide BitSet, DotSector, InodeAt, ReadSectors, SuperHeld;
  }

  /** What `filesys_init` does with a partition: it is formatted unless its super block has the magic number, and mounted. */
  method InitPartition(disk: seq<Sector>, startLba: u32, secCnt: u32, pad: seq<byte>, ghost t: Tree, ghost padding: set<int>)
    returns (part: Partition)
    requires |pad| == 460 && FreeSects(secCnt) >= 16 && startLba + secCnt <= |disk| <= MAX_LBA
    requires WordAt(disk[startLba + 1], 0) == SUPER_MAGIC ==> Geometry(DecodeSuper(disk[startLba + 1]), |disk|)
    ensures fresh(part) && fresh(part.blockBitmap.bits) && part.openInodes == []
    ensures WordAt(disk[startLba + 1], 0) == SUPER_MAGIC ==> part.disk == disk && part.sb == DecodeSuper(disk[startLba + 1])
    ensures WordAt(disk[startLba + 1], 0) == SUPER_MAGIC ==>
      (Sound(part, t, padding) <==> FsOk(part.sb, Mounted(part.sb, disk), t, padding))
    ensures WordAt(disk[startLba + 1], 0) != SUPER_MAGIC ==> part.sb == Format(startLba, secCnt) && |part.disk| == |disk|
    ensures WordAt(disk[startLba + 1], 0) != SUPER_MAGIC ==>
      Sound(part, RootTree(part.sb), Padding(part.sb, BlockBitmapBitLen(secCnt)))
    ensures WordAt(disk[startLba + 1], 0) != SUPER_MAGIC ==>
      Formatted(part.sb, part.disk, BlockBitmapBitLen(secCnt)) && View(part) == Mounted(part.sb, part.disk)
  {
    hide *;
    var sb := Format(startLba, secCnt);
    FormatFacts(startLba, secCnt, |disk|);
    if WordAt(disk[startLba + 1], 0) == SUPER_MAGIC {
      part := MountPartition(disk, startLba, t, padding);
    } else {
      var r := PartitionFormat(disk, startLba, secCnt, pad);
      FormattedOk(startLba, secCnt, r);
      SuperIs(startLba, secCnt, r);
      FormatFacts(startLba, secCnt, |r|);
      part := MountPartition(r, startLba, RootTree(sb), Padding(sb, BlockBitmapBitLen(secCnt)));
    }
  }

  lemma SuperIs(startLba: u32, secCnt: u32, r: seq<Sector>)
    requires FreeSects(secCnt) >= 16 && startLba + secCnt <= |r| <= MAX_LBA
    requires Formatted(Format(startLba, secCnt), r, BlockBitmapBitLen(secCnt))
    ensures startLba + 1 < |r| && DecodeSuper(r[startLba + 1]) == Format(startLba, secCnt)
  {
    hide BitSet, DotSector, InodeAt, DecodeSuper, WordAt, Mounted;
  }

  /** `mount_partition`: the partition is sound exactly if the disk holds a well-formed file system. */
  method MountPartition(disk: seq<Sector>, startLba: u32, ghost t: Tree, ghost padding: set<int>) returns (part: Partition)
    requires startLba + 1 < |disk| && Geometry(DecodeSuper(disk[startLba + 1]), |disk|)
    ensures fresh(part) && fresh(part.blockBitmap.bits)
    ensures part.sb == DecodeSuper(disk[startLba + 1]) && part.disk == disk && part.openInodes == []
    ensures View(part) == Mounted(part.sb, disk)
    ensures Sound(part, t, padding) <==> FsOk(part.sb, Mounted(part.sb, disk), t, padding)
  {
    hide *;
    ghost var sb := DecodeSuper(disk[startLba + 1]);
    ghost var s := Mounted(sb, disk);
    MountedIs(sb, disk);
    part := new Partition(startLba, disk);
    ViewIs(part);
    part.BitsFacts();
    BlockMirrorUnique(disk, sb, s.bits, part.Bits());
    MirrorUnique(disk, sb.inodeBitmapLba, 1, s.ibits, part.inodeBitmap.bits[..]);
    if FsOk(sb, s, t, padding) {
      FsParts(sb, s, t, padding);
      MirrorsParts(sb, s);
      part.StillWritable(disk);
      NoInodes(part.openInodes);
      SoundIntro(part, t, padding);
    } else if Sound(part, t, padding) {
      SoundFacts(part, t, padding);
    }
  }

  // ----- the sector behind the partition -----

  /** The `n` numbers behind `lo`. */
  ghost function Behind(lo: int, n: nat): set<int> {
    if n == 0 then {} else Behind(lo, n - 1) + {lo + n}
  }

  lemma {:induction false} BehindHolds(lo: int, n: nat)
    ensures |Behind(lo, n)| == n && forall x :: x in Behind(lo, n) <==> lo < x <= lo + n
  {
    if n > 0 {
      BehindHolds(lo, n - 1);
    }
  }

  /** `block_bitmap_alloc` until no block is free: the blocks come in order, the last one is the highest. */
  method TakeAll(part: Partition, n: nat) returns (last: u32)
    requires part.Writable() && n > 0 && |FreeBlocks(part.sb, part.Bits())| == n
    requires forall x :: x in FreeBlocks(part.sb, part.Bits()) ==> x < |part.disk|
    modifies part`disk, part.blockBitmap.bits
    ensures part.Writable() && FreeBlocks(part.sb, part.Bits()) == {}
    ensures last as int in FreeBlocks(part.sb, old(part.Bits()))
    ensures forall x :: x in FreeBlocks(part.sb, old(part.Bits())) ==> x <= last as int
  {
    hide *;
    ghost var sb, f := part.sb, FreeBlocks(part.sb, part.Bits());
    ghost var len := |part.disk|;
    last := 0;
    var k := 0;
    while k < n
      invariant 0 <= k <= n && part.Writable() && |part.disk| == len
      invariant (k == 0 ==> FreeBlocks(sb, part.Bits()) == f) && FreeBlocks(sb, part.Bits()) <= f
      invariant |FreeBlocks(sb, part.Bits())| == n - k
      invariant k > 0 ==> last as int in f && forall x :: x in f ==> x in FreeBlocks(sb, part.Bits()) || x <= last as int
      invariant k > 0 ==> forall x :: x in FreeBlocks(sb, part.Bits()) ==> last as int <= x
    {
      ghost var d, b := part.disk, part.Bits();
      AllUsable(sb, len, b);
      var got := part.AllocBlock();
      last := got.value;
      GrownFree(sb, d, b, part.disk, part.Bits(), last);
      k := k + 1;
    }
  }

  lemma AllUsable(sb: SuperBlock, n: nat, bits: seq<byte>)
    requires forall x :: x in FreeBlocks(sb, bits) ==> x < n
    ensures UsableBlocks(sb, n, bits) == FreeBlocks(sb, bits)
  {
    hide FreeBlocks;
  }

  lemma GrownFree(sb: SuperBlock, d: seq<Sector>, b: seq<byte>, d1: seq<Sector>, b1: seq<byte>, x: int)
    requires Grown(sb, d, b, d1, b1, {x})
    ensures |d1| == |d| && x in FreeBlocks(sb, b) && FreeBlocks(sb, b1) == FreeBlocks(sb, b) - {x}
    ensures |FreeBlocks(sb, b1)| == |FreeBlocks(sb, b)| - 1
  {
    hide FreeBlocks, BlockMirror;
    assert x in {x};
  }

  /** A partition of 1000 sectors with a sector behind it: of the 388 free blocks after the format the last one handed out is that
      sector. */
  method SectorBehindTaken(disk: seq<Sector>, startLba: u32, pad: seq<byte>) returns (last: u32)
    requires |pad| == 460 && startLba + 1000 < |disk| <= MAX_LBA && WordAt(disk[startLba + 1], 0) != SUPER_MAGIC
    ensures last == startLba + 1000
  {
    hide *;
    Size1000(startLba);
    var part := InitPartition(disk, startLba, 1000, pad, Tree(map[], map[], map[], map[]), {});
    ghost var sb := part.sb;
    ViewIs(part);
    FormatFacts(startLba, 1000, |disk|);
    FormattedParts(sb, part.disk, BlockBitmapBitLen(1000));
    FreeUpTo(sb, part.Bits(), BlockBitmapBitLen(1000));
    SoundFacts(part, RootTree(sb), Padding(sb, BlockBitmapBitLen(1000)));
    BehindHolds(sb.dataStartLba, 388);
    assert sb.blockBitmapSects == 1 && BlockBitmapBitLen(1000) == 388;
    assert forall x :: x in FreeBlocks(sb, part.Bits()) <==> sb.dataStartLba < x <= sb.dataStartLba + 388;
    assert FreeBlocks(sb, part.Bits()) == Behind(sb.dataStartLba, 388);
    assert sb.dataStartLba as int + 388 in FreeBlocks(sb, part.Bits());
    last := TakeAll(part, 388);
  }

  lemma Size1000(startLba: u32)
    requires startLba + 1000 <= MAX_LBA
    ensures FreeSects(1000) >= 16 && BlockBitmapBitLen(1000) == 388 && !SectorSpared(1000)
    ensures Format(startLba, 1000).blockBitmapSects == 1 && Format(startLba, 1000).dataStartLba + 388 == startLba + 1000
  {
  }

  /** With that sector the only free block, the first byte written to an empty file goes there. */
  method WriteBehind(part: Partition, file: Files.File, b: byte)
    requires part.Writable() && file.inode.no < 4096 && file.inode.size == 0
    requires Files.RegularFile(part.disk, part.sb, part.Bits(), file.inode.Disk()) && file.inode.sectors[0] == 0
    requires FreeBlocks(part.sb, part.Bits()) == {PartEnd(part.sb)} && PartEnd(part.sb) < |part.disk|
    modifies part`disk, part.blockBitmap.bits, file`pos, file.inode`size, file.inode`sectors
    ensures |part.disk| == |old(part.disk)| && part.disk[PartEnd(part.sb)][0] == b
  {
    hide *;
    ghost var sb, d0, b0, i0 := part.sb, part.disk, part.Bits(), file.inode.Disk();
    Files.InodeDisk(file.inode);
    AllUsable(sb, |d0|, b0);
    NoBlocks(d0, sb, b0, i0);
    var r := Files.FileWrite(part, file, [b]);
    Files.InodeDisk(file.inode);
    OneBlock(sb, file.inode.no, b, d0, b0, i0, part.disk, part.Bits(), file.inode.Disk());
  }

  lemma NoBlocks(d: seq<Sector>, sb: SuperBlock, bits: seq<byte>, i: DiskInode)
    requires Files.RegularFile(d, sb, bits, i) && i.size == 0 && i.sectors[0] == 0
    ensures |i.sectors| == 13 && Files.BlocksNeeded(i, 1) == 1 && Files.FileBlocks(d, i) == {}
  {
    hide FreeBlocks;
  }

  lemma OneBlock(sb: SuperBlock, no: nat, b: byte, d0: seq<Sector>, b0: seq<byte>, i0: DiskInode, d1: seq<Sector>,
        b1: seq<byte>, i1: DiskInode)
    requires Files.Appended(sb, no, [b], d0, b0, i0, d1, b1, i1) && i0.size == 0
    requires Files.FileBlocks(d0, i0) == {} && FreeBlocks(sb, b0) == {PartEnd(sb)} && PartEnd(sb) < |d0|
    ensures |d1| == |d0| && d1[PartEnd(sb)][0] == b
  {
    hide FreeBlocks, EncodeInode, InodeWindow;
    assert Files.Contents(d1, sb, b1, i1) == [] + [b];
    var a := Files.Addrs(d1, i1.sectors, Files.BlockCount(i1));
    assert a[0] as int in Files.FileBlocks(d1, i1);
    assert Files.Flat(d1, a)[0] == d1[a[0]][0];
  }
}
