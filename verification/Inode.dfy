/** fs/inode.c and the bitmap halves of fs/file.c: a mounted partition, its cached inodes and its two bitmaps,
    all written through to the disk. */
module Partitions {
  import opened Bytes
  import opened Wrappers
  import opened Bitmaps
  import opened Disks
  import opened InodeTables

  // ----- the mounted partition -----

  /** The bitmap `bits` equals the `sects` sectors of the disk that store it. */
  ghost predicate Mirrored(disk: seq<Sector>, lba: nat, sects: nat, bits: seq<byte>) {
    && lba + sects <= |disk| && |bits| == 512 * sects
    && forall q: nat :: q < sects ==> SectorOf(bits, q) == disk[lba + q]
  }

  ghost predicate BlockMirror(disk: seq<Sector>, sb: SuperBlock, bits: seq<byte>) {
    Mirrored(disk, sb.blockBitmapLba, sb.blockBitmapSects, bits)
  }

  ghost predicate InBlockBitmap(sb: SuperBlock, l: int) {
    sb.blockBitmapLba <= l < sb.blockBitmapLba + sb.blockBitmapSects
  }

  ghost predicate FreeBlock(sb: SuperBlock, bits: seq<byte>, x: int) {
    sb.dataStartLba <= x < sb.dataStartLba + 8 * |bits| && !BitSet(bits, x - sb.dataStartLba)
  }

  /** The sectors of the blocks whose bits are clear. */
  ghost function FreeBlocks(sb: SuperBlock, bits: seq<byte>): (f: set<int>) {
    set x: int | sb.dataStartLba <= x < sb.dataStartLba + 8 * |bits| && FreeBlock(sb, bits, x)
  }

  /** Every clear bit stands for a sector of the partition or for the one behind it: the format leaves the bit one past the
      last block clear. */
  ghost predicate FreeWithin(sb: SuperBlock, bits: seq<byte>) {
    forall x :: x in FreeBlocks(sb, bits) ==> x <= PartEnd(sb)
  }

  /** The free blocks that are sectors of a disk of `n` sectors: all of them, unless the partition is the last one. */
  ghost function UsableBlocks(sb: SuperBlock, n: nat, bits: seq<byte>): set<int> {
    set x | x in FreeBlocks(sb, bits) && x < n
  }

  /** The next `k` free blocks are on the disk. */
  ghost predicate OnDisk(sb: SuperBlock, n: nat, bits: seq<byte>, k: nat) {
    |UsableBlocks(sb, n, bits)| >= if |FreeBlocks(sb, bits)| < k then |FreeBlocks(sb, bits)| else k
  }

  lemma UsableAmong(sb: SuperBlock, n: nat, bits: seq<byte>)
    ensures |UsableBlocks(sb, n, bits)| <= |FreeBlocks(sb, bits)|
  {
    hide FreeBlocks;
    var u, f := UsableBlocks(sb, n, bits), FreeBlocks(sb, bits);
    assert f == u + (f - u) && u !! f - u;
  }

  lemma LowestUsable(sb: SuperBlock, n: nat, bits: seq<byte>, lba: u32)
    requires UsableBlocks(sb, n, bits) != {} && lba in FreeBlocks(sb, bits) && forall x :: x in FreeBlocks(sb, bits) ==> lba <= x
    ensures lba in UsableBlocks(sb, n, bits)
  {
    hide FreeBlocks;
    var x :| x in UsableBlocks(sb, n, bits);
  }

  lemma NoneFree(sb: SuperBlock, bits: seq<byte>)
    ensures FreeBits(bits) == {} <==> FreeBlocks(sb, bits) == {}
  {
    if FreeBits(bits) != {} {
      var k :| k in FreeBits(bits);
      assert sb.dataStartLba + k in FreeBlocks(sb, bits);
    }
    if FreeBlocks(sb, bits) != {} {
      var x :| x in FreeBlocks(sb, bits);
      assert x - sb.dataStartLba in FreeBits(bits);
    }
  }

  /** A data block, of the partition or the sector behind it, whose bit is set. */
  ghost predicate TakenBlock(disk: seq<Sector>, sb: SuperBlock, bits: seq<byte>, x: int) {
    && 0 < sb.dataStartLba <= x < |disk| && x <= PartEnd(sb)
    && x < sb.dataStartLba + 8 * |bits| && x !in FreeBlocks(sb, bits)
  }

  /** From (d0, b0) to (d1, b1) the bits of the blocks `taken`, all clear before, were set and written through,
      and no other sector changed than those of the bitmap and the new blocks themselves. */
  ghost predicate Grown(sb: SuperBlock, d0: seq<Sector>, b0: seq<byte>, d1: seq<Sector>, b1: seq<byte>, taken: set<int>) {
    && |d1| == |d0| && |b1| == |b0|
    && BlockMirror(d1, sb, b1)
    && taken <= UsableBlocks(sb, |d0|, b0)
    && FreeBlocks(sb, b1) == FreeBlocks(sb, b0) - taken
    && (forall l :: 0 <= l < |d0| && !InBlockBitmap(sb, l) && l !in taken ==> d1[l] == d0[l])
  }

  /** Only sectors of the partition and the one behind it changed, and not its first two. */
  ghost predicate Confined(sb: SuperBlock, d0: seq<Sector>, d1: seq<Sector>) {
    |d1| == |d0| && forall l :: 0 <= l < |d0| && !(sb.blockBitmapLba <= l <= PartEnd(sb)) ==> d1[l] == d0[l]
  }

  lemma ConfinedTwice(sb: SuperBlock, d0: seq<Sector>, d1: seq<Sector>, d2: seq<Sector>)
    requires Confined(sb, d0, d1) && Confined(sb, d1, d2)
    ensures Confined(sb, d0, d2)
  {
  }

  /** What is written lies in the bitmaps, in the inode table or among the blocks `xs`. */
  lemma ConfinedIntro(sb: SuperBlock, d0: seq<Sector>, d1: seq<Sector>, xs: set<int>)
    requires Geometry(sb, |d0|) && |d1| == |d0|
    requires forall l :: 0 <= l < |d0| && !(sb.blockBitmapLba <= l < sb.dataStartLba) && l !in xs ==> d1[l] == d0[l]
    requires forall x :: x in xs ==> sb.dataStartLba <= x <= PartEnd(sb)
    ensures Confined(sb, d0, d1)
  {
  }

  lemma SuperKept(sb: SuperBlock, d0: seq<Sector>, d1: seq<Sector>)
    requires Geometry(sb, |d0|) && SuperHeld(sb, d0) && Confined(sb, d0, d1)
    ensures SuperHeld(sb, d1)
  {
    hide DecodeSuper, WordAt;
  }

  lemma GrownTwice(sb: SuperBlock, d0: seq<Sector>, b0: seq<byte>, d1: seq<Sector>, b1: seq<byte>, t1: set<int>,
      d2: seq<Sector>, b2: seq<byte>, t2: set<int>)
    requires Grown(sb, d0, b0, d1, b1, t1) && Grown(sb, d1, b1, d2, b2, t2)
    ensures Grown(sb, d0, b0, d2, b2, t1 + t2)
  {
  }

  lemma FreeBlocksUpdated(sb: SuperBlock, before: seq<byte>, after: seq<byte>, idx: nat, value: bool)
    requires BitUpdated(before, after, idx, value)
    ensures FreeBlocks(sb, after) ==
      if value then FreeBlocks(sb, before) - {sb.dataStartLba + idx} else FreeBlocks(sb, before) + {sb.dataStartLba + idx}
  {
  }

  datatype BitmapType = INODE_BITMAP | BLOCK_BITMAP

  class Inode {
    var no: u32
    var size: u32
    var openCnts: nat
    var writenDeny: bool
    var sectors: seq<u32>

    constructor (i: DiskInode)
      ensures Disk() == i && openCnts == 0 && !writenDeny
    {
      no, size, sectors := i.no, i.size, i.sectors;
      openCnts, writenDeny := 0, false;
    }

    function Disk(): (i: DiskInode)
      reads `no, `size, `sectors
    {
      DiskInode(no, size, sectors)
    }
  }

  ghost predicate Lowest(free: set<nat>, no: nat) {
    forall x :: x in free ==> no <= x
  }

  class Partition {
    const sb: SuperBlock
    const blockBitmap: Bitmap
    const inodeBitmap: Bitmap
    var disk: seq<Sector>
    var openInodes: seq<Inode>

    ghost predicate Ready()
      reads this`disk
    {
      && Geometry(sb, |disk|)
      && blockBitmap.bits.Length == 512 * sb.blockBitmapSects
      && inodeBitmap.bits.Length == 512
      && blockBitmap.bits != inodeBitmap.bits
    }

    ghost function Bits(): seq<byte>
      reads blockBitmap.bits
    {
      blockBitmap.bits[..]
    }

    /** Blocks can be allocated: the bitmap in memory is the one on disk and its clear bits are real blocks. */
    ghost predicate Writable()
      reads this`disk, blockBitmap.bits
    {
      Ready() && BlockMirror(disk, sb, Bits()) && FreeWithin(sb, Bits())
    }

    lemma WritableFacts()
      requires Writable()
      ensures Ready() && Geometry(sb, |disk|) && BlockMirror(disk, sb, Bits()) && FreeWithin(sb, Bits())
    {
    }

    lemma ReadyFacts()
      requires Ready()
      ensures Geometry(sb, |disk|) && inodeBitmap.bits.Length == 512
      ensures blockBitmap.bits.Length == 512 * sb.blockBitmapSects && blockBitmap.bits != inodeBitmap.bits
    {
    }

    lemma BitsFacts()
      ensures Bits() == blockBitmap.bits[..]
    {
    }

    lemma StillWritable(d: seq<Sector>)
      requires Ready() && BlockMirror(disk, sb, Bits()) && FreeWithin(sb, Bits()) && |d| == |disk|
      ensures Writable()
    {
    }

    /** `mount_partition`: the super block and both bitmaps are read from the disk, nothing is cached. */
    constructor (startLba: u32, disk: seq<Sector>)
      requires startLba + 1 < |disk| && Geometry(DecodeSuper(disk[startLba + 1]), |disk|)
      ensures this.sb == DecodeSuper(disk[startLba + 1]) && this.disk == disk && openInodes == [] && Ready()
      ensures fresh(blockBitmap) && fresh(blockBitmap.bits) && fresh(inodeBitmap) && fresh(inodeBitmap.bits)
      ensures BlockMirror(disk, sb, blockBitmap.bits[..])
      ensures Mirrored(disk, sb.inodeBitmapLba, 1, inodeBitmap.bits[..])
    {
      hide DecodeSuper;
      var sbBuf := ReadSectors(disk, startLba + 1, 1);
      ReadSectorsAre(disk, startLba + 1, 1);
      var sb := DecodeSuper(SectorOf(sbBuf, 0));
      this.sb, this.disk, openInodes := sb, disk, [];
      ReadSectorsAre(disk, sb.blockBitmapLba, sb.blockBitmapSects);
      ReadSectorsAre(disk, sb.inodeBitmapLba, sb.inodeBitmapSects);
      var blocks := new Bitmap.Load(ReadSectors(disk, sb.blockBitmapLba, sb.blockBitmapSects));
      var inodes := new Bitmap.Load(ReadSectors(disk, sb.inodeBitmapLba, sb.inodeBitmapSects));
      blockBitmap, inodeBitmap := blocks, inodes;
    }

    method InodeBitmapAlloc() returns (r: Option<nat>)
      requires Ready()
      modifies inodeBitmap.bits
      ensures r.None? <==> FreeBits(old(inodeBitmap.bits[..])) == {}
      ensures r.None? ==> inodeBitmap.bits[..] == old(inodeBitmap.bits[..])
      ensures r.Some? ==> r.value in FreeBits(old(inodeBitmap.bits[..])) && Lowest(FreeBits(old(inodeBitmap.bits[..])), r.value)
      ensures r.Some? ==> BitUpdated(old(inodeBitmap.bits[..]), inodeBitmap.bits[..], r.value, true)
    {
      var bitIdx := inodeBitmap.Scan(1);
      FullIsNone(inodeBitmap.bits[..]);
      OneIsRun(inodeBitmap.bits[..]);
      if !bitIdx.StartAt? {
        return None;
      }
      assert RunFree(inodeBitmap.bits[..], bitIdx.start, 1);
      assert forall x :: x in FreeBits(inodeBitmap.bits[..]) ==> RunFree(inodeBitmap.bits[..], x, 1);
      inodeBitmap.Set(bitIdx.start, true);
      return Some(bitIdx.start);
    }

    method BlockBitmapAlloc() returns (r: Option<u32>)
      requires Ready()
      modifies blockBitmap.bits
      ensures r.None? <==> FreeBlocks(sb, old(blockBitmap.bits[..])) == {}
      ensures r.None? ==> blockBitmap.bits[..] == old(blockBitmap.bits[..])
      ensures r.Some? ==> r.value in FreeBlocks(sb, old(blockBitmap.bits[..]))
      ensures r.Some? ==> forall x :: x in FreeBlocks(sb, old(blockBitmap.bits[..])) ==> r.value <= x
      ensures r.Some? ==> BitUpdated(old(blockBitmap.bits[..]), blockBitmap.bits[..], r.value - sb.dataStartLba, true)
    {
      var bitIdx := blockBitmap.Scan(1);
      FullIsNone(blockBitmap.bits[..]);
      OneIsRun(blockBitmap.bits[..]);
      NoneFree(sb, blockBitmap.bits[..]);
      if !bitIdx.StartAt? {
        return None;
      }
      assert RunFree(blockBitmap.bits[..], bitIdx.start, 1);
      blockBitmap.Set(bitIdx.start, true);
      var lba := sb.dataStartLba + bitIdx.start;
      r := Some(lba);
      forall x | x in FreeBlocks(sb, old(blockBitmap.bits[..]))
        ensures lba <= x
      {
        assert RunFree(old(blockBitmap.bits[..]), x - sb.dataStartLba, 1);
      }
    }

    /** Writes the 512 bytes of the bitmap that hold bit `bitIdx` to the disk. */
    method BitmapSync(bitIdx: nat, btmp: BitmapType)
      requires Ready()
      requires bitIdx < if btmp.INODE_BITMAP? then 4096 else 4096 * sb.blockBitmapSects
      modifies this`disk
      ensures btmp.INODE_BITMAP? ==> disk == old(disk)[sb.inodeBitmapLba := SectorOf(inodeBitmap.bits[..], 0)]
      ensures btmp.BLOCK_BITMAP? ==>
        disk == old(disk)[sb.blockBitmapLba + bitIdx / 4096 := SectorOf(blockBitmap.bits[..], bitIdx / 4096)]
    {
      var offSec := bitIdx / 4096;
      var offSize := offSec * 512;
      var secLba, bitmapOff;
      match btmp {
        case INODE_BITMAP =>
          secLba := sb.inodeBitmapLba + offSec;
          bitmapOff := inodeBitmap.bits[offSize..];
        case BLOCK_BITMAP =>
          secLba := sb.blockBitmapLba + offSec;
          bitmapOff := blockBitmap.bits[offSize..];
      }
      disk := WriteSectors(disk, secLba, 1, bitmapOff);
      assert btmp.BLOCK_BITMAP? ==> SectorOf(bitmapOff, 0) == SectorOf(blockBitmap.bits[..], offSec);
      assert btmp.INODE_BITMAP? ==> SectorOf(bitmapOff, 0) == SectorOf(inodeBitmap.bits[..], offSec);
    }

    /** `block_bitmap_alloc` and the `bitmap_sync` that follows each of its calls: the lowest free block. */
    method AllocBlock() returns (r: Option<u32>)
      requires Writable() && (UsableBlocks(sb, |disk|, Bits()) == {} ==> FreeBlocks(sb, Bits()) == {})
      modifies this`disk, blockBitmap.bits
      ensures Writable() && |disk| == |old(disk)|
      ensures r.None? <==> UsableBlocks(sb, |disk|, old(Bits())) == {}
      ensures r.None? ==> disk == old(disk) && Bits() == old(Bits())
      ensures r.Some? ==> Grown(sb, old(disk), old(Bits()), disk, Bits(), {r.value as int})
      ensures r.Some? ==> |UsableBlocks(sb, |disk|, Bits())| == |UsableBlocks(sb, |disk|, old(Bits()))| - 1
      ensures r.Some? ==> forall x :: x in FreeBlocks(sb, old(Bits())) ==> r.value <= x
    {
      hide Geometry, Mirrored, FreeBlock;
      ghost var d0, b0 := disk, blockBitmap.bits[..];
      r := BlockBitmapAlloc();
      if r.None? {
        assert UsableBlocks(sb, |disk|, b0) <= FreeBlocks(sb, b0);
        return;
      }
      var lba := r.value;
      LowestUsable(sb, |disk|, b0, lba);
      ghost var b1 := blockBitmap.bits[..];
      var blockBitmapIdx := lba - sb.dataStartLba;
      SyncedAlloc(sb, d0, b0, b1, blockBitmapIdx);
      BitmapSync(blockBitmapIdx, BLOCK_BITMAP);
      assert blockBitmap.bits[..] == b1;
      assert UsableBlocks(sb, |d0|, b1) == UsableBlocks(sb, |d0|, b0) - {lba as int};
    }
  }

  /** `inode_sync`: the inode's window of the table holds its persistent fields. */
  method InodeSync(part: Partition, inode: Inode)
    requires part.Ready() && inode.no < 4096 && |inode.sectors| == 13
    modifies part`disk
    ensures part.Ready()
    ensures WindowWritten(old(part.disk), part.disk, part.sb, inode.no, EncodeInode(inode.Disk()))
  {
    var p := InodeLocate(part.sb, inode.no);
    InodeInTable(part.sb, |part.disk|, inode.no);
    assert p.secLba <= part.sb.dataStartLba;
    part.disk := WriteWindow(part.disk, part.sb, inode.no, EncodeInode(inode.Disk()));
  }

  /** One bit changed and its sector written: the mirror holds again. */
  lemma SyncMirrors(disk: seq<Sector>, sb: SuperBlock, before: seq<byte>, after: seq<byte>, idx: nat, value: bool)
    requires Geometry(sb, |disk|) && BlockMirror(disk, sb, before) && BitUpdated(before, after, idx, value)
    ensures BlockMirror(disk[sb.blockBitmapLba + idx / 4096 := SectorOf(after, idx / 4096)], sb, after)
  {
    forall q: nat | q < sb.blockBitmapSects && q != idx / 4096
      ensures SectorOf(after, q) == SectorOf(before, q)
    {
      forall m | 0 <= m < 512
        ensures SectorOf(after, q)[m] == SectorOf(before, q)[m]
      {
        assert 512 * q + m != idx / 8;
      }
    }
  }

  lemma SyncedAlloc(sb: SuperBlock, disk: seq<Sector>, before: seq<byte>, after: seq<byte>, idx: nat)
    requires Geometry(sb, |disk|) && BlockMirror(disk, sb, before) && BitUpdated(before, after, idx, true)
    requires sb.dataStartLba + idx in UsableBlocks(sb, |disk|, before)
    ensures idx < 4096 * sb.blockBitmapSects
    ensures Grown(sb, disk, before, disk[sb.blockBitmapLba + idx / 4096 := SectorOf(after, idx / 4096)], after,
      {sb.dataStartLba + idx})
  {
    SyncMirrors(disk, sb, before, after, idx, true);
    FreeBlocksUpdated(sb, before, after, idx, true);
  }
}
