/** fs/fs.c: sys_lseek, and that what was appended can be read back. */
module Seeks {
  import opened Bytes
  import opened Disks
  import opened InodeTables
  import opened Partitions
  import opened Files

  datatype Whence = SEEK_SET | SEEK_CUR | SEEK_END

  type i32 = x: int | -0x8000_0000 <= x < 0x8000_0000

  /** The value a signed 32-bit variable holds after `x` is stored in it. */
  function Int32(x: int): (r: i32)
    ensures (x - r) % 0x1_0000_0000 == 0 && (-0x8000_0000 <= x < 0x8000_0000 ==> r == x)
  {
    (x + 0x8000_0000) % 0x1_0000_0000 - 0x8000_0000
  }

  /** The position asked for, before the bounds are tested. */
  function Target(pos: u32, size: u32, offset: i32, whence: Whence): i32 {
    match whence
    case SEEK_SET => offset
    case SEEK_CUR => Int32(Int32(pos) + offset)
    case SEEK_END => Int32(Int32(size) + offset)
  }

  /** What an unsigned 32-bit word counts for in signed arithmetic. */
  function Signed(x: u32): (r: i32)
    ensures x < 0x8000_0000 ==> r == x
    ensures x >= 0x8000_0000 ==> r == x - 0x1_0000_0000
  {
    Int32(x)
  }

  /** `sys_lseek`: only positions of existing bytes can be reached, so an empty file cannot be sought in, nor the end of any. */
  method Lseek(file: File, offset: i32, whence: Whence) returns (r: int)
    requires file.inode.size < 140 * 512
    modifies file`pos
    ensures var newPos := Target(old(file.pos), file.inode.size, offset, whence);
      if 0 <= newPos < file.inode.size then r == newPos == file.pos else r == -1 && file.pos == old(file.pos)
    ensures r == -1 ==> file.pos == old(file.pos)
    ensures r != -1 ==> file.pos == r
    ensures whence == SEEK_SET ==> r == if 0 <= offset < file.inode.size then offset else -1
    ensures whence == SEEK_CUR && Signed(old(file.pos)) + offset >= -0x8000_0000 ==>
      r == if 0 <= Signed(old(file.pos)) + offset < file.inode.size then Signed(old(file.pos)) + offset else -1
    ensures whence == SEEK_END ==>
      r == if 0 <= file.inode.size + offset < file.inode.size then file.inode.size + offset else -1
  {
    var newPos: i32 := 0;
    var fileSize: i32 := Int32(file.inode.size);
    match whence {
      case SEEK_SET =>
        newPos := offset;
      case SEEK_CUR =>
        newPos := Int32(Int32(file.pos) + offset);
      case SEEK_END =>
        newPos := Int32(fileSize + offset);
    }
    if newPos < 0 || newPos > fileSize - 1 {
      return -1;
    }
    file.pos := newPos;
    return file.pos;
  }

  /** Two relative seeks that stay in the file are one by the sum. */
  method SeekTwice(file: File, a: i32, b: i32) returns (r: int)
    requires file.pos < file.inode.size < 140 * 512
    requires 0 <= file.pos + a < file.inode.size && 0 <= file.pos + a + b < file.inode.size
    modifies file`pos
    ensures r == file.pos == old(file.pos) + a + b
  {
    var _ := Lseek(file, a, SEEK_CUR);
    r := Lseek(file, b, SEEK_CUR);
  }

  lemma AppendedParts(sb: SuperBlock, no: nat, buf: seq<byte>, d0: seq<Sector>, b0: seq<byte>, i0: DiskInode,
      d1: seq<Sector>, b1: seq<byte>, i1: DiskInode)
    requires Appended(sb, no, buf, d0, b0, i0, d1, b1, i1)
    ensures RegularFile(d0, sb, b0, i0) && RegularFile(d1, sb, b1, i1)
    ensures Contents(d1, sb, b1, i1) == Contents(d0, sb, b0, i0) + buf
    ensures |Contents(d1, sb, b1, i1)| == i1.size && |Contents(d0, sb, b0, i0)| == i0.size
  {
    hide RegularFile, Contents, FileBlocks, FreeBlocks, InodeWindow;
  }

  lemma Suffix(a: seq<byte>, b: seq<byte>, c: seq<byte>)
    requires c == a + b
    ensures |c| == |a| + |b| && c[|a|..|c|] == b
  {
  }

  lemma AppendedSuffix(sb: SuperBlock, no: nat, buf: seq<byte>, d0: seq<Sector>, b0: seq<byte>, i0: DiskInode,
      d1: seq<Sector>, b1: seq<byte>, i1: DiskInode)
    requires Appended(sb, no, buf, d0, b0, i0, d1, b1, i1)
    ensures RegularFile(d1, sb, b1, i1) && i1.size == i0.size + |buf| < 140 * 512
    ensures Contents(d1, sb, b1, i1)[i0.size..i1.size] == buf
  {
    hide *;
    AppendedParts(sb, no, buf, d0, b0, i0, d1, b1, i1);
    RegularFacts(d1, sb, b1, i1);
    Suffix(Contents(d0, sb, b0, i0), buf, Contents(d1, sb, b1, i1));
  }

  /** Append, seek back to where the new bytes begin, from the start, from the position the write left, or from the end, and read
      that many: the bytes come back, unless the read would end in block 139, where the kernel halts. */
  method WriteSeekRead(part: Partition, file: File, buf: seq<byte>, whence: Whence)
    returns (w: WriteResult, r: ReadResult, data: seq<byte>)
    requires part.Writable() && file.inode.no < 4096
    requires RegularFile(part.disk, part.sb, part.Bits(), file.inode.Disk())
    requires 0 < |buf| < 0x8000_0000
    requires file.inode.size + |buf| < 140 * 512 ==>
      BlocksNeeded(file.inode.Disk(), |buf|) <= |UsableBlocks(part.sb, |part.disk|, part.Bits())|
    modifies part`disk, part.blockBitmap.bits, file`pos, file.inode`size, file.inode`sectors
    ensures w.Written? <==> old(file.inode.size) + |buf| < 140 * 512
    ensures w.Written? ==> (r.Read? <==> old(file.inode.size) + |buf| < 139 * 512)
    ensures w.Written? && r.Read? ==> r.count == |buf| && data == buf
    ensures w.Written? && !r.Read? ==> r.ReadHalted?
  {
    hide *;
    ghost var sb, d0, b0, i0 := part.sb, part.disk, part.Bits(), file.inode.Disk();
    r, data := ReadHalted, [];
    InodeDisk(file.inode);
    RegularFacts(part.disk, part.sb, part.Bits(), file.inode.Disk());
    var oldSize := file.inode.size;
    w := FileWrite(part, file, buf);
    if w.Written? {
      InodeDisk(file.inode);
      AppendedSuffix(sb, file.inode.no, buf, d0, b0, i0, part.disk, part.Bits(), file.inode.Disk());
      RegularFacts(part.disk, part.sb, part.Bits(), file.inode.Disk());
      var offset: i32 := match whence case SEEK_SET => oldSize case SEEK_CUR => 1 - |buf| case SEEK_END => -|buf|;
      var pos := Lseek(file, offset, whence);
      r, data := FileRead(part, file, |buf|);
      ReadBack(oldSize, |buf|, file.inode.size);
    }
  }

  lemma ReadBack(pos: u32, count: nat, size: u32)
    requires size == pos + count < 140 * 512 && count > 0
    ensures var r := ReadPlan(pos, count, size);
      (r.Read? <==> size < 139 * 512) && (r.Read? ==> r.count == count) && (!r.Read? ==> r.ReadHalted?)
  {
  }
}
