/** Sectors, the regions `partition_format` lays out, and the place of every inode in the inode table. */
module Disks {
  import opened Bytes
  import opened Bitmaps

  /** The driver accepts sectors below this one, the last of an 80 MB disk. */
  const MAX_LBA := 80 * 1024 * 1024 / 512 - 1

  type Sector = s: seq<byte> | |s| == 512 witness Copies<byte>(0, 512)

  datatype SuperBlock = SuperBlock(
    secCnt: u32, partLbaBase: u32,
    blockBitmapLba: u32, blockBitmapSects: u32,
    inodeBitmapLba: u32, inodeBitmapSects: u32,
    inodeTableLba: u32, inodeTableSects: u32,
    dataStartLba: u32)

  /** The first sector behind the partition. */
  function PartEnd(sb: SuperBlock): nat {
    sb.partLbaBase + sb.secCnt
  }

  /** The regions follow one another and end before the data blocks, and the partition lies within a disk of `n` sectors. */
  predicate Geometry(sb: SuperBlock, n: nat) {
    && sb.blockBitmapLba == sb.partLbaBase + 2
    && sb.blockBitmapSects >= 1
    && sb.inodeBitmapLba == sb.blockBitmapLba + sb.blockBitmapSects
    && sb.inodeBitmapSects == 1
    && sb.inodeTableLba == sb.inodeBitmapLba + 1
    && sb.inodeTableSects == 608
    && sb.dataStartLba == sb.inodeTableLba + 608
    && sb.dataStartLba < PartEnd(sb) <= n <= MAX_LBA
  }

  /** The `q`-th 512 bytes of a buffer. */
  function SectorOf(buf: seq<byte>, q: nat): (s: Sector)
    requires 512 * q + 512 <= |buf|
    ensures forall m :: 0 <= m < 512 ==> s[m] == buf[512 * q + m]
  {
    buf[512 * q..512 * q + 512]
  }

  /** `ide_read(hd, lba, buf, cnt)`: the bytes that reach `buf`. */
  function ReadSectors(disk: seq<Sector>, lba: nat, cnt: nat): (r: seq<byte>)
    requires lba + cnt <= |disk|
    ensures |r| == 512 * cnt
  {
    if cnt == 0 then [] else ReadSectors(disk, lba, cnt - 1) + disk[lba + cnt - 1]
  }

  /** Sector after sector. */
  lemma {:induction false} ReadSectorsAre(disk: seq<Sector>, lba: nat, cnt: nat)
    requires lba + cnt <= |disk|
    ensures forall q: nat :: q < cnt ==> SectorOf(ReadSectors(disk, lba, cnt), q) == disk[lba + q]
  {
    hide SectorOf;
    if cnt > 0 {
      ReadSectorsAre(disk, lba, cnt - 1);
      var init := ReadSectors(disk, lba, cnt - 1);
      forall q: nat | q < cnt
        ensures SectorOf(ReadSectors(disk, lba, cnt), q) == disk[lba + q]
      {
        if q < cnt - 1 {
          SectorKept(init, disk[lba + cnt - 1], q);
        } else {
          SectorLast(init, disk[lba + cnt - 1], q);
        }
      }
    }
  }

  lemma SectorKept(buf: seq<byte>, s: Sector, q: nat)
    requires 512 * q + 512 <= |buf|
    ensures SectorOf(buf + s, q) == SectorOf(buf, q)
  {
  }

  lemma SectorLast(buf: seq<byte>, s: Sector, q: nat)
    requires |buf| == 512 * q
    ensures SectorOf(buf + s, q) == s
  {
  }

  /** `ide_write(hd, lba, buf, cnt)`: the disk afterwards. */
  function WriteSectors(disk: seq<Sector>, lba: nat, cnt: nat, buf: seq<byte>): (r: seq<Sector>)
    requires lba + cnt <= |disk| && |buf| >= 512 * cnt
    ensures |r| == |disk|
    ensures forall l :: 0 <= l < |disk| ==>
      r[l] == if lba <= l < lba + cnt then SectorOf(buf, l - lba) else disk[l]
  {
    if cnt == 0 then disk else WriteSectors(disk, lba, cnt - 1, buf)[lba + cnt - 1 := SectorOf(buf, cnt - 1)]
  }

  /** Byte `off` of the region starting at sector `lba`. */
  function RegionByte(disk: seq<Sector>, lba: nat, off: nat): byte
    requires lba + off / 512 < |disk|
  {
    disk[lba + off / 512][off % 512]
  }

  // ----- the super block on disk -----

  const SUPER_MAGIC: u32 := 0x20050608

  /** `struct super_block` without its padding: the magic number, the fields, the number of inodes, the root's number and the
      size of a directory entry. */
  function SuperWords(sb: SuperBlock): (w: seq<u32>)
    ensures |w| == 13
  {
    [SUPER_MAGIC, sb.secCnt, 4096, sb.partLbaBase, sb.blockBitmapLba, sb.blockBitmapSects, sb.inodeBitmapLba, sb.inodeBitmapSects,
     sb.inodeTableLba, sb.inodeTableSects, sb.dataStartLba, 0, 24]
  }

  /** The sector that holds it; `pad` are the bytes of its padding, which nobody sets. */
  function EncodeSuper(sb: SuperBlock, pad: seq<byte>): Sector
    requires |pad| == 460
  {
    WordsBytes(SuperWords(sb)) + pad
  }

  function DecodeSuper(s: Sector): SuperBlock {
    SuperBlock(WordAt(s, 4), WordAt(s, 12), WordAt(s, 16), WordAt(s, 20), WordAt(s, 24), WordAt(s, 28), WordAt(s, 32),
      WordAt(s, 36), WordAt(s, 40))
  }

  /** The low byte of a word lies first. */
  lemma MagicBytes()
    ensures WordBytes(SUPER_MAGIC) == [0x08, 0x06, 0x05, 0x20]
  {
  }

  lemma SuperBytes(sb: SuperBlock, pad: seq<byte>)
    requires |pad| == 460
    ensures EncodeSuper(sb, pad)[..4] == [0x08, 0x06, 0x05, 0x20] && EncodeSuper(sb, pad)[52..] == pad
  {
    hide WordAt, WordsBytes, WordBytes;
    var b := WordsBytes(SuperWords(sb));
    WordsBytesAt(SuperWords(sb), 0);
    MagicBytes();
    assert b[4 * 0..4 * 0 + 4] == b[..4];
    assert (b + pad)[..4] == b[..4];
  }

  lemma SuperWordAt(sb: SuperBlock, pad: seq<byte>, k: nat)
    requires |pad| == 460 && k < 13
    ensures WordAt(EncodeSuper(sb, pad), 4 * k) == SuperWords(sb)[k]
  {
    hide WordAt, WordsBytes, WordBytes, SuperWords;
    var b := WordsBytes(SuperWords(sb));
    WordsBytesAt(SuperWords(sb), k);
    WordAtFrame(b, 4 * k, b + pad, 4 * k);
  }

  /** Where the fields lie in the sector. */
  lemma SuperLayout(sb: SuperBlock, pad: seq<byte>)
    requires |pad| == 460
    ensures var s := EncodeSuper(sb, pad);
      && s[..4] == [0x08, 0x06, 0x05, 0x20] && WordAt(s, 4) == sb.secCnt && WordAt(s, 8) == 4096
      && WordAt(s, 12) == sb.partLbaBase && WordAt(s, 16) == sb.blockBitmapLba && WordAt(s, 20) == sb.blockBitmapSects
      && WordAt(s, 24) == sb.inodeBitmapLba && WordAt(s, 28) == sb.inodeBitmapSects
      && WordAt(s, 32) == sb.inodeTableLba && WordAt(s, 36) == sb.inodeTableSects
      && WordAt(s, 40) == sb.dataStartLba && WordAt(s, 44) == 0 && WordAt(s, 48) == 24 && s[52..] == pad
    ensures WordAt(EncodeSuper(sb, pad), 0) == SUPER_MAGIC
  {
    hide WordAt, EncodeSuper;
    SuperBytes(sb, pad);
    forall k: nat | k < 13
      ensures WordAt(EncodeSuper(sb, pad), 4 * k) == SuperWords(sb)[k]
    {
      SuperWordAt(sb, pad, k);
    }
    var s, w := EncodeSuper(sb, pad), SuperWords(sb);
    assert WordAt(s, 4 * 0) == w[0] && WordAt(s, 4 * 1) == w[1] && WordAt(s, 4 * 2) == w[2] && WordAt(s, 4 * 3) == w[3];
    assert WordAt(s, 4 * 4) == w[4] && WordAt(s, 4 * 5) == w[5] && WordAt(s, 4 * 6) == w[6] && WordAt(s, 4 * 7) == w[7];
    assert WordAt(s, 4 * 8) == w[8] && WordAt(s, 4 * 9) == w[9] && WordAt(s, 4 * 10) == w[10] && WordAt(s, 4 * 11) == w[11];
    assert WordAt(s, 4 * 12) == w[12];
  }

  lemma SuperRoundTrip(sb: SuperBlock, pad: seq<byte>)
    requires |pad| == 460
    ensures DecodeSuper(EncodeSuper(sb, pad)) == sb && WordAt(EncodeSuper(sb, pad), 0) == SUPER_MAGIC
  {
    hide WordAt, EncodeSuper;
    SuperLayout(sb, pad);
  }

  /** The partition's second sector holds the super block. */
  predicate SuperHeld(sb: SuperBlock, disk: seq<Sector>) {
    && sb.partLbaBase + 1 < |disk|
    && WordAt(disk[sb.partLbaBase + 1], 0) == SUPER_MAGIC && DecodeSuper(disk[sb.partLbaBase + 1]) == sb
  }

  // ----- partition_format: sizes and regions -----

  function DivRoundUp(x: nat, step: nat): nat
    requires step > 0
  {
    (x + step - 1) / step
  }

  /** Sectors left after the boot block, the super block, the inode bitmap and the inode table. */
  function FreeSects(secCnt: u32): int {
    secCnt - (1 + 1 + DivRoundUp(4096, 4096)
      + DivRoundUp(76 * 4096, 512))
  }

  function BlockBitmapBitLen(secCnt: u32): (r: nat)
    requires FreeSects(secCnt) >= 1
  {
    FreeSects(secCnt) - DivRoundUp(FreeSects(secCnt), 4096)
  }

  function Format(startLba: u32, secCnt: u32): (sb: SuperBlock)
    requires FreeSects(secCnt) >= 2 && startLba + secCnt <= MAX_LBA
    ensures Geometry(sb, startLba + secCnt)
    ensures sb.partLbaBase == startLba && sb.secCnt == secCnt
    ensures startLba + secCnt - 1 <= sb.dataStartLba + BlockBitmapBitLen(secCnt) <= startLba + secCnt
    ensures 4096 * (sb.blockBitmapSects - 1) < BlockBitmapBitLen(secCnt) <= 4096 * sb.blockBitmapSects
  {
    var blockBitmapSects := DivRoundUp(BlockBitmapBitLen(secCnt), 4096);
    var inodeBitmapSects := DivRoundUp(4096, 4096);
    var inodeTableSects := DivRoundUp(76 * 4096, 512);
    var blockBitmapLba := startLba + 2;
    var inodeBitmapLba := blockBitmapLba + blockBitmapSects;
    var inodeTableLba := inodeBitmapLba + inodeBitmapSects;
    SuperBlock(secCnt, startLba, blockBitmapLba, blockBitmapSects, inodeBitmapLba, inodeBitmapSects,
      inodeTableLba, inodeTableSects, inodeTableLba + inodeTableSects)
  }

  /** The block bitmap as `partition_format` builds it: the root's block taken, the tail of the last sector
      set to ones, and then bits 0 to `bitLen % 8` of byte `bitLen / 8` cleared again. */
  method FormatBlockBitmap(bitLen: nat, sects: nat) returns (buf: array<byte>)
    requires bitLen >= 8 && sects == DivRoundUp(bitLen, 4096)
    ensures fresh(buf) && buf.Length >= 512 * sects
    ensures forall k: nat :: k < 4096 * sects ==> (BitSet(buf[..], k) <==> k == 0 || k > bitLen)
  {
    buf := new byte[512 * (sects + 1)](_ => 0);
    buf[0] := buf[0] | 0x01;
    var lastByte := bitLen / 8;
    var lastBit := bitLen % 8;
    var lastSize := 512 - lastByte % 512;
    assert lastByte + lastSize == (lastByte / 512 + 1) * 512;
    for i := lastByte to lastByte + lastSize
      invariant buf[0] == 1
      invariant forall b :: 1 <= b < buf.Length ==> buf[b] == if lastByte <= b < i then 0xff else 0
    {
      buf[i] := 0xff;
    }
    var bitIdx := 0;
    FullByte(buf[lastByte]);
    while bitIdx <= lastBit
      invariant 0 <= bitIdx <= lastBit + 1
      invariant buf[0] == 1
      invariant forall b :: 1 <= b < buf.Length && b != lastByte ==>
        buf[b] == if lastByte <= b < lastByte + lastSize then 0xff else 0
      invariant forall j: nat :: j < 8 ==> (BitOf(buf[lastByte], j) <==> j >= bitIdx)
    {
      ghost var was := buf[lastByte];
      buf[lastByte] := buf[lastByte] & !(BITMAP_MASK << bitIdx);
      forall j: nat | j < 8
        ensures BitOf(buf[lastByte], j) <==> j >= bitIdx + 1
      {
        MaskedByte(was, bitIdx, false, j);
      }
      bitIdx := bitIdx + 1;
    }
    FormattedBits(buf[..], bitLen, sects);
  }

  lemma FormattedBits(buf: seq<byte>, bitLen: nat, sects: nat)
    requires bitLen >= 8 && sects == DivRoundUp(bitLen, 4096) && |buf| >= 512 * sects
    requires bitLen / 8 < |buf| && buf[0] == 1
    requires forall b :: 1 <= b < |buf| && b != bitLen / 8 ==>
      buf[b] == if bitLen / 8 <= b < (bitLen / 8 / 512 + 1) * 512 then 0xff else 0
    requires forall j: nat :: j < 8 ==> (BitOf(buf[bitLen / 8], j) <==> j >= bitLen % 8 + 1)
    ensures forall k: nat :: k < 4096 * sects ==> (BitSet(buf, k) <==> k == 0 || k > bitLen)
  {
    forall k: nat | k < 4096 * sects
      ensures BitSet(buf, k) <==> k == 0 || k > bitLen
    {
      OneByte(k % 8);
      FullByte(0xff);
      assert k / 8 < (bitLen / 8 / 512 + 1) * 512;
    }
  }

  lemma OneByte(j: nat)
    requires j < 8
    ensures BitOf(1, j) <==> j == 0
    ensures !BitOf(0, j)
  {
  }

  /** The second sizing step gives a bitmap sector back: the remainder of the free sectors is no more than the sectors first
      set aside for the bitmap. */
  predicate SectorSpared(secCnt: u32)
    requires FreeSects(secCnt) >= 1
  {
    (FreeSects(secCnt) - 1) % 4096 + 1 <= DivRoundUp(FreeSects(secCnt), 4096)
  }

  /** The bitmap leaves bit `bitLen` clear, one past the last block. Every clear bit names a sector of the partition exactly
      when the second sizing step gave a bitmap sector back; otherwise one names the first sector behind the partition. */
  lemma FormatFreeBitsInside(startLba: u32, secCnt: u32, bits: seq<byte>)
    requires FreeSects(secCnt) >= 16 && startLba + secCnt <= MAX_LBA
    requires |bits| == 512 * Format(startLba, secCnt).blockBitmapSects
    requires forall k: nat :: k < 8 * |bits| ==> (BitSet(bits, k) <==> k == 0 || k > BlockBitmapBitLen(secCnt))
    ensures (forall k: nat :: k in FreeBits(bits) ==> Format(startLba, secCnt).dataStartLba + k < startLba + secCnt)
      <==> SectorSpared(secCnt)
    ensures !SectorSpared(secCnt) ==>
      exists k: nat :: k in FreeBits(bits) && Format(startLba, secCnt).dataStartLba + k == startLba + secCnt
  {
    var f, len := FreeSects(secCnt), BlockBitmapBitLen(secCnt);
    var first, second := DivRoundUp(f, 4096), DivRoundUp(len, 4096);
    var sb := Format(startLba, secCnt);
    assert f == (first - 1) * 4096 + ((f - 1) % 4096 + 1);
    assert sb.dataStartLba + len == startLba + secCnt + second - first;
    if (f - 1) % 4096 + 1 <= first {
      assert second < first;
    } else {
      assert second == first && len < 8 * |bits|;
      assert len in FreeBits(bits);
    }
  }

  // ----- inode_locate -----

  datatype InodePosition = InodePosition(twoSec: bool, secLba: nat, offSize: nat)

  function InodeLocate(sb: SuperBlock, inodeNo: nat): (p: InodePosition)
    requires inodeNo < 4096
  {
    var offSize := inodeNo * 76;
    var offSec := offSize / 512;
    var offSizeInSec := offSize % 512;
    InodePosition(512 - offSizeInSec < 76, sb.inodeTableLba + offSec, offSizeInSec)
  }

  /** The sectors of an inode, one or two, lie in the inode table, and hold its whole window. */
  lemma InodeInTable(sb: SuperBlock, n: nat, inodeNo: nat)
    requires Geometry(sb, n) && inodeNo < 4096
    ensures var p := InodeLocate(sb, inodeNo); var cnt := if p.twoSec then 2 else 1;
      && sb.inodeTableLba <= p.secLba
      && p.secLba + cnt <= sb.inodeTableLba + sb.inodeTableSects == sb.dataStartLba
      && p.offSize + 76 <= 512 * cnt
      && 512 * (p.secLba - sb.inodeTableLba) + p.offSize == 76 * inodeNo
  {
    assert inodeNo * 76 + 76 <= 608 * 512;
  }
}
