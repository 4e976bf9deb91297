/** The inode table: 76-byte records that may straddle two sectors. */
module InodeTables {
  import opened Bytes
  import opened Bitmaps
  import opened Disks

  // ----- the persistent part of an inode -----

  datatype DiskInode = DiskInode(no: u32, size: u32, sectors: seq<u32>)

  predicate WellSized(i: DiskInode) {
    |i.sectors| == 13
  }

  /** `pure_inode`: open count, write flag and list links are stored as zero. */
  function InodeWords(i: DiskInode): (w: seq<u32>)
    requires WellSized(i)
    ensures |w| == 76 / 4
  {
    [i.no, i.size, 0, 0] + i.sectors + [0, 0]
  }

  function EncodeInode(i: DiskInode): (b: seq<byte>)
    requires WellSized(i)
    ensures |b| == 76
  {
    WordsBytes(InodeWords(i))
  }

  function DecodeInode(b: seq<byte>): (i: DiskInode)
    requires |b| == 76
    ensures WellSized(i)
  {
    DiskInode(WordAt(b, 0), WordAt(b, 4), seq(13, k requires 0 <= k < 13 => WordAt(b, 16 + 4 * k)))
  }

  /** Where the fields lie in the 76 bytes; the others are zero. */
  lemma InodeLayout(i: DiskInode)
    requires WellSized(i)
    ensures var b := EncodeInode(i);
      && WordAt(b, 0) == i.no && WordAt(b, 4) == i.size && (forall k :: 0 <= k < 13 ==> WordAt(b, 16 + 4 * k) == i.sectors[k])
      && WordAt(b, 8) == 0 && WordAt(b, 12) == 0 && WordAt(b, 68) == 0 && WordAt(b, 72) == 0
  {
    hide WordAt, WordsBytes;
    var w := InodeWords(i);
    WordsBytesAt(w, 0);
    WordsBytesAt(w, 1);
    WordsBytesAt(w, 2);
    WordsBytesAt(w, 3);
    WordsBytesAt(w, 17);
    WordsBytesAt(w, 18);
    forall k | 0 <= k < 13
      ensures WordAt(EncodeInode(i), 16 + 4 * k) == i.sectors[k]
    {
      WordsBytesAt(w, 4 + k);
    }
  }

  lemma InodeRoundTrip(i: DiskInode)
    requires WellSized(i)
    ensures DecodeInode(EncodeInode(i)) == i
  {
    hide WordAt, EncodeInode;
    InodeLayout(i);
  }

  /** The 76 bytes of inode `no` in the inode table. */
  function InodeWindow(disk: seq<Sector>, sb: SuperBlock, no: nat): (w: seq<byte>)
    requires Geometry(sb, |disk|) && no < 4096
    ensures |w| == 76
  {
    seq(76, k requires 0 <= k < 76 => RegionByte(disk, sb.inodeTableLba, 76 * no + k))
  }

  /** What a fresh read of inode `no` gives. */
  function InodeAt(disk: seq<Sector>, sb: SuperBlock, no: nat): (i: DiskInode)
    requires Geometry(sb, |disk|) && no < 4096
    ensures WellSized(i)
  {
    DecodeInode(InodeWindow(disk, sb, no))
  }

  ghost predicate InInodeTable(sb: SuperBlock, l: int) {
    sb.inodeTableLba <= l < sb.dataStartLba
  }

  /** Only window `no` of the inode table differs between the disks, and it holds `w` in the second. */
  ghost predicate WindowWritten(before: seq<Sector>, after: seq<Sector>, sb: SuperBlock, no: nat, w: seq<byte>) {
    && Geometry(sb, |before|) && |after| == |before| && no < 4096
    && InodeWindow(after, sb, no) == w
    && (forall other: nat :: other < 4096 && other != no ==>
      InodeWindow(after, sb, other) == InodeWindow(before, sb, other))
    && (forall l :: 0 <= l < |before| && !InInodeTable(sb, l) ==> after[l] == before[l])
  }

  lemma WindowFrame(sb: SuperBlock, d0: seq<Sector>, d1: seq<Sector>, no: nat)
    requires Geometry(sb, |d0|) && |d1| == |d0| && no < 4096
    requires forall l :: 0 <= l < |d0| && InInodeTable(sb, l) ==> d1[l] == d0[l]
    ensures InodeWindow(d1, sb, no) == InodeWindow(d0, sb, no)
  {
    forall k | 0 <= k < 76
      ensures InodeWindow(d1, sb, no)[k] == InodeWindow(d0, sb, no)[k]
    {
      var x := 76 * no + k;
      assert x / 512 < 608;
      var l := sb.inodeTableLba + x / 512;
      assert InInodeTable(sb, l);
      assert RegionByte(d1, sb.inodeTableLba, x) == RegionByte(d0, sb.inodeTableLba, x);
    }
  }

  /** `after` is `disk` with `w` written at byte `o` of the `cnt` sectors from `lba` on. */
  ghost predicate Patched(disk: seq<Sector>, after: seq<Sector>, lba: nat, cnt: nat, o: nat, w: seq<byte>) {
    && |after| == |disk| && lba + cnt <= |disk| && o + |w| <= 512 * cnt
    && (forall l :: 0 <= l < |disk| && !(lba <= l < lba + cnt) ==> after[l] == disk[l])
    && (forall l, m :: lba <= l < lba + cnt && 0 <= m < 512 ==>
      after[l][m] == if o <= 512 * (l - lba) + m < o + |w| then w[512 * (l - lba) + m - o] else disk[l][m])
  }

  /** Read `cnt` sectors, overwrite the bytes from offset `o` with `w`, write them back. */
  function Patch(disk: seq<Sector>, lba: nat, cnt: nat, o: nat, w: seq<byte>): (after: seq<Sector>)
    requires lba + cnt <= |disk| && o + |w| <= 512 * cnt
    ensures Patched(disk, after, lba, cnt, o, w)
  {
    ReadSectorsAre(disk, lba, cnt);
    var buf := ReadSectors(disk, lba, cnt);
    var after := WriteSectors(disk, lba, cnt, Splice(buf, o, w));
    assert forall l :: lba <= l < lba + cnt ==>
      after[l] == SectorOf(Splice(buf, o, w), l - lba) && disk[l] == SectorOf(buf, l - lba);
    after
  }

  /** Overwriting the one or two sectors of an inode writes its window and no other. */
  function WriteWindow(disk: seq<Sector>, sb: SuperBlock, no: nat, w: seq<byte>): (after: seq<Sector>)
    requires Geometry(sb, |disk|) && no < 4096 && |w| == 76
    ensures WindowWritten(disk, after, sb, no, w)
  {
    var p := InodeLocate(sb, no);
    var cnt := if p.twoSec then 2 else 1;
    InodeInTable(sb, |disk|, no);
    var after := Patch(disk, p.secLba, cnt, p.offSize, w);
    PatchedWindow(disk, after, sb, no, w, p.secLba - sb.inodeTableLba, cnt, p.offSize);
    after
  }

  lemma PatchedWindow(disk: seq<Sector>, after: seq<Sector>, sb: SuperBlock, no: nat, w: seq<byte>, s: nat, cnt: nat, o: nat)
    requires Geometry(sb, |disk|) && no < 4096 && |w| == 76
    requires Patched(disk, after, sb.inodeTableLba + s, cnt, o, w) && s + cnt <= 608
    requires 512 * s + o == 76 * no
    ensures WindowWritten(disk, after, sb, no, w)
  {
    forall other: nat | other < 4096
      ensures InodeWindow(after, sb, other) == if other == no then w else InodeWindow(disk, sb, other)
    {
      forall k: nat | k < 76
        ensures InodeWindow(after, sb, other)[k] == if other == no then w[k] else InodeWindow(disk, sb, other)[k]
      {
        PatchedByte(disk, after, sb.inodeTableLba, no, w, s, cnt, o, other, k, (76 * other + k) / 512, (76 * other + k) % 512);
      }
    }
  }

  /** Byte `m` of table sector `sec`, which is byte `k` of window `other`, is overwritten only if `other` is `no`. */
  lemma PatchedByte(disk: seq<Sector>, after: seq<Sector>, base: nat, no: nat, w: seq<byte>, s: nat, cnt: nat, o: nat,
      other: nat, k: nat, sec: nat, m: nat)
    requires |w| == 76 && k < 76 && base + sec < |disk| && m < 512
    requires Patched(disk, after, base + s, cnt, o, w)
    requires 512 * s + o == 76 * no && 512 * sec + m == 76 * other + k
    ensures after[base + sec][m] == if other == no then w[k] else disk[base + sec][m]
  {
    var l := base + sec;
    if base + s <= l < base + s + cnt {
      assert after[l][m] == if o <= 512 * (l - (base + s)) + m < o + |w| then w[512 * (l - (base + s)) + m - o] else disk[l][m];
    }
  }
}
