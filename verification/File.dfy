/** fs/file.c: appending to and reading from a regular file through 12 direct blocks and one indirect table. */
module Files {
  import opened Bytes
  import opened Bitmaps
  import opened Disks
  import opened InodeTables
  import opened Partitions

  // ----- the blocks of an inode -----

  /** Entry `j` of the indirect table stored in a sector. */
  function TableEntry(s: Sector, j: nat): u32
    requires j < 128
  {
    WordAt(s, 4 * j)
  }

  /** The address of block `b` of an inode, 0 when there is none. */
  function Addr(disk: seq<Sector>, sectors: seq<u32>, b: nat): (x: u32)
    requires |sectors| == 13 && b < 140
  {
    if b < 12 then sectors[b]
    else if sectors[12] == 0 || sectors[12] >= |disk| then 0
    else TableEntry(disk[sectors[12]], b - 12)
  }

  ghost predicate Distinct(addrs: seq<u32>) {
    forall b, c :: 0 <= b < c < |addrs| ==> addrs[b] != addrs[c]
  }

  ghost predicate AllTaken(disk: seq<Sector>, sb: SuperBlock, bits: seq<byte>, addrs: seq<u32>) {
    forall b :: 0 <= b < |addrs| ==> TakenBlock(disk, sb, bits, addrs[b])
  }

  /** The direct slots hold the first blocks of `addrs` and zeros after them. */
  ghost predicate Slots(sectors: seq<u32>, addrs: seq<u32>) {
    && |sectors| == 13 && |addrs| <= 140
    && forall b :: 0 <= b < 12 ==> sectors[b] == if b < |addrs| then addrs[b] else 0
  }

  /** The table holds the blocks of `addrs` from the 12th on and zeros after them. */
  ghost predicate TableIs(table: Sector, addrs: seq<u32>) {
    forall j: nat :: j < 128 ==> TableEntry(table, j) == if 12 + j < |addrs| then addrs[12 + j] else 0
  }

  /** The first `|addrs|` blocks of the inode are `addrs`, the others are unmapped; all of them and the indirect
      table, present when more than 12 blocks are, are distinct data blocks whose bits are set. */
  ghost predicate Maps(disk: seq<Sector>, sb: SuperBlock, bits: seq<byte>, sectors: seq<u32>, addrs: seq<u32>) {
    && Slots(sectors, addrs) && AllTaken(disk, sb, bits, addrs) && Distinct(addrs)
    && (if |addrs| <= 12 then sectors[12] == 0 else
        TakenBlock(disk, sb, bits, sectors[12]) && sectors[12] !in addrs && TableIs(disk[sectors[12]], addrs))
  }

  /** The blocks an inode owns: its data blocks and its indirect table. */
  ghost function Blocks(sectors: seq<u32>, addrs: seq<u32>): set<int>
    requires |sectors| == 13
  {
    (set x | x in addrs) + if |addrs| > 12 then {sectors[12] as int} else {}
  }

  /** The data of the blocks `addrs`, one after the other. */
  function Flat(disk: seq<Sector>, addrs: seq<u32>): (r: seq<byte>)
    requires forall b :: 0 <= b < |addrs| ==> addrs[b] < |disk|
    ensures |r| == 512 * |addrs|
  {
    if addrs == [] then [] else Flat(disk, addrs[..|addrs| - 1]) + disk[addrs[|addrs| - 1]]
  }

  lemma {:induction false} FlatSector(disk: seq<Sector>, addrs: seq<u32>, q: nat)
    requires forall b :: 0 <= b < |addrs| ==> addrs[b] < |disk|
    requires q < |addrs|
    ensures SectorOf(Flat(disk, addrs), q) == disk[addrs[q]]
  {
    var last := |addrs| - 1;
    var init := Flat(disk, addrs[..last]);
    assert Flat(disk, addrs) == init + disk[addrs[last]];
    if q < last {
      FlatSector(disk, addrs[..last], q);
      assert SectorOf(Flat(disk, addrs), q) == SectorOf(init, q);
    }
  }

  /** The blocks of a flat image depend on their own sectors only, and keep their place when more are added. */
  lemma {:induction false} FlatFrame(d0: seq<Sector>, a0: seq<u32>, d1: seq<Sector>, a1: seq<u32>)
    requires forall b :: 0 <= b < |a0| ==> a0[b] < |d0|
    requires forall b :: 0 <= b < |a1| ==> a1[b] < |d1|
    requires |a0| <= |a1|
    requires forall b :: 0 <= b < |a0| ==> d1[a1[b]] == d0[a0[b]]
    ensures Flat(d1, a1)[..512 * |a0|] == Flat(d0, a0)
  {
    if |a0| < |a1| {
      FlatFrame(d0, a0, d1, a1[..|a1| - 1]);
      assert Flat(d1, a1)[..512 * |a0|] == Flat(d1, a1[..|a1| - 1])[..512 * |a0|];
    } else if a0 != [] {
      var last := |a0| - 1;
      FlatFrame(d0, a0[..last], d1, a1[..last]);
      assert Flat(d1, a1)[..512 * |a0|] == Flat(d1, a1);
      assert Flat(d1, a1[..last])[..512 * last] == Flat(d1, a1[..last]);
    }
  }

  /** Writing sector `q` of a flat image splices it in. */
  lemma {:induction false} FlatUpdate(disk: seq<Sector>, addrs: seq<u32>, q: nat, s: Sector)
    requires forall b :: 0 <= b < |addrs| ==> addrs[b] < |disk|
    requires Distinct(addrs) && q < |addrs|
    ensures Flat(disk[addrs[q] := s], addrs) == Splice(Flat(disk, addrs), 512 * q, s)
  {
    var after := disk[addrs[q] := s];
    var last := |addrs| - 1;
    if q < last {
      FlatUpdate(disk, addrs[..last], q, s);
      assert after[addrs[last]] == disk[addrs[last]];
    } else {
      FlatFrame(disk, addrs[..last], after, addrs[..last]);
      assert Flat(after, addrs[..last])[..512 * last] == Flat(after, addrs[..last]);
    }
  }

  // ----- regular files -----

  /** Blocks a file of this size has: one more than it fills, except that a file never written has none. */
  function BlockCount(i: DiskInode): nat
    requires WellSized(i)
  {
    if i.sectors[0] == 0 then 0 else i.size / 512 + 1
  }

  function Addrs(disk: seq<Sector>, sectors: seq<u32>, n: nat): (a: seq<u32>)
    requires |sectors| == 13 && n <= 140
    ensures |a| == n && forall b :: 0 <= b < n ==> a[b] == Addr(disk, sectors, b)
  {
    seq(n, b requires 0 <= b < n => Addr(disk, sectors, b))
  }

  /** Blocks 0 to size / 512 are all mapped and the later slots are 0. */
  ghost predicate RegularFile(disk: seq<Sector>, sb: SuperBlock, bits: seq<byte>, i: DiskInode) {
    && WellSized(i)
    && i.size < 140 * 512
    && (i.sectors[0] == 0 ==> i.size == 0)
    && Maps(disk, sb, bits, i.sectors, Addrs(disk, i.sectors, BlockCount(i)))
  }

  lemma MapsAddrs(disk: seq<Sector>, sb: SuperBlock, bits: seq<byte>, sectors: seq<u32>, addrs: seq<u32>)
    requires Maps(disk, sb, bits, sectors, addrs)
    ensures forall b: nat :: b < 140 ==> Addr(disk, sectors, b) == if b < |addrs| then addrs[b] else 0
    ensures addrs == Addrs(disk, sectors, |addrs|)
  {
  }

  /** The bytes of a regular file. */
  ghost function Contents(disk: seq<Sector>, sb: SuperBlock, bits: seq<byte>, i: DiskInode): (c: seq<byte>)
    requires RegularFile(disk, sb, bits, i)
    ensures |c| == i.size
  {
    Flat(disk, Addrs(disk, i.sectors, BlockCount(i)))[..i.size]
  }

  lemma MapsSlots(disk: seq<Sector>, sb: SuperBlock, bits: seq<byte>, sectors: seq<u32>, addrs: seq<u32>)
    requires Maps(disk, sb, bits, sectors, addrs)
    ensures |sectors| == 13 && |addrs| <= 140
    ensures forall b :: 0 <= b < 12 ==> sectors[b] == if b < |addrs| then addrs[b] else 0
    ensures sectors[12] == 0 <==> |addrs| <= 12
  {
  }

  // ----- file_write: collecting the blocks -----

  /** From (d0, b0, s0, a0) to (d1, b1, s1, a1) the inode gained the blocks a1[|a0|..], and its indirect table if it
      had none; they were free. Nothing else changed but the block bitmap and the table. */
  ghost predicate Extended(sb: SuperBlock, d0: seq<Sector>, b0: seq<byte>, s0: seq<u32>, a0: seq<u32>,
      d1: seq<Sector>, b1: seq<byte>, s1: seq<u32>, a1: seq<u32>) {
    && |d1| == |d0| && |b1| == |b0| && |s0| == 13
    && BlockMirror(d1, sb, b1)
    && a0 <= a1 && Maps(d1, sb, b1, s1, a1)
    && Blocks(s0, a0) <= Blocks(s1, a1)
    && Blocks(s1, a1) - Blocks(s0, a0) <= FreeBlocks(sb, b0)
    && FreeBlocks(sb, b1) == FreeBlocks(sb, b0) - Blocks(s1, a1)
    && (forall l :: 0 <= l < |d0| && !InBlockBitmap(sb, l) && (l !in Blocks(s1, a1) || l in a0) ==> d1[l] == d0[l])
  }

  lemma ExtendedReflexive(sb: SuperBlock, d: seq<Sector>, b: seq<byte>, s: seq<u32>, a: seq<u32>)
    requires Geometry(sb, |d|) && BlockMirror(d, sb, b) && Maps(d, sb, b, s, a)
    ensures Extended(sb, d, b, s, a, d, b, s, a)
  {
  }

  lemma ExtendedSlots(sb: SuperBlock, d0: seq<Sector>, b0: seq<byte>, s0: seq<u32>, a0: seq<u32>,
      d1: seq<Sector>, b1: seq<byte>, s1: seq<u32>, a1: seq<u32>)
    requires Extended(sb, d0, b0, s0, a0, d1, b1, s1, a1)
    ensures |s1| == 13 && forall b :: 0 <= b < 12 ==> s1[b] == if b < |a1| then a1[b] else 0
  {
  }

  /** A block that was free joins blocks that were not. */
  lemma TakeOne(sb: SuperBlock, d: seq<Sector>, b: seq<byte>, addrs: seq<u32>, d1: seq<Sector>, b1: seq<byte>, x: u32)
    requires Geometry(sb, |d|) && FreeWithin(sb, b)
    requires AllTaken(d, sb, b, addrs) && Distinct(addrs) && Grown(sb, d, b, d1, b1, {x as int})
    ensures forall y :: TakenBlock(d, sb, b, y) ==> y != x && TakenBlock(d1, sb, b1, y)
    ensures AllTaken(d1, sb, b1, addrs + [x]) && Distinct(addrs + [x]) && TakenBlock(d1, sb, b1, x)
  {
    assert x in FreeBlocks(sb, b);
    forall c | 0 <= c < |addrs|
      ensures addrs[c] != x && TakenBlock(d1, sb, b1, addrs[c])
    {
      assert TakenBlock(d, sb, b, addrs[c]);
    }
  }

  /** A new direct block. */
  lemma ExtendedDirect(sb: SuperBlock, d0: seq<Sector>, b0: seq<byte>, s0: seq<u32>, a0: seq<u32>,
      d: seq<Sector>, b: seq<byte>, s: seq<u32>, a: seq<u32>, d1: seq<Sector>, b1: seq<byte>, x: u32)
    requires Geometry(sb, |d0|) && FreeWithin(sb, b0)
    requires Extended(sb, d0, b0, s0, a0, d, b, s, a) && |a| < 12
    requires Grown(sb, d, b, d1, b1, {x as int})
    ensures Extended(sb, d0, b0, s0, a0, d1, b1, s[|a| := x], a + [x])
  {
    TakeOne(sb, d, b, a, d1, b1, x);
    assert Blocks(s[|a| := x], a + [x]) == Blocks(s, a) + {x as int};
  }

  /** The blocks gained since `a0`, with the indirect table if that is new too. */
  ghost function Gained(a0: seq<u32>, addrs: seq<u32>, t: u32): set<int>
    requires |a0| <= |addrs|
  {
    (set x | x in addrs[|a0|..]) + if |a0| > 12 then {} else {t as int}
  }

  /** While the indirect table `t` is being filled in memory: every block is taken, the direct slots are written,
      and the table on disk still lags behind. */
  ghost predicate Collecting(sb: SuperBlock, d0: seq<Sector>, b0: seq<byte>, a0: seq<u32>,
      d: seq<Sector>, b: seq<byte>, sectors: seq<u32>, addrs: seq<u32>, t: u32) {
    && a0 <= addrs
    && Slots(sectors, addrs) && sectors[12] == t
    && AllTaken(d, sb, b, addrs) && Distinct(addrs)
    && TakenBlock(d, sb, b, t) && t !in addrs
    && Grown(sb, d0, b0, d, b, Gained(a0, addrs, t))
  }

  lemma CollectOne(sb: SuperBlock, d0: seq<Sector>, b0: seq<byte>, a0: seq<u32>, d: seq<Sector>, b: seq<byte>,
      sectors: seq<u32>, addrs: seq<u32>, t: u32, d1: seq<Sector>, b1: seq<byte>, x: u32)
    requires Geometry(sb, |d|) && FreeWithin(sb, b)
    requires Collecting(sb, d0, b0, a0, d, b, sectors, addrs, t) && |addrs| < 140
    requires Grown(sb, d, b, d1, b1, {x as int})
    ensures Collecting(sb, d0, b0, a0, d1, b1, if |addrs| < 12 then sectors[|addrs| := x] else sectors, addrs + [x], t)
  {
    hide Grown;
    TakeOne(sb, d, b, addrs, d1, b1, x);
    assert (addrs + [x])[|a0|..] == addrs[|a0|..] + [x];
    assert Gained(a0, addrs + [x], t) == Gained(a0, addrs, t) + {x as int};
    GrownTwice(sb, d0, b0, d, b, Gained(a0, addrs, t), d1, b1, {x as int});
  }

  lemma TableWritten(ws: seq<u32>, addrs: seq<u32>)
    requires |ws| == 128 && 12 <= |addrs| <= 140
    requires forall j :: 0 <= j < 128 ==> ws[j] == if 12 + j < |addrs| then addrs[12 + j] else 0
    ensures TableIs(SectorOf(WordsBytes(ws), 0), addrs)
  {
    forall j: nat | j < 128
      ensures TableEntry(SectorOf(WordsBytes(ws), 0), j) == ws[j]
    {
      WordsBytesAt(ws, j);
      WordAtFrame(WordsBytes(ws), 4 * j, SectorOf(WordsBytes(ws), 0), 4 * j);
    }
  }

  /** The table reaches the disk and the collection is complete. */
  lemma CollectDone(sb: SuperBlock, d0: seq<Sector>, b0: seq<byte>, s0: seq<u32>, a0: seq<u32>,
      d: seq<Sector>, b: seq<byte>, sectors: seq<u32>, addrs: seq<u32>, t: u32, table: Sector)
    requires Geometry(sb, |d0|) && FreeWithin(sb, b0) && BlockMirror(d0, sb, b0)
    requires Maps(d0, sb, b0, s0, a0) && 12 < |addrs|
    requires Collecting(sb, d0, b0, a0, d, b, sectors, addrs, t) && TableIs(table, addrs)
    requires |a0| > 12 ==> t == s0[12]
    ensures Extended(sb, d0, b0, s0, a0, d[t := table], b, sectors, addrs)
  {
    assert forall x :: x in addrs <==> x in a0 || x in addrs[|a0|..] by {
      assert addrs == a0 + addrs[|a0|..];
    }
    forall c | 0 <= c < |addrs|
      ensures TakenBlock(d[t := table], sb, b, addrs[c])
    {
      assert TakenBlock(d, sb, b, addrs[c]);
    }
    forall c | 0 <= c < |a0|
      ensures TakenBlock(d0, sb, b0, a0[c])
    {
    }
    assert Blocks(sectors, addrs) == Blocks(s0, a0) + Gained(a0, addrs, t);
  }

  /** Situation 1: the file stays within the 12 direct blocks. */
  method CollectDirect(part: Partition, inode: Inode, has: nat, will: nat, ghost a0: seq<u32>)
    returns (allBlocks: seq<u32>, ghost addrs: seq<u32>)
    requires part.Writable()
    requires Maps(part.disk, part.sb, part.Bits(), inode.sectors, a0) && |a0| == has
    requires 1 <= has < will <= 12 && will - has <= |UsableBlocks(part.sb, |part.disk|, part.Bits())|
    modifies part`disk, part.blockBitmap.bits, inode`sectors
    ensures part.Writable() && |addrs| == will
    ensures Extended(part.sb, old(part.disk), old(part.Bits()), old(inode.sectors), a0,
      part.disk, part.Bits(), inode.sectors, addrs)
    ensures |allBlocks| == 140 && forall b :: has - 1 <= b < will ==> allBlocks[b] == addrs[b]
  {
    hide *;
    ghost var sb, d0, b0, s0 := part.sb, part.disk, part.Bits(), inode.sectors;
    part.WritableFacts();
    ExtendedReflexive(sb, d0, b0, s0, a0);
    MapsSlots(d0, sb, b0, s0, a0);
    addrs := a0;
    allBlocks := Copies<u32>(0, 140);
    var blockIdx := has - 1;
    allBlocks := allBlocks[blockIdx := inode.sectors[blockIdx]];
    blockIdx := has;
    while blockIdx < will
      invariant has <= blockIdx <= will && |addrs| == blockIdx
      invariant part.Writable()
      invariant Extended(sb, d0, b0, s0, a0, part.disk, part.Bits(), inode.sectors, addrs)
      invariant will - blockIdx <= |UsableBlocks(sb, |part.disk|, part.Bits())|
      invariant |allBlocks| == 140 && forall b :: has - 1 <= b < blockIdx ==> allBlocks[b] == addrs[b]
    {
      ghost var d, b := part.disk, part.Bits();
      ExtendedSlots(sb, d0, b0, s0, a0, part.disk, part.Bits(), inode.sectors, addrs);
      assert inode.sectors[blockIdx] == 0;
      var got := part.AllocBlock();
      var blockLba := got.value;
      ExtendedDirect(sb, d0, b0, s0, a0, d, b, inode.sectors, addrs, part.disk, part.Bits(), blockLba);
      allBlocks := allBlocks[blockIdx := blockLba];
      inode.sectors := inode.sectors[blockIdx := blockLba];
      addrs := addrs + [blockLba];
      blockIdx := blockIdx + 1;
    }
  }

  /** Situation 2: the file had direct blocks only and now needs an indirect table. */
  method CollectCross(part: Partition, inode: Inode, has: nat, will: nat, ghost a0: seq<u32>)
    returns (allBlocks: seq<u32>, ghost addrs: seq<u32>)
    requires part.Writable()
    requires Maps(part.disk, part.sb, part.Bits(), inode.sectors, a0) && |a0| == has
    requires 1 <= has <= 12 < will <= 140 && will - has + 1 <= |UsableBlocks(part.sb, |part.disk|, part.Bits())|
    modifies part`disk, part.blockBitmap.bits, inode`sectors
    ensures part.Writable() && |addrs| == will
    ensures Extended(part.sb, old(part.disk), old(part.Bits()), old(inode.sectors), a0,
      part.disk, part.Bits(), inode.sectors, addrs)
    ensures |allBlocks| == 140 && forall b :: has - 1 <= b < will ==> allBlocks[b] == addrs[b]
  {
    hide *;
    ghost var sb, d0, b0, s0 := part.sb, part.disk, part.Bits(), inode.sectors;
    part.WritableFacts();
    MapsSlots(d0, sb, b0, s0, a0);
    assert UsableBlocks(sb, |d0|, b0) != {};
    allBlocks := Copies<u32>(0, 140);
    allBlocks := allBlocks[has - 1 := inode.sectors[has - 1]];
    assert inode.sectors[12] == 0;
    var got := part.AllocBlock();
    var indirectBlockTable := got.value;
    inode.sectors := inode.sectors[12 := indirectBlockTable];
    CollectStart(sb, d0, b0, s0, a0, part.disk, part.Bits(), indirectBlockTable);
    allBlocks, addrs := CollectIndirect(part, inode, has, will, allBlocks, indirectBlockTable, d0, b0, a0);
    WriteTable(part, inode, allBlocks, indirectBlockTable, d0, b0, s0, a0, addrs);
  }

  /** The allocation loop of situations 2 and 3: direct slots while there are any, then table entries in memory. */
  method CollectIndirect(part: Partition, inode: Inode, has: nat, will: nat, allBlocks0: seq<u32>, table: u32,
      ghost d0: seq<Sector>, ghost b0: seq<byte>, ghost a0: seq<u32>)
    returns (allBlocks: seq<u32>, ghost addrs: seq<u32>)
    requires part.Writable() && Geometry(part.sb, |d0|) && FreeWithin(part.sb, b0)
    requires Collecting(part.sb, d0, b0, a0, part.disk, part.Bits(), inode.sectors, a0, table) && |a0| == has
    requires 1 <= has <= will <= 140 && will - has <= |UsableBlocks(part.sb, |part.disk|, part.Bits())|
    requires |allBlocks0| == 140 && forall b :: has - 1 <= b < 140 || 12 <= b < 140 ==>
      allBlocks0[b] == if b < has then a0[b] else 0
    modifies part`disk, part.blockBitmap.bits, inode`sectors
    ensures part.Writable()
    ensures Collecting(part.sb, d0, b0, a0, part.disk, part.Bits(), inode.sectors, addrs, table) && |addrs| == will
    ensures |allBlocks| == 140
    ensures forall b :: has - 1 <= b < 140 || 12 <= b < 140 ==> allBlocks[b] == if b < will then addrs[b] else 0
  {
    hide *;
    ghost var sb := part.sb;
    allBlocks, addrs := allBlocks0, a0;
    var blockIdx := has;
    while blockIdx < will
      invariant has <= blockIdx <= will && |addrs| == blockIdx
      invariant part.Writable()
      invariant Collecting(sb, d0, b0, a0, part.disk, part.Bits(), inode.sectors, addrs, table)
      invariant will - blockIdx <= |UsableBlocks(sb, |part.disk|, part.Bits())|
      invariant |allBlocks| == 140
      invariant forall b :: has - 1 <= b < 140 || 12 <= b < 140 ==> allBlocks[b] == if b < blockIdx then addrs[b] else 0
    {
      ghost var d, b := part.disk, part.Bits();
      CollectingSlots(sb, d0, b0, a0, d, b, inode.sectors, addrs, table);
      part.WritableFacts();
      var got := part.AllocBlock();
      var blockLba := got.value;
      CollectOne(sb, d0, b0, a0, d, b, inode.sectors, addrs, table, part.disk, part.Bits(), blockLba);
      if blockIdx < 12 {
        assert inode.sectors[blockIdx] == 0;
        inode.sectors := inode.sectors[blockIdx := blockLba];
      }
      allBlocks := allBlocks[blockIdx := blockLba];
      addrs := addrs + [blockLba];
      blockIdx := blockIdx + 1;
    }
  }

  /** Situation 3: the file had an indirect table already. */
  method CollectTable(part: Partition, inode: Inode, has: nat, will: nat, ghost a0: seq<u32>)
    returns (allBlocks: seq<u32>, ghost addrs: seq<u32>)
    requires part.Writable()
    requires Maps(part.disk, part.sb, part.Bits(), inode.sectors, a0) && |a0| == has
    requires 12 < has <= will <= 140 && will - has <= |UsableBlocks(part.sb, |part.disk|, part.Bits())|
    modifies part`disk, part.blockBitmap.bits, inode`sectors
    ensures part.Writable() && |addrs| == will
    ensures Extended(part.sb, old(part.disk), old(part.Bits()), old(inode.sectors), a0,
      part.disk, part.Bits(), inode.sectors, addrs)
    ensures |allBlocks| == 140 && forall b :: has - 1 <= b < will ==> allBlocks[b] == addrs[b]
  {
    hide *;
    ghost var sb, d0, b0, s0 := part.sb, part.disk, part.Bits(), inode.sectors;
    part.WritableFacts();
    MapsSlots(d0, sb, b0, s0, a0);
    assert inode.sectors[12] != 0;
    var indirectBlockTable := inode.sectors[12];
    CollectContinue(sb, d0, b0, s0, a0);
    TableRead(d0, sb, b0, s0, a0);
    allBlocks := ReadTable(part.disk, indirectBlockTable);
    allBlocks, addrs := CollectIndirect(part, inode, has, will, allBlocks, indirectBlockTable, d0, b0, a0);
    WriteTable(part, inode, allBlocks, indirectBlockTable, d0, b0, s0, a0, addrs);
  }

  /** `ide_read` of the indirect table behind twelve zero words. */
  function ReadTable(disk: seq<Sector>, table: nat): (r: seq<u32>)
    requires table < |disk|
    ensures |r| == 140
    ensures forall b :: 0 <= b < 140 ==> r[b] == if b < 12 then 0 else TableEntry(disk[table], b - 12)
  {
    seq(140, b requires 0 <= b < 140 => if b < 12 then 0 else TableEntry(disk[table], b - 12))
  }

  lemma TableRead(disk: seq<Sector>, sb: SuperBlock, bits: seq<byte>, sectors: seq<u32>, addrs: seq<u32>)
    requires Maps(disk, sb, bits, sectors, addrs) && |addrs| > 12
    ensures sectors[12] < |disk|
    ensures forall b :: 12 <= b < 140 ==> ReadTable(disk, sectors[12])[b] == if b < |addrs| then addrs[b] else 0
  {
  }

  lemma CollectContinue(sb: SuperBlock, d0: seq<Sector>, b0: seq<byte>, s0: seq<u32>, a0: seq<u32>)
    requires Geometry(sb, |d0|) && BlockMirror(d0, sb, b0) && Maps(d0, sb, b0, s0, a0) && |a0| > 12
    ensures Collecting(sb, d0, b0, a0, d0, b0, s0, a0, s0[12])
  {
    assert Gained(a0, a0, s0[12]) == {};
  }

  lemma CollectStart(sb: SuperBlock, d0: seq<Sector>, b0: seq<byte>, s0: seq<u32>, a0: seq<u32>,
      d: seq<Sector>, b: seq<byte>, t: u32)
    requires FreeWithin(sb, b0) && Geometry(sb, |d0|)
    requires Maps(d0, sb, b0, s0, a0) && |a0| <= 12 && Grown(sb, d0, b0, d, b, {t as int})
    ensures Collecting(sb, d0, b0, a0, d, b, s0[12 := t], a0, t)
  {
    assert Gained(a0, a0, t) == {t as int};
    forall c | 0 <= c < |a0|
      ensures a0[c] != t && TakenBlock(d, sb, b, a0[c])
    {
      assert TakenBlock(d0, sb, b0, a0[c]);
    }
    assert TakenBlock(d, sb, b, t);
  }

  lemma CollectingSlots(sb: SuperBlock, d0: seq<Sector>, b0: seq<byte>, a0: seq<u32>, d: seq<Sector>, b: seq<byte>,
      sectors: seq<u32>, addrs: seq<u32>, t: u32)
    requires Collecting(sb, d0, b0, a0, d, b, sectors, addrs, t)
    ensures a0 <= addrs && |sectors| == 13 && |addrs| <= 140 && sectors[12] == t && t < |d| && BlockMirror(d, sb, b)
    ensures forall c :: 0 <= c < 12 ==> sectors[c] == if c < |addrs| then addrs[c] else 0
  {
  }

  /** `ide_write` of the 128 words behind the direct ones to the indirect table. */
  method WriteTable(part: Partition, inode: Inode, allBlocks: seq<u32>, table: u32,
      ghost d0: seq<Sector>, ghost b0: seq<byte>, ghost s0: seq<u32>, ghost a0: seq<u32>, ghost addrs: seq<u32>)
    requires part.Writable() && Geometry(part.sb, |d0|) && FreeWithin(part.sb, b0) && BlockMirror(d0, part.sb, b0)
    requires Maps(d0, part.sb, b0, s0, a0) && 12 < |addrs|
    requires Collecting(part.sb, d0, b0, a0, part.disk, part.Bits(), inode.sectors, addrs, table)
    requires |a0| > 12 ==> table == s0[12]
    requires |allBlocks| == 140
    requires forall b :: 12 <= b < 140 ==> allBlocks[b] == if b < |addrs| then addrs[b] else 0
    modifies part`disk
    ensures part.Writable()
    ensures Extended(part.sb, d0, b0, s0, a0, part.disk, part.Bits(), inode.sectors, addrs)
  {
    hide Extended, Collecting;
    ghost var d := part.disk;
    CollectingSlots(part.sb, d0, b0, a0, d, part.Bits(), inode.sectors, addrs, table);
    TableWritten(allBlocks[12..], addrs);
    CollectDone(part.sb, d0, b0, s0, a0, d, part.Bits(), inode.sectors, addrs, table, SectorOf(WordsBytes(allBlocks[12..]), 0));
    part.disk := WriteSectors(part.disk, table, 1, WordsBytes(allBlocks[12..]));
    assert part.disk == d[table := SectorOf(WordsBytes(allBlocks[12..]), 0)];
    ExtendedMirror(part.sb, d0, b0, s0, a0, part.disk, part.Bits(), inode.sectors, addrs);
  }

  lemma ExtendedMirror(sb: SuperBlock, d0: seq<Sector>, b0: seq<byte>, s0: seq<u32>, a0: seq<u32>,
      d1: seq<Sector>, b1: seq<byte>, s1: seq<u32>, a1: seq<u32>)
    requires Extended(sb, d0, b0, s0, a0, d1, b1, s1, a1)
    ensures |d1| == |d0| && BlockMirror(d1, sb, b1) && Maps(d1, sb, b1, s1, a1)
  {
  }

  // ----- file_write: the data -----

  class File {
    var pos: u32
    var flag: u32
    var inode: Inode

    constructor (inode: Inode, flag: u32)
      ensures this.inode == inode && this.flag == flag && pos == 0
    {
      this.inode, this.flag, pos := inode, flag, 0;
    }
  }

  lemma SpliceAppend(flat: seq<byte>, at: nat, off: nat, s: seq<byte>, chunk: seq<byte>)
    requires at + |s| <= |flat| && off + |chunk| <= |s|
    requires forall m :: 0 <= m < off ==> s[m] == flat[at + m]
    requires s[off..off + |chunk|] == chunk
    ensures Splice(flat, at, s)[..at + off + |chunk|] == flat[..at + off] + chunk
  {
    assert forall m :: 0 <= m < |chunk| ==> s[off + m] == chunk[m];
  }

  /** Sector `q` rewritten so that it holds `chunk` from byte `off` on: the flat image grows by `chunk`. */
  lemma FlatAppend(disk: seq<Sector>, addrs: seq<u32>, q: nat, off: nat, s: Sector, chunk: seq<byte>)
    requires forall b :: 0 <= b < |addrs| ==> addrs[b] < |disk|
    requires Distinct(addrs) && q < |addrs| && off + |chunk| <= 512
    requires off == 0 || s[..off] == disk[addrs[q]][..off]
    requires s[off..off + |chunk|] == chunk
    ensures Flat(disk[addrs[q] := s], addrs)[..512 * q + off + |chunk|] == Flat(disk, addrs)[..512 * q + off] + chunk
  {
    hide Flat, Splice, Distinct;
    FlatUpdate(disk, addrs, q, s);
    FlatSector(disk, addrs, q);
    var flat := Flat(disk, addrs);
    forall m | 0 <= m < off
      ensures s[m] == flat[512 * q + m]
    {
      assert s[..off][m] == SectorOf(flat, q)[m];
    }
    SpliceAppend(flat, 512 * q, off, s, chunk);
  }

  ghost predicate SameOutside(d0: seq<Sector>, d1: seq<Sector>, addrs: seq<u32>) {
    |d1| == |d0| && forall l :: 0 <= l < |d0| && l !in addrs ==> d1[l] == d0[l]
  }

  /** One turn of the copying loop: fill a sector buffer, from disk if this is the first block, and write it. */
  method WriteChunk(part: Partition, secLba: nat, secOffBytes: nat, chunk: seq<byte>, firstWriteBlock: bool,
      ghost addrs: seq<u32>, ghost q: nat)
    requires part.Ready()
    requires forall b :: 0 <= b < |addrs| ==> addrs[b] < |part.disk|
    requires Distinct(addrs) && q < |addrs| && secLba == addrs[q]
    requires secOffBytes + |chunk| <= 512 && (secOffBytes > 0 ==> firstWriteBlock)
    modifies part`disk
    ensures part.Ready() && |part.disk| == |old(part.disk)|
    ensures var at := 512 * q + secOffBytes; Flat(part.disk, addrs)[..at + |chunk|] == Flat(old(part.disk), addrs)[..at] + chunk
    ensures SameOutside(old(part.disk), part.disk, addrs)
  {
    ghost var d := part.disk;
    var ioBuf := Copies<byte>(0, 512);
    if firstWriteBlock {
      ioBuf := ReadSectors(part.disk, secLba, 1);
      ReadSectorsAre(d, secLba, 1);
    }
    ghost var before := ioBuf;
    ioBuf := Splice(ioBuf, secOffBytes, chunk);
    part.disk := WriteSectors(part.disk, secLba, 1, ioBuf);
    ghost var s := SectorOf(ioBuf, 0);
    assert part.disk == d[secLba := s];
    assert s[secOffBytes..secOffBytes + |chunk|] == chunk;
    assert secOffBytes > 0 ==> s[..secOffBytes] == d[secLba][..secOffBytes];
    FlatAppend(d, addrs, q, secOffBytes, s, chunk);
  }

  lemma U32Add(x: int, y: int)
    ensures U32(U32(x) + y) == U32(x + y)
  {
    assert (x + y) % 0x1_0000_0000 == (x % 0x1_0000_0000 + y) % 0x1_0000_0000;
  }

  /** The sector index, the offset in the sector and the size of the next piece of `left` bytes at position `pos`. */
  function NextChunk(pos: nat, left: nat): (r: (nat, nat, nat))
    ensures pos == 512 * r.0 + r.1 && r.1 < 512 && r.0 == pos / 512
    ensures r.2 <= left && r.1 + r.2 <= 512 && (left > 0 ==> r.2 > 0)
    ensures r.2 < left ==> pos + r.2 == 512 * (r.0 + 1) && (pos + r.2) % 512 == 0
    ensures pos % 512 == 0 ==> r.1 == 0
  {
    var secOffBytes := pos % 512;
    var secLeftBytes := 512 - secOffBytes;
    (pos / 512, secOffBytes, if left < secLeftBytes then left else secLeftBytes)
  }

  /** The first `w` bytes of `buf` have been copied behind the first `size0` bytes of the blocks `addrs`. */
  ghost predicate Copied(d0: seq<Sector>, d: seq<Sector>, addrs: seq<u32>, size0: nat, buf: seq<byte>, w: nat) {
    && (forall b :: 0 <= b < |addrs| ==> addrs[b] < |d0|) && w <= |buf| && size0 + w <= 512 * |addrs|
    && SameOutside(d0, d, addrs)
    && Flat(d, addrs)[..size0 + w] == Flat(d0, addrs)[..size0] + buf[..w]
  }

  lemma CopiedNone(d0: seq<Sector>, addrs: seq<u32>, size0: nat, buf: seq<byte>)
    requires (forall b :: 0 <= b < |addrs| ==> addrs[b] < |d0|) && size0 <= 512 * |addrs|
    ensures Copied(d0, d0, addrs, size0, buf, 0)
  {
  }

  lemma CopiedMore(d0: seq<Sector>, d: seq<Sector>, d1: seq<Sector>, addrs: seq<u32>, size0: nat, buf: seq<byte>, w: nat, n: nat)
    requires Copied(d0, d, addrs, size0, buf, w) && w + n <= |buf| && size0 + w + n <= 512 * |addrs|
    requires SameOutside(d, d1, addrs)
    requires Flat(d1, addrs)[..size0 + w + n] == Flat(d, addrs)[..size0 + w] + buf[w..w + n]
    ensures Copied(d0, d1, addrs, size0, buf, w + n)
  {
    assert buf[..w + n] == buf[..w] + buf[w..w + n];
  }

  lemma CopiedAll(d0: seq<Sector>, d: seq<Sector>, addrs: seq<u32>, size0: nat, buf: seq<byte>)
    requires Copied(d0, d, addrs, size0, buf, |buf|)
    ensures SameOutside(d0, d, addrs) && |d| == |d0|
    ensures forall b :: 0 <= b < |addrs| ==> addrs[b] < |d0|
    ensures Flat(d, addrs)[..size0 + |buf|] == Flat(d0, addrs)[..size0] + buf
  {
    assert buf[..|buf|] == buf;
  }

  method WriteChunks(part: Partition, file: File, buf: seq<byte>, allBlocks: seq<u32>, ghost addrs: seq<u32>)
    requires part.Ready()
    requires forall b :: 0 <= b < |addrs| ==> addrs[b] < |part.disk|
    requires Distinct(addrs) && |addrs| <= 140 && |allBlocks| == 140
    requires file.inode.size + |buf| < 512 * |addrs|
    requires forall b :: file.inode.size / 512 <= b < |addrs| ==> allBlocks[b] == addrs[b]
    modifies part`disk, file`pos, file.inode`size
    ensures part.Ready() && |part.disk| == |old(part.disk)|
    ensures file.inode.size == old(file.inode.size) + |buf| && file.pos == U32(file.inode.size - 1)
    ensures Flat(part.disk, addrs)[..file.inode.size] == Flat(old(part.disk), addrs)[..old(file.inode.size)] + buf
    ensures SameOutside(old(part.disk), part.disk, addrs)
  {
    hide *;
    ghost var d0, size0 := part.disk, file.inode.size;
    var bytesWritten, bytesLeft := 0, |buf|;
    var firstWriteBlock := true;
    file.pos := U32(file.inode.size - 1);
    CopiedNone(d0, addrs, size0, buf);
    while bytesWritten < |buf|
      invariant 0 <= bytesWritten <= |buf| && bytesLeft == |buf| - bytesWritten
      invariant file.inode.size == size0 + bytesWritten && file.pos == U32(file.inode.size - 1)
      invariant part.Ready() && |part.disk| == |d0|
      invariant !firstWriteBlock ==> bytesWritten == |buf| || file.inode.size % 512 == 0
      invariant Copied(d0, part.disk, addrs, size0, buf, bytesWritten)
    {
      var size: int := file.inode.size;
      var (secIdx, secOffBytes, chunkSize) := NextChunk(size, bytesLeft);
      var secLba := allBlocks[secIdx];
      var chunk := buf[bytesWritten..bytesWritten + chunkSize];
      ghost var d := part.disk;
      WriteChunk(part, secLba, secOffBytes, chunk, firstWriteBlock, addrs, secIdx);
      CopiedMore(d0, d, part.disk, addrs, size0, buf, bytesWritten, chunkSize);
      firstWriteBlock := false;
      file.inode.size := size + chunkSize;
      U32Add(size - 1, chunkSize);
      file.pos := U32(file.pos + chunkSize);
      bytesWritten := bytesWritten + chunkSize;
      bytesLeft := bytesLeft - chunkSize;
    }
    CopiedAll(d0, part.disk, addrs, size0, buf);
  }

  // ----- file_write -----

  /** `Halted`: an assertion of the source failed and the kernel stopped. */
  datatype WriteResult = TooBig | Halted | Written(count: nat)

  /** Blocks that an append of `count` bytes takes from the partition. */
  function BlocksNeeded(i: DiskInode, count: nat): int
    requires WellSized(i)
  {
    var will := (i.size + count) / 512 + 1;
    will - BlockCount(i) + if will > 12 && BlockCount(i) <= 12 then 1 else 0
  }

  /** The blocks a regular file owns. */
  ghost function FileBlocks(disk: seq<Sector>, i: DiskInode): set<int>
    requires WellSized(i) && i.size < 140 * 512
  {
    Blocks(i.sectors, Addrs(disk, i.sectors, BlockCount(i)))
  }

  /** A file whose inode number is `no` went from (d0, b0, i0) to (d1, b1, i1), gaining the bytes `buf`:
      its blocks stay and only free blocks are added, its inode window on disk is current, and neither the
      window of another inode nor any sector outside the bitmap and its own blocks changed. */
  ghost predicate Appended(sb: SuperBlock, no: nat, buf: seq<byte>, d0: seq<Sector>, b0: seq<byte>, i0: DiskInode,
      d1: seq<Sector>, b1: seq<byte>, i1: DiskInode) {
    && no < 4096 && Geometry(sb, |d0|) && |d1| == |d0|
    && RegularFile(d0, sb, b0, i0) && RegularFile(d1, sb, b1, i1) && i1.no == i0.no
    && Contents(d1, sb, b1, i1) == Contents(d0, sb, b0, i0) + buf
    && InodeWindow(d1, sb, no) == EncodeInode(i1)
    && (forall other: nat :: other < 4096 && other != no ==> InodeWindow(d1, sb, other) == InodeWindow(d0, sb, other))
    && FileBlocks(d0, i0) <= FileBlocks(d1, i1)
    && FileBlocks(d1, i1) - FileBlocks(d0, i0) <= FreeBlocks(sb, b0)
    && FreeBlocks(sb, b1) == FreeBlocks(sb, b0) - FileBlocks(d1, i1)
    && (forall l :: 0 <= l < |d0| && !InBlockBitmap(sb, l) && !InInodeTable(sb, l) && l !in FileBlocks(d1, i1) ==> d1[l] == d0[l])
  }

  /** The first write to a file gives it a block. */
  method EnsureFirstBlock(part: Partition, inode: Inode, ghost a: seq<u32>) returns (ghost a0: seq<u32>)
    requires part.Writable() && Maps(part.disk, part.sb, part.Bits(), inode.sectors, a)
    requires |a| == if inode.sectors[0] == 0 then 0 else inode.size / 512 + 1
    requires inode.sectors[0] == 0 ==> inode.size == 0 && UsableBlocks(part.sb, |part.disk|, part.Bits()) != {}
    modifies part`disk, part.blockBitmap.bits, inode`sectors
    ensures part.Writable() && |a0| == inode.size / 512 + 1
    ensures Extended(part.sb, old(part.disk), old(part.Bits()), old(inode.sectors), a, part.disk, part.Bits(), inode.sectors, a0)
    ensures |UsableBlocks(part.sb, |part.disk|, old(part.Bits()))| ==
      |UsableBlocks(part.sb, |part.disk|, part.Bits())| + (|a0| - |a|)
  {
    hide *;
    ghost var sb, d0, b0, s0 := part.sb, part.disk, part.Bits(), inode.sectors;
    part.WritableFacts();
    MapsSlots(d0, sb, b0, s0, a);
    ExtendedReflexive(sb, d0, b0, s0, a);
    a0 := a;
    if inode.sectors[0] == 0 {
      var got := part.AllocBlock();
      var blockLba := got.value;
      ExtendedDirect(sb, d0, b0, s0, a, d0, b0, s0, a, part.disk, part.Bits(), blockLba);
      inode.sectors := inode.sectors[0 := blockLba];
      a0 := a + [blockLba];
    }
  }

  /** No new block: the last one is all that will be written. */
  method CollectNone(part: Partition, inode: Inode, will: nat, ghost a0: seq<u32>) returns (allBlocks: seq<u32>)
    requires Maps(part.disk, part.sb, part.Bits(), inode.sectors, a0) && |a0| == will && 1 <= will <= 140 && part.Writable()
    ensures Extended(part.sb, part.disk, part.Bits(), inode.sectors, a0, part.disk, part.Bits(), inode.sectors, a0)
    ensures |allBlocks| == 140 && allBlocks[will - 1] == a0[will - 1]
  {
    hide *;
    part.WritableFacts();
    ExtendedReflexive(part.sb, part.disk, part.Bits(), inode.sectors, a0);
    MapsSlots(part.disk, part.sb, part.Bits(), inode.sectors, a0);
    if will <= 12 {
      allBlocks := Copies<u32>(0, 140);
      allBlocks := allBlocks[will - 1 := inode.sectors[will - 1]];
    } else {
      assert inode.sectors[12] != 0;
      TableRead(part.disk, part.sb, part.Bits(), inode.sectors, a0);
      allBlocks := ReadTable(part.disk, inode.sectors[12]);
    }
  }

  /** `all_blocks` collected: the slots from the last block already in use to the last one needed. */
  method CollectBlocks(part: Partition, inode: Inode, has: nat, will: nat, ghost a0: seq<u32>)
    returns (allBlocks: seq<u32>, ghost addrs: seq<u32>)
    requires part.Writable()
    requires Maps(part.disk, part.sb, part.Bits(), inode.sectors, a0) && |a0| == has
    requires 1 <= has <= will <= 140
    requires will - has + (if will > 12 && has <= 12 then 1 else 0) <= |UsableBlocks(part.sb, |part.disk|, part.Bits())|
    modifies part`disk, part.blockBitmap.bits, inode`sectors
    ensures part.Writable() && |addrs| == will
    ensures Extended(part.sb, old(part.disk), old(part.Bits()), old(inode.sectors), a0,
      part.disk, part.Bits(), inode.sectors, addrs)
    ensures |allBlocks| == 140 && forall b :: has - 1 <= b < will ==> allBlocks[b] == addrs[b]
  {
    hide *;
    var addBlocks := will - has;
    if addBlocks == 0 {
      addrs := a0;
      allBlocks := CollectNone(part, inode, will, a0);
    } else if will <= 12 {
      allBlocks, addrs := CollectDirect(part, inode, has, will, a0);
    } else if has <= 12 {
      allBlocks, addrs := CollectCross(part, inode, has, will, a0);
    } else {
      allBlocks, addrs := CollectTable(part, inode, has, will, a0);
    }
  }

  lemma ExtendedTwice(sb: SuperBlock, d0: seq<Sector>, b0: seq<byte>, s0: seq<u32>, a0: seq<u32>,
      d1: seq<Sector>, b1: seq<byte>, s1: seq<u32>, a1: seq<u32>, d2: seq<Sector>, b2: seq<byte>, s2: seq<u32>, a2: seq<u32>)
    requires Extended(sb, d0, b0, s0, a0, d1, b1, s1, a1) && Extended(sb, d1, b1, s1, a1, d2, b2, s2, a2)
    ensures Extended(sb, d0, b0, s0, a0, d2, b2, s2, a2)
  {
    forall x | x in Blocks(s2, a2) && x !in Blocks(s0, a0)
      ensures x in FreeBlocks(sb, b0)
    {
      if x !in Blocks(s1, a1) {
        assert x in FreeBlocks(sb, b1);
      }
    }
    forall l | 0 <= l < |d0| && !InBlockBitmap(sb, l) && (l !in Blocks(s2, a2) || l in a0)
      ensures d2[l] == d0[l]
    {
      if l in a0 {
        assert l in a1;
      }
    }
  }

  /** The map of a file survives writes outside its indirect table. */
  lemma MapsFrame(sb: SuperBlock, d: seq<Sector>, b: seq<byte>, s: seq<u32>, a: seq<u32>, d1: seq<Sector>)
    requires Maps(d, sb, b, s, a) && |d1| == |d|
    requires |a| > 12 ==> d1[s[12]] == d[s[12]]
    ensures Maps(d1, sb, b, s, a)
  {
    forall c | 0 <= c < |a|
      ensures TakenBlock(d1, sb, b, a[c])
    {
      assert TakenBlock(d, sb, b, a[c]);
    }
  }

  lemma MapsInDisk(disk: seq<Sector>, sb: SuperBlock, bits: seq<byte>, sectors: seq<u32>, addrs: seq<u32>)
    requires Maps(disk, sb, bits, sectors, addrs)
    ensures forall b :: 0 <= b < |addrs| ==> sb.dataStartLba <= addrs[b] < |disk|
    ensures |addrs| > 12 ==> sb.dataStartLba <= sectors[12] < |disk| && sectors[12] !in addrs
    ensures Distinct(addrs)
  {
    forall b | 0 <= b < |addrs|
      ensures sb.dataStartLba <= addrs[b] < |disk|
    {
      assert TakenBlock(disk, sb, bits, addrs[b]);
    }
  }

  /** A file with the blocks `a1`, of which the last may be filled only in part, is a regular file. */
  lemma MapsRegular(d: seq<Sector>, sb: SuperBlock, b: seq<byte>, i: DiskInode, a: seq<u32>)
    requires WellSized(i) && i.size < 140 * 512 && |a| == i.size / 512 + 1 && Maps(d, sb, b, i.sectors, a)
    ensures RegularFile(d, sb, b, i) && BlockCount(i) == |a| && Addrs(d, i.sectors, BlockCount(i)) == a
    ensures (forall c :: 0 <= c < |a| ==> a[c] < |d|) && Contents(d, sb, b, i) == Flat(d, a)[..i.size]
  {
    MapsAddrs(d, sb, b, i.sectors, a);
    MapsInDisk(d, sb, b, i.sectors, a);
  }

  /** Collecting keeps the old contents in place, so copying `buf` behind them appends it. */
  lemma AppendedContents(sb: SuperBlock, buf: seq<byte>, d0: seq<Sector>, b0: seq<byte>, i0: DiskInode,
      d1: seq<Sector>, b1: seq<byte>, i1: DiskInode, a1: seq<u32>, d2: seq<Sector>, d3: seq<Sector>)
    requires Geometry(sb, |d0|) && RegularFile(d0, sb, b0, i0)
    requires Extended(sb, d0, b0, i0.sectors, Addrs(d0, i0.sectors, BlockCount(i0)), d1, b1, i1.sectors, a1)
    requires i1.size == i0.size + |buf| < 140 * 512 && |a1| == i1.size / 512 + 1
    requires |d3| == |d2| == |d1| && forall l :: 0 <= l < |d2| && l !in a1 ==> d2[l] == d1[l]
    requires (forall b :: 0 <= b < |a1| ==> a1[b] < |d1|) && Flat(d2, a1)[..i1.size] == Flat(d1, a1)[..i0.size] + buf
    requires WellSized(i1) && forall l :: 0 <= l < |d2| && !InInodeTable(sb, l) ==> d3[l] == d2[l]
    ensures RegularFile(d3, sb, b1, i1) && Addrs(d3, i1.sectors, BlockCount(i1)) == a1
    ensures Contents(d3, sb, b1, i1) == Contents(d0, sb, b0, i0) + buf
  {
    hide *;
    RegularFacts(d0, sb, b0, i0);
    var a0 := Addrs(d0, i0.sectors, BlockCount(i0));
    MapsInDisk(d0, sb, b0, i0.sectors, a0);
    ExtendedFacts(sb, d0, b0, i0.sectors, a0, d1, b1, i1.sectors, a1);
    MapsInDisk(d1, sb, b1, i1.sectors, a1);
    OutsideTable(sb, d2, d3);
    MapsFrame(sb, d1, b1, i1.sectors, a1, d3);
    MapsRegular(d3, sb, b1, i1, a1);
    FlatFrame(d0, a0, d1, a1);
    FlatFrame(d2, a1, d3, a1);
    assert Flat(d1, a1)[..i0.size] == Flat(d1, a1)[..512 * |a0|][..i0.size];
    assert Flat(d3, a1)[..512 * |a1|] == Flat(d3, a1);
  }

  lemma OutsideTable(sb: SuperBlock, d: seq<Sector>, d1: seq<Sector>)
    requires |d1| == |d| && forall l :: 0 <= l < |d| && !InInodeTable(sb, l) ==> d1[l] == d[l]
    ensures forall l :: sb.dataStartLba <= l < |d| && 0 <= l ==> d1[l] == d[l]
  {
  }

  lemma RegularFacts(disk: seq<Sector>, sb: SuperBlock, bits: seq<byte>, i: DiskInode)
    requires RegularFile(disk, sb, bits, i)
    ensures WellSized(i) && |i.sectors| == 13 && i.size < 140 * 512
    ensures BlockCount(i) == if i.sectors[0] == 0 then 0 else i.size / 512 + 1
    ensures i.sectors[0] == 0 ==> i.size == 0
    ensures var a := Addrs(disk, i.sectors, BlockCount(i));
      && Maps(disk, sb, bits, i.sectors, a) && i.size <= 512 * |a|
      && Contents(disk, sb, bits, i) == Flat(disk, a)[..i.size]
  {
  }

  lemma ExtendedFacts(sb: SuperBlock, d0: seq<Sector>, b0: seq<byte>, s0: seq<u32>, a0: seq<u32>,
      d1: seq<Sector>, b1: seq<byte>, s1: seq<u32>, a1: seq<u32>)
    requires Geometry(sb, |d0|) && Extended(sb, d0, b0, s0, a0, d1, b1, s1, a1)
    requires forall b :: 0 <= b < |a0| ==> sb.dataStartLba <= a0[b] < |d0|
    ensures |d1| == |d0| && a0 <= a1 && Maps(d1, sb, b1, s1, a1)
    ensures forall b :: 0 <= b < |a0| ==> d1[a0[b]] == d0[a0[b]]
  {
  }

  /** Collect, copy and sync add up to an append. */
  lemma AppendCompletes(sb: SuperBlock, no: nat, buf: seq<byte>, d0: seq<Sector>, b0: seq<byte>, i0: DiskInode,
      d1: seq<Sector>, b1: seq<byte>, i1: DiskInode, a1: seq<u32>, d2: seq<Sector>, d3: seq<Sector>)
    requires Geometry(sb, |d0|) && RegularFile(d0, sb, b0, i0) && no < 4096
    requires Extended(sb, d0, b0, i0.sectors, Addrs(d0, i0.sectors, BlockCount(i0)), d1, b1, i1.sectors, a1)
    requires i1.no == i0.no && i1.size == i0.size + |buf| < 140 * 512 && |a1| == i1.size / 512 + 1
    requires SameOutside(d1, d2, a1)
    requires (forall b :: 0 <= b < |a1| ==> a1[b] < |d1|) && Flat(d2, a1)[..i1.size] == Flat(d1, a1)[..i0.size] + buf
    requires WellSized(i1) && WindowWritten(d2, d3, sb, no, EncodeInode(i1))
    ensures Appended(sb, no, buf, d0, b0, i0, d3, b1, i1)
    ensures BlockMirror(d3, sb, b1)
  {
    hide Maps, RegularFile, Contents, InodeWindow, Addrs, BlockCount, Flat, EncodeInode, Mirrored, FreeBlocks;
    var a0 := Addrs(d0, i0.sectors, BlockCount(i0));
    RegularFacts(d0, sb, b0, i0);
    MapsInDisk(d0, sb, b0, i0.sectors, a0);
    MapsInDisk(d1, sb, b1, i1.sectors, a1);
    AppendedContents(sb, buf, d0, b0, i0, d1, b1, i1, a1, d2, d3);
    AppendedWindows(sb, no, d0, d1, d2, d3, EncodeInode(i1));
    MirrorFrame(sb, d1, b1, d3);
  }

  lemma MirrorFrame(sb: SuperBlock, d: seq<Sector>, b: seq<byte>, d1: seq<Sector>)
    requires Geometry(sb, |d|) && BlockMirror(d, sb, b) && |d1| == |d|
    requires forall l :: 0 <= l < |d| && InBlockBitmap(sb, l) ==> d1[l] == d[l]
    ensures BlockMirror(d1, sb, b)
  {
    forall q: nat | q < sb.blockBitmapSects
      ensures SectorOf(b, q) == d1[sb.blockBitmapLba + q]
    {
      assert InBlockBitmap(sb, sb.blockBitmapLba + q);
    }
  }

  lemma AppendedWindows(sb: SuperBlock, no: nat, d0: seq<Sector>, d1: seq<Sector>, d2: seq<Sector>, d3: seq<Sector>, w: seq<byte>)
    requires Geometry(sb, |d0|) && |d1| == |d0| && |d2| == |d1|
    requires forall l :: 0 <= l < |d0| && InInodeTable(sb, l) ==> d1[l] == d0[l] && d2[l] == d1[l]
    requires WindowWritten(d2, d3, sb, no, w)
    ensures forall other: nat :: other < 4096 && other != no ==> InodeWindow(d3, sb, other) == InodeWindow(d0, sb, other)
  {
    forall other: nat | other < 4096 && other != no
      ensures InodeWindow(d2, sb, other) == InodeWindow(d0, sb, other)
    {
      WindowFrame(sb, d0, d2, other);
    }
  }

  lemma InodeDisk(inode: Inode)
    ensures inode.Disk() == DiskInode(inode.no, inode.size, inode.sectors)
    ensures WellSized(inode.Disk()) <==> |inode.sectors| == 13
  {
  }

  lemma NeededFacts(i: DiskInode, count: nat)
    requires WellSized(i)
    ensures var will := (i.size + count) / 512 + 1;
      BlocksNeeded(i, count) == will - BlockCount(i) + if will > 12 && BlockCount(i) <= 12 then 1 else 0
  {
  }

  /** `file_write`. Enough blocks must be free for a write that fits: the scan of the bitmap asserts otherwise. One that fills
      all 140 blocks halts in any case, before or after a first block was taken. */
  method FileWrite(part: Partition, file: File, buf: seq<byte>) returns (r: WriteResult)
    requires part.Writable() && file.inode.no < 4096
    requires RegularFile(part.disk, part.sb, part.Bits(), file.inode.Disk())
    requires |buf| < 0xC000_0000
    requires file.inode.size + |buf| < 140 * 512 ==>
      BlocksNeeded(file.inode.Disk(), |buf|) <= |UsableBlocks(part.sb, |part.disk|, part.Bits())|
    modifies part`disk, part.blockBitmap.bits, file`pos, file.inode`size, file.inode`sectors
    ensures r.TooBig? <==> old(file.inode.size) + |buf| > 140 * 512
    ensures r.Halted? <==> old(file.inode.size) + |buf| == 140 * 512
    ensures r.TooBig? ==> part.disk == old(part.disk) && part.Bits() == old(part.Bits())
    ensures r.TooBig? ==> file.inode.Disk() == old(file.inode.Disk()) && file.pos == old(file.pos)
    ensures r.Written? ==> r.count == |buf| && part.Writable() && file.pos == U32(file.inode.size - 1)
    ensures r.Written? ==> Appended(part.sb, file.inode.no, buf, old(part.disk), old(part.Bits()), old(file.inode.Disk()),
      part.disk, part.Bits(), file.inode.Disk())
  {
    hide *;
    part.WritableFacts();
    RegularFacts(part.disk, part.sb, part.Bits(), file.inode.Disk());
    var inode := file.inode;
    if inode.size + |buf| > 140 * 512 {
      return TooBig;
    }
    ghost var sb, d0, b0, i0 := part.sb, part.disk, part.Bits(), inode.Disk();
    InodeDisk(inode);
    var fileHasUsedBlocks := inode.size / 512 + 1;
    var fileWillUseBlocks := (inode.size + |buf|) / 512 + 1;
    if fileWillUseBlocks > 140 {
      return Halted;
    }
    NeededFacts(i0, |buf|);
    ghost var a := Addrs(d0, i0.sectors, BlockCount(i0));
    ghost var a0 := EnsureFirstBlock(part, inode, a);
    ghost var d1, b1, s1 := part.disk, part.Bits(), inode.sectors;
    ExtendedMirror(sb, d0, b0, i0.sectors, a, d1, b1, s1, a0);
    var allBlocks, addrs := CollectBlocks(part, inode, fileHasUsedBlocks, fileWillUseBlocks, a0);
    ghost var d2, b2, s2 := part.disk, part.Bits(), inode.sectors;
    part.WritableFacts();
    ExtendedTwice(sb, d0, b0, i0.sectors, a, d1, b1, s1, a0, d2, b2, s2, addrs);
    ExtendedMirror(sb, d0, b0, i0.sectors, a, d2, b2, s2, addrs);
    MapsInDisk(d2, sb, b2, s2, addrs);
    MapsSlots(d2, sb, b2, s2, addrs);
    WriteChunks(part, file, buf, allBlocks, addrs);
    ghost var d3 := part.disk;
    InodeSync(part, inode);
    InodeDisk(inode);
    AppendCompletes(sb, inode.no, buf, d0, b0, i0, d2, b2, inode.Disk(), addrs, d3, part.disk);
    part.StillWritable(d2);
    return Written(|buf|);
  }

  // ----- file_read and sys_lseek -----

  datatype ReadResult = EndOfFile | ReadHalted | Read(count: nat)

  /** The slots and the indirect table of an inode give the addresses `addrs`. */
  ghost predicate Readable(disk: seq<Sector>, sectors: seq<u32>, addrs: seq<u32>) {
    && Slots(sectors, addrs)
    && (|addrs| > 12 ==> 0 != sectors[12] < |disk| && TableIs(disk[sectors[12]], addrs))
    && forall b :: 0 <= b < |addrs| ==> addrs[b] < |disk|
  }

  lemma RegularReadable(disk: seq<Sector>, sb: SuperBlock, bits: seq<byte>, i: DiskInode)
    requires RegularFile(disk, sb, bits, i)
    ensures |i.sectors| == 13 && i.size < 140 * 512 && BlockCount(i) == if i.sectors[0] == 0 then 0 else i.size / 512 + 1
    ensures i.sectors[0] == 0 ==> i.size == 0
    ensures var a := Addrs(disk, i.sectors, BlockCount(i));
      && |a| == BlockCount(i) && i.size <= 512 * |a| && Readable(disk, i.sectors, a)
      && (forall b :: 0 <= b < |a| ==> a[b] < |disk|)
      && Contents(disk, sb, bits, i) == Flat(disk, a)[..i.size]
  {
    MapsInDisk(disk, sb, bits, i.sectors, Addrs(disk, i.sectors, BlockCount(i)));
  }

  /** `all_blocks` for the blocks `start` to `end`; the indirect table, when one of them needs it, exists. */
  method CollectForRead(disk: seq<Sector>, sectors: seq<u32>, start: nat, end: nat, ghost addrs: seq<u32>)
    returns (allBlocks: seq<u32>)
    requires Readable(disk, sectors, addrs) && start <= end < 139
    requires end < |addrs| || (start == end == 0 == |addrs|)
    ensures |allBlocks| == 140 && forall b :: start <= b <= end && b < |addrs| ==> allBlocks[b] == addrs[b]
  {
    allBlocks := Copies<u32>(0, 140);
    if start == end {
      if end < 12 {
        allBlocks := allBlocks[end := sectors[end]];
      } else {
        allBlocks := ReadTable(disk, sectors[12]);
      }
    } else if end < 12 || start < 12 {
      var blockIdx := start;
      var last := if end < 12 then end else 11;
      while blockIdx <= last
        invariant start <= blockIdx <= last + 1
        invariant |allBlocks| == 140 && forall b :: start <= b < blockIdx ==> allBlocks[b] == sectors[b]
      {
        allBlocks := allBlocks[blockIdx := sectors[blockIdx]];
        blockIdx := blockIdx + 1;
      }
      if end >= 12 {
        assert sectors[12] != 0;
        allBlocks := allBlocks[..12] + ReadTable(disk, sectors[12])[12..];
      }
    } else {
      assert sectors[12] != 0;
      allBlocks := ReadTable(disk, sectors[12]);
    }
  }

  lemma FlatSlice(disk: seq<Sector>, addrs: seq<u32>, q: nat, off: nat, n: nat)
    requires forall b :: 0 <= b < |addrs| ==> addrs[b] < |disk|
    requires q < |addrs| && off + n <= 512
    ensures disk[addrs[q]][off..off + n] == Flat(disk, addrs)[512 * q + off..512 * q + off + n]
  {
    FlatSector(disk, addrs, q);
    var flat := Flat(disk, addrs);
    assert SectorOf(flat, q)[off..off + n] == flat[512 * q + off..512 * q + off + n];
  }

  /** The copying loop of `file_read`. */
  method ReadChunks(disk: seq<Sector>, file: File, size: nat, allBlocks: seq<u32>, ghost addrs: seq<u32>)
    returns (data: seq<byte>)
    requires forall b :: 0 <= b < |addrs| ==> addrs[b] < |disk|
    requires |addrs| <= 140 && |allBlocks| == 140
    requires size > 0 ==> file.pos + size <= 512 * |addrs|
    requires file.pos + size < 0x1_0000_0000
    requires forall b :: file.pos / 512 <= b <= (file.pos + size) / 512 && b < |addrs| ==> allBlocks[b] == addrs[b]
    modifies file`pos
    ensures file.pos == old(file.pos) + size && |data| == size
    ensures size > 0 ==> data == Flat(disk, addrs)[old(file.pos)..file.pos]
  {
    hide *;
    ghost var pos0: int := file.pos;
    var bytesRead, sizeLeft := 0, size;
    data := [];
    while bytesRead < size
      invariant 0 <= bytesRead <= size && sizeLeft == size - bytesRead
      invariant file.pos == pos0 + bytesRead && |data| == bytesRead
      invariant size > 0 ==> data == Flat(disk, addrs)[pos0..pos0 + bytesRead]
    {
      var pos: int := file.pos;
      var (secIdx, secOffBytes, chunkSize) := NextChunk(pos, sizeLeft);
      InBlocks(pos0, pos, size, secIdx, secOffBytes, |addrs|);
      var ioBuf := disk[allBlocks[secIdx]];
      FlatSlice(disk, addrs, secIdx, secOffBytes, chunkSize);
      ghost var flat := Flat(disk, addrs);
      assert flat[pos0..pos] + flat[pos..pos + chunkSize] == flat[pos0..pos + chunkSize];
      data := data + ioBuf[secOffBytes..secOffBytes + chunkSize];
      file.pos := pos + chunkSize;
      bytesRead := bytesRead + chunkSize;
      sizeLeft := sizeLeft - chunkSize;
    }
  }

  /** A position inside the range read lies in one of its blocks. */
  lemma InBlocks(pos0: nat, pos: nat, size: nat, q: nat, off: nat, n: nat)
    requires pos0 <= pos < pos0 + size <= 512 * n && pos == 512 * q + off && off < 512
    ensures pos0 / 512 <= q <= (pos0 + size) / 512 && q < n
  {
  }

  function Min(a: int, b: int): int {
    if a < b then a else b
  }

  /** What `file_read` does for a position, a count and a file size: the end-of-file test, the clamping and the
      assertion on the block indices, in 32-bit arithmetic. */
  function ReadPlan(pos: u32, count: nat, fileSize: u32): (r: ReadResult)
    requires fileSize < 140 * 512 && count < 0xC000_0000 && (pos <= fileSize || pos == 0xFFFF_FFFF)
    ensures pos == 0xFFFF_FFFF ==> r.ReadHalted?
    ensures pos <= fileSize ==> (r.EndOfFile? <==> pos == fileSize && count > 0)
    ensures r.Read? ==> pos <= fileSize && r.count == Min(count, fileSize - pos) && (pos + r.count) / 512 < 139
    ensures pos <= fileSize && r.ReadHalted? ==> (pos + Min(count, fileSize - pos)) / 512 >= 139
  {
    var over := U32(pos + count) > fileSize;
    var size := if over then U32(fileSize - pos) else count;
    if over && size == 0 then EndOfFile
    else
      var blockReadStartIdx, blockReadEndIdx := pos / 512, U32(pos + size) / 512;
      if blockReadStartIdx < 139 && blockReadEndIdx < 139 then Read(size) else ReadHalted
  }

  /** `file_read`. The position is at most the size, or the all-ones word left by a write of no bytes to an empty file. */
  method FileRead(part: Partition, file: File, count: nat) returns (r: ReadResult, data: seq<byte>)
    requires RegularFile(part.disk, part.sb, part.Bits(), file.inode.Disk())
    requires file.pos <= file.inode.size || file.pos == 0xFFFF_FFFF
    requires count < 0xC000_0000
    modifies file`pos
    ensures r == ReadPlan(old(file.pos), count, file.inode.size)
    ensures file.pos == old(file.pos) + if r.Read? then r.count else 0
    ensures r.Read? ==> old(file.pos) <= file.pos <= file.inode.size
    ensures r.Read? ==> data == Contents(part.disk, part.sb, part.Bits(), file.inode.Disk())[old(file.pos)..file.pos]
  {
    hide *;
    InodeDisk(file.inode);
    RegularReadable(part.disk, part.sb, part.Bits(), file.inode.Disk());
    var inode := file.inode;
    ghost var addrs := Addrs(part.disk, inode.sectors, BlockCount(inode.Disk()));
    data := [];
    r := ReadPlan(file.pos, count, inode.size);
    if r.Read? {
      MinBound(count, inode.size - file.pos);
      var allBlocks := CollectForRead(part.disk, inode.sectors, file.pos / 512, (file.pos + r.count) / 512, addrs);
      data := ReadChunks(part.disk, file, r.count, allBlocks, addrs);
      TakeSlice(Flat(part.disk, addrs), inode.size, file.pos - r.count, file.pos);
    }
  }

  lemma TakeSlice(s: seq<byte>, n: nat, i: nat, j: nat)
    requires i <= j <= n <= |s|
    ensures s[..n][i..j] == s[i..j]
  {
  }

  lemma MinBound(a: int, b: int)
    ensures Min(a, b) <= a && Min(a, b) <= b && (Min(a, b) == a || Min(a, b) == b)
  {
  }
}
