/** kernel/memory.c, the upper level: pages cut into blocks of seven sizes, a free list for each size, and requests of whole
    pages. An arena is named by the number of its first page. */
module Heaps {
  import opened Lists
  import opened Wrappers
  import opened Paging

  const DESC_CNT: nat := 7
  const ARENA_SIZE: nat := 12

  /** The header at the beginning of an arena. `cnt` counts pages in a large arena and free blocks in another one. */
  datatype Arena = Arena(desc: Option<nat>, cnt: nat, large: bool)

  /** The headers and, for every size class, the addresses on its free list. */
  datatype Blocks = Blocks(arenas: map<nat, Arena>, free: seq<seq<nat>>)

  // ----- sizes and addresses -----

  /** The sizes `block_descs_init` gives the classes. */
  function BlockSize(c: nat): nat {
    if c == 0 then 16 else 2 * BlockSize(c - 1)
  }

  function BlocksPerArena(c: nat): nat {
    (4096 - ARENA_SIZE) / (if BlockSize(c) == 0 then 1 else BlockSize(c))
  }

  function Arena2Block(a: nat, c: nat, idx: nat): nat {
    4096 * a + ARENA_SIZE + idx * BlockSize(c)
  }

  function Block2Arena(b: nat): nat {
    b / 4096
  }

  lemma Classes(c: nat)
    requires c < DESC_CNT
    ensures BlockSize(0) == 16 && BlockSize(6) == 1024
    ensures c > 0 ==> BlockSize(c) == 2 * BlockSize(c - 1)
    ensures 0 < BlocksPerArena(c) <= 255 && BlocksPerArena(c) * BlockSize(c) + ARENA_SIZE <= 4096
    ensures BlocksPerArena(c) * BlockSize(c) + BlockSize(c) + ARENA_SIZE > 4096
    ensures 16 <= BlockSize(c) <= 1024
  {
    assert BlockSize(1) == 32 && BlockSize(2) == 64 && BlockSize(3) == 128;
    assert BlockSize(4) == 256 && BlockSize(5) == 512 && BlockSize(6) == 1024;
  }

  lemma Times(j: nat, i: nat, size: nat)
    requires j < i
    ensures j * size + size <= i * size
  {
    assert i * size == j * size + (i - j) * size;
    assert (i - j) * size == size + (i - j - 1) * size;
  }

  /** Blocks lie behind the header inside their arena's page, one behind the other, and lead back to the arena; one more would
      not fit. */
  lemma BlockPlaces(a: nat, c: nat, i: nat)
    requires c < DESC_CNT && i < BlocksPerArena(c)
    ensures Block2Arena(Arena2Block(a, c, i)) == a
    ensures 4096 * a + ARENA_SIZE <= Arena2Block(a, c, i) && Arena2Block(a, c, i) + BlockSize(c) <= 4096 * (a + 1)
    ensures forall j: nat :: j < i ==> Arena2Block(a, c, j) + BlockSize(c) <= Arena2Block(a, c, i)
    ensures forall j: nat :: j < i ==> Arena2Block(a, c, j) < Arena2Block(a, c, i)
    ensures Arena2Block(a, c, 0) == 4096 * a + ARENA_SIZE
    ensures Arena2Block(a, c, BlocksPerArena(c)) + BlockSize(c) > 4096 * (a + 1)
  {
    hide BlockSize, BlocksPerArena;
    Classes(c);
    var size := BlockSize(c);
    Times(i, BlocksPerArena(c), size);
    forall j: nat | j < i
      ensures Arena2Block(a, c, j) + size <= Arena2Block(a, c, i)
    {
      Times(j, i, size);
    }
  }

  /** The first `k` blocks of an arena. */
  ghost function BlocksOf(a: nat, c: nat, k: nat): set<nat> {
    if k == 0 then {} else BlocksOf(a, c, k - 1) + {Arena2Block(a, c, k - 1)}
  }

  lemma BlocksOfFacts(a: nat, c: nat, k: nat)
    requires c < DESC_CNT && k <= BlocksPerArena(c)
    ensures |BlocksOf(a, c, k)| == k
    ensures forall b :: b in BlocksOf(a, c, k) ==> Block2Arena(b) == a
    ensures forall b :: b in BlocksOf(a, c, k) ==> exists i: nat :: i < k && b == Arena2Block(a, c, i)
    ensures forall i: nat :: i < k ==> Arena2Block(a, c, i) in BlocksOf(a, c, k)
  {
    hide Arena2Block, Block2Arena, BlockSize, BlocksPerArena;
    if k > 0 {
      BlocksOfFacts(a, c, k - 1);
      BlockPlaces(a, c, k - 1);
    }
  }

  ghost function AllBlocks(a: nat, c: nat): set<nat> {
    BlocksOf(a, c, BlocksPerArena(c))
  }

  // ----- the invariant -----

  predicate IsSmall(h: Blocks, a: nat) {
    a in h.arenas && h.arenas[a].desc.Some?
  }

  predicate IsLarge(h: Blocks, a: nat) {
    a in h.arenas && h.arenas[a].desc.None? && h.arenas[a].large
  }

  function DescOf(h: Blocks, a: nat): nat {
    if IsSmall(h, a) then h.arenas[a].desc.value else 0
  }

  function FreeList(h: Blocks, c: nat): seq<nat> {
    if c < |h.free| then h.free[c] else []
  }

  /** The free blocks of an arena. */
  ghost function FreeOf(h: Blocks, a: nat): set<nat> {
    set b | b in FreeList(h, DescOf(h, a)) && Block2Arena(b) == a
  }

  /** An arena's `cnt` is the number of its blocks on the free list; some block is allocated, unless it is arena `full`. */
  ghost predicate ArenaOk(h: Blocks, a: nat, full: Option<nat>) {
    && (IsSmall(h, a) ==> DescOf(h, a) < DESC_CNT && !h.arenas[a].large && h.arenas[a].cnt == |FreeOf(h, a)|)
    && (IsSmall(h, a) && full != Some(a) ==> h.arenas[a].cnt < BlocksPerArena(DescOf(h, a)))
    && (a in h.arenas && !IsSmall(h, a) ==> IsLarge(h, a) && h.arenas[a].cnt > 0)
  }

  /** A free list holds blocks of its size of existing arenas, each once. */
  ghost predicate ListOk(h: Blocks, c: nat) {
    && Unique(FreeList(h, c))
    && forall b :: b in FreeList(h, c) ==> BlockOf(h, b) && DescOf(h, Block2Arena(b)) == c
  }

  /** `b` is a block of an existing arena of blocks. */
  ghost predicate BlockOf(h: Blocks, b: nat) {
    IsSmall(h, Block2Arena(b)) && b in AllBlocks(Block2Arena(b), DescOf(h, Block2Arena(b)))
  }

  function PagesIn(h: Blocks, a: nat): nat {
    if IsLarge(h, a) then h.arenas[a].cnt else 1
  }

  ghost predicate SpansOk(h: Blocks) {
    forall a: nat, e: nat :: a in h.arenas && e in h.arenas && a < e ==> a + PagesIn(h, a) <= e
  }

  ghost predicate BlocksOk(h: Blocks, full: Option<nat>) {
    && |h.free| == DESC_CNT
    && (forall a: nat :: ArenaOk(h, a, full))
    && (forall c: nat :: c < DESC_CNT ==> ListOk(h, c))
    && SpansOk(h)
  }

  /** `b` is an address handed out and not given back. */
  ghost predicate IsLive(h: Blocks, b: nat) {
    || (BlockOf(h, b) && b !in FreeList(h, DescOf(h, Block2Arena(b))))
    || (IsLarge(h, Block2Arena(b)) && b == 4096 * Block2Arena(b) + ARENA_SIZE)
  }

  /** How many bytes belong to a live address. */
  function SizeOf(h: Blocks, b: nat): nat {
    var a := Block2Arena(b);
    if IsSmall(h, a) then BlockSize(DescOf(h, a))
    else if 4096 * PagesIn(h, a) > ARENA_SIZE then 4096 * PagesIn(h, a) - ARENA_SIZE
    else 0
  }

  /** What was handed out never overlaps, never covers a header and stays inside the pages of its arena. */
  lemma LiveApart(h: Blocks, full: Option<nat>, b: nat, d: nat)
    requires BlocksOk(h, full) && IsLive(h, b) && IsLive(h, d) && b < d
    ensures b + SizeOf(h, b) <= d
    ensures Block2Arena(b) != Block2Arena(d) ==> b + SizeOf(h, b) <= 4096 * Block2Arena(d)
  {
    hide BlockSize, BlocksPerArena, Arena2Block;
    var a, e := Block2Arena(b), Block2Arena(d);
    assert ArenaOk(h, a, full);
    LivePlace(h, full, b);
    LivePlace(h, full, d);
    if a == e {
      assert IsSmall(h, a);
      var c := DescOf(h, a);
      BlocksOfFacts(a, c, BlocksPerArena(c));
      var i: nat :| i < BlocksPerArena(c) && b == Arena2Block(a, c, i);
      var j: nat :| j < BlocksPerArena(c) && d == Arena2Block(a, c, j);
      BlockPlaces(a, c, i);
      BlockPlaces(a, c, j);
    } else {
      assert a < e;
    }
  }

  lemma LivePlace(h: Blocks, full: Option<nat>, b: nat)
    requires BlocksOk(h, full) && IsLive(h, b)
    ensures 4096 * Block2Arena(b) + ARENA_SIZE <= b && b + SizeOf(h, b) <= 4096 * (Block2Arena(b) + PagesIn(h, Block2Arena(b)))
  {
    hide BlockSize, BlocksPerArena, Arena2Block;
    var a := Block2Arena(b);
    assert ArenaOk(h, a, full);
    if IsSmall(h, a) {
      var c := DescOf(h, a);
      BlocksOfFacts(a, c, BlocksPerArena(c));
      var i: nat :| i < BlocksPerArena(c) && b == Arena2Block(a, c, i);
      BlockPlaces(a, c, i);
    }
  }

  // ----- steps -----

  /** Every address but `b` is live after as before and keeps its size. */
  ghost predicate Elsewhere(h: Blocks, h1: Blocks, b: nat) {
    forall d: nat :: d != b ==> (IsLive(h1, d) <==> IsLive(h, d)) && (IsLive(h, d) ==> SizeOf(h1, d) == SizeOf(h, d))
  }

  ghost predicate Allocated(h: Blocks, h1: Blocks, b: nat) {
    !IsLive(h, b) && IsLive(h1, b) && Elsewhere(h, h1, b)
  }

  ghost predicate Released(h: Blocks, h1: Blocks, b: nat) {
    IsLive(h, b) && !IsLive(h1, b) && Elsewhere(h, h1, b)
  }

  ghost predicate SameLive(h: Blocks, h1: Blocks) {
    forall d: nat :: (IsLive(h1, d) <==> IsLive(h, d)) && (IsLive(h, d) ==> SizeOf(h1, d) == SizeOf(h, d))
  }

  /** The first block of list `c` is handed out. */
  function Popped(h: Blocks, c: nat): Blocks {
    if c < |h.free| && h.free[c] != [] && Block2Arena(h.free[c][0]) in h.arenas then
      var a := Block2Arena(h.free[c][0]);
      Blocks(h.arenas[a := h.arenas[a].(cnt := if h.arenas[a].cnt == 0 then 0 else h.arenas[a].cnt - 1)],
        h.free[c := h.free[c][1..]])
    else h
  }

  /** Block `b` goes to the end of its free list. */
  function Pushed(h: Blocks, b: nat): Blocks {
    var a := Block2Arena(b);
    var c := DescOf(h, a);
    if a in h.arenas && c < |h.free| then
      Blocks(h.arenas[a := h.arenas[a].(cnt := h.arenas[a].cnt + 1)], h.free[c := h.free[c] + [b]])
    else h
  }

  /** Besides the `cnt` of arena `a` and the place of its block `b` on list `c` everything is as before. */
  ghost predicate OneBlock(h: Blocks, h1: Blocks, a: nat, c: nat, b: nat) {
    && Block2Arena(b) == a && IsSmall(h, a) && DescOf(h, a) == c && c < |h.free|
    && h1.arenas.Keys == h.arenas.Keys && |h1.free| == |h.free|
    && (forall e :: e in h.arenas && e != a ==> h1.arenas[e] == h.arenas[e])
    && h1.arenas[a] == h.arenas[a].(cnt := h1.arenas[a].cnt)
    && (forall d: nat :: d != c ==> FreeList(h1, d) == FreeList(h, d))
    && (forall x :: x != b ==> (x in FreeList(h1, c) <==> x in FreeList(h, c)))
  }

  ghost predicate SameKinds(h: Blocks, h1: Blocks) {
    && (forall e: nat :: IsSmall(h1, e) == IsSmall(h, e) && IsLarge(h1, e) == IsLarge(h, e))
    && (forall e: nat :: DescOf(h1, e) == DescOf(h, e) && PagesIn(h1, e) == PagesIn(h, e))
    && h1.arenas.Keys == h.arenas.Keys
  }

  lemma OneBlockKinds(h: Blocks, h1: Blocks, a: nat, c: nat, b: nat)
    requires OneBlock(h, h1, a, c, b)
    ensures SameKinds(h, h1)
  {
  }

  lemma OneBlockElsewhere(h: Blocks, h1: Blocks, a: nat, c: nat, b: nat)
    requires OneBlock(h, h1, a, c, b) && SameKinds(h, h1)
    ensures Elsewhere(h, h1, b) && forall d: nat :: BlockOf(h1, d) <==> BlockOf(h, d)
  {
    hide BlockSize, AllBlocks, Block2Arena, PagesIn, IsSmall, IsLarge, DescOf;
    forall d: nat
      ensures BlockOf(h1, d) <==> BlockOf(h, d)
      ensures SizeOf(h1, d) == SizeOf(h, d)
      ensures d != b ==> (IsLive(h1, d) <==> IsLive(h, d))
    {
      var e := Block2Arena(d);
      assert IsSmall(h1, e) == IsSmall(h, e) && DescOf(h1, e) == DescOf(h, e);
      assert PagesIn(h1, e) == PagesIn(h, e);
    }
  }

  lemma OneBlockArenas(h: Blocks, h1: Blocks, a: nat, c: nat, b: nat, full: Option<nat>, full1: Option<nat>)
    requires OneBlock(h, h1, a, c, b) && SameKinds(h, h1) && BlocksOk(h, full)
    requires full == None || full == Some(a)
    ensures forall e: nat :: e != a ==> ArenaOk(h1, e, full1)
    ensures SpansOk(h1) && forall d: nat :: d < DESC_CNT && d != c ==> ListOk(h1, d)
    ensures FreeOf(h1, a) - {b} == FreeOf(h, a) - {b}
  {
    hide BlockSize, BlocksPerArena, AllBlocks, Block2Arena, PagesIn, FreeList, DescOf;
    OneBlockElsewhere(h, h1, a, c, b);
    forall e: nat | e != a
      ensures ArenaOk(h1, e, full1)
    {
      assert ArenaOk(h, e, full);
      assert FreeOf(h1, e) == FreeOf(h, e);
      assert IsSmall(h1, e) == IsSmall(h, e) && DescOf(h1, e) == DescOf(h, e);
      if e in h.arenas {
        assert h1.arenas[e] == h.arenas[e];
      }
    }
    forall d: nat | d < DESC_CNT && d != c
      ensures ListOk(h1, d)
    {
      assert ListOk(h, d);
      assert FreeList(h1, d) == FreeList(h, d);
    }
    forall e: nat, g: nat | e in h1.arenas && g in h1.arenas && e < g
      ensures e + PagesIn(h1, e) <= g
    {
      assert PagesIn(h1, e) == PagesIn(h, e);
    }
    assert DescOf(h1, a) == DescOf(h, a);
  }

  lemma LiveSmall(h: Blocks, b: nat)
    requires IsSmall(h, Block2Arena(b))
    ensures IsLive(h, b) <==> BlockOf(h, b) && b !in FreeList(h, DescOf(h, Block2Arena(b)))
    ensures SizeOf(h, b) == BlockSize(DescOf(h, Block2Arena(b)))
  {
  }

  /** An arena has no more free blocks than blocks. */
  lemma FreeBound(h: Blocks, a: nat, c: nat)
    requires c < DESC_CNT && ListOk(h, c) && DescOf(h, a) == c && IsSmall(h, a)
    ensures FreeOf(h, a) <= AllBlocks(a, c) && |FreeOf(h, a)| <= BlocksPerArena(c)
    ensures |FreeOf(h, a)| == BlocksPerArena(c) ==> FreeOf(h, a) == AllBlocks(a, c)
  {
    BlocksOfFacts(a, c, BlocksPerArena(c));
    Included(FreeOf(h, a), AllBlocks(a, c));
  }

  lemma Included(x: set<nat>, y: set<nat>)
    requires x <= y
    ensures |x| <= |y| && (|x| == |y| ==> x == y)
  {
    if x != y {
      assert |y - x| > 0;
    }
    assert y == x + (y - x);
  }

  lemma PoppedIs(h: Blocks, c: nat)
    requires c < |h.free| && h.free[c] != [] && IsSmall(h, Block2Arena(h.free[c][0]))
    requires DescOf(h, Block2Arena(h.free[c][0])) == c && h.arenas[Block2Arena(h.free[c][0])].cnt > 0
    ensures OneBlock(h, Popped(h, c), Block2Arena(h.free[c][0]), c, h.free[c][0]) || !Unique(h.free[c])
    ensures FreeList(Popped(h, c), c) == FreeList(h, c)[1..]
    ensures Popped(h, c).arenas[Block2Arena(h.free[c][0])].cnt == h.arenas[Block2Arena(h.free[c][0])].cnt - 1
  {
    hide Block2Arena;
  }

  lemma PushedIs(h: Blocks, b: nat)
    requires IsSmall(h, Block2Arena(b)) && DescOf(h, Block2Arena(b)) < |h.free|
    ensures var a := Block2Arena(b);
      var c := DescOf(h, a);
      && OneBlock(h, Pushed(h, b), a, c, b)
      && FreeList(Pushed(h, b), c) == FreeList(h, c) + [b]
      && Pushed(h, b).arenas[a].cnt == h.arenas[a].cnt + 1
  {
    hide Block2Arena;
  }

  /** What a step on one block does to its own list and arena. */
  lemma OneBlockOk(h: Blocks, h1: Blocks, a: nat, c: nat, b: nat, full: Option<nat>, full1: Option<nat>)
    requires OneBlock(h, h1, a, c, b) && BlocksOk(h, full) && c < DESC_CNT && BlockOf(h, b)
    requires full == None || full == Some(a)
    requires Unique(FreeList(h1, c)) && h1.arenas[a].cnt == |FreeOf(h1, a)|
    requires full1 == Some(a) || h1.arenas[a].cnt < BlocksPerArena(c)
    ensures BlocksOk(h1, full1) && SameKinds(h, h1) && Elsewhere(h, h1, b)
    ensures IsLive(h, b) <==> b !in FreeList(h, c)
    ensures IsLive(h1, b) <==> b !in FreeList(h1, c)
    ensures SizeOf(h1, b) == BlockSize(c)
  {
    hide BlockSize, BlocksPerArena, AllBlocks, Block2Arena, IsLarge, PagesIn, IsLive, SizeOf, Elsewhere, SpansOk, FreeOf,
      FreeList;
    OneBlockKinds(h, h1, a, c, b);
    OneBlockElsewhere(h, h1, a, c, b);
    OneBlockArenas(h, h1, a, c, b, full, full1);
    LiveSmall(h, b);
    LiveSmall(h1, b);
    assert ArenaOk(h, a, full) && ListOk(h, c);
    assert ArenaOk(h1, a, full1);
    assert ListOk(h1, c);
  }

  /** `list_pop` and the decrement of `cnt`. */
  lemma PopOk(h: Blocks, c: nat, full: Option<nat>)
    requires BlocksOk(h, full) && c < DESC_CNT && FreeList(h, c) != []
    requires full == None || full == Some(Block2Arena(FreeList(h, c)[0]))
    ensures BlocksOk(Popped(h, c), None) && Allocated(h, Popped(h, c), FreeList(h, c)[0])
    ensures SizeOf(Popped(h, c), FreeList(h, c)[0]) == BlockSize(c)
  {
    hide BlockSize, BlocksPerArena, AllBlocks, Block2Arena, IsLarge, PagesIn, IsLive, SizeOf, Elsewhere, SpansOk, Popped,
      OneBlock,
      SameKinds;
    var b, h1 := FreeList(h, c)[0], Popped(h, c);
    var a := Block2Arena(b);
    assert ListOk(h, c) && ArenaOk(h, a, full);
    assert BlockOf(h, b) && DescOf(h, a) == c;
    assert b in FreeOf(h, a);
    PoppedIs(h, c);
    OneBlockKinds(h, h1, a, c, b);
    OneBlockArenas(h, h1, a, c, b, full, None);
    assert b !in FreeList(h1, c);
    OneBlockDesc(h, h1, a);
    assert FreeOf(h1, a) == FreeOf(h, a) - {b};
    FreeBound(h, a, c);
    OneBlockOk(h, h1, a, c, b, full, None);
  }

  lemma OneBlockDesc(h: Blocks, h1: Blocks, a: nat)
    requires SameKinds(h, h1)
    ensures DescOf(h1, a) == DescOf(h, a) && (IsSmall(h1, a) <==> IsSmall(h, a))
  {
  }

  /** `list_append` of a live block and the increment of `cnt`. */
  lemma PushOk(h: Blocks, b: nat)
    requires BlocksOk(h, None) && IsLive(h, b) && IsSmall(h, Block2Arena(b))
    ensures BlocksOk(Pushed(h, b), Some(Block2Arena(b))) && Released(h, Pushed(h, b), b)
    ensures IsSmall(Pushed(h, b), Block2Arena(b)) && DescOf(Pushed(h, b), Block2Arena(b)) == DescOf(h, Block2Arena(b))
    ensures var a := Block2Arena(b);
      Pushed(h, b).arenas[a].cnt < BlocksPerArena(DescOf(h, a)) ==> BlocksOk(Pushed(h, b), None)
  {
    hide BlockSize, BlocksPerArena, AllBlocks, Block2Arena, IsLarge, PagesIn, IsLive, SizeOf, Elsewhere, SpansOk, Pushed,
      OneBlock,
      SameKinds;
    var h1 := Pushed(h, b);
    var a := Block2Arena(b);
    var c := DescOf(h, a);
    assert ArenaOk(h, a, None) && ListOk(h, c);
    LiveSmall(h, b);
    PushedIs(h, b);
    OneBlockKinds(h, h1, a, c, b);
    OneBlockArenas(h, h1, a, c, b, None, Some(a));
    OneBlockDesc(h, h1, a);
    assert b in FreeOf(h1, a) && b !in FreeOf(h, a);
    assert FreeOf(h1, a) == FreeOf(h, a) + {b};
    OneBlockOk(h, h1, a, c, b, None, Some(a));
    if h1.arenas[a].cnt < BlocksPerArena(c) {
      OneBlockOk(h, h1, a, c, b, None, None);
    }
  }

  // ----- arenas coming and going -----

  /** The first `k` blocks of an arena in order, as `sys_malloc` appends them. */
  function BlockSeq(a: nat, c: nat, k: nat): seq<nat> {
    if k == 0 then [] else BlockSeq(a, c, k - 1) + [Arena2Block(a, c, k - 1)]
  }

  lemma BlockSeqFacts(a: nat, c: nat, k: nat)
    requires c < DESC_CNT && k <= BlocksPerArena(c)
    ensures Unique(BlockSeq(a, c, k)) && |BlockSeq(a, c, k)| == k
    ensures forall b :: b in BlockSeq(a, c, k) <==> b in BlocksOf(a, c, k)
    ensures k < BlocksPerArena(c) ==> Arena2Block(a, c, k) !in BlockSeq(a, c, k)
  {
    hide Arena2Block, BlockSize, BlocksPerArena;
    BlocksOfFacts(a, c, k);
    if k < BlocksPerArena(c) {
      BlocksOfFacts(a, c, k + 1);
    }
    if k > 0 {
      BlockSeqFacts(a, c, k - 1);
    }
  }

  /** The list after the loop of `sys_free` has removed the first `k` blocks of an arena. */
  function RemovedBlocks(q: seq<nat>, a: nat, c: nat, k: nat): seq<nat> {
    if k == 0 then q else Without(RemovedBlocks(q, a, c, k - 1), Arena2Block(a, c, k - 1))
  }

  lemma RemovedBlocksFacts(q: seq<nat>, a: nat, c: nat, k: nat)
    requires c < DESC_CNT && k <= BlocksPerArena(c) && Unique(q)
    ensures Unique(RemovedBlocks(q, a, c, k))
    ensures forall b :: b in RemovedBlocks(q, a, c, k) <==> b in q && b !in BlocksOf(a, c, k)
    ensures k < BlocksPerArena(c) && AllBlocks(a, c) <= (set b | b in q) ==> Arena2Block(a, c, k) in RemovedBlocks(q, a, c, k)
  {
    hide Arena2Block, BlockSize, BlocksPerArena, Unique;
    if k < BlocksPerArena(c) {
      BlockSeqFacts(a, c, k);
      BlocksOfFacts(a, c, BlocksPerArena(c));
    }
    if k > 0 {
      RemovedBlocksFacts(q, a, c, k - 1);
    }
  }

  /** Besides arena `a` and its blocks everything is as before. */
  ghost predicate OneArena(h: Blocks, h1: Blocks, a: nat) {
    && |h1.free| == |h.free|
    && (forall e: nat :: e != a ==> (e in h1.arenas <==> e in h.arenas))
    && (forall e: nat :: e != a && e in h.arenas ==> h1.arenas[e] == h.arenas[e])
    && (forall d: nat, x: nat :: Block2Arena(x) != a ==> (x in FreeList(h1, d) <==> x in FreeList(h, d)))
  }

  lemma OneArenaFacts(h: Blocks, h1: Blocks, a: nat)
    requires OneArena(h, h1, a)
    ensures forall e: nat :: e != a ==> IsSmall(h1, e) == IsSmall(h, e) && IsLarge(h1, e) == IsLarge(h, e)
    ensures forall e: nat :: e != a ==> DescOf(h1, e) == DescOf(h, e) && PagesIn(h1, e) == PagesIn(h, e)
    ensures forall e: nat :: e != a ==> FreeOf(h1, e) == FreeOf(h, e)
  {
    hide Block2Arena, FreeList;
    forall e: nat | e != a
      ensures FreeOf(h1, e) == FreeOf(h, e)
    {
      assert DescOf(h1, e) == DescOf(h, e);
    }
  }

  lemma OneArenaLive(h: Blocks, h1: Blocks, a: nat)
    requires OneArena(h, h1, a)
    ensures forall d: nat :: Block2Arena(d) != a ==> (IsLive(h1, d) <==> IsLive(h, d)) && SizeOf(h1, d) == SizeOf(h, d)
    ensures forall d: nat :: Block2Arena(d) != a ==> (BlockOf(h1, d) <==> BlockOf(h, d))
  {
    hide BlockSize, AllBlocks, Block2Arena, PagesIn, IsSmall, IsLarge, DescOf, FreeList;
    OneArenaFacts(h, h1, a);
    forall d: nat | Block2Arena(d) != a
      ensures BlockOf(h1, d) <==> BlockOf(h, d)
      ensures SizeOf(h1, d) == SizeOf(h, d)
      ensures IsLive(h1, d) <==> IsLive(h, d)
    {
      var e := Block2Arena(d);
      assert IsSmall(h1, e) == IsSmall(h, e) && DescOf(h1, e) == DescOf(h, e);
      assert PagesIn(h1, e) == PagesIn(h, e);
    }
  }

  /** No arena's pages meet `n` pages from `a` on. */
  ghost predicate SpanFree(h: Blocks, a: nat, n: nat) {
    forall e: nat :: e in h.arenas && e != a ==> e + PagesIn(h, e) <= a || a + n <= e
  }

  /** The invariant holds of the whole if it holds of the one arena and of the order of the lists. */
  lemma OneArenaOk(h: Blocks, h1: Blocks, a: nat, full: Option<nat>, full1: Option<nat>)
    requires OneArena(h, h1, a) && BlocksOk(h, full)
    requires full == None || full == Some(a)
    requires forall d: nat :: d < DESC_CNT ==> Unique(FreeList(h1, d))
    requires ArenaOk(h1, a, full1) && (a in h1.arenas ==> SpanFree(h, a, PagesIn(h1, a)))
    requires forall d: nat, x: nat :: d < DESC_CNT && x in FreeList(h1, d) && Block2Arena(x) == a ==>
      BlockOf(h1, x) && DescOf(h1, a) == d
    ensures BlocksOk(h1, full1)
    ensures forall d: nat :: Block2Arena(d) != a ==> (IsLive(h1, d) <==> IsLive(h, d)) && SizeOf(h1, d) == SizeOf(h, d)
  {
    hide BlockSize, BlocksPerArena, AllBlocks, Block2Arena, PagesIn, DescOf, FreeList, Unique, FreeOf, IsLive, SizeOf, BlockOf;
    OneArenaFacts(h, h1, a);
    OneArenaLive(h, h1, a);
    forall e: nat
      ensures ArenaOk(h1, e, full1)
    {
      assert ArenaOk(h, e, full);
      if e != a {
        assert FreeOf(h1, e) == FreeOf(h, e) && DescOf(h1, e) == DescOf(h, e);
        assert IsSmall(h1, e) == IsSmall(h, e);
      }
    }
    forall d: nat | d < DESC_CNT
      ensures ListOk(h1, d)
    {
      assert ListOk(h, d);
      forall x | x in FreeList(h1, d)
        ensures BlockOf(h1, x) && DescOf(h1, Block2Arena(x)) == d
      {
        if Block2Arena(x) != a {
          assert x in FreeList(h, d);
          assert DescOf(h1, Block2Arena(x)) == DescOf(h, Block2Arena(x));
        }
      }
    }
    forall e: nat, g: nat | e in h1.arenas && g in h1.arenas && e < g
      ensures e + PagesIn(h1, e) <= g
    {
      assert e != a ==> PagesIn(h1, e) == PagesIn(h, e);
    }
  }

  /** Page `a` becomes an arena of class `c`, all its blocks free. */
  function NewArena(h: Blocks, a: nat, c: nat): Blocks {
    Blocks(h.arenas[a := Arena(Some(c), BlocksPerArena(c), false)],
      if c < |h.free| then h.free[c := h.free[c] + BlockSeq(a, c, BlocksPerArena(c))] else h.free)
  }

  /** Arena `a` of class `c` goes, with its blocks. */
  function WithoutArena(h: Blocks, a: nat, c: nat): Blocks {
    Blocks(h.arenas - {a}, if c < |h.free| then h.free[c := RemovedBlocks(h.free[c], a, c, BlocksPerArena(c))] else h.free)
  }

  function NewLarge(h: Blocks, a: nat, n: nat): Blocks {
    h.(arenas := h.arenas[a := Arena(None, n, true)])
  }

  function WithoutLarge(h: Blocks, a: nat): Blocks {
    h.(arenas := h.arenas - {a})
  }

  lemma NewArenaIs(h: Blocks, a: nat, c: nat)
    requires c < DESC_CNT && |h.free| == DESC_CNT
    ensures var h1 := NewArena(h, a, c);
      && OneArena(h, h1, a) && IsSmall(h1, a) && DescOf(h1, a) == c && !h1.arenas[a].large && PagesIn(h1, a) == 1
      && h1.arenas[a].cnt == BlocksPerArena(c) && FreeList(h1, c) == FreeList(h, c) + BlockSeq(a, c, BlocksPerArena(c))
      && forall d: nat :: d != c ==> FreeList(h1, d) == FreeList(h, d)
  {
    hide Block2Arena, BlocksPerArena, BlockSeq, Unique, BlocksOf, Arena2Block;
    BlockSeqFacts(a, c, BlocksPerArena(c));
    BlocksOfFacts(a, c, BlocksPerArena(c));
  }

  lemma NewArenaOk(h: Blocks, a: nat, c: nat)
    requires BlocksOk(h, None) && c < DESC_CNT && FreeList(h, c) == [] && a !in h.arenas && SpanFree(h, a, 1)
    ensures BlocksOk(NewArena(h, a, c), Some(a)) && SameLive(h, NewArena(h, a, c))
    ensures FreeList(NewArena(h, a, c), c) == BlockSeq(a, c, BlocksPerArena(c)) && BlocksPerArena(c) > 0
  {
    hide BlockSize, BlocksPerArena, Block2Arena, PagesIn, DescOf, FreeList, BlockSeq, NewArena, OneArena, Unique, SpanFree,
      SpansOk,
      IsLarge, SizeOf;
    var h1 := NewArena(h, a, c);
    NewArenaIs(h, a, c);
    BlockSeqFacts(a, c, BlocksPerArena(c));
    BlocksOfFacts(a, c, BlocksPerArena(c));
    Classes(c);
    assert FreeList(h, c) + BlockSeq(a, c, BlocksPerArena(c)) == BlockSeq(a, c, BlocksPerArena(c));
    assert FreeOf(h1, a) == AllBlocks(a, c);
    assert ArenaOk(h1, a, Some(a));
    forall d: nat | d < DESC_CNT
      ensures Unique(FreeList(h1, d))
      ensures forall x: nat :: x in FreeList(h1, d) && Block2Arena(x) == a ==> BlockOf(h1, x) && d == c
    {
      assert ListOk(h, d);
    }
    OneArenaOk(h, h1, a, None, Some(a));
    NotLive(h, a);
    AllFree(h1, a);
  }

  /** Nothing is live at a page that is no arena, and in an arena whose blocks are all free. */
  lemma NotLive(h: Blocks, a: nat)
    requires a !in h.arenas
    ensures forall d: nat :: Block2Arena(d) == a ==> !IsLive(h, d)
  {
  }

  lemma AllFree(h: Blocks, a: nat)
    requires IsSmall(h, a) && FreeOf(h, a) == AllBlocks(a, DescOf(h, a))
    ensures forall d: nat :: Block2Arena(d) == a ==> !IsLive(h, d)
  {
    hide Block2Arena, AllBlocks;
    forall d: nat | Block2Arena(d) == a
      ensures !IsLive(h, d)
    {
      assert d in FreeOf(h, a) <==> d in FreeList(h, DescOf(h, a));
    }
  }

  lemma WithoutArenaIs(h: Blocks, a: nat, c: nat)
    requires c < DESC_CNT && |h.free| == DESC_CNT && Unique(h.free[c])
    ensures var h1 := WithoutArena(h, a, c);
      && OneArena(h, h1, a) && a !in h1.arenas
      && Unique(FreeList(h1, c)) && (forall b :: b in FreeList(h1, c) <==> b in FreeList(h, c) && b !in AllBlocks(a, c))
      && forall d: nat :: d != c ==> FreeList(h1, d) == FreeList(h, d)
  {
    hide Block2Arena, BlocksPerArena, Unique;
    BlocksOfFacts(a, c, BlocksPerArena(c));
    RemovedBlocksFacts(h.free[c], a, c, BlocksPerArena(c));
  }

  /** The arena `sys_free` gives back: all its blocks are on the list, so the assertions of the loop hold, and no live block
      goes with it. */
  lemma WithoutArenaOk(h: Blocks, a: nat)
    requires BlocksOk(h, Some(a)) && IsSmall(h, a) && h.arenas[a].cnt == BlocksPerArena(DescOf(h, a))
    ensures BlocksOk(WithoutArena(h, a, DescOf(h, a)), None) && SameLive(h, WithoutArena(h, a, DescOf(h, a)))
    ensures AllBlocks(a, DescOf(h, a)) <= (set b | b in FreeList(h, DescOf(h, a)))
  {
    hide BlockSize, BlocksPerArena, Block2Arena, PagesIn, FreeList, WithoutArena, OneArena, Unique, SpanFree, SpansOk,
      IsLarge, SizeOf,
      AllBlocks;
    var c := DescOf(h, a);
    var h1 := WithoutArena(h, a, c);
    assert ArenaOk(h, a, Some(a)) && ListOk(h, c);
    FreeListIs(h, c);
    WithoutArenaIs(h, a, c);
    FreeBound(h, a, c);
    forall d: nat | d < DESC_CNT
      ensures Unique(FreeList(h1, d))
      ensures forall x: nat :: x in FreeList(h1, d) ==> Block2Arena(x) != a
    {
      assert ListOk(h, d);
    }
    OneArenaOk(h, h1, a, Some(a), None);
    NotLive(h1, a);
    AllFree(h, a);
  }

  lemma FreeListIs(h: Blocks, c: nat)
    ensures c < |h.free| ==> FreeList(h, c) == h.free[c]
  {
  }

  /** A large arena is live at the address behind its header. */
  lemma LargeLive(h: Blocks, a: nat)
    requires IsLarge(h, a)
    ensures forall d: nat :: Block2Arena(d) == a ==> (IsLive(h, d) <==> d == 4096 * a + ARENA_SIZE)
    ensures Block2Arena(4096 * a + ARENA_SIZE) == a
    ensures h.arenas[a].cnt > 0 ==> SizeOf(h, 4096 * a + ARENA_SIZE) == 4096 * h.arenas[a].cnt - ARENA_SIZE
  {
  }

  lemma NewLargeOk(h: Blocks, a: nat, n: nat)
    requires BlocksOk(h, None) && n > 0 && a !in h.arenas && SpanFree(h, a, n)
    ensures BlocksOk(NewLarge(h, a, n), None) && Allocated(h, NewLarge(h, a, n), 4096 * a + ARENA_SIZE)
    ensures SizeOf(NewLarge(h, a, n), 4096 * a + ARENA_SIZE) == 4096 * n - ARENA_SIZE
  {
    hide BlocksPerArena, BlockSize, Block2Arena, Unique, SpanFree, SpansOk, AllBlocks, SizeOf, IsLive;
    var h1 := NewLarge(h, a, n);
    assert OneArena(h, h1, a);
    forall d: nat | d < DESC_CNT
      ensures Unique(FreeList(h1, d))
      ensures forall x: nat :: x in FreeList(h1, d) ==> Block2Arena(x) != a
    {
      assert ListOk(h, d);
    }
    assert ArenaOk(h1, a, None);
    OneArenaOk(h, h1, a, None, None);
    NotLive(h, a);
    LargeLive(h1, a);
  }

  lemma WithoutLargeOk(h: Blocks, a: nat)
    requires BlocksOk(h, None) && IsLarge(h, a)
    ensures BlocksOk(WithoutLarge(h, a), None) && Released(h, WithoutLarge(h, a), 4096 * a + ARENA_SIZE)
  {
    hide BlocksPerArena, BlockSize, Block2Arena, Unique, SpanFree, SpansOk, AllBlocks, SizeOf, IsLive;
    var h1 := WithoutLarge(h, a);
    assert OneArena(h, h1, a);
    forall d: nat | d < DESC_CNT
      ensures Unique(FreeList(h1, d))
      ensures forall x: nat :: x in FreeList(h1, d) ==> Block2Arena(x) != a
    {
      assert ListOk(h, d);
    }
    OneArenaOk(h, h1, a, None, None);
    NotLive(h1, a);
    LargeLive(h, a);
  }

  /** An arena exists exactly as long as something in it is live. */
  lemma ArenaHasLive(h: Blocks, a: nat)
    requires BlocksOk(h, None)
    ensures a in h.arenas <==> exists d: nat :: Block2Arena(d) == a && IsLive(h, d)
  {
    hide BlocksPerArena, BlockSize, Block2Arena, Unique, SpansOk, AllBlocks, SizeOf, IsLive;
    assert ArenaOk(h, a, None);
    if a !in h.arenas {
      NotLive(h, a);
    } else if IsSmall(h, a) {
      var c := DescOf(h, a);
      assert ListOk(h, c);
      FreeBound(h, a, c);
      BlocksOfFacts(a, c, BlocksPerArena(c));
      AllBlocksIs(a, c);
      assert FreeOf(h, a) != AllBlocks(a, c);
      var d :| d in AllBlocks(a, c) && d !in FreeOf(h, a);
      LiveSmall(h, d);
    } else {
      LargeLive(h, a);
    }
  }

  lemma AllBlocksIs(a: nat, c: nat)
    ensures AllBlocks(a, c) == BlocksOf(a, c, BlocksPerArena(c))
  {
  }

  // ----- arenas and pages -----

  /** Every page of every arena is mapped and comes from the heap's pool. */
  ghost predicate Backed(lay: Layout, pf: PoolFlags, m: Mem, h: Blocks) {
    forall a: nat, v: int :: a in h.arenas && v in Range(a, PagesIn(h, a)) ==> Mapped(m, v) && lay.PageOf(pf, v)
  }

  /** New pages belong to no arena. */
  lemma NewPages(lay: Layout, pf: PoolFlags, m: Mem, h: Blocks, a: nat, n: nat)
    requires MemOk(lay, m, {}) && Backed(lay, pf, m, h) && Range(a, n) <= m.pages && n > 0 && BlocksOk(h, None)
    ensures a !in h.arenas && SpanFree(h, a, n)
  {
    hide TableOk, FramesOk, BlocksPerArena, FreeOf;
    forall e: nat, v: int | e in h.arenas && v in Range(e, PagesIn(h, e))
      ensures v !in Range(a, n)
    {
      assert Mapped(m, v);
    }
    assert a as int in Range(a, n);
    forall e: nat | e in h.arenas
      ensures e != a && (e + PagesIn(h, e) <= a || a + n <= e)
    {
      assert ArenaOk(h, e, None);
      assert e as int in Range(e, PagesIn(h, e));
      assert e <= a < e + PagesIn(h, e) ==> a as int in Range(e, PagesIn(h, e));
      assert a <= e < a + n ==> e as int in Range(a, n);
    }
  }

  /** Of arenas that are in both states the pages are the same. */
  ghost predicate SamePages(h: Blocks, h1: Blocks, a: nat) {
    forall e: nat :: e in h1.arenas && e != a ==> e in h.arenas && PagesIn(h1, e) == PagesIn(h, e)
  }

  lemma BackedMore(lay: Layout, pf: PoolFlags, m: Mem, m1: Mem, h: Blocks, h1: Blocks, a: nat, n: nat)
    requires Backed(lay, pf, m, h) && MapsMore(m, m1, Range(a, n)) && SamePages(h, h1, a) && PagesIn(h1, a) == n
    requires forall v :: v in Range(a, n) ==> lay.PageOf(pf, v)
    ensures Backed(lay, pf, m1, h1)
  {
    hide Layout.PageOf, Range;
  }

  lemma BackedSame(lay: Layout, pf: PoolFlags, m: Mem, h: Blocks, h1: Blocks)
    requires Backed(lay, pf, m, h) && SameKinds(h, h1)
    ensures Backed(lay, pf, m, h1)
  {
    hide Layout.PageOf, Range;
  }

  lemma BackedLess(lay: Layout, pf: PoolFlags, m: Mem, m1: Mem, h: Blocks, h1: Blocks, a: nat)
    requires Backed(lay, pf, m, h) && SpansOk(h) && a in h.arenas && MapsLess(m, m1, Range(a, PagesIn(h, a)))
    requires SamePages(h, h1, a) && a !in h1.arenas
    ensures Backed(lay, pf, m1, h1)
  {
    hide Layout.PageOf, PagesIn, Mapped, UsedFor;
    forall e: nat, v: int | e in h1.arenas && v in Range(e, PagesIn(h1, e))
      ensures Mapped(m1, v) && lay.PageOf(pf, v)
    {
      assert PagesIn(h1, e) == PagesIn(h, e);
      assert Mapped(m, v);
      assert v !in Range(a, PagesIn(h, a));
    }
  }

  /** Pages that are not of this pool stay mapped where they were. */
  ghost predicate OthersKept(lay: Layout, pf: PoolFlags, m: Mem, m1: Mem) {
    forall w: nat :: Mapped(m, w) && !lay.PageOf(pf, w) ==> Mapped(m1, w) && m1.pte[w] == m.pte[w]
  }

  lemma KeptSelf(lay: Layout, pf: PoolFlags, m: Mem)
    ensures OthersKept(lay, pf, m, m)
  {
    hide Layout.PageOf;
    assert forall w: nat :: Mapped(m, w) ==> w in m.pte;
  }

  lemma KeptMore(lay: Layout, pf: PoolFlags, m: Mem, m1: Mem, s: set<int>)
    requires MapsMore(m, m1, s)
    ensures OthersKept(lay, pf, m, m1)
  {
    hide Layout.PageOf;
  }

  lemma KeptLess(lay: Layout, pf: PoolFlags, m: Mem, m1: Mem, s: set<int>)
    requires MapsLess(m, m1, s) && forall v :: v in s ==> lay.PageOf(pf, v)
    ensures OthersKept(lay, pf, m, m1)
  {
    hide Layout.PageOf;
    forall w: nat | Mapped(m, w) && !lay.PageOf(pf, w)
      ensures Mapped(m1, w) && m1.pte[w] == m.pte[w]
    {
      assert w as int !in s;
      assert Mapped(m1, w);
    }
  }

  /** The kernel's heap and that of a process do not touch each other's pages: what one does leaves the other backed. */
  lemma HeapsApart(lay: Layout, pf: PoolFlags, other: PoolFlags, m: Mem, m1: Mem, h: Blocks)
    requires OthersKept(lay, pf, m, m1) && Backed(lay, other, m, h) && pf != other && MemOk(lay, m, {})
    ensures Backed(lay, other, m1, h)
  {
    hide MemOk;
    forall a: nat, v: int | a in h.arenas && v in Range(a, PagesIn(h, a))
      ensures Mapped(m1, v)
    {
      assert Mapped(m, v) && lay.PageOf(other, v);
      PagesApart(lay, m, pf, other, v);
    }
  }

  lemma PagesApart(lay: Layout, m: Mem, pf: PoolFlags, other: PoolFlags, v: int)
    requires MemOk(lay, m, {}) && pf != other && lay.PageOf(other, v)
    ensures !lay.PageOf(pf, v)
  {
  }

  // ----- sys_malloc and sys_free -----

  /** What a request comes to. `Halted`: the kernel stopped at an assertion. */
  datatype Grant = NoMemory | Stopped | Ptr(addr: nat)

  /** The pages a request takes when no free block serves it. */
  function PagesFor(size: nat): (n: nat)
    ensures size > 0 ==> n > 0
    ensures size > 1024 ==> 4096 * (n - 1) < size + ARENA_SIZE <= 4096 * n
    ensures size <= 1024 ==> n == 1
  {
    if size > 1024 then (size + ARENA_SIZE + 4095) / 4096 else 1
  }

  /** Class `c` serves a request of `size` bytes: its blocks are the smallest that do. */
  predicate Serves(c: nat, size: nat) {
    c < DESC_CNT && size <= BlockSize(c) && (c > 0 ==> size > BlockSize(c - 1))
  }

  lemma {:induction false} SizesGrow(c: nat, d: nat)
    requires c < d
    ensures BlockSize(c) < BlockSize(d) && BlockSize(c) <= BlockSize(d - 1)
  {
    if c < d - 1 {
      SizesGrow(c, d - 1);
    }
    SizePositive(c);
  }

  lemma {:induction false} SizePositive(c: nat)
    ensures BlockSize(c) > 0
  {
    if c > 0 {
      SizePositive(c - 1);
    }
  }

  lemma OneServes(c: nat, d: nat, size: nat)
    requires Serves(c, size) && Serves(d, size)
    ensures c == d && size <= 1024
  {
    hide BlockSize;
    Classes(c);
    if c < d {
      SizesGrow(c, d);
    }
    if d < c {
      SizesGrow(d, c);
    }
  }

  /** Some free block serves the request. */
  ghost predicate HasBlock(h: Blocks, size: nat) {
    exists c: nat :: Serves(c, size) && FreeList(h, c) != []
  }

  lemma HasBlockAt(h: Blocks, c: nat, size: nat)
    requires Serves(c, size)
    ensures HasBlock(h, size) <==> FreeList(h, c) != []
  {
    hide Serves, FreeList;
    if HasBlock(h, size) {
      var d: nat :| Serves(d, size) && FreeList(h, d) != [];
      OneServes(c, d, size);
    }
  }

  lemma LargeHasNone(h: Blocks, size: nat)
    requires size > 1024
    ensures !HasBlock(h, size) && forall c: nat :: !Serves(c, size)
  {
    forall c: nat
      ensures !Serves(c, size)
    {
      if Serves(c, size) {
        OneServes(c, c, size);
      }
    }
  }

  /** `q` is all blocks of arena `a` in the order of their addresses. */
  predicate AllInOrder(q: seq<nat>, a: nat, c: nat) {
    |q| == BlocksPerArena(c) && forall i :: 0 <= i < |q| ==> q[i] == Arena2Block(a, c, i)
  }

  /** `b` comes from the list of class `c`: it was first on it or, if the list was empty, is the first block of a new arena
      whose other blocks make the list now. */
  ghost predicate FromClass(h: Blocks, h1: Blocks, c: nat, b: nat) {
    var a := Block2Arena(b);
    && (forall d: nat :: d != c ==> FreeList(h1, d) == FreeList(h, d))
    && (FreeList(h, c) != [] ==> FreeList(h, c) == [b] + FreeList(h1, c) && a in h.arenas)
    && (FreeList(h, c) == [] ==> AllInOrder([b] + FreeList(h1, c), a, c) && a !in h.arenas && PagesIn(h1, a) == 1)
  }

  /** The memory has given exactly the `n` pages from `a` on, the lowest there were, and what was mapped stays. */
  ghost predicate Gives(m: Mem, m1: Mem, free: set<int>, a: nat, n: nat) {
    && LowestRun(free, a, n) && m1.pages == m.pages - Range(a, n)
    && MapsMore(m, m1, Range(a, n)) && TablesMore(m.pde, m1.pde, a, n)
  }

  lemma {:induction false} BlockSeqOrder(a: nat, c: nat, k: nat)
    ensures |BlockSeq(a, c, k)| == k && forall i :: 0 <= i < k ==> BlockSeq(a, c, k)[i] == Arena2Block(a, c, i)
  {
    hide Arena2Block;
    if k > 0 {
      BlockSeqOrder(a, c, k - 1);
    }
  }

  lemma FromList(h: Blocks, c: nat)
    requires BlocksOk(h, None) && c < DESC_CNT && FreeList(h, c) != []
    ensures FromClass(h, Popped(h, c), c, FreeList(h, c)[0]) && Popped(h, c).arenas.Keys == h.arenas.Keys
  {
    hide BlockSize, BlocksPerArena, Block2Arena, BlocksOk, Arena2Block, AllInOrder, PagesIn;
    PopView(h, c, None);
    var q := FreeList(h, c);
    assert q == [q[0]] + q[1..];
  }

  lemma FromArena(h: Blocks, a: nat, c: nat)
    requires BlocksOk(h, None) && c < DESC_CNT && FreeList(h, c) == [] && a !in h.arenas && SpanFree(h, a, 1)
    ensures var h1 := NewArena(h, a, c);
      && FreeList(h1, c) != [] && FromClass(h, Popped(h1, c), c, FreeList(h1, c)[0])
      && Popped(h1, c).arenas.Keys == h.arenas.Keys + {a} && Block2Arena(FreeList(h1, c)[0]) == a
  {
    hide BlockSize, BlocksPerArena, Block2Arena, BlocksOk, Arena2Block, BlockSeq, Popped, NewArena, SpanFree, SameLive;
    var h1 := NewArena(h, a, c);
    NewArenaOk(h, a, c);
    NewArenaView(h, a, c);
    PopView(h1, c, Some(a));
    Sizes(h, c);
    BlockSeqOrder(a, c, BlocksPerArena(c));
    var q := FreeList(h1, c);
    assert q == [q[0]] + q[1..];
    assert FreeList(Popped(h1, c), c) == q[1..];
    assert PagesIn(Popped(h1, c), a) == PagesIn(h1, a);
  }

  /** A list without the members of `s`, the rest in order. */
  ghost function Kept(q: seq<nat>, s: set<nat>): seq<nat> {
    if q == [] then [] else if q[0] in s then Kept(q[1..], s) else [q[0]] + Kept(q[1..], s)
  }

  lemma {:induction false} KeptWithout(q: seq<nat>, s: set<nat>, b: nat)
    ensures Without(Kept(q, s), b) == Kept(q, s + {b}) && Kept(q, {}) == q
    ensures b in s ==> Kept(q + [b], s) == Kept(q, s)
  {
    if q != [] {
      KeptWithout(q[1..], s, b);
      var rest := Kept(q[1..], s);
      assert ([q[0]] + rest)[1..] == rest;
      assert (q + [b])[1..] == q[1..] + [b];
    }
  }

  lemma {:induction false} RemovedKept(q: seq<nat>, a: nat, c: nat, k: nat)
    ensures RemovedBlocks(q, a, c, k) == Kept(q, BlocksOf(a, c, k))
  {
    hide Arena2Block, Kept;
    if k > 0 {
      RemovedKept(q, a, c, k - 1);
      KeptWithout(q, BlocksOf(a, c, k - 1), Arena2Block(a, c, k - 1));
    } else {
      KeptWithout(q, {}, 0);
    }
  }

  /** `b` is the last on its list, or its arena has gone and its blocks from the list with it. */
  ghost predicate BackOnList(h: Blocks, h1: Blocks, b: nat) {
    var a := Block2Arena(b);
    var c := DescOf(h, a);
    && (forall d: nat :: d != c || IsLarge(h, a) ==> FreeList(h1, d) == FreeList(h, d))
    && (forall e: nat :: e != a ==> (e in h1.arenas <==> e in h.arenas))
    && (IsSmall(h, a) ==>
      FreeList(h1, c) == if a in h1.arenas then FreeList(h, c) + [b] else Kept(FreeList(h, c), AllBlocks(a, c)))
  }

  lemma BackLarge(h: Blocks, b: nat)
    requires IsLarge(h, Block2Arena(b))
    ensures BackOnList(h, WithoutLarge(h, Block2Arena(b)), b)
  {
    hide Block2Arena;
  }

  lemma BackSmall(h: Blocks, b: nat)
    requires BlocksOk(h, None) && IsLive(h, b) && IsSmall(h, Block2Arena(b))
    ensures BackOnList(h, Pushed(h, b), b)
    ensures var a := Block2Arena(b);
      && BackOnList(h, WithoutArena(Pushed(h, b), a, DescOf(Pushed(h, b), a)), b)
      && a !in WithoutArena(Pushed(h, b), a, DescOf(Pushed(h, b), a)).arenas
  {
    hide Block2Arena, BlocksPerArena, BlockSize, AllBlocks, ListOk, Kept, RemovedBlocks, Unique, FreeOf, SpansOk;
    var a := Block2Arena(b);
    var c := DescOf(h, a);
    PushView(h, b);
    LiveSmall(h, b);
    AllBlocksIs(a, c);
    RemovedKept(FreeList(h, c) + [b], a, c, BlocksPerArena(c));
    KeptWithout(FreeList(h, c), AllBlocks(a, c), b);
    assert DescOf(Pushed(h, b), a) == c;
  }

  class Heap {
    const mem: Memory
    const pf: PoolFlags
    const poolSize: nat
    var arenas: map<nat, Arena>
    var free: seq<seq<nat>>

    /** `block_descs_init`: every list is empty. */
    constructor (mem: Memory, pf: PoolFlags, poolSize: nat)
      requires mem.Shape() && MemOk(mem.lay, mem.View(), {})
      ensures Ok() && this.mem == mem && this.pf == pf && this.poolSize == poolSize
      ensures forall d: nat :: !IsLive(View(), d)
    {
      hide MemOk, Memory.Shape, Memory.View, BlocksPerArena, Block2Arena;
      this.mem, this.pf, this.poolSize := mem, pf, poolSize;
      arenas := map[];
      free := seq(7, _ => []);
    }

    ghost function View(): Blocks
      reads `arenas, `free
    {
      Blocks(arenas, free)
    }

    lemma ViewIs()
      ensures View() == Blocks(arenas, free)
    {
    }

    ghost predicate Ok()
      reads this, mem, mem.kernelPool.bits, mem.userPool.bits, mem.kernelVaddr.bits, mem.userVaddr.bits
    {
      && mem.Shape() && MemOk(mem.lay, mem.View(), {})
      && BlocksOk(View(), None) && Backed(mem.lay, pf, mem.View(), View())
    }

    /** There are free pages for the heap, but not `n` in a row. */
    ghost predicate Lacks(n: nat)
      reads mem.VaddrPool(pf).bits
    {
      mem.FreePagesOf(pf) != {} && NoRun(mem.FreePagesOf(pf), n)
    }

    /** A request for `n` pages stops the kernel. */
    ghost predicate Halts(n: nat)
      reads mem`pde, mem.VaddrPool(pf).bits, mem.FramePool(pf).bits, mem.FramePool(PF_KERNEL).bits
    {
      Stops(pf, mem.FreePagesOf(pf), mem.pde.Keys, |mem.FramesOf(pf)|, |mem.FramesOf(PF_KERNEL)|, n)
    }

    lemma AskedIs(n: nat)
      ensures Lacks(n) <==> mem.FreePagesOf(pf) != {} && NoRun(mem.FreePagesOf(pf), n)
      ensures Halts(n) <==> Stops(pf, mem.FreePagesOf(pf), mem.pde.Keys, |mem.FramesOf(pf)|, |mem.FramesOf(PF_KERNEL)|, n)
    {
    }

    /** `malloc_page` on behalf of the heap. */
    method GetPages(n: nat) returns (r: PageResult)
      requires Ok() && 0 < n < 3840
      modifies mem`pte, mem`pde, mem`use, mem.kernelPool.bits, mem.userPool.bits, mem.VaddrPool(pf).bits
      ensures r.Null? <==> old(Lacks(n))
      ensures r.Null? ==> Ok() && mem.View() == old(mem.View())
      ensures r.Halted? <==> old(Halts(n))
      ensures r.Pages? ==> Gives(old(mem.View()), mem.View(), old(mem.FreePagesOf(pf)), r.first, n)
      ensures r.Pages? ==> r.first !in arenas && SpanFree(View(), r.first, n)
      ensures r.Pages? ==> mem.Shape() && MemOk(mem.lay, mem.View(), {})
      ensures r.Pages? ==>
        forall h: Blocks :: SamePages(View(), h, r.first) && PagesIn(h, r.first) == n ==> Backed(mem.lay, pf, mem.View(), h)
      ensures !r.Halted? ==> OthersKept(mem.lay, pf, old(mem.View()), mem.View())
    {
      hide *;
      OkIs();
      ViewIs();
      AskedIs(n);
      ghost var m := mem.View();
      mem.FreePagesSplit(pf);
      mem.ViewIs();
      assert m.pages == mem.FreePages();
      assert forall x :: x in mem.FreePagesOf(pf) ==> x in m.pages;
      r := mem.MallocPage(pf, n);
      mem.Pools();
      KeptSelf(mem.lay, pf, m);
      if r.Pages? {
        KeptMore(mem.lay, pf, m, mem.View(), Range(r.first, n));
        LowestFree(r.first, n);
        mem.ViewIs();
        GivesIs(m, mem.View(), old(mem.FreePagesOf(pf)), r.first, n);
        NewPages(mem.lay, pf, m, View(), r.first, n);
        forall h: Blocks | SamePages(View(), h, r.first) && PagesIn(h, r.first) == n
          ensures Backed(mem.lay, pf, mem.View(), h)
        {
          BackedMore(mem.lay, pf, m, mem.View(), View(), h, r.first, n);
        }
      }
      OkIs();
    }

    lemma OkIs()
      ensures Ok() <==>
        && mem.Shape() && MemOk(mem.lay, mem.View(), {})
        && BlocksOk(View(), None) && Backed(mem.lay, pf, mem.View(), View())
    {
    }

    /** The part of `sys_malloc` that cuts a new page into blocks. The assertion that a block is not yet on the list holds. */
    method AddArena(c: nat) returns (r: PageResult)
      requires Ok() && c < DESC_CNT && FreeList(View(), c) == []
      modifies `arenas, `free, mem`pte, mem`pde, mem`use, mem.kernelPool.bits, mem.userPool.bits, mem.VaddrPool(pf).bits
      ensures r.Null? <==> old(Lacks(1))
      ensures r.Null? ==> Ok() && mem.View() == old(mem.View()) && View() == old(View())
      ensures r.Halted? <==> old(Halts(1))
      ensures r.Pages? ==> Gives(old(mem.View()), mem.View(), old(mem.FreePagesOf(pf)), r.first, 1)
      ensures r.Pages? ==> View() == NewArena(old(View()), r.first, c) && r.first !in old(arenas)
      ensures r.Pages? ==> SpanFree(old(View()), r.first, 1)
      ensures r.Pages? ==> mem.Shape() && MemOk(mem.lay, mem.View(), {}) && Backed(mem.lay, pf, mem.View(), View())
      ensures r.Pages? ==> BlocksOk(View(), Some(r.first)) && SameLive(old(View()), View())
      ensures r.Pages? ==> FreeList(View(), c) != [] && Block2Arena(FreeList(View(), c)[0]) == r.first
      ensures r.Pages? ==> OthersKept(mem.lay, pf, old(mem.View()), mem.View())
    {
      hide *;
      OkIs();
      ViewIs();
      Sizes(View(), c);
      ghost var h := View();
      r := GetPages(1);
      if !r.Pages? {
        return;
      }
      var a := r.first;
      arenas := arenas[a := Arena(Some(c), BlocksPerArena(c), false)];
      var blockIdx := 0;
      SeqStep(a, c, 0);
      while blockIdx < BlocksPerArena(c)
        invariant 0 <= blockIdx <= BlocksPerArena(c) && free == h.free[c := BlockSeq(a, c, blockIdx)]
        modifies `free
      {
        SeqStep(a, c, blockIdx);
        var b := Arena2Block(a, c, blockIdx);
        assert b !in free[c];
        free := free[c := free[c] + [b]];
        blockIdx := blockIdx + 1;
      }
      NewArenaOk(h, a, c);
      NewArenaView(h, a, c);
      SeqStep(a, c, 0);
      ViewIs();
    }

    /** The end of `sys_malloc`: the first block of a list that is not empty. */
    method TakeBlock(c: nat, ghost full: Option<nat>) returns (b: nat)
      requires mem.Shape() && MemOk(mem.lay, mem.View(), {}) && Backed(mem.lay, pf, mem.View(), View())
      requires BlocksOk(View(), full) && c < DESC_CNT && FreeList(View(), c) != []
      requires full == None || full == Some(Block2Arena(FreeList(View(), c)[0]))
      modifies `arenas, `free
      ensures Ok() && Allocated(old(View()), View(), b) && SizeOf(View(), b) == BlockSize(c)
      ensures b == old(FreeList(View(), c))[0] && View() == Popped(old(View()), c)
    {
      hide *;
      ViewIs();
      ghost var h := View();
      PopOk(h, c, full);
      PopView(h, c, full);
      b := free[c][0];
      free := free[c := free[c][1..]];
      var a := Block2Arena(b);
      arenas := arenas[a := arenas[a].(cnt := arenas[a].cnt - 1)];
      ViewIs();
      BackedSame(mem.lay, pf, mem.View(), h, View());
      OkIs();
    }

    /** The branch of `sys_malloc` for more than 1024 bytes. */
    method MallocLarge(size: nat) returns (r: Grant)
      requires Ok() && size > 1024
      modifies `arenas, mem`pte, mem`pde, mem`use, mem.kernelPool.bits, mem.userPool.bits, mem.VaddrPool(pf).bits
      ensures r.NoMemory? <==> PagesFor(size) < 3840 && old(Lacks(PagesFor(size)))
      ensures r.NoMemory? ==> Ok() && mem.View() == old(mem.View()) && View() == old(View())
      ensures r.Stopped? <==> PagesFor(size) >= 3840 || old(Halts(PagesFor(size)))
      ensures r.Ptr? ==> Block2Arena(r.addr) !in old(arenas) && arenas.Keys == old(arenas.Keys) + {Block2Arena(r.addr)}
      ensures r.Ptr? ==> r.addr == 4096 * Block2Arena(r.addr) + 12 && PagesIn(View(), Block2Arena(r.addr)) == PagesFor(size)
      ensures r.Ptr? ==>
        Gives(old(mem.View()), mem.View(), old(mem.FreePagesOf(pf)), Block2Arena(r.addr), PagesFor(size))
      ensures r.Ptr? ==> Ok() && Allocated(old(View()), View(), r.addr)
      ensures r.Ptr? ==> SizeOf(View(), r.addr) == 4096 * PagesFor(size) - 12
      ensures r.Ptr? ==> OthersKept(mem.lay, pf, old(mem.View()), mem.View())
    {
      hide *;
      OkIs();
      ViewIs();
      ghost var h := View();
      var pgCnt := PagesFor(size);
      if pgCnt >= 3840 {
        return Stopped;
      }
      var a := GetPages(pgCnt);
      if a.Null? {
        return NoMemory;
      }
      if a.Halted? {
        return Stopped;
      }
      arenas := arenas[a.first := Arena(None, pgCnt, true)];
      ViewIs();
      NewLargeOk(h, a.first, pgCnt);
      NewLargeView(h, a.first, pgCnt);
      OkIs();
      return Ptr(4096 * a.first + 12);
    }

    /** The search of `sys_malloc` for the smallest block size that does. */
    method FindDesc(size: nat) returns (descIdx: nat)
      requires size <= 1024
      ensures Serves(descIdx, size)
    {
      hide BlockSize;
      descIdx := 0;
      while descIdx < DESC_CNT && size > BlockSize(descIdx)
        invariant descIdx < DESC_CNT && (descIdx > 0 ==> size > BlockSize(descIdx - 1))
      {
        Classes(6);
        descIdx := descIdx + 1;
      }
    }

    /** `sys_malloc`: a free block of the smallest size that does, which takes no page; without one a new arena, and beyond
        1024 bytes pages of its own. The four ways it ends are told apart by the state before the call. */
    method SysMalloc(size: nat) returns (r: Grant)
      requires Ok()
      modifies `arenas, `free, mem`pte, mem`pde, mem`use, mem.kernelPool.bits, mem.userPool.bits, mem.VaddrPool(pf).bits
      ensures r.NoMemory? <==>
        size == 0 || size >= poolSize || (!HasBlock(old(View()), size) && PagesFor(size) < 3840 && old(Lacks(PagesFor(size))))
      ensures r.NoMemory? ==> Ok() && mem.View() == old(mem.View()) && View() == old(View())
      ensures r.Stopped? <==>
        0 < size < poolSize && !HasBlock(old(View()), size) && (PagesFor(size) >= 3840 || old(Halts(PagesFor(size))))
      ensures r.Ptr? && size <= 1024 ==> forall c: nat :: Serves(c, size) ==> FromClass(old(View()), View(), c, r.addr)
      ensures r.Ptr? && size > 1024 ==> Block2Arena(r.addr) !in old(arenas) && r.addr == 4096 * Block2Arena(r.addr) + 12
      ensures r.Ptr? && size > 1024 ==> PagesIn(View(), Block2Arena(r.addr)) == PagesFor(size) && free == old(free)
      ensures r.Ptr? ==> arenas.Keys == old(arenas.Keys) + {Block2Arena(r.addr)}
      ensures r.Ptr? ==> var a := Block2Arena(r.addr);
        if a in old(arenas) then mem.View() == old(mem.View())
        else Gives(old(mem.View()), mem.View(), old(mem.FreePagesOf(pf)), a, PagesIn(View(), a))
      ensures r.Ptr? ==> Ok() && Allocated(old(View()), View(), r.addr) && Fits(SizeOf(View(), r.addr), size)
      ensures r.Ptr? ==> OthersKept(mem.lay, pf, old(mem.View()), mem.View())
    {
      hide *;
      OkIs();
      mem.Pools();
      if !(size > 0 && size < poolSize) {
        return NoMemory;
      }
      if size > 1024 {
        LargeHasNone(View(), size);
        r := MallocLarge(size);
        FitsLarge(size);
        return;
      }
      ghost var m, lacks, halts := mem.View(), Lacks(1), Halts(1);
      var descIdx := FindDesc(size);
      assert pf.PF_KERNEL? || pf.PF_USER?;
      assert mem.View() == m && Lacks(1) == lacks && Halts(1) == halts;
      FitsSmall(size, descIdx);
      Sizes(View(), descIdx);
      ghost var h := View();
      HasBlockAt(h, descIdx, size);
      ServesOnly(descIdx, size);
      ViewIs();
      if free[descIdx] == [] {
        var a := AddArena(descIdx);
        if a.Null? {
          return NoMemory;
        }
        if a.Halted? {
          return Stopped;
        }
        ghost var h1 := View();
        FromArena(h, a.first, descIdx);
        var b := TakeBlock(descIdx, Some(a.first));
        ThenAllocated(h, h1, View(), b);
        FromClassIs(h, View(), descIdx, b);
        ViewIs();
        return Ptr(b);
      } else {
        KeptSelf(mem.lay, pf, mem.View());
        FromList(h, descIdx);
        FromClassIs(h, Popped(h, descIdx), descIdx, FreeList(h, descIdx)[0]);
        var b := TakeBlock(descIdx, None);
        ViewIs();
        return Ptr(b);
      }
    }

    /** The pages of an arena go back, and its header with them. */
    method DropArena(a: nat, ghost h: Blocks)
      requires mem.Shape() && MemOk(mem.lay, mem.View(), {}) && Backed(mem.lay, pf, mem.View(), View())
      requires a in arenas && PagesIn(View(), a) > 0 && SpansOk(View())
      requires SamePages(View(), h, a) && a !in h.arenas && BlocksOk(h, None) && h == Blocks(arenas - {a}, free)
      modifies `arenas, mem`pte, mem`use, mem.kernelPool.bits, mem.userPool.bits, mem.VaddrPool(pf).bits
      ensures Ok() && View() == h
      ensures mem.View().pages == old(mem.View()).pages + Range(a, old(PagesIn(View(), a)))
      ensures MapsLess(old(mem.View()), mem.View(), Range(a, old(PagesIn(View(), a))))
      ensures OthersKept(mem.lay, pf, old(mem.View()), mem.View())
    {
      hide *;
      ViewIs();
      ghost var h0, m := View(), mem.View();
      BackedAt(mem.lay, pf, m, h0, a);
      PagesInIs(h0, a);
      var cnt := if arenas[a].large && arenas[a].desc.None? then arenas[a].cnt else 1;
      mem.MfreePage(pf, a, cnt);
      mem.Pools();
      KeptLess(mem.lay, pf, m, mem.View(), Range(a, cnt));
      BackedLess(mem.lay, pf, m, mem.View(), h0, h, a);
      arenas := arenas - {a};
      ViewIs();
      OkIs();
    }

    /** The end of `sys_free` when all blocks of an arena are free. The assertion that each is on the list holds. */
    method GiveBack(a: nat)
      requires mem.Shape() && MemOk(mem.lay, mem.View(), {}) && Backed(mem.lay, pf, mem.View(), View())
      requires BlocksOk(View(), Some(a)) && IsSmall(View(), a) && arenas[a].cnt == BlocksPerArena(DescOf(View(), a))
      modifies `arenas, `free, mem`pte, mem`use, mem.kernelPool.bits, mem.userPool.bits, mem.VaddrPool(pf).bits
      ensures Ok() && SameLive(old(View()), View()) && View() == WithoutArena(old(View()), a, old(DescOf(View(), a)))
      ensures mem.View().pages == old(mem.View()).pages + Range(a, 1)
      ensures MapsLess(old(mem.View()), mem.View(), Range(a, 1))
      ensures OthersKept(mem.lay, pf, old(mem.View()), mem.View())
    {
      hide *;
      ViewIs();
      ghost var h := View();
      WithoutArenaOk(h, a);
      GiveBackView(h, a);
      SpansIn(h, Some(a));
      EmptiedView(h, a, DescOf(h, a));
      var c := arenas[a].desc.value;
      var bkIdx := 0;
      while bkIdx < BlocksPerArena(c)
        invariant 0 <= bkIdx <= BlocksPerArena(c) && free == h.free[c := RemovedBlocks(h.free[c], a, c, bkIdx)]
        modifies `free
      {
        RemoveStep(h.free[c], a, c, bkIdx);
        var b := Arena2Block(a, c, bkIdx);
        assert b in free[c];
        free := free[c := Without(free[c], b)];
        bkIdx := bkIdx + 1;
      }
      ghost var h1 := View();
      ViewIs();
      BackedSame(mem.lay, pf, mem.View(), h, h1);
      DropArena(a, WithoutArena(h, a, c));
      ViewIs();
    }

    /** `sys_free` of an address that `sys_malloc` has returned. The page goes back exactly when nothing in it is live; until
        then the block is the last on its list and no page changes. */
    method SysFree(ptr: nat)
      requires Ok() && IsLive(View(), ptr)
      modifies `arenas, `free, mem`pte, mem`use, mem.kernelPool.bits, mem.userPool.bits, mem.VaddrPool(pf).bits
      ensures Ok() && Released(old(View()), View(), ptr)
      ensures Block2Arena(ptr) in arenas <==> exists d: nat :: Block2Arena(d) == Block2Arena(ptr) && IsLive(View(), d)
      ensures mem.View().pages == old(mem.View()).pages +
        if Block2Arena(ptr) in arenas then {} else Range(Block2Arena(ptr), old(PagesIn(View(), Block2Arena(ptr))))
      ensures BackOnList(old(View()), View(), ptr)
      ensures if Block2Arena(ptr) in arenas then mem.View() == old(mem.View())
        else MapsLess(old(mem.View()), mem.View(), Range(Block2Arena(ptr), old(PagesIn(View(), Block2Arena(ptr)))))
      ensures OthersKept(mem.lay, pf, old(mem.View()), mem.View())
    {
      hide *;
      OkIs();
      ViewIs();
      ghost var h := View();
      var a := Block2Arena(ptr);
      LiveArena(h, ptr);
      if arenas[a].desc.None? && arenas[a].large {
        WithoutLargeOk(h, a);
        WithoutLargeView(h, a);
        DropArena(a, WithoutLarge(h, a));
        BackLarge(h, ptr);
      } else {
        var c := arenas[a].desc.value;
        PushOk(h, ptr);
        PushView(h, ptr);
        BackSmall(h, ptr);
        free := free[c := free[c] + [ptr]];
        arenas := arenas[a := arenas[a].(cnt := arenas[a].cnt + 1)];
        ViewIs();
        ghost var h1 := View();
        KeptSelf(mem.lay, pf, mem.View());
        BackedSame(mem.lay, pf, mem.View(), h, h1);
        if arenas[a].cnt == BlocksPerArena(c) {
          GiveBack(a);
          ThenReleased(h, h1, View(), ptr);
        } else {
          OkIs();
        }
      }
      OkIs();
      ViewIs();
      ArenaHasLive(View(), a);
    }

    /** What is allocated and freed at once leaves the arenas, the free pages and all that is live as they were. */
    method MallocThenFree(size: nat) returns (r: Grant)
      requires Ok()
      modifies `arenas, `free, mem`pte, mem`pde, mem`use, mem.kernelPool.bits, mem.userPool.bits, mem.VaddrPool(pf).bits
      ensures r.Ptr? ==> Ok() && SameLive(old(View()), View()) && View().arenas.Keys == old(View()).arenas.Keys
      ensures r.Ptr? ==> mem.View().pages == old(mem.View()).pages
    {
      hide *;
      OkIs();
      ViewIs();
      ghost var h, m, pages := View(), mem.View(), mem.FreePagesOf(pf);
      mem.FreePagesSplit(pf);
      mem.ViewIs();
      assert forall x :: x in pages ==> x in m.pages;
      r := SysMalloc(size);
      if r.Ptr? {
        ghost var h1, m1 := View(), mem.View();
        ThenLive(h, h1, r.addr);
        ViewIs();
        SysFree(r.addr);
        OkIs();
        ViewIs();
        AllocatedReleased(h, h1, View(), r.addr);
        ArenasBack(h, View());
        var a := Block2Arena(r.addr);
        assert a in arenas <==> a in h.arenas;
        if a !in h.arenas {
          GivesIs(m, m1, pages, a, PagesIn(h1, a));
          LowestFree(a, PagesIn(h1, a));
          assert m1.pages + Range(a, PagesIn(h1, a)) == m.pages;
        }
      }
    }
  }

  lemma ThenLive(h: Blocks, h1: Blocks, b: nat)
    requires Allocated(h, h1, b)
    ensures IsLive(h1, b)
  {
    hide IsLive, SizeOf;
  }

  lemma AllocatedReleased(h: Blocks, h1: Blocks, h2: Blocks, b: nat)
    requires Allocated(h, h1, b) && Released(h1, h2, b)
    ensures SameLive(h, h2)
  {
    hide IsLive, SizeOf;
  }

  lemma ArenasBack(h: Blocks, h2: Blocks)
    requires BlocksOk(h, None) && BlocksOk(h2, None) && SameLive(h, h2)
    ensures h2.arenas.Keys == h.arenas.Keys
  {
    hide IsLive, SizeOf, Block2Arena, ArenaOk, ListOk, SpansOk;
    forall a: nat
      ensures a in h2.arenas <==> a in h.arenas
    {
      ArenaHasLive(h, a);
      ArenaHasLive(h2, a);
    }
  }

  lemma BackedAt(lay: Layout, pf: PoolFlags, m: Mem, h: Blocks, a: nat)
    requires Backed(lay, pf, m, h) && a in h.arenas
    ensures forall v :: v in Range(a, PagesIn(h, a)) ==> Mapped(m, v) && lay.PageOf(pf, v)
  {
    hide Layout.PageOf, Range, Mapped;
  }

  lemma PagesInIs(h: Blocks, a: nat)
    ensures a in h.arenas ==> PagesIn(h, a) == if h.arenas[a].large && h.arenas[a].desc.None? then h.arenas[a].cnt else 1
  {
  }

  lemma RemoveStep(q: seq<nat>, a: nat, c: nat, k: nat)
    requires c < DESC_CNT && k < BlocksPerArena(c) && Unique(q) && AllBlocks(a, c) <= (set b | b in q)
    ensures RemovedBlocks(q, a, c, k + 1) == Without(RemovedBlocks(q, a, c, k), Arena2Block(a, c, k))
    ensures Arena2Block(a, c, k) in RemovedBlocks(q, a, c, k)
  {
    hide Arena2Block, BlocksPerArena, BlockSize, Without, AllBlocks;
    RemovedBlocksFacts(q, a, c, k);
  }

  lemma GiveBackView(h: Blocks, a: nat)
    requires BlocksOk(h, Some(a)) && IsSmall(h, a)
    ensures var c := DescOf(h, a);
      && a in h.arenas && h.arenas[a].desc == Some(c) && c < DESC_CNT && c < |h.free| && FreeList(h, c) == h.free[c]
      && Unique(h.free[c])
      && RemovedBlocks(h.free[c], a, c, 0) == h.free[c] && h.free[c := h.free[c]] == h.free && PagesIn(h, a) == 1
  {
    hide Block2Arena, BlocksPerArena, BlockSize, AllBlocks, Unique, BlockOf, FreeOf, SpansOk;
    assert ArenaOk(h, a, Some(a)) && ListOk(h, DescOf(h, a));
  }

  lemma EmptiedView(h: Blocks, a: nat, c: nat)
    requires SpansOk(h) && c < |h.free|
    ensures var h1 := Blocks(h.arenas, h.free[c := RemovedBlocks(h.free[c], a, c, BlocksPerArena(c))]);
      && SameKinds(h, h1) && SpansOk(h1) && PagesIn(h1, a) == PagesIn(h, a)
      && SamePages(h1, WithoutArena(h, a, c), a) && WithoutArena(h, a, c) == Blocks(h1.arenas - {a}, h1.free)
    ensures a !in WithoutArena(h, a, c).arenas
  {
    hide RemovedBlocks, BlocksPerArena;
    var h1 := Blocks(h.arenas, h.free[c := RemovedBlocks(h.free[c], a, c, BlocksPerArena(c))]);
    assert forall e: nat :: PagesIn(h1, e) == PagesIn(h, e);
  }

  lemma SpansIn(h: Blocks, full: Option<nat>)
    requires BlocksOk(h, full)
    ensures SpansOk(h)
  {
  }

  lemma LiveArena(h: Blocks, b: nat)
    requires BlocksOk(h, None) && IsLive(h, b)
    ensures var a := Block2Arena(b);
      && a in h.arenas && PagesIn(h, a) > 0 && SpansOk(h)
      && if h.arenas[a].desc.None? && h.arenas[a].large then IsLarge(h, a) && b == 4096 * a + ARENA_SIZE
        else IsSmall(h, a) && h.arenas[a].desc.Some?
  {
    hide Block2Arena, BlocksPerArena, AllBlocks, ListOk;
    assert ArenaOk(h, Block2Arena(b), None);
  }

  lemma WithoutLargeView(h: Blocks, a: nat)
    ensures WithoutLarge(h, a) == Blocks(h.arenas - {a}, h.free) && SamePages(h, WithoutLarge(h, a), a)
    ensures a !in WithoutLarge(h, a).arenas
  {
  }

  lemma PushView(h: Blocks, b: nat)
    requires BlocksOk(h, None) && IsSmall(h, Block2Arena(b))
    ensures var a := Block2Arena(b);
      var c := DescOf(h, a);
      && a in h.arenas && h.arenas[a].desc == Some(c) && c < |h.free| && c < DESC_CNT
      && Pushed(h, b) == Blocks(h.arenas[a := h.arenas[a].(cnt := h.arenas[a].cnt + 1)], h.free[c := h.free[c] + [b]])
      && SameKinds(h, Pushed(h, b)) && PagesIn(h, a) == 1
      && h.arenas[a].cnt < BlocksPerArena(c)
  {
    hide Block2Arena, BlocksPerArena, BlockSize, AllBlocks, ListOk;
    assert ArenaOk(h, Block2Arena(b), None);
  }

  lemma ThenReleased(h: Blocks, h1: Blocks, h2: Blocks, b: nat)
    requires Released(h, h1, b) && SameLive(h1, h2)
    ensures Released(h, h2, b)
  {
    hide IsLive, SizeOf;
  }

  /** A block serves a request with less than twice the bytes, or with a page less a header to spare. */
  predicate Fits(bytes: nat, size: nat) {
    size <= bytes && (if size <= 1024 then bytes == 16 || bytes < 2 * size else bytes < size + 4096)
  }

  lemma ServesOnly(c: nat, size: nat)
    requires Serves(c, size)
    ensures forall d: nat :: Serves(d, size) <==> d == c
  {
    hide Serves;
    forall d: nat | Serves(d, size)
      ensures d == c
    {
      OneServes(c, d, size);
    }
  }

  lemma FromClassIs(h: Blocks, h1: Blocks, c: nat, b: nat)
    requires FromClass(h, h1, c, b)
    ensures FreeList(h, c) != [] ==> Block2Arena(b) in h.arenas
    ensures FreeList(h, c) == [] ==> PagesIn(h1, Block2Arena(b)) == 1
  {
  }

  lemma GivesIs(m: Mem, m1: Mem, free: set<int>, a: nat, n: nat)
    ensures Gives(m, m1, free, a, n) <==>
      && LowestRun(free, a, n) && m1.pages == m.pages - Range(a, n)
      && MapsMore(m, m1, Range(a, n)) && TablesMore(m.pde, m1.pde, a, n)
  {
  }

  lemma FitsLarge(size: nat)
    requires size > 1024
    ensures PagesFor(size) > 0 && Fits(4096 * PagesFor(size) - 12, size)
  {
  }

  lemma FitsSmall(size: nat, c: nat)
    requires 0 < size <= 1024 && Serves(c, size)
    ensures c < DESC_CNT && Fits(BlockSize(c), size) && PagesFor(size) == 1
  {
    Classes(c);
  }

  lemma ThenAllocated(h: Blocks, h1: Blocks, h2: Blocks, b: nat)
    requires SameLive(h, h1) && Allocated(h1, h2, b)
    ensures Allocated(h, h2, b)
  {
    hide IsLive, SizeOf;
  }

  lemma PopView(h: Blocks, c: nat, full: Option<nat>)
    requires BlocksOk(h, full) && c < DESC_CNT && FreeList(h, c) != []
    requires full == None || full == Some(Block2Arena(FreeList(h, c)[0]))
    ensures var b := FreeList(h, c)[0];
      var a := Block2Arena(b);
      && c < |h.free| && h.free[c] == FreeList(h, c) && a in h.arenas && h.arenas[a].cnt > 0
      && Popped(h, c) == Blocks(h.arenas[a := h.arenas[a].(cnt := h.arenas[a].cnt - 1)], h.free[c := h.free[c][1..]])
      && SameKinds(h, Popped(h, c))
  {
    hide Block2Arena, BlocksPerArena, BlockSize, SpansOk, AllBlocks, Unique;
    var b := FreeList(h, c)[0];
    var a := Block2Arena(b);
    assert ListOk(h, c) && ArenaOk(h, a, full);
    assert BlockOf(h, b);
    assert b in FreeOf(h, a);
  }

  lemma NewLargeView(h: Blocks, a: nat, n: nat)
    ensures NewLarge(h, a, n) == Blocks(h.arenas[a := Arena(None, n, true)], h.free)
    ensures SamePages(h, NewLarge(h, a, n), a) && PagesIn(NewLarge(h, a, n), a) == n
    ensures ARENA_SIZE == 12 && Block2Arena(4096 * a + 12) == a
  {
  }

  lemma Sizes(h: Blocks, c: nat)
    requires BlocksOk(h, None) && c < DESC_CNT
    ensures |h.free| == 7 && c < 7 && FreeList(h, c) == h.free[c] && 0 < BlocksPerArena(c)
  {
    Classes(c);
  }

  lemma SeqStep(a: nat, c: nat, k: nat)
    requires c < DESC_CNT && k < BlocksPerArena(c)
    ensures BlockSeq(a, c, 0) == [] && BlockSeq(a, c, k + 1) == BlockSeq(a, c, k) + [Arena2Block(a, c, k)]
    ensures Arena2Block(a, c, k) !in BlockSeq(a, c, k)
  {
    hide Arena2Block, BlocksPerArena, BlockSize;
    BlockSeqFacts(a, c, k);
  }

  lemma {:induction false} SeqHead(a: nat, c: nat, k: nat)
    requires 0 < k
    ensures BlockSeq(a, c, k) != [] && BlockSeq(a, c, k)[0] == Arena2Block(a, c, 0)
  {
    if k > 1 {
      SeqHead(a, c, k - 1);
    }
  }

  lemma NewArenaView(h: Blocks, a: nat, c: nat)
    requires BlocksOk(h, None) && c < DESC_CNT && FreeList(h, c) == []
    ensures NewArena(h, a, c) == Blocks(h.arenas[a := Arena(Some(c), BlocksPerArena(c), false)],
      h.free[c := BlockSeq(a, c, BlocksPerArena(c))])
    ensures SamePages(h, NewArena(h, a, c), a) && PagesIn(NewArena(h, a, c), a) == 1
    ensures BlockSeq(a, c, BlocksPerArena(c)) != [] && Block2Arena(BlockSeq(a, c, BlocksPerArena(c))[0]) == a
    ensures FreeList(NewArena(h, a, c), c) == BlockSeq(a, c, BlocksPerArena(c))
  {
    hide Block2Arena, BlocksPerArena, BlockSeq, Arena2Block, ArenaOk, ListOk, SpansOk;
    assert [] + BlockSeq(a, c, BlocksPerArena(c)) == BlockSeq(a, c, BlocksPerArena(c));
    Classes(c);
    SeqHead(a, c, BlocksPerArena(c));
    BlockPlaces(a, c, 0);
  }
}