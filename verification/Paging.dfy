/** kernel/memory.c, the lower level: virtual address bitmaps, physical pools and page tables. Addresses of pages and frames
    are written as page numbers, that is divided by 4096. */
module Paging {
  import opened Bytes
  import opened Wrappers
  import opened Bitmaps

  datatype PoolFlags = PF_KERNEL | PF_USER

  /** A page table entry: the frame it names and its present bit. Clearing the bit leaves the frame. */
  datatype Pte = Pte(frame: nat, present: bool)

  /** What a frame in use is used for; `Other` frames were in use before and are never touched here. */
  datatype Use = Data(page: nat) | Table(dir: nat) | Other

  /** The ranges of the two physical pools and of the two virtual ones. */
  datatype Layout = Layout(kernelStart: nat, kernelEnd: nat, userStart: nat, userEnd: nat,
    kernelVStart: nat, kernelVEnd: nat, userVStart: nat, userVEnd: nat) {
    predicate Apart() {
      && kernelStart <= kernelEnd <= userStart <= userEnd && 0x102 <= kernelStart
      && userVStart <= userVEnd <= kernelVStart <= kernelVEnd
    }

    predicate FrameOf(pf: PoolFlags, f: int) {
      if pf == PF_KERNEL then kernelStart <= f < kernelEnd else userStart <= f < userEnd
    }

    predicate PageOf(pf: PoolFlags, v: int) {
      if pf == PF_KERNEL then kernelVStart <= v < kernelVEnd else userVStart <= v < userVEnd
    }

    predicate Frame(f: int) {
      FrameOf(PF_KERNEL, f) || FrameOf(PF_USER, f)
    }

    predicate Page(v: int) {
      PageOf(PF_KERNEL, v) || PageOf(PF_USER, v)
    }
  }

  /** The free frames and free virtual pages, the page table entries by page, the page tables by index in the directory,
      and what every frame in use is used for. */
  datatype Mem = Mem(frames: set<int>, pages: set<int>, pte: map<nat, Pte>, pde: map<nat, nat>, use: map<nat, Use>)

  predicate Mapped(m: Mem, v: int) {
    v >= 0 && v in m.pte && m.pte[v].present
  }

  predicate UsedFor(m: Mem, f: nat, u: Use) {
    f in m.use && m.use[f] == u
  }

  /** Index in the page directory. */
  function Dir(v: nat): nat {
    v / 1024
  }

  // ----- the invariant -----

  /** A virtual page is taken exactly if it is mapped, or is one of the `pending` pages on the way in or out. */
  ghost predicate PagesOk(lay: Layout, m: Mem, pending: set<int>) {
    && (forall v :: v in m.pages ==> lay.Page(v))
    && (forall v :: lay.Page(v) ==> (v in m.pages <==> !Mapped(m, v) && v !in pending))
    && (forall v :: Mapped(m, v) ==> lay.Page(v))
    && (forall v :: v in pending ==> lay.Page(v) && !Mapped(m, v))
  }

  /** A frame is taken exactly if it is in use. */
  ghost predicate FramesOk(lay: Layout, m: Mem) {
    && (forall f :: f in m.frames ==> lay.Frame(f))
    && (forall f: nat :: lay.Frame(f) ==> (f in m.frames <==> f !in m.use))
    && (forall f: nat :: f in m.use ==> lay.Frame(f))
  }

  /** Every mapped page's frame is used for that page, kernel pages have kernel frames and user pages user frames. */
  ghost predicate MappedOk(lay: Layout, m: Mem) {
    && (forall v: nat :: Mapped(m, v) ==> UsedFor(m, m.pte[v].frame, Data(v)) && Dir(v) in m.pde)
    && (forall v: nat, pf :: Mapped(m, v) && lay.PageOf(pf, v) ==> lay.FrameOf(pf, m.pte[v].frame))
  }

  /** Every frame in use is used for what the page table says: so none is both a page table and mapped. */
  ghost predicate UsesOk(lay: Layout, m: Mem) {
    && (forall f: nat :: f in m.use && m.use[f].Data? ==> Mapped(m, m.use[f].page) && m.pte[m.use[f].page].frame == f)
    && (forall f: nat :: f in m.use && m.use[f].Table? ==> m.use[f].dir in m.pde && m.pde[m.use[f].dir] == f)
    && (forall f: nat :: f in m.use && m.use[f].Table? ==> lay.FrameOf(PF_KERNEL, f))
  }

  ghost predicate TablesOk(lay: Layout, m: Mem) {
    && (forall d: nat :: d in m.pde && lay.Frame(m.pde[d]) ==> UsedFor(m, m.pde[d], Table(d)))
    && (forall v: nat :: lay.PageOf(PF_KERNEL, v) ==> Dir(v) in m.pde)
  }

  ghost predicate TableOk(lay: Layout, m: Mem) {
    MappedOk(lay, m) && UsesOk(lay, m) && TablesOk(lay, m)
  }

  ghost predicate MemOk(lay: Layout, m: Mem, pending: set<int>) {
    lay.Apart() && PagesOk(lay, m, pending) && FramesOk(lay, m) && TableOk(lay, m)
  }

  /** No frame is mapped at two pages. */
  lemma Injective(lay: Layout, m: Mem, pending: set<int>, v: nat, w: nat)
    requires MemOk(lay, m, pending) && Mapped(m, v) && Mapped(m, w) && m.pte[v].frame == m.pte[w].frame
    ensures v == w
  {
    assert UsedFor(m, m.pte[v].frame, Data(v)) && UsedFor(m, m.pte[w].frame, Data(w));
  }

  // ----- what a request and a release change -----

  /** Every page of `added` is mapped besides what was mapped; nothing is mapped differently, and the frames newly in use
      hold these pages or page tables. */
  ghost predicate MapsMore(m: Mem, m1: Mem, added: set<int>) {
    && (forall w :: Mapped(m1, w) <==> Mapped(m, w) || w in added)
    && (forall w: nat :: Mapped(m, w) ==> Mapped(m1, w) && m1.pte[w] == m.pte[w])
    && (forall f: nat :: f in m.use ==> UsedFor(m1, f, m.use[f]))
    && (forall f: nat :: f in m1.use && f !in m.use ==> m1.use[f].Table? || (m1.use[f].Data? && m1.use[f].page in added))
  }

  /** The pages of `removed` are mapped no more and their frames are out of use; everything else is as it was. */
  ghost predicate MapsLess(m: Mem, m1: Mem, removed: set<int>) {
    && (forall w :: Mapped(m1, w) <==> Mapped(m, w) && w !in removed)
    && (forall w: nat :: Mapped(m1, w) ==> Mapped(m, w) && m1.pte[w] == m.pte[w])
    && (forall f: nat, u: Use :: UsedFor(m1, f, u) <==> UsedFor(m, f, u) && !(u.Data? && u.page in removed))
  }

  lemma MapsMoreTwice(m: Mem, m1: Mem, m2: Mem, s: set<int>, t: set<int>)
    requires MapsMore(m, m1, s) && MapsMore(m1, m2, t)
    ensures MapsMore(m, m2, s + t)
  {
    forall f: nat | f in m.use
      ensures UsedFor(m2, f, m.use[f])
    {
      assert UsedFor(m1, f, m.use[f]);
    }
    forall f: nat | f in m2.use && f !in m.use
      ensures m2.use[f].Table? || (m2.use[f].Data? && m2.use[f].page in s + t)
    {
      if f in m1.use {
        assert UsedFor(m2, f, m1.use[f]);
      }
    }
  }

  lemma MapsLessTwice(m: Mem, m1: Mem, m2: Mem, s: set<int>, t: set<int>)
    requires MapsLess(m, m1, s) && MapsLess(m1, m2, t)
    ensures MapsLess(m, m2, s + t)
  {
  }

  /** The maps say nothing of the two bitmaps. */
  lemma MapsOnly(m: Mem, m1: Mem, n: Mem, n1: Mem, s: set<int>)
    requires n == m.(frames := n.frames, pages := n.pages) && n1 == m1.(frames := n1.frames, pages := n1.pages)
    ensures MapsMore(m, m1, s) ==> MapsMore(n, n1, s)
    ensures MapsLess(m, m1, s) ==> MapsLess(n, n1, s)
  {
    if MapsLess(m, m1, s) {
      forall f: nat, u: Use
        ensures UsedFor(n1, f, u) <==> UsedFor(n, f, u) && !(u.Data? && u.page in s)
      {
        assert UsedFor(n1, f, u) <==> UsedFor(m1, f, u);
      }
    }
  }

  lemma MapsNothing(m: Mem)
    ensures MapsMore(m, m, {}) && MapsLess(m, m, {})
  {
  }

  /** Taking pages and giving them back restores the virtual bitmap, the mapping and every frame but those of page tables
      made on the way, which stay. */
  lemma AllocateThenFree(lay: Layout, m: Mem, m1: Mem, m2: Mem, s: set<int>)
    requires MemOk(lay, m, {}) && MemOk(lay, m2, {})
    requires s <= m.pages && MapsMore(m, m1, s) && m1.pages == m.pages - s
    requires MapsLess(m1, m2, s) && m2.pages == m1.pages + s
    ensures m2.pages == m.pages
    ensures forall w :: Mapped(m2, w) <==> Mapped(m, w)
    ensures forall w: nat :: Mapped(m, w) ==> m2.pte[w] == m.pte[w]
    ensures forall f: nat :: f in m.frames <==> f in m2.frames || (f !in m.use && f in m2.use && m2.use[f].Table?)
    ensures forall f :: lay.FrameOf(PF_USER, f) ==> (f in m.frames <==> f in m2.frames)
  {
    forall f: nat
      ensures f in m.use ==> f in m2.use
      ensures f in m2.use && f !in m.use ==> m2.use[f].Table?
    {
      if f in m.use {
        assert UsedFor(m1, f, m.use[f]);
        assert UsedFor(m2, f, m.use[f]);
      }
      if f in m2.use && f !in m.use {
        assert UsedFor(m1, f, m2.use[f]);
      }
    }
  }

  // ----- single steps -----

  /** A page table takes frame `f`: it becomes table `d`, cleared. */
  function WithTable(m: Mem, d: nat, f: nat): Mem {
    m.(frames := m.frames - {f as int}, pde := m.pde[d := f], use := m.use[f := Table(d)],
       pte := map v | v in m.pte && Dir(v) != d :: m.pte[v])
  }

  /** Page `v` is mapped to frame `f`. */
  function WithPage(m: Mem, v: nat, f: nat): Mem {
    m.(frames := m.frames - {f as int}, pte := m.pte[v := Pte(f, true)], use := m.use[f := Data(v)])
  }

  /** Page `v` is not mapped any more and its frame is free. */
  function WithoutPage(m: Mem, v: nat): Mem
    requires v in m.pte
  {
    var f := m.pte[v].frame;
    m.(frames := m.frames + {f as int}, pte := m.pte[v := m.pte[v].(present := false)], use := m.use - {f})
  }

  lemma TableTakenMaps(lay: Layout, m: Mem, pending: set<int>, d: nat, f: nat)
    requires MemOk(lay, m, pending) && d !in m.pde && f as int in m.frames
    ensures f !in m.use && MapsMore(m, WithTable(m, d, f), {})
    ensures forall w :: Mapped(WithTable(m, d, f), w) <==> Mapped(m, w)
  {
    forall v
      ensures Mapped(WithTable(m, d, f), v) <==> Mapped(m, v)
    {
    }
  }

  lemma TableTaken(lay: Layout, m: Mem, pending: set<int>, d: nat, f: nat)
    requires MemOk(lay, m, pending) && d !in m.pde && f as int in m.frames && lay.FrameOf(PF_KERNEL, f)
    ensures MemOk(lay, WithTable(m, d, f), pending) && MapsMore(m, WithTable(m, d, f), {})
  {
    hide MapsMore, Layout.FrameOf, Layout.PageOf, Layout.Apart;
    TableTakenMaps(lay, m, pending, d, f);
    var m1 := WithTable(m, d, f);
    assert MappedOk(lay, m1) by {
      hide PagesOk, FramesOk, UsesOk, TablesOk;
    }
    assert UsesOk(lay, m1) by {
      hide PagesOk, FramesOk, MappedOk, TablesOk;
    }
    assert TablesOk(lay, m1) by {
      hide PagesOk, FramesOk, MappedOk, UsesOk;
    }
    assert PagesOk(lay, m1, pending) && FramesOk(lay, m1) by {
      hide TableOk;
    }
  }

  lemma PageMappedMaps(lay: Layout, m: Mem, pending: set<int>, v: nat, f: nat)
    requires MemOk(lay, m, pending) && v as int in pending && f as int in m.frames
    ensures f !in m.use && !Mapped(m, v) && MapsMore(m, WithPage(m, v, f), {v as int})
    ensures forall w :: Mapped(WithPage(m, v, f), w) <==> Mapped(m, w) || w == v
  {
    hide TableOk;
    forall w
      ensures Mapped(WithPage(m, v, f), w) <==> Mapped(m, w) || w == v
    {
    }
  }

  lemma OnePool(lay: Layout, pf: PoolFlags, v: nat)
    requires lay.Apart() && lay.PageOf(pf, v)
    ensures forall p :: lay.PageOf(p, v) ==> p == pf
  {
  }

  lemma PageMapped(lay: Layout, m: Mem, pending: set<int>, pf: PoolFlags, v: nat, f: nat)
    requires MemOk(lay, m, pending) && v as int in pending && lay.PageOf(pf, v) && Dir(v) in m.pde
    requires f as int in m.frames && lay.FrameOf(pf, f)
    ensures MemOk(lay, WithPage(m, v, f), pending - {v as int}) && MapsMore(m, WithPage(m, v, f), {v as int})
  {
    hide MapsMore, Layout.FrameOf, Layout.PageOf, Layout.Apart;
    PageMappedMaps(lay, m, pending, v, f);
    OnePool(lay, pf, v);
    var m1 := WithPage(m, v, f);
    assert MappedOk(lay, m1) by {
      hide PagesOk, FramesOk, UsesOk, TablesOk;
    }
    assert UsesOk(lay, m1) by {
      hide PagesOk, FramesOk, MappedOk, TablesOk;
    }
    assert TablesOk(lay, m1) by {
      hide PagesOk, FramesOk, MappedOk, UsesOk;
    }
    assert PagesOk(lay, m1, pending - {v as int}) && FramesOk(lay, m1) by {
      hide TableOk;
    }
  }

  lemma PageUnmappedMaps(lay: Layout, m: Mem, pending: set<int>, v: nat)
    requires MemOk(lay, m, pending) && Mapped(m, v)
    ensures MapsLess(m, WithoutPage(m, v), {v as int}) && UsedFor(m, m.pte[v].frame, Data(v))
    ensures forall w :: Mapped(WithoutPage(m, v), w) <==> Mapped(m, w) && w != v
  {
    forall w
      ensures Mapped(WithoutPage(m, v), w) <==> Mapped(m, w) && w != v
    {
    }
  }

  lemma PageUnmapped(lay: Layout, m: Mem, pending: set<int>, v: nat)
    requires MemOk(lay, m, pending) && Mapped(m, v)
    ensures MemOk(lay, WithoutPage(m, v), pending + {v as int}) && MapsLess(m, WithoutPage(m, v), {v as int})
  {
    hide MapsLess, Layout.FrameOf, Layout.PageOf, Layout.Apart;
    PageUnmappedMaps(lay, m, pending, v);
    var m1 := WithoutPage(m, v);
    assert MappedOk(lay, m1) by {
      hide PagesOk, FramesOk, UsesOk, TablesOk;
    }
    assert UsesOk(lay, m1) by {
      hide PagesOk, FramesOk, MappedOk, TablesOk;
    }
    assert TablesOk(lay, m1) by {
      hide PagesOk, FramesOk, MappedOk, UsesOk;
    }
    assert PagesOk(lay, m1, pending + {v as int}) && FramesOk(lay, m1) by {
      hide TableOk;
    }
  }

  /** Pages whose bits have just been set are on their way in. */
  lemma PagesTaken(lay: Layout, m: Mem, s: set<int>)
    requires MemOk(lay, m, {}) && s <= m.pages
    ensures MemOk(lay, m.(pages := m.pages - s), s)
  {
    var m1 := m.(pages := m.pages - s);
    assert forall v :: Mapped(m1, v) <==> Mapped(m, v);
    assert forall f: nat, u: Use :: UsedFor(m1, f, u) <==> UsedFor(m, f, u);
  }

  lemma PagesGiven(lay: Layout, m: Mem, s: set<int>)
    requires MemOk(lay, m, s)
    ensures MemOk(lay, m.(pages := m.pages + s), {})
  {
    var m1 := m.(pages := m.pages + s);
    assert forall v :: Mapped(m1, v) <==> Mapped(m, v);
    assert forall f: nat, u: Use :: UsedFor(m1, f, u) <==> UsedFor(m, f, u);
  }

  lemma MappedFacts(lay: Layout, m: Mem, pending: set<int>, v: nat)
    requires MemOk(lay, m, pending) && Mapped(m, v)
    ensures v in m.pte && lay.Frame(m.pte[v].frame) && forall pf :: lay.PageOf(pf, v) ==> lay.FrameOf(pf, m.pte[v].frame)
  {
  }

  lemma WithoutPageIs(m: Mem, v: nat, f: nat)
    requires v in m.pte && m.pte[v].frame == f
    ensures WithoutPage(m, v) ==
      m.(frames := m.frames + {f as int}, pte := m.pte[v := m.pte[v].(present := false)], use := m.use - {f})
  {
  }

  lemma StillMapped(m: Mem, m1: Mem, first: nat, k: nat)
    requires MapsLess(m, m1, Range(first, k)) && Mapped(m, first + k)
    ensures Mapped(m1, first + k)
  {
  }

  lemma MappedNow(m: Mem, m1: Mem, s: set<int>)
    requires MapsMore(m, m1, s)
    ensures forall v :: v in s ==> Mapped(m1, v)
  {
  }

  lemma NotPresent(m: Mem, v: nat)
    ensures !Mapped(m, v) ==> !(v in m.pte && m.pte[v].present)
  {
  }

  lemma WithTableThen(m: Mem, d: nat, t: nat, v: nat, f: nat)
    requires f as int !in m.frames && t as int in m.frames && d == Dir(v)
    ensures v !in WithTable(m, d, t).pte
    ensures WithTable(m.(frames := m.frames + {f as int}), d, t) ==
      WithTable(m, d, t).(frames := WithTable(m, d, t).frames + {f as int})
    ensures d in WithTable(m, d, t).pde && f as int !in WithTable(m, d, t).frames
  {
  }

  lemma WithPageOf(m: Mem, m1: Mem, v: nat, f: nat)
    requires f as int !in m.frames && m1 == m.(frames := m.frames + {f as int})
    ensures WithPage(m1, v, f) == m.(pte := m.pte[v := Pte(f, true)], use := m.use[f := Data(v)])
  {
  }

  lemma PendingFacts(lay: Layout, m: Mem, pending: set<int>, pf: PoolFlags, v: nat)
    requires MemOk(lay, m, pending) && v as int in pending && lay.PageOf(pf, v)
    ensures !Mapped(m, v) && (pf == PF_KERNEL ==> Dir(v) in m.pde)
  {
  }

  // ----- bitmaps as sets -----

  ghost predicate FreeAt(start: nat, bits: seq<byte>, x: int) {
    start <= x < start + 8 * |bits| && !BitSet(bits, x - start)
  }

  /** The numbers from `start` on whose bits are clear. */
  ghost function FreeIn(start: nat, bits: seq<byte>): set<int> {
    set x: int | start <= x < start + 8 * |bits| && FreeAt(start, bits, x)
  }

  lemma FreeInUpdated(start: nat, before: seq<byte>, after: seq<byte>, idx: nat, value: bool)
    requires BitUpdated(before, after, idx, value)
    ensures FreeIn(start, after) == if value then FreeIn(start, before) - {start + idx} else FreeIn(start, before) + {start + idx}
    ensures |after| == |before|
  {
  }

  lemma FreeInRange(start: nat, bits: seq<byte>)
    ensures forall x :: x in FreeIn(start, bits) ==> start <= x < start + 8 * |bits|
    ensures forall k: nat :: k < 8 * |bits| ==> (start + k in FreeIn(start, bits) <==> !BitSet(bits, k))
    ensures FreeIn(start, bits) != {} <==> exists k: nat :: k < 8 * |bits| && !BitSet(bits, k)
    ensures (forall k: nat :: k < 8 * |bits| ==> BitSet(bits, k)) ==> FreeIn(start, bits) == {}
  {
    if FreeIn(start, bits) != {} {
      var x :| x in FreeIn(start, bits);
      assert !BitSet(bits, x - start);
    }
    if exists k: nat :: k < 8 * |bits| && !BitSet(bits, k) {
      var k: nat :| k < 8 * |bits| && !BitSet(bits, k);
      assert start + k in FreeIn(start, bits);
    }
  }

  lemma ZerosFree(start: nat, len: nat)
    ensures forall x :: x in FreeIn(start, Copies<byte>(0, len)) <==> start <= x < start + 8 * len
  {
    assert forall k: nat :: k < 8 * len ==> !BitSet(Copies<byte>(0, len), k);
  }

  predicate Between(v: int, x: int, cnt: nat) {
    v <= x < v + cnt
  }

  function Range(v: int, cnt: nat): set<int> {
    set x: int | v <= x < v + cnt && Between(v, x, cnt)
  }

  /** No `cnt` pages in a row are free. */
  ghost predicate NoRun(free: set<int>, cnt: nat) {
    forall v: nat :: !(Range(v, cnt) <= free)
  }

  /** `first` is the lowest page from which `cnt` pages are free. */
  ghost predicate LowestRun(free: set<int>, first: nat, cnt: nat) {
    Range(first, cnt) <= free && forall v: nat :: v < first ==> !(Range(v, cnt) <= free)
  }

  lemma OneLowest(free: set<int>, first: nat, other: nat, cnt: nat)
    requires LowestRun(free, first, cnt) && LowestRun(free, other, cnt)
    ensures first == other
  {
    hide Range;
  }

  /** The kernel stops at an assertion: no page is free, or the lowest run of a process's free pages starts at the page of its
      stack, the last one below the kernel. */
  ghost predicate NoPages(pf: PoolFlags, free: set<int>, cnt: nat) {
    free == {} || (pf == PF_USER && exists v: nat :: LowestRun(free, v, cnt) && v >= 0xbffff)
  }

  /** The indices of the page directory that `cnt` pages from `first` on belong to. */
  function Dirs(first: nat, cnt: nat): set<nat> {
    if cnt == 0 then {} else Dirs(first, cnt - 1) + {Dir(first + cnt - 1)}
  }

  /** Page tables are made for these pages where there was none, and no others; those there were stay. */
  ghost predicate TablesMore(before: map<nat, nat>, after: map<nat, nat>, first: nat, cnt: nat) {
    after.Keys == before.Keys + Dirs(first, cnt) && forall d :: d in before ==> after[d] == before[d]
  }

  lemma {:induction false} DirsWithin(first: nat, k: nat, cnt: nat)
    requires k <= cnt
    ensures Dirs(first, k) <= Dirs(first, cnt)
  {
    if k < cnt {
      DirsWithin(first, k, cnt - 1);
    }
  }

  lemma DirsStep(first: nat, k: nat)
    ensures Dirs(first + k, 1) == {Dir(first + k)} && Dirs(first, k + 1) == Dirs(first, k) + {Dir(first + k)}
  {
    hide Dir;
    assert Dirs(first + k, 1) == Dirs(first + k, 0) + {Dir(first + k)};
  }

  lemma OneMore(s: set<nat>, x: nat, base: set<nat>)
    ensures |(s + {x}) - base| == |s - base| + if x in base + s then 0 else 1
  {
    if x in base + s {
      assert (s + {x}) - base == s - base;
    } else {
      assert (s + {x}) - base == (s - base) + {x};
    }
  }

  lemma OneLess(s: set<nat>, t: set<nat>, x: nat, base: set<nat>)
    requires s + {x} <= t && x !in base + s
    ensures |s - base| < |t - base|
  {
    OneMore(s, x, base);
    var u, w := (s + {x}) - base, t - base;
    assert w == u + (w - u);
  }

  lemma TablesStep(before: map<nat, nat>, mid: map<nat, nat>, after: map<nat, nat>, first: nat, k: nat)
    requires TablesMore(before, mid, first, k) && TablesMore(mid, after, first + k, 1)
    ensures TablesMore(before, after, first, k + 1)
  {
    hide Dir, Dirs;
    DirsStep(first, k);
  }

  lemma TablesCount(before: map<nat, nat>, mid: map<nat, nat>, first: nat, k: nat)
    requires TablesMore(before, mid, first, k)
    ensures |Dirs(first, k + 1) - before.Keys| == |Dirs(first, k) - before.Keys| + if Dir(first + k) in mid then 0 else 1
  {
    hide Dir, Dirs;
    DirsStep(first, k);
    OneMore(Dirs(first, k), Dir(first + k), before.Keys);
  }

  /** Where the next page has no table, the pages up to it need more tables than the pages before it. */
  lemma TablesShort(before: map<nat, nat>, mid: map<nat, nat>, first: nat, k: nat, cnt: nat)
    requires TablesMore(before, mid, first, k) && k < cnt && Dir(first + k) !in mid
    ensures |Dirs(first, k) - before.Keys| < |Dirs(first, cnt) - before.Keys|
  {
    hide Dir, Dirs;
    DirsStep(first, k);
    DirsWithin(first, k + 1, cnt);
    OneLess(Dirs(first, k), Dirs(first, cnt), Dir(first + k), before.Keys);
  }

  /** Not enough frames for `cnt` pages from `first` on, or in a process's space not enough kernel frames for their tables. */
  ghost predicate FewFrames(pf: PoolFlags, tables: set<nat>, frames: nat, kernelFrames: nat, first: nat, cnt: nat) {
    frames < cnt || (pf == PF_USER && kernelFrames < |Dirs(first, cnt) - tables|)
  }

  /** `now` frames and `kernelNow` kernel frames are left after `k` pages, with page tables `after`. */
  ghost predicate Taken(pf: PoolFlags, before: map<nat, nat>, after: map<nat, nat>, frames: nat, kernelFrames: nat,
    now: nat, kernelNow: nat, first: nat, k: nat)
  {
    && TablesMore(before, after, first, k) && now + k == frames
    && (pf == PF_USER ==> kernelNow + |Dirs(first, k) - before.Keys| == kernelFrames)
  }

  lemma TakenNone(pf: PoolFlags, before: map<nat, nat>, frames: nat, kernelFrames: nat, first: nat)
    ensures Taken(pf, before, before, frames, kernelFrames, frames, kernelFrames, first, 0)
  {
  }

  lemma TakenOne(pf: PoolFlags, before: map<nat, nat>, mid: map<nat, nat>, after: map<nat, nat>, frames: nat, kernelFrames: nat,
    now: nat, kernelNow: nat, kernelThen: nat, first: nat, k: nat)
    requires Taken(pf, before, mid, frames, kernelFrames, now, kernelNow, first, k) && now > 0
    requires TablesMore(mid, after, first + k, 1)
    requires pf == PF_USER ==> kernelThen == kernelNow - if Dir(first + k) in mid then 0 else 1
    ensures Taken(pf, before, after, frames, kernelFrames, now - 1, kernelThen, first, k + 1)
  {
    hide Dir, Dirs, TablesMore;
    TablesStep(before, mid, after, first, k);
    TablesCount(before, mid, first, k);
  }

  lemma TakenAll(pf: PoolFlags, before: map<nat, nat>, mid: map<nat, nat>, frames: nat, kernelFrames: nat,
    now: nat, kernelNow: nat, first: nat, k: nat, cnt: nat)
    requires Taken(pf, before, mid, frames, kernelFrames, now, kernelNow, first, k) && k <= cnt
    ensures k == cnt ==> TablesMore(before, mid, first, cnt) && !FewFrames(pf, before.Keys, frames, kernelFrames, first, cnt)
    ensures k < cnt && now == 0 ==> FewFrames(pf, before.Keys, frames, kernelFrames, first, cnt)
    ensures k < cnt && pf == PF_USER && kernelNow == 0 && Dir(first + k) !in mid ==>
      FewFrames(pf, before.Keys, frames, kernelFrames, first, cnt)
  {
    hide Dir, Dirs, TablesMore;
    if k < cnt && Dir(first + k) !in mid {
      TablesShort(before, mid, first, k, cnt);
    }
  }

  /** When `malloc_page` stops the kernel at an assertion. */
  ghost predicate Stops(pf: PoolFlags, free: set<int>, tables: set<nat>, frames: nat, kernelFrames: nat, cnt: nat) {
    || NoPages(pf, free, cnt)
    || exists first: nat :: LowestRun(free, first, cnt) && FewFrames(pf, tables, frames, kernelFrames, first, cnt)
  }

  lemma StopsAt(pf: PoolFlags, free: set<int>, tables: set<nat>, frames: nat, kernelFrames: nat, first: nat, cnt: nat)
    requires LowestRun(free, first, cnt) && !NoPages(pf, free, cnt)
    ensures Stops(pf, free, tables, frames, kernelFrames, cnt) <==> FewFrames(pf, tables, frames, kernelFrames, first, cnt)
  {
    hide LowestRun, NoPages, FewFrames;
    if Stops(pf, free, tables, frames, kernelFrames, cnt) {
      var other: nat :| LowestRun(free, other, cnt) && FewFrames(pf, tables, frames, kernelFrames, other, cnt);
      OneLowest(free, first, other, cnt);
    }
  }

  lemma StopsNot(pf: PoolFlags, free: set<int>, tables: set<nat>, frames: nat, kernelFrames: nat, cnt: nat)
    ensures NoPages(pf, free, cnt) ==> Stops(pf, free, tables, frames, kernelFrames, cnt)
    ensures NoRun(free, cnt) && free != {} ==> !Stops(pf, free, tables, frames, kernelFrames, cnt)
  {
    hide Range, FewFrames;
  }

  lemma RunIsRange(start: nat, bits: seq<byte>, k: nat, cnt: nat)
    ensures RunFree(bits, k, cnt) && cnt > 0 ==> Range(start + k, cnt) <= FreeIn(start, bits) && k + cnt <= 8 * |bits|
    ensures Range(start + k, cnt) <= FreeIn(start, bits) && cnt > 0 ==> RunFree(bits, k, cnt)
  {
    if Range(start + k, cnt) <= FreeIn(start, bits) && cnt > 0 {
      forall j | k <= j < k + cnt
        ensures j < 8 * |bits| && !BitSet(bits, j)
      {
        assert start + j in Range(start + k, cnt);
      }
      assert start + k + cnt - 1 in Range(start + k, cnt);
    }
  }

  // ----- the memory -----

  /** The outcome of a request for pages. `Halted`: a bitmap was full and the kernel stopped at an assertion. */
  datatype PageResult = Null | Halted | Pages(first: nat)

  class Memory {
    const lay: Layout
    const kernelPool: Bitmap
    const userPool: Bitmap
    const kernelVaddr: Bitmap
    const userVaddr: Bitmap
    var pte: map<nat, Pte>
    var pde: map<nat, nat>
    ghost var use: map<nat, Use>

    /** `mem_pool_init` for a machine of `allPages` pages, and a process's virtual pool. Half of the memory behind the first
        2 MB goes to either pool, counted in 16 bits and in whole bytes of bitmap; the page tables of the kernel's half of
        the address space exist from the start. */
    constructor (allPages: nat)
      requires 512 <= allPages
      ensures Shape() && MemOk(lay, View(), {})
      ensures lay.kernelStart == 512 && lay.kernelVStart == 0xc0100 && lay.userVStart == 0x8048 && lay.userVEnd == 0xc0000
      ensures lay.kernelVEnd - lay.kernelVStart == lay.kernelEnd - lay.kernelStart
      ensures var pages := (allPages - 512) % 65536;
        && lay.userStart == 512 + pages / 2
        && lay.kernelEnd == 512 + 8 * (pages / 2 / 8) && lay.userEnd == lay.userStart + 8 * ((pages - pages / 2) / 8)
      ensures forall x :: x in Frames() <==> lay.Frame(x)
      ensures forall x :: x in FreePages() <==> lay.Page(x)
      ensures allPages - 512 < 65536 ==> lay.userEnd <= allPages
    {
      hide MemOk, FreeIn, BitSet, View;
      var allFreePages := (allPages - 512) % 65536;
      var kernelFreePages := allFreePages / 2;
      var userFreePages := allFreePages - kernelFreePages;
      var kbmLength := kernelFreePages / 8;
      var ubmLength := userFreePages / 8;
      lay := Layout(512, 512 + 8 * kbmLength, 512 + kernelFreePages, 512 + kernelFreePages + 8 * ubmLength,
        0xc0100, 0xc0100 + 8 * kbmLength, 0x8048, 0x8048 + 8 * 94199);
      var kp := new Bitmap(kbmLength);
      var up := new Bitmap(ubmLength);
      var kv := new Bitmap(kbmLength);
      var uv := new Bitmap(94199);
      kernelPool, userPool, kernelVaddr, userVaddr := kp, up, kv, uv;
      pte, use := map[], map[];
      pde := map d: nat | 768 <= d < 1023 && Between(768, d, 255) :: 0x101 + d - 768;
      new;
      FreshMemory();
    }

    lemma FreshMemory()
      requires Shape() && pte == map[] && use == map[]
      requires kernelPool.bits[..] == Copies<byte>(0, kernelPool.bits.Length)
      requires userPool.bits[..] == Copies<byte>(0, userPool.bits.Length)
      requires kernelVaddr.bits[..] == Copies<byte>(0, kernelVaddr.bits.Length)
      requires userVaddr.bits[..] == Copies<byte>(0, userVaddr.bits.Length)
      requires forall d: nat :: d in pde <==> 768 <= d < 1023
      requires forall d: nat :: d in pde ==> pde[d] < lay.kernelStart
      requires 786688 <= lay.kernelVStart && lay.kernelVEnd <= 786688 + 32768
      ensures MemOk(lay, View(), {})
      ensures forall x :: x in Frames() <==> lay.Frame(x)
      ensures forall x :: x in FreePages() <==> lay.Page(x)
    {
      hide FreeIn, BitSet;
      ShapeFacts();
      ZerosFree(lay.kernelStart, kernelPool.bits.Length);
      ZerosFree(lay.userStart, userPool.bits.Length);
      ZerosFree(lay.kernelVStart, kernelVaddr.bits.Length);
      ZerosFree(lay.userVStart, userVaddr.bits.Length);
    }

    ghost predicate Shape() {
      && lay.Apart()
      && lay.kernelEnd == lay.kernelStart + 8 * kernelPool.bits.Length && lay.userEnd == lay.userStart + 8 * userPool.bits.Length
      && lay.kernelVEnd == lay.kernelVStart + 8 * kernelVaddr.bits.Length
      && lay.userVEnd == lay.userVStart + 8 * userVaddr.bits.Length
      && kernelPool.bits != userPool.bits && kernelVaddr.bits != userVaddr.bits
      && kernelPool.bits != kernelVaddr.bits && kernelPool.bits != userVaddr.bits
      && userPool.bits != kernelVaddr.bits && userPool.bits != userVaddr.bits
    }

    ghost function Frames(): set<int>
      reads kernelPool.bits, userPool.bits
    {
      FreeIn(lay.kernelStart, kernelPool.bits[..]) + FreeIn(lay.userStart, userPool.bits[..])
    }

    ghost function FreePages(): set<int>
      reads kernelVaddr.bits, userVaddr.bits
    {
      FreeIn(lay.kernelVStart, kernelVaddr.bits[..]) + FreeIn(lay.userVStart, userVaddr.bits[..])
    }

    ghost function View(): Mem
      reads `pte, `pde, `use, kernelPool.bits, userPool.bits, kernelVaddr.bits, userVaddr.bits
    {
      Mem(Frames(), FreePages(), pte, pde, use)
    }

    lemma ViewIs()
      ensures View() == Mem(Frames(), FreePages(), pte, pde, use)
    {
    }

    lemma ShapeFacts()
      requires Shape()
      ensures lay.Apart()
      ensures forall x :: x in Frames() && lay.FrameOf(PF_KERNEL, x) <==> x in FreeIn(lay.kernelStart, kernelPool.bits[..])
      ensures forall x :: x in Frames() && lay.FrameOf(PF_USER, x) <==> x in FreeIn(lay.userStart, userPool.bits[..])
      ensures forall x :: x in FreePages() && lay.PageOf(PF_KERNEL, x) <==> x in FreeIn(lay.kernelVStart, kernelVaddr.bits[..])
      ensures forall x :: x in FreePages() && lay.PageOf(PF_USER, x) <==> x in FreeIn(lay.userVStart, userVaddr.bits[..])
    {
      hide BitSet;
    }

    function FramePool(pf: PoolFlags): Bitmap {
      if pf == PF_KERNEL then kernelPool else userPool
    }

    function FrameStart(pf: PoolFlags): nat {
      if pf == PF_KERNEL then lay.kernelStart else lay.userStart
    }

    /** The free frames of one pool. */
    ghost function FramesOf(pf: PoolFlags): set<int>
      reads FramePool(pf).bits
    {
      FreeIn(FrameStart(pf), FramePool(pf).bits[..])
    }

    lemma FramesSplit(pf: PoolFlags)
      requires Shape()
      ensures forall x :: x in FramesOf(pf) <==> x in Frames() && lay.FrameOf(pf, x)
    {
      hide BitSet;
    }

    lemma FramesUnion()
      requires Shape()
      ensures Frames() == FramesOf(PF_KERNEL) + FramesOf(PF_USER) && FramesOf(PF_KERNEL) !! FramesOf(PF_USER)
      ensures FreePages() == FreePagesOf(PF_KERNEL) + FreePagesOf(PF_USER) && FreePagesOf(PF_KERNEL) !! FreePagesOf(PF_USER)
    {
    }

    lemma Pools()
      requires Shape()
      ensures FramePool(PF_KERNEL) == kernelPool && FramePool(PF_USER) == userPool
      ensures VaddrPool(PF_KERNEL) == kernelVaddr && VaddrPool(PF_USER) == userVaddr
      ensures kernelPool.bits != userPool.bits && kernelVaddr.bits != userVaddr.bits
      ensures kernelPool.bits != kernelVaddr.bits && kernelPool.bits != userVaddr.bits
      ensures userPool.bits != kernelVaddr.bits && userPool.bits != userVaddr.bits
    {
    }

    /** `palloc`: the lowest free frame; nothing when the pool is full, where `bitmap_scan` asserts. */
    method Palloc(pf: PoolFlags) returns (r: Option<nat>)
      requires Shape()
      modifies FramePool(pf).bits
      ensures r.None? <==> old(FramesOf(pf)) == {}
      ensures r.None? ==> FramesOf(pf) == {}
      ensures r.Some? ==> r.value in old(FramesOf(pf)) && FramesOf(pf) == old(FramesOf(pf)) - {r.value as int}
      ensures r.Some? ==> |FramesOf(pf)| == |old(FramesOf(pf))| - 1 && forall f :: f in old(FramesOf(pf)) ==> r.value <= f
    {
      hide FreeIn, BitSet, BitUpdated;
      var pool, start := FramePool(pf), FrameStart(pf);
      ghost var before := pool.bits[..];
      FreeInRange(start, before);
      var bitIdx := pool.Scan(1);
      assert pool.bits[..] == before;
      OneIsRun(before);
      if !bitIdx.StartAt? {
        return None;
      }
      OneFree(before, bitIdx.start);
      LowestBit(start, before, bitIdx.start);
      pool.Set(bitIdx.start, true);
      FreeInUpdated(start, before, pool.bits[..], bitIdx.start, true);
      return Some(start + bitIdx.start);
    }

    /** `pfree`: the pool is told by the frame's number. */
    method Pfree(f: nat)
      requires Shape() && lay.Frame(f)
      modifies kernelPool.bits, userPool.bits
      ensures Frames() == old(Frames()) + {f as int}
    {
      hide FreeIn, BitSet, BitUpdated;
      ghost var kb, ub := kernelPool.bits[..], userPool.bits[..];
      FramesUnion();
      if f >= lay.userStart {
        var bitIdx := f - lay.userStart;
        userPool.Set(bitIdx, false);
        FreeInUpdated(lay.userStart, ub, userPool.bits[..], bitIdx, false);
      } else {
        var bitIdx := f - lay.kernelStart;
        kernelPool.Set(bitIdx, false);
        FreeInUpdated(lay.kernelStart, kb, kernelPool.bits[..], bitIdx, false);
      }
      FramesUnion();
    }

    function VaddrPool(pf: PoolFlags): Bitmap {
      if pf == PF_KERNEL then kernelVaddr else userVaddr
    }

    function VaddrStart(pf: PoolFlags): nat {
      if pf == PF_KERNEL then lay.kernelVStart else lay.userVStart
    }

    /** The free pages of one pool. */
    ghost function FreePagesOf(pf: PoolFlags): set<int>
      reads VaddrPool(pf).bits
    {
      FreeIn(VaddrStart(pf), VaddrPool(pf).bits[..])
    }

    lemma FreePagesSplit(pf: PoolFlags)
      requires Shape()
      ensures forall x :: x in FreePagesOf(pf) <==> x in FreePages() && lay.PageOf(pf, x)
    {
      hide BitSet;
    }

    /** `vaddr_get`: the lowest run of `cnt` free pages of the pool is taken. */
    method VaddrGet(pf: PoolFlags, cnt: nat) returns (r: PageResult)
      requires Shape() && cnt > 0
      modifies VaddrPool(pf).bits
      ensures r.Halted? <==> NoPages(pf, old(FreePagesOf(pf)), cnt)
      ensures r.Null? <==> old(FreePagesOf(pf)) != {} && NoRun(old(FreePagesOf(pf)), cnt)
      ensures r.Null? ==> FreePagesOf(pf) == old(FreePagesOf(pf))
      ensures r.Pages? ==> LowestRun(old(FreePagesOf(pf)), r.first, cnt)
      ensures r.Pages? ==> FreePagesOf(pf) == old(FreePagesOf(pf)) - Range(r.first, cnt)
    {
      hide FreeIn, BitSet, RunFree, Range;
      var pool, start := VaddrPool(pf), VaddrStart(pf);
      ghost var before := pool.bits[..];
      FreeInRange(start, before);
      var scanned := pool.Scan(cnt);
      assert pool.bits[..] == before;
      if scanned.ScanHalted? {
        return Halted;
      }
      if scanned.NoStart? {
        NoRange(start, before, cnt, 8 * |before| + 1);
        return Null;
      }
      var bitIdxStart := scanned.start;
      RunIsRange(start, before, bitIdxStart, cnt);
      NoRange(start, before, cnt, bitIdxStart);
      SetRun(pool, bitIdxStart, cnt, true);
      RunSet(start, before, pool.bits[..], bitIdxStart, cnt, true);
      NoPagesAt(pf, FreeIn(start, before), start + bitIdxStart, cnt);
      if pf == PF_USER && start + bitIdxStart >= 0xbffff {
        return Halted;
      }
      return Pages(start + bitIdxStart);
    }

    /** `vaddr_remove` */
    method VaddrRemove(pf: PoolFlags, first: nat, cnt: nat)
      requires Shape() && VaddrStart(pf) <= first && first + cnt <= VaddrStart(pf) + 8 * VaddrPool(pf).bits.Length
      modifies VaddrPool(pf).bits
      ensures FreePagesOf(pf) == old(FreePagesOf(pf)) + Range(first, cnt)
    {
      hide FreeIn, BitSet, Range;
      var pool, start := VaddrPool(pf), VaddrStart(pf);
      ghost var before := pool.bits[..];
      SetRun(pool, first - start, cnt, false);
      RunSet(start, before, pool.bits[..], first - start, cnt, false);
    }

    /** The part of `page_table_add` that makes a page table: a kernel frame goes into the directory and is cleared. */
    method MakeTable(d: nat) returns (t: Option<nat>)
      requires Shape()
      modifies `pte, `pde, `use, kernelPool.bits
      ensures t.None? <==> old(FramesOf(PF_KERNEL)) == {}
      ensures t.Some? ==> t.value in old(FramesOf(PF_KERNEL)) && View() == WithTable(old(View()), d, t.value)
      ensures t.Some? ==> |FramesOf(PF_KERNEL)| == |old(FramesOf(PF_KERNEL))| - 1 && pde == old(pde)[d := t.value]
      ensures FreePages() == old(FreePages())
    {
      hide FreeIn, View, Frames, FreePages, FramesOf, Shape, BitSet;
      Pools();
      ViewIs();
      FramesUnion();
      t := Palloc(PF_KERNEL);
      if t.Some? {
        FramesUnion();
        pde := pde[d := t.value];
        pte := map w | w in pte && Dir(w) != d :: pte[w];
        use := use[t.value := Table(d)];
        ViewIs();
      }
    }

    /** `page_table_add`: page `v` is mapped to frame `f`, which has just been taken; a page table is taken from the kernel
        pool if there is none yet. The assertions that the entry is not present hold. */
    method PageTableAdd(pf: PoolFlags, v: nat, f: nat, ghost pending: set<int>) returns (ok: bool)
      requires Shape() && f as int !in Frames() && lay.FrameOf(pf, f) && lay.PageOf(pf, v) && v as int in pending
      requires MemOk(lay, View().(frames := Frames() + {f as int}), pending)
      modifies `pte, `pde, `use, kernelPool.bits
      ensures ok <==> Dir(v) in old(pde) || old(FramesOf(PF_KERNEL)) != {}
      ensures pf == PF_KERNEL ==> Dir(v) in old(pde)
      ensures ok ==> MemOk(lay, View(), pending - {v as int}) && MapsMore(old(View()), View(), {v as int})
      ensures ok ==> TablesMore(old(pde), pde, v, 1)
      ensures ok ==> |FramesOf(PF_KERNEL)| == |old(FramesOf(PF_KERNEL))| - if Dir(v) in old(pde) then 0 else 1
      ensures FreePages() == old(FreePages())
    {
      hide *;
      Pools();
      ghost var m0 := View();
      ghost var m := m0.(frames := Frames() + {f as int});
      ViewIs();
      PendingFacts(lay, m, pending, pf, v);
      ghost var m1 := m;
      if Dir(v) !in pde {
        FramesSplit(PF_KERNEL);
        var t := MakeTable(Dir(v));
        if t.None? {
          return false;
        }
        TableTaken(lay, m, pending, Dir(v), t.value);
        m1 := WithTable(m, Dir(v), t.value);
        WithTableThen(m0, Dir(v), t.value, v, f);
      } else {
        NotPresent(m, v);
        MapsNothing(m);
      }
      ViewIs();
      ghost var mid := View();
      assert !(v in pte && pte[v].present);
      pte := pte[v := Pte(f, true)];
      use := use[f := Data(v)];
      ViewIs();
      PageMapped(lay, m1, pending, pf, v, f);
      WithPageOf(mid, m1, v, f);
      MapsMoreTwice(m, m1, View(), {}, {v as int});
      assert {} + {v as int} == {v as int};
      MapsOnly(m, View(), m0, View(), {v as int});
      OneTable(old(pde), pde, v);
      return true;
    }

    /** The call of `palloc` in `malloc_page`: of all free frames, one of the pool's goes. */
    method TakeFrame(pf: PoolFlags) returns (r: Option<nat>)
      requires Shape()
      modifies FramePool(pf).bits
      ensures r.None? <==> old(FramesOf(pf)) == {}
      ensures r.Some? ==> r.value in old(Frames()) && lay.FrameOf(pf, r.value) && Frames() == old(Frames()) - {r.value as int}
      ensures r.Some? ==> |FramesOf(pf)| == |old(FramesOf(pf))| - 1
      ensures pf == PF_USER ==> FramesOf(PF_KERNEL) == old(FramesOf(PF_KERNEL))
      ensures FreePages() == old(FreePages())
    {
      hide *;
      Pools();
      FramesSplit(pf);
      FramesUnion();
      r := Palloc(pf);
      FramesUnion();
    }

    /** One turn of the loop of `malloc_page`. */
    method MapOne(pf: PoolFlags, v: nat, ghost pending: set<int>) returns (ok: bool)
      requires Shape() && lay.PageOf(pf, v) && v as int in pending && MemOk(lay, View(), pending)
      modifies `pte, `pde, `use, kernelPool.bits, userPool.bits
      ensures pf == PF_KERNEL ==> Dir(v) in old(pde)
      ensures ok <==> |old(FramesOf(pf))| > 0 && (Dir(v) in old(pde) || |old(FramesOf(PF_KERNEL))| > 0)
      ensures ok ==> MemOk(lay, View(), pending - {v as int}) && MapsMore(old(View()), View(), {v as int})
      ensures ok ==> TablesMore(old(pde), pde, v, 1) && |FramesOf(pf)| == |old(FramesOf(pf))| - 1
      ensures ok && pf == PF_USER ==>
        |FramesOf(PF_KERNEL)| == |old(FramesOf(PF_KERNEL))| - if Dir(v) in old(pde) then 0 else 1
      ensures FreePages() == old(FreePages())
    {
      hide *;
      Pools();
      ghost var m0 := View();
      ViewIs();
      PendingFacts(lay, m0, pending, pf, v);
      var f := TakeFrame(pf);
      if f.None? {
        return false;
      }
      ViewIs();
      ghost var m1 := View();
      assert Frames() + {f.value as int} == m0.frames;
      assert m1.(frames := Frames() + {f.value as int}) == m0;
      ok := PageTableAdd(pf, v, f.value, pending);
      MapsOnly(m1, View(), m0, View(), {v as int});
    }

    /** The loop of `malloc_page`. */
    method MapAll(pf: PoolFlags, vaddr: nat, cnt: nat) returns (ok: bool)
      requires Shape() && MemOk(lay, View(), Range(vaddr, cnt)) && forall v :: v in Range(vaddr, cnt) ==> lay.PageOf(pf, v)
      modifies `pte, `pde, `use, kernelPool.bits, userPool.bits
      ensures ok <==> !FewFrames(pf, old(pde.Keys), |old(FramesOf(pf))|, |old(FramesOf(PF_KERNEL))|, vaddr, cnt)
      ensures ok ==> MemOk(lay, View(), {}) && MapsMore(old(View()), View(), Range(vaddr, cnt))
      ensures ok ==> TablesMore(old(pde), pde, vaddr, cnt)
      ensures FreePages() == old(FreePages())
    {
      hide *;
      Pools();
      ghost var m1 := View();
      ghost var frames, kernelFrames := |FramesOf(pf)|, |FramesOf(PF_KERNEL)|;
      MapsNothing(m1);
      RangeNone(vaddr, cnt);
      TakenNone(pf, pde, frames, kernelFrames, vaddr);
      var k := 0;
      while k < cnt
        invariant 0 <= k <= cnt && Shape()
        invariant MemOk(lay, View(), Range(vaddr + k, cnt - k)) && MapsMore(m1, View(), Range(vaddr, k))
        invariant Taken(pf, old(pde), pde, frames, kernelFrames, |FramesOf(pf)|, |FramesOf(PF_KERNEL)|, vaddr, k)
        invariant FreePages() == old(FreePages())
      {
        ghost var m2 := View();
        ghost var tables, now, kernelNow := pde, |FramesOf(pf)|, |FramesOf(PF_KERNEL)|;
        RangeStep(vaddr, k, cnt);
        ok := MapOne(pf, vaddr + k, Range(vaddr + k, cnt - k));
        if !ok {
          TakenAll(pf, old(pde), tables, frames, kernelFrames, now, kernelNow, vaddr, k, cnt);
          return;
        }
        TakenOne(pf, old(pde), tables, pde, frames, kernelFrames, now, kernelNow, |FramesOf(PF_KERNEL)|, vaddr, k);
        MapsMoreTwice(m1, m2, View(), Range(vaddr, k), {vaddr + k});
        k := k + 1;
      }
      TakenAll(pf, old(pde), pde, frames, kernelFrames, |FramesOf(pf)|, |FramesOf(PF_KERNEL)|, vaddr, cnt, cnt);
      ok := true;
    }

    /** The first step of `malloc_page`: the pages are taken from the virtual pool. */
    method TakePages(pf: PoolFlags, cnt: nat) returns (r: PageResult)
      requires Shape() && 0 < cnt && MemOk(lay, View(), {})
      modifies VaddrPool(pf).bits
      ensures r.Null? <==> old(FreePagesOf(pf)) != {} && NoRun(old(FreePagesOf(pf)), cnt)
      ensures r.Null? ==> View() == old(View())
      ensures r.Halted? <==> NoPages(pf, old(FreePagesOf(pf)), cnt)
      ensures r.Pages? ==> LowestRun(old(FreePagesOf(pf)), r.first, cnt) && MemOk(lay, View(), Range(r.first, cnt))
      ensures r.Pages? ==> View() == old(View()).(pages := old(View()).pages - Range(r.first, cnt))
      ensures r.Pages? ==> forall v :: v in Range(r.first, cnt) ==> lay.PageOf(pf, v)
      ensures FramesOf(PF_KERNEL) == old(FramesOf(PF_KERNEL)) && FramesOf(PF_USER) == old(FramesOf(PF_USER))
    {
      hide *;
      Pools();
      ghost var m0 := View();
      ViewIs();
      FramesUnion();
      FreePagesSplit(pf);
      r := VaddrGet(pf, cnt);
      FramesUnion();
      ViewIs();
      if r.Pages? {
        LowestFree(r.first, cnt);
        PagesTaken(lay, m0, Range(r.first, cnt));
        assert View() == m0.(pages := m0.pages - Range(r.first, cnt));
      }
    }

    /** `malloc_page`: the lowest run of `cnt` free pages, each mapped to a frame of its own, with page tables for no other
        pages. Nothing comes of it exactly if there are free pages but not `cnt` in a row. */
    method MallocPage(pf: PoolFlags, cnt: nat) returns (r: PageResult)
      requires Shape() && 0 < cnt < 3840 && MemOk(lay, View(), {})
      modifies `pte, `pde, `use, kernelPool.bits, userPool.bits, VaddrPool(pf).bits
      ensures r.Null? <==> old(FreePagesOf(pf)) != {} && NoRun(old(FreePagesOf(pf)), cnt)
      ensures r.Null? ==> View() == old(View())
      ensures r.Halted? <==>
        Stops(pf, old(FreePagesOf(pf)), old(pde.Keys), |old(FramesOf(pf))|, |old(FramesOf(PF_KERNEL))|, cnt)
      ensures r.Pages? ==> LowestRun(old(FreePagesOf(pf)), r.first, cnt) && MapsMore(old(View()), View(), Range(r.first, cnt))
      ensures r.Pages? ==> MemOk(lay, View(), {}) && View().pages == old(View()).pages - Range(r.first, cnt)
      ensures r.Pages? ==> TablesMore(old(pde), pde, r.first, cnt)
    {
      hide *;
      Pools();
      ghost var m0 := View();
      StopsNot(pf, FreePagesOf(pf), pde.Keys, |FramesOf(pf)|, |FramesOf(PF_KERNEL)|, cnt);
      r := TakePages(pf, cnt);
      if r.Pages? {
        StopsAt(pf, old(FreePagesOf(pf)), pde.Keys, |FramesOf(pf)|, |FramesOf(PF_KERNEL)|, r.first, cnt);
        ViewIs();
        ghost var m1 := View();
        var ok := MapAll(pf, r.first, cnt);
        if !ok {
          return Halted;
        }
        ViewIs();
        MapsOnly(m1, View(), m0, View(), Range(r.first, cnt));
      }
    }

    /** `page_table_pte_remove`: only the present bit is cleared. */
    method PageTablePteRemove(v: nat)
      requires v in pte
      modifies `pte
      ensures pte == old(pte)[v := old(pte[v]).(present := false)]
    {
      pte := pte[v := pte[v].(present := false)];
    }

    /** One turn of a loop of `mfree_page`. */
    method UnmapOne(v: nat, ghost pending: set<int>)
      requires Shape() && MemOk(lay, View(), pending) && Mapped(View(), v)
      modifies `pte, `use, kernelPool.bits, userPool.bits
      ensures MemOk(lay, View(), pending + {v as int}) && MapsLess(old(View()), View(), {v as int})
      ensures FreePages() == old(FreePages())
    {
      hide *;
      Pools();
      ViewIs();
      ghost var m := View();
      PageUnmapped(lay, m, pending, v);
      MappedFacts(lay, m, pending, v);
      var pgPhyaddr := pte[v].frame;
      Pfree(pgPhyaddr);
      PageTablePteRemove(v);
      use := use - {pgPhyaddr};
      ViewIs();
      WithoutPageIs(m, v, pgPhyaddr);
    }

    /** `mfree_page` of `cnt` pages mapped from `first` on, in one pool. Its assertions about the frames' pool hold. */
    method MfreePage(pf: PoolFlags, first: nat, cnt: nat)
      requires Shape() && 0 < cnt && MemOk(lay, View(), {})
      requires forall v :: v in Range(first, cnt) ==> Mapped(View(), v) && lay.PageOf(pf, v)
      modifies `pte, `use, kernelPool.bits, userPool.bits, VaddrPool(pf).bits
      ensures MemOk(lay, View(), {}) && MapsLess(old(View()), View(), Range(first, cnt))
      ensures View().pages == old(View()).pages + Range(first, cnt)
    {
      hide *;
      Pools();
      ViewIs();
      ghost var m := View();
      ghost var all := Range(first, cnt);
      RangeNone(first, cnt);
      MapsNothing(m);
      var k := 0;
      while k < cnt
        invariant 0 <= k <= cnt && Shape()
        invariant MemOk(lay, View(), Range(first, k)) && MapsLess(m, View(), Range(first, k))
        invariant FreePages() == old(FreePages())
      {
        ghost var m2 := View();
        RangeStep(first, k, cnt);
        StillMapped(m, m2, first, k);
        MappedFacts(lay, m2, Range(first, k), first + k);
        ViewIs();
        var pgPhyaddr := pte[first + k].frame;
        assert lay.FrameOf(pf, pgPhyaddr);
        UnmapOne(first + k, Range(first, k));
        MapsLessTwice(m, m2, View(), Range(first, k), {first + k});
        k := k + 1;
      }
      ghost var m3 := View();
      RangeInPool(pf, first, cnt);
      ViewIs();
      FramesUnion();
      VaddrRemove(pf, first, cnt);
      FramesUnion();
      ViewIs();
      PagesGiven(lay, m3, all);
      assert View() == m3.(pages := m3.pages + all);
      MapsOnly(m, m3, m, View(), all);
    }

    lemma RangeInPool(pf: PoolFlags, first: nat, cnt: nat)
      requires Shape() && 0 < cnt && forall v :: v in Range(first, cnt) ==> lay.PageOf(pf, v)
      ensures VaddrStart(pf) <= first && first + cnt <= VaddrStart(pf) + 8 * VaddrPool(pf).bits.Length
    {
      assert first as int in Range(first, cnt) && first + cnt - 1 in Range(first, cnt);
    }

    /** The pages of a request given back at once: everything is as before, except for page tables made on the way. */
    method MallocThenFree(pf: PoolFlags, cnt: nat) returns (r: PageResult)
      requires Shape() && 0 < cnt < 3840 && MemOk(lay, View(), {})
      modifies `pte, `pde, `use, kernelPool.bits, userPool.bits, VaddrPool(pf).bits
      ensures !r.Halted? ==> FreePages() == old(FreePages()) && FramesOf(PF_USER) == old(FramesOf(PF_USER))
      ensures !r.Halted? ==> forall w :: Mapped(View(), w) <==> Mapped(old(View()), w)
      ensures !r.Halted? ==> forall f: nat ::
        f in old(View()).frames <==> f in View().frames || (f !in old(View()).use && f in View().use && View().use[f].Table?)
    {
      hide *;
      Pools();
      ghost var m := View();
      ViewIs();
      FramesUnion();
      FramesSplit(PF_USER);
      FreePagesSplit(pf);
      ghost var users := FramesOf(PF_USER);
      r := MallocPage(pf, cnt);
      ViewIs();
      FramesUnion();
      if r.Pages? {
        ghost var m1 := View();
        LowestFree(r.first, cnt);
        MappedNow(m, m1, Range(r.first, cnt));
        MfreePage(pf, r.first, cnt);
        ViewIs();
        AllocateThenFree(lay, m, m1, View(), Range(r.first, cnt));
      }
      FramesSplit(PF_USER);
      if !r.Halted? {
        assert Frames() == View().frames;
        assert forall x :: lay.FrameOf(PF_USER, x) ==> (x in m.frames <==> x in Frames());
        assert forall x :: x in FramesOf(PF_USER) <==> x in users;
      }
    }
  }

  lemma LowestBit(start: nat, bits: seq<byte>, r: nat)
    requires forall s: nat :: s < r ==> !RunFree(bits, s, 1)
    ensures forall x :: x in FreeIn(start, bits) ==> start + r <= x
  {
    hide BitSet;
    forall x | x in FreeIn(start, bits)
      ensures start + r <= x
    {
      assert RunFree(bits, x - start, 1);
    }
  }

  lemma NoPagesAt(pf: PoolFlags, free: set<int>, first: nat, cnt: nat)
    requires Range(first, cnt) <= free && cnt > 0
    requires forall v: nat :: v < first ==> !(Range(v, cnt) <= free)
    ensures first as int in free && LowestRun(free, first, cnt)
    ensures NoPages(pf, free, cnt) <==> pf == PF_USER && first >= 0xbffff
  {
    assert first as int in Range(first, cnt);
    hide Range;
    if pf == PF_USER && exists v: nat :: LowestRun(free, v, cnt) && v >= 0xbffff {
      var v: nat :| LowestRun(free, v, cnt) && v >= 0xbffff;
      OneLowest(free, first, v, cnt);
    }
  }

  lemma OneTable(before: map<nat, nat>, after: map<nat, nat>, v: nat)
    requires after.Keys == before.Keys + {Dir(v)} && forall d :: d in before ==> after[d] == before[d]
    ensures TablesMore(before, after, v, 1)
  {
    hide Dir, Dirs;
    DirsStep(v, 0);
  }

  lemma LowestFree(first: nat, cnt: nat)
    ensures forall free :: LowestRun(free, first, cnt) ==> Range(first, cnt) <= free
  {
  }

  lemma RangeNone(v: int, cnt: nat)
    ensures Range(v, 0) == {} && Range(v + cnt, 0) == {}
  {
  }

  lemma RangeStep(v: int, k: nat, cnt: nat)
    requires k < cnt
    ensures v + k in Range(v, cnt)
    ensures Range(v, k) + {v + k} == Range(v, k + 1) && v + k in Range(v + k, cnt - k)
    ensures Range(v + k, cnt - k) - {v + k} == Range(v + k + 1, cnt - k - 1)
  {
  }

  /** Without a run of free bits before bit `limit` there is no range of free numbers before it. */
  lemma NoRange(start: nat, bits: seq<byte>, cnt: nat, limit: nat)
    requires cnt > 0 && forall k: nat :: k < limit ==> !RunFree(bits, k, cnt)
    ensures forall v: nat :: v < start + limit ==> !(Range(v, cnt) <= FreeIn(start, bits))
    ensures limit > 8 * |bits| ==> forall v: nat :: !(Range(v, cnt) <= FreeIn(start, bits))
  {
    hide BitSet, RunFree;
    forall v: nat | v < start + limit || limit > 8 * |bits|
      ensures !(Range(v, cnt) <= FreeIn(start, bits))
    {
      assert v as int in Range(v, cnt);
      if v >= start {
        RunIsRange(start, bits, v - start, cnt);
      }
    }
  }

  /** The loops over `bitmap_set` in `vaddr_get` and `vaddr_remove`. */
  method SetRun(b: Bitmap, first: nat, cnt: nat, value: bool)
    requires first + cnt <= 8 * b.bits.Length
    modifies b.bits
    ensures RunIs(old(b.bits[..]), b.bits[..], first, cnt, value)
  {
    var k := 0;
    while k < cnt
      invariant 0 <= k <= cnt && RunIs(old(b.bits[..]), b.bits[..], first, k, value)
    {
      b.Set(first + k, value);
      k := k + 1;
    }
  }

  ghost predicate RunIs(before: seq<byte>, after: seq<byte>, first: nat, cnt: nat, value: bool) {
    && |after| == |before|
    && forall j: nat :: j < 8 * |before| ==> BitSet(after, j) == if first <= j < first + cnt then value else BitSet(before, j)
  }

  lemma RunSet(start: nat, before: seq<byte>, after: seq<byte>, first: nat, cnt: nat, value: bool)
    requires RunIs(before, after, first, cnt, value) && first + cnt <= 8 * |before|
    ensures FreeIn(start, after) ==
      if value then FreeIn(start, before) - Range(start + first, cnt) else FreeIn(start, before) + Range(start + first, cnt)
  {
  }

  lemma OneFree(bits: seq<byte>, r: int)
    requires exists k: nat :: k < 8 * |bits| && !BitSet(bits, k)
    requires r == -1 <==> forall s: nat :: !RunFree(bits, s, 1)
    requires r != -1 ==> 0 <= r && RunFree(bits, r, 1)
    ensures 0 <= r < 8 * |bits| && !BitSet(bits, r)
  {
    var k: nat :| k < 8 * |bits| && !BitSet(bits, k);
    assert RunFree(bits, k, 1);
  }

  // ----- the directory mapped into itself -----

  /** `pte_ptr`: the last directory entry names the directory, so the table entry of `vaddr` has this virtual address. */
  function PtePtr(vaddr: bv32): bv32 {
    0xffc00000 + ((vaddr & 0xffc00000) >> 10) + ((vaddr & 0x003ff000) >> 12) * 4
  }

  function PdePtr(vaddr: bv32): bv32 {
    0xfffff000 + ((vaddr & 0xffc00000) >> 22) * 4
  }

  /** The directory is the page table of the page tables: the directory entry of an address is the table entry of its table
      entry. */
  lemma DirectoryMapsItself(vaddr: bv32)
    ensures PdePtr(vaddr) == PtePtr(PtePtr(vaddr))
  {
  }

  /** The page cleared for a new page table holds the entries of exactly the pages of that directory entry. */
  lemma TablePage(a: bv32, b: bv32)
    ensures PtePtr(a) & 0xfffff000 == PtePtr(b) & 0xfffff000 <==> PdePtr(a) == PdePtr(b)
  {
  }
}
