/** File descriptors: the table of each task, the file table that all share, and what fork and close do to the counts of the
    inodes behind them. Over any run of the system calls cache and disk agree exactly as long as nothing is removed while it is
    cached. */
module Descriptors {
  import opened Bytes
  import opened Wrappers
  import opened Bitmaps
  import opened Disks
  import opened InodeTables
  import opened Partitions
  import Files
  import opened DirEntries
  import opened Dirs
  import opened FileSystems
  import opened Operations
  import opened Paths
  import opened PathSearch
  import opened SystemCalls

  const MAX_FILES_OPEN_PER_PROC := 8

  /** The lowest free descriptor behind the standard streams leads to slot `globalFdIdx` now; `fd` is -1 exactly if none was
      free. */
  ghost predicate FdGiven(before: seq<int>, after: seq<int>, globalFdIdx: int, fd: int) {
    && (fd == -1 <==> forall k :: 3 <= k < |before| ==> before[k] != -1)
    && (fd == -1 ==> after == before)
    && (fd != -1 ==>
      && 3 <= fd < |before| && before[fd] == -1 && after == before[fd := globalFdIdx]
      && forall k :: 3 <= k < fd ==> before[k] != -1)
  }

  /** A `struct task`, by its `fd_table`. */
  class Task {
    var fdTable: seq<int>

    constructor (fdTable: seq<int>)
      requires |fdTable| == MAX_FILES_OPEN_PER_PROC
      ensures Valid() && this.fdTable == fdTable
    {
      this.fdTable := fdTable;
    }

    ghost predicate Valid()
      reads this
    {
      |fdTable| == MAX_FILES_OPEN_PER_PROC
    }

    lemma Length()
      requires Valid()
      ensures |fdTable| == 8
    {
    }

    method Put(fd: int, globalFdIdx: int)
      requires Valid() && 0 <= fd < |fdTable|
      modifies this
      ensures Valid() && fdTable == old(fdTable)[fd := globalFdIdx]
    {
      fdTable := fdTable[fd := globalFdIdx];
    }

    /** `pcb_fd_install`: the first free descriptor behind the standard streams. */
    method PcbFdInstall(globalFdIdx: int) returns (localFdIdx: int)
      requires Valid()
      modifies this
      ensures Valid() && FdGiven(old(fdTable), fdTable, globalFdIdx, localFdIdx)
    {
      localFdIdx := 3;
      while localFdIdx < MAX_FILES_OPEN_PER_PROC
        invariant 3 <= localFdIdx <= 8 && fdTable == old(fdTable) && Valid()
        invariant forall k :: 3 <= k < localFdIdx ==> fdTable[k] != -1
      {
        if fdTable[localFdIdx] == -1 {
          fdTable := fdTable[localFdIdx := globalFdIdx];
          return;
        }
        localFdIdx := localFdIdx + 1;
      }
      localFdIdx := -1;
    }
  }

  // ----- fork -----

  /** The entries of a process's `fd_table` behind the standard streams are free or name slots that are in use. */
  ghost predicate FdsOk(fds: seq<int>, slots: seq<Option<Inode>>) {
    && |fds| == MAX_FILES_OPEN_PER_PROC
    && forall k :: 3 <= k < |fds| ==> fds[k] == -1 || (0 <= fds[k] < |slots| && slots[fds[k]].Some?)
  }

  /** How many of the descriptors 3 to `n` - 1 lead to inode `o`. */
  ghost function Descriptors(fds: seq<int>, slots: seq<Option<Inode>>, o: Inode, n: nat): nat {
    if n <= 3 || n > |fds| then 0
    else Descriptors(fds, slots, o, n - 1) + if 0 <= fds[n - 1] < |slots| && slots[fds[n - 1]] == Some(o) then 1 else 0
  }

  /** The cache after a fork: every inode is open once more for each of the child's descriptors. */
  ghost function Shared(c: map<Inode, nat>, fds: seq<int>, slots: seq<Option<Inode>>): map<Inode, nat> {
    map o | o in c :: c[o] + Descriptors(fds, slots, o, |fds|)
  }

  lemma SharedMore(c: map<Inode, nat>, fds: seq<int>, slots: seq<Option<Inode>>)
    ensures forall o :: o in c <==> o in Shared(c, fds, slots)
    ensures forall o :: o in c ==> Shared(c, fds, slots)[o] >= c[o]
  {
    hide Descriptors;
  }

  lemma SharedIs(part: Partition, c: map<Inode, nat>, fds: seq<int>, slots: seq<Option<Inode>>)
    requires forall o :: o in part.openInodes <==> o in c
    requires forall o :: o in c ==> o.openCnts == c[o] + Descriptors(fds, slots, o, |fds|)
    ensures Cache(part) == Shared(c, fds, slots)
  {
    hide Descriptors;
  }

  /** `update_inode_open_cnts`, for a process without pipes. */
  method UpdateInodeOpenCnts(part: Partition, table: FileTable, fds: seq<int>)
    requires FdsOk(fds, table.fdInode)
    requires forall k :: 0 <= k < |table.fdInode| && table.fdInode[k].Some? ==> table.fdInode[k].value in part.openInodes
    modifies part.openInodes`openCnts
    ensures Cache(part) == Shared(old(Cache(part)), fds, table.fdInode)
  {
    hide *;
    ghost var c := Cache(part);
    CacheIs(part);
    FdsFacts(fds, table.fdInode);
    var localIdx := 3;
    DescriptorsNone(fds, table.fdInode);
    while localIdx < MAX_FILES_OPEN_PER_PROC
      invariant 3 <= localIdx <= |fds|
      invariant forall o :: o in c ==> o.openCnts == c[o] + Descriptors(fds, table.fdInode, o, localIdx)
      modifies part.openInodes`openCnts
    {
      var globalIdx := fds[localIdx];
      DescriptorsMore(fds, table.fdInode, localIdx);
      if globalIdx != -1 {
        var inode := table.fdInode[globalIdx].value;
        inode.openCnts := inode.openCnts + 1;
      }
      localIdx := localIdx + 1;
    }
    SharedIs(part, c, fds, table.fdInode);
  }

  lemma FdsFacts(fds: seq<int>, slots: seq<Option<Inode>>)
    requires FdsOk(fds, slots)
    ensures |fds| == MAX_FILES_OPEN_PER_PROC == 8
    ensures forall k :: 3 <= k < |fds| ==> fds[k] == -1 || (0 <= fds[k] < |slots| && slots[fds[k]].Some?)
  {
  }

  lemma DescriptorsNone(fds: seq<int>, slots: seq<Option<Inode>>)
    ensures forall o :: Descriptors(fds, slots, o, 3) == 0
  {
  }

  lemma DescriptorsMore(fds: seq<int>, slots: seq<Option<Inode>>, k: nat)
    requires 3 <= k < |fds|
    ensures forall o ::
      var more := if 0 <= fds[k] < |slots| && slots[fds[k]] == Some(o) then 1 else 0;
      Descriptors(fds, slots, o, k + 1) == Descriptors(fds, slots, o, k) + more
  {
  }

  /** The descriptors of a process that has one file open. */
  function OneFd(fdIdx: int): seq<int> {
    [-1, -1, -1, fdIdx, -1, -1, -1, -1]
  }

  lemma OneFdCounts(fdIdx: int, slots: seq<Option<Inode>>, inode: Inode)
    requires 0 <= fdIdx < |slots| && slots[fdIdx] == Some(inode)
    ensures FdsOk(OneFd(fdIdx), slots)
    ensures forall o :: Descriptors(OneFd(fdIdx), slots, o, |OneFd(fdIdx)|) == if o == inode then 1 else 0
    ensures forall c: map<Inode, nat> :: inode in c ==> Shared(c, OneFd(fdIdx), slots) == Bump(c, inode)
  {
    var fds := OneFd(fdIdx);
    forall o
      ensures Descriptors(fds, slots, o, |fds|) == if o == inode then 1 else 0
    {
      assert Descriptors(fds, slots, o, 3) == 0;
      assert Descriptors(fds, slots, o, 4) == if o == inode then 1 else 0;
      assert Descriptors(fds, slots, o, 5) == Descriptors(fds, slots, o, 4);
      assert Descriptors(fds, slots, o, 6) == Descriptors(fds, slots, o, 5);
      assert Descriptors(fds, slots, o, 7) == Descriptors(fds, slots, o, 6);
      assert Descriptors(fds, slots, o, 8) == Descriptors(fds, slots, o, 7);
    }
  }

  /** A process opens a file and forks, and the child closes it: the slot that both share is free, while the parent still has the
      file open. Unlinking it leaves cache and disk in disagreement. */
  method SharedSlot(part: Partition, table: FileTable, root: Inode, path: seq<byte>, ghost t: Tree, ghost padding: set<int>)
    returns (r: SysUnlinkResult)
    requires Sound(part, t, padding) && root in part.openInodes && root.no == 0 && table.Valid() && !TableFull(table.fdInode)
    requires PathOk(path) && path[|path| - 1] != SLASH && !Behind(part.sb, View(part), path)
    requires Target(part.sb, View(part), path).Found? && Target(part.sb, View(part), path).kind == FT_REGULAR
    requires forall k :: 0 <= k < |table.fdInode| && table.fdInode[k].Some? ==>
      table.fdInode[k].value in part.openInodes && table.fdInode[k].value.no as nat != Target(part.sb, View(part), path).no
    modifies part`disk, part.blockBitmap.bits, part.inodeBitmap.bits, part`openInodes, table
    modifies part.openInodes`openCnts, part.openInodes`size, part.openInodes`sectors, part.openInodes`writenDeny
    ensures r.Unlinked? && Unsound(part)
  {
    hide *;
    ghost var sb, s, c, w := part.sb, View(part), Cache(part), Target(part.sb, View(part), path);
    ghost var slots := table.fdInode;
    PathFacts(path);
    Kinds();
    CacheIs(part);
    SoundFacts(part, t, padding);
    FoundKind(sb, s, t, padding, path);
    var file, left := SysOpen(part, table, root, path, false, false, t, padding);
    OpenedThen(sb, s, path, TableFull(slots), file);
    SlotFacts(slots, table.fdInode, file.fdIdx, file.inode);
    CacheIs(part);
    GrabFacts(c, left);
    BumpFacts(Grab(c, left), file.inode);
    SlotsCached(slots, table.fdInode, file.fdIdx, file.inode, part.openInodes);
    ForkAndClose(part, table, file.fdIdx, file.inode, t, padding);
    CacheIs(part);
    CachedIs(part.openInodes, w.no);
    r := SysUnlink(part, table, root, path, t, padding);
  }

  lemma SlotsCached(l: seq<Option<Inode>>, m: seq<Option<Inode>>, fdIdx: int, inode: Inode, cached: seq<Inode>)
    requires SlotTaken(l, m, fdIdx, inode) && inode in cached
    requires forall k :: 0 <= k < |l| && l[k].Some? ==> l[k].value in cached
    ensures forall k :: 0 <= k < |m| && m[k].Some? ==> m[k].value in cached
  {
  }

  /** The counts go up for a child, and all else stays. */
  method OpenedForChild(part: Partition, table: FileTable, fds: seq<int>, ghost t: Tree, ghost padding: set<int>)
    requires Sound(part, t, padding) && FdsOk(fds, table.fdInode)
    requires forall k :: 0 <= k < |table.fdInode| && table.fdInode[k].Some? ==> table.fdInode[k].value in part.openInodes
    modifies part.openInodes`openCnts
    ensures Sound(part, t, padding) && View(part) == old(View(part))
    ensures Cache(part) == Shared(old(Cache(part)), fds, table.fdInode)
  {
    hide *;
    ghost var c := Cache(part);
    SoundFacts(part, t, padding);
    CacheIs(part);
    ViewIs(part);
    UpdateInodeOpenCnts(part, table, fds);
    ViewIs(part);
    CacheIs(part);
    SharedMore(c, fds, table.fdInode);
    SoundIntro(part, t, padding);
  }

  /** `fork` in a process that has the one file open, and `close` in the child: the inode stays cached, its slot is free. */
  method ForkAndClose(part: Partition, table: FileTable, fdIdx: nat, inode: Inode, ghost t: Tree, ghost padding: set<int>)
    requires Sound(part, t, padding) && fdIdx < |table.fdInode| && table.fdInode[fdIdx] == Some(inode)
    requires forall k :: 0 <= k < |table.fdInode| && table.fdInode[k].Some? ==> table.fdInode[k].value in part.openInodes
    modifies table, part`openInodes, part.openInodes`openCnts, part.openInodes`writenDeny
    ensures Sound(part, t, padding) && View(part) == old(View(part))
    ensures table.fdInode == old(table.fdInode)[fdIdx := None] && Cache(part) == old(Cache(part))
    ensures forall i :: 0 <= i < |part.openInodes| ==> part.openInodes[i] in old(part.openInodes)
  {
    hide *;
    ghost var c := Cache(part);
    CacheIs(part);
    SoundFacts(part, t, padding);
    OneFdCounts(fdIdx, table.fdInode, inode);
    OpenedForChild(part, table, OneFd(fdIdx), t, padding);
    FileClose(part, table, fdIdx, t, padding);
    DropBump(c, inode);
  }

  // ----- runs of system calls -----

  /** How many of the first `n` slots hold inode `o`. */
  ghost function Slots(l: seq<Option<Inode>>, o: Inode, n: nat): nat
    requires n <= |l|
  {
    if n == 0 then 0 else Slots(l, o, n - 1) + if l[n - 1] == Some(o) then 1 else 0
  }

  ghost function Count(c: map<Inode, nat>, o: Inode): nat {
    if o in c then c[o] else 0
  }

  /** The inode is open at least once for every slot that holds it, and the root once more. */
  ghost predicate HeldBy(l: seq<Option<Inode>>, c: map<Inode, nat>, root: Inode, o: Inode) {
    Slots(l, o, |l|) + (if o == root then 1 else 0) <= Count(c, o)
  }

  ghost predicate Held(l: seq<Option<Inode>>, c: map<Inode, nat>, root: Inode) {
    && HeldBy(l, c, root, root)
    && forall k :: 0 <= k < |l| && l[k].Some? ==> HeldBy(l, c, root, l[k].value)
  }

  lemma {:induction false} SlotsPut(l: seq<Option<Inode>>, k: nat, v: Option<Inode>, o: Inode, n: nat)
    requires k < |l| && n <= |l|
    ensures var had, has := if l[k] == Some(o) then 1 else 0, if v == Some(o) then 1 else 0;
      Slots(l[k := v], o, n) == Slots(l, o, n) + if k < n then has - had else 0
  {
    if n > 0 {
      SlotsPut(l, k, v, o, n - 1);
    }
  }

  lemma {:induction false} SlotsSome(l: seq<Option<Inode>>, k: nat, o: Inode, n: nat)
    requires k < n <= |l| && l[k] == Some(o)
    ensures Slots(l, o, n) >= 1
  {
    if k < n - 1 {
      SlotsSome(l, k, o, n - 1);
    }
  }

  lemma {:induction false} SlotsNone(l: seq<Option<Inode>>, o: Inode, n: nat)
    requires n <= |l| && forall k :: 0 <= k < n ==> l[k] != Some(o)
    ensures Slots(l, o, n) == 0
  {
    if n > 0 {
      SlotsNone(l, o, n - 1);
    }
  }

  /** What the file table holds is cached, and so is the root. */
  lemma HeldFacts(l: seq<Option<Inode>>, c: map<Inode, nat>, root: Inode)
    requires Held(l, c, root)
    ensures root in c && forall k :: 0 <= k < |l| && l[k].Some? ==> l[k].value in c
  {
    hide Slots;
    forall k | 0 <= k < |l| && l[k].Some?
      ensures l[k].value in c
    {
      SlotsSome(l, k, l[k].value, |l|);
    }
  }

  /** More is open. */
  lemma HeldMore(l: seq<Option<Inode>>, c: map<Inode, nat>, root: Inode, c1: map<Inode, nat>)
    requires Held(l, c, root) && forall o :: o in c ==> Count(c1, o) >= Count(c, o)
    ensures Held(l, c1, root)
  {
    hide Slots, Count;
    HeldFacts(l, c, root);
  }

  /** A slot more, and its inode open once more. */
  lemma HeldOpened(l: seq<Option<Inode>>, c: map<Inode, nat>, root: Inode, m: seq<Option<Inode>>, c1: map<Inode, nat>, k: int,
        o: Inode)
    requires Held(l, c, root) && SlotTaken(l, m, k, o)
    requires Count(c1, o) >= Count(c, o) + 1 && forall p :: p in c ==> Count(c1, p) >= Count(c, p)
    ensures Held(m, c1, root)
  {
    hide Slots, Count;
    HeldFacts(l, c, root);
    SlotsPut(l, k, Some(o), root, |l|);
    forall j | 0 <= j < |m| && m[j].Some?
      ensures HeldBy(m, c1, root, m[j].value)
    {
      SlotsPut(l, k, Some(o), m[j].value, |l|);
      if j == k && forall i :: 0 <= i < |l| ==> l[i] != Some(o) {
        SlotsNone(l, o, |l|);
      }
    }
  }

  /** A slot less, and its inode open once less. */
  lemma HeldClosed(l: seq<Option<Inode>>, c: map<Inode, nat>, root: Inode, k: nat, o: Inode)
    requires Held(l, c, root) && k < |l| && l[k] == Some(o)
    ensures Held(l[k := None], Drop(c, o), root)
  {
    hide Slots;
    HeldFacts(l, c, root);
    SlotsPut(l, k, None, root, |l|);
    forall j | 0 <= j < |l| && l[k := None][j].Some?
      ensures HeldBy(l[k := None], Drop(c, o), root, l[j].value)
    {
      SlotsPut(l, k, None, l[j].value, |l|);
    }
  }

  lemma SlotTakenLength(l: seq<Option<Inode>>, m: seq<Option<Inode>>, k: int, o: Inode)
    requires SlotTaken(l, m, k, o)
    ensures |m| == |l|
  {
  }

  lemma GrabCounts(c: map<Inode, nat>, left: Handle)
    ensures forall o :: o in c ==> Count(Grab(c, left), o) >= Count(c, o)
  {
  }

  lemma BumpCounts(c: map<Inode, nat>, left: Handle, inode: Inode)
    ensures var c1 := Bump(Grab(c, left), inode);
      Count(c1, inode) >= Count(c, inode) + 1 && forall o :: o in c ==> Count(c1, o) >= Count(c, o)
  {
  }

  lemma NewCounts(c: map<Inode, nat>, inode: Inode)
    requires inode !in c
    ensures var c1 := c[inode := 1];
      Count(c1, inode) >= Count(c, inode) + 1 && forall o :: o in c ==> Count(c1, o) >= Count(c, o)
  {
  }

  lemma NothingNew(part: Partition, c: map<Inode, nat>, l: seq<Inode>)
    requires Cache(part) == c && forall o :: o in c ==> o in l
    ensures forall i :: 0 <= i < |part.openInodes| ==> part.openInodes[i] in l
  {
    CacheIs(part);
  }

  lemma EmptyCounts(c: map<Inode, nat>, root: Inode)
    ensures Count(Bump(c, root), root) >= 1
  {
  }

  lemma NotLess(c: map<Inode, nat>, c1: map<Inode, nat>)
    requires forall o :: o in c ==> o in c1 && c1[o] >= c[o]
    ensures forall o :: o in c ==> Count(c1, o) >= Count(c, o)
  {
  }

  /** The path leads to a file or directory that is in the cache. */
  ghost predicate LeadsToCached(part: Partition, path: seq<byte>)
    requires PathOk(path)
    reads part`disk, part`openInodes, part.blockBitmap.bits, part.inodeBitmap.bits, part.openInodes`no
  {
    var w := Target(part.sb, View(part), path);
    w.Found? && Cached(part.openInodes, w.no)
  }

  lemma LeadsToCachedIs(part: Partition, path: seq<byte>)
    requires PathOk(path)
    ensures var w := Target(part.sb, View(part), path); LeadsToCached(part, path) <==> w.Found? && Cached(part.openInodes, w.no)
  {
    hide Target, Cached;
  }

  lemma LastShort(path: seq<byte>)
    requires PathOk(path)
    ensures |LastName(path)| <= 15
  {
    hide Pad;
  }

  lemma LastPaddedIs(path: seq<byte>)
    ensures |LastName(path)| <= 15 ==> LastPadded(path) == Pad(LastName(path))
  {
    hide Pad;
  }

  lemma RootHeld(l: seq<Option<Inode>>, c: map<Inode, nat>, root: Inode)
    requires l == Copies<Option<Inode>>(None, 32) && Count(c, root) >= 1
    ensures |l| == 32 && Held(l, c, root)
  {
    SlotsNone(l, root, |l|);
  }

  /** A mounted partition, the file table and the root directory, between system calls. As long as nothing was removed that was
      cached, nor a directory through its own ".", all is sound; once that has happened, no tree describes cache and disk. */
  class Calls {
    const part: Partition
    const table: FileTable
    const root: Inode
    ghost var tree: Tree
    ghost var padding: set<int>
    ghost var broken: bool

    ghost predicate Valid()
      reads this, table, root`no, part`disk, part`openInodes, part.blockBitmap.bits, part.inodeBitmap.bits, part.openInodes
    {
      && table.Valid() && root.no == 0 && Held(table.fdInode, Cache(part), root)
      && (if broken then Unsound(part) else Sound(part, tree, padding))
    }

    /** The end of `filesys_init`: nothing is cached yet, no slot is taken, and the root directory is opened. */
    constructor (part: Partition, table: FileTable, ghost tree: Tree, ghost padding: set<int>)
      requires Sound(part, tree, padding) && part.openInodes == [] && table.fdInode == Copies<Option<Inode>>(None, 32)
      modifies part`openInodes
      ensures Valid() && !broken && this.part == part && this.table == table && fresh(root) && View(part) == old(View(part))
    {
      hide *;
      ghost var c := Cache(part);
      SoundFacts(part, tree, padding);
      RootIsDirectory(part.sb, View(part), tree, padding);
      var rootInode := SystemCalls.Open(part, 0, tree, padding);
      this.part, this.table, this.root, this.tree, this.padding, broken := part, table, rootInode, tree, padding, false;
      new;
      EmptyCounts(c, root);
      RootHeld(table.fdInode, Cache(part), root);
      ValidIntro();
    }

    lemma ValidFacts()
      requires Valid() && !broken
      ensures table.Valid() && |table.fdInode| == 32 && root.no == 0
      ensures Held(table.fdInode, Cache(part), root) && Sound(part, tree, padding)
      ensures root in part.openInodes
      ensures forall k :: 0 <= k < |table.fdInode| && table.fdInode[k].Some? ==> table.fdInode[k].value in part.openInodes
    {
      hide Held, Sound;
      HeldFacts(table.fdInode, Cache(part), root);
      CacheIs(part);
    }

    lemma ValidIntro()
      requires |table.fdInode| == 32 && root.no == 0 && Held(table.fdInode, Cache(part), root)
      requires if broken then Unsound(part) else Sound(part, tree, padding)
      ensures Valid()
    {
      hide Held, Sound, Unsound;
    }

    /** `sys_open`: the caller gets its first free descriptor. If it has none, slot and inode stay taken all the same. */
    method Open(task: Task, path: seq<byte>, create: bool, write: bool) returns (r: OpenResult, fd: int)
      requires Valid() && !broken && task.Valid() && path != [] && (path[|path| - 1] != SLASH ==> PathOk(path))
      requires create && path[|path| - 1] != SLASH && LastMissing(part.sb, View(part), path) ==>
        Fits(part.sb, View(part), Where(Target(part.sb, View(part), path)), 0)
      modifies this, task, table, part`disk, part.blockBitmap.bits, part.inodeBitmap.bits, part`openInodes
      modifies part.openInodes`openCnts, part.openInodes`size, part.openInodes`sectors, part.openInodes`writenDeny
      ensures r.TrailingSlash? <==> path[|path| - 1] == SLASH
      ensures path[|path| - 1] != SLASH ==> OpenOutcome(part.sb, old(View(part)), path, create, TableFull(old(table.fdInode)), r)
      ensures !r.OpenHalted? ==> Valid() && !broken && task.Valid()
      ensures r.Created? || r.OpenedFile? || r.Denied? ==> SlotTaken(old(table.fdInode), table.fdInode, r.fdIdx, r.inode)
      ensures !r.Created? && !r.OpenedFile? && !r.Denied? && !r.OpenHalted? ==> table.fdInode == old(table.fdInode)
      ensures r.Created? || r.OpenedFile? ==> FdGiven(old(task.fdTable), task.fdTable, r.fdIdx, fd)
      ensures !r.Created? && !r.OpenedFile? ==> fd == -1 && task.fdTable == old(task.fdTable)
      ensures !r.Created? && !r.OpenHalted? ==> View(part) == old(View(part))
      ensures r.Created? ==> CreatedAt(part.sb, old(View(part)), View(part), old(tree), path, r.inode.no)
      ensures forall i :: 0 <= i < |part.openInodes| ==> part.openInodes[i] in old(part.openInodes) || fresh(part.openInodes[i])
    {
      hide *;
      ValidFacts();
      ghost var s, c, l := View(part), Cache(part), table.fdInode;
      CacheIs(part);
      ghost var left;
      r, left := SysOpen(part, table, root, path, create, write, tree, padding);
      fd := -1;
      if r.OpenHalted? {
        return;
      }
      if r.Created? {
        tree := CreatedTree(part.sb, s, View(part), tree, path, r.inode.no);
        NewCounts(c, r.inode);
      }
      if r.OpenedFile? || r.Denied? {
        BumpCounts(c, left, r.inode);
      }
      if r.Created? || r.OpenedFile? || r.Denied? {
        HeldOpened(l, c, root, table.fdInode, Cache(part), r.fdIdx, r.inode);
        SlotTakenLength(l, table.fdInode, r.fdIdx, r.inode);
      } else {
        GrabCounts(c, left);
        HeldMore(l, c, root, Cache(part));
      }
      ValidIntro();
      if r.Created? || r.OpenedFile? {
        fd := task.PcbFdInstall(r.fdIdx);
      }
    }

    /** `sys_close` of a descriptor that leads to a file. */
    method Close(task: Task, fd: int)
      requires Valid() && !broken && task.Valid() && 3 <= fd < 8
      requires 0 <= task.fdTable[fd] < |table.fdInode| && table.fdInode[task.fdTable[fd]].Some?
      modifies task, table, part`openInodes, part.openInodes`openCnts, part.openInodes`writenDeny
      ensures Valid() && !broken && task.Valid() && View(part) == old(View(part))
      ensures table.fdInode == old(table.fdInode)[old(task.fdTable)[fd] := None] && task.fdTable == old(task.fdTable)[fd := -1]
      ensures Cache(part) == Drop(old(Cache(part)), old(table.fdInode)[old(task.fdTable)[fd]].value)
      ensures forall i :: 0 <= i < |part.openInodes| ==> part.openInodes[i] in old(part.openInodes)
    {
      hide *;
      ValidFacts();
      task.Length();
      var globalFd := task.fdTable[fd];
      ghost var l, c, inode := table.fdInode, Cache(part), table.fdInode[globalFd].value;
      FileClose(part, table, globalFd, tree, padding);
      HeldClosed(l, c, root, globalFd, inode);
      ValidIntro();
      task.Put(fd, -1);
    }

    /** `fork`, as far as files go: the child has the descriptors of its parent. */
    method Fork(task: Task) returns (child: Task)
      requires Valid() && !broken && task.Valid() && FdsOk(task.fdTable, table.fdInode)
      modifies part.openInodes`openCnts
      ensures Valid() && !broken && fresh(child) && child.Valid() && child.fdTable == task.fdTable
      ensures View(part) == old(View(part))
      ensures Cache(part) == Shared(old(Cache(part)), task.fdTable, table.fdInode)
    {
      hide *;
      ValidFacts();
      FdsFacts(task.fdTable, table.fdInode);
      ghost var c := Cache(part);
      OpenedForChild(part, table, task.fdTable, tree, padding);
      SharedMore(c, task.fdTable, table.fdInode);
      NotLess(c, Shared(c, task.fdTable, table.fdInode));
      HeldMore(table.fdInode, c, root, Cache(part));
      ValidIntro();
      child := new Task(task.fdTable);
    }

    method Mkdir(path: seq<byte>) returns (r: MkdirResult)
      requires Valid() && !broken && PathOk(path)
      requires LastMissing(part.sb, View(part), path) ==> Fits(part.sb, View(part), Target(part.sb, View(part), path).dir, 1)
      modifies this, part`disk, part.blockBitmap.bits, part.inodeBitmap.bits, part`openInodes
      modifies part.openInodes`openCnts, part.openInodes`size, part.openInodes`sectors
      ensures !r.MkdirHalted? ==> Valid() && !broken && Cache(part) == old(Cache(part))
      ensures r.Exists? <==> Target(part.sb, old(View(part)), path).Found?
      ensures r.NoSubpath? <==> Target(part.sb, old(View(part)), path).Missing? && !LastMissing(part.sb, old(View(part)), path)
      ensures r.Made? <==>
        && LastMissing(part.sb, old(View(part)), path)
        && Room(part.sb, old(View(part)), Target(part.sb, old(View(part)), path).dir, 1)
      ensures r.Exists? || r.NoSubpath? ==> View(part) == old(View(part))
      ensures r.Made? ==> var d, e := Target(part.sb, old(View(part)), path).dir, Entry(Pad(LastName(path)), r.no, FT_DIRECTORY);
        && AddedTo(part.sb, old(View(part)), View(part), old(tree), d, e)
        && Target(part.sb, View(part), path) == Found(r.no, FT_DIRECTORY, d)
      ensures !r.MkdirHalted? ==> forall i :: 0 <= i < |part.openInodes| ==> part.openInodes[i] in old(part.openInodes)
    {
      hide *;
      ValidFacts();
      ghost var c, l := Cache(part), part.openInodes;
      ghost var s := View(part);
      CacheIs(part);
      r := SysMkdir(part, root, path, tree, padding);
      if r.MkdirHalted? {
        return;
      }
      NothingNew(part, c, l);
      if r.Made? {
        LastShort(path);
        LastPaddedIs(path);
        tree := AddTree(part.sb, s, View(part), tree, Target(part.sb, s, path).dir, Entry(LastPadded(path), r.no, FT_DIRECTORY));
      }
      ValidIntro();
    }

    method Unlink(path: seq<byte>) returns (r: SysUnlinkResult)
      requires Valid() && !broken && PathOk(path)
      modifies this, part`disk, part.blockBitmap.bits, part.inodeBitmap.bits, part`openInodes
      modifies part.openInodes`openCnts, part.openInodes`size, part.openInodes`sectors
      ensures !r.UnlinkHalted? ==> Valid() && Cache(part) == old(Cache(part))
      ensures broken <==> r.Unlinked? && old(LeadsToCached(part, path))
      ensures var w := Target(part.sb, old(View(part)), path);
        && (r.NotFound? <==> w.Missing?)
        && (r.UnlinkHalted? <==> w.Found? && w.no == 0)
        && (r.IsDirectory? <==> w.Found? && w.no != 0 && w.kind == FT_DIRECTORY)
        && (r.Busy? <==>
          && w.Found? && w.no != 0 && w.kind == FT_REGULAR
          && exists k :: 0 <= k < |table.fdInode| && table.fdInode[k].Some? && table.fdInode[k].value.no as nat == w.no)
      ensures r.NotFound? || r.IsDirectory? || r.Busy? ==> View(part) == old(View(part))
      ensures r.Unlinked? ==> var w := Target(part.sb, old(View(part)), path);
        && w.no < 4096 && RemovedFrom(part.sb, old(View(part)), View(part), old(tree), w.parent, w.no)
        && Target(part.sb, View(part), path).Missing?
      ensures !r.UnlinkHalted? ==> forall i :: 0 <= i < |part.openInodes| ==> part.openInodes[i] in old(part.openInodes)
    {
      hide *;
      ValidFacts();
      ghost var c, l := Cache(part), part.openInodes;
      ghost var s, w := View(part), Target(part.sb, View(part), path);
      ghost var cached := LeadsToCached(part, path);
      LeadsToCachedIs(part, path);
      CacheIs(part);
      r := SysUnlink(part, table, root, path, tree, padding);
      if r.UnlinkHalted? {
        return;
      }
      NothingNew(part, c, l);
      if r.Unlinked? {
        broken := cached;
        tree := RemoveTree(part.sb, s, View(part), tree, w.parent, w.no);
      }
      ValidIntro();
    }

    method Rmdir(path: seq<byte>) returns (r: SysRmdirResult)
      requires Valid() && !broken && PathOk(path)
      modifies this, part`disk, part.blockBitmap.bits, part.inodeBitmap.bits, part`openInodes
      modifies part.openInodes`openCnts, part.openInodes`size, part.openInodes`sectors
      ensures !r.RmdirHalted? ==> Valid() && Cache(part) == old(Cache(part))
      ensures broken <==> r.Rmdone? && (LastName(path) == [0x2e] || old(LeadsToCached(part, path)))
      ensures var w := Target(part.sb, old(View(part)), path);
        && (r.NoDirectory? <==> w.Missing?)
        && (r.RmdirHalted? <==> w.Found? && w.no == 0)
        && (r.IsFile? <==> w.Found? && w.no != 0 && w.kind == FT_REGULAR)
        && (r.HasEntries? <==>
          && w.Found? && w.no != 0 && w.kind == FT_DIRECTORY
          && |Entries(old(View(part)).disk, At(part.sb, old(View(part)), w.no))| != 2)
      ensures r.NoDirectory? || r.IsFile? || r.HasEntries? ==> View(part) == old(View(part))
      ensures r.Rmdone? ==> var w := Target(part.sb, old(View(part)), path);
        && w.no < 4096
        && if LastName(path) == [0x2e] then Released(part.sb, old(View(part)), View(part), w.no)
          else
            && RemovedFrom(part.sb, old(View(part)), View(part), old(tree), w.parent, w.no)
            && Target(part.sb, View(part), path).Missing?
      ensures !r.RmdirHalted? ==> forall i :: 0 <= i < |part.openInodes| ==> part.openInodes[i] in old(part.openInodes)
    {
      hide *;
      ValidFacts();
      ghost var c, l := Cache(part), part.openInodes;
      ghost var s, w := View(part), Target(part.sb, View(part), path);
      ghost var breaks := LastName(path) == [0x2e] || LeadsToCached(part, path);
      LeadsToCachedIs(part, path);
      CacheIs(part);
      r := SysRmdir(part, root, path, tree, padding);
      if r.RmdirHalted? {
        return;
      }
      NothingNew(part, c, l);
      if r.Rmdone? {
        broken := breaks;
        tree := RemoveTree(part.sb, s, View(part), tree, w.parent, w.no);
      }
      ValidIntro();
    }

    /** `file_write` to an open file. */
    method Write(file: Files.File, buf: seq<byte>) returns (r: Files.WriteResult)
      requires Valid() && !broken && file.inode in part.openInodes && |file.inode.sectors| == 13 && |buf| < 0xC000_0000
      requires file.inode.no as nat in tree.kind && tree.kind[file.inode.no] == FT_REGULAR
      requires file.inode.size + |buf| < 140 * 512 ==>
        Files.BlocksNeeded(file.inode.Disk(), |buf|) <= |UsableBlocks(part.sb, |part.disk|, part.Bits())|
      modifies this, part`disk, part.blockBitmap.bits, file`pos, file.inode`size, file.inode`sectors
      ensures r.TooBig? <==> old(file.inode.size) + |buf| > 140 * 512
      ensures r.Halted? <==> old(file.inode.size) + |buf| == 140 * 512
      ensures !r.Halted? ==> Valid() && !broken && Cache(part) == old(Cache(part))
      ensures r.Written? ==> WriteStep(part.sb, old(View(part)), View(part), file.inode.no, buf)
    {
      hide *;
      ValidFacts();
      ghost var s := View(part);
      r := Append(part, file, buf, tree, padding);
      if r.Halted? {
        return;
      }
      if r.Written? {
        tree := WriteTree(part.sb, s, View(part), tree, file.inode.no);
      }
      ValidIntro();
    }

    method Chdir(path: seq<byte>) returns (r: Option<nat>)
      requires Valid() && !broken && PathOk(path)
      modifies part`openInodes, part.openInodes`openCnts
      ensures Valid() && !broken && View(part) == old(View(part))
      ensures var w := Target(part.sb, View(part), path); r == if w.Found? && w.kind == FT_DIRECTORY then Some(w.no) else None
      ensures forall i :: 0 <= i < |part.openInodes| ==> part.openInodes[i] in old(part.openInodes) || fresh(part.openInodes[i])
    {
      hide *;
      ValidFacts();
      ghost var c := Cache(part);
      ghost var left;
      r, left := SysChdir(part, root, path, tree, padding);
      GrabCounts(c, left);
      HeldMore(table.fdInode, c, root, Cache(part));
      ValidIntro();
    }
  }
}
