/** fs/fs.c: finding the inode a path leads to, and the path of the current directory. */
module PathSearch {
  import opened Bytes
  import opened Wrappers
  import opened Bitmaps
  import opened Disks
  import opened InodeTables
  import opened Partitions
  import opened Files
  import opened DirEntries
  import opened Dirs
  import opened FileSystems
  import opened Operations
  import opened Paths

  // ----- names -----

  lemma CStrProper(n: Name)
    requires Proper(n)
    ensures FileName(CStr(n)) && n == Pad(CStr(n))
  {
    var len: nat :| len <= 15 && FileName(n[..len]) && n == Pad(n[..len]);
    CStrIs(n, n[..len]);
  }

  /** The name of the child with inode number `no`. */
  function ChildName(l: seq<Entry>, no: u32): seq<byte> {
    if l == [] then []
    else if IsChild(l[|l| - 1]) && l[|l| - 1].no == no then CStr(l[|l| - 1].name)
    else ChildName(l[..|l| - 1], no)
  }

  lemma {:induction false} ChildNameIs(l: seq<Entry>, k: nat)
    requires GoodEntries(l) && k < |l| && IsChild(l[k])
    ensures ChildName(l, l[k].no) == CStr(l[k].name)
  {
    hide Named, IsChild;
    var last := |l| - 1;
    if k < last {
      assert Compatible(l[k], l[last]);
      ChildNameIs(l[..last], k);
    }
  }

  // ----- get_parent_dir_inode_no and get_child_dir_name -----

  lemma ParentEntry(d: seq<Sector>, sb: SuperBlock, bits: seq<byte>, i: DiskInode, parent: u32)
    requires |i.sectors| == 13 && DirBlocks(d, sb, bits, i.sectors) && DirShape(d, i, parent)
    ensures sb.dataStartLba <= i.sectors[0] < |d|
    ensures EntryAt(d[i.sectors[0]], 1) == Entry(DOT_DOT, parent, FT_DIRECTORY)
  {
    hide EntryAt, Live, DeadSlotsZero, GoodEntries, Entries, FreeBlocks;
    assert TakenBlock(d, sb, bits, i.sectors[0]);
  }

  /** `get_parent_dir_inode_no`; its assertions hold. */
  method GetParentDirInodeNo(part: Partition, child: nat, ghost t: Tree, ghost padding: set<int>) returns (p: u32)
    requires part.Ready() && FsOk(part.sb, View(part), t, padding) && child in t.kind && t.kind[child] == FT_DIRECTORY
    ensures child in t.parent && p == t.parent[child]
  {
    hide *;
    ghost var s := View(part);
    ViewIs(part);
    part.ReadyFacts();
    DirInode(part.sb, s, t, padding, child);
    AtIs(part.sb, s, child);
    DirectoryParts(s.disk, part.sb, s.bits, At(part.sb, s, child), t.parent[child]);
    ParentEntry(s.disk, part.sb, s.bits, At(part.sb, s, child), t.parent[child]);
    ParentInUse(part.sb, s, t, padding, child);
    var childDirInode := InodeAt(part.disk, part.sb, child);
    var blockLba := childDirInode.sectors[0];
    assert blockLba >= part.sb.dataStartLba;
    var dirE := EntryAt(part.disk[blockLba], 1);
    assert dirE.no < 4096 && dirE.kind == FT_DIRECTORY;
    return dirE.no;
  }

  lemma ParentInUse(sb: SuperBlock, s: Fs, t: Tree, padding: set<int>, i: nat)
    requires FsOk(sb, s, t, padding) && i in t.kind
    ensures i in t.parent && t.parent[i] < 4096 && t.parent[i] as nat in t.kind
  {
    hide FsOk;
    FsParts(sb, s, t, padding);
    InodeParts(sb, s, t, padding, i);
    hide *;
    if i == 0 {
      RootParent(sb, s, t);
    } else {
      ParentKept(sb, s, t, padding, i);
      InodeParts(sb, s, t, padding, t.parent[i]);
    }
  }

  lemma RootParent(sb: SuperBlock, s: Fs, t: Tree)
    requires RootOk(sb, s, t)
    ensures 0 in t.kind && t.kind[0] == FT_DIRECTORY && 0 in t.parent && t.parent[0] == 0 && 0 in t.depth && t.depth[0] == 0
  {
    hide At;
  }

  ghost predicate NoNumber(l: seq<Entry>, no: u32) {
    forall k :: 0 <= k < |l| ==> l[k].no != no
  }

  lemma NoNumberConcat(a: seq<Entry>, b: seq<Entry>, no: u32)
    ensures NoNumber(a + b, no) <==> NoNumber(a, no) && NoNumber(b, no)
  {
    assert NoNumber(a + b, no) ==> NoNumber(a, no) by {
      assert forall k :: 0 <= k < |a| ==> (a + b)[k] == a[k];
    }
    assert NoNumber(a + b, no) ==> NoNumber(b, no) by {
      assert forall k :: 0 <= k < |b| ==> (a + b)[|a| + k] == b[k];
    }
  }

  /** Slots without an entry hold the number 0. */
  lemma NumberSlot(s: Sector, j: nat, no: u32)
    requires j < 21 && DeadSlotsZero(s) && no != 0
    ensures NoNumber(Live(s, 0, j + 1), no) <==> NoNumber(Live(s, 0, j), no) && EntryAt(s, j).no != no
    ensures EntryAt(s, j).no == no ==> EntryAt(s, j) in Live(s, 0, 21)
  {
    hide EntryAt;
    LiveSplit(s, 0, j + 1, 21);
    NoNumberConcat(Live(s, 0, j), LiveSlot(s, j), no);
    assert [EntryAt(s, j)][0] == EntryAt(s, j);
    assert ZERO_ENTRY.no == 0;
  }

  lemma NoNumberNothing(no: u32)
    ensures NoNumber([], no)
  {
  }

  /** The scan of one sector for an inode number. */
  method FindNumber(s: Sector, no: u32) returns (r: Option<Entry>)
    requires DeadSlotsZero(s) && no != 0
    ensures r.Some? ==> r.value in Live(s, 0, 21) && r.value.no == no
    ensures r.None? ==> NoNumber(Live(s, 0, 21), no)
  {
    hide DeadSlotsZero, NoNumber, EntryAt;
    var dirEIdx := 0;
    NoNumberNothing(no);
    while dirEIdx < 21
      invariant 0 <= dirEIdx <= 21 && NoNumber(Live(s, 0, dirEIdx), no)
    {
      NumberSlot(s, dirEIdx, no);
      if EntryAt(s, dirEIdx).no == no {
        return Some(EntryAt(s, dirEIdx));
      }
      dirEIdx := dirEIdx + 1;
    }
    return None;
  }

  /** An entry with a number that is neither the directory's nor its parent's is a child. */
  lemma NumberIsChild(d: seq<Sector>, sb: SuperBlock, bits: seq<byte>, i: DiskInode, parent: u32, k: nat)
    requires Directory(d, sb, bits, i, parent) && k < |Entries(d, i)|
    requires Entries(d, i)[k].no != i.no && Entries(d, i)[k].no != parent
    ensures IsChild(Entries(d, i)[k]) && FileName(CStr(Entries(d, i)[k].name))
    ensures ChildName(Entries(d, i), Entries(d, i)[k].no) == CStr(Entries(d, i)[k].name)
  {
    hide Directory, Entries, IsChild, Named, GoodEntries;
    var l := Entries(d, i);
    DirectoryParts(d, sb, bits, i, parent);
    FirstEntries(d, sb, bits, i, parent);
    assert l[0] == l[..2][0] && l[1] == l[..2][1];
    GoodPair(l, 0, k);
    GoodPair(l, 1, k);
    GoodNamed(l, k);
    NotDots(i.no, parent, l[k]);
    ChildNameIs(l, k);
    NamedProper(l[k]);
    CStrProper(l[k].name);
  }

  lemma GoodPair(l: seq<Entry>, a: nat, k: nat)
    requires GoodEntries(l) && a < |l| && k < |l| && l[a] != l[k]
    ensures Compatible(l[a], l[k])
  {
    hide Named, IsChild;
    if k < a {
      CompatibleSymmetric(l[k], l[a]);
    }
  }

  /** `get_child_dir_name`: appends a slash and the name of the child with number `c`, if directory `p` has it. */
  method GetChildDirName(part: Partition, p: nat, c: u32, path: array<byte>, ghost t: Tree, ghost padding: set<int>)
    returns (r: int)
    requires part.Ready() && FsOk(part.sb, View(part), t, padding) && p in t.kind && t.kind[p] == FT_DIRECTORY
    requires c != 0 && c as nat != p && p in t.parent && c != t.parent[p]
    requires !NoChild(Entries(part.disk, At(part.sb, View(part), p)), c) ==>
      |CStr(path[..])| + 1 + |ChildName(Entries(part.disk, At(part.sb, View(part), p)), c)| < path.Length
    requires path != part.blockBitmap.bits && path != part.inodeBitmap.bits
    modifies path
    ensures r == 0 <==> !NoChild(Entries(part.disk, At(part.sb, View(part), p)), c)
    ensures r == 0 ==>
      CStr(path[..]) == old(CStr(path[..])) + [SLASH] + ChildName(Entries(part.disk, At(part.sb, View(part), p)), c)
    ensures r == 0 ==> FileName(ChildName(Entries(part.disk, At(part.sb, View(part), p)), c))
    ensures r != 0 ==> r == -1 && CStr(path[..]) == old(CStr(path[..]))
  {
    hide *;
    ghost var sb, s := part.sb, View(part);
    ViewIs(part);
    part.ReadyFacts();
    DirInode(sb, s, t, padding, p);
    AtIs(sb, s, p);
    ghost var i, parent := At(sb, s, p), t.parent[p];
    DirectoryParts(s.disk, sb, s.bits, i, parent);
    DirFacts(s.disk, sb, s.bits, i, parent);
    var pInode := InodeAt(part.disk, part.sb, p);
    var allBlocks := pInode.sectors[..12];
    var blockIdx := 0;
    NextBlock(s.disk, i.sectors, 0);
    NoNumberNothing(c);
    while blockIdx < 12
      invariant 0 <= blockIdx <= 12 && path[..] == old(path[..])
      invariant NoNumber(Listing(s.disk, i.sectors, 0, blockIdx), c)
    {
      NextBlock(s.disk, i.sectors, blockIdx);
      BlockEntriesFacts(s.disk, sb, i.sectors[blockIdx]);
      NoNumberConcat(Listing(s.disk, i.sectors, 0, blockIdx), BlockEntries(s.disk, i.sectors[blockIdx]), c);
      if allBlocks[blockIdx] != 0 {
        var found := FindNumber(part.disk[allBlocks[blockIdx]], c);
        if found.Some? {
          NumberFound(s.disk, sb, s.bits, i, parent, found.value, c);
          FileNameIs(CStr(found.value.name));
          RootFacts([]);
          StrCat(path, [SLASH]);
          StrCat(path, CStr(found.value.name));
          return 0;
        }
      } else {
        NoNumberNothing(c);
      }
      blockIdx := blockIdx + 1;
    }
    NoNumberNoChild(Entries(s.disk, i), c);
    return -1;
  }

  lemma NumberFound(d: seq<Sector>, sb: SuperBlock, bits: seq<byte>, i: DiskInode, parent: u32, e: Entry, c: u32)
    requires Directory(d, sb, bits, i, parent) && e in Entries(d, i) && e.no == c && c != i.no && c != parent
    ensures FileName(CStr(e.name)) && ChildName(Entries(d, i), c) == CStr(e.name) && !NoChild(Entries(d, i), c)
  {
    hide Directory, Entries, IsChild;
    var k :| 0 <= k < |Entries(d, i)| && Entries(d, i)[k] == e;
    NumberIsChild(d, sb, bits, i, parent, k);
  }

  lemma NoNumberNoChild(l: seq<Entry>, c: u32)
    requires NoNumber(l, c)
    ensures NoChild(l, c)
  {
    hide IsChild;
  }

  // ----- the path of a directory -----

  /** The names from the root to inode `i`. */
  ghost function PathNames(sb: SuperBlock, s: Fs, t: Tree, i: nat): seq<seq<byte>>
    decreases if i in t.depth then t.depth[i] else 0
  {
    if i == 0 || i !in t.parent || i !in t.depth || i >= 4096 then []
    else if t.parent[i] as nat !in t.depth || t.depth[t.parent[i]] >= t.depth[i] then []
    else PathNames(sb, s, t, t.parent[i]) + [ChildName(Entries(s.disk, At(sb, s, t.parent[i])), i)]
  }

  lemma PathNamesStep(sb: SuperBlock, s: Fs, t: Tree, padding: set<int>, i: nat)
    requires FsOk(sb, s, t, padding) && i in t.kind && i != 0
    ensures i in t.parent && i in t.depth && t.parent[i] as nat in t.depth && t.depth[t.parent[i]] < t.depth[i] && i < 4096
    ensures PathNames(sb, s, t, i) == PathNames(sb, s, t, t.parent[i]) + [ChildName(Entries(s.disk, At(sb, s, t.parent[i])), i)]
  {
    InodeParts(sb, s, t, padding, i);
    ParentDepth(sb, s, t, padding, i);
    hide FsOk, At, Entries, NodeOk, OwnsOk, ListedOk, EntriesOk;
  }

  /** Names, each behind a slash. */
  function Forward(names: seq<seq<byte>>): seq<byte> {
    if names == [] then [] else Forward(names[..|names| - 1]) + [SLASH] + names[|names| - 1]
  }

  /** The same with the last name first: what the loop of `sys_getcwd` collects on its way up. */
  function Backward(names: seq<seq<byte>>): seq<byte> {
    if names == [] then [] else Backward(names[1..]) + [SLASH] + names[0]
  }

  lemma {:induction false} ForwardJoin(names: seq<seq<byte>>)
    ensures names != [] ==> Forward(names) == Join(names)
  {
    if |names| > 1 {
      ForwardJoin(names[..|names| - 1]);
    } else if |names| == 1 {
      assert Forward(names[..0]) == [];
      assert [] + [SLASH] + names[0] == [SLASH] + names[0];
    }
  }

  lemma ForwardLast(a: seq<seq<byte>>, n: seq<byte>)
    ensures Forward(a + [n]) == Forward(a) + [SLASH] + n
  {
    assert (a + [n])[..|a|] == a;
  }

  lemma {:induction false} ForwardMore(a: seq<seq<byte>>, b: seq<seq<byte>>)
    ensures Forward(a + b) == Forward(a) + Forward(b)
    decreases |b|
  {
    hide *;
    EmptyNames();
    if b == [] {
      assert a + b == a && Forward(a) + [] == Forward(a);
    } else {
      var c, n := b[..|b| - 1], b[|b| - 1];
      ForwardMore(a, c);
      ForwardLast(a + c, n);
      ForwardLast(c, n);
      assert a + b == (a + c) + [n] && b == c + [n];
      assert (Forward(a) + Forward(c)) + [SLASH] + n == Forward(a) + (Forward(c) + [SLASH] + n);
    }
  }

  lemma {:induction false} BackwardLength(names: seq<seq<byte>>)
    ensures |Backward(names)| == |Forward(names)|
  {
    if names != [] {
      BackwardLength(names[1..]);
      ForwardMore(names[..1], names[1..]);
      assert names[..1] + names[1..] == names;
      assert names[..1][..0] == [];
    }
  }

  lemma BackwardMore(name: seq<byte>, names: seq<seq<byte>>)
    ensures Backward([name] + names) == Backward(names) + [SLASH] + name
  {
    assert ([name] + names)[1..] == names;
  }

  predicate NamesOk(names: seq<seq<byte>>) {
    forall k :: 0 <= k < |names| ==> FileName(names[k])
  }

  /** The last slash of a backward path is where its first name starts. */
  lemma BackwardSlash(names: seq<seq<byte>>)
    requires NamesOk(names)
    ensures names == [] ==> LastSlash(Backward(names)) == -1
    ensures names != [] ==> LastSlash(Backward(names)) == |Backward(names[1..])|
    ensures names != [] ==> Backward(names)[LastSlash(Backward(names))..] == [SLASH] + names[0]
    ensures names != [] ==> Backward(names)[..LastSlash(Backward(names))] == Backward(names[1..])
  {
    if names != [] {
      SlashThenName(Backward(names[1..]), names[0]);
    }
  }

  lemma SlashThenName(q: seq<byte>, n: seq<byte>)
    requires NoSlash(n)
    ensures var p := q + [SLASH] + n;
      LastSlash(p) == |q| && p[|q|..] == [SLASH] + n && p[..|q|] == q
  {
    hide LastSlash;
    var p := q + [SLASH] + n;
    assert forall k :: |q| < k < |p| ==> p[k] == n[k - |q| - 1];
    LastSlashIs(p, |q|);
  }

  /** `memset(buf, 0, size)` */
  method Clear(buf: array<byte>)
    modifies buf
    ensures CStr(buf[..]) == []
  {
    forall k | 0 <= k < buf.Length {
      buf[k] := 0;
    }
  }

  lemma RootNames(sb: SuperBlock, s: Fs, t: Tree)
    ensures PathNames(sb, s, t, 0) == []
  {
  }

  lemma EmptyNames()
    ensures Backward([]) == [] && Forward([]) == [] && NamesOk([]) && NoZero([])
  {
  }

  /** A directory other than the root is neither its parent nor its parent's parent. */
  lemma GrandParent(sb: SuperBlock, s: Fs, t: Tree, padding: set<int>, c: nat)
    requires FsOk(sb, s, t, padding) && c in t.kind && c != 0
    ensures c in t.parent && t.parent[c] as nat in t.parent && c != t.parent[c] as nat && c != t.parent[t.parent[c]] as nat
  {
    ParentDepth(sb, s, t, padding, c);
    ParentKept(sb, s, t, padding, c);
    FsParts(sb, s, t, padding);
    RootParent(sb, s, t);
    var p := t.parent[c];
    if p != 0 {
      ParentDepth(sb, s, t, padding, p);
    }
    hide FsOk;
  }

  lemma NamesFit(a: seq<seq<byte>>, tail: seq<seq<byte>>, names: seq<seq<byte>>)
    requires names == a + tail
    ensures |Backward(tail)| <= |Forward(names)|
  {
    ForwardMore(a, tail);
    BackwardLength(tail);
  }

  lemma NamesMore(a: seq<seq<byte>>, name: seq<byte>, tail: seq<seq<byte>>)
    ensures (a + [name]) + tail == a + ([name] + tail)
    ensures NamesOk(tail) && FileName(name) ==> NamesOk([name] + tail)
  {
  }

  lemma NamesNext(done: seq<seq<byte>>, tail: seq<seq<byte>>)
    requires NamesOk(tail) && tail != []
    ensures done + tail == (done + [tail[0]]) + tail[1..] && NamesOk(tail[1..]) && FileName(tail[0])
    ensures Forward(done + [tail[0]]) == Forward(done) + [SLASH] + tail[0]
    ensures |Forward(done + [tail[0]])| <= |Forward(done + tail)|
  {
    assert (done + [tail[0]])[..|done|] == done;
    ForwardMore(done + [tail[0]], tail[1..]);
    assert done + tail == (done + [tail[0]]) + tail[1..];
  }

  /** The last loop of `sys_getcwd`: the pieces behind the last slash, one after the other, turn the path around. */
  method Unwind(buf: array<byte>, reverse: array<byte>, ghost names: seq<seq<byte>>)
    requires buf != reverse && CStr(reverse[..]) == Backward(names) && CStr(buf[..]) == [] && NamesOk(names)
    requires |Forward(names)| < buf.Length && |Forward(names)| < reverse.Length
    modifies buf, reverse
    ensures CStr(buf[..]) == Forward(names)
  {
    hide *;
    ghost var done, tail: seq<seq<byte>> := [], names;
    EmptyNames();
    assert [] + names == names;
    NamesFit([], names, names);
    BackwardSlash(tail);
    var lastSlash := LastSlash(CStr(reverse[..]));
    while lastSlash != -1
      invariant names == done + tail && NamesOk(tail)
      invariant CStr(reverse[..]) == Backward(tail) && CStr(buf[..]) == Forward(done)
      invariant lastSlash == LastSlash(Backward(tail)) && (tail == [] ==> lastSlash == -1) && (tail != [] ==> lastSlash != -1)
      decreases |tail|
    {
      BackwardSlash(tail);
      NamesNext(done, tail);
      FileNameIs(tail[0]);
      SlashNoZero(tail[0]);
      NamesFit(done, tail, names);
      StrCat(buf, CStr(reverse[..])[lastSlash..]);
      Cut(reverse, lastSlash);
      Associative(Forward(done), [SLASH], tail[0]);
      done, tail := done + [tail[0]], tail[1..];
      BackwardSlash(tail);
      lastSlash := LastSlash(CStr(reverse[..]));
    }
    assert done + [] == done;
  }

  lemma SlashNoZero(n: seq<byte>)
    requires NoZero(n)
    ensures NoZero([SLASH] + n)
  {
  }

  lemma CwdNotRoot(sb: SuperBlock, s: Fs, t: Tree, padding: set<int>, i: nat)
    requires FsOk(sb, s, t, padding) && i in t.kind && i != 0
    ensures PathNames(sb, s, t, i) != []
  {
    hide *;
    PathNamesStep(sb, s, t, padding, i);
  }

  /** `sys_getcwd` of the directory `cwd`, which must fit the two buffers: the path of the names from the root. */
  method GetCwd(part: Partition, cwd: nat, buf: array<byte>, ghost t: Tree, ghost padding: set<int>) returns (r: bool)
    requires part.Ready() && FsOk(part.sb, View(part), t, padding) && cwd in t.kind && t.kind[cwd] == FT_DIRECTORY
    requires buf != part.blockBitmap.bits && buf != part.inodeBitmap.bits
    requires |Forward(PathNames(part.sb, View(part), t, cwd))| < 512
    requires 2 <= buf.Length && |Forward(PathNames(part.sb, View(part), t, cwd))| < buf.Length
    modifies buf
    ensures r && CStr(buf[..]) == Join(PathNames(part.sb, View(part), t, cwd))
  {
    hide *;
    ghost var sb, s := part.sb, View(part);
    ghost var names := PathNames(sb, s, t, cwd);
    var child: nat := cwd;
    if child == 0 {
      RootNames(sb, s, t);
      RootFacts([]);
      buf[0] := SLASH;
      buf[1] := 0;
      CStrIs(buf[..], [SLASH]);
      return true;
    }
    Clear(buf);
    var reverse := new byte[512](_ => 0);
    ghost var tail: seq<seq<byte>> := [];
    EmptyNames();
    CStrIs(reverse[..], []);
    assert names + [] == names;
    while child != 0
      invariant child in t.kind && t.kind[child] == FT_DIRECTORY
      invariant names == PathNames(sb, s, t, child) + tail && NamesOk(tail)
      invariant CStr(reverse[..]) == Backward(tail)
      invariant View(part) == s && part.Ready() && CStr(buf[..]) == [] && (tail == [] ==> child == cwd)
      decreases if child in t.depth then t.depth[child] else 0
    {
      PathNamesStep(sb, s, t, padding, child);
      ParentKept(sb, s, t, padding, child);
      ParentInUse(sb, s, t, padding, child);
      ListedThere(sb, s, t, padding, child, t.parent[child]);
      GrandParent(sb, s, t, padding, child);
      NamesFit(PathNames(sb, s, t, child), tail, names);
      ghost var name := ChildName(Entries(s.disk, At(sb, s, t.parent[child])), child);
      NamesMore(PathNames(sb, s, t, t.parent[child]), name, tail);
      NamesFit(PathNames(sb, s, t, t.parent[child]), [name] + tail, names);
      BackwardMore(name, tail);
      ViewIs(part);
      var parent := GetParentDirInodeNo(part, child, t, padding);
      var found := GetChildDirName(part, parent, child, reverse, t, padding);
      assert found == 0;
      tail := [name] + tail;
      child := parent;
    }
    RootNames(sb, s, t);
    assert [] + tail == tail;
    Unwind(buf, reverse, names);
    ForwardJoin(names);
    CwdNotRoot(sb, s, t, padding, cwd);
    return true;
  }

  // ----- search_file -----

  /** An inode with its type and the directory it was found in, or the directory that lacks a component and the depth of the
      path searched, the missing component included. */
  datatype SearchResult = Found(no: nat, kind: u32, parent: nat) | Missing(dir: nat, depth: nat)

  predicate ShortNames(comps: seq<seq<byte>>) {
    forall k :: 0 <= k < |comps| ==> |comps[k]| <= 15
  }

  /** What directory `d` binds to a name. */
  ghost function Lookup(sb: SuperBlock, s: Fs, d: nat, name: seq<byte>): Option<(u32, u32)>
    requires |name| <= 15
  {
    var b := Bindings(Entries(s.disk, At(sb, s, d)));
    if Pad(name) in b then Some(b[Pad(name)]) else None
  }

  /** The walk from directory `d`, found in `parent` at depth `n`, along the components. A regular file ends it, whatever
      follows. */
  ghost function Walk(sb: SuperBlock, s: Fs, d: nat, parent: nat, n: nat, comps: seq<seq<byte>>): SearchResult
    requires ShortNames(comps)
    decreases |comps|
  {
    if comps == [] then Found(d, FT_DIRECTORY, parent) else
      var e := Lookup(sb, s, d, comps[0]);
      if e.None? then Missing(d, n + 1)
      else if e.value.1 == FT_DIRECTORY then Walk(sb, s, e.value.0, d, n + 1, comps[1..])
      else Found(e.value.0, e.value.1, d)
  }

  /** A directory entry leads to an inode in use, of its type. */
  lemma EntryTarget(sb: SuperBlock, s: Fs, t: Tree, padding: set<int>, d: nat, e: Entry)
    requires FsOk(sb, s, t, padding) && d in t.kind && t.kind[d] == FT_DIRECTORY && e in Entries(s.disk, At(sb, s, d))
    ensures e.no as nat in t.kind && t.kind[e.no] == e.kind && e.no < 4096
  {
    hide *;
    DirInode(sb, s, t, padding, d);
    var l := Entries(s.disk, At(sb, s, d));
    var k :| 0 <= k < |l| && l[k] == e;
    EntriesOkAt(sb, s, t, d, k);
    ParentInUse(sb, s, t, padding, d);
    ParentIsDirectory(sb, s, t, padding, d);
    DotsOrChild(s.disk, sb, s.bits, At(sb, s, d), t.parent[d], k);
    EntryOkChild(t, d, e);
    if e.no as nat in t.kind {
      InodeParts(sb, s, t, padding, e.no);
    }
  }

  lemma ParentIsDirectory(sb: SuperBlock, s: Fs, t: Tree, padding: set<int>, d: nat)
    requires FsOk(sb, s, t, padding) && d in t.kind
    ensures d in t.parent && t.parent[d] as nat in t.kind && t.kind[t.parent[d]] == FT_DIRECTORY
  {
    hide FsOk;
    FsParts(sb, s, t, padding);
    RootParent(sb, s, t);
    if d != 0 {
      ParentKept(sb, s, t, padding, d);
    }
  }

  lemma EntryOkChild(t: Tree, d: nat, e: Entry)
    requires EntryOk(t, d, e)
    ensures IsChild(e) ==> e.no as nat in t.kind && t.kind[e.no] == e.kind
  {
    hide IsChild;
  }

  lemma DotsOrChild(d: seq<Sector>, sb: SuperBlock, bits: seq<byte>, i: DiskInode, parent: u32, k: nat)
    requires Directory(d, sb, bits, i, parent) && k < |Entries(d, i)|
    ensures var e := Entries(d, i)[k];
      IsChild(e) || e == Entry(DOT, i.no, FT_DIRECTORY) || e == Entry(DOT_DOT, parent, FT_DIRECTORY)
  {
    hide *;
    var l := Entries(d, i);
    DirectoryParts(d, sb, bits, i, parent);
    FirstEntries(d, sb, bits, i, parent);
    assert l[0] == l[..2][0] && l[1] == l[..2][1];
    if k >= 2 {
      GoodBefore(l, 0, k);
      GoodBefore(l, 1, k);
      GoodNamed(l, k);
      NotDots(i.no, parent, l[k]);
    }
  }

  lemma GoodBefore(l: seq<Entry>, a: nat, k: nat)
    requires GoodEntries(l) && a < k < |l|
    ensures Compatible(l[a], l[k])
  {
    hide Named, IsChild;
  }

  lemma LookupIs(sb: SuperBlock, s: Fs, d: nat, name: seq<byte>)
    requires |name| <= 15
    ensures var b := Bindings(Entries(s.disk, At(sb, s, d)));
      Lookup(sb, s, d, name) == if Pad(name) in b then Some(b[Pad(name)]) else None
  {
  }

  lemma WalkStep(sb: SuperBlock, s: Fs, d: nat, parent: nat, n: nat, name: seq<byte>, rest: seq<seq<byte>>)
    requires ShortNames([name] + rest) && |name| <= 15 && ShortNames(rest)
    ensures var e := Lookup(sb, s, d, name);
      Walk(sb, s, d, parent, n, [name] + rest) ==
        if e.None? then Missing(d, n + 1)
        else if e.value.1 == FT_DIRECTORY then Walk(sb, s, e.value.0, d, n + 1, rest)
        else Found(e.value.0, e.value.1, d)
    ensures Walk(sb, s, d, parent, n, []) == Found(d, FT_DIRECTORY, parent)
  {
    assert ([name] + rest)[1..] == rest;
    hide Lookup;
  }

  lemma WalkDone(sb: SuperBlock, s: Fs, d: nat, parent: nat, n: nat)
    ensures Walk(sb, s, d, parent, n, []) == Found(d, FT_DIRECTORY, parent)
  {
  }

  lemma PendingIs(name: seq<byte>, rest: Option<seq<byte>>)
    requires name != []
    ensures Pending(name, rest) == [name] + Pending([], rest)
  {
    hide Components;
  }

  lemma ShortParts(name: seq<byte>, rest: seq<seq<byte>>)
    requires ShortNames([name] + rest)
    ensures |name| <= 15 && ShortNames(rest)
  {
    assert ([name] + rest)[0] == name;
    assert forall k :: 0 <= k < |rest| ==> ([name] + rest)[k + 1] == rest[k];
  }

  /** "/", "/." and "/.." lead to the root. */
  lemma RootPaths(sb: SuperBlock, s: Fs, t: Tree, padding: set<int>)
    requires FsOk(sb, s, t, padding)
    ensures Components([SLASH]) == [] && ShortNames([])
    ensures Components([SLASH, 0x2e]) == [[0x2e]] && ShortNames([[0x2e]])
    ensures Components([SLASH, 0x2e, 0x2e]) == [[0x2e, 0x2e]] && ShortNames([[0x2e, 0x2e]])
    ensures Walk(sb, s, 0, 0, 0, []) == Found(0, FT_DIRECTORY, 0)
    ensures Walk(sb, s, 0, 0, 0, [[0x2e]]) == Found(0, FT_DIRECTORY, 0)
    ensures Walk(sb, s, 0, 0, 0, [[0x2e, 0x2e]]) == Found(0, FT_DIRECTORY, 0)
  {
    hide *;
    RootComponents();
    FsParts(sb, s, t, padding);
    RootParent(sb, s, t);
    DirInode(sb, s, t, padding, 0);
    DotsLookup(sb, s, 0, 0);
    WalkDone(sb, s, 0, 0, 0);
    WalkDone(sb, s, 0, 0, 1);
    WalkOne(sb, s, 0, 0, 0, [0x2e]);
    WalkOne(sb, s, 0, 0, 0, [0x2e, 0x2e]);
  }

  lemma RootComponents()
    ensures Components([SLASH]) == [] && ShortNames([])
    ensures Components([SLASH, 0x2e]) == [[0x2e]] && ShortNames([[0x2e]])
    ensures Components([SLASH, 0x2e, 0x2e]) == [[0x2e, 0x2e]] && ShortNames([[0x2e, 0x2e]])
  {
    assert [SLASH][1..] == [];
    OneName([0x2e]);
    OneName([0x2e, 0x2e]);
    assert [SLASH] + [0x2e] == [SLASH, 0x2e];
    assert [SLASH] + [0x2e, 0x2e] == [SLASH, 0x2e, 0x2e];
  }

  lemma WalkOne(sb: SuperBlock, s: Fs, d: nat, parent: nat, n: nat, name: seq<byte>)
    requires |name| <= 15 && ShortNames([name])
    ensures var e := Lookup(sb, s, d, name);
      Walk(sb, s, d, parent, n, [name]) ==
        if e.None? then Missing(d, n + 1)
        else if e.value.1 == FT_DIRECTORY then Found(e.value.0, FT_DIRECTORY, d)
        else Found(e.value.0, e.value.1, d)
  {
    hide Lookup;
    assert [name][1..] == [];
  }

  /** A directory binds "." to itself and ".." to its parent. */
  lemma DotsLookup(sb: SuperBlock, s: Fs, d: nat, parent: u32)
    requires Directory(s.disk, sb, s.bits, At(sb, s, d), parent)
    ensures Lookup(sb, s, d, [0x2e]) == Some((At(sb, s, d).no, FT_DIRECTORY))
    ensures Lookup(sb, s, d, [0x2e, 0x2e]) == Some((parent, FT_DIRECTORY))
  {
    hide *;
    var i := At(sb, s, d);
    var l := Entries(s.disk, i);
    DirectoryParts(s.disk, sb, s.bits, i, parent);
    FirstEntries(s.disk, sb, s.bits, i, parent);
    assert l[0] == l[..2][0] && l[1] == l[..2][1];
    BindingsOf(l);
    LookupIs(sb, s, d, [0x2e]);
    LookupIs(sb, s, d, [0x2e, 0x2e]);
    DotPads();
  }

  lemma DotPads()
    ensures Pad([0x2e]) == DOT && Pad([0x2e, 0x2e]) == DOT_DOT
  {
  }

  // ----- where the walk ends -----

  /** How many components the walk from `d` looks up. */
  ghost function WalkDepth(sb: SuperBlock, s: Fs, d: nat, comps: seq<seq<byte>>): nat
    requires ShortNames(comps)
    decreases |comps|
  {
    if comps == [] then 0 else
      var e := Lookup(sb, s, d, comps[0]);
      if e.Some? && e.value.1 == FT_DIRECTORY then 1 + WalkDepth(sb, s, e.value.0, comps[1..]) else 1
  }

  /** What directory `d` binds to a name: itself, its parent, or a child. */
  lemma LookupTarget(sb: SuperBlock, s: Fs, t: Tree, padding: set<int>, d: nat, name: seq<byte>)
    requires FsOk(sb, s, t, padding) && d in t.kind && t.kind[d] == FT_DIRECTORY
    requires FileName(name) && |name| <= 15 && Lookup(sb, s, d, name).Some?
    ensures d in t.parent
    ensures var (i, kind) := Lookup(sb, s, d, name).value;
      && i as nat in t.kind && i < 4096 && t.kind[i] == kind && i as nat in t.parent
      && (name == [0x2e] ==> i as nat == d && kind == FT_DIRECTORY)
      && (name == [0x2e, 0x2e] ==> i == t.parent[d] && kind == FT_DIRECTORY)
      && (name != [0x2e] && name != [0x2e, 0x2e] ==> i != 0 && t.parent[i] == d)
  {
    hide *;
    var l := Entries(s.disk, At(sb, s, d));
    DirInode(sb, s, t, padding, d);
    DirectoryParts(s.disk, sb, s.bits, At(sb, s, d), t.parent[d]);
    LookupIs(sb, s, d, name);
    BindingsOf(l);
    FileNameIs(name);
    var k :| 0 <= k < |l| && l[k].name == Pad(name);
    EntryTarget(sb, s, t, padding, d, l[k]);
    EntriesOkAt(sb, s, t, d, k);
    DotsOrChild(s.disk, sb, s.bits, At(sb, s, d), t.parent[d], k);
    EntryOkParent(t, d, l[k]);
    DotPads();
    PadsApart(name);
    ChildPads(l[k]);
    InodeParts(sb, s, t, padding, l[k].no);
  }

  lemma EntryOkParent(t: Tree, d: nat, e: Entry)
    requires EntryOk(t, d, e)
    ensures IsChild(e) ==> e.no as nat in t.parent && t.parent[e.no] == d && e.no != 0
  {
    hide IsChild;
  }

  lemma PadsApart(name: seq<byte>)
    requires FileName(name) && |name| <= 15
    ensures name == [0x2e] <==> Pad(name) == DOT
    ensures name == [0x2e, 0x2e] <==> Pad(name) == DOT_DOT
  {
    DotPads();
    PadProper(name);
    assert NoZero([0x2e]) && NoZero([0x2e, 0x2e]);
    assert StrEq(DOT, [0x2e]) && StrEq(DOT_DOT, [0x2e, 0x2e]);
  }

  lemma ChildPads(e: Entry)
    ensures IsChild(e) ==> e.name != DOT && e.name != DOT_DOT
  {
  }

  /** The walk ends at what the last component looked up is bound to, or where it is not bound. */
  lemma {:induction false} WalkEnds(sb: SuperBlock, s: Fs, t: Tree, padding: set<int>, d: nat, parent: nat, n: nat,
        comps: seq<seq<byte>>)
    requires FsOk(sb, s, t, padding) && d in t.kind && t.kind[d] == FT_DIRECTORY
    requires ShortNames(comps) && NamesOk(comps) && comps != []
    ensures 1 <= WalkDepth(sb, s, d, comps) <= |comps|
    ensures
      var k := WalkDepth(sb, s, d, comps);
      match Walk(sb, s, d, parent, n, comps)
      case Found(i, kind, p) =>
        && p in t.kind && t.kind[p] == FT_DIRECTORY && i < 4096 && Lookup(sb, s, p, comps[k - 1]) == Some((i as u32, kind))
        && (kind == FT_DIRECTORY ==> k == |comps|) && (kind != FT_DIRECTORY ==> (k < |comps| <==> ThroughFile(sb, s, d, comps)))
      case Missing(m, depth) => depth == n + k && m in t.kind && t.kind[m] == FT_DIRECTORY && Lookup(sb, s, m, comps[k - 1]).None?
    decreases |comps|
  {
    hide Lookup, FsOk, FileName;
    var e := Lookup(sb, s, d, comps[0]);
    if e.Some? {
      LookupTarget(sb, s, t, padding, d, comps[0]);
      if e.value.1 == FT_DIRECTORY && |comps| > 1 {
        WalkEnds(sb, s, t, padding, e.value.0, d, n + 1, comps[1..]);
      }
    }
  }

  function Last(comps: seq<seq<byte>>): seq<byte>
    requires comps != []
  {
    comps[|comps| - 1]
  }

  /** What the search returns for the parent of what it found: its parent in the tree, unless the last component is "." or
      "..". A regular file is always found in its parent. */
  lemma FoundParent(sb: SuperBlock, s: Fs, t: Tree, padding: set<int>, comps: seq<seq<byte>>)
    requires FsOk(sb, s, t, padding) && ShortNames(comps) && NamesOk(comps) && comps != []
    requires Walk(sb, s, 0, 0, 0, comps).Found?
    ensures var Found(i, kind, p) := Walk(sb, s, 0, 0, 0, comps);
      && i in t.kind && i < 4096 && t.kind[i] == kind && p in t.kind && t.kind[p] == FT_DIRECTORY && i in t.parent
      && p in t.parent
      && (kind == FT_REGULAR ==> i != 0 && t.parent[i] == p)
      && (kind == FT_DIRECTORY ==>
        && (Last(comps) == [0x2e] ==> i == p)
        && (Last(comps) == [0x2e, 0x2e] ==> i == t.parent[p] as nat)
        && (Last(comps) != [0x2e] && Last(comps) != [0x2e, 0x2e] ==> i != 0 && t.parent[i] == p))
  {
    hide Lookup, FsOk, FileName, Walk, WalkDepth, ThroughFile;
    RootIsDirectory(sb, s, t, padding);
    WalkEnds(sb, s, t, padding, 0, 0, 0, comps);
    var Found(i, kind, p) := Walk(sb, s, 0, 0, 0, comps);
    LookupTarget(sb, s, t, padding, p, comps[WalkDepth(sb, s, 0, comps) - 1]);
  }

  /** Where the search fails at the last component, a directory in use lacks that name. */
  lemma MissingLast(sb: SuperBlock, s: Fs, t: Tree, padding: set<int>, comps: seq<seq<byte>>)
    requires FsOk(sb, s, t, padding) && ShortNames(comps) && NamesOk(comps) && comps != []
    requires Walk(sb, s, 0, 0, 0, comps).Missing?
    ensures var Missing(m, depth) := Walk(sb, s, 0, 0, 0, comps);
      && 1 <= depth <= |comps| && m in t.kind && t.kind[m] == FT_DIRECTORY
      && NoMatch(Entries(s.disk, At(sb, s, m)), comps[depth - 1])
  {
    hide Lookup, FsOk, FileName, Walk, WalkDepth, NoMatch, At, Entries, ThroughFile;
    RootIsDirectory(sb, s, t, padding);
    WalkEnds(sb, s, t, padding, 0, 0, 0, comps);
    var Missing(m, depth) := Walk(sb, s, 0, 0, 0, comps);
    LookupNothing(sb, s, t, padding, m, comps[depth - 1]);
  }

  lemma LookupNothing(sb: SuperBlock, s: Fs, t: Tree, padding: set<int>, d: nat, name: seq<byte>)
    requires FsOk(sb, s, t, padding) && d in t.kind && t.kind[d] == FT_DIRECTORY && FileName(name) && |name| <= 15
    requires Lookup(sb, s, d, name).None?
    ensures NoMatch(Entries(s.disk, At(sb, s, d)), name)
  {
    hide *;
    var l := Entries(s.disk, At(sb, s, d));
    DirInode(sb, s, t, padding, d);
    DirectoryParts(s.disk, sb, s.bits, At(sb, s, d), t.parent[d]);
    LookupIs(sb, s, d, name);
    BindingsOf(l);
    FileNameIs(name);
    forall k | 0 <= k < |l|
      ensures !StrEq(l[k].name, name)
    {
      GoodNamed(l, k);
      NamedProper(l[k]);
      StrEqProper(l[k].name, name);
    }
    NoMatchIntro(l, name);
  }

  lemma NoMatchIntro(l: seq<Entry>, name: seq<byte>)
    requires forall k :: 0 <= k < |l| ==> !StrEq(l[k].name, name)
    ensures NoMatch(l, name)
  {
    hide StrEq;
  }

  // ----- getcwd and search_file undo each other -----

  lemma ChildLookup(sb: SuperBlock, s: Fs, t: Tree, padding: set<int>, i: nat)
    requires FsOk(sb, s, t, padding) && i in t.kind && i != 0
    ensures i in t.parent && t.parent[i] as nat in t.kind && t.kind[t.parent[i]] == FT_DIRECTORY && i < 4096
    ensures var n := ChildName(Entries(s.disk, At(sb, s, t.parent[i])), i);
      && FileName(n) && |n| <= 15 && n != [0x2e] && n != [0x2e, 0x2e]
      && Lookup(sb, s, t.parent[i], n) == Some((i as u32, t.kind[i]))
  {
    hide *;
    InodeParts(sb, s, t, padding, i);
    ParentKept(sb, s, t, padding, i);
    GrandParent(sb, s, t, padding, i);
    ListedThere(sb, s, t, padding, i, t.parent[i]);
    var p := t.parent[i];
    DirInode(sb, s, t, padding, p);
    DirectoryParts(s.disk, sb, s.bits, At(sb, s, p), t.parent[p]);
    var l := Entries(s.disk, At(sb, s, p));
    var k := ChildIndex(l, i);
    NumberIsChild(s.disk, sb, s.bits, At(sb, s, p), t.parent[p], k);
    EntriesOkAt(sb, s, t, p, k);
    EntryOkChild(t, p, l[k]);
    GoodNamed(l, k);
    NamedProper(l[k]);
    CStrProper(l[k].name);
    FileNameIs(CStr(l[k].name));
    ChildNotDots(l[k]);
    BindingsOf(l);
    LookupIs(sb, s, p, CStr(l[k].name));
  }

  lemma ChildIndex(l: seq<Entry>, no: u32) returns (k: nat)
    requires !NoChild(l, no)
    ensures k < |l| && IsChild(l[k]) && l[k].no == no
  {
    hide IsChild;
    k :| 0 <= k < |l| && IsChild(l[k]) && l[k].no == no;
  }

  lemma ChildNotDots(e: Entry)
    requires IsChild(e) && Proper(e.name)
    ensures CStr(e.name) != [0x2e] && CStr(e.name) != [0x2e, 0x2e]
  {
    CStrProper(e.name);
    var c := CStr(e.name);
    assert |c| <= 15 && e.name[..|c|] == c && e.name[|c|] == 0;
  }

  /** The names on the way to an inode are clean components. */
  lemma {:induction false} PathNamesClean(sb: SuperBlock, s: Fs, t: Tree, padding: set<int>, i: nat)
    requires FsOk(sb, s, t, padding) && i in t.kind
    ensures Clean(PathNames(sb, s, t, i)) && ShortNames(PathNames(sb, s, t, i)) && NoZeros(PathNames(sb, s, t, i))
    decreases if i in t.depth then t.depth[i] else 0
  {
    hide *;
    if i == 0 {
      RootNames(sb, s, t);
      CleanNothing();
    } else {
      PathNamesStep(sb, s, t, padding, i);
      ParentKept(sb, s, t, padding, i);
      ChildLookup(sb, s, t, padding, i);
      PathNamesClean(sb, s, t, padding, t.parent[i]);
      var n := ChildName(Entries(s.disk, At(sb, s, t.parent[i])), i);
      FileNameIs(n);
      CleanMore(PathNames(sb, s, t, t.parent[i]), n);
    }
  }

  lemma CleanNothing()
    ensures Clean([]) && ShortNames([]) && NoZeros([])
  {
  }

  lemma CleanMore(names: seq<seq<byte>>, n: seq<byte>)
    requires Clean(names) && ShortNames(names) && NoZeros(names)
    requires NoZero(n) && NoSlash(n) && 1 <= |n| <= 15 && n != [0x2e] && n != [0x2e, 0x2e]
    ensures Clean(names + [n]) && ShortNames(names + [n]) && NoZeros(names + [n])
  {
  }

  /** A walk that ends at a directory goes on from there. */
  lemma {:induction false} WalkLast(sb: SuperBlock, s: Fs, d: nat, parent: nat, n: nat, comps: seq<seq<byte>>,
        name: seq<byte>, x: nat, p: nat)
    requires ShortNames(comps) && |name| <= 15 && ShortNames(comps + [name])
    requires Walk(sb, s, d, parent, n, comps) == Found(x, FT_DIRECTORY, p)
    ensures Walk(sb, s, d, parent, n, comps + [name]) == Walk(sb, s, x, p, n + |comps|, [name])
    decreases |comps|
  {
    hide Lookup;
    if comps == [] {
      assert comps + [name] == [name];
    } else {
      assert (comps + [name])[1..] == comps[1..] + [name];
      var e := Lookup(sb, s, d, comps[0]);
      if e.Some? && e.value.1 == FT_DIRECTORY {
        WalkLast(sb, s, e.value.0, d, n + 1, comps[1..], name, x, p);
      }
    }
  }

  /** Walking the names of an inode leads to it. */
  lemma {:induction false} WalkPathNames(sb: SuperBlock, s: Fs, t: Tree, padding: set<int>, i: nat)
    requires FsOk(sb, s, t, padding) && i in t.kind
    ensures i in t.parent && ShortNames(PathNames(sb, s, t, i))
    ensures Walk(sb, s, 0, 0, 0, PathNames(sb, s, t, i)) == Found(i, t.kind[i], t.parent[i])
    decreases if i in t.depth then t.depth[i] else 0
  {
    hide *;
    PathNamesClean(sb, s, t, padding, i);
    if i == 0 {
      RootNames(sb, s, t);
      FsParts(sb, s, t, padding);
      RootParent(sb, s, t);
      WalkDone(sb, s, 0, 0, 0);
    } else {
      PathNamesStep(sb, s, t, padding, i);
      ParentKept(sb, s, t, padding, i);
      ChildLookup(sb, s, t, padding, i);
      WalkPathNames(sb, s, t, padding, t.parent[i]);
      var p := t.parent[i];
      var n := ChildName(Entries(s.disk, At(sb, s, p)), i);
      OneShort(n);
      WalkLast(sb, s, 0, 0, 0, PathNames(sb, s, t, p), n, p, t.parent[p]);
      WalkOne(sb, s, p, t.parent[p], |PathNames(sb, s, t, p)|, n);
    }
  }

  lemma OneShort(n: seq<byte>)
    requires |n| <= 15
    ensures ShortNames([n])
  {
  }

  /** The path `sys_getcwd` gives leads `search_file` back to the directory. */
  lemma CwdRoundTrip(sb: SuperBlock, s: Fs, t: Tree, padding: set<int>, cwd: nat)
    requires FsOk(sb, s, t, padding) && cwd in t.kind && t.kind[cwd] == FT_DIRECTORY
    ensures var path := Join(PathNames(sb, s, t, cwd));
      && cwd in t.parent && ShortNames(Components(path)) && NoZero(path)
      && (Components(path) == [] ==> path == [SLASH])
      && Walk(sb, s, 0, 0, 0, Components(path)) == Found(cwd, FT_DIRECTORY, t.parent[cwd])
  {
    hide *;
    var names := PathNames(sb, s, t, cwd);
    PathNamesClean(sb, s, t, padding, cwd);
    WalkPathNames(sb, s, t, padding, cwd);
    ComponentsJoin(names);
    JoinRoot(names);
  }

  // ----- paths that go on behind a regular file -----

  /** The walk as a path means it: what follows a regular file does not exist. */
  ghost function StrictWalk(sb: SuperBlock, s: Fs, d: nat, parent: nat, n: nat, comps: seq<seq<byte>>): SearchResult
    requires ShortNames(comps)
    decreases |comps|
  {
    if comps == [] then Found(d, FT_DIRECTORY, parent) else
      var e := Lookup(sb, s, d, comps[0]);
      if e.None? then Missing(d, n + 1)
      else if e.value.1 == FT_DIRECTORY then StrictWalk(sb, s, e.value.0, d, n + 1, comps[1..])
      else if |comps| > 1 then Missing(d, n + 2)
      else Found(e.value.0, e.value.1, d)
  }

  /** A proper prefix of the components leads to a regular file. */
  ghost predicate ThroughFile(sb: SuperBlock, s: Fs, d: nat, comps: seq<seq<byte>>)
    requires ShortNames(comps)
    decreases |comps|
  {
    comps != [] &&
      var e := Lookup(sb, s, d, comps[0]);
      e.Some? && if e.value.1 == FT_DIRECTORY then ThroughFile(sb, s, e.value.0, comps[1..]) else |comps| > 1
  }

  /** `search_file` is right exactly for the paths that do not go on behind a regular file; for the others it finds that
      file, so that a caller such as `sys_unlink` takes "/f/x" for "/f". */
  lemma {:induction false} SearchIsStrict(sb: SuperBlock, s: Fs, d: nat, parent: nat, n: nat, comps: seq<seq<byte>>)
    requires ShortNames(comps)
    ensures Walk(sb, s, d, parent, n, comps) == StrictWalk(sb, s, d, parent, n, comps) <==> !ThroughFile(sb, s, d, comps)
    ensures ThroughFile(sb, s, d, comps) ==>
      Walk(sb, s, d, parent, n, comps).Found? && Walk(sb, s, d, parent, n, comps).kind != FT_DIRECTORY
    decreases |comps|
  {
    hide Lookup;
    if comps != [] {
      var e := Lookup(sb, s, d, comps[0]);
      if e.Some? && e.value.1 == FT_DIRECTORY {
        SearchIsStrict(sb, s, e.value.0, d, n + 1, comps[1..]);
      }
    }
  }

  /** Any regular file gives such a path. */
  lemma FileFoundBehind(sb: SuperBlock, s: Fs, t: Tree, padding: set<int>, i: nat, x: seq<byte>)
    requires FsOk(sb, s, t, padding) && i in t.kind && t.kind[i] == FT_REGULAR && |x| <= 15
    ensures i in t.parent && ShortNames(PathNames(sb, s, t, i) + [x])
    ensures Walk(sb, s, 0, 0, 0, PathNames(sb, s, t, i) + [x]) == Found(i, FT_REGULAR, t.parent[i])
  {
    hide *;
    Kinds();
    PathNamesClean(sb, s, t, padding, i);
    WalkPathNames(sb, s, t, padding, i);
    ShortMore(PathNames(sb, s, t, i), x);
    WalkBeyond(sb, s, 0, 0, 0, PathNames(sb, s, t, i), x);
  }

  lemma ShortMore(names: seq<seq<byte>>, x: seq<byte>)
    requires ShortNames(names) && |x| <= 15
    ensures ShortNames(names + [x])
  {
  }

  lemma {:induction false} WalkBeyond(sb: SuperBlock, s: Fs, d: nat, parent: nat, n: nat, comps: seq<seq<byte>>, x: seq<byte>)
    requires ShortNames(comps) && ShortNames(comps + [x])
    requires Walk(sb, s, d, parent, n, comps).Found? && Walk(sb, s, d, parent, n, comps).kind != FT_DIRECTORY
    ensures Walk(sb, s, d, parent, n, comps + [x]) == Walk(sb, s, d, parent, n, comps)
    decreases |comps|
  {
    hide Lookup;
    assert (comps + [x])[1..] == comps[1..] + [x];
    var e := Lookup(sb, s, d, comps[0]);
    if e.Some? && e.value.1 == FT_DIRECTORY {
      WalkBeyond(sb, s, e.value.0, d, n + 1, comps[1..], x);
    }
  }

  // ----- wash_path leads where the old path did -----

  lemma CStrPad(name: seq<byte>)
    requires FileName(name)
    ensures CStr(Pad(name)) == name
  {
    FileNameIs(name);
    CStrIs(Pad(name), name);
  }

  /** A name other than "." and ".." that is bound is the name of the child it is bound to. */
  lemma LookupChildName(sb: SuperBlock, s: Fs, t: Tree, padding: set<int>, d: nat, name: seq<byte>)
    requires FsOk(sb, s, t, padding) && d in t.kind && t.kind[d] == FT_DIRECTORY
    requires FileName(name) && |name| <= 15 && Lookup(sb, s, d, name).Some? && name != [0x2e] && name != [0x2e, 0x2e]
    ensures ChildName(Entries(s.disk, At(sb, s, d)), Lookup(sb, s, d, name).value.0) == name
  {
    hide *;
    var l := Entries(s.disk, At(sb, s, d));
    ParentInUse(sb, s, t, padding, d);
    DirInode(sb, s, t, padding, d);
    DirectoryParts(s.disk, sb, s.bits, At(sb, s, d), t.parent[d]);
    LookupIs(sb, s, d, name);
    BindingsOf(l);
    FileNameIs(name);
    var k :| 0 <= k < |l| && l[k].name == Pad(name);
    DotsOrChild(s.disk, sb, s.bits, At(sb, s, d), t.parent[d], k);
    PadsApart(name);
    ChildNameIs(l, k);
    CStrPad(name);
  }

  /** One component moves the stack of names as the search moves through the tree. */
  lemma MoveFound(sb: SuperBlock, s: Fs, t: Tree, padding: set<int>, d: nat, name: seq<byte>)
    requires FsOk(sb, s, t, padding) && d in t.kind && t.kind[d] == FT_DIRECTORY
    requires FileName(name) && |name| <= 15 && Lookup(sb, s, d, name).Some?
    ensures var (i, kind) := Lookup(sb, s, d, name).value;
      i as nat in t.kind && t.kind[i] == kind && Move(PathNames(sb, s, t, d), name) == PathNames(sb, s, t, i)
  {
    hide *;
    LookupTarget(sb, s, t, padding, d, name);
    var (i, kind) := Lookup(sb, s, d, name).value;
    var names := PathNames(sb, s, t, d);
    Moves(names, name);
    if name == [0x2e, 0x2e] {
      if d == 0 {
        FsParts(sb, s, t, padding);
        RootParent(sb, s, t);
        RootNames(sb, s, t);
      } else {
        PathNamesStep(sb, s, t, padding, d);
        assert names[..|names| - 1] == PathNames(sb, s, t, i);
      }
    } else if name != [0x2e] {
      LookupChildName(sb, s, t, padding, d, name);
      PathNamesStep(sb, s, t, padding, i);
    }
  }

  lemma Moves(stack: seq<seq<byte>>, c: seq<byte>)
    ensures c == [0x2e, 0x2e] ==> Move(stack, c) == if stack == [] then [] else stack[..|stack| - 1]
    ensures c == [0x2e] ==> Move(stack, c) == stack
    ensures c != [0x2e] && c != [0x2e, 0x2e] ==> Move(stack, c) == stack + [c]
  {
  }

  /** What a walk finds has the names that the components resolve to. */
  lemma {:induction false} ResolveFound(sb: SuperBlock, s: Fs, t: Tree, padding: set<int>, d: nat, parent: nat, n: nat,
        comps: seq<seq<byte>>)
    requires FsOk(sb, s, t, padding) && d in t.kind && t.kind[d] == FT_DIRECTORY
    requires ShortNames(comps) && NamesOk(comps) && StrictWalk(sb, s, d, parent, n, comps).Found?
    ensures var r := StrictWalk(sb, s, d, parent, n, comps);
      r.no in t.kind && t.kind[r.no] == r.kind && Resolve(PathNames(sb, s, t, d), comps) == PathNames(sb, s, t, r.no)
    decreases |comps|
  {
    hide Lookup, FsOk, FileName, Move, PathNames;
    if comps != [] {
      MoveFound(sb, s, t, padding, d, comps[0]);
      var (i, kind) := Lookup(sb, s, d, comps[0]).value;
      if kind == FT_DIRECTORY {
        ResolveFound(sb, s, t, padding, i, d, n + 1, comps[1..]);
      } else {
        assert comps[1..] == [];
        ResolveNothing(Move(PathNames(sb, s, t, d), comps[0]));
      }
    }
  }

  /** The washed path leads to what the old path leads to, if that leads anywhere: the same inode, found in its parent, by
      `search_file` as well. */
  lemma WashingKeeps(sb: SuperBlock, s: Fs, t: Tree, padding: set<int>, path: seq<byte>)
    requires FsOk(sb, s, t, padding) && ShortNames(Components(path)) && NoZero(path)
    requires StrictWalk(sb, s, 0, 0, 0, Components(path)).Found?
    ensures var Found(i, kind, p) := StrictWalk(sb, s, 0, 0, 0, Components(path));
      && i in t.kind && t.kind[i] == kind && i in t.parent && ShortNames(Components(Washed(path)))
      && Components(Washed(path)) == PathNames(sb, s, t, i)
      && Walk(sb, s, 0, 0, 0, Components(Washed(path))) == Found(i, kind, t.parent[i])
  {
    hide *;
    RootIsDirectory(sb, s, t, padding);
    ComponentsOk(path);
    RootNames(sb, s, t);
    ResolveFound(sb, s, t, padding, 0, 0, 0, Components(path));
    WashedIsClean(path);
    WalkPathNames(sb, s, t, padding, StrictWalk(sb, s, 0, 0, 0, Components(path)).no);
  }

  lemma {:induction false} ComponentsOk(path: seq<byte>)
    requires NoZero(path) && ShortNames(Components(path))
    ensures NamesOk(Components(path))
    decreases |path|
  {
    if path != [] && path[0] == SLASH {
      ComponentsOk(path[1..]);
    } else if path != [] {
      var n := NameLen(path);
      ShortTail(path[..n], Components(path[n..]));
      ComponentsOk(path[n..]);
    }
  }

  lemma ShortTail(name: seq<byte>, rest: seq<seq<byte>>)
    requires ShortNames([name] + rest)
    ensures |name| <= 15 && ShortNames(rest)
  {
    assert ([name] + rest)[0] == name;
    assert forall k :: 0 <= k < |rest| ==> rest[k] == ([name] + rest)[k + 1];
  }
}
