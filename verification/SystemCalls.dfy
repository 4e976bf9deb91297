/** The system calls of fs/fs.c that take a path: the search, which leaves a directory open, and what each call does with what
    it found. */
module SystemCalls {
  import opened Bytes
  import opened Wrappers
  import opened Bitmaps
  import opened Disks
  import opened InodeTables
  import opened Partitions
  import opened Files
  import opened DirEntries
  import opened Dirs
  import opened FileSystems
  import Histories
  import opened Operations
  import opened Paths
  import opened PathSearch
  import opened PathEffects

  // ----- open directories -----

  /** A `struct dir`: `root_dir`, which is never closed, or one from `dir_open`. */
  datatype Handle = RootDir(inode: Inode) | Opened(inode: Inode)

  /** One more open of `o`. */
  ghost function Bump(c: map<Inode, nat>, o: Inode): map<Inode, nat> {
    c[o := if o in c then c[o] + 1 else 1]
  }

  /** One less; the last one drops it. */
  ghost function Drop(c: map<Inode, nat>, o: Inode): map<Inode, nat> {
    if o in c && c[o] > 1 then c[o := c[o] - 1] else c - {o}
  }

  /** The cache with the directory open. */
  ghost function Grab(c: map<Inode, nat>, h: Handle): map<Inode, nat> {
    if h.Opened? then Bump(c, h.inode) else c
  }

  lemma DropBump(c: map<Inode, nat>, o: Inode)
    requires o in c ==> c[o] > 0
    ensures Drop(Bump(c, o), o) == c
  {
  }

  lemma GrabFacts(c: map<Inode, nat>, h: Handle)
    ensures h.RootDir? ==> Grab(c, h) == c
    ensures h.Opened? ==> Grab(c, h) == Bump(c, h.inode)
    ensures forall o :: o in c ==> o in Grab(c, h)
    ensures forall o :: o in Grab(c, h) ==> o in c || (h.Opened? && o == h.inode)
  {
  }

  lemma GrabPositive(c: map<Inode, nat>, h: Handle)
    requires forall o :: o in c ==> c[o] > 0
    ensures forall o :: o in Grab(c, h) ==> Grab(c, h)[o] > 0
  {
  }

  lemma BumpFacts(c: map<Inode, nat>, o: Inode)
    ensures forall p :: p in Bump(c, o) <==> p in c || p == o
    ensures forall p :: p in c ==> Bump(c, o)[p] >= c[p]
    ensures Bump(c, o)[o] > 0
  {
  }

  /** `inode_open`, and `dir_open` apart from the allocation of the `struct dir`. */
  method Open(part: Partition, no: nat, ghost t: Tree, ghost padding: set<int>) returns (inode: Inode)
    requires Sound(part, t, padding) && no in t.kind
    modifies part`openInodes, part.openInodes`openCnts
    ensures Sound(part, t, padding) && View(part) == old(View(part))
    ensures inode in part.openInodes && inode.no as nat == no && (inode in old(part.openInodes) || fresh(inode))
    ensures inode !in old(part.openInodes) ==> !inode.writenDeny
    ensures Cache(part) == Bump(old(Cache(part)), inode)
    ensures forall i :: 0 <= i < |part.openInodes| ==> part.openInodes[i] in old(part.openInodes) || fresh(part.openInodes[i])
  {
    hide *;
    ghost var sb, s := part.sb, View(part);
    ghost var c := Cache(part);
    ViewIs(part);
    CacheIs(part);
    SoundFacts(part, t, padding);
    InodeParts(sb, s, t, padding, no);
    NodeNumber(sb, s, t, no);
    AtIs(sb, s, no);
    FsParts(sb, s, t, padding);
    UsedSet(s, t, no);
    part.WritableFacts();
    inode := InodeOpen(part, no);
    ViewIs(part);
    CacheIs(part);
    OpenedMore(part, c, inode);
    InodeDisk(inode);
    SoundIntro(part, t, padding);
  }

  lemma OpenedMore(part: Partition, c: map<Inode, nat>, inode: Inode)
    requires forall o :: o in part.openInodes <==> o in c || o == inode
    requires forall o :: o in c && o != inode ==> o.openCnts == c[o]
    requires inode.openCnts == if inode in c then c[inode] + 1 else 1
    ensures Cache(part) == Bump(c, inode)
  {
  }

  /** `dir_close`. */
  method DirClose(part: Partition, h: Handle, ghost t: Tree, ghost padding: set<int>, ghost no: nat)
    requires NoTwins(part.openInodes) && h.inode in part.openInodes && h.inode.openCnts > 0
    modifies part`openInodes, h.inode`openCnts
    ensures NoTwins(part.openInodes) && View(part) == old(View(part))
    ensures Cache(part) == if h.Opened? then Drop(old(Cache(part)), h.inode) else old(Cache(part))
    ensures forall i :: 0 <= i < |part.openInodes| ==> part.openInodes[i] in old(part.openInodes)
    ensures old(Sound(part, t, padding)) ==> Sound(part, t, padding)
    ensures old(SoundBut(part, t, padding, no)) ==> SoundBut(part, t, padding, no)
  {
    hide *;
    ghost var c := Cache(part);
    ghost var sound, but := Sound(part, t, padding), SoundBut(part, t, padding, no);
    CacheIs(part);
    ViewIs(part);
    if sound {
      SoundFacts(part, t, padding);
    }
    if but {
      SoundButFacts(part, t, padding, no);
    }
    if h.Opened? {
      InodeClose(part, h.inode);
    }
    CacheIs(part);
    ViewIs(part);
    if h.Opened? {
      ClosedOne(part, c, h.inode);
    }
    if sound {
      SoundIntro(part, t, padding);
    }
    if but {
      SoundButIntro(part, t, padding, no);
    }
  }

  lemma ClosedOne(part: Partition, c: map<Inode, nat>, inode: Inode)
    requires inode in c && c[inode] > 0 && inode.openCnts == c[inode] - 1
    requires forall o :: o in part.openInodes <==> o in c && (o != inode || inode.openCnts > 0)
    requires forall o :: o in c && o != inode ==> o.openCnts == c[o]
    ensures Cache(part) == Drop(c, inode)
  {
  }

  lemma SoundButFacts(part: Partition, t: Tree, padding: set<int>, no: nat)
    requires SoundBut(part, t, padding, no)
    ensures part.Writable() && FsOk(part.sb, View(part), t, padding) && NoTwins(part.openInodes)
    ensures !BitSetIn(part.inodeBitmap.bits[..], no) && forall o :: o in part.openInodes ==> o.openCnts > 0
    ensures forall o :: o in part.openInodes && o.no as nat != no ==> o.no < 4096 && BitSetIn(part.inodeBitmap.bits[..], o.no)
    ensures forall o :: o in part.openInodes && o.no as nat != no ==> o.Disk() == At(part.sb, View(part), o.no)
  {
    hide FsOk, At, BitSetIn;
  }

  // ----- search_file -----

  /** An absolute path that `search_file` takes. Components over 15 bytes would overrun its name buffer, and of slashes only,
      other than "/", it returns an uninitialised number. */
  predicate PathOk(path: seq<byte>) {
    && path != [] && path[0] == SLASH && |path| < 512 && NoZero(path) && ShortNames(Components(path))
    && (Components(path) == [] ==> path == [SLASH])
  }

  /** "/", "/." and "/..", which the search does not look at. */
  predicate IsRootPath(path: seq<byte>) {
    path == [SLASH] || path == [SLASH, 0x2e] || path == [SLASH, 0x2e, 0x2e]
  }

  lemma {:induction false} ComponentsNoZero(p: seq<byte>)
    requires NoZero(p)
    ensures forall k :: 0 <= k < |Components(p)| ==> NoZero(Components(p)[k])
    decreases |p|
  {
    if p != [] {
      if p[0] == SLASH {
        ComponentsNoZero(p[1..]);
      } else {
        ComponentsNoZero(p[NameLen(p)..]);
      }
    }
  }

  lemma PathFacts(path: seq<byte>)
    requires PathOk(path)
    ensures path != [] && path[0] == SLASH && |path| < 512 && NoZero(path) && ShortNames(Components(path))
    ensures NamesOk(Components(path)) && (Components(path) == [] ==> path == [SLASH])
  {
    ComponentsAreNames(path);
    ComponentsNoZero(path);
    hide Components;
    forall k | 0 <= k < |Components(path)|
      ensures FileName(Components(path)[k])
    {
      FileNameIs(Components(path)[k]);
    }
  }

  /** `search_dir_entry` of an open directory is the lookup. */
  method SearchIn(part: Partition, dir: Inode, name: seq<byte>, ghost t: Tree, ghost padding: set<int>) returns (r: Option<Entry>)
    requires Sound(part, t, padding) && dir in part.openInodes && dir.no as nat in t.kind && t.kind[dir.no] == FT_DIRECTORY
    requires NoZero(name) && 1 <= |name| <= 15
    ensures Lookup(part.sb, View(part), dir.no, name) == if r.None? then None else Some((r.value.no, r.value.kind))
    ensures r.Some? ==> r.value.no as nat in t.kind && t.kind[r.value.no] == r.value.kind && r.value.no < 4096
  {
    hide *;
    ghost var sb, s, d: u32 := part.sb, View(part), dir.no;
    ViewIs(part);
    SoundFacts(part, t, padding);
    DirInode(sb, s, t, padding, d);
    DirectoryParts(s.disk, sb, s.bits, At(sb, s, d), t.parent[d]);
    DirectorySearchable(s.disk, sb, s.bits, At(sb, s, d), t.parent[d]);
    InodeDisk(dir);
    r := SearchDirEntry(part, dir, name);
    LookupIsBinding(Entries(s.disk, At(sb, s, d)), name, r);
    LookupIs(sb, s, d, name);
    if r.Some? {
      EntryTarget(sb, s, t, padding, d, r.value);
    }
  }

  /** The number and the type that the search returns. */
  function Hit(r: SearchResult): Option<(nat, u32)> {
    if r.Found? then Some((r.no, r.kind)) else None
  }

  /** The directory that the search leaves open: the one in which it found its target, or in which it found nothing. */
  function Where(r: SearchResult): nat {
    match r
    case Found(_, _, p) => p
    case Missing(d, _) => d
  }

  lemma HitFacts(r: SearchResult)
    ensures r.Found? ==> Hit(r) == Some((r.no, r.kind)) && Where(r) == r.parent
    ensures r.Missing? ==> Hit(r) == None && Where(r) == r.dir
  {
  }

  /** The components searched so far, as the path of them shows. */
  ghost predicate Searched(searchedPath: seq<byte>, names: seq<seq<byte>>) {
    && Components(searchedPath) == names
    && (names != [] ==> LastSlash(searchedPath) >= 0 && searchedPath[LastSlash(searchedPath) + 1..] == Last(names))
  }

  /** The first `k` components were searched. */
  ghost predicate SearchedUpTo(searchedPath: seq<byte>, all: seq<seq<byte>>, k: nat) {
    k <= |all| && Searched(searchedPath, all[..k])
  }

  lemma SearchedMore(searchedPath: seq<byte>, names: seq<seq<byte>>, name: seq<byte>)
    requires Searched(searchedPath, names) && IsName(name)
    ensures Searched(searchedPath + [SLASH] + name, names + [name])
  {
    hide Components, LastSlash;
    ComponentsAppend(searchedPath, name);
    SlashThenName(searchedPath, name);
    var p := searchedPath + [SLASH] + name;
    assert p[|searchedPath|..][1..] == p[|searchedPath| + 1..] == name;
  }

  lemma SearchedNothing()
    ensures Searched([], [])
  {
  }

  /** One component of the walk: `all` is the path, the first `k` components are done. */
  lemma DepthStep(sb: SuperBlock, s: Fs, d: nat, name: seq<byte>, rest: seq<seq<byte>>)
    requires ShortNames([name] + rest) && ShortNames(rest) && |name| <= 15
    ensures var e := Lookup(sb, s, d, name);
      var behind := if e.Some? && e.value.1 == FT_DIRECTORY then WalkDepth(sb, s, e.value.0, rest) else 0;
      WalkDepth(sb, s, d, [name] + rest) == 1 + behind
    ensures WalkDepth(sb, s, d, []) == 0
  {
    assert ([name] + rest)[1..] == rest;
    hide Lookup;
  }

  /** The search along `all` has done `k` components, is in directory `d`, found in `parent`, and has `pending` to do. */
  ghost predicate Walking(sb: SuperBlock, s: Fs, all: seq<seq<byte>>, k: nat, d: nat, parent: nat, pending: seq<seq<byte>>,
        searchedPath: seq<byte>) {
    && k <= |all| && all[k..] == pending && Searched(searchedPath, all[..k]) && ShortNames(pending) && ShortNames(all)
    && Walk(sb, s, d, parent, k, pending) == Walk(sb, s, 0, 0, 0, all)
    && k + WalkDepth(sb, s, d, pending) == WalkDepth(sb, s, 0, all)
  }

  lemma WalkingStarts(sb: SuperBlock, s: Fs, all: seq<seq<byte>>)
    requires ShortNames(all)
    ensures Walking(sb, s, all, 0, 0, 0, all, [])
  {
    hide Walk, WalkDepth, Searched;
    SearchedNothing();
    assert all[..0] == [] && all[0..] == all;
  }

  /** The next component: not there, a directory, or a file. */
  lemma WalkingOn(sb: SuperBlock, s: Fs, all: seq<seq<byte>>, k: nat, d: nat, parent: nat, name: seq<byte>,
        rest: seq<seq<byte>>, searchedPath: seq<byte>)
    requires Walking(sb, s, all, k, d, parent, [name] + rest, searchedPath) && IsName(name)
    ensures |name| <= 15 && ShortNames(all)
    ensures var e, w := Lookup(sb, s, d, name), Walk(sb, s, 0, 0, 0, all);
      && (e.Some? && e.value.1 == FT_DIRECTORY ==> Walking(sb, s, all, k + 1, e.value.0, d, rest, searchedPath + [SLASH] + name))
      && (e.None? ==> w == Missing(d, k + 1) && SearchedUpTo(searchedPath + [SLASH] + name, all, WalkDepth(sb, s, 0, all)))
      && (e.Some? && e.value.1 != FT_DIRECTORY ==>
        w == Found(e.value.0, e.value.1, d) && SearchedUpTo(searchedPath + [SLASH] + name, all, WalkDepth(sb, s, 0, all)))
  {
    hide Walk, WalkDepth, Searched, Lookup, IsName;
    ShortParts(name, rest);
    WalkStep(sb, s, d, parent, k, name, rest);
    DepthStep(sb, s, d, name, rest);
    TakeMore(all, k, name, rest);
    SearchedMore(searchedPath, all[..k], name);
  }

  lemma WalkingDone(sb: SuperBlock, s: Fs, all: seq<seq<byte>>, k: nat, d: nat, parent: nat, searchedPath: seq<byte>)
    requires Walking(sb, s, all, k, d, parent, [], searchedPath)
    ensures ShortNames(all) && Walk(sb, s, 0, 0, 0, all) == Found(d, FT_DIRECTORY, parent)
    ensures SearchedUpTo(searchedPath, all, WalkDepth(sb, s, 0, all))
  {
    hide Searched, Lookup;
  }

  lemma TakeMore(all: seq<seq<byte>>, k: nat, name: seq<byte>, rest: seq<seq<byte>>)
    requires k <= |all| && all[k..] == [name] + rest
    ensures k < |all| && all[k] == name && all[..k + 1] == all[..k] + [name] && all[k + 1..] == rest
  {
    assert |all[k..]| == 1 + |rest|;
    assert all[k..][0] == name;
    assert all[k..][1..] == all[k + 1..];
    assert ([name] + rest)[1..] == rest;
  }

  lemma RootPathIs(path: seq<byte>)
    requires path == [SLASH] || path == [SLASH, 0x2e] || path == [SLASH, 0x2e, 0x2e]
    ensures IsRootPath(path)
  {
  }

  /** `dir_close` of one directory, `dir_open` of the next. */
  method Reopen(part: Partition, dir: Handle, no: nat, ghost c: map<Inode, nat>, ghost t: Tree, ghost padding: set<int>)
    returns (next: Handle)
    requires Sound(part, t, padding) && no in t.kind && dir.inode in part.openInodes
    requires Cache(part) == Grab(c, dir) && forall o :: o in c ==> c[o] > 0
    modifies part`openInodes, part.openInodes`openCnts
    ensures Sound(part, t, padding) && View(part) == old(View(part)) && Cache(part) == Grab(c, next) && next.Opened?
    ensures next.inode in part.openInodes && next.inode.no as nat == no
    ensures (next.inode in old(part.openInodes) || fresh(next.inode))
    ensures forall i :: 0 <= i < |part.openInodes| ==> part.openInodes[i] in old(part.openInodes) || fresh(part.openInodes[i])
  {
    hide *;
    CacheIs(part);
    SoundFacts(part, t, padding);
    GrabFacts(c, dir);
    DropBump(c, dir.inode);
    DirClose(part, dir, t, padding, 0);
    CacheIs(part);
    assert Cache(part) == c;
    var inode := Open(part, no, t, padding);
    CacheIs(part);
    BumpFacts(c, inode);
    next := Opened(inode);
    GrabFacts(c, next);
  }

  /** The next name, if the path goes on. */
  method NextComponent(subPath: Option<seq<byte>>) returns (rest: Option<seq<byte>>, name: seq<byte>)
    requires subPath.Some? ==> SubPath(subPath.value)
    ensures Pending(name, rest) == Pending([], subPath) && (name == [] ==> Pending(name, rest) == [])
    ensures NoZero(name) && (name != [] ==> IsName(name)) && (rest.Some? ==> SubPath(rest.value))
    ensures subPath.None? ==> rest.None? && name == []
    ensures subPath.Some? ==> (rest.Some? ==> |rest.value| < |subPath.value|)
  {
    hide *;
    EmptyNames();
    LeftIs([], subPath);
    if subPath.None? {
      return None, [];
    }
    var sub := subPath.value;
    SubPathIs(sub);
    rest, name := PathParse(sub);
    Parsed(sub, rest, name);
    LeftIs(name, rest);
  }

  /** `search_file`: the walk, the path searched, and the directory left open. */
  method SearchFile(part: Partition, root: Inode, path: seq<byte>, ghost t: Tree, ghost padding: set<int>)
    returns (r: Option<(nat, u32)>, searchedPath: seq<byte>, dir: Handle)
    requires Sound(part, t, padding) && root in part.openInodes && root.no == 0 && PathOk(path)
    modifies part`openInodes, part.openInodes`openCnts
    ensures Sound(part, t, padding) && View(part) == old(View(part))
    ensures r == Hit(Walk(part.sb, View(part), 0, 0, 0, Components(path)))
    ensures !IsRootPath(path) ==>
      SearchedUpTo(searchedPath, Components(path), WalkDepth(part.sb, View(part), 0, Components(path)))
    ensures dir.inode in part.openInodes && dir.inode.no as nat == Where(Walk(part.sb, View(part), 0, 0, 0, Components(path)))
    ensures (dir.inode in old(part.openInodes) || fresh(dir.inode)) && (dir.RootDir? ==> dir.inode.no == 0)
    ensures Cache(part) == Grab(old(Cache(part)), dir)
    ensures forall i :: 0 <= i < |part.openInodes| ==> part.openInodes[i] in old(part.openInodes) || fresh(part.openInodes[i])
  {
    hide *;
    ghost var sb, s, c, all := part.sb, View(part), Cache(part), Components(path);
    ViewIs(part);
    CacheIs(part);
    PathFacts(path);
    SoundFacts(part, t, padding);
    RootPaths(sb, s, t, padding);
    RootIsDirectory(sb, s, t, padding);
    dir := RootDir(root);
    GrabFacts(c, dir);
    searchedPath := [];
    if path == [SLASH] || path == [SLASH, 0x2e] || path == [SLASH, 0x2e, 0x2e] {
      RootPathIs(path);
      HitFacts(Found(0, FT_DIRECTORY, 0));
      return Some((0, FT_DIRECTORY)), [], dir;
    }
    var parentInodeNo: u32 := 0;
    SubPathIs(path);
    LeftIs([], Some(path));
    var subPath, name := NextComponent(Some(path));
    WalkingStarts(sb, s, all);
    ghost var k := 0;
    while name != []
      invariant Sound(part, t, padding) && View(part) == s && Cache(part) == Grab(c, dir)
      invariant dir.inode in part.openInodes && (dir.inode in old(part.openInodes) || fresh(dir.inode))
      invariant dir.RootDir? ==> dir.inode.no == 0
      invariant forall i :: 0 <= i < |part.openInodes| ==> part.openInodes[i] in old(part.openInodes) || fresh(part.openInodes[i])
      invariant dir.inode.no as nat in t.kind && t.kind[dir.inode.no] == FT_DIRECTORY && parentInodeNo as nat in t.kind
      invariant Walking(sb, s, all, k, dir.inode.no, parentInodeNo, Pending(name, subPath), searchedPath)
      invariant NoZero(name) && (name != [] ==> IsName(name)) && (subPath.Some? ==> SubPath(subPath.value))
      invariant name == [] ==> Pending(name, subPath) == []
      decreases if subPath.Some? then |subPath.value| + 1 else 0, |name|
    {
      PendingIs(name, subPath);
      WalkingOn(sb, s, all, k, dir.inode.no, parentInodeNo, name, Pending([], subPath), searchedPath);
      searchedPath := searchedPath + [SLASH] + name;
      k := k + 1;
      NamesAreNotEmpty(name);
      var dirE := SearchIn(part, dir.inode, name, t, padding);
      if dirE.None? {
        HitFacts(Missing(dir.inode.no, k));
        return None, searchedPath, dir;
      }
      subPath, name := NextComponent(subPath);
      if dirE.value.kind == FT_DIRECTORY {
        parentInodeNo := dir.inode.no;
        dir := Reopen(part, dir, dirE.value.no, c, t, padding);
      } else {
        HitFacts(Found(dirE.value.no, dirE.value.kind, dir.inode.no));
        return Some((dirE.value.no as nat, dirE.value.kind)), searchedPath, dir;
      }
    }
    WalkingDone(sb, s, all, k, dir.inode.no, parentInodeNo, searchedPath);
    HitFacts(Found(dir.inode.no, FT_DIRECTORY, parentInodeNo));
    var no := dir.inode.no;
    dir := Reopen(part, dir, parentInodeNo, c, t, padding);
    return Some((no as nat, FT_DIRECTORY)), searchedPath, dir;
  }

  // ----- sys_mkdir -----

  /** Where a path leads. */
  ghost function Target(sb: SuperBlock, s: Fs, path: seq<byte>): SearchResult
    requires PathOk(path)
  {
    Walk(sb, s, 0, 0, 0, Components(path))
  }

  /** Only the last component is missing. */
  ghost predicate LastMissing(sb: SuperBlock, s: Fs, path: seq<byte>)
    requires PathOk(path)
  {
    Target(sb, s, path).Missing? && Target(sb, s, path).depth == |Components(path)|
  }

  function LastName(path: seq<byte>): seq<byte> {
    if Components(path) == [] then [] else Last(Components(path))
  }

  /** What the search says of a path that leads nowhere. */
  lemma MissingSearch(sb: SuperBlock, s: Fs, t: Tree, padding: set<int>, path: seq<byte>, searchedPath: seq<byte>)
    requires FsOk(sb, s, t, padding) && PathOk(path) && Target(sb, s, path).Missing?
    requires !IsRootPath(path) ==> SearchedUpTo(searchedPath, Components(path), WalkDepth(sb, s, 0, Components(path)))
    ensures Components(path) != [] && Components(searchedPath) != []
    ensures |Components(searchedPath)| == Target(sb, s, path).depth
    ensures var d := Target(sb, s, path).dir;
      && d in t.kind && t.kind[d] == FT_DIRECTORY
      && (LastMissing(sb, s, path) ==>
        && LastSlash(searchedPath) >= 0 && searchedPath[LastSlash(searchedPath) + 1..] == LastName(path)
        && FileName(LastName(path)) && |LastName(path)| <= 15 && NoMatch(Entries(s.disk, At(sb, s, d)), LastName(path)))
  {
    hide *;
    var all := Components(path);
    PathFacts(path);
    TargetIs(sb, s, path);
    NotRootPath(sb, s, t, padding, path);
    WalkDone(sb, s, 0, 0, 0);
    MissingLast(sb, s, t, padding, all);
    RootIsDirectory(sb, s, t, padding);
    WalkEnds(sb, s, t, padding, 0, 0, 0, all);
    SearchedUpToFacts(searchedPath, all, WalkDepth(sb, s, 0, all));
    LastNameIs(path);
    if LastMissing(sb, s, path) {
      NamesOkLast(all);
      FileNameIs(Last(all));
    }
  }

  lemma NamesOkLast(names: seq<seq<byte>>)
    requires NamesOk(names) && names != []
    ensures FileName(Last(names))
  {
    hide FileName;
  }

  lemma TargetIs(sb: SuperBlock, s: Fs, path: seq<byte>)
    requires PathOk(path)
    ensures ShortNames(Components(path)) && Target(sb, s, path) == Walk(sb, s, 0, 0, 0, Components(path))
    ensures LastMissing(sb, s, path) <==> Target(sb, s, path).Missing? && Target(sb, s, path).depth == |Components(path)|
  {
  }

  lemma LastNameIs(path: seq<byte>)
    requires Components(path) != []
    ensures LastName(path) == Last(Components(path)) == Components(path)[|Components(path)| - 1]
    ensures Components(path)[..|Components(path)|] == Components(path)
  {
  }

  lemma NotRootPath(sb: SuperBlock, s: Fs, t: Tree, padding: set<int>, path: seq<byte>)
    requires FsOk(sb, s, t, padding) && PathOk(path)
    ensures IsRootPath(path) ==> Target(sb, s, path) == Found(0, FT_DIRECTORY, 0)
    ensures Components(path) == [] ==> IsRootPath(path)
  {
    hide FsOk, Components, Walk, Target;
    RootPaths(sb, s, t, padding);
    TargetIs(sb, s, path);
  }

  lemma SearchedUpToFacts(searchedPath: seq<byte>, all: seq<seq<byte>>, k: nat)
    requires SearchedUpTo(searchedPath, all, k)
    ensures k <= |all| && Components(searchedPath) == all[..k] && |Components(searchedPath)| == k
    ensures k > 0 ==> LastSlash(searchedPath) >= 0 && searchedPath[LastSlash(searchedPath) + 1..] == all[k - 1]
  {
    hide Components, LastSlash;
  }

  /** A directory opened by the search and closed: the cache is as before. */
  lemma CloseBack(c: map<Inode, nat>, h: Handle)
    requires forall o :: o in c ==> c[o] > 0
    ensures (if h.Opened? then Drop(Grab(c, h), h.inode) else Grab(c, h)) == c
  {
    hide Drop, Bump;
    DropBump(c, h.inode);
  }

  /** A path of which only the last component was missing leads to what was created. */
  lemma NowFound(sb: SuperBlock, s: Fs, t: Tree, padding: set<int>, path: seq<byte>, no: u32, kind: u32, s1: Fs)
    requires FsOk(sb, s, t, padding) && PathOk(path) && LastMissing(sb, s, path) && |LastName(path)| <= 15
    requires AddedTo(sb, s, s1, t, Target(sb, s, path).dir, Entry(Pad(LastName(path)), no, kind))
    ensures Target(sb, s1, path) == Found(no, kind, Target(sb, s, path).dir)
  {
    hide *;
    PathFacts(path);
    TargetIs(sb, s, path);
    TargetIs(sb, s1, path);
    var d := Target(sb, s, path).dir;
    RootIsDirectory(sb, s, t, padding);
    NotRootPath(sb, s, t, padding, path);
    LastNameIs(path);
    MissingLast(sb, s, t, padding, Components(path));
    AddKeeps(sb, s, t, padding, d, Entry(Pad(LastName(path)), no, kind), s1, LastName(path));
    WalkMade(sb, s, s1, t, padding, 0, 0, 0, Components(path), d);
  }

  /** A path that led to an inode now removed leads nowhere. */
  lemma NowMissing(sb: SuperBlock, s: Fs, t: Tree, padding: set<int>, path: seq<byte>, s1: Fs)
    requires FsOk(sb, s, t, padding) && PathOk(path) && Target(sb, s, path).Found? && Target(sb, s, path).no != 0
    requires var Found(i, kind, p) := Target(sb, s, path);
      && i < 4096 && i in t.kind && i in t.parent && t.parent[i] == p
      && (t.kind[i] == FT_REGULAR || |Entries(s.disk, At(sb, s, i))| == 2)
      && RemovedFrom(sb, s, s1, t, p, i)
    ensures Target(sb, s1, path).Missing?
    ensures Target(sb, s, path).kind == FT_REGULAR ==> BindingsKept(sb, s, s1, t, false)
  {
    hide *;
    var Found(i, kind, p) := Target(sb, s, path);
    PathFacts(path);
    TargetIs(sb, s, path);
    TargetIs(sb, s1, path);
    RootIsDirectory(sb, s, t, padding);
    NotRootPath(sb, s, t, padding, path);
    FoundParent(sb, s, t, padding, Components(path));
    RemoveGone(sb, s, t, padding, p, i, s1);
    RootIsDirectory(sb, s1, RemoveTree(sb, s, s1, t, p, i), padding);
    WalkGone(sb, s, t, padding, s1, RemoveTree(sb, s, s1, t, p, i), i, 0, 0, 0, Components(path));
  }

  datatype MkdirResult = Exists | NoSubpath | MkdirHalted | Made(no: u32)

  /** `sys_mkdir`. A directory is made exactly if all components but the last are there. */
  method SysMkdir(part: Partition, root: Inode, path: seq<byte>, ghost t: Tree, ghost padding: set<int>) returns (r: MkdirResult)
    requires Sound(part, t, padding) && root in part.openInodes && root.no == 0 && PathOk(path)
    requires LastMissing(part.sb, View(part), path) ==> Fits(part.sb, View(part), Target(part.sb, View(part), path).dir, 1)
    modifies part`disk, part.blockBitmap.bits, part.inodeBitmap.bits, part`openInodes
    modifies part.openInodes`openCnts, part.openInodes`size, part.openInodes`sectors
    ensures r.Exists? <==> Target(part.sb, old(View(part)), path).Found?
    ensures r.NoSubpath? <==> Target(part.sb, old(View(part)), path).Missing? && !LastMissing(part.sb, old(View(part)), path)
    ensures r.Made? <==>
      && LastMissing(part.sb, old(View(part)), path)
      && Room(part.sb, old(View(part)), Target(part.sb, old(View(part)), path).dir, 1)
    ensures r.Exists? || r.NoSubpath? ==> View(part) == old(View(part)) && Sound(part, t, padding)
    ensures r.Made? ==> var d, e := Target(part.sb, old(View(part)), path).dir, Entry(Pad(LastName(path)), r.no, FT_DIRECTORY);
      && AddedTo(part.sb, old(View(part)), View(part), t, d, e)
      && Sound(part, AddTree(part.sb, old(View(part)), View(part), t, d, e), padding)
      && Target(part.sb, View(part), path) == Found(r.no, FT_DIRECTORY, d)
    ensures !r.MkdirHalted? ==> Cache(part) == old(Cache(part))
  {
    hide *;
    ghost var sb, s, c := part.sb, View(part), Cache(part);
    CacheIs(part);
    SoundFacts(part, t, padding);
    TargetIs(sb, s, path);
    var inodeNo, searchedPath, dir := SearchFile(part, root, path, t, padding);
    HitFacts(Target(sb, s, path));
    SoundFacts(part, t, padding);
    CloseBack(c, dir);
    if inodeNo.Some? {
      DirClose(part, dir, t, padding, 0);
      return Exists;
    }
    MissingSearch(sb, s, t, padding, path, searchedPath);
    var pathNameDepth := PathDepthCnt(path);
    var pathSearchedDepth := PathDepthCnt(searchedPath);
    if pathNameDepth != pathSearchedDepth {
      DirClose(part, dir, t, padding, 0);
      return NoSubpath;
    }
    var dirname := searchedPath[LastSlash(searchedPath) + 1..];
    ViewIs(part);
    var made := MakeDirectory(part, dir.inode, dirname, t, padding);
    if made.None? {
      return MkdirHalted;
    }
    var no := made.value;
    ghost var t1 := AddTree(sb, s, View(part), t, dir.inode.no, Entry(Pad(dirname), no, FT_DIRECTORY));
    SoundFacts(part, t1, padding);
    DirClose(part, dir, t1, padding, 0);
    NowFound(sb, s, t, padding, path, no, FT_DIRECTORY, View(part));
    return Made(no);
  }

  // ----- sys_unlink -----

  /** What the search says of a path, not one of the root's own, that leads somewhere. */
  lemma FoundSearch(sb: SuperBlock, s: Fs, t: Tree, padding: set<int>, path: seq<byte>)
    requires FsOk(sb, s, t, padding) && PathOk(path) && Target(sb, s, path).Found? && Target(sb, s, path).no != 0
    ensures var Found(i, kind, p) := Target(sb, s, path);
      && i in t.kind && i < 4096 && t.kind[i] == kind && p in t.kind && t.kind[p] == FT_DIRECTORY
      && i in t.parent && p in t.parent && (kind == FT_DIRECTORY || kind == FT_REGULAR)
      && (kind == FT_REGULAR ==> t.parent[i] == p)
      && (kind == FT_DIRECTORY ==> FoundIn(t, i, p))
      && (kind == FT_DIRECTORY && LastName(path) == [0x2e] ==> i == p)
      && (kind == FT_DIRECTORY && i == p ==> LastName(path) == [0x2e])
  {
    hide *;
    Kinds();
    PathFacts(path);
    TargetIs(sb, s, path);
    NotRootPath(sb, s, t, padding, path);
    FoundParent(sb, s, t, padding, Components(path));
    LastNameIs(path);
    var Found(i, kind, p) := Target(sb, s, path);
    InodeParts(sb, s, t, padding, i);
    Histories.NodeIs(sb, s, t, i);
    ListedThere(sb, s, t, padding, i, t.parent[i]);
    if kind == FT_DIRECTORY {
      if i == p && Last(Components(path)) == [0x2e, 0x2e] {
        ParentDepth(sb, s, t, padding, i);
      }
      FoundInIntro(t, i, p);
    }
  }

  lemma FoundInIntro(t: Tree, i: nat, p: nat)
    requires i in t.kind && p in t.kind && t.kind[p] == FT_DIRECTORY && i in t.parent && p in t.parent
    requires t.parent[i] == p || i == p || t.parent[p] == i
    ensures FoundIn(t, i, p)
  {
  }

  datatype SysUnlinkResult = UnlinkHalted | NotFound | IsDirectory | Busy | Unlinked

  /** `sys_unlink`. The file is gone, and all is sound exactly if it was not cached: it can be, without a slot in the file
      table, after a fork and a close. */
  method SysUnlink(part: Partition, table: FileTable, root: Inode, path: seq<byte>, ghost t: Tree, ghost padding: set<int>)
    returns (r: SysUnlinkResult)
    requires Sound(part, t, padding) && root in part.openInodes && root.no == 0 && PathOk(path)
    modifies part`disk, part.blockBitmap.bits, part.inodeBitmap.bits, part`openInodes
    modifies part.openInodes`openCnts, part.openInodes`size, part.openInodes`sectors
    ensures var w := Target(part.sb, old(View(part)), path);
      && (r.NotFound? <==> w.Missing?)
      && (r.UnlinkHalted? <==> w.Found? && w.no == 0)
      && (r.IsDirectory? <==> w.Found? && w.no != 0 && w.kind == FT_DIRECTORY)
      && (r.Busy? <==>
        && w.Found? && w.no != 0 && w.kind == FT_REGULAR
        && exists k :: 0 <= k < |table.fdInode| && table.fdInode[k].Some? && table.fdInode[k].value.no as nat == w.no)
    ensures r.NotFound? || r.IsDirectory? || r.Busy? ==> View(part) == old(View(part)) && Sound(part, t, padding)
    ensures r.Unlinked? ==>
      var s, Found(i, kind, p) := old(View(part)), Target(part.sb, old(View(part)), path);
      && i < 4096 && RemovedFrom(part.sb, s, View(part), t, p, i)
      && FsOk(part.sb, View(part), RemoveTree(part.sb, s, View(part), t, p, i), padding)
      && (Sound(part, RemoveTree(part.sb, s, View(part), t, p, i), padding) <==> !old(Cached(part.openInodes, i)))
      && (old(Cached(part.openInodes, i)) ==> Unsound(part))
      && Target(part.sb, View(part), path).Missing? && BindingsKept(part.sb, s, View(part), t, false)
    ensures !r.UnlinkHalted? ==> Cache(part) == old(Cache(part))
  {
    hide *;
    ghost var sb, s, c, l := part.sb, View(part), Cache(part), part.openInodes;
    CacheIs(part);
    SoundFacts(part, t, padding);
    TargetIs(sb, s, path);
    var inodeNo, searchedPath, dir := SearchFile(part, root, path, t, padding);
    HitFacts(Target(sb, s, path));
    SoundFacts(part, t, padding);
    CloseBack(c, dir);
    if inodeNo.Some? && inodeNo.value.0 == 0 {
      return UnlinkHalted;
    }
    if inodeNo.None? {
      DirClose(part, dir, t, padding, 0);
      return NotFound;
    }
    FoundSearch(sb, s, t, padding, path);
    Kinds();
    if inodeNo.value.1 == FT_DIRECTORY {
      DirClose(part, dir, t, padding, 0);
      return IsDirectory;
    }
    var no: u32 := inodeNo.value.0;
    var gone := UnlinkFound(part, table.fdInode, dir, no, c, t, padding);
    if gone.InUse? {
      return Busy;
    }
    CacheIs(part);
    CachedSame(l, part.openInodes, no);
    NowMissing(sb, s, t, padding, path, View(part));
    return Unlinked;
  }

  /** The end of `sys_unlink`: removes the file, if no slot has it, and closes its directory. */
  method UnlinkFound(part: Partition, fileTable: seq<Option<Inode>>, dir: Handle, no: u32, ghost c: map<Inode, nat>,
        ghost t: Tree,
      ghost padding: set<int>) returns (r: UnlinkResult)
    requires Sound(part, t, padding) && Cache(part) == Grab(c, dir) && dir.inode in part.openInodes && forall o :: o in c ==>
      c[o] > 0
    requires no as nat in t.kind && t.kind[no] == FT_REGULAR && no as nat in t.parent && t.parent[no] == dir.inode.no
    modifies part`disk, part.blockBitmap.bits, part.inodeBitmap.bits, part`openInodes
    modifies part.openInodes`openCnts, dir.inode`size, dir.inode`sectors
    ensures Cache(part) == c
    ensures r.InUse? <==> exists k :: 0 <= k < |fileTable| && fileTable[k].Some? && fileTable[k].value.no == no
    ensures r.InUse? ==> View(part) == old(View(part)) && Sound(part, t, padding)
    ensures r.Gone? ==>
      var t1 := RemoveTree(part.sb, old(View(part)), View(part), t, dir.inode.no, no);
      && RemovedFrom(part.sb, old(View(part)), View(part), t, dir.inode.no, no) && FsOk(part.sb, View(part), t1, padding)
      && (Sound(part, t1, padding) <==> !Cached(part.openInodes, no)) && (Cached(part.openInodes, no) ==> Unsound(part))
  {
    hide *;
    ghost var sb, s := part.sb, View(part);
    CacheIs(part);
    CloseBack(c, dir);
    SoundFacts(part, t, padding);
    r := Unlink(part, fileTable, dir.inode, no, t, padding);
    CacheIs(part);
    if r.InUse? {
      SoundFacts(part, t, padding);
      DirClose(part, dir, t, padding, 0);
      return;
    }
    ghost var t1 := RemoveTree(sb, s, View(part), t, dir.inode.no, no);
    SoundButFacts(part, t1, padding, no);
    DirClose(part, dir, t1, padding, no);
    SoundButIff(part, t1, padding, no);
  }

  // ----- sys_rmdir -----

  datatype SysRmdirResult = RmdirHalted | NoDirectory | IsFile | HasEntries | Rmdone

  /** `sys_rmdir`. An empty directory is released; all is sound after that exactly if the path did not lead there through a last
      component ".", which leaves the entry, and nobody else had the directory open. */
  method SysRmdir(part: Partition, root: Inode, path: seq<byte>, ghost t: Tree, ghost padding: set<int>)
    returns (r: SysRmdirResult)
    requires Sound(part, t, padding) && root in part.openInodes && root.no == 0 && PathOk(path)
    modifies part`disk, part.blockBitmap.bits, part.inodeBitmap.bits, part`openInodes
    modifies part.openInodes`openCnts, part.openInodes`size, part.openInodes`sectors
    ensures var w := Target(part.sb, old(View(part)), path);
      && (r.NoDirectory? <==> w.Missing?)
      && (r.RmdirHalted? <==> w.Found? && w.no == 0)
      && (r.IsFile? <==> w.Found? && w.no != 0 && w.kind == FT_REGULAR)
      && (r.HasEntries? <==>
        && w.Found? && w.no != 0 && w.kind == FT_DIRECTORY
        && |Entries(old(View(part)).disk, At(part.sb, old(View(part)), w.no))| != 2)
    ensures r.NoDirectory? || r.IsFile? || r.HasEntries? ==> View(part) == old(View(part)) && Sound(part, t, padding)
    ensures r.Rmdone? ==>
      var s, Found(i, kind, p) := old(View(part)), Target(part.sb, old(View(part)), path);
      && i < 4096
      && (LastName(path) != [0x2e] ==>
        && RemovedFrom(part.sb, s, View(part), t, p, i)
        && FsOk(part.sb, View(part), RemoveTree(part.sb, s, View(part), t, p, i), padding)
        && Target(part.sb, View(part), path).Missing?)
      && (LastName(path) == [0x2e] ==>
        && Released(part.sb, s, View(part), i)
        && forall t1: Tree, padding1: set<int> :: !FsOk(part.sb, View(part), t1, padding1))
      && (Sound(part, RemoveTree(part.sb, s, View(part), t, p, i), padding) <==>
        LastName(path) != [0x2e] && !old(Cached(part.openInodes, i)))
      && (LastName(path) == [0x2e] || old(Cached(part.openInodes, i)) ==> Unsound(part))
    ensures !r.RmdirHalted? ==> Cache(part) == old(Cache(part))
  {
    hide *;
    ghost var sb, s, c, l := part.sb, View(part), Cache(part), part.openInodes;
    CacheIs(part);
    SoundFacts(part, t, padding);
    TargetIs(sb, s, path);
    var inodeNo, searchedPath, dir := SearchFile(part, root, path, t, padding);
    HitFacts(Target(sb, s, path));
    SoundFacts(part, t, padding);
    CloseBack(c, dir);
    if inodeNo.Some? && inodeNo.value.0 == 0 {
      return RmdirHalted;
    }
    if inodeNo.None? {
      DirClose(part, dir, t, padding, 0);
      return NoDirectory;
    }
    FoundSearch(sb, s, t, padding, path);
    Kinds();
    if inodeNo.value.1 == FT_REGULAR {
      DirClose(part, dir, t, padding, 0);
      return IsFile;
    }
    var no: u32 := inodeNo.value.0;
    var done := RemoveFound(part, dir, no, c, t, padding);
    if done.NotEmpty? {
      return HasEntries;
    }
    CacheIs(part);
    CachedSame(l, part.openInodes, no);
    if dir.inode.no == no {
      UnsoundNot(part, RemoveTree(sb, s, View(part), t, no, no), padding);
    } else {
      RemovedEmpty(sb, s, t, padding, dir.inode.no, no);
      NowMissing(sb, s, t, padding, path, View(part));
    }
    return Rmdone;
  }

  /** The end of `sys_rmdir`: opens the directory, removes it if it is empty, and closes it and its parent. */
  method RemoveFound(part: Partition, dir: Handle, no: u32, ghost c: map<Inode, nat>, ghost t: Tree, ghost padding: set<int>)
    returns (r: RmdirResult)
    requires Sound(part, t, padding) && Cache(part) == Grab(c, dir) && dir.inode in part.openInodes && forall o :: o in c ==>
      c[o] > 0
    requires no != 0 && no as nat in t.kind && t.kind[no] == FT_DIRECTORY && FoundIn(t, no, dir.inode.no)
    modifies part`disk, part.blockBitmap.bits, part.inodeBitmap.bits, part`openInodes
    modifies part.openInodes`openCnts, part.openInodes`size, part.openInodes`sectors
    ensures Cache(part) == c && dir.inode.no == old(dir.inode.no)
    ensures r.NotEmpty? <==> |Entries(old(View(part)).disk, At(part.sb, old(View(part)), no))| != 2
    ensures r.NotEmpty? ==> View(part) == old(View(part)) && Sound(part, t, padding)
    ensures r.RemovedDir? && dir.inode.no != no ==>
      var t1 := RemoveTree(part.sb, old(View(part)), View(part), t, dir.inode.no, no);
      && RemovedFrom(part.sb, old(View(part)), View(part), t, dir.inode.no, no) && FsOk(part.sb, View(part), t1, padding)
      && (Sound(part, t1, padding) <==> !Cached(part.openInodes, no)) && (Cached(part.openInodes, no) ==> Unsound(part))
    ensures r.RemovedDir? && dir.inode.no == no ==> Released(part.sb, old(View(part)), View(part), no) && Unsound(part)
    ensures r.RemovedDir? && dir.inode.no == no ==>
      forall t1: Tree, padding1: set<int> :: !FsOk(part.sb, View(part), t1, padding1)
  {
    hide *;
    ghost var sb, s := part.sb, View(part);
    CacheIs(part);
    GrabFacts(c, dir);
    CloseBack(c, dir);
    SoundFacts(part, t, padding);
    var dir2del := Open(part, no, t, padding);
    BumpFacts(Grab(c, dir), dir2del);
    DropBump(Grab(c, dir), dir2del);
    CacheIs(part);
    SoundFacts(part, t, padding);
    TwinsDiffer(part.openInodes);
    ViewIs(part);
    r := Rmdir(part, dir.inode, dir2del, t, padding);
    CacheIs(part);
    ghost var t1 := if r.NotEmpty? then t else RemoveTree(sb, s, View(part), t, dir.inode.no, no);
    DirClose(part, Opened(dir2del), t1, padding, no);
    CacheIs(part);
    DirClose(part, dir, t1, padding, no);
    if r.RemovedDir? {
      if dir.inode.no == no {
        NoTreeUnsound(part);
      } else {
        SoundButFacts(part, t1, padding, no);
        SoundButIff(part, t1, padding, no);
      }
    }
  }

  /** What was found as "..", or as ".", is not an empty directory found in its parent. */
  lemma RemovedEmpty(sb: SuperBlock, s: Fs, t: Tree, padding: set<int>, p: nat, i: nat)
    requires FsOk(sb, s, t, padding) && FoundIn(t, i, p) && i != p && i != 0 && i < 4096 && t.kind[i] == FT_DIRECTORY
    requires |Entries(s.disk, At(sb, s, i))| == 2
    ensures t.parent[i] == p
  {
    hide *;
    FoundInCases(t, i, p);
    VictimLeaf(sb, s, t, padding, i);
    FoundInLeaf(sb, s, t, padding, i, p);
  }

  lemma UnsoundNot(part: Partition, t: Tree, padding: set<int>)
    requires Unsound(part)
    ensures !Sound(part, t, padding)
  {
    hide Sound;
  }

  lemma NoTreeUnsound(part: Partition)
    requires forall t: Tree, padding: set<int> :: !FsOk(part.sb, View(part), t, padding)
    ensures Unsound(part)
  {
    hide FsOk, Sound;
    forall t: Tree, padding: set<int>
      ensures !Sound(part, t, padding)
    {
      if Sound(part, t, padding) {
        SoundFacts(part, t, padding);
      }
    }
  }

  // ----- sys_open -----

  /** The path goes on behind a regular file. */
  ghost predicate Behind(sb: SuperBlock, s: Fs, path: seq<byte>)
    requires PathOk(path)
  {
    ThroughFile(sb, s, 0, Components(path))
  }

  /** The depth of the path searched tells a path of the right depth from one that failed in between, or went on behind a file. */
  lemma DepthTells(sb: SuperBlock, s: Fs, t: Tree, padding: set<int>, path: seq<byte>, searchedPath: seq<byte>)
    requires FsOk(sb, s, t, padding) && PathOk(path) && path[|path| - 1] != SLASH
    requires !IsRootPath(path) ==> SearchedUpTo(searchedPath, Components(path), WalkDepth(sb, s, 0, Components(path)))
    requires var w := Target(sb, s, path); w.Missing? || w.kind == FT_REGULAR
    ensures Components(path) != [] && Components(searchedPath) != []
    ensures var w := Target(sb, s, path);
      |Components(searchedPath)| == |Components(path)| <==> if w.Missing? then LastMissing(sb, s, path) else !Behind(sb, s, path)
  {
    hide *;
    Kinds();
    PathFacts(path);
    TargetIs(sb, s, path);
    BehindIs(sb, s, path);
    NotRootPath(sb, s, t, padding, path);
    RootIsDirectory(sb, s, t, padding);
    WalkEnds(sb, s, t, padding, 0, 0, 0, Components(path));
    SearchedUpToFacts(searchedPath, Components(path), WalkDepth(sb, s, 0, Components(path)));
  }

  lemma BehindIs(sb: SuperBlock, s: Fs, path: seq<byte>)
    requires PathOk(path)
    ensures ShortNames(Components(path)) && (Behind(sb, s, path) <==> ThroughFile(sb, s, 0, Components(path)))
  {
    hide ThroughFile;
  }

  lemma SomeComponent(path: seq<byte>)
    requires PathOk(path) && path[|path| - 1] != SLASH
    ensures Components(path) != []
  {
  }

  /** `Denied` keeps the slot and the open inode. */
  datatype OpenResult =
    | TrailingSlash | IsDir | PathBroken | NoFile | FileExists | NoSlot | OpenHalted
    | Created(fdIdx: int, inode: Inode)
    | OpenedFile(fdIdx: int, inode: Inode)
    | Denied(fdIdx: int, inode: Inode)

  /** `file_open`, with the write flag given by `write`. */
  method FileOpen(part: Partition, table: FileTable, no: nat, write: bool, ghost t: Tree, ghost padding: set<int>)
    returns (r: OpenResult)
    requires Sound(part, t, padding) && no in t.kind && table.Valid()
    modifies table, part`openInodes, part.openInodes`openCnts, part.openInodes`writenDeny
    ensures Sound(part, t, padding) && View(part) == old(View(part))
    ensures r.NoSlot? || r.OpenedFile? || r.Denied?
    ensures r.NoSlot? <==> TableFull(old(table.fdInode))
    ensures r.NoSlot? ==> table.fdInode == old(table.fdInode) && Cache(part) == old(Cache(part))
    ensures !r.NoSlot? ==> SlotTaken(old(table.fdInode), table.fdInode, r.fdIdx, r.inode)
    ensures !r.NoSlot? ==> r.inode in part.openInodes && r.inode.no as nat == no && Cache(part) == Bump(old(Cache(part)), r.inode)
    ensures !r.NoSlot? ==> r.inode in old(part.openInodes) || (fresh(r.inode) && !r.Denied?)
    ensures !r.NoSlot? && r.inode in old(part.openInodes) ==> (r.Denied? <==> write && old(r.inode.writenDeny))
    ensures (r.Denied? ==> write) && (!r.NoSlot? && write ==> r.inode.writenDeny)
    ensures forall i :: 0 <= i < |part.openInodes| ==> part.openInodes[i] in old(part.openInodes) || fresh(part.openInodes[i])
  {
    hide *;
    var fdIdx := GetFreeSlotInGlobal(table);
    TableFullIs(table.fdInode, fdIdx);
    if fdIdx == -1 {
      return NoSlot;
    }
    TableLength(table);
    var inode := Open(part, no, t, padding);
    table.fdInode := table.fdInode[fdIdx := Some(inode)];
    SlotTakenIntro(old(table.fdInode), table.fdInode, fdIdx, inode);
    if write {
      if !inode.writenDeny {
        SoundFacts(part, t, padding);
        ViewIs(part);
        inode.writenDeny := true;
        ViewIs(part);
        SoundIntro(part, t, padding);
      } else {
        return Denied(fdIdx, inode);
      }
    }
    return OpenedFile(fdIdx, inode);
  }

  /** What `sys_open` comes to, by what the path leads to, whether it is to create, and whether the file table is full. A creation
      takes its number before it looks for a slot, and the block for the entry afterwards. */
  ghost predicate OpenOutcome(sb: SuperBlock, s: Fs, path: seq<byte>, create: bool, full: bool, r: OpenResult)
    requires PathOk(path)
  {
    var w := Target(sb, s, path);
    var missing, there := LastMissing(sb, s, path), w.Found? && w.kind == FT_REGULAR && !Behind(sb, s, path);
    && (r.IsDir? <==> w.Found? && w.kind == FT_DIRECTORY)
    && (r.PathBroken? <==> !r.IsDir? && !missing && !there)
    && (r.NoFile? <==> missing && !create)
    && (r.FileExists? <==> there && create)
    && (r.NoSlot? <==> ((missing && create && FreeBits(s.ibits) != {}) || (there && !create)) && full)
    && (r.OpenHalted? <==> missing && create && !Room(sb, s, Where(w), 0) && (full ==> FreeBits(s.ibits) == {}))
    && (r.Created? <==> missing && create && !full && Room(sb, s, Where(w), 0))
    && (r.OpenedFile? || r.Denied? <==> there && !create && !full)
  }

  function LastPadded(path: seq<byte>): Name {
    if |LastName(path)| <= 15 then Pad(LastName(path)) else Pad([])
  }

  /** The file was created where the path fails, under its last component, and the path leads to it now. */
  ghost predicate CreatedAt(sb: SuperBlock, s: Fs, s1: Fs, t: Tree, path: seq<byte>, no: u32) {
    && PathOk(path) && AddedTo(sb, s, s1, t, Where(Target(sb, s, path)), Entry(LastPadded(path), no, FT_REGULAR))
    && Target(sb, s1, path) == Found(no, FT_REGULAR, Where(Target(sb, s, path)))
  }

  ghost function CreatedTree(sb: SuperBlock, s: Fs, s1: Fs, t: Tree, path: seq<byte>, no: u32): Tree {
    if PathOk(path) && Where(Target(sb, s, path)) < 4096 && Where(Target(sb, s, path)) in t.depth then
      AddTree(sb, s, s1, t, Where(Target(sb, s, path)), Entry(LastPadded(path), no, FT_REGULAR))
    else t
  }

  lemma CreatedIs(sb: SuperBlock, s: Fs, s1: Fs, t: Tree, path: seq<byte>, no: u32)
    requires PathOk(path) && |LastName(path)| <= 15 && Target(sb, s, path).Missing?
    requires var d := Target(sb, s, path).dir;
      && d < 4096 && d in t.depth && AddedTo(sb, s, s1, t, d, Entry(Pad(LastName(path)), no, FT_REGULAR))
      && Target(sb, s1, path) == Found(no, FT_REGULAR, d)
    ensures CreatedAt(sb, s, s1, t, path, no)
    ensures
      var e := Entry(Pad(LastName(path)), no, FT_REGULAR);
      CreatedTree(sb, s, s1, t, path, no) == AddTree(sb, s, s1, t, Target(sb, s, path).dir, e)
  {
    hide AddedTo, Target, AddTree, PathOk, LastName, Pad;
  }

  /** `sys_open`, with the create and write flags given. Where it opens a file that is there, it never closes the directory of
      the file: `left` stays open. */
  method SysOpen(part: Partition, table: FileTable, root: Inode, path: seq<byte>, create: bool, write: bool, ghost t: Tree,
        ghost padding: set<int>)
    returns (r: OpenResult, ghost left: Handle)
    requires Sound(part, t, padding) && root in part.openInodes && root.no == 0 && table.Valid()
    requires path != [] && (path[|path| - 1] != SLASH ==> PathOk(path))
    requires create && path[|path| - 1] != SLASH && LastMissing(part.sb, View(part), path) ==>
      Fits(part.sb, View(part), Where(Target(part.sb, View(part), path)), 0)
    modifies part`disk, part.blockBitmap.bits, part.inodeBitmap.bits, part`openInodes, table
    modifies part.openInodes`openCnts, part.openInodes`size, part.openInodes`sectors, part.openInodes`writenDeny
    ensures r.TrailingSlash? <==> path[|path| - 1] == SLASH
    ensures path[|path| - 1] != SLASH ==> OpenOutcome(part.sb, old(View(part)), path, create, TableFull(old(table.fdInode)), r)
    ensures !r.Created? && !r.OpenHalted? ==> View(part) == old(View(part)) && Sound(part, t, padding)
    ensures r.Created? ==> CreatedAt(part.sb, old(View(part)), View(part), t, path, r.inode.no)
    ensures r.Created? ==> Sound(part, CreatedTree(part.sb, old(View(part)), View(part), t, path, r.inode.no), padding)
    ensures r.Created? ==> fresh(r.inode) && Cache(part) == old(Cache(part))[r.inode := 1]
    ensures r.Created? || r.OpenedFile? || r.Denied? ==> SlotTaken(old(table.fdInode), table.fdInode, r.fdIdx, r.inode)
    ensures !r.Created? && !r.OpenedFile? && !r.Denied? && !r.OpenHalted? ==> table.fdInode == old(table.fdInode)
    ensures r.OpenedFile? || r.Denied? ==>
      path[|path| - 1] != SLASH && r.inode in part.openInodes && r.inode.no as nat == Target(part.sb, old(View(part)), path).no
    ensures r.OpenedFile? || r.Denied? ==> Cache(part) == Bump(Grab(old(Cache(part)), left), r.inode)
    ensures r.OpenedFile? || r.Denied? || (r.NoSlot? && !create) ==>
      path[|path| - 1] != SLASH && left.inode.no as nat == Where(Target(part.sb, old(View(part)), path))
    ensures r.TrailingSlash? || r.IsDir? || r.PathBroken? || r.NoFile? || r.FileExists? || (r.NoSlot? && create) ==>
      Cache(part) == old(Cache(part))
    ensures r.NoSlot? && !create ==> Cache(part) == Grab(old(Cache(part)), left)
    ensures r.OpenedFile? || r.Denied? ==> left.inode in part.openInodes && (left.RootDir? ==> left.inode.no == 0)
    ensures (r.Denied? ==> write) && (r.OpenedFile? && write ==> r.inode.writenDeny)
    ensures forall i :: 0 <= i < |part.openInodes| ==> part.openInodes[i] in old(part.openInodes) || fresh(part.openInodes[i])
  {
    hide *;
    ghost var sb, s, c, full := part.sb, View(part), Cache(part), TableFull(table.fdInode);
    left := RootDir(root);
    if path[|path| - 1] == SLASH {
      return TrailingSlash, left;
    }
    CacheIs(part);
    SoundFacts(part, t, padding);
    TargetIs(sb, s, path);
    var early, inodeNo, searchedPath, dir := SearchToOpen(part, root, path, create, full, t, padding);
    left := dir;
    if early.Some? {
      return early.value, left;
    }
    CacheIs(part);
    if create {
      r := CreateFound(part, table, dir, searchedPath, path, c, t, padding);
    } else {
      r := FileOpen(part, table, inodeNo, write, t, padding);
      CacheIs(part);
      if !r.NoSlot? {
        BumpFacts(Grab(c, dir), r.inode);
      }
    }
    OutcomeIs(sb, s, path, create, full, r);
  }

  /** The first half of `sys_open`: what can be told from the search. The directory stays open if there is more to do. */
  method SearchToOpen(part: Partition, root: Inode, path: seq<byte>, create: bool, ghost full: bool, ghost t: Tree,
        ghost padding: set<int>)
    returns (early: Option<OpenResult>, inodeNo: nat, searchedPath: seq<byte>, dir: Handle)
    requires Sound(part, t, padding) && root in part.openInodes && root.no == 0 && PathOk(path) && path[|path| - 1] != SLASH
    modifies part`openInodes, part.openInodes`openCnts
    ensures Sound(part, t, padding) && View(part) == old(View(part))
    ensures early.Some? ==> OpenOutcome(part.sb, View(part), path, create, full, early.value) && Cache(part) == old(Cache(part))
    ensures early.Some? ==> early.value.IsDir? || early.value.PathBroken? || early.value.NoFile? || early.value.FileExists?
    ensures early.None? ==> Cache(part) == Grab(old(Cache(part)), dir) && dir.inode in part.openInodes
    ensures early.None? ==>
      dir.inode.no as nat == Where(Target(part.sb, View(part), path)) && (dir.RootDir? ==> dir.inode.no == 0)
    ensures early.None? && create ==> LastMissing(part.sb, View(part), path)
    ensures early.None? && create && !IsRootPath(path) ==>
      SearchedUpTo(searchedPath, Components(path), WalkDepth(part.sb, View(part), 0, Components(path)))
    ensures early.None? && !create ==> !Behind(part.sb, View(part), path) && inodeNo in t.kind
    ensures early.None? && !create ==>
      var w := Target(part.sb, View(part), path); w.Found? && w.kind == FT_REGULAR && w.no == inodeNo
    ensures forall i :: 0 <= i < |part.openInodes| ==> part.openInodes[i] in old(part.openInodes) || fresh(part.openInodes[i])
  {
    hide *;
    ghost var sb, s, c := part.sb, View(part), Cache(part);
    inodeNo := 0;
    CacheIs(part);
    SoundFacts(part, t, padding);
    TargetIs(sb, s, path);
    SomeComponent(path);
    var pathNameDepth := PathDepthCnt(path);
    var found;
    found, searchedPath, dir := SearchFile(part, root, path, t, padding);
    HitFacts(Target(sb, s, path));
    SoundFacts(part, t, padding);
    CloseBack(c, dir);
    Kinds();
    if found.Some? && found.value.1 == FT_DIRECTORY {
      OutcomeIs(sb, s, path, create, full, IsDir);
      DirClose(part, dir, t, padding, 0);
      return Some(IsDir), inodeNo, searchedPath, dir;
    }
    FoundKind(sb, s, t, padding, path);
    DepthTells(sb, s, t, padding, path, searchedPath);
    var pathSearchedDepth := PathDepthCnt(searchedPath);
    if pathNameDepth != pathSearchedDepth {
      early := Some(PathBroken);
    } else if found.None? && !create {
      early := Some(NoFile);
    } else if found.Some? && create {
      early := Some(FileExists);
    } else {
      early := None;
      inodeNo := if found.Some? then found.value.0 else 0;
    }
    if early.Some? {
      OutcomeIs(sb, s, path, create, full, early.value);
      DirClose(part, dir, t, padding, 0);
    }
  }

  lemma OutcomeIs(sb: SuperBlock, s: Fs, path: seq<byte>, create: bool, full: bool, r: OpenResult)
    requires PathOk(path)
    requires
      var w := Target(sb, s, path);
      var missing, there := LastMissing(sb, s, path), w.Found? && w.kind == FT_REGULAR && !Behind(sb, s, path);
      match r
      case TrailingSlash => false
      case IsDir => w.Found? && w.kind == FT_DIRECTORY
      case PathBroken => !(w.Found? && w.kind == FT_DIRECTORY) && !missing && !there
      case NoFile => missing && !create
      case FileExists => there && create
      case NoSlot => ((missing && create && FreeBits(s.ibits) != {}) || (there && !create)) && full
      case OpenHalted => missing && create && !Room(sb, s, Where(w), 0) && (full ==> FreeBits(s.ibits) == {})
      case Created(_, _) => missing && create && !full && Room(sb, s, Where(w), 0)
      case OpenedFile(_, _) => there && !create && !full
      case Denied(_, _) => there && !create && !full
    ensures OpenOutcome(sb, s, path, create, full, r)
  {
    hide Target, Behind, FreeBits, BlocksFor, UsableBlocks;
  }

  lemma FoundKind(sb: SuperBlock, s: Fs, t: Tree, padding: set<int>, path: seq<byte>)
    requires FsOk(sb, s, t, padding) && PathOk(path)
    requires Target(sb, s, path).Found? ==> Target(sb, s, path).kind != FT_DIRECTORY
    ensures var w := Target(sb, s, path); w.Found? ==> w.no != 0 && w.kind == FT_REGULAR && w.no in t.kind && w.no < 4096
  {
    hide *;
    var w := Target(sb, s, path);
    PathFacts(path);
    TargetIs(sb, s, path);
    NotRootPath(sb, s, t, padding, path);
    RootIsDirectory(sb, s, t, padding);
    if w.Found? {
      FoundParent(sb, s, t, padding, Components(path));
      FoundSearch(sb, s, t, padding, path);
    }
  }

  /** The end of `sys_open` that creates. */
  method CreateFound(part: Partition, table: FileTable, dir: Handle, searchedPath: seq<byte>, ghost path: seq<byte>,
        ghost c: map<Inode, nat>,
      ghost t: Tree, ghost padding: set<int>) returns (r: OpenResult)
    requires Sound(part, t, padding) && PathOk(path) && LastMissing(part.sb, View(part), path) && table.Valid()
    requires Cache(part) == Grab(c, dir) && dir.inode in part.openInodes && forall o :: o in c ==> c[o] > 0
    requires dir.inode.no as nat == Where(Target(part.sb, View(part), path))
    requires !IsRootPath(path) ==>
      SearchedUpTo(searchedPath, Components(path), WalkDepth(part.sb, View(part), 0, Components(path)))
    requires Fits(part.sb, View(part), dir.inode.no, 0)
    modifies part`disk, part.blockBitmap.bits, part.inodeBitmap.bits, part`openInodes, table
    modifies part.openInodes`openCnts, part.openInodes`size, part.openInodes`sectors
    ensures r.NoSlot? || r.OpenHalted? || r.Created?
    ensures r.Created? ==> SlotTaken(old(table.fdInode), table.fdInode, r.fdIdx, r.inode)
    ensures r.NoSlot? <==> FreeBits(old(View(part)).ibits) != {} && TableFull(old(table.fdInode))
    ensures r.Created? <==> Room(part.sb, old(View(part)), dir.inode.no, 0) && !TableFull(old(table.fdInode))
    ensures r.OpenHalted? ==> !Room(part.sb, old(View(part)), dir.inode.no, 0)
    ensures r.NoSlot? ==>
      View(part) == old(View(part)) && Sound(part, t, padding) && Cache(part) == c && table.fdInode == old(table.fdInode)
    ensures r.Created? ==> CreatedAt(part.sb, old(View(part)), View(part), t, path, r.inode.no)
    ensures r.Created? ==> Sound(part, CreatedTree(part.sb, old(View(part)), View(part), t, path, r.inode.no), padding)
    ensures r.Created? ==> fresh(r.inode) && Cache(part) == c[r.inode := 1]
    ensures forall i :: 0 <= i < |part.openInodes| ==> part.openInodes[i] in old(part.openInodes) || fresh(part.openInodes[i])
  {
    hide *;
    ghost var sb, s := part.sb, View(part);
    CacheIs(part);
    CloseBack(c, dir);
    SoundFacts(part, t, padding);
    TargetIs(sb, s, path);
    HitFacts(Target(sb, s, path));
    MissingSearch(sb, s, t, padding, path, searchedPath);
    var name := searchedPath[LastSlash(searchedPath) + 1..];
    ViewIs(part);
    var created := FileCreate(part, table, dir.inode, name, t, padding);
    if created.CreateHalted? {
      return OpenHalted;
    }
    CacheIs(part);
    if created.NoFreeSlot? {
      SoundFacts(part, t, padding);
      DirClose(part, dir, t, padding, 0);
      return NoSlot;
    }
    var fdIdx, inode := created.fdIdx, created.inode;
    ghost var t1 := AddTree(sb, s, View(part), t, dir.inode.no, Entry(Pad(name), inode.no, FT_REGULAR));
    SoundFacts(part, t1, padding);
    NowFound(sb, s, t, padding, path, inode.no, FT_REGULAR, View(part));
    NewThenClosed(part, c, dir, inode);
    DirInode(sb, s, t, padding, dir.inode.no);
    CreatedIs(sb, s, View(part), t, path, inode.no);
    DirClose(part, dir, t1, padding, 0);
    return Created(fdIdx, inode);
  }

  lemma NewThenClosed(part: Partition, c: map<Inode, nat>, dir: Handle, inode: Inode)
    requires inode !in Grab(c, dir) && inode.openCnts == 1 && forall o :: o in c ==> c[o] > 0
    requires forall o :: o in part.openInodes <==> o in Grab(c, dir) || o == inode
    requires forall o :: o in Grab(c, dir) ==> o.openCnts == Grab(c, dir)[o]
    ensures (if dir.Opened? then Drop(Cache(part), dir.inode) else Cache(part)) == c[inode := 1]
  {
  }

  /** `file_close` of a slot of the file table. */
  method FileClose(part: Partition, table: FileTable, fdIdx: nat, ghost t: Tree, ghost padding: set<int>)
    requires Sound(part, t, padding) && fdIdx < |table.fdInode| && table.fdInode[fdIdx].Some?
    requires table.fdInode[fdIdx].value in part.openInodes
    modifies table, part`openInodes, part.openInodes`openCnts, part.openInodes`writenDeny
    ensures Sound(part, t, padding) && View(part) == old(View(part))
    ensures table.fdInode == old(table.fdInode)[fdIdx := None]
    ensures Cache(part) == Drop(old(Cache(part)), old(table.fdInode)[fdIdx].value)
    ensures forall i :: 0 <= i < |part.openInodes| ==> part.openInodes[i] in old(part.openInodes)
  {
    hide *;
    var inode := table.fdInode[fdIdx].value;
    SoundFacts(part, t, padding);
    ViewIs(part);
    inode.writenDeny := false;
    ViewIs(part);
    SoundIntro(part, t, padding);
    DirClose(part, Opened(inode), t, padding, 0);
    table.fdInode := table.fdInode[fdIdx := None];
  }

  /** `sys_chdir`: the new current directory, if there is one. What the search left open is never closed. */
  method SysChdir(part: Partition, root: Inode, path: seq<byte>, ghost t: Tree, ghost padding: set<int>)
    returns (r: Option<nat>, ghost left: Handle)
    requires Sound(part, t, padding) && root in part.openInodes && root.no == 0 && PathOk(path)
    modifies part`openInodes, part.openInodes`openCnts
    ensures Sound(part, t, padding) && View(part) == old(View(part))
    ensures var w := Target(part.sb, View(part), path);
      && r == (if w.Found? && w.kind == FT_DIRECTORY then Some(w.no) else None)
      && left.inode.no as nat == Where(w) && Cache(part) == Grab(old(Cache(part)), left)
    ensures forall i :: 0 <= i < |part.openInodes| ==> part.openInodes[i] in old(part.openInodes) || fresh(part.openInodes[i])
  {
    hide *;
    TargetIs(part.sb, View(part), path);
    var inodeNo, searchedPath, dir := SearchFile(part, root, path, t, padding);
    HitFacts(Target(part.sb, View(part), path));
    left := dir;
    r := None;
    if inodeNo.Some? && inodeNo.value.1 == FT_DIRECTORY {
      r := Some(inodeNo.value.0);
    }
  }

  // ----- a run that fails -----

  lemma FewerEntries(sb: SuperBlock, s: Fs, s1: Fs, t: Tree, d: nat, no: u32)
    requires RemovedFrom(sb, s, s1, t, d, no)
    ensures |Entries(s.disk, At(sb, s, d))| == |Entries(s1.disk, At(sb, s1, d))| + 1
  {
    hide At, Entries, FreeBlocks, DirOwned, Mirrors, RemoveBlocks, Reach, Directory, IsChild, Confined, BitUpdated, OtherInodes;
  }

  lemma DirStays(sb: SuperBlock, s: Fs, t: Tree, padding: set<int>, path: seq<byte>, s1: Fs)
    requires FsOk(sb, s, t, padding) && PathOk(path) && BindingsKept(sb, s, s1, t, false)
    requires Target(sb, s, path).Found? && Target(sb, s, path).kind == FT_DIRECTORY
    ensures Target(sb, s1, path) == Target(sb, s, path)
  {
    hide *;
    PathFacts(path);
    TargetIs(sb, s, path);
    TargetIs(sb, s1, path);
    RootIsDirectory(sb, s, t, padding);
    WalkKept(sb, s, s1, t, padding, 0, 0, 0, Components(path));
  }

  lemma NotCachedGrab(l: seq<Inode>, c: map<Inode, nat>, h: Handle, no: nat)
    requires (forall o :: o in l <==> o in Grab(c, h)) && (forall o :: o in c ==> o.no as nat != no) && h.inode.no as nat != no
    ensures !Cached(l, no)
  {
  }

  lemma CachedIs(l: seq<Inode>, no: nat)
    ensures Cached(l, no) <==> exists o :: o in l && o.no as nat == no
  {
  }

  /** Opening a file that is there and closing it leaves its directory open. */
  method OpenAndClose(part: Partition, table: FileTable, root: Inode, path: seq<byte>, ghost t: Tree, ghost padding: set<int>)
    returns (ghost left: Handle)
    requires Sound(part, t, padding) && root in part.openInodes && root.no == 0 && table.Valid() && !TableFull(table.fdInode)
    requires PathOk(path) && path[|path| - 1] != SLASH && !Behind(part.sb, View(part), path)
    requires Target(part.sb, View(part), path).Found? && Target(part.sb, View(part), path).kind == FT_REGULAR
    modifies part`disk, part.blockBitmap.bits, part.inodeBitmap.bits, part`openInodes, table
    modifies part.openInodes`openCnts, part.openInodes`size, part.openInodes`sectors, part.openInodes`writenDeny
    ensures Sound(part, t, padding) && View(part) == old(View(part)) && table.fdInode == old(table.fdInode)
    ensures left.inode.no as nat == Where(Target(part.sb, View(part), path)) && (left.RootDir? ==> left.inode.no == 0)
    ensures Cache(part) == Grab(old(Cache(part)), left)
    ensures forall i :: 0 <= i < |part.openInodes| ==> part.openInodes[i] in old(part.openInodes) || fresh(part.openInodes[i])
  {
    hide *;
    ghost var sb, s, c := part.sb, View(part), Cache(part);
    ghost var slots := table.fdInode;
    CacheIs(part);
    SoundFacts(part, t, padding);
    PathFacts(path);
    Kinds();
    var file;
    file, left := SysOpen(part, table, root, path, false, false, t, padding);
    OpenedThen(sb, s, path, TableFull(slots), file);
    SlotFacts(slots, table.fdInode, file.fdIdx, file.inode);
    CacheIs(part);
    SoundFacts(part, t, padding);
    BumpFacts(Grab(c, left), file.inode);
    FileClose(part, table, file.fdIdx, t, padding);
    CacheIs(part);
    GrabPositive(c, left);
    DropBump(Grab(c, left), file.inode);
  }

  /** Opening a file that is there and closing it leaves its directory open for good. Once the file is unlinked and its directory
      removed, cache and disk disagree. */
  method LeakedParent(part: Partition, table: FileTable, root: Inode, filePath: seq<byte>, dirPath: seq<byte>, ghost t: Tree,
        ghost padding: set<int>)
    returns (r: SysRmdirResult)
    requires Sound(part, t, padding) && root in part.openInodes && root.no == 0 && table.Valid() && !TableFull(table.fdInode)
    requires PathOk(filePath) && filePath[|filePath| - 1] != SLASH && PathOk(dirPath) && !Behind(part.sb, View(part), filePath)
    requires Target(part.sb, View(part), filePath).Found? && Target(part.sb, View(part), filePath).kind == FT_REGULAR
    requires Target(part.sb, View(part), dirPath).Found? && Target(part.sb, View(part), dirPath).kind == FT_DIRECTORY
    requires Target(part.sb, View(part), dirPath).no == Where(Target(part.sb, View(part), filePath)) != 0
    requires |Entries(part.disk, At(part.sb, View(part), Where(Target(part.sb, View(part), filePath))))| == 3
    requires !Cached(part.openInodes, Target(part.sb, View(part), filePath).no)
    requires forall k :: 0 <= k < |table.fdInode| && table.fdInode[k].Some? ==>
      table.fdInode[k].value.no as nat != Target(part.sb, View(part), filePath).no
    modifies part`disk, part.blockBitmap.bits, part.inodeBitmap.bits, part`openInodes, table
    modifies part.openInodes`openCnts, part.openInodes`size, part.openInodes`sectors, part.openInodes`writenDeny
    ensures r.Rmdone? && Unsound(part)
  {
    hide *;
    ghost var sb, s, c, w := part.sb, View(part), Cache(part), Target(part.sb, View(part), filePath);
    CacheIs(part);
    ViewIs(part);
    SoundFacts(part, t, padding);
    CachedIs(part.openInodes, w.no);
    HitFacts(w);
    Kinds();
    FoundKind(sb, s, t, padding, filePath);
    FoundSearch(sb, s, t, padding, filePath);
    ghost var left := OpenAndClose(part, table, root, filePath, t, padding);
    CacheIs(part);
    GrabFacts(c, left);
    BumpFacts(c, left.inode);
    NotCachedGrab(part.openInodes, c, left, w.no);
    var unlinked := SysUnlink(part, table, root, filePath, t, padding);
    CacheIs(part);
    ghost var s1, t1 := View(part), RemoveTree(sb, s, View(part), t, w.parent, w.no);
    FewerEntries(sb, s, s1, t, w.parent, w.no);
    DirStays(sb, s, t, padding, dirPath, s1);
    CachedIs(part.openInodes, w.parent);
    assert forall i :: 0 <= i < |part.openInodes| ==> part.openInodes[i] in old(part.openInodes) || fresh(part.openInodes[i]);
    r := SysRmdir(part, root, dirPath, t1, padding);
  }

  lemma OpenedThen(sb: SuperBlock, s: Fs, path: seq<byte>, full: bool, r: OpenResult)
    requires PathOk(path) && OpenOutcome(sb, s, path, false, full, r) && !full && (r.Denied? ==> false) && !r.TrailingSlash?
    requires Target(sb, s, path).Found? && Target(sb, s, path).kind == FT_REGULAR && !Behind(sb, s, path)
    ensures r.OpenedFile?
  {
    hide Target, Behind;
  }

  lemma SlotFacts(l: seq<Option<Inode>>, m: seq<Option<Inode>>, fdIdx: int, inode: Inode)
    requires SlotTaken(l, m, fdIdx, inode)
    ensures 3 <= fdIdx < |m| && m[fdIdx] == Some(inode) && m[fdIdx := None] == l
  {
  }
}
