/** What files hold and what directories bind, over runs: the file system refines maps from inode numbers to byte sequences
    and to bindings. */
module Histories {
  import opened Bytes
  import opened Bitmaps
  import opened Disks
  import opened InodeTables
  import opened Partitions
  import opened Files
  import opened DirEntries
  import opened Dirs
  import opened FileSystems

  type Bound = map<Name, (u32, u32)>

  /** The bytes of every file and the bindings, from names to number and type, of every directory. */
  datatype Model = Model(files: map<nat, seq<byte>>, dirs: map<nat, Bound>)

  /** The bindings without the child of that number. */
  function Unbound(b: Bound, no: u32): Bound {
    map n | n in b && (b[n].0 != no || n == DOT || n == DOT_DOT) :: b[n]
  }

  function Bind(b: Bound, e: Entry): Bound {
    b[e.name := (e.no, e.kind)]
  }

  /** What an action means: append to one file, add one binding and an empty file or directory, or take one of each away. */
  function Apply(m: Model, a: FsAction): Model {
    match a
    case Write(no, buf) =>
      if no in m.files then m.(files := m.files[no := m.files[no] + buf]) else m
    case Add(d, e) =>
      if d !in m.dirs || d >= 4096 then m
      else if e.kind == FT_DIRECTORY then
        var dots := map[DOT := (e.no, FT_DIRECTORY), DOT_DOT := (d as u32, FT_DIRECTORY)];
        m.(dirs := m.dirs[d := Bind(m.dirs[d], e)][e.no as nat := dots])
      else
        Model(m.files[e.no as nat := []], m.dirs[d := Bind(m.dirs[d], e)])
    case Remove(d, no) =>
      if d !in m.dirs then m else Model(m.files - {no as nat}, m.dirs[d := Unbound(m.dirs[d], no)] - {no as nat})
  }

  function ApplyAll(m: Model, acts: seq<FsAction>): Model {
    if acts == [] then m else Apply(ApplyAll(m, acts[..|acts| - 1]), acts[|acts| - 1])
  }

  ghost function FileOf(sb: SuperBlock, s: Fs, i: nat): seq<byte> {
    if RegularFile(s.disk, sb, s.bits, At(sb, s, i)) then Contents(s.disk, sb, s.bits, At(sb, s, i)) else []
  }

  ghost function NamesOf(sb: SuperBlock, s: Fs, i: nat): Bound {
    Bindings(Entries(s.disk, At(sb, s, i)))
  }

  ghost function ModelOf(sb: SuperBlock, s: Fs, t: Tree): Model {
    Model(map i | i in t.kind && t.kind[i] == FT_REGULAR :: FileOf(sb, s, i),
      map i | i in t.kind && t.kind[i] == FT_DIRECTORY :: NamesOf(sb, s, i))
  }

  // ----- what an action does not concern -----

  /** The first data block is taken in every well-formed file system. */
  lemma StartTaken(sb: SuperBlock, s: Fs, t: Tree, padding: set<int>)
    requires FsOk(sb, s, t, padding)
    ensures sb.dataStartLba as int !in FreeBlocks(sb, s.bits)
  {
    hide *;
    RootIsDirectory(sb, s, t, padding);
    InodeParts(sb, s, t, padding, 0);
    NodeIs(sb, s, t, 0);
    DirectoryStart(s.disk, sb, s.bits, At(sb, s, 0), t.parent[0]);
  }

  lemma NodeIs(sb: SuperBlock, s: Fs, t: Tree, i: nat)
    requires NodeOk(sb, s, t, i)
    ensures t.kind[i] == FT_DIRECTORY || t.kind[i] == FT_REGULAR
    ensures t.kind[i] == FT_DIRECTORY ==> Directory(s.disk, sb, s.bits, At(sb, s, i), t.parent[i])
    ensures t.kind[i] == FT_REGULAR ==> RegularFile(s.disk, sb, s.bits, At(sb, s, i))
    ensures At(sb, s, i).no == i && i < 4096
  {
    hide At, Directory, RegularFile;
  }

  /** A file that is not written keeps its contents, a directory that is not edited its entries. */
  lemma NodeKept(sb: SuperBlock, s: Fs, t: Tree, a: FsAction, s1: Fs, t1: Tree, padding: set<int>, i: nat)
    requires FsOk(sb, s, t, padding) && FsStep(sb, s, t, a, s1, t1) && i in t.kind && i !in Changed(a)
    ensures t.kind[i] == FT_REGULAR ==> FileOf(sb, s1, i) == FileOf(sb, s, i)
    ensures t.kind[i] == FT_DIRECTORY ==> Entries(s1.disk, At(sb, s1, i)) == Entries(s.disk, At(sb, s, i))
    ensures t.kind[i] == FT_DIRECTORY ==> NamesOf(sb, s1, i) == NamesOf(sb, s, i)
  {
    hide *;
    StepTouches(sb, s, t, a, s1, t1, padding);
    FsStepOk(sb, s, t, a, s1, t1, padding);
    StartTaken(sb, s1, t1, padding);
    InodeParts(sb, s, t, padding, i);
    TouchesNot(sb, s, s1, t, Changed(a), i);
    NodeIs(sb, s, t, i);
    SameNode(sb, s, s1, t, i);
  }

  lemma SameNode(sb: SuperBlock, s: Fs, s1: Fs, t: Tree, i: nat)
    requires SameInode(sb, s, s1, i) && sb.dataStartLba as int !in FreeBlocks(sb, s1.bits) && i in t.kind && i in t.parent
    requires t.kind[i] == FT_DIRECTORY ==> Directory(s.disk, sb, s.bits, At(sb, s, i), t.parent[i])
    requires t.kind[i] == FT_REGULAR ==> RegularFile(s.disk, sb, s.bits, At(sb, s, i))
    ensures t.kind[i] == FT_REGULAR ==> FileOf(sb, s1, i) == FileOf(sb, s, i)
    ensures t.kind[i] == FT_DIRECTORY ==> Entries(s1.disk, At(sb, s1, i)) == Entries(s.disk, At(sb, s, i))
    ensures t.kind[i] == FT_DIRECTORY ==> NamesOf(sb, s1, i) == NamesOf(sb, s, i)
  {
    hide FreeBlocks, Reach, At, Entries, Directory, RegularFile, Contents, Bindings;
    if t.kind[i] == FT_DIRECTORY {
      SameDirectory(sb, s.disk, s.bits, s1.disk, s1.bits, At(sb, s, i), t.parent[i]);
    } else if t.kind[i] == FT_REGULAR {
      SameRegular(sb, s.disk, s.bits, s1.disk, s1.bits, At(sb, s, i));
    }
  }

  // ----- what it does -----

  lemma Written(sb: SuperBlock, s: Fs, s1: Fs, no: nat, buf: seq<byte>)
    requires WriteStep(sb, s, s1, no, buf)
    ensures FileOf(sb, s1, no) == FileOf(sb, s, no) + buf
  {
    hide RegularFile, Contents, At, FreeBlocks, FileBlocks, Mirrors, InodeWindow, EncodeInode;
  }

  lemma Added(sb: SuperBlock, s: Fs, s1: Fs, d: nat, parent: u32, e: Entry)
    requires AddStep(sb, s, s1, d, parent, e)
    ensures d < 4096 && NamesOf(sb, s1, d) == Bind(NamesOf(sb, s, d), e) && e.name !in NamesOf(sb, s, d)
    ensures e.kind == FT_REGULAR ==> FileOf(sb, s1, e.no) == []
    ensures e.kind == FT_DIRECTORY ==>
      NamesOf(sb, s1, e.no) == map[DOT := (e.no, FT_DIRECTORY), DOT_DOT := (d as u32, FT_DIRECTORY)]
  {
    hide RegularFile, Contents, At, FreeBlocks, Mirrors, OtherInodes, AddUsed, AddBlocks, Directory, Entries, IsChild,
      Confined, Bindings, DirOwned,
      Reach, Insert, GoodEntries;
    DirectoryParts(s1.disk, sb, s1.bits, At(sb, s1, d), parent);
    var k: nat :|
      k <= |Entries(s.disk, At(sb, s, d))| && Entries(s1.disk, At(sb, s1, d)) == Insert(Entries(s.disk, At(sb, s, d)), k, e);
    BindingsInsert(Entries(s.disk, At(sb, s, d)), k, e);
    DotBindings(e.no, d);
  }

  lemma DotBindings(no: u32, parent: u32)
    ensures Bindings([Entry(DOT, no, FT_DIRECTORY), Entry(DOT_DOT, parent, FT_DIRECTORY)]) ==
      map[DOT := (no, FT_DIRECTORY), DOT_DOT := (parent, FT_DIRECTORY)]
  {
    var l := [Entry(DOT, no, FT_DIRECTORY), Entry(DOT_DOT, parent, FT_DIRECTORY)];
    assert l[..1] == [l[0]];
    assert l[..1][..0] == [];
    BindingsOne([], l[0]);
    BindingsOne([l[0]], l[1]);
  }

  lemma Taken(sb: SuperBlock, s: Fs, s1: Fs, d: nat, parent: u32, no: u32)
    requires Directory(s.disk, sb, s.bits, At(sb, s, d), parent) && RemoveStep(sb, s, s1, d, parent, no)
    ensures NamesOf(sb, s1, d) == Unbound(NamesOf(sb, s, d), no)
  {
    hide At, FreeBlocks, Mirrors, OtherInodes, RemoveBlocks, Directory, Entries, Confined, Bindings, DirOwned, Reach,
      BitUpdated, GoodEntries;
    DirectoryParts(s.disk, sb, s.bits, At(sb, s, d), parent);
    ChildUnbound(Entries(s.disk, At(sb, s, d)), Entries(s1.disk, At(sb, s1, d)), no);
  }

  /** Without the child the list binds all other names as before. */
  lemma ChildUnbound(l: seq<Entry>, m: seq<Entry>, no: u32)
    requires GoodEntries(l) && ChildGone(l, m, no)
    ensures Bindings(m) == Unbound(Bindings(l), no)
  {
    hide GoodEntries, Bindings, Insert, IsChild;
    var k: nat, e :| k <= |m| && IsChild(e) && e.no == no && l == Insert(m, k, e);
    BindingsInsert(m, k, e);
    RestApart(m, k, e);
    GoodRemove(m, k, e);
    BindingsOf(m);
    ChildName(e);
    forall n | n in Bindings(m)
      ensures Bindings(m)[n].0 != no || n == DOT || n == DOT_DOT
    {
      var j :| 0 <= j < |m| && m[j].name == n;
      DotOrChild(m[j]);
    }
  }

  lemma RestApart(m: seq<Entry>, k: nat, e: Entry)
    requires k <= |m| && GoodEntries(Insert(m, k, e)) && IsChild(e)
    ensures forall a :: 0 <= a < |m| && IsChild(m[a]) ==> m[a].no != e.no
    ensures forall a :: 0 <= a < |m| ==> Named(m[a])
  {
    hide Named, IsChild;
    var l := Insert(m, k, e);
    forall a | 0 <= a < |m|
      ensures Named(m[a]) && (IsChild(m[a]) ==> m[a].no != e.no)
    {
      assert l[if a < k then a else a + 1] == m[a];
      assert if a < k then Compatible(l[a], l[k]) else Compatible(l[k], l[a + 1]);
    }
  }

  lemma ChildName(e: Entry)
    requires IsChild(e)
    ensures e.name != DOT && e.name != DOT_DOT
  {
  }

  lemma DotOrChild(e: Entry)
    requires Named(e)
    ensures IsChild(e) || e.name == DOT || e.name == DOT_DOT
  {
    StrEqProper(e.name, [0x2e]);
    StrEqProper(e.name, [0x2e, 0x2e]);
  }

  // ----- refinement -----

  /** The keys of the model: inodes in use by type. */
  lemma ModelKeys(sb: SuperBlock, s: Fs, t: Tree)
    ensures forall i :: i in ModelOf(sb, s, t).files <==> i in t.kind && t.kind[i] == FT_REGULAR
    ensures forall i :: i in ModelOf(sb, s, t).dirs <==> i in t.kind && t.kind[i] == FT_DIRECTORY
    ensures forall i :: i in ModelOf(sb, s, t).files ==> ModelOf(sb, s, t).files[i] == FileOf(sb, s, i)
    ensures forall i :: i in ModelOf(sb, s, t).dirs ==> ModelOf(sb, s, t).dirs[i] == NamesOf(sb, s, i)
  {
    hide FileOf, NamesOf;
  }

  lemma ModelEquals(m: Model, n: Model)
    requires m.files.Keys == n.files.Keys && m.dirs.Keys == n.dirs.Keys
    requires forall i :: i in m.files ==> m.files[i] == n.files[i]
    requires forall i :: i in m.dirs ==> m.dirs[i] == n.dirs[i]
    ensures m == n
  {
    assert m.files == n.files && m.dirs == n.dirs;
  }

  /** Files and directories that the action does not concern. */
  ghost predicate Kept(sb: SuperBlock, s: Fs, s1: Fs, t: Tree, a: FsAction) {
    && (forall i :: i in t.kind && i !in Changed(a) && t.kind[i] == FT_REGULAR ==> FileOf(sb, s1, i) == FileOf(sb, s, i))
    && (forall i :: i in t.kind && i !in Changed(a) && t.kind[i] == FT_DIRECTORY ==> NamesOf(sb, s1, i) == NamesOf(sb, s, i))
  }

  lemma StepKept(sb: SuperBlock, s: Fs, t: Tree, a: FsAction, s1: Fs, t1: Tree, padding: set<int>)
    requires FsOk(sb, s, t, padding) && FsStep(sb, s, t, a, s1, t1)
    ensures Kept(sb, s, s1, t, a)
  {
    hide FsOk, FsStep, FileOf, NamesOf, Entries, At, Changed;
    forall i | i in t.kind && i !in Changed(a)
      ensures t.kind[i] == FT_REGULAR ==> FileOf(sb, s1, i) == FileOf(sb, s, i)
      ensures t.kind[i] == FT_DIRECTORY ==> NamesOf(sb, s1, i) == NamesOf(sb, s, i)
    {
      NodeKept(sb, s, t, a, s1, t1, padding, i);
    }
  }

  /** A successful operation on the disk is its action on the maps. */
  lemma Refines(sb: SuperBlock, s: Fs, t: Tree, a: FsAction, s1: Fs, t1: Tree, padding: set<int>)
    requires FsOk(sb, s, t, padding) && FsStep(sb, s, t, a, s1, t1)
    ensures ModelOf(sb, s1, t1) == Apply(ModelOf(sb, s, t), a)
  {
    hide FsOk, At, Entries, WriteStep, AddStep, RemoveStep, Kept, ModelOf, DirOwned, Reach, Apply, WriteTree, AddTree,
      RemoveTree, NodeOk,
      OwnsOk, ListedOk, EntriesOk, Directory;
    StepKept(sb, s, t, a, s1, t1, padding);
    FsInodes(sb, s, t, padding);
    match a
    case Write(no, buf) => RefinesWrite(sb, s, t, no, buf, s1);
    case Add(d, e) => RefinesAdd(sb, s, t, d, e, s1);
    case Remove(d, no) =>
      ParentKept(sb, s, t, padding, no);
      ParentDepth(sb, s, t, padding, no);
      InodeParts(sb, s, t, padding, d);
      NodeIs(sb, s, t, d);
      RefinesRemove(sb, s, t, d, no, s1);
  }

  lemma RefinesWrite(sb: SuperBlock, s: Fs, t: Tree, no: nat, buf: seq<byte>, s1: Fs)
    requires no in t.kind && t.kind[no] == FT_REGULAR && WriteStep(sb, s, s1, no, buf) && Kept(sb, s, s1, t, Write(no, buf))
    ensures ModelOf(sb, s1, WriteTree(sb, s, s1, t, no)) == Apply(ModelOf(sb, s, t), Write(no, buf))
  {
    hide At, Entries, WriteStep, FileOf, NamesOf, ModelOf, WriteTree;
    var t1 := WriteTree(sb, s, s1, t, no);
    ModelKeys(sb, s, t);
    ModelKeys(sb, s1, t1);
    Written(sb, s, s1, no, buf);
    WriteTreeKinds(sb, s, s1, t, no);
    ModelEquals(ModelOf(sb, s1, t1), Apply(ModelOf(sb, s, t), Write(no, buf)));
  }

  lemma RefinesAdd(sb: SuperBlock, s: Fs, t: Tree, d: nat, e: Entry, s1: Fs)
    requires InodesUsed(s, t) && d in t.kind && t.kind[d] == FT_DIRECTORY && d in t.parent && d in t.depth && d < 4096
    requires AddStep(sb, s, s1, d, t.parent[d], e) && Kept(sb, s, s1, t, Add(d, e))
    ensures ModelOf(sb, s1, AddTree(sb, s, s1, t, d, e)) == Apply(ModelOf(sb, s, t), Add(d, e))
  {
    hide *;
    var t1 := AddTree(sb, s, s1, t, d, e);
    AddedNumber(sb, s, s1, t, d, e);
    Added(sb, s, s1, d, t.parent[d], e);
    AddTreeKinds(sb, s, s1, t, d, e);
    AddedModel(sb, s, s1, t, t1, d, e);
  }

  /** The maps after a creation, from what became of the directory, of the new inode and of the others. */
  lemma AddedModel(sb: SuperBlock, s: Fs, s1: Fs, t: Tree, t1: Tree, d: nat, e: Entry)
    requires d in t.kind && t.kind[d] == FT_DIRECTORY && d < 4096 && Kept(sb, s, s1, t, Add(d, e))
    requires e.no as nat !in t.kind && (e.kind == FT_DIRECTORY || e.kind == FT_REGULAR)
    requires t1.kind == t.kind[e.no as nat := e.kind]
    requires NamesOf(sb, s1, d) == Bind(NamesOf(sb, s, d), e)
    requires e.kind == FT_REGULAR ==> FileOf(sb, s1, e.no) == []
    requires e.kind == FT_DIRECTORY ==>
      NamesOf(sb, s1, e.no) == map[DOT := (e.no, FT_DIRECTORY), DOT_DOT := (d as u32, FT_DIRECTORY)]
    ensures ModelOf(sb, s1, t1) == Apply(ModelOf(sb, s, t), Add(d, e))
  {
    hide FileOf, NamesOf, ModelOf, Bind, Apply;
    ModelKeys(sb, s, t);
    ModelKeys(sb, s1, t1);
    if e.kind == FT_DIRECTORY {
      DirectoryAdded(ModelOf(sb, s, t), ModelOf(sb, s1, t1), d, e);
    } else {
      FileAdded(ModelOf(sb, s, t), ModelOf(sb, s1, t1), d, e);
    }
  }

  lemma DirectoryAdded(m: Model, n: Model, d: nat, e: Entry)
    requires d in m.dirs && d < 4096 && e.no as nat !in m.dirs && e.no as nat !in m.files && e.kind == FT_DIRECTORY
    requires forall i :: i in n.files <==> i in m.files
    requires forall i :: i in n.dirs <==> i in m.dirs || i == e.no as nat
    requires forall i :: i in m.files ==> n.files[i] == m.files[i]
    requires forall i :: i in m.dirs && i != d ==> n.dirs[i] == m.dirs[i]
    requires n.dirs[d] == Bind(m.dirs[d], e)
    requires n.dirs[e.no as nat] == map[DOT := (e.no, FT_DIRECTORY), DOT_DOT := (d as u32, FT_DIRECTORY)]
    ensures n == Apply(m, Add(d, e))
  {
    hide Bind;
    ModelEquals(n, Apply(m, Add(d, e)));
  }

  lemma FileAdded(m: Model, n: Model, d: nat, e: Entry)
    requires d in m.dirs && d < 4096 && e.no as nat !in m.dirs && e.no as nat !in m.files && e.kind != FT_DIRECTORY
    requires forall i :: i in n.files <==> i in m.files || i == e.no as nat
    requires forall i :: i in n.dirs <==> i in m.dirs
    requires forall i :: i in m.files ==> n.files[i] == m.files[i]
    requires forall i :: i in m.dirs && i != d ==> n.dirs[i] == m.dirs[i]
    requires n.dirs[d] == Bind(m.dirs[d], e)
    requires n.files[e.no as nat] == []
    ensures n == Apply(m, Add(d, e))
  {
    hide Bind;
    ModelEquals(n, Apply(m, Add(d, e)));
  }

  lemma AddTreeKinds(sb: SuperBlock, s: Fs, s1: Fs, t: Tree, d: nat, e: Entry)
    requires d in t.depth && d < 4096
    ensures AddTree(sb, s, s1, t, d, e).kind == t.kind[e.no as nat := e.kind]
  {
    hide At, Reach, DirOwned;
  }

  lemma RefinesRemove(sb: SuperBlock, s: Fs, t: Tree, d: nat, no: u32, s1: Fs)
    requires d in t.kind && t.kind[d] == FT_DIRECTORY && d in t.parent && d != no as nat
    requires Directory(s.disk, sb, s.bits, At(sb, s, d), t.parent[d])
    requires RemoveStep(sb, s, s1, d, t.parent[d], no) && Kept(sb, s, s1, t, Remove(d, no))
    ensures ModelOf(sb, s1, RemoveTree(sb, s, s1, t, d, no)) == Apply(ModelOf(sb, s, t), Remove(d, no))
  {
    hide At, Entries, RemoveStep, FileOf, NamesOf, ModelOf, RemoveTree, Unbound, Directory;
    var t1 := RemoveTree(sb, s, s1, t, d, no);
    ModelKeys(sb, s, t);
    ModelKeys(sb, s1, t1);
    Taken(sb, s, s1, d, t.parent[d], no);
    RemoveTreeKinds(sb, s, s1, t, d, no);
    ModelEquals(ModelOf(sb, s1, t1), Apply(ModelOf(sb, s, t), Remove(d, no)));
  }

  lemma RemoveTreeKinds(sb: SuperBlock, s: Fs, s1: Fs, t: Tree, d: nat, no: nat)
    ensures RemoveTree(sb, s, s1, t, d, no).kind == t.kind - {no}
  {
    hide At, DirOwned;
  }

  lemma WriteTreeKinds(sb: SuperBlock, s: Fs, s1: Fs, t: Tree, no: nat)
    ensures WriteTree(sb, s, s1, t, no).kind == t.kind
  {
    hide At, Reach;
  }

  lemma FsInodes(sb: SuperBlock, s: Fs, t: Tree, padding: set<int>)
    requires FsOk(sb, s, t, padding)
    ensures InodesUsed(s, t)
  {
    FsParts(sb, s, t, padding);
  }

  /** Every run of the file system is a run of the maps. */
  lemma {:induction false} RunRefines(sb: SuperBlock, padding: set<int>, ss: seq<Fs>, ts: seq<Tree>, acts: seq<FsAction>, n: nat)
    requires FsRun(sb, padding, ss, ts, acts) && n < |ss|
    ensures ModelOf(sb, ss[n], ts[n]) == ApplyAll(ModelOf(sb, ss[0], ts[0]), acts[..n])
  {
    hide FsOk, FsStep, Apply, ModelOf;
    if n > 0 {
      RunRefines(sb, padding, ss, ts, acts, n - 1);
      FsRunOk(sb, padding, ss, ts, acts, n - 1);
      Refines(sb, ss[n - 1], ts[n - 1], acts[n - 1], ss[n], ts[n], padding);
      assert acts[..n][..n - 1] == acts[..n - 1];
    }
  }

  // ----- the history of a file -----

  /** What has been appended to file `i` since it was last created, and before that `start`. */
  function Appendeds(start: seq<byte>, acts: seq<FsAction>, i: nat): seq<byte> {
    if acts == [] then start else
      var before := Appendeds(start, acts[..|acts| - 1], i);
      match acts[|acts| - 1]
      case Write(no, buf) => if no == i then before + buf else before
      case Add(_, e) => if e.no as nat == i then [] else before
      case Remove(_, _) => before
  }

  /** In every run a file holds the concatenation of all that was appended to it since its creation, or since the start, where
      it held what it held. */
  lemma {:induction false} FileHistory(sb: SuperBlock, padding: set<int>, ss: seq<Fs>, ts: seq<Tree>, acts: seq<FsAction>,
        n: nat, i: nat)
    requires FsRun(sb, padding, ss, ts, acts) && n < |ss| && i in ts[n].kind && ts[n].kind[i] == FT_REGULAR
    ensures
      var was := if i in ts[0].kind && ts[0].kind[i] == FT_REGULAR then FileOf(sb, ss[0], i) else [];
      FileOf(sb, ss[n], i) == Appendeds(was, acts[..n], i)
  {
    hide FsOk, FsStep, Apply, ModelOf, FileOf, NamesOf, Appendeds;
    var start := if i in ts[0].kind && ts[0].kind[i] == FT_REGULAR then FileOf(sb, ss[0], i) else [];
    if n == 0 {
      NothingAppended(start, i);
    } else {
      var s, t, a := ss[n - 1], ts[n - 1], acts[n - 1];
      FsRunOk(sb, padding, ss, ts, acts, n - 1);
      Refines(sb, s, t, a, ss[n], ts[n], padding);
      ModelKeys(sb, s, t);
      ModelKeys(sb, ss[n], ts[n]);
      StepFits(sb, s, t, a, ss[n], ts[n], padding);
      AppendStep(ModelOf(sb, s, t), a, i);
      if i in t.kind && t.kind[i] == FT_REGULAR {
        FileHistory(sb, padding, ss, ts, acts, n - 1, i);
      }
      AppendedMore(start, acts, n - 1, i);
    }
  }

  /** Something is created in a directory, under a number not in use. */
  ghost predicate Fits(m: Model, a: FsAction) {
    a.Add? ==> a.d in m.dirs && a.d < 4096 && a.e.no as nat !in m.files && a.e.no as nat !in m.dirs
  }

  lemma StepFits(sb: SuperBlock, s: Fs, t: Tree, a: FsAction, s1: Fs, t1: Tree, padding: set<int>)
    requires FsOk(sb, s, t, padding) && FsStep(sb, s, t, a, s1, t1)
    ensures Fits(ModelOf(sb, s, t), a)
  {
    hide FsOk, At, Entries, WriteStep, AddStep, RemoveStep, ModelOf, WriteTree, AddTree, RemoveTree, FileOf, NamesOf, InodesUsed;
    ModelKeys(sb, s, t);
    FsInodes(sb, s, t, padding);
    if a.Add? {
      AddedNumber(sb, s, s1, t, a.d, a.e);
    }
  }

  lemma AppendStep(m: Model, a: FsAction, i: nat)
    requires Fits(m, a) && i in Apply(m, a).files
    ensures i in m.files ==> !(a.Add? && a.e.no as nat == i)
    ensures i !in m.files ==> a.Add? && a.e.no as nat == i && Apply(m, a).files[i] == []
    ensures i in m.files ==> Apply(m, a).files[i] == if a.Write? && a.no == i then m.files[i] + a.buf else m.files[i]
  {
  }

  lemma NothingAppended(start: seq<byte>, i: nat)
    ensures Appendeds(start, [], i) == start
  {
  }

  lemma AppendedMore(start: seq<byte>, acts: seq<FsAction>, n: nat, i: nat)
    requires n < |acts|
    ensures var before := Appendeds(start, acts[..n], i);
      Appendeds(start, acts[..n + 1], i) == match acts[n]
        case Write(no, buf) => if no == i then before + buf else before
        case Add(_, e) => if e.no as nat == i then [] else before
        case Remove(_, _) => before
  {
    assert acts[..n + 1][..n] == acts[..n];
  }
}
