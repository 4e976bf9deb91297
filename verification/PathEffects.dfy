/** What creating and removing does to where paths lead. */
module PathEffects {
  import opened Bytes
  import opened Wrappers
  import opened Bitmaps
  import opened Disks
  import opened InodeTables
  import opened Partitions
  import opened Files
  import opened DirEntries
  import opened Dirs
  import opened FileSystems
  import opened Operations
  import opened Histories
  import opened PathSearch

  /** Every binding of `s` to a directory is one of `s1`; with `all` set, every binding. */
  ghost predicate BindingsKept(sb: SuperBlock, s: Fs, s1: Fs, t: Tree, all: bool) {
    forall d, n ::
      d in t.kind && t.kind[d] == FT_DIRECTORY && n in NamesOf(sb, s, d) && (all || NamesOf(sb, s, d)[n].1 == FT_DIRECTORY) ==>
      n in NamesOf(sb, s1, d) && NamesOf(sb, s1, d)[n] == NamesOf(sb, s, d)[n]
  }

  lemma LookupKept(sb: SuperBlock, s: Fs, s1: Fs, t: Tree, all: bool, d: nat, name: seq<byte>)
    requires BindingsKept(sb, s, s1, t, all) && d in t.kind && t.kind[d] == FT_DIRECTORY && |name| <= 15
    requires Lookup(sb, s, d, name).Some? && (all || Lookup(sb, s, d, name).value.1 == FT_DIRECTORY)
    ensures Lookup(sb, s1, d, name) == Lookup(sb, s, d, name)
  {
    hide Bindings, At, Entries;
    NamesAre(sb, s, d);
    NamesAre(sb, s1, d);
    assert Pad(name) in NamesOf(sb, s, d);
  }

  lemma NamesAre(sb: SuperBlock, s: Fs, d: nat)
    ensures NamesOf(sb, s, d) == Bindings(Entries(s.disk, At(sb, s, d)))
  {
    hide Bindings, At, Entries;
  }

  /** The walk to a directory is as before when bindings to directories are. */
  lemma {:induction false} WalkKept(sb: SuperBlock, s: Fs, s1: Fs, t: Tree, padding: set<int>, d: nat, parent: nat, n: nat,
        comps: seq<seq<byte>>)
    requires FsOk(sb, s, t, padding) && BindingsKept(sb, s, s1, t, false) && d in t.kind && t.kind[d] == FT_DIRECTORY
    requires ShortNames(comps) && NamesOk(comps)
    requires Walk(sb, s, d, parent, n, comps).Found? && Walk(sb, s, d, parent, n, comps).kind == FT_DIRECTORY
    ensures Walk(sb, s1, d, parent, n, comps) == Walk(sb, s, d, parent, n, comps)
    decreases |comps|
  {
    hide FsOk, Lookup, FileName, BindingsKept;
    if comps != [] {
      LookupTarget(sb, s, t, padding, d, comps[0]);
      LookupKept(sb, s, s1, t, false, d, comps[0]);
      WalkKept(sb, s, s1, t, padding, Lookup(sb, s, d, comps[0]).value.0, d, n + 1, comps[1..]);
    }
  }

  /** Where only the last component was missing, the walk finds what it is bound to now. */
  lemma {:induction false} WalkMade(sb: SuperBlock, s: Fs, s1: Fs, t: Tree, padding: set<int>, d: nat, parent: nat, n: nat,
        comps: seq<seq<byte>>, m: nat)
    requires FsOk(sb, s, t, padding) && BindingsKept(sb, s, s1, t, true) && d in t.kind && t.kind[d] == FT_DIRECTORY
    requires ShortNames(comps) && NamesOk(comps) && comps != [] && Walk(sb, s, d, parent, n, comps) == Missing(m, n + |comps|)
    requires Lookup(sb, s1, m, Last(comps)).Some?
    ensures var (i, kind) := Lookup(sb, s1, m, Last(comps)).value; Walk(sb, s1, d, parent, n, comps) == Found(i, kind, m)
    decreases |comps|
  {
    hide FsOk, Lookup, FileName, BindingsKept;
    var e := Lookup(sb, s, d, comps[0]);
    if e.Some? {
      LookupTarget(sb, s, t, padding, d, comps[0]);
      LookupKept(sb, s, s1, t, true, d, comps[0]);
      assert Last(comps[1..]) == Last(comps);
      WalkMade(sb, s, s1, t, padding, e.value.0, d, n + 1, comps[1..], m);
    } else {
      assert |comps| == 1 && comps[1..] == [];
    }
  }

  /** A name for inode `no` is bound in `s` only. */
  ghost predicate NameGone(sb: SuperBlock, s: Fs, s1: Fs, t: Tree, no: u32) {
    forall d, n ::
      d in t.kind && t.kind[d] == FT_DIRECTORY && d != no as nat && n in NamesOf(sb, s, d) && n != DOT && n != DOT_DOT ==>
      if NamesOf(sb, s, d)[n].0 == no then n !in NamesOf(sb, s1, d) else
        n in NamesOf(sb, s1, d) && NamesOf(sb, s1, d)[n] == NamesOf(sb, s, d)[n]
  }

  lemma LookupGone(sb: SuperBlock, s: Fs, s1: Fs, t: Tree, no: u32, d: nat, name: seq<byte>)
    requires NameGone(sb, s, s1, t, no) && d in t.kind && t.kind[d] == FT_DIRECTORY && d != no as nat
    requires FileName(name) && |name| <= 15 && name != [0x2e] && name != [0x2e, 0x2e] && Lookup(sb, s, d, name).Some?
    ensures
      if Lookup(sb, s, d, name).value.0 == no then Lookup(sb, s1, d, name).None?
      else Lookup(sb, s1, d, name) == Lookup(sb, s, d, name)
  {
    hide Bindings, At, Entries, FileName;
    PadsApart(name);
    NamesAre(sb, s, d);
    NamesAre(sb, s1, d);
    assert Pad(name) in NamesOf(sb, s, d);
  }

  /** Paths that led to the inode lead nowhere. */
  lemma {:induction false} WalkGone(sb: SuperBlock, s: Fs, t: Tree, padding: set<int>, s1: Fs, t1: Tree, no: u32, d: nat,
        parent: nat, n: nat, comps: seq<seq<byte>>)
    requires FsOk(sb, s, t, padding) && FsOk(sb, s1, t1, padding) && NameGone(sb, s, s1, t, no)
    requires d in t.kind && t.kind[d] == FT_DIRECTORY && d != no as nat && Leaf(t, no) && no != 0
    requires d in t1.kind && t1.kind[d] == FT_DIRECTORY && SameParents(t, t1, no)
    requires ShortNames(comps) && NamesOk(comps) && comps != []
    requires Walk(sb, s, d, parent, n, comps).Found? && Walk(sb, s, d, parent, n, comps).no == no as nat
    ensures Walk(sb, s1, d, parent, n, comps).Missing?
    decreases |comps|
  {
    hide FsOk, Lookup, FileName, NameGone, Leaf, SameParents;
    var e := Lookup(sb, s, d, comps[0]);
    LookupTarget(sb, s, t, padding, d, comps[0]);
    if comps[0] == [0x2e] || comps[0] == [0x2e, 0x2e] {
      DotsBoth(sb, s, t, padding, s1, t1, no, d);
    } else {
      LookupGone(sb, s, s1, t, no, d, comps[0]);
    }
    if e.value.0 != no && e.value.1 == FT_DIRECTORY {
      SameParentsAt(t, t1, no, e.value.0);
      WalkGone(sb, s, t, padding, s1, t1, no, e.value.0, d, n + 1, comps[1..]);
    }
  }

  /** Two trees that differ in the leaf `no` only. */
  ghost predicate SameParents(t: Tree, t1: Tree, no: nat) {
    forall i :: i in t.kind && i != no && i in t.parent ==>
      i in t1.kind && t1.kind[i] == t.kind[i] && i in t1.parent && t1.parent[i] == t.parent[i]
  }

  lemma SameParentsAt(t: Tree, t1: Tree, no: nat, i: nat)
    requires SameParents(t, t1, no) && i in t.kind && i != no && i in t.parent
    ensures i in t1.kind && t1.kind[i] == t.kind[i] && i in t1.parent && t1.parent[i] == t.parent[i]
  {
  }

  /** "." and ".." lead where they did, and not to a leaf. */
  lemma DotsBoth(sb: SuperBlock, s: Fs, t: Tree, padding: set<int>, s1: Fs, t1: Tree, no: u32, d: nat)
    requires FsOk(sb, s, t, padding) && FsOk(sb, s1, t1, padding) && d in t.kind && t.kind[d] == FT_DIRECTORY && d != no as nat
    requires Leaf(t, no) && no != 0 && SameParents(t, t1, no)
    ensures Lookup(sb, s1, d, [0x2e]) == Lookup(sb, s, d, [0x2e]) && Lookup(sb, s, d, [0x2e]) == Some((d as u32, FT_DIRECTORY))
    ensures Lookup(sb, s1, d, [0x2e, 0x2e]) == Lookup(sb, s, d, [0x2e, 0x2e])
    ensures Lookup(sb, s, d, [0x2e, 0x2e]).Some? && Lookup(sb, s, d, [0x2e, 0x2e]).value.0 != no
  {
    hide *;
    DirInode(sb, s, t, padding, d);
    SameParentsAt(t, t1, no, d);
    DirInode(sb, s1, t1, padding, d);
    DotsLookup(sb, s, d, t.parent[d]);
    DotsLookup(sb, s1, d, t1.parent[d]);
    if d == 0 {
      FsParts(sb, s, t, padding);
      RootParent(sb, s, t);
    } else {
      LeafNot(t, no, d);
    }
  }

  // ----- the steps -----

  lemma BindingEntry(sb: SuperBlock, s: Fs, t: Tree, padding: set<int>, d: nat, n: Name)
    requires FsOk(sb, s, t, padding) && d in t.kind && t.kind[d] == FT_DIRECTORY && n in NamesOf(sb, s, d)
    ensures var (no, kind) := NamesOf(sb, s, d)[n];
      && no as nat in t.kind && t.kind[no] == kind
      && (n != DOT && n != DOT_DOT ==> no != 0 && no as nat in t.parent && t.parent[no] == d)
  {
    hide *;
    var l := Entries(s.disk, At(sb, s, d));
    NamesAre(sb, s, d);
    DirInode(sb, s, t, padding, d);
    DirectoryParts(s.disk, sb, s.bits, At(sb, s, d), t.parent[d]);
    BindingsOf(l);
    var k :| 0 <= k < |l| && l[k].name == n;
    EntryTarget(sb, s, t, padding, d, l[k]);
    EntriesOkAt(sb, s, t, d, k);
    DotsOrChild(s.disk, sb, s.bits, At(sb, s, d), t.parent[d], k);
    EntryOkParent(t, d, l[k]);
  }

  lemma KeptAt(sb: SuperBlock, s: Fs, s1: Fs, t: Tree, a: FsAction, x: nat)
    requires Kept(sb, s, s1, t, a) && x in t.kind && t.kind[x] == FT_DIRECTORY && x !in Changed(a)
    ensures NamesOf(sb, s1, x) == NamesOf(sb, s, x)
  {
    hide NamesOf, FileOf;
  }

  lemma AddFits(sb: SuperBlock, s: Fs, t: Tree, d: nat, e: Entry, s1: Fs)
    requires d in t.kind && t.kind[d] == FT_DIRECTORY && d in t.depth && d < 4096 && AddedTo(sb, s, s1, t, d, e)
    ensures d in t.parent && AddStep(sb, s, s1, d, t.parent[d], e)
    ensures FsStep(sb, s, t, Add(d, e), s1, AddTree(sb, s, s1, t, d, e))
  {
    hide AddStep, AddTree;
  }

  /** After a creation all bindings stay, and there is the new one. */
  lemma AddKeeps(sb: SuperBlock, s: Fs, t: Tree, padding: set<int>, d: nat, e: Entry, s1: Fs, name: seq<byte>)
    requires FsOk(sb, s, t, padding) && d in t.kind && t.kind[d] == FT_DIRECTORY && AddedTo(sb, s, s1, t, d, e)
    requires |name| <= 15 && e.name == Pad(name)
    ensures BindingsKept(sb, s, s1, t, true) && Lookup(sb, s1, d, name) == Some((e.no, e.kind))
  {
    hide *;
    DirInode(sb, s, t, padding, d);
    AddFits(sb, s, t, d, e, s1);
    FsParts(sb, s, t, padding);
    StepKept(sb, s, t, Add(d, e), s1, AddTree(sb, s, s1, t, d, e), padding);
    AddedNumber(sb, s, s1, t, d, e);
    Added(sb, s, s1, d, t.parent[d], e);
    AddChanges(d, e);
    BindFacts(NamesOf(sb, s, d), e);
    NamesAre(sb, s1, d);
    LookupIs(sb, s1, d, name);
    AddKept(sb, s, s1, t, d, e);
  }

  lemma AddChanges(d: nat, e: Entry)
    ensures Changed(Add(d, e)) == {d, e.no as nat}
  {
  }

  lemma BindFacts(b: Bound, e: Entry)
    ensures e.name in Bind(b, e) && Bind(b, e)[e.name] == (e.no, e.kind)
    ensures forall n :: n in b && n != e.name ==> n in Bind(b, e) && Bind(b, e)[n] == b[n]
  {
  }

  lemma AddKept(sb: SuperBlock, s: Fs, s1: Fs, t: Tree, d: nat, e: Entry)
    requires Kept(sb, s, s1, t, Add(d, e)) && e.no as nat !in t.kind && e.name !in NamesOf(sb, s, d)
    requires forall n :: n in NamesOf(sb, s, d) && n != e.name ==>
      n in NamesOf(sb, s1, d) && NamesOf(sb, s1, d)[n] == NamesOf(sb, s, d)[n]
    ensures BindingsKept(sb, s, s1, t, true)
  {
    hide NamesOf, FileOf, Kept;
    forall x, n | x in t.kind && t.kind[x] == FT_DIRECTORY && n in NamesOf(sb, s, x)
      ensures n in NamesOf(sb, s1, x) && NamesOf(sb, s1, x)[n] == NamesOf(sb, s, x)[n]
    {
      if x != d {
        KeptAt(sb, s, s1, t, Add(d, e), x);
      }
    }
  }

  /** After a removal the name is gone, and with a file only that. */
  lemma RemoveGone(sb: SuperBlock, s: Fs, t: Tree, padding: set<int>, d: nat, no: u32, s1: Fs)
    requires FsOk(sb, s, t, padding) && no as nat in t.kind && no != 0 && no as nat in t.parent && t.parent[no] == d
    requires t.kind[no] == FT_REGULAR || |Entries(s.disk, At(sb, s, no))| == 2
    requires RemovedFrom(sb, s, s1, t, d, no)
    ensures NameGone(sb, s, s1, t, no) && (t.kind[no] == FT_REGULAR ==> BindingsKept(sb, s, s1, t, false))
    ensures Leaf(t, no) && FsOk(sb, s1, RemoveTree(sb, s, s1, t, d, no), padding)
    ensures SameParents(t, RemoveTree(sb, s, s1, t, d, no), no)
  {
    hide *;
    RemovedStep(sb, s, s1, t, d, no);
    RemoveFits(sb, s, t, d, no, s1);
    var t1 := RemoveTree(sb, s, s1, t, d, no);
    FsStepOk(sb, s, t, Remove(d, no), s1, t1, padding);
    VictimLeaf(sb, s, t, padding, no);
    StepKept(sb, s, t, Remove(d, no), s1, t1, padding);
    ListedThere(sb, s, t, padding, no, d);
    DirInode(sb, s, t, padding, d);
    Taken(sb, s, s1, d, t.parent[d], no);
    UnboundFacts(NamesOf(sb, s, d), no);
    RemoveParents(sb, s, s1, t, d, no);
    GoneEach(sb, s, t, padding, d, no, s1);
    if t.kind[no] == FT_REGULAR {
      KeptEach(sb, s, t, padding, d, no, s1);
    }
  }

  lemma RemoveFits(sb: SuperBlock, s: Fs, t: Tree, d: nat, no: u32, s1: Fs)
    requires no as nat in t.kind && no != 0 && no as nat in t.parent && t.parent[no] == d && d in t.parent
    requires t.kind[no] == FT_REGULAR || |Entries(s.disk, At(sb, s, no))| == 2
    requires RemoveStep(sb, s, s1, d, t.parent[d], no)
    ensures FsStep(sb, s, t, Remove(d, no), s1, RemoveTree(sb, s, s1, t, d, no))
  {
    hide RemoveStep, RemoveTree, At, Entries;
  }

  lemma UnboundFacts(b: Bound, no: u32)
    ensures forall n :: n in b && b[n].0 != no ==> n in Unbound(b, no) && Unbound(b, no)[n] == b[n]
    ensures forall n :: n in b && b[n].0 == no && n != DOT && n != DOT_DOT ==> n !in Unbound(b, no)
  {
  }

  lemma RemoveParents(sb: SuperBlock, s: Fs, s1: Fs, t: Tree, d: nat, no: nat)
    ensures SameParents(t, RemoveTree(sb, s, s1, t, d, no), no)
  {
    hide At, DirOwned;
  }

  lemma RemoveChanges(d: nat, no: u32)
    ensures Changed(Remove(d, no)) == {d, no as nat}
  {
  }

  lemma GoneEach(sb: SuperBlock, s: Fs, t: Tree, padding: set<int>, d: nat, no: u32, s1: Fs)
    requires FsOk(sb, s, t, padding) && no as nat in t.parent && t.parent[no] == d && Kept(sb, s, s1, t, Remove(d, no))
    requires NamesOf(sb, s1, d) == Unbound(NamesOf(sb, s, d), no)
    ensures NameGone(sb, s, s1, t, no)
  {
    hide FsOk, NamesOf, FileOf, Kept, Unbound;
    RemoveChanges(d, no);
    UnboundFacts(NamesOf(sb, s, d), no);
    forall x, n | x in t.kind && t.kind[x] == FT_DIRECTORY && x != no as nat && n in NamesOf(sb, s, x) && n != DOT && n != DOT_DOT
      ensures if NamesOf(sb, s, x)[n].0 == no then n !in NamesOf(sb, s1, x) else
        n in NamesOf(sb, s1, x) && NamesOf(sb, s1, x)[n] == NamesOf(sb, s, x)[n]
    {
      if x != d {
        KeptAt(sb, s, s1, t, Remove(d, no), x);
        BindingEntry(sb, s, t, padding, x, n);
      }
    }
  }

  lemma KeptEach(sb: SuperBlock, s: Fs, t: Tree, padding: set<int>, d: nat, no: u32, s1: Fs)
    requires FsOk(sb, s, t, padding) && no as nat in t.kind && t.kind[no] == FT_REGULAR && Kept(sb, s, s1, t, Remove(d, no))
    requires NamesOf(sb, s1, d) == Unbound(NamesOf(sb, s, d), no)
    ensures BindingsKept(sb, s, s1, t, false)
  {
    hide FsOk, NamesOf, FileOf, Kept, Unbound;
    RemoveChanges(d, no);
    UnboundFacts(NamesOf(sb, s, d), no);
    forall x, n | x in t.kind && t.kind[x] == FT_DIRECTORY && n in NamesOf(sb, s, x) && NamesOf(sb, s, x)[n].1 == FT_DIRECTORY
      ensures n in NamesOf(sb, s1, x) && NamesOf(sb, s1, x)[n] == NamesOf(sb, s, x)[n]
    {
      if x != d {
        KeptAt(sb, s, s1, t, Remove(d, no), x);
      } else {
        BindingEntry(sb, s, t, padding, x, n);
      }
    }
  }
}
