/** Path names: path_parse and path_depth_cnt of fs/fs.c, wash_path of shell/buildin_cmd.c. */
module Paths {
  import opened Bytes
  import opened Wrappers

  const SELF: seq<byte> := [0x2e]
  const PARENT: seq<byte> := [0x2e, 0x2e]
  const MAX_PATH_LEN := 512

  // ----- components -----

  /** The length of the run of slashes at the start. */
  function Slashes(p: seq<byte>): (n: nat)
    ensures n <= |p| && (forall k :: 0 <= k < n ==> p[k] == SLASH) && (n < |p| ==> p[n] != SLASH)
  {
    if p == [] || p[0] != SLASH then 0 else 1 + Slashes(p[1..])
  }

  /** The length of the name at the start. */
  function NameLen(p: seq<byte>): (n: nat)
    ensures n <= |p| && (forall k :: 0 <= k < n ==> p[k] != SLASH) && (n < |p| ==> p[n] == SLASH)
  {
    if p == [] || p[0] == SLASH then 0 else 1 + NameLen(p[1..])
  }

  /** The names between slashes, without empty ones. */
  function Components(p: seq<byte>): seq<seq<byte>>
    decreases |p|
  {
    if p == [] then []
    else if p[0] == SLASH then Components(p[1..])
    else [p[..NameLen(p)]] + Components(p[NameLen(p)..])
  }

  lemma {:induction false} SkipSlashes(p: seq<byte>)
    ensures Components(p) == Components(p[Slashes(p)..])
    decreases |p|
  {
    if p != [] && p[0] == SLASH {
      SkipSlashes(p[1..]);
      assert p[1..][Slashes(p[1..])..] == p[Slashes(p)..];
    } else {
      assert p[0..] == p;
    }
  }

  /** A component: not empty, without a slash. */
  predicate IsName(c: seq<byte>) {
    c != [] && NoSlash(c)
  }

  lemma {:induction false} ComponentsAreNames(p: seq<byte>)
    ensures forall k :: 0 <= k < |Components(p)| ==> IsName(Components(p)[k])
    decreases |p|
  {
    if p != [] {
      if p[0] == SLASH {
        ComponentsAreNames(p[1..]);
      } else {
        ComponentsAreNames(p[NameLen(p)..]);
      }
    }
  }

  lemma LeadingName(tail: seq<byte>)
    requires tail != [] ==> tail[0] != SLASH
    ensures var n := NameLen(tail);
      && n <= |tail| && (n == 0 ==> tail == [] && Components(tail) == [])
      && (n > 0 ==> Components(tail) == [tail[..n]] + Components(tail[n..]) && IsName(tail[..n]))
    ensures Components([]) == []
  {
  }

  /** What lies between the leading slashes and the next one is the first component. */
  lemma FirstComponent(path: seq<byte>, m: nat, n: nat)
    requires m == Slashes(path) && m <= |path| && n == NameLen(path[m..])
    ensures m + n <= |path|
    ensures n == 0 ==> m == |path| && Components(path) == []
    ensures n > 0 ==> Components(path) == [path[m..m + n]] + Components(path[m + n..]) && IsName(path[m..m + n])
    ensures Components([]) == []
  {
    hide *;
    SkipSlashes(path);
    var tail := path[m..];
    assert tail != [] ==> tail[0] == path[m];
    LeadingName(tail);
    assert n <= |tail| && tail[..n] == path[m..m + n] && tail[n..] == path[m + n..];
  }

  /** `path_parse`: the first component, or an empty name when there is none; and what follows it, if anything does. */
  method PathParse(path: seq<byte>) returns (rest: Option<seq<byte>>, name: seq<byte>)
    ensures name == if Components(path) == [] then [] else Components(path)[0]
    ensures Components(path) != [] ==> IsName(name)
    ensures rest.Some? ==> rest.value != [] && rest.value[0] == SLASH && Components(path) == [name] + Components(rest.value)
    ensures rest.Some? ==> |rest.value| + |name| + Slashes(path) == |path|
    ensures rest.None? ==> Components(path) == if name == [] then [] else [name]
    ensures |name| + Slashes(path) <= |path|
    ensures NoZero(path) ==> NoZero(name) && (rest.Some? ==> NoZero(rest.value))
  {
    hide *;
    var at := 0;
    if path != [] && path[0] == SLASH {
      at := 1;
      while at < |path| && path[at] == SLASH
        invariant 1 <= at <= |path| && forall k :: 0 <= k < at ==> path[k] == SLASH
      {
        at := at + 1;
      }
    }
    SlashesAre(path, at);
    ghost var start := at;
    name := [];
    while at < |path| && path[at] != SLASH
      invariant start <= at <= |path| && name == path[start..at] && forall k :: start <= k < at ==> path[k] != SLASH
    {
      name := name + [path[at]];
      at := at + 1;
    }
    NameLenIs(path[start..], at - start);
    FirstComponent(path, start, at - start);
    assert at == |path| ==> path[at..] == [];
    NamesAreNotEmpty(name);
    NoZeroSlices(path, start, at);
    if at == |path| {
      return None, name;
    }
    return Some(path[at..]), name;
  }

  lemma NoZeroSlices(path: seq<byte>, i: nat, j: nat)
    requires i <= j <= |path|
    ensures NoZero(path) ==> NoZero(path[i..j]) && NoZero(path[j..])
  {
  }

  lemma NamesAreNotEmpty(c: seq<byte>)
    ensures IsName(c) ==> c != []
  {
  }

  lemma SlashesAre(p: seq<byte>, n: nat)
    requires n <= |p| && (forall k :: 0 <= k < n ==> p[k] == SLASH) && (n < |p| ==> p[n] != SLASH)
    ensures Slashes(p) == n
  {
    if n > 0 {
      SlashesAre(p[1..], n - 1);
    }
  }

  lemma NameLenIs(p: seq<byte>, n: nat)
    requires n <= |p| && (forall k :: 0 <= k < n ==> p[k] != SLASH) && (n < |p| ==> p[n] == SLASH)
    ensures NameLen(p) == n
  {
    if n > 0 {
      NameLenIs(p[1..], n - 1);
    }
  }

  /** `path_depth_cnt`. Of a path without components the C code reads an uninitialised byte. */
  method PathDepthCnt(path: seq<byte>) returns (depth: nat)
    requires Components(path) != []
    ensures depth == |Components(path)|
  {
    var p, name := PathParse(path);
    depth := 0;
    while name != []
      invariant name == [] ==> depth == |Components(path)| && p.None?
      invariant name != [] ==>
        depth + 1 + (if p.Some? then |Components(p.value)| else 0) == |Components(path)|
      decreases if p.Some? then |p.value| + 1 else 0, |name|
    {
      depth := depth + 1;
      name := [];
      if p.Some? {
        ghost var before := p.value;
        p, name := PathParse(p.value);
        ComponentsAreNames(before);
      }
    }
  }

  // ----- wash_path -----

  /** The stack of names reached from `stack`: a name is pushed, ".." pops, staying at the root, "." does nothing. */
  function Resolve(stack: seq<seq<byte>>, comps: seq<seq<byte>>): seq<seq<byte>>
    decreases |comps|
  {
    if comps == [] then stack else Resolve(Move(stack, comps[0]), comps[1..])
  }

  function Move(stack: seq<seq<byte>>, c: seq<byte>): seq<seq<byte>> {
    if c == PARENT then (if stack == [] then [] else stack[..|stack| - 1])
    else if c == SELF then stack
    else stack + [c]
  }

  /** The names that stay on a stack. */
  predicate Clean(stack: seq<seq<byte>>) {
    forall k :: 0 <= k < |stack| ==> IsName(stack[k]) && stack[k] != SELF && stack[k] != PARENT
  }

  /** The path of a stack. */
  function Join(stack: seq<seq<byte>>): (p: seq<byte>)
    ensures p != [] && p[0] == SLASH
  {
    if stack == [] then [SLASH]
    else if |stack| == 1 then [SLASH] + stack[0]
    else Join(stack[..|stack| - 1]) + [SLASH] + stack[|stack| - 1]
  }

  /** A C string in a buffer: the bytes before its terminator. */
  function CStr(buf: seq<byte>): (s: seq<byte>)
    ensures |s| <= |buf| && s == buf[..|s|] && (forall k :: 0 <= k < |s| ==> s[k] != 0)
    ensures |s| < |buf| ==> buf[|s|] == 0
  {
    if buf == [] || buf[0] == 0 then [] else [buf[0]] + CStr(buf[1..])
  }

  lemma CStrIs(buf: seq<byte>, s: seq<byte>)
    requires |s| < |buf| && buf[..|s|] == s && NoZero(s) && buf[|s|] == 0
    ensures CStr(buf) == s
  {
    if s != [] {
      CStrIs(buf[1..], s[1..]);
    }
  }

  /** `strcat`, with the room it needs. */
  method StrCat(dst: array<byte>, src: seq<byte>)
    requires |CStr(dst[..])| + |src| < dst.Length && NoZero(src)
    modifies dst
    ensures CStr(dst[..]) == old(CStr(dst[..])) + src
  {
    ghost var s0 := CStr(dst[..]);
    var at := StrLen(dst);
    var i := 0;
    while i < |src|
      invariant 0 <= i <= |src| && dst[..|s0| + i] == s0 + src[..i]
    {
      dst[at + i] := src[i];
      i := i + 1;
    }
    dst[at + i] := 0;
    assert dst[..|s0| + |src|] == s0 + src;
    CStrIs(dst[..], s0 + src);
  }

  method StrLen(s: array<byte>) returns (n: nat)
    requires |CStr(s[..])| < s.Length
    ensures n == |CStr(s[..])|
  {
    n := 0;
    while s[n] != 0
      invariant n <= |CStr(s[..])|
      decreases |CStr(s[..])| - n
    {
      n := n + 1;
    }
  }

  /** `strrchr(s, '/')` of a path: the index of its last slash. */
  function LastSlash(s: seq<byte>): (i: int)
    ensures -1 <= i < |s| && (i >= 0 ==> s[i] == SLASH) && forall k :: i < k < |s| ==> s[k] != SLASH
  {
    if s == [] then -1 else if s[|s| - 1] == SLASH then |s| - 1 else LastSlash(s[..|s| - 1])
  }

  lemma LastSlashIs(s: seq<byte>, i: nat)
    requires i < |s| && s[i] == SLASH && forall k :: i < k < |s| ==> s[k] != SLASH
    ensures LastSlash(s) == i
  {
  }

  /** Writing the terminator at `n` cuts the string there. */
  method Cut(dst: array<byte>, n: nat)
    requires n <= |CStr(dst[..])| < dst.Length
    modifies dst
    ensures CStr(dst[..]) == old(CStr(dst[..]))[..n]
  {
    ghost var s0 := CStr(dst[..]);
    dst[n] := 0;
    assert dst[..n] == s0[..n];
    CStrIs(dst[..], s0[..n]);
  }

  /** Popping a stack cuts its path at the last slash. */
  lemma JoinPop(stack: seq<seq<byte>>)
    requires Clean(stack)
    ensures |stack| <= 1 ==> LastSlash(Join(stack)) == 0
    ensures |stack| > 1 ==> LastSlash(Join(stack)) == |Join(stack[..|stack| - 1])| > 0
    ensures |stack| > 1 ==> Join(stack)[..LastSlash(Join(stack))] == Join(stack[..|stack| - 1])
  {
    var p := Join(stack);
    if |stack| > 1 {
      var q, c := Join(stack[..|stack| - 1]), stack[|stack| - 1];
      assert p == q + [SLASH] + c;
      assert forall k :: |q| < k < |p| ==> p[k] == c[k - |q| - 1];
      LastSlashIs(p, |q|);
      assert p[..|q|] == q;
    } else {
      LastSlashIs(p, 0);
    }
  }

  lemma MoveClean(stack: seq<seq<byte>>, c: seq<byte>)
    requires Clean(stack) && IsName(c)
    ensures Clean(Move(stack, c))
  {
  }

  lemma {:induction false} ResolveClean(stack: seq<seq<byte>>, comps: seq<seq<byte>>)
    requires Clean(stack) && forall k :: 0 <= k < |comps| ==> IsName(comps[k])
    ensures Clean(Resolve(stack, comps))
    decreases |comps|
  {
    if comps != [] {
      MoveClean(stack, comps[0]);
      ResolveClean(Move(stack, comps[0]), comps[1..]);
    }
  }

  /** What `wash_path` makes of a path. */
  function Washed(path: seq<byte>): seq<byte> {
    Join(Resolve([], Components(path)))
  }

  lemma {:induction false} NameLenBefore(p: seq<byte>, c: seq<byte>)
    ensures NameLen(p + [SLASH] + c) == NameLen(p)
  {
    var r := p + [SLASH] + c;
    if p == [] || p[0] == SLASH {
      assert r[0] == SLASH;
    } else {
      NameLenBefore(p[1..], c);
      assert r[1..] == p[1..] + [SLASH] + c;
    }
  }

  lemma OneName(c: seq<byte>)
    requires IsName(c)
    ensures Components(c) == [c] && Components([SLASH] + c) == [c]
  {
    assert ([SLASH] + c)[1..] == c;
    NameLenIs(c, |c|);
    assert Components(c) == [c[..|c|]] + Components(c[|c|..]);
    assert c[..|c|] == c && c[|c|..] == [];
  }

  /** A slash divides: the components before it, and those behind. */
  lemma {:induction false} ComponentsApart(p: seq<byte>, q: seq<byte>)
    ensures Components(p + [SLASH] + q) == Components(p) + Components(q)
    decreases |p|
  {
    var r := p + [SLASH] + q;
    if p == [] {
      assert r == [SLASH] + q && r[1..] == q;
    } else if p[0] == SLASH {
      ComponentsApart(p[1..], q);
      assert r[1..] == p[1..] + [SLASH] + q;
    } else {
      var n := NameLen(p);
      NameLenBefore(p, q);
      ComponentsApart(p[n..], q);
      assert r[n..] == p[n..] + [SLASH] + q && r[..n] == p[..n];
    }
  }

  /** That and names being their own components is all there is to know of components. */
  lemma ComponentsAppend(p: seq<byte>, c: seq<byte>)
    requires IsName(c)
    ensures Components([]) == [] && Components(c) == [c] && Components(p + [SLASH] + c) == Components(p) + [c]
  {
    OneName(c);
    ComponentsApart(p, c);
  }

  /** The components of a stack's path are the stack. */
  lemma {:induction false} ComponentsJoin(stack: seq<seq<byte>>)
    requires Clean(stack)
    ensures Components(Join(stack)) == stack
  {
    if |stack| == 0 {
      assert Join(stack)[1..] == [];
    } else if |stack| == 1 {
      OneName(stack[0]);
    } else {
      var last := |stack| - 1;
      ComponentsJoin(stack[..last]);
      ComponentsAppend(Join(stack[..last]), stack[last]);
    }
  }

  lemma {:induction false} ResolveCleanNames(stack: seq<seq<byte>>, comps: seq<seq<byte>>)
    requires Clean(comps)
    ensures Resolve(stack, comps) == stack + comps
    decreases |comps|
  {
    if comps != [] {
      ResolveCleanNames(stack + [comps[0]], comps[1..]);
      assert stack + comps == stack + [comps[0]] + comps[1..];
    } else {
      assert stack + comps == stack;
    }
  }

  /** The washed path has no empty component, no "." and no "..", and names the same stack. */
  lemma WashedIsClean(path: seq<byte>)
    ensures Clean(Components(Washed(path)))
    ensures Components(Washed(path)) == Resolve([], Components(path))
  {
    ComponentsAreNames(path);
    ResolveClean([], Components(path));
    ComponentsJoin(Resolve([], Components(path)));
  }

  lemma WashingTwice(path: seq<byte>)
    ensures Washed(Washed(path)) == Washed(path)
  {
    WashedIsClean(path);
    ResolveCleanNames([], Components(Washed(path)));
    assert [] + Components(Washed(path)) == Components(Washed(path));
  }

  /** The path of a stack is "/" only for the root. */
  lemma JoinRoot(stack: seq<seq<byte>>)
    requires Clean(stack)
    ensures Join(stack) == [SLASH] <==> stack == []
    ensures NoZeros(stack) ==> NoZero(Join(stack))
  {
    if |stack| > 1 {
      JoinRoot(stack[..|stack| - 1]);
    }
  }

  predicate NoZeros(cs: seq<seq<byte>>) {
    forall k :: 0 <= k < |cs| ==> NoZero(cs[k])
  }

  /** The bytes of the old path still to be read. */
  function Left(name: seq<byte>, rest: Option<seq<byte>>): nat {
    |name| + if rest.Some? then |rest.value| else 0
  }

  /** The components still to be resolved. */
  function Pending(name: seq<byte>, rest: Option<seq<byte>>): seq<seq<byte>> {
    (if name == [] then [] else [name]) + if rest.Some? then Components(rest.value) else []
  }

  /** One move: the path of the new stack, and its length within what was read. */
  lemma MoveJoin(stack: seq<seq<byte>>, name: seq<byte>)
    requires Clean(stack) && IsName(name)
    ensures Clean(Move(stack, name))
    ensures name != SELF && name != PARENT ==>
      Join(Move(stack, name)) == if stack == [] then [SLASH] + name else Join(stack) + [SLASH] + name
    ensures name == PARENT ==>
      Join(Move(stack, name)) == if |stack| <= 1 then [SLASH] else Join(stack)[..LastSlash(Join(stack))]
    ensures name == PARENT ==> (|stack| <= 1 <==> LastSlash(Join(stack)) == 0)
    ensures name == SELF ==> Move(stack, name) == stack
    ensures Join(stack)[..1] == [SLASH]
  {
    hide LastSlash, Clean, IsName, Join;
    MoveClean(stack, name);
    JoinPop(stack);
    JoinPush(stack, name);
  }

  lemma JoinPush(stack: seq<seq<byte>>, name: seq<byte>)
    ensures Join(stack + [name]) == if stack == [] then [SLASH] + name else Join(stack) + [SLASH] + name
    ensures Join([]) == [SLASH] && Join(stack)[..1] == [SLASH]
  {
    assert (stack + [name])[..|stack|] == stack;
  }

  lemma JoinFits(stack: seq<seq<byte>>, name: seq<byte>)
    requires Clean(stack) && IsName(name)
    ensures |Join(Move(stack, name))| <= |Join(stack)| + |name| + if stack == [] then 0 else 1
    ensures |stack| <= 1 && name == PARENT ==> |Join(Move(stack, name))| == 1
  {
    MoveJoin(stack, name);
  }

  /** One turn of the loop of `wash_path`. */
  method WashName(newAbsPath: array<byte>, name: seq<byte>, ghost stack: seq<seq<byte>>)
    requires Clean(stack) && CStr(newAbsPath[..]) == Join(stack) && IsName(name) && NoZero(name)
    requires |Join(stack)| + |name| + (if stack == [] then 0 else 1) < newAbsPath.Length
    modifies newAbsPath
    ensures Clean(Move(stack, name)) && CStr(newAbsPath[..]) == Join(Move(stack, name))
    ensures |Join(Move(stack, name))| <= |Join(stack)| + |name| + if stack == [] then 0 else 1
  {
    hide *;
    MoveJoin(stack, name);
    JoinFits(stack, name);
    JoinRoot(stack);
    RootFacts([]);
    if name == PARENT {
      var slash := LastSlash(CStr(newAbsPath[..]));
      if slash != 0 {
        Cut(newAbsPath, slash);
      } else {
        Cut(newAbsPath, slash + 1);
      }
    } else if name != SELF {
      if CStr(newAbsPath[..]) != [SLASH] {
        StrCat(newAbsPath, [SLASH]);
      }
      StrCat(newAbsPath, name);
    }
  }

  /** `wash_path`. The result never is longer than the old path, so it fits the buffer. */
  method WashPath(oldAbsPath: seq<byte>, newAbsPath: array<byte>)
    requires oldAbsPath != [] && oldAbsPath[0] == SLASH && |oldAbsPath| < MAX_PATH_LEN && NoZero(oldAbsPath)
    requires newAbsPath.Length == MAX_PATH_LEN
    modifies newAbsPath
    ensures CStr(newAbsPath[..]) == Washed(oldAbsPath)
    ensures |Washed(oldAbsPath)| <= |oldAbsPath|
  {
    hide *;
    var subPath, name := PathParse(oldAbsPath);
    ghost var all, stack: seq<seq<byte>> := Components(oldAbsPath), [];
    SubPathIs(oldAbsPath);
    Parsed(oldAbsPath, subPath, name);
    RootFacts(oldAbsPath);
    if name == [] {
      newAbsPath[0] := SLASH;
      newAbsPath[1] := 0;
      CStrIs(newAbsPath[..], [SLASH]);
      return;
    }
    newAbsPath[0] := 0;
    CStrIs(newAbsPath[..], []);
    StrCat(newAbsPath, [SLASH]);
    while name != []
      invariant Clean(stack) && CStr(newAbsPath[..]) == Join(stack)
      invariant Resolve(stack, Pending(name, subPath)) == Resolve([], all)
      invariant |Join(stack)| + Left(name, subPath) + (if stack == [] || name == [] then 0 else 1) <= |oldAbsPath|
      invariant (name != [] ==> IsName(name)) && NoZero(name) && (subPath.Some? ==> SubPath(subPath.value))
      invariant name == [] ==> Pending(name, subPath) == []
      decreases if subPath.Some? then |subPath.value| + 1 else 0, |name|
    {
      PendingStep(stack, name, subPath);
      LeftIs(name, subPath);
      WashName(newAbsPath, name, stack);
      stack := Move(stack, name);
      name := [];
      LeftIs(name, subPath);
      if subPath.Some? {
        var sub := subPath.value;
        SubPathIs(sub);
        subPath, name := PathParse(sub);
        Parsed(sub, subPath, name);
      }
    }
    ResolveNothing(stack);
    WashedIs(oldAbsPath);
  }

  /** What is left of a path after a component: it starts with a slash. */
  ghost predicate SubPath(p: seq<byte>) {
    p != [] && p[0] == SLASH && NoZero(p)
  }

  lemma SubPathIs(p: seq<byte>)
    ensures SubPath(p) <==> p != [] && p[0] == SLASH && NoZero(p)
    ensures p != [] && p[0] == SLASH ==> Slashes(p) >= 1
  {
  }

  /** What `path_parse` leaves to do. */
  lemma Parsed(path: seq<byte>, rest: Option<seq<byte>>, name: seq<byte>)
    requires Components(path) != [] ==> IsName(name)
    requires rest.Some? ==> Components(path) == [name] + Components(rest.value)
    requires rest.None? ==> Components(path) == if name == [] then [] else [name]
    requires Slashes(path) >= 1 && (rest.Some? ==> rest.value != [] && rest.value[0] == SLASH && NoZero(rest.value))
    requires if rest.Some? then |rest.value| + |name| + Slashes(path) == |path| else |name| + Slashes(path) <= |path|
    ensures Pending(name, rest) == Components(path) && Left(name, rest) + 1 <= |path|
    ensures name != [] ==> IsName(name)
    ensures name == [] ==> Pending(name, rest) == [] && rest.None?
    ensures rest.Some? ==> SubPath(rest.value)
  {
    hide Components, Slashes;
  }

  lemma LeftIs(name: seq<byte>, rest: Option<seq<byte>>)
    ensures Left(name, rest) == |name| + if rest.Some? then |rest.value| else 0
    ensures rest.None? && name == [] ==> Pending(name, rest) == []
    ensures rest.Some? && name == [] ==> Pending(name, rest) == Components(rest.value)
  {
    hide Components;
  }

  lemma RootFacts(path: seq<byte>)
    ensures Join([]) == [SLASH] && Clean([]) && NoZero([]) && NoZero([SLASH])
    ensures Components(path) == [] ==> Washed(path) == [SLASH]
  {
  }

  lemma PendingStep(stack: seq<seq<byte>>, name: seq<byte>, rest: Option<seq<byte>>)
    requires IsName(name)
    ensures Resolve(stack, Pending(name, rest)) ==
      Resolve(Move(stack, name), if rest.Some? then Components(rest.value) else [])
  {
    hide Components;
    var tail := if rest.Some? then Components(rest.value) else [];
    assert Pending(name, rest) == [name] + tail;
    assert ([name] + tail)[1..] == tail;
  }

  lemma ResolveNothing(stack: seq<seq<byte>>)
    ensures Resolve(stack, []) == stack
  {
  }

  lemma WashedIs(path: seq<byte>)
    ensures Washed(path) == Join(Resolve([], Components(path)))
  {
  }
}
