/** userprog/fork.c, userprog/wait_exit.c and the pids of thread/thread.c: processes under every interleaving of fork, exit
    and wait. System calls run with interrupts off, so each is one step up to the point where it sleeps. */
module ProcessTree {
  import opened Wrappers
  import opened Lists
  import opened Schedulers

  /** The fields of a PCB that belong to the process tree; `exitStatus` is a signed byte. */
  datatype Proc = Proc(pid: int, parentPid: int, exitStatus: int)

  /** A task is named by a number that is never used again, unlike its pid. `all` is thread_all_list. `inWait` holds the
      tasks asleep in the loop of `sys_wait`. The last two record what has happened: the status each task has passed to
      `sys_exit`, and the pid and the status `sys_wait` has reported for each task it reaped. */
  datatype State = State(cpu: Sched, all: seq<Tid>, procs: map<Tid, Proc>, used: set<int>, inWait: set<Tid>,
    init: Tid, main: Tid, exits: map<Tid, int>, reaps: map<Tid, (int, int)>)

  const MAX_PIDS := 1024

  function StatusOf(s: State, t: Tid): Status {
    if t in s.cpu.status then s.cpu.status[t] else TASK_OVER
  }

  /** Storing an `int32_t` in the signed byte `exit_status`. */
  function Int8(x: int): (r: int)
    ensures -128 <= r < 128 && (x - r) % 256 == 0 && (-128 <= x < 128 ==> r == x)
  {
    (x + 128) % 256 - 128
  }

  // ----- pids -----

  /** The lowest free pid from `p` on. */
  function FreePid(used: set<int>, p: int): int
    requires p <= MAX_PIDS + 1
    decreases MAX_PIDS + 1 - p
  {
    if p > MAX_PIDS || p !in used then p else FreePid(used, p + 1)
  }

  // ----- list_traversal -----

  /** The first task of the list with this pid. */
  function PidToThread(all: seq<Tid>, procs: map<Tid, Proc>, pid: int): (r: Option<Tid>)
    ensures r.Some? ==> r.value in all && r.value in procs && procs[r.value].pid == pid
    ensures r.None? ==> forall t :: t in all && t in procs ==> procs[t].pid != pid
  {
    if all == [] then None
    else if all[0] in procs && procs[all[0]].pid == pid then Some(all[0])
    else PidToThread(all[1..], procs, pid)
  }

  predicate IsChildOf(s: State, t: Tid, ppid: int) {
    t in s.procs && s.procs[t].parentPid == ppid
  }

  predicate IsHangingChildOf(s: State, t: Tid, ppid: int) {
    IsChildOf(s, t, ppid) && StatusOf(s, t) == TASK_HANGING
  }

  /** The first child in the list, or the first hanging one. */
  function FindChild(s: State, all: seq<Tid>, ppid: int, hanging: bool): (r: Option<Tid>)
    ensures r.Some? ==> r.value in all && IsChildOf(s, r.value, ppid) && (hanging ==> IsHangingChildOf(s, r.value, ppid))
    ensures r.None? ==> forall t :: t in all ==> if hanging then !IsHangingChildOf(s, t, ppid) else !IsChildOf(s, t, ppid)
  {
    if all == [] then None
    else if (if hanging then IsHangingChildOf(s, all[0], ppid) else IsChildOf(s, all[0], ppid)) then Some(all[0])
    else FindChild(s, all[1..], ppid, hanging)
  }

  // ----- the system calls -----

  /** `sys_fork` in the running process; `t` is the child's PCB. */
  function ForkStep(s: State, t: Tid): State
    requires s.cpu.running in s.procs
  {
    var parent := s.procs[s.cpu.running];
    var pid := FreePid(s.used, 1);
    s.(cpu := Start(s.cpu, t), all := s.all + [t], used := s.used + {pid},
       procs := s.procs[t := Proc(pid, parent.pid, parent.exitStatus)])
  }

  /** `init_adopt_a_child` over all tasks. */
  function Adopt(procs: map<Tid, Proc>, pid: int): map<Tid, Proc> {
    map t | t in procs :: if procs[t].parentPid == pid then procs[t].(parentPid := 1) else procs[t]
  }

  /** The end of `sys_exit`: a waiting parent is woken, the process hangs. */
  function Part(cpu: Sched, parent: Tid): Outcome<Sched>
    requires cpu.running in cpu.status && cpu.idle in cpu.status && parent in cpu.status
  {
    var woken :- if cpu.status[parent] == TASK_WAITING then Unblock(cpu, parent) else Next(cpu);
    Block(woken, TASK_HANGING)
  }

  /** `sys_exit` in the running process, up to its last sleep. */
  function ExitStep(s: State, status: int): Outcome<State>
    requires s.cpu.running in s.procs && s.cpu.running in s.cpu.status && s.cpu.idle in s.cpu.status
  {
    var me := s.cpu.running;
    var p := s.procs[me].(exitStatus := Int8(status));
    if p.parentPid == -1 then Panic else
      var procs := Adopt(s.procs[me := p], p.pid);
      var parent := PidToThread(s.all, procs, procs[me].parentPid);
      if parent.None? || parent.value !in s.cpu.status then Panic else
        var cpu :- Part(s.cpu, parent.value);
        Next(s.(cpu := cpu, procs := procs, exits := s.exits[me := Int8(status)]))
  }

  /** `thread_exit`, up to its last `schedule`. */
  function ThreadExit(s: State, t: Tid): State
    requires t in s.procs
  {
    s.(cpu := s.cpu.(status := s.cpu.status[t := TASK_OVER], ready := Without(s.cpu.ready, t)),
       all := Without(s.all, t), procs := s.procs - {t}, used := s.used - {s.procs[t].pid})
  }

  /** `thread_exit(child, false)` and the report to the caller. */
  function Reap(s: State, c: Tid): State
    requires c in s.procs
  {
    ThreadExit(s, c).(inWait := s.inWait - {s.cpu.running}, reaps := s.reaps[c := (s.procs[c].pid, s.procs[c].exitStatus)])
  }

  /** `thread_exit(running_thread(), true)`, with which `main` ends. */
  function LeaveStep(s: State): Outcome<State>
    requires s.cpu.running in s.procs && s.cpu.idle in s.cpu.status
  {
    var over := ThreadExit(s, s.cpu.running);
    var cpu :- Schedule(over.cpu);
    Next(over.(cpu := cpu))
  }

  datatype WaitResult = Reaped(child: Tid) | NoChild | Sleeps

  /** One turn of the loop of `sys_wait` in the running process. */
  function WaitTurn(s: State): WaitResult
    requires s.cpu.running in s.procs
  {
    var pid := s.procs[s.cpu.running].pid;
    match FindChild(s, s.all, pid, true)
    case Some(c) => Reaped(c)
    case None => if FindChild(s, s.all, pid, false).None? then NoChild else Sleeps
  }

  function WaitStep(s: State): Outcome<State>
    requires s.cpu.running in s.procs && s.cpu.running in s.cpu.status && s.cpu.idle in s.cpu.status
  {
    match WaitTurn(s)
    case Reaped(c) => Next(Reap(s, c))
    case NoChild => Next(s.(inWait := s.inWait - {s.cpu.running}))
    case Sleeps =>
      var cpu :- Block(s.cpu, TASK_WAITING);
      Next(s.(cpu := cpu, inWait := s.inWait + {s.cpu.running}))
  }

  datatype Action =
    | Fork(t: Tid)        // the running process forks
    | Exit(status: int)   // it exits
    | Wait                // it calls wait, or goes on in its loop after being woken
    | Leave               // main ends
    | Tick                // the timer interrupt
    | Sleep               // the running task blocks on something else
    | Wake(t: Tid)        // and is unblocked

  /** Processes fork, exit and wait, kernel threads do not; init does not exit. A free pid is needed to fork. */
  predicate Enabled(s: State, a: Action) {
    var me := s.cpu.running;
    match a
    case Fork(t) => me in s.procs && me != s.main && me != s.cpu.idle && me !in s.inWait && t !in s.cpu.status
      && FreePid(s.used, 1) <= MAX_PIDS
    case Exit(_) => me in s.procs && me != s.main && me != s.cpu.idle && me !in s.inWait && me != s.init
    case Wait => me in s.procs && me != s.main && me != s.cpu.idle
    case Leave => me == s.main
    case Tick => true
    case Sleep => me !in s.inWait
    case Wake(t) => StatusOf(s, t) == TASK_BLOCKED
  }

  function Step(s: State, a: Action): Outcome<State>
    requires s.cpu.running in s.procs && s.cpu.running in s.cpu.status && s.cpu.idle in s.cpu.status && Enabled(s, a)
  {
    match a
    case Fork(t) => Next(ForkStep(s, t))
    case Exit(status) => ExitStep(s, status)
    case Wait => WaitStep(s)
    case Leave => LeaveStep(s)
    case Tick => var cpu :- Schedule(s.cpu); Next(s.(cpu := cpu))
    case Sleep => var cpu :- Block(s.cpu, TASK_BLOCKED); Next(s.(cpu := cpu))
    case Wake(t) => var cpu :- Unblock(s.cpu, t); Next(s.(cpu := cpu))
  }

  // ----- the invariant -----

  /** The list holds every task that is not over, once. */
  ghost predicate Listed(s: State) {
    && Unique(s.all)
    && (forall t :: t in s.all <==> t in s.procs)
    && (forall t :: t in s.procs <==> StatusOf(s, t) != TASK_OVER)
  }

  ghost predicate Taken(s: State, p: int) {
    exists t :: t in s.procs && s.procs[t].pid == p
  }

  /** Pids differ, and the pool holds exactly those in use. */
  ghost predicate PidsOk(s: State) {
    && (forall t, u :: t in s.procs && u in s.procs && t != u ==> s.procs[t].pid != s.procs[u].pid)
    && (forall t :: t in s.procs ==> 1 <= s.procs[t].pid && s.procs[t].pid in s.used)
    && (forall p {:trigger Taken(s, p)} :: p in s.used ==> Taken(s, p))
  }

  ghost predicate ParentOf(s: State, u: Tid, t: Tid) {
    u in s.procs && t in s.procs && s.procs[u].pid == s.procs[t].parentPid && StatusOf(s, u) != TASK_HANGING && u != t
  }

  /** The parent pid is -1 or names a task that has not exited. */
  ghost predicate HasParent(s: State, t: Tid) {
    t in s.procs && (s.procs[t].parentPid == -1 || exists u :: ParentOf(s, u, t))
  }

  ghost predicate ParentsOk(s: State) {
    forall t {:trigger HasParent(s, t)} :: t in s.procs ==> HasParent(s, t)
  }

  ghost predicate HasChild(s: State, t: Tid) {
    t in s.procs && exists c :: IsChildOf(s, c, s.procs[t].pid)
  }

  ghost predicate HasHanging(s: State, t: Tid) {
    t in s.procs && exists c :: IsHangingChildOf(s, c, s.procs[t].pid)
  }

  /** A task asleep in wait has a child, and unless it is init none of its children has exited. */
  ghost predicate WaiterOk(s: State, t: Tid) {
    t in s.inWait && HasChild(s, t) && (t != s.init ==> !HasHanging(s, t))
  }

  ghost predicate WaitersOk(s: State) {
    forall t {:trigger WaiterOk(s, t)} :: StatusOf(s, t) == TASK_WAITING ==> WaiterOk(s, t)
  }

  /** init, main and idle have no parent, all others have one. init and idle stay; main has no children, and leaves for good. */
  ghost predicate RolesOk(s: State) {
    && s.init in s.procs && s.cpu.idle in s.procs && s.main in s.cpu.status
    && s.init != s.main && s.init != s.cpu.idle && s.main != s.cpu.idle
    && s.procs[s.init].pid == 1
    && (s.main in s.procs ==> s.procs[s.main].pid == 2 && forall t :: t in s.procs ==> s.procs[t].parentPid != 2)
    && (forall t :: t in s.procs ==> (s.procs[t].parentPid == -1 <==> t == s.init || t == s.main || t == s.cpu.idle))
    && (forall t :: StatusOf(s, t) == TASK_HANGING ==> t in s.procs && s.procs[t].parentPid != -1)
    && (forall t :: StatusOf(s, t) == TASK_WAITING ==> t != s.main && t != s.cpu.idle)
  }

  /** Each task that has exited either hangs with its status or has been reaped, once, with that status; main does neither. */
  ghost predicate HistoryOk(s: State) {
    && (forall t :: t in s.exits <==> t in s.reaps || StatusOf(s, t) == TASK_HANGING)
    && (forall t :: t in s.reaps ==> StatusOf(s, t) == TASK_OVER && t in s.cpu.status && s.reaps[t].1 == s.exits[t])
    && (forall t :: StatusOf(s, t) == TASK_HANGING ==> t in s.procs && s.procs[t].exitStatus == s.exits[t])
    && (forall t :: t in s.cpu.status && StatusOf(s, t) == TASK_OVER ==> t in s.reaps || t == s.main)
    && s.main !in s.reaps && StatusOf(s, s.main) != TASK_HANGING
  }

  ghost predicate Inv(s: State) {
    SchedOk(s.cpu) && Listed(s) && PidsOk(s) && ParentsOk(s) && WaitersOk(s) && RolesOk(s) && HistoryOk(s)
  }

  // ----- every step keeps it -----

  lemma RunningKnown(s: State)
    requires Inv(s)
    ensures s.cpu.running in s.procs && s.cpu.running in s.cpu.status && s.cpu.idle in s.cpu.status
    ensures StatusOf(s, s.cpu.running) == TASK_RUNNING
  {
    assert StatusOf(s, s.cpu.running) == TASK_RUNNING;
  }

  lemma {:induction false} FreePidIsLowest(used: set<int>, p: int)
    requires p <= MAX_PIDS + 1
    ensures var r := FreePid(used, p); p <= r <= MAX_PIDS + 1 && (r <= MAX_PIDS ==> r !in used)
    ensures forall q :: p <= q < FreePid(used, p) ==> q in used
    decreases MAX_PIDS + 1 - p
  {
    if p <= MAX_PIDS && p in used {
      FreePidIsLowest(used, p + 1);
    }
  }

  predicate Fateful(st: Status) {
    st == TASK_WAITING || st == TASK_HANGING || st == TASK_OVER
  }

  /** A change of hands in which waiting, hanging and ended tasks stay as they are. */
  ghost predicate SameFate(s: State, s1: State) {
    && s1 == s.(cpu := s1.cpu) && s1.cpu.idle == s.cpu.idle && s1.cpu.status.Keys == s.cpu.status.Keys
    && (forall t :: Fateful(StatusOf(s, t)) || Fateful(StatusOf(s1, t)) ==> StatusOf(s1, t) == StatusOf(s, t))
  }

  /** The parent of `t` is still there. */
  lemma KinKept(s: State, s1: State, t: Tid)
    requires t in s.procs && t in s1.procs && s1.procs[t].pid == s.procs[t].pid && s1.procs[t].parentPid == s.procs[t].parentPid
    requires forall u :: u in s.procs && u in s1.procs ==> s1.procs[u].pid == s.procs[u].pid
    requires HasParent(s, t) && forall u :: ParentOf(s, u, t) ==> u in s1.procs && StatusOf(s1, u) != TASK_HANGING
    ensures HasParent(s1, t)
  {
    if s.procs[t].parentPid != -1 {
      var u :| ParentOf(s, u, t);
      assert ParentOf(s1, u, t);
    }
  }

  lemma SwitchStep(s: State, s1: State)
    requires Inv(s) && SchedOk(s1.cpu) && SameFate(s, s1)
    ensures Inv(s1)
  {
    hide SchedOk, Unique, ParentsOk, WaitersOk, PidsOk;
    SamePids(s, s1);
    assert forall t :: StatusOf(s1, t) == TASK_HANGING <==> StatusOf(s, t) == TASK_HANGING;
    KinStays(s, s1);
    SwitchRest(s, s1);
  }

  lemma SwitchRest(s: State, s1: State)
    requires SameFate(s, s1) && Listed(s) && RolesOk(s) && HistoryOk(s)
    ensures Listed(s1) && RolesOk(s1) && HistoryOk(s1)
  {
    hide Unique;
  }

  lemma SamePids(s: State, s1: State)
    requires PidsOk(s) && s1.procs == s.procs && s1.used == s.used
    ensures PidsOk(s1)
  {
    assert forall p :: Taken(s1, p) == Taken(s, p);
  }

  /** The same processes, the same ones hanging, no new sleepers in wait. */
  lemma KinStays(s: State, s1: State)
    requires ParentsOk(s) && WaitersOk(s) && s1.procs == s.procs && s1.init == s.init
    requires forall t :: StatusOf(s1, t) == TASK_HANGING <==> StatusOf(s, t) == TASK_HANGING
    requires forall t :: StatusOf(s1, t) == TASK_WAITING ==> StatusOf(s, t) == TASK_WAITING
    requires forall t :: StatusOf(s1, t) == TASK_WAITING && t in s.inWait ==> t in s1.inWait
    ensures ParentsOk(s1) && WaitersOk(s1)
  {
    hide StatusOf;
    forall t | t in s1.procs
      ensures HasParent(s1, t)
    {
      assert HasParent(s, t);
      KinKept(s, s1, t);
    }
    forall t | StatusOf(s1, t) == TASK_WAITING
      ensures WaiterOk(s1, t)
    {
      assert WaiterOk(s, t);
      SameChildren(s, s1, t);
    }
  }

  lemma SameChildren(s: State, s1: State, t: Tid)
    requires s1.procs == s.procs && forall u :: StatusOf(s1, u) == TASK_HANGING <==> StatusOf(s, u) == TASK_HANGING
    ensures HasChild(s1, t) == HasChild(s, t) && HasHanging(s1, t) == HasHanging(s, t)
  {
    hide StatusOf;
    if t in s.procs {
      assert forall c :: IsChildOf(s1, c, s.procs[t].pid) == IsChildOf(s, c, s.procs[t].pid);
      assert forall c :: IsHangingChildOf(s1, c, s.procs[t].pid) == IsHangingChildOf(s, c, s.procs[t].pid);
    }
  }

  lemma TickStep(s: State, s1: State)
    requires Inv(s) && s.cpu.running in s.cpu.status && s.cpu.idle in s.cpu.status
    requires (Schedule(s.cpu).Next? ==> s1 == s.(cpu := Schedule(s.cpu).state))
    ensures Schedule(s.cpu).Next? && Inv(s1)
  {
    hide Inv, Schedule, Yield, SchedOk;
    IdleAwake(s);
    TickOk(s.cpu);
    IdleStays(s1.cpu);
    SwitchStep(s, s1);
  }

  /** Idle neither waits nor hangs. */
  lemma IdleAwake(s: State)
    requires Inv(s)
    ensures SchedOk(s.cpu) && !Fateful(StatusOf(s, s.cpu.idle)) && StatusOf(s, s.cpu.running) == TASK_RUNNING
    ensures s.cpu.running in s.cpu.status && s.cpu.idle in s.cpu.status
  {
  }

  lemma IdleStays(cpu: Sched)
    requires SchedOk(cpu)
    ensures cpu.idle in cpu.status && !Fateful(cpu.status[cpu.idle])
  {
  }

  lemma SleepStep(s: State, s1: State)
    requires Inv(s) && s.cpu.running in s.cpu.status && s.cpu.idle in s.cpu.status
    requires Block(s.cpu, TASK_BLOCKED).Next? ==> s1 == s.(cpu := Block(s.cpu, TASK_BLOCKED).state)
    ensures Block(s.cpu, TASK_BLOCKED).Next? && Inv(s1)
  {
    hide Inv, Block, SchedOk;
    IdleAwake(s);
    BlockOk(s.cpu, TASK_BLOCKED);
    IdleStays(s1.cpu);
    SwitchStep(s, s1);
  }

  lemma WakeStep(s: State, t: Tid, s1: State)
    requires Inv(s) && t in s.cpu.status && StatusOf(s, t) == TASK_BLOCKED
    requires Unblock(s.cpu, t).Next? ==> s1 == s.(cpu := Unblock(s.cpu, t).state)
    ensures Unblock(s.cpu, t).Next? && Inv(s1)
  {
    hide Inv, SchedOk;
    IdleAwake(s);
    UnblockOk(s.cpu, t);
    SwitchStep(s, s1);
  }

  // ----- fork -----

  lemma AppendUnique(q: seq<Tid>, t: Tid)
    requires Unique(q) && t !in q
    ensures Unique(q + [t]) && forall u :: u in q + [t] <==> u in q || u == t
  {
    assert forall i :: 0 <= i < |q| ==> (q + [t])[i] == q[i];
    assert (q + [t])[|q|] == t;
  }

  /** A task more, with a pid that was free. */
  lemma ForkPids(s: State, t: Tid, pid: int, s1: State)
    requires PidsOk(s) && t !in s.procs && t in s1.procs && s1.procs[t].pid == pid && s1.procs == s.procs[t := s1.procs[t]]
    requires pid >= 1 && pid !in s.used && s1.used == s.used + {pid}
    ensures PidsOk(s1)
  {
    forall p | p in s1.used
      ensures Taken(s1, p)
    {
      if p == pid {
        assert t in s1.procs && s1.procs[t].pid == p;
      } else {
        assert Taken(s, p);
        var u :| u in s.procs && s.procs[u].pid == p;
        assert u in s1.procs && s1.procs[u].pid == p;
      }
    }
  }

  lemma ForkKin(s: State, t: Tid, s1: State)
    requires ParentsOk(s) && WaitersOk(s) && Listed(s) && t !in s.procs && s.cpu.running in s.procs && s1 == ForkStep(s, t)
    requires StatusOf(s, s.cpu.running) == TASK_RUNNING
    requires forall u :: StatusOf(s1, u) == if u == t then TASK_READY else StatusOf(s, u)
    ensures ParentsOk(s1) && WaitersOk(s1)
  {
    hide Unique, FreePid;
    assert forall u :: u in s.procs ==> u in s1.procs && s1.procs[u] == s.procs[u];
    forall c | c in s1.procs
      ensures HasParent(s1, c)
    {
      if c == t {
        assert ParentOf(s1, s.cpu.running, t);
      } else {
        assert HasParent(s, c);
        KinKept(s, s1, c);
      }
    }
    forall u | StatusOf(s1, u) == TASK_WAITING
      ensures WaiterOk(s1, u)
    {
      assert WaiterOk(s, u);
      assert forall c :: IsChildOf(s, c, s.procs[u].pid) ==> IsChildOf(s1, c, s.procs[u].pid);
      assert forall c :: IsHangingChildOf(s1, c, s.procs[u].pid) ==> IsHangingChildOf(s, c, s.procs[u].pid);
    }
  }

  /** `t` is a new task, ready, and all others are as before. */
  ghost predicate Joined(s: State, t: Tid, s1: State) {
    && t !in s.cpu.status && t !in s.procs && t in s1.procs && s1.procs == s.procs[t := s1.procs[t]]
    && s1 == s.(cpu := s1.cpu, all := s.all + [t], used := s1.used, procs := s1.procs)
    && s1.cpu.idle == s.cpu.idle && s1.cpu.status == s.cpu.status[t := TASK_READY]
  }

  lemma JoinedListed(s: State, t: Tid, s1: State)
    requires Listed(s) && Joined(s, t, s1)
    ensures Listed(s1)
  {
    AppendUnique(s.all, t);
    hide Unique;
  }

  lemma JoinedRoles(s: State, t: Tid, s1: State)
    requires RolesOk(s) && Joined(s, t, s1) && s1.procs[t].parentPid != -1
    requires s.main in s.procs ==> s1.procs[t].parentPid != 2
    ensures RolesOk(s1)
  {
  }

  lemma JoinedHistory(s: State, t: Tid, s1: State)
    requires HistoryOk(s) && Joined(s, t, s1)
    ensures HistoryOk(s1)
  {
    assert StatusOf(s, t) == TASK_OVER;
  }

  lemma NewTask(s: State, t: Tid)
    requires Inv(s) && t !in s.cpu.status && s.cpu.running in s.procs
    ensures t !in s.procs && s.procs[s.cpu.running].pid >= 1
    ensures s.main in s.procs && s.cpu.running != s.main ==> s.procs[s.cpu.running].pid != 2
  {
    assert StatusOf(s, t) == TASK_OVER;
  }

  lemma ForkOk(s: State, t: Tid)
    requires s.cpu.running in s.procs && Inv(s) && Enabled(s, Fork(t))
    ensures Inv(ForkStep(s, t)) && FreePid(s.used, 1) !in s.used
    ensures forall q :: 1 <= q < FreePid(s.used, 1) ==> q in s.used
  {
    hide SchedOk, ParentsOk, WaitersOk, PidsOk, RolesOk, HistoryOk, Listed, FreePid;
    var s1 := ForkStep(s, t);
    RunningKnown(s);
    StartOk(s.cpu, t);
    FreePidIsLowest(s.used, 1);
    NewTask(s, t);
    ForkJoins(s, t);
    JoinedListed(s, t, s1);
    JoinedRoles(s, t, s1);
    JoinedHistory(s, t, s1);
    ForkPids(s, t, FreePid(s.used, 1), s1);
    ForkKin(s, t, s1);
  }

  /** The child has the forking process for its parent and is last in the ready list; nobody else changes. */
  lemma ForkMakesChild(s: State, t: Tid, u: Tid)
    requires s.cpu.running in s.procs && Inv(s) && Enabled(s, Fork(t))
    ensures var s1 := ForkStep(s, t);
      && IsChildOf(s1, t, s.procs[s.cpu.running].pid) && HasChild(s1, s.cpu.running)
      && s1.cpu.ready == s.cpu.ready + [t] && StatusOf(s1, t) == TASK_READY
      && (u != t ==> StatusOf(s1, u) == StatusOf(s, u) && (u in s1.procs <==> u in s.procs))
      && (u in s.procs ==> s1.procs[u] == s.procs[u] && s1.procs[t].pid != s.procs[u].pid)
  {
    hide SchedOk, ParentsOk, WaitersOk, RolesOk, HistoryOk, Listed, FreePid;
    NewTask(s, t);
    FreePidIsLowest(s.used, 1);
    RunningKnown(s);
    assert IsChildOf(ForkStep(s, t), t, s.procs[s.cpu.running].pid);
  }

  lemma ForkJoins(s: State, t: Tid)
    requires s.cpu.running in s.procs && t !in s.cpu.status && t !in s.procs
    ensures Joined(s, t, ForkStep(s, t))
    ensures forall u :: StatusOf(ForkStep(s, t), u) == if u == t then TASK_READY else StatusOf(s, u)
  {
    hide FreePid;
  }

  // ----- exit -----

  /** What adoption does: the children of `pid` become init's, nothing else changes. */
  lemma Adopted(procs: map<Tid, Proc>, pid: int)
    ensures Adopt(procs, pid).Keys == procs.Keys
    ensures forall t :: t in procs ==>
      Adopt(procs, pid)[t] == procs[t].(parentPid := if procs[t].parentPid == pid then 1 else procs[t].parentPid)
  {
  }

  /** The processes after `sys_exit(status)` of `me`. */
  function ExitProcs(s: State, me: Tid, status: int): map<Tid, Proc>
    requires me in s.procs
  {
    Adopt(s.procs[me := s.procs[me].(exitStatus := Int8(status))], s.procs[me].pid)
  }

  lemma ExitProcsAre(s: State, me: Tid, status: int, t: Tid)
    requires me in s.procs
    ensures t in ExitProcs(s, me, status) <==> t in s.procs
    ensures t in s.procs ==> ExitProcs(s, me, status)[t] == Proc(s.procs[t].pid,
      if s.procs[t].parentPid == s.procs[me].pid then 1 else s.procs[t].parentPid,
      if t == me then Int8(status) else s.procs[t].exitStatus)
  {
    Adopted(s.procs[me := s.procs[me].(exitStatus := Int8(status))], s.procs[me].pid);
  }

  /** The parent of a process that exits is found, and is not itself about to be adopted. */
  lemma ParentFound(s: State, me: Tid, status: int)
    requires Inv(s) && me in s.procs && s.procs[me].parentPid != -1
    ensures me in ExitProcs(s, me, status) && ExitProcs(s, me, status)[me].parentPid == s.procs[me].parentPid
    ensures var u := PidToThread(s.all, ExitProcs(s, me, status), s.procs[me].parentPid);
      u.Some? && ParentOf(s, u.value, me) && u.value in s.cpu.status
  {
    ExitProcsAre(s, me, status, me);
    assert HasParent(s, me);
    var p :| ParentOf(s, p, me);
    assert p != me && s.procs[p].pid != s.procs[me].pid;
    ExitProcsAre(s, me, status, p);
    var u := PidToThread(s.all, ExitProcs(s, me, status), s.procs[me].parentPid);
    if u.Some? {
      ExitProcsAre(s, me, status, u.value);
      assert u.value == p;
    }
    assert StatusOf(s, p) != TASK_OVER;
  }

  /** `me` hangs, its waiting parent `u` does not wait any more, and its children are init's. */
  ghost predicate Exited(s: State, me: Tid, u: Tid, status: int, s1: State)
    requires me in s.procs
  {
    && s1 == s.(cpu := s1.cpu, procs := ExitProcs(s, me, status), exits := s.exits[me := Int8(status)])
    && s1.cpu.idle == s.cpu.idle && s1.cpu.status.Keys == s.cpu.status.Keys
    && StatusOf(s1, me) == TASK_HANGING
    && (StatusOf(s, u) == TASK_WAITING ==> !Fateful(StatusOf(s1, u)))
    && (forall t ::
      t != me && !(t == u && StatusOf(s, u) == TASK_WAITING) && (Fateful(StatusOf(s, t)) || Fateful(StatusOf(s1, t))) ==>
      StatusOf(s1, t) == StatusOf(s, t))
  }

  /** The status a task ends up with, pid and parent. */
  lemma ExitedProc(s: State, me: Tid, u: Tid, status: int, s1: State, t: Tid)
    requires me in s.procs && Exited(s, me, u, status, s1)
    ensures t in s1.procs <==> t in s.procs
    ensures t in s.procs ==> s1.procs[t] == Proc(s.procs[t].pid,
      if s.procs[t].parentPid == s.procs[me].pid then 1 else s.procs[t].parentPid,
      if t == me then Int8(status) else s.procs[t].exitStatus)
  {
    ExitProcsAre(s, me, status, t);
  }

  lemma PidsDiffer(s: State, t: Tid, u: Tid)
    requires PidsOk(s) && t in s.procs && u in s.procs
    ensures t != u ==> s.procs[t].pid != s.procs[u].pid
  {
  }

  lemma PidKnown(s: State, t: Tid)
    requires PidsOk(s) && t in s.procs
    ensures s.procs[t].pid >= 1
  {
  }

  lemma ExitedParents(s: State, me: Tid, u: Tid, status: int, s1: State)
    requires me in s.procs && Exited(s, me, u, status, s1) && ParentOf(s, u, me) && StatusOf(s, me) == TASK_RUNNING
    requires ParentsOk(s) && RolesOk(s) && PidsOk(s) && me != s.init
    ensures ParentsOk(s1)
  {
    hide PidsOk;
    PidsDiffer(s, me, s.init);
    ExitedProc(s, me, u, status, s1, s.init);
    assert StatusOf(s, s.init) != TASK_HANGING;
    forall t | t in s1.procs
      ensures HasParent(s1, t)
    {
      ExitedProc(s, me, u, status, s1, t);
      assert HasParent(s, t);
      if s.procs[t].parentPid == s.procs[me].pid {
        PidKnown(s, me);
        assert ParentOf(s1, s.init, t);
      } else if s.procs[t].parentPid != -1 {
        var w :| ParentOf(s, w, t);
        ExitedProc(s, me, u, status, s1, w);
        assert ParentOf(s1, w, t);
      }
    }
  }

  lemma ExitedWaiters(s: State, me: Tid, u: Tid, status: int, s1: State)
    requires me in s.procs && Exited(s, me, u, status, s1) && ParentOf(s, u, me) && StatusOf(s, me) == TASK_RUNNING
    requires WaitersOk(s) && PidsOk(s) && me != s.init && s.init in s.procs && s.procs[s.init].pid == 1
    ensures WaitersOk(s1)
  {
    hide PidsOk;
    forall t | StatusOf(s1, t) == TASK_WAITING
      ensures WaiterOk(s1, t)
    {
      assert WaiterOk(s, t);
      ExitedProc(s, me, u, status, s1, t);
      PidsDiffer(s, t, me);
      var c :| IsChildOf(s, c, s.procs[t].pid);
      ExitedProc(s, me, u, status, s1, c);
      assert IsChildOf(s1, c, s1.procs[t].pid);
      if t != s.init {
        forall d
          ensures !IsHangingChildOf(s1, d, s1.procs[t].pid)
        {
          ExitedProc(s, me, u, status, s1, d);
          PidsDiffer(s, t, s.init);
          PidsDiffer(s, t, u);
          assert !IsHangingChildOf(s, d, s.procs[t].pid);
        }
      }
    }
  }

  lemma ExitedRest(s: State, me: Tid, u: Tid, status: int, s1: State)
    requires me in s.procs && Exited(s, me, u, status, s1) && ParentOf(s, u, me) && StatusOf(s, me) == TASK_RUNNING
    requires Listed(s) && PidsOk(s) && RolesOk(s) && HistoryOk(s)
    ensures Listed(s1) && PidsOk(s1)
  {
    hide Unique, RolesOk, HistoryOk, Taken;
    forall t
      ensures t in s1.procs <==> t in s.procs
      ensures t in s.procs ==> s1.procs[t].pid == s.procs[t].pid
    {
      ExitedProc(s, me, u, status, s1, t);
    }
    forall p | p in s1.used
      ensures Taken(s1, p)
    {
      assert Taken(s, p);
      TakenStill(s, s1, p);
    }
  }

  lemma TakenStill(s: State, s1: State, p: int)
    requires Taken(s, p) && forall t :: t in s.procs ==> t in s1.procs && s1.procs[t].pid == s.procs[t].pid
    ensures Taken(s1, p)
  {
    var t :| t in s.procs && s.procs[t].pid == p;
    assert t in s1.procs && s1.procs[t].pid == p;
  }

  lemma ExitedRoles(s: State, me: Tid, u: Tid, status: int, s1: State)
    requires me in s.procs && Exited(s, me, u, status, s1) && s.procs[me].parentPid != -1
    requires RolesOk(s) && s.procs[me].pid >= 1
    ensures RolesOk(s1)
  {
    forall t
      ensures t in s1.procs <==> t in s.procs
      ensures t in s.procs ==> s1.procs[t].pid == s.procs[t].pid
      ensures t in s.procs ==> (s1.procs[t].parentPid == -1 <==> s.procs[t].parentPid == -1)
    {
      ExitedProc(s, me, u, status, s1, t);
    }
  }

  lemma ExitedHistory(s: State, me: Tid, u: Tid, status: int, s1: State)
    requires me in s.procs && Exited(s, me, u, status, s1) && StatusOf(s, me) == TASK_RUNNING && me != s.main
    requires HistoryOk(s)
    ensures HistoryOk(s1)
  {
    forall t
      ensures t in s1.procs <==> t in s.procs
      ensures t in s.procs ==> s1.procs[t].exitStatus == if t == me then Int8(status) else s.procs[t].exitStatus
    {
      ExitedProc(s, me, u, status, s1, t);
    }
    assert me !in s.reaps;
  }

  /** `me` hangs, the parent does not wait any more, all others wait, hang or are over as before. */
  ghost predicate Parted(c: Sched, me: Tid, u: Tid, c1: Sched)
    requires u in c.status
  {
    && c1.idle == c.idle && c1.status.Keys == c.status.Keys && me in c1.status && c1.status[me] == TASK_HANGING
    && (c.status[u] == TASK_WAITING ==> !Fateful(c1.status[u]))
    && forall t :: t in c.status && t != me && !(t == u && c.status[u] == TASK_WAITING) ==>
      SameStatusFate(c.status[t], c1.status[t])
  }

  predicate SameStatusFate(a: Status, b: Status) {
    Fateful(a) || Fateful(b) ==> a == b
  }

  lemma BlockParts(c: Sched, me: Tid, u: Tid)
    requires SchedOk(c) && me == c.running && me != c.idle && u in c.status && u != me
    requires c.status[u] != TASK_WAITING && me in c.status && c.idle in c.status && !Fateful(c.status[c.idle])
    ensures Block(c, TASK_HANGING).Next?
    ensures SchedOk(Block(c, TASK_HANGING).state) && Parted(c, me, u, Block(c, TASK_HANGING).state)
  {
    hide SchedOk, Block;
    BlockOk(c, TASK_HANGING);
    IdleStays(Block(c, TASK_HANGING).state);
  }

  /** The parent is woken if it waits, and the process hands the processor over. */
  lemma PartOk(c: Sched, me: Tid, u: Tid)
    requires SchedOk(c) && me == c.running && me != c.idle && u in c.status && u != me
    requires me in c.status && c.idle in c.status && !Fateful(c.status[c.idle])
    ensures Part(c, u).Next? && SchedOk(Part(c, u).state) && Parted(c, me, u, Part(c, u).state)
  {
    hide SchedOk, Block;
    if c.status[u] == TASK_WAITING {
      UnblockOk(c, u);
      BlockParts(Unblock(c, u).state, me, u);
    } else {
      BlockParts(c, me, u);
    }
  }

  lemma ExitOk(s: State, status: int)
    requires s.cpu.running in s.procs && s.cpu.running in s.cpu.status && s.cpu.idle in s.cpu.status
    requires Inv(s) && Enabled(s, Exit(status))
    ensures ExitStep(s, status).Next? && Inv(ExitStep(s, status).state)
  {
    var me := s.cpu.running;
    hide SchedOk, Part, Parted, PidToThread, ExitProcs, ParentsOk, WaitersOk, PidsOk, RolesOk, HistoryOk, Listed, ParentOf,
      Fateful, Adopt;
    RunningKnown(s);
    IdleAwake(s);
    ExitFacts(s);
    ParentFound(s, me, status);
    var u := PidToThread(s.all, ExitProcs(s, me, status), s.procs[me].parentPid).value;
    ParentApart(s, u, me);
    PartOk(s.cpu, me, u);
    ExitStepIs(s, status, u);
    var s1 := ExitStep(s, status).state;
    PartedExited(s, me, u, status, s1);
    ExitedParents(s, me, u, status, s1);
    ExitedWaiters(s, me, u, status, s1);
    ExitedRest(s, me, u, status, s1);
    ExitedRoles(s, me, u, status, s1);
    ExitedHistory(s, me, u, status, s1);
  }

  /** A process that exits hangs with its status, leaves its children to init, and its parent does not wait any more. */
  lemma ExitHandsOver(s: State, status: int, t: Tid)
    requires s.cpu.running in s.procs && s.cpu.running in s.cpu.status && s.cpu.idle in s.cpu.status
    requires Inv(s) && Enabled(s, Exit(status)) && ExitStep(s, status).Next?
    ensures var me, s1 := s.cpu.running, ExitStep(s, status).state;
      && StatusOf(s1, me) == TASK_HANGING && me in s1.procs && s1.procs[me].exitStatus == Int8(status)
      && (IsChildOf(s, t, s.procs[me].pid) ==> IsChildOf(s1, t, 1)) && !IsChildOf(s1, t, s.procs[me].pid)
      && (ParentOf(s, t, me) && StatusOf(s, t) == TASK_WAITING ==> s1.cpu.running == t && StatusOf(s1, t) == TASK_RUNNING)
      && (t != me && t in s.procs && !IsChildOf(s, t, s.procs[me].pid) ==> t in s1.procs && s1.procs[t] == s.procs[t])
      && (t != me && !(ParentOf(s, t, me) && StatusOf(s, t) == TASK_WAITING) && Fateful(StatusOf(s, t)) ==>
        StatusOf(s1, t) == StatusOf(s, t))
      && s1.all == s.all && s1.used == s.used
  {
    var me := s.cpu.running;
    hide SchedOk, Part, PidToThread, ExitProcs, ParentsOk, WaitersOk, RolesOk, HistoryOk, Listed, Adopt;
    RunningKnown(s);
    IdleAwake(s);
    ExitFacts(s);
    ParentFound(s, me, status);
    var u := PidToThread(s.all, ExitProcs(s, me, status), s.procs[me].parentPid).value;
    ParentApart(s, u, me);
    PartOk(s.cpu, me, u);
    ExitStepIs(s, status, u);
    ExitProcsAre(s, me, status, t);
    ExitProcsAre(s, me, status, me);
    if StatusOf(s, u) == TASK_WAITING {
      PartWakes(s.cpu, me, u);
    }
    if ParentOf(s, t, me) {
      OneParent(s, t, u, me);
    }
  }

  /** The parent that was woken takes over. */
  lemma PartWakes(c: Sched, me: Tid, u: Tid)
    requires SchedOk(c) && me == c.running && me != c.idle && u in c.status && u != me && c.idle in c.status && me in c.status
    requires Part(c, u).Next? && c.status[u] == TASK_WAITING
    ensures Part(c, u).state.running == u && u in Part(c, u).state.status && Part(c, u).state.status[u] == TASK_RUNNING
  {
  }

  lemma OneParent(s: State, t: Tid, u: Tid, me: Tid)
    requires Inv(s) && ParentOf(s, t, me) && ParentOf(s, u, me)
    ensures t == u
  {
    hide SchedOk, ParentsOk, WaitersOk, RolesOk, HistoryOk, Listed;
  }

  lemma ParentApart(s: State, u: Tid, t: Tid)
    requires ParentOf(s, u, t)
    ensures u != t
  {
  }

  lemma ExitFacts(s: State)
    requires Inv(s) && s.cpu.running in s.procs
    ensures s.init in s.procs && s.procs[s.init].pid == 1 && s.procs[s.cpu.running].pid >= 1
    ensures s.cpu.running !in {s.init, s.main, s.cpu.idle} ==> s.procs[s.cpu.running].parentPid != -1
  {
  }

  lemma ExitStepIs(s: State, status: int, u: Tid)
    requires s.cpu.running in s.procs && s.cpu.running in s.cpu.status && s.cpu.idle in s.cpu.status && u in s.cpu.status
    requires var me := s.cpu.running;
      && s.procs[me].parentPid != -1 && me in ExitProcs(s, me, status) && Part(s.cpu, u).Next?
      && ExitProcs(s, me, status)[me].parentPid == s.procs[me].parentPid
      && PidToThread(s.all, ExitProcs(s, me, status), s.procs[me].parentPid) == Some(u)
    ensures ExitStep(s, status) == Next(s.(cpu := Part(s.cpu, u).state, procs := ExitProcs(s, s.cpu.running, status),
      exits := s.exits[s.cpu.running := Int8(status)]))
  {
    hide Part, PidToThread, Adopt, Int8;
  }

  lemma PartedExited(s: State, me: Tid, u: Tid, status: int, s1: State)
    requires me in s.procs && u in s.cpu.status && Parted(s.cpu, me, u, s1.cpu)
    requires s1 == s.(cpu := s1.cpu, procs := ExitProcs(s, me, status), exits := s.exits[me := Int8(status)])
    ensures Exited(s, me, u, status, s1)
  {
    hide ExitProcs;
    forall t
      ensures t != me && !(t == u && StatusOf(s, u) == TASK_WAITING) ==> SameStatusFate(StatusOf(s, t), StatusOf(s1, t))
    {
    }
  }

  // ----- wait -----

  lemma ReapSched(c: Sched, t: Tid)
    requires SchedOk(c) && t in c.status && c.status[t] == TASK_HANGING && t != c.idle
    ensures SchedOk(c.(status := c.status[t := TASK_OVER], ready := Without(c.ready, t)))
  {
  }

  lemma ReapListed(s: State, c: Tid)
    requires Listed(s) && c in s.procs && c in s.cpu.status
    ensures Listed(Reap(s, c))
  {
    hide Unique;
  }

  lemma ReapPids(s: State, c: Tid)
    requires PidsOk(s) && c in s.procs
    ensures PidsOk(Reap(s, c))
  {
    var s1 := Reap(s, c);
    forall p | p in s1.used
      ensures Taken(s1, p)
    {
      assert Taken(s, p);
      var t :| t in s.procs && s.procs[t].pid == p;
      assert t in s1.procs && s1.procs[t].pid == p;
    }
  }

  lemma ReapKin(s: State, c: Tid)
    requires ParentsOk(s) && WaitersOk(s) && PidsOk(s) && Listed(s) && s.cpu.running in s.procs
    requires IsHangingChildOf(s, c, s.procs[s.cpu.running].pid) && StatusOf(s, s.cpu.running) == TASK_RUNNING
    ensures ParentsOk(Reap(s, c)) && WaitersOk(Reap(s, c))
  {
    hide PidsOk, Unique;
    var s1 := Reap(s, c);
    assert forall t :: StatusOf(s1, t) == if t == c then TASK_OVER else StatusOf(s, t);
    forall t | t in s1.procs
      ensures HasParent(s1, t)
    {
      assert HasParent(s, t);
      KinKept(s, s1, t);
    }
    forall t | StatusOf(s1, t) == TASK_WAITING
      ensures WaiterOk(s1, t)
    {
      assert WaiterOk(s, t);
      PidsDiffer(s, t, s.cpu.running);
      var d :| IsChildOf(s, d, s.procs[t].pid);
      assert IsChildOf(s1, d, s1.procs[t].pid);
      assert forall e :: IsHangingChildOf(s1, e, s1.procs[t].pid) ==> IsHangingChildOf(s, e, s.procs[t].pid);
    }
  }

  lemma ReapRoles(s: State, c: Tid)
    requires RolesOk(s) && c in s.procs && s.procs[c].parentPid != -1 && StatusOf(s, c) == TASK_HANGING
    ensures RolesOk(Reap(s, c))
  {
    var s1 := Reap(s, c);
    assert forall t :: StatusOf(s1, t) == if t == c then TASK_OVER else StatusOf(s, t);
  }

  lemma ReapHistory(s: State, c: Tid)
    requires HistoryOk(s) && c in s.procs && StatusOf(s, c) == TASK_HANGING
    ensures HistoryOk(Reap(s, c)) && c in s.exits && c !in s.reaps && s.procs[c].exitStatus == s.exits[c]
  {
    var s1 := Reap(s, c);
    assert forall t :: StatusOf(s1, t) == if t == c then TASK_OVER else StatusOf(s, t);
  }

  /** The task stands at place `i` of the list, and no hanging child of this parent before it. */
  ghost predicate FirstHanging(s: State, c: Tid, ppid: int, i: nat) {
    i < |s.all| && s.all[i] == c && forall j: nat :: j < i ==> !IsHangingChildOf(s, s.all[j], ppid)
  }

  lemma {:induction false} FoundFirst(s: State, all: seq<Tid>, ppid: int) returns (i: nat)
    requires FindChild(s, all, ppid, true).Some?
    ensures i < |all| && all[i] == FindChild(s, all, ppid, true).value
    ensures forall j: nat :: j < i ==> !IsHangingChildOf(s, all[j], ppid)
  {
    if IsHangingChildOf(s, all[0], ppid) {
      i := 0;
    } else {
      var k := FoundFirst(s, all[1..], ppid);
      i := k + 1;
      forall j: nat | j < i
        ensures !IsHangingChildOf(s, all[j], ppid)
      {
        if j > 0 {
          assert all[j] == all[1..][j - 1];
        }
      }
    }
  }

  /** What the turn of `sys_wait` finds is what there is. */
  lemma WaitTurnFacts(s: State)
    requires Listed(s) && s.cpu.running in s.procs
    ensures var pid := s.procs[s.cpu.running].pid;
      match WaitTurn(s)
      case Reaped(c) => IsHangingChildOf(s, c, pid) && exists i: nat :: FirstHanging(s, c, pid, i)
      case NoChild => !HasChild(s, s.cpu.running)
      case Sleeps => HasChild(s, s.cpu.running) && !HasHanging(s, s.cpu.running)
  {
    hide Unique;
    var pid := s.procs[s.cpu.running].pid;
    var h, c := FindChild(s, s.all, pid, true), FindChild(s, s.all, pid, false);
    if h.Some? {
      var i := FoundFirst(s, s.all, pid);
      assert FirstHanging(s, h.value, pid, i);
    }
    assert forall t :: IsChildOf(s, t, pid) ==> t in s.all;
    if h.None? && c.Some? {
      assert IsChildOf(s, c.value, pid);
    }
  }

  lemma ReapOk(s: State, c: Tid)
    requires Inv(s) && s.cpu.running in s.procs && IsHangingChildOf(s, c, s.procs[s.cpu.running].pid)
    ensures Inv(Reap(s, c)) && c in s.exits && c !in s.reaps && s.procs[c].exitStatus == s.exits[c]
  {
    hide SchedOk, ParentsOk, WaitersOk, PidsOk, RolesOk, HistoryOk, Listed, Without;
    RunningKnown(s);
    IdleAwake(s);
    HangingFacts(s, c);
    ReapSched(s.cpu, c);
    ReapListed(s, c);
    ReapPids(s, c);
    ReapKin(s, c);
    ReapRoles(s, c);
    ReapHistory(s, c);
  }

  lemma HangingFacts(s: State, c: Tid)
    requires RolesOk(s) && StatusOf(s, c) == TASK_HANGING
    ensures c in s.procs && s.procs[c].parentPid != -1 && c != s.cpu.idle
  {
  }

  /** Nobody's child has exited: the caller sleeps. */
  ghost predicate FellAsleep(s: State, me: Tid, s1: State) {
    && s1 == s.(cpu := s1.cpu, inWait := s.inWait + {me}) && s1.cpu.idle == s.cpu.idle && s1.cpu.status.Keys == s.cpu.status.Keys
    && StatusOf(s1, me) == TASK_WAITING && !Fateful(StatusOf(s, me))
    && forall t :: t != me ==> SameStatusFate(StatusOf(s, t), StatusOf(s1, t))
  }

  lemma FellAsleepKin(s: State, me: Tid, s1: State)
    requires ParentsOk(s) && WaitersOk(s) && FellAsleep(s, me, s1) && HasChild(s, me) && !HasHanging(s, me)
    ensures ParentsOk(s1) && WaitersOk(s1)
  {
    hide StatusOf;
    forall t
      ensures StatusOf(s1, t) == TASK_HANGING <==> StatusOf(s, t) == TASK_HANGING
      ensures t != me ==> (StatusOf(s1, t) == TASK_WAITING <==> StatusOf(s, t) == TASK_WAITING)
    {
      assert t != me ==> SameStatusFate(StatusOf(s, t), StatusOf(s1, t));
    }
    forall t | t in s1.procs
      ensures HasParent(s1, t)
    {
      assert HasParent(s, t);
      KinKept(s, s1, t);
    }
    forall t | StatusOf(s1, t) == TASK_WAITING
      ensures WaiterOk(s1, t)
    {
      if t != me {
        assert WaiterOk(s, t);
      }
      SameChildren(s, s1, t);
    }
  }

  lemma FellAsleepRest(s: State, me: Tid, s1: State)
    requires FellAsleep(s, me, s1) && Listed(s) && RolesOk(s) && HistoryOk(s) && me != s.main && me != s.cpu.idle && me in s.procs
    ensures Listed(s1) && RolesOk(s1) && HistoryOk(s1)
  {
    hide Listed, RolesOk, HistoryOk, StatusOf;
    forall t
      ensures StatusOf(s1, t) == TASK_HANGING <==> StatusOf(s, t) == TASK_HANGING
      ensures StatusOf(s1, t) == TASK_OVER <==> StatusOf(s, t) == TASK_OVER
      ensures t != me ==> (StatusOf(s1, t) == TASK_WAITING <==> StatusOf(s, t) == TASK_WAITING)
    {
      assert t != me ==> SameStatusFate(StatusOf(s, t), StatusOf(s1, t));
    }
    AsleepListed(s, me, s1);
    AsleepHistory(s, me, s1);
  }

  lemma AsleepListed(s: State, me: Tid, s1: State)
    requires s1 == s.(cpu := s1.cpu, inWait := s1.inWait) && s1.cpu.idle == s.cpu.idle && s1.cpu.status.Keys == s.cpu.status.Keys
    requires forall t :: StatusOf(s1, t) == TASK_HANGING <==> StatusOf(s, t) == TASK_HANGING
    requires forall t :: StatusOf(s1, t) == TASK_OVER <==> StatusOf(s, t) == TASK_OVER
    requires forall t :: t != me ==> (StatusOf(s1, t) == TASK_WAITING <==> StatusOf(s, t) == TASK_WAITING)
    requires Listed(s) && RolesOk(s) && me != s.main && me != s.cpu.idle
    ensures Listed(s1) && RolesOk(s1)
  {
    hide Unique, StatusOf;
  }

  lemma AsleepHistory(s: State, me: Tid, s1: State)
    requires s1 == s.(cpu := s1.cpu, inWait := s1.inWait) && s1.cpu.status.Keys == s.cpu.status.Keys
    requires forall t :: StatusOf(s1, t) == TASK_HANGING <==> StatusOf(s, t) == TASK_HANGING
    requires forall t :: StatusOf(s1, t) == TASK_OVER <==> StatusOf(s, t) == TASK_OVER
    requires HistoryOk(s)
    ensures HistoryOk(s1)
  {
    hide StatusOf;
  }

  lemma WaitSleepOk(s: State, s1: State)
    requires Inv(s) && s.cpu.running in s.procs && s.cpu.running in s.cpu.status && s.cpu.idle in s.cpu.status
    requires s.cpu.running != s.main && s.cpu.running != s.cpu.idle
    requires HasChild(s, s.cpu.running) && !HasHanging(s, s.cpu.running)
    requires Block(s.cpu, TASK_WAITING).Next? ==>
      s1 == s.(cpu := Block(s.cpu, TASK_WAITING).state, inWait := s.inWait + {s.cpu.running})
    ensures Block(s.cpu, TASK_WAITING).Next? && Inv(s1)
  {
    hide SchedOk, Block, ParentsOk, WaitersOk, PidsOk, RolesOk, HistoryOk, Listed, HasChild, HasHanging;
    IdleAwake(s);
    BlockOk(s.cpu, TASK_WAITING);
    IdleStays(s1.cpu);
    FellAsleepKin(s, s.cpu.running, s1);
    FellAsleepRest(s, s.cpu.running, s1);
    SamePids(s, s1);
  }

  lemma WaitOk(s: State)
    requires s.cpu.running in s.procs && s.cpu.running in s.cpu.status && s.cpu.idle in s.cpu.status
    requires Inv(s) && Enabled(s, Wait)
    ensures WaitStep(s).Next? && Inv(WaitStep(s).state)
  {
    hide Inv, Block, Reap, HasChild, HasHanging, WaitTurn, IsHangingChildOf, SchedOk;
    IdleAwake(s);
    WaitFacts(s);
    match WaitTurn(s)
    case Reaped(c) =>
      ReapOk(s, c);
    case NoChild =>
      ReturnOk(s);
    case Sleeps =>
      WaitSleepOk(s, if Block(s.cpu, TASK_WAITING).Next?
        then s.(cpu := Block(s.cpu, TASK_WAITING).state, inWait := s.inWait + {s.cpu.running}) else s);
  }

  lemma WaitFacts(s: State)
    requires Inv(s) && s.cpu.running in s.procs
    ensures var pid := s.procs[s.cpu.running].pid;
      match WaitTurn(s)
      case Reaped(c) => IsHangingChildOf(s, c, pid) && exists i: nat :: FirstHanging(s, c, pid, i)
      case NoChild => !HasChild(s, s.cpu.running)
      case Sleeps => HasChild(s, s.cpu.running) && !HasHanging(s, s.cpu.running)
  {
    hide SchedOk, HasChild, HasHanging, WaitTurn, FirstHanging;
    WaitTurnFacts(s);
  }

  /** What a turn of `sys_wait` does to the others: the child reaped goes, with its pid; nobody else is touched, and a caller that
      has to wait sleeps. */
  lemma WaitTakes(s: State, u: Tid)
    requires s.cpu.running in s.procs && s.cpu.running in s.cpu.status && s.cpu.idle in s.cpu.status
    requires Inv(s) && Enabled(s, Wait) && WaitStep(s).Next?
    ensures var me, s1 := s.cpu.running, WaitStep(s).state;
      match WaitTurn(s)
      case Reaped(c) =>
        && c in s.procs && c !in s1.procs && c !in s1.all && s1.used == s.used - {s.procs[c].pid}
        && s1.cpu.running == me && s1.cpu.ready == s.cpu.ready
        && (u != c ==> StatusOf(s1, u) == StatusOf(s, u) && (u in s1.procs <==> u in s.procs))
        && (u != c && u in s.procs ==> s1.procs[u] == s.procs[u])
      case NoChild => s1 == s.(inWait := s.inWait - {me})
      case Sleeps =>
        && StatusOf(s1, me) == TASK_WAITING && s1.cpu.running != me && s1 == s.(cpu := s1.cpu, inWait := s.inWait + {me})
        && (u != me && u != s.cpu.idle && u != s1.cpu.running ==> StatusOf(s1, u) == StatusOf(s, u))
  {
    hide ParentsOk, WaitersOk, PidsOk, HistoryOk, HasChild, HasHanging, WaitTurn, FirstHanging, FindChild;
    WaitFacts(s);
    RunningKnown(s);
    match WaitTurn(s)
    case Reaped(c) =>
      WithoutAbsent(s.cpu.ready, c);
      ReapListed(s, c);
    case NoChild =>
    case Sleeps =>
      BlockOk(s.cpu, TASK_WAITING);
  }


  lemma ReturnOk(s: State)
    requires Inv(s) && StatusOf(s, s.cpu.running) == TASK_RUNNING
    ensures Inv(s.(inWait := s.inWait - {s.cpu.running}))
  {
    hide SchedOk, ParentsOk, WaitersOk, PidsOk;
    var s1 := s.(inWait := s.inWait - {s.cpu.running});
    assert forall t :: StatusOf(s1, t) == StatusOf(s, t);
    SamePids(s, s1);
    KinStays(s, s1);
    ReturnRest(s, s1);
  }

  lemma ReturnRest(s: State, s1: State)
    requires s1 == s.(inWait := s1.inWait) && Listed(s) && RolesOk(s) && HistoryOk(s)
    ensures Listed(s1) && RolesOk(s1) && HistoryOk(s1)
  {
    hide Unique;
    assert forall t :: StatusOf(s1, t) == StatusOf(s, t);
  }

  // ----- the end of main -----

  lemma LeaveSched(c: Sched)
    requires SchedOk(c) && c.running != c.idle
    ensures Stopped(c.(status := c.status[c.running := TASK_OVER], ready := Without(c.ready, c.running)))
  {
    RunningNotReady(c);
    hide Unique;
  }

  /** `t` has left. */
  ghost predicate Left(s: State, t: Tid, s1: State) {
    && t in s.procs && t in s.cpu.status && s1.procs == s.procs - {t} && s1.used == s.used - {s.procs[t].pid}
    && s1.all == Without(s.all, t)
    && s1 == s.(cpu := s1.cpu, all := s1.all, procs := s1.procs, used := s1.used)
    && s1.cpu.idle == s.cpu.idle && s1.cpu.status.Keys == s.cpu.status.Keys && StatusOf(s1, t) == TASK_OVER
    && forall u :: u != t ==> SameStatusFate(StatusOf(s, u), StatusOf(s1, u))
  }

  lemma LeaveLeft(s: State)
    requires Inv(s) && s.cpu.running in s.procs && s.cpu.running == s.main && s.cpu.idle in s.cpu.status
    ensures LeaveStep(s).Next? && SchedOk(LeaveStep(s).state.cpu) && Left(s, s.main, LeaveStep(s).state)
  {
    hide Listed, ParentsOk, WaitersOk, PidsOk, HistoryOk, SchedOk, Without, Schedule;
    IdleAwake(s);
    LeaveSched(s.cpu);
    ScheduleStopped(ThreadExit(s, s.main).cpu);
    IdleStays(LeaveStep(s).state.cpu);
  }

  lemma LeftKin(s: State, t: Tid, s1: State)
    requires ParentsOk(s) && WaitersOk(s) && PidsOk(s) && Left(s, t, s1) && s.procs[t].parentPid == -1
    requires StatusOf(s, t) != TASK_WAITING
    requires forall u :: u in s.procs ==> s.procs[u].parentPid != s.procs[t].pid
    ensures ParentsOk(s1) && WaitersOk(s1)
  {
    hide PidsOk;
    forall u
      ensures u != t ==> SameStatusFate(StatusOf(s, u), StatusOf(s1, u))
    {
    }
    forall u | u in s1.procs
      ensures HasParent(s1, u)
    {
      assert HasParent(s, u);
      KinKept(s, s1, u);
    }
    forall u | StatusOf(s1, u) == TASK_WAITING
      ensures WaiterOk(s1, u)
    {
      assert WaiterOk(s, u);
      PidKnown(s, u);
      var c :| IsChildOf(s, c, s.procs[u].pid);
      assert IsChildOf(s1, c, s1.procs[u].pid);
      assert forall d :: IsHangingChildOf(s1, d, s1.procs[u].pid) ==> IsHangingChildOf(s, d, s.procs[u].pid);
    }
  }

  lemma LeftListed(s: State, t: Tid, s1: State)
    requires Listed(s) && PidsOk(s) && Left(s, t, s1)
    ensures Listed(s1) && PidsOk(s1)
  {
    hide Unique;
    forall u
      ensures u != t ==> (StatusOf(s1, u) == TASK_OVER <==> StatusOf(s, u) == TASK_OVER)
    {
      assert u != t ==> SameStatusFate(StatusOf(s, u), StatusOf(s1, u));
    }
    forall p | p in s1.used
      ensures Taken(s1, p)
    {
      assert Taken(s, p);
      var u :| u in s.procs && s.procs[u].pid == p;
      assert u in s1.procs && s1.procs[u].pid == p;
    }
  }

  lemma LeftRest(s: State, s1: State)
    requires RolesOk(s) && HistoryOk(s) && Left(s, s.main, s1)
    ensures RolesOk(s1) && HistoryOk(s1)
  {
    forall u
      ensures u != s.main ==> SameStatusFate(StatusOf(s, u), StatusOf(s1, u))
    {
    }
  }

  /** `main` ends without a failed assertion: the next ready thread runs, or idle. */
  lemma LeaveOk(s: State)
    requires Inv(s) && s.cpu.running in s.procs && s.cpu.running == s.main && s.cpu.idle in s.cpu.status
    ensures LeaveStep(s).Next? && Inv(LeaveStep(s).state)
  {
    hide Listed, ParentsOk, WaitersOk, PidsOk, HistoryOk, SchedOk, LeaveStep, Left;
    RunningKnown(s);
    LeaveLeft(s);
    var s1 := LeaveStep(s).state;
    LeftKin(s, s.main, s1);
    LeftListed(s, s.main, s1);
    LeftRest(s, s1);
  }

  /** Once main has left, it is in no list and has no pid; nobody had it for a parent, so that its pid can be used again. */
  lemma MainLeaves(s: State, t: Tid)
    requires Inv(s) && Enabled(s, Leave) && s.cpu.running in s.procs && s.cpu.idle in s.cpu.status
    ensures LeaveStep(s).Next?
    ensures var s1 := LeaveStep(s).state;
      && s.main !in s1.all && s.main !in s1.procs && s.main !in s1.cpu.ready && s1.cpu.running != s.main
      && s.procs[s.main].pid !in s1.used
      && !IsChildOf(s1, t, s.procs[s.main].pid)
      && (t != s.main ==> (t in s1.procs <==> t in s.procs))
      && (t != s.main && t in s.procs ==> s1.procs[t] == s.procs[t] && s1.procs[t].pid in s1.used)
  {
    hide ParentsOk, WaitersOk, HistoryOk, SchedOk, LeaveStep;
    LeaveLeft(s);
    LeaveOk(s);
    OverAway(LeaveStep(s).state, s.main);
  }

  lemma OverAway(s: State, t: Tid)
    requires Inv(s) && StatusOf(s, t) == TASK_OVER
    ensures t !in s.all && t !in s.procs && t !in s.cpu.ready && s.cpu.running != t
  {
    hide ParentsOk, WaitersOk, HistoryOk, PidsOk, RolesOk, Unique;
  }

  // ----- every run -----

  lemma StepOk(s: State, a: Action)
    requires Inv(s) && Enabled(s, a)
    ensures s.cpu.running in s.procs && s.cpu.running in s.cpu.status && s.cpu.idle in s.cpu.status
    ensures Step(s, a).Next? && Inv(Step(s, a).state)
  {
    hide Inv, ForkStep, ExitStep, WaitStep, LeaveStep, Block, Schedule;
    RunningKnown(s);
    match a
    case Fork(t) => ForkOk(s, t);
    case Exit(status) => ExitOk(s, status);
    case Wait => WaitOk(s);
    case Leave => LeaveOk(s);
    case Tick => TickStep(s, if Schedule(s.cpu).Next? then s.(cpu := Schedule(s.cpu).state) else s);
    case Sleep =>
      SleepStep(s, if Block(s.cpu, TASK_BLOCKED).Next? then s.(cpu := Block(s.cpu, TASK_BLOCKED).state) else s);
    case Wake(t) => WakeStep(s, t, if Unblock(s.cpu, t).Next? then s.(cpu := Unblock(s.cpu, t).state) else s);
  }

  /** After `thread_init`: init, main and idle with the pids 1, 2 and 3, main running. */
  ghost predicate Initial(s: State) {
    && s.init != s.main && s.init != s.cpu.idle && s.main != s.cpu.idle
    && s.cpu == Sched(map[s.init := TASK_READY, s.main := TASK_RUNNING, s.cpu.idle := TASK_READY],
        [s.init, s.cpu.idle], s.main, s.cpu.idle)
    && s.all == [s.init, s.main, s.cpu.idle] && s.used == {1, 2, 3} && s.inWait == {}
    && s.procs == map[s.init := Proc(1, -1, 0), s.main := Proc(2, -1, 0), s.cpu.idle := Proc(3, -1, 0)]
    && s.exits == map[] && s.reaps == map[]
  }

  function BootStatus(s: State, t: Tid): Status {
    if t == s.main then TASK_RUNNING else if t == s.init || t == s.cpu.idle then TASK_READY else TASK_OVER
  }

  lemma InitialOk(s: State)
    requires Initial(s)
    ensures Inv(s)
  {
    hide SchedOk, ParentsOk, WaitersOk, PidsOk, RolesOk, HistoryOk, Listed;
    assert forall t :: StatusOf(s, t) == BootStatus(s, t);
    InitialSched(s);
    InitialRest(s);
    InitialPids(s);
  }

  lemma InitialSched(s: State)
    requires Initial(s)
    ensures SchedOk(s.cpu)
  {
  }

  lemma InitialPids(s: State)
    requires Initial(s)
    ensures PidsOk(s)
  {
    assert s.procs[s.init].pid == 1 && s.procs[s.main].pid == 2 && s.procs[s.cpu.idle].pid == 3;
  }

  lemma InitialRest(s: State)
    requires Initial(s)
    requires forall t :: StatusOf(s, t) == BootStatus(s, t)
    ensures Listed(s) && ParentsOk(s) && WaitersOk(s) && RolesOk(s) && HistoryOk(s)
  {
    hide StatusOf;
  }

  ghost predicate Follows(s: State, a: Action, s1: State) {
    && s.cpu.running in s.procs && s.cpu.running in s.cpu.status && s.cpu.idle in s.cpu.status
    && Enabled(s, a) && Step(s, a) == Next(s1)
  }

  /** `ss` is a run in which the actions `acts` were taken. */
  ghost predicate Trace(ss: seq<State>, acts: seq<Action>) {
    |ss| == |acts| + 1 && Initial(ss[0]) && forall i :: 0 <= i < |acts| ==> Follows(ss[i], acts[i], ss[i + 1])
  }

  lemma {:induction false} TraceOk(ss: seq<State>, acts: seq<Action>, n: nat)
    requires Trace(ss, acts) && n < |ss|
    ensures Inv(ss[n])
  {
    hide Inv, ForkStep, ExitStep, WaitStep, LeaveStep, Block, Schedule, Unblock, Initial, Enabled;
    if n == 0 {
      InitialOk(ss[0]);
    } else {
      TraceOk(ss, acts, n - 1);
      assert Follows(ss[n - 1], acts[n - 1], ss[n]);
      StepOk(ss[n - 1], acts[n - 1]);
    }
  }

  /** In every run: no assertion or panic of fork, exit, wait and the scheduler is reached. */
  lemma NeverPanics(ss: seq<State>, acts: seq<Action>, a: Action)
    requires Trace(ss, acts) && Enabled(ss[|acts|], a)
    ensures var s := ss[|acts|];
      s.cpu.running in s.procs && s.cpu.running in s.cpu.status && s.cpu.idle in s.cpu.status && Step(s, a).Next?
  {
    TraceOk(ss, acts, |acts|);
    StepOk(ss[|acts|], a);
  }

  /** Pids are unique, and a parent pid other than -1 names a task in the list that has not exited. */
  ghost predicate SafeTree(s: State) {
    && (forall t, u :: t in s.all && u in s.all && t in s.procs && u in s.procs && t != u ==> s.procs[t].pid != s.procs[u].pid)
    && forall t :: t in s.all && t in s.procs && s.procs[t].parentPid != -1 ==> LiveParent(s, t)
  }

  ghost predicate LiveParent(s: State, t: Tid) {
    && t in s.procs
    && exists u :: u in s.all && u in s.procs && s.procs[u].pid == s.procs[t].parentPid && StatusOf(s, u) != TASK_HANGING
  }

  lemma InvSafeTree(s: State)
    requires Inv(s)
    ensures SafeTree(s)
  {
    hide SchedOk, WaitersOk, HistoryOk, Unique, RolesOk;
    forall t | t in s.all && t in s.procs && s.procs[t].parentPid != -1
      ensures LiveParent(s, t)
    {
      assert HasParent(s, t);
      var u :| ParentOf(s, u, t);
      assert u in s.all;
    }
  }

  lemma TreeSafe(ss: seq<State>, acts: seq<Action>, n: nat)
    requires Trace(ss, acts) && n < |ss|
    ensures SafeTree(ss[n])
  {
    hide Trace, Inv, SafeTree;
    TraceOk(ss, acts, n);
    InvSafeTree(ss[n]);
  }

  lemma WaiterReason(s: State, t: Tid)
    requires Inv(s) && StatusOf(s, t) == TASK_WAITING
    ensures HasChild(s, t) && (t != s.init ==> !HasHanging(s, t))
  {
    hide SchedOk, ParentsOk, HistoryOk, PidsOk, Listed, HasChild, HasHanging, RolesOk;
    assert WaiterOk(s, t);
  }

  /** In every run: a task asleep in wait has a child, and unless it is init no child of it hangs. */
  lemma SleepersHaveReason(ss: seq<State>, acts: seq<Action>, n: nat, t: Tid)
    requires Trace(ss, acts) && n < |ss| && StatusOf(ss[n], t) == TASK_WAITING
    ensures HasChild(ss[n], t) && (t != ss[n].init ==> !HasHanging(ss[n], t))
  {
    hide Inv, HasChild, HasHanging;
    TraceOk(ss, acts, n);
    WaiterReason(ss[n], t);
  }

  /** From `s` to `s1` at most one task is reported by `sys_wait`: a child of the caller that has exited and has not been
      reported before, with its pid, which is free afterwards, and the signed byte of the status it exited with. */
  ghost predicate Reported(s: State, s1: State)
    requires s.cpu.running in s.procs
  {
    && (forall t :: t in s.reaps ==> t in s1.reaps && s1.reaps[t] == s.reaps[t])
    && (forall t :: t in s1.reaps && t !in s.reaps ==>
      && t in s.procs && t in s.exits && s1.reaps[t] == (s.procs[t].pid, s.exits[t])
      && s.procs[t].pid !in s1.used && s.procs[t].parentPid == s.procs[s.cpu.running].pid)
    && (forall t, u :: t in s1.reaps && t !in s.reaps && u in s1.reaps && u !in s.reaps ==> t == u)
  }

  lemma WaitReports(s: State)
    requires s.cpu.running in s.procs && s.cpu.running in s.cpu.status && s.cpu.idle in s.cpu.status
    requires Inv(s) && WaitStep(s).Next?
    ensures Reported(s, WaitStep(s).state)
  {
    hide Inv, SchedOk, Block, WaitTurn, Without, HasChild, HasHanging;
    WaitFacts(s);
    match WaitTurn(s)
    case Reaped(c) => ReapOk(s, c);
    case NoChild =>
    case Sleeps =>
  }

  lemma OnlyWaitReaps(s: State, a: Action, s1: State)
    requires Follows(s, a, s1) && a != Wait
    ensures s1.reaps == s.reaps
  {
    hide Block, Schedule, Unblock, Part, PidToThread, Adopt;
  }

  /** In every run: only `sys_wait` reports, and what it reports is a child's own, once. */
  lemma ReapedOnce(ss: seq<State>, acts: seq<Action>, n: nat)
    requires Trace(ss, acts) && n < |acts|
    ensures acts[n] == Wait ==> ss[n].cpu.running in ss[n].procs && Reported(ss[n], ss[n + 1])
    ensures acts[n] != Wait ==> ss[n + 1].reaps == ss[n].reaps
  {
    assert Follows(ss[n], acts[n], ss[n + 1]);
    if acts[n] == Wait {
      hide Inv, WaitStep, Reported;
      TraceOk(ss, acts, n);
      WaitReports(ss[n]);
    } else {
      hide Follows;
      OnlyWaitReaps(ss[n], acts[n], ss[n + 1]);
    }
  }

  /** In every run: whoever has exited hangs or has been reaped, not both, and nobody else is reaped or hangs. */
  lemma ExitsConserved(ss: seq<State>, acts: seq<Action>, n: nat)
    requires Trace(ss, acts) && n < |ss|
    ensures HistoryOk(ss[n])
  {
    hide SchedOk, ParentsOk, WaitersOk, PidsOk, RolesOk, Listed, HistoryOk;
    TraceOk(ss, acts, n);
  }

  // ----- the order of thread_all_list -----

  ghost predicate At(q: seq<Tid>, c: Tid, d: Tid, i: nat, j: nat) {
    i < j < |q| && q[i] == c && q[j] == d
  }

  /** Task `c` stands before task `d`. */
  ghost predicate Before(q: seq<Tid>, c: Tid, d: Tid) {
    exists i: nat, j: nat :: At(q, c, d, i, j)
  }

  /** A new task goes to the end of the list, one that ends leaves it. */
  lemma AllMoves(s: State, a: Action, s1: State)
    requires Inv(s) && Follows(s, a, s1)
    ensures
      match a
      case Fork(t) => s1.all == s.all + [t]
      case Wait => s1.all == s.all || exists x :: s1.all == Without(s.all, x)
      case Leave => s1.all == Without(s.all, s.cpu.running)
      case _ => s1.all == s.all
    ensures forall t :: t in s.cpu.status ==> t in s1.cpu.status
  {
    hide Inv, Without, FreePid, FindChild, PidToThread, Adopt, WaitTurn;
    if a == Wait && WaitTurn(s).Reaped? {
      assert s1.all == Without(s.all, WaitTurn(s).child);
    }
  }

  lemma BeforeWithout(q: seq<Tid>, x: Tid, c: Tid, d: Tid)
    requires Unique(q) && Before(q, c, d) && c != x && d != x
    ensures Before(Without(q, x), c, d)
  {
    var i: nat, j: nat :| At(q, c, d, i, j);
    if x in q {
      var k :| 0 <= k < |q| && q[k] == x;
      WithoutAt(q, k);
      var r := q[..k] + q[k + 1..];
      assert At(r, c, d, if i < k then i else i - 1, if j < k then j else j - 1);
    } else {
      WithoutAbsent(q, x);
    }
  }

  lemma BeforeAppend(q: seq<Tid>, t: Tid, c: Tid, d: Tid)
    ensures Before(q, c, d) ==> Before(q + [t], c, d)
    ensures c in q ==> Before(q + [t], c, t)
  {
    if Before(q, c, d) {
      var i: nat, j: nat :| At(q, c, d, i, j);
      assert At(q + [t], c, d, i, j);
    }
    if c in q {
      var i :| 0 <= i < |q| && q[i] == c;
      assert At(q + [t], c, t, i, |q|);
    }
  }

  lemma ListFacts(s: State)
    requires Inv(s)
    ensures Unique(s.all) && forall t :: t in s.all ==> t in s.cpu.status
  {
    hide SchedOk, ParentsOk, WaitersOk, PidsOk, RolesOk, HistoryOk, Unique;
  }

  /** A task that has left the list does not come back, and those that stay keep their order. */
  lemma OrderKept(s: State, a: Action, s1: State, c: Tid, d: Tid)
    requires Inv(s) && Follows(s, a, s1)
    ensures c in s.cpu.status && c in s1.all ==> c in s.all
    ensures Before(s.all, c, d) && c in s1.all && d in s1.all ==> Before(s1.all, c, d)
  {
    AllMoves(s, a, s1);
    ListFacts(s);
    ForkNew(s, a, s1);
    hide Inv, Follows, Before, Unique;
    if Before(s.all, c, d) && c in s1.all && d in s1.all {
      match a
      case Fork(t) => BeforeAppend(s.all, t, c, d);
      case Wait =>
        if s1.all != s.all {
          var x :| s1.all == Without(s.all, x);
          BeforeWithout(s.all, x, c, d);
        }
      case Leave => BeforeWithout(s.all, s.cpu.running, c, d);
      case _ =>
    }
  }

  lemma ForkNew(s: State, a: Action, s1: State)
    requires Follows(s, a, s1)
    ensures a.Fork? ==> a.t !in s.cpu.status
  {
  }

  lemma {:induction false} StillThere(ss: seq<State>, acts: seq<Action>, n: nat, m: nat, c: Tid)
    requires Trace(ss, acts) && n <= m < |ss| && c in ss[n].cpu.status
    ensures c in ss[m].cpu.status && (c in ss[m].all ==> c in ss[n].all)
    decreases m
  {
    hide Inv, Follows;
    if n < m {
      StillThere(ss, acts, n, m - 1, c);
      TraceOk(ss, acts, m - 1);
      assert Follows(ss[m - 1], acts[m - 1], ss[m]);
      AllMoves(ss[m - 1], acts[m - 1], ss[m]);
      OrderKept(ss[m - 1], acts[m - 1], ss[m], c, c);
    }
  }

  lemma {:induction false} OrderStays(ss: seq<State>, acts: seq<Action>, n: nat, m: nat, c: Tid, d: Tid)
    requires Trace(ss, acts) && n <= m < |ss| && Before(ss[n].all, c, d) && c in ss[n].cpu.status && d in ss[n].cpu.status
    requires c in ss[m].all && d in ss[m].all
    ensures Before(ss[m].all, c, d)
    decreases m
  {
    hide Inv, Follows, Before;
    if n < m {
      StillThere(ss, acts, n, m - 1, c);
      StillThere(ss, acts, n, m - 1, d);
      StillThere(ss, acts, m - 1, m, c);
      StillThere(ss, acts, m - 1, m, d);
      OrderStays(ss, acts, n, m - 1, c, d);
      TraceOk(ss, acts, m - 1);
      assert Follows(ss[m - 1], acts[m - 1], ss[m]);
      OrderKept(ss[m - 1], acts[m - 1], ss[m], c, d);
    }
  }

  /** Of two hanging children `sys_wait` does not report the one that stands behind the other. */
  lemma EarlierFirst(s: State, s1: State, c: Tid, d: Tid)
    requires Inv(s) && Follows(s, Wait, s1) && Before(s.all, c, d)
    requires IsHangingChildOf(s, c, s.procs[s.cpu.running].pid) && IsHangingChildOf(s, d, s.procs[s.cpu.running].pid)
    ensures d !in s1.reaps
  {
    var pid := s.procs[s.cpu.running].pid;
    WaitFacts(s);
    ListFacts(s);
    HangingNotReaped(s, d);
    NotFirst(s, c, d, pid);
    hide Inv, WaitTurn, Block, HasChild, HasHanging, FindChild, Without, IsHangingChildOf, FirstHanging, Before;
  }

  lemma NotFirst(s: State, c: Tid, d: Tid, pid: int)
    requires Unique(s.all) && Before(s.all, c, d) && IsHangingChildOf(s, c, pid)
    ensures forall i: nat :: !FirstHanging(s, d, pid, i)
  {
    hide IsHangingChildOf;
    var k: nat, j: nat :| At(s.all, c, d, k, j);
    forall i: nat
      ensures !FirstHanging(s, d, pid, i)
    {
      assert i < |s.all| && s.all[i] == d ==> i == j;
    }
  }

  lemma HangingNotReaped(s: State, d: Tid)
    requires Inv(s) && StatusOf(s, d) == TASK_HANGING
    ensures d !in s.reaps
  {
    hide SchedOk, ParentsOk, WaitersOk, PidsOk, RolesOk, Listed;
  }

  /** In every run: of two children that both hang, `sys_wait` reports the one that was forked first. */
  lemma ForkedFirst(ss: seq<State>, acts: seq<Action>, i: nat, j: nat, m: nat, c: Tid, d: Tid)
    requires Trace(ss, acts) && i < j < m < |acts| && acts[i] == Fork(c) && acts[j] == Fork(d) && acts[m] == Wait
    requires ss[m].cpu.running in ss[m].procs
    requires IsHangingChildOf(ss[m], c, ss[m].procs[ss[m].cpu.running].pid)
    requires IsHangingChildOf(ss[m], d, ss[m].procs[ss[m].cpu.running].pid)
    ensures d !in ss[m + 1].reaps
  {
    hide Inv, Follows, Before, IsHangingChildOf;
    assert Follows(ss[i], acts[i], ss[i + 1]) && Follows(ss[j], acts[j], ss[j + 1]) && Follows(ss[m], acts[m], ss[m + 1]);
    TraceOk(ss, acts, i);
    TraceOk(ss, acts, i + 1);
    TraceOk(ss, acts, j);
    TraceOk(ss, acts, j + 1);
    TraceOk(ss, acts, m);
    AllMoves(ss[i], acts[i], ss[i + 1]);
    AllMoves(ss[j], acts[j], ss[j + 1]);
    ListFacts(ss[i + 1]);
    ListFacts(ss[j + 1]);
    HangingListed(ss[m], c);
    HangingListed(ss[m], d);
    assert c in ss[i + 1].all && d in ss[j + 1].all;
    StillThere(ss, acts, i + 1, j, c);
    StillThere(ss, acts, j, m, c);
    BeforeAppend(ss[j].all, d, c, d);
    StillThere(ss, acts, i + 1, j + 1, c);
    OrderStays(ss, acts, j + 1, m, c, d);
    EarlierFirst(ss[m], ss[m + 1], c, d);
  }

  lemma HangingListed(s: State, c: Tid)
    requires Inv(s)
    ensures forall pid :: IsHangingChildOf(s, c, pid) ==> c in s.all
  {
    hide SchedOk, ParentsOk, WaitersOk, PidsOk, RolesOk, HistoryOk, Unique;
  }
}
