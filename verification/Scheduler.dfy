/** thread/thread.c: task states, the ready list and the running thread. Each region with interrupts off is one
    function; its assertions are part of it, and a failed one is `Panic`. */
module Schedulers {
  import opened Lists
  type Tid = nat

  datatype Status = TASK_RUNNING | TASK_READY | TASK_BLOCKED | TASK_WAITING | TASK_HANGING | TASK_OVER

  datatype Sched = Sched(status: map<Tid, Status>, ready: seq<Tid>, running: Tid, idle: Tid)

  /** The outcome of a region: the next state, or a failed ASSERT. */
  datatype Outcome<+S> = Next(state: S) | Panic {
    predicate IsFailure() {
      Panic?
    }

    function PropagateFailure<T>(): Outcome<T>
      requires Panic?
    {
      Panic
    }

    function Extract(): S
      requires Next?
    {
      state
    }
  }

  predicate Parked(st: Status) {
    st == TASK_BLOCKED || st == TASK_HANGING || st == TASK_WAITING
  }

  predicate Runnable(st: Status) {
    st == TASK_RUNNING || st == TASK_READY
  }

  /** `thread_unblock` */
  function Unblock(s: Sched, t: Tid): Outcome<Sched>
    requires t in s.status
  {
    if !Parked(s.status[t]) || t in s.ready then Panic else
      Next(s.(ready := [t] + s.ready, status := s.status[t := TASK_READY]))
  }

  /** `schedule`. A thread still running goes to the back of the ready list; when the list is empty, idle is woken. */
  function Schedule(s: Sched): Outcome<Sched>
    requires s.running in s.status && s.idle in s.status
  {
    if s.status[s.running] == TASK_RUNNING && s.running in s.ready then Panic else
      var queued :=
        if s.status[s.running] == TASK_RUNNING then
          s.(ready := s.ready + [s.running], status := s.status[s.running := TASK_READY])
        else s;
      var woken :- if queued.ready == [] then Unblock(queued, s.idle) else Next(queued);
      if woken.ready == [] then Panic else
        Next(woken.(ready := woken.ready[1..], running := woken.ready[0],
          status := woken.status[woken.ready[0] := TASK_RUNNING]))
  }

  /** `thread_block`, and the first half of `thread_exit` for the calling thread. */
  function Block(s: Sched, st: Status): Outcome<Sched>
    requires s.running in s.status && s.idle in s.status
  {
    Schedule(s.(status := s.status[s.running := st]))
  }

  /** `thread_yield` */
  function Yield(s: Sched): Outcome<Sched>
    requires s.running in s.status && s.idle in s.status
  {
    if s.running in s.ready then Panic else
      Schedule(s.(ready := s.ready + [s.running], status := s.status[s.running := TASK_READY]))
  }

  /** `thread_start`: the new thread joins the back of the ready list. */
  function Start(s: Sched, t: Tid): Sched {
    s.(ready := s.ready + [t], status := s.status[t := TASK_READY])
  }

  // ----- the invariant outside the atomic regions -----

  /** The ready list is exactly the ready threads, each once. */
  ghost predicate ReadyList(s: Sched) {
    && Unique(s.ready)
    && forall t :: t in s.ready <==> t in s.status && s.status[t] == TASK_READY
  }

  ghost predicate IdleOk(s: Sched) {
    s.idle in s.status && (Runnable(s.status[s.idle]) || s.status[s.idle] == TASK_BLOCKED)
  }

  /** Exactly one thread runs, the ready list holds the ready ones, and idle is runnable or can be woken. */
  ghost predicate SchedOk(s: Sched) {
    && s.running in s.status
    && (forall t :: t in s.status ==> (s.status[t] == TASK_RUNNING <==> t == s.running))
    && ReadyList(s)
    && IdleOk(s)
  }

  /** Between the two, the threads that sleep stay asleep in the same state and the others stay runnable, idle aside. */
  ghost predicate SleepersKept(s: Sched, s1: Sched) {
    && s1.idle == s.idle && s1.status.Keys == s.status.Keys
    && forall t :: t in s.status && t != s.idle ==>
        if Runnable(s.status[t]) then Runnable(s1.status[t]) else s1.status[t] == s.status[t]
  }

  /** What `schedule` meets: nobody runs, the ready list is right, idle has not been lost. */
  ghost predicate Stopped(s: Sched) {
    && s.running in s.status
    && (forall t :: t in s.status ==> s.status[t] != TASK_RUNNING)
    && ReadyList(s) && IdleOk(s)
  }

  lemma UniqueTail(q: seq<Tid>)
    requires Unique(q) && q != []
    ensures Unique(q[1..]) && forall t :: t in q[1..] <==> t in q && t != q[0]
  {
    forall t | t in q && t != q[0]
      ensures t in q[1..]
    {
      var i :| 0 <= i < |q| && q[i] == t;
      assert q[1..][i - 1] == t;
    }
  }

  /** The head of a nonempty ready list takes the processor. */
  lemma Dispatched(s: Sched)
    requires Stopped(s) && s.ready != []
    ensures SchedOk(s.(ready := s.ready[1..], running := s.ready[0], status := s.status[s.ready[0] := TASK_RUNNING]))
  {
    UniqueTail(s.ready);
    assert s.ready[0] in s.ready;
  }

  lemma Woken(s: Sched, t: Tid)
    requires t in s.status && Parked(s.status[t]) && ReadyList(s) && IdleOk(s)
    ensures Unblock(s, t).Next? && ReadyList(Unblock(s, t).state) && IdleOk(Unblock(s, t).state)
  {
    var q := [t] + s.ready;
    assert forall i :: 0 < i < |q| ==> q[i] == s.ready[i - 1];
  }

  /** A schedule with nobody running any more always finds a thread: if none is ready, idle is parked and can be woken. */
  lemma ScheduleStopped(s: Sched)
    requires Stopped(s)
    ensures Schedule(s).Next?
    ensures SchedOk(Schedule(s).state) && SleepersKept(s, Schedule(s).state)
  {
    if s.ready == [] {
      assert s.status[s.idle] != TASK_READY;
      Woken(s, s.idle);
      Dispatched(Unblock(s, s.idle).state);
    } else {
      assert s.ready[0] in s.ready;
      Dispatched(s);
    }
  }

  lemma Queued(s: Sched, t: Tid)
    requires ReadyList(s) && t !in s.ready
    ensures ReadyList(s.(ready := s.ready + [t], status := s.status[t := TASK_READY]))
  {
    var q := s.ready + [t];
    assert forall i :: 0 <= i < |s.ready| ==> q[i] == s.ready[i];
    assert q[|s.ready|] == t;
  }

  /** The timer's `schedule`: the running thread joins the back of the list. */
  lemma TickOk(s: Sched)
    requires SchedOk(s)
    ensures Schedule(s).Next?
    ensures SchedOk(Schedule(s).state) && SleepersKept(s, Schedule(s).state)
    ensures Schedule(s) == Yield(s)
  {
    hide ReadyList;
    var queued := s.(ready := s.ready + [s.running], status := s.status[s.running := TASK_READY]);
    RunningNotReady(s);
    Queued(s, s.running);
    ScheduleStopped(queued);
  }

  lemma RunningNotReady(s: Sched)
    requires SchedOk(s)
    ensures s.running !in s.ready
  {
  }

  /** A thread that parks or ends hands the processor over; idle only ever blocks. */
  lemma BlockOk(s: Sched, st: Status)
    requires SchedOk(s) && !Runnable(st) && (s.running == s.idle ==> st == TASK_BLOCKED)
    ensures Block(s, st).Next?
    ensures var s1 := Block(s, st).state;
      && SchedOk(s1) && SleepersKept(s.(status := s.status[s.running := st]), s1)
  {
    ScheduleStopped(s.(status := s.status[s.running := st]));
  }

  lemma UnblockOk(s: Sched, t: Tid)
    requires SchedOk(s) && t in s.status && Parked(s.status[t])
    ensures Unblock(s, t).Next? && SchedOk(Unblock(s, t).state)
  {
    Woken(s, t);
  }

  lemma StartOk(s: Sched, t: Tid)
    requires SchedOk(s) && t !in s.status
    ensures SchedOk(Start(s, t))
  {
    Queued(s, t);
  }

  // ----- order -----

  /** The state after `n` timer interrupts with nothing else happening. */
  function Ticks(s: Sched, n: nat): Outcome<Sched>
    decreases n
  {
    if n == 0 then Next(s)
    else if s.running !in s.status || s.idle !in s.status then Panic
    else
      var s1 :- Schedule(s);
      Ticks(s1, n - 1)
  }

  /** Threads take turns: the one at place `k` of the ready list runs after `k + 1` ticks. */
  lemma {:induction false} RoundRobin(s: Sched, k: nat)
    requires SchedOk(s) && k < |s.ready|
    ensures Ticks(s, k + 1).Next? && SchedOk(Ticks(s, k + 1).state) && Ticks(s, k + 1).state.running == s.ready[k]
    decreases k
  {
    hide ReadyList;
    TickOk(s);
    RunningNotReady(s);
    var s1 := Schedule(s).state;
    assert s1.running == s.ready[0] && s1.ready == s.ready[1..] + [s.running];
    if k > 0 {
      assert s1.ready[k - 1] == s.ready[k];
      RoundRobin(s1, k - 1);
    }
  }

  /** A woken thread is the next to run, at a tick or when the running thread blocks. */
  lemma WokenRunsNext(s: Sched, t: Tid, st: Status)
    requires SchedOk(s) && t in s.status && Parked(s.status[t]) && Parked(st) && (s.running == s.idle ==> st == TASK_BLOCKED)
    ensures Unblock(s, t).Next? && Schedule(Unblock(s, t).state).Next? && Block(Unblock(s, t).state, st).Next?
    ensures Schedule(Unblock(s, t).state).state.running == t && Block(Unblock(s, t).state, st).state.running == t
  {
    UnblockOk(s, t);
    var s1 := Unblock(s, t).state;
    TickOk(s1);
    BlockOk(s1, st);
    RunningNotReady(s1);
  }

  // ----- the same in place -----

  /** The scheduler's globals. */
  class Cpu {
    var status: map<Tid, Status>
    var ready: seq<Tid>
    var running: Tid
    const idle: Tid

    ghost function View(): Sched
      reads this
    {
      Sched(status, ready, running, idle)
    }

    /** Two threads: the caller runs, idle has been started. */
    constructor (main: Tid, idle: Tid)
      requires main != idle
      ensures this.idle == idle && running == main && SchedOk(View())
    {
      this.idle, running, ready := idle, main, [idle];
      status := map[main := TASK_RUNNING, idle := TASK_READY];
    }

    /** The thread is ready and first in line. */
    method ThreadUnblock(t: Tid)
      requires t in status && Unblock(View(), t).Next?
      modifies this`status, this`ready
      ensures Next(View()) == old(Unblock(View(), t))
      ensures ready == [t] + old(ready) && status == old(status)[t := TASK_READY] && (old(SchedOk(View())) ==> SchedOk(View()))
    {
      ghost var s := View();
      if SchedOk(s) {
        UnblockOk(s, t);
      }
      assert Parked(status[t]);
      if status[t] != TASK_READY {
        assert t !in ready;
        ready := [t] + ready;
        status := status[t := TASK_READY];
      }
    }

    /** A thread still running goes to the back of the line; the first in line runs, or idle if there is none. */
    method DoSchedule()
      requires running in status && idle in status && Schedule(View()).Next?
      modifies this
      ensures Next(View()) == old(Schedule(View()))
      ensures [running] + ready ==
        if old(status[running] == TASK_RUNNING) then old(ready + [running]) else if old(ready) == [] then [idle] else old(ready)
      ensures status[running] == TASK_RUNNING && (old(SchedOk(View()) || Stopped(View())) ==> SchedOk(View()))
    {
      ghost var s := View();
      if SchedOk(s) {
        TickOk(s);
      } else if Stopped(s) {
        ScheduleStopped(s);
      }
      if status[running] == TASK_RUNNING {
        assert running !in ready;
        ready := ready + [running];
        status := status[running := TASK_READY];
      }
      if ready == [] {
        ThreadUnblock(idle);
      }
      assert ready != [];
      var next := ready[0];
      ready := ready[1..];
      status := status[next := TASK_RUNNING];
      running := next;
    }

    method ThreadBlock(st: Status)
      requires SchedOk(View()) && Parked(st) && (running == idle ==> st == TASK_BLOCKED)
      modifies this
      ensures Next(View()) == old(Block(View(), st)) && SchedOk(View())
      ensures old(running) != idle ==> status[old(running)] == st && running != old(running) && old(running) !in ready
      ensures [running] + ready == if old(ready) == [] then [idle] else old(ready)
    {
      BlockOk(View(), st);
      status := status[running := st];
      DoSchedule();
    }

    method ThreadYield()
      requires SchedOk(View())
      modifies this
      ensures Next(View()) == old(Yield(View())) && SchedOk(View())
      ensures [running] + ready == old(ready + [running])
    {
      TickOk(View());
      assert running !in ready;
      ready := ready + [running];
      status := status[running := TASK_READY];
      DoSchedule();
    }
  }
}
