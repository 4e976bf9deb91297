/** thread/sync.c: semaphores and locks under every interleaving. A thread stands at one of the points of `Pc`; one step
    executes the code up to its next point. Interrupts may switch threads between any two steps. */
module Locks {
  import opened Wrappers
  import opened Bytes
  import opened Lists
  import opened Schedulers

  type LockId = nat

  /** Where a thread is in `lock_acquire` and `lock_release`; `Out` is anywhere else. */
  datatype Pc =
    | Out
    | AcqTest(lock: LockId)       // about to compare holder with itself
    | Down(lock: LockId)          // at the test of the while loop in sema_down
    | SetHolder(lock: LockId)     // the semaphore is taken, the holder not yet written
    | SetNr(lock: LockId)         // the holder is written, the count not yet
    | Nest(lock: LockId)          // about to increment the count
    | RelTest(lock: LockId)       // at the first ASSERT of lock_release
    | Dec(lock: LockId)           // about to decrement the count
    | ClearHolder(lock: LockId)   // about to release for good
    | ClearNr(lock: LockId)       // the holder is cleared, the count not yet
    | Up(lock: LockId)            // at sema_up

  /** A lock and its semaphore. `inside` is not part of the program: it records who has completed a `sema_down` that no
      `sema_up` has followed, and how many acquisitions that thread has completed and not released. */
  datatype Lock = Lock(value: nat, waiters: seq<Tid>, holder: Option<Tid>, nr: u32, inside: map<Tid, nat>)

  /** `lock_init` */
  const UNLOCKED := Lock(1, [], None, 0, map[])

  /** Threads absent from `pc` are outside the lock code; locks absent from `locks` are as `lock_init` left them. */
  datatype State = State(cpu: Sched, pc: map<Tid, Pc>, locks: map<LockId, Lock>)

  function PcOf(s: State, t: Tid): Pc {
    if t in s.pc then s.pc[t] else Out
  }

  function LockOf(s: State, l: LockId): Lock {
    if l in s.locks then s.locks[l] else UNLOCKED
  }

  function StatusOf(s: State, t: Tid): Status {
    if t in s.cpu.status then s.cpu.status[t] else TASK_OVER
  }

  datatype Action =
    | Continue                    // the running thread executes its next step in the lock code
    | Acquire(lock: LockId)       // it calls lock_acquire
    | Release(lock: LockId)       // it calls lock_release
    | Tick                        // the timer interrupt takes the processor from it
    | GiveUp                      // it calls thread_yield
    | Park(st: Status)            // it calls thread_block outside the lock code
    | Wake(t: Tid)                // it calls thread_unblock for a thread that parked that way
    | Create(t: Tid)              // it starts a thread
    | End                         // it ends

  const NR_MAX: u32 := 0xFFFF_FFFF

  predicate IsInside(s: State, l: LockId, t: Tid) {
    t in LockOf(s, l).inside
  }

  /** What the threads' own programs respect: a lock is released by a thread that acquired it, the nesting depth fits the
      counter, idle does nothing but block, a thread ends without locks, and only parked threads are woken. */
  ghost predicate Enabled(s: State, a: Action) {
    var me := s.cpu.running;
    match a
    case Continue => PcOf(s, me) != Out
    case Acquire(l) => PcOf(s, me) == Out && me != s.cpu.idle
      && (me in LockOf(s, l).inside ==> LockOf(s, l).inside[me] < NR_MAX)
    case Release(l) => PcOf(s, me) == Out && IsInside(s, l, me)
    case Tick => true
    case GiveUp => PcOf(s, me) == Out
    case Park(st) => PcOf(s, me) == Out && Parked(st) && (me == s.cpu.idle ==> st == TASK_BLOCKED)
    case Wake(t) => PcOf(s, me) == Out && PcOf(s, t) == Out && Parked(StatusOf(s, t))
    case Create(t) => PcOf(s, me) == Out && t !in s.cpu.status
    case End => PcOf(s, me) == Out && me != s.cpu.idle && forall l :: !IsInside(s, l, me)
  }

  predicate Formed(s: State) {
    s.cpu.running in s.cpu.status && s.cpu.idle in s.cpu.status
  }

  /** The running thread leaves lock `l` as `k` and goes on at `p`. */
  function Goto(s: State, l: LockId, k: Lock, p: Pc): State {
    s.(locks := s.locks[l := k], pc := s.pc[s.cpu.running := p])
  }

  /** One turn of the loop of `sema_down`: wait in line, or take the semaphore. */
  function DownStep(s: State, l: LockId): Outcome<State>
    requires Formed(s)
  {
    var me, k := s.cpu.running, LockOf(s, l);
    if k.value == 0 then
      if me in k.waiters then Panic else
        var cpu :- Block(s.cpu, TASK_BLOCKED);
        Next(Goto(s, l, k.(waiters := k.waiters + [me]), Down(l)).(cpu := cpu))
    else if k.value - 1 != 0 then Panic else
      Next(Goto(s, l, k.(value := k.value - 1, inside := k.inside[me := 0]), SetHolder(l)))
  }

  /** `sema_up`: the first waiter is woken, but the semaphore is not handed to it. */
  function UpStep(s: State, l: LockId): Outcome<State>
    requires Formed(s)
  {
    var me, k := s.cpu.running, LockOf(s, l);
    if k.value != 0 then Panic
    else if k.waiters == [] then Next(Goto(s, l, k.(value := k.value + 1, inside := k.inside - {me}), Out))
    else if k.waiters[0] !in s.cpu.status then Panic
    else
      var cpu :- Unblock(s.cpu, k.waiters[0]);
      Next(Goto(s, l, k.(value := k.value + 1, waiters := k.waiters[1..], inside := k.inside - {me}), Out).(cpu := cpu))
  }

  /** One step of `lock_acquire` or `lock_release`. */
  function ContinueStep(s: State): Outcome<State>
    requires Formed(s) && PcOf(s, s.cpu.running) != Out
  {
    var me := s.cpu.running;
    var l := PcOf(s, me).lock;
    var k := LockOf(s, l);
    var depth := if me in k.inside then k.inside[me] else 0;
    match PcOf(s, me)
    case AcqTest(_) => Next(Goto(s, l, k, if k.holder != Some(me) then Down(l) else Nest(l)))
    case Down(_) => DownStep(s, l)
    case SetHolder(_) => Next(Goto(s, l, k.(holder := Some(me)), SetNr(l)))
    case SetNr(_) => if k.nr != 0 then Panic else
      Next(Goto(s, l, k.(nr := 1, inside := k.inside[me := depth + 1]), Out))
    case Nest(_) => Next(Goto(s, l, k.(nr := U32(k.nr + 1), inside := k.inside[me := depth + 1]), Out))
    case RelTest(_) =>
      if k.holder != Some(me) then Panic
      else if k.nr > 1 then Next(Goto(s, l, k, Dec(l)))
      else if k.nr != 1 then Panic
      else Next(Goto(s, l, k, ClearHolder(l)))
    case Dec(_) =>
      Next(Goto(s, l, k.(nr := U32(k.nr - 1), inside := k.inside[me := if depth > 0 then depth - 1 else 0]), Out))
    case ClearHolder(_) => Next(Goto(s, l, k.(holder := None), ClearNr(l)))
    case ClearNr(_) => Next(Goto(s, l, k.(nr := 0), Up(l)))
    case Up(_) => UpStep(s, l)
  }

  ghost function Step(s: State, a: Action): Outcome<State>
    requires Formed(s) && Enabled(s, a)
  {
    match a
    case Continue => ContinueStep(s)
    case Acquire(l) => Next(Goto(s, l, LockOf(s, l), AcqTest(l)))
    case Release(l) => Next(Goto(s, l, LockOf(s, l), RelTest(l)))
    case Tick => var cpu :- Schedule(s.cpu); Next(s.(cpu := cpu))
    case GiveUp => var cpu :- Yield(s.cpu); Next(s.(cpu := cpu))
    case Park(st) => var cpu :- Block(s.cpu, st); Next(s.(cpu := cpu))
    case Wake(t) => var cpu :- Unblock(s.cpu, t); Next(s.(cpu := cpu))
    case Create(t) => Next(s.(cpu := Start(s.cpu, t)))
    case End => var cpu :- Block(s.cpu, TASK_OVER); Next(s.(cpu := cpu))
  }

  // ----- the invariant -----

  /** The thread has completed `sema_down` on `l` and not yet the matching `sema_up`. */
  predicate HasSemaphore(p: Pc, l: LockId) {
    p != Out && !p.AcqTest? && !p.Down? && p.lock == l
  }

  /** Holder and count in terms of the thread `t` inside, its depth `d`, and where it stands. They agree with the depth
      except in the two windows where the semaphore is taken and the holder not yet written, or already cleared. */
  ghost predicate Held(k: Lock, t: Tid, d: nat, p: Pc, l: LockId) {
    if p == Out || p.lock != l then HeldOutside(k, t, d) else
      match p
      case Down(_) => false
      case SetHolder(_) => k.holder == None && k.nr == 0 == d
      case SetNr(_) => k.holder == Some(t) && k.nr == 0 == d
      case Nest(_) => HeldOutside(k, t, d) && d < NR_MAX
      case AcqTest(_) => HeldOutside(k, t, d) && d < NR_MAX
      case RelTest(_) => HeldOutside(k, t, d)
      case Dec(_) => HeldOutside(k, t, d) && d > 1
      case ClearHolder(_) => HeldOutside(k, t, d) && d == 1
      case ClearNr(_) => k.holder == None && k.nr == 1 == d
      case Up(_) => k.holder == None && k.nr == 0
  }

  ghost predicate HeldOutside(k: Lock, t: Tid, d: nat) {
    k.holder == Some(t) && 1 <= d == k.nr
  }

  /** Mutual exclusion: the semaphore is 1 and nobody is inside, or it is 0 and exactly one thread is. */
  ghost predicate Exclusive(k: Lock) {
    if k.value == 0 then exists t :: k.inside.Keys == {t} else k.value == 1 && k.inside == map[]
  }

  /** Who waits in line is blocked in the loop of `sema_down`, once, and nobody else is. */
  ghost predicate Line(s: State, l: LockId) {
    && Unique(LockOf(s, l).waiters)
    && forall t :: t in LockOf(s, l).waiters <==> PcOf(s, t) == Down(l) && StatusOf(s, t) == TASK_BLOCKED
  }

  /** The threads inside are those whose code says so, and holder and count describe them. */
  ghost predicate Holding(s: State, l: LockId) {
    var k := LockOf(s, l);
    && (k.inside == map[] ==> k.holder == None && k.nr == 0)
    && (forall t :: t in k.inside ==>
      t != s.cpu.idle && StatusOf(s, t) != TASK_OVER && Held(k, t, k.inside[t], PcOf(s, t), l))
    && (forall t :: HasSemaphore(PcOf(s, t), l) ==> t in k.inside)
  }

  /** A woken thread that is about to test the semaphore again. */
  ghost predicate Retrying(s: State, l: LockId, t: Tid) {
    PcOf(s, t) == Down(l) && Runnable(StatusOf(s, t))
  }

  /** No lost wakeup: while the semaphore is free and threads wait, one that was woken is about to test it again. */
  ghost predicate WakeupPending(s: State, l: LockId) {
    LockOf(s, l).value == 1 && LockOf(s, l).waiters != [] ==> exists t :: Retrying(s, l, t)
  }

  ghost predicate LockOk(s: State, l: LockId) {
    Exclusive(LockOf(s, l)) && Line(s, l) && Holding(s, l) && WakeupPending(s, l)
  }

  /** A thread in the lock code is runnable, unless it waits in line; idle never is there. */
  ghost predicate InCode(s: State) {
    forall t :: PcOf(s, t) != Out ==>
      t != s.cpu.idle && (Runnable(StatusOf(s, t)) || (PcOf(s, t).Down? && StatusOf(s, t) == TASK_BLOCKED))
  }

  ghost predicate Inv(s: State) {
    SchedOk(s.cpu) && InCode(s) && forall l :: LockOk(s, l)
  }

  // ----- frames -----

  predicate About(p: Pc, l: LockId) {
    p != Out && p.lock == l
  }

  /** Thread `t` is runnable or blocked as before. */
  ghost predicate SameSleep(s: State, s1: State, t: Tid) {
    && (Runnable(StatusOf(s1, t)) <==> Runnable(StatusOf(s, t)))
    && (StatusOf(s1, t) == TASK_BLOCKED <==> StatusOf(s, t) == TASK_BLOCKED)
  }

  /** Nothing that concerns lock `l` happens from `s` to `s1`. */
  ghost predicate Elsewhere(s: State, s1: State, l: LockId) {
    && LockOf(s1, l) == LockOf(s, l) && s1.cpu.idle == s.cpu.idle
    && (forall t :: PcOf(s1, t) != PcOf(s, t) ==> !About(PcOf(s, t), l) && !About(PcOf(s1, t), l))
    && (forall t :: PcOf(s, t) == Down(l) ==> SameSleep(s, s1, t))
    && (forall t :: IsInside(s, l, t) && StatusOf(s, t) != TASK_OVER ==> StatusOf(s1, t) != TASK_OVER)
  }

  lemma OtherLine(s: State, s1: State, l: LockId)
    requires Elsewhere(s, s1, l) && Line(s, l)
    ensures Line(s1, l)
  {
    hide Unique, PcOf, StatusOf, LockOf;
    assert forall t :: PcOf(s1, t) == Down(l) <==> PcOf(s, t) == Down(l);
  }

  lemma OtherHolding(s: State, s1: State, l: LockId)
    requires Elsewhere(s, s1, l) && Holding(s, l)
    ensures Holding(s1, l)
  {
    hide Unique, PcOf, StatusOf, LockOf;
    assert forall t :: HasSemaphore(PcOf(s1, t), l) <==> HasSemaphore(PcOf(s, t), l);
    var k := LockOf(s, l);
    forall t | t in k.inside
      ensures StatusOf(s1, t) != TASK_OVER && Held(k, t, k.inside[t], PcOf(s1, t), l)
    {
      assert IsInside(s, l, t);
      assert Held(k, t, k.inside[t], PcOf(s, t), l);
    }
  }

  lemma OtherLock(s: State, s1: State, l: LockId)
    requires Elsewhere(s, s1, l) && LockOk(s, l)
    ensures LockOk(s1, l)
  {
    hide Held, HasSemaphore, Unique, PcOf, StatusOf, LockOf, Line, Holding;
    OtherLine(s, s1, l);
    OtherHolding(s, s1, l);
    if LockOf(s, l).value == 1 && LockOf(s, l).waiters != [] {
      var t :| Retrying(s, l, t);
      assert Retrying(s1, l, t);
    }
  }

  // ----- steps outside the lock code -----

  /** Threads in the lock code sleep or not as before, and whoever is inside a lock has not ended. */
  ghost predicate Undisturbed(s: State, s1: State) {
    && s1.pc == s.pc && s1.locks == s.locks && s1.cpu.idle == s.cpu.idle
    && (forall t :: PcOf(s, t) != Out ==> SameSleep(s, s1, t))
    && (forall l, t :: IsInside(s, l, t) ==> StatusOf(s1, t) != TASK_OVER)
  }

  lemma UndisturbedStep(s: State, s1: State)
    requires Inv(s) && SchedOk(s1.cpu) && Undisturbed(s, s1)
    ensures Inv(s1)
  {
    hide SchedOk, StatusOf, LockOk, IsInside;
    assert forall t :: PcOf(s1, t) == PcOf(s, t);
    forall l
      ensures LockOk(s1, l)
    {
      assert LockOf(s1, l) == LockOf(s, l);
      OtherLock(s, s1, l);
    }
  }

  lemma InsideAlive(s: State, l: LockId, t: Tid)
    requires Inv(s) && IsInside(s, l, t)
    ensures t != s.cpu.idle && StatusOf(s, t) != TASK_OVER && t in s.cpu.status
  {
    assert LockOk(s, l);
  }

  lemma RunningKnown(s: State)
    requires SchedOk(s.cpu)
    ensures Formed(s) && StatusOf(s, s.cpu.running) == TASK_RUNNING
  {
  }

  /** The processor changes hands and every sleeper but idle stays as it was. */
  lemma SwitchStep(s: State, s1: State)
    requires Inv(s) && s1 == s.(cpu := s1.cpu) && SchedOk(s1.cpu) && SleepersKept(s.cpu, s1.cpu)
    ensures Inv(s1)
  {
    hide SchedOk, LockOk;
    forall l, t | IsInside(s, l, t)
      ensures StatusOf(s1, t) != TASK_OVER
    {
      InsideAlive(s, l, t);
    }
    UndisturbedStep(s, s1);
  }

  /** The running thread parks or ends. */
  lemma BlockStep(s: State, st: Status, s1: State)
    requires Inv(s) && !Runnable(st) && PcOf(s, s.cpu.running) == Out && (s.cpu.running == s.cpu.idle ==> st == TASK_BLOCKED)
    requires st == TASK_OVER ==> forall l :: !IsInside(s, l, s.cpu.running)
    requires Block(s.cpu, st).Next? ==> s1 == s.(cpu := Block(s.cpu, st).state)
    ensures Block(s.cpu, st).Next? && Inv(s1)
  {
    BlockOk(s.cpu, st);
    RunningKnown(s);
    hide SchedOk, LockOk, Block;
    forall l, t | IsInside(s, l, t)
      ensures StatusOf(s1, t) != TASK_OVER
    {
      InsideAlive(s, l, t);
    }
    UndisturbedStep(s, s1);
  }

  lemma WakeStep(s: State, t: Tid, s1: State)
    requires Inv(s) && PcOf(s, t) == Out && t in s.cpu.status && Parked(s.cpu.status[t])
    requires Unblock(s.cpu, t).Next? ==> s1 == s.(cpu := Unblock(s.cpu, t).state)
    ensures Unblock(s.cpu, t).Next? && Inv(s1)
  {
    UnblockOk(s.cpu, t);
    hide SchedOk, LockOk;
    forall l, u | IsInside(s, l, u)
      ensures StatusOf(s1, u) != TASK_OVER
    {
      InsideAlive(s, l, u);
    }
    UndisturbedStep(s, s1);
  }

  lemma CreateStep(s: State, t: Tid, s1: State)
    requires Inv(s) && t !in s.cpu.status && s1 == s.(cpu := Start(s.cpu, t))
    ensures Inv(s1)
  {
    StartOk(s.cpu, t);
    hide SchedOk, LockOk;
    forall l, u | IsInside(s, l, u)
      ensures StatusOf(s1, u) != TASK_OVER
    {
      InsideAlive(s, l, u);
    }
    UndisturbedStep(s, s1);
  }

  // ----- steps in the lock code -----

  /** Once the lock concerned is right, so are the others. */
  lemma LockStep(s: State, s1: State, l: LockId)
    requires Inv(s) && SchedOk(s1.cpu) && InCode(s1) && LockOk(s1, l)
    requires forall m :: m != l ==> Elsewhere(s, s1, m)
    ensures Inv(s1)
  {
    hide SchedOk, LockOk, InCode, Elsewhere;
    forall m
      ensures LockOk(s1, m)
    {
      if m != l {
        OtherLock(s, s1, m);
      }
    }
  }

  lemma InsideOne(s: State, l: LockId, me: Tid)
    requires Inv(s) && IsInside(s, l, me)
    ensures LockOf(s, l).inside.Keys == {me} && LockOf(s, l).value == 0
    ensures me != s.cpu.idle && Held(LockOf(s, l), me, LockOf(s, l).inside[me], PcOf(s, me), l)
  {
    hide Held, HasSemaphore, Line, WakeupPending, SchedOk;
    assert LockOk(s, l);
    var t :| LockOf(s, l).inside.Keys == {t};
    assert me in {t};
  }

  /** The lock from the point of view of the running thread. */
  lemma InsideFacts(s: State, l: LockId)
    requires Inv(s)
    ensures var k, me := LockOf(s, l), s.cpu.running;
      && (HasSemaphore(PcOf(s, me), l) ==> me in k.inside)
      && (k.inside == map[] ==> k.holder == None && k.nr == 0)
      && k.value <= 1 && (k.value == 1 <==> k.inside == map[])
      && (k.value == 0 ==> exists t :: k.inside.Keys == {t})
      && (k.holder.Some? ==> k.holder.value in k.inside)
  {
    hide Line, WakeupPending, SchedOk, InCode;
    assert LockOk(s, l);
    var k := LockOf(s, l);
    if k.value == 0 {
      var t :| k.inside.Keys == {t};
      assert t in k.inside && Held(k, t, k.inside[t], PcOf(s, t), l);
    }
  }

  /** A step of the running thread in the code of lock `l` does not concern the others. */
  lemma Away(s: State, l: LockId, k1: Lock, q: Pc, s1: State)
    requires Inv(s) && s1.locks == s.locks[l := k1] && s1.pc == s.pc[s.cpu.running := q] && s1.cpu.idle == s.cpu.idle
    requires PcOf(s, s.cpu.running) == Out || About(PcOf(s, s.cpu.running), l)
    requires q == Out || About(q, l)
    requires forall t :: t != s.cpu.running && PcOf(s, t) != Out && !About(PcOf(s, t), l) ==> SameSleep(s, s1, t)
    requires forall t :: t in s.cpu.status && s.cpu.status[t] != TASK_OVER ==> StatusOf(s1, t) != TASK_OVER
    ensures forall m :: m != l ==> Elsewhere(s, s1, m)
    ensures forall t :: PcOf(s1, t) == if t == s.cpu.running then q else PcOf(s, t)
    ensures LockOf(s1, l) == k1
    ensures forall t :: IsInside(s, l, t) ==> StatusOf(s1, t) != TASK_OVER
  {
    hide SchedOk, LockOk, InCode;
    forall m, t | IsInside(s, m, t)
      ensures StatusOf(s1, t) != TASK_OVER
    {
      InsideAlive(s, m, t);
    }
  }

  lemma StillInCode(s: State, q: Pc, s1: State)
    requires InCode(s) && s1.cpu.idle == s.cpu.idle
    requires forall t :: PcOf(s1, t) == if t == s.cpu.running then q else PcOf(s, t)
    requires forall t :: t != s.cpu.running && PcOf(s, t) != Out ==> SameSleep(s, s1, t) || StatusOf(s1, t) == TASK_READY
    requires q != Out ==> s.cpu.running != s.cpu.idle && q.Down? && StatusOf(s1, s.cpu.running) == TASK_BLOCKED
    ensures InCode(s1)
  {
  }

  /** A step of the running thread that leaves the semaphore of lock `l` alone. */
  lemma QuietLock(s: State, l: LockId, k1: Lock, q: Pc, s1: State)
    requires Inv(s) && s1 == Goto(s, l, k1, q)
    requires PcOf(s, s.cpu.running) == Out || About(PcOf(s, s.cpu.running), l)
    requires PcOf(s, s.cpu.running) != Down(l) && (q == Out || About(q, l)) && (q != Out ==> s.cpu.running != s.cpu.idle)
    requires var k, me := LockOf(s, l), s.cpu.running;
      && k1.value == k.value && k1.waiters == k.waiters && k1.inside.Keys == k.inside.Keys
      && (if me in k.inside then Held(k1, me, k1.inside[me], q, l) else k1 == k && !HasSemaphore(q, l))
    ensures Inv(s1)
  {
    RunningKnown(s);
    SameCpu(s, s1);
    hide SchedOk, LockOk, Held, PcOf, LockOf, StatusOf, Elsewhere, HasSemaphore;
    SameSleepers(s, s1);
    Away(s, l, k1, q, s1);
    QuietOne(s, l, k1, q, s1);
    LockStep(s, s1, l);
  }

  lemma SameSleepers(s: State, s1: State)
    requires s1.cpu == s.cpu
    ensures forall t :: SameSleep(s, s1, t)
    ensures forall t :: t in s.cpu.status && s.cpu.status[t] != TASK_OVER ==> StatusOf(s1, t) != TASK_OVER
  {
  }

  lemma SameCpu(s: State, s1: State)
    requires s1.cpu == s.cpu
    ensures forall t :: StatusOf(s1, t) == StatusOf(s, t)
  {
  }

  lemma QuietOne(s: State, l: LockId, k1: Lock, q: Pc, s1: State)
    requires Inv(s) && LockOf(s1, l) == k1 && s1.cpu == s.cpu && PcOf(s, s.cpu.running) != Down(l)
    requires forall t :: PcOf(s1, t) == if t == s.cpu.running then q else PcOf(s, t)
    requires forall t :: StatusOf(s1, t) == StatusOf(s, t)
    requires StatusOf(s, s.cpu.running) == TASK_RUNNING
    requires var k, me := LockOf(s, l), s.cpu.running;
      && k1.value == k.value && k1.waiters == k.waiters && k1.inside.Keys == k.inside.Keys
      && (if me in k.inside then Held(k1, me, k1.inside[me], q, l) else k1 == k && !HasSemaphore(q, l))
    ensures LockOk(s1, l)
  {
    hide SchedOk, PcOf, StatusOf, Held, Unique, HasSemaphore;
    var k, me := LockOf(s, l), s.cpu.running;
    assert LockOk(s, l);
    assert k.inside == map[] <==> k1.inside == map[] by {
      assert k.inside.Keys == {} <==> k.inside == map[];
      assert k1.inside.Keys == {} <==> k1.inside == map[];
    }
    assert Holding(s1, l) by {
      if me in k.inside {
        InsideOne(s, l, me);
        assert forall t :: t in k1.inside ==> t in {me};
      }
    }
    if k.value == 1 && k.waiters != [] {
      var t :| Retrying(s, l, t);
      assert Retrying(s1, l, t);
    }
  }

  /** The semaphore is free and the running thread takes it, woken or barging in. */
  lemma TakeStep(s: State, l: LockId)
    requires Inv(s) && PcOf(s, s.cpu.running) == Down(l) && LockOf(s, l).value != 0
    ensures Formed(s) && DownStep(s, l).Next? && Inv(DownStep(s, l).state)
  {
    var k, me := LockOf(s, l), s.cpu.running;
    RunningKnown(s);
    InsideFacts(s, l);
    var k1 := k.(value := k.value - 1, inside := k.inside[me := 0]);
    var s1 := DownStep(s, l).state;
    assert s1 == Goto(s, l, k1, SetHolder(l));
    SameCpu(s, s1);
    hide SchedOk, LockOk, StatusOf, Elsewhere, HasSemaphore;
    SameSleepers(s, s1);
    Away(s, l, k1, SetHolder(l), s1);
    TakeOne(s, l, k1, s1);
    LockStep(s, s1, l);
  }

  lemma TakeOne(s: State, l: LockId, k1: Lock, s1: State)
    requires Inv(s) && LockOf(s1, l) == k1 && s1.cpu == s.cpu && PcOf(s, s.cpu.running) == Down(l)
    requires forall t :: PcOf(s1, t) == if t == s.cpu.running then SetHolder(l) else PcOf(s, t)
    requires forall t :: StatusOf(s1, t) == StatusOf(s, t)
    requires StatusOf(s, s.cpu.running) == TASK_RUNNING
    requires LockOf(s, l).inside == map[] && LockOf(s, l).holder == None && LockOf(s, l).nr == 0
    requires k1 == LockOf(s, l).(value := 0, inside := map[s.cpu.running := 0])
    ensures LockOk(s1, l)
  {
    hide SchedOk, PcOf, StatusOf, Unique;
    assert LockOk(s, l);
    assert k1.inside.Keys == {s.cpu.running};
  }

  /** The semaphore is taken: the running thread joins the line and sleeps. */
  lemma WaitStep(s: State, l: LockId)
    requires Inv(s) && PcOf(s, s.cpu.running) == Down(l) && LockOf(s, l).value == 0
    ensures Formed(s) && DownStep(s, l).Next? && Inv(DownStep(s, l).state)
  {
    var k, me := LockOf(s, l), s.cpu.running;
    RunningKnown(s);
    BlockOk(s.cpu, TASK_BLOCKED);
    NotInLine(s, l);
    var k1 := k.(waiters := k.waiters + [me]);
    var s1 := DownStep(s, l).state;
    assert s1.cpu == Block(s.cpu, TASK_BLOCKED).state;
    hide SchedOk, LockOk, Elsewhere, HasSemaphore, Block, Held;
    assert forall t :: t != me && PcOf(s, t) != Out ==> SameSleep(s, s1, t);
    Away(s, l, k1, Down(l), s1);
    StillInCode(s, Down(l), s1);
    WaitOne(s, l, s1);
    LockStep(s, s1, l);
  }

  lemma NotInLine(s: State, l: LockId)
    requires Inv(s)
    ensures s.cpu.running !in LockOf(s, l).waiters
  {
    RunningKnown(s);
    assert LockOk(s, l);
  }

  lemma WaitOne(s: State, l: LockId, s1: State)
    requires Inv(s) && PcOf(s, s.cpu.running) == Down(l) && s1.cpu.idle == s.cpu.idle
    requires LockOf(s1, l) == LockOf(s, l).(waiters := LockOf(s, l).waiters + [s.cpu.running]) && LockOf(s, l).value == 0
    requires s.cpu.running !in LockOf(s, l).waiters
    requires forall t :: PcOf(s1, t) == PcOf(s, t)
    requires forall t :: t != s.cpu.running && PcOf(s, t) == Down(l) ==> SameSleep(s, s1, t)
    requires StatusOf(s1, s.cpu.running) == TASK_BLOCKED
    requires forall t :: IsInside(s, l, t) ==> StatusOf(s1, t) != TASK_OVER
    ensures LockOk(s1, l)
  {
    hide SchedOk, PcOf, StatusOf, LockOf, HasSemaphore;
    assert LockOk(s, l);
    var q := LockOf(s, l).waiters;
    assert forall i :: 0 <= i < |q| ==> (q + [s.cpu.running])[i] == q[i];
    assert forall t :: t in q + [s.cpu.running] <==> t in q || t == s.cpu.running;
    assert forall t :: t in LockOf(s, l).inside ==> IsInside(s, l, t);
  }

  lemma UpOne(s: State, l: LockId, rest: seq<Tid>, s1: State)
    requires Inv(s) && PcOf(s, s.cpu.running) == Up(l) && s1.cpu.idle == s.cpu.idle
    requires LockOf(s1, l) == Lock(1, rest, None, 0, map[])
    requires LockOf(s, l).inside.Keys == {s.cpu.running}
    requires forall t :: PcOf(s1, t) == if t == s.cpu.running then Out else PcOf(s, t)
    requires var q := LockOf(s, l).waiters;
      if q == [] then rest == [] && (forall t :: StatusOf(s1, t) == StatusOf(s, t))
      else rest == q[1..] && (forall t :: StatusOf(s1, t) == if t == q[0] then TASK_READY else StatusOf(s, t))
    ensures LockOk(s1, l)
  {
    hide SchedOk, PcOf, StatusOf, LockOf, Held;
    assert LockOk(s, l);
    var q := LockOf(s, l).waiters;
    if q != [] {
      UniqueTail(q);
      assert q[0] in q;
      assert Retrying(s1, l, q[0]);
    }
    assert Line(s1, l);
    forall t
      ensures !HasSemaphore(PcOf(s1, t), l)
    {
      assert HasSemaphore(PcOf(s, t), l) ==> t in {s.cpu.running};
    }
  }

  /** The semaphore is given back and the first of the line is woken. */
  lemma UpOk(s: State, l: LockId)
    requires Inv(s) && PcOf(s, s.cpu.running) == Up(l)
    ensures Formed(s) && UpStep(s, l).Next? && Inv(UpStep(s, l).state)
  {
    var k, me := LockOf(s, l), s.cpu.running;
    RunningKnown(s);
    InsideFacts(s, l);
    assert IsInside(s, l, me);
    InsideOne(s, l, me);
    assert k.inside - {me} == map[];
    var rest := if k.waiters == [] then [] else k.waiters[1..];
    var k1 := Lock(1, rest, None, 0, map[]);
    if k.waiters != [] {
      FirstOfLine(s, l);
    }
    var s1 := UpStep(s, l).state;
    hide SchedOk, LockOk, Elsewhere, HasSemaphore, Held;
    assert s1 == Goto(s, l, k1, Out).(cpu := s1.cpu);
    Away(s, l, k1, Out, s1);
    StillInCode(s, Out, s1);
    UpOne(s, l, rest, s1);
    LockStep(s, s1, l);
  }

  lemma FirstOfLine(s: State, l: LockId)
    requires Inv(s) && LockOf(s, l).waiters != []
    ensures var w := LockOf(s, l).waiters[0];
      && PcOf(s, w) == Down(l) && StatusOf(s, w) == TASK_BLOCKED && w in s.cpu.status
      && Unblock(s.cpu, w).Next? && SchedOk(Unblock(s.cpu, w).state)
  {
    var w := LockOf(s, l).waiters[0];
    assert LockOk(s, l);
    assert w in LockOf(s, l).waiters;
    UnblockOk(s.cpu, w);
  }

  // ----- every run -----

  /** The steps in the code of a lock other than those of its semaphore. */
  lemma HolderStep(s: State)
    requires Inv(s) && PcOf(s, s.cpu.running) != Out
    requires !PcOf(s, s.cpu.running).Down? && !PcOf(s, s.cpu.running).Up?
    ensures Formed(s) && ContinueStep(s).Next? && Inv(ContinueStep(s).state)
  {
    var me := s.cpu.running;
    var p := PcOf(s, me);
    var l := p.lock;
    var k := LockOf(s, l);
    RunningKnown(s);
    InsideFacts(s, l);
    assert InCode(s);
    if me in k.inside {
      assert IsInside(s, l, me);
      InsideOne(s, l, me);
    }
    hide SchedOk, LockOk, InCode, Inv, LockOf;
    var s1 := ContinueStep(s).state;
    QuietLock(s, l, s1.locks[l], s1.pc[me], s1);
  }

  /** The steps outside the lock code. */
  lemma OutsideStep(s: State, a: Action)
    requires Inv(s) && Enabled(s, a) && !a.Continue? && !a.Acquire? && !a.Release?
    ensures Formed(s) && Step(s, a).Next? && Inv(Step(s, a).state)
  {
    RunningKnown(s);
    match a
    case Tick =>
      TickOk(s.cpu);
      SwitchStep(s, s.(cpu := Schedule(s.cpu).state));
    case GiveUp =>
      TickOk(s.cpu);
      SwitchStep(s, s.(cpu := Yield(s.cpu).state));
    case Park(st) =>
      hide Inv, Block;
      BlockStep(s, st, if Block(s.cpu, st).Next? then s.(cpu := Block(s.cpu, st).state) else s);
    case Wake(t) =>
      hide Inv, Unblock;
      WakeStep(s, t, if Unblock(s.cpu, t).Next? then s.(cpu := Unblock(s.cpu, t).state) else s);
    case Create(t) =>
      CreateStep(s, t, s.(cpu := Start(s.cpu, t)));
    case End =>
      hide Inv, Block;
      BlockStep(s, TASK_OVER, if Block(s.cpu, TASK_OVER).Next? then s.(cpu := Block(s.cpu, TASK_OVER).state) else s);
  }

  /** A call of `lock_acquire` or `lock_release`. */
  lemma CallStep(s: State, l: LockId, p: Pc)
    requires Inv(s) && PcOf(s, s.cpu.running) == Out && s.cpu.running != s.cpu.idle
    requires p == AcqTest(l) || (p == RelTest(l) && IsInside(s, l, s.cpu.running))
    requires IsInside(s, l, s.cpu.running) && p == AcqTest(l) ==> LockOf(s, l).inside[s.cpu.running] < NR_MAX
    ensures Inv(Goto(s, l, LockOf(s, l), p))
  {
    if IsInside(s, l, s.cpu.running) {
      InsideOne(s, l, s.cpu.running);
    }
    hide Inv, LockOf;
    QuietLock(s, l, LockOf(s, l), p, Goto(s, l, LockOf(s, l), p));
  }

  /** No ASSERT fails and the invariant is kept, whatever the enabled action. */
  lemma StepOk(s: State, a: Action)
    requires Inv(s) && Enabled(s, a)
    ensures Formed(s) && Step(s, a).Next? && Inv(Step(s, a).state)
  {
    RunningKnown(s);
    match a
    case Continue =>
      hide Inv, DownStep, UpStep, LockOf;
      var p := PcOf(s, s.cpu.running);
      if p.Down? {
        if LockOf(s, p.lock).value == 0 {
          WaitStep(s, p.lock);
        } else {
          TakeStep(s, p.lock);
        }
      } else if p.Up? {
        UpOk(s, p.lock);
      } else {
        HolderStep(s);
      }
    case Acquire(l) =>
      hide Inv, Goto;
      CallStep(s, l, AcqTest(l));
    case Release(l) =>
      InsideOne(s, l, s.cpu.running);
      hide Inv, Goto;
      CallStep(s, l, RelTest(l));
    case _ =>
      OutsideStep(s, a);
  }

  /** Threads outside the lock code, locks as initialised. */
  ghost predicate Initial(s: State) {
    SchedOk(s.cpu) && s.pc == map[] && s.locks == map[]
  }

  lemma InitialOk(s: State)
    requires Initial(s)
    ensures Inv(s)
  {
  }

  /** `ss` is a run in which the actions `acts` were taken. */
  ghost predicate Trace(ss: seq<State>, acts: seq<Action>) {
    && |ss| == |acts| + 1 && Initial(ss[0])
    && forall i :: 0 <= i < |acts| ==> Follows(ss[i], acts[i], ss[i + 1])
  }

  ghost predicate Follows(s: State, a: Action, s1: State) {
    Formed(s) && Enabled(s, a) && Step(s, a) == Next(s1)
  }

  lemma {:induction false} TraceOk(ss: seq<State>, acts: seq<Action>, n: nat)
    requires Trace(ss, acts) && n < |ss|
    ensures Inv(ss[n])
  {
    if n == 0 {
      InitialOk(ss[0]);
    } else {
      TraceOk(ss, acts, n - 1);
      assert Follows(ss[n - 1], acts[n - 1], ss[n]);
      StepOk(ss[n - 1], acts[n - 1]);
    }
  }

  /** In every run no ASSERT of the scheduler or the lock code fails. */
  lemma NeverPanics(ss: seq<State>, acts: seq<Action>, a: Action)
    requires Trace(ss, acts) && Enabled(ss[|acts|], a)
    ensures Formed(ss[|acts|]) && Step(ss[|acts|], a).Next?
  {
    TraceOk(ss, acts, |acts|);
    StepOk(ss[|acts|], a);
  }

  /** In every run at most one thread is between its `sema_down` and its `sema_up` on a lock, by its own program counter,
      and the semaphore is 0 or 1. */
  lemma MutualExclusion(ss: seq<State>, acts: seq<Action>, n: nat, l: LockId, t: Tid, u: Tid)
    requires Trace(ss, acts) && n < |ss|
    requires HasSemaphore(PcOf(ss[n], t), l) || IsInside(ss[n], l, t)
    requires HasSemaphore(PcOf(ss[n], u), l) || IsInside(ss[n], l, u)
    ensures t == u && LockOf(ss[n], l).value == 0
  {
    TraceOk(ss, acts, n);
    assert LockOk(ss[n], l);
    InsideOne(ss[n], l, t);
    InsideOne(ss[n], l, u);
    assert t in {u};
  }

  /** In every run, a lock that is free while threads wait has a woken thread about to test it. */
  lemma NoLostWakeup(ss: seq<State>, acts: seq<Action>, n: nat, l: LockId)
    requires Trace(ss, acts) && n < |ss|
    requires LockOf(ss[n], l).value == 1 && LockOf(ss[n], l).waiters != []
    ensures exists t :: PcOf(ss[n], t) == Down(l) && (t == ss[n].cpu.running || t in ss[n].cpu.ready)
  {
    TraceOk(ss, acts, n);
    hide Exclusive, Line, Holding, InCode;
    assert LockOk(ss[n], l);
    var t :| Retrying(ss[n], l, t);
  }

  /** The two windows: the semaphore is taken and holder and count are not both written yet, or they are already cleared. */
  predicate HandingOver(p: Pc, l: LockId) {
    About(p, l) && (p.SetHolder? || p.SetNr? || p.ClearNr? || p.Up?)
  }

  /** In every run, the holder and the count of a lock describe the thread inside it and its nesting depth exactly outside the
      two windows; with nobody inside there is no holder and the count is 0. */
  lemma HolderMatches(ss: seq<State>, acts: seq<Action>, n: nat, l: LockId, t: Tid)
    requires Trace(ss, acts) && n < |ss|
    ensures
      var lock := LockOf(ss[n], l);
      && (IsInside(ss[n], l, t) ==>
        (lock.holder == Some(t) && lock.nr == lock.inside[t] >= 1 <==> !HandingOver(PcOf(ss[n], t), l)))
      && (lock.inside == map[] ==> lock.holder == None && lock.nr == 0)
  {
    TraceOk(ss, acts, n);
    hide Inv;
    HoldingParts(ss[n], l);
    if IsInside(ss[n], l, t) {
      InsideOne(ss[n], l, t);
    }
  }

  lemma HoldingParts(s: State, l: LockId)
    requires Inv(s)
    ensures LockOf(s, l).inside == map[] ==> LockOf(s, l).holder == None && LockOf(s, l).nr == 0
  {
    hide Exclusive, Line, WakeupPending, InCode, SchedOk;
    assert LockOk(s, l);
  }

  /** In every run a thread is in at most one of the ready list and the waiter lists, at most once. */
  lemma OneList(ss: seq<State>, acts: seq<Action>, n: nat, l: LockId, m: LockId, t: Tid)
    requires Trace(ss, acts) && n < |ss| && t in LockOf(ss[n], l).waiters
    ensures t !in ss[n].cpu.ready && t != ss[n].cpu.running
    ensures t in LockOf(ss[n], m).waiters ==> m == l
    ensures Unique(ss[n].cpu.ready) && Unique(LockOf(ss[n], l).waiters)
  {
    TraceOk(ss, acts, n);
    hide Exclusive, Holding, WakeupPending;
    assert LockOk(ss[n], l) && LockOk(ss[n], m);
  }

  // ----- the order of the line -----

  /** The running thread executes its `sema_up` of lock `l`. */
  predicate Ups(s: State, a: Action, l: LockId) {
    a == Continue && PcOf(s, s.cpu.running) == Up(l)
  }

  /** It finds the semaphore of lock `l` taken. */
  predicate Queues(s: State, a: Action, l: LockId) {
    a == Continue && PcOf(s, s.cpu.running) == Down(l) && LockOf(s, l).value == 0
  }

  /** The line of a lock gains the thread that found the semaphore taken, at its end, and loses its head to a `sema_up`, which
      puts it first in the ready list. */
  lemma LineMoves(s: State, a: Action, s1: State, l: LockId)
    requires Inv(s) && Follows(s, a, s1)
    ensures
      var q, q1 := LockOf(s, l).waiters, LockOf(s1, l).waiters;
      if Ups(s, a, l) && q != [] then q1 == q[1..] && s1.cpu.ready == [q[0]] + s.cpu.ready && StatusOf(s1, q[0]) == TASK_READY
      else if Queues(s, a, l) then q1 == q + [s.cpu.running]
      else q1 == q
  {
    hide Inv, Block, Schedule, Yield;
    match a
    case Continue =>
      var p := PcOf(s, s.cpu.running);
      if !p.Down? && !p.Up? {
        hide DownStep, UpStep;
      }
    case _ =>
  }

  /** How many `sema_up`s of the lock there are in the steps from `n` to `m`. */
  ghost function UpCount(ss: seq<State>, acts: seq<Action>, l: LockId, n: nat, m: nat): nat
    requires |ss| == |acts| + 1 && n <= m <= |acts|
    decreases m
  {
    if m == n then 0 else UpCount(ss, acts, l, n, m - 1) + if Ups(ss[m - 1], acts[m - 1], l) then 1 else 0
  }

  /** Whoever has not been woken moves up by one place for each `sema_up`. */
  lemma {:induction false} LineAfter(ss: seq<State>, acts: seq<Action>, l: LockId, n: nat, m: nat)
    requires Trace(ss, acts) && n <= m <= |acts|
    ensures
      var q, q1, u := LockOf(ss[n], l).waiters, LockOf(ss[m], l).waiters, UpCount(ss, acts, l, n, m);
      u <= |q| ==> q[u..] <= q1
    decreases m
  {
    hide Inv, Follows, LockOf, Ups, Queues;
    if n < m {
      LineAfter(ss, acts, l, n, m - 1);
      TraceOk(ss, acts, m - 1);
      assert Follows(ss[m - 1], acts[m - 1], ss[m]);
      LineMoves(ss[m - 1], acts[m - 1], ss[m], l);
      var q, was, u := LockOf(ss[n], l).waiters, LockOf(ss[m - 1], l).waiters, UpCount(ss, acts, l, n, m - 1);
      if u < |q| {
        assert q[u..][0] == was[0] && q[u..][1..] == q[u + 1..];
      }
    }
  }

  /** First come, first woken: in every run the thread at place `k` of the line is woken by the (k + 1)-th `sema_up` from then on,
      and is then the first of the ready list. */
  lemma WokenInOrder(ss: seq<State>, acts: seq<Action>, l: LockId, n: nat, m: nat, k: nat)
    requires Trace(ss, acts) && n <= m < |acts| && k < |LockOf(ss[n], l).waiters|
    requires UpCount(ss, acts, l, n, m) == k && Ups(ss[m], acts[m], l)
    ensures
      var t := LockOf(ss[n], l).waiters[k];
      && LockOf(ss[m], l).waiters != [] && LockOf(ss[m], l).waiters[0] == t
      && LockOf(ss[m + 1], l).waiters == LockOf(ss[m], l).waiters[1..]
      && StatusOf(ss[m + 1], t) == TASK_READY && ss[m + 1].cpu.ready == [t] + ss[m].cpu.ready
  {
    hide Inv, Follows, LockOf, Ups, Queues, UpCount;
    LineAfter(ss, acts, l, n, m);
    assert LockOf(ss[n], l).waiters[k..][0] == LockOf(ss[n], l).waiters[k];
    TraceOk(ss, acts, m);
    assert Follows(ss[m], acts[m], ss[m + 1]);
    LineMoves(ss[m], acts[m], ss[m + 1], l);
  }

  // ----- what a call comes to -----

  /** How often the thread has acquired the lock; -1 if it is not inside. */
  function DepthOf(s: State, l: LockId, t: Tid): int {
    if IsInside(s, l, t) then LockOf(s, l).inside[t] else -1
  }

  /** In a call of `lock_acquire`, made at depth `d`. */
  ghost predicate Acquiring(s: State, t: Tid, l: LockId, d: int) {
    var p := PcOf(s, t);
    && About(p, l)
    && ((p.AcqTest? && DepthOf(s, l, t) == d && d != 0)
      || (p.Nest? && DepthOf(s, l, t) == d >= 1)
      || (p.Down? && DepthOf(s, l, t) == d == -1)
      || ((p.SetHolder? || p.SetNr?) && d == -1 && DepthOf(s, l, t) == 0))
  }

  /** In a call of `lock_release`, made at depth `d`. */
  ghost predicate Releasing(s: State, t: Tid, l: LockId, d: int) {
    var p := PcOf(s, t);
    && About(p, l) && DepthOf(s, l, t) == d >= 1
    && (p.RelTest? || (p.Dec? && d > 1) || ((p.ClearHolder? || p.ClearNr? || p.Up?) && d == 1))
  }

  /** The steps of the other threads leave a thread where it is, and its depth. */
  lemma OthersKeep(s: State, a: Action, s1: State, l: LockId, t: Tid)
    requires Inv(s) && Follows(s, a, s1) && (t != s.cpu.running || (a != Continue && PcOf(s, t) != Out))
    ensures PcOf(s1, t) == PcOf(s, t) && DepthOf(s1, l, t) == DepthOf(s, l, t)
  {
    hide Inv, Block, Schedule, Yield, Unblock;
    match a
    case Continue =>
      var p := PcOf(s, s.cpu.running);
      if p.Down? {
        hide UpStep;
      } else if p.Up? {
        hide DownStep;
      } else {
        hide DownStep, UpStep;
      }
    case _ =>
  }

  /** The holder is the thread inside, if it stands outside the two windows. */
  lemma HolderIs(s: State, l: LockId, t: Tid)
    requires Inv(s) && !HandingOver(PcOf(s, t), l)
    ensures LockOf(s, l).holder == Some(t) <==> IsInside(s, l, t)
    ensures IsInside(s, l, t) ==> LockOf(s, l).nr == DepthOf(s, l, t) >= 1
  {
    hide Inv;
    InsideFacts(s, l);
    if IsInside(s, l, t) {
      InsideOne(s, l, t);
    }
  }

  lemma AcquireOn(s: State, s1: State, l: LockId, d: int)
    requires Inv(s) && Follows(s, Continue, s1) && Acquiring(s, s.cpu.running, l, d)
    ensures
      var t := s.cpu.running;
      || Acquiring(s1, t, l, d)
      || (PcOf(s1, t) == Out && DepthOf(s1, l, t) == if d == -1 then 1 else d + 1)
  {
    var t := s.cpu.running;
    if !HandingOver(PcOf(s, t), l) {
      HolderIs(s, l, t);
    }
    hide Inv, Block, Schedule, UpStep;
    if !PcOf(s, t).Down? {
      hide DownStep;
    }
  }

  lemma ReleaseOn(s: State, s1: State, l: LockId, d: int)
    requires Inv(s) && Follows(s, Continue, s1) && Releasing(s, s.cpu.running, l, d)
    ensures
      var t := s.cpu.running;
      || Releasing(s1, t, l, d)
      || (PcOf(s1, t) == Out && DepthOf(s1, l, t) == if d == 1 then -1 else d - 1)
  {
    var t := s.cpu.running;
    if !HandingOver(PcOf(s, t), l) {
      HolderIs(s, l, t);
    }
    hide Inv, Schedule, Block, DownStep;
    if !PcOf(s, t).Up? {
      hide UpStep;
    }
  }

  /** From `n` on thread `t` is in the lock code, and at `m` outside for the first time. */
  ghost predicate Call(ss: seq<State>, acts: seq<Action>, n: nat, m: nat, t: Tid) {
    && Trace(ss, acts) && n < m < |ss| && ss[n].cpu.running == t && PcOf(ss[m], t) == Out
    && forall i :: n < i < m ==> PcOf(ss[i], t) != Out
  }

  lemma {:induction false} AcquiringUntil(ss: seq<State>, acts: seq<Action>, n: nat, m: nat, i: nat, t: Tid, l: LockId)
    requires Call(ss, acts, n, m, t) && acts[n] == Acquire(l) && n < i <= m
    ensures
      var d := DepthOf(ss[n], l, t);
      if i < m then Acquiring(ss[i], t, l, d) else DepthOf(ss[m], l, t) == if d == -1 then 1 else d + 1
    decreases i
  {
    hide Inv, Follows, Acquiring, DepthOf, PcOf;
    var d := DepthOf(ss[n], l, t);
    TraceOk(ss, acts, i - 1);
    assert Follows(ss[i - 1], acts[i - 1], ss[i]);
    if i == n + 1 {
      AcquireCalled(ss[n], ss[i], l);
    } else {
      AcquiringUntil(ss, acts, n, m, i - 1, t, l);
      if t == ss[i - 1].cpu.running && acts[i - 1] == Continue {
        AcquireOn(ss[i - 1], ss[i], l, d);
      } else {
        OthersKeep(ss[i - 1], acts[i - 1], ss[i], l, t);
        AcquiringSame(ss[i - 1], ss[i], t, l, d);
      }
      AcquiringInside(ss[i], t, l, d);
    }
  }

  lemma AcquireCalled(s: State, s1: State, l: LockId)
    requires Inv(s) && Follows(s, Acquire(l), s1)
    ensures Acquiring(s1, s.cpu.running, l, DepthOf(s, l, s.cpu.running)) && PcOf(s1, s.cpu.running) != Out
  {
    HolderIs(s, l, s.cpu.running);
    hide Inv;
  }

  lemma AcquiringSame(s: State, s1: State, t: Tid, l: LockId, d: int)
    requires Acquiring(s, t, l, d) && PcOf(s1, t) == PcOf(s, t) && DepthOf(s1, l, t) == DepthOf(s, l, t)
    ensures Acquiring(s1, t, l, d)
  {
    hide PcOf, DepthOf;
  }

  lemma AcquiringInside(s: State, t: Tid, l: LockId, d: int)
    ensures Acquiring(s, t, l, d) ==> PcOf(s, t) != Out
    ensures Releasing(s, t, l, d) ==> PcOf(s, t) != Out
  {
    hide PcOf, DepthOf;
  }

  /** In every run: when a call of `lock_acquire` returns, the caller holds the lock, once more than before. */
  lemma AcquireHolds(ss: seq<State>, acts: seq<Action>, n: nat, m: nat, t: Tid, l: LockId)
    requires Call(ss, acts, n, m, t) && acts[n] == Acquire(l)
    ensures
      var k, k1 := LockOf(ss[n], l), LockOf(ss[m], l);
      k1.holder == Some(t) && k1.nr == if k.holder == Some(t) then k.nr + 1 else 1
  {
    hide Inv, Acquiring, Follows;
    AcquiringUntil(ss, acts, n, m, m, t, l);
    TraceOk(ss, acts, n);
    TraceOk(ss, acts, m);
    assert Follows(ss[n], acts[n], ss[n + 1]);
    CalledOutside(ss[n], acts[n], ss[n + 1], l);
    HolderIs(ss[n], l, t);
    HolderIs(ss[m], l, t);
  }

  lemma CalledOutside(s: State, a: Action, s1: State, l: LockId)
    requires Follows(s, a, s1) && (a == Acquire(l) || a == Release(l))
    ensures PcOf(s, s.cpu.running) == Out && (a == Release(l) ==> IsInside(s, l, s.cpu.running))
  {
  }

  lemma {:induction false} ReleasingUntil(ss: seq<State>, acts: seq<Action>, n: nat, m: nat, i: nat, t: Tid, l: LockId)
    requires Call(ss, acts, n, m, t) && acts[n] == Release(l) && n < i <= m
    ensures
      var d := DepthOf(ss[n], l, t);
      if i < m then Releasing(ss[i], t, l, d) else d >= 1 && DepthOf(ss[m], l, t) == if d == 1 then -1 else d - 1
    decreases i
  {
    hide Inv, Follows, Releasing, DepthOf, PcOf;
    var d := DepthOf(ss[n], l, t);
    TraceOk(ss, acts, i - 1);
    assert Follows(ss[i - 1], acts[i - 1], ss[i]);
    if i == n + 1 {
      ReleaseCalled(ss[n], ss[i], l);
    } else {
      ReleasingUntil(ss, acts, n, m, i - 1, t, l);
      if t == ss[i - 1].cpu.running && acts[i - 1] == Continue {
        ReleaseOn(ss[i - 1], ss[i], l, d);
      } else {
        OthersKeep(ss[i - 1], acts[i - 1], ss[i], l, t);
        ReleasingSame(ss[i - 1], ss[i], t, l, d);
      }
      ReleasingSame(ss[i - 1], ss[i - 1], t, l, d);
      AcquiringInside(ss[i], t, l, d);
    }
  }

  lemma ReleaseCalled(s: State, s1: State, l: LockId)
    requires Inv(s) && Follows(s, Release(l), s1)
    ensures Releasing(s1, s.cpu.running, l, DepthOf(s, l, s.cpu.running)) && PcOf(s1, s.cpu.running) != Out
  {
    HolderIs(s, l, s.cpu.running);
    hide Inv;
  }

  lemma ReleasingSame(s: State, s1: State, t: Tid, l: LockId, d: int)
    requires Releasing(s, t, l, d) && PcOf(s1, t) == PcOf(s, t) && DepthOf(s1, l, t) == DepthOf(s, l, t)
    ensures Releasing(s1, t, l, d) && d >= 1
  {
    hide PcOf, DepthOf;
  }

  /** In every run: when a call of `lock_release` returns, the caller holds the lock once less, and not at all after the last. */
  lemma ReleaseDrops(ss: seq<State>, acts: seq<Action>, n: nat, m: nat, t: Tid, l: LockId)
    requires Call(ss, acts, n, m, t) && acts[n] == Release(l)
    ensures
      var k, k1 := LockOf(ss[n], l), LockOf(ss[m], l);
      && k.holder == Some(t) && k.nr >= 1
      && (if k.nr > 1 then k1.holder == Some(t) && k1.nr == k.nr - 1 else k1.holder != Some(t))
  {
    hide Inv, Releasing, Follows;
    ReleasingUntil(ss, acts, n, m, m, t, l);
    TraceOk(ss, acts, n);
    TraceOk(ss, acts, m);
    assert Follows(ss[n], acts[n], ss[n + 1]);
    CalledOutside(ss[n], acts[n], ss[n + 1], l);
    HolderIs(ss[n], l, t);
    HolderIs(ss[m], l, t);
  }
}
