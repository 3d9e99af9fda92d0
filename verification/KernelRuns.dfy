/** Whole runs: any sequence of kernel calls, made by whichever task is running, and ticks. */
module KernelRuns {
  import opened Lists
  import opened RunQueues
  import opened KernelState
  import opened MutexChains
  import opened Inheritance
  import opened TickLists
  import opened Kernels

  datatype Call =
    | CreateTask(t: Tid, pri: nat, autorun: bool)
    | DeleteTask(t: Tid)
    | SuspendTask(t: Tid)
    | ResumeTask(t: Tid)
    | SetPriority(t: Tid, pri: nat)
    | AbortWait(t: Tid)
    | Sleep(ticks: nat)
    | Yield
    | CreateMutex(o: Oid)
    | DeleteMutex(o: Oid)
    | Lock(o: Oid, ticks: nat)
    | Unlock(o: Oid)
    | CreateObject(o: Oid, policy: Policy)
    | DeleteObject(o: Oid)
    | PendOn(o: Oid, ticks: nat)
    | Wake(o: Oid, ts: seq<Tid>)
    | LockScheduler
    | UnlockScheduler
    | Tick(ticks: nat)
    | Reschedule

  /** What the caller owes the kernel: handles of the right kind, storage that is not in use when
      something is created in it, and an idle task that never waits. */
  predicate Allowed(k: Kernel, c: Call)
    reads k
  {
    && (c.CreateTask? ==> c.t < |k.state| && !IsLive(k.state[c.t]))
    && (c.DeleteTask? ==>
          && c.t < |k.state| && c.t < |k.mutexList| && k.state[c.t] != Seed
          && (k.state[c.t] == Deleted ==> k.mutexList[c.t] == []))
    && (c.SetPriority? ==> c.t < |k.state| && k.state[c.t] != Seed)
    && (c.SuspendTask? || c.ResumeTask? || c.AbortWait? ==> c.t < |k.state|)
    && (c.Sleep? ==> k.active != k.idle && c.ticks < TICK_MOD)
    && (c.CreateMutex? || c.CreateObject? ==> c.o < |k.kind| && k.kind[c.o] == NoObj)
    && (c.DeleteMutex? || c.Unlock? ==> c.o < |k.kind|)
    && (c.Lock? ==> c.o < |k.kind| && k.active != k.idle && c.ticks < TICK_MOD)
    && (c.DeleteObject? || c.Wake? ==> c.o < |k.kind| && k.kind[c.o] == OtherObj)
    && (c.Wake? ==> c.o < |k.waiters| && NoDup(c.ts) && forall i :: 0 <= i < |c.ts| ==> c.ts[i] in k.waiters[c.o])
    && (c.PendOn? ==>
          && c.o < |k.kind| && k.kind[c.o] == OtherObj && k.active != k.idle
          && 0 < c.ticks < TICK_MOD && k.schedLock == 0)
  }

  /** Time goes by in ticks, or in jumps of no more than half the 32-bit range. */
  predicate Punctual(c: Call) {
    c.Tick? ==> 0 < c.ticks <= HALF_RANGE
  }

  // ----- what a call does to timeouts -----

  /** The parts of the kernel that timeouts are about. */
  datatype Snap = Snap(list: seq<Tid>, now: nat, armed: seq<Arm>, state: seq<TaskState>, blkState: seq<BlkState>, active: Tid)

  ghost function Snapshot(k: Kernel): Snap
    reads k, k.tk
  {
    Snap(k.tk.list, k.tk.now, k.tk.armed, k.state, k.blkState, k.active)
  }

  /** The ticks a call may make its caller wait. */
  function Wants(c: Call): nat {
    if c.Sleep? || c.Lock? || c.PendOn? then c.ticks else 0
  }

  /** Has the timeout of `t` run out between two states? */
  predicate RanOut(a: Snap, b: Snap, t: Tid)
  {
    t < |a.state| && t < |b.state| && t < |b.blkState| && ByTimeout(a.state[t], b.state[t], b.blkState[t])
  }

  /** A tick ends exactly the ripe timeouts at the front of the list; other calls end none. Only the
      caller arms a timeout, with the ticks it asked for, and no call changes one. */
  ghost predicate Step(c: Call, a: Snap, b: Snap) {
    if c.Tick? then
      && b.now == a.now + c.ticks && b.armed == a.armed
      && AllBelow(a.list, |a.armed|) && b.list == a.list[Ripe(a.list, a.armed, b.now)..]
      && (forall t :: t in a.list && t !in b.list ==> RanOut(a, b, t))
    else
      && b.now == a.now && |b.armed| == |a.armed|
      && (forall t :: t in a.list && t in b.list ==> t < |a.armed| && b.armed[t] == a.armed[t])
      && (forall t :: t in a.list && t !in b.list ==> !RanOut(a, b, t))
      && (forall t :: t in b.list && t !in a.list ==> t == a.active && t < |b.armed| && b.armed[t] == Arm(b.now, Wants(c)))
  }

  /** The state diagram of the kernel: how call `c`, made by `active`, may move task `t`. */
  predicate Diagram(c: Call, active: Tid, t: Tid, s: TaskState, s': TaskState) {
    s' == s || match c
      case CreateTask(u, _, auto) => u == t && s in {Seed, Deleted} && s' == if auto then Ready else Suspended
      case DeleteTask(u) => if u == t then s' == Deleted else Woken(s, s')
      case SuspendTask(u) =>
        u == t && ((s == Ready && s' == Suspended) || (s == TaskState.Sleep && s' == SleepSuspended) || (s == Pend && s' == PendSuspended))
      case ResumeTask(u) =>
        u == t && ((s == Suspended && s' == Ready) || (s == SleepSuspended && s' == TaskState.Sleep) || (s == PendSuspended && s' == Pend))
      case AbortWait(u) => u == t && s !in {Seed, Deleted} && s' == Ready
      case Sleep(_) => t == active && s == Ready && s' == TaskState.Sleep
      case Lock(_, _) => t == active && s == Ready && s' == Pend
      case PendOn(_, _) => t == active && s == Ready && s' == Pend
      case Unlock(_) => Woken(s, s')
      case DeleteMutex(_) => Woken(s, s')
      case DeleteObject(_) => Woken(s, s')
      case Wake(_, _) => Woken(s, s')
      case Tick(_) => Woken(s, s') || (s == TaskState.Sleep && s' == Ready) || (s == SleepSuspended && s' == Suspended)
      case _ => false
  }

  /** The end of a wait: a task that is suspended besides stays suspended. */
  predicate Woken(s: TaskState, s': TaskState) {
    (s == Pend && s' == Ready) || (s == PendSuspended && s' == Suspended)
  }

  /** Every task moves along the diagram, or stays where it is; the running task is ready. */
  ghost predicate Moves(c: Call, a: Snap, b: Snap) {
    && |a.state| == |b.state| && b.active < |b.state| && b.state[b.active] == Ready
    && forall t :: 0 <= t < |a.state| ==> Diagram(c, a.active, t, a.state[t], b.state[t])
  }

  /** The list is sorted by the ends of timeouts, none of which has come. */
  ghost predicate Pending(a: Snap) {
    && NoDup(a.list) && AllBelow(a.list, |a.armed|) && SortedByEnd(a.list, a.armed)
    && forall t :: t in a.list ==> a.armed[t].at <= a.now < End(a.armed, t)
  }

  lemma StepLeft(c: Call, a: Snap, b: Snap)
    requires !c.Tick? && LeftOk(a.list, b.list, a.state, b.state, b.blkState) && b.now == a.now && b.armed == a.armed
    requires forall t :: t in a.list ==> t < |a.armed|
    ensures Step(c, a, b)
  {
  }

  lemma StepArmed(c: Call, a: Snap, b: Snap, deadline: seq<nat>, deadline': seq<nat>, count: nat)
    requires !c.Tick? && b.now == a.now && |a.armed| == |deadline|
    requires a.active < |a.armed| && forall t :: t in a.list ==> t < |a.armed|
    requires Armed(a.list, deadline, a.armed, b.list, deadline', b.armed, count, b.now, a.active, Wants(c)) && a.active !in a.list
    ensures Step(c, a, b)
  {
  }

  /** What the invariant says about the tick list. */
  lemma ListBounds(k: Kernel)
    requires k.Inv()
    ensures |k.tk.armed| == |k.tk.deadline| == |k.state| && k.active < |k.state| && k.active !in k.tk.list
    ensures TickOk(k.state, k.tk.list) && |k.blkState| == |k.state| && |k.waiters| == |k.kind|
    ensures forall t :: t in k.tk.list ==> t < |k.tk.armed|
    ensures k.tk.exact ==> Pending(Snapshot(k))
  {
    if k.tk.exact {
      SortedEnds(k.tk.list, k.tk.deadline, k.tk.count, k.tk.armed, k.tk.now);
    }
  }

  /** One call: the invariant is kept, timeouts are exact, and while the scheduler is locked the
      running task does not change. */
  method Perform(k: Kernel, c: Call)
    requires k.Inv() && Allowed(k, c)
    modifies k, k.rq, k.tk
    ensures k.Inv() && (Punctual(c) ==> k.tk.exact == old(k.tk.exact))
    ensures Moves(c, old(Snapshot(k)), Snapshot(k)) && (Punctual(c) && old(k.tk.exact) ==> Step(c, old(Snapshot(k)), Snapshot(k)))
    ensures old(k.schedLock) > 0 && c != UnlockScheduler ==> k.active == old(k.active) && k.schedLock >= old(k.schedLock)
  {
    hide *;
    match c {
      case Sleep(_) => DoSleep(k, c);
      case Lock(_, _) => DoLock(k, c);
      case PendOn(_, _) => DoPend(k, c);
      case Tick(_) => DoTick(k, c);
      case DeleteTask(_) => DoDelete(k, c);
      case AbortWait(_) => DoAbort(k, c);
      case Unlock(_) => DoUnlock(k, c);
      case DeleteMutex(_) => DoDeleteMutex(k, c);
      case DeleteObject(_) => DoDeleteObject(k, c);
      case Wake(_, _) => DoWake(k, c);
      case CreateMutex(_) => DoSimple(k, c);
      case CreateObject(_, _) => DoSimple(k, c);
      case LockScheduler => DoSimple(k, c);
      case UnlockScheduler => DoSimple(k, c);
      case Reschedule => DoSimple(k, c);
      case SuspendTask(_) => DoSuspend(k, c);
      case ResumeTask(_) => DoSuspend(k, c);
      case _ => DoPlain(k, c);
    }
  }

  lemma RunningReady(k: Kernel)
    requires k.Inv()
    ensures k.active < |k.state| && k.state[k.active] == Ready
  {
  }

  lemma MovesNone(c: Call, a: Snap, b: Snap)
    requires b.state == a.state && b.active < |b.state| && b.state[b.active] == Ready
    ensures Moves(c, a, b)
  {
  }

  lemma MovesOne(c: Call, a: Snap, b: Snap, t: Tid)
    requires t < |a.state| == |b.state| && b.state == a.state[t := b.state[t]] && b.active < |b.state| && b.state[b.active] == Ready
    requires Diagram(c, a.active, t, a.state[t], b.state[t])
    ensures Moves(c, a, b)
  {
  }

  lemma MovesWoken(c: Call, a: Snap, b: Snap)
    requires c.Unlock? || c.DeleteMutex? || c.DeleteObject? || c.Wake?
    requires WokenOnly(a.state, b.state) && b.active < |b.state| && b.state[b.active] == Ready
    ensures Moves(c, a, b)
  {
  }

  lemma MovesDead(c: Call, a: Snap, b: Snap)
    requires c.DeleteTask? && c.t < |a.state| && WokenOnly(a.state[c.t := Deleted], b.state)
    requires b.active < |b.state| && b.state[b.active] == Ready
    ensures Moves(c, a, b)
  {
  }

  lemma MovesTick(c: Call, a: Snap, b: Snap)
    requires c.Tick? && |a.state| == |b.state| && b.active < |b.state| && b.state[b.active] == Ready && TickOk(a.state, a.list)
    requires forall t :: t in a.list && t !in b.list ==> TimedOut(t, a.state, b.state, b.blkState)
    requires forall t :: 0 <= t < |b.state| && !(t in a.list && t !in b.list) ==> b.state[t] == a.state[t]
    ensures Moves(c, a, b)
  {
    forall t | 0 <= t < |a.state| ensures Diagram(c, a.active, t, a.state[t], b.state[t]) {
      if t in a.list && t !in b.list {
        assert TimedOut(t, a.state, b.state, b.blkState);
      }
    }
  }

  lemma Created(c: Call, active: Tid, s: TaskState)
    requires c.CreateTask? && !IsLive(s)
    ensures Diagram(c, active, c.t, s, if c.autorun then Ready else Suspended)
  {
  }

  lemma SuspendedOrResumed(k: Kernel, c: Call, active: Tid, s: TaskState)
    requires c.SuspendTask? || c.ResumeTask?
    ensures Diagram(c, active, c.t, s, if c.SuspendTask? then k.Suspending(s) else k.Resuming(s))
  {
  }

  lemma Blocks(c: Call, a: Snap)
    requires (c.Sleep? || c.Lock? || c.PendOn?) && a.active < |a.state| && a.state[a.active] == Ready
    ensures Diagram(c, a.active, a.active, Ready, if c.Sleep? then TaskState.Sleep else Pend)
  {
  }

  lemma Aborts(c: Call, a: Snap)
    requires c.AbortWait? && c.t < |a.state| && IsLive(a.state[c.t])
    ensures Diagram(c, a.active, c.t, a.state[c.t], Ready)
  {
  }

  lemma Waiters(k: Kernel, o: Oid, ts: seq<Tid>)
    requires k.Inv() && o < |k.waiters| && forall i :: 0 <= i < |ts| ==> ts[i] in k.waiters[o]
    ensures forall t :: t in ts ==> t < |k.state| && IsPended(k.state[t])
  {
  }

  lemma WokenThese(was: seq<TaskState>, now: seq<TaskState>, ts: seq<Tid>)
    requires |was| == |now| && (forall t :: t in ts ==> t < |was| && IsPended(was[t]) && now[t] == AfterWake(was[t]))
    requires forall t :: 0 <= t < |was| && t !in ts ==> now[t] == was[t]
    ensures WokenOnly(was, now)
  {
  }

  /** Calls that have nothing to do with timeouts. */
  method DoPlain(k: Kernel, c: Call)
    requires k.Inv() && Allowed(k, c)
    requires c.CreateTask? || c.SetPriority? || c.Yield?
    modifies k, k.rq
    ensures k.Inv() && Step(c, old(Snapshot(k)), Snapshot(k)) && Moves(c, old(Snapshot(k)), Snapshot(k))
    ensures old(k.schedLock) > 0 ==> k.active == old(k.active)
    ensures k.schedLock == old(k.schedLock)
  {
    hide k.Inv, Step, Moves, Diagram, k.Elected, InArms;
    ArmedBounds(k);
    match c {
      case CreateTask(t, pri, autorun) => var _ := k.TaskCreate(t, pri, autorun);
      case SetPriority(t, pri) => var _, _ := k.TaskPriSet(t, pri);
      case Yield => k.TaskYield();
    }
    StepUntimed(c, old(Snapshot(k)), Snapshot(k));
    RunningReady(k);
    if c.CreateTask? && k.state != old(k.state) {
      assert Diagram(c, old(k.active), c.t, old(k.state)[c.t], k.state[c.t]) by { Created(c, old(k.active), old(k.state)[c.t]); }
      MovesOne(c, old(Snapshot(k)), Snapshot(k), c.t);
    } else {
      MovesNone(c, old(Snapshot(k)), Snapshot(k));
    }
  }

  method DoSuspend(k: Kernel, c: Call)
    requires k.Inv() && Allowed(k, c) && (c.SuspendTask? || c.ResumeTask?)
    modifies k, k.rq
    ensures k.Inv() && Step(c, old(Snapshot(k)), Snapshot(k)) && Moves(c, old(Snapshot(k)), Snapshot(k))
    ensures old(k.schedLock) > 0 ==> k.active == old(k.active)
    ensures k.schedLock == old(k.schedLock)
  {
    hide k.Inv, Step, Moves, Diagram, k.Elected, InArms;
    ArmedBounds(k);
    match c {
      case SuspendTask(t) => var _ := k.TaskSuspend(t);
      case ResumeTask(t) => var _ := k.TaskResume(t);
    }
    StepUntimed(c, old(Snapshot(k)), Snapshot(k));
    RunningReady(k);
    if k.state == old(k.state) {
      MovesNone(c, old(Snapshot(k)), Snapshot(k));
    } else {
      SuspendedOrResumed(k, c, old(k.active), old(k.state)[c.t]);
      MovesOne(c, old(Snapshot(k)), Snapshot(k), c.t);
    }
  }

  method DoSimple(k: Kernel, c: Call)
    requires k.Inv() && Allowed(k, c)
    requires c.CreateMutex? || c.CreateObject? || c.LockScheduler? || c.UnlockScheduler? || c.Reschedule?
    modifies k, k.rq
    ensures k.Inv() && Step(c, old(Snapshot(k)), Snapshot(k)) && Moves(c, old(Snapshot(k)), Snapshot(k))
    ensures old(k.schedLock) > 0 && c != UnlockScheduler ==> k.active == old(k.active) && k.schedLock >= old(k.schedLock)
  {
    hide Step, Moves, Diagram, k.Elected, k.Settled, InArms;
    ArmedBounds(k);
    match c {
      case CreateMutex(o) => k.MutexCreate(o);
      case CreateObject(o, policy) => k.ObjCreate(o, policy);
      case LockScheduler => var _ := k.DisableSched();
      case UnlockScheduler => var _ := k.EnableSched();
      case Reschedule => k.CoreSched();
    }
    StepUntimed(c, old(Snapshot(k)), Snapshot(k));
    RunningReady(k);
    MovesNone(c, old(Snapshot(k)), Snapshot(k));
  }

  /** Every task on the list has a timeout. */
  ghost predicate InArms(list: seq<Tid>, armed: seq<Arm>) { forall t :: t in list ==> t < |armed| }

  lemma ArmedBounds(k: Kernel)
    requires k.Inv()
    ensures InArms(k.tk.list, k.tk.armed)
  {
  }

  lemma StepUntimed(c: Call, a: Snap, b: Snap)
    requires !c.Tick? && b.list == a.list && b.now == a.now && b.armed == a.armed && InArms(a.list, a.armed)
    ensures Step(c, a, b)
  {
  }

  method DoSleep(k: Kernel, c: Call)
    requires k.Inv() && c.Sleep? && Allowed(k, c)
    modifies k, k.rq, k.tk
    ensures k.Inv() && k.tk.exact == old(k.tk.exact) && Step(c, old(Snapshot(k)), Snapshot(k)) && Moves(c, old(Snapshot(k)), Snapshot(k))
    ensures old(k.schedLock) > 0 ==> k.active == old(k.active)
    ensures k.schedLock == old(k.schedLock)
  {
    hide k.Inv, Step, Moves, Diagram, k.Elected, Pending, Armed;
    ListBounds(k);
    RunningReady(k);
    ghost var a, d := Snapshot(k), k.tk.deadline;
    var r := k.TaskSleep(c.ticks);
    RunningReady(k);
    if r == Blocked {
      Blocks(c, a);
      MovesOne(c, a, Snapshot(k), a.active);
    } else {
      MovesNone(c, a, Snapshot(k));
    }
    if r == Blocked {
      StepArmed(c, a, Snapshot(k), d, k.tk.deadline, k.tk.count);
    } else {
      StepLeft(c, a, Snapshot(k));
    }
  }

  method DoLock(k: Kernel, c: Call)
    requires k.Inv() && c.Lock? && Allowed(k, c)
    modifies k, k.rq, k.tk
    ensures k.Inv() && k.tk.exact == old(k.tk.exact) && Step(c, old(Snapshot(k)), Snapshot(k)) && Moves(c, old(Snapshot(k)), Snapshot(k))
    ensures old(k.schedLock) > 0 ==> k.active == old(k.active)
    ensures k.schedLock == old(k.schedLock)
  {
    hide k.Inv, Step, Moves, Diagram, k.Elected, Pending, Armed;
    ListBounds(k);
    RunningReady(k);
    ghost var a, d := Snapshot(k), k.tk.deadline;
    var r := k.MutexLock(c.o, c.ticks);
    RunningReady(k);
    if r == Blocked {
      Blocks(c, a);
      MovesOne(c, a, Snapshot(k), a.active);
    } else {
      MovesNone(c, a, Snapshot(k));
    }
    if r == Blocked && c.ticks < WAIT_FOREVER {
      StepArmed(c, a, Snapshot(k), d, k.tk.deadline, k.tk.count);
    } else {
      StepLeft(c, a, Snapshot(k));
    }
  }

  method DoPend(k: Kernel, c: Call)
    requires k.Inv() && c.PendOn? && Allowed(k, c)
    modifies k, k.rq, k.tk
    ensures k.Inv() && k.tk.exact == old(k.tk.exact) && Step(c, old(Snapshot(k)), Snapshot(k)) && Moves(c, old(Snapshot(k)), Snapshot(k))
    ensures k.schedLock == old(k.schedLock) == 0
  {
    hide k.Inv, Step, Moves, Diagram, Pending, Armed;
    ListBounds(k);
    RunningReady(k);
    ghost var a, d := Snapshot(k), k.tk.deadline;
    k.ObjPend(c.o, c.ticks);
    RunningReady(k);
    Blocks(c, a);
    MovesOne(c, a, Snapshot(k), a.active);
    if c.ticks < WAIT_FOREVER {
      StepArmed(c, a, Snapshot(k), d, k.tk.deadline, k.tk.count);
    } else {
      StepLeft(c, a, Snapshot(k));
    }
  }

  lemma StepTick(c: Call, a: Snap, b: Snap)
    requires c.Tick? && b.now == a.now + c.ticks && b.armed == a.armed && TickOk(a.state, a.list)
    requires AllBelow(a.list, |a.armed|) && b.list == a.list[Ripe(a.list, a.armed, b.now)..]
    requires forall t :: t in a.list && t !in b.list ==> TimedOut(t, a.state, b.state, b.blkState)
    ensures Step(c, a, b)
  {
    hide Ripe;
    forall t | t in a.list && t !in b.list ensures RanOut(a, b, t) { assert TimedOut(t, a.state, b.state, b.blkState); }
  }

  method DoTick(k: Kernel, c: Call)
    requires k.Inv() && c.Tick?
    modifies k, k.rq, k.tk
    ensures k.Inv() && (Punctual(c) ==> k.tk.exact == old(k.tk.exact))
    ensures Moves(c, old(Snapshot(k)), Snapshot(k)) && (Punctual(c) && old(k.tk.exact) ==> Step(c, old(Snapshot(k)), Snapshot(k)))
    ensures k.active == old(k.active) && k.schedLock == old(k.schedLock)
  {
    hide k.Inv, Step, Moves, Diagram, Pending, Remain, Ripe, Front, Expired, Passes, End, NoDup, TickOk, TimedOut, AllBelow;
    ListBounds(k);
    k.TickUpdate(c.ticks);
    RunningReady(k);
    MovesTick(c, old(Snapshot(k)), Snapshot(k));
    if Punctual(c) && old(k.tk.exact) {
      StepTick(c, old(Snapshot(k)), Snapshot(k));
    }
  }

  method DoDelete(k: Kernel, c: Call)
    requires k.Inv() && c.DeleteTask? && Allowed(k, c)
    modifies k, k.rq, k.tk
    ensures k.Inv() && k.tk.exact == old(k.tk.exact) && Step(c, old(Snapshot(k)), Snapshot(k)) && Moves(c, old(Snapshot(k)), Snapshot(k))
    ensures old(k.schedLock) > 0 ==> k.active == old(k.active)
    ensures k.schedLock == old(k.schedLock)
  {
    hide k.Inv, Step, Moves, Diagram, k.Elected, Pending, LeftOk, WokenOnly, HandedOn, k.Leftovers;
    ListBounds(k);
    LeftNone(k.tk.list, k.state, k.blkState);
    NoLeftovers(k, c.t);
    var r := k.TaskDel(c.t);
    RunningReady(k);
    if r == Success {
      MovesDead(c, old(Snapshot(k)), Snapshot(k));
    } else {
      MovesNone(c, old(Snapshot(k)), Snapshot(k));
    }
    StepLeft(c, old(Snapshot(k)), Snapshot(k));
  }

  lemma NoLeftovers(k: Kernel, t: Tid)
    requires k.Inv() && t < |k.mutexList|
    ensures k.mutexList[t] == [] ==> k.Leftovers(t) == []
  {
    k.LeftoversEnd(t);
  }

  method DoAbort(k: Kernel, c: Call)
    requires k.Inv() && c.AbortWait? && Allowed(k, c)
    modifies k, k.rq, k.tk
    ensures k.Inv() && k.tk.exact == old(k.tk.exact) && Step(c, old(Snapshot(k)), Snapshot(k)) && Moves(c, old(Snapshot(k)), Snapshot(k))
    ensures old(k.schedLock) > 0 ==> k.active == old(k.active)
    ensures k.schedLock == old(k.schedLock)
  {
    hide k.Inv, Step, Moves, Diagram, Pending, LeftOk, TickOk;
    ListBounds(k);
    LeftNone(k.tk.list, k.state, k.blkState);
    var r := k.TaskWaitAbort(c.t);
    RunningReady(k);
    if r != Success {
      MovesNone(c, old(Snapshot(k)), Snapshot(k));
    } else {
      Aborts(c, old(Snapshot(k)));
      MovesOne(c, old(Snapshot(k)), Snapshot(k), c.t);
      LeftAborted(old(k.tk.list), k.tk.list, old(k.state), k.state, old(k.blkState), k.blkState, c.t);
    }
    StepLeft(c, old(Snapshot(k)), Snapshot(k));
  }

  method DoUnlock(k: Kernel, c: Call)
    requires k.Inv() && c.Unlock? && Allowed(k, c)
    modifies k, k.rq, k.tk
    ensures k.Inv() && k.tk.exact == old(k.tk.exact) && Step(c, old(Snapshot(k)), Snapshot(k)) && Moves(c, old(Snapshot(k)), Snapshot(k))
    ensures old(k.schedLock) > 0 ==> k.active == old(k.active)
    ensures k.schedLock == old(k.schedLock)
  {
    hide k.Inv, Step, Moves, Diagram, k.Elected, Pending, LeftOk;
    ListBounds(k);
    LeftNone(k.tk.list, k.state, k.blkState);
    ghost var ws := k.waiters[c.o];
    var r := k.MutexUnlock(c.o);
    RunningReady(k);
    WokenNone(old(k.state));
    if r != Success || ws == [] {
      MovesNone(c, old(Snapshot(k)), Snapshot(k));
    } else {
      WokenOneMore(old(k.state), old(k.state), k.state, ws[0]);
      MovesWoken(c, old(Snapshot(k)), Snapshot(k));
      LeftThenTold(ws[0], old(k.tk.list), old(k.tk.list), k.tk.list, old(k.state), old(k.state), k.state, old(k.blkState), k.blkState, BlkFinish);
    }
    StepLeft(c, old(Snapshot(k)), Snapshot(k));
  }

  method DoDeleteMutex(k: Kernel, c: Call)
    requires k.Inv() && c.DeleteMutex? && Allowed(k, c)
    modifies k, k.rq, k.tk
    ensures k.Inv() && k.tk.exact == old(k.tk.exact) && Step(c, old(Snapshot(k)), Snapshot(k)) && Moves(c, old(Snapshot(k)), Snapshot(k))
    ensures old(k.schedLock) > 0 ==> k.active == old(k.active)
    ensures k.schedLock == old(k.schedLock)
  {
    hide k.Inv, Step, Moves, Diagram, k.Elected, Pending, LeftOk, WokenOnly, AllTold;
    ListBounds(k);
    WokenNone(k.state);
    var _ := k.MutexDel(c.o);
    RunningReady(k);
    MovesWoken(c, old(Snapshot(k)), Snapshot(k));
    StepLeft(c, old(Snapshot(k)), Snapshot(k));
  }

  method DoDeleteObject(k: Kernel, c: Call)
    requires k.Inv() && c.DeleteObject? && Allowed(k, c)
    modifies k, k.rq, k.tk
    ensures k.Inv() && k.tk.exact == old(k.tk.exact) && Step(c, old(Snapshot(k)), Snapshot(k)) && Moves(c, old(Snapshot(k)), Snapshot(k))
    ensures old(k.schedLock) > 0 ==> k.active == old(k.active)
    ensures k.schedLock == old(k.schedLock)
  {
    hide k.Inv, Step, Moves, Diagram, k.Elected, Pending, LeftOk, WokenOnly, AllTold;
    ListBounds(k);
    k.ObjDel(c.o);
    RunningReady(k);
    MovesWoken(c, old(Snapshot(k)), Snapshot(k));
    StepLeft(c, old(Snapshot(k)), Snapshot(k));
  }

  method DoWake(k: Kernel, c: Call)
    requires k.Inv() && c.Wake? && Allowed(k, c)
    modifies k, k.rq, k.tk
    ensures k.Inv() && k.tk.exact == old(k.tk.exact) && Step(c, old(Snapshot(k)), Snapshot(k)) && Moves(c, old(Snapshot(k)), Snapshot(k))
    ensures old(k.schedLock) > 0 ==> k.active == old(k.active)
    ensures k.schedLock == old(k.schedLock)
  {
    hide k.Inv, Step, Moves, Diagram, k.Elected, Pending, LeftOk, NoDup;
    ListBounds(k);
    Waiters(k, c.o, c.ts);
    k.ObjWake(c.o, c.ts);
    RunningReady(k);
    WokenThese(old(k.state), k.state, c.ts);
    MovesWoken(c, old(Snapshot(k)), Snapshot(k));
    StepLeft(c, old(Snapshot(k)), Snapshot(k));
  }

  /** The effective priority of `t` is the least of its base priority and the priorities of the
      tasks waiting for a mutex it owns. */
  ghost predicate RunsAtInheritedPriority(k: Kernel, t: Tid)
    requires k.Inv() && t < |k.state|
    reads k, k.rq, k.tk
  {
    && k.prio[t] <= k.bprio[t]
    && (forall m, w {:trigger w in k.waiters[m]} ::
          0 <= m < |k.kind| && k.kind[m] == Mutex && k.owner[m] == Some(t) && w in k.waiters[m] ==>
            w < |k.state| && k.prio[t] <= k.prio[w])
    && (k.prio[t] == k.bprio[t] ||
        exists m, w {:trigger w in k.waiters[m]} ::
          && 0 <= m < |k.kind| && k.kind[m] == Mutex && k.owner[m] == Some(t)
          && w in k.waiters[m] && w < |k.state| && k.prio[w] == k.prio[t])
  }

  lemma InheritanceInPlainTerms(k: Kernel, t: Tid)
    requires k.Inv() && t < |k.state| && IsLive(k.state[t])
    ensures RunsAtInheritedPriority(k, t)
  {
    var boost := Boosts(k.state, k.blk, k.kind, k.owner);
    assert IsInherited(k.prio, k.bprio, boost, t, k.prio[t]);
    forall m, w | 0 <= m < |k.kind| && k.kind[m] == Mutex && k.owner[m] == Some(t) && w in k.waiters[m]
      ensures w < |k.state| && k.prio[t] <= k.prio[w]
    {
      assert boost[w] == Some(t);
    }
    if k.prio[t] != k.bprio[t] {
      var w :| 0 <= w < |boost| && boost[w] == Some(t) && k.prio[w] == k.prio[t];
      assert w in k.waiters[k.blk[w].value];
    }
  }

  /** In every reachable state without deadlock, a live task runs at exactly the least base priority of all
      tasks that wait for it, directly or through others, itself included. */
  lemma LeastOfWaiting(k: Kernel, t: Tid)
    requires k.Inv() && t < |k.state| && IsLive(k.state[t]) && NoCycle(Boosts(k.state, k.blk, k.kind, k.owner))
    ensures
      var boost := Boosts(k.state, k.blk, k.kind, k.owner);
      && (forall w :: 0 <= w < |k.state| && IsLive(k.state[w]) && WaitsFor(boost, w, t) ==> k.prio[t] <= k.bprio[w])
      && (exists w :: 0 <= w < |k.state| && IsLive(k.state[w]) && WaitsFor(boost, w, t) && k.prio[t] == k.bprio[w])
  {
    hide NoCycle, WaitsFor;
    LeastOfAllWaiting(k.state, k.prio, k.bprio, Boosts(k.state, k.blk, k.kind, k.owner), t);
  }

  /** A task is on the ready list of its priority iff ready, on the wait list of one object iff
      pended there, and never on two lists. */
  ghost predicate OnItsListsOnly(k: Kernel, t: Tid)
    requires k.Inv() && t < |k.state|
    reads k, k.rq, k.tk
  {
    && (forall p :: 0 <= p < PRI_MAX ==>
          |k.rq.lists| == PRI_MAX && (t in k.rq.lists[p] <==> k.state[t] == Ready && k.prio[t] == p))
    && (forall o :: 0 <= o < |k.waiters| ==>
          (t in k.waiters[o] <==> IsPended(k.state[t]) && k.blk[t] == Some(o)))
    && (IsSleeping(k.state[t]) ==> t in k.tk.list)
    && (t in k.tk.list ==> IsSleeping(k.state[t]) || IsPended(k.state[t]))
  }

  lemma ListsInPlainTerms(k: Kernel, t: Tid)
    requires k.Inv() && t < |k.state|
    ensures OnItsListsOnly(k, t)
  {
  }

  /** The bitmap matches the lists, `highest_pri` is its least bit, and the task the scheduler
      would pick is ready and at least as urgent as every ready task. */
  lemma PreferredIsMostUrgent(k: Kernel)
    requires k.Inv()
    ensures k.rq.highest < PRI_MAX && k.rq.lists[k.rq.highest] != []
    ensures forall p :: 0 <= p < PRI_MAX ==> (k.rq.bits[p] <==> exists t :: 0 <= t < |k.state| && k.state[t] == Ready && k.prio[t] == p)
    ensures
      var t := k.rq.lists[k.rq.highest][0];
      t < |k.state| && k.state[t] == Ready && k.Preferred(t)
  {
    var h := k.rq.highest;
    assert k.idle in k.rq.lists[IDLE_PRI];
    assert k.rq.lists[h][0] in k.rq.lists[h];
    forall p | 0 <= p < PRI_MAX
      ensures k.rq.bits[p] <==> exists t :: 0 <= t < |k.state| && k.state[t] == Ready && k.prio[t] == p
    {
      if k.rq.bits[p] {
        var t := k.rq.lists[p][0];
        assert t in k.rq.lists[p];
      }
    }
  }

  // ----- whole runs -----

  /** The states a run goes through: each call has its effect on timeouts, or was not made. */
  ghost predicate TraceOk(calls: seq<Call>, trace: seq<Snap>) {
    && |trace| == |calls| + 1 && (forall i :: 0 <= i < |calls| ==> Punctual(calls[i]))
    && (forall i :: 0 <= i < |trace| ==> Pending(trace[i]))
    && (forall i :: 0 <= i < |calls| ==> (!calls[i].Tick? && trace[i + 1] == trace[i]) || Step(calls[i], trace[i], trace[i + 1]))
  }

  /** Every step of a run, if its call was made at all, moves the tasks along the state diagram. */
  ghost predicate Lawful(calls: seq<Call>, trace: seq<Snap>) {
    && |trace| == |calls| + 1
    && (forall i :: 0 <= i < |trace| ==> trace[i].active < |trace[i].state| && trace[i].state[trace[i].active] == Ready)
    && (forall i :: 0 <= i < |calls| ==> trace[i + 1] == trace[i] || Moves(calls[i], trace[i], trace[i + 1]))
  }

  /** A suspended task stays suspended, and does not run, until it is resumed, aborted or deleted, whatever
      ends its wait in the meantime. */
  lemma {:induction false} SuspendedStays(calls: seq<Call>, trace: seq<Snap>, t: Tid, i: nat, j: nat)
    requires Lawful(calls, trace) && i <= j <= |calls| && t < |trace[i].state|
    requires trace[i].state[t] in {Suspended, SleepSuspended, PendSuspended}
    requires forall k :: i <= k < j ==> calls[k] !in {ResumeTask(t), AbortWait(t), DeleteTask(t)}
    ensures t < |trace[j].state| && trace[j].state[t] in {Suspended, SleepSuspended, PendSuspended} && trace[j].active != t
    decreases j
  {
    if i < j {
      SuspendedStays(calls, trace, t, i, j - 1);
      assert trace[j] == trace[j - 1] || Moves(calls[j - 1], trace[j - 1], trace[j]);
    }
  }

  /** The ticks among the calls from `i` up to `j`. */
  function Ticks(calls: seq<Call>, i: nat, j: nat): nat
    requires i <= j <= |calls|
  {
    if i == j then 0 else Ticks(calls, i, j - 1) + if calls[j - 1].Tick? then calls[j - 1].ticks else 0
  }

  /** As long as `t` waits its timeout stays as it was armed, and time goes by in ticks. */
  lemma {:induction false} Elapsed(calls: seq<Call>, trace: seq<Snap>, t: Tid, i: nat, j: nat)
    requires TraceOk(calls, trace) && i <= j <= |calls| && forall k :: i <= k <= j ==> t in trace[k].list
    ensures t < |trace[i].armed| && t < |trace[j].armed| && trace[j].armed[t] == trace[i].armed[t]
    ensures trace[j].now == trace[i].now + Ticks(calls, i, j)
    decreases j
  {
    hide Ripe, NoDup, SortedByEnd;
    assert Pending(trace[i]) && Pending(trace[j]);
    if i < j {
      Elapsed(calls, trace, t, i, j - 1);
      assert t in trace[j - 1].list && t in trace[j].list;
    }
  }

  /** Is `t` in the front of the list that passes the expiry test when it is `now`? */
  ghost predicate InFront(a: Snap, t: Tid, now: nat)
    requires AllBelow(a.list, |a.armed|)
  {
    exists i :: 0 <= i < |a.list| && a.list[i] == t && forall j :: 0 <= j <= i ==> Passes(End(a.armed, a.list[j]) - now)
  }

  lemma {:induction false} NoDupApart(s: seq<nat>, i: nat, j: nat)
    requires NoDup(s) && i < j < |s|
    ensures s[i] != s[j]
  {
    if i == 0 {
      assert s[1..][j - 1] == s[j];
    } else {
      NoDupApart(s[1..], i - 1, j - 1);
    }
  }

  /** A tick takes `t` off the list iff it is in that front. */
  lemma LeavesIffFront(c: Call, a: Snap, b: Snap, t: Tid)
    requires c.Tick? && Step(c, a, b) && Pending(a) && t in a.list
    ensures t !in b.list <==> InFront(a, t, b.now)
  {
    hide Passes, End, Pending;
    var p := Ripe(a.list, a.armed, b.now);
    var i :| 0 <= i < |a.list| && a.list[i] == t;
    OnceOnly(a, i, p);
  }

  lemma OnceOnly(a: Snap, i: nat, p: nat)
    requires Pending(a) && i < |a.list| && p <= |a.list|
    ensures a.list[i] in a.list[p..] <==> i >= p
    ensures forall j :: 0 <= j < |a.list| && a.list[j] == a.list[i] ==> j == i
  {
    forall j | 0 <= j < |a.list| && a.list[j] == a.list[i] ensures j == i {
      if i < j { NoDupApart(a.list, i, j); } else if j < i { NoDupApart(a.list, j, i); }
    }
    if i >= p {
      assert a.list[p..][i - p] == a.list[i];
    }
  }

  lemma PendingAt(a: Snap, i: nat, j: nat)
    requires Pending(a) && i <= j < |a.list|
    ensures a.list[i] < |a.armed| && a.list[j] < |a.armed| && End(a.armed, a.list[i]) <= End(a.armed, a.list[j])
    ensures a.armed[a.list[i]].at <= a.now < End(a.armed, a.list[i])
  {
    assert a.list[i] in a.list;
  }

  /** Up to half the range, being in that front is having no time left, whatever is ahead in the list. */
  lemma ShortIsExact(a: Snap, t: Tid, ticks: nat)
    requires Pending(a) && t in a.list && 0 < ticks <= HALF_RANGE
    ensures t < |a.armed| && AllBelow(a.list, |a.armed|)
    ensures End(a.armed, t) <= a.now + ticks || a.armed[t].span <= HALF_RANGE ==>
              (InFront(a, t, a.now + ticks) <==> End(a.armed, t) <= a.now + ticks)
  {
    hide Passes, Pending, NoDup, SortedByEnd, InFront;
    PendingBelow(a);
    var i :| 0 <= i < |a.list| && a.list[i] == t;
    PendingAt(a, i, i);
    if End(a.armed, t) <= a.now + ticks {
      OverdueInFront(a, i, a.now + ticks);
    } else if a.armed[t].span <= HALF_RANGE {
      PassesNear(End(a.armed, t) - (a.now + ticks));
      FrontPasses(a, t, a.now + ticks);
    }
  }

  lemma PendingBelow(a: Snap)
    requires Pending(a)
    ensures AllBelow(a.list, |a.armed|)
  {
  }

  lemma FrontPasses(a: Snap, t: Tid, now: nat)
    requires AllBelow(a.list, |a.armed|) && t < |a.armed|
    ensures InFront(a, t, now) ==> Passes(End(a.armed, t) - now)
  {
    hide Passes;
  }

  lemma OverdueInFront(a: Snap, i: nat, now: nat)
    requires Pending(a) && i < |a.list| && a.now <= now <= a.now + HALF_RANGE && AllBelow(a.list, |a.armed|)
    requires End(a.armed, a.list[i]) <= now
    ensures InFront(a, a.list[i], now)
  {
    hide Passes, Pending, NoDup;
    forall j | 0 <= j <= i ensures Passes(End(a.armed, a.list[j]) - now) {
      PendingAt(a, j, i);
      PassesNear(End(a.armed, a.list[j]) - now);
    }
  }

  /** What holds of a task while it waits. */
  lemma Waiting(calls: seq<Call>, trace: seq<Snap>, t: Tid, i: nat, j: nat)
    requires TraceOk(calls, trace) && i < j <= |calls|
    requires t !in trace[i].list && forall k :: i + 1 <= k <= j ==> t in trace[k].list
    ensures t == trace[i].active && t < |trace[j].armed| && trace[j].armed[t].span == Wants(calls[i])
    ensures End(trace[j].armed, t) - trace[j].now == Wants(calls[i]) - Ticks(calls, i + 1, j) > 0
    ensures Pending(trace[j]) && t in trace[j].list && Ticks(calls, i + 1, j) >= 0
  {
    hide Ripe, NoDup, SortedByEnd;
    assert t in trace[i + 1].list && t in trace[j].list;
    Elapsed(calls, trace, t, i + 1, j);
    assert Pending(trace[i + 1]) && Pending(trace[j]);
  }

  lemma StepAt(calls: seq<Call>, trace: seq<Snap>, j: nat)
    requires TraceOk(calls, trace) && j < |calls|
    ensures Punctual(calls[j]) && j + 1 < |trace|
    ensures calls[j].Tick? ==> Step(calls[j], trace[j], trace[j + 1]) && trace[j + 1].now == trace[j].now + calls[j].ticks
    ensures forall t :: t in trace[j].list && t !in trace[j + 1].list ==> (RanOut(trace[j], trace[j + 1], t) <==> calls[j].Tick?)
  {
    hide Ripe, Pending;
  }

  /** A task that a call has made wait for up to `n` ticks, and that goes on with the call before
      `j`: this is by timeout iff the call is a tick, and then the task is in the front of the list that
      passes the test. If `n` is at most half the range, it is so iff the n-th tick has come, whatever
      else has happened and whatever others wait for. It is never later than that. */
  lemma LeavesOnTime(calls: seq<Call>, trace: seq<Snap>, t: Tid, i: nat, j: nat)
    requires TraceOk(calls, trace) && i < j < |calls|
    requires t !in trace[i].list && (forall k :: i + 1 <= k <= j ==> t in trace[k].list) && t !in trace[j + 1].list
    ensures t == trace[i].active && Ticks(calls, i + 1, j) < Wants(calls[i])
    ensures RanOut(trace[j], trace[j + 1], t) <==> calls[j].Tick?
    ensures Wants(calls[i]) <= HALF_RANGE ==>
              (RanOut(trace[j], trace[j + 1], t) <==> Wants(calls[i]) <= Ticks(calls, i + 1, j + 1))
    ensures Wants(calls[i]) <= HALF_RANGE && (calls[j].Tick? ==> calls[j].ticks == 1) ==>
              (RanOut(trace[j], trace[j + 1], t) <==> Ticks(calls, i + 1, j + 1) == Wants(calls[i]))
  {
    hide TraceOk, Step, RanOut, InFront, Pending, End;
    Waiting(calls, trace, t, i, j);
    StepAt(calls, trace, j);
    if calls[j].Tick? {
      LeavesIffFront(calls[j], trace[j], trace[j + 1], t);
      ShortIsExact(trace[j], t, calls[j].ticks);
    }
  }

  /** A tick ends the wait of a task iff it finds it in that front; so a timeout ends early only if it
      is beyond half the range, and then iff some tick before its last one finds it there. */
  lemma TickEnds(calls: seq<Call>, trace: seq<Snap>, t: Tid, i: nat, j: nat)
    requires TraceOk(calls, trace) && i < j < |calls| && calls[j].Tick?
    requires t !in trace[i].list && (forall k :: i + 1 <= k <= j ==> t in trace[k].list)
    ensures AllBelow(trace[j].list, |trace[j].armed|) && (t !in trace[j + 1].list <==> InFront(trace[j], t, trace[j + 1].now))
    ensures InFront(trace[j], t, trace[j + 1].now) ==> PassesAfter(Wants(calls[i]), Ticks(calls, i + 1, j + 1))
    ensures t !in trace[j + 1].list && Ticks(calls, i + 1, j + 1) < Wants(calls[i]) ==> Wants(calls[i]) > HALF_RANGE
  {
    hide TraceOk, Step, RanOut, Pending, Passes;
    Waiting(calls, trace, t, i, j);
    StepAt(calls, trace, j);
    LeavesIffFront(calls[j], trace[j], trace[j + 1], t);
    ShortIsExact(trace[j], t, calls[j].ticks);
    assert Wants(calls[i]) - Ticks(calls, i + 1, j + 1) == End(trace[j].armed, t) - trace[j + 1].now;
  }

  /** A task still waiting has not had all its ticks. */
  lemma WaitsNoLonger(calls: seq<Call>, trace: seq<Snap>, t: Tid, i: nat, j: nat)
    requires TraceOk(calls, trace) && i < j <= |calls|
    requires t !in trace[i].list && forall k :: i + 1 <= k <= j ==> t in trace[k].list
    ensures Ticks(calls, i + 1, j) < Wants(calls[i])
  {
    hide TraceOk, Pending, End;
    Waiting(calls, trace, t, i, j);
  }

  /** With single ticks, a task that is first in the list all the time goes on by timeout on the tick
      `FirstPass` of its timeout: the last one, or an earlier one iff it is beyond half the range. */
  lemma {:induction false} FirstLeaves(calls: seq<Call>, trace: seq<Snap>, t: Tid, i: nat, j: nat)
    requires TraceOk(calls, trace) && i < j < |calls| && t !in trace[i].list
    requires forall k :: i + 1 <= k <= j ==> trace[k].list != [] && trace[k].list[0] == t
    requires forall k :: i < k <= j && calls[k].Tick? ==> calls[k].ticks == 1
    ensures 0 < Wants(calls[i]) && Ticks(calls, i + 1, j) < FirstPass(Wants(calls[i]))
    ensures calls[j].Tick? ==> (t !in trace[j + 1].list <==> Ticks(calls, i + 1, j + 1) == FirstPass(Wants(calls[i])))
    decreases j
  {
    hide TraceOk, FirstPass, Step, RanOut;
    StepAt(calls, trace, j);
    forall k | i + 1 <= k <= j ensures t in trace[k].list { assert trace[k].list[0] == t; }
    WaitsNoLonger(calls, trace, t, i, j);
    if j > i + 1 {
      FirstLeaves(calls, trace, t, i, j - 1);
    }
    if calls[j].Tick? {
      FirstStays(calls, trace, t, i, j);
    }
  }

  lemma FirstStays(calls: seq<Call>, trace: seq<Snap>, t: Tid, i: nat, j: nat)
    requires TraceOk(calls, trace) && i < j < |calls| && t !in trace[i].list && calls[j].Tick? && calls[j].ticks == 1
    requires forall k :: i + 1 <= k <= j ==> t in trace[k].list
    requires trace[j].list != [] && trace[j].list[0] == t
    requires 0 < Wants(calls[i]) && Ticks(calls, i + 1, j) < FirstPass(Wants(calls[i]))
    ensures t !in trace[j + 1].list <==> Ticks(calls, i + 1, j + 1) == FirstPass(Wants(calls[i]))
  {
    hide TraceOk, Step, RanOut, Pending, Passes;
    Waiting(calls, trace, t, i, j);
    StepAt(calls, trace, j);
    TickEnds(calls, trace, t, i, j);
    var n, k := Wants(calls[i]), Ticks(calls, i + 1, j + 1);
    assert n - k == End(trace[j].armed, t) - trace[j + 1].now;
    if PassesAfter(n, k) {
      assert InFront(trace[j], t, trace[j + 1].now);
    }
  }

  /** Every state any run reaches satisfies the invariant, and with it the plain statements; if time
      goes by in ticks or small jumps, every step treats timeouts as `Step` says. */
  method Run(tasks: nat, objects: nat, idle: Tid, calls: seq<Call>) returns (k: Kernel, ghost trace: seq<Snap>)
    requires idle < tasks
    ensures k.Inv()
    ensures forall t :: 0 <= t < |k.state| && IsLive(k.state[t]) ==> RunsAtInheritedPriority(k, t)
    ensures forall t :: 0 <= t < |k.state| ==> OnItsListsOnly(k, t)
    ensures Lawful(calls, trace) && trace[|calls|] == Snapshot(k)
    ensures (forall i :: 0 <= i < |calls| ==> Punctual(calls[i])) ==> TraceOk(calls, trace) && trace[|calls|] == Snapshot(k)
  {
    k := new Kernel(tasks, objects, idle);
    trace := RunAll(k, calls);
    forall t | 0 <= t < |k.state|
      ensures IsLive(k.state[t]) ==> RunsAtInheritedPriority(k, t)
      ensures OnItsListsOnly(k, t)
    {
      ListsInPlainTerms(k, t);
      if IsLive(k.state[t]) {
        InheritanceInPlainTerms(k, t);
      }
    }
  }

  method RunAll(k: Kernel, calls: seq<Call>) returns (ghost trace: seq<Snap>)
    requires k.Inv() && k.tk.exact
    modifies k, k.rq, k.tk
    ensures k.Inv() && Lawful(calls, trace) && trace[|calls|] == Snapshot(k)
    ensures (forall i :: 0 <= i < |calls| ==> Punctual(calls[i])) ==> TraceOk(calls, trace) && trace[|calls|] == Snapshot(k)
  {
    hide *;
    ghost var punctual := forall i :: 0 <= i < |calls| ==> Punctual(calls[i]);
    trace := [Snapshot(k)];
    PendingNow(k);
    SnapReady(k);
    TraceStart(Snapshot(k));
    LawfulStart(Snapshot(k));
    assert calls[..0] == [];
    for i := 0 to |calls|
      invariant k.Inv() && |trace| == i + 1 && Lawful(calls[..i], trace) && trace[i] == Snapshot(k)
      invariant punctual ==> k.tk.exact && TraceOk(calls[..i], trace) && trace[i] == Snapshot(k)
    {
      assert calls[..i + 1] == calls[..i] + [calls[i]];
      if calls[i].Tick? || Allowed(k, calls[i]) {
        if calls[i].Tick? {
          TicksAllowed(k, calls[i]);
        }
        Perform(k, calls[i]);
      }
      PendingNow(k);
      SnapReady(k);
      LawfulMore(calls[..i], trace, calls[i], Snapshot(k));
      if punctual {
        TraceMore(calls[..i], trace, calls[i], Snapshot(k));
      }
      trace := trace + [Snapshot(k)];
    }
    assert calls[..|calls|] == calls;
  }

  lemma SnapReady(k: Kernel)
    requires k.Inv()
    ensures Snapshot(k).active < |Snapshot(k).state| && Snapshot(k).state[Snapshot(k).active] == Ready
  {
  }

  lemma LawfulStart(a: Snap)
    requires a.active < |a.state| && a.state[a.active] == Ready
    ensures Lawful([], [a])
  {
  }

  lemma LawfulMore(calls: seq<Call>, trace: seq<Snap>, c: Call, b: Snap)
    requires Lawful(calls, trace) && |trace| == |calls| + 1 && (b == trace[|calls|] || Moves(c, trace[|calls|], b))
    requires b.active < |b.state| && b.state[b.active] == Ready
    ensures Lawful(calls + [c], trace + [b])
  {
    hide Moves;
  }

  lemma PendingNow(k: Kernel)
    requires k.Inv()
    ensures k.tk.exact ==> Pending(Snapshot(k))
  {
    ListBounds(k);
  }

  lemma TraceStart(a: Snap)
    requires Pending(a)
    ensures TraceOk([], [a])
  {
  }

  lemma TicksAllowed(k: Kernel, c: Call)
    requires c.Tick?
    ensures Allowed(k, c)
  {
  }

  lemma TraceMore(calls: seq<Call>, trace: seq<Snap>, c: Call, b: Snap)
    requires TraceOk(calls, trace) && |trace| == |calls| + 1 && Punctual(c) && Pending(b) && ((!c.Tick? && b == trace[|calls|]) || Step(c, trace[|calls|], b))
    ensures TraceOk(calls + [c], trace + [b])
  {
    hide Step, Pending;
  }

  /** While the scheduler is locked, whatever calls are made, the running task goes on running. */
  method Critical(k: Kernel, calls: seq<Call>)
    requires k.Inv() && k.schedLock < LOCK_MAX
    requires forall i :: 0 <= i < |calls| ==> calls[i] != UnlockScheduler
    modifies k, k.rq, k.tk
    ensures k.Inv() && k.active == old(k.active) && k.schedLock > old(k.schedLock)
  {
    hide k.Inv, Step, Allowed;
    var _ := k.DisableSched();
    for i := 0 to |calls|
      invariant k.Inv() && k.active == old(k.active) && k.schedLock > old(k.schedLock)
    {
      if Allowed(k, calls[i]) {
        Perform(k, calls[i]);
      }
    }
  }

  /** As many yields as there are tasks of the running task's priority give each of them one turn, in
      the order of their list, which is then as before. */
  method YieldRound(k: Kernel) returns (turns: seq<Tid>)
    requires k.Inv() && k.schedLock == 0 && k.Elected()
    modifies k, k.rq
    ensures k.Inv() && k.Elected() && k.active == old(k.active) && k.rq.lists == old(k.rq.lists)
    ensures k.prio[k.active] < old(|k.rq.lists|) && turns == old(k.rq.lists[k.prio[k.active]]) && NoDup(turns)
  {
    hide k.Settled, NoDup;
    ghost var lists, p := k.rq.lists, k.prio[k.active];
    k.ElectedHeads();
    ghost var l := lists[p];
    turns := [];
    var n := |k.rq.lists[k.prio[k.active]]|;
    assert l[0..] + l[..0] == l && lists[p := l] == lists;
    for i := 0 to n
      invariant k.Inv() && k.Elected() && k.schedLock == 0 && k.prio == old(k.prio) && k.state == old(k.state)
      invariant turns == l[..i] && k.rq.lists == lists[p := l[i..] + l[..i]] && k.active == l[if i < n then i else 0]
    {
      k.ElectedHeads();
      turns := turns + [k.active];
      k.TaskYield();
      k.ElectedHeads();
      assert (l[i..] + l[..i])[1..] + [l[i]] == l[i + 1..] + l[..i + 1];
    }
    assert l[n..] + l[..n] == l;
  }
}
