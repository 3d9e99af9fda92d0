/** Runs that show where the kernel falls short, and how far. */
module KernelWitness {
  import opened Lists
  import opened RunQueues
  import opened KernelState
  import opened MutexChains
  import opened TickLists
  import opened Kernels
  import opened KernelRuns

  /** Who runs: the most urgent of the ready tasks, here never the idle task. */
  lemma RunsInstead(k: Kernel, t: Tid)
    requires k.Inv() && k.Elected() && t < |k.state| && k.state[t] == Ready && k.prio[t] < IDLE_PRI
    ensures k.active != k.idle && k.prio[k.active] <= k.prio[t]
  {
  }

  lemma HeadIn(s: seq<nat>)
    ensures s != [] ==> s[0] in s
  {
  }

  lemma AllSame(s: seq<nat>, x: nat)
    requires NoDup(s) && x in s && forall y :: y in s ==> y == x
    ensures s == [x]
  {
    HeadIn(s);
    HeadIn(s[1..]);
    assert forall y :: y in s[1..] ==> y in s;
  }

  lemma OnlyWaiter(k: Kernel, o: Oid, t: Tid)
    requires k.Inv() && o < |k.waiters| && t in k.waiters[o]
    requires forall u :: 0 <= u < |k.state| && IsPended(k.state[u]) ==> u == t
    ensures k.waiters[o] == [t]
  {
    AllSame(k.waiters[o], t);
  }

  lemma BaseLimits(k: Kernel, t: Tid)
    requires k.Inv() && t < |k.state| && IsLive(k.state[t])
    ensures t < |k.prio| && t < |k.bprio| && k.prio[t] <= k.bprio[t]
  {
    InheritanceInPlainTerms(k, t);
  }

  /** An owner does not wait for its own mutex, and its mutex is on its list. */
  lemma OwnerFacts(k: Kernel, m: Oid, t: Tid)
    requires k.Inv() && m < |k.kind| && k.kind[m] == Mutex && k.owner[m] == Some(t)
    ensures t < |k.state| && t < |k.mutexList| && m in k.mutexList[t] && t !in k.waiters[m]
  {
  }

  /** Deleting an owner passes its mutex on together with its nesting count: the new owner holds it
      with count 1, and gives it up with its first unlock, iff the dead owner held it once. */
  method DeleteOwner(k: Kernel, t: Tid, m: Oid) returns (r: Status)
    requires k.Inv() && t < |k.state| && k.schedLock == 0 && IsLive(k.state[t]) && k.prio[t] != IDLE_PRI
    requires m < |k.kind| && k.kind[m] == Mutex && k.owner[m] == Some(t) && k.waiters[m] != []
    modifies k, k.rq, k.tk
    ensures k.Inv() && r == Success && k.kind == old(k.kind)
    ensures k.owner[m] == Some(old(k.waiters[m][0])) && (k.nested[m] == 1 <==> old(k.nested[m]) == 1)
  {
    hide k.Settled, k.Elected, LeftOk;
    OwnerFacts(k, m, t);
    r := k.TaskDel(t);
  }

  /** Task 1 of three tasks runs and holds the only mutex; task 2 does not exist yet. */
  ghost predicate OneHolds(k: Kernel, n: nat)
    reads k, k.rq, k.tk
  {
    && k.Inv() && k.idle == 0 && k.schedLock == 0 && k.active == 1
    && k.state == [Ready, Ready, Seed] && k.kind == [Mutex] && k.owner == [Some(1)] && k.nested == [n]
    && k.prio[1] == 5 && k.mutexList == [[], [0], []]
  }

  method FirstTaskLocks() returns (k: Kernel)
    ensures fresh(k) && fresh(k.rq) && fresh(k.tk) && OneHolds(k, 1)
  {
    k := FirstTaskRuns();
    LockFree(k);
  }

  method FirstTaskRuns() returns (k: Kernel)
    ensures fresh(k) && fresh(k.rq) && fresh(k.tk) && k.Inv() && k.idle == 0 && k.schedLock == 0 && k.active == 1 && k.tk.exact
    ensures k.state == [Ready, Ready, Seed] && k.kind == [Mutex] && k.owner == [None]
    ensures |k.prio| == 3 && k.prio[1] == 5 && k.mutexList == [[], [], []]
  {
    k := new Kernel(3, 1, 0);
    assert k.state == [Ready, Seed, Seed] && k.mutexList == [[], [], []] && k.kind == [NoObj];
    FirstTaskStarts(k);
  }

  method FirstTaskStarts(k: Kernel)
    requires k.Inv() && k.idle == 0 && k.active == 0 && k.schedLock == 0
    requires k.state == [Ready, Seed, Seed] && k.kind == [NoObj] && k.mutexList == [[], [], []]
    modifies k, k.rq
    ensures k.Inv() && k.schedLock == 0 && k.active == 1
    ensures k.state == [Ready, Ready, Seed] && k.kind == [Mutex] && k.owner == [None]
    ensures |k.prio| == 3 && k.prio[1] == 5 && k.mutexList == [[], [], []]
  {
    hide k.Settled;
    Lengths(k);
    var r := k.TaskCreate(1, 5, true);
    RunsInstead(k, 1);
    Lengths(k);
    k.MutexCreate(0);
    Lengths(k);
  }

  method LockFree(k: Kernel)
    requires k.Inv() && k.idle == 0 && k.schedLock == 0 && k.active == 1
    requires k.state == [Ready, Ready, Seed] && k.kind == [Mutex] && k.owner == [None]
    requires |k.prio| == 3 && k.prio[1] == 5 && k.mutexList == [[], [], []]
    modifies k, k.rq, k.tk
    ensures OneHolds(k, 1)
  {
    hide k.Settled;
    Lengths(k);
    var r := k.MutexLock(0, 1);
    Lengths(k);
    assert r == Success && [0] + [] == [0];
  }

  lemma Lengths(k: Kernel)
    requires k.Inv()
    ensures |k.prio| == |k.state| == |k.mutexList| == |k.bprio| && |k.owner| == |k.kind| == |k.nested| == |k.waiters| == |k.link|
  {
  }

  /** Task 1 locks a mutex twice, task 2 waits for it, task 1 is deleted: one unlock by task 2, which
      has locked it once, does not free it. */
  method NestingSurvives() returns (k: Kernel, r: Status)
    ensures k.Inv() && r == MutexOwnerNested && |k.kind| == 1 && k.owner == [Some(2)] && k.active == 2
  {
    k := FirstTaskLocks();
    LockAgain(k);
    SecondWaits(k);
    FirstDies(k);
    hide k.Settled;
    r := k.MutexUnlock(0);
  }

  method LockAgain(k: Kernel)
    requires OneHolds(k, 1)
    modifies k, k.rq, k.tk
    ensures OneHolds(k, 2)
  {
    hide k.Settled;
    Lengths(k);
    var r := k.MutexLock(0, 1);
    assert r == MutexOwnerNested;
  }

  /** Task 2 waits for the mutex that task 1 holds. */
  ghost predicate TwoWaits(k: Kernel, n: nat)
    reads k, k.rq, k.tk
  {
    && k.Inv() && k.idle == 0 && k.schedLock == 0 && k.active == 1
    && k.state == [Ready, Ready, Pend] && k.kind == [Mutex] && k.owner == [Some(1)] && k.nested == [n]
    && k.prio[1] <= k.prio[2] && k.bprio[2] == 4 && k.prio[2] <= 4 && k.waiters == [[2]]
  }

  method SecondWaits(k: Kernel)
    requires OneHolds(k, 2)
    modifies k, k.rq, k.tk
    ensures TwoWaits(k, 2)
  {
    hide k.Settled;
    Lengths(k);
    var r := k.TaskCreate(2, 4, true);
    RunsInstead(k, 2);
    assert k.state == [Ready, Ready, Ready] && k.prio[1] == 5 && k.prio[2] == 4;
    assert k.active == 2;
    r := k.MutexLock(0, 1);
    assert r == Blocked && k.state == [Ready, Ready, Pend];
    Lengths(k);
    BaseLimits(k, 2);
    RunsInstead(k, 1);
    OnlyWaiter(k, 0, 2);
    assert k.waiters == [[2]];
  }

  lemma PendedIn(state: seq<TaskState>, blk: seq<Option<Oid>>, waiters: seq<seq<Tid>>, t: Tid)
    requires WaitOk(state, blk, waiters) && t < |state|
    ensures IsPended(state[t]) ==> exists o :: 0 <= o < |waiters| && t in waiters[o]
  {
  }

  /** The owner of the only mutex there is waits for nothing. */
  lemma NotPended(k: Kernel, t: Tid)
    requires k.Inv() && k.kind == [Mutex] && k.owner == [Some(t)] && t < |k.state|
    ensures !IsPended(k.state[t])
  {
    OwnerFacts(k, 0, t);
    PendedIn(k.state, k.blk, k.waiters, t);
  }

  method FirstDies(k: Kernel)
    requires TwoWaits(k, 2)
    modifies k, k.rq, k.tk
    ensures k.Inv() && k.active == 2 && k.kind == [Mutex] && k.owner == [Some(2)] && k.nested == [2]
  {
    hide k.Settled, LeftOk, Walks;
    OwnerFacts(k, 0, 1);
    Lengths(k);
    BaseLimits(k, 1);
    var r := k.TaskDel(1);
    assert r == Success;
    Lengths(k);
    assert k.owner == [Some(2)];
    OwnerFacts(k, 0, 2);
    NotPended(k, 2);
    assert k.state == [Ready, Deleted, Ready];
    BaseLimits(k, 2);
    RunsInstead(k, 2);
  }

  /** Task 1 dies holding a mutex, task 2 locks it, and task 1 is deleted once more: the call is
      refused, but the mutex on task 2's list belongs to nobody now. */
  method DeletedTwice() returns (k: Kernel, r: Status)
    ensures r == InvTaskState && k.kind == [Mutex] && k.owner == [None] && k.state == [Ready, Deleted, Ready]
    ensures |k.mutexList| == 3 && k.mutexList[2] == [0] && !k.Inv()
  {
    k := FirstTaskLocks();
    SecondDeletes(k);
    SecondLocks(k);
    r := DeleteOnceMore(k);
  }

  /** Task 2 has deleted task 1, whose mutex list still names the mutex. */
  ghost predicate OneDead(k: Kernel, owner: Option<Tid>, list: seq<Oid>)
    reads k, k.rq, k.tk
  {
    && k.Inv() && k.idle == 0 && k.active == 2 && k.schedLock == 0 && k.state == [Ready, Deleted, Ready] && k.kind == [Mutex]
    && k.owner == [owner] && k.waiters == [[]] && |k.mutexList| == 3 && k.mutexList[1] == [0] && k.mutexList[2] == list
    && |k.prio| == 3 && k.prio[1] == 5
  }

  method SecondDeletes(k: Kernel)
    requires OneHolds(k, 1)
    modifies k, k.rq, k.tk
    ensures OneDead(k, None, [])
  {
    hide k.Settled, LeftOk;
    Lengths(k);
    var r := k.TaskCreate(2, 4, true);
    RunsInstead(k, 2);
    assert k.state == [Ready, Ready, Ready] && k.prio[1] == 5 && k.prio[2] == 4 && k.active == 2;
    Lengths(k);
    NobodyWaits(k);
    r := k.TaskDel(1);
    Lengths(k);
    assert r == Success && k.state == [Ready, Deleted, Ready];
    NobodyWaits(k);
    assert k.owner == [None];
    OwnsNothing(k, 2);
    RunsInstead(k, 2);
  }

  lemma NobodyWaits(k: Kernel)
    requires k.Inv() && |k.kind| == 1 && forall t :: 0 <= t < |k.state| ==> !IsPended(k.state[t])
    ensures k.waiters == [[]]
  {
    HeadIn(k.waiters[0]);
  }

  lemma OwnsNothing(k: Kernel, t: Tid)
    requires k.Inv() && k.kind == [Mutex] && k.owner == [None] && t < |k.state| && IsLive(k.state[t])
    ensures t < |k.mutexList| && k.mutexList[t] == []
  {
    HeadIn(k.mutexList[t]);
  }

  method SecondLocks(k: Kernel)
    requires OneDead(k, None, [])
    modifies k, k.rq, k.tk
    ensures OneDead(k, Some(2), [0]) && k.link == [None]
  {
    hide k.Settled;
    Lengths(k);
    var r := k.MutexLock(0, 1);
    Lengths(k);
    assert r == Success && [0] + [] == [0];
  }

  method DeleteOnceMore(k: Kernel) returns (r: Status)
    requires OneDead(k, Some(2), [0]) && k.link == [None]
    modifies k, k.rq, k.tk
    ensures r == InvTaskState && k.kind == [Mutex] && k.owner == [None] && k.state == [Ready, Deleted, Ready]
    ensures |k.mutexList| == 3 && k.mutexList[2] == [0] && !k.Inv()
  {
    hide k.Settled, LeftOk, Walks, k.Leftovers;
    k.LeftoversEnd(1);
    WalkOne(k.link);
    WalkUnique(k.link, Some(0), k.Leftovers(1), [0]);
    r := k.TaskDel(1);
    assert NoneWaits(old(k.waiters), [0]);
    assert k.owner == [None];
    Corrupted(k, 0, 2);
  }

  lemma WalkOne(link: seq<Option<Oid>>)
    requires link == [None]
    ensures Walks(link, Some(0), [0])
  {
    assert [0][1..] == [];
  }

  /** A mutex on the list of a live task that does not own it. */
  lemma Corrupted(k: Kernel, m: Oid, t: Tid)
    requires m < |k.owner| && k.owner[m] != Some(t) && t < |k.mutexList| && m in k.mutexList[t] && t < |k.state| && IsLive(k.state[t])
    ensures !k.Inv()
  {
  }

  // ----- long timeouts -----

  /** Task 1 runs, and `other` tells what task 2 is doing; nobody waits. */
  ghost predicate Awake(k: Kernel, other: TaskState)
    reads k, k.rq, k.tk
  {
    && k.Inv() && k.idle == 0 && k.schedLock == 0 && k.active == 1 && k.tk.exact && k.tk.list == []
    && k.state == [Ready, Ready, other] && |k.prio| == 3 && k.prio[1] == 5
  }

  method OneAwake() returns (k: Kernel)
    ensures fresh(k) && fresh(k.rq) && fresh(k.tk) && Awake(k, Seed)
  {
    k := FirstTaskRuns();
    NobodyTimed(k);
  }

  lemma NobodyTimed(k: Kernel)
    requires k.Inv() && forall t :: 0 <= t < |k.state| ==> !IsPended(k.state[t]) && !IsSleeping(k.state[t])
    ensures k.tk.list == []
  {
    HeadIn(k.tk.list);
  }

  /** The list of the kernel and the ends of its timeouts. */
  lemma TimesOf(k: Kernel)
    requires k.Inv() && k.tk.exact
    ensures Pending(Snapshot(k)) && |k.tk.armed| == |k.tk.deadline| == |k.state| && NoDup(k.tk.list)
  {
    ListBounds(k);
  }

  /** The only task on the list. */
  lemma OneTimed(k: Kernel, t: Tid)
    requires k.Inv() && k.tk.exact && forall u :: u in k.tk.list <==> u == t
    ensures k.tk.list == [t] && |k.tk.armed| == |k.state|
  {
    hide k.Inv;
    TimesOf(k);
    AllSame(k.tk.list, t);
  }

  lemma RipeOne(t: Tid, armed: seq<Arm>, now: nat)
    requires t < |armed|
    ensures [t][Ripe([t], armed, now)..] == if Passes(End(armed, t) - now) then [] else [t]
  {
  }

  /** A task that sleeps for 2^31 + 1 ticks wakes on the first of them. */
  method LongSleep() returns (k: Kernel)
    ensures k.Inv() && k.state == [Ready, Ready, Seed] && k.tk.list == []
    ensures |k.tk.armed| == 3 && k.tk.armed[1].span == HALF_RANGE + 1 && k.tk.now == k.tk.armed[1].at + 1
  {
    k := OneAwake();
    hide k.Inv, k.Elected, Ripe, Front, NoDup;
    var _ := k.TaskSleep(HALF_RANGE + 1);
    OneTimed(k, 1);
    RipeOne(1, k.tk.armed, k.tk.now + 1);
    ghost var l := k.tk.list;
    k.TickUpdate(1);
    assert 1 in l && 1 !in k.tk.list;
  }

  lemma TwoTimed(k: Kernel)
    requires k.Inv() && k.tk.exact && (forall u :: u in k.tk.list <==> u == 1 || u == 2)
    requires |k.tk.armed| == 3 && End(k.tk.armed, 1) < End(k.tk.armed, 2)
    ensures k.tk.list == [1, 2]
  {
    hide k.Inv;
    TimesOf(k);
    PairSorted(k.tk.list, k.tk.armed);
  }

  lemma LeastFirst(l: seq<Tid>, armed: seq<Arm>)
    requires AllBelow(l, |armed|) && SortedByEnd(l, armed)
    ensures forall u :: u in l ==> u < |armed| && End(armed, l[0]) <= End(armed, u)
  {
  }

  lemma PairSorted(l: seq<Tid>, armed: seq<Arm>)
    requires NoDup(l) && AllBelow(l, |armed|) && SortedByEnd(l, armed) && forall u :: u in l <==> u == 1 || u == 2
    requires |armed| == 3 && End(armed, 1) < End(armed, 2)
    ensures l == [1, 2]
  {
    hide End;
    HeadIn(l);
    assert 1 in l && 2 in l;
    LeastFirst(l, armed);
    assert l[0] == 1;
    assert l == [1] + l[1..];
    forall u | u in l[1..] ensures u == 2 { assert u in l && u != l[0]; }
    AllSame(l[1..], 2);
  }

  lemma RipeTwo(armed: seq<Arm>, now: nat)
    requires |armed| == 3
    ensures
      var rest := [1, 2][Ripe([1, 2], armed, now)..];
      rest == if !Passes(End(armed, 1) - now) then [1, 2] else if !Passes(End(armed, 2) - now) then [2] else []
  {
  }

  /** Task 1 sleeps for 20 ticks and task 2, behind it, for 2^31 + 10; `n` ticks of these have gone by. */
  ghost predicate Asleep(k: Kernel, n: nat)
    reads k, k.rq, k.tk
  {
    && k.Inv() && k.tk.exact && k.state == [Ready, TaskState.Sleep, TaskState.Sleep] && k.tk.list == [1, 2] && |k.tk.armed| == 3 && k.tk.now >= n
    && k.tk.armed[1] == Arm(k.tk.now - n, 20) && k.tk.armed[2] == Arm(k.tk.now - n, HALF_RANGE + 10)
  }

  method BothSleep() returns (k: Kernel)
    ensures fresh(k) && fresh(k.rq) && fresh(k.tk) && Asleep(k, 0)
  {
    k := OneAwake();
    SecondReady(k);
    FirstSleeps(k);
    SecondSleeps(k);
  }

  method SecondReady(k: Kernel)
    requires Awake(k, Seed)
    modifies k, k.rq
    ensures Awake(k, Ready) && k.prio[2] == 6
  {
    hide k.Settled, NoDup;
    Lengths(k);
    var _ := k.TaskCreate(2, 6, true);
    RunsInstead(k, 1);
  }

  /** Task 1 sleeps and task 2 runs. */
  ghost predicate OneSleeps(k: Kernel)
    reads k, k.rq, k.tk
  {
    && k.Inv() && k.idle == 0 && k.schedLock == 0 && k.active == 2 && k.tk.exact && k.tk.list == [1]
    && k.state == [Ready, TaskState.Sleep, Ready] && |k.tk.armed| == 3 && k.tk.armed[1] == Arm(k.tk.now, 20)
  }

  method FirstSleeps(k: Kernel)
    requires Awake(k, Ready) && k.prio[2] == 6
    modifies k, k.rq, k.tk
    ensures OneSleeps(k)
  {
    hide k.Settled, NoDup;
    TimesOf(k);
    var _ := k.TaskSleep(20);
    OneTimed(k, 1);
    RunsInstead(k, 2);
  }

  method SecondSleeps(k: Kernel)
    requires OneSleeps(k)
    modifies k, k.rq, k.tk
    ensures Asleep(k, 0)
  {
    hide k.Inv, k.Elected, NoDup;
    var _ := k.TaskSleep(HALF_RANGE + 10);
    TwoTimed(k);
  }

  lemma AtMostOne(p: nat)
    requires p <= 2 && [1, 2][p..] != []
    ensures p <= 1
  {
  }

  lemma BothStay(armed: seq<Arm>, at: nat, n: nat)
    requires |armed| == 3 && n <= 20 && armed[1] == Arm(at, 20) && armed[2] == Arm(at, HALF_RANGE + 10)
    ensures Ripe([1, 2], armed, at + n) <= 1 && [1, 2][Ripe([1, 2], armed, at + n)..] == if n < 20 then [1, 2] else [2]
  {
    hide Passes, Ripe;
    RipeTwo(armed, at + n);
    PassesNear(20 - n);
    if n == 20 { PassesNear(HALF_RANGE - 10); }
    AtMostOne(Ripe([1, 2], armed, at + n));
  }

  lemma StatesAfter(was: seq<TaskState>, now: seq<TaskState>, b: seq<BlkState>, list: seq<Tid>)
    requires was == [Ready, TaskState.Sleep, TaskState.Sleep] && |now| == 3 && (list == [1, 2] || list == [2])
    requires forall t :: t in [1, 2] && t !in list ==> TimedOut(t, was, now, b)
    requires forall t :: 0 <= t < 3 && !(t in [1, 2] && t !in list) ==> now[t] == was[t]
    ensures now == [Ready, if list == [2] then Ready else TaskState.Sleep, TaskState.Sleep]
  {
    if list == [2] { assert 1 in [1, 2] && 1 !in list; }
    assert 2 in list;
  }

  method AsleepTick(k: Kernel, ghost n: nat)
    requires Asleep(k, n) && n < 20
    modifies k, k.rq, k.tk
    ensures n + 1 < 20 ==> Asleep(k, n + 1)
    ensures n + 1 == 20 ==>
              && k.Inv() && k.state == [Ready, Ready, TaskState.Sleep] && k.tk.list == [2]
              && k.tk.armed == old(k.tk.armed) && k.tk.now == old(k.tk.now) + 1
  {
    hide k.Inv, Ripe, NoDup, Passes, End, AfterTimeout;
    BothStay(k.tk.armed, k.tk.now - n, n + 1);
    TickPair(k);
  }

  /** A tick, as long as tasks 1 and 2 are on the list. */
  method TickPair(k: Kernel)
    requires k.Inv() && k.tk.exact && k.tk.list == [1, 2] && |k.tk.armed| == 3 && k.state == [Ready, TaskState.Sleep, TaskState.Sleep]
    requires Ripe([1, 2], k.tk.armed, k.tk.now + 1) <= 1
    modifies k, k.rq, k.tk
    ensures k.Inv() && k.tk.exact && k.tk.armed == old(k.tk.armed) && k.tk.now == old(k.tk.now) + 1
    ensures k.tk.list == [1, 2][Ripe([1, 2], k.tk.armed, k.tk.now)..]
    ensures k.state == [Ready, if k.tk.list == [2] then Ready else TaskState.Sleep, TaskState.Sleep]
  {
    hide *;
    ghost var s := k.state;
    assert 1 <= HALF_RANGE by { OneIsSmall(); }
    k.TickUpdate(1);
    PairLeft(k.tk.armed, k.tk.now);
    StatesAfter(s, k.state, k.blkState, k.tk.list);
  }

  lemma OneIsSmall()
    ensures 1 <= HALF_RANGE
  {
  }

  lemma PairLeft(armed: seq<Arm>, now: nat)
    requires |armed| == 3 && Ripe([1, 2], armed, now) <= 1
    ensures var rest := [1, 2][Ripe([1, 2], armed, now)..]; rest == [1, 2] || rest == [2]
  {
    hide Ripe;
  }

  /** Behind a task that sleeps for 20 ticks, one that sleeps for 2^31 + 10 is not looked at before
      less than half the range is left of its time: it goes on sleeping. */
  method ShieldedSleep() returns (k: Kernel)
    ensures k.Inv() && k.state == [Ready, Ready, TaskState.Sleep] && k.tk.list == [2]
    ensures |k.tk.armed| == 3 && k.tk.armed[2].span == HALF_RANGE + 10 && k.tk.now == k.tk.armed[2].at + 20
  {
    k := BothSleep();
    hide k.Inv, NoDup;
    for n := 0 to 19
      invariant fresh(k) && fresh(k.rq) && fresh(k.tk) && Asleep(k, n)
    {
      AsleepTick(k, n);
    }
    AsleepTick(k, 19);
  }
}
