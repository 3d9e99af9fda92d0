/** Vocabulary of the Rhino kernel model. Each field of `ktask_t`, `kmutex_t` and `blk_obj_t`
    is one sequence indexed by task or object number; the predicates below are the parts of
    the kernel invariant, stated on those sequences. */
module KernelState {
  import opened Lists
  import opened RunQueues

  type Oid = nat

  datatype TaskState =
    Seed | Ready | Pend | Suspended | PendSuspended | Sleep | SleepSuspended | Deleted

  datatype Kind = NoObj | Mutex | OtherObj
  datatype Policy = ByPri | Fifo
  datatype BlkState = BlkFinish | BlkAbort | BlkTimeout | BlkDel

  datatype Status =
    | Success
    | KobjTypeErr
    | NoPendWait
    | SchedDisable
    | MutexOwnerNested
    | MutexNestedOvf
    | MutexNotReleasedByOwner
    | Blocked // the caller is pended; the call returns when the task runs again
    | InvTaskState
    | InvParam
    | PriChgNotAllowed
    | TaskDelNotAllowed
    | TaskSuspendNotAllowed
    | TaskNotSuspended
    | SuspendedCountOvf
    | BeyondMaxPri
    | IdleTaskExist
    | SchedLockCountOvf
    | SchedAlreadyEnabled

  /** `mutex_nested_t` is 32 bits, `suspend_nested_t` is 8 bits. */
  const NESTED_MOD: nat := 0x1_0000_0000
  const SUSPEND_MOD: nat := 0x100
  /** `SCHED_MAX_LOCK_COUNT` */
  const LOCK_MAX: nat := 200

  predicate IsPended(s: TaskState) { s == Pend || s == PendSuspended }
  predicate IsSleeping(s: TaskState) { s == Sleep || s == SleepSuspended }
  predicate IsSuspended(s: TaskState) { s == Suspended || s == PendSuspended || s == SleepSuspended }
  predicate IsLive(s: TaskState) { s != Seed && s != Deleted }

  // ----- wait lists -----

  /** A task is on the wait list of object `o`, once, iff it is pended on `o`. */
  ghost predicate WaitOk(state: seq<TaskState>, blk: seq<Option<Oid>>, waiters: seq<seq<Tid>>) {
    && |blk| == |state|
    && (forall o :: 0 <= o < |waiters| ==> NoDup(waiters[o]))
    && (forall t :: 0 <= t < |state| && IsPended(state[t]) ==>
          blk[t].Some? && blk[t].value < |waiters| && t in waiters[blk[t].value])
    && (forall o, t {:trigger t in waiters[o]} :: 0 <= o < |waiters| && t in waiters[o] ==>
          t < |state| && IsPended(state[t]) && blk[t] == Some(o))
  }

  ghost predicate InRange(waiters: seq<seq<Tid>>, n: nat) {
    forall o :: 0 <= o < |waiters| ==> AllBelow(waiters[o], n)
  }

  /** Wait lists of priority-ordered objects are sorted by effective priority. */
  ghost predicate SortedOk(prio: seq<nat>, policy: seq<Policy>, waiters: seq<seq<Tid>>) {
    && |policy| == |waiters|
    && InRange(waiters, |prio|)
    && (forall o :: 0 <= o < |waiters| && policy[o] == ByPri ==> SortedBy(prio, waiters[o]))
  }

  // ----- ready lists -----

  /** A task is on ready list `p`, once, iff it is ready and `p` is its priority. */
  ghost predicate ReadyOk(state: seq<TaskState>, prio: seq<nat>, lists: seq<seq<Tid>>) {
    && |prio| == |state|
    && |lists| == PRI_MAX
    && (forall p :: 0 <= p < PRI_MAX ==> NoDup(lists[p]))
    && (forall p, t {:trigger t in lists[p]} :: 0 <= p < PRI_MAX && t in lists[p] ==>
          t < |state| && state[t] == Ready && prio[t] == p)
    && (forall t :: 0 <= t < |state| && state[t] == Ready ==> prio[t] < PRI_MAX && t in lists[prio[t]])
  }

  // ----- tick list -----

  /** Only waiting tasks are on the tick list, and every sleeper is. */
  ghost predicate TickOk(state: seq<TaskState>, list: seq<Tid>) {
    && (forall t :: t in list ==> t < |state| && (IsPended(state[t]) || IsSleeping(state[t])))
    && (forall t :: 0 <= t < |state| && IsSleeping(state[t]) ==> t in list)
  }

  // ----- mutex ownership -----

  /** A live task's mutex list holds, once, exactly the mutexes it owns; a mutex without owner
      has no waiters; nobody waits for a mutex of its own. */
  ghost predicate MutexOk(state: seq<TaskState>, kind: seq<Kind>, policy: seq<Policy>,
                          owner: seq<Option<Tid>>, mutexList: seq<seq<Oid>>, waiters: seq<seq<Tid>>) {
    && |kind| == |policy| == |owner| == |waiters|
    && |mutexList| == |state|
    && (forall o :: 0 <= o < |kind| && kind[o] == Mutex ==>
          && policy[o] == ByPri
          && (owner[o] == None ==> waiters[o] == [])
          && (owner[o].Some? ==>
                && owner[o].value < |state|
                && IsLive(state[owner[o].value])
                && o in mutexList[owner[o].value]
                && owner[o].value !in waiters[o]))
    && (forall t :: 0 <= t < |state| && IsLive(state[t]) ==> NoDup(mutexList[t]))
    && (forall t, m {:trigger m in mutexList[t]} :: 0 <= t < |state| && IsLive(state[t]) && m in mutexList[t] ==>
          m < |kind| && kind[m] == Mutex && owner[m] == Some(t))
  }

  /** Nobody waits for an object that does not exist. */
  ghost predicate NoStrays(kind: seq<Kind>, waiters: seq<seq<Tid>>) {
    |kind| == |waiters| && forall o :: 0 <= o < |kind| && kind[o] == NoObj ==> waiters[o] == []
  }

  lemma StraysKeep(state: seq<TaskState>, blk: seq<Option<Oid>>, kind: seq<Kind>,
                   waiters: seq<seq<Tid>>, waiters': seq<seq<Tid>>)
    requires WaitOk(state, blk, waiters) && WaitOk(state, blk, waiters') && |waiters| == |waiters'|
    requires NoStrays(kind, waiters)
    ensures NoStrays(kind, waiters')
  {
    forall o | 0 <= o < |kind| ensures waiters[o] == [] ==> waiters'[o] == [] {
      assert waiters'[o] != [] ==> waiters'[o][0] in waiters'[o];
    }
  }

  // ----- inheritance -----

  /** The task that `w` lends its priority to: the owner of the mutex `w` is pended on. */
  ghost function BoostOf(state: seq<TaskState>, blk: seq<Option<Oid>>, kind: seq<Kind>,
                         owner: seq<Option<Tid>>, w: Tid): Option<Tid>
    requires w < |state| == |blk| && |kind| == |owner|
  {
    if IsPended(state[w]) && blk[w].Some? && blk[w].value < |kind| && kind[blk[w].value] == Mutex
    then owner[blk[w].value]
    else None
  }

  ghost function Boosts(state: seq<TaskState>, blk: seq<Option<Oid>>, kind: seq<Kind>,
                        owner: seq<Option<Tid>>): (b: seq<Option<Tid>>)
    requires |state| == |blk| && |kind| == |owner|
    ensures |b| == |state|
    ensures forall w :: 0 <= w < |state| ==> b[w] == BoostOf(state, blk, kind, owner, w)
  {
    seq(|state|, w requires 0 <= w < |state| => BoostOf(state, blk, kind, owner, w))
  }

  /** `p` is the least of the base priority of `t` and the priorities lent to `t`. */
  ghost predicate IsInherited(prio: seq<nat>, bprio: seq<nat>, boost: seq<Option<Tid>>, t: Tid, p: nat)
    requires |prio| == |bprio| == |boost| && t < |prio|
  {
    && p <= bprio[t]
    && (forall w :: 0 <= w < |boost| && boost[w] == Some(t) ==> p <= prio[w])
    && (p == bprio[t] || exists w :: 0 <= w < |boost| && boost[w] == Some(t) && prio[w] == p)
  }

  /** The inheritance equation for every live task other than `except`. */
  ghost predicate InheritOk(state: seq<TaskState>, prio: seq<nat>, bprio: seq<nat>,
                            boost: seq<Option<Tid>>, except: Option<Tid>) {
    && |state| == |prio| == |bprio| == |boost|
    && (forall t :: 0 <= t < |state| && IsLive(state[t]) && except != Some(t) ==>
          IsInherited(prio, bprio, boost, t, prio[t]))
  }

  ghost predicate CoversFirst(prio: seq<nat>, waiters: seq<seq<Tid>>, m: Oid, p: nat)
    requires InRange(waiters, |prio|) && m < |waiters|
  {
    waiters[m] != [] ==> p <= prio[waiters[m][0]]
  }

  ghost predicate MeetsFirst(prio: seq<nat>, waiters: seq<seq<Tid>>, m: Oid, p: nat)
    requires InRange(waiters, |prio|) && m < |waiters|
  {
    waiters[m] != [] && prio[waiters[m][0]] == p
  }

  /** What `mutex_pri_look` computes: the least of a base and the first waiters of a mutex list. */
  ghost predicate IsLimit(base: nat, ms: seq<Oid>, waiters: seq<seq<Tid>>, prio: seq<nat>, p: nat)
    requires InRange(waiters, |prio|) && AllBelow(ms, |waiters|)
  {
    && p <= base
    && (forall i :: 0 <= i < |ms| ==> CoversFirst(prio, waiters, ms[i], p))
    && (p == base || exists m :: m in ms && MeetsFirst(prio, waiters, m, p))
  }

  /** Since wait lists are sorted, looking at first waiters only is enough. */
  lemma LimitIsInherited(prio: seq<nat>, bprio: seq<nat>, boost: seq<Option<Tid>>, t: Tid, p: nat,
                         ms: seq<Oid>, waiters: seq<seq<Tid>>)
    requires |prio| == |bprio| == |boost| && t < |prio|
    requires InRange(waiters, |prio|) && AllBelow(ms, |waiters|)
    requires forall m :: m in ms ==> SortedBy(prio, waiters[m])
    requires forall m, w {:trigger w in waiters[m]} :: m in ms && w in waiters[m] ==> boost[w] == Some(t)
    requires forall w :: 0 <= w < |boost| && boost[w] == Some(t) ==>
               exists m :: m in ms && w in waiters[m]
    requires IsLimit(bprio[t], ms, waiters, prio, p)
    ensures IsInherited(prio, bprio, boost, t, p)
  {
    forall w | 0 <= w < |boost| && boost[w] == Some(t)
      ensures p <= prio[w]
    {
      var m :| m in ms && w in waiters[m];
      var k :| 0 <= k < |ms| && ms[k] == m;
      assert CoversFirst(prio, waiters, ms[k], p);
      assert prio[waiters[m][0]] <= prio[w];
    }
    if p != bprio[t] {
      var m :| m in ms && MeetsFirst(prio, waiters, m, p);
      assert waiters[m][0] in waiters[m];
    }
  }

  /** Replacing a wait list by a permutation of itself. */
  lemma WaitReplace(state: seq<TaskState>, blk: seq<Option<Oid>>, waiters: seq<seq<Tid>>, o: Oid, s: seq<Tid>)
    requires WaitOk(state, blk, waiters) && o < |waiters| && NoDup(s)
    requires forall u :: u in s <==> u in waiters[o]
    ensures WaitOk(state, blk, waiters[o := s])
  {
  }

  /** Replacing one wait list when only the priority of one of its members has changed. */
  lemma SortedReplace(was: seq<nat>, prio: seq<nat>, policy: seq<Policy>, waiters: seq<seq<Tid>>,
                      o: Oid, t: Tid, s: seq<Tid>)
    requires SortedOk(was, policy, waiters) && o < |waiters| && t < |was|
    requires |prio| == |was| && prio == was[t := prio[t]]
    requires forall q :: 0 <= q < |waiters| && q != o ==> t !in waiters[q]
    requires AllBelow(s, |prio|) && (policy[o] == ByPri ==> SortedBy(prio, s))
    ensures SortedOk(prio, policy, waiters[o := s])
  {
    var waiters' := waiters[o := s];
    forall q | 0 <= q < |waiters'| && policy[q] == ByPri
      ensures AllBelow(waiters'[q], |prio|) && SortedBy(prio, waiters'[q])
    {
      if q != o {
        SortedFrame(was, prio, waiters[q]);
      }
    }
  }

  /** The priority of a task on no wait list does not matter to them. */
  lemma SortedKeep(was: seq<nat>, prio: seq<nat>, policy: seq<Policy>, waiters: seq<seq<Tid>>, t: Tid)
    requires SortedOk(was, policy, waiters) && t < |was|
    requires |prio| == |was| && prio == was[t := prio[t]]
    requires forall q :: 0 <= q < |waiters| ==> t !in waiters[q]
    ensures SortedOk(prio, policy, waiters)
  {
    forall q | 0 <= q < |waiters| && policy[q] == ByPri
      ensures SortedBy(prio, waiters[q])
    {
      SortedFrame(was, prio, waiters[q]);
    }
  }

  /** A task that is not ready may change priority without touching the ready lists. */
  lemma ReadyKeep(state: seq<TaskState>, prio: seq<nat>, lists: seq<seq<Tid>>, t: Tid, p: nat)
    requires ReadyOk(state, prio, lists) && t < |state| && state[t] != Ready
    ensures ReadyOk(state, prio[t := p], lists)
  {
  }

  /** Moving a ready task from one ready list to another. */
  lemma ReadyMove(state: seq<TaskState>, prio: seq<nat>, lists: seq<seq<Tid>>, t: Tid, p: nat, s: seq<Tid>)
    requires ReadyOk(state, prio, lists) && t < |state| && state[t] == Ready && p < PRI_MAX && p != prio[t]
    requires s == [t] + lists[p] || s == lists[p] + [t]
    ensures ReadyOk(state, prio[t := p], lists[prio[t] := Without(lists[prio[t]], t)][p := s])
  {
    assert t !in lists[p];
    assert forall u :: u in s <==> u in lists[p] || u == t;
    NoDupCons(t, lists[p]);
    NoDupSnoc(lists[p], t);
  }

  /** Mutex ownership only depends on who is on the wait lists, not on their order. */
  lemma MutexKeep(state: seq<TaskState>, blk: seq<Option<Oid>>, kind: seq<Kind>, policy: seq<Policy>,
                  owner: seq<Option<Tid>>, mutexList: seq<seq<Oid>>, waiters: seq<seq<Tid>>, waiters': seq<seq<Tid>>)
    requires WaitOk(state, blk, waiters) && WaitOk(state, blk, waiters') && |waiters| == |waiters'|
    requires MutexOk(state, kind, policy, owner, mutexList, waiters)
    ensures MutexOk(state, kind, policy, owner, mutexList, waiters')
  {
    forall o | 0 <= o < |kind|
      ensures waiters[o] == [] ==> waiters'[o] == []
    {
      assert waiters'[o] != [] ==> waiters'[o][0] in waiters'[o];
    }
  }

  /** Whoever waits for a mutex waits for a live task other than itself. */
  lemma OwnerOf(state: seq<TaskState>, blk: seq<Option<Oid>>, kind: seq<Kind>, policy: seq<Policy>,
                owner: seq<Option<Tid>>, mutexList: seq<seq<Oid>>, waiters: seq<seq<Tid>>, c: Tid)
    requires WaitOk(state, blk, waiters) && MutexOk(state, kind, policy, owner, mutexList, waiters)
    requires c < |state| && IsPended(state[c]) && kind[blk[c].value] == Mutex
    ensures
      var o := owner[blk[c].value];
      && o.Some? && o.value < |state| && o.value != c && IsLive(state[o.value])
      && blk[c].value in mutexList[o.value]
  {
    assert c in waiters[blk[c].value];
  }

  lemma ListOf(state: seq<TaskState>, kind: seq<Kind>, policy: seq<Policy>,
               owner: seq<Option<Tid>>, mutexList: seq<seq<Oid>>, waiters: seq<seq<Tid>>, t: Tid)
    requires MutexOk(state, kind, policy, owner, mutexList, waiters)
    requires t < |state| && IsLive(state[t])
    ensures OwnsOk(mutexList[t], |kind|)
  {
    assert forall i :: 0 <= i < |mutexList[t]| ==> mutexList[t][i] in mutexList[t];
  }

  ghost predicate OwnsOk(ms: seq<Oid>, n: nat) {
    AllBelow(ms, n) && NoDup(ms)
  }

  /** The mutex list of `t` names exactly the tasks that lend to `t`. */
  lemma LendersOf(state: seq<TaskState>, blk: seq<Option<Oid>>, kind: seq<Kind>, policy: seq<Policy>,
                  owner: seq<Option<Tid>>, mutexList: seq<seq<Oid>>, waiters: seq<seq<Tid>>,
                  prio: seq<nat>, bprio: seq<nat>, boost: seq<Option<Tid>>, t: Tid, p: nat)
    requires WaitOk(state, blk, waiters) && SortedOk(prio, policy, waiters)
    requires MutexOk(state, kind, policy, owner, mutexList, waiters)
    requires |state| == |prio| == |bprio| == |boost| && t < |state| && IsLive(state[t])
    requires forall w :: 0 <= w < |state| ==> boost[w] == BoostOf(state, blk, kind, owner, w)
    requires AllBelow(mutexList[t], |kind|) && IsLimit(bprio[t], mutexList[t], waiters, prio, p)
    ensures IsInherited(prio, bprio, boost, t, p)
  {
    forall w | 0 <= w < |boost| && boost[w] == Some(t)
      ensures exists m :: m in mutexList[t] && w in waiters[m]
    {
      assert blk[w].value in mutexList[t] && w in waiters[blk[w].value];
    }
    LimitIsInherited(prio, bprio, boost, t, p, mutexList[t], waiters);
  }

  lemma PendedOn(state: seq<TaskState>, blk: seq<Option<Oid>>, waiters: seq<seq<Tid>>, c: Tid)
    requires WaitOk(state, blk, waiters) && c < |state| && IsPended(state[c])
    ensures blk[c].Some? && blk[c].value < |waiters| && c in waiters[blk[c].value]
  {
  }

  lemma SortedRange(prio: seq<nat>, policy: seq<Policy>, waiters: seq<seq<Tid>>)
    requires SortedOk(prio, policy, waiters)
    ensures InRange(waiters, |prio|)
  {
  }

  // ----- waking -----

  function AfterWake(s: TaskState): TaskState {
    if s == Pend then Ready else Suspended
  }

  /** The state after a timeout. */
  function AfterTimeout(s: TaskState): TaskState {
    if s == Sleep || s == Pend then Ready else Suspended
  }

  /** Some pended tasks have become ready or suspended; nothing else has changed state. */
  ghost predicate WokenOnly(was: seq<TaskState>, now: seq<TaskState>) {
    && |was| == |now|
    && forall t :: 0 <= t < |was| ==> now[t] == was[t] || (IsPended(was[t]) && now[t] == AfterWake(was[t]))
  }

  lemma WokenNone(was: seq<TaskState>)
    ensures WokenOnly(was, was)
  {
  }

  lemma WokenOneMore(was: seq<TaskState>, mid: seq<TaskState>, now: seq<TaskState>, t: Tid)
    requires WokenOnly(was, mid) && t < |mid| && IsPended(mid[t]) && now == mid[t := AfterWake(mid[t])]
    ensures WokenOnly(was, now) && now != was
  {
    assert now[t] != was[t];
  }

  /** What a task in waiting state `was` sees when it is in state `now`, with wake-up reason `b`,
      after its timeout has run out. */
  predicate ByTimeout(was: TaskState, now: TaskState, b: BlkState) {
    IsLive(now) && b == if IsPended(was) then BlkTimeout else BlkFinish
  }

  /** Nobody has joined the tick list, and who has left it has not done so by timeout. */
  ghost predicate LeftOk(list: seq<Tid>, list': seq<Tid>, was: seq<TaskState>, now: seq<TaskState>, b: seq<BlkState>) {
    && (forall t :: t in list' ==> t in list)
    && (forall t :: t in list && t !in list' ==> t < |was| && t < |now| && t < |b| && !ByTimeout(was[t], now[t], b[t]))
  }

  lemma LeftNone(list: seq<Tid>, state: seq<TaskState>, b: seq<BlkState>)
    ensures LeftOk(list, list, state, state, b)
  {
  }

  /** One more task has been told a reason other than a timeout. */
  lemma LeftThenTold(t: Tid, list0: seq<Tid>, list1: seq<Tid>, list2: seq<Tid>,
                     s0: seq<TaskState>, s1: seq<TaskState>, s2: seq<TaskState>, b1: seq<BlkState>, b2: seq<BlkState>, b: BlkState)
    requires LeftOk(list0, list1, s0, s1, b1) && list2 == Without(list1, t) && |s0| == |s1| && t < |s1| && t < |b1|
    requires s2 == s1[t := AfterWake(s1[t])] && b2 == b1[t := b] && b != BlkTimeout && IsPended(s1[t]) && IsPended(s0[t])
    ensures LeftOk(list0, list2, s0, s2, b2)
  {
  }

  lemma LeftThenToldOnly(t: Tid, list0: seq<Tid>, list1: seq<Tid>, list2: seq<Tid>,
                         s0: seq<TaskState>, s1: seq<TaskState>, s2: seq<TaskState>, b1: seq<BlkState>, b2: seq<BlkState>, b: BlkState)
    requires LeftOk(list0, list1, s0, s1, b1) && list2 == Without(list1, t) && WokenOnly(s0, s1) && t < |s1| && t < |b1|
    requires s2 == s1[t := AfterWake(s1[t])] && b2 == b1[t := b] && b != BlkTimeout && IsPended(s1[t])
    ensures LeftOk(list0, list2, s0, s2, b2)
  {
    LeftThenTold(t, list0, list1, list2, s0, s1, s2, b1, b2, b);
  }

  /** The task woken, if any, has been told of its success. */
  ghost predicate Woken(w: Option<Tid>, s: seq<TaskState>, s': seq<TaskState>, b: seq<BlkState>, b': seq<BlkState>,
                        list: seq<Tid>, list': seq<Tid>) {
    if w.None? then s' == s && b' == b && list' == list
    else
      && w.value < |s| && w.value < |b| && IsPended(s[w.value]) && s' == s[w.value := AfterWake(s[w.value])]
      && b' == b[w.value := BlkFinish] && list' == Without(list, w.value)
  }

  lemma LeftThenWoken(w: Option<Tid>, list0: seq<Tid>, list1: seq<Tid>, list2: seq<Tid>,
                      s0: seq<TaskState>, s1: seq<TaskState>, s2: seq<TaskState>, b1: seq<BlkState>, b2: seq<BlkState>)
    requires LeftOk(list0, list1, s0, s1, b1) && WokenOnly(s0, s1) && Woken(w, s1, s2, b1, b2, list1, list2)
    ensures LeftOk(list0, list2, s0, s2, b2) && WokenOnly(s0, s2)
  {
    if w.Some? {
      LeftThenTold(w.value, list0, list1, list2, s0, s1, s2, b1, b2, BlkFinish);
    }
  }

  lemma LeftAborted(list: seq<Tid>, list': seq<Tid>, was: seq<TaskState>, now: seq<TaskState>, b: seq<BlkState>, b': seq<BlkState>, t: Tid)
    requires TickOk(was, list) && list' == Without(list, t) && t < |was| && t < |b| && now == was[t := Ready]
    requires b' == if IsPended(was[t]) || IsSleeping(was[t]) then b[t := BlkAbort] else b
    ensures LeftOk(list, list', was, now, b')
  {
  }

  lemma LeftThenDies(list0: seq<Tid>, list1: seq<Tid>, s0: seq<TaskState>, s1: seq<TaskState>, b: seq<BlkState>, t: Tid)
    requires LeftOk(list0, list1, s0, s1, b) && t < |s0| == |s1| && t < |b|
    ensures LeftOk(list0, Without(list1, t), s0, s1[t := Deleted], b)
  {
  }

  /** The tasks in `list` that are not in `left` have been woken by a deletion. */
  ghost predicate AllTold(list: seq<Tid>, was: seq<TaskState>, now: seq<TaskState>, b: seq<BlkState>, left: seq<Tid>) {
    forall t :: t in list && t !in left ==>
      t < |now| && t < |b| && t < |was| && now[t] == AfterWake(was[t]) && b[t] == BlkDel
  }

  lemma ToldNone(list: seq<Tid>, state: seq<TaskState>, b: seq<BlkState>)
    ensures AllTold(list, state, state, b, list)
  {
  }

  lemma ToldOneMore(t: Tid, list: seq<Tid>, left: seq<Tid>, was: seq<TaskState>, s1: seq<TaskState>, s2: seq<TaskState>,
                    b1: seq<BlkState>, b2: seq<BlkState>)
    requires AllTold(list, was, s1, b1, left) && WokenOnly(was, s1) && t < |s1| && t < |b1| && IsPended(s1[t])
    requires s2 == s1[t := AfterWake(s1[t])] && b2 == b1[t := BlkDel]
    ensures AllTold(list, was, s2, b2, Without(left, t))
  {
  }

  lemma ToldAll(list: seq<Tid>, list': seq<Tid>, was: seq<TaskState>, now: seq<TaskState>, b: seq<BlkState>)
    requires AllTold(list, was, now, b, []) && forall t :: t in list' ==> t in list
    ensures AllTold(list', was, now, b, [])
  {
  }

  // ----- suspension counts -----

  ghost predicate Counted(state: seq<TaskState>, count: seq<nat>) {
    && |count| == |state|
    && (forall t :: 0 <= t < |state| && IsSuspended(state[t]) ==> 1 <= count[t] < SUSPEND_MOD)
  }

  lemma CountedSet(state: seq<TaskState>, count: seq<nat>, t: Tid, s: TaskState)
    requires Counted(state, count) && t < |state| && (IsSuspended(s) ==> IsSuspended(state[t]))
    ensures Counted(state[t := s], count)
  {
  }

  lemma CountedWoken(was: seq<TaskState>, now: seq<TaskState>, count: seq<nat>)
    requires Counted(was, count) && WokenOnly(was, now)
    ensures Counted(now, count)
  {
  }

  // ----- timeouts -----

  /** Woken by the tick: ready or suspended again, with the reason recorded. */
  ghost predicate TimedOut(t: Tid, was: seq<TaskState>, now: seq<TaskState>, b: seq<BlkState>) {
    && t < |now| && t < |was| && t < |b| && now[t] == AfterTimeout(was[t])
    && b[t] == if IsPended(was[t]) then BlkTimeout else BlkFinish
  }

  /** Tasks that have left `list` were woken by the tick; no other task has changed state. */
  ghost predicate TimedOutOnly(list: seq<Tid>, list': seq<Tid>, was: seq<TaskState>, now: seq<TaskState>, b: seq<BlkState>) {
    && |was| == |now|
    && (forall t :: t in list' ==> t in list)
    && (forall t :: t in list && t !in list' ==> TimedOut(t, was, now, b))
    && (forall t :: 0 <= t < |now| && !(t in list && t !in list') ==> now[t] == was[t])
  }

  lemma TimedOutNone(list: seq<Tid>, state: seq<TaskState>, b: seq<BlkState>)
    ensures TimedOutOnly(list, list, state, state, b)
  {
  }

  lemma TimedOutPlain(list: seq<Tid>, list': seq<Tid>, was: seq<TaskState>, now: seq<TaskState>, b: seq<BlkState>)
    requires TimedOutOnly(list, list', was, now, b)
    ensures |was| == |now| && forall t :: t in list' ==> t in list
    ensures forall t :: t in list && t !in list' ==> TimedOut(t, was, now, b)
    ensures forall t :: 0 <= t < |now| && !(t in list && t !in list') ==> now[t] == was[t]
  {
  }

  lemma TimedOutStep(list0: seq<Tid>, list1: seq<Tid>, list2: seq<Tid>, s0: seq<TaskState>, s1: seq<TaskState>, s2: seq<TaskState>,
                     b1: seq<BlkState>, b2: seq<BlkState>)
    requires TimedOutOnly(list0, list1, s0, s1, b1) && list1 != [] && list2 == Without(list1, list1[0])
    requires
      var t := list1[0];
      && t < |s1| && t < |b1| && s2 == s1[t := AfterTimeout(s1[t])]
      && b2 == b1[t := if IsPended(s1[t]) then BlkTimeout else BlkFinish]
    ensures TimedOutOnly(list0, list2, s0, s2, b2)
  {
    assert list1[0] in list1;
  }

  // ----- handing mutexes on -----

  function FirstWaiter(ws: seq<Tid>): Option<Tid> { if ws == [] then None else Some(ws[0]) }

  /** The mutexes `ms`, but for those still to come, have gone to their first waiters; no other
      mutex has changed hands. */
  ghost predicate HandedOn(owner: seq<Option<Tid>>, owner': seq<Option<Tid>>, waiters: seq<seq<Tid>>, ms: seq<Oid>, rest: seq<Oid>) {
    && |owner'| == |owner| == |waiters|
    && forall m :: 0 <= m < |owner| ==> owner'[m] == if m in ms && m !in rest then FirstWaiter(waiters[m]) else owner[m]
  }

  lemma HandedStart(owner: seq<Option<Tid>>, waiters: seq<seq<Tid>>, ms: seq<Oid>)
    requires |owner| == |waiters|
    ensures HandedOn(owner, owner, waiters, ms, ms[0..])
  {
    assert ms[0..] == ms;
  }

  lemma HandedStep(owner0: seq<Option<Tid>>, owner1: seq<Option<Tid>>, owner2: seq<Option<Tid>>, waiters: seq<seq<Tid>>,
                   ms: seq<Oid>, i: nat)
    requires i < |ms| && HandedOn(owner0, owner1, waiters, ms, ms[i..]) && ms[i] < |waiters| && ms[i] !in ms[i + 1..]
    requires owner2 == owner1[ms[i] := FirstWaiter(waiters[ms[i]])]
    ensures HandedOn(owner0, owner2, waiters, ms, ms[i + 1..])
  {
    assert ms[i..] == [ms[i]] + ms[i + 1..];
  }

  /** The mutexes `ms` have the waiters they had. */
  ghost predicate SameAt(ms: seq<Oid>, waiters: seq<seq<Tid>>, was: seq<seq<Tid>>) {
    |was| == |waiters| && forall i :: 0 <= i < |ms| ==> ms[i] < |waiters| && waiters[ms[i]] == was[ms[i]]
  }

  lemma StillWaiting(ms: seq<Oid>, i: nat, m: Oid, w0: seq<seq<Tid>>, w1: seq<seq<Tid>>, w2: seq<seq<Tid>>)
    requires i < |ms| && ms[i] == m && m !in ms[i + 1..] && m < |w1| && |w2| == |w1| && w2 == w1[m := w2[m]]
    requires SameAt(ms[i..], w1, w0)
    ensures SameAt(ms[i + 1..], w2, w0) && w1[m] == w0[m]
  {
    var rest := ms[i + 1..];
    assert ms[i..][0] == m;
    forall j | 0 <= j < |rest| ensures rest[j] < |w2| && w2[rest[j]] == w0[rest[j]] {
      assert rest[j] == ms[i..][j + 1] && rest[j] in rest;
    }
  }

  lemma OwnsBelow(ms: seq<Oid>, n: nat)
    requires OwnsOk(ms, n)
    ensures AllBelow(ms, n)
  {
  }

  lemma SameAtStart(ms: seq<Oid>, w: seq<seq<Tid>>, n: nat)
    requires AllBelow(ms, n) && n == |w|
    ensures SameAt(ms[0..], w, w) && SameAt(ms, w, w)
  {
    assert ms[0..] == ms;
  }

  lemma SameAtFirst(ms: seq<Oid>, i: nat, w: seq<seq<Tid>>, w0: seq<seq<Tid>>)
    requires i < |ms| && SameAt(ms[i..], w, w0)
    ensures ms[i] < |w| == |w0| && w[ms[i]] == w0[ms[i]]
  {
    assert ms[i..][0] == ms[i];
  }
}
