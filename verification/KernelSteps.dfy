/** How the parts of the kernel invariant react to single moves: a task leaves or joins a list,
    a mutex changes hands. `o` is always the object concerned and `t` the task. */
module KernelSteps {
  import opened Lists
  import opened RunQueues
  import opened KernelState
  import opened Inheritance

  // ----- wait lists -----

  lemma LeaveWait(state: seq<TaskState>, blk: seq<Option<Oid>>, waiters: seq<seq<Tid>>, t: Tid, s: TaskState)
    requires WaitOk(state, blk, waiters) && t < |state| && IsPended(state[t]) && !IsPended(s)
    ensures WaitOk(state[t := s], blk, waiters[blk[t].value := Without(waiters[blk[t].value], t)])
  {
  }

  lemma LeaveSorted(prio: seq<nat>, policy: seq<Policy>, waiters: seq<seq<Tid>>, o: Oid, t: Tid)
    requires SortedOk(prio, policy, waiters) && o < |waiters|
    ensures SortedOk(prio, policy, waiters[o := Without(waiters[o], t)])
  {
    if policy[o] == ByPri {
      WithoutSorted(prio, waiters[o], t);
    }
    var r := Without(waiters[o], t);
    assert forall i :: 0 <= i < |r| ==> r[i] in r;
  }

  lemma JoinWait(state: seq<TaskState>, blk: seq<Option<Oid>>, waiters: seq<seq<Tid>>, t: Tid, o: Oid, s: seq<Tid>)
    requires WaitOk(state, blk, waiters) && t < |state| && !IsPended(state[t]) && o < |waiters|
    requires NoDup(s) && forall u :: u in s <==> u in waiters[o] || u == t
    ensures WaitOk(state[t := Pend], blk[t := Some(o)], waiters[o := s])
  {
  }

  lemma JoinSorted(prio: seq<nat>, policy: seq<Policy>, waiters: seq<seq<Tid>>, o: Oid, s: seq<Tid>)
    requires SortedOk(prio, policy, waiters) && o < |waiters| && AllBelow(s, |prio|)
    requires policy[o] == ByPri ==> SortedBy(prio, s)
    ensures SortedOk(prio, policy, waiters[o := s])
  {
  }

  /** Not being pended, `t` may change state and remembered object freely. */
  lemma OffWait(state: seq<TaskState>, blk: seq<Option<Oid>>, waiters: seq<seq<Tid>>, t: Tid,
                s: TaskState, b: Option<Oid>)
    requires WaitOk(state, blk, waiters) && t < |state| && !IsPended(state[t]) && !IsPended(s)
    ensures WaitOk(state[t := s], blk[t := b], waiters)
  {
  }

  /** Suspending or resuming a pended task does not move it. */
  lemma SuspendWait(state: seq<TaskState>, blk: seq<Option<Oid>>, waiters: seq<seq<Tid>>, t: Tid, s: TaskState)
    requires WaitOk(state, blk, waiters) && t < |state| && IsPended(state[t]) && IsPended(s)
    ensures WaitOk(state[t := s], blk, waiters)
  {
  }

  // ----- ready lists -----

  lemma ReadyJoin(state: seq<TaskState>, prio: seq<nat>, lists: seq<seq<Tid>>, t: Tid, s: seq<Tid>)
    requires ReadyOk(state, prio, lists) && t < |state| && state[t] != Ready && prio[t] < PRI_MAX
    requires s == [t] + lists[prio[t]] || s == lists[prio[t]] + [t]
    ensures ReadyOk(state[t := Ready], prio, lists[prio[t] := s])
  {
    assert t !in lists[prio[t]];
    assert forall u :: u in s <==> u in lists[prio[t]] || u == t;
    NoDupCons(t, lists[prio[t]]);
    NoDupSnoc(lists[prio[t]], t);
  }

  lemma ReadyLeave(state: seq<TaskState>, prio: seq<nat>, lists: seq<seq<Tid>>, t: Tid, s: TaskState)
    requires ReadyOk(state, prio, lists) && t < |state| && state[t] == Ready && s != Ready
    ensures ReadyOk(state[t := s], prio, lists[prio[t] := Without(lists[prio[t]], t)])
  {
  }

  lemma ReadyOther(state: seq<TaskState>, prio: seq<nat>, lists: seq<seq<Tid>>, t: Tid, s: TaskState)
    requires ReadyOk(state, prio, lists) && t < |state| && state[t] != Ready && s != Ready
    ensures ReadyOk(state[t := s], prio, lists)
  {
  }

  // ----- mutexes -----

  /** A task may change state while wait lists shrink; if it dies, it owns nothing. */
  lemma MutexShrink(state: seq<TaskState>, kind: seq<Kind>, policy: seq<Policy>, owner: seq<Option<Tid>>,
                    mutexList: seq<seq<Oid>>, waiters: seq<seq<Tid>>, waiters': seq<seq<Tid>>, t: Tid, s: TaskState)
    requires MutexOk(state, kind, policy, owner, mutexList, waiters) && |waiters'| == |waiters| && t < |state|
    requires forall q, u {:trigger u in waiters'[q]} :: 0 <= q < |waiters| && u in waiters'[q] ==> u in waiters[q]
    requires IsLive(s) ==> IsLive(state[t])
    requires IsLive(state[t]) && !IsLive(s) ==> mutexList[t] == []
    ensures MutexOk(state[t := s], kind, policy, owner, mutexList, waiters')
  {
    forall q | 0 <= q < |waiters| ensures waiters[q] == [] ==> waiters'[q] == []
    {
      assert waiters'[q] != [] ==> waiters'[q][0] in waiters'[q];
    }
  }

  /** A task other than the owner joins the wait list of an owned object or of no mutex. */
  lemma MutexGrow(state: seq<TaskState>, kind: seq<Kind>, policy: seq<Policy>, owner: seq<Option<Tid>>,
                  mutexList: seq<seq<Oid>>, waiters: seq<seq<Tid>>, t: Tid, o: Oid, s: seq<Tid>)
    requires MutexOk(state, kind, policy, owner, mutexList, waiters) && t < |state| && IsLive(state[t])
    requires o < |waiters| && forall u :: u in s <==> u in waiters[o] || u == t
    requires kind[o] == Mutex ==> owner[o].Some? && owner[o] != Some(t)
    ensures MutexOk(state[t := Pend], kind, policy, owner, mutexList, waiters[o := s])
  {
  }

  /** A free mutex is taken. */
  lemma MutexTake(state: seq<TaskState>, kind: seq<Kind>, policy: seq<Policy>, owner: seq<Option<Tid>>,
                  mutexList: seq<seq<Oid>>, waiters: seq<seq<Tid>>, t: Tid, m: Oid)
    requires MutexOk(state, kind, policy, owner, mutexList, waiters) && t < |state| && IsLive(state[t])
    requires m < |kind| && policy[m] == ByPri && t !in waiters[m]
    requires kind[m] == NoObj || (kind[m] == Mutex && owner[m] == None)
    ensures MutexOk(state, kind[m := Mutex], policy, owner[m := Some(t)], mutexList[t := [m] + mutexList[t]], waiters)
  {
    assert m !in mutexList[t];
    NoDupCons(m, mutexList[t]);
    var mutexList' := mutexList[t := [m] + mutexList[t]];
    assert forall q :: q in mutexList'[t] <==> q == m || q in mutexList[t];
  }

  /** A mutex is left without owner. */
  lemma MutexGive(state: seq<TaskState>, kind: seq<Kind>, policy: seq<Policy>, owner: seq<Option<Tid>>,
                  mutexList: seq<seq<Oid>>, waiters: seq<seq<Tid>>, m: Oid)
    requires MutexOk(state, kind, policy, owner, mutexList, waiters)
    requires m < |kind| && kind[m] == NoObj && policy[m] == ByPri && waiters[m] == []
    ensures MutexOk(state, kind[m := Mutex], policy, owner[m := None], mutexList, waiters)
  {
  }

  /** Unlinking a mutex is as if it did not exist any more. */
  lemma MutexUnlink(state: seq<TaskState>, kind: seq<Kind>, policy: seq<Policy>, owner: seq<Option<Tid>>,
                    mutexList: seq<seq<Oid>>, waiters: seq<seq<Tid>>, t: Tid, m: Oid)
    requires MutexOk(state, kind, policy, owner, mutexList, waiters) && t < |state| && IsLive(state[t])
    requires m < |kind| && kind[m] == Mutex && owner[m] == Some(t)
    ensures MutexOk(state, kind[m := NoObj], policy, owner, mutexList[t := Without(mutexList[t], m)], waiters)
  {
  }

  /** An unowned mutex stops existing. */
  lemma MutexDrop(state: seq<TaskState>, kind: seq<Kind>, policy: seq<Policy>, owner: seq<Option<Tid>>,
                  mutexList: seq<seq<Oid>>, waiters: seq<seq<Tid>>, m: Oid, k: Kind)
    requires MutexOk(state, kind, policy, owner, mutexList, waiters)
    requires m < |kind| && (kind[m] == Mutex ==> owner[m] == None) && k != Mutex
    ensures MutexOk(state, kind[m := k], policy, owner, mutexList, waiters)
  {
  }

  /** The fields of an object that is no mutex do not matter. */
  lemma MutexIgnore(state: seq<TaskState>, kind: seq<Kind>, policy: seq<Policy>, policy': seq<Policy>,
                    owner: seq<Option<Tid>>, mutexList: seq<seq<Oid>>, waiters: seq<seq<Tid>>, m: Oid)
    requires MutexOk(state, kind, policy, owner, mutexList, waiters)
    requires m < |kind| && kind[m] != Mutex && |policy'| == |policy|
    requires forall o :: 0 <= o < |policy| && o != m ==> policy'[o] == policy[o]
    ensures MutexOk(state, kind, policy', owner, mutexList, waiters)
  {
  }

  /** Nobody lends to itself. */
  lemma NoSelfBoost(state: seq<TaskState>, blk: seq<Option<Oid>>, kind: seq<Kind>, policy: seq<Policy>,
                    owner: seq<Option<Tid>>, mutexList: seq<seq<Oid>>, waiters: seq<seq<Tid>>)
    requires WaitOk(state, blk, waiters) && MutexOk(state, kind, policy, owner, mutexList, waiters)
    ensures forall w :: 0 <= w < |state| ==> Boosts(state, blk, kind, owner)[w] != Some(w)
  {
    forall w | 0 <= w < |state|
      ensures BoostOf(state, blk, kind, owner, w) != Some(w)
    {
      if BoostOf(state, blk, kind, owner, w).Some? {
        assert w in waiters[blk[w].value];
      }
    }
  }

  // ----- tick list -----

  lemma TickLeave(state: seq<TaskState>, list: seq<Tid>, t: Tid, s: TaskState)
    requires TickOk(state, list) && t < |state| && !IsSleeping(s)
    ensures TickOk(state[t := s], Without(list, t))
  {
  }

  lemma TickJoin(state: seq<TaskState>, list: seq<Tid>, list': seq<Tid>, t: Tid, s: TaskState)
    requires TickOk(state, list) && t < |state| && (IsPended(s) || IsSleeping(s))
    requires forall u :: u in list' <==> u in list || u == t
    ensures TickOk(state[t := s], list')
  {
  }

  /** A task that pends without timeout, or neither starts nor ends a wait. */
  lemma TickStay(state: seq<TaskState>, list: seq<Tid>, t: Tid, s: TaskState)
    requires TickOk(state, list) && t < |state|
    requires IsPended(state[t]) ==> IsPended(s)
    requires IsSleeping(state[t]) <==> IsSleeping(s)
    ensures TickOk(state[t := s], list)
  {
  }

  // ----- who lends to whom -----

  /** The state as seen once a task being deleted counts as gone. */
  ghost function Bury(state: seq<TaskState>, dead: Option<Tid>): (r: seq<TaskState>)
    requires dead.Some? ==> dead.value < |state|
    ensures |r| == |state|
  {
    if dead.Some? then state[dead.value := Deleted] else state
  }

  /** The first waiter takes mutex `m`; those left behind now lend to it. */
  lemma HandOverBoosts(state: seq<TaskState>, blk: seq<Option<Oid>>, kind: seq<Kind>, policy: seq<Policy>,
                       owner: seq<Option<Tid>>, waiters: seq<seq<Tid>>, prio: seq<nat>, m: Oid, s: TaskState, u: Tid)
    requires WaitOk(state, blk, waiters) && SortedOk(prio, policy, waiters) && |prio| == |state|
    requires m < |kind| == |owner| == |waiters| && kind[m] == NoObj && policy[m] == ByPri
    requires waiters[m] != [] && !IsPended(s) && u < |state|
    ensures
      var w := waiters[m][0];
      w < |state| &&
      var b := BoostOf(state, blk, kind, owner, u);
      var b' := BoostOf(state[w := s], blk[w := None], kind[m := Mutex], owner[m := Some(w)], u);
      b' == b || (b == None && b' == Some(w) && prio[w] <= prio[u])
  {
    var w := waiters[m][0];
    assert w in waiters[m];
    if u != w && IsPended(state[u]) && blk[u] == Some(m) {
      assert u in waiters[m];
    }
  }

  /** ... and nothing else has to change for ownership and inheritance to hold again. */
  lemma HandOverOk(state: seq<TaskState>, blk: seq<Option<Oid>>, kind: seq<Kind>, policy: seq<Policy>,
                   owner: seq<Option<Tid>>, mutexList: seq<seq<Oid>>, waiters: seq<seq<Tid>>,
                   prio: seq<nat>, bprio: seq<nat>, dead: Option<Tid>, m: Oid, t: Tid, s: TaskState)
    requires WaitOk(state, blk, waiters) && SortedOk(prio, policy, waiters)
    requires |prio| == |state| == |mutexList|
    requires m < |kind| == |waiters| == |owner| == |policy| && kind[m] == NoObj && policy[m] == ByPri
    requires waiters[m] != [] && t == waiters[m][0] && t < |state| && !IsPended(s) && IsLive(s)
    requires dead.Some? ==> dead.value < |state| && dead.value !in waiters[m]
    requires MutexOk(Bury(state, dead), kind, policy, owner, mutexList, waiters)
    requires InheritOk(Bury(state, dead), prio, bprio, Boosts(state, blk, kind, owner), None)
    ensures MutexOk(Bury(state[t := s], dead), kind[m := Mutex], policy, owner[m := Some(t)],
                    mutexList[t := [m] + mutexList[t]], waiters[m := Without(waiters[m], t)])
    ensures InheritOk(Bury(state[t := s], dead), prio, bprio,
                      Boosts(state[t := s], blk[t := None], kind[m := Mutex], owner[m := Some(t)]), None)
  {
    hide MutexOk, InheritOk, SortedOk;
    var bury, bury' := Bury(state, dead), Bury(state[t := s], dead);
    var waiters' := waiters[m := Without(waiters[m], t)];
    assert t in waiters[m];
    assert bury[t := s] == bury';
    MutexShrink(bury, kind, policy, owner, mutexList, waiters, waiters', t, s);
    MutexTake(bury', kind, policy, owner, mutexList, waiters', t, m);
    var boost := Boosts(state, blk, kind, owner);
    var boost' := Boosts(state[t := s], blk[t := None], kind[m := Mutex], owner[m := Some(t)]);
    forall u | 0 <= u < |state|
      ensures boost'[u] == boost[u] || (boost[u] == None && boost'[u] == Some(t) && prio[t] <= prio[u])
    {
      HandOverBoosts(state, blk, kind, policy, owner, waiters, prio, m, s, u);
    }
    LendersJoin(bury, prio, bprio, boost, boost', t);
    InheritStates(bury, bury', prio, bprio, boost', None);
  }

  /** A mutex without waiters is lent to by nobody, whoever owns it. */
  lemma NobodyLends(state: seq<TaskState>, blk: seq<Option<Oid>>, kind: seq<Kind>, kind': seq<Kind>,
                    owner: seq<Option<Tid>>, owner': seq<Option<Tid>>, waiters: seq<seq<Tid>>, m: Oid)
    requires WaitOk(state, blk, waiters) && m < |kind| == |owner| == |waiters| && waiters[m] == []
    requires |kind'| == |kind| && |owner'| == |owner|
    requires forall o :: 0 <= o < |kind| && o != m ==> kind'[o] == kind[o] && owner'[o] == owner[o]
    ensures Boosts(state, blk, kind, owner) == Boosts(state, blk, kind', owner')
  {
    forall w | 0 <= w < |state|
      ensures BoostOf(state, blk, kind, owner, w) == BoostOf(state, blk, kind', owner', w)
    {
      if IsPended(state[w]) {
        assert w in waiters[blk[w].value];
      }
    }
  }

  /** Task `t` stops waiting without getting what it waited for: at most the owner of the mutex it
      waited for needs another look, and only if it runs at the priority of `t`. */
  lemma GiveUp(state: seq<TaskState>, blk: seq<Option<Oid>>, kind: seq<Kind>, policy: seq<Policy>,
               owner: seq<Option<Tid>>, mutexList: seq<seq<Oid>>, waiters: seq<seq<Tid>>,
               prio: seq<nat>, bprio: seq<nat>, dead: Option<Tid>, t: Tid, s: TaskState)
    requires WaitOk(state, blk, waiters) && t < |state| && IsPended(state[t]) && !IsPended(s)
    requires |kind| == |waiters| == |owner| && |prio| == |state| == |mutexList|
    requires (dead == None && IsLive(s)) || (dead == Some(t) && s == Deleted)
    requires MutexOk(Bury(state, dead), kind, policy, owner, mutexList, waiters)
    requires InheritOk(Bury(state, dead), prio, bprio, Boosts(state, blk, kind, owner), None)
    ensures
      var o, state' := blk[t].value, state[t := s];
      var boost' := Boosts(state', blk, kind, owner);
      && MutexOk(state', kind, policy, owner, mutexList, waiters[o := Without(waiters[o], t)])
      && (kind[o] != Mutex ==> InheritOk(state', prio, bprio, boost', None))
      && (kind[o] == Mutex ==>
            && owner[o].Some? && owner[o].value < |state| && IsLive(state'[owner[o].value])
            && o in mutexList[owner[o].value]
            && InheritOk(state', prio, bprio, boost', owner[o])
            && (prio[owner[o].value] != prio[t] ==> InheritOk(state', prio, bprio, boost', None)))
  {
    var o, state', bury := blk[t].value, state[t := s], Bury(state, dead);
    var boost, boost' := Boosts(state, blk, kind, owner), Boosts(state', blk, kind, owner);
    assert t in waiters[o];
    assert bury[t := s] == state';
    MutexShrink(bury, kind, policy, owner, mutexList, waiters, waiters[o := Without(waiters[o], t)], t, s);
    assert boost' == boost[t := None];
    if kind[o] == Mutex {
      LendersLeave(bury, prio, bprio, boost, boost', owner[o].value);
      InheritStates(bury, state', prio, bprio, boost', owner[o]);
      if prio[owner[o].value] != prio[t] {
        InheritStates(bury, state', prio, bprio, boost', None);
      }
    } else {
      assert boost' == boost;
      InheritStates(bury, state', prio, bprio, boost', None);
    }
  }

  /** A live task changes state without starting or ending a wait. */
  lemma LiveMove(state: seq<TaskState>, blk: seq<Option<Oid>>, kind: seq<Kind>, policy: seq<Policy>,
                 owner: seq<Option<Tid>>, mutexList: seq<seq<Oid>>, waiters: seq<seq<Tid>>,
                 prio: seq<nat>, bprio: seq<nat>, t: Tid, s: TaskState)
    requires |state| == |blk| && |kind| == |owner| && t < |state|
    requires MutexOk(state, kind, policy, owner, mutexList, waiters)
    requires InheritOk(state, prio, bprio, Boosts(state, blk, kind, owner), None)
    requires IsLive(state[t]) && IsLive(s) && (IsPended(state[t]) <==> IsPended(s))
    ensures MutexOk(state[t := s], kind, policy, owner, mutexList, waiters)
    ensures InheritOk(state[t := s], prio, bprio, Boosts(state[t := s], blk, kind, owner), None)
  {
    MutexShrink(state, kind, policy, owner, mutexList, waiters, waiters, t, s);
    assert Boosts(state[t := s], blk, kind, owner) == Boosts(state, blk, kind, owner);
    InheritStates(state, state[t := s], prio, bprio, Boosts(state, blk, kind, owner), None);
  }

  // ----- deletion -----

  /** The kinds as seen while the mutexes `ms` wait to be handed over. */
  ghost function HideKinds(kind: seq<Kind>, ms: seq<Oid>): (r: seq<Kind>)
    ensures |r| == |kind|
    ensures forall o :: 0 <= o < |kind| ==> r[o] == if o in ms then NoObj else kind[o]
  {
    seq(|kind|, o requires 0 <= o < |kind| => if o in ms then NoObj else kind[o])
  }

  /** A task about to die: seen without it and its mutexes, the kernel is in order. */
  lemma Dying(state: seq<TaskState>, blk: seq<Option<Oid>>, kind: seq<Kind>, policy: seq<Policy>,
              owner: seq<Option<Tid>>, mutexList: seq<seq<Oid>>, waiters: seq<seq<Tid>>,
              prio: seq<nat>, bprio: seq<nat>, d: Tid)
    requires |state| == |blk| && |kind| == |owner| && d < |state| && IsLive(state[d]) && |mutexList| == |state|
    requires MutexOk(state, kind, policy, owner, mutexList, waiters)
    requires InheritOk(state, prio, bprio, Boosts(state, blk, kind, owner), None)
    ensures MutexOk(Bury(state, Some(d)), HideKinds(kind, mutexList[d]), policy, owner, mutexList, waiters)
    ensures InheritOk(Bury(state, Some(d)), prio, bprio, Boosts(state, blk, HideKinds(kind, mutexList[d]), owner), None)
    ensures OwnsOk(mutexList[d], |kind|)
    ensures forall m :: m in mutexList[d] ==> m < |kind| && policy[m] == ByPri && kind[m] == Mutex && owner[m] == Some(d) && d !in waiters[m]
  {
    ListOf(state, kind, policy, owner, mutexList, waiters, d);
    var view := HideKinds(kind, mutexList[d]);
    var boost, boost' := Boosts(state, blk, kind, owner), Boosts(state, blk, view, owner);
    LendersLeave(state, prio, bprio, boost, boost', d);
    assert InheritOk(Bury(state, Some(d)), prio, bprio, boost', None);
  }

  /** A task is created where none was. */
  lemma Birth(state: seq<TaskState>, blk: seq<Option<Oid>>, kind: seq<Kind>, policy: seq<Policy>,
              owner: seq<Option<Tid>>, mutexList: seq<seq<Oid>>, waiters: seq<seq<Tid>>,
              prio: seq<nat>, bprio: seq<nat>, t: Tid, s: TaskState, p: nat)
    requires |state| == |blk| && |kind| == |owner| && t < |state| && |mutexList| == |state|
    requires !IsLive(state[t]) && IsLive(s) && !IsPended(s)
    requires MutexOk(state, kind, policy, owner, mutexList, waiters) && WaitOk(state, blk, waiters)
    requires InheritOk(state, prio, bprio, Boosts(state, blk, kind, owner), None)
    ensures MutexOk(state[t := s], kind, policy, owner, mutexList[t := []], waiters)
    ensures InheritOk(state[t := s], prio[t := p], bprio[t := p],
                      Boosts(state[t := s], blk[t := None], kind, owner), None)
  {
    var boost := Boosts(state, blk, kind, owner);
    forall w | 0 <= w < |boost| ensures boost[w] != Some(t) {
      if IsPended(state[w]) && boost[w].Some? {
        assert w in waiters[blk[w].value];
      }
    }
    InheritFresh(state, prio, bprio, boost, t, s, p);
    assert Boosts(state[t := s], blk[t := None], kind, owner) == boost;
  }

  // ----- the initial kernel -----

  lemma Initially(state: seq<TaskState>, prio: seq<nat>, blk: seq<Option<Oid>>, kind: seq<Kind>,
                  policy: seq<Policy>, owner: seq<Option<Tid>>, mutexList: seq<seq<Oid>>,
                  waiters: seq<seq<Tid>>, lists: seq<seq<Tid>>, idle: Tid)
    requires |state| == |prio| == |blk| == |mutexList| && |kind| == |policy| == |owner| == |waiters|
    requires idle < |state| && state == seq(|state|, _ => Seed)[idle := Ready]
    requires forall t :: 0 <= t < |prio| ==> prio[t] == IDLE_PRI && mutexList[t] == []
    requires forall o :: 0 <= o < |kind| ==> kind[o] == NoObj && waiters[o] == []
    requires lists == seq(PRI_MAX, _ => [])[IDLE_PRI := [idle]]
    ensures ReadyOk(state, prio, lists) && WaitOk(state, blk, waiters) && SortedOk(prio, policy, waiters)
    ensures MutexOk(state, kind, policy, owner, mutexList, waiters)
    ensures InheritOk(state, prio, prio, Boosts(state, blk, kind, owner), None)
    ensures TickOk(state, [])
  {
    NoDupCons(idle, []);
    assert [idle] + [] == [idle];
  }
}
