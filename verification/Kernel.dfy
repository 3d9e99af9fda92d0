/** The Rhino kernel's task, mutex and wait-list operations on one core (k_mutex.c, k_task.c,
    k_pend.c, k_tick.c, k_sched.c). Every critical section is one method call. */
module Kernels {
  import opened Lists
  import opened RunQueues
  import opened KernelState
  import opened Inheritance
  import opened KernelSteps
  import opened MutexChains
  import opened TickLists

  class Kernel {
    const idle: Tid
    const rq: RunQueue
    const tk: TickList

    // ktask_t
    var state: seq<TaskState>
    var prio: seq<nat>
    var bprio: seq<nat>
    var mutexList: seq<seq<Oid>>
    var blk: seq<Option<Oid>>
    var blkState: seq<BlkState>
    var suspendCount: seq<nat>
    // blk_obj_t and kmutex_t
    var kind: seq<Kind>
    var policy: seq<Policy>
    var waiters: seq<seq<Tid>>
    var owner: seq<Option<Tid>>
    var nested: seq<nat>
    /** The `mutex_list` pointer of each mutex, also where it is out of use. */
    var link: seq<Option<Oid>>
    // globals
    var active: Tid
    var schedLock: nat

    // ----- invariant -----

    ghost predicate Shape()
      reads this
    {
      && |prio| == |state| && |bprio| == |state| && |mutexList| == |state| && |blk| == |state|
      && |blkState| == |state| && |suspendCount| == |state|
      && |policy| == |kind| && |waiters| == |kind| && |owner| == |kind| && |nested| == |kind| && |link| == |kind|
      && InPriRange(prio) && InPriRange(bprio)
      && active < |state|
    }

    ghost predicate InPriRange(p: seq<nat>) {
      forall t :: 0 <= t < |p| ==> p[t] < PRI_MAX
    }

    lemma PriBound(t: Tid)
      requires Shape() && t < |state|
      ensures prio[t] < PRI_MAX
    {
    }

    /** Ready lists, wait lists and priorities agree; the idle task is ready and lowest. */
    ghost predicate QueuesOk()
      reads this`state, this`prio, this`bprio, this`blk, this`waiters, this`policy, rq
    {
      && rq.Valid()
      && ReadyOk(state, prio, rq.lists)
      && WaitOk(state, blk, waiters)
      && SortedOk(prio, policy, waiters)
      && idle < |state| && state[idle] == Ready
      && |prio| == |state| == |bprio| && prio[idle] == IDLE_PRI && bprio[idle] == IDLE_PRI
    }

    ghost predicate IdleOwnsNothing()
      reads this`mutexList
    {
      idle < |mutexList| && mutexList[idle] == []
    }

    ghost predicate Owners(view: seq<Kind>)
      reads this`state, this`policy, this`owner, this`mutexList, this`link, this`waiters
    {
      MutexOk(state, view, policy, owner, mutexList, waiters) && Chained(view, owner, mutexList, link)
    }

    /** The inheritance equation, reading mutex kinds from `view`. */
    ghost predicate Inherits(view: seq<Kind>)
      reads this`state, this`prio, this`bprio, this`blk, this`owner
    {
      && |view| == |owner| && |state| == |blk|
      && InheritOk(state, prio, bprio, Boosts(state, blk, view, owner), None)
    }

    ghost predicate ObjectsOk()
      reads this`kind, this`waiters, this`owner, this`nested
    {
      && |waiters| == |kind| == |owner| == |nested|
      && NoStrays(kind, waiters)
      && (forall o :: 0 <= o < |kind| && kind[o] == Mutex && owner[o].Some? ==> 1 <= nested[o] < NESTED_MOD)
    }

    ghost predicate CountsOk()
      reads this`state, this`suspendCount
    {
      Counted(state, suspendCount)
    }

    ghost predicate TicksOk()
      reads this`state, tk
    {
      tk.Valid() && |tk.deadline| == |state| && TickOk(state, tk.list)
    }

    /** The kernel invariant, but for the running task. */
    ghost predicate Settled()
      reads this`state, this`prio, this`bprio, this`mutexList, this`link, this`blk, this`suspendCount,
            this`kind, this`policy, this`waiters, this`owner, this`nested, rq, tk
    {
      && QueuesOk() && IdleOwnsNothing()
      && Owners(kind) && Inherits(kind)
      && ObjectsOk() && TicksOk() && CountsOk()
    }

    /** What holds between any two calls. */
    ghost predicate Inv()
      reads this, rq, tk
    {
      Shape() && Settled() && state[active] == Ready
    }

    /** A kernel whose only task is the idle task, which is running. */
    constructor (tasks: nat, objects: nat, idleTask: Tid)
      requires idleTask < tasks
      ensures fresh(rq) && fresh(tk) && Inv()
      ensures idle == idleTask && active == idle && tk.exact
      ensures owner == seq(objects, _ => None) && blkState == seq(tasks, _ => BlkFinish) && link == seq(objects, _ => None)
      ensures state == seq(tasks, _ => Seed)[idle := Ready] && kind == seq(objects, _ => NoObj) && schedLock == 0
      ensures prio == seq(tasks, _ => IDLE_PRI) && mutexList == seq(tasks, _ => []) && waiters == seq(objects, _ => [])
    {
      idle := idleTask;
      rq := new RunQueue();
      tk := new TickList(tasks);
      state := seq(tasks, _ => Seed)[idleTask := Ready];
      prio := seq(tasks, _ => IDLE_PRI);
      bprio := seq(tasks, _ => IDLE_PRI);
      mutexList := seq(tasks, _ => []);
      blk := seq(tasks, _ => None);
      blkState := seq(tasks, _ => BlkFinish);
      suspendCount := seq(tasks, _ => 0);
      kind := seq(objects, _ => NoObj);
      policy := seq(objects, _ => ByPri);
      waiters := seq(objects, _ => []);
      owner := seq(objects, _ => None);
      nested := seq(objects, _ => 0);
      link := seq(objects, _ => None);
      active := idleTask;
      schedLock := 0;
      new;
      hide Shape, Settled;
      assert [] + [idle] == [idle];
      rq.AddTail(idle, IDLE_PRI);
      Started(tasks, objects);
    }

    lemma Started(tasks: nat, objects: nat)
      requires idle < tasks && active == idle && state == seq(tasks, _ => Seed)[idle := Ready]
      requires prio == seq(tasks, _ => IDLE_PRI) && bprio == seq(tasks, _ => IDLE_PRI)
      requires mutexList == seq(tasks, _ => []) && blk == seq(tasks, _ => None)
      requires |blkState| == tasks && |suspendCount| == tasks && |owner| == objects && |nested| == objects
      requires link == seq(objects, _ => None)
      requires kind == seq(objects, _ => NoObj) && |policy| == objects && waiters == seq(objects, _ => [])
      requires rq.Valid() && rq.lists == seq(PRI_MAX, _ => [])[IDLE_PRI := [idle]]
      requires tk.Valid() && tk.list == [] && |tk.deadline| == tasks
      ensures Shape() && Settled()
    {
      hide ReadyOk, WaitOk, SortedOk, MutexOk, Chained, InheritOk, TickOk;
      ChainStart(kind, owner, mutexList, link);
      Initially(state, prio, blk, kind, policy, owner, mutexList, waiters, rq.lists, idle);
    }

    // ----- k_pend.c -----

    /** `pend_list_add` */
    method PendListAdd(o: Oid, t: Tid)
      requires o < |waiters| && t < |prio| && AllBelow(waiters[o], |prio|)
      modifies this`waiters
      ensures waiters == old(waiters)[o := InsertByKey(prio, old(waiters)[o], t)]
      ensures
        var l := old(waiters)[o];
        exists i :: 0 <= i <= |l| && waiters[o] == l[..i] + [t] + l[i..]
          && (forall j :: 0 <= j < i ==> prio[l[j]] <= prio[t]) && (i < |l| ==> prio[l[i]] > prio[t])
    {
      var i := 0;
      while i < |waiters[o]|
        invariant i <= |waiters[o]|
        invariant forall j :: 0 <= j < i ==> prio[waiters[o][j]] <= prio[t]
      {
        if prio[waiters[o][i]] > prio[t] {
          break;
        }
        i := i + 1;
      }
      InsertAt(prio, waiters[o], t, i);
      waiters := waiters[o := waiters[o][..i] + [t] + waiters[o][i..]];
    }

    /** `pend_list_reorder`: `t` leaves the list of the object it is pended on and re-enters
        it at its new priority. Only `t` may be out of order before the call. */
    method PendListReorder(t: Tid, ghost was: seq<nat>)
      requires Shape() && t < |state| && IsPended(state[t])
      requires WaitOk(state, blk, waiters) && SortedOk(was, policy, waiters)
      requires |was| == |prio| && prio == was[t := prio[t]]
      modifies this`waiters
      ensures WaitOk(state, blk, waiters) && SortedOk(prio, policy, waiters)
      ensures |waiters| == old(|waiters|)
    {
      var o := blk[t].value;
      ghost var w0 := waiters;
      if policy[o] == ByPri {
        WithoutSorted(was, waiters[o], t);
        ghost var s := Without(waiters[o], t);
        SortedFrame(was, prio, s);
        InsertSorted(prio, s, t);
        InsertNoDup(prio, s, t);
        waiters := waiters[o := Without(waiters[o], t)];
        PendListAdd(o, t);
        assert waiters == w0[o := InsertByKey(prio, s, t)];
        WaitReplace(state, blk, w0, o, waiters[o]);
      }
      SortedReplace(was, prio, policy, w0, o, t, waiters[o]);
      assert waiters == w0[o := waiters[o]];
    }

    // ----- k_mutex.c: priority look-up -----

    /** `mutex_pri_look`: unlinks `rel` from the mutex list of `t` and returns the least of the
        base priority and the first waiters of what is left. */
    method MutexPriLook(t: Tid, rel: Option<Oid>) returns (newPri: nat)
      requires Shape() && t < |state| && InRange(waiters, |prio|)
      requires OwnsOk(mutexList[t], |kind|)
      modifies this`mutexList, this`link
      ensures mutexList == old(mutexList)[t := if rel.Some? then Without(old(mutexList)[t], rel.value) else old(mutexList)[t]]
      ensures AllBelow(mutexList[t], |kind|) && |link| == old(|link|)
      ensures Cut(old(link), link, old(mutexList)[t], mutexList[t], rel)
      ensures IsLimit(bprio[t], mutexList[t], waiters, prio, newPri)
    {
      hide Without, NoDup, InRange, Shape, Cut;
      Lengths(t);
      newPri := bprio[t];
      var pri := newPri;
      var i := 0;
      var ms := mutexList[t];
      ghost var top := 0;
      ghost var orig, done := ms, false;
      ghost var left := if rel.Some? then Without(orig, rel.value) else orig;
      while i < |ms|
        invariant mutexList == old(mutexList)[t := ms]
        invariant i <= |ms| && AllBelow(ms, |kind|) && |link| == |kind|
        invariant ms == left || (ms == orig && rel.Some? && rel.value !in orig[..i])
        invariant if done then ms == left && Cut(old(link), link, orig, ms, rel) else ms == orig && link == old(link)
        invariant newPri <= pri && newPri <= bprio[t]
        invariant forall j :: 0 <= j < i ==> CoversFirst(prio, waiters, ms[j], newPri)
        invariant newPri == bprio[t] ||
                  (top in ms && rel != Some(top) && MeetsFirst(prio, waiters, top, newPri))
        decreases |ms| - i
      {
        var m := ms[i];
        if rel == Some(m) {
          assert m in ms;
          done := true;
          ms := Unlink(t, ms, i);
          continue;
        }
        if waiters[m] != [] {
          pri := prio[waiters[m][0]];
        }
        if newPri > pri {
          newPri := pri;
          top := m;
        }
        i := i + 1;
      }
      assert ms == left;
      if !done {
        CutNothing(link, ms, rel);
      }
    }

    /** `*prev = mutex_tmp->mutex_list` */
    method Unlink(t: Tid, ms: seq<Oid>, i: nat) returns (rest: seq<Oid>)
      requires t < |mutexList| && mutexList[t] == ms && i < |ms| && AllBelow(ms, |link|) && NoDup(ms)
      modifies this`mutexList, this`link
      ensures rest == Without(ms, ms[i]) == ms[..i] + ms[i + 1..] && AllBelow(rest, |link|)
      ensures mutexList == old(mutexList)[t := rest] && |link| == old(|link|)
      ensures Cut(old(link), link, ms, rest, Some(ms[i]))
    {
      hide Without, NoDup, Cut;
      WithoutAt(ms, i);
      CutMade(link, ms, i);
      if i > 0 {
        link := link[ms[i - 1] := link[ms[i]]];
      }
      rest := ms[..i] + ms[i + 1..];
      mutexList := mutexList[t := rest];
    }

    lemma Lengths(t: Tid)
      requires Shape() && t < |state| && InRange(waiters, |prio|)
      ensures |waiters| == |kind| == |link| && |mutexList| == |prio| == |bprio| == |state|
      ensures forall m :: 0 <= m < |waiters| && waiters[m] != [] ==> waiters[m][0] < |prio|
    {
    }

    /** `mutex_pri_limit`: the same least value, with `pri` as the base and nothing unlinked. */
    method MutexPriLimit(t: Tid, pri: nat) returns (highPri: nat)
      requires Shape() && t < |state| && InRange(waiters, |prio|)
      requires AllBelow(mutexList[t], |kind|)
      ensures IsLimit(pri, mutexList[t], waiters, prio, highPri)
    {
      highPri := pri;
      var p := pri;
      var ms := mutexList[t];
      ghost var top := 0;
      for i := 0 to |ms|
        invariant highPri <= p && highPri <= pri
        invariant forall j :: 0 <= j < i ==> CoversFirst(prio, waiters, ms[j], highPri)
        invariant highPri == pri || (top in ms && MeetsFirst(prio, waiters, top, highPri))
      {
        if waiters[ms[i]] != [] {
          p := prio[waiters[ms[i]][0]];
        }
        if p < highPri {
          highPri := p;
          top := ms[i];
        }
      }
    }

    // ----- k_task.c: priority propagation -----

    /** The `K_RDY` branch of `task_pri_change`. */
    method MoveReady(c: Tid, p: nat)
      requires Shape() && QueuesOk() && c < |state| && c != idle
      requires state[c] == Ready && p < PRI_MAX && p != prio[c]
      modifies this`prio, rq
      ensures Shape() && QueuesOk()
      ensures prio == old(prio)[c := p]
      ensures
        var l := old(rq.lists[prio[c] := Without(rq.lists[prio[c]], c)]);
        rq.lists == l[p := if c == active then [c] + l[p] else l[p] + [c]]
    {
      ghost var was := prio;
      assert c in rq.lists[prio[c]] && idle in rq.lists[IDLE_PRI];
      ReadyMove(state, prio, rq.lists, c, p, [c] + rq.lists[p]);
      ReadyMove(state, prio, rq.lists, c, p, rq.lists[p] + [c]);
      rq.Remove(c, prio[c], idle, IDLE_PRI);
      prio := prio[c := p];
      if c == active {
        rq.AddHead(c, prio[c]);
      } else {
        rq.AddTail(c, prio[c]);
      }
      SortedKeep(was, prio, policy, waiters, c);
    }

    /** The sleeping and suspended branches: the task is on no priority-ordered list. */
    method MoveOffQueue(c: Tid, p: nat)
      requires Shape() && QueuesOk() && c < |state|
      requires state[c] != Ready && !IsPended(state[c]) && p < PRI_MAX
      modifies this`prio
      ensures Shape() && QueuesOk()
      ensures prio == old(prio)[c := p]
    {
      ghost var was := prio;
      prio := prio[c := p];
      SortedKeep(was, prio, policy, waiters, c);
    }

    /** `boost` says what each pended task really lends to. */
    ghost predicate Linked(boost: seq<Option<Tid>>)
      requires Shape()
      reads this
    {
      && |boost| == |state|
      && (forall w :: 0 <= w < |state| && IsPended(state[w]) ==>
            boost[w] == BoostOf(state, blk, kind, owner, w))
    }

    /** What `task_pri_change` needs of the rest of the kernel. `virt` is a task about to pend
        (`krhino_mutex_lock` raises the owner before it pends the caller). */
    ghost predicate CanPropagate(task: Tid, newPri: nat, boost: seq<Option<Tid>>, virt: Option<Tid>)
      requires Shape()
      reads this, rq
    {
      && QueuesOk() && IdleOwnsNothing()
      && task != idle && newPri < PRI_MAX
      && |boost| == |state|
      && Broken(state, prio, bprio, boost, task, newPri)
      && (IsPended(state[task]) ==>
            MutexOk(state, kind, policy, owner, mutexList, waiters) && Linked(boost))
      && (forall w :: 0 <= w < |state| && !IsPended(state[w]) && boost[w].Some? ==>
            virt == Some(w) && newPri < prio[task])
      && (forall w :: 0 <= w < |state| ==> boost[w] != Some(w))
      && (virt.Some? ==> virt.value < |state| && virt.value != task && prio[virt.value] == newPri < prio[task])
    }

    /** `task_pri_change`: restores the inheritance equation at `task` and along the chain of
        owners it waits for, and terminates even when that chain is a cycle: every pass moves
        one priority strictly in the direction of the first. */
    method TaskPriChange(task: Tid, newPri: nat, ghost boost: seq<Option<Tid>>, ghost virt: Option<Tid>)
      requires Shape() && CanPropagate(task, newPri, boost, virt)
      modifies this`prio, this`waiters, this`mutexList, this`link, rq
      ensures Shape() && QueuesOk()
      ensures InheritOk(state, prio, bprio, boost, None)
      ensures mutexList == old(mutexList) && link == old(link)
      ensures old(MutexOk(state, kind, policy, owner, mutexList, waiters)) ==>
                MutexOk(state, kind, policy, owner, mutexList, waiters)
      ensures newPri <= old(prio[task]) ==> forall u :: 0 <= u < |state| ==> prio[u] <= old(prio)[u]
      ensures newPri > old(prio[task]) ==> forall u :: 0 <= u < |state| ==> prio[u] >= old(prio)[u]
      ensures virt.Some? ==> prio[virt.value] == old(prio)[virt.value]
      ensures !IsPended(state[task]) ==> prio == old(prio)[task := newPri] && waiters == old(waiters)
    {
      hide QueuesOk, MutexOk, Chained, Room, Broken, InheritOk, IsInherited;
      BrokenBounds(state, prio, bprio, boost, task, newPri);
      var cur: Option<Tid> := Some(task);
      var np: nat := newPri;
      ghost var up := newPri <= prio[task];
      while cur.Some?
        invariant Shape() && QueuesOk() && mutexList == old(mutexList) && link == old(link)
        invariant old(MutexOk(state, kind, policy, owner, mutexList, waiters)) ==>
                    MutexOk(state, kind, policy, owner, mutexList, waiters)
        invariant cur.None? ==> InheritOk(state, prio, bprio, boost, None)
        invariant cur.Some? ==>
                    && cur.value < |state| && IsLive(state[cur.value]) && cur.value != idle && np < PRI_MAX
                    && Broken(state, prio, bprio, boost, cur.value, np)
                    && (if up then np == newPri <= prio[cur.value] else np > prio[cur.value])
                    && (IsPended(state[cur.value]) ==>
                          MutexOk(state, kind, policy, owner, mutexList, waiters) && Linked(boost))
                    && virt != cur
        invariant if up then forall u :: 0 <= u < |state| ==> prio[u] <= old(prio)[u]
                  else forall u :: 0 <= u < |state| ==> prio[u] >= old(prio)[u]
        invariant virt.Some? ==> up && prio[virt.value] == newPri
        invariant !IsPended(state[task]) ==>
                    && waiters == old(waiters)
                    && prio == (if cur.Some? then old(prio) else old(prio)[task := newPri])
                    && (cur.Some? ==> cur.value == task && np == newPri)
        decreases if cur.None? then 0 else 1 + Room(prio, PRI_MAX, up)
      {
        ghost var was, c, p := prio, cur.value, np;
        cur, np := OnePass(cur.value, np, boost, up);
        if was[c] != p {
          RoomShrinks(was, c, p, PRI_MAX, up);
        }
      }
    }

    /** The body of the propagation loop: `c` moves to priority `p`. */
    method OnePass(c: Tid, p: nat, ghost boost: seq<Option<Tid>>, ghost up: bool)
      returns (next: Option<Tid>, np: nat)
      requires Shape() && QueuesOk() && IdleOwnsNothing() && c < |state| && c != idle && p < PRI_MAX
      requires Broken(state, prio, bprio, boost, c, p)
      requires if up then p <= prio[c] else p > prio[c]
      requires IsPended(state[c]) ==>
                 MutexOk(state, kind, policy, owner, mutexList, waiters) && Linked(boost)
      requires forall w :: 0 <= w < |state| ==> boost[w] != Some(w)
      requires forall w :: 0 <= w < |state| && !IsPended(state[w]) && boost[w].Some? ==> up && c != w
      modifies this`prio, this`waiters, this`mutexList, this`link, rq
      ensures Shape() && QueuesOk() && mutexList == old(mutexList) && link == old(link)
      ensures IsPended(state[c]) ==> MutexOk(state, kind, policy, owner, mutexList, waiters)
      ensures !IsPended(state[c]) ==> waiters == old(waiters)
      ensures prio == old(prio)[c := p]
      ensures next.None? ==> InheritOk(state, prio, bprio, boost, None)
      ensures next.Some? ==>
                && IsPended(state[c]) && p != old(prio[c])
                && next.value < |state| && IsLive(state[next.value]) && next.value != idle && np < PRI_MAX
                && Broken(state, prio, bprio, boost, next.value, np)
                && (if up then np == p < prio[next.value] else np > prio[next.value])
    {
      hide QueuesOk, MutexOk, Chained, Broken, InheritOk, IsInherited;
      next := None;
      np := p;
      BrokenBounds(state, prio, bprio, boost, c, p);
      if prio[c] == p {
        AlreadySettled(state, prio, bprio, boost, c);
        assert prio == prio[c := p];
      } else if IsPended(state[c]) {
        assert !up ==> boost == Boosts(state, blk, kind, owner);
        next, np := PropagatePended(c, p, boost, up);
      } else {
        EndsAtSink(state, prio, bprio, boost, c, p);
        if state[c] == Ready {
          MoveReady(c, p);
        } else {
          MoveOffQueue(c, p);
        }
      }
    }

    /** The `K_PEND` branch of one pass: `c` takes priority `p` and keeps its wait list sorted;
        the result is the next task to change, if any, and its new priority. */
    method PropagatePended(c: Tid, p: nat, ghost boost: seq<Option<Tid>>, ghost up: bool)
      returns (next: Option<Tid>, np: nat)
      requires Shape() && QueuesOk() && IdleOwnsNothing() && p < PRI_MAX
      requires Broken(state, prio, bprio, boost, c, p) && IsPended(state[c])
      requires if up then p < prio[c] else p > prio[c]
      requires MutexOk(state, kind, policy, owner, mutexList, waiters) && Linked(boost)
      requires !up ==> boost == Boosts(state, blk, kind, owner)
      requires forall w :: 0 <= w < |state| ==> boost[w] != Some(w)
      modifies this`prio, this`waiters, this`mutexList, this`link
      ensures Shape() && QueuesOk() && mutexList == old(mutexList) && link == old(link)
      ensures MutexOk(state, kind, policy, owner, mutexList, waiters)
      ensures prio == old(prio)[c := p]
      ensures next.None? ==> InheritOk(state, prio, bprio, boost, None)
      ensures next.Some? ==>
                && next.value < |state| && IsLive(state[next.value]) && next.value != idle && np < PRI_MAX
                && Broken(state, prio, bprio, boost, next.value, np)
                && (if up then np == p < prio[next.value] else np > prio[next.value])
    {
      hide QueuesOk, MutexOk, Chained, InheritOk, IsInherited, IsLimit, OwnsOk;
      ghost var was := prio;
      var oldPri := prio[c];
      next := None;
      np := p;
      ReplacePri(c, p);
      var o := blk[c].value;
      if kind[o] != Mutex {
        EndsAtSink(state, was, bprio, boost, c, p);
        return;
      }
      var mt := owner[o].value;
      if up {
        RaisePass(state, was, bprio, boost, c, p, mt);
      } else {
        LowerPass(state, was, bprio, boost, c, p, mt);
      }
      if prio[mt] > prio[c] {
        next := Some(mt);
      } else if prio[mt] == oldPri {
        ListOf(state, kind, policy, owner, mutexList, waiters, mt);
        np := LookAgain(mt, None, kind);
        LowerOnlyDown(state, was, bprio, boost, c, p, mt, np);
        if np != prio[mt] {
          next := Some(mt);
        } else {
          AlreadySettled(state, prio, bprio, boost, mt);
        }
      }
    }

    /** The pended task `c` takes priority `p` and its place in the wait list. */
    method ReplacePri(c: Tid, p: nat)
      requires Shape() && QueuesOk() && c < |state| && IsPended(state[c]) && p < PRI_MAX
      requires MutexOk(state, kind, policy, owner, mutexList, waiters)
      modifies this`prio, this`waiters
      ensures Shape() && QueuesOk()
      ensures MutexOk(state, kind, policy, owner, mutexList, waiters)
      ensures prio == old(prio)[c := p]
      ensures blk[c].Some? && blk[c].value < |kind|
      ensures kind[blk[c].value] == Mutex ==>
                var o := owner[blk[c].value];
                && o.Some? && o.value < |state| && o.value != c && IsLive(state[o.value])
                && blk[c].value in mutexList[o.value]
    {
      hide ReadyOk, WaitOk, SortedOk, MutexOk, Chained;
      ghost var was, w0 := prio, waiters;
      PendedOn(state, blk, waiters, c);
      prio := prio[c := p];
      PendListReorder(c, was);
      ReadyKeep(state, was, rq.lists, c, p);
      MutexKeep(state, blk, kind, policy, owner, mutexList, w0, waiters);
      if kind[blk[c].value] == Mutex {
        OwnerOf(state, blk, kind, policy, owner, mutexList, waiters, c);
      }
    }

    /** `mutex_pri_look` finds the priority the inheritance equation asks for. With a mutex to
        release, `view` is the kernel in which that mutex is already gone. */
    method LookAgain(t: Tid, rel: Option<Oid>, ghost view: seq<Kind>) returns (p: nat)
      requires Shape() && QueuesOk() && t < |state| && IsLive(state[t]) && |view| == |kind|
      requires OwnsOk(mutexList[t], |kind|)
      requires MutexOk(state, view, policy, owner, Unlinked(t, rel), waiters)
      modifies this`mutexList, this`link
      ensures mutexList == old(Unlinked(t, rel)) && |link| == old(|link|)
      ensures Cut(old(link), link, old(mutexList)[t], mutexList[t], rel)
      ensures IsInherited(prio, bprio, Boosts(state, blk, view, owner), t, p) && p < PRI_MAX
    {
      hide ReadyOk, WaitOk, SortedOk, MutexOk, Chained, IsLimit, OwnsOk;
      SortedRange(prio, policy, waiters);
      p := MutexPriLook(t, rel);
      assert mutexList == old(Unlinked(t, rel));
      LendersOf(state, blk, view, policy, owner, mutexList, waiters, prio, bprio,
                Boosts(state, blk, view, owner), t, p);
    }

    /** The mutex lists once `rel` is off the list of `t`. */
    ghost function Unlinked(t: Tid, rel: Option<Oid>): seq<seq<Oid>>
      requires t < |mutexList|
      reads this`mutexList
    {
      if rel.Some? then mutexList[t := Without(mutexList[t], rel.value)] else mutexList
    }

    // ----- k_mutex.c: release and reset -----

    /** `mutex_release`: unlinks `rel` and gives `task` the priority it has left. */
    method MutexRelease(task: Tid, rel: Option<Oid>, ghost view: seq<Kind>)
      requires Shape() && QueuesOk() && IdleOwnsNothing() && task < |state| && task != idle
      requires IsLive(state[task]) && |view| == |kind| && OwnsOk(mutexList[task], |kind|)
      requires MutexOk(state, view, policy, owner, Unlinked(task, rel), waiters)
      requires InheritOk(state, prio, bprio, Boosts(state, blk, view, owner), Some(task))
      requires IsPended(state[task]) ==> view == kind
      requires rel.None? ==> Chained(view, owner, mutexList, link)
      requires rel.Some? ==>
                 && rel.value < |view| && view[rel.value] == NoObj && rel.value in mutexList[task]
                 && Chained(view[rel.value := Mutex], owner, mutexList, link)
                 && Holding(view[rel.value := Mutex], owner, mutexList, task)
      modifies this`prio, this`waiters, this`mutexList, this`link, rq
      ensures Shape() && QueuesOk() && IdleOwnsNothing()
      ensures mutexList == old(Unlinked(task, rel)) && Owners(view) && Inherits(view)
      ensures !IsPended(state[task]) ==> waiters == old(waiters)
      ensures old(Inherits(view)) ==> prio == old(prio) && waiters == old(waiters) && rq.lists == old(rq.lists)
    {
      hide QueuesOk, MutexOk, Chained, InheritOk, IsInherited, OwnsOk;
      ghost var boost := Boosts(state, blk, view, owner);
      QueuesWait();
      NoSelfBoost(state, blk, view, policy, owner, Unlinked(task, rel), waiters);
      ghost var lists0, link0 := mutexList, link;
      var newPri := LookAgain(task, rel, view);
      if rel.Some? {
        ChainLook(view, owner, lists0, link0, mutexList, link, task, rel.value);
      }
      if old(Inherits(view)) {
        InheritedAt(state, prio, bprio, boost, task);
        InheritedUnique(prio, bprio, boost, task, prio[task], newPri);
      }
      if newPri != prio[task] {
        TaskPriChange(task, newPri, boost, None);
      } else {
        AlreadySettled(state, prio, bprio, boost, task);
      }
    }

    lemma InheritedAt(state: seq<TaskState>, prio: seq<nat>, bprio: seq<nat>, boost: seq<Option<Tid>>, t: Tid)
      requires InheritOk(state, prio, bprio, boost, None) && t < |state| && IsLive(state[t])
      ensures IsInherited(prio, bprio, boost, t, prio[t])
    {
    }

    lemma QueuesWait()
      requires QueuesOk()
      ensures WaitOk(state, blk, waiters) && SortedOk(prio, policy, waiters)
      ensures ReadyOk(state, prio, rq.lists) && rq.Valid() && idle < |state| && state[idle] == Ready
      ensures |prio| == |state| == |bprio| && prio[idle] == IDLE_PRI && bprio[idle] == IDLE_PRI
    {
    }

    // ----- list moves -----

    /** `ready_list_add`: behind the tasks of the active task's priority, ahead of others. */
    method ReadyAdd(t: Tid)
      requires rq.Valid() && t < |prio| && active < |prio| && prio[t] < PRI_MAX
      modifies rq
      ensures rq.Valid()
      ensures
        var l := old(rq.lists)[prio[t]];
        rq.lists == old(rq.lists)[prio[t] := if prio[t] == prio[active] then l + [t] else [t] + l]
    {
      if prio[t] == prio[active] {
        rq.AddTail(t, prio[t]);
      } else {
        rq.AddHead(t, prio[t]);
      }
    }

    /** A pended task leaves its wait list and becomes ready, suspended or deleted. */
    method LeaveWaitList(t: Tid, s: TaskState)
      requires Shape() && QueuesOk() && t < |state| && IsPended(state[t])
      requires s == Ready || s == Suspended || s == Deleted
      modifies this`state, this`waiters, rq
      ensures Shape() && QueuesOk() && blk[t].Some? && blk[t].value < |kind|
      ensures state == old(state)[t := s]
      ensures waiters == old(waiters)[blk[t].value := Without(old(waiters)[blk[t].value], t)]
    {
      hide ReadyOk, WaitOk, SortedOk;
      PendedOn(state, blk, waiters, t);
      var o := blk[t].value;
      LeaveWait(state, blk, waiters, t, s);
      LeaveSorted(prio, policy, waiters, o, t);
      waiters := waiters[o := Without(waiters[o], t)];
      PriBound(t);
      Requeue(t, s);
    }

    /** The ready lists follow a change of state: `ready_list_add` or `ready_list_rm`. */
    method Requeue(t: Tid, s: TaskState)
      requires rq.Valid() && |prio| == |state| && t < |prio| && prio[t] < PRI_MAX && active < |prio|
      requires ReadyOk(state, prio, rq.lists) && s != state[t]
      requires idle < |state| && t != idle && state[idle] == Ready && prio[idle] == IDLE_PRI
      modifies this`state, rq
      ensures rq.Valid() && ReadyOk(state, prio, rq.lists) && state == old(state)[t := s] && |old(rq.lists)| == PRI_MAX
      ensures
        var l := old(rq.lists)[prio[t]];
        rq.lists == if s == Ready then old(rq.lists)[prio[t] := if prio[t] == prio[active] then l + [t] else [t] + l]
                    else if old(state[t]) == Ready then old(rq.lists)[prio[t] := Without(l, t)] else old(rq.lists)
    {
      hide ReadyOk;
      ghost var was := state;
      if s == Ready {
        ReadyBoth(state, prio, rq.lists, t);
        ReadyAdd(t);
        state := state[t := s];
      } else {
        var wasReady := state[t] == Ready;
        state := state[t := s];
        if wasReady {
          LeaveReady(t, was);
        } else {
          ReadyOther(was, prio, rq.lists, t, s);
        }
      }
    }

    lemma ReadyBoth(state: seq<TaskState>, prio: seq<nat>, lists: seq<seq<Tid>>, t: Tid)
      requires ReadyOk(state, prio, lists) && t < |state| && state[t] != Ready && prio[t] < PRI_MAX
      ensures |lists| == PRI_MAX
      ensures ReadyOk(state[t := Ready], prio, lists[prio[t] := [t] + lists[prio[t]]])
      ensures ReadyOk(state[t := Ready], prio, lists[prio[t] := lists[prio[t]] + [t]])
    {
      ReadyJoin(state, prio, lists, t, [t] + lists[prio[t]]);
      ReadyJoin(state, prio, lists, t, lists[prio[t]] + [t]);
    }

    /** The common part of `pend_task_wakeup` and `pend_task_rm`. */
    method Unpend(t: Tid, b: BlkState)
      requires Shape() && QueuesOk() && TicksOk() && t < |state| && IsPended(state[t])
      modifies this`state, this`waiters, this`blk, this`blkState, rq, tk`list
      ensures Shape() && QueuesOk() && TicksOk()
      ensures old(blk[t].Some? && blk[t].value < |kind|)
      ensures state == old(state)[t := AfterWake(old(state[t]))]
      ensures blk == old(blk)[t := None] && blkState == old(blkState)[t := b]
      ensures tk.list == Without(old(tk.list), t)
      ensures waiters == old(waiters[blk[t].value := Without(waiters[blk[t].value], t)])
    {
      hide ReadyOk, WaitOk, SortedOk, TickOk, OnTime, InPriRange, Without;
      var s := AfterWake(state[t]);
      TickLeave(state, tk.list, t, s);
      LeaveWaitList(t, s);
      tk.Remove(t);
      blkState := blkState[t := b];
      OffWait(state, blk, waiters, t, s, None);
      assert state[t := s] == state;
      blk := blk[t := None];
    }

    /** `pend_to_blk_obj` */
    method PendTo(o: Oid, t: Tid, ticks: nat)
      requires Shape() && QueuesOk() && TicksOk() && t < |state| && o < |kind|
      requires state[t] == Ready && t != idle && ticks < TICK_MOD
      modifies this`state, this`waiters, this`blk, rq, tk`list, tk`deadline, tk`armed
      ensures ArmedIfAny(old(tk.list), old(tk.deadline), old(tk.armed), tk.list, tk.deadline, tk.armed, tk.count, tk.now, t, ticks)
      ensures Shape() && QueuesOk() && TicksOk()
      ensures state == old(state)[t := Pend] && blk == old(blk)[t := Some(o)]
      ensures |waiters| == old(|waiters|) && waiters == old(waiters)[o := waiters[o]]
      ensures waiters[o] == (if policy[o] == Fifo then old(waiters[o]) + [t] else InsertByKey(prio, old(waiters[o]), t))
      ensures forall u :: u in waiters[o] <==> u in old(waiters[o]) || u == t
    {
      hide ReadyOk, WaitOk, SortedOk, TickOk, InsertByKey, ArmedIfAny, OnTime, InPriRange, Boosts, Bury, Without,
           NoDup, Counted, NoStrays, WokenOnly, LeftOk;
      PriBound(t);
      ghost var w0, state0, blk0 := waiters, state, blk;
      Unlisted(state, blk, waiters, tk.list, t);
      blk := blk[t := Some(o)];
      ArmTimeout(t, ticks, Pend);
      state := state[t := Pend];
      LeaveReady(t, state0);
      EnterWaitList(o, t);
      JoinWait(state0, blk0, w0, t, o, waiters[o]);
    }

    /** The timeout of a task about to enter the waiting state `s`. */
    method ArmTimeout(t: Tid, ticks: nat, ghost s: TaskState)
      requires TicksOk() && t < |state| && state[t] == Ready && t !in tk.list && ticks < TICK_MOD
      requires s == Pend || (s == Sleep && 0 < ticks < WAIT_FOREVER)
      modifies tk`list, tk`deadline, tk`armed
      ensures tk.Valid() && |tk.deadline| == |state| && TickOk(state[t := s], tk.list)
      ensures ArmedIfAny(old(tk.list), old(tk.deadline), old(tk.armed), tk.list, tk.deadline, tk.armed, tk.count, tk.now, t, ticks)
    {
      hide TickOk, OnTime, NoDup;
      ghost var list0 := tk.list;
      if ticks != WAIT_FOREVER {
        tk.Insert(t, ticks);
      }
      if ticks == WAIT_FOREVER || ticks == 0 {
        TickStay(state, list0, t, s);
      } else {
        TickJoin(state, list0, tk.list, t, s);
      }
    }

    /** The wait list is kept in arrival or in priority order. */
    method EnterWaitList(o: Oid, t: Tid)
      requires SortedOk(prio, policy, waiters) && o < |waiters| && t < |prio|
      requires NoDup(waiters[o]) && t !in waiters[o]
      modifies this`waiters
      ensures |waiters| == old(|waiters|) && waiters == old(waiters)[o := waiters[o]]
      ensures waiters[o] == (if policy[o] == Fifo then old(waiters[o]) + [t] else InsertByKey(prio, old(waiters[o]), t))
      ensures forall u :: u in waiters[o] <==> u in old(waiters[o]) || u == t
      ensures NoDup(waiters[o]) && SortedOk(prio, policy, waiters)
    {
      ghost var w0 := waiters;
      if policy[o] == Fifo {
        NoDupSnoc(waiters[o], t);
        waiters := waiters[o := waiters[o] + [t]];
      } else {
        InsertNoDup(prio, waiters[o], t);
        InsertSorted(prio, waiters[o], t);
        PendListAdd(o, t);
      }
      JoinSorted(prio, policy, w0, o, waiters[o]);
    }

    /** A ready task is on no other list. */
    lemma Unlisted(state: seq<TaskState>, blk: seq<Option<Oid>>, waiters: seq<seq<Tid>>, list: seq<Tid>, t: Tid)
      requires WaitOk(state, blk, waiters) && TickOk(state, list) && t < |state| && state[t] == Ready
      ensures t !in list && forall o :: 0 <= o < |waiters| ==> t !in waiters[o] && NoDup(waiters[o])
    {
    }

    /** `ready_list_rm` of a task whose state has just left `K_RDY`. */
    method LeaveReady(t: Tid, ghost was: seq<TaskState>)
      requires rq.Valid() && |prio| == |state| && t < |prio| && prio[t] < PRI_MAX
      requires ReadyOk(was, prio, rq.lists) && |was| == |state| && was[t] == Ready
      requires state == was[t := state[t]] && state[t] != Ready
      requires idle < |state| && t != idle && was[idle] == Ready && prio[idle] == IDLE_PRI
      modifies rq
      ensures rq.Valid() && ReadyOk(state, prio, rq.lists)
      ensures |old(rq.lists)| == PRI_MAX && rq.lists == old(rq.lists)[prio[t] := Without(old(rq.lists)[prio[t]], t)]
    {
      ReadyLeave(was, prio, rq.lists, t, state[t]);
      assert idle in rq.lists[IDLE_PRI];
      rq.Remove(t, prio[t], idle, IDLE_PRI);
    }

    /** `core_sched`: the running task is the head of the highest non-empty ready list. */
    method CoreSched()
      requires Shape() && Settled() && (schedLock > 0 ==> state[active] == Ready)
      modifies this`active
      ensures Inv()
      ensures schedLock > 0 ==> active == old(active)
      ensures schedLock == 0 ==> Elected()
    {
      hide Owners, Inherits, ObjectsOk, TicksOk, Counted, WaitOk, SortedOk;
      if schedLock == 0 {
        assert idle in rq.lists[IDLE_PRI];
        active := rq.Preferred(idle, IDLE_PRI);
        assert active in rq.lists[rq.highest];
        assert active == rq.lists[rq.highest][0] && forall q :: 0 <= q < rq.highest ==> rq.lists[q] == [];
      }
    }

    /** No ready task is more urgent than `t`. */
    ghost predicate Preferred(t: Tid)
      requires |prio| == |state| && t < |state|
      reads this`state, this`prio
    {
      forall u :: 0 <= u < |state| && state[u] == Ready ==> prio[t] <= prio[u]
    }

    /** The running task is the first one of the most urgent ready list. */
    ghost predicate Elected()
      requires |prio| == |state| && active < |state|
      reads this`state, this`prio, this`active, rq
    {
      && Preferred(active)
      && exists p :: 0 <= p < |rq.lists| && rq.lists[p] != [] && active == rq.lists[p][0] && forall q :: 0 <= q < p ==> rq.lists[q] == []
    }

    // ----- k_mutex.c: lock and unlock -----

    /** `krhino_mutex_lock`, called by the running task. A blocked call is pended; it goes on
        when the task runs again, and then looks at its `blkState`. */
    method MutexLock(m: Oid, ticks: nat) returns (r: Status)
      requires Inv() && m < |kind| && ticks < TICK_MOD && active != idle
      modifies this, rq, tk`list, tk`deadline, tk`armed
      ensures Inv() && |state| == old(|state|) && |kind| == old(|kind|)
      ensures r == if old(kind[m]) != Mutex then KobjTypeErr
                   else if old(owner[m]) == Some(old(active)) then
                     if old(nested[m]) == NESTED_MOD - 1 then MutexNestedOvf else MutexOwnerNested
                   else if old(owner[m]) == None then Success
                   else if ticks == 0 then NoPendWait
                   else if old(schedLock) > 0 then SchedDisable
                   else Blocked
      ensures kind == old(kind) && bprio == old(bprio) && schedLock == old(schedLock) && blkState == old(blkState)
      ensures r == Success ==>
                && owner == old(owner)[m := Some(active)] && nested == old(nested)[m := 1]
                && active < |old(mutexList)| && mutexList == old(mutexList)[active := [m] + old(mutexList)[active]]
                && m < |old(link)| && link == old(link)[m := First(old(mutexList)[active])]
      ensures r == MutexOwnerNested ==> nested == old(nested)[m := old(nested[m]) + 1] && owner == old(owner)
      ensures r == Blocked ==>
                var t := old(active);
                && owner == old(owner) && nested == old(nested) && mutexList == old(mutexList)
                && state == old(state)[t := Pend] && blk == old(blk)[t := Some(m)] && t in waiters[m]
                && owner[m].Some? && owner[m].value < |state| && prio[owner[m].value] <= prio[t] && Elected()
                && ArmedIfAny(old(tk.list), old(tk.deadline), old(tk.armed), tk.list, tk.deadline, tk.armed, tk.count, tk.now, t, ticks)
      ensures r != Blocked ==>
                && prio == old(prio) && state == old(state) && waiters == old(waiters) && active == old(active)
                && blk == old(blk) && tk.list == old(tk.list) && tk.deadline == old(tk.deadline) && tk.armed == old(tk.armed)
      ensures r !in {Success, MutexOwnerNested} ==> owner == old(owner) && nested == old(nested)
      ensures r != Success ==> mutexList == old(mutexList)
    {
      hide Settled, InPriRange;
      if kind[m] != Mutex {
        return KobjTypeErr;
      }
      if owner[m] == Some(active) {
        if nested[m] == NESTED_MOD - 1 {
          return MutexNestedOvf;
        }
        Nest(m);
        return MutexOwnerNested;
      }
      if owner[m] == None {
        TakeFree(m);
        return Success;
      }
      if ticks == 0 {
        return NoPendWait;
      }
      if schedLock > 0 {
        return SchedDisable;
      }
      LockBlocked(m, ticks);
      CoreSched();
      return Blocked;
    }

    method Nest(m: Oid)
      requires Inv() && m < |kind| && kind[m] == Mutex && owner[m].Some? && nested[m] != NESTED_MOD - 1
      modifies this`nested
      ensures Inv() && nested == old(nested)[m := old(nested)[m] + 1]
    {
      hide QueuesOk, MutexOk, Chained, InheritOk, TicksOk, Counted;
      nested := nested[m := nested[m] + 1];
    }

    method TakeFree(m: Oid)
      requires Inv() && m < |kind| && active != idle && kind[m] == Mutex && owner[m] == None
      modifies this`owner, this`mutexList, this`link, this`nested
      ensures Inv()
      ensures owner == old(owner)[m := Some(active)] && nested == old(nested)[m := 1]
      ensures active < |old(mutexList)| && mutexList == old(mutexList)[active := [m] + old(mutexList)[active]]
      ensures m < |old(link)| && link == old(link)[m := First(old(mutexList)[active])]
    {
      hide QueuesOk, MutexOk, Chained, InheritOk, TicksOk, Counted;
      QueuesWait();
      NoWaiters(state, kind, policy, owner, mutexList, waiters, m);
      MutexTake(state, kind, policy, owner, mutexList, waiters, active, m);
      LiveHolds(state, kind, policy, owner, mutexList, waiters, active);
      ChainTake(kind, owner, mutexList, link, m, active);
      assert kind[m := Mutex] == kind;
      NobodyLends(state, blk, kind, kind, owner, owner[m := Some(active)], waiters, m);
      link := link[m := First(mutexList[active])];
      mutexList := mutexList[active := [m] + mutexList[active]];
      owner := owner[m := Some(active)];
      nested := nested[m := 1];
    }

    lemma NoWaiters(state: seq<TaskState>, kind: seq<Kind>, policy: seq<Policy>, owner: seq<Option<Tid>>,
                    mutexList: seq<seq<Oid>>, waiters: seq<seq<Tid>>, m: Oid)
      requires MutexOk(state, kind, policy, owner, mutexList, waiters)
      requires m < |kind| && kind[m] == Mutex
      ensures policy[m] == ByPri
      ensures owner[m] == None ==> waiters[m] == []
      ensures owner[m].Some? ==>
                owner[m].value < |state| && IsLive(state[owner[m].value]) && m in mutexList[owner[m].value]
    {
    }

    /** The owner inherits the priority of the running task, which then pends. */
    method LockBlocked(m: Oid, ticks: nat)
      requires Inv() && m < |kind| && active != idle && 0 < ticks < TICK_MOD
      requires kind[m] == Mutex && owner[m].Some? && owner[m] != Some(active)
      modifies this`prio, this`waiters, this`mutexList, this`link, this`state, this`blk, rq, tk`list, tk`deadline, tk`armed
      ensures ArmedIfAny(old(tk.list), old(tk.deadline), old(tk.armed), tk.list, tk.deadline, tk.armed, tk.count, tk.now, active, ticks)
      ensures Shape() && Settled()
      ensures state == old(state)[active := Pend] && blk == old(blk)[active := Some(m)] && active in waiters[m]
      ensures mutexList == old(mutexList)
      ensures owner[m].value < |state| && prio[owner[m].value] <= prio[active]
    {
      hide QueuesOk, MutexOk, Chained, InheritOk, TicksOk, InPriRange, InsertByKey;
      ghost var boost := Boosts(state, blk, kind, owner);
      NoWaiters(state, kind, policy, owner, mutexList, waiters, m);
      var o := owner[m].value;
      RaiseOwner(m, o);
      ghost var boost' := boost[active := Some(o)];
      ghost var state0, w0 := state, waiters;
      PendTo(m, active, ticks);
      MutexGrow(state0, kind, policy, owner, mutexList, w0, active, m, waiters[m]);
      assert Boosts(state, blk, kind, owner) == boost';
      InheritStates(state0, state, prio, bprio, boost', None);
      assert prio[o] <= prio[active] by {
        LenderBelow(state, prio, bprio, boost', active, o);
      }
    }

    lemma LenderBelow(state: seq<TaskState>, prio: seq<nat>, bprio: seq<nat>, boost: seq<Option<Tid>>, w: Tid, o: Tid)
      requires InheritOk(state, prio, bprio, boost, None) && w < |state| && o < |state| && IsLive(state[o])
      requires boost[w] == Some(o)
      ensures prio[o] <= prio[w]
    {
      assert IsInherited(prio, bprio, boost, o, prio[o]);
    }

    method RaiseOwner(m: Oid, o: Tid)
      requires Inv() && m < |kind| && kind[m] == Mutex && owner[m] == Some(o) && o != active
      requires o < |state| && IsLive(state[o]) && m in mutexList[o]
      modifies this`prio, this`waiters, this`mutexList, this`link, rq
      ensures Shape() && QueuesOk() && IdleOwnsNothing() && Owners(kind)
      ensures InheritOk(state, prio, bprio, Boosts(state, blk, kind, owner)[active := Some(o)], None)
      ensures mutexList == old(mutexList) && |waiters| == old(|waiters|)
      ensures forall q :: 0 <= q < |waiters| ==> (waiters[q] == [] <==> old(waiters)[q] == [])
    {
      hide QueuesOk, MutexOk, Chained, InheritOk, TicksOk, IsInherited;
      ghost var w0, boost := waiters, Boosts(state, blk, kind, owner);
      ghost var boost' := boost[active := Some(o)];
      QueuesWait();
      NoSelfBoost(state, blk, kind, policy, owner, mutexList, waiters);
      if prio[active] < prio[o] {
        NewLender(state, prio, bprio, boost, active, o);
        TaskPriChange(o, prio[active], boost', Some(active));
      } else {
        LendersJoin(state, prio, bprio, boost, boost', o);
      }
      QueuesWait();
      SameEmpty(state, blk, w0, waiters);
    }

    lemma SameEmpty(state: seq<TaskState>, blk: seq<Option<Oid>>, waiters: seq<seq<Tid>>, waiters': seq<seq<Tid>>)
      requires WaitOk(state, blk, waiters) && WaitOk(state, blk, waiters') && |waiters| == |waiters'|
      ensures forall q :: 0 <= q < |waiters| ==> (waiters'[q] == [] <==> waiters[q] == [])
    {
      forall q | 0 <= q < |waiters| ensures waiters'[q] == [] <==> waiters[q] == []
      {
        assert waiters[q] != [] ==> waiters[q][0] in waiters[q];
        assert waiters'[q] != [] ==> waiters'[q][0] in waiters'[q];
      }
    }

    /** Mutex `m`, off every mutex list, goes to its first waiter, or becomes free. `dead` is a
        task being deleted; `view` is the kernel without the mutexes still to be handed over. */
    method HandOver(m: Oid, ghost dead: Option<Tid>, ghost view: seq<Kind>) returns (w: Option<Tid>)
      requires Shape() && QueuesOk() && TicksOk() && IdleOwnsNothing()
      requires m < |kind| && policy[m] == ByPri && |view| == |kind| && view[m] == NoObj
      requires dead.Some? ==> dead.value < |state| && dead.value !in waiters[m]
      requires MutexOk(Bury(state, dead), view, policy, owner, mutexList, waiters)
      requires InheritOk(Bury(state, dead), prio, bprio, Boosts(state, blk, view, owner), None)
      requires Chained(view, owner, mutexList, link)
      modifies this`state, this`waiters, this`blk, this`blkState, this`owner, this`mutexList, this`link, rq, tk`list
      ensures Shape() && QueuesOk() && TicksOk() && IdleOwnsNothing()
      ensures dead.Some? ==> state[dead.value] == old(state)[dead.value]
      ensures Chained(view[m := Mutex], owner, mutexList, link)
      ensures MutexOk(Bury(state, dead), view[m := Mutex], policy, owner, mutexList, waiters)
      ensures InheritOk(Bury(state, dead), prio, bprio, Boosts(state, blk, view[m := Mutex], owner), None)
      ensures w == (if old(waiters)[m] == [] then None else Some(old(waiters)[m][0]))
      ensures owner == old(owner)[m := w]
      ensures w == None ==>
                && state == old(state) && waiters == old(waiters) && mutexList == old(mutexList)
                && blkState == old(blkState) && tk.list == old(tk.list)
      ensures w.Some? ==>
                && waiters == old(waiters)[m := Without(old(waiters)[m], w.value)]
                && w.value < |state| && state == old(state)[w.value := AfterWake(old(state)[w.value])]
                && mutexList == old(mutexList)[w.value := [m] + old(mutexList)[w.value]]
                && blkState == old(blkState)[w.value := BlkFinish] && IsPended(old(state)[w.value])
                && tk.list == Without(old(tk.list), w.value)
    {
      hide QueuesOk, MutexOk, Chained, InheritOk, TicksOk, InPriRange;
      QueuesWait();
      ghost var bury0 := Bury(state, dead);
      if waiters[m] == [] {
        MutexGive(bury0, view, policy, owner, mutexList, waiters, m);
        ChainFree(view, owner, mutexList, link, m);
        NobodyLends(state, blk, view, view[m := Mutex], owner, owner[m := None], waiters, m);
        owner := owner[m := None];
        return None;
      }
      w := Some(waiters[m][0]);
      WakeNext(m, waiters[m][0], dead, view);
    }

    /** The first waiter `t` of `m` becomes its owner. */
    method WakeNext(m: Oid, t: Tid, ghost dead: Option<Tid>, ghost view: seq<Kind>)
      requires Shape() && QueuesOk() && TicksOk() && IdleOwnsNothing()
      requires m < |kind| && policy[m] == ByPri && |view| == |kind| && view[m] == NoObj
      requires waiters[m] != [] && t == waiters[m][0]
      requires dead.Some? ==> dead.value < |state| && dead.value !in waiters[m]
      requires MutexOk(Bury(state, dead), view, policy, owner, mutexList, waiters)
      requires InheritOk(Bury(state, dead), prio, bprio, Boosts(state, blk, view, owner), None)
      requires Chained(view, owner, mutexList, link)
      modifies this`state, this`waiters, this`blk, this`blkState, this`owner, this`mutexList, this`link, rq, tk`list
      ensures Shape() && QueuesOk() && TicksOk() && IdleOwnsNothing()
      ensures t < |state| && IsPended(old(state)[t]) && state == old(state)[t := AfterWake(old(state)[t])]
      ensures Chained(view[m := Mutex], owner, mutexList, link)
      ensures MutexOk(Bury(state, dead), view[m := Mutex], policy, owner, mutexList, waiters)
      ensures InheritOk(Bury(state, dead), prio, bprio, Boosts(state, blk, view[m := Mutex], owner), None)
      ensures owner == old(owner)[m := Some(t)]
      ensures waiters == old(waiters)[m := Without(old(waiters)[m], t)]
      ensures mutexList == old(mutexList)[t := [m] + old(mutexList)[t]]
      ensures blkState == old(blkState)[t := BlkFinish]
      ensures tk.list == Without(old(tk.list), t)
    {
      hide QueuesOk, MutexOk, Chained, InheritOk, TicksOk, OnTime, InPriRange, Boosts, Bury, First, Without, ReadyOk,
           WaitOk,
           SortedOk, TickOk, NoDup, Counted, NoStrays, InsertByKey, WokenOnly, LeftOk;
      QueuesWait();
      WaitsOn(state, blk, waiters, m, t);
      HandOverOk(state, blk, view, policy, owner, mutexList, waiters, prio, bprio, dead, m, t, AfterWake(state[t]));
      NotBuried(state, dead, t);
      LiveHolds(Bury(state, dead), view, policy, owner, mutexList, waiters, t);
      ChainGive(view, owner, mutexList, link, m, t);
      Unpend(t, BlkFinish);
      owner := owner[m := Some(t)];
      link := link[m := First(mutexList[t])];
      mutexList := mutexList[t := [m] + mutexList[t]];
    }

    lemma NotBuried(state: seq<TaskState>, dead: Option<Tid>, t: Tid)
      requires t < |state| && IsPended(state[t]) && dead != Some(t) && (dead.Some? ==> dead.value < |state|)
      ensures IsLive(Bury(state, dead)[t])
    {
    }

    lemma WaitsOn(state: seq<TaskState>, blk: seq<Option<Oid>>, waiters: seq<seq<Tid>>, o: Oid, t: Tid)
      requires WaitOk(state, blk, waiters) && o < |waiters| && t in waiters[o]
      ensures t < |state| && IsPended(state[t]) && blk[t] == Some(o)
    {
    }

    /** Owner `t` of `m` unlinks it. `kind0` still has `m` as a mutex, whatever `kind` says. */
    method ReleaseOwned(m: Oid, t: Tid, ghost kind0: seq<Kind>)
      requires Shape() && QueuesOk() && IdleOwnsNothing()
      requires m < |kind| && |kind0| == |kind| && kind0[m] == Mutex && owner[m] == Some(t)
      requires Owners(kind0) && Inherits(kind0)
      requires kind == kind0[m := NoObj] || (kind == kind0 && t < |state| && state[t] == Ready)
      modifies this`prio, this`waiters, this`mutexList, this`link, rq
      ensures Shape() && QueuesOk() && IdleOwnsNothing()
      ensures Owners(kind0[m := NoObj]) && Inherits(kind0[m := NoObj])
      ensures t < |state| && (!IsPended(state[t]) ==> waiters == old(waiters))
      ensures old(waiters[m]) == [] ==> prio == old(prio) && rq.lists == old(rq.lists)
      ensures forall q :: 0 <= q < |waiters| ==> (waiters[q] == [] <==> old(waiters)[q] == [])
    {
      hide QueuesOk, MutexOk, Chained, InheritOk;
      ghost var view, w0 := kind0[m := NoObj], waiters;
      QueuesWait();
      NoWaiters(state, kind0, policy, owner, mutexList, waiters, m);
      ListOf(state, kind0, policy, owner, mutexList, waiters, t);
      MutexUnlink(state, kind0, policy, owner, mutexList, waiters, t, m);
      LiveHolds(state, kind0, policy, owner, mutexList, waiters, t);
      assert view[m := Mutex] == kind0;
      ghost var boost, boost' := Boosts(state, blk, kind0, owner), Boosts(state, blk, view, owner);
      LendersLeave(state, prio, bprio, boost, boost', t);
      if waiters[m] == [] {
        NobodyLends(state, blk, kind0, view, owner, owner, waiters, m);
      }
      MutexRelease(t, Some(m), view);
      QueuesWait();
      SameEmpty(state, blk, w0, waiters);
    }

    /** `krhino_mutex_unlock`. Without waiters the owner's priority does not change, so the
        source may leave the scheduler alone. */
    method MutexUnlock(m: Oid) returns (r: Status)
      requires Inv() && m < |kind|
      modifies this, rq, tk`list
      ensures Inv() && |state| == old(|state|) && |kind| == old(|kind|)
      ensures r == if old(kind[m]) != Mutex then KobjTypeErr
                   else if old(owner[m]) != Some(old(active)) then MutexNotReleasedByOwner
                   else if old(nested[m]) > 1 then MutexOwnerNested
                   else Success
      ensures kind == old(kind) && bprio == old(bprio) && schedLock == old(schedLock)
      ensures r == MutexOwnerNested ==> owner == old(owner) && nested == old(nested)[m := old(nested[m]) - 1] && nested[m] >= 1
      ensures r in {KobjTypeErr, MutexNotReleasedByOwner} ==> owner == old(owner) && nested == old(nested)
      ensures r != Success || old(waiters[m]) == [] ==>
                && prio == old(prio) && state == old(state) && active == old(active)
                && blkState == old(blkState) && tk.list == old(tk.list)
      ensures r == Success && old(waiters[m]) == [] ==> owner == old(owner)[m := None]
      ensures r == Success && old(waiters[m]) != [] ==>
                var w := old(waiters[m][0]);
                && owner == old(owner)[m := Some(w)] && nested == old(nested)[m := 1]
                && w < |state| && state == old(state)[w := AfterWake(old(state)[w])] && IsPended(old(state)[w])
                && w < |old(blkState)| && blkState == old(blkState)[w := BlkFinish]
                && tk.list == Without(old(tk.list), w)
                && (if schedLock == 0 then Elected() else active == old(active))
    {
      hide Settled, ReadyOk, WaitOk, SortedOk, TickOk, InPriRange, Boosts, Bury, OnTime, Without, NoDup, Counted,
           NoStrays, InsertByKey, WokenOnly, LeftOk, Armed, ArmedIfAny, CutLink, AfterWake, IsPended;
      if kind[m] != Mutex {
        return KobjTypeErr;
      }
      if owner[m] != Some(active) {
        return MutexNotReleasedByOwner;
      }
      var last := Unnest(m);
      if !last {
        return MutexOwnerNested;
      }
      var w := UnlockLast(m);
      if w.Some? {
        CoreSched();
      }
      return Success;
    }

    /** `owner_nested--`; the count reaches zero only in the middle of an unlock. */
    method Unnest(m: Oid) returns (last: bool)
      requires Inv() && m < |kind| && kind[m] == Mutex && owner[m].Some?
      modifies this`nested
      ensures last <==> old(nested[m]) == 1
      ensures |nested| == old(|nested|) && nested == old(nested)[m := old(nested[m]) - 1]
      ensures Shape() && (!last ==> Inv() && nested[m] >= 1)
      ensures last ==> QueuesOk() && IdleOwnsNothing() && Owners(kind) && Inherits(kind) && TicksOk() && CountsOk()
      ensures last ==> ObjectsButOne(m)
    {
      hide QueuesOk, MutexOk, Chained, InheritOk, TicksOk, Counted;
      nested := nested[m := nested[m] - 1];
      last := nested[m] == 0;
    }

    ghost predicate ObjectsButOne(m: Oid)
      reads this`kind, this`waiters, this`owner, this`nested
    {
      && |waiters| == |kind| == |owner| == |nested|
      && NoStrays(kind, waiters)
      && (forall o :: 0 <= o < |kind| && o != m && kind[o] == Mutex && owner[o].Some? ==> 1 <= nested[o] < NESTED_MOD)
    }

    /** The last unlock: `m` leaves the owner's list and goes to the first waiter, if any. */
    method UnlockLast(m: Oid) returns (w: Option<Tid>)
      requires Shape() && m < |kind| && kind[m] == Mutex && owner[m] == Some(active) && state[active] == Ready
      requires QueuesOk() && IdleOwnsNothing() && Owners(kind) && Inherits(kind) && TicksOk() && CountsOk()
      requires ObjectsButOne(m)
      modifies this`state, this`prio, this`waiters, this`blk, this`blkState, this`owner, this`mutexList, this`link, this`nested, rq, tk`list
      ensures Inv()
      ensures w == (if old(waiters[m]) == [] then None else Some(old(waiters[m][0])))
      ensures owner == old(owner)[m := w]
      ensures |state| == old(|state|)
      ensures w.None? ==>
                prio == old(prio) && state == old(state) && nested == old(nested) && blkState == old(blkState) && tk.list == old(tk.list)
      ensures w.Some? ==>
                && nested == old(nested)[m := 1] && w.value < |state| && state == old(state)[w.value := AfterWake(old(state)[w.value])]
                && w.value < |old(blkState)| && blkState == old(blkState)[w.value := BlkFinish]
                && tk.list == Without(old(tk.list), w.value) && IsPended(old(state)[w.value])
    {
      hide QueuesOk, MutexOk, Chained, InheritOk, TicksOk, Counted, Boosts, InPriRange;
      ghost var view := kind[m := NoObj];
      NoWaiters(state, kind, policy, owner, mutexList, waiters, m);
      ReleaseOwned(m, active, kind);
      w := PassOn(m, view);
    }

    /** The mutex just released gets its new owner. */
    method PassOn(m: Oid, ghost view: seq<Kind>) returns (w: Option<Tid>)
      requires Shape() && QueuesOk() && TicksOk() && IdleOwnsNothing() && CountsOk() && ObjectsButOne(m)
      requires m < |kind| && kind[m] == Mutex && policy[m] == ByPri && view == kind[m := NoObj] && state[active] == Ready
      requires Owners(view) && Inherits(view)
      modifies this`state, this`waiters, this`blk, this`blkState, this`owner, this`mutexList, this`link, this`nested, rq, tk`list
      ensures Inv()
      ensures w == (if old(waiters[m]) == [] then None else Some(old(waiters[m][0])))
      ensures owner == old(owner)[m := w] && |state| == old(|state|)
      ensures w.None? ==> state == old(state) && nested == old(nested) && blkState == old(blkState) && tk.list == old(tk.list)
      ensures w.Some? ==>
                && nested == old(nested)[m := 1] && w.value < |state| && state == old(state)[w.value := AfterWake(old(state)[w.value])]
                && w.value < |old(blkState)| && blkState == old(blkState)[w.value := BlkFinish]
                && tk.list == Without(old(tk.list), w.value) && IsPended(old(state)[w.value])
    {
      hide QueuesOk, MutexOk, Chained, InheritOk, TicksOk, Boosts, InPriRange, Without;
      w := HandOver(m, None, view);
      assert view[m := Mutex] == kind;
      if w.Some? {
        nested := nested[m := 1];
      }
    }

    // ----- giving up a wait -----

    /** `mutex_task_pri_reset`, for a task that has just left a wait list but still remembers
        the object: the owner of a mutex loses what only this task lent to it. */
    method MutexTaskPriReset(t: Tid)
      requires Shape() && QueuesOk() && IdleOwnsNothing() && Owners(kind)
      requires t < |state| && !IsPended(state[t]) && blk[t].Some? && blk[t].value < |kind|
      requires kind[blk[t].value] != Mutex ==> Inherits(kind)
      requires kind[blk[t].value] == Mutex ==>
                 var q := owner[blk[t].value];
                 && q.Some? && q.value < |state| && IsLive(state[q.value]) && blk[t].value in mutexList[q.value]
                 && InheritOk(state, prio, bprio, Boosts(state, blk, kind, owner), q)
                 && (prio[q.value] != prio[t] ==> Inherits(kind))
      modifies this`prio, this`waiters, this`mutexList, this`link, rq
      ensures Shape() && QueuesOk() && IdleOwnsNothing() && Owners(kind) && Inherits(kind)
      ensures mutexList == old(mutexList)
    {
      hide QueuesOk, MutexOk, Chained, InheritOk;
      var o := blk[t].value;
      if kind[o] == Mutex {
        var q := owner[o].value;
        if prio[q] == prio[t] {
          ListOf(state, kind, policy, owner, mutexList, waiters, q);
          MutexRelease(q, None, kind);
        }
      }
    }

    /** A pended task leaves without success: on timeout, abort or deletion. */
    method GiveUpWait(t: Tid, s: TaskState, b: BlkState, ghost dead: Option<Tid>)
      requires Shape() && QueuesOk() && IdleOwnsNothing() && TicksOk()
      requires t < |state| && IsPended(state[t])
      requires (dead == None && (s == Ready || s == Suspended)) || (dead == Some(t) && s == Deleted)
      requires MutexOk(Bury(state, dead), kind, policy, owner, mutexList, waiters)
      requires InheritOk(Bury(state, dead), prio, bprio, Boosts(state, blk, kind, owner), None)
      requires Chained(kind, owner, mutexList, link)
      modifies this`state, this`prio, this`waiters, this`mutexList, this`link, this`blk, this`blkState, rq, tk`list
      ensures Shape() && QueuesOk() && IdleOwnsNothing() && TicksOk() && Owners(kind) && Inherits(kind)
      ensures state == old(state)[t := s] && mutexList == old(mutexList)
      ensures tk.list == Without(old(tk.list), t) && tk.deadline == old(tk.deadline) && tk.count == old(tk.count)
      ensures dead.Some? ==> blkState == old(blkState) && blk == old(blk)
      ensures dead == None ==> blk == old(blk)[t := None] && t < old(|blkState|) && blkState == old(blkState)[t := b]
      ensures old(ObjectsOk()) ==> ObjectsOk()
      ensures old(CountsOk()) && (s == Suspended ==> old(state[t]) == PendSuspended) ==> CountsOk()
    {
      hide QueuesOk, MutexOk, Chained, InheritOk, TickOk, NoDup, SortedBy, NoStrays, OnTime, Keys, Boosts, Bury,
           InPriRange, Without, Counted, ObjectsOk;
      ghost var state0 := state;
      ghost var counts := CountsOk() && (s == Suspended ==> state[t] == PendSuspended);
      TickLeave(state, tk.list, t, s);
      tk.Remove(t);
      if s != Deleted {
        blkState := blkState[t := b];
      }
      StopWaiting(t, s, dead);
      if s != Deleted {
        ForgetObject(t);
      }
      if counts {
        CountedSet(state0, suspendCount, t, s);
      }
    }

    /** The task leaves its wait list; then the owner's priority is reset. */
    method StopWaiting(t: Tid, s: TaskState, ghost dead: Option<Tid>)
      requires Shape() && QueuesOk() && IdleOwnsNothing()
      requires t < |state| && IsPended(state[t])
      requires (dead == None && (s == Ready || s == Suspended)) || (dead == Some(t) && s == Deleted)
      requires MutexOk(Bury(state, dead), kind, policy, owner, mutexList, waiters)
      requires InheritOk(Bury(state, dead), prio, bprio, Boosts(state, blk, kind, owner), None)
      requires Chained(kind, owner, mutexList, link)
      modifies this`state, this`prio, this`waiters, this`mutexList, this`link, rq
      ensures Shape() && QueuesOk() && IdleOwnsNothing() && Owners(kind) && Inherits(kind)
      ensures state == old(state)[t := s] && mutexList == old(mutexList)
      ensures old(ObjectsOk()) ==> ObjectsOk()
    {
      hide QueuesOk, MutexOk, Chained, InheritOk, ReadyOk, SortedOk, Boosts, InPriRange, Without, WaitOk;
      QueuesWait();
      GiveUp(state, blk, kind, policy, owner, mutexList, waiters, prio, bprio, dead, t, s);
      LeaveWaitList(t, s);
      QueuesWait();
      ghost var w1 := waiters;
      MutexTaskPriReset(t);
      QueuesWait();
      SameEmpty(state, blk, w1, waiters);
    }

    /** `task->blk_obj = NULL` */
    method ForgetObject(t: Tid)
      requires Shape() && QueuesOk() && Inherits(kind) && t < |state| && !IsPended(state[t])
      modifies this`blk
      ensures Shape() && QueuesOk() && Inherits(kind) && blk == old(blk)[t := None]
    {
      hide ReadyOk, WaitOk, SortedOk, InheritOk;
      OffWait(state, blk, waiters, t, state[t], None);
      assert state[t := state[t]] == state;
      ghost var boost := Boosts(state, blk, kind, owner);
      blk := blk[t := None];
      assert Boosts(state, blk, kind, owner) == boost;
    }

    // ----- k_task.c: state changes -----

    /** A live task moves between states; a wait neither starts nor ends. */
    method SetState(t: Tid, s: TaskState)
      requires Shape() && QueuesOk() && Owners(kind) && Inherits(kind) && t < |state| && t != idle
      requires IsLive(state[t]) && IsLive(s) && (IsPended(state[t]) <==> IsPended(s)) && s != state[t]
      modifies this`state, rq
      ensures Shape() && QueuesOk() && Owners(kind) && Inherits(kind)
      ensures state == old(state)[t := s]
    {
      hide ReadyOk, WaitOk, SortedOk, MutexOk, Chained, InheritOk;
      LiveMove(state, blk, kind, policy, owner, mutexList, waiters, prio, bprio, t, s);
      if IsPended(s) {
        SuspendWait(state, blk, waiters, t, s);
      } else {
        OffWait(state, blk, waiters, t, s, blk[t]);
        assert blk[t := blk[t]] == blk;
      }
      PriBound(t);
      Requeue(t, s);
    }

    /** `krhino_task_sleep` */
    method TaskSleep(ticks: nat) returns (r: Status)
      requires Inv() && active != idle && ticks < TICK_MOD
      modifies this`state, this`active, rq, tk`list, tk`deadline, tk`armed
      ensures Inv() && |state| == old(|state|)
      ensures r == if ticks == 0 then InvParam else if schedLock > 0 then SchedDisable else Blocked
      ensures r == Blocked ==>
                && state == old(state)[old(active) := Sleep]
                && Armed(old(tk.list), old(tk.deadline), old(tk.armed), tk.list, tk.deadline, tk.armed, tk.count, tk.now, old(active), ticks)
      ensures r != Blocked ==> state == old(state) && active == old(active) && tk.list == old(tk.list) && tk.deadline == old(tk.deadline) && tk.armed == old(tk.armed)
      ensures r == Blocked ==> Elected()
    {
      hide Settled, OnTime, Armed;
      if ticks == 0 {
        return InvParam;
      }
      if schedLock > 0 {
        return SchedDisable;
      }
      FallAsleep(ticks);
      CoreSched();
      return Blocked;
    }

    method FallAsleep(ticks: nat)
      requires Inv() && active != idle && 0 < ticks < TICK_MOD
      modifies this`state, rq, tk`list, tk`deadline, tk`armed
      ensures Shape() && Settled()
      ensures state == old(state)[active := Sleep]
      ensures active in tk.list && active < |tk.deadline| && Remain(tk.deadline[active], tk.count) == ticks
      ensures Armed(old(tk.list), old(tk.deadline), old(tk.armed), tk.list, tk.deadline, tk.armed, tk.count, tk.now, active, ticks)
    {
      hide QueuesOk, MutexOk, Chained, InheritOk, TickOk, OnTime, InsertByKey, NoDup, ObjectsOk;
      QueuesWait();
      Unlisted(state, blk, waiters, tk.list, active);
      ghost var list0 := tk.list;
      tk.Insert(active, ticks);
      TickJoin(state, list0, tk.list, active, Sleep);
      SetState(active, Sleep);
    }

    /** `krhino_task_yield` */
    method TaskYield()
      requires Inv()
      modifies this`active, rq
      ensures Inv() && old(rq.lists[prio[active]] != [])
      ensures rq.lists == old(rq.lists[prio[active] := rq.lists[prio[active]][1..] + [rq.lists[prio[active]][0]]])
      ensures if schedLock == 0 then Elected() else active == old(active)
      ensures schedLock == 0 && old(Elected()) && |old(rq.lists[prio[active]])| > 1 ==>
                active == old(rq.lists[prio[active]])[1] && active != old(active)
    {
      hide Settled, NoDup;
      Rotates();
      ghost var l, elected := rq.lists[prio[active]], Elected();
      if elected {
        ElectedHeads();
        HeadDiffers(l);
      }
      Rotate(prio[active]);
      CoreSched();
      if schedLock == 0 && elected {
        ElectedHeads();
      }
    }

    /** The running task, if elected, heads the list of its priority, the most urgent one. */
    lemma ElectedHeads()
      requires Inv() && Elected()
      ensures
        var p := prio[active];
        && p < |rq.lists| && rq.lists[p] != [] && active == rq.lists[p][0] && NoDup(rq.lists[p])
        && forall q :: 0 <= q < p ==> rq.lists[q] == []
    {
      var p :| 0 <= p < |rq.lists| && rq.lists[p] != [] && active == rq.lists[p][0] && forall q :: 0 <= q < p ==> rq.lists[q] == [];
      assert active in rq.lists[p];
    }

    method Rotate(p: nat)
      requires Inv() && p < |rq.lists| && rq.lists[p] != []
      modifies rq
      ensures Shape() && Settled() && p < |old(rq.lists)| && old(rq.lists)[p] != []
      ensures rq.lists == old(rq.lists)[p := old(rq.lists)[p][1..] + [old(rq.lists)[p][0]]]
    {
      hide WaitOk, SortedOk, MutexOk, Chained, InheritOk, TickOk, NoStrays, Counted, OnTime, NoDup;
      ghost var lists := rq.lists;
      rq.HeadToTail(p);
      ReadyRotates(state, prio, lists, p);
    }

    lemma ReadyRotates(state: seq<TaskState>, prio: seq<nat>, lists: seq<seq<Tid>>, p: nat)
      requires ReadyOk(state, prio, lists) && p < |lists| && lists[p] != []
      ensures ReadyOk(state, prio, lists[p := lists[p][1..] + [lists[p][0]]])
    {
      NoDupRotate(lists[p]);
      var l := lists[p];
      assert l == [l[0]] + l[1..];
      assert forall t :: t in l[1..] + [l[0]] <==> t in l;
    }

    lemma HeadDiffers(l: seq<nat>)
      requires NoDup(l)
      ensures |l| > 1 ==> l[0] != l[1]
    {
      assert |l| > 1 ==> l[1] in l[1..];
    }

    lemma Rotates()
      requires Inv()
      ensures prio[active] < |rq.lists| && active in rq.lists[prio[active]] && NoDup(rq.lists[prio[active]])
    {
    }

    /** `krhino_task_suspend` */
    method TaskSuspend(t: Tid) returns (r: Status)
      requires Inv() && t < |state|
      modifies this`state, this`suspendCount, this`active, rq
      ensures Inv() && |state| == old(|state|)
      ensures r == if prio[t] == IDLE_PRI then TaskSuspendNotAllowed
                   else if t == old(active) && schedLock > 0 then SchedDisable
                   else if !old(IsLive(state[t])) then InvTaskState
                   else if old(IsSuspended(state[t])) && t < old(|suspendCount|) && old(suspendCount[t]) == SUSPEND_MOD - 1
                     then SuspendedCountOvf
                   else Success
      ensures r == Success ==>
                && IsSuspended(state[t]) && state == old(state)[t := Suspending(old(state)[t])]
                && t < old(|suspendCount|)
                && suspendCount == old(suspendCount)[t := if old(IsSuspended(state[t])) then old(suspendCount)[t] + 1 else 1]
      ensures r != Success ==> state == old(state) && suspendCount == old(suspendCount) && active == old(active)
      ensures r == Success ==> if schedLock == 0 then Elected() else active == old(active)
    {
      hide Settled;
      if prio[t] == IDLE_PRI {
        return TaskSuspendNotAllowed;
      }
      if t == active && schedLock > 0 {
        return SchedDisable;
      }
      r := Suspend(t);
      if r == Success {
        CoreSched();
      }
    }

    function Suspending(s: TaskState): TaskState {
      match s
      case Ready => Suspended
      case Sleep => SleepSuspended
      case Pend => PendSuspended
      case _ => s
    }

    function Resuming(s: TaskState): (r: TaskState)
      ensures IsLive(r) && !IsSuspended(r) ==> Suspending(r) == s || r == s
    {
      match s
      case Suspended => Ready
      case SleepSuspended => Sleep
      case PendSuspended => Pend
      case _ => s
    }

    /** `task_suspend`, the state switch. */
    method Suspend(t: Tid) returns (r: Status)
      requires Inv() && t < |state| && prio[t] != IDLE_PRI
      modifies this`state, this`suspendCount, rq
      ensures Shape() && Settled()
      ensures r == Success ==>
                && IsSuspended(state[t]) && state == old(state)[t := Suspending(old(state)[t])]
                && t < old(|suspendCount|)
                && suspendCount == old(suspendCount)[t := if old(IsSuspended(state[t])) then old(suspendCount)[t] + 1 else 1]
      ensures r != Success ==> state == old(state) && suspendCount == old(suspendCount)
      ensures r == if !old(IsLive(state[t])) then InvTaskState
                   else if old(IsSuspended(state[t])) && t < old(|suspendCount|) && old(suspendCount[t]) == SUSPEND_MOD - 1
                     then SuspendedCountOvf
                   else Success
      ensures t != active ==> state[active] == Ready
    {
      hide QueuesOk, MutexOk, Chained, InheritOk, TickOk, ObjectsOk, ReadyOk, WaitOk;
      QueuesWait();
      if !IsLive(state[t]) {
        return InvTaskState;
      }
      if IsSuspended(state[t]) {
        if suspendCount[t] == SUSPEND_MOD - 1 {
          return SuspendedCountOvf;
        }
        suspendCount := suspendCount[t := suspendCount[t] + 1];
        return Success;
      }
      var s := if state[t] == Ready then Suspended else if state[t] == Sleep then SleepSuspended else PendSuspended;
      TickStay(state, tk.list, t, s);
      suspendCount := suspendCount[t := 1];
      SetState(t, s);
      return Success;
    }

    /** `krhino_task_resume` */
    method TaskResume(t: Tid) returns (r: Status)
      requires Inv() && t < |state|
      modifies this`state, this`suspendCount, this`active, rq
      ensures Inv() && |state| == old(|state|)
      ensures r == Success ==>
                && t < old(|suspendCount|) && old(IsSuspended(state[t]) && suspendCount[t] >= 1)
                && suspendCount == old(suspendCount)[t := old(suspendCount)[t] - 1]
                && state == old(state)[t := if old(suspendCount[t]) == 1 then Resuming(old(state)[t]) else old(state)[t]]
      ensures r != Success ==> state == old(state) && suspendCount == old(suspendCount)
      ensures r == if !old(IsLive(state[t])) then InvTaskState
                   else if !old(IsSuspended(state[t])) then TaskNotSuspended
                   else Success
      ensures if schedLock == 0 && r == Success then Elected() else active == old(active)
    {
      hide Settled;
      if !IsLive(state[t]) {
        return InvTaskState;
      }
      if !IsSuspended(state[t]) {
        return TaskNotSuspended;
      }
      Resume(t);
      CoreSched();
      return Success;
    }

    method Resume(t: Tid)
      requires Inv() && t < |state| && IsSuspended(state[t])
      modifies this`state, this`suspendCount, rq
      ensures Inv()
      ensures t < old(|suspendCount|) && old(suspendCount)[t] >= 1 && suspendCount == old(suspendCount)[t := old(suspendCount)[t] - 1]
      ensures state == old(state)[t := if old(suspendCount[t]) == 1 then Resuming(old(state)[t]) else old(state)[t]]
    {
      hide QueuesOk, MutexOk, Chained, InheritOk, TickOk, ObjectsOk, ReadyOk, WaitOk;
      QueuesWait();
      if suspendCount[t] > 1 {
        suspendCount := suspendCount[t := suspendCount[t] - 1];
      } else {
        var s := if state[t] == Suspended then Ready else if state[t] == SleepSuspended then Sleep else Pend;
        TickStay(state, tk.list, t, s);
        SetState(t, s);
        suspendCount := suspendCount[t := suspendCount[t] - 1];
      }
    }

    /** `krhino_sched_disable` and `krhino_sched_enable` */
    method DisableSched() returns (r: Status)
      requires Inv()
      modifies this`schedLock
      ensures Inv() && schedLock == (if r == Success then old(schedLock) + 1 else old(schedLock))
      ensures r == if old(schedLock) >= LOCK_MAX then SchedLockCountOvf else Success
    {
      if schedLock >= LOCK_MAX {
        return SchedLockCountOvf;
      }
      schedLock := schedLock + 1;
      return Success;
    }

    method EnableSched() returns (r: Status)
      requires Inv()
      modifies this`schedLock, this`active
      ensures Inv() && schedLock == if old(schedLock) == 0 then 0 else old(schedLock) - 1
      ensures r == if old(schedLock) == 0 then SchedAlreadyEnabled else if schedLock > 0 then Status.SchedDisable else Success
      ensures if r == Success then Elected() else active == old(active)
    {
      hide Settled;
      if schedLock == 0 {
        return SchedAlreadyEnabled;
      }
      schedLock := schedLock - 1;
      if schedLock > 0 {
        return Status.SchedDisable;
      }
      CoreSched();
      return Success;
    }

    /** `krhino_task_wait_abort` */
    method TaskWaitAbort(t: Tid) returns (r: Status)
      requires Inv() && t < |state|
      modifies this, rq, tk`list
      ensures Inv() && |state| == old(|state|)
      ensures r == if old(IsLive(state[t])) then Success else InvTaskState
      ensures schedLock == old(schedLock)
      ensures if r == Success && schedLock == 0 then Elected() else active == old(active)
      ensures r == Success ==>
                && state == old(state)[t := Ready] && t !in tk.list && tk.list == Without(old(tk.list), t)
                && t < |old(blkState)|
                && blkState == (if old(IsPended(state[t]) || IsSleeping(state[t])) then old(blkState)[t := BlkAbort] else old(blkState))
      ensures r == Success && old(IsPended(state[t])) ==> t < |blk| && blk[t] == None
      ensures r != Success ==> state == old(state) && blkState == old(blkState) && tk.list == old(tk.list) && active == old(active)
    {
      hide Settled;
      if !IsLive(state[t]) {
        return InvTaskState;
      }
      if IsPended(state[t]) {
        AbortPend(t);
      } else if state[t] != Ready {
        AbortSleep(t);
      } else {
        NotTicking(t);
      }
      CoreSched();
      return Success;
    }

    lemma NotTicking(t: Tid)
      requires Settled() && t < |state| && state[t] == Ready
      ensures t !in tk.list
    {
    }

    method AbortPend(t: Tid)
      requires Inv() && t < |state| && IsPended(state[t])
      modifies this`state, this`prio, this`waiters, this`mutexList, this`link, this`blk, this`blkState, rq, tk`list
      ensures Inv() && state == old(state)[t := Ready] && t !in tk.list && blk[t] == None
      ensures t < |old(blkState)| && blkState == old(blkState)[t := BlkAbort] && tk.list == Without(old(tk.list), t)
    {
      hide QueuesOk, MutexOk, Chained, InheritOk, TicksOk, Counted, ObjectsOk;
      GiveUpWait(t, Ready, BlkAbort, None);
    }

    method AbortSleep(t: Tid)
      requires Inv() && t < |state| && IsLive(state[t]) && !IsPended(state[t]) && state[t] != Ready
      modifies this`state, this`blkState, rq, tk`list
      ensures Inv() && state == old(state)[t := Ready] && t !in tk.list && tk.list == Without(old(tk.list), t)
      ensures t < |old(blkState)| && blkState == if old(IsSleeping(state[t])) then old(blkState)[t := BlkAbort] else old(blkState)
    {
      hide QueuesOk, MutexOk, Chained, InheritOk, TickOk, NoDup, ObjectsOk, OnTime;
      QueuesWait();
      TickLeave(state, tk.list, t, Ready);
      if IsSleeping(state[t]) {
        blkState := blkState[t := BlkAbort];
        tk.Remove(t);
      } else {
        TickFree(state, tk.list, t);
      }
      SetState(t, Ready);
    }

    lemma TickFree(state: seq<TaskState>, list: seq<Tid>, t: Tid)
      requires TickOk(state, list) && t < |state| && !IsPended(state[t]) && !IsSleeping(state[t])
      ensures t !in list && Without(list, t) == list
    {
    }

    /** `krhino_task_pri_change`: the base priority always changes, the effective one as far as
        the waiters of held mutexes allow. */
    method TaskPriSet(t: Tid, pri: nat) returns (r: Status, oldPri: nat)
      requires Inv() && t < |state| && state[t] != Seed
      modifies this`prio, this`bprio, this`waiters, this`mutexList, this`link, this`active, rq
      ensures Inv() && |state| == old(|state|)
      ensures r == if old(prio[t]) >= IDLE_PRI || pri >= IDLE_PRI then PriChgNotAllowed
                   else if state[t] == Deleted then InvTaskState
                   else Success
      ensures r == Success ==> bprio == old(bprio)[t := pri] && prio[t] <= pri && oldPri == old(prio[t])
      ensures r == Success ==> if schedLock == 0 then Elected() else active == old(active)
      ensures r != Success ==> prio == old(prio) && bprio == old(bprio) && active == old(active)
    {
      hide Settled;
      oldPri := prio[t];
      if prio[t] >= IDLE_PRI || pri >= IDLE_PRI {
        return PriChgNotAllowed, oldPri;
      }
      if state[t] == Deleted {
        return InvTaskState, oldPri;
      }
      Rebase(t, pri);
      CoreSched();
      return Success, oldPri;
    }

    method Rebase(t: Tid, pri: nat)
      requires Inv() && t < |state| && IsLive(state[t]) && prio[t] < IDLE_PRI && pri < IDLE_PRI
      modifies this`prio, this`bprio, this`waiters, this`mutexList, this`link, rq
      ensures Inv()
      ensures bprio == old(bprio)[t := pri] && prio[t] <= pri
    {
      hide QueuesOk, MutexOk, Chained, InheritOk, IsInherited, TicksOk, Counted, NoStrays;
      var limit := SetBase(t, pri);
      Propagate(t, limit);
    }

    /** `task_pri_change` after a base priority has changed. */
    method Propagate(t: Tid, limit: nat)
      requires Shape() && QueuesOk() && IdleOwnsNothing() && Owners(kind) && NoStrays(kind, waiters)
      requires t < |state| && IsLive(state[t]) && t != idle && limit < PRI_MAX
      requires InheritOk(state, prio, bprio, Boosts(state, blk, kind, owner), Some(t))
      requires IsInherited(prio, bprio, Boosts(state, blk, kind, owner), t, limit)
      modifies this`prio, this`waiters, this`mutexList, this`link, rq
      ensures Shape() && QueuesOk() && IdleOwnsNothing() && Owners(kind) && NoStrays(kind, waiters)
      ensures Inherits(kind) && prio[t] <= bprio[t]
    {
      hide QueuesOk, MutexOk, Chained, InheritOk, NoStrays;
      ghost var boost, w0 := Boosts(state, blk, kind, owner), waiters;
      QueuesWait();
      NoSelfBoost(state, blk, kind, policy, owner, mutexList, waiters);
      TaskPriChange(t, limit, boost, None);
      InheritedAt(state, prio, bprio, boost, t);
      QueuesWait();
      StraysKeep(state, blk, kind, w0, waiters);
    }

    method SetBase(t: Tid, pri: nat) returns (limit: nat)
      requires Shape() && QueuesOk() && Owners(kind) && Inherits(kind)
      requires t < |state| && IsLive(state[t]) && prio[t] < IDLE_PRI && pri < IDLE_PRI
      modifies this`bprio
      ensures Shape() && QueuesOk() && Owners(kind)
      ensures bprio == old(bprio)[t := pri] && limit <= pri && t != idle
      ensures var boost := Boosts(state, blk, kind, owner);
              InheritOk(state, prio, bprio, boost, Some(t)) && IsInherited(prio, bprio, boost, t, limit)
    {
      hide QueuesOk, MutexOk, Chained, InheritOk;
      ghost var boost := Boosts(state, blk, kind, owner);
      QueuesWait();
      SortedRange(prio, policy, waiters);
      ListOf(state, kind, policy, owner, mutexList, waiters, t);
      limit := MutexPriLimit(t, pri);
      InheritRebase(state, prio, bprio, boost, t, pri);
      bprio := bprio[t := pri];
      QueuesBase(old(bprio), t);
      LendersOf(state, blk, kind, policy, owner, mutexList, waiters, prio, bprio, boost, t, limit);
    }

    lemma QueuesBase(was: seq<nat>, t: Tid)
      requires rq.Valid() && ReadyOk(state, prio, rq.lists) && WaitOk(state, blk, waiters)
      requires SortedOk(prio, policy, waiters) && idle < |state| && state[idle] == Ready
      requires |prio| == |state| == |bprio| == |was| && prio[idle] == IDLE_PRI && was[idle] == IDLE_PRI
      requires t < |state| && t != idle && bprio == was[t := bprio[t]]
      ensures QueuesOk()
    {
    }

    // ----- k_task.c: deletion -----

    /** `task_mutex_free`: every mutex of the dying task goes to its first waiter or becomes free.
        The mutex list itself is left as it was, and so is `owner_nested`. */
    method TaskMutexFree(d: Tid)
      requires Shape() && QueuesOk() && TicksOk() && IdleOwnsNothing() && Owners(kind) && Inherits(kind)
      requires d < |state| && IsLive(state[d]) && d != idle
      modifies this`state, this`waiters, this`blk, this`blkState, this`owner, this`mutexList, this`link, rq, tk`list
      ensures Shape() && QueuesOk() && TicksOk() && IdleOwnsNothing()
      ensures MutexOk(Bury(state, Some(d)), kind, policy, owner, mutexList, waiters)
      ensures InheritOk(Bury(state, Some(d)), prio, bprio, Boosts(state, blk, kind, owner), None)
      ensures Chained(kind, owner, mutexList, link)
      ensures state[d] == old(state)[d] && WokenOnly(old(state), state)
      ensures mutexList[d] == old(mutexList)[d] && HandedOn(old(owner), owner, old(waiters), old(mutexList)[d], [])
      ensures LeftOk(old(tk.list), tk.list, old(state), state, blkState)
      ensures old(ObjectsOk()) ==> ObjectsOk()
      ensures old(CountsOk()) ==> CountsOk()
    {
      hide QueuesOk, MutexOk, Chained, InheritOk, TicksOk, OwnsOk, ObjectsOk, OnTime, HandedOn, LeftOk, WokenOnly,
           Woken,
           Bury, HideKinds, Boosts, InPriRange, SameAt, Counted, ReadyOk, WaitOk, SortedOk, TickOk, Without, NoDup,
           NoStrays, InsertByKey, Armed, ArmedIfAny, CutLink, AfterWake, IsPended;
      HandedStart(owner, waiters, mutexList[d]);
      LeftNone(tk.list, state, blkState);
      WokenNone(state);
      var ms := mutexList[d];
      Dying(state, blk, kind, policy, owner, mutexList, waiters, prio, bprio, d);
      LiveHolds(state, kind, policy, owner, mutexList, waiters, d);
      ChainDying(kind, HideKinds(kind, ms), owner, mutexList, link, d);
      OwnsBelow(ms, |kind|);
      SameAtStart(ms, waiters, |kind|);
      var i := 0;
      assert ms[0..] == ms;
      while i < |ms|
        invariant i <= |ms|
        invariant Shape() && QueuesOk() && TicksOk() && IdleOwnsNothing()
        invariant MutexOk(Bury(state, Some(d)), HideKinds(kind, ms[i..]), policy, owner, mutexList, waiters)
        invariant Chained(HideKinds(kind, ms[i..]), owner, mutexList, link)
        invariant InheritOk(Bury(state, Some(d)), prio, bprio, Boosts(state, blk, HideKinds(kind, ms[i..]), owner), None)
        invariant state[d] == old(state)[d] && WokenOnly(old(state), state) && |waiters| == old(|waiters|)
        invariant mutexList[d] == old(mutexList)[d] && HandedOn(old(owner), owner, old(waiters), ms, ms[i..])
        invariant SameAt(ms[i..], waiters, old(waiters))
        invariant LeftOk(old(tk.list), tk.list, old(state), state, blkState)
        invariant forall m :: m in ms ==> d !in waiters[m]
        invariant forall m :: m in ms[i..] ==> m in ms && owner[m] == old(owner)[m]
        invariant old(ObjectsOk()) ==> ObjectsOk()
      {
        assert ms[i] in ms && ms[i] in ms[i..];
        SameAtFirst(ms, i, waiters, old(waiters));
        ghost var state1, blkState1, list1, owner1, w1 := state, blkState, tk.list, owner, waiters;
        FreeOne(ms[i], d, HideKinds(kind, ms[i..]));
        OneFewer(kind, ms, i);
        StillWaiting(ms, i, ms[i], old(waiters), w1, waiters);
        HandedStep(old(owner), owner1, owner, old(waiters), ms, i);
        LeftThenWoken(FirstWaiter(old(waiters)[ms[i]]), old(tk.list), list1, tk.list, old(state), state1, state, blkState1, blkState);
        i := i + 1;
      }
      NothingHidden(kind, ms[i..]);
      if old(CountsOk()) {
        CountedWoken(old(state), state, suspendCount);
      }
    }

    /** One round of `task_mutex_free`. */
    method FreeOne(m: Oid, d: Tid, ghost view: seq<Kind>)
      requires Shape() && QueuesOk() && TicksOk() && IdleOwnsNothing()
      requires m < |kind| && policy[m] == ByPri && |view| == |kind| && view[m] == NoObj
      requires kind[m] == Mutex && owner[m].Some? && d < |state| && d !in waiters[m]
      requires MutexOk(Bury(state, Some(d)), view, policy, owner, mutexList, waiters)
      requires InheritOk(Bury(state, Some(d)), prio, bprio, Boosts(state, blk, view, owner), None)
      requires Chained(view, owner, mutexList, link)
      modifies this`state, this`waiters, this`blk, this`blkState, this`owner, this`mutexList, this`link, rq, tk`list
      ensures Shape() && QueuesOk() && TicksOk() && IdleOwnsNothing()
      ensures state[d] == old(state)[d] && WokenOnly(old(state), state)
      ensures Chained(view[m := Mutex], owner, mutexList, link)
      ensures MutexOk(Bury(state, Some(d)), view[m := Mutex], policy, owner, mutexList, waiters)
      ensures InheritOk(Bury(state, Some(d)), prio, bprio, Boosts(state, blk, view[m := Mutex], owner), None)
      ensures owner == old(owner)[m := FirstWaiter(old(waiters)[m])] && mutexList[d] == old(mutexList)[d]
      ensures |waiters| == old(|waiters|) && waiters == old(waiters)[m := waiters[m]]
      ensures
        var w := FirstWaiter(old(waiters)[m]);
        Woken(w, old(state), state, old(blkState), blkState, old(tk.list), tk.list)
      ensures forall q :: 0 <= q < |waiters| && d !in old(waiters)[q] ==> d !in waiters[q]
      ensures old(ObjectsOk()) ==> ObjectsOk()
    {
      hide QueuesOk, MutexOk, Chained, InheritOk, TicksOk, OnTime;
      var w := HandOver(m, Some(d), view);
    }

    lemma NothingHidden(kind: seq<Kind>, rest: seq<Oid>)
      requires rest == []
      ensures HideKinds(kind, rest) == kind
    {
    }

    lemma OneFewer(kind: seq<Kind>, ms: seq<Oid>, i: nat)
      requires i < |ms| && OwnsOk(ms, |kind|) && kind[ms[i]] == Mutex
      ensures HideKinds(kind, ms[i..])[ms[i] := Mutex] == HideKinds(kind, ms[i + 1..])
      ensures forall m :: m in ms[i + 1..] ==> m in ms[i..] && m != ms[i]
    {
      DistinctLater(ms, i);
      assert ms[i..] == [ms[i]] + ms[i + 1..];
    }

    lemma {:induction false} DistinctLater(ms: seq<nat>, i: nat)
      requires i < |ms| && NoDup(ms)
      ensures ms[i] !in ms[i + 1..]
    {
      if i > 0 {
        DistinctLater(ms[1..], i - 1);
        assert ms[1..][i..] == ms[i + 1..];
      }
    }

    lemma WokenBut(was: seq<TaskState>, now: seq<TaskState>, t: Tid, u: Tid)
      requires WokenOnly(was, now) && t < |was| && u < |was|
      ensures |now| == |was| && WokenOnly(was[t := Deleted], now[t := Deleted])
      ensures was[u] == Ready ==> now[u] == Ready
    {
    }

    /** What the list of a task leads to along the pointers; for a task that has died, mutexes that
        may be anybody's by now. */
    ghost function Leftovers(t: Tid): seq<Oid>
      reads this`mutexList, this`link
    {
      if t < |mutexList| && Ends(link, First(mutexList[t])) then Trail(link, First(mutexList[t])) else []
    }

    lemma LeftoversEnd(t: Tid)
      requires Settled() && t < |mutexList|
      ensures Walks(link, First(mutexList[t]), Leftovers(t))
    {
      TrailEnds(kind, owner, mutexList, link, t);
    }

    /** While a task lives, these are its mutexes. */
    lemma LeftoversLive(t: Tid)
      requires Settled() && t < |state| && IsLive(state[t])
      ensures t < |mutexList| && Leftovers(t) == mutexList[t]
    {
      LeftoversEnd(t);
      LiveHolds(state, kind, policy, owner, mutexList, waiters, t);
      if mutexList[t] == [] {
        WalkEnd(link, None, Leftovers(t));
      } else {
        assert Spelt(kind, owner, mutexList, link, t);
        WalkUnique(link, First(mutexList[t]), Leftovers(t), mutexList[t]);
      }
    }

    /** `krhino_task_del`. The mutexes held are handed on first, whatever the state of the task: for
        a task that is deleted already this walks a list of mutexes that is out of date, and
        changes nothing iff nobody holds any of them. */
    method TaskDel(t: Tid) returns (r: Status)
      requires Inv() && t < |state| && state[t] != Seed
      modifies this, rq, tk`list
      ensures |state| == old(|state|) && |kind| == old(|kind|) && kind == old(kind) && nested == old(nested) && schedLock == old(schedLock)
      ensures bprio == old(bprio)
      ensures r == if old(prio[t]) == IDLE_PRI then TaskDelNotAllowed
                   else if t == old(active) && schedLock > 0 then Status.SchedDisable
                   else if old(state[t]) == Deleted then InvTaskState
                   else Success
      ensures r == Success ==>
                && Inv() && state[t] == Deleted && WokenOnly(old(state)[t := Deleted], state)
                && t < |old(mutexList)| && t < |mutexList| && mutexList[t] == old(mutexList)[t]
                && HandedOn(old(owner), owner, old(waiters), old(mutexList)[t], [])
                && (if schedLock == 0 then Elected() else active == old(active))
      ensures r == Success && !old(IsPended(state[t])) ==> prio == old(prio)
      ensures r == Success ==> LeftOk(old(tk.list), tk.list, old(state), state, blkState)
      ensures r == Success ==> forall m :: 0 <= m < |kind| && kind[m] == Mutex ==> owner[m] != Some(t)
      ensures r == Success ==> forall m :: 0 <= m < |waiters| ==> t !in waiters[m]
      ensures r in {TaskDelNotAllowed, Status.SchedDisable} || (r == InvTaskState && Idle(old(owner), old(waiters), old(Leftovers(t)))) ==>
                && Inv() && state == old(state) && owner == old(owner) && waiters == old(waiters) && mutexList == old(mutexList)
                && active == old(active) && prio == old(prio) && blkState == old(blkState) && tk.list == old(tk.list)
      ensures r == InvTaskState ==>
                && (owner == old(owner) && state == old(state) <==> Idle(old(owner), old(waiters), old(Leftovers(t))))
                && (NoneWaits(old(waiters), old(Leftovers(t))) ==>
                      && state == old(state) && mutexList == old(mutexList) && waiters == old(waiters) && active == old(active)
                      && HandedOn(old(owner), owner, old(waiters), old(Leftovers(t)), []))
    {
      hide Settled, HandedOn, LeftOk, Leftovers, WokenOnly;
      if prio[t] == IDLE_PRI {
        return TaskDelNotAllowed;
      }
      if t == active && schedLock > 0 {
        return Status.SchedDisable;
      }
      if state[t] == Deleted {
        DeleteAgain(t);
        return InvTaskState;
      }
      Delete(t);
      CoreSched();
      Gone(t);
      return Success;
    }

    method DeleteAgain(t: Tid)
      requires Inv() && t < |state| && t < |mutexList|
      modifies this`state, this`waiters, this`blk, this`blkState, this`owner, this`mutexList, this`link, rq, tk`list
      ensures |state| == old(|state|)
      ensures Idle(old(owner), old(waiters), old(Leftovers(t))) ==>
                && Inv() && state == old(state) && owner == old(owner) && waiters == old(waiters) && mutexList == old(mutexList)
                && blkState == old(blkState) && tk.list == old(tk.list)
      ensures owner == old(owner) && state == old(state) <==> Idle(old(owner), old(waiters), old(Leftovers(t)))
      ensures NoneWaits(old(waiters), old(Leftovers(t))) ==>
                && state == old(state) && mutexList == old(mutexList) && waiters == old(waiters)
                && HandedOn(old(owner), owner, old(waiters), old(Leftovers(t)), [])
    {
      hide MutexOk, Chained, InheritOk, HandedOn, Walks, Leftovers;
      ghost var walk := Leftovers(t);
      LeftoversEnd(t);
      FreeStale(t, walk);
      HandedIdle(old(owner), owner, old(waiters), walk);
    }

    /** One round of `task_mutex_free`, with no promise that the mutex belongs to the dying task. */
    method FreeStaleOne(m: Oid)
      requires Shape() && QueuesOk() && TicksOk() && m < |kind|
      modifies this`state, this`waiters, this`blk, this`blkState, this`owner, this`mutexList, this`link, rq, tk`list
      ensures Shape() && QueuesOk() && TicksOk() && |state| == old(|state|)
      ensures owner == old(owner)[m := FirstWaiter(old(waiters)[m])]
      ensures |waiters| == old(|waiters|) && waiters == old(waiters)[m := waiters[m]]
      ensures link == old(link)[m := link[m]]
      ensures old(waiters)[m] == [] ==>
                && state == old(state) && mutexList == old(mutexList) && waiters == old(waiters)
                && blk == old(blk) && blkState == old(blkState) && link == old(link) && tk.list == old(tk.list)
                && rq.lists == old(rq.lists) && rq.bits == old(rq.bits) && rq.highest == old(rq.highest)
      ensures old(waiters)[m] != [] ==>
                var w := old(waiters)[m][0];
                && w < |state| && IsPended(old(state)[w]) && state == old(state)[w := AfterWake(old(state)[w])]
                && w < |old(blkState)| && blkState == old(blkState)[w := BlkFinish]
                && w < |old(mutexList)| && mutexList == old(mutexList)[w := [m] + old(mutexList)[w]]
                && link == old(link)[m := First(old(mutexList)[w])]
    {
      hide QueuesOk, TicksOk;
      if waiters[m] != [] {
        var w := waiters[m][0];
        QueuesWait();
        WaitsOn(state, blk, waiters, m, w);
        Unpend(w, BlkFinish);
        owner := owner[m := Some(w)];
        link := link[m := First(mutexList[w])];
        mutexList := mutexList[w := [m] + mutexList[w]];
      } else {
        owner := owner[m := None];
      }
    }

    /** `task_mutex_free` along pointers that may be out of date. */
    method FreeStale(t: Tid, ghost walk: seq<Oid>)
      requires Shape() && QueuesOk() && TicksOk() && t < |state| && Walks(link, First(mutexList[t]), walk)
      modifies this`state, this`waiters, this`blk, this`blkState, this`owner, this`mutexList, this`link, rq, tk`list
      ensures |state| == old(|state|)
      ensures NoneWaits(old(waiters), walk) ==>
                && state == old(state) && mutexList == old(mutexList) && waiters == old(waiters)
                && blk == old(blk) && blkState == old(blkState) && link == old(link) && tk.list == old(tk.list)
                && rq.lists == old(rq.lists) && rq.bits == old(rq.bits) && rq.highest == old(rq.highest)
      ensures HandedOn(old(owner), owner, old(waiters), walk, [])
      ensures state == old(state) ==> NoneWaits(old(waiters), walk)
      ensures forall m :: m in walk ==> m < old(|waiters|)
    {
      hide QueuesOk, TicksOk, HandedOn, WokenOnly, Walks, InPriRange, SameAt, NoneWaits, NoDup;
      WalkStart(link, First(mutexList[t]), walk, waiters);
      var cur: Option<Oid> := First(mutexList[t]);
      ghost var i := 0;
      WalkDistinct(link, cur, walk);
      HandedStart(owner, waiters, walk);
      WokenNone(state);
      assert walk[0..] == walk;
      while cur.Some?
        invariant Shape() && QueuesOk() && TicksOk() && |state| == old(|state|) && |waiters| == old(|waiters|)
        invariant i <= |walk| && Walks(link, cur, walk[i..]) && NoDup(walk)
        invariant HandedOn(old(owner), owner, old(waiters), walk, walk[i..])
        invariant SameAt(walk[i..], waiters, old(waiters))
        invariant WokenOnly(old(state), state)
        invariant NoneWaits(old(waiters), walk[..i]) ==>
                    && state == old(state) && mutexList == old(mutexList) && waiters == old(waiters)
                    && blk == old(blk) && blkState == old(blkState) && link == old(link) && tk.list == old(tk.list)
                    && rq.lists == old(rq.lists) && rq.bits == old(rq.bits) && rq.highest == old(rq.highest)
        invariant state == old(state) ==> NoneWaits(old(waiters), walk[..i])
        decreases |walk| - i
      {
        WalkNext(link, cur, walk[i..]);
        var m := cur.value;
        cur := link[m];
        ghost var owner1, state1 := owner, state;
        DistinctLater(walk, i);
        assert walk[i..][1..] == walk[i + 1..] && walk[i] == m && walk[..i + 1] == walk[..i] + [m];
        ghost var link1, w1 := link, waiters;
        SameAtFirst(walk, i, waiters, old(waiters));
        FreeStaleOne(m);
        if old(waiters)[m] != [] {
          WokenOneMore(old(state), state1, state, old(waiters)[m][0]);
        }
        WalkFrame(link1, cur, walk[i + 1..], m, link[m]);
        NoneWaitsMore(old(waiters), walk[..i], m);
        StillWaiting(walk, i, m, old(waiters), w1, waiters);
        HandedStep(old(owner), owner1, owner, old(waiters), walk, i);
        i := i + 1;
      }
      WalkEnd(link, cur, walk[i..]);
      assert walk[i..] == [] && walk[..i] == walk;
    }

    lemma Gone(t: Tid)
      requires Settled() && t < |state| && state[t] == Deleted
      ensures forall m :: 0 <= m < |kind| && kind[m] == Mutex ==> owner[m] != Some(t)
      ensures forall m :: 0 <= m < |waiters| ==> t !in waiters[m]
    {
    }

    method Delete(t: Tid)
      requires Inv() && t < |state| && IsLive(state[t]) && prio[t] != IDLE_PRI
      modifies this`state, this`prio, this`waiters, this`blk, this`blkState, this`owner, this`mutexList, this`link, rq, tk`list
      ensures Shape() && Settled()
      ensures |state| == old(|state|) && state[t] == Deleted && WokenOnly(old(state)[t := Deleted], state)
      ensures !old(IsPended(state[t])) ==> prio == old(prio)
      ensures mutexList[t] == old(mutexList)[t] && HandedOn(old(owner), owner, old(waiters), old(mutexList)[t], [])
      ensures LeftOk(old(tk.list), tk.list, old(state), state, blkState)
      ensures active != t ==> state[active] == Ready
    {
      hide QueuesOk, MutexOk, Chained, InheritOk, TicksOk, Counted, ObjectsOk, WokenOnly, Boosts, HandedOn, LeftOk,
           Bury;
      QueuesWait();
      TaskMutexFree(t);
      WokenBut(old(state), state, t, active);
      LeftThenDies(old(tk.list), tk.list, old(state), state, blkState, t);
      EndTask(t);
    }

    /** The state switch of `krhino_task_del`. */
    method EndTask(t: Tid)
      requires Shape() && QueuesOk() && TicksOk() && IdleOwnsNothing() && t < |state| && t != idle && IsLive(state[t])
      requires MutexOk(Bury(state, Some(t)), kind, policy, owner, mutexList, waiters)
      requires InheritOk(Bury(state, Some(t)), prio, bprio, Boosts(state, blk, kind, owner), None)
      requires ObjectsOk() && CountsOk()
      requires Chained(kind, owner, mutexList, link)
      modifies this`state, this`prio, this`waiters, this`blk, this`blkState, this`mutexList, this`link, rq, tk`list
      ensures Shape() && Settled() && state == old(state)[t := Deleted] && mutexList == old(mutexList)
      ensures !old(IsPended(state[t])) ==> prio == old(prio)
      ensures blkState == old(blkState) && tk.list == Without(old(tk.list), t)
    {
      hide QueuesOk, MutexOk, Chained, InheritOk, TicksOk, Counted, ObjectsOk, Boosts, Bury;
      if IsPended(state[t]) {
        GiveUpWait(t, Deleted, BlkDel, Some(t));
      } else {
        Die(t);
      }
    }

    /** The task leaves the ready or the tick list for good. */
    method Die(t: Tid)
      requires Shape() && QueuesOk() && TicksOk() && t < |state| && t != idle
      requires IsLive(state[t]) && !IsPended(state[t])
      requires MutexOk(Bury(state, Some(t)), kind, policy, owner, mutexList, waiters)
      requires InheritOk(Bury(state, Some(t)), prio, bprio, Boosts(state, blk, kind, owner), None)
      requires Chained(kind, owner, mutexList, link)
      modifies this`state, rq, tk`list
      ensures Shape() && QueuesOk() && TicksOk() && Owners(kind) && Inherits(kind)
      ensures state == old(state)[t := Deleted]
      ensures old(CountsOk()) ==> CountsOk()
      ensures tk.list == Without(old(tk.list), t)
    {
      hide ReadyOk, WaitOk, SortedOk, MutexOk, Chained, InheritOk, TickOk, NoDup, OnTime, Boosts, Bury, InPriRange,
           Without;
      ghost var was := state;
      PriBound(t);
      OffWait(state, blk, waiters, t, Deleted, blk[t]);
      assert blk[t := blk[t]] == blk;
      TickLeave(state, tk.list, t, Deleted);
      if IsSleeping(state[t]) {
        tk.Remove(t);
      } else {
        TickFree(state, tk.list, t);
      }
      Requeue(t, Deleted);
      BoostsDie(was, state, t);
    }

    /** A task that waits for nothing lends nothing, dead or alive. */
    lemma BoostsDie(was: seq<TaskState>, now: seq<TaskState>, t: Tid)
      requires t < |was| == |blk| && |kind| == |owner| && !IsPended(was[t]) && now == was[t := Deleted]
      ensures Boosts(now, blk, kind, owner) == Boosts(was, blk, kind, owner) && now == Bury(was, Some(t))
    {
      assert Boosts(now, blk, kind, owner) == Boosts(was, blk, kind, owner);
    }

    // ----- objects other than mutexes, and object deletion -----

    /** A task leaves the wait list of an object that is no (longer a) mutex. */
    method UnpendOther(t: Tid, o: Oid, b: BlkState)
      requires Shape() && QueuesOk() && TicksOk() && Owners(kind) && Inherits(kind) && CountsOk()
      requires o < |kind| && kind[o] != Mutex && t < |state| && IsPended(state[t]) && blk[t] == Some(o)
      modifies this`state, this`waiters, this`blk, this`blkState, rq, tk`list
      ensures Shape() && QueuesOk() && TicksOk() && Owners(kind) && Inherits(kind) && CountsOk()
      ensures state == old(state)[t := AfterWake(old(state[t]))]
      ensures waiters == old(waiters)[o := Without(old(waiters)[o], t)]
      ensures blk == old(blk)[t := None] && blkState == old(blkState)[t := b]
      ensures tk.list == Without(old(tk.list), t)
    {
      hide QueuesOk, MutexOk, Chained, InheritOk, TicksOk, OnTime;
      QueuesWait();
      ghost var blk0 := blk;
      GiveUp(state, blk, kind, policy, owner, mutexList, waiters, prio, bprio, None, t, AfterWake(state[t]));
      Unpend(t, b);
      assert Boosts(state, blk, kind, owner) == Boosts(state, blk0, kind, owner);
    }

    /** `pend_task_rm` of the first waiter. */
    method RemoveFirst(o: Oid)
      requires Shape() && QueuesOk() && TicksOk() && Owners(kind) && Inherits(kind) && CountsOk()
      requires o < |kind| && kind[o] != Mutex && waiters[o] != []
      modifies this`state, this`waiters, this`blk, this`blkState, rq, tk`list
      ensures Shape() && QueuesOk() && TicksOk() && Owners(kind) && Inherits(kind) && CountsOk()
      ensures
        var t := old(waiters[o][0]);
        && t < |state| && IsPended(old(state)[t]) && state == old(state)[t := AfterWake(old(state)[t])]
        && waiters == old(waiters)[o := Without(old(waiters)[o], t)]
        && t < |old(blkState)| && blkState == old(blkState)[t := BlkDel] && tk.list == Without(old(tk.list), t)
    {
      hide QueuesOk, MutexOk, Chained, InheritOk, TicksOk, Counted, InPriRange;
      QueuesWait();
      WaitsOn(state, blk, waiters, o, waiters[o][0]);
      UnpendOther(waiters[o][0], o, BlkDel);
    }

    /** `while (!is_klist_empty(blk_list_head)) pend_task_rm(...)` */
    method WakeAll(o: Oid)
      requires Shape() && QueuesOk() && TicksOk() && Owners(kind) && Inherits(kind) && CountsOk()
      requires o < |kind| && kind[o] != Mutex && state[active] == Ready
      modifies this`state, this`waiters, this`blk, this`blkState, rq, tk`list
      ensures Shape() && QueuesOk() && TicksOk() && Owners(kind) && Inherits(kind) && CountsOk()
      ensures waiters == old(waiters)[o := []] && state[active] == Ready
      ensures WokenOnly(old(state), state) && AllTold(old(waiters)[o], old(state), state, blkState, [])
      ensures LeftOk(old(tk.list), tk.list, old(state), state, blkState)
    {
      hide QueuesOk, MutexOk, Chained, InheritOk, TicksOk, Counted, LeftOk, WokenOnly, AllTold, InPriRange,
           AfterWake, Without;
      ToldNone(waiters[o], state, blkState);
      LeftNone(tk.list, state, blkState);
      WokenNone(state);
      while waiters[o] != []
        invariant Shape() && QueuesOk() && TicksOk() && Owners(kind) && Inherits(kind) && CountsOk()
        invariant |waiters| == old(|waiters|) && waiters == old(waiters)[o := waiters[o]]
        invariant state[active] == Ready && WokenOnly(old(state), state)
        invariant LeftOk(old(tk.list), tk.list, old(state), state, blkState)
        invariant AllTold(old(waiters)[o], old(state), state, blkState, waiters[o])
        decreases |waiters[o]|
      {
        var t := waiters[o][0];
        Shorter(waiters[o]);
        ghost var state1, blkState1, list1, w1 := state, blkState, tk.list, waiters[o];
        RemoveFirst(o);
        LeftThenToldOnly(t, old(tk.list), list1, tk.list, old(state), state1, state, blkState1, blkState, BlkDel);
        ToldOneMore(t, old(waiters)[o], w1, old(state), state1, state, blkState1, blkState);
        WokenOneMore(old(state), state1, state, t);
      }
    }

    lemma Shorter(s: seq<nat>)
      requires s != []
      ensures |Without(s, s[0])| < |s|
    {
    }

    /** `krhino_mutex_del` */
    method MutexDel(m: Oid) returns (r: Status)
      requires Inv() && m < |kind|
      modifies this, rq, tk`list
      ensures Inv() && |state| == old(|state|) && |kind| == old(|kind|)
      ensures r == if old(kind[m]) != Mutex then KobjTypeErr else Success
      ensures schedLock == old(schedLock) && LeftOk(old(tk.list), tk.list, old(state), state, blkState)
      ensures r == Success ==>
                && kind == old(kind)[m := NoObj] && waiters[m] == []
                && WokenOnly(old(state), state) && AllTold(old(waiters)[m], old(state), state, blkState, [])
                && (if schedLock == 0 then Elected() else active == old(active))
      ensures r != Success ==> kind == old(kind) && state == old(state) && active == old(active)
    {
      hide Settled, AllTold, WokenOnly, LeftOk;
      LeftNone(tk.list, state, blkState);
      if kind[m] != Mutex {
        return KobjTypeErr;
      }
      DropMutex(m);
      CoreSched();
      return Success;
    }

    method DropMutex(m: Oid)
      requires Inv() && m < |kind| && kind[m] == Mutex
      modifies this`kind, this`state, this`prio, this`waiters, this`mutexList, this`link, this`blk, this`blkState, rq, tk`list
      ensures Inv() && |state| == old(|state|)
      ensures kind == old(kind)[m := NoObj] && waiters[m] == [] && WokenOnly(old(state), state) && AllTold(old(waiters)[m], old(state), state, blkState, [])
      ensures LeftOk(old(tk.list), tk.list, old(state), state, blkState)
    {
      hide QueuesOk, MutexOk, Chained, InheritOk, TicksOk, Counted, AllTold, WokenOnly, LeftOk, ReadyOk, SortedOk,
           Boosts,
           InPriRange;
      ghost var kind0, w0 := kind, waiters;
      QueuesWait();
      NoWaiters(state, kind, policy, owner, mutexList, waiters, m);
      kind := kind[m := NoObj];
      if owner[m].Some? {
        ReleaseOwned(m, owner[m].value, kind0);
      } else {
        MutexDrop(state, kind0, policy, owner, mutexList, waiters, m, NoObj);
        ChainHide(kind0, owner, mutexList, link, m, NoObj);
        NobodyLends(state, blk, kind0, kind, owner, owner, waiters, m);
      }
      QueuesWait();
      ghost var w1 := waiters;
      SameWaiters(state, blk, w0, w1, m);
      WakeAll(m);
      ToldAll(w1[m], w0[m], old(state), state, blkState);
    }

    lemma SameWaiters(state: seq<TaskState>, blk: seq<Option<Oid>>, w: seq<seq<Tid>>, w': seq<seq<Tid>>, o: Oid)
      requires WaitOk(state, blk, w) && WaitOk(state, blk, w') && |w| == |w'| && o < |w|
      ensures forall t :: t in w[o] ==> t in w'[o]
    {
    }

    /** The running task pends on a semaphore, queue or event (`pend_to_blk_obj`). */
    method ObjPend(o: Oid, ticks: nat)
      requires Inv() && o < |kind| && kind[o] == OtherObj && active != idle
      requires 0 < ticks < TICK_MOD && schedLock == 0
      modifies this`state, this`waiters, this`blk, this`active, rq, tk`list, tk`deadline, tk`armed
      ensures ArmedIfAny(old(tk.list), old(tk.deadline), old(tk.armed), tk.list, tk.deadline, tk.armed, tk.count, tk.now, old(active), ticks)
      ensures Inv() && |state| == old(|state|) && |waiters| == old(|waiters|)
      ensures state == old(state)[old(active) := Pend] && blk == old(blk)[old(active) := Some(o)]
      ensures waiters == old(waiters)[o := waiters[o]] && AllBelow(old(waiters[o]), |prio|)
      ensures waiters[o] == (if policy[o] == Fifo then old(waiters[o]) + [old(active)] else InsertByKey(prio, old(waiters[o]), old(active)))
      ensures Elected()
    {
      hide Settled, InsertByKey;
      WaitersBelow(o);
      PendOther(o, ticks);
      CoreSched();
    }

    lemma WaitersBelow(o: Oid)
      requires Inv() && o < |waiters|
      ensures AllBelow(waiters[o], |prio|)
    {
      assert forall i :: 0 <= i < |waiters[o]| ==> waiters[o][i] in waiters[o];
    }

    method PendOther(o: Oid, ticks: nat)
      requires Inv() && o < |kind| && kind[o] == OtherObj && active != idle && 0 < ticks < TICK_MOD
      modifies this`state, this`waiters, this`blk, rq, tk`list, tk`deadline, tk`armed
      ensures ArmedIfAny(old(tk.list), old(tk.deadline), old(tk.armed), tk.list, tk.deadline, tk.armed, tk.count, tk.now, active, ticks)
      ensures Shape() && Settled()
      ensures state == old(state)[active := Pend] && blk == old(blk)[active := Some(o)]
      ensures |waiters| == old(|waiters|) && waiters == old(waiters)[o := waiters[o]]
      ensures AllBelow(old(waiters[o]), |prio|)
      ensures waiters[o] == (if policy[o] == Fifo then old(waiters[o]) + [active] else InsertByKey(prio, old(waiters[o]), active))
    {
      hide QueuesOk, MutexOk, Chained, InheritOk, TicksOk, InsertByKey, ReadyOk, WaitOk, SortedOk, Boosts, ArmedIfAny;
      WaitersBelow(o);
      ghost var state0, blk0, w0 := state, blk, waiters;
      PendTo(o, active, ticks);
      MutexGrow(state0, kind, policy, owner, mutexList, w0, active, o, waiters[o]);
      assert Boosts(state, blk, kind, owner) == Boosts(state0, blk0, kind, owner);
      InheritStates(state0, state, prio, bprio, Boosts(state, blk, kind, owner), None);
    }

    /** A semaphore or queue wakes its first waiter, or a semaphore all, or an event those whose
        condition holds, in list order (`pend_task_wakeup`). */
    method ObjWake(o: Oid, ts: seq<Tid>)
      requires Inv() && o < |kind| && kind[o] == OtherObj && NoDup(ts) && forall t :: t in ts ==> t in waiters[o]
      modifies this`state, this`waiters, this`blk, this`blkState, this`active, rq, tk`list
      ensures Inv() && |state| == old(|state|) && LeftOk(old(tk.list), tk.list, old(state), state, blkState)
      ensures |waiters| == old(|waiters|) && waiters == old(waiters)[o := waiters[o]]
      ensures forall t :: t in waiters[o] <==> t in old(waiters[o]) && t !in ts
      ensures forall t :: t in ts ==> t < |state| && t < |blkState| && state[t] == AfterWake(old(state)[t]) && blkState[t] == BlkFinish
      ensures forall t :: 0 <= t < |state| && t !in ts ==> state[t] == old(state)[t]
      ensures if ts == [] || schedLock > 0 then active == old(active) else Elected()
    {
      hide Settled, LeftOk, NoDup;
      LeftNone(tk.list, state, blkState);
      if ts == [] {
        return;
      }
      WakeThese(o, ts);
      CoreSched();
    }

    method WakeThese(o: Oid, ts: seq<Tid>)
      requires Inv() && o < |kind| && kind[o] == OtherObj && NoDup(ts) && forall t :: t in ts ==> t in waiters[o]
      modifies this`state, this`waiters, this`blk, this`blkState, rq, tk`list
      ensures Inv() && |state| == old(|state|) && LeftOk(old(tk.list), tk.list, old(state), state, blkState)
      ensures |waiters| == old(|waiters|) && waiters == old(waiters)[o := waiters[o]]
      ensures forall t :: t in waiters[o] <==> t in old(waiters[o]) && t !in ts
      ensures forall t :: t in ts ==> t < |state| && t < |blkState| && state[t] == AfterWake(old(state)[t]) && blkState[t] == BlkFinish
      ensures forall t :: 0 <= t < |state| && t !in ts ==> state[t] == old(state)[t]
    {
      hide Settled, LeftOk, NoDup, Without;
      LeftNone(tk.list, state, blkState);
      for i := 0 to |ts|
        invariant Inv() && |state| == old(|state|) && LeftOk(old(tk.list), tk.list, old(state), state, blkState)
        invariant |waiters| == old(|waiters|) && waiters == old(waiters)[o := waiters[o]]
        invariant forall t :: t in waiters[o] <==> t in old(waiters[o]) && t !in ts[..i]
        invariant forall t :: t in ts[..i] ==> t < |state| && t < |blkState| && state[t] == AfterWake(old(state)[t]) && blkState[t] == BlkFinish
        invariant forall t :: 0 <= t < |state| && t !in ts[..i] ==> state[t] == old(state)[t]
      {
        var t := ts[i];
        NotBefore(ts, i);
        ghost var state1, blkState1, list1 := state, blkState, tk.list;
        WakeOther(o, t);
        LeftThenTold(t, old(tk.list), list1, tk.list, old(state), state1, state, blkState1, blkState, BlkFinish);
        assert ts[..i + 1] == ts[..i] + [t];
      }
      assert ts[..|ts|] == ts;
    }

    lemma {:induction false} NotBefore(ts: seq<nat>, i: nat)
      requires i < |ts| && NoDup(ts)
      ensures ts[i] !in ts[..i]
    {
      if i > 0 {
        NotBefore(ts[1..], i - 1);
        assert ts[..i] == [ts[0]] + ts[1..][..i - 1];
        assert ts[i] in ts[1..];
      }
    }

    method WakeOther(o: Oid, t: Tid)
      requires Inv() && o < |kind| && kind[o] == OtherObj && t in waiters[o]
      modifies this`state, this`waiters, this`blk, this`blkState, rq, tk`list
      ensures Inv() && t < |state| == old(|state|) && IsPended(old(state)[t]) && state == old(state)[t := AfterWake(old(state)[t])]
      ensures t < |old(blkState)| && blkState == old(blkState)[t := BlkFinish] && tk.list == Without(old(tk.list), t)
      ensures waiters == old(waiters)[o := Without(old(waiters)[o], t)]
    {
      hide QueuesOk, MutexOk, Chained, InheritOk, TicksOk, Counted;
      QueuesWait();
      WaitsOn(state, blk, waiters, o, t);
      UnpendOther(t, o, BlkFinish);
    }

    /** Deletion of such an object. */
    method ObjDel(o: Oid)
      requires Inv() && o < |kind| && kind[o] == OtherObj
      modifies this`kind, this`state, this`waiters, this`blk, this`blkState, this`active, rq, tk`list
      ensures Inv() && |state| == old(|state|) && kind == old(kind)[o := NoObj]
      ensures WokenOnly(old(state), state) && AllTold(old(waiters)[o], old(state), state, blkState, [])
      ensures LeftOk(old(tk.list), tk.list, old(state), state, blkState)
      ensures if schedLock == 0 then Elected() else active == old(active)
    {
      hide Settled, AllTold, WokenOnly, LeftOk;
      DropObject(o);
      CoreSched();
    }

    method DropObject(o: Oid)
      requires Inv() && o < |kind| && kind[o] == OtherObj
      modifies this`kind, this`state, this`waiters, this`blk, this`blkState, rq, tk`list
      ensures Inv() && |state| == old(|state|) && kind == old(kind)[o := NoObj]
      ensures WokenOnly(old(state), state) && AllTold(old(waiters)[o], old(state), state, blkState, [])
      ensures LeftOk(old(tk.list), tk.list, old(state), state, blkState)
    {
      hide QueuesOk, MutexOk, Chained, InheritOk, TicksOk, Counted, AllTold, WokenOnly, LeftOk;
      ghost var kind0 := kind;
      MutexDrop(state, kind, policy, owner, mutexList, waiters, o, NoObj);
      ChainHide(kind, owner, mutexList, link, o, NoObj);
      kind := kind[o := NoObj];
      assert Boosts(state, blk, kind, owner) == Boosts(state, blk, kind0, owner);
      WakeAll(o);
    }

    // ----- creation -----

    /** `krhino_mutex_create` on storage that holds no object. */
    method MutexCreate(m: Oid)
      requires Inv() && m < |kind| && kind[m] == NoObj
      modifies this`kind, this`policy, this`owner, this`link
      ensures Inv() && kind == old(kind)[m := Mutex] && owner == old(owner)[m := None]
      ensures m < old(|link|) && link == old(link)[m := None]
    {
      hide QueuesOk, MutexOk, Chained, InheritOk, TicksOk, Counted;
      SetPolicy(m, ByPri);
      Declare(m);
    }

    /** The storage becomes a free mutex. */
    method Declare(m: Oid)
      requires Inv() && m < |kind| && kind[m] == NoObj && policy[m] == ByPri
      modifies this`kind, this`owner, this`link
      ensures Inv() && kind == old(kind)[m := Mutex] && owner == old(owner)[m := None] && link == old(link)[m := None]
    {
      hide QueuesOk, MutexOk, Chained, InheritOk, TicksOk, Counted, Boosts, InPriRange;
      QueuesWait();
      MutexGive(state, kind, policy, owner, mutexList, waiters, m);
      ChainFree(kind, owner, mutexList, link, m);
      NobodyLends(state, blk, kind, kind[m := Mutex], owner, owner[m := None], waiters, m);
      owner := owner[m := None];
      link := link[m := None];
      kind := kind[m := Mutex];
    }

    method SetPolicy(o: Oid, p: Policy)
      requires Shape() && QueuesOk() && Owners(kind) && o < |kind| && kind[o] != Mutex && waiters[o] == []
      modifies this`policy
      ensures Shape() && QueuesOk() && Owners(kind) && policy == old(policy)[o := p]
    {
      hide ReadyOk, WaitOk, MutexOk, Chained;
      MutexIgnore(state, kind, policy, policy[o := p], owner, mutexList, waiters, o);
      policy := policy[o := p];
    }

    method ObjCreate(o: Oid, p: Policy)
      requires Inv() && o < |kind| && kind[o] == NoObj
      modifies this`kind, this`policy
      ensures Inv() && kind == old(kind)[o := OtherObj] && policy[o] == p
    {
      hide QueuesOk, MutexOk, Chained, InheritOk, TicksOk, Counted;
      ghost var kind0 := kind;
      SetPolicy(o, p);
      MutexDrop(state, kind, policy, owner, mutexList, waiters, o, OtherObj);
      ChainHide(kind, owner, mutexList, link, o, OtherObj);
      kind := kind[o := OtherObj];
      assert Boosts(state, blk, kind, owner) == Boosts(state, blk, kind0, owner);
    }

    /** `krhino_task_create` on storage that holds no task. */
    method TaskCreate(t: Tid, pri: nat, autorun: bool) returns (r: Status)
      requires Inv() && t < |state| && !IsLive(state[t])
      modifies this`state, this`prio, this`bprio, this`mutexList, this`blk, this`blkState, this`suspendCount, this`active, rq
      ensures Inv() && |state| == old(|state|)
      ensures r == if pri >= PRI_MAX then BeyondMaxPri else if pri == IDLE_PRI then IdleTaskExist else Success
      ensures r == Success ==>
                && state == old(state)[t := if autorun then Ready else Suspended]
                && t < |old(prio)| && prio == old(prio)[t := pri]
                && t < |old(bprio)| && bprio == old(bprio)[t := pri]
                && t < |old(mutexList)| && mutexList == old(mutexList)[t := []]
                && t < |old(suspendCount)| && suspendCount == old(suspendCount)[t := if autorun then 0 else 1]
                && t < |old(blkState)| && blkState == old(blkState)[t := BlkFinish]
                && (if autorun && schedLock == 0 then Elected() else active == old(active))
      ensures r != Success ==>
                && state == old(state) && prio == old(prio) && bprio == old(bprio) && mutexList == old(mutexList)
                && active == old(active) && suspendCount == old(suspendCount) && blkState == old(blkState)
    {
      hide Settled;
      if pri >= PRI_MAX {
        return BeyondMaxPri;
      }
      if pri == IDLE_PRI {
        return IdleTaskExist;
      }
      Spawn(t, pri, autorun);
      if autorun {
        CoreSched();
      }
      return Success;
    }

    method Spawn(t: Tid, pri: nat, autorun: bool)
      requires Inv() && t < |state| && !IsLive(state[t]) && pri < IDLE_PRI
      modifies this`state, this`prio, this`bprio, this`mutexList, this`blk, this`blkState, this`suspendCount, rq
      ensures Inv() && |state| == old(|state|)
      ensures t < |old(suspendCount)| && suspendCount == old(suspendCount)[t := if autorun then 0 else 1]
      ensures t < |old(blkState)| && blkState == old(blkState)[t := BlkFinish]
      ensures state == old(state)[t := if autorun then Ready else Suspended]
      ensures prio == old(prio)[t := pri] && bprio == old(bprio)[t := pri] && mutexList == old(mutexList)[t := []]
    {
      hide QueuesOk, MutexOk, Chained, InheritOk, TickOk, ObjectsOk, InPriRange, OnTime, Boosts, Counted;
      var s := if autorun then Ready else Suspended;
      Born(t, s, pri);
      ResetCounts(t, s);
      Enlist(t, pri, s);
      mutexList := mutexList[t := []];
    }

    /** What holds once a task has come to life. */
    lemma Born(t: Tid, s: TaskState, pri: nat)
      requires Inv() && t < |state| && !IsLive(state[t]) && (s == Ready || s == Suspended)
      ensures t != idle && TickOk(state[t := s], tk.list) && Chained(kind, owner, mutexList[t := []], link)
      ensures MutexOk(state[t := s], kind, policy, owner, mutexList[t := []], waiters)
      ensures InheritOk(state[t := s], prio[t := pri], bprio[t := pri], Boosts(state[t := s], blk[t := None], kind, owner), None)
    {
      hide QueuesOk, MutexOk, Chained, InheritOk, TickOk, ObjectsOk, InPriRange, OnTime, Boosts, Counted, ReadyOk,
           WaitOk, SortedOk;
      QueuesWait();
      Birth(state, blk, kind, policy, owner, mutexList, waiters, prio, bprio, t, s, pri);
      TickStay(state, tk.list, t, s);
      ChainBirth(kind, owner, mutexList, link, t);
    }

    method ResetCounts(t: Tid, s: TaskState)
      requires Shape() && CountsOk() && t < |state| && (s == Ready || s == Suspended)
      modifies this`suspendCount, this`blkState
      ensures Shape() && Counted(state[t := s], suspendCount)
      ensures suspendCount == old(suspendCount)[t := if s == Ready then 0 else 1] && blkState == old(blkState)[t := BlkFinish]
    {
      hide Counted, InPriRange;
      CountedNew(state, suspendCount, t, s, if s == Ready then 0 else 1);
      suspendCount := suspendCount[t := if s == Ready then 0 else 1];
      blkState := blkState[t := BlkFinish];
    }

    lemma CountedNew(state: seq<TaskState>, count: seq<nat>, t: Tid, s: TaskState, n: nat)
      requires Counted(state, count) && t < |state| && (IsSuspended(s) ==> n == 1)
      ensures Counted(state[t := s], count[t := n])
    {
    }

    method Enlist(t: Tid, pri: nat, s: TaskState)
      requires Shape() && QueuesOk() && t < |state| && !IsLive(state[t]) && pri < IDLE_PRI
      requires s == Ready || s == Suspended
      modifies this`state, this`prio, this`bprio, this`blk, rq
      ensures Shape() && QueuesOk()
      ensures state == old(state)[t := s] && prio == old(prio)[t := pri] && bprio == old(bprio)[t := pri]
      ensures blk == old(blk)[t := None]
      ensures pri < |old(rq.lists)| == |rq.lists| && (s == Ready ==> rq.lists[pri] == old(rq.lists)[pri] + [t])
    {
      hide ReadyOk, WaitOk, SortedOk, NoDup, InPriRange;
      Dress(t, pri);
      PriBound(t);
      OffWait(state, blk, waiters, t, s, blk[t]);
      assert blk[t := blk[t]] == blk;
      if s == Ready {
        ReadyBoth(state, prio, rq.lists, t);
        rq.AddTail(t, pri);
      } else {
        ReadyOther(state, prio, rq.lists, t, s);
      }
      state := state[t := s];
    }

    /** The priorities of a task that does not run yet. */
    method Dress(t: Tid, pri: nat)
      requires Shape() && QueuesOk() && t < |state| && !IsLive(state[t]) && pri < IDLE_PRI
      modifies this`prio, this`bprio, this`blk
      ensures Shape() && QueuesOk() && prio == old(prio)[t := pri] && bprio == old(bprio)[t := pri] && blk == old(blk)[t := None]
    {
      hide ReadyOk, WaitOk, SortedOk, NoDup;
      ghost var was := prio;
      Unwaited(state, blk, waiters, t);
      OffWait(state, blk, waiters, t, state[t], None);
      assert state[t := state[t]] == state;
      ReadyKeep(state, prio, rq.lists, t, pri);
      prio := prio[t := pri];
      bprio := bprio[t := pri];
      blk := blk[t := None];
      SortedKeep(was, prio, policy, waiters, t);
    }

    lemma Unwaited(state: seq<TaskState>, blk: seq<Option<Oid>>, waiters: seq<seq<Tid>>, t: Tid)
      requires WaitOk(state, blk, waiters) && t < |state| && !IsPended(state[t])
      ensures forall o :: 0 <= o < |waiters| ==> t !in waiters[o]
    {
    }

    // ----- k_tick.c -----

    /** `tick_list_update`: the longest front of the tick list that passes the expiry test is
        released. In terms of the ticks gone by, these are the timeouts that are `Ripe`. */
    method TickUpdate(ticks: nat)
      requires Inv()
      modifies this`state, this`prio, this`waiters, this`mutexList, this`link, this`blk, this`blkState, rq, tk
      ensures Inv() && |state| == old(|state|) && tk.deadline == old(tk.deadline)
      ensures tk.count == (old(tk.count) + ticks) % TICK_MOD
      ensures AllBelow(old(tk.list), |tk.deadline|) && tk.list == old(tk.list)[Front(old(tk.list), tk.deadline, tk.count)..]
      ensures forall t :: t in old(tk.list) && t !in tk.list ==> TimedOut(t, old(state), state, blkState)
      ensures forall t :: 0 <= t < |state| && !(t in old(tk.list) && t !in tk.list) ==> state[t] == old(state)[t]
      ensures tk.exact == (old(tk.exact) && ticks <= HALF_RANGE)
      ensures tk.armed == old(tk.armed) && tk.now == old(tk.now) + ticks
      ensures tk.exact ==> AllBelow(old(tk.list), |tk.armed|) && tk.list == old(tk.list)[Ripe(old(tk.list), tk.armed, tk.now)..]
    {
      hide Settled, SortedBy, Keys, Remain, OnTime, Timely, Dated, TimedOutOnly, Front, Ripe, Expired, Passes;
      ghost var exact := ticks <= HALF_RANGE && tk.exact;
      ghost var list0, count0, now0 := tk.list, tk.count, tk.now;
      TickBounds();
      if exact {
        FrontRipe(tk.list, tk.deadline, tk.count, tk.armed, tk.now, ticks);
        StillOnTime(tk.list, tk.deadline, tk.count, tk.armed, tk.now, ticks);
      }
      AdvanceTime(ticks);
      ReleaseExpired();
      TimedOutPlain(list0, tk.list, old(state), state, blkState);
      if exact {
        Sweep();
      }
    }

    /** The loop of `tick_list_update`. */
    method ReleaseExpired()
      requires Inv() && !tk.exact
      modifies this`state, this`prio, this`waiters, this`mutexList, this`link, this`blk, this`blkState, rq, tk`list
      ensures Inv() && |state| == old(|state|) && TimedOutOnly(old(tk.list), tk.list, old(state), state, blkState)
      ensures AllBelow(old(tk.list), |tk.deadline|) && tk.list == old(tk.list)[Front(old(tk.list), tk.deadline, tk.count)..]
    {
      hide Settled, SortedBy, Keys, Remain, TimedOutOnly, OnTime, Timely, Expired, Front;
      ghost var list0, p := tk.list, 0;
      TickBounds();
      TimedOutNone(list0, state, blkState);
      while tk.list != [] && Expired(tk.deadline[tk.list[0]], tk.count)
        invariant Inv() && tk.Valid() && |tk.deadline| == |state| == old(|state|)
        invariant TimedOutOnly(list0, tk.list, old(state), state, blkState)
        invariant p <= |list0| && tk.list == list0[p..] && forall i :: 0 <= i < p ==> Expired(tk.deadline[list0[i]], tk.count)
        decreases |tk.list|
      {
        HeadOff(list0, p);
        ghost var list1, state1, blkState1 := tk.list, state, blkState;
        ExpireHead();
        TimedOutStep(list0, list1, tk.list, old(state), state1, state, blkState1, blkState);
        p := p + 1;
      }
      FrontIs(list0, tk.deadline, tk.count, p);
    }

    lemma HeadOff(s: seq<nat>, p: nat)
      requires p < |s| && NoDup(s[p..])
      ensures Without(s[p..], s[p]) == s[p + 1..]
    {
      WithoutAt(s[p..], 0);
    }

    lemma TickBounds()
      requires Inv()
      ensures tk.Valid() && |tk.deadline| == |state| && AllBelow(tk.list, |tk.deadline|) && tk.count < TICK_MOD
      ensures tk.exact ==> OnTime(tk.list, tk.deadline, tk.count, tk.armed, tk.now)
    {
    }

    /** After a tick has been dealt with, nothing on the list is overdue. */
    ghost method Sweep()
      requires Inv() && OnTime(tk.list, tk.deadline, tk.count, tk.armed, tk.now)
      modifies tk`exact
      ensures Inv() && tk.exact
    {
      hide QueuesOk, MutexOk, Chained, InheritOk, ObjectsOk, Counted, OnTime;
      tk.exact := true;
    }

    method AdvanceTime(ticks: nat)
      requires Inv()
      modifies tk`count, tk`exact, tk`now
      ensures Inv() && tk.count == (old(tk.count) + ticks) % TICK_MOD && !tk.exact && tk.now == old(tk.now) + ticks
    {
      hide QueuesOk, MutexOk, Chained, InheritOk, ObjectsOk, Counted, SortedBy, Keys, Remain;
      tk.Advance(ticks);
    }

    method ExpireHead()
      requires Inv() && tk.list != []
      modifies this`state, this`prio, this`waiters, this`mutexList, this`link, this`blk, this`blkState, rq, tk`list
      ensures Inv() && |state| == old(|state|) && tk.Valid() && |tk.deadline| == |state|
      ensures tk.list == Without(old(tk.list), old(tk.list[0]))
      ensures tk.deadline == old(tk.deadline) && tk.count == old(tk.count)
      ensures var t := old(tk.list[0]);
              && t < |state| && state == old(state)[t := AfterTimeout(old(state)[t])]
              && t < |blkState| && blkState == old(blkState)[t := if old(IsPended(state[t])) then BlkTimeout else BlkFinish]
    {
      hide QueuesOk, MutexOk, Chained, InheritOk, ObjectsOk, SortedBy, Keys, NoDup, OnTime;
      var t := tk.list[0];
      QueuesWait();
      assert t in tk.list;
      var s := AfterTimeout(state[t]);
      if IsPended(state[t]) {
        GiveUpWait(t, s, BlkTimeout, None);
      } else {
        WakeSleeper(t, s);
      }
    }

    method WakeSleeper(t: Tid, s: TaskState)
      requires Inv() && t < |state| && IsSleeping(state[t]) && s == (if state[t] == Sleep then Ready else Suspended)
      modifies this`state, this`blkState, rq, tk`list
      ensures Inv() && state == old(state)[t := s] && tk.list == Without(old(tk.list), t)
      ensures t < old(|blkState|) && blkState == old(blkState)[t := BlkFinish]
    {
      hide QueuesOk, MutexOk, Chained, InheritOk, ObjectsOk, SortedBy, Keys, NoDup, OnTime, InPriRange, TickOk, Boosts,
           WokenOnly;
      QueuesWait();
      TickLeave(state, tk.list, t, s);
      blkState := blkState[t := BlkFinish];
      tk.Remove(t);
      SetState(t, s);
    }
  }
}
