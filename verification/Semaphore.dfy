/** Counting semaphores of k_sem.c. Waiters are a list in the order of the blocking policy; where
    a task enters it, or moves when its priority changes, is left open. */
module Semaphores {
  type Tid = nat

  const COUNT_MAX: nat := 0xFFFF_FFFF

  datatype Result = Granted | Pended | NoPendWait | SchedDisabled | Overflow | TaskWaiting | Done

  /** One kernel step that touches the semaphore; `Leave` is a timeout, an abort or a deletion. */
  datatype Step =
    | Take(t: Tid, wait: bool, schedLocked: bool, at: nat)
    | Give(all: bool)
    | SetCount(n: nat)
    | Leave(t: Tid)
    | Reorder(t: Tid, at: nat)

  function Drop(s: seq<Tid>, t: Tid): (r: seq<Tid>)
    ensures |r| <= |s| && (s == [] ==> r == [])
    ensures |r| == |s| ==> r == s
    ensures t !in s ==> r == s
  {
    assert s != [] ==> s == [s[0]] + s[1..];
    if s == [] then [] else if s[0] == t then s[1..] else [s[0]] + Drop(s[1..], t)
  }

  function InsertAt(s: seq<Tid>, t: Tid, at: nat): (r: seq<Tid>)
    ensures r == s[..if at < |s| then at else |s|] + [t] + s[if at < |s| then at else |s|..]
  {
    if at < |s| then s[..at] + [t] + s[at..] else s + [t]
  }

  class Semaphore {
    var count: nat
    var peak: nat
    var waiters: seq<Tid>
    /** Units put in (initially, by gives, by resets) and units handed out to takers. */
    ghost var supplied: int
    ghost var granted: seq<Tid>

    /** No lost wakeup, and conservation of units. */
    ghost predicate Inv()
      reads this
    {
      && (count > 0 ==> waiters == [])
      && count <= peak <= COUNT_MAX
      && supplied == count + |granted|
    }

    /** `sem_create` */
    constructor (n: nat)
      requires n <= COUNT_MAX
      ensures Inv() && count == n && waiters == [] && supplied == n && granted == []
    {
      count, peak, waiters := n, n, [];
      supplied, granted := n, [];
    }

    /** `sem_give` */
    method GiveSem(all: bool) returns (r: Result)
      requires Inv()
      modifies this
      ensures Inv()
      ensures r == if old(waiters) == [] && old(count) == COUNT_MAX then Overflow else Done
      ensures r == Overflow ==> count == old(count) && waiters == [] && supplied == old(supplied) && granted == old(granted)
      ensures r == Done && old(waiters) == [] ==>
                count == old(count) + 1 && waiters == [] && supplied == old(supplied) + 1 && granted == old(granted)
      ensures old(waiters) != [] ==>
                var n := if all then |old(waiters)| else 1;
                && count == 0 && granted == old(granted) + old(waiters)[..n] && waiters == old(waiters)[n..]
                && supplied == old(supplied) + n
      ensures peak == if count > old(peak) then count else old(peak)
    {
      if waiters == [] {
        if count == COUNT_MAX {
          return Overflow;
        }
        count := count + 1;
        if count > peak {
          peak := count;
        }
        supplied := supplied + 1;
        return Done;
      }
      if all {
        ghost var w, g, s := waiters, granted, supplied;
        while waiters != []
          invariant |waiters| <= |w| && waiters == w[|w| - |waiters|..] && count == 0 && count <= peak <= COUNT_MAX
          invariant granted == g + w[..|w| - |waiters|] && supplied == s + |w| - |waiters|
          invariant Inv() && peak == old(peak)
          decreases |waiters|
        {
          ghost var k := |w| - |waiters|;
          assert w[..k + 1] == w[..k] + [w[k]];
          WakeFirst();
        }
      } else {
        WakeFirst();
      }
      return Done;
    }

    /** `pend_task_wakeup` of the first waiter: it is given a unit. */
    method WakeFirst()
      requires Inv() && waiters != []
      modifies this`waiters, this`granted, this`supplied
      ensures Inv() && waiters == old(waiters)[1..]
      ensures granted == old(granted) + [old(waiters)[0]] && supplied == old(supplied) + 1
    {
      granted, supplied := granted + [waiters[0]], supplied + 1;
      waiters := waiters[1..];
    }

    /** `krhino_sem_take`, up to the point where the caller blocks. */
    method TakeSem(t: Tid, wait: bool, schedLocked: bool, at: nat) returns (r: Result)
      requires Inv()
      modifies this
      ensures Inv() && supplied == old(supplied)
      ensures r == if old(count) > 0 then Granted else if !wait then NoPendWait else if schedLocked then SchedDisabled else Pended
      ensures granted == if r == Granted then old(granted) + [t] else old(granted)
      ensures count == if r == Granted then old(count) - 1 else old(count)
      ensures peak == old(peak) && (r != Pended ==> waiters == old(waiters))
      ensures r == Pended ==>
                var i := if at < old(|waiters|) then at else old(|waiters|);
                waiters == old(waiters)[..i] + [t] + old(waiters)[i..]
    {
      if count > 0 {
        count, granted := count - 1, granted + [t];
        return Granted;
      }
      if !wait {
        return NoPendWait;
      }
      if schedLocked {
        return SchedDisabled;
      }
      waiters := InsertAt(waiters, t, at);
      return Pended;
    }

    /** `krhino_sem_count_set`: refused while tasks wait, even for a count of zero. */
    method CountSet(n: nat) returns (r: Result)
      requires Inv() && n <= COUNT_MAX
      modifies this
      ensures Inv() && waiters == old(waiters) && granted == old(granted)
      ensures r == if old(waiters) != [] then TaskWaiting else Done
      ensures count == if r == Done then n else old(count)
      ensures supplied - old(supplied) == count - old(count)
      ensures peak == if count > old(peak) then count else old(peak)
    {
      if count > 0 {
        supplied := supplied + n - count;
        count := n;
      } else {
        if waiters == [] {
          supplied := supplied + n;
          count := n;
        } else {
          return TaskWaiting;
        }
      }
      if count > peak {
        peak := count;
      }
      return Done;
    }

    method Perform(s: Step)
      requires Inv() && (s.SetCount? ==> s.n <= COUNT_MAX)
      modifies this
      ensures Inv()
      ensures !s.Give? && !s.SetCount? ==> supplied == old(supplied)
      ensures s.Give? && !s.all ==> supplied == old(supplied) + if old(count) == COUNT_MAX then 0 else 1
    {
      match s {
        case Take(t, wait, locked, at) => var _ := TakeSem(t, wait, locked, at);
        case Give(all) => var _ := GiveSem(all);
        case SetCount(n) => var _ := CountSet(n);
        case Leave(t) => waiters := Drop(waiters, t);
        case Reorder(t, at) =>
          if t in waiters {
            waiters := InsertAt(Drop(waiters, t), t, at);
          }
      }
    }

    /** Over any run a positive count never meets a waiter. If units only come from single gives,
        initial count plus successful gives equals final count plus takes granted. */
    method Run(steps: seq<Step>) returns (ghost gives: nat)
      requires Inv() && forall i :: 0 <= i < |steps| && steps[i].SetCount? ==> steps[i].n <= COUNT_MAX
      modifies this
      ensures Inv() && (count > 0 ==> waiters == []) && gives <= |steps|
      ensures (forall i :: 0 <= i < |steps| ==> !steps[i].SetCount? && (steps[i].Give? ==> !steps[i].all)) ==>
                old(count) + gives == count + |granted| - old(|granted|)
    {
      gives := 0;
      ghost var single := forall i :: 0 <= i < |steps| ==> !steps[i].SetCount? && (steps[i].Give? ==> !steps[i].all);
      for k := 0 to |steps|
        invariant Inv() && gives <= k
        invariant single ==> supplied == old(supplied) + gives
      {
        if steps[k].Give? && count < COUNT_MAX {
          gives := gives + 1;
        }
        Perform(steps[k]);
      }
    }
  }
}
