/** The ready queue of k_sched.c: one circular list per priority (kept as a sequence that
    starts at `cur_list_item`), a bitmap of non-empty lists, and the cached `highest_pri`. */
module RunQueues {
  import opened Lists

  /** RHINO_CONFIG_PRI_MAX and RHINO_IDLE_PRI; a smaller number is a higher priority. */
  const PRI_MAX: nat := 62
  const IDLE_PRI: nat := 61

  type Tid = nat

  class RunQueue {
    var lists: seq<seq<Tid>>
    var bits: seq<bool>
    var highest: nat

    ghost predicate Valid()
      reads this
    {
      && |lists| == PRI_MAX
      && |bits| == PRI_MAX
      && (forall p :: 0 <= p < PRI_MAX ==> (bits[p] <==> lists[p] != []))
      && highest <= PRI_MAX
      && (forall p :: 0 <= p < PRI_MAX && lists[p] != [] ==> highest <= p)
      && (highest < PRI_MAX ==> lists[highest] != [])
    }

    constructor ()
      ensures Valid()
      ensures lists == seq(PRI_MAX, _ => [])
    {
      highest := PRI_MAX;
      lists := seq(PRI_MAX, _ => []);
      bits := seq(PRI_MAX, _ => false);
    }

    /** The first task of an empty list: `ready_list_init`. */
    method InitList(t: Tid, p: nat)
      requires Valid() && p < PRI_MAX && lists[p] == []
      modifies this
      ensures Valid()
      ensures lists == old(lists)[p := [t]]
    {
      lists := lists[p := [t]];
      bits := bits[p := true];
      if p < highest {
        highest := p;
      }
    }

    method AddTail(t: Tid, p: nat)
      requires Valid() && p < PRI_MAX
      modifies this
      ensures Valid()
      ensures lists == old(lists)[p := old(lists)[p] + [t]]
    {
      if lists[p] == [] {
        assert lists[p] + [t] == [t];
        InitList(t, p);
      } else {
        lists := lists[p := lists[p] + [t]];
      }
    }

    method AddHead(t: Tid, p: nat)
      requires Valid() && p < PRI_MAX
      modifies this
      ensures Valid()
      ensures lists == old(lists)[p := [t] + old(lists)[p]]
    {
      if lists[p] == [] {
        assert [t] + lists[p] == [t];
        InitList(t, p);
      } else {
        lists := lists[p := [t] + lists[p]];
      }
    }

    /** `krhino_find_first_bit`: reads past the bitmap unless some bit is set. */
    method FindFirstBit(ghost some: nat) returns (p: nat)
      requires some < |bits| && bits[some]
      ensures p < |bits| && bits[p]
      ensures forall q :: 0 <= q < p ==> !bits[q]
    {
      p := 0;
      while !bits[p]
        invariant p <= some
        invariant forall q :: 0 <= q < p ==> !bits[q]
        decreases some - p
      {
        p := p + 1;
      }
    }

    /** `ready_list_rm`. `keep` stands for the idle task, which is always ready: without
        another ready task the bitmap search would run off its end. */
    method Remove(t: Tid, p: nat, ghost keep: Tid, ghost k: nat)
      requires Valid() && p < PRI_MAX && k < PRI_MAX
      requires t in lists[p] && keep in lists[k] && keep != t
      requires NoDup(lists[p])
      modifies this
      ensures Valid()
      ensures lists == old(lists)[p := Without(old(lists)[p], t)]
    {
      if |lists[p]| != 1 {
        assert exists u :: u in lists[p] && u != t by {
          assert lists[p][1] in lists[p][1..];
          assert lists[p][0] in lists[p] && lists[p][1] in lists[p];
        }
        lists := lists[p := Without(lists[p], t)];
        return;
      }
      assert Without(lists[p], t) == [];
      lists := lists[p := []];
      bits := bits[p := false];
      if p != highest {
        return;
      }
      assert bits[k];
      highest := FindFirstBit(k);
    }

    /** `ready_list_head_to_tail`: the list's start pointer moves one node on. */
    method HeadToTail(p: nat)
      requires Valid() && p < PRI_MAX && lists[p] != []
      modifies this
      ensures Valid()
      ensures lists == old(lists)[p := old(lists)[p][1..] + [old(lists)[p][0]]]
      ensures forall t :: t in lists[p] <==> t in old(lists[p])
    {
      ghost var s := lists[p];
      lists := lists[p := lists[p][1..] + [lists[p][0]]];
      assert s == [s[0]] + s[1..];
    }

    /** `preferred_cpu_ready_task_get` on one core: the result heads the list of the least
        non-empty priority, so no ready task is more urgent. */
    method Preferred(ghost keep: Tid, ghost k: nat) returns (t: Tid)
      requires Valid() && k < PRI_MAX && keep in lists[k]
      ensures highest < PRI_MAX && lists[highest] != [] && t == lists[highest][0]
      ensures forall p, u {:trigger u in lists[p]} :: 0 <= p < PRI_MAX && u in lists[p] ==> highest <= p
    {
      t := lists[highest][0];
    }
  }
}
