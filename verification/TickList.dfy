/** The timeout list of k_tick.c. `tick_t` is 64 bits wide and wraps; the expiry test is done
    on the low 32 bits, as a signed difference. */
module TickLists {
  import opened Lists
  import opened RunQueues

  const TICK_MOD: nat := 0x1_0000_0000_0000_0000
  const INT_MOD: nat := 0x1_0000_0000
  /** The longest timeout that the 32-bit expiry test measures correctly. */
  const HALF_RANGE: nat := 0x8000_0000
  const WAIT_FOREVER: nat := TICK_MOD - 1

  /** Ticks from `count` to `deadline` on the wrapping 64-bit counter. */
  function Remain(deadline: nat, count: nat): (r: nat)
    ensures r < TICK_MOD
  {
    (deadline - count) % TICK_MOD
  }

  /** `(int)tick_match - (int)g_tick_count <= 0` */
  predicate Expired(deadline: nat, count: nat) {
    var delta := (deadline - count) % INT_MOD;
    delta == 0 || delta >= HALF_RANGE
  }

  lemma RemainLow(deadline: nat, count: nat)
    ensures Remain(deadline, count) % INT_MOD == (deadline - count) % INT_MOD
  {
    var d := deadline - count;
    var q := d / TICK_MOD;
    assert d == q * TICK_MOD + d % TICK_MOD;
    assert d == (q * INT_MOD) * INT_MOD + d % TICK_MOD;
    ModShift(d % TICK_MOD, q * INT_MOD);
  }

  lemma ModShift(x: int, k: int)
    ensures (k * INT_MOD + x) % INT_MOD == x % INT_MOD
  {
  }

  /** Up to half the 32-bit range the test is exact. */
  lemma ExpiredExact(deadline: nat, count: nat)
    requires Remain(deadline, count) < HALF_RANGE
    ensures Expired(deadline, count) <==> Remain(deadline, count) == 0
  {
    RemainLow(deadline, count);
  }

  /** What the test makes of a time left, which a tick may overshoot. */
  predicate Passes(left: int) { left % INT_MOD == 0 || left % INT_MOD >= HALF_RANGE }

  /** Just overdue times pass, short ones do not. */
  lemma PassesNear(left: int)
    requires 0 <= left + HALF_RANGE && left < HALF_RANGE
    ensures Passes(left) <==> left <= 0
  {
    if left < 0 {
      assert left % INT_MOD == left + INT_MOD;
    }
  }

  /** The test on the counters is the test on the time left. */
  lemma ExpiredLater(deadline: nat, count: nat, ticks: nat)
    ensures Expired(deadline, (count + ticks) % TICK_MOD) <==> Passes(Remain(deadline, count) - ticks)
  {
    var d, e, q := deadline - (count + ticks) % TICK_MOD, Remain(deadline, count) - ticks, TICK_MOD / INT_MOD;
    assert d - e == ((count + ticks) / TICK_MOD + (deadline - count) / TICK_MOD) * TICK_MOD;
    assert d == (((count + ticks) / TICK_MOD + (deadline - count) / TICK_MOD) * q) * INT_MOD + e;
    ModShift(e, ((count + ticks) / TICK_MOD + (deadline - count) / TICK_MOD) * q);
  }

  /** Does a timeout of `n` ticks pass the test `k` ticks after it was armed? */
  predicate PassesAfter(n: nat, k: nat) { Passes(n - k) }

  /** The tick on which a timeout of `n` ticks first passes the test: its last one, unless it is
      beyond half the range. */
  function FirstPass(n: nat): (k: nat)
    requires 0 < n
    ensures 0 < k <= n && PassesAfter(n, k) && forall j :: 0 < j < k ==> !PassesAfter(n, j)
    ensures k == n <==> n <= HALF_RANGE
  {
    var r := (n - 1) % INT_MOD;
    FirstPassOk(n);
    if r >= HALF_RANGE then 1 else r + 1
  }

  lemma FirstPassOk(n: nat)
    requires 0 < n
    ensures
      var r := (n - 1) % INT_MOD;
      var k := if r >= HALF_RANGE then 1 else r + 1;
      PassesAfter(n, k) && forall j :: 0 < j < k ==> !PassesAfter(n, j)
  {
    var q, r := (n - 1) / INT_MOD, (n - 1) % INT_MOD;
    if r < HALF_RANGE {
      ModShift(0, q);
      forall j | 0 < j < r + 1 ensures !PassesAfter(n, j) {
        assert n - j == q * INT_MOD + (r + 1 - j);
        ModShift(r + 1 - j, q);
      }
    }
  }

  /** A timeout passes the test on its last tick, and before that iff it is beyond half the range. */
  lemma EarlyIff(n: nat)
    requires 0 < n
    ensures PassesAfter(n, n)
    ensures (exists k :: 0 < k < n && PassesAfter(n, k)) <==> n > HALF_RANGE
  {
    var k := FirstPass(n);
  }

  /** The counter value `time` ticks ahead. */
  function DueAt(count: nat, time: nat): nat { (count + time) % TICK_MOD }

  lemma RemainArm(count: nat, time: nat)
    requires count < TICK_MOD && 0 < time < TICK_MOD
    ensures Remain(DueAt(count, time), count) == time
  {
  }

  /** Ticks take as many off the remaining time, also where the counter wraps. */
  lemma RemainAhead(deadline: nat, count: nat, ticks: nat)
    requires count < TICK_MOD && ticks < Remain(deadline, count)
    ensures Remain(deadline, (count + ticks) % TICK_MOD) == Remain(deadline, count) - ticks
  {
    var d, e := deadline - (count + ticks) % TICK_MOD, Remain(deadline, count) - ticks;
    assert d - e == ((count + ticks) / TICK_MOD + (deadline - count) / TICK_MOD) * TICK_MOD;
  }

  ghost function Keys(deadline: seq<nat>, count: nat): (k: seq<nat>)
    ensures |k| == |deadline|
    ensures forall t :: 0 <= t < |k| ==> k[t] == Remain(deadline[t], count)
  {
    seq(|deadline|, t requires 0 <= t < |deadline| => Remain(deadline[t], count))
  }

  /** How many entries at the front of the list pass the test. */
  function Front(list: seq<Tid>, deadline: seq<nat>, count: nat): (p: nat)
    requires AllBelow(list, |deadline|)
    ensures p <= |list| && (forall i :: 0 <= i < p ==> Expired(deadline[list[i]], count))
    ensures p < |list| ==> !Expired(deadline[list[p]], count)
  {
    if list == [] || !Expired(deadline[list[0]], count) then 0 else 1 + Front(list[1..], deadline, count)
  }

  lemma FrontIs(list: seq<Tid>, deadline: seq<nat>, count: nat, p: nat)
    requires AllBelow(list, |deadline|) && p <= |list| && (forall i :: 0 <= i < p ==> Expired(deadline[list[i]], count))
    requires p < |list| ==> !Expired(deadline[list[p]], count)
    ensures p == Front(list, deadline, count)
  {
  }

  /** Sorted by remaining time, nothing overdue. */
  ghost predicate Timely(list: seq<Tid>, deadline: seq<nat>, count: nat) {
    && AllBelow(list, |deadline|)
    && SortedBy(Keys(deadline, count), list)
    && forall t :: t in list ==> 0 < Remain(deadline[t], count)
  }

  /** When a timeout was armed, on a counter that never wraps, and for how many ticks. */
  datatype Arm = Arm(at: nat, span: nat)

  /** What is left of each timeout is its span less the ticks since it was armed. */
  ghost predicate Dated(list: seq<Tid>, deadline: seq<nat>, count: nat, armed: seq<Arm>, now: nat) {
    && |armed| == |deadline|
    && forall t :: t in list ==>
         t < |deadline| && armed[t].at <= now && armed[t].at + armed[t].span == now + Remain(deadline[t], count)
  }

  /** Nothing is overdue, and what is left of each timeout is its span less the ticks since it was armed. */
  ghost predicate OnTime(list: seq<Tid>, deadline: seq<nat>, count: nat, armed: seq<Arm>, now: nat) {
    Timely(list, deadline, count) && Dated(list, deadline, count, armed, now)
  }

  /** Only the timeout of `t` has been armed, with `time` ticks. */
  ghost predicate Armed(list: seq<Tid>, deadline: seq<nat>, armed: seq<Arm>,
                        list': seq<Tid>, deadline': seq<nat>, armed': seq<Arm>,
                        count: nat, now: nat, t: Tid, time: nat) {
    && t < |deadline| == |deadline'| && t < |armed|
    && deadline' == deadline[t := deadline'[t]] && Remain(deadline'[t], count) == time
    && armed' == armed[t := Arm(now, time)]
    && forall u :: u in list' <==> u in list || u == t
  }

  /** The same for a wait, where 0 and forever arm nothing. */
  ghost predicate ArmedIfAny(list: seq<Tid>, deadline: seq<nat>, armed: seq<Arm>,
                             list': seq<Tid>, deadline': seq<nat>, armed': seq<Arm>,
                             count: nat, now: nat, t: Tid, ticks: nat) {
    if 0 < ticks < WAIT_FOREVER then Armed(list, deadline, armed, list', deadline', armed', count, now, t, ticks)
    else list' == list && deadline' == deadline && armed' == armed
  }

  lemma JustArmed(list: seq<Tid>, deadline: seq<nat>, armed: seq<Arm>, list': seq<Tid>, deadline': seq<nat>,
                  count: nat, now: nat, t: Tid, time: nat)
    requires t < |deadline| == |armed| == |deadline'| && deadline' == deadline[t := deadline'[t]]
    requires Remain(deadline'[t], count) == time && forall u :: u in list' <==> u in list || u == t
    ensures Armed(list, deadline, armed, list', deadline', armed[t := Arm(now, time)], count, now, t, time)
  {
  }

  // ----- what a tick does to the list -----

  /** When the timeout of `t` ends. */
  function End(armed: seq<Arm>, t: Tid): nat
    requires t < |armed|
  {
    armed[t].at + armed[t].span
  }

  ghost predicate SortedByEnd(list: seq<Tid>, armed: seq<Arm>)
    requires AllBelow(list, |armed|)
  {
    forall i, j :: 0 <= i < j < |list| ==> End(armed, list[i]) <= End(armed, list[j])
  }

  lemma {:induction false} SortedEnds(list: seq<Tid>, deadline: seq<nat>, count: nat, armed: seq<Arm>, now: nat)
    requires AllBelow(list, |deadline|) && SortedBy(Keys(deadline, count), list) && Dated(list, deadline, count, armed, now)
    ensures SortedByEnd(list, armed)
  {
    hide Remain;
    if list != [] {
      assert forall u :: u in list[1..] ==> u in list;
      SortedEnds(list[1..], deadline, count, armed, now);
      forall i, j | 0 <= i < j < |list| ensures End(armed, list[i]) <= End(armed, list[j]) {
        assert list[i] in list && list[j] in list;
        if i > 0 {
          assert list[1..][i - 1] == list[i] && list[1..][j - 1] == list[j];
        }
      }
    }
  }

  lemma {:induction false} EndsSorted(list: seq<Tid>, deadline: seq<nat>, count: nat, armed: seq<Arm>, now: nat)
    requires AllBelow(list, |deadline|) && Dated(list, deadline, count, armed, now) && SortedByEnd(list, armed)
    ensures SortedBy(Keys(deadline, count), list)
  {
    hide Remain;
    if list != [] {
      forall u | u in list ensures Keys(deadline, count)[list[0]] <= Keys(deadline, count)[u] {
        var i :| 0 <= i < |list| && list[i] == u;
        assert list[0] in list;
      }
      EndsSorted(list[1..], deadline, count, armed, now);
    }
  }

  lemma TestAgrees(list: seq<Tid>, deadline: seq<nat>, count: nat, armed: seq<Arm>, now: nat, ticks: nat, t: Tid)
    requires OnTime(list, deadline, count, armed, now) && t in list && ticks <= HALF_RANGE
    ensures t < |deadline| == |armed| && End(armed, t) + HALF_RANGE > now + ticks
    ensures Expired(deadline[t], (count + ticks) % TICK_MOD) <==> Passes(End(armed, t) - now - ticks)
  {
    hide Remain, Expired, Passes, Keys, SortedBy;
    ExpiredLater(deadline[t], count, ticks);
  }

  /** The front that passes the test is the front of ripe timeouts. */
  lemma FrontRipe(list: seq<Tid>, deadline: seq<nat>, count: nat, armed: seq<Arm>, now: nat, ticks: nat)
    requires OnTime(list, deadline, count, armed, now) && ticks <= HALF_RANGE
    ensures AllBelow(list, |armed|) && |armed| == |deadline|
    ensures Front(list, deadline, (count + ticks) % TICK_MOD) == Ripe(list, armed, now + ticks)
  {
    hide Remain, Expired, Passes, Keys, SortedBy;
    var p := Front(list, deadline, (count + ticks) % TICK_MOD);
    forall i | 0 <= i < |list| && i <= p
      ensures Expired(deadline[list[i]], (count + ticks) % TICK_MOD) <==> Passes(End(armed, list[i]) - (now + ticks))
    {
      TestAgrees(list, deadline, count, armed, now, ticks, list[i]);
    }
    RipeIs(list, armed, now + ticks, p);
  }

  /** Behind the ripe front nothing is overdue. */
  lemma BehindFront(list: seq<Tid>, armed: seq<Arm>, now: nat, i: nat)
    requires AllBelow(list, |armed|) && SortedByEnd(list, armed) && Ripe(list, armed, now) <= i < |list|
    requires forall j :: 0 <= j < |list| ==> End(armed, list[j]) + HALF_RANGE > now
    ensures End(armed, list[i]) > now
  {
    hide Passes;
    var p := Ripe(list, armed, now);
    assert End(armed, list[p]) <= End(armed, list[i]);
    if End(armed, list[p]) <= now {
      PassesNear(End(armed, list[p]) - now);
    }
  }

  lemma StaysDated(list: seq<Tid>, deadline: seq<nat>, count: nat, armed: seq<Arm>, now: nat, ticks: nat, i: nat)
    requires OnTime(list, deadline, count, armed, now) && count < TICK_MOD && ticks <= HALF_RANGE && AllBelow(list, |armed|)
    requires SortedByEnd(list, armed) && Ripe(list, armed, now + ticks) <= i < |list|
    ensures list[i] < |deadline| && End(armed, list[i]) > now + ticks
    ensures Remain(deadline[list[i]], (count + ticks) % TICK_MOD) == End(armed, list[i]) - now - ticks
  {
    hide Remain, Expired, Passes, Keys, SortedBy, Ripe;
    forall j | 0 <= j < |list| ensures End(armed, list[j]) + HALF_RANGE > now + ticks {
      TestAgrees(list, deadline, count, armed, now, ticks, list[j]);
    }
    BehindFront(list, armed, now + ticks, i);
    assert list[i] in list;
    RemainAhead(deadline[list[i]], count, ticks);
  }

  /** A tick or a jump that takes the ripe front off the list leaves the rest on time. */
  lemma StillOnTime(list: seq<Tid>, deadline: seq<nat>, count: nat, armed: seq<Arm>, now: nat, ticks: nat)
    requires OnTime(list, deadline, count, armed, now) && count < TICK_MOD && ticks <= HALF_RANGE
    ensures AllBelow(list, |armed|)
    ensures OnTime(list[Ripe(list, armed, now + ticks)..], deadline, (count + ticks) % TICK_MOD, armed, now + ticks)
  {
    hide Remain, Expired, Passes, Keys, SortedBy, Ripe, SortedByEnd;
    SortedEnds(list, deadline, count, armed, now);
    var rest := list[Ripe(list, armed, now + ticks)..];
    forall t | t in rest
      ensures t in list && End(armed, t) > now + ticks
      ensures Remain(deadline[t], (count + ticks) % TICK_MOD) == End(armed, t) - now - ticks
    {
      var i :| Ripe(list, armed, now + ticks) <= i < |list| && list[i] == t;
      StaysDated(list, deadline, count, armed, now, ticks, i);
    }
    TailSorted(list, armed, Ripe(list, armed, now + ticks));
    EndsSorted(rest, deadline, (count + ticks) % TICK_MOD, armed, now + ticks);
  }

  lemma TailSorted(list: seq<Tid>, armed: seq<Arm>, p: nat)
    requires AllBelow(list, |armed|) && SortedByEnd(list, armed) && p <= |list|
    ensures SortedByEnd(list[p..], armed)
  {
  }

  /** How many entries at the front of the list have a time left that passes the test. */
  function Ripe(list: seq<Tid>, armed: seq<Arm>, now: nat): (p: nat)
    requires AllBelow(list, |armed|)
    ensures p <= |list| && (forall i :: 0 <= i < p ==> Passes(End(armed, list[i]) - now))
    ensures p < |list| ==> !Passes(End(armed, list[p]) - now)
  {
    if list == [] || !Passes(End(armed, list[0]) - now) then 0 else 1 + Ripe(list[1..], armed, now)
  }

  lemma RipeIs(list: seq<Tid>, armed: seq<Arm>, now: nat, p: nat)
    requires AllBelow(list, |armed|) && p <= |list| && (forall i :: 0 <= i < p ==> Passes(End(armed, list[i]) - now))
    requires p < |list| ==> !Passes(End(armed, list[p]) - now)
    ensures p == Ripe(list, armed, now)
  {
  }

  lemma OnTimeRemove(list: seq<Tid>, list': seq<Tid>, deadline: seq<nat>, count: nat, armed: seq<Arm>, now: nat)
    requires OnTime(list, deadline, count, armed, now) && AllBelow(list', |deadline|)
    requires SortedBy(Keys(deadline, count), list') && forall t :: t in list' ==> t in list
    ensures OnTime(list', deadline, count, armed, now)
  {
  }

  lemma OnTimeSorted(list: seq<Tid>, deadline: seq<nat>, count: nat, armed: seq<Arm>, now: nat)
    requires OnTime(list, deadline, count, armed, now)
    ensures SortedBy(Keys(deadline, count), list)
  {
  }

  lemma OnTimeInsert(list: seq<Tid>, deadline: seq<nat>, deadline': seq<nat>, count: nat, armed: seq<Arm>, now: nat, t: Tid)
    requires OnTime(list, deadline, count, armed, now) && t < |deadline| && t !in list
    requires |deadline'| == |deadline| && deadline' == deadline[t := deadline'[t]]
    requires 0 < Remain(deadline'[t], count)
    ensures AllBelow(list, |deadline'|)
    ensures
      var list' := InsertByKey(Keys(deadline', count), list, t);
      OnTime(list', deadline', count, armed[t := Arm(now, Remain(deadline'[t], count))], now)
  {
    InsertTimely(list, deadline, deadline', count, t);
  }

  lemma InsertTimely(list: seq<Tid>, deadline: seq<nat>, deadline': seq<nat>, count: nat, t: Tid)
    requires Timely(list, deadline, count) && t < |deadline| && t !in list
    requires |deadline'| == |deadline| && deadline' == deadline[t := deadline'[t]]
    requires 0 < Remain(deadline'[t], count)
    ensures AllBelow(list, |deadline'|)
    ensures Timely(InsertByKey(Keys(deadline', count), list, t), deadline', count)
  {
    SortedFrame(Keys(deadline, count), Keys(deadline', count), list);
    InsertSorted(Keys(deadline', count), list, t);
  }

  class TickList {
    var list: seq<Tid>
    var deadline: seq<nat>
    var count: nat
    /** Time has gone by in ticks, or in jumps of no more than half the 32-bit range. */
    ghost var exact: bool
    /** Ticks since the start, and the last timeout of each task. */
    ghost var now: nat
    ghost var armed: seq<Arm>

    ghost predicate Valid()
      reads this
    {
      && NoDup(list) && AllBelow(list, |deadline|) && count < TICK_MOD && |armed| == |deadline|
      && (exact ==> OnTime(list, deadline, count, armed, now))
    }

    constructor (tasks: nat)
      ensures Valid() && list == [] && |deadline| == tasks && exact && count == 0 && now == 0
    {
      list := [];
      deadline := seq(tasks, _ => 0);
      count := 0;
      exact, now, armed := true, 0, seq(tasks, _ => Arm(0, 0));
    }

    /** `tick_list_insert`; the sorted insertion is `tick_list_pri_insert`. */
    method Insert(t: Tid, time: nat)
      requires Valid() && t < |deadline| && t !in list && time < TICK_MOD
      modifies this`list, this`deadline, this`armed
      ensures Valid() && |deadline| == old(|deadline|)
      ensures time == 0 ==> list == old(list) && deadline == old(deadline) && armed == old(armed)
      ensures time > 0 ==> Armed(old(list), old(deadline), old(armed), list, deadline, armed, count, now, t, time)
      ensures time > 0 ==>
                && deadline == old(deadline)[t := DueAt(count, time)]
                && Remain(deadline[t], count) == time
                && list == InsertByKey(Keys(deadline, count), old(list), t)
                && (forall u :: u in list <==> u in old(list) || u == t)
    {
      if time > 0 {
        hide Remain, OnTime, NoDup, InsertByKey, DueAt, Keys, Armed;
        ghost var list0, deadline0 := list, deadline;
        Place(t, time);
        if exact {
          OnTimeInsert(list0, deadline0, deadline, count, armed, now, t);
        }
        JustArmed(list0, deadline0, armed, list, deadline, count, now, t, time);
        armed := armed[t := Arm(now, time)];
      }
    }

    /** The sorted insertion. */
    method Place(t: Tid, time: nat)
      requires NoDup(list) && AllBelow(list, |deadline|) && count < TICK_MOD
      requires t < |deadline| && t !in list && 0 < time < TICK_MOD
      modifies this`list, this`deadline
      ensures NoDup(list) && AllBelow(list, |deadline|) && |deadline| == old(|deadline|)
      ensures deadline == old(deadline)[t := DueAt(count, time)] && Remain(deadline[t], count) == time
      ensures AllBelow(old(list), |deadline|) && list == InsertByKey(Keys(deadline, count), old(list), t)
      ensures forall u :: u in list <==> u in old(list) || u == t
    {
      hide Remain, NoDup, DueAt;
      deadline := deadline[t := DueAt(count, time)];
      RemainArm(count, time);
      var q := FindPlace(time);
      InsertAt(Keys(deadline, count), list, t, q);
      InsertNoDup(Keys(deadline, count), list, t);
      list := list[..q] + [t] + list[q..];
    }

    /** The search loop of `tick_list_pri_insert`. */
    method FindPlace(time: nat) returns (q: nat)
      requires AllBelow(list, |deadline|)
      ensures q <= |list|
      ensures forall j :: 0 <= j < q ==> Remain(deadline[list[j]], count) <= time
      ensures q < |list| ==> Remain(deadline[list[q]], count) > time
    {
      q := 0;
      while q < |list|
        invariant q <= |list|
        invariant forall j :: 0 <= j < q ==> Remain(deadline[list[j]], count) <= time
      {
        if Remain(deadline[list[q]], count) > time {
          break;
        }
        q := q + 1;
      }
    }

    /** `tick_list_rm` */
    method Remove(t: Tid)
      requires Valid()
      modifies this`list
      ensures Valid() && list == Without(old(list), t)
      ensures SortedBy(Keys(deadline, count), old(list)) ==> SortedBy(Keys(deadline, count), list)
    {
      hide NoDup, Remain, OnTime, Keys;
      if SortedBy(Keys(deadline, count), list) {
        WithoutSorted(Keys(deadline, count), list, t);
      }
      WithoutBelow(list, t, |deadline|);
      if exact {
        OnTimeSorted(list, deadline, count, armed, now);
        WithoutSorted(Keys(deadline, count), list, t);
        OnTimeRemove(list, Without(list, t), deadline, count, armed, now);
      }
      list := Without(list, t);
    }

    lemma WithoutBelow(s: seq<nat>, x: nat, n: nat)
      requires AllBelow(s, n)
      ensures AllBelow(Without(s, x), n)
    {
      var r := Without(s, x);
      assert forall i :: 0 <= i < |r| ==> r[i] in r;
    }

    /** The counter moves on. */
    method Advance(ticks: nat)
      requires Valid()
      modifies this`count, this`exact, this`now
      ensures Valid() && count == (old(count) + ticks) % TICK_MOD && !exact && now == old(now) + ticks
    {
      count := (count + ticks) % TICK_MOD;
      exact := false;
      now := now + ticks;
    }
  }
}
