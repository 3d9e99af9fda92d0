/** The list of unconfirmed messages in genie_transport.c, as atomic steps: send, acknowledgement and
    retransmission timer. */
module SendLists {
  /** `CONFIG_VENDOR_SEND_MSG_MAX` and `VENDOR_MODEL_MSG_MAX_RETRY_TIMES` */
  const LIST_MAX: nat := 8
  const RETRY_MAX: nat := 45
  const TID_MIN: nat := 0x80
  const TID_MAX: nat := 0xBF

  datatype Op = SetAck | StatusOp | Indicate | IndicateTg | TransMsg | TransIndicate | UnknownOp

  datatype Verdict = Acked | TimedOut

  /** A queued message; `id` tells messages apart that carry the same transaction id. */
  datatype Node = Node(id: nat, tid: nat, retry: nat, left: nat, timeout: int, period: nat)

  /** What has happened to a message: how often it may be sent again, how often it was sent, and what
      its sender was told. */
  datatype Record = Record(retry: nat, sent: nat, verdicts: seq<Verdict>)

  /** `genie_transport_gen_tid`: the stored value and the transaction id. The stored value starts at
      `TID_MAX`, which makes the first one random. */
  function GenTid(stored: nat, random: nat): (r: (nat, nat))
    ensures r.0 < 64 && r.1 == r.0 + TID_MIN && TID_MIN <= r.1 <= TID_MAX
  {
    var next := if stored == TID_MAX then random % 64 else (stored + 1) % 64;
    (next, next + TID_MIN)
  }

  /** The stored value after `n` more generations. */
  function Later(stored: nat, n: nat): nat { if n == 0 then stored else GenTid(Later(stored, n - 1), 0).0 }

  lemma {:induction false} LaterIs(stored: nat, n: nat)
    requires stored < 64
    ensures Later(stored, n) == (stored + n) % 64
  {
    if n > 0 {
      LaterIs(stored, n - 1);
      Next64(stored + n - 1);
    }
  }

  lemma Next64(x: nat)
    ensures (x % 64 + 1) % 64 == (x + 1) % 64
  {
  }

  lemma TidLater(stored: nat, n: nat)
    requires stored < 64
    ensures GenTid(Later(stored, n), 0).1 == TID_MIN + (stored + n + 1) % 64
  {
    LaterIs(stored, n);
    hide Later;
    Next64(stored + n);
  }

  /** Sixty-four transaction ids in a row are all different. */
  lemma TidsDiffer(stored: nat, i: nat, j: nat)
    requires stored < 64 && i < j < i + 64
    ensures GenTid(Later(stored, i), 0).1 != GenTid(Later(stored, j), 0).1
  {
    hide Later, GenTid;
    TidLater(stored, i);
    TidLater(stored, j);
    Mod64(stored + i + 1, j - i);
  }

  lemma Mod64(x: nat, d: nat)
    requires 0 < d < 64
    ensures x % 64 != (x + d) % 64
  {
  }

  /** Distinct transaction ids and distinct messages. */
  ghost predicate Distinct(list: seq<Node>) {
    forall i, j :: 0 <= i < j < |list| ==> list[i].tid != list[j].tid && list[i].id != list[j].id
  }

  /** A queued message has been sent once, plus once for each retry used, and has no verdict yet. */
  ghost predicate Queued(n: Node, log: seq<Record>) {
    && n.id < |log| && n.left <= n.retry <= RETRY_MAX
    && log[n.id] == Record(n.retry, 1 + n.retry - n.left, [])
  }

  /** Never sent more often than allowed, at most one verdict, and a timeout only after the last retry. */
  ghost predicate Fair(r: Record) {
    && r.sent <= r.retry + 1 && |r.verdicts| <= 1
    && (r.verdicts == [TimedOut] ==> r.sent == r.retry + 1)
  }

  ghost predicate ListOk(list: seq<Node>, log: seq<Record>) {
    && |list| <= LIST_MAX && Distinct(list)
    && (forall n :: n in list ==> Queued(n, log))
    && (forall r :: r in log ==> Fair(r))
  }

  lemma Drop(list: seq<Node>, log: seq<Record>, i: nat, r: Record)
    requires ListOk(list, log) && i < |list| && Fair(r)
    ensures ListOk(list[..i] + list[i + 1..], log) && list[i].id < |log|
    ensures ListOk(list[..i] + list[i + 1..], log[list[i].id := r])
  {
    var l := list[..i] + list[i + 1..];
    assert Queued(list[i], log);
    forall n | n in l ensures n in list && n.id != list[i].id {
      var j :| 0 <= j < |l| && l[j] == n;
      assert n == list[if j < i then j else j + 1];
    }
  }

  lemma Change(list: seq<Node>, log: seq<Record>, i: nat, n: Node, r: Record)
    requires ListOk(list, log) && i < |list| && Fair(r) && n.id == list[i].id && n.tid == list[i].tid
    requires n.id < |log| && Queued(n, log[n.id := r])
    ensures ListOk(list[i := n], log[n.id := r])
  {
    var l, g := list[i := n], log[n.id := r];
    forall m | m in l ensures Queued(m, g) {
      var j :| 0 <= j < |l| && l[j] == m;
      if j != i {
        assert Queued(list[j], log) && list[j].id != list[i].id;
      }
    }
  }

  lemma Append(list: seq<Node>, log: seq<Record>, n: Node)
    requires ListOk(list, log) && |list| < LIST_MAX && n.id == |log| && n.left == n.retry <= RETRY_MAX
    requires forall m :: m in list ==> m.tid != n.tid
    ensures ListOk(list + [n], log + [Record(n.retry, 1, [])])
  {
    var g := log + [Record(n.retry, 1, [])];
    forall m | m in list ensures m.id < |log| && Queued(m, g) { assert Queued(m, log); }
  }

  class SendList {
    var list: seq<Node>
    var stored: nat
    /** Messages sent so far; what happened to each. */
    var count: nat
    var log: seq<Record>
    /** How often the transport mutex has been locked and not unlocked. */
    var locks: nat

    ghost predicate Inv()
      reads this
    {
      count == |log| && ListOk(list, log)
    }

    constructor ()
      ensures Inv() && list == [] && log == [] && stored == TID_MAX && locks == 0
    {
      list, stored, count, log, locks := [], TID_MAX, 0, [], 0;
    }

    /** `genie_transport_find_by_tid`: its position, or the length of the list */
    method FindByTid(tid: nat) returns (i: nat)
      ensures i <= |list| && (i < |list| ==> list[i].tid == tid) && forall j :: 0 <= j < i ==> list[j].tid != tid
    {
      i := 0;
      while i < |list|
        invariant i <= |list| && forall j :: 0 <= j < i ==> list[j].tid != tid
      {
        if list[i].tid == tid {
          return;
        }
        i := i + 1;
      }
    }

    /** `genie_transport_send_model`, for a message with data on a provisioned node: an older message
        with the same transaction id is dropped without a verdict; the message is sent once, and
        queued if it wants retries and there is room. */
    method Send(op: Op, wanted: nat, retry: nat, period: nat, now: int, random: nat) returns (ok: bool, tid: nat)
      requires Inv() && wanted < 256
      modifies this
      ensures Inv()
      ensures if wanted == 0 && op != UnknownOp
              then stored == (if old(stored) == TID_MAX then random else old(stored) + 1) % 64 && tid == 0x80 + stored
              else stored == old(stored) && tid == wanted
      ensures ok == (op != UnknownOp && !((op == Indicate || op == TransIndicate) && !(TID_MIN <= tid <= TID_MAX)))
      ensures !ok ==> list == old(list) && log == old(log) && locks == old(locks)
      ensures ok ==>
                && log == old(log) + [Record(if retry > RETRY_MAX then RETRY_MAX else retry, 1, [])]
                && (locks == old(locks) <==> forall m :: m in old(list) ==> m.tid != tid) && locks <= old(locks) + 1
      ensures ok ==>
                var kept := DropTid(old(list), tid);
                var queued := op != StatusOp && op != TransMsg && period > 0 && |kept| < LIST_MAX;
                var most := if retry > RETRY_MAX then RETRY_MAX else retry;
                list == kept + if queued then [Node(old(|log|), tid, most, most, now + period, period)] else []
    {
      tid := wanted;
      if op == UnknownOp {
        return false, tid;
      }
      if tid == 0 {
        var g := GenTid(stored, random);
        stored, tid := g.0, g.1;
      }
      if (op == Indicate || op == TransIndicate) && (tid < TID_MIN || tid > TID_MAX) {
        return false, tid;
      }
      RemoveTid(tid);
      AddToLog(list, log, Record(Clamp(retry), 1, []));
      if op != StatusOp && op != TransMsg && period > 0 && |list| < LIST_MAX {
        Append(list, log, Node(|log|, tid, Clamp(retry), Clamp(retry), now + period, period));
        list := list + [Node(count, tid, Clamp(retry), Clamp(retry), now + period, period)];
      }
      count, log := count + 1, log + [Record(Clamp(retry), 1, [])];
      return true, tid;
    }

    /** `transport_remove_by_tid`: it returns with the mutex locked iff it has removed a message. */
    method RemoveTid(tid: nat)
      requires Inv()
      modifies this`list, this`locks
      ensures Inv() && list == DropTid(old(list), tid) && (forall m :: m in list <==> m in old(list) && m.tid != tid)
      ensures locks == if exists m :: m in old(list) && m.tid == tid then old(locks) + 1 else old(locks)
    {
      if list == [] {
        return;
      }
      locks := locks + 1;
      var i := FindByTid(tid);
      DropTidAt(list, tid, i);
      if i < |list| {
        assert Queued(list[i], log) && log[list[i].id] in log;
        Drop(list, log, i, log[list[i].id]);
        Others(list, i);
        assert list[i] in list;
        list := list[..i] + list[i + 1..];
        return;
      }
      locks := locks - 1;
    }

    /** `genie_transport_ack`: the message with this transaction id, if queued, is told and dropped. */
    method Ack(tid: nat)
      requires Inv()
      modifies this
      ensures Inv() && list == DropTid(old(list), tid) && |log| == old(|log|)
      ensures stored == old(stored) && locks == old(locks)
      ensures forall m :: m in old(list) && m.tid == tid ==> m.id < |log| && log[m.id] == old(log)[m.id].(verdicts := [Acked])
      ensures forall k :: 0 <= k < |log| && (forall m :: m in old(list) && m.tid == tid ==> m.id != k) ==> log[k] == old(log)[k]
    {
      hide ListOk, DropTid, Distinct, Queued, Fair;
      var i := FindByTid(tid);
      DropTidAt(list, tid, i);
      if i < |list| {
        var n := list[i];
        Told(list, log, i);
        list := list[..i] + list[i + 1..];
        log := log[n.id := log[n.id].(verdicts := [Acked])];
      }
    }

    lemma Told(list: seq<Node>, log: seq<Record>, i: nat)
      requires ListOk(list, log) && i < |list|
      ensures list[i] in list && list[i].id < |log| && forall m :: m in list && m.tid == list[i].tid ==> m == list[i]
      ensures ListOk(list[..i] + list[i + 1..], log[list[i].id := log[list[i].id].(verdicts := [Acked])])
    {
      assert list[i] in list && Queued(list[i], log);
      assert log[list[i].id] in log;
      Drop(list, log, i, log[list[i].id].(verdicts := [Acked]));
    }

    /** `retransmit_timer_cb`; `now[i]` is the clock when the i-th message is looked at. Overdue
        messages are sent again; the first one without retries left is told and dropped. */
    method TimerCallback(now: seq<int>) returns (ghost g: nat)
      requires Inv() && |now| >= |list|
      modifies this`list, this`log
      ensures Inv() && |log| == old(|log|) && stored == old(stored) && locks == old(locks)
      ensures g <= old(|list|) && forall i :: 0 <= i < g ==> old(list)[i].timeout > now[i] || old(list)[i].left > 0
      ensures g < old(|list|) ==> old(list)[g].timeout <= now[g] && old(list)[g].left == 0
      ensures |list| == if g < old(|list|) then old(|list|) - 1 else old(|list|)
      ensures forall i :: 0 <= i < g ==>
                list[i] == if old(list)[i].timeout > now[i] then old(list)[i]
                           else old(list)[i].(left := old(list)[i].left - 1, timeout := now[i] + old(list)[i].period)
      ensures forall i :: g <= i < |list| ==> list[i] == old(list)[i + 1]
      ensures forall i :: 0 <= i < old(|list|) ==>
                var n := old(list)[i];
                && n.id < |log|
                && log[n.id] == if i < g && n.timeout <= now[i] then old(log)[n.id].(sent := old(log)[n.id].sent + 1)
                                else if i == g then old(log)[n.id].(verdicts := [TimedOut]) else old(log)[n.id]
      ensures forall k :: 0 <= k < |log| && (forall i :: 0 <= i < old(|list|) ==> old(list)[i].id != k) ==> log[k] == old(log)[k]
    {
      hide ListOk;
      ghost var l0, log0 := list, log;
      DistinctNow(list, log);
      var i := Resend(now);
      g := i;
      if i < |list| {
        var n := list[i];
        WorkGivesUp(list, log, l0, log0, now, i);
        list := list[..i] + list[i + 1..];
        log := log[n.id := log[n.id].(verdicts := [TimedOut])];
      }
    }

    /** The loop, up to the first overdue message without retries left. */
    method Resend(now: seq<int>) returns (i: nat)
      requires Inv() && |now| >= |list|
      modifies this`list, this`log
      ensures Inv() && Worked(list, log, old(list), old(log), now, i)
      ensures i < |list| ==> list[i].timeout <= now[i] && list[i].left == 0
    {
      hide ListOk, Worked;
      i := 0;
      ghost var l0, log0 := list, log;
      WorkStarts(list, log, now);
      WorkSizes(list, log, l0, log0, now, 0);
      DistinctNow(list, log);
      while i < |list|
        invariant count == |log| && Worked(list, log, l0, log0, now, i) && ListOk(list, log)
        invariant i <= |list| == |l0| && |log| == |log0|
      {
        var n := list[i];
        if n.timeout <= now[i] {
          if n.left == 0 {
            return;
          }
          var n' := n.(left := n.left - 1, timeout := now[i] + n.period);
          WorkResends(list, log, l0, log0, now, i);
          list := list[i := n'];
          log := log[n.id := log[n.id].(sent := log[n.id].sent + 1)];
        } else {
          WorkSkips(list, log, l0, log0, now, i);
        }
        i := i + 1;
      }
    }

    lemma WorkSizes(list: seq<Node>, log: seq<Record>, l0: seq<Node>, log0: seq<Record>, now: seq<int>, i: nat)
      requires Worked(list, log, l0, log0, now, i)
      ensures i <= |list| == |l0| && |log| == |log0|
    {
    }

    lemma DistinctNow(list: seq<Node>, log: seq<Record>)
      requires ListOk(list, log)
      ensures Distinct(list)
    {
    }

    /** Any run of sends, acknowledgements and timer callbacks: pending transaction ids are distinct,
        the list stays within its maximum, no message is sent more than one time plus its retries,
        and none gets two verdicts. */
    method Run(steps: seq<Step>)
      requires Inv() && forall i :: 0 <= i < |steps| ==> StepOk(steps[i])
      modifies this
      ensures Inv() && |list| <= LIST_MAX && Distinct(list) && forall r :: r in log ==> Fair(r)
    {
      for k := 0 to |steps|
        invariant Inv()
      {
        assert StepOk(steps[k]);
        match steps[k] {
          case Sending(op, wanted, retry, period, now, random) => var _, _ := Send(op, wanted, retry, period, now, random);
          case Acking(tid) => Ack(tid);
          case Callback(now) => var _ := TimerCallback(now);
        }
      }
    }
  }

  datatype Step =
    | Sending(op: Op, wanted: nat, retry: nat, period: nat, now: int, random: nat)
    | Acking(tid: nat)
    | Callback(clock: seq<int>)

  /** Transaction ids are bytes; the clock can be read for every message in the list. */
  predicate StepOk(s: Step) { (s.Sending? ==> s.wanted < 256) && (s.Callback? ==> |s.clock| >= LIST_MAX) }

  /** A timer callback that has dealt with the first `i` messages of `l0`, none of which it gave up. */
  ghost predicate Worked(list: seq<Node>, log: seq<Record>, l0: seq<Node>, log0: seq<Record>, now: seq<int>, i: nat) {
    && i <= |list| == |l0| <= |now| && |log| == |log0|
    && (forall j :: 0 <= j < i ==> l0[j].timeout > now[j] || l0[j].left > 0)
    && (forall j :: 0 <= j < i ==>
          list[j] == if l0[j].timeout > now[j] then l0[j] else l0[j].(left := l0[j].left - 1, timeout := now[j] + l0[j].period))
    && (forall j :: i <= j < |l0| ==> list[j] == l0[j])
    && (forall j :: 0 <= j < |l0| ==>
          && l0[j].id < |log|
          && log[l0[j].id] == if j < i && l0[j].timeout <= now[j] then log0[l0[j].id].(sent := log0[l0[j].id].sent + 1) else log0[l0[j].id])
    && (forall k :: 0 <= k < |log| && (forall j :: 0 <= j < |l0| ==> l0[j].id != k) ==> log[k] == log0[k])
  }

  lemma WorkStarts(list: seq<Node>, log: seq<Record>, now: seq<int>)
    requires ListOk(list, log) && |list| <= |now|
    ensures Worked(list, log, list, log, now, 0)
  {
    Ids(list, log);
    forall j | 0 <= j < |list| ensures list[j].id < |log| { assert list[j] in list; }
  }

  lemma WorkSkips(list: seq<Node>, log: seq<Record>, l0: seq<Node>, log0: seq<Record>, now: seq<int>, i: nat)
    requires Worked(list, log, l0, log0, now, i) && i < |list| && list[i].timeout > now[i]
    ensures Worked(list, log, l0, log0, now, i + 1)
  {
  }

  lemma WorkResends(list: seq<Node>, log: seq<Record>, l0: seq<Node>, log0: seq<Record>, now: seq<int>, i: nat)
    requires Worked(list, log, l0, log0, now, i) && ListOk(list, log) && Distinct(l0)
    requires i < |list| && list[i].timeout <= now[i] && list[i].left > 0
    ensures
      var n := list[i];
      var n' := n.(left := n.left - 1, timeout := now[i] + n.period);
      && n.id < |log|
      && Worked(list[i := n'], log[n.id := log[n.id].(sent := log[n.id].sent + 1)], l0, log0, now, i + 1)
      && ListOk(list[i := n'], log[n.id := log[n.id].(sent := log[n.id].sent + 1)])
  {
    hide ListOk;
    var n := list[i];
    var n' := n.(left := n.left - 1, timeout := now[i] + n.period);
    Resent(list, log, i, n');
  }

  lemma WorkGivesUp(list: seq<Node>, log: seq<Record>, l0: seq<Node>, log0: seq<Record>, now: seq<int>, i: nat)
    requires Worked(list, log, l0, log0, now, i) && ListOk(list, log) && i < |list| && list[i].timeout <= now[i] && list[i].left == 0
    ensures list[i].id < |log| && ListOk(list[..i] + list[i + 1..], log[list[i].id := log[list[i].id].(verdicts := [TimedOut])])
  {
    GivenUp(list, log, i);
  }

  lemma Ids(list: seq<Node>, log: seq<Record>)
    requires ListOk(list, log)
    ensures forall n :: n in list ==> n.id < |log|
  {
    forall n | n in list ensures n.id < |log| { assert Queued(n, log); }
  }

  lemma GivenUp(list: seq<Node>, log: seq<Record>, i: nat)
    requires ListOk(list, log) && i < |list| && list[i].left == 0
    ensures list[i].id < |log|
    ensures ListOk(list[..i] + list[i + 1..], log[list[i].id := log[list[i].id].(verdicts := [TimedOut])])
  {
    assert Queued(list[i], log);
    Drop(list, log, i, log[list[i].id].(verdicts := [TimedOut]));
  }

  lemma Resent(list: seq<Node>, log: seq<Record>, i: nat, n: Node)
    requires ListOk(list, log) && i < |list| && list[i].left > 0
    requires n == list[i].(left := list[i].left - 1, timeout := n.timeout)
    ensures n.id < |log| && ListOk(list[i := n], log[n.id := log[n.id].(sent := log[n.id].sent + 1)])
    ensures forall m :: m in list[i + 1..] ==> m.id != n.id
  {
    assert Queued(list[i], log);
    Change(list, log, i, n, log[n.id].(sent := log[n.id].sent + 1));
  }

  /** The list without the message of a transaction id. */
  function DropTid(list: seq<Node>, tid: nat): seq<Node> {
    if list == [] then []
    else if list[0].tid == tid then list[1..]
    else [list[0]] + DropTid(list[1..], tid)
  }

  lemma {:induction false} DropTidAt(list: seq<Node>, tid: nat, i: nat)
    requires i <= |list| && (forall j :: 0 <= j < i ==> list[j].tid != tid) && (i < |list| ==> list[i].tid == tid)
    ensures DropTid(list, tid) == if i < |list| then list[..i] + list[i + 1..] else list
  {
    if list != [] && i > 0 {
      DropTidAt(list[1..], tid, i - 1);
      if i < |list| {
        assert list[..i] + list[i + 1..] == [list[0]] + (list[1..][..i - 1] + list[1..][i..]);
      }
    }
  }

  lemma Others(list: seq<Node>, i: nat)
    requires i < |list| && Distinct(list)
    ensures forall m :: m in list[..i] + list[i + 1..] <==> m in list && m.tid != list[i].tid
  {
    var l := list[..i] + list[i + 1..];
    forall m | m in l ensures m in list && m.tid != list[i].tid {
      var j :| 0 <= j < |l| && l[j] == m;
      assert m == list[if j < i then j else j + 1];
    }
    forall m | m in list && m.tid != list[i].tid ensures m in l {
      var j :| 0 <= j < |list| && list[j] == m;
      assert m == l[if j < i then j else j - 1];
    }
  }

  function Clamp(retry: nat): nat { if retry > RETRY_MAX then RETRY_MAX else retry }

  lemma AddToLog(list: seq<Node>, log: seq<Record>, r: Record)
    requires ListOk(list, log) && Fair(r)
    ensures ListOk(list, log + [r])
  {
    forall n | n in list ensures Queued(n, log + [r]) { assert Queued(n, log); }
  }
}
