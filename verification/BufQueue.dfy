/** The message queue of k_buf_queue.c: a ring buffer plus receivers blocked on it. */
module BufQueues {
  import opened Bits
  import opened RingBuffers

  type Tid = nat

  datatype Result =
    | Sent | TooLong | NoMessage | QueueFull
    | Got(msg: Bytes) | NoPendWait | SchedDisabled | Pended

  /** One kernel step that touches the queue; `Leave` is a timeout, an abort or a deletion,
      `Reorder` a change of priority. */
  datatype Step =
    | Send(msg: Bytes, beyond: Bytes)
    | Receive(t: Tid, wait: bool, schedLocked: bool, at: nat)
    | Leave(i: nat)
    | Reorder(i: nat, at: nat)
    | Flush

  class BufQueue {
    const ring: RingBuf
    const maxMsg: nat
    var curNum: nat
    var peakNum: nat
    var minFree: nat
    var waiters: seq<Tid>
    /** Messages sent and not flushed away, what was kept of them, and what was handed to receivers,
        each in order. */
    ghost var sent: seq<Bytes>
    ghost var accepted: seq<Bytes>
    ghost var received: seq<Bytes>

    /** No lost wakeup, an exact message count, and first in, first out over both ways a message
        can reach a receiver; a queue of fixed blocks may have added to a message. */
    ghost predicate Inv()
      reads this, ring, ring.buf
    {
      && ring.Valid() && (ring.fixed ==> ring.blk == maxMsg)
      && (ring.queue != [] ==> waiters == [])
      && curNum == |ring.queue| <= peakNum && minFree <= ring.freesize
      && accepted == received + ring.queue && Padded(sent, accepted) && (!ring.fixed ==> sent == accepted)
    }

    /** `buf_queue_create`, for messages of variable length or in fixed blocks */
    constructor (buf: array<byte>, maxMsg: nat, fixed: bool)
      requires buf.Length > 0 && maxMsg > 0 && (fixed ==> buf.Length % maxMsg == 0)
      ensures Inv() && sent == [] && accepted == [] && received == [] && waiters == [] && ring.queue == []
      ensures ring.buf == buf && this.maxMsg == maxMsg && ring.fixed == fixed && fresh(ring)
      ensures curNum == peakNum == 0 && minFree == buf.Length
    {
      ring := new RingBuf(buf, fixed, maxMsg);
      this.maxMsg := maxMsg;
      curNum, peakNum, minFree, waiters := 0, 0, 0, [];
      sent, accepted, received := [], [], [];
      new;
      minFree := ring.freesize;
    }

    /** What is kept of a message: a queue of fixed blocks copies a whole block, if need be beyond the
        end of the message. */
    function Stored(msg: Bytes, beyond: Bytes): Bytes
      requires ring.fixed ==> |msg| <= maxMsg <= |msg| + |beyond|
    {
      if ring.fixed then (msg + beyond)[..maxMsg] else msg
    }

    /** `buf_queue_send`, with the bytes of memory `beyond` the message. It is delivered as sent iff a
        receiver waits, or the queue is for messages of variable length, or it fills a block. */
    method SendMsg(msg: Bytes, beyond: Bytes) returns (r: Result)
      requires Inv() && |msg| + LEN < WORD && maxMsg + LEN < WORD && (ring.fixed ==> maxMsg <= |msg| + |beyond|)
      modifies this, ring, ring.buf
      ensures Inv()
      ensures r == if |msg| > maxMsg then TooLong else if |msg| == 0 then NoMessage
                   else if old(waiters) == [] && Space(ring.fixed, old(ring.queue)) + |Encode(ring.fixed, Stored(msg, beyond))| > ring.buf.Length then QueueFull
                   else Sent
      ensures r != Sent ==> sent == old(sent) && accepted == old(accepted)
      ensures r == Sent ==>
                && sent == old(sent) + [msg]
                && accepted == old(accepted) + [if old(waiters) == [] then Stored(msg, beyond) else msg]
                && (accepted[|accepted| - 1] == msg <==> old(waiters) != [] || !ring.fixed || |msg| == maxMsg)
      ensures waiters == if r == Sent && old(waiters) != [] then old(waiters)[1..] else old(waiters)
      ensures received == if r == Sent && old(waiters) != [] then old(received) + [msg] else old(received)
      ensures peakNum == if curNum > old(peakNum) then curNum else old(peakNum)
      ensures minFree == if ring.freesize < old(minFree) then ring.freesize else old(minFree)
    {
      hide Holds, Flat, Space, Padded, Stored, Encode, ring.Valid;
      if |msg| > maxMsg {
        return TooLong;
      }
      if |msg| == 0 {
        return NoMessage;
      }
      StoredBlock(msg, beyond);
      if waiters == [] {
        r := Store(msg, Stored(msg, beyond));
        return;
      }
      waiters := waiters[1..];
      PaddedMore(sent, accepted, msg, msg);
      sent, accepted, received := sent + [msg], accepted + [msg], received + [msg];
      return Sent;
    }

    lemma StoredBlock(msg: Bytes, beyond: Bytes)
      requires 0 < |msg| <= maxMsg && (ring.fixed ==> maxMsg <= |msg| + |beyond|)
      ensures var kept := Stored(msg, beyond);
              && msg <= kept && |kept| == (if ring.fixed then maxMsg else |msg|)
              && (kept == msg <==> !ring.fixed || |msg| == maxMsg)
    {
    }

    /** Without a receiver, what is kept of a message goes into the ring. */
    method Store(msg: Bytes, kept: Bytes) returns (r: Result)
      requires Inv() && waiters == [] && 0 < |kept| && |kept| + LEN < WORD && msg <= kept
      requires if ring.fixed then |kept| == maxMsg else kept == msg
      modifies this, ring, ring.buf
      ensures Inv() && waiters == [] && received == old(received)
      ensures r == if Space(ring.fixed, old(ring.queue)) + |Encode(ring.fixed, kept)| > ring.buf.Length then QueueFull else Sent
      ensures sent == (if r == Sent then old(sent) + [msg] else old(sent))
      ensures accepted == if r == Sent then old(accepted) + [kept] else old(accepted)
      ensures peakNum == if curNum > old(peakNum) then curNum else old(peakNum)
      ensures minFree == if ring.freesize < old(minFree) then ring.freesize else old(minFree)
    {
      hide Holds, Flat, Space, Padded, Encode;
      var st := ring.Push(kept);
      if st != Success {
        return QueueFull;
      }
      curNum := curNum + 1;
      if peakNum < curNum {
        peakNum := curNum;
      }
      if minFree > ring.freesize {
        minFree := ring.freesize;
      }
      PaddedMore(sent, accepted, msg, kept);
      sent, accepted := sent + [msg], accepted + [kept];
      return Sent;
    }

    /** `krhino_buf_queue_recv`, up to the point where the caller blocks */
    method ReceiveMsg(t: Tid, wait: bool, schedLocked: bool, at: nat) returns (r: Result)
      requires Inv()
      modifies this, ring
      ensures Inv() && accepted == old(accepted) && sent == old(sent)
      ensures r == if old(ring.queue) != [] then Got(old(ring.queue)[0])
                   else if !wait then NoPendWait else if schedLocked then SchedDisabled else Pended
      ensures received == if r.Got? then old(received) + [r.msg] else old(received)
      ensures peakNum == old(peakNum) && minFree == old(minFree)
      ensures r != Pended ==> waiters == old(waiters)
      ensures r == Pended ==>
                var i := if at < old(|waiters|) then at else old(|waiters|);
                waiters == old(waiters)[..i] + [t] + old(waiters)[i..]
    {
      ghost var q := ring.queue;
      var empty := ring.IsEmpty();
      if !empty {
        var _, msg := ring.Pop();
        assert q == [msg] + ring.queue;
        assert received + q == received + [msg] + ring.queue;
        assert ring.freesize >= minFree by { ring.FreeSize(); SpaceCons(msg, ring.queue); }
        curNum := curNum - 1;
        received := received + [msg];
        return Got(msg);
      }
      if !wait {
        return NoPendWait;
      }
      if schedLocked {
        return SchedDisabled;
      }
      var i := if at < |waiters| then at else |waiters|;
      waiters := waiters[..i] + [t] + waiters[i..];
      return Pended;
    }

    lemma SpaceCons(m: Bytes, q: seq<Bytes>)
      ensures Space(ring.fixed, [m] + q) >= Space(ring.fixed, q)
    {
      assert ([m] + q)[1..] == q;
    }

    /** `krhino_buf_queue_flush` */
    method FlushAll()
      requires Inv()
      modifies this, ring
      ensures Inv() && received == old(received) && accepted == received && waiters == old(waiters)
      ensures ring.queue == [] && curNum == peakNum == 0 && minFree == ring.buf.Length
    {
      ring.Reset();
      curNum, peakNum, minFree := 0, 0, ring.freesize;
      sent, accepted := sent[..|received|], received;
    }

    /** A timeout, an abort or a deletion takes a receiver off the list. */
    method GoAway(i: nat)
      requires Inv()
      modifies this`waiters
      ensures Inv() && waiters == if i < old(|waiters|) then old(waiters)[..i] + old(waiters)[i + 1..] else old(waiters)
    {
      if i < |waiters| {
        waiters := waiters[..i] + waiters[i + 1..];
      }
    }

    /** A change of priority gives a receiver another place. */
    method Move(i: nat, at: nat)
      requires Inv()
      modifies this`waiters
      ensures Inv() && (i >= old(|waiters|) ==> waiters == old(waiters))
      ensures i < old(|waiters|) ==>
                var rest := old(waiters)[..i] + old(waiters)[i + 1..];
                var k := if at < |rest| then at else |rest|;
                waiters == rest[..k] + [old(waiters)[i]] + rest[k..]
    {
      if i < |waiters| {
        var t, rest := waiters[i], waiters[..i] + waiters[i + 1..];
        waiters := if at < |rest| then rest[..at] + [t] + rest[at..] else rest + [t];
      }
    }

    /** Any run: what receivers got, in order, is an initial segment of what senders had accepted;
        the rest is what the ring still holds, and nobody waits while it holds something. */
    method Run(steps: seq<Step>)
      requires Inv() && maxMsg + LEN < WORD
      requires forall i :: 0 <= i < |steps| && steps[i].Send? ==>
                 |steps[i].msg| + LEN < WORD && (ring.fixed ==> maxMsg <= |steps[i].msg| + |steps[i].beyond|)
      modifies this, ring, ring.buf
      ensures Inv() && received <= accepted && accepted[|received|..] == ring.queue
      ensures Padded(sent, accepted) && (!ring.fixed ==> sent == accepted)
      ensures (forall i :: 0 <= i < |steps| ==> !steps[i].Flush?) ==> old(accepted) <= accepted && old(received) <= received
    {
      hide Holds, Flat, Space, Padded, ring.Valid;
      ghost var lossless := forall i :: 0 <= i < |steps| ==> !steps[i].Flush?;
      for k := 0 to |steps|
        invariant Inv()
        invariant lossless ==> old(accepted) <= accepted && old(received) <= received
      {
        match steps[k] {
          case Send(msg, beyond) => var _ := SendMsg(msg, beyond);
          case Receive(t, wait, locked, at) => var _ := ReceiveMsg(t, wait, locked, at);
          case Leave(i) => GoAway(i);
          case Reorder(i, at) => Move(i, at);
          case Flush => FlushAll();
        }
      }
    }
  }

  /** Each message kept begins with the message sent. */
  ghost predicate Padded(sent: seq<Bytes>, kept: seq<Bytes>) {
    |sent| == |kept| && forall i :: 0 <= i < |sent| ==> sent[i] <= kept[i]
  }

  lemma PaddedMore(sent: seq<Bytes>, kept: seq<Bytes>, m: Bytes, m': Bytes)
    requires Padded(sent, kept) && m <= m'
    ensures Padded(sent + [m], kept + [m'])
  {
  }

  /** In a queue of two-byte blocks a message of one byte arrives as it is if its receiver waits, and
      with a byte of the sender's memory otherwise. */
  method ShortMessage(waiting: bool, msg: byte, beyond: byte) returns (q: BufQueue)
    ensures q.Inv() && q.ring.fixed && q.sent == [[msg]] && q.received == [if waiting then [msg] else [msg, beyond]]
  {
    hide Holds, Flat;
    var buf := new byte[2];
    q := new BufQueue(buf, 2, true);
    if waiting {
      var _ := q.ReceiveMsg(1, true, false, 0);
    }
    assert q.Stored([msg], [beyond]) == [msg, beyond];
    var _ := q.SendMsg([msg], [beyond]);
    if !waiting {
      assert q.accepted == [[msg, beyond]] && q.ring.queue == [[msg, beyond]];
      var _ := q.ReceiveMsg(1, true, false, 0);
    }
  }
}
