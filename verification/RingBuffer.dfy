/** The ring buffer of k_ringbuf.c: messages in a circular byte array, with or without length
    headers; headers and payloads may be split at the end of the array. */
module RingBuffers {
  import opened Bits

  newtype byte = x: int | 0 <= x < 256
  type Bytes = seq<byte>

  /** `RING_BUF_LEN`: the bytes of a `size_t`. */
  const LEN: nat := 4

  // ----- the abstract queue and its byte stream -----

  /** A length as stored in memory, least significant byte first. */
  function Le(n: nat): (r: Bytes)
    ensures |r| == LEN
  {
    [(n % 256) as byte, (n / 256 % 256) as byte, (n / 0x1_0000 % 256) as byte, (n / 0x100_0000 % 256) as byte]
  }

  function FromLe(b: Bytes): nat
    requires |b| == LEN
  {
    b[0] as nat + 256 * b[1] as nat + 0x1_0000 * b[2] as nat + 0x100_0000 * b[3] as nat
  }

  lemma LeRoundTrip(n: nat)
    requires n < WORD
    ensures FromLe(Le(n)) == n && Le(n)[0] as nat == n % 256
  {
    assert n / 0x1_0000 == n / 256 / 256;
    assert n / 0x100_0000 == n / 256 / 256 / 256;
  }

  ghost function Encode(fixed: bool, m: Bytes): Bytes {
    if fixed then m else Le(|m|) + m
  }

  /** The messages one after another. */
  ghost function Flat(fixed: bool, q: seq<Bytes>): Bytes {
    if q == [] then [] else Encode(fixed, q[0]) + Flat(fixed, q[1..])
  }

  lemma {:induction false} FlatSnoc(fixed: bool, q: seq<Bytes>, m: Bytes)
    ensures Flat(fixed, q + [m]) == Flat(fixed, q) + Encode(fixed, m)
  {
    if q != [] {
      FlatSnoc(fixed, q[1..], m);
      assert (q + [m])[1..] == q[1..] + [m];
    }
  }

  /** The space a queue takes: payloads plus a header each. */
  function Space(fixed: bool, q: seq<Bytes>): nat {
    if q == [] then 0 else (if fixed then 0 else LEN) + |q[0]| + Space(fixed, q[1..])
  }

  lemma {:induction false} FlatSpace(fixed: bool, q: seq<Bytes>)
    ensures |Flat(fixed, q)| == Space(fixed, q)
  {
    if q != [] {
      FlatSpace(fixed, q[1..]);
    }
  }

  // ----- the circular layout -----

  function Wrap(x: nat, cap: nat): nat { if x < cap then x else x - cap }

  /** Positions may be parked at the end of the array. */
  ghost predicate RingOk(cap: nat, head: nat, tail: nat, free: nat) {
    && 0 < cap && head <= cap && tail <= cap && free <= cap
    && Wrap(tail, cap) == Wrap(Wrap(head, cap) + cap - free, cap)
  }

  /** The `n` bytes from position `head` on. */
  ghost function Stream(b: Bytes, head: nat, n: nat): (r: Bytes)
    requires head <= |b| && n <= |b|
    ensures |r| == n
  {
    var h := Wrap(head, |b|);
    if h + n <= |b| then b[h..h + n] else b[h..] + b[..h + n - |b|]
  }

  ghost predicate Holds(b: Bytes, head: nat, tail: nat, free: nat, s: Bytes) {
    RingOk(|b|, head, tail, free) && Stream(b, head, |b| - free) == s
  }

  lemma Extend(b: Bytes, head: nat, tail: nat, free: nat, s: Bytes, chunk: Bytes)
    requires Holds(b, head, tail, free, s) && |chunk| <= free && tail + |chunk| <= |b| && tail < |b|
    ensures Holds(b[..tail] + chunk + b[tail + |chunk|..], head, tail + |chunk|, free - |chunk|, s + chunk)
  {
    var b' := b[..tail] + chunk + b[tail + |chunk|..];
    assert Stream(b', head, |b| - free + |chunk|) == s + chunk;
  }

  lemma Consume(b: Bytes, head: nat, tail: nat, free: nat, s: Bytes, k: nat)
    requires Holds(b, head, tail, free, s) && k <= |b| - free && head + k <= |b| && head < |b|
    ensures k <= |s| && b[head..head + k] == s[..k] && Holds(b, head + k, tail, free + k, s[k..])
  {
    assert Stream(b, head + k, |b| - free - k) == s[k..];
  }

  lemma HeadWraps(b: Bytes, tail: nat, free: nat, s: Bytes)
    requires Holds(b, |b|, tail, free, s)
    ensures Holds(b, 0, tail, free, s)
  {
  }

  lemma TailWraps(b: Bytes, head: nat, free: nat, s: Bytes)
    requires Holds(b, head, |b|, free, s)
    ensures Holds(b, head, 0, free, s)
  {
  }

  /** Whole blocks never reach over the end. */
  lemma BlockFits(p: nat, cap: nat, blk: nat)
    requires blk > 0 && p % blk == 0 && cap % blk == 0 && p < cap
    ensures p + blk <= cap && (p + blk) % blk == 0
  {
    var i, k := p / blk, cap / blk;
    assert p == i * blk && cap == k * blk;
    assert i < k by {
      if i >= k { Mul(k, i, blk); }
    }
    Mul(i + 1, k, blk);
    assert p + blk == (i + 1) * blk;
    ModOfProduct(i + 1, blk);
  }

  lemma ModOfProduct(i: nat, blk: nat)
    requires blk > 0
    ensures (i * blk) % blk == 0
  {
    var x := i * blk;
    var q, r := x / blk, x % blk;
    assert x == q * blk + r;
    assert (i - q) * blk == r;
    assert i <= q by {
      if i > q { Mul(1, i - q, blk); }
    }
  }

  datatype Status = Success | InvalidParam | Full | Empty

  class RingBuf {
    const buf: array<byte>
    const fixed: bool
    const blk: nat
    var head: nat
    var tail: nat
    var freesize: nat
    ghost var queue: seq<Bytes>

    ghost predicate Valid()
      reads this, buf
    {
      && 0 < buf.Length
      && Holds(buf[..], head, tail, freesize, Flat(fixed, queue))
      && (fixed ==> blk > 0 && buf.Length % blk == 0 && head % blk == 0 && tail % blk == 0)
      && forall m :: m in queue ==> MessageOk(m)
    }

    /** What can be stored: blocks of the fixed size, or non-empty strings whose length fits its header. */
    ghost predicate MessageOk(m: Bytes) {
      if fixed then |m| == blk else 0 < |m| < WORD
    }

    /** `ringbuf_init` */
    constructor (buf: array<byte>, fixed: bool, blk: nat)
      requires buf.Length > 0 && (fixed ==> blk > 0 && buf.Length % blk == 0)
      ensures Valid() && queue == [] && this.buf == buf && this.fixed == fixed && this.blk == blk
    {
      this.buf, this.fixed, this.blk := buf, fixed, blk;
      head, tail, freesize, queue := 0, 0, buf.Length, [];
    }

    /** `ringbuf_reset` */
    method Reset()
      requires Valid()
      modifies this
      ensures Valid() && queue == [] && freesize == buf.Length
    {
      head, tail, freesize, queue := 0, 0, buf.Length, [];
    }

    /** Free space is the capacity less headers and payloads. */
    lemma FreeSize()
      requires Valid()
      ensures freesize == buf.Length - Space(fixed, queue)
    {
      FlatSpace(fixed, queue);
    }

    /** `ringbuf_is_empty` looks at the free size only. */
    method IsEmpty() returns (r: bool)
      requires Valid()
      ensures r <==> queue == []
    {
      FreeSize();
      assert queue != [] ==> MessageOk(queue[0]);
      r := freesize == buf.Length;
    }

    /** `ringbuf_is_full`: no message at all could be pushed. */
    method IsFull() returns (r: bool)
      requires Valid()
      ensures r <==> forall m: Bytes :: MessageOk(m) ==> Space(fixed, queue) + |Encode(fixed, m)| > buf.Length
    {
      FreeSize();
      r := if fixed then freesize < blk else freesize < LEN + 1;
      if !r {
        ghost var m: Bytes := if fixed then seq(blk, i => 0) else [0];
        assert MessageOk(m);
      }
    }

    /** `memcpy` into the array. */
    method Blit(at: nat, chunk: Bytes)
      requires at + |chunk| <= buf.Length
      modifies buf
      ensures buf[..] == old(buf[..])[..at] + chunk + old(buf[..])[at + |chunk|..]
    {
      for i := 0 to |chunk|
        invariant forall j :: 0 <= j < i ==> buf[at + j] == chunk[j]
        invariant forall j :: 0 <= j < buf.Length && !(at <= j < at + i) ==> buf[j] == old(buf[j])
      {
        buf[at + i] := chunk[i];
      }
    }

    /** `memcpy` to the tail, which then moves on. */
    method Emit(chunk: Bytes, ghost s: Bytes)
      requires Holds(buf[..], head, tail, freesize, s)
      requires |chunk| <= freesize && tail + |chunk| <= buf.Length && tail < buf.Length
      modifies buf, this`tail, this`freesize
      ensures tail == old(tail) + |chunk| && freesize == old(freesize) - |chunk|
      ensures Holds(buf[..], head, tail, freesize, s + chunk)
    {
      Extend(buf[..], head, tail, freesize, s, chunk);
      hide Holds;
      Blit(tail, chunk);
      tail := tail + |chunk|;
      freesize := freesize - |chunk|;
    }

    /** `memcpy` from the head, which then moves on. */
    method Take(k: nat, ghost s: Bytes) returns (chunk: Bytes)
      requires Holds(buf[..], head, tail, freesize, s)
      requires k <= buf.Length - freesize && head + k <= buf.Length && head < buf.Length
      modifies this`head, this`freesize
      ensures head == old(head) + k && freesize == old(freesize) + k
      ensures k <= |s| && chunk == s[..k] && Holds(buf[..], head, tail, freesize, s[k..])
    {
      Consume(buf[..], head, tail, freesize, s, k);
      hide Holds;
      chunk := buf[head..head + k];
      assert chunk == buf[..][head..head + k];
      head := head + k;
      freesize := freesize + k;
    }

    /** `ringbuf_push` */
    method Push(data: Bytes) returns (st: Status)
      requires Valid() && |data| + LEN < WORD && (fixed ==> |data| == blk)
      modifies this, buf
      ensures Valid()
      ensures st == if !fixed && |data| == 0 then InvalidParam
                    else if Space(fixed, old(queue)) + |Encode(fixed, data)| > buf.Length then Full
                    else Success
      ensures queue == if st == Success then old(queue) + [data] else old(queue)
      ensures st != Success ==> freesize == old(freesize)
    {
      FreeSize();
      if fixed {
        if freesize < blk {
          return Full;
        }
        PushFixed(data);
      } else {
        if |data| == 0 || |data| >= WORD - 1 {
          return InvalidParam;
        }
        if freesize < LEN + |data| {
          return Full;
        }
        PushDynamic(data);
      }
      return Success;
    }

    method PushFixed(data: Bytes)
      requires Valid() && fixed && |data| == blk <= freesize
      modifies this, buf
      ensures Valid() && queue == old(queue) + [data]
    {
      assert tail <= buf.Length;
      hide Holds;
      if tail == buf.Length {
        TailWraps(buf[..], head, freesize, Flat(fixed, queue));
        tail := 0;
      }
      BlockFits(tail, buf.Length, blk);
      Emit(data, Flat(fixed, queue));
      FlatSnoc(fixed, queue, data);
      queue := queue + [data];
    }

    method PushDynamic(data: Bytes)
      requires Valid() && !fixed && 0 < |data| && LEN + |data| <= freesize && LEN + |data| < WORD
      modifies this, buf
      ensures Valid() && queue == old(queue) + [data]
    {
      hide Holds;
      ghost var s := Flat(fixed, queue);
      CopyIn(Le(|data|), s);
      CopyIn(data, s + Le(|data|));
      FlatSnoc(fixed, queue, data);
      assert s + Le(|data|) + data == s + (Le(|data|) + data);
      queue := queue + [data];
    }

    /** Copying a header or payload in, in two parts if it does not fit before the end. */
    method CopyIn(chunk: Bytes, ghost s: Bytes)
      requires Holds(buf[..], head, tail, freesize, s) && 0 < |chunk| <= freesize
      modifies buf, this`tail, this`freesize
      ensures freesize == old(freesize) - |chunk| && Holds(buf[..], head, tail, freesize, s + chunk)
    {
      if tail == buf.Length {
        TailWraps(buf[..], head, freesize, s);
        tail := 0;
      }
      var split := buf.Length - tail;
      assert RingOk(buf.Length, head, tail, freesize);
      assert tail < head ==> tail + |chunk| <= head;
      hide Holds;
      if tail >= head && split < |chunk| && split > 0 {
        Emit(chunk[..split], s);
        TailWraps(buf[..], head, freesize, s + chunk[..split]);
        tail := 0;
        assert s + chunk == s + chunk[..split] + chunk[split..];
        Emit(chunk[split..], s + chunk[..split]);
      } else {
        Emit(chunk, s);
      }
    }

    /** `ringbuf_pop` */
    method Pop() returns (st: Status, data: Bytes)
      requires Valid()
      modifies this
      ensures Valid()
      ensures st == if old(queue) == [] then Empty else Success
      ensures st == Empty ==> queue == old(queue) && data == []
      ensures st == Success ==> old(queue) == [data] + queue
    {
      var empty := IsEmpty();
      if empty {
        return Empty, [];
      }
      st := Success;
      ghost var s, m := Flat(fixed, queue), queue[0];
      assert MessageOk(m);
      FlatSpace(fixed, queue);
      if fixed {
        data := PopFixed(s);
      } else {
        data := PopDynamic(s, m, Flat(fixed, queue[1..]));
      }
      assert s == Encode(fixed, m) + Flat(fixed, queue[1..]);
      queue := queue[1..];
    }

    method PopFixed(ghost s: Bytes) returns (data: Bytes)
      requires Holds(buf[..], head, tail, freesize, s) && fixed && blk <= |s|
      requires blk > 0 && buf.Length % blk == 0 && head % blk == 0
      modifies this`head, this`freesize
      ensures data == s[..blk] && Holds(buf[..], head, tail, freesize, s[blk..]) && head % blk == 0
    {
      if head == buf.Length {
        HeadWraps(buf[..], tail, freesize, s);
        head := 0;
      }
      BlockFits(head, buf.Length, blk);
      data := Take(blk, s);
    }

    method PopDynamic(ghost s: Bytes, ghost m: Bytes, ghost rest: Bytes) returns (data: Bytes)
      requires Holds(buf[..], head, tail, freesize, s) && s == Le(|m|) + m + rest && 0 < |m| < WORD
      modifies this`head, this`freesize
      ensures data == m && Holds(buf[..], head, tail, freesize, rest)
    {
      if head == buf.Length {
        HeadWraps(buf[..], tail, freesize, s);
        head := 0;
      }
      var header := TakeHeader(s);
      assert header == Le(|m|) && s[LEN..] == m + rest;
      LeRoundTrip(|m|);
      var len := FromLe(header);
      data := TakePayload(len, m + rest);
      assert (m + rest)[|m|..] == rest;
    }

    method TakeHeader(ghost s: Bytes) returns (header: Bytes)
      requires Holds(buf[..], head, tail, freesize, s) && LEN <= |s| && head < buf.Length
      modifies this`head, this`freesize
      ensures header == s[..LEN] && Holds(buf[..], head, tail, freesize, s[LEN..])
      ensures freesize >= LEN
    {
      var split := buf.Length - head;
      if split < LEN && split > 0 {
        var front := Take(split, s);
        HeadWraps(buf[..], tail, freesize, s[split..]);
        head := 0;
        var back := Take(LEN - split, s[split..]);
        assert s[split..][LEN - split..] == s[LEN..];
        header := front + back;
      } else {
        header := Take(LEN, s);
      }
    }

    method TakePayload(len: nat, ghost s: Bytes) returns (data: Bytes)
      requires Holds(buf[..], head, tail, freesize, s) && 0 < len <= |s| && freesize > 0
      modifies this`head, this`freesize
      ensures data == s[..len] && Holds(buf[..], head, tail, freesize, s[len..])
    {
      if head == buf.Length {
        HeadWraps(buf[..], tail, freesize, s);
        head := 0;
      }
      var split := buf.Length - head;
      assert head <= tail ==> head + len <= buf.Length;
      if head > tail && split < len {
        var front := Take(split, s);
        HeadWraps(buf[..], tail, freesize, s[split..]);
        head := 0;
        var back := Take(len - split, s[split..]);
        assert s[split..][len - split..] == s[len..];
        data := front + back;
      } else {
        data := Take(len, s);
      }
    }
  }
}
