/** The byte FIFO of k_fifo.c: free-running 32-bit indices over a power-of-two buffer. */
module Fifos {
  import opened Bits
  import opened Lists
  import opened RingBuffers

  // ----- indices -----

  lemma WrapMod(j: int, c: nat, y: nat)
    requires 0 < c && y < 2 * c
    ensures (j * c + y) % c == Wrap(y, c)
  {
    if y < c {
      Remainder(j, c, y);
    } else {
      assert j * c + y == (j + 1) * c + (y - c);
      Remainder(j + 1, c, y - c);
    }
  }

  /** An index that wraps at 2^32 still points to the right place. */
  lemma Advance(x: nat, len: nat, k: nat)
    requires x < WORD && k < 32 && len <= Pow2(k)
    ensures ((x + len) % WORD) % Pow2(k) == Wrap(x % Pow2(k) + len, Pow2(k))
  {
    var c := Pow2(k);
    PowDivides(k, 32);
    Word();
    ExponentWord(k);
    hide Pow2;
    DivMod(WORD, c);
    AdvanceIn(x, len, c, WORD / c);
  }

  lemma AdvanceIn(x: nat, len: nat, c: nat, w: nat)
    requires 0 < c && WORD == w * c && x < WORD && len <= c <= WORD
    ensures ((x + len) % WORD) % c == Wrap(x % c + len, c)
  {
    var q, p := x / c, x % c;
    DivMod(x, c);
    if x + len < WORD {
      WrapMod(q, c, p + len);
    } else {
      WrapOnce(x + len);
      Distribute(q, w, c);
      WrapMod(q - w, c, p + len);
    }
  }

  lemma WrapOnce(y: nat)
    requires WORD <= y < 2 * WORD
    ensures y % WORD == y - WORD
  {
  }

  lemma Distribute(q: int, w: int, c: int)
    ensures (q - w) * c == q * c - w * c
  {
  }

  // ----- the queue -----

  /** The place of a free-running index. */
  function Slot(i: nat, size: nat): nat
    requires size > 0
  {
    i % size
  }

  /** The distance between two free-running indices. */
  function Gap(in_: nat, out: nat): nat { (in_ - out) % WORD }

  lemma SlotMask(i: nat, k: nat)
    ensures And(i, Pow2(k) - 1) == Slot(i, Pow2(k)) < Pow2(k)
  {
    AndMask(i, k);
  }

  lemma SlotAdvance(x: nat, len: nat, k: nat)
    requires x < WORD && k < 32 && len <= Pow2(k)
    ensures Slot((x + len) % WORD, Pow2(k)) == Wrap(Slot(x, Pow2(k)) + len, Pow2(k))
  {
    Advance(x, len, k);
  }

  lemma GapGrows(in_: nat, out: nat, len: nat)
    requires in_ < WORD && out < WORD && Gap(in_, out) + len < WORD
    ensures Gap((in_ + len) % WORD, out) == Gap(in_, out) + len
  {
  }

  lemma GapShrinks(in_: nat, out: nat, len: nat)
    requires in_ < WORD && out < WORD && len <= Gap(in_, out)
    ensures Gap(in_, (out + len) % WORD) == Gap(in_, out) - len
  {
  }

  /** The part of a string that goes before the end of the buffer. */
  function Front(len: nat, off: nat, size: nat): (l: nat)
    requires off <= size
    ensures l <= len && off + l <= size
  {
    if len < size - off then len else size - off
  }

  /** A buffer with a string copied to position `at`. */
  ghost function Pasted(b: Bytes, at: nat, chunk: Bytes): (r: Bytes)
    requires at + |chunk| <= |b|
    ensures |r| == |b|
  {
    b[..at] + chunk + b[at + |chunk|..]
  }

  lemma WrapBelow(x: nat, c: nat)
    requires x < 2 * c
    ensures Wrap(x, c) < c
  {
  }

  lemma Stored(b: Bytes, head: nat, off: nat, free: nat, s: Bytes, src: Bytes)
    requires Holds(b, head, off, free, s) && off < |b| && |src| <= free <= |b|
    ensures
      var l := Front(|src|, off, |b|);
      && |src| - l <= |b|
      && Holds(Pasted(Pasted(b, off, src[..l]), 0, src[l..]), head, Wrap(off + |src|, |b|), free - |src|, s + src)
  {
    hide Holds;
    var l := Front(|src|, off, |b|);
    var b' := Pasted(b, off, src[..l]);
    Extend(b, head, off, free, s, src[..l]);
    assert s + src[..l] + src[l..] == s + src;
    if off + l == |b| {
      TailWraps(b', head, free - l, s + src[..l]);
      Extend(b', head, 0, free - l, s + src[..l], src[l..]);
    } else {
      assert Pasted(b', 0, src[l..]) == b' && src[..l] == src;
    }
  }

  lemma Fetched(b: Bytes, off: nat, tail: nat, free: nat, s: Bytes, n: nat)
    requires Holds(b, off, tail, free, s) && off < |b| && n <= |s|
    ensures
      var k := Front(n, off, |b|);
      && n - k <= |b| && b[off..off + k] + b[..n - k] == s[..n]
      && free + n <= |b| && Holds(b, Wrap(off + n, |b|), tail, free + n, s[n..])
  {
    var k := Front(n, off, |b|);
    Consume(b, off, tail, free, s, k);
    if off + k == |b| {
      HeadWraps(b, tail, free + k, s[k..]);
      Consume(b, 0, tail, free + k, s[k..], n - k);
      assert s[k..][n - k..] == s[n..];
      assert s[..n] == s[..k] + s[k..][..n - k];
      assert b[..n - k] == b[0..0 + (n - k)];
    }
  }

  class Fifo {
    const data: array<byte>
    var mask: nat
    var size: nat
    var in_: nat
    var out: nat
    var freeBytes: nat
    ghost var exp: nat
    ghost var contents: Bytes

    /** The buffer holds `contents` from `out` on; the indices agree with its length modulo 2^32. */
    ghost predicate Valid()
      reads this, data
    {
      && 0 < exp < 32 && size == Pow2(exp) == data.Length && mask == size - 1
      && in_ < WORD && out < WORD && freeBytes <= size
      && Gap(in_, out) == |contents| == size - freeBytes
      && Slot(in_, size) < size && Slot(out, size) < size
      && Holds(data[..], Slot(out, size), Slot(in_, size), freeBytes, contents)
    }

    constructor (data: array<byte>)
      requires 2 <= data.Length < WORD && IsPowerOf2(data.Length)
      ensures Valid() && contents == [] && this.data == data
    {
      this.data := data;
      mask, size, in_, out := data.Length - 1, data.Length, 0, 0;
      freeBytes, contents := data.Length, [];
      PowerTest(data.Length);
      ghost var k: nat :| data.Length == Pow2(k);
      exp := k;
      new;
      ExponentBound(k);
    }

    /** `fifo_copy_in`, and the step of `in_` that follows it. */
    method Append(src: Bytes)
      requires Valid() && |src| <= freeBytes
      modifies this`in_, this`freeBytes, this`contents, data
      ensures Valid() && contents == old(contents) + src
      ensures in_ == (old(in_) + |src|) % WORD && freeBytes == old(freeBytes) - |src|
    {
      hide Holds, Slot, Gap, Pow2, Pasted, And;
      SlotMask(in_, exp);
      SlotAdvance(in_, |src|, exp);
      ExponentWord(exp);
      GapGrows(in_, out, |src|);
      Stored(data[..], Slot(out, size), Slot(in_, size), freeBytes, contents, src);
      var off := And(in_, mask);
      var l := Front(|src|, off, size);
      Blit(off, src[..l]);
      Blit(0, src[l..]);
      in_ := (in_ + |src|) % WORD;
      freeBytes := freeBytes - |src|;
      contents := contents + src;
    }

    method Blit(at: nat, chunk: Bytes)
      requires at + |chunk| <= data.Length
      modifies data
      ensures data[..] == Pasted(old(data[..]), at, chunk)
    {
      for i := 0 to |chunk|
        invariant forall j :: 0 <= j < i ==> data[at + j] == chunk[j]
        invariant forall j :: 0 <= j < data.Length && !(at <= j < at + i) ==> data[j] == old(data[j])
      {
        data[at + i] := chunk[i];
      }
    }

    /** `fifo_unused`, in 32-bit arithmetic */
    method Unused() returns (n: nat)
      requires Valid()
      ensures n == freeBytes == size - |contents|
    {
      hide Holds, Slot, Gap, Pow2;
      ExponentWord(exp);
      n := (mask + 1 - Gap(in_, out)) % WORD;
    }

    /** `fifo_in`: stores as much as fits. */
    method In(src: Bytes) returns (len: nat)
      requires Valid() && |src| < WORD
      modifies this`in_, this`freeBytes, this`contents, data
      ensures Valid() && len == (if |src| <= size - old(|contents|) then |src| else size - old(|contents|))
      ensures contents == old(contents) + src[..len]
    {
      len := |src|;
      var l := Unused();
      if len > l {
        len := l;
      }
      Append(src[..len]);
    }

    /** `fifo_out_peek`: the oldest bytes, which stay in the queue. */
    method Peek(len: nat) returns (r: Bytes)
      requires Valid()
      ensures r == contents[..if len <= |contents| then len else |contents|]
    {
      hide Holds, Slot, Gap, Pow2, And;
      var l := Gap(in_, out);
      var n := if len > l then l else len;
      SlotMask(out, exp);
      Fetched(data[..], Slot(out, size), Slot(in_, size), freeBytes, contents, n);
      var off := And(out, mask);
      var k := Front(n, off, size);
      r := data[off..off + k] + data[..n - k];
      assert data[off..off + k] == data[..][off..off + k] && data[..n - k] == data[..][..n - k];
    }

    /** `fifo_out`: hands out the oldest bytes. */
    method Out(len: nat) returns (r: Bytes)
      requires Valid()
      modifies this`out, this`freeBytes, this`contents
      ensures Valid() && |r| == (if len <= old(|contents|) then len else old(|contents|))
      ensures old(contents) == r + contents
    {
      hide Holds, Slot, Gap, Pow2, And;
      r := Peek(len);
      Fetched(data[..], Slot(out, size), Slot(in_, size), freeBytes, contents, |r|);
      SlotAdvance(out, |r|, exp);
      GapShrinks(in_, out, |r|);
      WrapBelow(Slot(out, size) + |r|, size);
      out := (out + |r|) % WORD;
      freeBytes := freeBytes + |r|;
      contents := contents[|r|..];
    }

    /** `fifo_out_all` */
    method OutAll() returns (r: Bytes)
      requires Valid()
      modifies this`out, this`freeBytes, this`contents
      ensures Valid() && r == old(contents) && contents == []
    {
      var len := size - freeBytes;
      if len == 0 {
        return [];
      }
      r := Out(len);
    }
  }

  /** `fifo_init`: refuses every size but the powers of two from 2 on. */
  method Create(data: array<byte>) returns (f: Option<Fifo>)
    requires data.Length < WORD
    ensures f.Some? <==> data.Length >= 2 && exists k: nat :: data.Length == Pow2(k)
    ensures f.Some? ==> f.value.Valid() && f.value.contents == [] && f.value.data == data
  {
    PowerTest(data.Length);
    if !IsPowerOf2(data.Length) || data.Length < 2 {
      return None;
    }
    var fifo := new Fifo(data);
    return Some(fifo);
  }
}
