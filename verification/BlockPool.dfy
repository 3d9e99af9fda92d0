/** The fixed-block pool of k_mm_blk.c: free blocks are chained through their first word. */
module BlockPools {
  import opened Lists
  import opened Bits

  type Addr = nat

  const WORD_BYTES: nat := 4

  datatype Status = Success | SizeError | AlignError | NoMemory

  /** Whole blocks of a pool: multiples of the block size from the start that fit. */
  predicate IsBlock(start: Addr, end: Addr, size: nat, a: Addr)
    requires size > 0
  {
    start <= a && a + size <= end && (a - start) % size == 0
  }

  lemma Apart(start: Addr, end: Addr, size: nat, a: Addr, b: Addr)
    requires size > 0 && IsBlock(start, end, size, a) && IsBlock(start, end, size, b) && a < b
    ensures a + size <= b
  {
    var i, j := (a - start) / size, (b - start) / size;
    DivMod(a - start, size);
    DivMod(b - start, size);
    if j <= i {
      Mul(j, i, size);
    } else {
      Mul(i + 1, j, size);
    }
  }

  lemma NextMultiple(x: nat, size: nat)
    requires size > 0 && x % size == 0
    ensures (x + size) % size == 0
  {
    DivMod(x, size);
    Remainder(x / size + 1, size, 0);
  }

  /** The words from `first` on lead through `chain`, and then to the null pointer. */
  ghost predicate Chained(words: map<Addr, Option<Addr>>, first: Option<Addr>, chain: seq<Addr>)
    decreases |chain|
  {
    if chain == [] then first == None
    else first == Some(chain[0]) && chain[0] in words && Chained(words, words[chain[0]], chain[1..])
  }

  lemma {:induction false} ChainedFrame(words: map<Addr, Option<Addr>>, first: Option<Addr>, chain: seq<Addr>, a: Addr, w: Option<Addr>)
    requires Chained(words, first, chain) && a !in chain
    ensures Chained(words[a := w], first, chain)
    decreases |chain|
  {
    if chain != [] {
      ChainedFrame(words, words[chain[0]], chain[1..], a, w);
    }
  }

  /** Linking the last block of a chain to one more. */
  lemma {:induction false} ChainedSnoc(words: map<Addr, Option<Addr>>, first: Option<Addr>, chain: seq<Addr>, last: Addr, a: Addr)
    requires Chained(words[last := None], first, chain + [last]) && NoDup(chain + [last]) && a !in chain + [last]
    ensures Chained(words[last := Some(a)][a := None], first, chain + [last] + [a])
    decreases |chain|
  {
    var c := chain + [last];
    var w := words[last := Some(a)][a := None];
    assert c + [a] == [c[0]] + (c[1..] + [a]);
    if chain == [] {
      assert c[1..] == [];
      assert Chained(w, None, []);
      assert Chained(w, Some(a), [a]);
      assert (c + [a])[1..] == [a];
    } else {
      assert c[1..] == chain[1..] + [last];
      assert last in c[1..];
      assert (c + [a])[1..] == chain[1..] + [last] + [a];
      ChainedSnoc(words, words[last := None][chain[0]], chain[1..], last, a);
    }
  }

  /** During initialisation: all blocks before `cur`, and `cur`, are chained in order. */
  ghost predicate Threaded(words: map<Addr, Option<Addr>>, start: Addr, end: Addr, size: nat, visited: seq<Addr>, cur: Addr)
    requires size > 0
  {
    && Chained(words, Some(start), visited + [cur]) && NoDup(visited + [cur])
    && start <= cur && (cur - start) % size == 0
    && (forall a :: a in visited ==> a < cur && IsBlock(start, end, size, a))
    && (forall a: Addr {:trigger a in visited} :: IsBlock(start, end, size, a) && a < cur ==> a in visited)
  }

  lemma ThreadedStart(words: map<Addr, Option<Addr>>, start: Addr, end: Addr, size: nat)
    requires size > 0
    ensures Threaded(words[start := None], start, end, size, [], start)
  {
    assert [] + [start] == [start] && [start][1..] == [];
    assert Chained(words[start := None], None, []);
  }

  lemma ThreadedStep(words: map<Addr, Option<Addr>>, start: Addr, end: Addr, size: nat, visited: seq<Addr>, cur: Addr)
    requires size > 0 && Threaded(words[cur := None], start, end, size, visited, cur) && cur + size < end
    ensures Threaded(words[cur := Some(cur + size)][cur + size := None], start, end, size, visited + [cur], cur + size)
  {
    var next := cur + size;
    var c := visited + [cur];
    NextMultiple(cur - start, size);
    assert forall a :: a in c <==> a in visited || a == cur;
    ChainedSnoc(words, Some(start), visited, cur, next);
    NoDupSnoc(c, next);
    forall a: Addr | IsBlock(start, end, size, a) && a < next ensures a in c {
      if cur < a {
        Apart(start, end, size, cur, a);
      }
    }
  }

  /** How many blocks fit. */
  lemma Count(n: nat, size: nat, total: nat)
    requires size > 0 && n * size < total
    ensures n * size + size == total ==> total / size == n + 1 && total % size == 0
    ensures total < n * size + size ==> total / size == n && total % size != 0
  {
    DivMod(total, size);
    if n * size + size == total {
      assert total == (n + 1) * size + 0;
      Quotient(n + 1, size, 0);
    } else if total < n * size + size {
      Quotient(n, size, total - n * size);
    }
  }

  lemma Quotient(q: nat, size: nat, r: nat)
    requires r < size
    ensures (q * size + r) / size == q && (q * size + r) % size == r
  {
    Remainder(q, size, r);
    var x := q * size + r;
    DivMod(x, size);
    assert (x / size) * size == q * size;
    var p := x / size;
    if p < q { Mul(p + 1, q, size); } else if q < p { Mul(q + 1, p, size); }
  }

  class Pool {
    var start: Addr
    var end: Addr
    var size: nat
    var whole: nat
    var avail: nat
    var first: Option<Addr>
    var words: map<Addr, Option<Addr>>
    /** The available chain, and the blocks handed out. */
    ghost var chain: seq<Addr>
    ghost var out: set<Addr>

    /** The chain holds the available blocks, and at its very end perhaps a fragment. */
    ghost predicate Inv()
      reads this
    {
      && size > 0 && Chained(words, first, chain) && NoDup(chain)
      && avail <= |chain| <= avail + 1 && avail + |out| == whole
      && (forall i :: 0 <= i < avail ==> IsBlock(start, end, size, chain[i]) && chain[i] !in out)
      && (|chain| == avail + 1 ==> !IsBlock(start, end, size, chain[avail]) && chain[avail] + size > end)
      && (forall a :: a in out ==> IsBlock(start, end, size, a))
      && (forall a: Addr {:trigger a in out} :: IsBlock(start, end, size, a) ==> a in out || a in chain)
    }

    constructor ()
    {
      start, end, size, whole, avail, first, words := 0, 0, 0, 0, 0, None, map[];
      chain, out := [], {};
    }

    /** `krhino_mblk_pool_init` */
    method Init(poolStart: Addr, blkSize: nat, poolSize: nat) returns (st: Status)
      requires blkSize > 0 && 2 * blkSize < WORD
      modifies this
      ensures st == if poolSize < 2 * blkSize then SizeError
                    else if poolStart % WORD_BYTES != 0 || blkSize % WORD_BYTES != 0 || poolSize % WORD_BYTES != 0 then AlignError
                    else Success
      ensures st == Success ==>
                && Inv() && out == {} && start == poolStart && end == poolStart + poolSize && size == blkSize
                && whole == poolSize / blkSize && avail == whole
                && (|chain| == avail + 1 <==> poolSize % blkSize != 0)
    {
      if poolSize < 2 * blkSize {
        return SizeError;
      }
      if poolStart % WORD_BYTES != 0 || blkSize % WORD_BYTES != 0 || poolSize % WORD_BYTES != 0 {
        return AlignError;
      }
      var poolEnd := poolStart + poolSize;
      var blks, cur, next := 0, poolStart, poolStart + blkSize;
      ghost var visited: seq<Addr> := [];
      ThreadedStart(words, poolStart, poolEnd, blkSize);
      hide Threaded;
      while next < poolEnd
        invariant next == cur + blkSize && poolStart <= cur < poolEnd
        invariant blks == |visited| && cur == poolStart + blks * blkSize
        invariant Threaded(words[cur := None], poolStart, poolEnd, blkSize, visited, cur)
        decreases poolEnd - next
      {
        blks := blks + 1;
        ThreadedStep(words, poolStart, poolEnd, blkSize, visited, cur);
        words := words[cur := Some(next)];
        visited := visited + [cur];
        cur := next;
        next := cur + blkSize;
      }
      Count(blks, blkSize, poolSize);
      if next == poolEnd {
        blks := blks + 1;
      }
      words := words[cur := None];
      start, end, whole, avail, size, first := poolStart, poolEnd, blks, blks, blkSize, Some(poolStart);
      chain, out := visited + [cur], {};
      Complete(visited, cur);
      return Success;
    }

    /** The last block may be a fragment. */
    lemma Complete(visited: seq<Addr>, cur: Addr)
      requires size > 0 && Threaded(words, start, end, size, visited, cur)
      requires chain == visited + [cur] && out == {} && first == Some(start) && cur < end <= cur + size
      requires whole == avail == if cur + size == end then |visited| + 1 else |visited|
      ensures Inv()
    {
      assert forall a :: a in chain <==> a in visited || a == cur;
      assert forall a: Addr :: IsBlock(start, end, size, a) ==> a <= cur;
      forall i | 0 <= i < avail ensures IsBlock(start, end, size, chain[i]) {
        if i < |visited| { assert chain[i] in visited; }
      }
    }

    /** `krhino_mblk_alloc`: a whole block that overlaps no block handed out, or an error if all whole
        blocks are out. The fragment is never handed out. */
    method Alloc() returns (st: Status, blk: Option<Addr>)
      requires Inv()
      modifies this`avail, this`first, this`chain, this`out
      ensures Inv()
      ensures st == if old(avail) > 0 then Success else NoMemory
      ensures st == NoMemory ==> blk == None && out == old(out) && |out| == whole
      ensures st == Success ==>
                && blk.Some? && blk.value !in old(out) && out == old(out) + {blk.value}
                && IsBlock(start, end, size, blk.value)
                && forall a :: a in old(out) ==> a + size <= blk.value || blk.value + size <= a
    {
      if avail > 0 {
        var b := first.value;
        assert b == chain[0];
        AllApart(b);
        Rest();
        first := words[b];
        avail := avail - 1;
        out := out + {b};
        chain := chain[1..];
        return Success, Some(b);
      }
      return NoMemory, None;
    }

    lemma AllApart(b: Addr)
      requires Inv() && IsBlock(start, end, size, b) && b !in out
      ensures forall a :: a in out ==> a + size <= b || b + size <= a
    {
      forall a | a in out ensures a + size <= b || b + size <= a {
        if a < b { Apart(start, end, size, a, b); } else { Apart(start, end, size, b, a); }
      }
    }

    lemma Rest()
      requires Inv() && avail > 0
      ensures forall a :: a in chain <==> a == chain[0] || a in chain[1..]
      ensures forall i :: 0 <= i < |chain| - 1 ==> chain[1..][i] == chain[i + 1] && chain[i + 1] != chain[0]
    {
      forall i | 0 <= i < |chain| - 1 ensures chain[1..][i] == chain[i + 1] && chain[i + 1] != chain[0] {
        assert chain[i + 1] in chain[1..];
      }
    }

    /** `krhino_mblk_free` of a block that is out */
    method Free(blk: Addr)
      requires Inv() && blk in out
      modifies this`avail, this`first, this`words, this`chain, this`out
      ensures Inv() && out == old(out) - {blk} && avail == old(avail) + 1
    {
      NotInChain(blk);
      ChainedFrame(words, first, chain, blk, first);
      NoDupCons(blk, chain);
      words := words[blk := first];
      first := Some(blk);
      avail := avail + 1;
      out := out - {blk};
      chain := [blk] + chain;
      assert chain[1..] == old(chain);
    }

    lemma NotInChain(blk: Addr)
      requires Inv() && blk in out
      ensures blk !in chain
    {
      forall i | 0 <= i < |chain| ensures chain[i] != blk {
      }
    }

    /** A client overwrites a block it holds: the chain does not run through it. */
    method Scribble(blk: Addr, w: Option<Addr>)
      requires Inv() && blk in out
      modifies this`words
      ensures Inv()
    {
      NotInChain(blk);
      ChainedFrame(words, first, chain, blk, w);
      words := words[blk := w];
    }
  }
}
