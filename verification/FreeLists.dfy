/** The size-class index of k_mm.c: level of a size, and free lists with their bitmap. */
module FreeLists {
  import opened Bits
  import opened Lists
  import opened HeapLayout

  /** `32 - krhino_clz32(n)` */
  function BitLength(n: nat): nat { if n == 0 then 0 else 1 + BitLength(n / 2) }

  lemma {:induction false} BitLengthBelow(n: nat, k: nat)
    ensures BitLength(n) <= k <==> n < Pow2(k)
  {
    if n != 0 && k != 0 {
      BitLengthBelow(n / 2, k - 1);
    }
  }

  /** `size_to_level`: bit length minus `MM_MIN_BIT`, or -1 beyond the largest class. */
  function Level(size: nat): int {
    var cnt := BitLength(size);
    if cnt < MIN_BIT then 0 else if cnt > MAX_BIT then -1 else cnt - MIN_BIT
  }

  /** The class of a size: between consecutive powers of two. */
  lemma LevelBounds(size: nat)
    requires MIN_SIZE <= size
    ensures Level(size) == -1 <==> size >= MAX_SIZE
    ensures size < MAX_SIZE ==>
              var l := Level(size);
              0 <= l < LEVELS - 1 && Pow2(l + MIN_BIT - 1) <= size < Pow2(l + MIN_BIT)
  {
    BitLengthBelow(size, MAX_BIT);
    BitLengthBelow(size, MIN_BIT - 1);
    assert Pow2(MAX_BIT) == MAX_SIZE by { PowerMax(); }
    assert Pow2(5) == 32 by { assert Pow2(2) == 4; assert Pow2(4) == 16; }
    BitLengthBelow(size, BitLength(size));
    if BitLength(size) > 0 {
      BitLengthBelow(size, BitLength(size) - 1);
    }
  }

  lemma PowerMax()
    ensures Pow2(19) == 0x8_0000
  {
    assert Pow2(4) == 16;
    assert Pow2(8) == 256;
    assert Pow2(12) == 4096;
    assert Pow2(16) == 65536;
  }

  /** A block of a higher class is larger. */
  lemma HigherLevelIsLarger(a: nat, b: nat)
    requires Level(a) >= 0 && Level(b) > Level(a)
    ensures b > a
  {
    if b <= a {
      BitLengthBelow(a, BitLength(a));
      BitLengthBelow(b, BitLength(a));
    }
  }

  /** List `l` holds, once, exactly the blocks of `fs` of that class; a bit is set iff its list
      is not empty. */
  ghost predicate Listed(h: Headers, fs: set<Addr>, fl: seq<seq<Addr>>, bits: seq<bool>) {
    && |fl| == LEVELS && |bits| == LEVELS
    && (forall l :: 0 <= l < LEVELS ==> NoDup(fl[l]) && (bits[l] <==> fl[l] != []))
    && (forall l, b {:trigger b in fl[l]} :: 0 <= l < LEVELS && b in fl[l] ==>
          b in fs && b in h && Level(h[b].size) == l)
    && (forall b :: b in fs ==> b in h && 0 <= Level(h[b].size) < LEVELS && b in fl[Level(h[b].size)])
  }

  lemma ListedInsert(h: Headers, fs: set<Addr>, fl: seq<seq<Addr>>, bits: seq<bool>, b: Addr)
    requires Listed(h, fs, fl, bits) && b in h && b !in fs && 0 <= Level(h[b].size) < LEVELS
    ensures
      var l := Level(h[b].size);
      Listed(h, fs + {b}, fl[l := [b] + fl[l]], bits[l := true])
  {
    var l := Level(h[b].size);
    NoDupCons(b, fl[l]);
    assert forall c :: c in [b] + fl[l] <==> c == b || c in fl[l];
  }

  lemma ListedDelete(h: Headers, fs: set<Addr>, fl: seq<seq<Addr>>, bits: seq<bool>, b: Addr)
    requires Listed(h, fs, fl, bits) && b in fs
    ensures
      b in h &&
      var l := Level(h[b].size);
      && 0 <= l < LEVELS && b in fl[l]
      && Listed(h, fs - {b}, fl[l := Without(fl[l], b)], bits[l := Without(fl[l], b) != []])
  {
  }

  /** The lists only depend on the sizes of listed blocks. */
  lemma ListedFrame(h: Headers, h': Headers, fs: set<Addr>, fl: seq<seq<Addr>>, bits: seq<bool>)
    requires Listed(h, fs, fl, bits)
    requires forall b :: b in fs && b in h ==> b in h' && h'[b].size == h[b].size
    ensures Listed(h', fs, fl, bits)
  {
  }
}
