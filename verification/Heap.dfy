/** The general heap of k_mm.c: boundary-tagged blocks in size-class free lists. */
module Heaps {
  import opened Bits
  import opened Lists
  import opened HeapLayout
  import opened FreeLists
  import opened HeapMoves
  import opened HeapRegions

  /** `MM_ALIGN_UP` on a 32-bit `size_t`: the sum wraps. */
  function AlignUp(a: nat): (r: nat)
    ensures r % ALIGN == 0 && r < WORD
    ensures a <= WORD - ALIGN ==> a <= r < a + ALIGN
  {
    var s := (a + ALIGN - 1) % WORD;
    s - s % ALIGN
  }

  /** The buffer size a request of `size` bytes is rounded to. */
  function Rounded(size: nat): (r: nat)
    ensures r % ALIGN == 0 && MIN_SIZE <= r < WORD
    ensures size <= WORD - ALIGN ==> size <= r && (r < size + ALIGN || r == MIN_SIZE)
    ensures WORD - ALIGN < size < WORD ==> r == MIN_SIZE
  {
    if AlignUp(size) < MIN_SIZE then MIN_SIZE else AlignUp(size)
  }

  /** Rounding never shrinks a request, except within seven bytes of the top of the address space. */
  lemma RoundedCovers(size: nat)
    requires size < WORD
    ensures Rounded(size) >= size <==> size <= WORD - ALIGN
  {
  }

  /** A request is rounded to the least multiple of the alignment that covers it and the least size. */
  lemma RoundedLeast(size: nat, n: nat)
    requires size <= WORD - ALIGN && n % ALIGN == 0
    ensures Rounded(size) <= n <==> size <= n && MIN_SIZE <= n
  {
    hide Rounded;
  }

  /** Large enough, and with too little left over for a block of its own. */
  predicate Snug(got: nat, size: nat) { size <= got < size + HEAD + MIN_SIZE }

  /** `RHINO_CONFIG_MM_TLF_BLK_SIZE`, and the least first region with `MIN_FREE_MEMORY_SIZE` more. */
  const POOL_BYTES: nat := 2048
  const FIRST_MIN: nat := 1024 + POOL_BYTES

  /** What is left of a region behind an aligned head. */
  lemma BehindHead(len: nat, size: nat, up: nat)
    requires len % ALIGN == 0 && up % ALIGN == 0 && size <= up < size + ALIGN && size <= len
    ensures len - size - (len - size) % ALIGN == len - up
  {
  }

  class Heap {
    var hdr: Headers
    var freelist: seq<seq<Addr>>
    var bitmap: seq<bool>
    var mem: seq<bv8>
    ghost var blocks: set<Addr>
    ghost var ground: Ground

    ghost predicate Inv()
      reads this
    {
      && Tile(hdr, blocks, ground)
      && NoFreePair(hdr, blocks, ground)
      && Listed(hdr, FreeSet(hdr, blocks), freelist, bitmap)
      && |mem| == |ground.home|
    }

    /** The live user buffers, by block, with their sizes. */
    ghost function Live(): map<Addr, nat>
      reads this
    {
      Buffers(hdr, blocks, ground)
    }

    // ----- regions -----

    /** A heap head without any region, over `n` bytes of memory. */
    constructor (n: nat)
      ensures Inv() && Live() == map[] && hdr == map[] && blocks == {} && FreeSet(hdr, blocks) == {} && |mem| == n
      ensures forall x: Addr :: !Lost(ground, x)
    {
      hdr, mem := map[], seq(n, i => 0);
      freelist, bitmap := seq(LEVELS, l => []), seq(LEVELS, l => false);
      blocks, ground := {}, Ground({}, {}, {}, seq(n, i => 0));
    }

    ghost predicate InList(b: Addr)
      reads this`freelist
    {
      exists l :: 0 <= l < |freelist| && b in freelist[l]
    }

    /** `krhino_init_mm_head` on an empty head: the first region lies behind the head, of `headSize`
        bytes, and the fixed-block pool of `poolSize` bytes and its blocks is its first buffer. */
    method InitHead(start: Addr, length: nat, headSize: nat, poolSize: nat, quick: bool) returns (ok: bool, pool: Option<Addr>)
      requires Inv() && blocks == {} && start + length <= |mem| < WORD - ALIGN && AlignUp(start) <= start + length
      requires headSize + poolSize <= 900
      modifies this
      ensures Inv() && |mem| == old(|mem|)
      ensures var len := start + length - AlignUp(start); ok == (FIRST_MIN <= len - len % ALIGN <= MAX_SIZE)
      ensures !ok ==> pool.None? && hdr == old(hdr) && blocks == old(blocks) && freelist == old(freelist)
      ensures ok ==>
                && pool.Some? && pool.value == Mid(AlignUp(start) + AlignUp(headSize)) + HEAD
                && Live().Keys == {pool.value - HEAD} && Snug(Live()[pool.value - HEAD], Rounded(POOL_BYTES + AlignUp(poolSize)))
                && AlignUp(start) + headSize <= pool.value && pool.value + Live()[pool.value - HEAD] <= start + length
    {
      hide Inv, Tile, Buffers, FreeSet, InList, AlignUp, Rounded, Snug;
      AlignUpNear(start);
      AlignUpNear(headSize);
      AlignUpNear(poolSize);
      var a := AlignUp(start);
      var len := length - (a - start);
      len := len - len % ALIGN;
      if len == 0 || len < FIRST_MIN || len > MAX_SIZE {
        return false, None;
      }
      BehindHead(len, headSize, AlignUp(headSize));
      pool := FirstRegion(a + AlignUp(headSize), len - headSize - (len - headSize) % ALIGN, POOL_BYTES + AlignUp(poolSize), quick);
      return true, pool;
    }

    /** The first region, with a first buffer that fits into it. */
    method FirstRegion(a: Addr, len: nat, size: nat, quick: bool) returns (pool: Option<Addr>)
      requires Inv() && blocks == {} && a % ALIGN == 0 && len % ALIGN == 0 && len <= MAX_SIZE && a + len <= |mem| < WORD - ALIGN
      requires size % ALIGN == 0 && POOL_BYTES <= size && size + REGION_MIN + HEAD <= len
      modifies this`hdr, this`freelist, this`bitmap, this`blocks, this`ground
      ensures Inv() && pool == Some(Mid(a) + HEAD) && Live().Keys == {Mid(a)} && Snug(Live()[Mid(a)], Rounded(size))
      ensures Mid(a) + HEAD + Live()[Mid(a)] <= a + len
    {
      hide Inv, Tile, Buffers, FreeSet, InList, Rounded;
      NothingUsed(a, len);
      OpenRegion(a, len);
      RoundedFix(size);
      assert Mid(a) in FreeSet(hdr, blocks) && hdr[Mid(a)].size >= Rounded(size);
      pool := Alloc(size, quick);
    }

    lemma NothingUsed(a: Addr, len: nat)
      requires Inv() && blocks == {}
      ensures Unused(hdr, blocks, a, len) && FreeSet(hdr, blocks) == {} && Live() == map[]
    {
    }

    /** `krhino_add_mm_region`: unused memory becomes one free block between two sentinels. The block
        is in a free list if and only if it belongs to a size class; the memory of a larger one is
        lost for good. */
    method AddRegion(start: Addr, length: nat) returns (ok: bool)
      requires Inv() && start + length <= |mem| < WORD - ALIGN && AlignUp(start) <= start + length
      requires Unused(hdr, blocks, start, length) && forall x: Addr :: start <= x < start + length ==> !Lost(ground, x)
      modifies this
      ensures Inv() && Live() == old(Live()) && |mem| == old(|mem|)
      ensures
        var a, len := AlignUp(start), start + length - AlignUp(start);
        && ok == (len - len % ALIGN >= REGION_MIN)
        && (!ok ==> hdr == old(hdr) && blocks == old(blocks) && mem == old(mem) && freelist == old(freelist))
        && (ok ==>
              var size := len - len % ALIGN - 3 * HEAD - INFO;
              && Mid(a) !in old(blocks) && Mid(a) in hdr && hdr[Mid(a)].free && hdr[Mid(a)].size == size
              && FreeSet(hdr, blocks) == old(FreeSet(hdr, blocks)) + (if size < MAX_SIZE then {Mid(a)} else {})
              && (InList(Mid(a)) <==> size < MAX_SIZE)
              && (forall i :: 0 <= i < |mem| ==> mem[i] == if a <= i < a + len - len % ALIGN then 0 else old(mem)[i])
              && forall x: Addr :: Lost(ground, x) <==> old(Lost(ground, x)) || (size >= MAX_SIZE && a <= x < a + len - len % ALIGN))
      ensures forall x :: x in Live() ==> SameBytes(old(mem), x, mem, x, Live()[x])
    {
      hide Inv, Tile, Buffers, FreeSet, InList, AlignUp, Lost;
      AlignUpNear(start);
      Ranges();
      var a := AlignUp(start);
      var len := length - (a - start);
      len := len - len % ALIGN;
      if len == 0 || len < REGION_MIN {
        return false;
      }
      LostAfter(ground, a, len);
      Clear(a, len);
      OpenRegion(a, len);
      return true;
    }

    /** An aligned, large enough range is laid out and its middle block released. */
    method OpenRegion(a: Addr, len: nat)
      requires Inv() && a % ALIGN == 0 && len % ALIGN == 0 && REGION_MIN <= len && a + len <= |mem| && Unused(hdr, blocks, a, len)
      modifies this`hdr, this`freelist, this`bitmap, this`blocks, this`ground
      ensures Inv() && Live() == old(Live())
      ensures
        var size := len - 3 * HEAD - INFO;
        && Mid(a) !in old(blocks) && Mid(a) in hdr && hdr[Mid(a)].free && hdr[Mid(a)].size == size
        && FreeSet(hdr, blocks) == old(FreeSet(hdr, blocks)) + (if size < MAX_SIZE then {Mid(a)} else {})
        && (InList(Mid(a)) <==> size < MAX_SIZE)
        && (size >= MAX_SIZE ==> ground == Forgotten(old(ground), a, len))
        && (size < MAX_SIZE ==> ground == Wider(old(ground), a, len))
    {
      hide Tile, NoFreePair, Listed, Sound, Buffers, FreeSet, Fits;
      SoundNow();
      ghost var h0, fs := hdr, FreeSet(hdr, blocks);
      InitRegion(a, len);
      // k_mm_free of the middle block: neither neighbour is free
      var mid := Mid(a);
      hdr := hdr[mid := hdr[mid].(free := true)];
      var next := Next(hdr, mid);
      hdr := hdr[next := hdr[next].(prev := mid, prevFree := true)];
      assert hdr == Region(h0, a, len);
      if hdr[mid].size < MAX_SIZE {
        FitsNow(h0, blocks, ground, a, len);
        RegionSound(h0, blocks, ground, a, len);
        blocks, ground := Added(blocks, a, len), Wider(ground, a, len);
      } else {
        RegionForgotten(h0, blocks, ground, a, len);
        ground := Forgotten(ground, a, len);
      }
      FreesAreBlocks(h0, old(blocks));
      ListedFrame(h0, hdr, fs, freelist, bitmap);
      FreelistInsert(mid, fs);
      SoundThen();
    }

    /** `memset` of unused memory. */
    method Clear(a: Addr, len: nat)
      requires Inv() && Unused(hdr, blocks, a, len) && a + len <= |mem|
      modifies this`mem
      ensures Inv() && |mem| == old(|mem|) && forall x :: x in Live() ==> SameBytes(old(mem), x, mem, x, Live()[x])
      ensures forall i :: 0 <= i < |mem| ==> mem[i] == if a <= i < a + len then 0 else old(mem)[i]
    {
      hide Tile, NoFreePair, Listed, FreeSet, SameBytes, Buffers;
      Ranges();
      forall x | x in Live() ensures SameBytes(mem, x, mem[..a] + seq(len, i => 0) + mem[a + len..], x, Live()[x]) {
        LiveBlock(x);
        assert Next(hdr, x) <= a || a + len <= x;
        OtherBytes(mem, a, len, x, Live()[x]);
      }
      mem := mem[..a] + seq(len, i => 0) + mem[a + len..];
    }

    lemma OtherBytes(m: seq<bv8>, a: Addr, len: nat, x: Addr, n: nat)
      requires a + len <= |m| && x + HEAD + n <= |m| && (x + HEAD + n <= a || a + len <= x)
      ensures SameBytes(m, x, m[..a] + seq(len, i => 0) + m[a + len..], x, n)
    {
      var m' := m[..a] + seq(len, i => 0) + m[a + len..];
      forall i | x <= i < x + HEAD + n ensures m'[i] == m[i] {
        if i >= a + len { assert m'[i] == m[a + len..][i - a - len]; }
      }
    }

    /** No live buffer reaches into lost memory, now or after any call but a new region. */
    lemma LostForever(x: Addr, b: Addr)
      requires Inv() && Lost(ground, x) && b in Live()
      ensures !(b <= x < b + HEAD + Live()[b])
    {
      At(hdr, blocks, ground, b);
    }

    /** `init_mm_region`: the last block claims a free left neighbour before there is one. */
    method InitRegion(a: Addr, len: nat)
      requires len >= REGION_MIN
      modifies this`hdr
      ensures hdr == old(hdr)[a := Header(INFO, false, false, 0)]
                             [Mid(a) := Header(Last(a, len) - Mid(a) - HEAD, false, false, 0)]
                             [Last(a, len) := Header(0, false, true, Mid(a))]
    {
      hdr := hdr[a := Header(INFO, false, false, 0)];
      var last := a + len - HEAD;
      var mid := Next(hdr, a);
      hdr := hdr[mid := Header(last - (mid + HEAD), false, false, 0)];
      hdr := hdr[last := Header(0, false, true, mid)];
    }

    lemma AlignUpNear(a: nat)
      requires a < WORD - ALIGN
      ensures a <= AlignUp(a) < a + ALIGN
    {
    }

    lemma FreesAreBlocks(h: Headers, bs: set<Addr>)
      ensures forall b :: b in FreeSet(h, bs) ==> b in bs
    {
    }

    // ----- free lists -----

    /** `k_mm_freelist_insert` */
    method FreelistInsert(b: Addr, ghost fs: set<Addr>)
      requires b in hdr && MIN_SIZE <= hdr[b].size
      requires Listed(hdr, fs, freelist, bitmap) && b !in fs
      modifies this`freelist, this`bitmap
      ensures hdr[b].size < MAX_SIZE ==> Listed(hdr, fs + {b}, freelist, bitmap)
      ensures hdr[b].size >= MAX_SIZE ==> freelist == old(freelist) && bitmap == old(bitmap)
    {
      LevelBounds(hdr[b].size);
      var level := Level(hdr[b].size);
      if level < 0 || level >= LEVELS {
        return;
      }
      ListedInsert(hdr, fs, freelist, bitmap, b);
      freelist := freelist[level := [b] + freelist[level]];
      bitmap := bitmap[level := true];
    }

    /** `k_mm_freelist_delete` */
    method FreelistDelete(b: Addr, ghost fs: set<Addr>)
      requires Listed(hdr, fs, freelist, bitmap) && b in fs
      modifies this`freelist, this`bitmap
      ensures Listed(hdr, fs - {b}, freelist, bitmap)
    {
      ListedDelete(hdr, fs, freelist, bitmap, b);
      var level := Level(hdr[b].size);
      freelist := freelist[level := Without(freelist[level], b)];
      if freelist[level] == [] {
        bitmap := bitmap[level := false];
      }
      assert bitmap == old(bitmap)[level := freelist[level] != []];
    }

    /** `find_up_level`: the head of the lowest non-empty list above `level`. */
    method FindUpLevel(level: int, ghost fs: set<Addr>) returns (b: Option<Addr>)
      requires Listed(hdr, fs, freelist, bitmap) && 0 <= level < LEVELS
      ensures b.Some? ==>
                && b.value in fs && Level(hdr[b.value].size) > level
                && freelist[Level(hdr[b.value].size)] != [] && b.value == freelist[Level(hdr[b.value].size)][0]
                && forall c :: c in fs && Level(hdr[c].size) > level ==> Level(hdr[b.value].size) <= Level(hdr[c].size)
      ensures b.None? ==> forall c :: c in fs ==> Level(hdr[c].size) <= level
    {
      var l := level + 1;
      while l < LEVELS && !bitmap[l]
        invariant level < l <= LEVELS
        invariant forall k :: level < k < l ==> !bitmap[k]
      {
        l := l + 1;
      }
      if l < LEVELS {
        assert freelist[l][0] in freelist[l];
        return Some(freelist[l][0]);
      }
      return None;
    }

    /** The search loop over one free list. */
    method FindInLevel(level: int, size: nat, ghost fs: set<Addr>) returns (b: Option<Addr>)
      requires Listed(hdr, fs, freelist, bitmap) && 0 <= level < LEVELS
      ensures b.Some? ==>
                && b.value in fs && hdr[b.value].size >= size && Level(hdr[b.value].size) == level
                && exists i :: 0 <= i < |freelist[level]| && freelist[level][i] == b.value
                                 && forall j :: 0 <= j < i ==> freelist[level][j] in hdr && hdr[freelist[level][j]].size < size
      ensures b.None? ==> forall c :: c in fs && Level(hdr[c].size) == level ==> hdr[c].size < size
    {
      var i := 0;
      var list := freelist[level];
      while i < |list|
        invariant i <= |list|
        invariant forall j :: 0 <= j < i ==> list[j] in hdr && hdr[list[j]].size < size
      {
        assert list[i] in freelist[level];
        if hdr[list[i]].size >= size {
          return Some(list[i]);
        }
        i := i + 1;
      }
      return None;
    }

    /** The search of `k_mm_alloc`, with `RHINO_CONFIG_MM_QUICK` on or off: it finds a large
        enough block iff there is one anywhere. */
    method FindBlock(size: nat, quick: bool, ghost fs: set<Addr>) returns (b: Option<Addr>)
      requires Listed(hdr, fs, freelist, bitmap) && size >= MIN_SIZE
      requires forall c :: c in fs ==> c in hdr && MIN_SIZE <= hdr[c].size < MAX_SIZE
      ensures b.Some? ==> b.value in fs && hdr[b.value].size >= size
      ensures b.None? <==> forall c :: c in fs ==> hdr[c].size < size
      ensures b.Some? && quick && Level(hdr[b.value].size) == Level(size) ==> forall c :: c in fs ==> Level(hdr[c].size) <= Level(size)
      ensures b.Some? && !quick && Level(hdr[b.value].size) > Level(size) ==>
                forall c :: c in fs && Level(hdr[c].size) == Level(size) ==> hdr[c].size < size
    {
      LevelBounds(size);
      var level := Level(size);
      if level == -1 {
        return None;
      }
      if quick {
        b := FindUpLevel(level, fs);
        if b.None? {
          b := FindInLevel(level, size, fs);
        }
      } else {
        b := FindInLevel(level, size, fs);
        if b.None? {
          b := FindUpLevel(level, fs);
        }
      }
      forall c | c in fs
        ensures Level(hdr[c].size) > level ==> hdr[c].size >= size
        ensures Level(hdr[c].size) < level ==> hdr[c].size < size
      {
        LevelBounds(hdr[c].size);
        if Level(hdr[c].size) > level {
          HigherLevelIsLarger(size, hdr[c].size);
        } else if Level(hdr[c].size) < level {
          HigherLevelIsLarger(hdr[c].size, size);
        }
      }
    }

    // ----- k_mm_alloc -----

    lemma FreeBlocks()
      requires Inv()
      ensures forall c :: c in FreeSet(hdr, blocks) ==>
                IsInner(blocks, ground, c) && c in hdr && hdr[c].free && MIN_SIZE <= hdr[c].size < MAX_SIZE && hdr[c].size % ALIGN == 0
    {
      forall c | c in FreeSet(hdr, blocks)
        ensures IsInner(blocks, ground, c) && MIN_SIZE <= hdr[c].size < MAX_SIZE && hdr[c].size % ALIGN == 0
      {
        At(hdr, blocks, ground, c);
        SizeBound(hdr, blocks, ground, c);
      }
    }

    /** `k_mm_alloc`, for a request that reaches the general heap: unless the request is within seven bytes
        of the top of the address space, it fails iff no free block has as many bytes. */
    method Alloc(size: nat, quick: bool) returns (ptr: Option<Addr>)
      requires Inv() && size < WORD
      modifies this`hdr, this`freelist, this`bitmap, this`blocks
      ensures Inv()
      ensures ptr.None? <==> size == 0 || forall c :: c in old(FreeSet(hdr, blocks)) ==> old(hdr)[c].size < Rounded(size)
      ensures 0 < size <= WORD - ALIGN ==> (ptr.None? <==> forall c :: c in old(FreeSet(hdr, blocks)) ==> old(hdr)[c].size < size)
      ensures ptr.Some? && size <= WORD - ALIGN && ptr.value - HEAD in Live() ==>
                && size <= Live()[ptr.value - HEAD]
                && (Live()[ptr.value - HEAD] < size + ALIGN + HEAD + MIN_SIZE || Live()[ptr.value - HEAD] < HEAD + 2 * MIN_SIZE)
      ensures ptr.None? ==> hdr == old(hdr) && blocks == old(blocks) && freelist == old(freelist)
      ensures ptr.Some? ==>
                && ptr.value >= HEAD && ptr.value - HEAD in old(FreeSet(hdr, blocks))
                && ptr.value - HEAD in Live() && Snug(Live()[ptr.value - HEAD], Rounded(size))
                && Live() == old(Live())[ptr.value - HEAD := Live()[ptr.value - HEAD]]
    {
      hide Inv, FreeSet, Buffers, Rounded, Level, Listed;
      if size == 0 {
        return None;
      }
      FreeBlocks();
      ListedNow();
      if size <= WORD - ALIGN {
        RoundedExact(size);
      }
      var need := Rounded(size);
      var b := FindBlock(need, quick, FreeSet(hdr, blocks));
      if b.None? {
        return None;
      }
      Carve(b.value, need);
      return Some(b.value + HEAD);
    }

    /** A free block is taken off its list, and split if enough is left over. */
    method Carve(b: Addr, size: nat)
      requires Inv() && b in FreeSet(hdr, blocks) && size % ALIGN == 0 && MIN_SIZE <= size <= hdr[b].size
      modifies this`hdr, this`freelist, this`bitmap, this`blocks
      ensures Inv() && b in Live() && Snug(Live()[b], size) && Live() == old(Live())[b := Live()[b]]
    {
      hide Tile, NoFreePair, Listed, Sound;
      FreeBlocks();
      SoundNow();
      ghost var h0, bs0, fs := hdr, blocks, FreeSet(hdr, blocks);
      FreelistDelete(b, fs);
      RightNeighbour(hdr, blocks, ground, b);
      var next := Next(hdr, b);
      if hdr[b].size >= size + HEAD + MIN_SIZE {
        TakePart(h0, bs0, ground, b, size);
        var left := hdr[b].size - size - HEAD;
        hdr := hdr[b := hdr[b].(size := size, free := false)];
        var new_ := b + HEAD + size;
        hdr := hdr[new_ := Header(left, true, false, b)];
        hdr := hdr[next := hdr[next].(prev := new_)];
        blocks := blocks + {new_};
        ListedFrame(h0, hdr, fs - {b}, freelist, bitmap);
        FreelistInsert(new_, fs - {b});
      } else {
        TakeWhole(h0, bs0, ground, b);
        hdr := hdr[next := hdr[next].(prevFree := false)];
        hdr := hdr[b := hdr[b].(free := false)];
        assert hdr == SetFree(h0, b, false);
        ListedFrame(h0, hdr, fs - {b}, freelist, bitmap);
      }
      SoundThen();
    }

    lemma ListedNow()
      requires Inv()
      ensures Listed(hdr, FreeSet(hdr, blocks), freelist, bitmap)
    {
    }

    lemma SoundNow()
      requires Inv()
      ensures Sound(hdr, blocks, ground)
    {
    }

    lemma SoundThen()
      requires Sound(hdr, blocks, ground)
      ensures Tile(hdr, blocks, ground) && NoFreePair(hdr, blocks, ground)
    {
    }

    // ----- k_mm_free -----

    /** `k_mm_free` of a live buffer: merges with both neighbours. */
    method Free(ptr: Option<Addr>)
      requires Inv() && (ptr.Some? ==> ptr.value >= HEAD && ptr.value - HEAD in Live())
      modifies this`hdr, this`freelist, this`bitmap, this`blocks
      ensures Inv()
      ensures ptr.None? ==> hdr == old(hdr) && blocks == old(blocks)
      ensures ptr.Some? && ptr.value >= HEAD ==> Live() == old(Live()) - {ptr.value - HEAD}
    {
      if ptr.Some? {
        Release(ptr.value - HEAD);
      }
    }

    method Release(b: Addr)
      requires Inv() && b in Live()
      modifies this`hdr, this`freelist, this`bitmap, this`blocks
      ensures Inv() && Live() == old(Live()) - {b}
    {
      hide Tile, NoFreePair, Listed, Sound, NoFreePairBut, Near, FreeSet, Buffers;
      var _, hR, fs := MergeRight(b);
      var target, hF, fs' := MergeLeft(b, hR, fs);
      FreelistInsert(target, fs');
      LinkRight(target, hF, fs' + {target});
    }

    /** Setting the free flag and merging with a free right neighbour. */
    method MergeRight(b: Addr) returns (merged: bool, ghost hR: Headers, ghost fs: set<Addr>)
      requires Inv() && b in Live()
      modifies this`hdr, this`freelist, this`bitmap, this`blocks
      ensures Tile(hR, blocks, ground) && NoFreePairBut(hR, blocks, ground, b) && IsInner(blocks, ground, b)
      ensures b in hR && hR[b].free && Next(hR, b) in hR && !hR[Next(hR, b)].free
      ensures Near(hdr, hR, blocks, b) && FreeSet(hR, blocks) == fs + {b} && b !in fs
      ensures Listed(hdr, fs, freelist, bitmap)
      ensures Buffers(hR, blocks, ground) == old(Live()) - {b}
    {
      hide Tile, NoFreePair, Listed, Sound, NoFreePairBut, Buffers, Near, FreedRight;
      SoundNow();
      LiveBlock(b);
      ghost var h0 := hdr;
      fs := FreeSet(hdr, blocks);
      GiveRight(hdr, blocks, ground, b);
      NearRight(hdr, blocks, ground, b);
      hR := FreedRight(h0, b);
      hdr := hdr[b := hdr[b].(free := true)];
      var next := Next(hdr, b);
      merged := hdr[next].free;
      ListedFrame(h0, hdr, fs, freelist, bitmap);
      if merged {
        FreelistDelete(next, fs);
        fs := fs - {next};
        ghost var h1 := hdr;
        hdr := hdr[b := hdr[b].(size := hdr[b].size + HEAD + hdr[next].size)];
        blocks := blocks - {next};
        ListedFrame(h1, hdr, fs, freelist, bitmap);
      }
      assert hdr == UnlinkedRight(h0, b);
    }

    /** Merging with a free left neighbour. */
    method MergeLeft(b: Addr, ghost hR: Headers, ghost fs: set<Addr>)
      returns (target: Addr, ghost hF: Headers, ghost fs': set<Addr>)
      requires Tile(hR, blocks, ground) && NoFreePairBut(hR, blocks, ground, b) && IsInner(blocks, ground, b)
      requires b in hR && hR[b].free && Next(hR, b) in hR && !hR[Next(hR, b)].free && Next(hR, b) != b
      requires Near(hdr, hR, blocks, b) && FreeSet(hR, blocks) == fs + {b} && b !in fs
      requires Listed(hdr, fs, freelist, bitmap)
      modifies this`hdr, this`freelist, this`bitmap, this`blocks
      ensures Sound(hF, blocks, ground) && IsInner(blocks, ground, target)
      ensures Near(hdr, hF, blocks, target) && FreeSet(hF, blocks) == fs' + {target} && target !in fs'
      ensures Listed(hdr, fs', freelist, bitmap)
      ensures target in hdr && target in hF && hdr[target].size == hF[target].size
      ensures MIN_SIZE <= hF[target].size < MAX_SIZE
      ensures Buffers(hF, blocks, ground) == Buffers(hR, old(blocks), ground)
    {
      hide Tile, NoFreePair, Listed, Sound, NoFreePairBut;
      GiveLeft(hR, blocks, ground, b);
      target, hF, fs' := b, hR, fs;
      if hdr[b].prevFree {
        var p := hdr[b].prev;
        FreelistDelete(p, fs);
        fs' := fs - {p};
        ghost var h2 := hdr;
        hdr := hdr[p := hdr[p].(size := hdr[p].size + HEAD + hdr[b].size)];
        hF := Absorb(hR, p);
        blocks := blocks - {b};
        target := p;
        ListedFrame(h2, hdr, fs', freelist, bitmap);
      }
      SizeAt(hF, target);
    }

    /** The block after the merged one learns about its left neighbour. */
    method LinkRight(t: Addr, ghost hF: Headers, ghost fs: set<Addr>)
      requires Sound(hF, blocks, ground) && IsInner(blocks, ground, t) && Near(hdr, hF, blocks, t)
      requires t in hdr && t in hF && hdr[t].size == hF[t].size
      requires FreeSet(hF, blocks) == fs && Listed(hdr, fs, freelist, bitmap) && |mem| == |ground.home|
      modifies this`hdr
      ensures Inv() && Live() == Buffers(hF, blocks, ground)
    {
      hide Tile, NoFreePair, Listed, Sound;
      SizeAt(hF, t);
      ghost var h3 := hdr;
      var next := Next(hdr, t);
      hdr := hdr[next := hdr[next].(prev := t, prevFree := true)];
      SoundFrame(hF, hdr, blocks, ground);
      ListedFrame(h3, hdr, fs, freelist, bitmap);
      SoundThen();
    }

    lemma LiveBlock(b: Addr)
      requires Inv() && b in Live()
      ensures IsInner(blocks, ground, b) && b in hdr && !hdr[b].free && hdr[b].size == Live()[b]
    {
    }

    lemma BelowLargest(b: Addr)
      requires Inv() && b in Live()
      ensures Live()[b] <= MAX_SIZE - ALIGN
    {
      SizeBound(hdr, blocks, ground, b);
    }

    lemma SizeAt(h: Headers, b: Addr)
      requires Sound(h, blocks, ground) && IsInner(blocks, ground, b)
      ensures b in h && MIN_SIZE <= h[b].size < MAX_SIZE && Next(h, b) in blocks && Next(h, b) in h
    {
      SizeBound(h, blocks, ground, b);
      NextBlock(h, blocks, ground, b);
    }

    // ----- k_mm_realloc -----

    /** `k_mm_realloc`: in place if the block or its free right neighbour allow it, else by copying.
        The old contents survive up to the smaller of both sizes; other buffers are not touched. */
    method Realloc(ptr: Option<Addr>, newSize: nat, quick: bool) returns (r: Option<Addr>)
      requires Inv() && newSize < WORD
      requires ptr.Some? ==> ptr.value >= HEAD && ptr.value - HEAD in Live()
      modifies this`hdr, this`freelist, this`bitmap, this`blocks, this`mem
      ensures Inv()
      ensures newSize == 0 ==> r.None? && Live() == if ptr.None? then old(Live()) else old(Live()) - {ptr.value - HEAD}
      ensures newSize > 0 && r.None? ==>
                && Live() == old(Live())
                && forall c :: c in old(FreeSet(hdr, blocks)) ==> old(hdr)[c].size < Rounded(newSize)
      ensures 0 < newSize <= WORD - ALIGN && r.None? ==> forall c :: c in old(FreeSet(hdr, blocks)) ==> old(hdr)[c].size < newSize
      ensures 0 < newSize <= WORD - ALIGN && r.Some? && r.value >= HEAD && r.value - HEAD in Live() ==>
                && newSize <= Live()[r.value - HEAD]
                && (Live()[r.value - HEAD] < newSize + ALIGN + HEAD + MIN_SIZE || Live()[r.value - HEAD] < HEAD + 2 * MIN_SIZE)
      ensures r.None? || ptr.None? ==> mem == old(mem)
      ensures r.Some? ==> r.value >= HEAD
      ensures r.Some? && ptr.None? ==>
                && r.value - HEAD !in old(Live()) && r.value - HEAD in Live()
                && Snug(Live()[r.value - HEAD], Rounded(newSize))
                && Live() == old(Live())[r.value - HEAD := Live()[r.value - HEAD]]
      ensures r.Some? && ptr.Some? ==>
                && Resized(old(Live()), old(mem), Live(), mem, ptr.value - HEAD, r.value - HEAD, Rounded(newSize))
                && r.value - HEAD in Live() && Snug(Live()[r.value - HEAD], Rounded(newSize))
      ensures 0 < newSize <= WORD - ALIGN && ptr.Some? && ptr.value - HEAD in old(hdr) ==>
                var b := ptr.value - HEAD;
                var next := b + HEAD + old(hdr)[b].size;
                && (newSize <= old(hdr)[b].size ==> r == ptr)
                && (next in old(hdr) && old(hdr)[next].free && newSize <= old(hdr)[b].size + HEAD + old(hdr)[next].size ==> r == ptr)
    {
      hide Inv, Buffers, FreeSet, Resized, Rounded;
      FreeIsNotLive();
      if newSize <= WORD - ALIGN {
        RoundedExact(newSize);
      }
      if ptr.None? {
        r := Alloc(newSize, quick);
        return;
      }
      if newSize == 0 {
        Free(ptr);
        return None;
      }
      var b := ptr.value - HEAD;
      LiveBlock(b);
      Ranges();
      var need := Rounded(newSize);
      if need <= hdr[b].size {
        Shrink(b, need);
        ResizedInPlace(old(Live()), Live(), mem, b, need);
        return ptr;
      }
      var next := NextOf(b);
      ghost var total := hdr[b].size + HEAD + hdr[next].size;
      if newSize <= WORD - ALIGN && hdr[next].free { TotalAligned(b); RoundedLeast(newSize, total); }
      if hdr[next].free && need <= hdr[b].size + HEAD + hdr[next].size {
        Enlarge(b, need);
        ResizedInPlace(old(Live()), Live(), mem, b, need);
        return ptr;
      }
      r := Move(b, need, quick);
    }

    /** As sizes are aligned, a buffer holds a request iff it holds the rounded request. */
    lemma RoundedExact(size: nat)
      requires Inv() && size <= WORD - ALIGN
      ensures forall c :: c in FreeSet(hdr, blocks) ==> c in hdr && (Rounded(size) <= hdr[c].size <==> size <= hdr[c].size)
      ensures forall b :: b in Live() ==> b in hdr && (Rounded(size) <= hdr[b].size <==> size <= hdr[b].size)
    {
      hide Inv, Rounded, FreeSet, Buffers;
      FreeBlocks();
      forall c | c in FreeSet(hdr, blocks) ensures c in hdr && (Rounded(size) <= hdr[c].size <==> size <= hdr[c].size) {
        RoundedLeast(size, hdr[c].size);
      }
      forall b | b in Live() ensures b in hdr && (Rounded(size) <= hdr[b].size <==> size <= hdr[b].size) {
        LiveAligned(b);
        RoundedLeast(size, hdr[b].size);
      }
    }

    lemma LiveAligned(b: Addr)
      requires Inv() && b in Live()
      ensures b in hdr && hdr[b].size % ALIGN == 0 && MIN_SIZE <= hdr[b].size
    {
      SizeBound(hdr, blocks, ground, b);
    }

    lemma TotalAligned(b: Addr)
      requires Inv() && b in Live() && b in hdr && Next(hdr, b) in hdr && hdr[Next(hdr, b)].free
      ensures (hdr[b].size + HEAD + hdr[Next(hdr, b)].size) % ALIGN == 0 && MIN_SIZE <= hdr[b].size
    {
      LiveAligned(b);
      RightNeighbour(hdr, blocks, ground, b);
      At(hdr, blocks, ground, Next(hdr, b));
    }

    lemma FreeIsNotLive()
      ensures forall x :: x in FreeSet(hdr, blocks) ==> x !in Live()
    {
    }

    lemma RoundedFix(size: nat)
      requires size % ALIGN == 0 && MIN_SIZE <= size < WORD
      ensures Rounded(size) == size
    {
    }

    lemma Ranges()
      requires Inv()
      ensures InRange(Live(), mem) && |mem| == |ground.home|
    {
      forall x | x in Live() ensures x + HEAD + Live()[x] <= |mem| {
        SizeBound(hdr, blocks, ground, x);
      }
    }

    /** Two live buffers share no byte. */
    lemma LiveDisjoint(x: Addr, y: Addr)
      requires Inv() && x in Live() && y in Live() && x != y
      ensures x + HEAD + Live()[x] <= y || y + HEAD + Live()[y] <= x
    {
      BuffersDisjoint(hdr, blocks, ground, x, y);
    }

    method NextOf(b: Addr) returns (n: Addr)
      requires Inv() && b in Live() && b in hdr
      ensures n == Next(hdr, b) && n in hdr
    {
      RightNeighbour(hdr, blocks, ground, b);
      n := Next(hdr, b);
    }

    /** The shrink branch. A free right neighbour taken off its list always leaves room for a
        split, so it never gets lost. */
    method Shrink(b: Addr, need: nat)
      requires Inv() && b in Live() && need % ALIGN == 0 && MIN_SIZE <= need <= Live()[b]
      modifies this`hdr, this`freelist, this`bitmap, this`blocks
      ensures Inv() && b in Live() && Live() == old(Live())[b := Live()[b]]
      ensures Snug(Live()[b], need) && (Live()[b] == need || Live()[b] == old(Live())[b])
      ensures old(b in hdr && Next(hdr, b) in hdr && hdr[Next(hdr, b)].free) ==> Live()[b] == need
    {
      hide Tile, NoFreePair, Listed, Sound, Buffers, FreeSet;
      LiveBlock(b);
      SoundNow();
      FreeBlocks();
      ghost var h0, fs := hdr, FreeSet(hdr, blocks);
      ShrinkSound(h0, blocks, ground, b, need);
      var next := Next(hdr, b);
      var oldSize := hdr[b].size;
      if hdr[next].free {
        FreelistDelete(next, fs);
        oldSize := oldSize + HEAD + hdr[next].size;
        fs, blocks := fs - {next}, blocks - {next};
        next := Next(hdr, next);
      }
      assert fs == FreeSet(h0, old(blocks)) - {Next(h0, b)};
      if oldSize >= need + HEAD + MIN_SIZE {
        var left := oldSize - need - HEAD;
        hdr := hdr[b := hdr[b].(size := need)];
        var split := b + HEAD + need;
        hdr := hdr[split := Header(left, true, false, b)];
        hdr := hdr[next := hdr[next].(prev := split, prevFree := true)];
        assert hdr == Shrunk(h0, b, need);
        blocks := blocks + {split};
        ListedFrame(h0, hdr, fs, freelist, bitmap);
        FreelistInsert(split, fs);
      }
      SoundThen();
    }

    /** The enlarge branch: absorb the right neighbour, give back what is too much. */
    method Enlarge(b: Addr, need: nat)
      requires Inv() && b in Live() && need % ALIGN == 0 && MIN_SIZE <= need
      requires b in hdr && Next(hdr, b) in hdr && hdr[Next(hdr, b)].free
      requires need <= Live()[b] + HEAD + hdr[Next(hdr, b)].size
      modifies this`hdr, this`freelist, this`bitmap, this`blocks
      ensures Inv() && b in Live() && Snug(Live()[b], need) && Live() == old(Live())[b := Live()[b]]
    {
      hide Tile, NoFreePair, Listed, Sound, Buffers, FreeSet;
      AbsorbNext(b);
      CutIfRoom(b, need);
    }

    /** The free block right of `b` is taken off its list and becomes part of `b`. */
    method AbsorbNext(b: Addr)
      requires Inv() && b in Live() && b in hdr && Next(hdr, b) in hdr && hdr[Next(hdr, b)].free
      modifies this`hdr, this`freelist, this`bitmap, this`blocks
      ensures Inv() && b in hdr && Next(hdr, b) in hdr && !hdr[Next(hdr, b)].free
      ensures old(hdr[Next(hdr, b)].size >= MIN_SIZE)
      ensures Live() == old(Live())[b := old(Live()[b] + HEAD + hdr[Next(hdr, b)].size)]
    {
      hide Tile, NoFreePair, Listed, Sound, Buffers;
      LiveBlock(b);
      SoundNow();
      FreeBlocks();
      ghost var h0, fs := hdr, FreeSet(hdr, blocks);
      Swallow(hdr, blocks, ground, b);
      var next := Next(hdr, b);
      assert next in fs;
      FreelistDelete(next, fs);
      hdr := hdr[b := hdr[b].(size := hdr[b].size + HEAD + hdr[next].size)];
      blocks := blocks - {next};
      next := Next(hdr, b);
      hdr := hdr[next := hdr[next].(prev := b, prevFree := false)];
      assert hdr == Absorb(h0, b);
      ListedFrame(h0, hdr, fs - {Next(h0, b)}, freelist, bitmap);
      SoundThen();
    }

    /** If the block is large enough, its tail becomes a free block. */
    method CutIfRoom(b: Addr, need: nat)
      requires Inv() && b in Live() && need % ALIGN == 0 && MIN_SIZE <= need <= Live()[b]
      requires b in hdr && Next(hdr, b) in hdr && !hdr[Next(hdr, b)].free
      modifies this`hdr, this`freelist, this`bitmap, this`blocks
      ensures Inv() && b in Live() && Live() == old(Live())[b := Live()[b]]
      ensures Live()[b] == if old(Live())[b] >= need + HEAD + MIN_SIZE then need else old(Live())[b]
    {
      hide Tile, NoFreePair, Listed, Sound, Buffers;
      LiveBlock(b);
      if hdr[b].size >= need + HEAD + MIN_SIZE {
        SoundNow();
        ghost var h0, fs := hdr, FreeSet(hdr, blocks);
        CutTail(hdr, blocks, ground, b, need);
        SizeAt(hdr, b);
        var next, left := Next(hdr, b), hdr[b].size - need - HEAD;
        hdr := hdr[b := hdr[b].(size := need)];
        var split := b + HEAD + need;
        hdr := hdr[split := Header(left, true, false, b)];
        hdr := hdr[next := hdr[next].(prev := split, prevFree := true)];
        assert hdr == Split(h0, b, need, true);
        blocks := blocks + {split};
        ListedFrame(h0, hdr, fs, freelist, bitmap);
        FreelistInsert(split, fs);
        SoundThen();
      }
    }

    /** The copying branch. */
    method Move(b: Addr, need: nat, quick: bool) returns (r: Option<Addr>)
      requires Inv() && b in Live() && need % ALIGN == 0 && Live()[b] < need < WORD && MIN_SIZE <= need
      modifies this`hdr, this`freelist, this`bitmap, this`blocks, this`mem
      ensures Inv()
      ensures r.None? ==>
                && Live() == old(Live()) && mem == old(mem)
                && forall c :: c in old(FreeSet(hdr, blocks)) ==> old(hdr)[c].size < need
      ensures r.Some? ==>
                && r.value >= HEAD && Resized(old(Live()), old(mem), Live(), mem, b, r.value - HEAD, need)
                && r.value - HEAD in Live() && Snug(Live()[r.value - HEAD], need)
    {
      hide Tile, NoFreePair, Listed, Buffers, FreeSet, Resized;
      Ranges();
      LiveBlock(b);
      FreeIsNotLive();
      RoundedFix(need);
      var oldSize := hdr[b].size;
      r := Alloc(need, quick);
      if r.None? {
        return;
      }
      var p := r.value;
      Ranges();
      forall x | x in old(Live()) && x != b ensures x + HEAD + old(Live())[x] <= p - HEAD || p + Live()[p - HEAD] <= x {
        LiveDisjoint(x, p - HEAD);
      }
      mem := mem[..p] + mem[b + HEAD..b + HEAD + oldSize] + mem[p + oldSize..];
      Free(Some(b + HEAD));
      ResizedByCopy(old(Live()), old(mem), Live(), mem, b, p - HEAD, need);
    }
  }

  /** A region of 2^19 + 56 bytes is accepted and lost: its block is free, but nothing can be
      allocated. With eight bytes less, the whole of it can. */
  method LargestRegion(tooLarge: bool) returns (heap: Heap, got: Option<Addr>)
    ensures heap.Inv() && 24 in heap.hdr
    ensures tooLarge ==> heap.hdr[24].free && heap.hdr[24].size == MAX_SIZE && !heap.InList(24) && got.None?
    ensures !tooLarge ==> got == Some(24 + HEAD) && heap.Live() == map[24 := MAX_SIZE - ALIGN]
  {
    hide Heap.Inv, Tile, Buffers, FreeSet, Heap.InList, Lost, AlignUp, Rounded;
    Corner();
    heap := new Heap(0x10_0000);
    heap.NothingUsed(0, 0x8_0038);
    var _ := heap.AddRegion(0, if tooLarge then 0x8_0038 else 0x8_0030);
    got := heap.Alloc(if tooLarge then 1 else MAX_SIZE - ALIGN, true);
    if !tooLarge {
      heap.LiveBlock(24);
      heap.BelowLargest(24);
    }
  }

  lemma Corner()
    ensures AlignUp(0) == 0 && Rounded(1) == MIN_SIZE && Rounded(MAX_SIZE - ALIGN) == MAX_SIZE - ALIGN
  {
  }
}
