/** What allocation, release and resizing do to a sound layout. */
module HeapMoves {
  import opened HeapLayout

  ghost predicate Sound(h: Headers, bs: set<Addr>, g: Ground) {
    Tile(h, bs, g) && NoFreePair(h, bs, g)
  }

  /** Pairs of adjacent free blocks are excluded, except that the right one may be `b`. */
  ghost predicate NoFreePairBut(h: Headers, bs: set<Addr>, g: Ground, b: Addr) {
    forall c {:trigger Next(h, c)} ::
      IsInner(bs, g, c) && c in h && h[c].free && Next(h, c) in h && Next(h, c) != b ==> !h[Next(h, c)].free
  }

  lemma TakeWhole(h: Headers, bs: set<Addr>, g: Ground, b: Addr)
    requires Sound(h, bs, g) && IsInner(bs, g, b) && b in h && h[b].free
    ensures Next(h, b) in h && Sound(SetFree(h, b, false), bs, g)
    ensures FreeSet(SetFree(h, b, false), bs) == FreeSet(h, bs) - {b}
    ensures Buffers(SetFree(h, b, false), bs, g) == Buffers(h, bs, g)[b := h[b].size]
  {
    hide Tile;
    SetFreeTile(h, bs, g, b, false);
    RightNeighbour(h, bs, g, b);
    var h' := SetFree(h, b, false);
    forall c: Addr | IsInner(bs, g, c) && c in h' && h'[c].free && Next(h', c) in h' ensures !h'[Next(h', c)].free {
      assert Next(h, c) == Next(h', c);
    }
  }

  lemma NextBlock(h: Headers, bs: set<Addr>, g: Ground, b: Addr)
    requires Tile(h, bs, g) && IsInner(bs, g, b)
    ensures b in h && Next(h, b) in bs && Next(h, b) in h
  {
    RightNeighbour(h, bs, g, b);
  }

  /** A live block swallows its free right neighbour. */
  lemma Swallow(h: Headers, bs: set<Addr>, g: Ground, b: Addr)
    requires Sound(h, bs, g) && IsInner(bs, g, b) && b in h && !h[b].free
    requires Next(h, b) in h && h[Next(h, b)].free
    ensures
      var n := Next(h, b);
      && IsInner(bs, g, n) && n != b && Next(h, n) in h && Next(h, n) != b && Next(h, n) != n
      && var h' := Absorb(h, b);
      && Sound(h', bs - {n}, g) && FreeSet(h', bs - {n}) == FreeSet(h, bs) - {n}
      && Buffers(h', bs - {n}, g) == Buffers(h, bs, g)[b := h[b].size + HEAD + h[n].size]
      && Next(h', b) in h' && !h'[Next(h', b)].free
  {
    hide Tile;
    var n := Next(h, b);
    RightNeighbour(h, bs, g, b);
    At(h, bs, g, n);
    RightNeighbour(h, bs, g, n);
    AbsorbTile(h, bs, g, b);
    var h', bs' := Absorb(h, b), bs - {n};
    assert !h[Next(h, n)].free;
    forall c: Addr | IsInner(bs', g, c) && c in h' && h'[c].free && Next(h', c) in h' ensures !h'[Next(h', c)].free {
      assert Next(h, c) == Next(h', c);
      if Next(h, c) == n {
        SameNext(h, bs, g, c, b);
      }
    }
  }

  /** The tail of a live block becomes a free block. */
  lemma CutTail(h: Headers, bs: set<Addr>, g: Ground, b: Addr, s: nat)
    requires Sound(h, bs, g) && IsInner(bs, g, b) && b in h && !h[b].free
    requires Next(h, b) in h && !h[Next(h, b)].free
    requires s % ALIGN == 0 && MIN_SIZE <= s && h[b].size >= s + HEAD + MIN_SIZE
    ensures
      var d, h' := b + HEAD + s, Split(h, b, s, true);
      && d !in bs && Sound(h', bs + {d}, g) && FreeSet(h', bs + {d}) == FreeSet(h, bs) + {d}
      && Buffers(h', bs + {d}, g) == Buffers(h, bs, g)[b := s]
  {
    hide Tile;
    var d, n := b + HEAD + s, Next(h, b);
    RightNeighbour(h, bs, g, b);
    SplitTile(h, bs, g, b, s, true);
    var h', bs' := Split(h, b, s, true), bs + {d};
    forall c: Addr | IsInner(bs', g, c) && c in h' && h'[c].free && Next(h', c) in h' ensures !h'[Next(h', c)].free {
      if c != d {
        assert Next(h, c) == Next(h', c);
        NextBlock(h, bs, g, c);
      }
    }
  }

  /** The front of a free block is allocated, the rest stays free. */
  lemma TakePart(h: Headers, bs: set<Addr>, g: Ground, b: Addr, s: nat)
    requires Sound(h, bs, g) && IsInner(bs, g, b) && b in h && h[b].free
    requires s % ALIGN == 0 && MIN_SIZE <= s && h[b].size >= s + HEAD + MIN_SIZE
    ensures
      var d, n := b + HEAD + s, Next(h, b);
      && n in h && d !in bs && n != d
      && var h' := Split(SetFree(h, b, false), b, s, true);
      && Sound(h', bs + {d}, g) && FreeSet(h', bs + {d}) == FreeSet(h, bs) - {b} + {d}
      && Buffers(h', bs + {d}, g) == Buffers(h, bs, g)[b := s]
      && h' == h[b := h[b].(size := s, free := false)]
                [d := Header(h[b].size - s - HEAD, true, false, b)]
                [n := h[n].(prev := d)]
  {
    hide Tile, Sound, FreeSet, Buffers;
    SoundRight(h, bs, g, b);
    TakeWhole(h, bs, g, b);
    CutTail(SetFree(h, b, false), bs, g, b, s);
  }

  lemma SoundRight(h: Headers, bs: set<Addr>, g: Ground, b: Addr)
    requires Sound(h, bs, g) && IsInner(bs, g, b) && b in h && h[b].free
    ensures
      var n := Next(h, b);
      n in bs && n in h && n != b && h[n].prev == b && h[n].prevFree && !h[n].free
  {
    RightNeighbour(h, bs, g, b);
    var _ := Next(h, b);
  }

  /** The layout once `b` is free and merged with a free right neighbour. */
  ghost function FreedRight(h: Headers, b: Addr): Headers
    requires b in h && Next(h, b) in h
    requires h[Next(h, b)].free ==> Next(h, b) != b && Next(h, Next(h, b)) in h
  {
    var h1 := SetFree(h, b, true);
    if h[Next(h, b)].free then Absorb(h1, b) else h1
  }

  ghost function BlocksRight(h: Headers, bs: set<Addr>, b: Addr): set<Addr>
    requires b in h && Next(h, b) in h
  {
    if h[Next(h, b)].free then bs - {Next(h, b)} else bs
  }

  lemma GiveRight(h: Headers, bs: set<Addr>, g: Ground, b: Addr)
    requires Sound(h, bs, g) && IsInner(bs, g, b) && b in h && !h[b].free
    ensures
      var n := Next(h, b);
      && n in h && n != b && (h[n].free ==> IsInner(bs, g, n) && Next(h, n) in h)
      && var h', bs' := FreedRight(h, b), BlocksRight(h, bs, b);
      && Tile(h', bs', g) && NoFreePairBut(h', bs', g, b)
      && FreeSet(h', bs') == FreeSet(h, bs) - {n} + {b}
      && Buffers(h', bs', g) == Buffers(h, bs, g) - {b}
      && Next(h', b) in h' && !h'[Next(h', b)].free && h'[b].prevFree == h[b].prevFree && h'[b].prev == h[b].prev
  {
    hide Tile, NoFreePair, NoFreePairBut, FreeSet, Buffers;
    var n := Next(h, b);
    RightNeighbour(h, bs, g, b);
    At(h, bs, g, n);
    SetFreeTile(h, bs, g, b, true);
    if h[n].free {
      SoundRight(h, bs, g, n);
      AbsorbTile(SetFree(h, b, true), bs, g, b);
    }
    GiveRightPairs(h, bs, g, b);
    GiveRightSets(h, bs, g, b);
  }

  lemma GiveRightSets(h: Headers, bs: set<Addr>, g: Ground, b: Addr)
    requires Sound(h, bs, g) && IsInner(bs, g, b) && b in h && !h[b].free && Next(h, b) in h && Next(h, b) != b
    requires h[Next(h, b)].free ==> IsInner(bs, g, Next(h, b)) && Next(h, Next(h, b)) in h
    ensures FreeSet(FreedRight(h, b), BlocksRight(h, bs, b)) == FreeSet(h, bs) - {Next(h, b)} + {b}
    ensures Buffers(FreedRight(h, b), BlocksRight(h, bs, b), g) == Buffers(h, bs, g) - {b}
  {
    hide Tile, NoFreePair;
    RightNeighbour(h, bs, g, b);
    if h[Next(h, b)].free {
      RightNeighbour(h, bs, g, Next(h, b));
    }
  }

  lemma GiveRightPairs(h: Headers, bs: set<Addr>, g: Ground, b: Addr)
    requires Sound(h, bs, g) && IsInner(bs, g, b) && b in h && !h[b].free && Next(h, b) in h && Next(h, b) != b
    requires h[Next(h, b)].free ==> IsInner(bs, g, Next(h, b)) && Next(h, Next(h, b)) in h
    ensures NoFreePairBut(FreedRight(h, b), BlocksRight(h, bs, b), g, b)
  {
    hide Tile;
    var n := Next(h, b);
    RightNeighbour(h, bs, g, b);
    if h[n].free {
      RightNeighbour(h, bs, g, n);
    }
    var h', bs' := FreedRight(h, b), BlocksRight(h, bs, b);
    forall c: Addr | IsInner(bs', g, c) && c in h' && h'[c].free && Next(h', c) in h' && Next(h', c) != b
      ensures !h'[Next(h', c)].free
    {
      if c != b {
        assert Next(h, c) == Next(h', c);
        if Next(h, c) == n {
          SameNext(h, bs, g, c, b);
        }
      }
    }
  }

  lemma GiveLeft(h: Headers, bs: set<Addr>, g: Ground, b: Addr)
    requires Tile(h, bs, g) && NoFreePairBut(h, bs, g, b) && IsInner(bs, g, b) && b in h && h[b].free
    requires Next(h, b) in h && !h[Next(h, b)].free
    ensures !h[b].prevFree ==> Sound(h, bs, g)
    ensures h[b].prevFree ==>
              var p := h[b].prev;
              && IsInner(bs, g, p) && p in h && h[p].free && p != b && Next(h, p) == b
              && Sound(Absorb(h, p), bs - {b}, g) && FreeSet(Absorb(h, p), bs - {b}) == FreeSet(h, bs) - {b}
              && Buffers(Absorb(h, p), bs - {b}, g) == Buffers(h, bs, g)
  {
    hide Tile;
    At(h, bs, g, b);
    RightNeighbour(h, bs, g, b);
    if h[b].prevFree {
      var p := h[b].prev;
      At(h, bs, g, p);
      AbsorbTile(h, bs, g, p);
      var h', bs' := Absorb(h, p), bs - {b};
      forall c: Addr | IsInner(bs', g, c) && c in h' && h'[c].free && Next(h', c) in h' ensures !h'[Next(h', c)].free {
        if c != p {
          assert Next(h, c) == Next(h', c);
          if Next(h, c) == b {
            SameNext(h, bs, g, c, p);
          }
        }
      }
    } else {
      forall c: Addr | IsInner(bs, g, c) && c in h && h[c].free && Next(h, c) in h ensures !h[Next(h, c)].free {
        if Next(h, c) == b {
          RightNeighbour(h, bs, g, c);
        }
      }
    }
  }

  /** All blocks but sentinels are smaller than the largest class. */
  lemma SizeBound(h: Headers, bs: set<Addr>, g: Ground, b: Addr)
    requires Tile(h, bs, g) && IsInner(bs, g, b)
    ensures b in h && MIN_SIZE <= h[b].size < MAX_SIZE && h[b].size % ALIGN == 0 && Next(h, b) <= |g.home|
  {
    At(h, bs, g, b);
  }

  /** Buffers of different blocks do not overlap, nor reach into any header. */
  lemma BuffersDisjoint(h: Headers, bs: set<Addr>, g: Ground, a: Addr, b: Addr)
    requires Tile(h, bs, g) && a in bs && b in bs && a != b
    ensures a in h && b in h
    ensures Next(h, a) <= b || Next(h, b) <= a
  {
    if a < b {
      Apart(h, bs, g, a, b);
    } else {
      Apart(h, bs, g, b, a);
    }
  }

  lemma SoundFrame(h: Headers, h': Headers, bs: set<Addr>, g: Ground)
    requires Sound(h, bs, g)
    requires forall b :: b in bs ==> b in h' && b in h && h'[b] == h[b]
    ensures Sound(h', bs, g) && FreeSet(h', bs) == FreeSet(h, bs) && Buffers(h', bs, g) == Buffers(h, bs, g)
  {
    hide Tile;
    TileFrame(h, h', bs, g);
    forall c: Addr | IsInner(bs, g, c) && c in h' && h'[c].free && Next(h', c) in h' ensures !h'[Next(h', c)].free {
      NextBlock(h, bs, g, c);
      assert Next(h, c) == Next(h', c);
    }
  }

  /** `h` is the layout `h'`, but for the link to `t` in the block right of `t`. */
  ghost predicate Near(h: Headers, h': Headers, bs: set<Addr>, t: Addr) {
    && t in h'
    && forall c :: c in bs ==>
         && c in h && c in h'
         && h'[c] == (if c == Next(h', t) then h[c].(prev := t, prevFree := true) else h[c])
  }

  /** Block `b` freed and merged to the right, before the link of the next block is set. */
  ghost function UnlinkedRight(h: Headers, b: Addr): Headers
    requires b in h && Next(h, b) in h
  {
    var n := Next(h, b);
    h[b := h[b].(free := true, size := if h[n].free then h[b].size + HEAD + h[n].size else h[b].size)]
  }

  lemma NearRight(h: Headers, bs: set<Addr>, g: Ground, b: Addr)
    requires Sound(h, bs, g) && IsInner(bs, g, b) && b in h && !h[b].free
    ensures
      var n := Next(h, b);
      && n in bs && n in h && (h[n].free ==> n != b && Next(h, n) in h)
      && var bs' := if h[n].free then bs - {n} else bs;
      && Near(UnlinkedRight(h, b), FreedRight(h, b), bs', b) && IsInner(bs', g, b)
  {
    hide Tile;
    var n := Next(h, b);
    RightNeighbour(h, bs, g, b);
    At(h, bs, g, n);
    if h[n].free {
      RightNeighbour(h, bs, g, n);
    }
    forall c | c in bs ensures c in h { At(h, bs, g, c); }
  }

  /** The layout once live block `b` is cut to `need` bytes, together with a free right neighbour. */
  ghost function ShrinkTotal(h: Headers, b: Addr): nat
    requires b in h && Next(h, b) in h
  {
    if h[Next(h, b)].free then h[b].size + HEAD + h[Next(h, b)].size else h[b].size
  }

  ghost function Shrunk(h: Headers, b: Addr, need: nat): Headers
    requires b in h && Next(h, b) in h && b + HEAD + ShrinkTotal(h, b) in h && ShrinkTotal(h, b) >= need + HEAD
  {
    var d, nn := b + HEAD + need, b + HEAD + ShrinkTotal(h, b);
    h[b := h[b].(size := need)]
     [d := Header(ShrinkTotal(h, b) - need - HEAD, true, false, b)]
     [nn := h[nn].(prev := d, prevFree := true)]
  }

  lemma ShrinkSound(h: Headers, bs: set<Addr>, g: Ground, b: Addr, need: nat)
    requires Sound(h, bs, g) && IsInner(bs, g, b) && b in h && !h[b].free
    requires need % ALIGN == 0 && MIN_SIZE <= need <= h[b].size
    ensures
      var n, d := Next(h, b), b + HEAD + need;
      && n in bs && n in h && n != b && (n in FreeSet(h, bs) <==> h[n].free)
      && var total := ShrinkTotal(h, b);
      && b + HEAD + total in h && b + HEAD + total != b
      && (h[n].free ==> total >= need + HEAD + MIN_SIZE)
      && (total >= need + HEAD + MIN_SIZE ==>
            var bs' := (if h[n].free then bs - {n} else bs) + {d};
            && Sound(Shrunk(h, b, need), bs', g) && d !in FreeSet(h, bs) - {n} && d != b + HEAD + total && d != b
            && FreeSet(Shrunk(h, b, need), bs') == FreeSet(h, bs) - {n} + {d} && b !in FreeSet(h, bs)
            && Buffers(Shrunk(h, b, need), bs', g) == Buffers(h, bs, g)[b := need]
            && total - need - HEAD < MAX_SIZE)
  {
    hide Tile, Sound, Buffers;
    var n, d := Next(h, b), b + HEAD + need;
    SoundNext(h, bs, g, b);
    if h[n].free {
      Swallow(h, bs, g, b);
      SoundNext(h, bs, g, n);
      var h1 := Absorb(h, b);
      CutTail(h1, bs - {n}, g, b, need);
      SoundNext(h1, bs - {n}, g, b);
      assert Shrunk(h, b, need) == Split(h1, b, need, true);
    } else if h[b].size >= need + HEAD + MIN_SIZE {
      CutTail(h, bs, g, b, need);
      assert Shrunk(h, b, need) == Split(h, b, need, true);
    }
  }

  lemma SoundNext(h: Headers, bs: set<Addr>, g: Ground, b: Addr)
    requires Sound(h, bs, g) && IsInner(bs, g, b)
    ensures b in h && MIN_SIZE <= h[b].size < MAX_SIZE && Next(h, b) in bs && Next(h, b) in h
  {
    SizeBound(h, bs, g, b);
    NextBlock(h, bs, g, b);
  }

  // ----- contents -----

  ghost predicate InRange(live: map<Addr, nat>, m: seq<bv8>) {
    forall x :: x in live ==> x + HEAD + live[x] <= |m|
  }

  /** The `n` bytes of block `b`'s buffer in memory `m` are those of block `c` in `m'`. */
  ghost predicate SameBytes(m: seq<bv8>, b: Addr, m': seq<bv8>, c: Addr, n: nat) {
    b + HEAD + n <= |m| && c + HEAD + n <= |m'| && m[b + HEAD..b + HEAD + n] == m'[c + HEAD..c + HEAD + n]
  }

  function Min(a: nat, b: nat): (m: nat)
    ensures m <= a && m <= b && (m == a || m == b)
  {
    if a < b then a else b
  }

  /** In plain words: the bytes both buffers have room for, and all bytes of every other buffer. */
  lemma ResizedPlain(live: map<Addr, nat>, m: seq<bv8>, live': map<Addr, nat>, m': seq<bv8>, b: Addr, c: Addr, need: nat)
    requires Resized(live, m, live', m', b, c, need)
    ensures
      b in live && c in live' &&
      var n := if live[b] < live'[c] then live[b] else live'[c];
      b + HEAD + n <= |m| && c + HEAD + n <= |m'| && m'[c + HEAD..c + HEAD + n] == m[b + HEAD..b + HEAD + n]
    ensures forall x :: x in live && x != b ==>
              && x in live' && live'[x] == live[x] && x + HEAD + live[x] <= |m| && x + HEAD + live[x] <= |m'|
              && m'[x + HEAD..x + HEAD + live[x]] == m[x + HEAD..x + HEAD + live[x]]
  {
  }

  /** Buffer `b` became buffer `c`, of at least `need` bytes: its contents survive up to the smaller
      size, and every other buffer keeps its place, size and contents. */
  ghost predicate Resized(live: map<Addr, nat>, m: seq<bv8>, live': map<Addr, nat>, m': seq<bv8>, b: Addr, c: Addr, need: nat) {
    && b in live && c in live' && live'[c] >= need && (c == b || c !in live)
    && live' == (live - {b})[c := live'[c]]
    && SameBytes(m, b, m', c, Min(live[b], live'[c]))
    && forall x :: x in live && x != b ==> SameBytes(m, x, m', x, live[x])
  }

  lemma ResizedInPlace(live: map<Addr, nat>, live': map<Addr, nat>, m: seq<bv8>, b: Addr, need: nat)
    requires b in live && b in live' && live'[b] >= need && live' == live[b := live'[b]]
    requires InRange(live, m)
    ensures Resized(live, m, live', m, b, b, need)
  {
  }

  /** Copying buffer `b` to a new one, then dropping it. */
  lemma ResizedByCopy(live: map<Addr, nat>, m: seq<bv8>, live': map<Addr, nat>, m': seq<bv8>, b: Addr, c: Addr, need: nat)
    requires b in live && c in live' && c !in live && live' == (live - {b})[c := live'[c]]
    requires live[b] <= need <= live'[c]
    requires InRange(live, m) && InRange(live', m)
    requires m' == m[..c + HEAD] + m[b + HEAD..b + HEAD + live[b]] + m[c + HEAD + live[b]..]
    requires forall x :: x in live && x != b ==> x + HEAD + live[x] <= c || c + HEAD + live'[c] <= x
    ensures Resized(live, m, live', m', b, c, need)
  {
    forall x | x in live && x != b ensures SameBytes(m, x, m', x, live[x]) {
      assert x + HEAD + live[x] <= c || c + HEAD + live'[c] <= x;
    }
  }
}
