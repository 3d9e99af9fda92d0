/** Block headers of the heap in k_mm.c and how splitting and merging changes them. Addresses are
    byte offsets into the managed memory; a header occupies the first `HEAD` bytes of its block. */
module HeapLayout {
  type Addr = nat

  /** k_mm.h on a 32-bit target with debug fields, and the board's configuration. */
  const ALIGN: nat := 8
  const HEAD: nat := 16
  const MIN_BIT: nat := 6
  const MAX_BIT: nat := 19
  const MIN_SIZE: nat := 32
  const MAX_SIZE: nat := 0x8_0000
  const LEVELS: nat := MAX_BIT - MIN_BIT + 2
  /** `MM_ALIGN_UP(sizeof(k_mm_region_info_t))` */
  const INFO: nat := 8
  /** The longest region whose middle block belongs to a size class. */
  const REGION_MAX: nat := MAX_SIZE + 3 * HEAD + INFO - ALIGN

  /** `buf_size` without its flag bits, the two flags, and the link to the left neighbour. */
  datatype Header = Header(size: nat, free: bool, prevFree: bool, prev: Addr)

  type Headers = map<Addr, Header>

  /** What never changes once regions are added: their information blocks, the blocks right
      after these, their closing blocks, and the information block of each address. */
  datatype Ground = Ground(firsts: set<Addr>, mids: set<Addr>, ends: set<Addr>, home: seq<Addr>)

  function Next(h: Headers, b: Addr): Addr
    requires b in h
  {
    b + HEAD + h[b].size
  }

  /** Blocks `bs` tile every region, and flags and links tell the truth about left neighbours. */
  ghost predicate Tile(h: Headers, bs: set<Addr>, g: Ground) {
    && Grounded(bs, g)
    && (forall b :: b in bs ==> b in h)
    && (forall b {:trigger Next(h, b)} :: b in bs ==> Placed(h, bs, g, b))
    && (forall a, b {:trigger Next(h, a), b in bs} :: a in bs && b in bs && a < b ==> Next(h, a) <= b)
    && (forall b {:trigger h[b].size} :: b in bs ==> Marked(h[b], g, b))
    && (forall b {:trigger h[b].prev} {:trigger h[b].prevFree} :: b in bs ==> LinkOk(h, bs, g, b))
  }

  ghost predicate Grounded(bs: set<Addr>, g: Ground) {
    && g.firsts <= bs && g.mids <= bs && g.ends <= bs
    && g.firsts !! g.ends && g.firsts !! g.mids && g.mids !! g.ends
  }

  ghost predicate Placed(h: Headers, bs: set<Addr>, g: Ground, b: Addr)
    requires b in h
  {
    && Next(h, b) <= |g.home| && g.home[b] <= b && Next(h, b) <= g.home[b] + REGION_MAX
    && (b !in g.firsts ==> g.home[b] + HEAD + INFO <= b)
    && (b !in g.ends ==> Next(h, b) + HEAD <= g.home[b] + REGION_MAX)
    && (b !in g.ends ==> Next(h, b) in bs && Next(h, b) !in g.firsts && Next(h, b) < |g.home| && g.home[Next(h, b)] == g.home[b])
    && (b in g.firsts ==> Next(h, b) in g.mids)
    && (forall a :: b <= a < Next(h, b) ==> g.home[a] == g.home[b])
  }

  ghost predicate Marked(x: Header, g: Ground, b: Addr) {
    && b % ALIGN == 0 && x.size % ALIGN == 0
    && (b in g.firsts ==> x.size == INFO && !x.free)
    && (b in g.ends ==> x.size == 0 && !x.free)
    && (b !in g.firsts && b !in g.ends ==> x.size >= MIN_SIZE)
    && (b in g.mids ==> b - HEAD - INFO in g.firsts && !x.prevFree)
  }

  ghost predicate LinkOk(h: Headers, bs: set<Addr>, g: Ground, b: Addr)
    requires b in h
  {
    b !in g.firsts && b !in g.mids ==>
      && h[b].prev in bs && h[b].prev in h && h[b].prev !in g.ends && Next(h, h[b].prev) == b
      && h[b].prevFree == h[h[b].prev].free
  }

  /** Everything the invariant says about one block. */
  lemma At(h: Headers, bs: set<Addr>, g: Ground, b: Addr)
    requires Tile(h, bs, g) && b in bs
    ensures BlockOk(h, bs, g, b) && Grounded(bs, g)
  {
    var _ := Next(h, b);
    var _ := h[b].size;
    var _ := h[b].prev;
  }

  ghost predicate BlockOk(h: Headers, bs: set<Addr>, g: Ground, b: Addr) {
    b in h && Placed(h, bs, g, b) && Marked(h[b], g, b) && LinkOk(h, bs, g, b)
  }

  ghost predicate Ordered(h: Headers, a: Addr, b: Addr) {
    a in h && (a < b ==> Next(h, a) <= b)
  }

  lemma Assemble(h: Headers, bs: set<Addr>, g: Ground)
    requires Grounded(bs, g)
    requires forall b :: b in bs ==> BlockOk(h, bs, g, b)
    requires forall a, b :: a in bs && b in bs ==> Ordered(h, a, b)
    ensures Tile(h, bs, g)
  {
    forall a, b | a in bs && b in bs && a < b ensures a in h && Next(h, a) <= b {
      assert Ordered(h, a, b);
    }
    forall b | b in bs ensures b in h && Placed(h, bs, g, b) && Marked(h[b], g, b) && LinkOk(h, bs, g, b) {
      assert BlockOk(h, bs, g, b);
    }
  }

  lemma Apart(h: Headers, bs: set<Addr>, g: Ground, a: Addr, b: Addr)
    requires Tile(h, bs, g) && a in bs && b in bs && a < b
    ensures a in h && Next(h, a) <= b
  {
  }

  /** A block that holds or can hold a user buffer. */
  predicate IsInner(bs: set<Addr>, g: Ground, b: Addr) {
    b in bs && b !in g.firsts && b !in g.ends
  }

  lemma RightNeighbour(h: Headers, bs: set<Addr>, g: Ground, b: Addr)
    requires Tile(h, bs, g) && IsInner(bs, g, b)
    ensures b in h
    ensures
      var n := Next(h, b);
      && n in bs && n in h && n != b && n !in g.firsts && n !in g.mids
      && h[n].prev == b && h[n].prevFree == h[b].free
  {
    hide Tile;
    At(h, bs, g, b);
    var n := Next(h, b);
    At(h, bs, g, n);
    if n in g.mids {
      At(h, bs, g, n - HEAD - INFO);
      SameNext(h, bs, g, b, n - HEAD - INFO);
    } else {
      SameNext(h, bs, g, b, h[n].prev);
    }
  }

  /** Different blocks have different right ends. */
  lemma SameNext(h: Headers, bs: set<Addr>, g: Ground, a: Addr, b: Addr)
    requires Tile(h, bs, g) && a in bs && b in bs && a in h && b in h && Next(h, a) == Next(h, b)
    ensures a == b
  {
    if a < b {
      Apart(h, bs, g, a, b);
    } else if b < a {
      Apart(h, bs, g, b, a);
    }
  }

  // ----- the three moves -----

  function SetFree(h: Headers, b: Addr, f: bool): Headers
    requires b in h && Next(h, b) in h
  {
    var n := Next(h, b);
    h[b := h[b].(free := f)][n := h[n].(prevFree := f)]
  }

  lemma SetFreeTile(h: Headers, bs: set<Addr>, g: Ground, b: Addr, f: bool)
    requires Tile(h, bs, g) && IsInner(bs, g, b)
    ensures b in h && Next(h, b) in h && Tile(SetFree(h, b, f), bs, g)
  {
    hide Tile, BlockOk, Ordered, SetFree;
    RightNeighbour(h, bs, g, b);
    var h' := SetFree(h, b, f);
    forall c | c in bs ensures BlockOk(h', bs, g, c) {
      SetFreeBlock(h, bs, g, b, f, c);
    }
    forall a, c | a in bs && c in bs ensures Ordered(h', a, c) {
      SetFreeOrder(h, bs, g, b, f, a, c);
    }
    InHeap(h, bs, g, b);
    Assemble(h', bs, g);
  }

  lemma SetFreeBlock(h: Headers, bs: set<Addr>, g: Ground, b: Addr, f: bool, c: Addr)
    requires Tile(h, bs, g) && IsInner(bs, g, b) && c in bs && b in h && Next(h, b) in h
    ensures BlockOk(SetFree(h, b, f), bs, g, c) && Grounded(bs, g)
  {
    hide Tile;
    RightNeighbour(h, bs, g, b);
    At(h, bs, g, c);
  }

  lemma SetFreeOrder(h: Headers, bs: set<Addr>, g: Ground, b: Addr, f: bool, a: Addr, c: Addr)
    requires Tile(h, bs, g) && IsInner(bs, g, b) && a in bs && c in bs && b in h && Next(h, b) in h
    ensures Ordered(SetFree(h, b, f), a, c)
  {
    hide Tile;
    InHeap(h, bs, g, a);
    if a < c { Apart(h, bs, g, a, c); }
  }

  lemma InHeap(h: Headers, bs: set<Addr>, g: Ground, b: Addr)
    requires Tile(h, bs, g) && b in bs
    ensures b in h && Grounded(bs, g)
  {
  }

  /** Block `b` swallows the block to its right. */
  function Absorb(h: Headers, b: Addr): Headers
    requires b in h && Next(h, b) in h && Next(h, Next(h, b)) in h
  {
    var n := Next(h, b);
    var nn := Next(h, n);
    h[b := h[b].(size := h[b].size + HEAD + h[n].size)][nn := h[nn].(prev := b, prevFree := h[b].free)]
  }

  lemma AbsorbTile(h: Headers, bs: set<Addr>, g: Ground, b: Addr)
    requires Tile(h, bs, g) && IsInner(bs, g, b) && b in h && Next(h, b) !in g.ends
    ensures
      var n := Next(h, b);
      n in h && Next(h, n) in h && Tile(Absorb(h, b), bs - {n}, g)
  {
    hide Tile, BlockOk, Ordered, Absorb;
    var n := Next(h, b);
    RightNeighbour(h, bs, g, b);
    RightNeighbour(h, bs, g, n);
    var h', bs' := Absorb(h, b), bs - {n};
    forall c | c in bs' ensures BlockOk(h', bs', g, c) {
      AbsorbBlock(h, bs, g, b, c);
    }
    forall a, c | a in bs' && c in bs' ensures Ordered(h', a, c) {
      AbsorbOrder(h, bs, g, b, a, c);
    }
    InHeap(h, bs, g, b);
    Assemble(h', bs', g);
  }

  lemma AbsorbBlock(h: Headers, bs: set<Addr>, g: Ground, b: Addr, c: Addr)
    requires Tile(h, bs, g) && IsInner(bs, g, b) && b in h && Next(h, b) !in g.ends
    requires Next(h, b) in h && Next(h, Next(h, b)) in h && c in bs && c != Next(h, b)
    ensures BlockOk(Absorb(h, b), bs - {Next(h, b)}, g, c)
  {
    hide Tile;
    var n := Next(h, b);
    RightNeighbour(h, bs, g, b);
    RightNeighbour(h, bs, g, n);
    At(h, bs, g, b);
    At(h, bs, g, n);
    At(h, bs, g, c);
    if c !in g.ends && Next(h, c) == n {
      SameNext(h, bs, g, b, c);
    }
  }

  lemma AbsorbOrder(h: Headers, bs: set<Addr>, g: Ground, b: Addr, a: Addr, c: Addr)
    requires Tile(h, bs, g) && IsInner(bs, g, b) && b in h && Next(h, b) !in g.ends
    requires Next(h, b) in bs && Next(h, b) in h && Next(h, Next(h, b)) in h
    requires a in bs && c in bs && a != Next(h, b) && c != Next(h, b)
    ensures Ordered(Absorb(h, b), a, c)
  {
    hide Tile;
    InHeap(h, bs, g, a);
    if a < c {
      Apart(h, bs, g, a, c);
      if a == b { Apart(h, bs, g, Next(h, b), c); }
    }
  }

  /** Block `b` keeps `s` bytes; the rest becomes a block of its own, free iff `f`. */
  function Split(h: Headers, b: Addr, s: nat, f: bool): Headers
    requires b in h && Next(h, b) in h && h[b].size >= s + HEAD
  {
    var n := Next(h, b);
    var c := b + HEAD + s;
    h[b := h[b].(size := s)]
     [c := Header(h[b].size - s - HEAD, f, h[b].free, b)]
     [n := h[n].(prev := c, prevFree := f)]
  }

  lemma SplitTile(h: Headers, bs: set<Addr>, g: Ground, b: Addr, s: nat, f: bool)
    requires Tile(h, bs, g) && IsInner(bs, g, b) && b in h
    requires s % ALIGN == 0 && MIN_SIZE <= s && h[b].size >= s + HEAD + MIN_SIZE
    ensures Next(h, b) in h && b + HEAD + s !in bs
    ensures Tile(Split(h, b, s, f), bs + {b + HEAD + s}, g)
  {
    hide Tile, BlockOk, Ordered, Split;
    var d := b + HEAD + s;
    RightNeighbour(h, bs, g, b);
    if d in bs {
      Apart(h, bs, g, b, d);
    }
    var h', bs' := Split(h, b, s, f), bs + {d};
    forall c | c in bs' ensures BlockOk(h', bs', g, c) {
      SplitBlock(h, bs, g, b, s, f, c);
    }
    forall a, c | a in bs' && c in bs' ensures Ordered(h', a, c) {
      SplitOrder(h, bs, g, b, s, f, a, c);
    }
    InHeap(h, bs, g, b);
    Assemble(h', bs', g);
  }

  ghost predicate CanSplit(h: Headers, bs: set<Addr>, g: Ground, b: Addr, s: nat) {
    && Tile(h, bs, g) && IsInner(bs, g, b) && b in h && Next(h, b) in h
    && s % ALIGN == 0 && MIN_SIZE <= s && h[b].size >= s + HEAD + MIN_SIZE && b + HEAD + s !in bs
  }

  lemma SplitBlock(h: Headers, bs: set<Addr>, g: Ground, b: Addr, s: nat, f: bool, c: Addr)
    requires CanSplit(h, bs, g, b, s) && c in bs + {b + HEAD + s}
    ensures BlockOk(Split(h, b, s, f), bs + {b + HEAD + s}, g, c)
  {
    hide Tile, Placed;
    RightNeighbour(h, bs, g, b);
    At(h, bs, g, b);
    At(h, bs, g, Next(h, b));
    if c in bs {
      At(h, bs, g, c);
    }
    SplitPlaced(h, bs, g, b, s, f, c);
  }

  lemma SplitPlaced(h: Headers, bs: set<Addr>, g: Ground, b: Addr, s: nat, f: bool, c: Addr)
    requires CanSplit(h, bs, g, b, s) && c in bs + {b + HEAD + s} && c in Split(h, b, s, f)
    ensures Placed(Split(h, b, s, f), bs + {b + HEAD + s}, g, c)
  {
    hide Tile, Marked, LinkOk;
    At(h, bs, g, b);
    if c in bs {
      At(h, bs, g, c);
    }
  }

  lemma SplitOrder(h: Headers, bs: set<Addr>, g: Ground, b: Addr, s: nat, f: bool, a: Addr, c: Addr)
    requires Tile(h, bs, g) && b in bs && b in h && Next(h, b) in h && h[b].size >= s + HEAD
    requires b + HEAD + s !in bs && Next(h, b) in bs
    requires a in bs + {b + HEAD + s} && c in bs + {b + HEAD + s}
    ensures Ordered(Split(h, b, s, f), a, c)
  {
    hide Tile;
    var d := b + HEAD + s;
    if a in bs { InHeap(h, bs, g, a); }
    if a < c {
      if a in bs && c in bs {
        Apart(h, bs, g, a, c);
      } else if a == d {
        Apart(h, bs, g, b, c);
      } else if a < b {
        Apart(h, bs, g, a, b);
      } else if b < a {
        Apart(h, bs, g, b, a);
      }
    }
  }

  /** Only the headers of current blocks count. */
  lemma TileFrame(h: Headers, h': Headers, bs: set<Addr>, g: Ground)
    requires Tile(h, bs, g) && forall b :: b in bs ==> b in h' && b in h && h'[b] == h[b]
    ensures Tile(h', bs, g)
  {
    hide Tile, BlockOk, Ordered;
    forall c | c in bs ensures BlockOk(h', bs, g, c) {
      FrameBlock(h, h', bs, g, c);
    }
    forall a, c | a in bs && c in bs ensures Ordered(h', a, c) {
      FrameOrder(h, h', bs, g, a, c);
    }
    FrameGround(h, bs, g);
    Assemble(h', bs, g);
  }

  lemma FrameBlock(h: Headers, h': Headers, bs: set<Addr>, g: Ground, c: Addr)
    requires Tile(h, bs, g) && c in bs && forall b :: b in bs ==> b in h' && b in h && h'[b] == h[b]
    ensures BlockOk(h', bs, g, c)
  {
    hide Tile;
    At(h, bs, g, c);
  }

  lemma FrameOrder(h: Headers, h': Headers, bs: set<Addr>, g: Ground, a: Addr, c: Addr)
    requires Tile(h, bs, g) && a in bs && c in bs && forall b :: b in bs ==> b in h' && b in h && h'[b] == h[b]
    ensures Ordered(h', a, c)
  {
    hide Tile;
    InHeap(h, bs, g, a);
    if a < c { Apart(h, bs, g, a, c); }
  }

  lemma FrameGround(h: Headers, bs: set<Addr>, g: Ground)
    requires Tile(h, bs, g)
    ensures Grounded(bs, g)
  {
  }

  // ----- adjacent free blocks -----

  ghost predicate NoFreePair(h: Headers, bs: set<Addr>, g: Ground) {
    forall b {:trigger Next(h, b)} :: IsInner(bs, g, b) && b in h && h[b].free && Next(h, b) in h ==> !h[Next(h, b)].free
  }

  ghost function FreeSet(h: Headers, bs: set<Addr>): set<Addr> {
    set b | b in bs && b in h && h[b].free
  }

  /** The live user buffers: block and size. */
  ghost function Buffers(h: Headers, bs: set<Addr>, g: Ground): map<Addr, nat> {
    map b | b in bs && b !in g.firsts && b !in g.ends && b in h && !h[b].free :: h[b].size
  }
}
