/** A region added to the heap: `init_mm_region` followed by the release of its middle block. */
module HeapRegions {
  import opened HeapLayout
  import opened HeapMoves

  /** The least length `krhino_add_mm_region` accepts. */
  const REGION_MIN: nat := INFO + 3 * HEAD + MIN_SIZE

  /** No block reaches into the range. */
  ghost predicate Unused(h: Headers, bs: set<Addr>, a: Addr, len: nat) {
    forall b {:trigger Next(h, b)} :: b in bs && b in h ==> Next(h, b) <= a || a + len <= b
  }

  function Mid(a: Addr): Addr { a + HEAD + INFO }

  function Last(a: Addr, len: nat): Addr
    requires len >= REGION_MIN
  {
    a + len - HEAD
  }

  function Region(h: Headers, a: Addr, len: nat): Headers
    requires len >= REGION_MIN
  {
    h[a := Header(INFO, false, false, 0)]
     [Mid(a) := Header(Last(a, len) - Mid(a) - HEAD, true, false, 0)]
     [Last(a, len) := Header(0, false, true, Mid(a))]
  }

  ghost function Wider(g: Ground, a: Addr, len: nat): Ground
    requires len >= REGION_MIN
  {
    Ground(g.firsts + {a}, g.mids + {Mid(a)}, g.ends + {Last(a, len)},
           seq(|g.home|, i requires 0 <= i < |g.home| => if a <= i < a + len then a else g.home[i]))
  }

  ghost function Added(bs: set<Addr>, a: Addr, len: nat): set<Addr>
    requires len >= REGION_MIN
  {
    bs + {a, Mid(a), Last(a, len)}
  }

  ghost predicate Fits(h: Headers, bs: set<Addr>, g: Ground, a: Addr, len: nat) {
    && Tile(h, bs, g) && Unused(h, bs, a, len) && a % ALIGN == 0 && len % ALIGN == 0
    && REGION_MIN <= len <= REGION_MAX && a + len <= |g.home|
  }

  lemma FitsNow(h: Headers, bs: set<Addr>, g: Ground, a: Addr, len: nat)
    requires Sound(h, bs, g) && Unused(h, bs, a, len) && a % ALIGN == 0 && len % ALIGN == 0
    requires REGION_MIN <= len < MAX_SIZE + 3 * HEAD + INFO && a + len <= |g.home|
    ensures Fits(h, bs, g, a, len)
  {
  }

  // ----- regions too large for any class -----

  /** A byte of a region whose one block went into no free list: its home lies ahead of it. */
  ghost predicate Lost(g: Ground, x: Addr) { x < |g.home| && g.home[x] > x }

  ghost function Forgotten(g: Ground, a: Addr, len: nat): Ground {
    g.(home := seq(|g.home|, i requires 0 <= i < |g.home| => if a <= i < a + len then a + len else g.home[i]))
  }

  lemma LostAfter(g: Ground, a: Addr, len: nat)
    requires a + len <= |g.home| && len >= REGION_MIN && forall x: Addr :: a <= x < a + len ==> !Lost(g, x)
    ensures forall x: Addr :: Lost(Forgotten(g, a, len), x) <==> Lost(g, x) || a <= x < a + len
    ensures forall x: Addr :: Lost(Wider(g, a, len), x) <==> Lost(g, x)
  {
  }

  lemma OldBlockStays(h: Headers, bs: set<Addr>, g: Ground, a: Addr, len: nat, c: Addr)
    requires Tile(h, bs, g) && Unused(h, bs, a, len) && len >= REGION_MIN && c in bs
    ensures c in h && c in Region(h, a, len) && Region(h, a, len)[c] == h[c] && BlockOk(h, bs, Forgotten(g, a, len), c)
  {
    hide Tile;
    At(h, bs, g, c);
    if c !in g.ends {
      At(h, bs, g, Next(h, c));
      assert Next(h, Next(h, c)) <= a || a + len <= Next(h, c);
    }
  }

  /** The rest of the heap stays as it is when such a region is laid out; its block is in no list,
      and no block is laid over it as long as the ground stays the same. */
  lemma RegionForgotten(h: Headers, bs: set<Addr>, g: Ground, a: Addr, len: nat)
    requires Sound(h, bs, g) && Unused(h, bs, a, len) && len >= REGION_MIN
    ensures
      var h', g' := Region(h, a, len), Forgotten(g, a, len);
      && Sound(h', bs, g') && Mid(a) !in bs && FreeSet(h', bs) == FreeSet(h, bs) && Buffers(h', bs, g') == Buffers(h, bs, g)
      && forall b :: b in bs ==> b in h && h'[b] == h[b]
  {
    hide Tile, BlockOk, Ordered, Grounded, Region;
    var h', g' := Region(h, a, len), Forgotten(g, a, len);
    forall c | c in bs ensures c in h && c in h' && h'[c] == h[c] && BlockOk(h, bs, g', c) { OldBlockStays(h, bs, g, a, len, c); }
    forall x, y | x in bs && y in bs ensures Ordered(h, x, y) { InOrder(h, bs, g, x, y); }
    FrameGround(h, bs, g);
    GroundForgotten(bs, g, a, len);
    Assemble(h, bs, g');
    TileFrame(h, h', bs, g');
    NotMid(h, bs, g, a, len);
    forall c: Addr | IsInner(bs, g', c) && c in h' && h'[c].free && Next(h', c) in h' ensures !h'[Next(h', c)].free {
      NextBlock(h, bs, g, c);
    }
  }

  lemma InOrder(h: Headers, bs: set<Addr>, g: Ground, x: Addr, y: Addr)
    requires Tile(h, bs, g) && x in bs && y in bs
    ensures Ordered(h, x, y)
  {
    InHeap(h, bs, g, x);
    if x < y { Apart(h, bs, g, x, y); }
  }

  lemma GroundForgotten(bs: set<Addr>, g: Ground, a: Addr, len: nat)
    requires Grounded(bs, g)
    ensures Grounded(bs, Forgotten(g, a, len))
  {
  }

  lemma NotMid(h: Headers, bs: set<Addr>, g: Ground, a: Addr, len: nat)
    requires Tile(h, bs, g) && Unused(h, bs, a, len) && len >= REGION_MIN
    ensures Mid(a) !in bs
  {
    if Mid(a) in bs { At(h, bs, g, Mid(a)); }
  }

  lemma Outside(h: Headers, bs: set<Addr>, g: Ground, a: Addr, len: nat, c: Addr)
    requires Fits(h, bs, g, a, len) && c in bs
    ensures BlockOk(h, bs, g, c) && Grounded(bs, g) && (Next(h, c) <= a || a + len <= c)
    ensures c !in {a, Mid(a), Last(a, len)}
  {
    At(h, bs, g, c);
  }

  lemma RegionAt(h: Headers, g: Ground, a: Addr, len: nat)
    requires REGION_MIN <= len
    ensures forall c :: c in h && c !in {a, Mid(a), Last(a, len)} ==> c in Region(h, a, len) && Region(h, a, len)[c] == h[c]
    ensures
      var g' := Wider(g, a, len);
      && g'.firsts == g.firsts + {a} && g'.mids == g.mids + {Mid(a)} && g'.ends == g.ends + {Last(a, len)}
      && |g'.home| == |g.home|
      && forall i :: 0 <= i < |g.home| && !(a <= i < a + len) ==> g'.home[i] == g.home[i]
  {
  }

  lemma OldBlock(h: Headers, bs: set<Addr>, g: Ground, a: Addr, len: nat, c: Addr)
    requires Fits(h, bs, g, a, len) && c in bs
    ensures BlockOk(Region(h, a, len), Added(bs, a, len), Wider(g, a, len), c)
  {
    hide Fits, Tile, Region, Wider;
    Bounds(h, bs, g, a, len);
    Outside(h, bs, g, a, len, c);
    RegionAt(h, g, a, len);
    var h' := Region(h, a, len);
    assert h'[c] == h[c];
    if c !in g.ends {
      Outside(h, bs, g, a, len, Next(h, c));
    }
    if c !in g.firsts && c !in g.mids {
      Outside(h, bs, g, a, len, h[c].prev);
    }
  }

  lemma NewBlock(h: Headers, bs: set<Addr>, g: Ground, a: Addr, len: nat, c: Addr)
    requires Fits(h, bs, g, a, len) && c in {a, Mid(a), Last(a, len)}
    ensures BlockOk(Region(h, a, len), Added(bs, a, len), Wider(g, a, len), c)
  {
    Bounds(h, bs, g, a, len);
    hide Fits;
  }

  lemma Bounds(h: Headers, bs: set<Addr>, g: Ground, a: Addr, len: nat)
    requires Fits(h, bs, g, a, len)
    ensures a % ALIGN == 0 && len % ALIGN == 0 && REGION_MIN <= len <= REGION_MAX && a + len <= |g.home|
    ensures a !in g.ends && a !in g.mids && Mid(a) !in g.firsts && Mid(a) !in g.ends
    ensures Last(a, len) !in g.firsts && Last(a, len) !in g.mids
  {
    forall c | c in bs ensures c !in {a, Mid(a), Last(a, len)} { Outside(h, bs, g, a, len, c); }
    FrameGround(h, bs, g);
  }

  lemma GroundWider(h: Headers, bs: set<Addr>, g: Ground, a: Addr, len: nat)
    requires Fits(h, bs, g, a, len)
    ensures Grounded(Added(bs, a, len), Wider(g, a, len))
  {
    Bounds(h, bs, g, a, len);
    FrameGround(h, bs, g);
  }

  lemma RegionOrder(h: Headers, bs: set<Addr>, g: Ground, a: Addr, len: nat, x: Addr, y: Addr)
    requires Fits(h, bs, g, a, len) && x in Added(bs, a, len) && y in Added(bs, a, len)
    ensures Ordered(Region(h, a, len), x, y)
  {
    if x in bs { Outside(h, bs, g, a, len, x); }
    if y in bs { Outside(h, bs, g, a, len, y); }
    if x in bs && y in bs && x < y { Apart(h, bs, g, x, y); }
  }

  /** Adding a region in unused memory keeps the layout sound; it adds one free block. */
  lemma RegionSound(h: Headers, bs: set<Addr>, g: Ground, a: Addr, len: nat)
    requires Sound(h, bs, g) && Fits(h, bs, g, a, len)
    ensures
      var h', bs', g' := Region(h, a, len), Added(bs, a, len), Wider(g, a, len);
      && Sound(h', bs', g') && Mid(a) !in bs
      && FreeSet(h', bs') == FreeSet(h, bs) + {Mid(a)}
      && Buffers(h', bs', g') == Buffers(h, bs, g)
      && forall b :: b in bs ==> b in h && h'[b] == h[b]
  {
    hide Tile, Fits, BlockOk, Ordered, Grounded;
    Bounds(h, bs, g, a, len);
    var h', bs', g' := Region(h, a, len), Added(bs, a, len), Wider(g, a, len);
    assert Grounded(bs', g') by { GroundWider(h, bs, g, a, len); }
    forall c | c in bs' ensures BlockOk(h', bs', g', c) {
      if c in bs {
        OldBlock(h, bs, g, a, len, c);
      } else {
        NewBlock(h, bs, g, a, len, c);
      }
    }
    forall x, y | x in bs' && y in bs' ensures Ordered(h', x, y) { RegionOrder(h, bs, g, a, len, x, y); }
    Assemble(h', bs', g');
    forall c | c in bs ensures c in h && c !in {a, Mid(a), Last(a, len)} { Outside(h, bs, g, a, len, c); InHeap(h, bs, g, c); }
    forall c: Addr | IsInner(bs', g', c) && c in h' && h'[c].free && Next(h', c) in h' ensures !h'[Next(h', c)].free {
      if c in bs {
        NextBlock(h, bs, g, c);
      }
    }
  }
}
