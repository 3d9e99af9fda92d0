/** Whole runs of the heap: to its clients it is a set of independent byte arrays. */
module HeapRuns {
  import opened Bits
  import opened Lists
  import opened HeapLayout
  import opened HeapMoves
  import opened Heaps

  type Memory = seq<bv8>

  /** Calls made through a table of slots that hold the pointers obtained so far. */
  datatype Call =
    | Alloc(slot: nat, size: nat, quick: bool)
    | Free(slot: nat)
    | Realloc(slot: nat, size: nat, quick: bool)
    | Store(slot: nat, offset: nat, value: bv8)

  /** What a call may do to the arrays, without reference to any heap. */
  ghost predicate Effect(c: Call, d: map<nat, Memory>, d': map<nat, Memory>) {
    match c
    case Alloc(s, size, _) => if s in d then d' == d else Obtained(d, d', s, size)
    case Free(s) => d' == d - {s}
    case Realloc(s, size, _) =>
      if s !in d then Obtained(d, d', s, size)
      else if size == 0 then d' == d - {s}
      else d' == d || ( && s in d' && |d'[s]| >= Rounded(size) && d' == d[s := d'[s]]
                        && d[s][..Min(|d[s]|, |d'[s]|)] == d'[s][..Min(|d[s]|, |d'[s]|)])
    case Store(s, i, v) => d' == if s in d && i < |d[s]| then d[s := d[s][i := v]] else d
  }

  ghost predicate Obtained(d: map<nat, Memory>, d': map<nat, Memory>, s: nat, size: nat) {
    d' == d || (size > 0 && s in d' && |d'[s]| >= Rounded(size) && d' == d[s := d'[s]])
  }

  /** Slots, arrays and live buffers correspond one to one, contents included; the buffers `kept` are
      in no slot and stay as they were. */
  ghost predicate Agree(held: map<nat, Addr>, d: map<nat, Memory>, owner: map<Addr, nat>, kept: map<Addr, Memory>, live: map<Addr, nat>, m: Memory) {
    && held.Keys == d.Keys && owner.Keys !! kept.Keys && owner.Keys + kept.Keys == live.Keys && Linked(held, owner)
    && (forall s :: s in held ==> Holds(d[s], live, held[s] - HEAD, m))
    && (forall b :: b in kept ==> Holds(kept[b], live, b, m))
  }

  ghost predicate Linked(held: map<nat, Addr>, owner: map<Addr, nat>) {
    && (forall b :: b in owner ==> owner[b] in held && held[owner[b]] == b + HEAD)
    && (forall s :: s in held ==> held[s] >= HEAD && held[s] - HEAD in owner && owner[held[s] - HEAD] == s)
  }

  lemma LinkedMove(held: map<nat, Addr>, owner: map<Addr, nat>, s: nat, c: Addr)
    requires Linked(held, owner) && s in held && held[s] >= HEAD && (c == held[s] - HEAD || c !in owner)
    ensures Linked(held[s := c + HEAD], (owner - {held[s] - HEAD})[c := s])
  {
  }

  ghost predicate Holds(bytes: Memory, live: map<Addr, nat>, b: int, m: Memory) {
    b >= 0 && b in live && |bytes| == live[b] && b + HEAD + live[b] <= |m| && m[b + HEAD..b + HEAD + live[b]] == bytes
  }

  lemma AgreeGet(held: map<nat, Addr>, d: map<nat, Memory>, owner: map<Addr, nat>, kept: map<Addr, Memory>, live: map<Addr, nat>, m: Memory,
                 s: nat, b: Addr, live': map<Addr, nat>)
    requires Agree(held, d, owner, kept, live, m) && s !in held && b !in live && b in live' && live' == live[b := live'[b]]
    requires b + HEAD + live'[b] <= |m|
    ensures Agree(held[s := b + HEAD], d[s := m[b + HEAD..b + HEAD + live'[b]]], owner[b := s], kept, live', m)
  {
    hide Holds, Linked;
    assert b !in owner && b !in kept;
    LinkedGet(held, owner, s, b);
    HoldsSlice(live', b, m);
    forall t | t in held ensures Holds(d[t], live', held[t] - HEAD, m) { HoldsSame(d[t], live, live', held[t] - HEAD, m); }
    forall x | x in kept ensures Holds(kept[x], live', x, m) { HoldsSame(kept[x], live, live', x, m); }
    assert (owner[b := s]).Keys == owner.Keys + {b};
    var held' := held[s := b + HEAD];
    assert held'[s] - HEAD == b;
  }

  lemma LinkedGet(held: map<nat, Addr>, owner: map<Addr, nat>, s: nat, b: Addr)
    requires Linked(held, owner) && s !in held && b !in owner
    ensures Linked(held[s := b + HEAD], owner[b := s])
  {
  }

  /** Other buffers do not matter. */
  lemma HoldsSame(bytes: Memory, live: map<Addr, nat>, live': map<Addr, nat>, b: int, m: Memory)
    requires Holds(bytes, live, b, m) && forall x :: x in live && x == b ==> x in live' && live'[x] == live[x]
    ensures Holds(bytes, live', b, m)
  {
  }

  lemma AgreeDrop(held: map<nat, Addr>, d: map<nat, Memory>, owner: map<Addr, nat>, kept: map<Addr, Memory>, live: map<Addr, nat>, m: Memory, s: nat)
    requires Agree(held, d, owner, kept, live, m) && s in held
    ensures held[s] >= HEAD && Agree(held - {s}, d - {s}, owner - {held[s] - HEAD}, kept, live - {held[s] - HEAD}, m)
  {
    hide Holds, Linked;
    AgreeAt(held, d, owner, kept, live, m, s);
    var b: Addr, live' := held[s] - HEAD, live - {held[s] - HEAD};
    LinkedDrop(held, owner, s);
    forall t | t in held && t != s ensures Holds(d[t], live', held[t] - HEAD, m) {
      AgreeAt(held, d, owner, kept, live, m, t);
      HoldsSame(d[t], live, live', held[t] - HEAD, m);
    }
    forall x | x in kept ensures Holds(kept[x], live', x, m) {
      KeptAt(held, d, owner, kept, live, m, s, x);
      HoldsSame(kept[x], live, live', x, m);
    }
    assert (owner - {b}).Keys == owner.Keys - {b} && b !in kept;
  }

  lemma LinkedDrop(held: map<nat, Addr>, owner: map<Addr, nat>, s: nat)
    requires Linked(held, owner) && s in held && held[s] >= HEAD
    ensures Linked(held - {s}, owner - {held[s] - HEAD})
  {
  }

  lemma AgreeResize(held: map<nat, Addr>, d: map<nat, Memory>, owner: map<Addr, nat>, kept: map<Addr, Memory>, live: map<Addr, nat>, m: Memory,
                    s: nat, c: Addr, need: nat, live': map<Addr, nat>, m': Memory)
    requires Agree(held, d, owner, kept, live, m) && s in held && held[s] >= HEAD
    requires Resized(live, m, live', m', held[s] - HEAD, c, need) && c + HEAD + live'[c] <= |m'|
    ensures
      var bytes := m'[c + HEAD..c + HEAD + live'[c]];
      && Agree(held[s := c + HEAD], d[s := bytes], (owner - {held[s] - HEAD})[c := s], kept, live', m')
      && |bytes| >= need && d[s][..Min(|d[s]|, |bytes|)] == bytes[..Min(|d[s]|, |bytes|)]
  {
    hide Holds, SameBytes, Agree;
    assert held.Keys == d.Keys by { AgreeAt(held, d, owner, kept, live, m, s); }
    var b: Addr := held[s] - HEAD;
    AgreeAt(held, d, owner, kept, live, m, s);
    PrefixKept(d[s], live, m, b, live', m', c);
    var held' := held[s := c + HEAD];
    forall t | t in held && t != s ensures Holds(d[t], live', held[t] - HEAD, m') && held[t] >= HEAD && held[t] - HEAD != b {
      AgreeAt(held, d, owner, kept, live, m, t);
      StillHolds(d[t], live, m, held[t] - HEAD, live', m');
    }
    forall x | x in kept ensures Holds(kept[x], live', x, m') {
      KeptAt(held, d, owner, kept, live, m, s, x);
      StillHolds(kept[x], live, m, x, live', m');
    }
    AgreeMoved(held, d, owner, kept, live, m, s, c, live', m');
  }

  lemma KeptAt(held: map<nat, Addr>, d: map<nat, Memory>, owner: map<Addr, nat>, kept: map<Addr, Memory>, live: map<Addr, nat>, m: Memory,
               s: nat, b: Addr)
    requires Agree(held, d, owner, kept, live, m) && s in held && b in kept
    ensures b in live && Holds(kept[b], live, b, m) && |kept[b]| == live[b] && held[s] != b + HEAD
  {
  }

  lemma AgreeAt(held: map<nat, Addr>, d: map<nat, Memory>, owner: map<Addr, nat>, kept: map<Addr, Memory>, live: map<Addr, nat>, m: Memory, s: nat)
    requires Agree(held, d, owner, kept, live, m) && s in held
    ensures held.Keys == d.Keys && held[s] >= HEAD && held[s] - HEAD in owner && owner[held[s] - HEAD] == s
    ensures held[s] - HEAD in live && Holds(d[s], live, held[s] - HEAD, m) && |d[s]| == live[held[s] - HEAD]
  {
  }

  lemma StillHolds(bytes: Memory, live: map<Addr, nat>, m: Memory, b: Addr, live': map<Addr, nat>, m': Memory)
    requires Holds(bytes, live, b, m) && b in live && b in live' && live'[b] == live[b] && SameBytes(m, b, m', b, live[b])
    ensures Holds(bytes, live', b, m')
  {
  }

  lemma PrefixKept(bytes: Memory, live: map<Addr, nat>, m: Memory, b: Addr, live': map<Addr, nat>, m': Memory, c: Addr)
    requires Holds(bytes, live, b, m) && b in live && c in live' && c + HEAD + live'[c] <= |m'|
    requires SameBytes(m, b, m', c, Min(live[b], live'[c]))
    ensures var n := Min(live[b], live'[c]);
            |bytes| == live[b] && bytes[..n] == m'[c + HEAD..c + HEAD + live'[c]][..n]
  {
    var n := Min(live[b], live'[c]);
    assert bytes[..n] == m[b + HEAD..b + HEAD + n];
    assert m'[c + HEAD..c + HEAD + live'[c]][..n] == m'[c + HEAD..c + HEAD + n];
  }

  lemma HoldsSlice(live: map<Addr, nat>, b: Addr, m: Memory)
    requires b in live && b + HEAD + live[b] <= |m|
    ensures Holds(m[b + HEAD..b + HEAD + live[b]], live, b, m)
  {
  }

  lemma AgreeMoved(held: map<nat, Addr>, d: map<nat, Memory>, owner: map<Addr, nat>, kept: map<Addr, Memory>, live: map<Addr, nat>, m: Memory,
                   s: nat, c: Addr, live': map<Addr, nat>, m': Memory)
    requires Agree(held, d, owner, kept, live, m) && s in held && held[s] >= HEAD && c in live' && c + HEAD + live'[c] <= |m'|
    requires live' == (live - {held[s] - HEAD})[c := live'[c]] && (c == held[s] - HEAD || c !in live)
    requires forall t :: t in held && t != s ==> Holds(d[t], live', held[t] - HEAD, m')
    requires forall b :: b in kept ==> Holds(kept[b], live', b, m')
    ensures Agree(held[s := c + HEAD], d[s := m'[c + HEAD..c + HEAD + live'[c]]], (owner - {held[s] - HEAD})[c := s], kept, live', m')
  {
    hide Holds, Linked;
    LinkedMove(held, owner, s, c);
    HoldsSlice(live', c, m');
    var held' := held[s := c + HEAD];
    assert held'[s] - HEAD == c;
    assert forall t :: t in held' && t != s ==> held'[t] == held[t];
    MovedApart(held, d, owner, kept, live, m, s, c);
    var owner' := (owner - {held[s] - HEAD})[c := s];
    assert owner'.Keys == owner.Keys - {held[s] - HEAD} + {c};
    assert live'.Keys == live.Keys - {held[s] - HEAD} + {c};
  }

  lemma MovedApart(held: map<nat, Addr>, d: map<nat, Memory>, owner: map<Addr, nat>, kept: map<Addr, Memory>, live: map<Addr, nat>, m: Memory,
                   s: nat, c: Addr)
    requires Agree(held, d, owner, kept, live, m) && s in held && (c == held[s] - HEAD || c !in live)
    ensures c !in kept && held[s] - HEAD !in kept
  {
  }

  lemma AgreeStore(held: map<nat, Addr>, d: map<nat, Memory>, owner: map<Addr, nat>, kept: map<Addr, Memory>, live: map<Addr, nat>, m: Memory,
                   s: nat, i: nat, v: bv8)
    requires Agree(held, d, owner, kept, live, m) && s in held && s in d && i < |d[s]|
    requires forall x, y :: x in live && y in live && x != y ==> x + HEAD + live[x] <= y || y + HEAD + live[y] <= x
    ensures held[s] + i < |m| && Agree(held, d[s := d[s][i := v]], owner, kept, live, m[held[s] + i := v])
  {
    hide Holds, Agree;
    AgreeAt(held, d, owner, kept, live, m, s);
    var b: Addr := held[s] - HEAD;
    Written(d[s], live, m, b, i, v);
    var m' := m[held[s] + i := v];
    forall t | t in held && t != s ensures Holds(d[t], live, held[t] - HEAD, m') {
      AgreeAt(held, d, owner, kept, live, m, t);
      WrittenElsewhere(d[t], live, m, held[t] - HEAD, held[s] + i, v);
    }
    forall x | x in kept ensures Holds(kept[x], live, x, m') {
      KeptAt(held, d, owner, kept, live, m, s, x);
      WrittenElsewhere(kept[x], live, m, x, held[s] + i, v);
    }
    AgreeStored(held, d, owner, kept, live, m, s, d[s][i := v], m');
  }

  lemma Written(bytes: Memory, live: map<Addr, nat>, m: Memory, b: Addr, i: nat, v: bv8)
    requires Holds(bytes, live, b, m) && i < |bytes|
    ensures b + HEAD + i < |m| && Holds(bytes[i := v], live, b, m[b + HEAD + i := v])
  {
  }

  lemma WrittenElsewhere(bytes: Memory, live: map<Addr, nat>, m: Memory, b: Addr, a: Addr, v: bv8)
    requires Holds(bytes, live, b, m) && b in live && a < |m| && !(b + HEAD <= a < b + HEAD + live[b])
    ensures Holds(bytes, live, b, m[a := v])
  {
  }

  lemma AgreeStored(held: map<nat, Addr>, d: map<nat, Memory>, owner: map<Addr, nat>, kept: map<Addr, Memory>, live: map<Addr, nat>, m: Memory,
                    s: nat, bytes: Memory, m': Memory)
    requires Agree(held, d, owner, kept, live, m) && s in held && Holds(bytes, live, held[s] - HEAD, m')
    requires forall t :: t in held && t != s ==> Holds(d[t], live, held[t] - HEAD, m')
    requires forall b :: b in kept ==> Holds(kept[b], live, b, m')
    ensures Agree(held, d[s := bytes], owner, kept, live, m')
  {
    hide Holds;
  }

  class Client {
    const heap: Heap
    var held: map<nat, Addr>
    ghost var data: map<nat, Memory>
    ghost var owner: map<Addr, nat>
    /** Buffers in use before the client, such as that of the fixed-block pool, with their bytes. */
    ghost const kept: map<Addr, Memory>

    ghost predicate Inv()
      reads this, heap
    {
      heap.Inv() && Agree(held, data, owner, kept, heap.Live(), heap.mem)
    }

    constructor (heap: Heap)
      requires heap.Inv()
      ensures Inv() && this.heap == heap && held == map[] && data == map[] && kept.Keys == heap.Live().Keys
    {
      this.heap := heap;
      held, data, owner := map[], map[], map[];
      heap.Ranges();
      kept := map b | b in heap.Live() :: heap.mem[b + HEAD..b + HEAD + heap.Live()[b]];
    }

    method Perform(c: Call)
      requires Inv() && ((c.Alloc? || c.Realloc?) ==> c.size < WORD)
      modifies this, heap
      ensures Inv() && Effect(c, old(data), data)
      ensures (c.Alloc? || c.Realloc?) && c.slot !in old(data) && 0 < c.size <= WORD - ALIGN ==>
                (c.slot in data <==> old(HasRoom(c.size)))
      ensures c.Realloc? && c.slot in old(data) && 0 < c.size <= WORD - ALIGN && (c.size <= |old(data)[c.slot]| || old(HasRoom(c.size))) ==>
                c.slot in data && c.size <= |data[c.slot]|
    {
      hide heap.Inv, Agree, Buffers;
      match c {
        case Alloc(s, size, quick) =>
          SameKeys();
          if s !in held { Obtain(s, size, quick); }
        case Free(s) =>
          SameKeys();
          if s in held { Drop(s); }
        case Realloc(s, size, quick) =>
          SameKeys();
          if s !in held {
            Obtain(s, size, quick);
          } else if size == 0 {
            Drop(s);
          } else {
            Resize(s, size, quick);
          }
        case Store(s, i, v) =>
          SameKeys();
          if s in held { Write(s, i, v); }
      }
    }

    /** Is there a free block of at least that many bytes? */
    ghost predicate HasRoom(size: nat)
      reads heap
    {
      exists b :: b in FreeSet(heap.hdr, heap.blocks) && b in heap.hdr && size <= heap.hdr[b].size
    }

    lemma SameKeys()
      requires Inv()
      ensures held.Keys == data.Keys
    {
    }

    method Obtain(s: nat, size: nat, quick: bool)
      requires Inv() && s !in held && size < WORD
      modifies this, heap
      ensures Inv() && Obtained(old(data), data, s, size) && (0 < size <= WORD - ALIGN ==> (s in data <==> old(HasRoom(size))))
    {
      hide heap.Inv, Agree, Buffers, FreeSet, Rounded;
      SameKeys();
      FreeHeaders();
      heap.FreeIsNotLive();
      var p := heap.Alloc(size, quick);
      if p.Some? {
        ghost var b := p.value - HEAD;
        heap.Ranges();
        AgreeGet(held, data, owner, kept, old(heap.Live()), heap.mem, s, b, heap.Live());
        data := data[s := heap.mem[b + HEAD..b + HEAD + heap.Live()[b]]];
        held, owner := held[s := p.value], owner[b := s];
      }
    }

    method Drop(s: nat)
      requires Inv() && s in held
      modifies this, heap
      ensures Inv() && data == old(data) - {s}
    {
      hide heap.Inv, Buffers, Agree;
      Held(s);
      AgreeDrop(held, data, owner, kept, heap.Live(), heap.mem, s);
      heap.Free(Some(held[s]));
      data, owner := data - {s}, owner - {held[s] - HEAD};
      held := held - {s};
    }

    method Resize(s: nat, size: nat, quick: bool)
      requires Inv() && s in held && s in data && 0 < size < WORD
      modifies this, heap
      ensures Inv() && (data == old(data) || (
                && s in data && |data[s]| >= Rounded(size) && data == old(data)[s := data[s]]
                && old(data[s])[..Min(old(|data[s]|), |data[s]|)] == data[s][..Min(old(|data[s]|), |data[s]|)]))
      ensures size <= WORD - ALIGN && (size <= old(|data[s]|) || old(HasRoom(size))) ==> s in data && size <= |data[s]|
    {
      hide heap.Inv, Agree, Buffers, FreeSet, Rounded, Resized;
      FreeHeaders();
      Held(s);
      var p := heap.Realloc(Some(held[s]), size, quick);
      if p.Some? {
        ghost var b := held[s] - HEAD;
        ghost var c := p.value - HEAD;
        heap.Ranges();
        ResizedTarget(old(heap.Live()), old(heap.mem), heap.Live(), heap.mem, b, c, Rounded(size));
        AgreeResize(held, data, owner, kept, old(heap.Live()), old(heap.mem), s, c, Rounded(size), heap.Live(), heap.mem);
        data := data[s := heap.mem[c + HEAD..c + HEAD + heap.Live()[c]]];
        held, owner := held[s := p.value], (owner - {b})[c := s];
      }
    }

    lemma FreeHeaders()
      requires Inv()
      ensures forall b :: b in FreeSet(heap.hdr, heap.blocks) ==> b in heap.hdr
    {
    }

    lemma ResizedTarget(live: map<Addr, nat>, m: Memory, live': map<Addr, nat>, m': Memory, b: Addr, c: Addr, need: nat)
      requires Resized(live, m, live', m', b, c, need)
      ensures c in live'
    {
    }

    lemma Held(s: nat)
      requires Inv() && s in held
      ensures held[s] >= HEAD && held[s] - HEAD in heap.Live() && s in data && |data[s]| == heap.Live()[held[s] - HEAD]
      ensures held[s] + |data[s]| <= |heap.mem| && heap.mem[held[s]..held[s] + |data[s]|] == data[s]
    {
      assert Holds(data[s], heap.Live(), held[s] - HEAD, heap.mem);
    }

    /** A client writes into a buffer it holds. */
    method Write(s: nat, i: nat, v: bv8)
      requires Inv() && s in held && s in data
      modifies this, heap`mem
      ensures Inv() && data == if i < old(|data[s]|) then old(data)[s := old(data[s])[i := v]] else old(data)
    {
      hide Agree, Buffers, Tile, NoFreePair, FreeLists.Listed;
      Held(s);
      heap.LiveBlock(held[s] - HEAD);
      if i < heap.hdr[held[s] - HEAD].size {
        forall x, y | x in heap.Live() && y in heap.Live() && x != y
          ensures x + HEAD + heap.Live()[x] <= y || y + HEAD + heap.Live()[y] <= x
        {
          heap.LiveDisjoint(x, y);
        }
        AgreeStore(held, data, owner, kept, heap.Live(), heap.mem, s, i, v);
        data := data[s := data[s][i := v]];
        heap.mem := heap.mem[held[s] + i := v];
      }
    }

    /** What is read from a held buffer is what the arrays say. */
    method Read(s: nat, i: nat) returns (v: bv8)
      requires Inv() && s in held && s in data && i < |data[s]|
      ensures v == data[s][i]
    {
      Held(s);
      v := heap.mem[held[s] + i];
    }

    /** Different slots hold disjoint buffers, a header apart. */
    lemma HeldApart(s: nat, t: nat)
      requires Inv() && s in held && t in held && s != t && s in data && t in data
      ensures held[s] + |data[s]| + HEAD <= held[t] || held[t] + |data[t]| + HEAD <= held[s]
    {
      hide heap.Inv, Agree, Buffers;
      AgreeAt(held, data, owner, kept, heap.Live(), heap.mem, s);
      AgreeAt(held, data, owner, kept, heap.Live(), heap.mem, t);
      heap.LiveDisjoint(held[s] - HEAD, held[t] - HEAD);
    }

    /** Buffers in use before the client keep their place and their bytes, a header apart from its own. */
    lemma KeptApart(s: nat, b: Addr)
      requires Inv() && s in held && b in kept && s in data
      ensures held[s] + |data[s]| <= b || b + HEAD + |kept[b]| + HEAD <= held[s]
      ensures b + HEAD + |kept[b]| <= |heap.mem| && heap.mem[b + HEAD..b + HEAD + |kept[b]|] == kept[b]
    {
      hide heap.Inv, Agree, Buffers;
      AgreeAt(held, data, owner, kept, heap.Live(), heap.mem, s);
      KeptAt(held, data, owner, kept, heap.Live(), heap.mem, s, b);
      heap.LiveDisjoint(held[s] - HEAD, b);
    }

    /** Every live buffer is held by a slot or was in use before: nothing leaks. */
    lemma NoLeak(b: Addr)
      requires Inv()
      ensures b in heap.Live() <==> b in kept || exists s :: s in held && held[s] == b + HEAD
    {
      hide heap.Inv, Buffers;
      assert b in heap.Live() && b !in kept ==> b in owner && owner[b] in held && held[owner[b]] == b + HEAD;
    }

    /** Any sequence of calls: the heap invariant holds at the end, and each call had its effect
        on the arrays and on nothing else. */
    method Run(calls: seq<Call>) returns (ghost trace: seq<map<nat, Memory>>)
      requires Inv()
      requires forall i :: 0 <= i < |calls| && (calls[i].Alloc? || calls[i].Realloc?) ==> calls[i].size < WORD
      modifies this, heap
      ensures Inv() && |trace| == |calls| + 1 && trace[0] == old(data) && trace[|calls|] == data
      ensures forall i :: 0 <= i < |calls| ==> Effect(calls[i], trace[i], trace[i + 1])
    {
      hide Inv, Effect;
      trace := [data];
      for k := 0 to |calls|
        invariant Inv() && |trace| == k + 1 && trace[0] == old(data) && trace[k] == data
        invariant forall i :: 0 <= i < k ==> Effect(calls[i], trace[i], trace[i + 1])
      {
        Perform(calls[k]);
        trace := trace + [data];
      }
    }
  }

  /** The board's heap: initialised, with the buffer of the fixed-block pool in use, and any run of calls
      of its clients. */
  method Board(n: nat, start: Addr, length: nat, headSize: nat, poolSize: nat, calls: seq<Call>)
    returns (c: Client, pool: Addr, ghost trace: seq<map<nat, Memory>>)
    requires start + length <= n < WORD - ALIGN && headSize + poolSize <= 900
    requires AlignUp(start) <= start + length && FIRST_MIN <= start + length - AlignUp(start) - (start + length - AlignUp(start)) % ALIGN <= MAX_SIZE
    requires forall i :: 0 <= i < |calls| && (calls[i].Alloc? || calls[i].Realloc?) ==> calls[i].size < WORD
    ensures c.Inv() && c.kept.Keys == {pool} && pool in c.heap.Live() && |trace| == |calls| + 1 && trace[0] == map[]
    ensures forall i :: 0 <= i < |calls| ==> Effect(calls[i], trace[i], trace[i + 1])
  {
    hide AlignUp, Rounded, Effect, Heap.Inv, Agree, Buffers;
    var heap := new Heap(n);
    var ok, p := heap.InitHead(start, length, headSize, poolSize, true);
    pool := p.value - HEAD;
    c := new Client(heap);
    trace := c.Run(calls);
    c.NoLeak(pool);
  }
}
