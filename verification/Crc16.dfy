/** The two CRC-16 routines of crc16.c, and what their result detects. */
module Crc16 {
  import opened Lists

  type Byte = bv8

  // ----- the reference: polynomial division as a shift register -----

  /** Four bits, and a register of sixteen, the most significant first. */
  datatype Nibble = N(a: bool, b: bool, c: bool, d: bool)
  datatype Register = R(n0: Nibble, n1: Nibble, n2: Nibble, n3: Nibble)

  /** Message bits in order of transmission. */
  type Bits = seq<bool>

  /** One step of division by x^16 + x^12 + x^5 + 1. */
  function Shift(r: Register, bit: bool): Register {
    var t := r.n0.a != bit;
    R(N(r.n0.b, r.n0.c, r.n0.d, r.n1.a != t), N(r.n1.b, r.n1.c, r.n1.d, r.n2.a),
      N(r.n2.b, r.n2.c, r.n2.d != t, r.n3.a), N(r.n3.b, r.n3.c, r.n3.d, t))
  }

  function Feed(r: Register, bits: Bits): Register
    decreases |bits|
  {
    if bits == [] then r else Feed(Shift(r, bits[0]), bits[1..])
  }

  lemma {:induction false} FeedConcat(r: Register, a: Bits, b: Bits)
    ensures Feed(r, a + b) == Feed(Feed(r, a), b)
    decreases |a|
  {
    if a == [] {
      assert a + b == b;
    } else {
      assert (a + b)[1..] == a[1..] + b;
      FeedConcat(Shift(r, a[0]), a[1..], b);
    }
  }

  // ----- words and bytes as bits -----

  /** Is the bit of this mask set? */
  predicate On(x: bv16, mask: bv16) { x & mask != 0 }

  function Word(x: bv16): Register {
    R(N(On(x, 0x8000), On(x, 0x4000), On(x, 0x2000), On(x, 0x1000)),
      N(On(x, 0x0800), On(x, 0x0400), On(x, 0x0200), On(x, 0x0100)),
      N(On(x, 0x0080), On(x, 0x0040), On(x, 0x0020), On(x, 0x0010)),
      N(On(x, 0x0008), On(x, 0x0004), On(x, 0x0002), On(x, 0x0001)))
  }

  lemma WordInjective(x: bv16, y: bv16)
    requires Word(x) == Word(y)
    ensures x == y
  {
  }

  function High(b: Byte): Nibble { N(b & 0x80 != 0, b & 0x40 != 0, b & 0x20 != 0, b & 0x10 != 0) }
  function Low(b: Byte): Nibble { N(b & 0x08 != 0, b & 0x04 != 0, b & 0x02 != 0, b & 0x01 != 0) }

  function NibbleBits(n: Nibble): (r: Bits) ensures |r| == 4 { [n.a, n.b, n.c, n.d] }

  function ByteBits(b: Byte): (r: Bits) ensures |r| == 8 { NibbleBits(High(b)) + NibbleBits(Low(b)) }

  function Message(data: seq<Byte>): (r: Bits)
    ensures |r| == 8 * |data|
  {
    if data == [] then [] else ByteBits(data[0]) + Message(data[1..])
  }

  lemma {:induction false} MessageConcat(a: seq<Byte>, b: seq<Byte>)
    ensures Message(a + b) == Message(a) + Message(b)
  {
    if a == [] {
      assert a + b == b;
    } else {
      assert (a + b)[1..] == a[1..] + b;
      MessageConcat(a[1..], b);
    }
  }

  // ----- sums -----

  const ZERO := N(false, false, false, false)

  function Sum(m: Nibble, n: Nibble): Nibble { N(m.a != n.a, m.b != n.b, m.c != n.c, m.d != n.d) }

  lemma SumComm(m: Nibble, n: Nibble)
    ensures Sum(m, n) == Sum(n, m)
  {
  }

  lemma SumAssoc(k: Nibble, m: Nibble, n: Nibble)
    ensures Sum(Sum(k, m), n) == Sum(k, Sum(m, n))
  {
  }

  lemma SumSwap(k: Nibble, m: Nibble, n: Nibble)
    ensures Sum(Sum(k, m), n) == Sum(Sum(k, n), m)
  {
    hide Sum;
    SumAssoc(k, m, n);
    SumAssoc(k, n, m);
    SumComm(m, n);
  }

  lemma SumZero(m: Nibble)
    ensures Sum(m, ZERO) == m && Sum(m, m) == ZERO
  {
  }

  function Xor(r: Register, s: Register): Register {
    R(Sum(r.n0, s.n0), Sum(r.n1, s.n1), Sum(r.n2, s.n2), Sum(r.n3, s.n3))
  }

  lemma XorWord(x: bv16, y: bv16)
    ensures Word(x ^ y) == Xor(Word(x), Word(y))
  {
    hide On;
    XorHigh(x, y);
    XorLow(x, y);
  }

  lemma XorHigh(x: bv16, y: bv16)
    ensures On(x ^ y, 0x8000) == (On(x, 0x8000) != On(y, 0x8000)) && On(x ^ y, 0x4000) == (On(x, 0x4000) != On(y, 0x4000))
    ensures On(x ^ y, 0x2000) == (On(x, 0x2000) != On(y, 0x2000)) && On(x ^ y, 0x1000) == (On(x, 0x1000) != On(y, 0x1000))
    ensures On(x ^ y, 0x0800) == (On(x, 0x0800) != On(y, 0x0800)) && On(x ^ y, 0x0400) == (On(x, 0x0400) != On(y, 0x0400))
    ensures On(x ^ y, 0x0200) == (On(x, 0x0200) != On(y, 0x0200)) && On(x ^ y, 0x0100) == (On(x, 0x0100) != On(y, 0x0100))
  {
    hide On;
    XorAt(x, y, 0x8000); XorAt(x, y, 0x4000); XorAt(x, y, 0x2000); XorAt(x, y, 0x1000);
    XorAt(x, y, 0x0800); XorAt(x, y, 0x0400); XorAt(x, y, 0x0200); XorAt(x, y, 0x0100);
  }

  lemma XorLow(x: bv16, y: bv16)
    ensures On(x ^ y, 0x0080) == (On(x, 0x0080) != On(y, 0x0080)) && On(x ^ y, 0x0040) == (On(x, 0x0040) != On(y, 0x0040))
    ensures On(x ^ y, 0x0020) == (On(x, 0x0020) != On(y, 0x0020)) && On(x ^ y, 0x0010) == (On(x, 0x0010) != On(y, 0x0010))
    ensures On(x ^ y, 0x0008) == (On(x, 0x0008) != On(y, 0x0008)) && On(x ^ y, 0x0004) == (On(x, 0x0004) != On(y, 0x0004))
    ensures On(x ^ y, 0x0002) == (On(x, 0x0002) != On(y, 0x0002)) && On(x ^ y, 0x0001) == (On(x, 0x0001) != On(y, 0x0001))
  {
    hide On;
    XorAt(x, y, 0x0080); XorAt(x, y, 0x0040); XorAt(x, y, 0x0020); XorAt(x, y, 0x0010);
    XorAt(x, y, 0x0008); XorAt(x, y, 0x0004); XorAt(x, y, 0x0002); XorAt(x, y, 0x0001);
  }

  lemma XorAt(x: bv16, y: bv16, m: bv16)
    requires m == 0x8000 || m == 0x4000 || m == 0x2000 || m == 0x1000 || m == 0x0800 || m == 0x0400 || m == 0x0200 || m == 0x0100
          || m == 0x0080 || m == 0x0040 || m == 0x0020 || m == 0x0010 || m == 0x0008 || m == 0x0004 || m == 0x0002 || m == 0x0001
    ensures On(x ^ y, m) == (On(x, m) != On(y, m))
  {
  }

  // ----- util_crc16_ccitt -----

  lemma ShiftWord(crc: bv16, bit: bool)
    ensures Word(if On(crc, 0x8000) != bit then (crc << 1) ^ 0x1021 else crc << 1) == Shift(Word(crc), bit)
  {
  }

  // ----- util_crc16_compute -----

  /** A nibble shifted by one bit, across a nibble boundary. */
  function Out(n: Nibble): Nibble { N(false, false, false, n.a) }
  function In(n: Nibble): Nibble { N(n.b, n.c, n.d, false) }

  lemma SwapWord(x: bv16)
    ensures Word((x >> 8) | (x << 8)) == R(Word(x).n2, Word(x).n3, Word(x).n0, Word(x).n1)
  {
  }

  lemma ByteWord(b: Byte)
    ensures Word(b as bv16) == R(ZERO, ZERO, High(b), Low(b))
  {
  }

  lemma NibbleWord(x: bv16)
    ensures Word((x & 0xFF) >> 4) == R(ZERO, ZERO, ZERO, Word(x).n2)
  {
  }

  lemma TopWord(x: bv16)
    ensures Word(x << 8 << 4) == R(Word(x).n3, ZERO, ZERO, ZERO)
  {
  }

  lemma MiddleWord(x: bv16)
    ensures var m, n := Word(x).n2, Word(x).n3;
            Word((x & 0xFF) << 4 << 1) == R(Out(m), N(m.b, m.c, m.d, n.a), In(n), ZERO)
  {
  }

  function Swap(x: bv16): bv16 { (x >> 8) | (x << 8) }
  function AddByte(x: bv16, b: Byte): bv16 { x ^ (b as bv16) }
  function AddNibble(x: bv16): bv16 { x ^ ((x & 0xFF) >> 4) }
  function AddTop(x: bv16): bv16 { x ^ (x << 8 << 4) }
  function AddMiddle(x: bv16): bv16 { x ^ ((x & 0xFF) << 4 << 1) }

  /** The loop body of `util_crc16_compute`. */
  function Fold(crc: bv16, b: Byte): bv16 {
    AddMiddle(AddTop(AddNibble(AddByte(Swap(crc), b))))
  }

  lemma SwappedWord(x: bv16)
    ensures Word(Swap(x)) == R(Word(x).n2, Word(x).n3, Word(x).n0, Word(x).n1)
  {
    hide Word;
    SwapWord(x);
  }

  lemma AddByteWord(x: bv16, b: Byte)
    ensures Word(AddByte(x, b)) == Xor(Word(x), R(ZERO, ZERO, High(b), Low(b)))
  {
    hide Word, Xor, High, Low;
    ByteWord(b);
    XorWord(x, b as bv16);
  }

  lemma AddNibbleWord(x: bv16)
    ensures Word(AddNibble(x)) == Xor(Word(x), R(ZERO, ZERO, ZERO, Word(x).n2))
  {
    hide Word, Xor;
    NibbleWord(x);
    XorWord(x, (x & 0xFF) >> 4);
  }

  lemma AddTopWord(x: bv16)
    ensures Word(AddTop(x)) == Xor(Word(x), R(Word(x).n3, ZERO, ZERO, ZERO))
  {
    hide Word, Xor;
    TopWord(x);
    XorWord(x, x << 8 << 4);
  }

  lemma AddMiddleWord(x: bv16)
    ensures var m, n := Word(x).n2, Word(x).n3;
            Word(AddMiddle(x)) == Xor(Word(x), R(Out(m), Sum(In(m), Out(n)), In(n), ZERO))
  {
    hide Word, Xor;
    MiddleWord(x);
    XorWord(x, (x & 0xFF) << 4 << 1);
  }

  /** Four shifts at once: nothing fed back is shifted out again. */
  function FourShifts(r: Register, w: Nibble): Register {
    var t := Sum(r.n0, w);
    R(Sum(r.n1, t), Sum(r.n2, Out(t)), Sum(r.n3, In(t)), t)
  }

  lemma FourShiftsIsFour(r: Register, w: Nibble)
    ensures FourShifts(r, w) == Shift(Shift(Shift(Shift(r, w.a), w.b), w.c), w.d)
  {
  }

  lemma FeedNibble(r: Register, w: Nibble, rest: Bits)
    ensures Feed(r, NibbleBits(w) + rest) == Feed(FourShifts(r, w), rest)
  {
    hide Shift, FourShifts;
    FourShiftsIsFour(r, w);
    var s := NibbleBits(w) + rest;
    assert s[1..][1..] == s[2..] && s[2..][1..] == s[3..] && s[3..][1..] == rest;
    var r2 := Shift(Shift(r, w.a), w.b);
    assert Feed(r, s) == Feed(Shift(r, w.a), s[1..]);
    assert Feed(Shift(r, w.a), s[1..]) == Feed(r2, s[2..]);
    assert Feed(r2, s[2..]) == Feed(Shift(r2, w.c), s[3..]);
  }

  lemma FeedByte(r: Register, b: Byte)
    ensures Feed(r, ByteBits(b)) == FourShifts(FourShifts(r, High(b)), Low(b))
  {
    hide FourShifts, High, Low;
    FeedNibble(r, High(b), NibbleBits(Low(b)));
    assert NibbleBits(Low(b)) + [] == NibbleBits(Low(b));
    FeedNibble(FourShifts(r, High(b)), Low(b), []);
  }

  lemma FoldWord(crc: bv16, b: Byte)
    ensures Word(Fold(crc, b)) == FourShifts(FourShifts(Word(crc), High(b)), Low(b))
  {
    hide Word, High, Low, Swap, AddByte, AddNibble, AddTop, AddMiddle, Sum, In, Out;
    var r := Word(crc);
    var c0 := Swap(crc);
    SwappedWord(crc);
    var c1 := AddByte(c0, b);
    AddByteWord(c0, b);
    var t := Sum(r.n0, High(b));
    SumZero(r.n2);
    SumZero(r.n3);
    assert Word(c1) == R(r.n2, r.n3, t, Sum(r.n1, Low(b)));
    var c2 := AddNibble(c1);
    AddNibbleWord(c1);
    var v := Sum(Sum(r.n1, Low(b)), t);
    SumZero(t);
    assert Word(c2) == R(r.n2, r.n3, t, v);
    var c3 := AddTop(c2);
    AddTopWord(c2);
    SumZero(v);
    SumZero(r.n3);
    assert Word(c3) == R(Sum(r.n2, v), r.n3, t, v);
    AddMiddleWord(c3);
    SumSwap(r.n1, Low(b), t);
    SumSwap(r.n2, v, Out(t));
    SumAssoc(r.n3, In(t), Out(v));
  }

  /** Folding a byte into the word is feeding its eight bits to the register. */
  lemma FoldIsFeed(crc: bv16, b: Byte)
    ensures Word(Fold(crc, b)) == Feed(Word(crc), ByteBits(b))
  {
    hide Word, ByteBits, FourShifts, Fold;
    FoldWord(crc, b);
    FeedByte(Word(crc), b);
  }

  /** The CRC of a byte string, as polynomial division defines it. */
  function Crc(start: bv16, data: seq<Byte>): Register { Feed(Word(start), Message(data)) }

  lemma NextByte(start: bv16, data: seq<Byte>, i: nat)
    requires i < |data|
    ensures Crc(start, data[..i + 1]) == Feed(Crc(start, data[..i]), ByteBits(data[i]))
  {
    hide Word, ByteBits;
    assert data[..i + 1] == data[..i] + [data[i]];
    MessageConcat(data[..i], [data[i]]);
    assert [data[i]][1..] == [];
    assert Message([data[i]]) == ByteBits(data[i]);
    FeedConcat(Word(start), Message(data[..i]), ByteBits(data[i]));
  }

  /** `util_crc16_compute`, from a given value or from 0xFFFF */
  method Compute(data: seq<Byte>, start: Option<bv16>) returns (crc: bv16)
    ensures Word(crc) == Crc(if start.Some? then start.value else 0xFFFF, data)
  {
    hide Word, Crc, ByteBits, Feed;
    crc := if start.Some? then start.value else 0xFFFF;
    ghost var first := crc;
    CrcOfNothing(first);
    for i := 0 to |data|
      invariant Word(crc) == Crc(first, data[..i])
    {
      NextByte(first, data, i);
      crc := FoldStep(crc, data[i]);
    }
    assert data[..|data|] == data;
  }

  lemma CrcOfNothing(start: bv16)
    ensures Crc(start, []) == Word(start)
  {
  }

  method FoldStep(start: bv16, b: Byte) returns (crc: bv16)
    ensures Word(crc) == Feed(Word(start), ByteBits(b))
  {
    hide Word, ByteBits, Feed;
    FoldIsFeed(start, b);
    crc := (start >> 8) | (start << 8);
    crc := crc ^ (b as bv16);
    crc := crc ^ ((crc & 0xFF) >> 4);
    crc := crc ^ (crc << 8 << 4);
    crc := crc ^ ((crc & 0xFF) << 4 << 1);
  }

  /** `util_crc16_ccitt`: the same value, bit by bit */
  method Ccitt(data: seq<Byte>, start: Option<bv16>) returns (crc: bv16)
    ensures Word(crc) == Crc(if start.Some? then start.value else 0xFFFF, data)
  {
    hide Word, Crc, ByteBits, Feed;
    crc := if start.Some? then start.value else 0xFFFF;
    ghost var first := crc;
    CrcOfNothing(first);
    for i := 0 to |data|
      invariant Word(crc) == Crc(first, data[..i])
    {
      NextByte(first, data, i);
      ghost var before := Word(crc);
      FeedNothing(before, ByteBits(data[i]));
      for j := 0 to 8
        invariant Word(crc) == Feed(before, ByteBits(data[i])[..j])
      {
        FeedNext(before, ByteBits(data[i]), j);
        crc := BitStep(crc, data[i], j);
      }
      assert ByteBits(data[i])[..8] == ByteBits(data[i]);
    }
    assert data[..|data|] == data;
  }

  lemma FeedNothing(r: Register, w: Bits)
    ensures Feed(r, w[..0]) == r
  {
  }

  lemma FeedNext(r: Register, w: Bits, j: nat)
    requires j < |w|
    ensures Feed(r, w[..j + 1]) == Shift(Feed(r, w[..j]), w[j])
  {
    assert w[..j + 1] == w[..j] + [w[j]];
    FeedConcat(r, w[..j], [w[j]]);
    assert [w[j]][1..] == [];
    assert Feed(Feed(r, w[..j]), [w[j]]) == Shift(Feed(r, w[..j]), w[j]);
  }

  /** The body of the inner loop. */
  method BitStep(start: bv16, byte: Byte, j: nat) returns (crc: bv16)
    requires j < 8
    ensures Word(crc) == Shift(Word(start), ByteBits(byte)[j])
  {
    hide Word, Shift, On;
    ShiftWord(start, ByteBits(byte)[j]);
    var b := ((byte << j) & 0x80) ^ (((start & 0x8000) >> 8) as bv8);
    TestBit(start, byte, j);
    crc := start << 1;
    if b != 0 {
      crc := crc ^ 0x1021;
    }
  }

  lemma TestBit(crc: bv16, byte: Byte, j: nat)
    requires j < 8
    ensures (((byte << j) & 0x80) ^ (((crc & 0x8000) >> 8) as bv8) != 0) == (On(crc, 0x8000) != ByteBits(byte)[j])
  {
    BitAt(byte, j);
    TopBit(crc);
    Differ((byte << j) & 0x80, ((crc & 0x8000) >> 8) as bv8);
  }

  lemma BitAt(byte: Byte, j: nat)
    requires j < 8
    ensures ((byte << j) & 0x80 != 0) == ByteBits(byte)[j]
    ensures (byte << j) & 0x80 == 0 || (byte << j) & 0x80 == 0x80
  {
    hide ByteBits;
    ByteBitsAt(byte);
    Shifted(byte);
    EightOrNone(byte << j);
    match j {
      case 0 =>
      case 1 =>
      case 2 =>
      case 3 =>
      case 4 =>
      case 5 =>
      case 6 =>
      case 7 =>
    }
  }

  lemma EightOrNone(x: bv8)
    ensures x & 0x80 == 0 || x & 0x80 == 0x80
  {
  }

  lemma Shifted(b: Byte)
    ensures ((b << 0) & 0x80 != 0) == (b & 0x80 != 0) && ((b << 1) & 0x80 != 0) == (b & 0x40 != 0)
    ensures ((b << 2) & 0x80 != 0) == (b & 0x20 != 0) && ((b << 3) & 0x80 != 0) == (b & 0x10 != 0)
    ensures ((b << 4) & 0x80 != 0) == (b & 0x08 != 0) && ((b << 5) & 0x80 != 0) == (b & 0x04 != 0)
    ensures ((b << 6) & 0x80 != 0) == (b & 0x02 != 0) && ((b << 7) & 0x80 != 0) == (b & 0x01 != 0)
  {
  }

  lemma ByteBitsAt(b: Byte)
    ensures ByteBits(b)[0] == (b & 0x80 != 0) && ByteBits(b)[1] == (b & 0x40 != 0)
    ensures ByteBits(b)[2] == (b & 0x20 != 0) && ByteBits(b)[3] == (b & 0x10 != 0)
    ensures ByteBits(b)[4] == (b & 0x08 != 0) && ByteBits(b)[5] == (b & 0x04 != 0)
    ensures ByteBits(b)[6] == (b & 0x02 != 0) && ByteBits(b)[7] == (b & 0x01 != 0)
  {
    NibblesAt(b);
    hide High, Low;
    var s := ByteBits(b);
    assert s[0] == High(b).a && s[1] == High(b).b && s[2] == High(b).c && s[3] == High(b).d;
    assert s[4] == Low(b).a && s[5] == Low(b).b && s[6] == Low(b).c && s[7] == Low(b).d;
  }

  lemma NibblesAt(b: Byte)
    ensures High(b).a == (b & 0x80 != 0) && High(b).b == (b & 0x40 != 0) && High(b).c == (b & 0x20 != 0) && High(b).d == (b & 0x10 != 0)
    ensures Low(b).a == (b & 0x08 != 0) && Low(b).b == (b & 0x04 != 0) && Low(b).c == (b & 0x02 != 0) && Low(b).d == (b & 0x01 != 0)
  {
  }

  lemma TopBit(crc: bv16)
    ensures On(crc, 0x8000) ==> ((crc & 0x8000) >> 8) as bv8 == 0x80
    ensures !On(crc, 0x8000) ==> ((crc & 0x8000) >> 8) as bv8 == 0
  {
  }

  lemma Differ(x: bv8, y: bv8)
    requires (x == 0 || x == 0x80) && (y == 0 || y == 0x80)
    ensures (x ^ y != 0) == ((x != 0) != (y != 0))
  {
  }

  // ----- what a CRC detects -----

  lemma ShiftInjective(r: Register, s: Register, bit: bool)
    requires Shift(r, bit) == Shift(s, bit)
    ensures r == s
  {
  }

  /** Registers that differ keep differing under the same input. */
  lemma {:induction false} FeedInjective(r: Register, s: Register, w: Bits)
    requires Feed(r, w) == Feed(s, w)
    ensures r == s
    decreases |w|
  {
    hide Shift;
    if w != [] {
      FeedInjective(Shift(r, w[0]), Shift(s, w[0]), w[1..]);
      ShiftInjective(r, s, w[0]);
    }
  }

  /** Up to sixteen bits as a register. */
  predicate At(w: Bits, i: nat) { i < |w| && w[i] }

  function NibbleAt(w: Bits, i: nat): Nibble { N(At(w, i), At(w, i + 1), At(w, i + 2), At(w, i + 3)) }

  function Load(w: Bits): Register {
    R(NibbleAt(w, 0), NibbleAt(w, 4), NibbleAt(w, 8), NibbleAt(w, 12))
  }

  function Zeros(n: nat): Bits { seq(n, i => false) }

  lemma LoadStep(r: Register, w: Bits)
    requires 0 < |w| <= 16
    ensures Xor(Shift(r, w[0]), Load(w[1..])) == Shift(Xor(r, Load(w)), false)
  {
    assert At(w, 0) == w[0];
    assert forall i {:trigger At(w[1..], i)} :: 0 <= i < 16 ==> At(w[1..], i) == At(w, i + 1);
    hide At;
  }

  lemma XorZero(r: Register)
    ensures Xor(r, Load([])) == r
  {
  }

  /** Up to sixteen input bits may be added to the register all at once. */
  lemma {:induction false} FeedIsLoad(r: Register, w: Bits)
    requires |w| <= 16
    ensures Feed(r, w) == Feed(Xor(r, Load(w)), Zeros(|w|))
    decreases |w|
  {
    hide Shift, Xor, Load;
    if w == [] {
      XorZero(r);
    } else {
      FeedIsLoad(Shift(r, w[0]), w[1..]);
      LoadStep(r, w);
      assert Zeros(|w|)[1..] == Zeros(|w| - 1);
    }
  }

  lemma LoadInjective(r: Register, w: Bits, w': Bits)
    requires |w| == |w'| <= 16 && Xor(r, Load(w)) == Xor(r, Load(w'))
    ensures w == w'
  {
    forall i | 0 <= i < |w| ensures w[i] == w'[i] {
      assert At(w, i) == w[i] && At(w', i) == w'[i];
    }
  }

  /** Every burst error of at most sixteen bits, anywhere in a message, is detected. */
  lemma BurstDetected(r: Register, front: Bits, w: Bits, w': Bits, back: Bits)
    requires |w| == |w'| <= 16 && w != w'
    ensures Feed(r, front + w + back) != Feed(r, front + w' + back)
  {
    hide Xor, Load, Feed;
    var s := Feed(r, front);
    FeedConcat(r, front + w, back);
    FeedConcat(r, front, w);
    FeedConcat(r, front + w', back);
    FeedConcat(r, front, w');
    if Feed(r, front + w + back) == Feed(r, front + w' + back) {
      FeedInjective(Feed(s, w), Feed(s, w'), back);
      FeedIsLoad(s, w);
      FeedIsLoad(s, w');
      FeedInjective(Xor(s, Load(w)), Xor(s, Load(w')), Zeros(|w|));
      LoadInjective(s, w, w');
    }
  }

  /** Messages of equal length that differ in exactly one byte have different CRCs. */
  lemma OneByteDetected(start: bv16, data: seq<Byte>, i: nat, b: Byte)
    requires i < |data| && data[i] != b
    ensures Crc(start, data[i := b]) != Crc(start, data)
  {
    hide Word, ByteBits, Feed;
    Around(data, i);
    Around(data[i := b], i);
    assert data[i := b][..i] == data[..i] && data[i := b][i + 1..] == data[i + 1..];
    if ByteBits(data[i]) == ByteBits(b) {
      ByteBitsInjective(data[i], b);
    }
    BurstDetected(Word(start), Message(data[..i]), ByteBits(data[i]), ByteBits(b), Message(data[i + 1..]));
  }

  lemma Around(data: seq<Byte>, i: nat)
    requires i < |data|
    ensures Message(data) == Message(data[..i]) + ByteBits(data[i]) + Message(data[i + 1..])
  {
    hide ByteBits, Message;
    var rest := data[i + 1..];
    Cut(data, i);
    MessageConcat(data[..i], [data[i]] + rest);
    MessageCons(data[i], rest);
    Regroup(Message(data[..i]), ByteBits(data[i]), Message(rest));
  }

  lemma Cut<T>(s: seq<T>, i: nat)
    requires i < |s|
    ensures s == s[..i] + ([s[i]] + s[i + 1..])
  {
  }

  lemma MessageCons(b: Byte, rest: seq<Byte>)
    ensures Message([b] + rest) == ByteBits(b) + Message(rest)
  {
    assert ([b] + rest)[1..] == rest;
  }

  lemma Regroup(a: Bits, b: Bits, c: Bits)
    ensures a + (b + c) == a + b + c
  {
  }

  lemma ByteBitsInjective(a: Byte, b: Byte)
    requires ByteBits(a) == ByteBits(b)
    ensures a == b
  {
    hide ByteBits;
    ByteBitsAt(a);
    ByteBitsAt(b);
    ByteMasks(a, b);
  }

  lemma ByteMasks(a: Byte, b: Byte)
    requires (a & 0x80 != 0) == (b & 0x80 != 0) && (a & 0x40 != 0) == (b & 0x40 != 0) && (a & 0x20 != 0) == (b & 0x20 != 0) && (a & 0x10 != 0) == (b & 0x10 != 0)
    requires (a & 0x08 != 0) == (b & 0x08 != 0) && (a & 0x04 != 0) == (b & 0x04 != 0) && (a & 0x02 != 0) == (b & 0x02 != 0) && (a & 0x01 != 0) == (b & 0x01 != 0)
    ensures a == b
  {
  }

  /** Feeding blocks one after another, each from the value the last one ended with, is feeding
      their concatenation. */
  lemma Concatenation(start: bv16, middle: bv16, a: seq<Byte>, b: seq<Byte>)
    requires Word(middle) == Crc(start, a)
    ensures Crc(start, a + b) == Crc(middle, b)
  {
    hide Word;
    MessageConcat(a, b);
    FeedConcat(Word(start), Message(a), Message(b));
  }

  /** A message followed by its CRC, high byte first, leaves the register at zero. */
  lemma Residue(start: bv16, data: seq<Byte>, crc: bv16)
    requires Word(crc) == Crc(start, data)
    ensures Crc(start, data + [(crc >> 8) as Byte, (crc & 0xFF) as Byte]) == Word(0)
  {
    hide Word, ByteBits, Feed, Crc;
    var hi, lo := (crc >> 8) as Byte, (crc & 0xFF) as Byte;
    Concatenation(start, crc, data, [hi, lo]);
    TwoBytes(crc, hi, lo);
    var w := ByteBits(hi) + ByteBits(lo);
    FeedIsLoad(Word(crc), w);
    LoadOwnBytes(crc);
    FeedZeros(16);
  }

  lemma TwoBytes(crc: bv16, hi: Byte, lo: Byte)
    ensures Crc(crc, [hi, lo]) == Feed(Word(crc), ByteBits(hi) + ByteBits(lo))
  {
    hide Word, ByteBits, Feed;
    assert [hi, lo][1..] == [lo] && [lo][1..] == [];
    assert Message([lo]) == ByteBits(lo);
    assert Message([hi, lo]) == ByteBits(hi) + ByteBits(lo);
  }

  lemma LoadOwnBytes(crc: bv16)
    ensures Xor(Word(crc), Load(ByteBits((crc >> 8) as Byte) + ByteBits((crc & 0xFF) as Byte))) == Word(0)
  {
    hide Word, High, Low, Sum, Load;
    LoadBytes((crc >> 8) as Byte, (crc & 0xFF) as Byte);
    OwnBytes(crc);
    var r := Word(crc);
    SumZero(r.n0);
    SumZero(r.n1);
    SumZero(r.n2);
    SumZero(r.n3);
    ZeroWord();
  }

  lemma LoadBytes(hi: Byte, lo: Byte)
    ensures Load(ByteBits(hi) + ByteBits(lo)) == R(High(hi), Low(hi), High(lo), Low(lo))
  {
    hide High, Low, NibbleBits, NibbleAt;
    var h, l, h', l' := NibbleBits(High(hi)), NibbleBits(Low(hi)), NibbleBits(High(lo)), NibbleBits(Low(lo));
    var w := ByteBits(hi) + ByteBits(lo);
    assert w == [] + h + (l + h' + l') == h + l + (h' + l') == (h + l) + h' + l' == (h + l + h') + l' + [];
    NibbleIn([], High(hi), l + h' + l');
    NibbleIn(h, Low(hi), h' + l');
    NibbleIn(h + l, High(lo), l');
    NibbleIn(h + l + h', Low(lo), []);
  }

  lemma NibbleIn(front: Bits, n: Nibble, back: Bits)
    ensures NibbleAt(front + NibbleBits(n) + back, |front|) == n
  {
  }

  lemma OwnBytes(crc: bv16)
    ensures Word(crc) == R(High((crc >> 8) as Byte), Low((crc >> 8) as Byte), High((crc & 0xFF) as Byte), Low((crc & 0xFF) as Byte))
  {
  }

  lemma ZeroWord()
    ensures Word(0) == R(ZERO, ZERO, ZERO, ZERO)
  {
  }

  lemma {:induction false} FeedZeros(n: nat)
    ensures Feed(Word(0), Zeros(n)) == Word(0)
  {
    ZeroWord();
    if n > 0 {
      FeedZeros(n - 1);
      assert Zeros(n)[1..] == Zeros(n - 1);
      assert Shift(Word(0), false) == Word(0);
    }
  }
}
