/** Arithmetic of machine words. */
module Bits {
  const WORD: nat := 0x1_0000_0000

  // ----- the bit tricks -----

  function Pow2(k: nat): (r: nat) ensures r > 0 { if k == 0 then 1 else 2 * Pow2(k - 1) }

  /** Bitwise and. */
  function And(a: nat, b: nat): nat {
    if a == 0 || b == 0 then 0 else (a % 2) * (b % 2) + 2 * And(a / 2, b / 2)
  }

  lemma {:induction false} AndSelf(a: nat)
    ensures And(a, a) == a
  {
    if a != 0 {
      AndSelf(a / 2);
      assert (a % 2) * (a % 2) == a % 2;
    }
  }

  /** `is_power_of_2` */
  predicate IsPowerOf2(n: nat) { n != 0 && And(n, n - 1) == 0 }

  lemma {:induction false} PowerTest(n: nat)
    ensures IsPowerOf2(n) <==> exists k: nat :: n == Pow2(k)
  {
    if n == 0 {
    } else if n == 1 {
      assert n == Pow2(0);
    } else if n % 2 == 1 {
      AndSelf(n / 2);
      assert (n - 1) / 2 == n / 2;
      assert And(n, n - 1) == 2 * (n / 2);
      forall k: nat ensures n != Pow2(k) { OddPower(k); }
    } else {
      PowerTest(n / 2);
      assert (n - 1) / 2 == n / 2 - 1;
      assert And(n, n - 1) == 2 * And(n / 2, n / 2 - 1);
      if IsPowerOf2(n / 2) {
        var k: nat :| n / 2 == Pow2(k);
        assert n == Pow2(k + 1);
      }
      if k: nat :| n == Pow2(k) {
        OddPower(k);
        assert n / 2 == Pow2(k - 1);
      }
      assert IsPowerOf2(n) <==> IsPowerOf2(n / 2);
    }
  }

  lemma OddPower(k: nat)
    ensures Pow2(k) == 1 <==> k == 0
    ensures k > 0 ==> Pow2(k) % 2 == 0
  {
  }

  /** Masking with a power of two less one is the remainder. */
  lemma {:induction false} AndMask(a: nat, k: nat)
    ensures And(a, Pow2(k) - 1) == a % Pow2(k)
  {
    if a != 0 && k != 0 {
      var m := Pow2(k - 1);
      AndMask(a / 2, k - 1);
      assert (2 * m - 1) / 2 == m - 1 && (2 * m - 1) % 2 == 1;
      HalfMod(a, m);
    }
  }

  lemma HalfMod(a: nat, m: nat)
    requires m > 0
    ensures a % (2 * m) == 2 * ((a / 2) % m) + a % 2
  {
    var q, r := (a / 2) / m, (a / 2) % m;
    assert a / 2 == q * m + r;
    assert a == q * (2 * m) + (2 * r + a % 2);
    Remainder(q, 2 * m, 2 * r + a % 2);
  }

  lemma Remainder(q: int, m: nat, r: nat)
    requires r < m
    ensures (q * m + r) % m == r
  {
    var x := q * m + r;
    assert x == (x / m) * m + x % m;
    var d := q - x / m;
    assert d * m == x % m - r;
    assert d == 0 by {
      if d >= 1 { Mul(1, d, m); }
      if d <= -1 { NegMul(d, m); Mul(1, -d, m); }
    }
  }

  lemma NegMul(d: int, m: int)
    ensures (-d) * m == -(d * m)
  {
  }

  lemma {:induction false} PowDivides(k: nat, n: nat)
    requires k <= n
    ensures Pow2(n) % Pow2(k) == 0
  {
    var m := Pow2(k);
    if k == n {
      Remainder(1, m, 0);
    } else {
      PowDivides(k, n - 1);
      var q := Pow2(n - 1) / m;
      assert Pow2(n - 1) == q * m;
      assert Pow2(n) == (2 * q) * m + 0;
      Remainder(2 * q, m, 0);
    }
  }

  lemma Word()
    ensures Pow2(32) == WORD
  {
    assert Pow2(8) == 256;
    assert Pow2(16) == 65536;
    assert Pow2(24) == 0x100_0000;
  }

  lemma Mul(a: nat, b: nat, c: nat)
    requires a <= b
    ensures a * c <= b * c
  {
  }

  lemma DivMod(x: nat, c: nat)
    requires c > 0
    ensures x == (x / c) * c + x % c && x % c < c
  {
  }

  lemma ExponentBound(k: nat)
    requires 2 <= Pow2(k) < WORD
    ensures 0 < k < 32
  {
    Word();
    if k >= 32 { PowGrows(32, k); }
  }

  lemma ExponentWord(k: nat)
    requires k < 32
    ensures 2 * Pow2(k) <= WORD
  {
    Word();
    PowGrows(k + 1, 32);
  }

  lemma {:induction false} PowGrows(j: nat, k: nat)
    requires j <= k
    ensures Pow2(j) <= Pow2(k)
  {
    if j < k { PowGrows(j, k - 1); }
  }

  // ----- bit by bit -----

  predicate BitAt(x: nat, k: nat) { if k == 0 then x % 2 == 1 else BitAt(x / 2, k - 1) }

  function Or(a: nat, b: nat): nat {
    if a == 0 then b else if b == 0 then a
    else (if a % 2 == 1 || b % 2 == 1 then 1 else 0) + 2 * Or(a / 2, b / 2)
  }

  function ShiftLeft(x: nat, n: nat): nat { if n == 0 then x else 2 * ShiftLeft(x, n - 1) }

  function ShiftRight(x: nat, n: nat): nat { if n == 0 then x else ShiftRight(x / 2, n - 1) }

  lemma {:induction false} ZeroBit(k: nat)
    ensures !BitAt(0, k)
  {
    if k > 0 { ZeroBit(k - 1); }
  }

  lemma {:induction false} AndBit(a: nat, b: nat, k: nat)
    ensures BitAt(And(a, b), k) <==> BitAt(a, k) && BitAt(b, k)
  {
    if a == 0 || b == 0 {
      ZeroBit(k);
    } else if k > 0 {
      AndBit(a / 2, b / 2, k - 1);
      assert (a % 2) * (b % 2) <= 1;
      assert And(a, b) / 2 == And(a / 2, b / 2);
    }
  }

  lemma {:induction false} OrBit(a: nat, b: nat, k: nat)
    ensures BitAt(Or(a, b), k) <==> BitAt(a, k) || BitAt(b, k)
  {
    if a == 0 || b == 0 {
      ZeroBit(k);
    } else if k > 0 {
      OrBit(a / 2, b / 2, k - 1);
    }
  }

  lemma {:induction false} ShiftLeftBit(x: nat, n: nat, k: nat)
    ensures BitAt(ShiftLeft(x, n), k) <==> k >= n && BitAt(x, k - n)
  {
    if n > 0 && k > 0 {
      ShiftLeftBit(x, n - 1, k - 1);
    }
  }

  lemma {:induction false} ShiftRightBit(x: nat, n: nat, k: nat)
    ensures BitAt(ShiftRight(x, n), k) <==> BitAt(x, n + k)
    decreases n
  {
    if n > 0 {
      ShiftRightBit(x / 2, n - 1, k);
    }
  }

  /** Small numbers have no high bits. */
  lemma {:induction false} HighBit(x: nat, k: nat)
    requires x < Pow2(k)
    ensures !BitAt(x, k)
  {
    if k > 0 { HighBit(x / 2, k - 1); }
  }
}
