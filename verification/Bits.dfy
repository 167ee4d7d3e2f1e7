/** Bitwise operators on natural numbers, defined bit by bit, and the arithmetic they amount to
    for masks and for operands that share no bits. */
module Bits {

  function Pow2(k: nat): (p: nat)
    ensures p > 0
  {
    if k == 0 then 1 else 2 * Pow2(k - 1)
  }

  function And(a: nat, b: nat): nat {
    if a == 0 || b == 0 then 0 else (if a % 2 == 1 && b % 2 == 1 then 1 else 0) + 2 * And(a / 2, b / 2)
  }

  function Or(a: nat, b: nat): nat
    decreases a + b
  {
    if a == 0 then b else if b == 0 then a else
    (if a % 2 == 1 || b % 2 == 1 then 1 else 0) + 2 * Or(a / 2, b / 2)
  }

  function Xor(a: nat, b: nat): nat
    decreases a + b
  {
    if a == 0 then b else if b == 0 then a else
    (if a % 2 != b % 2 then 1 else 0) + 2 * Xor(a / 2, b / 2)
  }

  lemma Powers()
    ensures Pow2(2) == 4 && Pow2(4) == 16 && Pow2(6) == 0x40 && Pow2(8) == 0x100 && Pow2(12) == 0x1000 &&
        Pow2(14) == 0x4000
    ensures Pow2(18) == 0x40000 && Pow2(20) == 0x100000 && Pow2(24) == 0x1000000 && Pow2(26) == 0x4000000 &&
        Pow2(28) == 0x10000000
    ensures Pow2(32) == 0x1_00000000
  {
  }

  /** Reduction to an unsigned machine word. */
  function U32(x: int): (r: nat)
    ensures r < 0x1_0000_0000
  {
    if 0 <= x < 0x1_0000_0000 then x else x % 0x1_0000_0000
  }

  function U64(x: int): (r: nat)
    ensures r < 0x1_0000_0000_0000_0000
  {
    if 0 <= x < 0x1_0000_0000_0000_0000 then x else x % 0x1_0000_0000_0000_0000
  }

  /** A mask of k ones keeps the remainder modulo m = 2^k. */
  lemma {:induction false} AndMask(x: nat, k: nat, m: nat)
    requires m == Pow2(k)
    ensures And(x, m - 1) == x % m
  {
    if k > 0 && x > 0 {
      AndMask(x / 2, k - 1, Pow2(k - 1));
      HalfMod(x, Pow2(k - 1));
      assert (m - 1) / 2 == Pow2(k - 1) - 1;
    } else if x == 0 {
      assert 0 % m == 0;
    }
  }

  lemma HalfMod(x: nat, m: nat)
    requires m > 0
    ensures x % (2 * m) == x % 2 + 2 * (x / 2 % m)
  {
    var q, r := x / 2 / m, x / 2 % m;
    assert x / 2 == m * q + r;
    assert x == 2 * m * q + (x % 2 + 2 * r);
    DivModUnique(x, 2 * m, q, x % 2 + 2 * r);
  }

  lemma DivModUnique(x: int, m: int, q: int, r: int)
    requires 0 <= r < m && x == m * q + r
    ensures x / m == q && x % m == r
  {
    DivMod(x, m);
    MulDiff(m, q, x / m);
    MulAtLeast(m, q - x / m);
  }

  lemma DivMod(x: int, m: int)
    requires m > 0
    ensures x == m * (x / m) + x % m && 0 <= x % m < m
  {
  }

  lemma MulDiff(m: int, a: int, b: int)
    ensures m * a - m * b == m * (a - b)
  {
  }

  lemma MulAtLeast(m: int, d: int)
    requires m > 0
    ensures d >= 1 ==> m * d >= m
    ensures d <= -1 ==> m * d <= -m
    ensures d == 0 ==> m * d == 0
  {
  }

  function Shl(x: nat, k: nat): nat {
    if k == 0 then x else 2 * Shl(x, k - 1)
  }

  lemma {:induction false} ShlIsMultiply(x: nat, k: nat)
    ensures Shl(x, k) == x * Pow2(k)
  {
    if k > 0 {
      ShlIsMultiply(x, k - 1);
      Double(x, Pow2(k - 1));
    }
  }

  /** A mask made of a high and a low part selects the two parts of the number separately. */
  lemma {:induction false} AndSplit(xh: nat, xl: nat, hi: nat, lo: nat, k: nat)
    requires xl < Pow2(k) && lo < Pow2(k)
    ensures And(Shl(xh, k) + xl, Shl(hi, k) + lo) == Shl(And(xh, hi), k) + And(xl, lo)
  {
    if k == 0 {
      AndZero(0);
    } else {
      AndSplit(xh, xl / 2, hi, lo / 2, k - 1);
      AndStep(Shl(xh, k) + xl, Shl(hi, k) + lo);
      AndStep(xl, lo);
      assert (Shl(xh, k) + xl) / 2 == Shl(xh, k - 1) + xl / 2;
      assert (Shl(hi, k) + lo) / 2 == Shl(hi, k - 1) + lo / 2;
    }
  }

  lemma Double(a: int, p: int)
    ensures a * (2 * p) == 2 * (a * p)
  {
  }

  lemma {:induction false} AndAtMost(a: nat, b: nat)
    ensures And(a, b) <= a
  {
    if a != 0 && b != 0 {
      AndAtMost(a / 2, b / 2);
    }
  }

  lemma AndZero(x: nat)
    ensures And(x, 0) == 0 && And(0, x) == 0
  {
  }

  lemma AndStep(a: nat, b: nat)
    ensures And(a, b) == (if a % 2 == 1 && b % 2 == 1 then 1 else 0) + 2 * And(a / 2, b / 2)
  {
    if a == 0 || b == 0 {
      AndZero(a / 2);
      AndZero(b / 2);
    }
  }

  /** Disjoint bit ranges: or is addition. */
  lemma {:induction false} OrDisjoint(a: nat, b: nat, k: nat, m: nat)
    requires m == Pow2(k) && a < m
    ensures Or(a, b * m) == a + b * m
  {
    if a != 0 && b != 0 {
      var p := Pow2(k - 1);
      assert b * m == 2 * (b * p) && b * p > 0;
      OrDisjoint(a / 2, b, k - 1, p);
    }
  }

  lemma {:induction false} XorCancels(a: nat, b: nat)
    ensures Xor(Xor(a, b), b) == a
    decreases a + b
  {
    if a != 0 && b != 0 {
      XorCancels(a / 2, b / 2);
      var x := Xor(a, b);
      assert x % 2 == (if a % 2 != b % 2 then 1 else 0) && x / 2 == Xor(a / 2, b / 2);
      if x != 0 {
        assert Xor(x, b) == (if x % 2 != b % 2 then 1 else 0) + 2 * Xor(x / 2, b / 2);
      } else {
        XorZero(b / 2);
        assert Xor(a / 2, b / 2) == 0;
      }
    } else if a == 0 {
      XorSelf(b);
    }
  }

  lemma XorZero(a: nat)
    ensures Xor(a, 0) == a && Xor(0, a) == a
  {
  }

  lemma {:induction false} XorSelf(a: nat)
    ensures Xor(a, a) == 0
  {
    if a > 0 {
      XorSelf(a / 2);
    }
  }

  lemma {:induction false} XorBound(a: nat, b: nat, k: nat)
    requires a < Pow2(k) && b < Pow2(k)
    ensures Xor(a, b) < Pow2(k)
  {
    if a != 0 && b != 0 {
      XorBound(a / 2, b / 2, k - 1);
    }
  }

  lemma {:induction false} XorIsZero(a: nat, b: nat)
    ensures Xor(a, b) == 0 <==> a == b
    decreases a + b
  {
    if a != 0 && b != 0 {
      XorIsZero(a / 2, b / 2);
    }
  }

  lemma OrIsZero(a: nat, b: nat)
    ensures Or(a, b) == 0 <==> a == 0 && b == 0
    decreases a + b
  {
    if a != 0 && b != 0 {
      OrIsZero(a / 2, b / 2);
    }
  }
}
