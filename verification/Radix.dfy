/** Positional numerals, most significant digit first, and how many digits a change of base needs. */
module Radix {
  import opened Bits
  import opened Bytes

  ghost predicate AllBelow(base: nat, s: seq<nat>) {
    forall i | 0 <= i < |s| :: s[i] < base
  }

  function Value(base: nat, s: seq<nat>): nat {
    if s == [] then 0 else Times(Value(base, s[..|s| - 1]), base) + s[|s| - 1]
  }

  function Times(a: nat, b: nat): (p: nat)
    ensures p == a * b
  {
    MulNat(a, b);
    a * b
  }

  lemma MulNat(a: nat, b: nat)
    ensures a * b >= 0
  {
  }

  function Pow(base: nat, k: nat): nat {
    if k == 0 then 1 else Times(base, Pow(base, k - 1))
  }

  /** The numeral without leading zeros. */
  function Digits(base: nat, v: nat): seq<nat>
    requires base >= 2
  {
    if v == 0 then [] else
    Quotient(base, v);
    Digits(base, v / base) + [v % base]
  }

  lemma Quotient(base: nat, v: nat)
    requires base >= 2 && v > 0
    ensures 0 <= v / base < v && 0 <= v % base < base && v == base * (v / base) + v % base
  {
    DivMod(v, base);
    Twice(base, v / base);
    assert v / base >= 0;
  }

  lemma Twice(base: int, q: int)
    requires base >= 2
    ensures q >= 0 ==> base * q >= 2 * q
    ensures q < 0 ==> base * q <= -base
  {
  }

  lemma {:induction false} DigitsValue(base: nat, v: nat)
    requires base >= 2
    ensures Value(base, Digits(base, v)) == v && AllBelow(base, Digits(base, v))
    ensures Digits(base, v) != [] ==> Digits(base, v)[0] != 0
  {
    if v > 0 {
      Quotient(base, v);
      DigitsValue(base, v / base);
      SnocDigit(base, Digits(base, v / base), v / base, v % base, v);
    }
  }

  lemma SnocDigit(base: nat, d: seq<nat>, q: nat, r: nat, v: nat)
    requires Value(base, d) == q && AllBelow(base, d) && (d != [] ==> d[0] != 0) && r < base
    requires v == base * q + r && v > 0
    ensures Value(base, d + [r]) == v && AllBelow(base, d + [r]) && (d + [r])[0] != 0
  {
    assert (d + [r])[..|d|] == d;
    if d == [] {
      assert q == 0 && base * q == 0;
    }
  }

  lemma {:induction false} ValueZeroOnly(base: nat, s: seq<nat>)
    requires base >= 2 && AllBelow(base, s) && (s != [] ==> s[0] != 0)
    ensures Value(base, s) == 0 <==> s == []
  {
    if |s| > 1 {
      var t := s[..|s| - 1];
      ValueZeroOnly(base, t);
      AtLeastFactor(Value(base, t), base);
    }
  }

  lemma AtLeastFactor(a: nat, b: nat)
    requires a > 0
    ensures a * b >= b
  {
  }

  /** A numeral without a leading zero is determined by its value. */
  lemma {:induction false} ValueDigits(base: nat, s: seq<nat>)
    requires base >= 2 && AllBelow(base, s) && (s != [] ==> s[0] != 0)
    ensures Digits(base, Value(base, s)) == s
  {
    if s != [] {
      var t, d := s[..|s| - 1], s[|s| - 1];
      ValueDigits(base, t);
      ValueZeroOnly(base, s);
      ValueZeroOnly(base, t);
      var v := Value(base, t);
      DivModUnique(v * base + d, base, v, d);
      assert s == t + [d];
    }
  }

  lemma ValueSnoc(base: nat, s: seq<nat>, d: nat)
    ensures Value(base, s + [d]) == Times(Value(base, s), base) + d
  {
    assert (s + [d])[..|s|] == s;
  }

  lemma {:induction false} LeadingZero(base: nat, s: seq<nat>)
    requires s != [] && s[0] == 0
    ensures Value(base, s) == Value(base, s[1..])
  {
    if |s| > 1 {
      LeadingZero(base, s[..|s| - 1]);
      assert s[..|s| - 1][1..] == s[1..][..|s| - 2];
    } else {
      assert s[..0] == [] && Times(0, base) == 0;
    }
  }

  lemma {:induction false} ValueBound(base: nat, s: seq<nat>)
    requires AllBelow(base, s)
    ensures Value(base, s) < Pow(base, |s|)
  {
    if s != [] {
      var t := s[..|s| - 1];
      ValueBound(base, t);
      BoundStep(Value(base, t), Pow(base, |t|), base, s[|s| - 1]);
    }
  }

  lemma BoundStep(v: nat, p: nat, base: nat, d: nat)
    requires v < p && d < base
    ensures v * base + d < base * p
  {
    assert (v + 1) * base <= p * base;
  }

  // ---- powers ----

  lemma {:induction false} PowAdd(b: nat, m: nat, n: nat)
    ensures Pow(b, m + n) == Pow(b, m) * Pow(b, n)
  {
    if m > 0 {
      PowAdd(b, m - 1, n);
      Assoc(b, Pow(b, m - 1), Pow(b, n));
    }
  }

  lemma Assoc(a: int, b: int, c: int)
    ensures a * b * c == a * (b * c)
  {
  }

  lemma {:induction false} PowPow(b: nat, m: nat, n: nat)
    ensures Pow(Pow(b, m), n) == Pow(b, Times(m, n))
  {
    if n > 0 {
      PowPow(b, m, n - 1);
      PowAdd(b, m, Times(m, n - 1));
      assert Times(m, n) == m + Times(m, n - 1);
    }
  }

  lemma {:induction false} PowPositive(b: nat, k: nat)
    requires b > 0
    ensures Pow(b, k) > 0
  {
    if k > 0 {
      PowPositive(b, k - 1);
    }
  }

  lemma {:induction false} PowExponentMonotone(b: nat, m: nat, n: nat)
    requires b > 0 && m <= n
    ensures Pow(b, m) <= Pow(b, n)
    decreases n
  {
    if m < n {
      PowExponentMonotone(b, m, n - 1);
      PowPositive(b, n - 1);
      AtLeastFactor(b, Pow(b, n - 1));
    }
  }

  lemma {:induction false} PowBaseMonotone(a: nat, b: nat, k: nat)
    requires a <= b
    ensures Pow(a, k) <= Pow(b, k)
  {
    if k > 0 {
      PowBaseMonotone(a, b, k - 1);
      ProductMonotone(a, b, Pow(a, k - 1), Pow(b, k - 1));
    }
  }

  lemma ProductMonotone(a: nat, b: nat, c: nat, d: nat)
    requires a <= b && c <= d
    ensures a * c <= b * d
  {
    assert a * c <= b * c;
    assert b * c <= b * d;
  }

  lemma {:induction false} PowBaseStrict(a: nat, b: nat, k: nat)
    requires a < b && k > 0
    ensures Pow(a, k) < Pow(b, k)
  {
    if k == 1 {
      assert Pow(a, 0) == Pow(b, 0) == 1;
    } else {
      PowBaseStrict(a, b, k - 1);
      ProductStrict(a, b, Pow(a, k - 1), Pow(b, k - 1));
    }
  }

  lemma ProductStrict(a: nat, b: nat, c: nat, d: nat)
    requires a < b && c < d
    ensures a * c < b * d
  {
    assert a * c <= a * d;
    assert a * d < b * d;
  }

  /** A logarithm bound from one certificate: if a^m <= b^k, then n digits in base a fit e digits in base b as soon
      as e is at least n * k / m. */
  lemma DigitsFit(a: nat, b: nat, m: nat, k: nat, n: nat, e: nat)
    requires b > 0 && m > 0 && Pow(a, m) <= Pow(b, k) && Times(k, n) <= Times(e, m)
    ensures Pow(a, n) <= Pow(b, e)
  {
    assert Times(n, m) == Times(m, n);
    if Pow(a, n) > Pow(b, e) {
      PowBaseStrict(Pow(b, e), Pow(a, n), m);
      PowPow(b, e, m);
      PowPow(a, n, m);
      PowPow(a, m, n);
      PowPow(b, k, n);
      PowBaseMonotone(Pow(a, m), Pow(b, k), n);
      PowExponentMonotone(b, Times(k, n), Times(e, m));
    }
  }

  function Pow58(k: nat): nat {
    if k == 0 then 1 else 58 * Pow58(k - 1)
  }

  lemma {:induction false} PowersAgree(k: nat)
    ensures Pow(58, k) == Pow58(k) && Pow(256, k) == Pow256(k)
  {
    if k > 0 {
      PowersAgree(k - 1);
    }
  }

  lemma Certificate58()
    ensures Pow256(8) <= Pow58(11)
  {
    assert Pow58(7) == 0x202_161caa80;
  }

  lemma Certificate256()
    ensures Pow58(71) <= Pow256(52)
  {
    assert Pow58(8) == 0x7479_027ea100;
    assert Pow58(16) == 0x34fde376_1da26b26_e1410000;
    assert Pow58(24) == 0x181c_17963a52_26bd66dc_1c01d3a7_e1000000;
    assert Pow58(32) == 0xaf82033_5d9b3d9c_f58b911d_87035677_fb7f5281_00000000;
    assert Pow58(40) == 0x4fd_9df9dbf7_e28ed535_7ba4a062_c19c48e6_28f6af73_b0612100_00000000;
    assert Pow58(48) == 0x2454781_55f87fdf_253c87c1_38dd5572_92e35e9a_1b8c3026_c785ecfd_53c10000_00000000;
    assert Pow58(56) == 0x108_772b112c_02b225b7_fda9db5d_90418a14_9a9cac59_4da3e770_289d70ef_e39b0caa_61000000_00000000;
    assert Pow58(64) == 0x785302_6ae25f4c_e0c69893_e6f1f86f_67aef4db_69563516_064adeb9_67a9d66f_4fe64b09_ec94e501_00000000_00000000;
    assert Pow256(8) == 0x1_00000000_00000000;
    assert Pow256(16) == 0x1_00000000_00000000_00000000_00000000;
    assert Pow256(24) == 0x1_00000000_00000000_00000000_00000000_00000000_00000000;
    assert Pow256(32) == 0x1_00000000_00000000_00000000_00000000_00000000_00000000_00000000_00000000;
    assert Pow256(40) == 0x1_00000000_00000000_00000000_00000000_00000000_00000000_00000000_00000000_00000000_00000000;
    assert Pow256(48) == 0x1_00000000_00000000_00000000_00000000_00000000_00000000_00000000_00000000_00000000_00000000_00000000_00000000;
  }

  /** Base 256 to base 58: 138 / 100 is a large enough ratio for every length. */
  lemma Fits58(n: nat)
    ensures Pow(256, n) <= Pow(58, n * 138 / 100 + 1)
  {
    Certificate58();
    PowersAgree(8);
    PowersAgree(11);
    DigitsFit(256, 58, 8, 11, n, n * 138 / 100 + 1);
  }

  /** Base 58 to base 256: so is 733 / 1000. */
  lemma Fits256(n: nat)
    ensures Pow(58, n) <= Pow(256, n * 733 / 1000 + 1)
  {
    Certificate256();
    PowersAgree(71);
    PowersAgree(52);
    DigitsFit(58, 256, 71, 52, n, n * 733 / 1000 + 1);
  }
}
