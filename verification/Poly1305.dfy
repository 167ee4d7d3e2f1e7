/** The Poly1305 authenticator (BRCrypto.c) in five 26-bit limbs, proved against RFC 7539 section 2.5.
    Every unsigned C expression is reduced to its machine width; the proofs show that the reductions
    never change a value, except where the code relies on wrap-around. */
module Poly1305 {
  import opened Bits
  import opened Bytes

  /** 2^130 - 5 */
  const P: nat := 0x3_ffffffff_ffffffff_ffffffff_fffffffb
  const TWO_128: nat := 0x1_00000000_00000000_00000000_00000000

  // ---- specification ----

  /** A block as a number: little endian, with one more byte of value one appended. */
  function BlockNumber(b: seq<Byte>): nat {
    LE(b) + Pow256(|b|)
  }

  function BlockLen(msg: seq<Byte>): (n: nat)
    ensures n <= |msg|
  {
    if |msg| < 16 then |msg| else 16
  }

  function Accumulate(r: nat, msg: seq<Byte>, a: nat): nat
    decreases |msg|
  {
    if msg == [] then a else
    var n := BlockLen(msg);
    Accumulate(r, msg[n..], (a + BlockNumber(msg[..n])) * r % P)
  }

  /** Section 2.5.1: the top four bits of bytes 3, 7, 11, 15 and the bottom two bits of bytes 4, 8, 12 are cleared. */
  function ClampByte(i: nat, b: Byte): (c: Byte)
    requires i < 16
  {
    AndAtMost(b, 15);
    AndAtMost(b, 252);
    if i % 4 == 3 then And(b, 15) else if i % 4 == 0 && i > 0 then And(b, 252) else b
  }

  function Clamped(k: seq<Byte>): (c: seq<Byte>)
    requires |k| == 16
    ensures |c| == 16
  {
    seq(16, i requires 0 <= i < 16 => ClampByte(i, k[i]))
  }

  function R(key: seq<Byte>): nat
    requires |key| == 32
  {
    LE(Clamped(key[..16]))
  }

  function Mac(key: seq<Byte>, msg: seq<Byte>): nat
    requires |key| == 32
  {
    (Accumulate(R(key), msg, 0) + LE(key[16..])) % TWO_128
  }

  // ---- limbs ----

  function Value(h0: int, h1: int, h2: int, h3: int, h4: int): int {
    h0 + 0x4000000 * h1 + 0x10_0000_0000_0000 * h2 + 0x4000_0000_0000_0000_0000 * h3
    + 0x1_00000000_00000000_00000000_00 * h4
  }

  function Words(w0: nat, w1: nat, w2: nat, w3: nat): nat {
    w0 + 0x1_00000000 * w1 + 0x1_00000000_00000000 * w2 + 0x1_00000000_00000000_00000000 * w3
  }

  /** The shift-and-or that takes limb bits from two neighbouring words. */
  function Splice(lo: nat, hi: nat, right: nat, left: nat): nat
    requires right > 0
  {
    Or(lo / right, U32(hi * left))
  }

  lemma MaskLimb(x: nat)
    ensures And(x, 0x3ffffff) == x % 0x4000000
  {
    Powers();
    AndMask(x, 26, 0x4000000);
  }

  lemma Splice26(lo: nat, hi: nat)
    requires lo < 0x1_00000000
    ensures Splice(lo, hi, 0x4000000, 0x40) == lo / 0x4000000 + hi % 0x4000000 * 0x40
  {
    Powers();
    ShiftOut26(hi);
    OrDisjoint(lo / 0x4000000, hi % 0x4000000, 6, 0x40);
  }

  lemma MaskedSplice26(lo: nat, hi: nat)
    requires lo < 0x1_00000000
    ensures And(Splice(lo, hi, 0x4000000, 0x40), 0x3ffffff) == lo / 0x4000000 + hi % 0x100000 * 0x40
  {
    var a, b := lo / 0x4000000, hi % 0x4000000;
    assert Splice(lo, hi, 0x4000000, 0x40) == a + b * 0x40 by { Splice26(lo, hi); }
    assert (a + b * 0x40) % 0x4000000 == a + hi % 0x100000 * 0x40 by { CutLimb26(a, b, hi); }
    MaskLimb(a + b * 0x40);
  }

  lemma ShiftOut26(hi: nat)
    ensures U32(hi * 0x40) == hi % 0x4000000 * 0x40
  {
  }

  lemma CutLimb26(a: nat, b: nat, hi: nat)
    requires a < 0x40 && b == hi % 0x4000000
    ensures (a + b * 0x40) % 0x4000000 == a + hi % 0x100000 * 0x40
  {
    DivModUnique(hi, 0x100000, hi / 0x4000000 * 0x40 + b / 0x100000, b % 0x100000);
    DivModUnique(a + b * 0x40, 0x4000000, b / 0x100000, a + b % 0x100000 * 0x40);
  }

  lemma Splice20(lo: nat, hi: nat)
    requires lo < 0x1_00000000
    ensures Splice(lo, hi, 0x100000, 0x1000) == lo / 0x100000 + hi % 0x100000 * 0x1000
  {
    Powers();
    ShiftOut20(hi);
    OrDisjoint(lo / 0x100000, hi % 0x100000, 12, 0x1000);
  }

  lemma MaskedSplice20(lo: nat, hi: nat)
    requires lo < 0x1_00000000
    ensures And(Splice(lo, hi, 0x100000, 0x1000), 0x3ffffff) == lo / 0x100000 + hi % 0x4000 * 0x1000
  {
    var a, b := lo / 0x100000, hi % 0x100000;
    assert Splice(lo, hi, 0x100000, 0x1000) == a + b * 0x1000 by { Splice20(lo, hi); }
    assert (a + b * 0x1000) % 0x4000000 == a + hi % 0x4000 * 0x1000 by { CutLimb20(a, b, hi); }
    MaskLimb(a + b * 0x1000);
  }

  lemma ShiftOut20(hi: nat)
    ensures U32(hi * 0x1000) == hi % 0x100000 * 0x1000
  {
  }

  lemma CutLimb20(a: nat, b: nat, hi: nat)
    requires a < 0x1000 && b == hi % 0x100000
    ensures (a + b * 0x1000) % 0x4000000 == a + hi % 0x4000 * 0x1000
  {
    DivModUnique(hi, 0x4000, hi / 0x100000 * 0x40 + b / 0x4000, b % 0x4000);
    DivModUnique(a + b * 0x1000, 0x4000000, b / 0x4000, a + b % 0x4000 * 0x1000);
  }

  lemma Splice14(lo: nat, hi: nat)
    requires lo < 0x1_00000000
    ensures Splice(lo, hi, 0x4000, 0x40000) == lo / 0x4000 + hi % 0x4000 * 0x40000
  {
    Powers();
    ShiftOut14(hi);
    OrDisjoint(lo / 0x4000, hi % 0x4000, 18, 0x40000);
  }

  lemma MaskedSplice14(lo: nat, hi: nat)
    requires lo < 0x1_00000000
    ensures And(Splice(lo, hi, 0x4000, 0x40000), 0x3ffffff) == lo / 0x4000 + hi % 0x100 * 0x40000
  {
    var a, b := lo / 0x4000, hi % 0x4000;
    assert Splice(lo, hi, 0x4000, 0x40000) == a + b * 0x40000 by { Splice14(lo, hi); }
    assert (a + b * 0x40000) % 0x4000000 == a + hi % 0x100 * 0x40000 by { CutLimb14(a, b, hi); }
    MaskLimb(a + b * 0x40000);
  }

  lemma ShiftOut14(hi: nat)
    ensures U32(hi * 0x40000) == hi % 0x4000 * 0x40000
  {
  }

  lemma CutLimb14(a: nat, b: nat, hi: nat)
    requires a < 0x40000 && b == hi % 0x4000
    ensures (a + b * 0x40000) % 0x4000000 == a + hi % 0x100 * 0x40000
  {
    DivModUnique(hi, 0x100, hi / 0x4000 * 0x40 + b / 0x100, b % 0x100);
    DivModUnique(a + b * 0x40000, 0x4000000, b / 0x100, a + b % 0x100 * 0x40000);
  }

  lemma LimbsOfWords(t0: nat, t1: nat, t2: nat, t3: nat)
    ensures Value(t0 % 0x4000000, t0 / 0x4000000 + t1 % 0x100000 * 0x40, t1 / 0x100000 + t2 % 0x4000 * 0x1000,
                  t2 / 0x4000 + t3 % 0x100 * 0x40000, t3 / 0x100) == Words(t0, t1, t2, t3)
  {
    assert t0 == t0 / 0x4000000 * 0x4000000 + t0 % 0x4000000;
    assert t1 == t1 / 0x100000 * 0x100000 + t1 % 0x100000;
    assert t2 == t2 / 0x4000 * 0x4000 + t2 % 0x4000;
    assert t3 == t3 / 0x100 * 0x100 + t3 % 0x100;
  }

  /** Clamping: the low 28 bits of the first word, bits 2 to 27 of the other three. */
  function ClampWord(t: nat): nat { t / 4 % 0x4000000 * 4 }

  lemma MaskSplit(xh: nat, xl: nat, hi: nat, lo: nat, k: nat, m: nat)
    requires m == Pow2(k) && xl < m && lo < m
    ensures And(xh * m + xl, hi * m + lo) == And(xh, hi) * m + And(xl, lo)
  {
    AndSplit(xh, xl, hi, lo, k);
    ShlIsMultiply(xh, k);
    ShlIsMultiply(hi, k);
    ShlIsMultiply(And(xh, hi), k);
  }

  lemma MaskR1(x: nat)
    ensures And(x, 0x03ffff03) == x / 0x100 % 0x40000 * 0x100 + x % 0x100 % 4
  {
    Powers();
    MaskSplit(x / 0x100, x % 0x100, 0x3ffff, 0x03, 8, 0x100);
    AndMask(x / 0x100, 18, 0x40000);
    AndMask(x % 0x100, 2, 4);
  }

  lemma MaskR2(x: nat)
    ensures And(x, 0x03ffc0ff) == x / 0x4000 % 0x1000 * 0x4000 + x % 0x4000 % 0x100
  {
    Powers();
    MaskSplit(x / 0x4000, x % 0x4000, 0xfff, 0xff, 14, 0x4000);
    AndMask(x / 0x4000, 12, 0x1000);
    AndMask(x % 0x4000, 8, 0x100);
  }

  lemma MaskR3(x: nat)
    ensures And(x, 0x03f03fff) == x / 0x100000 % 0x40 * 0x100000 + x % 0x100000 % 0x4000
  {
    Powers();
    MaskSplit(x / 0x100000, x % 0x100000, 0x3f, 0x3fff, 20, 0x100000);
    AndMask(x / 0x100000, 6, 0x40);
    AndMask(x % 0x100000, 14, 0x4000);
  }

  lemma MaskR4(x: nat)
    ensures And(x, 0x000fffff) == x % 0x100000
  {
    Powers();
    AndMask(x, 20, 0x100000);
  }

  lemma Mask15(b: nat)
    ensures And(b, 15) == b % 16
  {
    Powers();
    AndMask(b, 4, 16);
  }

  lemma MaskTop(q: nat, r: nat, k: nat, m: nat)
    requires m == Pow2(k) && q < m && r < 4
    ensures And(q * 4 + r, (m - 1) * 4) == q * 4
  {
    Powers();
    AndMask(q, k, m);
    DivModUnique(q, m, 0, q);
    AndZero(r);
    MaskSplit(q, r, m - 1, 0, 2, 4);
  }

  lemma MaskBytes(b: Byte)
    ensures And(b, 15) == b % 16 && And(b, 252) == b / 4 * 4
  {
    Mask15(b);
    Powers();
    MaskTop(b / 4, b % 4, 6, 64);
  }

  lemma ClampedWord(b0: Byte, b1: Byte, b2: Byte, b3: Byte)
    ensures (b0 + 0x100 * b1 + 0x10000 * b2 + 0x1000000 * b3) % 0x10000000
         == b0 + 0x100 * b1 + 0x10000 * b2 + 0x1000000 * (b3 % 16)
    ensures ClampWord(b0 + 0x100 * b1 + 0x10000 * b2 + 0x1000000 * b3)
         == b0 / 4 * 4 + 0x100 * b1 + 0x10000 * b2 + 0x1000000 * (b3 % 16)
  {
    var t := b0 + 0x100 * b1 + 0x10000 * b2 + 0x1000000 * b3;
    DivModUnique(t, 0x10000000, b3 / 16, b0 + 0x100 * b1 + 0x10000 * b2 + 0x1000000 * (b3 % 16));
    var q := b0 / 4 + 0x40 * b1 + 0x4000 * b2 + 0x400000 * (b3 % 16);
    DivModUnique(t, 4, 0x4000000 * (b3 / 16) + q, b0 % 4);
    DivModUnique(t / 4, 0x4000000, b3 / 16, q);
  }

  lemma ClampLimb1(t0: nat, t1: nat)
    requires t0 < 0x1_00000000
    ensures And(Splice(t0, t1, 0x4000000, 0x40), 0x03ffff03) == t0 / 0x4000000 % 4 + t1 / 4 % 0x40000 * 0x100
  {
    var x := t0 / 0x4000000 + t1 % 0x4000000 * 0x40;
    assert Splice(t0, t1, 0x4000000, 0x40) == x by { Splice26(t0, t1); }
    MaskR1(x);
    ClampCut1(t0 / 0x4000000, t1 % 0x4000000);
    ClampHigh1(t1);
  }

  lemma ClampCut1(a: nat, b: nat)
    requires a < 0x40
    ensures (a + b * 0x40) / 0x100 == b / 4 && (a + b * 0x40) % 0x100 % 4 == a % 4
  {
    var v := b % 4;
    DivModUnique(a + b * 0x40, 0x100, b / 4, v * 0x40 + a);
    DivModUnique(v * 0x40 + a, 4, v * 0x10 + a / 4, a % 4);
  }

  lemma ClampHigh1(hi: nat)
    ensures hi % 0x4000000 / 4 % 0x40000 == hi / 4 % 0x40000
  {
    var q, b := hi / 0x4000000, hi % 0x4000000;
    DivModUnique(hi, 4, q * 0x1000000 + b / 4, b % 4);
    DivModUnique(q * 0x1000000 + b / 4, 0x40000, q * 0x40 + b / 4 / 0x40000, b / 4 % 0x40000);
  }

  lemma ClampLimb2(t1: nat, t2: nat)
    requires t1 < 0x1_00000000
    ensures And(Splice(t1, t2, 0x100000, 0x1000), 0x03ffc0ff) == t1 / 0x100000 % 0x100 + t2 / 4 % 0x1000 * 0x4000
  {
    var x := t1 / 0x100000 + t2 % 0x100000 * 0x1000;
    assert Splice(t1, t2, 0x100000, 0x1000) == x by { Splice20(t1, t2); }
    MaskR2(x);
    ClampCut2(t1 / 0x100000, t2 % 0x100000);
    ClampHigh2(t2);
  }

  lemma ClampCut2(a: nat, b: nat)
    requires a < 0x1000
    ensures (a + b * 0x1000) / 0x4000 == b / 4 && (a + b * 0x1000) % 0x4000 % 0x100 == a % 0x100
  {
    var v := b % 4;
    DivModUnique(a + b * 0x1000, 0x4000, b / 4, v * 0x1000 + a);
    DivModUnique(v * 0x1000 + a, 0x100, v * 0x10 + a / 0x100, a % 0x100);
  }

  lemma ClampHigh2(hi: nat)
    ensures hi % 0x100000 / 4 % 0x1000 == hi / 4 % 0x1000
  {
    var q, b := hi / 0x100000, hi % 0x100000;
    DivModUnique(hi, 4, q * 0x40000 + b / 4, b % 4);
    DivModUnique(q * 0x40000 + b / 4, 0x1000, q * 0x40 + b / 4 / 0x1000, b / 4 % 0x1000);
  }

  lemma ClampLimb3(t2: nat, t3: nat)
    requires t2 < 0x1_00000000
    ensures And(Splice(t2, t3, 0x4000, 0x40000), 0x03f03fff) == t2 / 0x4000 % 0x4000 + t3 / 4 % 0x40 * 0x100000
  {
    var x := t2 / 0x4000 + t3 % 0x4000 * 0x40000;
    assert Splice(t2, t3, 0x4000, 0x40000) == x by { Splice14(t2, t3); }
    MaskR3(x);
    ClampCut3(t2 / 0x4000, t3 % 0x4000);
    ClampHigh3(t3);
  }

  lemma ClampCut3(a: nat, b: nat)
    requires a < 0x40000
    ensures (a + b * 0x40000) / 0x100000 == b / 4 && (a + b * 0x40000) % 0x100000 % 0x4000 == a % 0x4000
  {
    var v := b % 4;
    DivModUnique(a + b * 0x40000, 0x100000, b / 4, v * 0x40000 + a);
    DivModUnique(v * 0x40000 + a, 0x4000, v * 0x10 + a / 0x4000, a % 0x4000);
  }

  lemma ClampHigh3(hi: nat)
    ensures hi % 0x4000 / 4 % 0x40 == hi / 4 % 0x40
  {
    var q, b := hi / 0x4000, hi % 0x4000;
    DivModUnique(hi, 4, q * 0x1000 + b / 4, b % 4);
    DivModUnique(q * 0x1000 + b / 4, 0x40, q * 0x40 + b / 4 / 0x40, b / 4 % 0x40);
  }

  lemma ClampedLimbs(t0: nat, t1: nat, t2: nat, t3: nat)
    requires t0 < 0x1_00000000 && t1 < 0x1_00000000 && t2 < 0x1_00000000 && t3 < 0x1_00000000
    ensures Value(t0 % 0x4000000, t0 / 0x4000000 % 4 + t1 / 4 % 0x40000 * 0x100,
                  t1 / 0x100000 % 0x100 + t2 / 4 % 0x1000 * 0x4000, t2 / 0x4000 % 0x4000 + t3 / 4 % 0x40 * 0x100000,
                  t3 / 0x100 % 0x100000)
         == Words(t0 % 0x10000000, ClampWord(t1), ClampWord(t2), ClampWord(t3))
  {
    assert t0 % 0x10000000 == t0 % 0x4000000 + t0 / 0x4000000 % 4 * 0x4000000;
    ClampWordParts(t1);
    ClampWordParts(t2);
    ClampWordParts(t3);
  }

  lemma ClampWordParts(t: nat)
    ensures ClampWord(t) == t / 4 % 0x40000 * 4 + t / 0x100000 % 0x100 * 0x100000
    ensures ClampWord(t) == t / 4 % 0x1000 * 4 + t / 0x4000 % 0x4000 * 0x4000
    ensures ClampWord(t) == t / 4 % 0x40 * 4 + t / 0x100 % 0x100000 * 0x100
  {
    ModParts(t, 0x40000, 0x100);
    ModParts(t, 0x1000, 0x4000);
    ModParts(t, 0x40, 0x100000);
  }

  lemma ModParts(t: nat, m: nat, n: nat)
    requires (m == 0x40000 && n == 0x100) || (m == 0x1000 && n == 0x4000) || (m == 0x40 && n == 0x100000)
    ensures t / 4 % 0x4000000 == t / 4 % m + t / (4 * m) % n * m
  {
    var q := t / 4;
    var u, v := q / m, q % m;
    DivModUnique(t, 4 * m, u, 4 * v + t % 4);
    DivModUnique(q, 0x4000000, u / n, u % n * m + v);
  }

  // ---- one block: h = (h + block) * r, partially reduced ----

  /** The largest limb value that multiplication has to cope with, and the bound every r limb meets. */
  const MAX_H: nat := 0x8000040
  const MAX_R: nat := 0x3ffffff
  const MAX_PRODUCT: nat := 0x20_0001_0000_0000

  /** What a block leaves behind: all limbs below 2^26 except the second, which may exceed it by a few units. */
  ghost predicate InRange(h: seq<nat>) {
    |h| == 5 && h[0] < 0x4000000 && h[1] < 0x4000040 && h[2] < 0x4000000 && h[3] < 0x4000000 && h[4] < 0x4000000
  }

  /** The number that a sequence of 26-bit limbs stands for. */
  ghost function ValueOf(h: seq<nat>): nat {
    if h == [] then 0 else h[0] + 0x4000000 * ValueOf(h[1..])
  }

  lemma ValueOfLimbs(h: seq<nat>)
    requires |h| == 5
    ensures ValueOf(h) == Value(h[0], h[1], h[2], h[3], h[4])
  {
    assert h[1..][1..] == h[2..] && h[2..][1..] == h[3..] && h[3..][1..] == h[4..] && h[4..][1..] == [];
    assert ValueOf(h[4..]) == h[4];
    assert ValueOf(h[3..]) == h[3] + 0x4000000 * ValueOf(h[4..]);
    assert ValueOf(h[2..]) == h[2] + 0x4000000 * ValueOf(h[3..]);
    assert ValueOf(h[1..]) == h[1] + 0x4000000 * ValueOf(h[2..]);
  }

  /** Multiplying out: limb k of the product collects the h_i * r_j with i + j = k and, because 2^130 = P + 5,
      five times those with i + j = k + 5. */
  lemma Regroup(p00: int, p01: int, p02: int, p03: int, p04: int,
                 p10: int, p11: int, p12: int, p13: int, p14: int,
                 p20: int, p21: int, p22: int, p23: int, p24: int,
                 p30: int, p31: int, p32: int, p33: int, p34: int,
                 p40: int, p41: int, p42: int, p43: int, p44: int)
    ensures Value(Value(p00, p01, p02, p03, p04), Value(p10, p11, p12, p13, p14), Value(p20, p21, p22, p23, p24),
                  Value(p30, p31, p32, p33, p34), Value(p40, p41, p42, p43, p44))
         == Value(p00 + p14 * 5 + p23 * 5 + p32 * 5 + p41 * 5,
                  p01 + p10 + p24 * 5 + p33 * 5 + p42 * 5,
                  p02 + p11 + p20 + p34 * 5 + p43 * 5,
                  p03 + p12 + p21 + p30 + p44 * 5,
                  p04 + p13 + p22 + p31 + p40)
            + P * Value(p14 + p23 + p32 + p41, p24 + p33 + p42, p34 + p43, p44, 0)
  {
  }

  lemma ProductIdentity(h0: int, h1: int, h2: int, h3: int, h4: int, r0: int, r1: int, r2: int, r3: int, r4: int)
    returns (multiple: int)
    ensures Value(h0, h1, h2, h3, h4) * Value(r0, r1, r2, r3, r4)
         == Value(h0 * r0 + h1 * r4 * 5 + h2 * r3 * 5 + h3 * r2 * 5 + h4 * r1 * 5,
                  h0 * r1 + h1 * r0 + h2 * r4 * 5 + h3 * r3 * 5 + h4 * r2 * 5,
                  h0 * r2 + h1 * r1 + h2 * r0 + h3 * r4 * 5 + h4 * r3 * 5,
                  h0 * r3 + h1 * r2 + h2 * r1 + h3 * r0 + h4 * r4 * 5,
                  h0 * r4 + h1 * r3 + h2 * r2 + h3 * r1 + h4 * r0)
            + P * multiple
  {
    Rows(h0, h1, h2, h3, h4, r0, r1, r2, r3, r4);
    Regroup(h0 * r0, h0 * r1, h0 * r2, h0 * r3, h0 * r4,
            h1 * r0, h1 * r1, h1 * r2, h1 * r3, h1 * r4,
            h2 * r0, h2 * r1, h2 * r2, h2 * r3, h2 * r4,
            h3 * r0, h3 * r1, h3 * r2, h3 * r3, h3 * r4,
            h4 * r0, h4 * r1, h4 * r2, h4 * r3, h4 * r4);
    multiple := Value(h1 * r4 + h2 * r3 + h3 * r2 + h4 * r1, h2 * r4 + h3 * r3 + h4 * r2, h3 * r4 + h4 * r3, h4 * r4,
                      0);
  }

  lemma Rows(h0: int, h1: int, h2: int, h3: int, h4: int, r0: int, r1: int, r2: int, r3: int, r4: int)
    ensures Value(h0, h1, h2, h3, h4) * Value(r0, r1, r2, r3, r4)
         == Value(Value(h0 * r0, h0 * r1, h0 * r2, h0 * r3, h0 * r4),
                  Value(h1 * r0, h1 * r1, h1 * r2, h1 * r3, h1 * r4),
                  Value(h2 * r0, h2 * r1, h2 * r2, h2 * r3, h2 * r4),
                  Value(h3 * r0, h3 * r1, h3 * r2, h3 * r3, h3 * r4),
                  Value(h4 * r0, h4 * r1, h4 * r2, h4 * r3, h4 * r4))
  {
    var r := Value(r0, r1, r2, r3, r4);
    calc {
      Value(h0, h1, h2, h3, h4) * r;
      { Distribute(h0, h1, h2, h3, h4, r); }
      Value(h0 * r, h1 * r, h2 * r, h3 * r, h4 * r);
      { Row(h0, r0, r1, r2, r3, r4); Row(h1, r0, r1, r2, r3, r4); Row(h2, r0, r1, r2, r3, r4);
        Row(h3, r0, r1, r2, r3, r4); Row(h4, r0, r1, r2, r3, r4); }
      Value(Value(h0 * r0, h0 * r1, h0 * r2, h0 * r3, h0 * r4),
            Value(h1 * r0, h1 * r1, h1 * r2, h1 * r3, h1 * r4),
            Value(h2 * r0, h2 * r1, h2 * r2, h2 * r3, h2 * r4),
            Value(h3 * r0, h3 * r1, h3 * r2, h3 * r3, h3 * r4),
            Value(h4 * r0, h4 * r1, h4 * r2, h4 * r3, h4 * r4));
    }
  }

  lemma Distribute(h0: int, h1: int, h2: int, h3: int, h4: int, x: int)
    ensures Value(h0, h1, h2, h3, h4) * x == Value(h0 * x, h1 * x, h2 * x, h3 * x, h4 * x)
  {
  }

  lemma Row(a: int, r0: int, r1: int, r2: int, r3: int, r4: int)
    ensures a * Value(r0, r1, r2, r3, r4) == Value(a * r0, a * r1, a * r2, a * r3, a * r4)
  {
    Distribute(r0, r1, r2, r3, r4, a);
  }

  lemma MulBound(a: nat, b: nat)
    requires a <= MAX_H && b <= MAX_R
    ensures 0 <= a * b <= MAX_PRODUCT
  {
    assert a * b <= MAX_H * b;
  }

  lemma CarryIdentity(d0: nat, d1: nat, d2: nat, d3: nat, d4: nat)
    ensures var e1 := d1 + d0 / 0x4000000;
            var e2 := d2 + e1 / 0x4000000;
            var e3 := d3 + e2 / 0x4000000;
            var e4 := d4 + e3 / 0x4000000;
            var n0 := d0 % 0x4000000 + e4 / 0x4000000 * 5;
            Value(n0 % 0x4000000, e1 % 0x4000000 + n0 / 0x4000000, e2 % 0x4000000, e3 % 0x4000000, e4 % 0x4000000)
              + P * (e4 / 0x4000000) == Value(d0, d1, d2, d3, d4)
  {
  }

  lemma ModMultiple(x: int, m: int)
    ensures (x + P * m) % P == x % P
  {
  }

  lemma MulCongruent(a: int, b: int, r: int, p: nat)
    requires p > 0 && a % p == b % p
    ensures a * r % p == b * r % p
  {
    var m := a / p - b / p;
    assert a == b + p * m;
    MulSum(b, p * m, r);
    MulAssoc(p, m, r);
    MultipleAdded(b * r, m * r, p);
  }

  lemma MultipleAdded(x: int, k: int, p: nat)
    requires p > 0
    ensures (x + p * k) % p == x % p
  {
    var q := x / p;
    assert x + p * k == p * (q + k) + x % p;
    Remainder(q + k, x % p, p);
  }

  lemma Remainder(q: int, x: nat, p: nat)
    requires x < p
    ensures (p * q + x) % p == x
  {
    var k := (p * q + x) / p;
    MulOrder(p, k, q - 1);
    MulOrder(p, q + 1, k);
  }

  lemma MulOrder(p: nat, a: int, b: int)
    ensures a <= b ==> p * a <= p * b
  {
  }

  lemma MulSum(a: int, b: int, c: int)
    ensures (a + b) * c == a * c + b * c
  {
  }

  lemma MulAssoc(a: int, b: int, c: int)
    ensures a * b * c == a * (b * c)
  {
  }

  ghost predicate Multipliable(h: seq<nat>) {
    |h| == 5 && forall i | 0 <= i < 5 :: h[i] <= MAX_H
  }

  /** No sum of products reaches 2^58, so neither the 64-bit sums nor the 32-bit carries taken from them overflow. */
  const MAX_D: nat := 0x300_0000_0000_0000
  const MAX_D4: nat := 0xa8_0000_0000_0000

  ghost predicate BoundRow(a: nat, r0: nat, r1: nat, r2: nat, r3: nat, r4: nat) {
    && 0 <= a * r0 <= MAX_PRODUCT && 0 <= a * r1 <= MAX_PRODUCT && 0 <= a * r2 <= MAX_PRODUCT
    && 0 <= a * r3 <= MAX_PRODUCT && 0 <= a * r4 <= MAX_PRODUCT
  }

  lemma BoundProducts(a: nat, r0: nat, r1: nat, r2: nat, r3: nat, r4: nat)
    requires a <= MAX_H && r0 <= MAX_R && r1 <= MAX_R && r2 <= MAX_R && r3 <= MAX_R && r4 <= MAX_R
    ensures BoundRow(a, r0, r1, r2, r3, r4)
  {
    MulBound(a, r0);
    MulBound(a, r1);
    MulBound(a, r2);
    MulBound(a, r3);
    MulBound(a, r4);
  }

  lemma SumFits(p0: int, p1: int, p2: int, p3: int, p4: int)
    requires 0 <= p0 <= MAX_PRODUCT && 0 <= p1 <= MAX_PRODUCT && 0 <= p2 <= MAX_PRODUCT
    requires 0 <= p3 <= MAX_PRODUCT && 0 <= p4 <= MAX_PRODUCT
    ensures U64(p0 + p1 * 5 + p2 * 5 + p3 * 5 + p4 * 5) == p0 + p1 * 5 + p2 * 5 + p3 * 5 + p4 * 5 <= MAX_D
    ensures U64(p0 + p1 + p2 * 5 + p3 * 5 + p4 * 5) == p0 + p1 + p2 * 5 + p3 * 5 + p4 * 5 <= MAX_D
    ensures U64(p0 + p1 + p2 + p3 * 5 + p4 * 5) == p0 + p1 + p2 + p3 * 5 + p4 * 5 <= MAX_D
    ensures U64(p0 + p1 + p2 + p3 + p4 * 5) == p0 + p1 + p2 + p3 + p4 * 5 <= MAX_D
    ensures U64(p0 + p1 + p2 + p3 + p4) == p0 + p1 + p2 + p3 + p4 <= MAX_D4
  {
  }

  method Products(h0: nat, h1: nat, h2: nat, h3: nat, h4: nat, r0: nat, r1: nat, r2: nat, r3: nat, r4: nat)
    returns (d0: nat, d1: nat, d2: nat, d3: nat, d4: nat, ghost multiple: int)
    requires h0 <= MAX_H && h1 <= MAX_H && h2 <= MAX_H && h3 <= MAX_H && h4 <= MAX_H
    requires r0 <= MAX_R && r1 <= MAX_R && r2 <= MAX_R && r3 <= MAX_R && r4 <= MAX_R
    ensures d0 <= MAX_D && d1 <= MAX_D && d2 <= MAX_D && d3 <= MAX_D && d4 <= MAX_D4
    ensures Value(h0, h1, h2, h3, h4) * Value(r0, r1, r2, r3, r4) == Value(d0, d1, d2, d3, d4) + P * multiple
  {
    BoundProducts(h0, r0, r1, r2, r3, r4);
    BoundProducts(h1, r0, r1, r2, r3, r4);
    BoundProducts(h2, r0, r1, r2, r3, r4);
    BoundProducts(h3, r0, r1, r2, r3, r4);
    BoundProducts(h4, r0, r1, r2, r3, r4);
    d0 := U64(h0 * r0 + h1 * r4 * 5 + h2 * r3 * 5 + h3 * r2 * 5 + h4 * r1 * 5);
    d1 := U64(h0 * r1 + h1 * r0 + h2 * r4 * 5 + h3 * r3 * 5 + h4 * r2 * 5);
    d2 := U64(h0 * r2 + h1 * r1 + h2 * r0 + h3 * r4 * 5 + h4 * r3 * 5);
    d3 := U64(h0 * r3 + h1 * r2 + h2 * r1 + h3 * r0 + h4 * r4 * 5);
    d4 := U64(h0 * r4 + h1 * r3 + h2 * r2 + h3 * r1 + h4 * r0);
    SumFits(h0 * r0, h1 * r4, h2 * r3, h3 * r2, h4 * r1);
    SumFits(h0 * r1, h1 * r0, h2 * r4, h3 * r3, h4 * r2);
    SumFits(h0 * r2, h1 * r1, h2 * r0, h3 * r4, h4 * r3);
    SumFits(h0 * r3, h1 * r2, h2 * r1, h3 * r0, h4 * r4);
    SumFits(h0 * r4, h1 * r3, h2 * r2, h3 * r1, h4 * r0);
    multiple := ProductIdentity(h0, h1, h2, h3, h4, r0, r1, r2, r3, r4);
  }

  lemma CarryFits(d: nat, c: nat)
    requires d <= MAX_D && c <= MAX_D + 0x1_0000_0000
    ensures U64(d + U32(c / 0x4000000)) == d + c / 0x4000000 <= d + 0x1_0000_0000
  {
  }

  /** Carry through the limbs, folding what leaves the top back in at the bottom times five. */
  method Carry(h: array<nat>, a0: nat, a1: nat, a2: nat, a3: nat, a4: nat) returns (ghost multiple: int)
    requires h.Length == 5
    requires a0 <= MAX_D && a1 <= MAX_D && a2 <= MAX_D && a3 <= MAX_D && a4 <= MAX_D4
    modifies h
    ensures InRange(h[..]) && ValueOf(h[..]) + P * multiple == Value(a0, a1, a2, a3, a4)
  {
    var d0, d1, d2, d3, d4 := a0, a1, a2, a3, a4;
    CarryFits(d1, d0);
    d1 := U64(d1 + U32(d0 / 0x4000000));
    CarryFits(d2, d1);
    d2 := U64(d2 + U32(d1 / 0x4000000));
    CarryFits(d3, d2);
    d3 := U64(d3 + U32(d2 / 0x4000000));
    CarryFits(d4, d3);
    d4 := U64(d4 + U32(d3 / 0x4000000));
    var n0, n1 := Fold(d0 % 0x4000000, d1 % 0x4000000, d4);
    h[0], h[1], h[2], h[3], h[4] := n0 % 0x4000000, n1, d2 % 0x4000000, d3 % 0x4000000, d4 % 0x4000000;
    multiple := d4 / 0x4000000;
    CarryIdentity(a0, a1, a2, a3, a4);
    ValueOfLimbs(h[..]);
  }

  method Fold(low: nat, e1: nat, d4: nat) returns (n0: nat, n1: nat)
    requires low < 0x4000000 && d4 <= MAX_D4 + 0x1_0000_0000 && e1 < 0x4000000
    ensures n0 == low + d4 / 0x4000000 * 5 && n1 == e1 + n0 / 0x4000000 < 0x4000040
  {
    n0 := U32(low + U32(U32(d4 / 0x4000000) * 5));
    n1 := U32(e1 + n0 / 0x4000000);
  }

  // ---- loading key and message words ----

  /** Four bytes read as a little-endian 32-bit word. */
  function Word(b: seq<Byte>, i: nat): (w: nat)
    requires i + 4 <= |b|
    ensures w < 0x1_00000000
  {
    b[i] as nat + 0x100 * b[i + 1] as nat + 0x10000 * b[i + 2] as nat + 0x1000000 * b[i + 3] as nat
  }

  lemma LeFirstWord(b: seq<Byte>)
    requires |b| >= 4
    ensures LE(b) == Word(b, 0) + 0x1_00000000 * LE(b[4..])
  {
    assert b[1..][1..] == b[2..];
    assert b[2..][1..] == b[3..];
    assert b[3..][1..] == b[4..];
    assert LE(b[1..]) == b[1] + 256 * LE(b[2..]);
    assert LE(b[2..]) == b[2] + 256 * LE(b[3..]);
    assert LE(b[3..]) == b[3] + 256 * LE(b[4..]);
  }

  lemma LeWords(b: seq<Byte>)
    requires |b| == 16
    ensures LE(b) == Words(Word(b, 0), Word(b, 4), Word(b, 8), Word(b, 12))
  {
    LeFirstWord(b);
    LeFirstWord(b[4..]);
    assert b[4..][4..] == b[8..];
    LeFirstWord(b[8..]);
    assert b[8..][4..] == b[12..];
    LeFirstWord(b[12..]);
    assert b[12..][4..] == [];
  }

  /** The short last block as the code lays it out: the data, a one byte, zeros. */
  function PaddedBlock(b: seq<Byte>): (x: seq<Byte>)
    requires |b| < 16
    ensures |x| == 16
  {
    b + [1] + Zeros(15 - |b|)
  }

  lemma PaddedIsBlockNumber(b: seq<Byte>)
    requires |b| < 16
    ensures LE(PaddedBlock(b)) == BlockNumber(b)
  {
    var z := Zeros(15 - |b|);
    LeAppend([1], z);
    assert LE([1]) == 1 + 256 * LE([]);
    LeAppend(b, [1] + z);
    assert b + ([1] + z) == PaddedBlock(b);
  }

  method LoadKey(key: seq<Byte>) returns (r0: nat, r1: nat, r2: nat, r3: nat, r4: nat)
    requires |key| == 32
    ensures r0 <= MAX_R && r1 <= MAX_R && r2 <= MAX_R && r3 <= MAX_R && r4 <= MAX_R
    ensures Value(r0, r1, r2, r3, r4) == R(key)
  {
    var t0, t1, t2, t3 := Word(key, 0), Word(key, 4), Word(key, 8), Word(key, 12);
    r0 := And(t0, 0x03ffffff);
    r1 := And(Splice(t0, t1, 0x4000000, 0x40), 0x03ffff03);
    r2 := And(Splice(t1, t2, 0x100000, 0x1000), 0x03ffc0ff);
    r3 := And(Splice(t2, t3, 0x4000, 0x40000), 0x03f03fff);
    r4 := And(t3 / 0x100, 0x000fffff);
    KeyLimbs(t0, t1, t2, t3);
    ClampedKey(key);
  }

  lemma KeyLimbs(t0: nat, t1: nat, t2: nat, t3: nat)
    requires t0 < 0x1_00000000 && t1 < 0x1_00000000 && t2 < 0x1_00000000 && t3 < 0x1_00000000
    ensures var r0 := And(t0, 0x03ffffff);
            var r1 := And(Splice(t0, t1, 0x4000000, 0x40), 0x03ffff03);
            var r2 := And(Splice(t1, t2, 0x100000, 0x1000), 0x03ffc0ff);
            var r3 := And(Splice(t2, t3, 0x4000, 0x40000), 0x03f03fff);
            var r4 := And(t3 / 0x100, 0x000fffff);
            r0 <= MAX_R && r1 <= MAX_R && r2 <= MAX_R && r3 <= MAX_R && r4 <= MAX_R &&
            Value(r0, r1, r2, r3, r4) == Words(t0 % 0x10000000, ClampWord(t1), ClampWord(t2), ClampWord(t3))
  {
    MaskLimb(t0);
    ClampLimb1(t0, t1);
    ClampLimb2(t1, t2);
    ClampLimb3(t2, t3);
    MaskR4(t3 / 0x100);
    ClampedLimbs(t0, t1, t2, t3);
  }

  lemma ClampedKey(key: seq<Byte>)
    requires |key| == 32
    ensures R(key) == Words(Word(key, 0) % 0x10000000, ClampWord(Word(key, 4)), ClampWord(Word(key, 8)),
                            ClampWord(Word(key, 12)))
  {
    var c := Clamped(key[..16]);
    LeWords(c);
    assert Word(c, 0) == Word(key, 0) % 0x10000000 by { ClampedWords(key, 0); }
    assert Word(c, 4) == ClampWord(Word(key, 4)) by { ClampedWords(key, 4); }
    assert Word(c, 8) == ClampWord(Word(key, 8)) by { ClampedWords(key, 8); }
    assert Word(c, 12) == ClampWord(Word(key, 12)) by { ClampedWords(key, 12); }
  }

  lemma ClampedAt(key: seq<Byte>, j: nat)
    requires |key| == 32 && j < 16
    ensures Clamped(key[..16])[j] == ClampByte(j, key[j])
  {
  }

  lemma ClampedWords(key: seq<Byte>, i: nat)
    requires |key| == 32 && (i == 0 || i == 4 || i == 8 || i == 12)
    ensures Word(Clamped(key[..16]), i) == if i == 0 then Word(key, i) % 0x10000000 else ClampWord(Word(key, i))
  {
    var c := Clamped(key[..16]);
    ClampedAt(key, i);
    ClampedAt(key, i + 1);
    ClampedAt(key, i + 2);
    ClampedAt(key, i + 3);
    ClampByteIs(i, key[i]);
    ClampByteIs(i + 3, key[i + 3]);
    ClampedBytes(key[i], key[i + 1], key[i + 2], key[i + 3], c[i], c[i + 3], i == 0);
    WordIs(c, i, c[i], key[i + 1], key[i + 2], c[i + 3]);
    WordIs(key, i, key[i], key[i + 1], key[i + 2], key[i + 3]);
  }

  lemma WordIs(b: seq<Byte>, i: nat, b0: nat, b1: nat, b2: nat, b3: nat)
    requires i + 4 <= |b| && b[i] == b0 && b[i + 1] == b1 && b[i + 2] == b2 && b[i + 3] == b3
    ensures Word(b, i) == b0 + 0x100 * b1 + 0x10000 * b2 + 0x1000000 * b3
  {
  }

  lemma ClampByteIs(i: nat, b: Byte)
    requires i < 16
    ensures i % 4 == 3 ==> ClampByte(i, b) == b % 16
    ensures i % 4 == 0 && i > 0 ==> ClampByte(i, b) == b / 4 * 4
  {
    MaskBytes(b);
  }

  lemma ClampedBytes(b0: Byte, b1: Byte, b2: Byte, b3: Byte, c0: nat, c3: nat, first: bool)
    requires c3 == b3 % 16 && c0 == if first then b0 else b0 / 4 * 4
    ensures c0 + 0x100 * b1 + 0x10000 * b2 + 0x1000000 * c3
         == var w := b0 + 0x100 * b1 + 0x10000 * b2 + 0x1000000 * b3; if first then w % 0x10000000 else ClampWord(w)
  {
    ClampedWord(b0, b1, b2, b3);
  }

  /** h += block */
  method AddBlock(h: array<nat>, x: seq<Byte>, full: bool)
    requires h.Length == 5 && InRange(h[..]) && |x| == 16
    modifies h
    ensures Multipliable(h[..])
    ensures ValueOf(h[..]) == old(ValueOf(h[..])) + LE(x) + (if full then TWO_128 else 0)
  {
    var t0, t1, t2, t3 := Word(x, 0), Word(x, 4), Word(x, 8), Word(x, 12);
    assert LE(x) == Words(t0, t1, t2, t3) by { LeWords(x); }
    var x0, x1, x2, x3, x4 := SplitWords(t0, t1, t2, t3, full);
    ValueOfLimbs(h[..]);
    h[0], h[1], h[2], h[3], h[4] := U32(h[0] + x0), U32(h[1] + x1), U32(h[2] + x2), U32(h[3] + x3), U32(h[4] + x4);
    ValueOfLimbs(h[..]);
  }

  method SplitWords(t0: nat, t1: nat, t2: nat, t3: nat, full: bool)
    returns (x0: nat, x1: nat, x2: nat, x3: nat, x4: nat)
    requires t0 < 0x1_00000000 && t1 < 0x1_00000000 && t2 < 0x1_00000000 && t3 < 0x1_00000000
    ensures x0 <= MAX_R && x1 <= MAX_R && x2 <= MAX_R && x3 <= MAX_R && x4 <= MAX_R
    ensures Value(x0, x1, x2, x3, x4) == Words(t0, t1, t2, t3) + (if full then TWO_128 else 0)
  {
    x0 := And(t0, 0x03ffffff);
    x1 := And(Splice(t0, t1, 0x4000000, 0x40), 0x03ffffff);
    x2 := And(Splice(t1, t2, 0x100000, 0x1000), 0x03ffffff);
    x3 := And(Splice(t2, t3, 0x4000, 0x40000), 0x03ffffff);
    x4 := Or(t3 / 0x100, if full then 0x1000000 else 0);
    BlockLimbs(t0, t1, t2, t3, full);
  }

  lemma BlockLimbs(t0: nat, t1: nat, t2: nat, t3: nat, full: bool)
    requires t0 < 0x1_00000000 && t1 < 0x1_00000000 && t2 < 0x1_00000000 && t3 < 0x1_00000000
    ensures var x0 := And(t0, 0x03ffffff);
            var x1 := And(Splice(t0, t1, 0x4000000, 0x40), 0x03ffffff);
            var x2 := And(Splice(t1, t2, 0x100000, 0x1000), 0x03ffffff);
            var x3 := And(Splice(t2, t3, 0x4000, 0x40000), 0x03ffffff);
            var x4 := Or(t3 / 0x100, if full then 0x1000000 else 0);
            x0 <= MAX_R && x1 <= MAX_R && x2 <= MAX_R && x3 <= MAX_R && x4 <= MAX_R &&
            Value(x0, x1, x2, x3, x4) == Words(t0, t1, t2, t3) + (if full then TWO_128 else 0)
  {
    assert And(t0, 0x03ffffff) == t0 % 0x4000000 by { MaskLimb(t0); }
    MaskedSplice26(t0, t1);
    MaskedSplice20(t1, t2);
    MaskedSplice14(t2, t3);
    TopLimb(t3, full);
    assert Or(t3 / 0x100, if full then 0x1000000 else 0) == t3 / 0x100 + (if full then 0x1000000 else 0);
    LimbsOfWords(t0, t1, t2, t3);
  }

  lemma TopLimb(t: nat, full: bool)
    requires t < 0x1_00000000
    ensures Or(t / 0x100, if full then 0x1000000 else 0) == t / 0x100 + (if full then 0x1000000 else 0)
  {
    Powers();
    OrDisjoint(t / 0x100, if full then 1 else 0, 24, 0x1000000);
  }

  // ---- final reduction ----

  /** After carrying once more every limb is below 2^26: the top limb can only overflow when the second one did,
      and then the second one is small again. */
  method FullCarry(h: array<nat>) returns (ghost multiple: int)
    requires h.Length == 5 && InRange(h[..])
    modifies h
    ensures forall i | 0 <= i < 5 :: h[i] < 0x4000000
    ensures ValueOf(h[..]) + P * multiple == old(ValueOf(h[..]))
  {
    ValueOfLimbs(h[..]);
    var e0, e1, e2, e3, e4 := FullCarryLimbs(h[0], h[1], h[2], h[3], h[4]);
    multiple := e4 / 0x4000000;
    h[0], h[1], h[2], h[3], h[4] := e0 % 0x4000000, e1, e2 % 0x4000000, e3 % 0x4000000, e4 % 0x4000000;
    ValueOfLimbs(h[..]);
  }

  method FullCarryLimbs(h0: nat, h1: nat, h2: nat, h3: nat, h4: nat)
    returns (e0: nat, e1: nat, e2: nat, e3: nat, e4: nat)
    requires InRange([h0, h1, h2, h3, h4])
    ensures e1 < 0x4000000
    ensures Value(e0 % 0x4000000, e1, e2 % 0x4000000, e3 % 0x4000000, e4 % 0x4000000) + P * (e4 / 0x4000000)
         == Value(h0, h1, h2, h3, h4)
  {
    FullCarryIdentity(h0, h1, h2, h3, h4);
    e2 := U32(h2 + h1 / 0x4000000);
    e3 := U32(h3 + e2 / 0x4000000);
    e4 := U32(h4 + e3 / 0x4000000);
    e0 := U32(h0 + U32(e4 / 0x4000000 * 5));
    e1 := U32(h1 % 0x4000000 + e0 / 0x4000000);
  }

  lemma FullCarryIdentity(h0: nat, h1: nat, h2: nat, h3: nat, h4: nat)
    requires InRange([h0, h1, h2, h3, h4])
    ensures var e2 := h2 + h1 / 0x4000000;
            var e3 := h3 + e2 / 0x4000000;
            var e4 := h4 + e3 / 0x4000000;
            var e0 := h0 + e4 / 0x4000000 * 5;
            var e1 := h1 % 0x4000000 + e0 / 0x4000000;
            h1 / 0x4000000 <= 1 && e2 / 0x4000000 <= 1 && e3 / 0x4000000 <= 1 && e4 / 0x4000000 <= 1 &&
                e1 < 0x4000000 &&
            Value(e0 % 0x4000000, e1, e2 % 0x4000000, e3 % 0x4000000, e4 % 0x4000000) + P * (e4 / 0x4000000)
              == Value(h0, h1, h2, h3, h4)
  {
  }

  lemma AndAllOnes(x: nat, k: nat, m: nat)
    requires m == Pow2(k) && x < m
    ensures And(x, m - 1) == x
  {
    AndMask(x, k, m);
    DivModUnique(x, m, 0, x);
  }

  /** The constant-time selection: b is all ones or zero. */
  function Select(h: nat, t: nat, b: nat): nat
    requires b <= 0xffffffff
  {
    Or(And(h, 0xffffffff - b), And(t, b))
  }

  lemma SelectIs(h: nat, t: nat, b: nat)
    requires h < 0x1_00000000 && t < 0x1_00000000 && (b == 0 || b == 0xffffffff)
    ensures Select(h, t, b) == if b == 0 then h else t
  {
    Powers();
    AndAllOnes(h, 32, 0x1_00000000);
    AndAllOnes(t, 32, 0x1_00000000);
    AndZero(h);
    AndZero(t);
  }

  /** h - P in t, and all ones in b unless the subtraction went below zero; the sign shows as wrap-around of t4. */
  method MinusP(h0: nat, h1: nat, h2: nat, h3: nat, h4: nat)
    returns (t0: nat, t1: nat, t2: nat, t3: nat, t4: nat, b: nat)
    requires h0 < 0x4000000 && h1 < 0x4000000 && h2 < 0x4000000 && h3 < 0x4000000 && h4 < 0x4000000
    ensures t0 < 0x4000000 && t1 < 0x4000000 && t2 < 0x4000000 && t3 < 0x4000000 && t4 < 0x1_00000000
    ensures b == 0 || b == 0xffffffff
    ensures b == 0 ==> Value(h0, h1, h2, h3, h4) < P
    ensures b != 0 ==> t4 == 0 && Value(t0, t1, t2, t3, t4) == Value(h0, h1, h2, h3, h4) - P
  {
    var e0 := U32(h0 + 5);
    var e1 := U32(h1 + e0 / 0x4000000);
    var e2 := U32(h2 + e1 / 0x4000000);
    var e3 := U32(h3 + e2 / 0x4000000);
    var top := h4 + e3 / 0x4000000;
    t4 := U32(top as int - 0x4000000);
    b := U32((t4 / 0x80000000) as int - 1);
    t0, t1, t2, t3 := e0 % 0x4000000, e1 % 0x4000000, e2 % 0x4000000, e3 % 0x4000000;
    SignOf(top);
    assert Value(t0, t1, t2, t3, top) == Value(h0, h1, h2, h3, h4) + 5 by { PlusFive(h0, h1, h2, h3, h4); }
    ValueBelow(t0, t1, t2, t3, top);
  }

  lemma SignOf(top: nat)
    requires top <= 0x4000000
    ensures var t4 := U32(top as int - 0x4000000);
            var b := U32((t4 / 0x80000000) as int - 1);
            if top < 0x4000000 then b == 0 else t4 == 0 && b == 0xffffffff
  {
  }

  lemma ValueBelow(h0: nat, h1: nat, h2: nat, h3: nat, h4: nat)
    requires h0 < 0x4000000 && h1 < 0x4000000 && h2 < 0x4000000 && h3 < 0x4000000
    ensures h4 < 0x4000000 <==> Value(h0, h1, h2, h3, h4) < P + 5
  {
  }

  /** Subtract P unless that gives a negative number. */
  method Reduce(h: array<nat>)
    requires h.Length == 5 && forall i | 0 <= i < 5 :: h[i] < 0x4000000
    modifies h
    ensures forall i | 0 <= i < 5 :: h[i] < 0x4000000
    ensures ValueOf(h[..]) == old(ValueOf(h[..])) % P
  {
    var t0, t1, t2, t3, t4, b := MinusP(h[0], h[1], h[2], h[3], h[4]);
    ValueOfLimbs(h[..]);
    ReducedValue(ValueOf(h[..]));
    SelectIs(h[0], t0, b);
    SelectIs(h[1], t1, b);
    SelectIs(h[2], t2, b);
    SelectIs(h[3], t3, b);
    SelectIs(h[4], t4, b);
    h[0], h[1], h[2] := Select(h[0], t0, b), Select(h[1], t1, b), Select(h[2], t2, b);
    h[3], h[4] := Select(h[3], t3, b), Select(h[4], t4, b);
    ValueOfLimbs(h[..]);
  }

  lemma PlusFive(h0: nat, h1: nat, h2: nat, h3: nat, h4: nat)
    ensures var t0 := h0 + 5;
            var t1 := h1 + t0 / 0x4000000;
            var t2 := h2 + t1 / 0x4000000;
            var t3 := h3 + t2 / 0x4000000;
            Value(t0 % 0x4000000, t1 % 0x4000000, t2 % 0x4000000, t3 % 0x4000000, h4 + t3 / 0x4000000)
              == Value(h0, h1, h2, h3, h4) + 5
  {
  }

  lemma ReducedValue(v: int)
    requires 0 <= v < 2 * P
    ensures v % P == if v < P then v else v - P
  {
  }

  /** Repack five 26-bit limbs into four 32-bit words; what lies above 2^128 falls off the top word. */
  method Pack(h: array<nat>)
    requires h.Length == 5 && forall i | 0 <= i < 5 :: h[i] < 0x4000000
    modifies h
    ensures forall i | 0 <= i < 4 :: h[i] < 0x1_00000000
    ensures Words(h[0], h[1], h[2], h[3]) == old(ValueOf(h[..])) % TWO_128
  {
    ValueOfLimbs(h[..]);
    PackWords(h[0], h[1], h[2], h[3], h[4]);
    h[0] := Or(h[0], U32(h[1] * 0x4000000));
    h[1] := Or(h[1] / 0x40, U32(h[2] * 0x100000));
    h[2] := Or(h[2] / 0x1000, U32(h[3] * 0x4000));
    h[3] := Or(h[3] / 0x40000, U32(h[4] * 0x100));
  }

  lemma PackOne(lo: nat, hi: nat, k: nat, m: nat, n: nat)
    requires m == Pow2(k) && lo < m
    requires (m == 0x4000000 && n == 0x40) || (m == 0x100000 && n == 0x1000) || (m == 0x4000 && n == 0x40000)
          || (m == 0x100 && n == 0x1000000)
    ensures Or(lo, U32(hi * m)) == lo + hi % n * m < 0x1_00000000
  {
    ShiftedOut(hi, m, n);
    OrDisjoint(lo, hi % n, k, m);
  }

  lemma ShiftedOut(hi: nat, m: nat, n: nat)
    requires (m == 0x4000000 && n == 0x40) || (m == 0x100000 && n == 0x1000) || (m == 0x4000 && n == 0x40000)
          || (m == 0x100 && n == 0x1000000)
    ensures U32(hi * m) == hi % n * m <= 0x1_00000000 - m
  {
    DivMod(hi, n);
    DivModUnique(hi * m, 0x1_00000000, hi / n, hi % n * m);
  }

  lemma PackWords(h0: nat, h1: nat, h2: nat, h3: nat, h4: nat)
    requires h0 < 0x4000000 && h1 < 0x4000000 && h2 < 0x4000000 && h3 < 0x4000000 && h4 < 0x4000000
    ensures var w0 := Or(h0, U32(h1 * 0x4000000));
            var w1 := Or(h1 / 0x40, U32(h2 * 0x100000));
            var w2 := Or(h2 / 0x1000, U32(h3 * 0x4000));
            var w3 := Or(h3 / 0x40000, U32(h4 * 0x100));
            w0 < 0x1_00000000 && w1 < 0x1_00000000 && w2 < 0x1_00000000 && w3 < 0x1_00000000 &&
            Words(w0, w1, w2, w3) == Value(h0, h1, h2, h3, h4) % TWO_128
  {
    Powers();
    PackOne(h0, h1, 26, 0x4000000, 0x40);
    PackOne(h1 / 0x40, h2, 20, 0x100000, 0x1000);
    PackOne(h2 / 0x1000, h3, 14, 0x4000, 0x40000);
    PackOne(h3 / 0x40000, h4, 8, 0x100, 0x1000000);
    PackValue(h0, h1, h2, h3, h4);
  }

  lemma PackValue(h0: nat, h1: nat, h2: nat, h3: nat, h4: nat)
    requires h0 < 0x4000000 && h1 < 0x4000000 && h2 < 0x4000000 && h3 < 0x4000000 && h4 < 0x4000000
    ensures Words(h0 + h1 % 0x40 * 0x4000000, h1 / 0x40 + h2 % 0x1000 * 0x100000, h2 / 0x1000 + h3 % 0x40000 * 0x4000,
                  h3 / 0x40000 + h4 % 0x1000000 * 0x100) == Value(h0, h1, h2, h3, h4) % TWO_128
  {
    var w := Words(h0 + h1 % 0x40 * 0x4000000, h1 / 0x40 + h2 % 0x1000 * 0x100000, h2 / 0x1000 + h3 % 0x40000 * 0x4000,
                   h3 / 0x40000 + h4 % 0x1000000 * 0x100);
    DivMod(h1, 0x40);
    DivMod(h2, 0x1000);
    DivMod(h3, 0x40000);
    DivMod(h4, 0x1000000);
    DivModUnique(Value(h0, h1, h2, h3, h4), TWO_128, h4 / 0x1000000, w);
  }

  /** Add the second half of the key modulo 2^128. */
  method AddPad(h: array<nat>, key: seq<Byte>)
    requires h.Length == 5 && |key| == 32 && forall i | 0 <= i < 4 :: h[i] < 0x1_00000000
    modifies h
    ensures forall i | 0 <= i < 4 :: h[i] < 0x1_00000000
    ensures Words(h[0], h[1], h[2], h[3]) == (old(Words(h[0], h[1], h[2], h[3])) + LE(key[16..])) % TWO_128
  {
    var s := key[16..];
    var s0, s1, s2, s3 := Word(s, 0), Word(s, 4), Word(s, 8), Word(s, 12);
    assert LE(s) == Words(s0, s1, s2, s3) by { LeWords(s); }
    h[0], h[1], h[2], h[3] := AddWords(h[0], h[1], h[2], h[3], s0, s1, s2, s3);
  }

  method AddWords(h0: nat, h1: nat, h2: nat, h3: nat, s0: nat, s1: nat, s2: nat, s3: nat)
    returns (w0: nat, w1: nat, w2: nat, w3: nat)
    requires h0 < 0x1_00000000 && h1 < 0x1_00000000 && h2 < 0x1_00000000 && h3 < 0x1_00000000
    requires s0 < 0x1_00000000 && s1 < 0x1_00000000 && s2 < 0x1_00000000 && s3 < 0x1_00000000
    ensures w0 < 0x1_00000000 && w1 < 0x1_00000000 && w2 < 0x1_00000000 && w3 < 0x1_00000000
    ensures Words(w0, w1, w2, w3) == (Words(h0, h1, h2, h3) + Words(s0, s1, s2, s3)) % TWO_128
  {
    var d0 := U64(h0 + s0);
    var d1 := U64(h1 + s1 + d0 / 0x1_00000000);
    var d2 := U64(h2 + s2 + d1 / 0x1_00000000);
    var d3 := U64(h3 + s3 + d2 / 0x1_00000000);
    w0, w1, w2, w3 := U32(d0), U32(d1), U32(d2), U32(d3);
    WordCarry(d0);
    WordCarry(d1);
    WordCarry(d2);
    WordCarry(d3);
    SumOfWords(h0, h1, h2, h3, s0, s1, s2, s3, w0, w1, w2, w3,
               d0 / 0x1_00000000, d1 / 0x1_00000000, d2 / 0x1_00000000, d3 / 0x1_00000000);
  }

  lemma WordCarry(d: nat)
    ensures d == U32(d) + 0x1_00000000 * (d / 0x1_00000000)
  {
  }

  lemma SumOfWords(h0: nat, h1: nat, h2: nat, h3: nat, s0: nat, s1: nat, s2: nat, s3: nat,
                   w0: nat, w1: nat, w2: nat, w3: nat, c0: nat, c1: nat, c2: nat, c3: nat)
    requires w0 < 0x1_00000000 && w1 < 0x1_00000000 && w2 < 0x1_00000000 && w3 < 0x1_00000000
    requires h0 + s0 == w0 + 0x1_00000000 * c0 && h1 + s1 + c0 == w1 + 0x1_00000000 * c1
    requires h2 + s2 + c1 == w2 + 0x1_00000000 * c2 && h3 + s3 + c2 == w3 + 0x1_00000000 * c3
    ensures Words(w0, w1, w2, w3) == (Words(h0, h1, h2, h3) + Words(s0, s1, s2, s3)) % TWO_128
  {
    DivModUnique(Words(h0, h1, h2, h3) + Words(s0, s1, s2, s3), TWO_128, c3, Words(w0, w1, w2, w3));
  }

  // ---- the whole computation ----

  /** h *= r, partially reduced modulo P */
  method Multiply(h: array<nat>, r0: nat, r1: nat, r2: nat, r3: nat, r4: nat)
    requires h.Length == 5 && Multipliable(h[..])
    requires r0 <= MAX_R && r1 <= MAX_R && r2 <= MAX_R && r3 <= MAX_R && r4 <= MAX_R
    modifies h
    ensures InRange(h[..])
    ensures ValueOf(h[..]) % P == old(ValueOf(h[..])) * Value(r0, r1, r2, r3, r4) % P
  {
    ValueOfLimbs(h[..]);
    ghost var product := ValueOf(h[..]) * Value(r0, r1, r2, r3, r4);
    ghost var m, n;
    var d0, d1, d2, d3, d4;
    d0, d1, d2, d3, d4, m := Products(h[0], h[1], h[2], h[3], h[4], r0, r1, r2, r3, r4);
    n := Carry(h, d0, d1, d2, d3, d4);
    assert product == ValueOf(h[..]) + P * (n + m);
    ModMultiple(ValueOf(h[..]), n + m);
  }

  lemma AccumulateStep(r: nat, msg: seq<Byte>, a: nat, b: seq<Byte>, acc: int, next: int)
    requires a < P && acc % P == a
    requires b == msg[..BlockLen(msg)] && msg != []
    requires next % P == (acc + BlockNumber(b)) * r % P
    ensures Accumulate(r, msg, a) == Accumulate(r, msg[BlockLen(msg)..], next % P)
  {
    var m := acc / P;
    assert acc + BlockNumber(b) == a + BlockNumber(b) + P * m;
    ModMultiple(a + BlockNumber(b), m);
    MulCongruent(acc + BlockNumber(b), a + BlockNumber(b), r, P);
  }

  /** One turn of the block loop, on the data from offset i on. */
  method Absorb(h: array<nat>, data: seq<Byte>, r0: nat, r1: nat, r2: nat, r3: nat, r4: nat, ghost r: nat)
    requires h.Length == 5 && InRange(h[..]) && data != []
    requires r0 <= MAX_R && r1 <= MAX_R && r2 <= MAX_R && r3 <= MAX_R && r4 <= MAX_R && Value(r0, r1, r2, r3, r4) == r
    modifies h
    ensures InRange(h[..])
    ensures Accumulate(r, data, old(ValueOf(h[..])) % P) == Accumulate(r, data[BlockLen(data)..], ValueOf(h[..]) % P)
  {
    ghost var acc := ValueOf(h[..]);
    ghost var block := data[..BlockLen(data)];
    if 16 > |data| {
      assert block == data;
      PaddedIsBlockNumber(data);
      AddBlock(h, PaddedBlock(data), false);
    } else {
      FullBlockNumber(data[..16]);
      AddBlock(h, data[..16], true);
    }
    assert ValueOf(h[..]) == acc + BlockNumber(block);
    Multiply(h, r0, r1, r2, r3, r4);
    AccumulateStep(r, data, acc % P, block, acc, ValueOf(h[..]));
  }

  lemma FullBlockNumber(b: seq<Byte>)
    requires |b| == 16
    ensures BlockNumber(b) == LE(b) + TWO_128
  {
    assert Pow256(4) == 0x1_00000000;
    assert Pow256(8) == 0x1_00000000_00000000;
    assert Pow256(12) == 0x1_00000000_00000000_00000000;
    assert Pow256(16) == TWO_128;
  }

  method Finish(h: array<nat>, key: seq<Byte>)
    requires h.Length == 5 && |key| == 32 && InRange(h[..])
    modifies h
    ensures forall i | 0 <= i < 4 :: h[i] < 0x1_00000000
    ensures Words(h[0], h[1], h[2], h[3]) == (old(ValueOf(h[..])) % P + LE(key[16..])) % TWO_128
  {
    ghost var acc := ValueOf(h[..]) % P;
    ghost var multiple := FullCarry(h);
    ModMultiple(ValueOf(h[..]), multiple);
    Reduce(h);
    assert ValueOf(h[..]) == acc;
    Pack(h);
    PadAfterMod(acc, LE(key[16..]));
    AddPad(h, key);
  }

  /** Absorb the data into h; on the final call leave the finished tag in the first four words of h. */
  method Compress(h: array<nat>, key: seq<Byte>, data: seq<Byte>, final: bool, ghost acc: nat)
    requires h.Length == 5 && |key| == 32 && InRange(h[..]) && ValueOf(h[..]) % P == acc
    modifies h
    ensures !final ==> InRange(h[..])
    ensures !final ==> ValueOf(h[..]) % P == Accumulate(R(key), data, acc)
    ensures final ==> forall i | 0 <= i < 4 :: h[i] < 0x1_00000000
    ensures final ==> Words(h[0], h[1], h[2], h[3]) == (Accumulate(R(key), data, acc) + LE(key[16..])) % TWO_128
  {
    var r0, r1, r2, r3, r4 := LoadKey(key);
    ghost var result := Accumulate(R(key), data, acc);
    var i := 0;
    while i < |data|
      invariant InRange(h[..])
      invariant result == Accumulate(R(key), if i <= |data| then data[i..] else [], ValueOf(h[..]) % P)
    {
      var rest := data[i..];
      Absorb(h, rest, r0, r1, r2, r3, r4, R(key));
      i := i + 16;
      assert rest[BlockLen(rest)..] == if i <= |data| then data[i..] else [];
    }
    if final {
      Finish(h, key);
    }
  }

  lemma PadAfterMod(a: nat, s: nat)
    ensures (a % TWO_128 + s) % TWO_128 == (a + s) % TWO_128
  {
    assert a + s == (a % TWO_128 + s) + TWO_128 * (a / TWO_128);
  }

  function WordBytes(w: nat): (b: seq<Byte>)
    requires w < 0x1_00000000
    ensures |b| == 4
  {
    [w % 0x100, w / 0x100 % 0x100, w / 0x10000 % 0x100, w / 0x1000000]
  }

  /** The sixteen bytes copied out of the first four words of h. */
  function TagBytes(h: seq<nat>): (t: seq<Byte>)
    requires |h| >= 4 && forall i | 0 <= i < 4 :: h[i] < 0x1_00000000
    ensures |t| == 16
  {
    WordBytes(h[0]) + WordBytes(h[1]) + WordBytes(h[2]) + WordBytes(h[3])
  }

  lemma WordOfBytes(w: nat, t: seq<Byte>, i: nat)
    requires w < 0x1_00000000 && i + 4 <= |t| && t[i..i + 4] == WordBytes(w)
    ensures Word(t, i) == w
  {
    var b := t[i..i + 4];
    assert t[i] == b[0] && t[i + 1] == b[1] && t[i + 2] == b[2] && t[i + 3] == b[3];
  }

  lemma TagBytesValue(h: seq<nat>)
    requires |h| >= 4 && forall i | 0 <= i < 4 :: h[i] < 0x1_00000000
    ensures LE(TagBytes(h)) == Words(h[0], h[1], h[2], h[3])
  {
    var t := TagBytes(h);
    WordOfBytes(h[0], t, 0);
    WordOfBytes(h[1], t, 4);
    WordOfBytes(h[2], t, 8);
    WordOfBytes(h[3], t, 12);
    LeWords(t);
  }

  /** One call over the whole message: the RFC 7539 tag. */
  method Poly1305(key: seq<Byte>, data: seq<Byte>) returns (mac: seq<Byte>)
    requires |key| == 32
    ensures |mac| == 16 && LE(mac) == Mac(key, data)
  {
    var h := ZeroLimbs();
    Compress(h, key, data, true, 0);
    mac := TagBytes(h[..]);
    TagBytesValue(h[..]);
  }

  method ZeroLimbs() returns (h: array<nat>)
    ensures fresh(h) && h.Length == 5 && InRange(h[..]) && ValueOf(h[..]) == 0
  {
    h := new nat[5];
    h[0], h[1], h[2], h[3], h[4] := 0, 0, 0, 0, 0;
    ZeroValue(h[..]);
  }

  lemma ZeroValue(h: seq<nat>)
    requires |h| == 5 && h[0] == h[1] == h[2] == h[3] == h[4] == 0
    ensures InRange(h) && ValueOf(h) == 0
  {
    ValueOfLimbs(h);
  }

  // ---- what the accumulator means ----

  lemma FirstBlock<T>(a: seq<T>, b: seq<T>)
    requires |a| >= 16
    ensures (a + b)[..16] == a[..16] && (a + b)[16..] == a[16..] + b
  {
  }

  /** Feeding one message behind the other continues from the accumulator of the first. */
  ghost predicate Continues(r: nat, all: seq<Byte>, a: seq<Byte>, b: seq<Byte>, acc: nat) {
    Accumulate(r, all, acc) == Accumulate(r, b, Accumulate(r, a, acc))
  }

  lemma ContinuesFirst(r: nat, all: seq<Byte>, rest: seq<Byte>, a: seq<Byte>, restA: seq<Byte>, b: seq<Byte>, acc: nat,
                       next: nat)
    requires |a| >= 16 && |all| >= 16 && all[..16] == a[..16] && rest == all[16..] && restA == a[16..]
    requires next == (acc + BlockNumber(a[..16])) * r % P && Continues(r, rest, restA, b, next)
    ensures Continues(r, all, a, b, acc)
  {
  }

  lemma BlockLess(n: nat)
    requires n % 16 == 0 && n > 0
    ensures n >= 16 && (n - 16) % 16 == 0
  {
  }

  lemma {:induction false} AccumulateChunks(r: nat, a: seq<Byte>, b: seq<Byte>, acc: nat)
    requires |a| % 16 == 0
    ensures Accumulate(r, a + b, acc) == Accumulate(r, b, Accumulate(r, a, acc))
    decreases |a|
  {
    if a == [] {
      assert a + b == b;
    } else {
      BlockLess(|a|);
      FirstBlock(a, b);
      var next := (acc + BlockNumber(a[..16])) * r % P;
      AccumulateChunks(r, a[16..], b, next);
      ContinuesFirst(r, a + b, a[16..] + b, a, a[16..], b, acc, next);
    }
  }

  function Blocks(msg: seq<Byte>): nat {
    (|msg| + 15) / 16
  }

  function Power(r: nat, k: nat): nat {
    if k == 0 then 1 else r * Power(r, k - 1)
  }

  /** The sum of block_i * r^(q - i) over the q blocks of the message. */
  function Polynomial(r: nat, msg: seq<Byte>): nat
    decreases |msg|
  {
    if msg == [] then 0 else
    var n := BlockLen(msg);
    BlockNumber(msg[..n]) * Power(r, Blocks(msg)) + Polynomial(r, msg[n..])
  }

  /** Horner's rule: the accumulator is the message polynomial evaluated at r, modulo P. */
  lemma {:induction false} AccumulateIsPolynomial(r: nat, msg: seq<Byte>, acc: nat)
    requires acc < P
    ensures Accumulate(r, msg, acc) == (acc * Power(r, Blocks(msg)) + Polynomial(r, msg)) % P
    decreases |msg|
  {
    if msg != [] {
      var n := BlockLen(msg);
      var b, rest := BlockNumber(msg[..n]), msg[n..];
      var q := Power(r, Blocks(rest));
      var s := (acc + b) * r;
      AccumulateIsPolynomial(r, rest, s % P);
      assert Blocks(msg) == Blocks(rest) + 1;
      HornerStep(acc, b, r, q);
      assert s % P % P == s % P;
      MulCongruent(s % P, s, q, P);
      SumCongruent(s % P * q, s * q, Polynomial(r, rest));
    }
  }

  lemma HornerStep(acc: nat, b: nat, r: nat, q: nat)
    ensures (acc + b) * r * q == acc * (r * q) + b * (r * q)
  {
    MulAssoc(acc + b, r, q);
    MulSum(acc, b, r * q);
  }

  lemma SumCongruent(a: int, b: int, c: int)
    requires a % P == b % P
    ensures (a + c) % P == (b + c) % P
  {
    var m := a / P - b / P;
    assert a + c == b + c + P * m;
    ModMultiple(b + c, m);
  }

  /** The tag as RFC 7539 defines it: ((sum of blocks * powers of r) mod P + s) mod 2^128. */
  lemma MacIsPolynomial(key: seq<Byte>, msg: seq<Byte>)
    requires |key| == 32
    ensures Mac(key, msg) == (Polynomial(R(key), msg) % P + LE(key[16..])) % TWO_128
  {
    AccumulateIsPolynomial(R(key), msg, 0);
  }
}
