/** The checksum of Bech32 addresses (BRBech32.c; BIP 173, "Checksum"). */
module Bech32Checksum {

  type Word = bv32

  function Xor(a: Word, b: Word): Word {
    a ^ b
  }

  /** The generator constant g if the bit of the mask is set. */
  function Tap(x: Word, mask: Word, g: Word): Word {
    if x & mask == 0 then 0 else g
  }

  function Shifted(x: Word): Word {
    (x & 0x1ffffff) << 5
  }

  /** One step of the checksum, without the next digit: the generator constants of bits 25 to 29. */
  function Polymod(x: Word): Word {
    Xor(Xor(Xor(Xor(Xor(Shifted(x), Tap(x, 0x2000000, 0x3b6a57b2)), Tap(x, 0x4000000, 0x26508e6d)),
                Tap(x, 0x8000000, 0x1ea119fa)), Tap(x, 0x10000000, 0x3d4233dd)), Tap(x, 0x20000000, 0x2a1462b3))
  }

  // ---- linearity ----

  lemma Swap(p: Word, q: Word, r: Word, s: Word)
    ensures Xor(Xor(p, q), Xor(r, s)) == Xor(Xor(p, r), Xor(q, s))
  {
    Assoc(p, q, Xor(r, s));
    Assoc(q, r, s);
    Comm(q, r);
    Assoc(r, q, s);
    Assoc(p, r, Xor(q, s));
  }

  lemma Comm(a: Word, b: Word)
    ensures Xor(a, b) == Xor(b, a)
  {
  }

  lemma Assoc(a: Word, b: Word, c: Word)
    ensures Xor(Xor(a, b), c) == Xor(a, Xor(b, c))
  {
  }

  lemma Cancel(a: Word, b: Word)
    ensures Xor(a, Xor(a, b)) == b
  {
  }

  lemma ShiftedXor(x: Word, y: Word)
    ensures Shifted(Xor(x, y)) == Xor(Shifted(x), Shifted(y))
  {
  }

  ghost predicate OneBit(m: Word) {
    m == 0x2000000 || m == 0x4000000 || m == 0x8000000 || m == 0x10000000 || m == 0x20000000
  }

  lemma TapXor(x: Word, y: Word, m: Word, g: Word)
    requires OneBit(m)
    ensures Tap(Xor(x, y), m, g) == Xor(Tap(x, m, g), Tap(y, m, g))
  {
    BitXor(Xor(x, y), x, y, m);
    TapSum((x & m) != 0, (y & m) != 0, g);
  }

  /** Adding a constant once for each of two bits. */
  lemma TapSum(p: bool, q: bool, g: Word)
    ensures (if p != q then g else 0) == Xor(if p then g else 0, if q then g else 0)
  {
    if p && q {
      Cancel(g, 0);
      ZeroXor(g);
    } else if p || q {
      ZeroXor(g);
    } else {
      ZeroXor(0);
    }
  }

  lemma BitXor(z: Word, x: Word, y: Word, m: Word)
    requires OneBit(m) && z == x ^ y
    ensures (z & m == 0) == ((x & m == 0) == (y & m == 0))
  {
  }

  /** The checksum step is linear over exclusive or. */
  lemma PolymodXor(x: Word, y: Word)
    ensures Polymod(Xor(x, y)) == Xor(Polymod(x), Polymod(y))
  {
    ShiftedXor(x, y);
    TapXor(x, y, 0x2000000, 0x3b6a57b2);
    TapXor(x, y, 0x4000000, 0x26508e6d);
    TapXor(x, y, 0x8000000, 0x1ea119fa);
    TapXor(x, y, 0x10000000, 0x3d4233dd);
    TapXor(x, y, 0x20000000, 0x2a1462b3);
    Gather(Shifted(x), Shifted(y), Tap(x, 0x2000000, 0x3b6a57b2), Tap(y, 0x2000000, 0x3b6a57b2),
           Tap(x, 0x4000000, 0x26508e6d), Tap(y, 0x4000000, 0x26508e6d), Tap(x, 0x8000000, 0x1ea119fa),
           Tap(y, 0x8000000, 0x1ea119fa), Tap(x, 0x10000000, 0x3d4233dd), Tap(y, 0x10000000, 0x3d4233dd),
           Tap(x, 0x20000000, 0x2a1462b3), Tap(y, 0x20000000, 0x2a1462b3));
  }

  lemma Gather(a: Word, a1: Word, b: Word, b1: Word, c: Word, c1: Word, d: Word, d1: Word, e: Word, e1: Word, f: Word,
               f1: Word)
    ensures Xor(Xor(Xor(Xor(Xor(Xor(a, a1), Xor(b, b1)), Xor(c, c1)), Xor(d, d1)), Xor(e, e1)), Xor(f, f1)) ==
            Xor(Xor(Xor(Xor(Xor(Xor(a, b), c), d), e), f), Xor(Xor(Xor(Xor(Xor(a1, b1), c1), d1), e1), f1))
  {
    Swap(a, a1, b, b1);
    var x, y := Xor(a, b), Xor(a1, b1);
    Swap(x, y, c, c1);
    x, y := Xor(x, c), Xor(y, c1);
    Swap(x, y, d, d1);
    x, y := Xor(x, d), Xor(y, d1);
    Swap(x, y, e, e1);
    x, y := Xor(x, e), Xor(y, e1);
    Swap(x, y, f, f1);
  }

  // ---- six digits more ----

  lemma ZeroXor(x: Word)
    ensures Xor(x, 0) == x && Xor(0, x) == x
  {
  }

  /** A value of at most 25 bits only moves up. */
  lemma PolymodSmall(x: Word)
    requires x & 0x3e000000 == 0
    ensures Polymod(x) == Shifted(x)
  {
    NoTaps(x);
    ZeroXor(Shifted(x));
  }

  lemma NoTaps(x: Word)
    requires x & 0x3e000000 == 0
    ensures x & 0x2000000 == 0 && x & 0x4000000 == 0 && x & 0x8000000 == 0 && x & 0x10000000 == 0 && x & 0x20000000 == 0
  {
  }

  /** All values stay within 30 bits. */
  lemma PolymodBound(x: Word)
    ensures Polymod(x) < 0x40000000
  {
  }

  /** Feeding n digits, whatever the steps are made of. */
  function FeedBy<G>(f: (G, G) -> G, p: G -> G, x: G, digits: seq<G>, n: nat): G
    requires n <= |digits|
  {
    if n == 0 then x else f(p(FeedBy(f, p, x, digits, n - 1)), digits[n - 1])
  }

  function ZerosBy<G>(p: G -> G, x: G, n: nat): G {
    if n == 0 then x else p(ZerosBy(p, x, n - 1))
  }

  /** If every step takes one number to the next, feeding is adding the last number to the effect of zeros. */
  lemma {:induction false} FeedAdds<G(!new)>(f: (G, G) -> G, p: G -> G, x: G, digits: seq<G>, n: nat, tops: seq<G>,
                                             k: nat)
    requires n + k <= |digits| && k < |tops|
    requires forall z :: f(z, tops[0]) == z
    requires forall z, j | 0 <= j < k :: f(p(f(z, tops[j])), digits[n + j]) == f(p(z), tops[j + 1])
    ensures FeedBy(f, p, x, digits, n + k) == f(ZerosBy(p, FeedBy(f, p, x, digits, n), k), tops[k])
  {
    if k > 0 {
      FeedAdds(f, p, x, digits, n, tops, k - 1);
      assert digits[n + (k - 1)] == digits[n + k - 1];
    }
  }

  /** The checksum after the first n digits. */
  function Feed(x: Word, digits: seq<Word>, n: nat): Word
    requires n <= |digits|
  {
    FeedBy(Xor, Polymod, x, digits, n)
  }

  /** What a whole text leaves, starting from 1. */
  function Residue(values: seq<Word>): Word {
    Feed(1, values, |values|)
  }

  function Zeros(x: Word, n: nat): Word {
    ZerosBy(Polymod, x, n)
  }

  /** Only the first n digits matter. */
  lemma {:induction false} FeedPrefix<G>(f: (G, G) -> G, p: G -> G, x: G, digits: seq<G>, digits': seq<G>, n: nat)
    requires n <= |digits| && n <= |digits'| && forall k | 0 <= k < n :: digits[k] == digits'[k]
    ensures FeedBy(f, p, x, digits, n) == FeedBy(f, p, x, digits', n)
  {
    if n > 0 {
      FeedPrefix(f, p, x, digits, digits', n - 1);
    }
  }

  /** Feeding a neutral digit only moves the value on. */
  lemma {:induction false} FeedNeutral<G(!new)>(f: (G, G) -> G, p: G -> G, x: G, digits: seq<G>, n: nat, k: nat,
                                                zero: G)
    requires n + k <= |digits| && (forall z :: f(z, zero) == z) && forall i | n <= i < n + k :: digits[i] == zero
    ensures FeedBy(f, p, x, digits, n + k) == ZerosBy(p, FeedBy(f, p, x, digits, n), k)
  {
    if k > 0 {
      FeedNeutral(f, p, x, digits, n, k - 1, zero);
    }
  }

  lemma FeedNeutralBehind<G(!new)>(f: (G, G) -> G, p: G -> G, x: G, digits: seq<G>, fed: seq<G>, n: nat, k: nat,
                                   zero: G)
    requires n <= |digits| && |fed| == n + k && (forall z :: f(z, zero) == z)
    requires (forall j | 0 <= j < n :: fed[j] == digits[j]) && forall i | n <= i < n + k :: fed[i] == zero
    ensures FeedBy(f, p, x, fed, n + k) == ZerosBy(p, FeedBy(f, p, x, digits, n), k)
  {
    FeedPrefix(f, p, x, fed, digits, n);
    FeedNeutral(f, p, x, fed, n, k, zero);
  }

  /** Zeros behind the first n digits of another text. */
  lemma FeedZeros(x: Word, values: seq<Word>, fed: seq<Word>, n: nat, k: nat)
    requires n <= |values| && |fed| == n + k && (forall j | 0 <= j < n :: fed[j] == values[j])
    requires forall i | n <= i < n + k :: fed[i] == 0
    ensures Feed(x, fed, n + k) == Zeros(Feed(x, values, n), k)
  {
    forall z ensures Xor(z, 0) == z {
      ZeroXor(z);
    }
    FeedNeutralBehind(Xor, Polymod, x, values, fed, n, k, 0);
  }

  /** One step from the checksum of n values to that of n + 1. */
  ghost predicate IsNext(sums: seq<Word>, values: seq<Word>, n: nat)
    requires n < |values| && |sums| == |values| + 1
  {
    sums[n + 1] == Xor(Polymod(sums[n]), values[n])
  }

  /** All checksums on the way through values, starting from 1. */
  ghost predicate IsRun(sums: seq<Word>, values: seq<Word>) {
    |sums| == |values| + 1 && sums[0] == 1 && forall n | 0 <= n < |values| :: IsNext(sums, values, n)
  }

  lemma {:induction false} RunIsFeed(sums: seq<Word>, values: seq<Word>, n: nat)
    requires IsRun(sums, values) && n <= |values|
    ensures sums[n] == Feed(1, values, n)
  {
    if n > 0 {
      RunIsFeed(sums, values, n - 1);
      assert IsNext(sums, values, n - 1);
    }
  }

  lemma MakeRun(values: seq<Word>) returns (sums: seq<Word>)
    ensures IsRun(sums, values)
  {
    sums := seq(|values| + 1, n requires 0 <= n <= |values| => Feed(1, values, n));
    forall n: nat | n < |values| ensures IsNext(sums, values, n) {
      assert sums[n + 1] == Feed(1, values, n + 1);
    }
  }

  /** The j-th of six digits, from the top. */
  function DigitOf(c: Word, j: nat): Word {
    match j
    case 0 => (c >> 25) & 31
    case 1 => (c >> 20) & 31
    case 2 => (c >> 15) & 31
    case 3 => (c >> 10) & 31
    case 4 => (c >> 5) & 31
    case _ => c & 31
  }

  ghost predicate EndsWithDigits(digits: seq<Word>, n: nat, c: Word) {
    |digits| == n + 6 && forall j | 0 <= j < 6 :: digits[n + j] == DigitOf(c, j)
  }

  /** t of at most 25 bits with the digit d behind it is t1. */
  predicate Appends(t: Word, d: Word, t1: Word) {
    t & 0x3e000000 == 0 && t1 == Xor(Shifted(t), d)
  }

  /** The numbers the digits from n on build up to, starting from nothing. */
  ghost predicate BuildsUp(digits: seq<Word>, n: nat, tops: seq<Word>) {
    && |digits| == n + 6 && |tops| == 7 && tops[0] == 0
    && forall k | 0 <= k < 6 :: Appends(tops[k], digits[n + k], tops[k + 1])
  }

  lemma AppendsZero(c: Word)
    requires c < 0x40000000
    ensures Appends(0, ((c >> 25) & 31), c >> 25)
  {
  }

  lemma AppendsOne(c: Word)
    requires c < 0x40000000
    ensures Appends(c >> 25, ((c >> 20) & 31), c >> 20)
  {
  }

  lemma AppendsTwo(c: Word)
    requires c < 0x40000000
    ensures Appends(c >> 20, ((c >> 15) & 31), c >> 15)
  {
  }

  lemma AppendsThree(c: Word)
    requires c < 0x40000000
    ensures Appends(c >> 15, ((c >> 10) & 31), c >> 10)
  {
  }

  lemma AppendsFour(c: Word)
    requires c < 0x40000000
    ensures Appends(c >> 10, ((c >> 5) & 31), c >> 5)
  {
  }

  lemma AppendsFive(c: Word)
    requires c < 0x40000000
    ensures Appends(c >> 5, (c & 31), c)
  {
  }

  lemma Tops(digits: seq<Word>, n: nat, c: Word) returns (tops: seq<Word>)
    requires EndsWithDigits(digits, n, c) && c < 0x40000000
    ensures BuildsUp(digits, n, tops) && tops[6] == c
  {
    tops := [0, c >> 25, c >> 20, c >> 15, c >> 10, c >> 5, c];
    forall k | 0 <= k < 6 ensures Appends(tops[k], digits[n + k], tops[k + 1]) {
      assert digits[n + k] == DigitOf(c, k);
      match k
      case 0 => AppendsZero(c);
      case 1 => AppendsOne(c);
      case 2 => AppendsTwo(c);
      case 3 => AppendsThree(c);
      case 4 => AppendsFour(c);
      case _ => AppendsFive(c);
    }
  }

  ghost predicate StepsUp(digits: seq<Word>, n: nat, tops: seq<Word>)
    requires n + 6 <= |digits| && |tops| == 7
  {
    forall z, j | 0 <= j < 6 :: Xor(Polymod(Xor(z, tops[j])), digits[n + j]) == Xor(Polymod(z), tops[j + 1])
  }

  lemma BuildingIsStepping(digits: seq<Word>, n: nat, tops: seq<Word>)
    requires BuildsUp(digits, n, tops)
    ensures StepsUp(digits, n, tops)
  {
    forall z, j | 0 <= j < 6 ensures Xor(Polymod(Xor(z, tops[j])), digits[n + j]) == Xor(Polymod(z), tops[j + 1]) {
      FeedStep(z, tops[j], digits[n + j], tops[j + 1]);
    }
  }

  /** Feeding digits is adding what they build up to the effect of as many zeros. */
  lemma FeedDigits(x: Word, digits: seq<Word>, n: nat, tops: seq<Word>)
    requires BuildsUp(digits, n, tops)
    ensures Feed(x, digits, n + 6) == Xor(Zeros(Feed(x, digits, n), 6), tops[6])
  {
    forall z ensures Xor(z, tops[0]) == z {
      ZeroXor(z);
    }
    BuildingIsStepping(digits, n, tops);
    FeedAdds(Xor, Polymod, x, digits, n, tops, 6);
  }

  lemma FeedStep(z: Word, t: Word, d: Word, t1: Word)
    requires Appends(t, d, t1)
    ensures Xor(Polymod(Xor(z, t)), d) == Xor(Polymod(z), t1)
  {
    PolymodXor(z, t);
    PolymodSmall(t);
    Assoc(Polymod(z), Shifted(t), d);
  }

  /** The six digits of the checksum, with 1 added, leave 1. */
  lemma ResidueIsOne(x: Word, digits: seq<Word>, n: nat)
    requires n <= |digits| && EndsWithDigits(digits, n, Xor(Zeros(Feed(x, digits, n), 6), 1))
    ensures Feed(x, digits, n + 6) == 1
  {
    var z := Zeros(Feed(x, digits, n), 6);
    ZerosBound(Feed(x, digits, n), 6);
    OneBound(z);
    var tops := Tops(digits, n, Xor(z, 1));
    FeedDigits(x, digits, n, tops);
    Cancel(z, 1);
  }

  /** The residue over zeros in place of the checksum, with 1 added, makes the whole text leave 1. */
  lemma ResidueBy(values: seq<Word>, n: nat, z: Word, c: Word)
    requires n <= |values| && EndsWithDigits(values, n, c)
    requires z == Zeros(Feed(1, values, n), 6) && c == Xor(z, 1)
    ensures Residue(values) == 1
  {
    ResidueIsOne(1, values, n);
  }

  lemma ResidueOfZeros(values: seq<Word>, fed: seq<Word>, n: nat)
    requires n <= |values| && |fed| == n + 6 && (forall k | 0 <= k < n :: fed[k] == values[k])
    requires forall i | n <= i < n + 6 :: fed[i] == 0
    ensures Residue(fed) == Zeros(Feed(1, values, n), 6)
  {
    FeedZeros(1, values, fed, n, 6);
  }

  lemma ZerosBound(x: Word, n: nat)
    requires n > 0
    ensures Zeros(x, n) < 0x40000000
  {
    PolymodBound(Zeros(x, n - 1));
  }

  lemma OneBound(z: Word)
    requires z < 0x40000000
    ensures Xor(z, 1) < 0x40000000
  {
  }

  /** Only those six digits do. */
  lemma ResidueOnlyThen(x: Word, digits: seq<Word>, n: nat, c: Word)
    requires EndsWithDigits(digits, n, c) && c < 0x40000000 && Feed(x, digits, n + 6) == 1
    ensures c == Xor(Zeros(Feed(x, digits, n), 6), 1)
  {
    var tops := Tops(digits, n, c);
    FeedDigits(x, digits, n, tops);
    Cancel(Zeros(Feed(x, digits, n), 6), c);
  }
}
