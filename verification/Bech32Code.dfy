/** The code behind the checksum of Bech32 addresses (BIP 173, "Checksum"): a step of the checksum multiplies by x
    modulo the generator x^6 + {29}x^5 + {22}x^4 + {20}x^3 + {21}x^2 + {29}x + {18} over the field of 32 elements, so
    whatever differs in up to six digits in a row leaves something else. */
module Bech32Code {
  import opened Bech32Checksum

  // ---- the field of 32 elements ----

  function Term(a: Word, b: Word, i: bv5): Word {
    if (b >> i) & 1 == 1 then a << i else 0
  }

  /** Takes the term z^(5 + i) away with a multiple of z^5 + z^3 + 1. */
  function WithoutTerm(p: Word, i: bv5): Word
    requires i < 8
  {
    if (p >> (5 + i)) & 1 == 1 then p ^ (0x29 << i) else p
  }

  /** The product of two field elements. */
  function Times(a: Word, b: Word): Word {
    WithoutTerm(WithoutTerm(WithoutTerm(WithoutTerm(
      Term(a, b, 0) ^ Term(a, b, 1) ^ Term(a, b, 2) ^ Term(a, b, 3) ^ Term(a, b, 4), 3), 2), 1), 0)
  }

  /** The coefficients of the generator below x^6, from the top. */
  function Generator(j: nat): Word
    requires j < 6
  {
    [29, 22, 20, 21, 29, 18][j]
  }

  // ---- a step ----

  /** The top digit in its place. */
  function Top(c: Word): Word {
    c << 25
  }

  function Low(x: Word): Word {
    x & 0x1ffffff
  }

  lemma Parts(x: Word)
    requires x < 0x40000000
    ensures x == Xor(Low(x), Top(DigitOf(x, 0))) && DigitOf(x, 0) < 32
  {
  }

  lemma LowMovesUp(x: Word)
    ensures Polymod(Low(x)) == Shifted(x)
  {
    LowIsSmall(x);
    PolymodSmall(Low(x));
  }

  lemma LowIsSmall(x: Word)
    ensures Low(x) & 0x3e000000 == 0 && Shifted(Low(x)) == Shifted(x)
  {
  }

  lemma DigitXor(x: Word, y: Word, j: nat)
    requires j < 6
    ensures DigitOf(Xor(x, y), j) == Xor(DigitOf(x, j), DigitOf(y, j))
  {
    match j
    case 0 => assert ((x ^ y) >> 25) & 31 == ((x >> 25) & 31) ^ ((y >> 25) & 31);
    case 1 => assert ((x ^ y) >> 20) & 31 == ((x >> 20) & 31) ^ ((y >> 20) & 31);
    case 2 => assert ((x ^ y) >> 15) & 31 == ((x >> 15) & 31) ^ ((y >> 15) & 31);
    case 3 => assert ((x ^ y) >> 10) & 31 == ((x >> 10) & 31) ^ ((y >> 10) & 31);
    case 4 => assert ((x ^ y) >> 5) & 31 == ((x >> 5) & 31) ^ ((y >> 5) & 31);
    case _ => assert (x ^ y) & 31 == (x & 31) ^ (y & 31);
  }

  lemma ShiftedDigit(x: Word, j: nat)
    requires j < 6
    ensures DigitOf(Shifted(x), j) == if j < 5 then DigitOf(x, j + 1) else 0
  {
  }

  /** Alone, the top digit leaves its multiple of the generator. */
  lemma TopLeaves(c: Word, j: nat)
    requires c < 32 && j < 6
    ensures DigitOf(Polymod(Top(c)), j) == Times(c, Generator(j))
  {
  }

  /** Each digit moves up by one place; the one that leaves takes its multiple of the generator away. */
  lemma StepIsTimesX(x: Word, j: nat)
    requires x < 0x40000000 && j < 6
    ensures DigitOf(Polymod(x), j) == Xor(if j < 5 then DigitOf(x, j + 1) else 0, Times(DigitOf(x, 0), Generator(j)))
  {
    var c := DigitOf(x, 0);
    Parts(x);
    PolymodXor(Low(x), Top(c));
    LowMovesUp(x);
    DigitXor(Shifted(x), Polymod(Top(c)), j);
    ShiftedDigit(x, j);
    TopLeaves(c, j);
  }

  /** The generator ends in a digit that is not zero, so a step loses nothing. */
  lemma OnlyZeroLeavesZero(x: Word)
    requires x < 0x40000000 && Polymod(x) == 0
    ensures x == 0
  {
    StepIsTimesX(x, 5);
    ZeroDigit(5);
    NoDivisor(DigitOf(x, 0));
    Untapped(x);
    PolymodSmall(x);
    ShiftedZero(x);
  }

  lemma ZeroDigit(j: nat)
    requires j < 6
    ensures DigitOf(0, j) == 0
  {
  }

  lemma NoDivisor(c: Word)
    requires c < 32 && 0 == Xor(0, Times(c, Generator(5)))
    ensures c == 0
  {
  }

  lemma Untapped(x: Word)
    requires x < 0x40000000 && DigitOf(x, 0) == 0
    ensures x & 0x3e000000 == 0
  {
  }

  lemma ShiftedZero(x: Word)
    requires x & 0x3e000000 == 0 && x < 0x40000000 && Shifted(x) == 0
    ensures x == 0
  {
  }

  // ---- what differs is noticed ----

  ghost predicate AreDigits(values: seq<Word>) {
    forall k | 0 <= k < |values| :: values[k] < 32
  }

  lemma XorZero(x: Word, y: Word)
    requires Xor(x, y) == 0
    ensures x == y
  {
  }

  lemma XorBound(x: Word, y: Word)
    requires x < 0x40000000 && y < 0x40000000
    ensures Xor(x, y) < 0x40000000
  {
  }

  /** Different values are still different after a step. */
  lemma StepIsInjective(x: Word, y: Word)
    requires x < 0x40000000 && y < 0x40000000 && Polymod(x) == Polymod(y)
    ensures x == y
  {
    PolymodXor(x, y);
    Cancel(Polymod(x), 0);
    ZeroXor(Polymod(x));
    XorBound(x, y);
    OnlyZeroLeavesZero(Xor(x, y));
    XorZero(x, y);
  }

  lemma FedStaysDifferent(x: Word, y: Word, d: Word)
    requires x < 0x40000000 && y < 0x40000000 && x != y
    ensures Xor(Polymod(x), d) != Xor(Polymod(y), d)
  {
    if Xor(Polymod(x), d) == Xor(Polymod(y), d) {
      Comm(Polymod(x), d);
      Comm(Polymod(y), d);
      Cancel(d, Polymod(x));
      Cancel(d, Polymod(y));
      StepIsInjective(x, y);
    }
  }

  lemma {:induction false} FeedBound(x: Word, values: seq<Word>, n: nat)
    requires x < 0x40000000 && AreDigits(values) && n <= |values|
    ensures Feed(x, values, n) < 0x40000000
  {
    if n > 0 {
      PolymodBound(Feed(x, values, n - 1));
      XorBound(Polymod(Feed(x, values, n - 1)), values[n - 1]);
    }
  }

  /** If no step makes different values equal, they are different to the end. */
  lemma {:induction false} StaysDifferent<G>(f: (G, G) -> G, p: G -> G, x: G, a: seq<G>, b: seq<G>, m: nat, n: nat)
    requires m <= n <= |a| == |b| && FeedBy(f, p, x, a, m) != FeedBy(f, p, x, b, m)
    requires forall k | m <= k < n && FeedBy(f, p, x, a, k) != FeedBy(f, p, x, b, k) ::
               f(p(FeedBy(f, p, x, a, k)), a[k]) != f(p(FeedBy(f, p, x, b, k)), b[k])
    ensures FeedBy(f, p, x, a, n) != FeedBy(f, p, x, b, n)
    decreases n
  {
    if m < n {
      StaysDifferent(f, p, x, a, b, m, n - 1);
    }
  }

  lemma RestStaysDifferent(a: seq<Word>, b: seq<Word>, m: nat)
    requires m <= |a| == |b| && AreDigits(a) && AreDigits(b)
    requires (forall k | m <= k < |a| :: a[k] == b[k]) && Feed(1, a, m) != Feed(1, b, m)
    ensures Residue(a) != Residue(b)
  {
    forall k: nat | m <= k < |a| && Feed(1, a, k) != Feed(1, b, k)
      ensures Xor(Polymod(Feed(1, a, k)), a[k]) != Xor(Polymod(Feed(1, b, k)), b[k])
    {
      FeedBound(1, a, k);
      FeedBound(1, b, k);
      FedStaysDifferent(Feed(1, a, k), Feed(1, b, k), a[k]);
    }
    StaysDifferent(Xor, Polymod, 1, a, b, m, |a|);
  }

  /** Six digits as one number. */
  lemma Pack(d: Word, e: Word, f: Word, g: Word, h: Word, i: Word) returns (c: Word)
    requires d < 32 && e < 32 && f < 32 && g < 32 && h < 32 && i < 32
    ensures c < 0x40000000 && DigitOf(c, 0) == d && DigitOf(c, 1) == e && DigitOf(c, 2) == f && DigitOf(c, 3) == g
    ensures DigitOf(c, 4) == h && DigitOf(c, 5) == i
  {
    c := (d << 25) | (e << 20) | (f << 15) | (g << 10) | (h << 5) | i;
  }

  /** The six digits from n on are those of c. */
  ghost predicate Window(a: seq<Word>, n: nat, c: Word) {
    c < 0x40000000 && n + 6 <= |a| && forall j | 0 <= j < 6 :: a[n + j] == DigitOf(c, j)
  }

  lemma WindowAt(a: seq<Word>, n: nat) returns (c: Word)
    requires AreDigits(a) && n + 6 <= |a|
    ensures Window(a, n, c)
  {
    c := Pack(a[n], a[n + 1], a[n + 2], a[n + 3], a[n + 4], a[n + 5]);
  }

  lemma WindowIsEnd(a: seq<Word>, n: nat, c: Word)
    requires Window(a, n, c)
    ensures EndsWithDigits(a[..n + 6], n, c)
  {
    forall j | 0 <= j < 6 ensures a[..n + 6][n + j] == DigitOf(c, j) {
      assert a[n + j] == DigitOf(c, j);
    }
  }

  /** What the digits there add to the checksum. */
  lemma WindowAdds(a: seq<Word>, n: nat, c: Word)
    requires Window(a, n, c)
    ensures Feed(1, a, n + 6) == Xor(Zeros(Feed(1, a, n), 6), c)
  {
    WindowIsEnd(a, n, c);
    EndAdds(a[..n + 6], n, c);
    HeadFeeds(a, n + 6, n);
    HeadFeeds(a, n + 6, n + 6);
  }

  lemma EndAdds(head: seq<Word>, n: nat, c: Word)
    requires c < 0x40000000 && EndsWithDigits(head, n, c)
    ensures Feed(1, head, n + 6) == Xor(Zeros(Feed(1, head, n), 6), c)
  {
    var tops := Tops(head, n, c);
    FeedDigits(1, head, n, tops);
  }

  lemma HeadFeeds(a: seq<Word>, m: nat, n: nat)
    requires n <= m <= |a|
    ensures Feed(1, a[..m], n) == Feed(1, a, n)
  {
    FeedPrefix(Xor, Polymod, 1, a[..m], a, n);
  }

  /** The texts agree outside of the six digits from n on. */
  ghost predicate AgreeOutside(a: seq<Word>, b: seq<Word>, n: nat) {
    n + 6 <= |a| == |b| && forall k | 0 <= k < |a| && !(n <= k < n + 6) :: a[k] == b[k]
  }

  lemma SameWindow(a: seq<Word>, b: seq<Word>, n: nat, c: Word)
    requires AgreeOutside(a, b, n) && Window(a, n, c) && Window(b, n, c)
    ensures a == b
  {
    forall k | 0 <= k < |a| ensures a[k] == b[k] {
      if n <= k < n + 6 {
        assert a[n + (k - n)] == DigitOf(c, k - n) == b[n + (k - n)];
      }
    }
  }

  lemma DifferentAdded(z: Word, c: Word, d: Word)
    requires c != d
    ensures Xor(z, c) != Xor(z, d)
  {
  }

  lemma OtherWindow(a: seq<Word>, b: seq<Word>, n: nat, c: Word, d: Word)
    requires AgreeOutside(a, b, n) && Window(a, n, c) && Window(b, n, d) && c != d
    ensures Feed(1, a, n + 6) != Feed(1, b, n + 6)
  {
    FeedPrefix(Xor, Polymod, 1, a, b, n);
    WindowAdds(a, n, c);
    WindowAdds(b, n, d);
    DifferentAdded(Zeros(Feed(1, a, n), 6), c, d);
  }

  lemma OtherResidue(a: seq<Word>, b: seq<Word>, n: nat, c: Word, d: Word)
    requires AreDigits(a) && AreDigits(b)
    requires AgreeOutside(a, b, n) && Window(a, n, c) && Window(b, n, d) && c != d
    ensures Residue(a) != Residue(b)
  {
    OtherWindow(a, b, n, c, d);
    assert forall k | n + 6 <= k < |a| :: a[k] == b[k];
    RestStaysDifferent(a, b, n + 6);
  }

  lemma Different(a: seq<Word>, b: seq<Word>, n: nat, c: Word, d: Word)
    requires AgreeOutside(a, b, n) && Window(a, n, c) && Window(b, n, d) && a != b
    ensures c != d
  {
    if c == d {
      SameWindow(a, b, n, c);
    }
  }

  /** Two texts of the same length that differ, but only within six digits in a row, do not leave the same. */
  lemma BurstIsNoticed(a: seq<Word>, b: seq<Word>, n: nat)
    requires AreDigits(a) && AreDigits(b) && AgreeOutside(a, b, n) && a != b
    ensures Residue(a) != Residue(b)
  {
    var c := WindowAt(a, n);
    var d := WindowAt(b, n);
    Different(a, b, n, c, d);
    OtherResidue(a, b, n, c, d);
  }
}
