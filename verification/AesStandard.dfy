/** AES-256 as FIPS 197 describes it: words of the key schedule (section 5.2), the state by rows and columns (section
    5.1) and the substitution by inverses in the field of 256 elements (sections 4.2 and 5.1.1). The cipher of
    BRBIP38Key.c is shown to be that one. */
module AesStandard {
  import opened AesTables
  import opened AesField
  import opened Aes

  // ---- the field ----

  /** The product of two polynomials over the bits, without carries; bit i is the coefficient of x^i. */
  function Carryless(a: bv16, b: bv16): bv16 {
    Term(a, b, 0) ^ Term(a, b, 1) ^ Term(a, b, 2) ^ Term(a, b, 3) ^
    Term(a, b, 4) ^ Term(a, b, 5) ^ Term(a, b, 6) ^ Term(a, b, 7)
  }

  function Term(a: bv16, b: bv16, i: bv4): bv16 {
    if (b >> i) & 1 == 1 then a << i else 0
  }

  /** Takes the term x^(8 + i) away with a multiple of x^8 + x^4 + x^3 + x + 1. */
  function WithoutTerm(p: bv16, i: bv4): bv16
    requires i < 8
  {
    if (p >> (8 + i)) & 1 == 1 then p ^ (0x11b << i) else p
  }

  function Remainder(p: bv16): bv16 {
    WithoutTerm(WithoutTerm(WithoutTerm(WithoutTerm(WithoutTerm(WithoutTerm(WithoutTerm(p, 6), 5), 4), 3), 2), 1), 0)
  }

  /** The product of two field elements. */
  function Times(a: bv8, b: bv8): bv8 {
    (Remainder(Carryless(a as bv16, b as bv16)) & 0xff) as bv8
  }

  predicate IsInverse(x: bv8, y: bv8) {
    if x == 0 then y == 0 else Times(x, y) == 1
  }

  function RotateLeft(y: bv8, n: bv4): bv8
    requires n <= 8
  {
    (y << n) | (y >> (8 - n))
  }

  /** The affine transformation of section 5.1.1, bit i the sum of bits i, i + 4, ..., i + 7 and a constant. */
  function Affine(y: bv8): bv8 {
    y ^ RotateLeft(y, 1) ^ RotateLeft(y, 2) ^ RotateLeft(y, 3) ^ RotateLeft(y, 4) ^ 0x63
  }

  /** Every entry of the table is the affine image of an inverse. */
  lemma SboxIsAffine(x: bv8) returns (y: bv8)
    ensures IsInverse(x, y) && Sbox(x) == Affine(y)
  {
    y := Unaffine(Sbox(x));
    if x < 0x80 {
      TableInvertsLow(x);
    } else if x < 0xc0 {
      TableInvertsMiddle(x);
    } else {
      TableInvertsHigh(x);
    }
    AffineBack(Sbox(x));
  }

  lemma TableInvertsLow(x: bv8)
    requires x < 0x80
    ensures IsInverse(x, Unaffine(Sbox(x)))
  {
  }

  lemma TableInvertsMiddle(x: bv8)
    requires 0x80 <= x < 0xc0
    ensures IsInverse(x, Unaffine(Sbox(x)))
  {
  }

  lemma TableInvertsHigh(x: bv8)
    requires x >= 0xc0
    ensures IsInverse(x, Unaffine(Sbox(x)))
  {
  }

  lemma AffineBack(z: bv8)
    ensures Affine(Unaffine(z)) == z
  {
  }

  function Unaffine(z: bv8): bv8 {
    RotateLeft(z, 1) ^ RotateLeft(z, 3) ^ RotateLeft(z, 6) ^ 5
  }

  lemma TimesTwo(x: bv8)
    ensures Times(2, x) == Twice(x)
  {
  }

  lemma TimesThree(x: bv8)
    ensures Times(3, x) == Xor(Twice(x), x)
  {
  }

  // ---- the key schedule in words ----

  function Add(v: Column, w: Column): Column {
    Column(Xor(v.a, w.a), Xor(v.b, w.b), Xor(v.c, w.c), Xor(v.d, w.d))
  }

  function RotWord(w: Column): Column {
    Column(w.b, w.c, w.d, w.a)
  }

  function SubWord(s: Table, w: Column): Column {
    Column(s(w.a), s(w.b), s(w.c), s(w.d))
  }

  /** The round constants of a schedule for eight words. */
  function Rcon(j: nat): Column
    requires 1 <= j <= 7
  {
    Column([0x01, 0x02, 0x04, 0x08, 0x10, 0x20, 0x40][j - 1], 0, 0, 0)
  }

  /** Word i of the schedule. */
  function Word(s: Table, key: seq<bv8>, i: nat): Column
    requires |key| == 32 && i < 64
  {
    if i < 8 then ColumnAt(key, 4 * i) else
    var before := Word(s, key, i - 1);
    Add(Word(s, key, i - 8),
        if i % 8 == 0 then Add(SubWord(s, RotWord(before)), Rcon(i / 8))
        else if i % 8 == 4 then SubWord(s, before)
        else before)
  }

  lemma ConstantIs(m: nat)
    requires m < 7
    ensures Rcon(m + 1) == Column(Constant(m), 0, 0, 0)
  {
    assert Constant(0) == 1 && Constant(1) == 2 && Constant(2) == 4 && Constant(3) == 8;
    assert Constant(4) == 16 && Constant(5) == 32 && Constant(6) == 64;
  }

  /** What word j of a group of eight adds to the word eight places before it. */
  function Addend(s: Table, r: bv8, j: nat, before: Column): Column {
    if j == 0 then Add(SubWord(s, RotWord(before)), Column(r, 0, 0, 0))
    else if j == 4 then SubWord(s, before)
    else before
  }

  lemma NextWord(s: Table, r: bv8, k: seq<bv8>, j: nat)
    requires |k| == 32 && j < 8
    ensures var n := NextKey(s, r, k);
      ColumnAt(n, 4 * j) ==
      Add(ColumnAt(k, 4 * j), Addend(s, r, j, if j == 0 then ColumnAt(k, 28) else ColumnAt(n, 4 * (j - 1))))
  {
  }

  lemma WordStep(s: Table, key: seq<bv8>, m: nat, j: nat)
    requires |key| == 32 && 1 <= m <= 7 && j < 8
    ensures Word(s, key, 8 * m + j) ==
            Add(Word(s, key, 8 * (m - 1) + j), Addend(s, Constant(m - 1), j, Word(s, key, 8 * m + j - 1)))
  {
    ConstantIs(m - 1);
  }

  ghost predicate HoldsWord(s: Table, key: seq<bv8>, m: nat, j: nat)
    requires |key| == 32 && m <= 7 && j < 8
  {
    Same(ColumnAt(KeyAt(s, key, m), 4 * j), Word(s, key, 8 * m + j))
  }

  lemma NextHolds(s: Table, key: seq<bv8>, m: nat, j: nat)
    requires |key| == 32 && 1 <= m <= 7 && j < 8 && HoldsWord(s, key, m - 1, j)
    requires if j == 0 then HoldsWord(s, key, m - 1, 7) else HoldsWord(s, key, m, j - 1)
    ensures HoldsWord(s, key, m, j)
  {
    NextWord(s, Constant(m - 1), KeyAt(s, key, m - 1), j);
    WordStep(s, key, m, j);
  }

  lemma FirstHolds(s: Table, key: seq<bv8>, j: nat)
    requires |key| == 32 && j < 8
    ensures HoldsWord(s, key, 0, j)
  {
  }

  lemma {:induction false} EachHolds(s: Table, key: seq<bv8>, m: nat, j: nat)
    requires |key| == 32 && m <= 7 && j < 8
    ensures HoldsWord(s, key, m, j)
    decreases m, j
  {
    if m == 0 {
      FirstHolds(s, key, j);
    } else {
      EachHolds(s, key, m - 1, j);
      if j == 0 {
        EachHolds(s, key, m - 1, 7);
      } else {
        EachHolds(s, key, m, j - 1);
      }
      NextHolds(s, key, m, j);
    }
  }

  /** The key after m steps is the words 8m to 8m + 7 of the schedule. */
  lemma KeyIsWords(s: Table, key: seq<bv8>, m: nat, j: nat)
    requires |key| == 32 && m <= 7 && j < 8
    ensures ColumnAt(KeyAt(s, key, m), 4 * j) == Word(s, key, 8 * m + j)
  {
    EachHolds(s, key, m, j);
    assert HoldsWord(s, key, m, j);
  }

  // ---- the cipher ----

  /** The byte in row r and column c of a state. */
  function At(b: seq<bv8>, r: nat, c: nat): bv8
    requires |b| == 16 && r < 4 && c < 4
  {
    b[r + 4 * c]
  }

  lemma RowAndColumn(r: nat, c: nat)
    requires r < 4 && c < 4
    ensures r + 4 * c < 16 && (r + 4 * c) % 4 == r && (r + 4 * c) / 4 == c
  {
  }

  lemma RowBack(r: nat, c: nat)
    requires r < 4 && c < 4
    ensures ((c + r) % 4 + 4 - r) % 4 == c
  {
  }

  /** Row r is rotated to the left by r columns. */
  lemma ShiftRowsRotates(b: seq<bv8>, r: nat, c: nat)
    requires |b| == 16 && r < 4 && c < 4
    ensures At(ShiftRows(b), r, c) == At(b, r, (c + r) % 4)
  {
    RowAndColumn(r, c);
  }

  /** And back to the right. */
  lemma UnshiftRowsRotates(b: seq<bv8>, r: nat, c: nat)
    requires |b| == 16 && r < 4 && c < 4
    ensures At(UnshiftRows(b), r, (c + r) % 4) == At(b, r, c)
  {
    var i := r + 4 * ((c + r) % 4);
    RowAndColumn(r, (c + r) % 4);
    RowBack(r, c);
    assert i % 4 + 4 * ((i / 4 + 4 - i % 4) % 4) == r + 4 * c;
  }

  /** Every byte of a mixed column is its product with {02}, {03}, {01}, {01}, starting in its own row. */
  lemma MixColumnsMultiplies(b: seq<bv8>, r: nat, c: nat)
    requires |b| == 16 && r < 4 && c < 4
    ensures At(MixColumns(b), r, c) == RowProduct(ColumnAt(b, 4 * c), r)
  {
    RowAndColumn(r, c);
    MixedIs(ColumnAt(b, 4 * c), r);
  }

  function RowProduct(v: Column, r: nat): bv8
    requires r < 4
  {
    Product(Pick(v, r), Pick(v, (r + 1) % 4), Pick(v, (r + 2) % 4), Pick(v, (r + 3) % 4))
  }

  function Product(a: bv8, b: bv8, c: bv8, d: bv8): bv8 {
    Xor(Xor(Xor(Times(2, a), Times(3, b)), c), d)
  }

  /** Rotating a column rotates the mixed column. */
  lemma MixingTurns(v: Column)
    ensures MixColumn(RotWord(v)) == RotWord(MixColumn(v))
  {
    Rotate(v.a, v.b, v.c, v.d);
  }

  lemma PickTurns(v: Column, k: nat)
    requires k < 8
    ensures Pick(RotWord(v), k % 4) == Pick(v, (k + 1) % 4)
  {
  }

  lemma ProductTurns(v: Column, r: nat)
    requires r < 3
    ensures RowProduct(RotWord(v), r) == RowProduct(v, r + 1)
  {
    PickTurns(v, r);
    PickTurns(v, r + 1);
    PickTurns(v, r + 2);
    PickTurns(v, r + 3);
    assert r % 4 == r && (r + 1) % 4 == r + 1;
  }

  lemma {:induction false} MixedIs(v: Column, r: nat)
    requires r < 4
    ensures Pick(MixColumn(v), r) == RowProduct(v, r)
    decreases r
  {
    if r == 0 {
      ProductAt(v.a, v.b, v.c, v.d);
    } else {
      MixedIs(RotWord(v), r - 1);
      MixingTurns(v);
      ProductTurns(v, r - 1);
    }
  }

  lemma ProductAt(a: bv8, b: bv8, c: bv8, d: bv8)
    ensures Blend(Sum(a, b, c, d), a, b) == Product(a, b, c, d)
  {
    BlendIsProduct(a, b, c, d);
    TimesTwo(a);
    TimesThree(b);
  }

  /** The words 4i to 4i + 3 of the schedule are added to the four columns. */
  function AddRoundKey(s: Table, key: seq<bv8>, b: seq<bv8>, i: nat): (r: seq<bv8>)
    requires |key| == 32 && |b| == 16 && i <= 14
    ensures |r| == 16
  {
    seq(16, j requires 0 <= j < 16 => Xor(b[j], Pick(Word(s, key, 4 * i + j / 4), j % 4)))
  }

  /** The state after round i. */
  function State(s: Table, key: seq<bv8>, b: seq<bv8>, i: nat): (r: seq<bv8>)
    requires |key| == 32 && |b| == 16 && i <= 14
    ensures |r| == 16
  {
    if i == 0 then AddRoundKey(s, key, b, 0) else
    var x := ShiftRows(Substitute(s, State(s, key, b, i - 1)));
    AddRoundKey(s, key, if i < 14 then MixColumns(x) else x, i)
  }

  /** Half h of the key of step m is the words from 4i on, where i is 2m + h. */
  lemma HalfKeyByte(s: Table, key: seq<bv8>, m: nat, h: nat, j: nat)
    requires |key| == 32 && m <= 7 && h < 2 && j < 16
    ensures KeyAt(s, key, m)[h * 16 + j] == Pick(Word(s, key, 8 * m + (4 * h + j / 4)), j % 4)
  {
    KeyIsWords(s, key, m, 4 * h + j / 4);
    assert h * 16 + j == 4 * (4 * h + j / 4) + j % 4;
  }

  lemma RoundKeyIs(s: Table, key: seq<bv8>, b: seq<bv8>, i: nat, m: nat, h: nat)
    requires |key| == 32 && |b| == 16 && i == 2 * m + h && m <= 7 && h < 2 && i <= 14
    ensures AddKey(b, KeyAt(s, key, m), h * 16) == AddRoundKey(s, key, b, i)
  {
    forall j: nat | j < 16 ensures AddKey(b, KeyAt(s, key, m), h * 16)[j] == AddRoundKey(s, key, b, i)[j] {
      HalfKeyByte(s, key, m, h, j);
    }
  }

  /** With the next key added, the state between the rounds of BRBIP38Key.c is that of the standard. */
  lemma {:induction false} RoundsAreStandard(s: Table, key: seq<bv8>, b: seq<bv8>, i: nat)
    requires |key| == 32 && |b| == 16 && i <= 14
    ensures Same(AddKey(Rounds(s, key, b, i), KeyAt(s, key, i / 2), i % 2 * 16), State(s, key, b, i))
  {
    RoundKeyIs(s, key, Rounds(s, key, b, i), i, i / 2, i % 2);
    if i > 0 {
      RoundsAreStandard(s, key, b, i - 1);
    }
  }

  function Cipher(s: Table, key: seq<bv8>, b: seq<bv8>): seq<bv8>
    requires |key| == 32 && |b| == 16
  {
    State(s, key, b, 14)
  }

  lemma LastRound(s: Table, key: seq<bv8>, b: seq<bv8>, n: nat)
    requires |key| == 32 && |b| == 16 && n == 14
    ensures Same(Encrypted(s, key, b), Cipher(s, key, b))
  {
    RoundsAreStandard(s, key, b, n);
  }

  /** The cipher is the standard's, for every key and block. */
  lemma EncryptedIsStandard(s: Table, key: seq<bv8>, b: seq<bv8>)
    requires |key| == 32 && |b| == 16
    ensures Encrypted(s, key, b) == Cipher(s, key, b)
  {
    LastRound(s, key, b, 14);
    assert Same(Encrypted(s, key, b), Cipher(s, key, b));
  }
}
