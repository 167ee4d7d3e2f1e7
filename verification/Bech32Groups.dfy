/** Regrouping bytes into digits of five bits and back (BRBech32.c). */
module Bech32Groups {

  /** Byte k, zero behind the end. */
  function ByteAt(data: seq<bv8>, k: nat): bv8 {
    if k < |data| then data[k] else 0
  }

  /** Digit r of eight that stand for five bytes. */
  function GroupDigit(r: nat, b0: bv8, b1: bv8, b2: bv8, b3: bv8, b4: bv8): bv8 {
    match r
    case 0 => b0 >> 3
    case 1 => ((b0 << 2) | (b1 >> 6)) & 31
    case 2 => (b1 >> 1) & 31
    case 3 => ((b1 << 4) | (b2 >> 4)) & 31
    case 4 => ((b2 << 1) | (b3 >> 7)) & 31
    case 5 => (b3 >> 2) & 31
    case 6 => ((b3 << 3) | (b4 >> 5)) & 31
    case _ => b4 & 31
  }

  /** The j-th digit: five bits from bit 5j on. */
  function Digit(data: seq<bv8>, j: nat): bv8 {
    var k := j / 8 * 5;
    GroupDigit(j % 8, ByteAt(data, k), ByteAt(data, k + 1), ByteAt(data, k + 2), ByteAt(data, k + 3),
               ByteAt(data, k + 4))
  }

  /** As many digits as cover all bits. */
  function DigitCount(len: nat): nat {
    (8 * len + 4) / 5
  }

  function Digits(data: seq<bv8>): (r: seq<bv8>)
    ensures |r| == DigitCount(|data|)
  {
    seq(DigitCount(|data|), j requires 0 <= j => Digit(data, j))
  }

  /** Digit k of the first n, zero behind them. */
  function DigitAt(digits: seq<bv8>, n: nat, k: nat): bv8
    requires n <= |digits|
  {
    if k < n then digits[k] else 0
  }

  /** One of five. */
  function Pick<G>(q: nat, a: G, b: G, c: G, d: G, e: G): G {
    if q == 0 then a else if q == 1 then b else if q == 2 then c else if q == 3 then d else e
  }

  function FirstByte(d0: bv8, d1: bv8): bv8 {
    (d0 << 3) | (d1 >> 2)
  }

  function SecondByte(d1: bv8, d2: bv8, d3: bv8): bv8 {
    (d1 << 6) | (d2 << 1) | (d3 >> 4)
  }

  function ThirdByte(d3: bv8, d4: bv8): bv8 {
    (d3 << 4) | (d4 >> 1)
  }

  function FourthByte(d4: bv8, d5: bv8, d6: bv8): bv8 {
    (d4 << 7) | (d5 << 2) | (d6 >> 3)
  }

  function FifthByte(d6: bv8, d7: bv8): bv8 {
    (d6 << 5) | d7
  }

  /** Byte q of five that eight digits stand for. */
  function GroupByte(q: nat, d0: bv8, d1: bv8, d2: bv8, d3: bv8, d4: bv8, d5: bv8, d6: bv8, d7: bv8): bv8 {
    Pick(q, FirstByte(d0, d1), SecondByte(d1, d2, d3), ThirdByte(d3, d4), FourthByte(d4, d5, d6), FifthByte(d6, d7))
  }

  /** Byte i of what the first n digits stand for. */
  function Byte(digits: seq<bv8>, n: nat, i: nat): bv8
    requires n <= |digits|
  {
    var k := i / 5 * 8;
    GroupByte(i % 5, DigitAt(digits, n, k), DigitAt(digits, n, k + 1), DigitAt(digits, n, k + 2),
              DigitAt(digits, n, k + 3), DigitAt(digits, n, k + 4), DigitAt(digits, n, k + 5),
              DigitAt(digits, n, k + 6), DigitAt(digits, n, k + 7))
  }

  // ---- regrouping there and back ----

  lemma FirstRestored(d0: bv8, d1: bv8, b0: bv8, b1: bv8, b2: bv8, b3: bv8, b4: bv8)
    requires d0 == GroupDigit(0, b0, b1, b2, b3, b4) && d1 == GroupDigit(1, b0, b1, b2, b3, b4)
    ensures FirstByte(d0, d1) == b0
  {
  }

  lemma SecondRestored(d1: bv8, d2: bv8, d3: bv8, b0: bv8, b1: bv8, b2: bv8, b3: bv8, b4: bv8)
    requires d1 == GroupDigit(1, b0, b1, b2, b3, b4) && d2 == GroupDigit(2, b0, b1, b2, b3, b4) &&
        d3 == GroupDigit(3, b0, b1, b2, b3, b4)
    ensures SecondByte(d1, d2, d3) == b1
  {
  }

  lemma ThirdRestored(d3: bv8, d4: bv8, b0: bv8, b1: bv8, b2: bv8, b3: bv8, b4: bv8)
    requires d3 == GroupDigit(3, b0, b1, b2, b3, b4) && d4 == GroupDigit(4, b0, b1, b2, b3, b4)
    ensures ThirdByte(d3, d4) == b2
  {
  }

  lemma FourthRestored(d4: bv8, d5: bv8, d6: bv8, b0: bv8, b1: bv8, b2: bv8, b3: bv8, b4: bv8)
    requires d4 == GroupDigit(4, b0, b1, b2, b3, b4) && d5 == GroupDigit(5, b0, b1, b2, b3, b4) &&
        d6 == GroupDigit(6, b0, b1, b2, b3, b4)
    ensures FourthByte(d4, d5, d6) == b3
  {
  }

  lemma FifthRestored(d6: bv8, d7: bv8, b0: bv8, b1: bv8, b2: bv8, b3: bv8, b4: bv8)
    requires d6 == GroupDigit(6, b0, b1, b2, b3, b4) && d7 == GroupDigit(7, b0, b1, b2, b3, b4)
    ensures FifthByte(d6, d7) == b4
  {
  }

  /** A digit behind the last one is zero. */
  lemma DigitBeyond(data: seq<bv8>, j: nat)
    requires j >= DigitCount(|data|)
    ensures Digit(data, j) == 0
  {
  }

  lemma DigitsAre(data: seq<bv8>, k: nat)
    ensures DigitAt(Digits(data), DigitCount(|data|), k) == Digit(data, k)
  {
    if k >= DigitCount(|data|) {
      DigitBeyond(data, k);
    }
  }

  /** The digits of a group. */
  lemma GroupOf(data: seq<bv8>, g: nat, r: nat)
    requires r < 8
    ensures Digit(data, 8 * g + r) == GroupDigit(r, ByteAt(data, 5 * g), ByteAt(data, 5 * g + 1),
                                                 ByteAt(data, 5 * g + 2), ByteAt(data, 5 * g + 3),
                                                     ByteAt(data, 5 * g + 4))
  {
  }

  lemma DigitInGroup(data: seq<bv8>, g: nat, r: nat)
    requires r < 8
    ensures DigitAt(Digits(data), DigitCount(|data|), 8 * g + r) ==
      GroupDigit(r, ByteAt(data, 5 * g), ByteAt(data, 5 * g + 1), ByteAt(data, 5 * g + 2), ByteAt(data, 5 * g + 3),
                 ByteAt(data, 5 * g + 4))
  {
    DigitsAre(data, 8 * g + r);
    GroupOf(data, g, r);
  }

  lemma ByteInGroup(digits: seq<bv8>, n: nat, g: nat, r: nat)
    requires n <= |digits| && r < 5
    ensures Byte(digits, n, 5 * g + r) ==
      GroupByte(r, DigitAt(digits, n, 8 * g), DigitAt(digits, n, 8 * g + 1), DigitAt(digits, n, 8 * g + 2),
                DigitAt(digits, n, 8 * g + 3), DigitAt(digits, n, 8 * g + 4), DigitAt(digits, n, 8 * g + 5),
                DigitAt(digits, n, 8 * g + 6), DigitAt(digits, n, 8 * g + 7))
  {
  }

  lemma PickByte(data: seq<bv8>, g: nat, r: nat)
    requires r < 5 && 5 * g + r < |data|
    ensures Pick(r, ByteAt(data, 5 * g), ByteAt(data, 5 * g + 1), ByteAt(data, 5 * g + 2), ByteAt(data, 5 * g + 3),
                 ByteAt(data, 5 * g + 4)) == data[5 * g + r]
  {
  }

  lemma FirstIsRestored(data: seq<bv8>, g: nat, ds: seq<bv8>, n: nat)
    requires ds == Digits(data) && n == DigitCount(|data|)
    ensures FirstByte(DigitAt(ds, n, 8 * g), DigitAt(ds, n, 8 * g + 1)) == ByteAt(data, 5 * g)
  {
    DigitInGroup(data, g, 0);
    DigitInGroup(data, g, 1);
    FirstRestored(DigitAt(ds, n, 8 * g), DigitAt(ds, n, 8 * g + 1), ByteAt(data, 5 * g), ByteAt(data, 5 * g + 1),
                  ByteAt(data, 5 * g + 2), ByteAt(data, 5 * g + 3), ByteAt(data, 5 * g + 4));
  }

  lemma SecondIsRestored(data: seq<bv8>, g: nat, ds: seq<bv8>, n: nat)
    requires ds == Digits(data) && n == DigitCount(|data|)
    ensures SecondByte(DigitAt(ds, n, 8 * g + 1), DigitAt(ds, n, 8 * g + 2), DigitAt(ds, n, 8 * g + 3)) ==
            ByteAt(data, 5 * g + 1)
  {
    DigitInGroup(data, g, 1);
    DigitInGroup(data, g, 2);
    DigitInGroup(data, g, 3);
    SecondRestored(DigitAt(ds, n, 8 * g + 1), DigitAt(ds, n, 8 * g + 2), DigitAt(ds, n, 8 * g + 3),
                   ByteAt(data, 5 * g), ByteAt(data, 5 * g + 1),
                   ByteAt(data, 5 * g + 2), ByteAt(data, 5 * g + 3), ByteAt(data, 5 * g + 4));
  }

  lemma ThirdIsRestored(data: seq<bv8>, g: nat, ds: seq<bv8>, n: nat)
    requires ds == Digits(data) && n == DigitCount(|data|)
    ensures ThirdByte(DigitAt(ds, n, 8 * g + 3), DigitAt(ds, n, 8 * g + 4)) == ByteAt(data, 5 * g + 2)
  {
    DigitInGroup(data, g, 3);
    DigitInGroup(data, g, 4);
    ThirdRestored(DigitAt(ds, n, 8 * g + 3), DigitAt(ds, n, 8 * g + 4), ByteAt(data, 5 * g), ByteAt(data, 5 * g + 1),
                  ByteAt(data, 5 * g + 2), ByteAt(data, 5 * g + 3), ByteAt(data, 5 * g + 4));
  }

  lemma FourthIsRestored(data: seq<bv8>, g: nat, ds: seq<bv8>, n: nat)
    requires ds == Digits(data) && n == DigitCount(|data|)
    ensures FourthByte(DigitAt(ds, n, 8 * g + 4), DigitAt(ds, n, 8 * g + 5), DigitAt(ds, n, 8 * g + 6)) ==
            ByteAt(data, 5 * g + 3)
  {
    DigitInGroup(data, g, 4);
    DigitInGroup(data, g, 5);
    DigitInGroup(data, g, 6);
    FourthRestored(DigitAt(ds, n, 8 * g + 4), DigitAt(ds, n, 8 * g + 5), DigitAt(ds, n, 8 * g + 6),
                   ByteAt(data, 5 * g), ByteAt(data, 5 * g + 1),
                   ByteAt(data, 5 * g + 2), ByteAt(data, 5 * g + 3), ByteAt(data, 5 * g + 4));
  }

  lemma FifthIsRestored(data: seq<bv8>, g: nat, ds: seq<bv8>, n: nat)
    requires ds == Digits(data) && n == DigitCount(|data|)
    ensures FifthByte(DigitAt(ds, n, 8 * g + 6), DigitAt(ds, n, 8 * g + 7)) == ByteAt(data, 5 * g + 4)
  {
    DigitInGroup(data, g, 6);
    DigitInGroup(data, g, 7);
    FifthRestored(DigitAt(ds, n, 8 * g + 6), DigitAt(ds, n, 8 * g + 7), ByteAt(data, 5 * g), ByteAt(data, 5 * g + 1),
                  ByteAt(data, 5 * g + 2), ByteAt(data, 5 * g + 3), ByteAt(data, 5 * g + 4));
  }

  /** Regrouping to digits and back restores every byte. */
  lemma BytesRestored(data: seq<bv8>, g: nat, r: nat)
    requires r < 5 && 5 * g + r < |data|
    ensures Byte(Digits(data), DigitCount(|data|), 5 * g + r) == data[5 * g + r]
  {
    var ds, n := Digits(data), DigitCount(|data|);
    PickByte(data, g, r);
    ByteInGroup(ds, n, g, r);
    FirstIsRestored(data, g, ds, n);
    SecondIsRestored(data, g, ds, n);
    ThirdIsRestored(data, g, ds, n);
    FourthIsRestored(data, g, ds, n);
    FifthIsRestored(data, g, ds, n);
  }

  lemma CountRestored(len: nat)
    ensures DigitCount(len) * 5 / 8 == len
  {
  }

  // ---- encoding, byte by byte ----

  /** v shifted right by x bits, v >> x, for each x. */
  function Right(v: bv8, x: nat): bv8 {
    if x == 0 then v else if x == 1 then v >> 1 else if x == 2 then v >> 2 else if x == 3 then v >> 3
    else if x == 4 then v >> 4 else if x == 5 then v >> 5 else if x == 6 then v >> 6 else v >> 7
  }

  /** v shifted left by x bits, v << x, for each x. */
  function Left(v: bv8, x: nat): bv8 {
    if x == 0 then v else if x == 1 then v << 1 else if x == 2 then v << 2 else if x == 3 then v << 3
    else if x == 4 then v << 4 else if x == 5 then v << 5 else if x == 6 then v << 6 else v << 7
  }

  /** How many bits of the previous byte are left over before byte j. */
  function LeftOver(j: nat): nat {
    j % 5 * 8 - j % 5 * 8 / 5 * 5
  }

  function FirstDigit(a: bv8, b: bv8, x: nat): bv8
    requires x < 5
  {
    (Left(a, 5 - x) | Right(b, 3 + x)) & 31
  }

  function SecondDigit(b: bv8, x: nat): bv8
    requires 2 <= x < 5
  {
    Right(b, x - 2) & 31
  }

  /** Where byte r of group g stands among the bits. */
  lemma GroupPlaces(g: nat, r: nat)
    requires r < 5
    ensures var j := 5 * g + r;
      && LeftOver(j) == (match r case 0 => 0 case 1 => 3 case 2 => 1 case 3 => 4 case _ => 2)
      && 8 * j / 5 == 8 * g + (match r case 0 => 0 case 1 => 1 case 2 => 3 case 3 => 4 case _ => 6)
      && 8 * (j + 1) / 5 == 8 * g + (match r case 0 => 1 case 1 => 3 case 2 => 4 case 3 => 6 case _ => 8)
      && DigitCount(j) == 8 * j / 5 + (if r > 0 then 1 else 0) && j % 5 == r
  {
  }

  lemma GroupGivesFirst(a: bv8, b0: bv8, b1: bv8, b2: bv8, b3: bv8, b4: bv8)
    ensures FirstDigit(a, b0, 0) == GroupDigit(0, b0, b1, b2, b3, b4)
    ensures FirstDigit(b0, b1, 3) == GroupDigit(1, b0, b1, b2, b3, b4)
    ensures FirstDigit(b1, b2, 1) == GroupDigit(3, b0, b1, b2, b3, b4)
  {
  }

  lemma GroupGivesLast(b0: bv8, b1: bv8, b2: bv8, b3: bv8, b4: bv8)
    ensures FirstDigit(b2, b3, 4) == GroupDigit(4, b0, b1, b2, b3, b4)
    ensures FirstDigit(b3, b4, 2) == GroupDigit(6, b0, b1, b2, b3, b4)
  {
  }

  lemma GroupGivesSecond(b0: bv8, b1: bv8, b2: bv8, b3: bv8, b4: bv8)
    ensures SecondDigit(b1, 3) == GroupDigit(2, b0, b1, b2, b3, b4)
    ensures SecondDigit(b3, 4) == GroupDigit(5, b0, b1, b2, b3, b4)
    ensures SecondDigit(b4, 2) == GroupDigit(7, b0, b1, b2, b3, b4)
  {
  }

  function Before(data: seq<bv8>, j: nat): bv8
    requires j <= |data|
  {
    if j > 0 then data[j - 1] else 0
  }

  /** Byte j completes one digit, and a second one if enough bits were left over. */
  lemma ByteGives(data: seq<bv8>, g: nat, r: nat)
    requires r < 5 && 5 * g + r <= |data|
    ensures var j := 5 * g + r;
      var x := LeftOver(j);
      && Digit(data, 8 * j / 5) == FirstDigit(Before(data, j), ByteAt(data, j), x)
      && (x >= 2 ==> Digit(data, 8 * j / 5 + 1) == SecondDigit(ByteAt(data, j), x))
      && 8 * (j + 1) / 5 == 8 * j / 5 + (if x >= 2 then 2 else 1)
  {
    GroupPlaces(g, r);
    var b0, b1, b2 := ByteAt(data, 5 * g), ByteAt(data, 5 * g + 1), ByteAt(data, 5 * g + 2);
    var b3, b4 := ByteAt(data, 5 * g + 3), ByteAt(data, 5 * g + 4);
    GroupGivesFirst(Before(data, 5 * g + r), b0, b1, b2, b3, b4);
    GroupGivesLast(b0, b1, b2, b3, b4);
    GroupGivesSecond(b0, b1, b2, b3, b4);
    var first := match r case 0 => 0 case 1 => 1 case 2 => 3 case 3 => 4 case _ => 6;
    GroupOf(data, g, first);
    GroupOf(data, g, first + 1);
  }

  // ---- decoding, digit by digit ----

  /** Where digit n starts: the byte and the bit in it. */
  function Place(n: nat): nat {
    n / 8 * 5 + n % 8 * 5 / 8
  }

  function Offset(n: nat): nat {
    n % 8 * 5 - n % 8 * 5 / 8 * 8
  }

  lemma GroupStarts(g: nat, r: nat)
    requires r < 8
    ensures Place(8 * g + r) == 5 * g + (match r case 0 => 0 case 1 => 0 case 2 => 1 case 3 => 1 case 4 => 2
                                               case 5 => 3 case 6 => 3 case _ => 4)
    ensures Offset(8 * g + r) == match r case 0 => 0 case 1 => 5 case 2 => 2 case 3 => 7 case 4 => 4 case 5 => 1
                                         case 6 => 6 case _ => 3
  {
  }

  function Or(a: bv8, b: bv8): bv8 {
    a | b
  }

  lemma OrZero(a: bv8)
    ensures Or(a, 0) == a
  {
  }

  function FirstPart(r: nat, c: bv8): bv8 {
    if r == 0 then c << 3 else if r == 1 then c >> 2 else 0
  }

  function SecondPart(r: nat, c: bv8): bv8 {
    if r == 1 then c << 6 else if r == 2 then c << 1 else if r == 3 then c >> 4 else 0
  }

  function ThirdPart(r: nat, c: bv8): bv8 {
    if r == 3 then c << 4 else if r == 4 then c >> 1 else 0
  }

  function FourthPart(r: nat, c: bv8): bv8 {
    if r == 4 then c << 7 else if r == 5 then c << 2 else if r == 6 then c >> 3 else 0
  }

  function FifthPart(r: nat, c: bv8): bv8 {
    if r == 6 then c << 5 else if r == 7 then c else 0
  }

  /** What digit r of a group adds to byte q of the group. */
  function Part(r: nat, q: nat, c: bv8): bv8 {
    Pick(q, FirstPart(r, c), SecondPart(r, c), ThirdPart(r, c), FourthPart(r, c), FifthPart(r, c))
  }

  /** The bits of a digit in the byte where it starts, at bit x. */
  function HighBits(c: bv8, x: nat): bv8
    requires x < 8
  {
    Right(c << 3, x)
  }

  /** The bits of a digit in the next byte. */
  function LowBits(c: bv8, x: nat): bv8
    requires 3 < x < 8
  {
    Left(c, 11 - x)
  }

  lemma Unshifted(c: bv8)
    requires c < 32
    ensures (c << 3) >> 5 == c >> 2 && (c << 3) >> 2 == c << 1 && (c << 3) >> 7 == c >> 4 && (c << 3) >> 4 == c >> 1
    ensures (c << 3) >> 1 == c << 2 && (c << 3) >> 6 == c >> 3 && (c << 3) >> 3 == c
  {
  }

  /** The byte of its group in which digit r starts, and the bit. */
  predicate Starts(r: nat, place: nat, x: nat) {
    || (r == 0 && place == 0 && x == 0) || (r == 1 && place == 0 && x == 5) || (r == 2 && place == 1 && x == 2)
    || (r == 3 && place == 1 && x == 7) || (r == 4 && place == 2 && x == 4) || (r == 5 && place == 3 && x == 1)
    || (r == 6 && place == 3 && x == 6) || (r == 7 && place == 4 && x == 3)
  }

  lemma HighBitsAre(r: nat, place: nat, x: nat, c: bv8)
    requires Starts(r, place, x) && c < 32
    ensures HighBits(c, x) == Part(r, place, c)
  {
    Unshifted(c);
  }

  lemma LowBitsAre(r: nat, place: nat, x: nat, c: bv8)
    requires Starts(r, place, x) && x > 3
    ensures LowBits(c, x) == Part(r, place + 1, c)
  {
  }

  lemma NoBits(r: nat, place: nat, x: nat, q: nat, c: bv8)
    requires Starts(r, place, x) && q < 5 && q != place && (q != place + 1 || x <= 3)
    ensures Part(r, q, c) == 0
  {
  }

  /** What a digit adds to byte i when it starts at a bit of a byte. */
  function AddedFrom(place: nat, offset: nat, i: nat, c: bv8): bv8
    requires offset < 8
  {
    if i == place then HighBits(c, offset)
    else if i == place + 1 && offset > 3 then LowBits(c, offset)
    else 0
  }

  lemma OffsetInGroup(g: nat, r: nat)
    requires r < 8
    ensures Offset(8 * g + r) == Offset(r) && Place(8 * g + r) == 5 * g + Place(r)
  {
    GroupStarts(g, r);
    GroupStarts(0, r);
  }

  lemma AddedIs(g: nat, r: nat, q: nat, c: bv8)
    requires r < 8 && q < 5 && c < 32
    ensures Offset(r) < 8 && AddedFrom(5 * g + Place(r), Offset(r), 5 * g + q, c) == Part(r, q, c)
  {
    GroupStarts(0, r);
    AddedPart(g, r, Place(r), Offset(r), q, c);
  }

  lemma AddedPart(g: nat, r: nat, place: nat, x: nat, q: nat, c: bv8)
    requires Starts(r, place, x) && q < 5 && c < 32
    ensures AddedFrom(5 * g + place, x, 5 * g + q, c) == Part(r, q, c)
  {
    HighBitsAre(r, place, x, c);
    if x > 3 {
      LowBitsAre(r, place, x, c);
    }
    if q != place && (q != place + 1 || x <= 3) {
      NoBits(r, place, x, q, c);
    }
  }

  /** The k-th digit of a group when digit r, zero before, becomes c. */
  predicate Replaced(r: nat, k: nat, d: bv8, e: bv8, c: bv8) {
    if r == k then d == 0 && e == c else e == d
  }

  lemma FirstGrows(r: nat, d0: bv8, e0: bv8, d1: bv8, e1: bv8, c: bv8)
    requires Replaced(r, 0, d0, e0, c) && Replaced(r, 1, d1, e1, c)
    ensures FirstByte(e0, e1) == Or(FirstByte(d0, d1), FirstPart(r, c))
  {
  }

  lemma FrontGrows(x: bv8, y: bv8, z: bv8)
    ensures x | y | z == Or(0 | y | z, x) && x | y | z == Or(x | 0 | z, y) && x | y | z == Or(x | y | 0, z)
  {
  }

  lemma SecondGrows(r: nat, d1: bv8, e1: bv8, d2: bv8, e2: bv8, d3: bv8, e3: bv8, c: bv8)
    requires Replaced(r, 1, d1, e1, c) && Replaced(r, 2, d2, e2, c) && Replaced(r, 3, d3, e3, c)
    ensures SecondByte(e1, e2, e3) == Or(SecondByte(d1, d2, d3), SecondPart(r, c))
  {
    OrZero(SecondByte(d1, d2, d3));
    FrontGrows(e1 << 6, e2 << 1, e3 >> 4);
  }

  lemma ThirdGrows(r: nat, d3: bv8, e3: bv8, d4: bv8, e4: bv8, c: bv8)
    requires Replaced(r, 3, d3, e3, c) && Replaced(r, 4, d4, e4, c)
    ensures ThirdByte(e3, e4) == Or(ThirdByte(d3, d4), ThirdPart(r, c))
  {
  }

  lemma FourthGrows(r: nat, d4: bv8, e4: bv8, d5: bv8, e5: bv8, d6: bv8, e6: bv8, c: bv8)
    requires Replaced(r, 4, d4, e4, c) && Replaced(r, 5, d5, e5, c) && Replaced(r, 6, d6, e6, c)
    ensures FourthByte(e4, e5, e6) == Or(FourthByte(d4, d5, d6), FourthPart(r, c))
  {
    OrZero(FourthByte(d4, d5, d6));
    FrontGrows(e4 << 7, e5 << 2, e6 >> 3);
  }

  lemma FifthGrows(r: nat, d6: bv8, e6: bv8, d7: bv8, e7: bv8, c: bv8)
    requires Replaced(r, 6, d6, e6, c) && Replaced(r, 7, d7, e7, c)
    ensures FifthByte(e6, e7) == Or(FifthByte(d6, d7), FifthPart(r, c))
  {
  }

  lemma PickGrows(q: nat, a: bv8, b: bv8, c: bv8, d: bv8, e: bv8, a1: bv8, b1: bv8, c1: bv8, d1: bv8, e1: bv8,
                  p0: bv8, p1: bv8, p2: bv8, p3: bv8, p4: bv8)
    requires a1 == Or(a, p0) && b1 == Or(b, p1) && c1 == Or(c, p2) && d1 == Or(d, p3) && e1 == Or(e, p4)
    ensures Pick(q, a1, b1, c1, d1, e1) == Or(Pick(q, a, b, c, d, e), Pick(q, p0, p1, p2, p3, p4))
  {
  }

  /** A digit of a group that was zero adds its part to every byte of the group. */
  lemma GroupGrows(r: nat, q: nat, d0: bv8, d1: bv8, d2: bv8, d3: bv8, d4: bv8, d5: bv8, d6: bv8, d7: bv8,
                   e0: bv8, e1: bv8, e2: bv8, e3: bv8, e4: bv8, e5: bv8, e6: bv8, e7: bv8, c: bv8)
    requires Replaced(r, 0, d0, e0, c) && Replaced(r, 1, d1, e1, c) && Replaced(r, 2, d2, e2, c)
    requires Replaced(r, 3, d3, e3, c) && Replaced(r, 4, d4, e4, c) && Replaced(r, 5, d5, e5, c)
    requires Replaced(r, 6, d6, e6, c) && Replaced(r, 7, d7, e7, c)
    ensures GroupByte(q, e0, e1, e2, e3, e4, e5, e6, e7) ==
            Or(GroupByte(q, d0, d1, d2, d3, d4, d5, d6, d7), Part(r, q, c))
  {
    FirstGrows(r, d0, e0, d1, e1, c);
    SecondGrows(r, d1, e1, d2, e2, d3, e3, c);
    ThirdGrows(r, d3, e3, d4, e4, c);
    FourthGrows(r, d4, e4, d5, e5, d6, e6, c);
    FifthGrows(r, d6, e6, d7, e7, c);
    PickGrows(q, FirstByte(d0, d1), SecondByte(d1, d2, d3), ThirdByte(d3, d4), FourthByte(d4, d5, d6),
              FifthByte(d6, d7),
              FirstByte(e0, e1), SecondByte(e1, e2, e3), ThirdByte(e3, e4), FourthByte(e4, e5, e6), FifthByte(e6, e7),
              FirstPart(r, c), SecondPart(r, c), ThirdPart(r, c), FourthPart(r, c), FifthPart(r, c));
  }

  /** Before and after digit r of a group, each digit k of the group. */
  lemma DigitAtNext(digits: seq<bv8>, g: nat, r: nat, k: nat)
    requires r < 8 && k < 8 && 8 * g + r < |digits|
    ensures Replaced(r, k, DigitAt(digits, 8 * g + r, 8 * g + k), DigitAt(digits, 8 * g + r + 1, 8 * g + k),
                     digits[8 * g + r])
  {
  }

  /** The eight digits of a group among the first n. */
  ghost predicate IsGroup(digits: seq<bv8>, n: nat, g: nat, d: seq<bv8>) {
    n <= |digits| && |d| == 8 && forall k | 0 <= k < 8 :: d[k] == DigitAt(digits, n, 8 * g + k)
  }

  lemma MakeGroup(digits: seq<bv8>, n: nat, g: nat) returns (d: seq<bv8>)
    requires n <= |digits|
    ensures IsGroup(digits, n, g, d)
  {
    d := seq(8, k requires 0 <= k < 8 => DigitAt(digits, n, 8 * g + k));
  }

  lemma ByteOfGroup(digits: seq<bv8>, n: nat, g: nat, q: nat, d: seq<bv8>)
    requires IsGroup(digits, n, g, d) && q < 5
    ensures Byte(digits, n, 5 * g + q) == GroupByte(q, d[0], d[1], d[2], d[3], d[4], d[5], d[6], d[7])
  {
    ByteInGroup(digits, n, g, q);
  }

  lemma GroupReplaced(digits: seq<bv8>, g: nat, r: nat, d: seq<bv8>, e: seq<bv8>)
    requires r < 8 && 8 * g + r < |digits|
    requires IsGroup(digits, 8 * g + r, g, d) && IsGroup(digits, 8 * g + r + 1, g, e)
    ensures forall k | 0 <= k < 8 :: Replaced(r, k, d[k], e[k], digits[8 * g + r])
  {
    forall k | 0 <= k < 8 ensures Replaced(r, k, d[k], e[k], digits[8 * g + r]) {
      DigitAtNext(digits, g, r, k);
    }
  }

  /** Taking one digit more, within its group. */
  lemma ByteGrows(digits: seq<bv8>, g: nat, r: nat, q: nat)
    requires r < 8 && q < 5 && 8 * g + r < |digits|
    ensures var n := 8 * g + r;
      Byte(digits, n + 1, 5 * g + q) == Or(Byte(digits, n, 5 * g + q), Part(r, q, digits[n]))
  {
    var n := 8 * g + r;
    var d := MakeGroup(digits, n, g);
    var e := MakeGroup(digits, n + 1, g);
    ByteOfGroup(digits, n, g, q, d);
    ByteOfGroup(digits, n + 1, g, q, e);
    GroupReplaced(digits, g, r, d, e);
    GroupGrows(r, q, d[0], d[1], d[2], d[3], d[4], d[5], d[6], d[7],
               e[0], e[1], e[2], e[3], e[4], e[5], e[6], e[7], digits[n]);
  }

  lemma SameElsewhere(digits: seq<bv8>, n: nat, g: nat, k: nat)
    requires n < |digits| && n / 8 != g && k < 8
    ensures DigitAt(digits, n + 1, 8 * g + k) == DigitAt(digits, n, 8 * g + k)
  {
  }

  /** A digit does not touch bytes of another group. */
  lemma ByteElsewhere(digits: seq<bv8>, n: nat, g: nat, q: nat)
    requires n < |digits| && q < 5 && n / 8 != g
    ensures Byte(digits, n + 1, 5 * g + q) == Byte(digits, n, 5 * g + q)
  {
    ByteInGroup(digits, n, g, q);
    ByteInGroup(digits, n + 1, g, q);
    SameElsewhere(digits, n, g, 0);
    SameElsewhere(digits, n, g, 1);
    SameElsewhere(digits, n, g, 2);
    SameElsewhere(digits, n, g, 3);
    SameElsewhere(digits, n, g, 4);
    SameElsewhere(digits, n, g, 5);
    SameElsewhere(digits, n, g, 6);
    SameElsewhere(digits, n, g, 7);
  }

  lemma PlaceInGroup(n: nat)
    ensures Offset(n) == Offset(n % 8) < 8 && Place(n) == 5 * (n / 8) + Place(n % 8) && Place(n % 8) < 5
    ensures Offset(n) > 3 ==> Place(n % 8) < 4
  {
    OffsetInGroup(n / 8, n % 8);
    GroupStarts(0, n % 8);
  }

  lemma TakesInGroup(digits: seq<bv8>, n: nat, g: nat, q: nat)
    requires n < |digits| && digits[n] < 32 && q < 5 && n / 8 == g
    ensures Offset(n) < 8 && Byte(digits, n + 1, 5 * g + q) ==
              Or(Byte(digits, n, 5 * g + q), AddedFrom(Place(n), Offset(n), 5 * g + q, digits[n]))
  {
    PlaceInGroup(n);
    ByteGrows(digits, g, n % 8, q);
    AddedIs(g, n % 8, q, digits[n]);
  }

  lemma TakesElsewhere(digits: seq<bv8>, n: nat, g: nat, q: nat)
    requires n < |digits| && q < 5 && n / 8 != g
    ensures Offset(n) < 8 && Byte(digits, n + 1, 5 * g + q) ==
              Or(Byte(digits, n, 5 * g + q), AddedFrom(Place(n), Offset(n), 5 * g + q, digits[n]))
  {
    PlaceInGroup(n);
    ByteElsewhere(digits, n, g, q);
    OrZero(Byte(digits, n, 5 * g + q));
    NothingAdded(n / 8, Place(n % 8), Offset(n), g, q, digits[n]);
  }

  lemma NothingAdded(g: nat, place: nat, offset: nat, g1: nat, q: nat, c: bv8)
    requires place < 5 && offset < 8 && q < 5 && g != g1 && (offset > 3 ==> place < 4)
    ensures AddedFrom(5 * g + place, offset, 5 * g1 + q, c) == 0
  {
  }

  /** The decoder's step: the digit behind the first n adds its bits to the bytes. */
  lemma TakesDigit(digits: seq<bv8>, n: nat, i: nat)
    requires n < |digits| && digits[n] < 32
    ensures Offset(n) < 8 && Byte(digits, n + 1, i) ==
              Or(Byte(digits, n, i), AddedFrom(Place(n), Offset(n), i, digits[n]))
  {
    var g, q := i / 5, i % 5;
    if n / 8 == g {
      TakesInGroup(digits, n, g, q);
    } else {
      TakesElsewhere(digits, n, g, q);
    }
  }
}
