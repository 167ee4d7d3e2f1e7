/** The example of RFC 7539, section 2.5.2: the tag of "Cryptographic Forum Research Group". */
module Rfc7539Example {
  import opened Bits
  import opened Bytes
  import opened Poly1305

  function KeyR(): (k: seq<Byte>)
    ensures |k| == 16
  {
    [0x85, 0xd6, 0xbe, 0x78, 0x57, 0x55, 0x6d, 0x33, 0x7f, 0x44, 0x52, 0xfe, 0x42, 0xd5, 0x06, 0xa8]
  }

  function KeyS(): (k: seq<Byte>)
    ensures |k| == 16
  {
    [0x01, 0x03, 0x80, 0x8a, 0xfb, 0x0d, 0xb2, 0xfd, 0x4a, 0xbf, 0xf6, 0xaf, 0x41, 0x49, 0xf5, 0x1b]
  }

  /** "Cryptographic Fo" */
  function First(): (m: seq<Byte>)
    ensures |m| == 16
  {
    [0x43, 0x72, 0x79, 0x70, 0x74, 0x6f, 0x67, 0x72, 0x61, 0x70, 0x68, 0x69, 0x63, 0x20, 0x46, 0x6f]
  }

  /** "rum Research Gro" */
  function Second(): (m: seq<Byte>)
    ensures |m| == 16
  {
    [0x72, 0x75, 0x6d, 0x20, 0x52, 0x65, 0x73, 0x65, 0x61, 0x72, 0x63, 0x68, 0x20, 0x47, 0x72, 0x6f]
  }

  /** "up" */
  function Third(): (m: seq<Byte>)
    ensures |m| == 2
  {
    [0x75, 0x70]
  }

  // ---- the key ----

  lemma WordsOfR(k: seq<Byte>)
    requires k == KeyR()
    ensures Word(k, 0) == 0x78bed685 && Word(k, 4) == 0x336d5557
    ensures Word(k, 8) == 0xfe52447f && Word(k, 12) == 0xa806d542
  {
  }

  lemma SameWord(key: seq<Byte>, k: seq<Byte>, i: nat)
    requires |key| == 32 && |k| == 16 && key[..16] == k && i + 4 <= 16
    ensures Word(key, i) == Word(k, i)
  {
    assert key[i] == k[i] && key[i + 1] == k[i + 1] && key[i + 2] == k[i + 2] && key[i + 3] == k[i + 3];
  }

  lemma ClampedWordsAre()
    ensures Words(0x78bed685 % 0x10000000, ClampWord(0x336d5557), ClampWord(0xfe52447f), ClampWord(0xa806d542)) ==
            0x806d5400e52447c036d555408bed685
  {
  }

  lemma RIs(key: seq<Byte>, k: seq<Byte>)
    requires |key| == 32 && key[..16] == k && k == KeyR()
    ensures R(key) == 0x806d5400e52447c036d555408bed685
  {
    WordsOfR(k);
    SameWord(key, k, 0);
    SameWord(key, k, 4);
    SameWord(key, k, 8);
    SameWord(key, k, 12);
    ClampedKey(key);
    ClampedWordsAre();
  }

  lemma SIs(k: seq<Byte>)
    requires k == KeyS()
    ensures LE(k) == 0x1bf54941aff6bf4afdb20dfb8a800301
  {
    assert Word(k, 0) == 0x8a800301 && Word(k, 4) == 0xfdb20dfb;
    assert Word(k, 8) == 0xaff6bf4a && Word(k, 12) == 0x1bf54941;
    LeWords(k);
  }

  // ---- the blocks ----

  lemma FirstIs(b: seq<Byte>)
    requires b == First()
    ensures BlockNumber(b) == 0x16f4620636968706172676f7470797243
  {
    assert Word(b, 0) == 0x70797243 && Word(b, 4) == 0x72676f74;
    assert Word(b, 8) == 0x69687061 && Word(b, 12) == 0x6f462063;
    LeWords(b);
    FullBlockNumber(b);
  }

  lemma SecondIs(b: seq<Byte>)
    requires b == Second()
    ensures BlockNumber(b) == 0x16f7247206863726165736552206d7572
  {
    assert Word(b, 0) == 0x206d7572 && Word(b, 4) == 0x65736552;
    assert Word(b, 8) == 0x68637261 && Word(b, 12) == 0x6f724720;
    LeWords(b);
    FullBlockNumber(b);
  }

  lemma ThirdIs(b: seq<Byte>)
    requires b == Third()
    ensures BlockNumber(b) == 0x17075
  {
    assert b[1..] == [0x70] && b[1..][1..] == [];
    assert LE(b) == 0x75 + 256 * LE(b[1..]);
    assert LE(b[1..]) == 0x70 + 256 * LE(b[1..][1..]);
    assert Pow256(2) == 0x10000;
  }

  // ---- the accumulator ----

  lemma FullStep(r: nat, b: seq<Byte>, rest: seq<Byte>, a: nat, next: nat)
    requires |b| == 16 && next == (a + BlockNumber(b)) * r % P
    ensures Accumulate(r, b + rest, a) == Accumulate(r, rest, next)
  {
    assert (b + rest)[..16] == b && (b + rest)[16..] == rest;
  }

  lemma LastStep(r: nat, b: seq<Byte>, a: nat, next: nat)
    requires 0 < |b| <= 16 && next == (a + BlockNumber(b)) * r % P
    ensures Accumulate(r, b, a) == next
  {
    assert b[..|b|] == b && b[|b|..] == [];
  }

  lemma FirstProduct(n: nat, a: nat, r: nat)
    requires n == 0x16f4620636968706172676f7470797243 && a == 0 && r == 0x806d5400e52447c036d555408bed685
    ensures (a + n) * r % P == 0x2c88c77849d64ae9147ddeb88e69c83fc
  {
  }

  lemma SecondProduct(n: nat, a: nat, r: nat)
    requires n == 0x16f7247206863726165736552206d7572 && a == 0x2c88c77849d64ae9147ddeb88e69c83fc
    requires r == 0x806d5400e52447c036d555408bed685
    ensures (a + n) * r % P == 0x2d8adaf23b0337fa7cccfb4ea344b30de
  {
  }

  lemma ThirdProduct(n: nat, a: nat, r: nat)
    requires n == 0x17075 && a == 0x2d8adaf23b0337fa7cccfb4ea344b30de && r == 0x806d5400e52447c036d555408bed685
    ensures (a + n) * r % P == 0x28d31b7caff946c77c8844335369d03a7
  {
  }

  lemma BehindFirst(r: nat, b: seq<Byte>, rest: seq<Byte>, a: nat)
    requires r == 0x806d5400e52447c036d555408bed685 && b == First() && a == 0
    ensures Accumulate(r, b + rest, a) == Accumulate(r, rest, 0x2c88c77849d64ae9147ddeb88e69c83fc)
  {
    FirstIs(b);
    FirstProduct(BlockNumber(b), a, r);
    FullStep(r, b, rest, a, 0x2c88c77849d64ae9147ddeb88e69c83fc);
  }

  lemma BehindSecond(r: nat, b: seq<Byte>, rest: seq<Byte>)
    requires r == 0x806d5400e52447c036d555408bed685 && b == Second()
    ensures Accumulate(r, b + rest, 0x2c88c77849d64ae9147ddeb88e69c83fc) ==
            Accumulate(r, rest, 0x2d8adaf23b0337fa7cccfb4ea344b30de)
  {
    SecondIs(b);
    SecondProduct(BlockNumber(b), 0x2c88c77849d64ae9147ddeb88e69c83fc, r);
    FullStep(r, b, rest, 0x2c88c77849d64ae9147ddeb88e69c83fc, 0x2d8adaf23b0337fa7cccfb4ea344b30de);
  }

  lemma BehindThird(r: nat, b: seq<Byte>)
    requires r == 0x806d5400e52447c036d555408bed685 && b == Third()
    ensures Accumulate(r, b, 0x2d8adaf23b0337fa7cccfb4ea344b30de) == 0x28d31b7caff946c77c8844335369d03a7
  {
    ThirdIs(b);
    ThirdProduct(BlockNumber(b), 0x2d8adaf23b0337fa7cccfb4ea344b30de, r);
    LastStep(r, b, 0x2d8adaf23b0337fa7cccfb4ea344b30de, 0x28d31b7caff946c77c8844335369d03a7);
  }

  // ---- the tag ----

  lemma MacBy(key: seq<Byte>, k: seq<Byte>, l: seq<Byte>, msg: seq<Byte>, a: nat, tag: nat)
    requires |k| == |l| == 16 && key == k + l && R(key) < P && Accumulate(R(key), msg, 0) == a
    requires tag == (a + LE(l)) % TWO_128
    ensures Mac(key, msg) == tag
  {
    assert key[16..] == l;
  }

  lemma LastSum(s: nat)
    requires s == 0x1bf54941aff6bf4afdb20dfb8a800301
    ensures (0x28d31b7caff946c77c8844335369d03a7 + s) % TWO_128 == 0xa927010caf8b2bc2c6365130c11d06a8
  {
  }

  lemma AccumulatedIs(r: nat, b: seq<Byte>, c: seq<Byte>, d: seq<Byte>)
    requires r == 0x806d5400e52447c036d555408bed685 && b == First() && c == Second() && d == Third()
    ensures Accumulate(r, b + (c + d), 0) == 0x28d31b7caff946c77c8844335369d03a7
  {
    BehindFirst(r, b, c + d, 0);
    BehindSecond(r, c, d);
    BehindThird(r, d);
  }

  /** The tag of the message is the one the standard gives. */
  lemma TagIs(key: seq<Byte>, k: seq<Byte>, l: seq<Byte>, b: seq<Byte>, c: seq<Byte>, d: seq<Byte>)
    requires k == KeyR() && l == KeyS() && key == k + l && b == First() && c == Second() && d == Third()
    ensures |key| == 32 && Mac(key, b + (c + d)) == 0xa927010caf8b2bc2c6365130c11d06a8
  {
    assert key[..16] == k;
    RIs(key, k);
    SIs(l);
    AccumulatedIs(R(key), b, c, d);
    LastSum(LE(l));
    MacBy(key, k, l, b + (c + d), 0x28d31b7caff946c77c8844335369d03a7, 0xa927010caf8b2bc2c6365130c11d06a8);
  }
}
