/** The bytes of AES under exclusive or and doubling (FIPS 197, section 4), and why unmixing a column undoes mixing it
    in the form the original computes both (BRBIP38Key.c). */
module AesField {

  function Xor(a: bv8, b: bv8): bv8 {
    a ^ b
  }

  /** Multiplication by {02}. */
  function Twice(x: bv8): bv8 {
    (x << 1) ^ (((x >> 7) & 1) * 0x1b)
  }

  /** Division by {02}. */
  function Half(x: bv8): bv8 {
    (x >> 1) ^ ((x & 1) * 0x8d)
  }

  lemma HalfTwice(x: bv8)
    ensures Half(Twice(x)) == x
  {
  }

  lemma Comm(a: bv8, b: bv8)
    ensures Xor(a, b) == Xor(b, a)
  {
  }

  lemma Assoc(a: bv8, b: bv8, c: bv8)
    ensures Xor(Xor(a, b), c) == Xor(a, Xor(b, c))
  {
  }

  lemma Cancel(a: bv8, b: bv8)
    ensures Xor(Xor(a, b), b) == a && Xor(b, Xor(b, a)) == a
  {
  }

  lemma TwiceXor(x: bv8, y: bv8)
    ensures Twice(Xor(x, y)) == Xor(Twice(x), Twice(y))
  {
  }

  lemma Swap(p: bv8, q: bv8, r: bv8, s: bv8)
    ensures Xor(Xor(p, q), Xor(r, s)) == Xor(Xor(p, r), Xor(q, s))
  {
    Assoc(p, q, Xor(r, s));
    Assoc(q, r, s);
    Comm(q, r);
    Assoc(r, q, s);
    Assoc(p, r, Xor(q, s));
  }

  lemma Edges(a: bv8, b: bv8, c: bv8)
    ensures Xor(Xor(a, b), Xor(b, c)) == Xor(a, c)
  {
    Assoc(a, b, Xor(b, c));
    Cancel(c, b);
  }

  /** The sum of a column, in the order of the original. */
  function Sum(a: bv8, b: bv8, c: bv8, d: bv8): bv8 {
    Xor(Xor(Xor(a, b), c), d)
  }

  /** One byte of a mixed or unmixed column: what is added to both is e or what unmixing puts in its place. */
  function Blend(e: bv8, a: bv8, b: bv8): bv8 {
    Xor(a, Xor(e, Twice(Xor(a, b))))
  }

  function Remix(e: bv8, a: bv8, c: bv8): bv8 {
    Xor(e, Twice(Twice(Xor(Xor(Twice(e), a), c))))
  }

  /** Mixing is the product with the coefficients {02}, {03}, {01}, {01}. */
  lemma BlendIsProduct(a: bv8, b: bv8, c: bv8, d: bv8)
    ensures Blend(Sum(a, b, c, d), a, b) == Xor(Xor(Xor(Twice(a), Xor(Twice(b), b)), c), d)
  {
    TwiceXor(a, b);
    var p, q := Twice(a), Twice(b);
    var m := Xor(p, q);
    // a + (((a + b) + c) + d + m) is ((b + c) + d) + m
    Assoc(Xor(a, b), c, d);
    Assoc(a, b, Xor(c, d));
    var t := Xor(b, Xor(c, d));
    Assoc(a, t, m);
    Cancel(Xor(t, m), a);
    // and that is (p + (q + b)) + (c + d)
    Comm(t, m);
    Assoc(m, b, Xor(c, d));
    Assoc(p, q, b);
    Assoc(Xor(p, Xor(q, b)), c, d);
  }

  lemma SumIs(a: bv8, b: bv8, c: bv8, d: bv8)
    ensures Sum(a, b, c, d) == Xor(Xor(a, b), Xor(c, d))
  {
    Assoc(Xor(a, b), c, d);
  }

  lemma Difference(a: bv8, b: bv8, e: bv8, p: bv8, q: bv8)
    ensures Xor(Xor(a, Xor(e, p)), Xor(b, Xor(e, q))) == Xor(Xor(a, b), Xor(p, q))
  {
    Swap(a, Xor(e, p), b, Xor(e, q));
    Comm(e, p);
    Edges(p, e, q);
  }

  /** Mixing keeps the sum of a column and shifts the differences in it. */
  lemma BlendSums(a: bv8, b: bv8, c: bv8, d: bv8, e: bv8, p: bv8, q: bv8, r: bv8, s: bv8, v: bv8, h: bv8)
    requires e == Xor(Xor(a, b), Xor(c, d)) && Xor(p, q) == v && Xor(r, s) == v && Xor(p, r) == h
    ensures var w, x, y, z := Xor(a, Xor(e, p)), Xor(b, Xor(e, q)), Xor(c, Xor(e, r)), Xor(d, Xor(e, s));
      Xor(Xor(w, x), Xor(y, z)) == e && Xor(Xor(h, w), y) == Xor(a, c) && Xor(w, x) == Xor(Xor(a, b), v)
  {
    Difference(a, b, e, p, q);
    Difference(c, d, e, r, s);
    Difference(a, c, e, p, r);
    Swap(Xor(a, b), v, Xor(c, d), v);
    Assoc(e, v, v);
    Cancel(e, v);
    Assoc(h, Xor(a, Xor(e, p)), Xor(c, Xor(e, r)));
    Comm(Xor(a, c), h);
    Cancel(Xor(a, c), h);
  }

  lemma LastSum(a: bv8, e: bv8, p: bv8, q: bv8)
    ensures Xor(Xor(a, Xor(e, p)), Xor(Xor(e, q), Xor(p, q))) == a
  {
    Swap(e, q, p, q);
    Assoc(Xor(e, p), q, q);
    Cancel(Xor(e, p), q);
    Cancel(a, Xor(e, p));
  }

  lemma Rotate(a: bv8, b: bv8, c: bv8, d: bv8)
    ensures Sum(b, c, d, a) == Sum(a, b, c, d)
  {
    SumIs(b, c, d, a);
    SumIs(a, b, c, d);
    Comm(Xor(b, c), Xor(d, a));
    Comm(d, a);
    Swap(a, d, b, c);
    Comm(d, c);
  }

  /** The first byte comes back; e is the sum of both columns. */
  lemma UnblendFirst(a: bv8, b: bv8, c: bv8, d: bv8)
    ensures var e := Sum(a, b, c, d);
      var w, x, y, z := Blend(e, a, b), Blend(e, b, c), Blend(e, c, d), Blend(e, d, a);
      Sum(w, x, y, z) == e && Blend(Remix(e, w, y), w, x) == a
  {
    var e := Sum(a, b, c, d);
    SumIs(a, b, c, d);
    Edges(a, b, c);
    Edges(c, d, a);
    Comm(a, c);
    TwiceXor(Xor(a, b), Xor(b, c));
    TwiceXor(Xor(c, d), Xor(d, a));
    TwiceXor(Xor(a, b), Xor(c, d));
    TwiceXor(Xor(a, b), Twice(Xor(a, c)));
    BlendSums(a, b, c, d, e, Twice(Xor(a, b)), Twice(Xor(b, c)), Twice(Xor(c, d)), Twice(Xor(d, a)),
              Twice(Xor(a, c)), Twice(e));
    SumIs(Blend(e, a, b), Blend(e, b, c), Blend(e, c, d), Blend(e, d, a));
    LastSum(a, e, Twice(Xor(a, b)), Twice(Twice(Xor(a, c))));
  }

  lemma RemixSwap(e: bv8, a: bv8, c: bv8)
    ensures Remix(e, a, c) == Remix(e, c, a)
  {
    Assoc(Twice(e), a, c);
    Assoc(Twice(e), c, a);
    Comm(a, c);
  }

  /** Unmixing undoes mixing, for every column. */
  lemma UnblendUndoesBlend(a: bv8, b: bv8, c: bv8, d: bv8)
    ensures var e := Sum(a, b, c, d);
      var w, x, y, z := Blend(e, a, b), Blend(e, b, c), Blend(e, c, d), Blend(e, d, a);
      var o := Sum(w, x, y, z);
      var f, g := Remix(o, w, y), Remix(o, x, z);
      Blend(f, w, x) == a && Blend(g, x, y) == b && Blend(f, y, z) == c && Blend(g, z, w) == d
  {
    var e := Sum(a, b, c, d);
    Rotate(a, b, c, d);
    Rotate(b, c, d, a);
    Rotate(c, d, a, b);
    UnblendFirst(a, b, c, d);
    UnblendFirst(b, c, d, a);
    UnblendFirst(c, d, a, b);
    UnblendFirst(d, a, b, c);
    RemixSwap(e, Blend(e, a, b), Blend(e, c, d));
    RemixSwap(e, Blend(e, b, c), Blend(e, d, a));
  }
}
