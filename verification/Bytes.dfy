/** Byte strings read as little-endian numbers. */
module Bytes {

  type Byte = n: nat | n < 256

  function LE(s: seq<Byte>): nat {
    if s == [] then 0 else s[0] + 256 * LE(s[1..])
  }

  function Pow256(k: nat): (p: nat)
    ensures p > 0
  {
    if k == 0 then 1 else 256 * Pow256(k - 1)
  }

  function ToBytes(n: nat, k: nat): (b: seq<Byte>)
    ensures |b| == k
  {
    if k == 0 then [] else [n % 256] + ToBytes(n / 256, k - 1)
  }

  lemma FourBytes(w: nat)
    ensures ToBytes(w, 4) == [w % 256, w / 256 % 256, w / 256 / 256 % 256, w / 256 / 256 / 256 % 256]
  {
    var x := w / 256;
    var y := x / 256;
    assert ToBytes(y, 2) == [y % 256] + ToBytes(y / 256, 1);
    assert ToBytes(x, 3) == [x % 256] + ToBytes(y, 2);
  }

  lemma {:induction false} LeAppend(a: seq<Byte>, b: seq<Byte>)
    ensures LE(a + b) == LE(a) + Pow256(|a|) * LE(b)
  {
    if a == [] {
      assert a + b == b;
    } else {
      assert (a + b)[1..] == a[1..] + b;
      LeAppend(a[1..], b);
      assert 256 * Pow256(|a| - 1) * LE(b) == 256 * (Pow256(|a| - 1) * LE(b));
    }
  }

  lemma {:induction false} BytesValue(n: nat, k: nat)
    requires n < Pow256(k)
    ensures LE(ToBytes(n, k)) == n
  {
    if k > 0 {
      BytesValue(n / 256, k - 1);
      assert ToBytes(n, k)[1..] == ToBytes(n / 256, k - 1);
    }
  }

  lemma {:induction false} ValueBytes(s: seq<Byte>)
    ensures ToBytes(LE(s), |s|) == s
  {
    if s != [] {
      ValueBytes(s[1..]);
      assert LE(s) % 256 == s[0] && LE(s) / 256 == LE(s[1..]);
      assert s == [s[0]] + s[1..];
    }
  }

  function Zeros(n: nat): (z: seq<Byte>)
    ensures |z| == n && LE(z) == 0
  {
    if n == 0 then [] else
    var z: seq<Byte> := [0] + Zeros(n - 1);
    assert z[1..] == Zeros(n - 1);
    z
  }

  lemma {:induction false} LeBound(s: seq<Byte>)
    ensures LE(s) < Pow256(|s|)
  {
    if s != [] {
      LeBound(s[1..]);
    }
  }
}
