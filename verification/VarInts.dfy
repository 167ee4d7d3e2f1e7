/** Variable-length integers (BRAddress.c), and the little-endian fields around them. */
module VarInts {

  import opened Bits
  import opened Bytes

  const HEADER16: Byte := 0xfd
  const HEADER32: Byte := 0xfe
  const HEADER64: Byte := 0xff

  type UInt32 = n: nat | n < 0x1_0000_0000
  type UInt64 = n: nat | n < 0x1_0000_0000_0000_0000

  /** How many bytes a count takes. */
  function VarIntSize(n: nat): nat {
    if n < 253 then 1 else if n <= 65535 then 3 else if n <= 0xffffffff then 5 else 9
  }

  function VarIntBytes(i: UInt64): (r: seq<Byte>)
    ensures |r| == VarIntSize(i)
  {
    if i < 253 then [i]
    else if i <= 65535 then [HEADER16] + ToBytes(i, 2)
    else if i <= 0xffffffff then [HEADER32] + ToBytes(i, 4)
    else [HEADER64] + ToBytes(i, 8)
  }

  /** The first byte either is the number or tells, by its place above 252, the power of two of the bytes that hold the
      number, least first; the number would not fit into half of them. */
  lemma HeaderTells(i: UInt64)
    ensures var r := VarIntBytes(i);
      && |r| == (if r[0] < 253 then 1 else 1 + Pow2(r[0] - 252))
      && LE(if r[0] < 253 then r else r[1..]) == i
      && (r[0] == 253 ==> i >= 253)
      && (r[0] > 253 ==> i >= Pow256(Pow2(r[0] - 253)))
  {
    Widths();
    Powers();
    var r := VarIntBytes(i);
    if i >= 253 {
      var k := VarIntSize(i) - 1;
      assert r[1..] == ToBytes(i, k);
      BytesValue(i, k);
    } else {
      assert r[1..] == [];
    }
  }

  // ---- reading ----

  /** The little-endian number in the k bytes at off. */
  function ValueAt(buf: seq<Byte>, off: nat, k: nat): nat
    requires off + k <= |buf|
    decreases k
  {
    if k == 0 then 0 else buf[off] + 256 * ValueAt(buf, off + 1, k - 1)
  }

  /** The k-byte number at off, 0 if the buffer ends before it does. */
  function NumberAt(buf: seq<Byte>, off: nat, k: nat): nat {
    if off + k <= |buf| then ValueAt(buf, off, k) else 0
  }

  /** The first byte of a count; behind the end it reads as 0. */
  function HeaderAt(buf: seq<Byte>, off: nat): Byte {
    if off < |buf| then buf[off] else 0
  }

  function VarIntLength(h: Byte): nat {
    if h == HEADER16 then 3 else if h == HEADER32 then 5 else if h == HEADER64 then 9 else 1
  }

  function VarIntAt(buf: seq<Byte>, off: nat): nat {
    var h := HeaderAt(buf, off);
    if h == HEADER16 then NumberAt(buf, off + 1, 2)
    else if h == HEADER32 then NumberAt(buf, off + 1, 4)
    else if h == HEADER64 then NumberAt(buf, off + 1, 8)
    else h
  }

  /** The bytes of a piece stand at off. */
  ghost predicate Holds(buf: seq<Byte>, off: nat, piece: seq<Byte>) {
    off + |piece| <= |buf| && forall k | 0 <= k < |piece| :: piece[k] == buf[off + k]
  }

  lemma HoldsSlice(buf: seq<Byte>, off: nat, piece: seq<Byte>)
    requires Holds(buf, off, piece)
    ensures buf[off..off + |piece|] == piece
  {
  }

  lemma HoldsParts(buf: seq<Byte>, off: nat, a: seq<Byte>, b: seq<Byte>)
    requires Holds(buf, off, a + b)
    ensures Holds(buf, off, a) && Holds(buf, off + |a|, b)
  {
    forall k | 0 <= k < |a| ensures a[k] == buf[off + k] {
      assert (a + b)[k] == a[k];
    }
    forall k | 0 <= k < |b| ensures b[k] == buf[off + |a| + k] {
      assert (a + b)[|a| + k] == b[k];
    }
  }

  lemma {:induction false} ValueBack(buf: seq<Byte>, off: nat, n: nat, k: nat)
    requires Holds(buf, off, ToBytes(n, k)) && n < Pow256(k)
    ensures ValueAt(buf, off, k) == n
    decreases k
  {
    if k > 0 {
      HoldsParts(buf, off, [n % 256], ToBytes(n / 256, k - 1));
      ValueBack(buf, off + 1, n / 256, k - 1);
      assert [n % 256][0] == buf[off];
    }
  }

  lemma NumberBack(buf: seq<Byte>, off: nat, n: nat, k: nat)
    requires Holds(buf, off, ToBytes(n, k)) && n < Pow256(k)
    ensures NumberAt(buf, off, k) == n
  {
    ValueBack(buf, off, n, k);
  }

  lemma Widths()
    ensures Pow256(2) == 0x1_0000 && Pow256(4) == 0x1_0000_0000 && Pow256(8) == 0x1_0000_0000_0000_0000
  {
    assert Pow256(4) == 256 * (256 * Pow256(2));
    assert Pow256(8) == 256 * (256 * (256 * (256 * Pow256(4))));
  }

  /** Reading a count that was written returns it and its length. */
  lemma VarIntBack(buf: seq<Byte>, off: nat, i: UInt64)
    requires Holds(buf, off, VarIntBytes(i))
    ensures VarIntAt(buf, off) == i && VarIntLength(HeaderAt(buf, off)) == VarIntSize(i)
  {
    Widths();
    assert VarIntBytes(i)[0] == buf[off + 0];
    if i >= 253 {
      var k := VarIntSize(i) - 1;
      HoldsParts(buf, off, [VarIntBytes(i)[0]], ToBytes(i, k));
      NumberBack(buf, off + 1, i, k);
    }
  }

  lemma {:induction false} ValueBound(buf: seq<Byte>, off: nat, k: nat)
    requires off + k <= |buf|
    ensures ValueAt(buf, off, k) < Pow256(k)
    decreases k
  {
    if k > 0 {
      ValueBound(buf, off + 1, k - 1);
    }
  }

  lemma NumberBound(buf: seq<Byte>, off: nat, k: nat)
    ensures NumberAt(buf, off, k) < Pow256(k)
  {
    if off + k <= |buf| {
      ValueBound(buf, off, k);
    }
  }

  /** A count is a 64-bit number, and takes no more room than it was read from. */
  lemma VarIntFits(buf: seq<Byte>, off: nat)
    ensures VarIntAt(buf, off) < 0x1_0000_0000_0000_0000
    ensures VarIntSize(VarIntAt(buf, off)) <= VarIntLength(HeaderAt(buf, off))
  {
    Widths();
    NumberBound(buf, off + 1, 2);
    NumberBound(buf, off + 1, 4);
    NumberBound(buf, off + 1, 8);
  }

  /** Reads a count of at most 64 bits. */
  method VarInt(buf: seq<Byte>, off: nat) returns (r: UInt64, intLen: nat)
    ensures r == VarIntAt(buf, off) && intLen == VarIntLength(HeaderAt(buf, off))
  {
    VarIntFits(buf, off);
    var h: Byte := if off + 1 <= |buf| then buf[off] else 0;
    if h == HEADER16 {
      intLen := 1 + 2;
      r := NumberAt(buf, off + 1, 2);
    } else if h == HEADER32 {
      intLen := 1 + 4;
      r := NumberAt(buf, off + 1, 4);
    } else if h == HEADER64 {
      intLen := 1 + 8;
      r := NumberAt(buf, off + 1, 8);
    } else {
      intLen := 1;
      r := h;
    }
  }

  // ---- writing ----

  /** The buffer, if there is one. */
  ghost function Frame(data: array?<Byte>): set<object> {
    if data == null then {} else {data}
  }

  /** Without a buffer only the length counts; otherwise the bytes have to fit into it. */
  ghost predicate Room(data: array?<Byte>, len: nat) {
    data == null || len <= data.Length
  }

  /** The bytes of done are written from the beginning of the buffer on, if there is room for them. */
  ghost predicate Written(data: array?<Byte>, done: seq<Byte>, off: nat)
    reads Frame(data)
  {
    Room(data, |done|) ==> off == |done| && (data != null ==> data[..off] == done)
  }

  method Copy(data: array<Byte>, off: nat, piece: seq<Byte>)
    requires off + |piece| <= data.Length
    modifies data
    ensures data[..off] == old(data[..off]) && data[off..off + |piece|] == piece
  {
    for i := 0 to |piece|
      invariant data[..off] == old(data[..off]) && data[off..off + i] == piece[..i]
    {
      data[off + i] := piece[i];
    }
  }

  /** One field: written if it fits; the offset moves on in any case. */
  method Put(data: array?<Byte>, off: nat, piece: seq<Byte>, ghost done: seq<Byte>) returns (off': nat)
    requires Written(data, done, off)
    modifies Frame(data)
    ensures Written(data, done + piece, off') && off' == off + |piece|
  {
    if data != null && off + |piece| <= data.Length {
      Copy(data, off, piece);
      assert data[..off + |piece|] == data[..off] + data[off..off + |piece|];
    }
    off' := off + |piece|;
  }

  /** A count: written if it fits, and the offset moves on only then. */
  method VarIntSet(data: array?<Byte>, off: nat, i: UInt64, ghost done: seq<Byte>) returns (r: nat)
    requires Written(data, done, off)
    modifies Frame(data)
    ensures Written(data, done + VarIntBytes(i), off + r)
    ensures r == if data == null || off + VarIntSize(i) <= data.Length then VarIntSize(i) else 0
  {
    var bufLen := if data != null && off <= data.Length then data.Length - off else 0;
    r := VarIntSize(i);
    if data != null {
      if r <= bufLen {
        var _ := Put(data, off, VarIntBytes(i), done);
      } else {
        r := 0;
      }
    }
  }
}
