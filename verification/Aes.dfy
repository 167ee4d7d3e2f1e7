/** AES-256 on one block, with a key schedule that is expanded and taken back in place (BRBIP38Key.c; FIPS 197, sections
    5.1 to 5.3). The proofs hold for any substitution table s with an inverse si; the last section puts in the real
    ones. */
module Aes {
  import opened AesTables
  import opened AesField

  type Table = bv8 -> bv8

  ghost predicate Undoes(si: Table, s: Table) {
    forall x :: si(s(x)) == x
  }

  /** Equality of values of any type, not looked into. */
  ghost predicate Same<G>(x: G, y: G) {
    x == y
  }

  // ---- columns ----

  datatype Column = Column(a: bv8, b: bv8, c: bv8, d: bv8)

  function MixColumn(v: Column): Column {
    var e := Sum(v.a, v.b, v.c, v.d);
    Column(Blend(e, v.a, v.b), Blend(e, v.b, v.c), Blend(e, v.c, v.d), Blend(e, v.d, v.a))
  }

  function UnmixColumn(v: Column): Column {
    var e := Sum(v.a, v.b, v.c, v.d);
    var f, g := Remix(e, v.a, v.c), Remix(e, v.b, v.d);
    Column(Blend(f, v.a, v.b), Blend(g, v.b, v.c), Blend(f, v.c, v.d), Blend(g, v.d, v.a))
  }

  lemma ColumnUndone(v: Column)
    ensures UnmixColumn(MixColumn(v)) == v
  {
    UnblendUndoesBlend(v.a, v.b, v.c, v.d);
  }

  // ---- the transformations of the state, byte r + 4c in row r of column c ----

  function AddKey(b: seq<bv8>, k: seq<bv8>, off: nat): (r: seq<bv8>)
    requires |b| == 16 && off + 16 <= |k|
    ensures |r| == 16
  {
    seq(16, i requires 0 <= i < 16 => Xor(b[i], k[off + i]))
  }

  function Substitute(s: Table, b: seq<bv8>): (r: seq<bv8>)
    requires |b| == 16
    ensures |r| == 16
  {
    seq(16, i requires 0 <= i < 16 => s(b[i]))
  }

  /** Row r moves r columns to the left. */
  function ShiftRows(b: seq<bv8>): (r: seq<bv8>)
    requires |b| == 16
    ensures |r| == 16
  {
    seq(16, i requires 0 <= i < 16 => b[i % 4 + 4 * ((i / 4 + i % 4) % 4)])
  }

  /** Row r moves r columns to the right. */
  function UnshiftRows(b: seq<bv8>): (r: seq<bv8>)
    requires |b| == 16
    ensures |r| == 16
  {
    seq(16, i requires 0 <= i < 16 => b[i % 4 + 4 * ((i / 4 + 4 - i % 4) % 4)])
  }

  function ColumnAt(b: seq<bv8>, j: nat): Column
    requires j + 4 <= |b|
  {
    Column(b[j], b[j + 1], b[j + 2], b[j + 3])
  }

  function Pick(v: Column, r: nat): bv8 {
    if r == 0 then v.a else if r == 1 then v.b else if r == 2 then v.c else v.d
  }

  /** Every column changed by itself. */
  function Columnwise(f: Column -> Column, b: seq<bv8>): (r: seq<bv8>)
    requires |b| == 16
    ensures |r| == 16
  {
    seq(16, i requires 0 <= i < 16 => Pick(f(ColumnAt(b, i / 4 * 4)), i % 4))
  }

  function MixColumns(b: seq<bv8>): (r: seq<bv8>)
    requires |b| == 16
    ensures |r| == 16
  {
    Columnwise(MixColumn, b)
  }

  function UnmixColumns(b: seq<bv8>): (r: seq<bv8>)
    requires |b| == 16
    ensures |r| == 16
  {
    Columnwise(UnmixColumn, b)
  }

  ghost predicate ColumnStart(j: nat) {
    j == 0 || j == 4 || j == 8 || j == 12
  }

  lemma ColumnByColumn(f: Column -> Column, b: seq<bv8>, j: nat)
    requires |b| == 16 && ColumnStart(j)
    ensures ColumnAt(Columnwise(f, b), j) == f(ColumnAt(b, j))
  {
  }

  /** A state is its columns. */
  lemma ColumnOf(b: seq<bv8>, i: nat)
    requires |b| == 16 && i < 16
    ensures ColumnStart(i / 4 * 4) && b[i] == Pick(ColumnAt(b, i / 4 * 4), i % 4)
  {
  }

  lemma ColumnsDecide(f: Column -> Column, x: seq<bv8>, b: seq<bv8>)
    requires |x| == 16 && |b| == 16
    requires forall j: nat | ColumnStart(j) :: ColumnAt(x, j) == f(ColumnAt(b, j))
    ensures x == Columnwise(f, b)
  {
    forall i | 0 <= i < 16 ensures x[i] == Columnwise(f, b)[i] {
      ColumnOf(x, i);
    }
  }

  // ---- they undo each other ----

  lemma AddKeyUndone(b: seq<bv8>, k: seq<bv8>, off: nat)
    requires |b| == 16 && off + 16 <= |k|
    ensures AddKey(AddKey(b, k, off), k, off) == b
  {
    forall i | 0 <= i < 16 ensures AddKey(AddKey(b, k, off), k, off)[i] == b[i] {
      Cancel(b[i], k[off + i]);
    }
  }

  lemma SubstituteUndone(s: Table, si: Table, b: seq<bv8>)
    requires |b| == 16 && Undoes(si, s)
    ensures Substitute(si, Substitute(s, b)) == b
  {
    var m := Substitute(s, b);
    forall i | 0 <= i < 16 ensures Substitute(si, m)[i] == b[i] {
      assert m[i] == s(b[i]);
    }
  }

  /** Where shifting takes a byte from, unshifting brings it back to. */
  lemma ShiftIndex(i: nat)
    requires i < 16
    ensures var j := i % 4 + 4 * ((i / 4 + 4 - i % 4) % 4); j < 16 && j % 4 + 4 * ((j / 4 + j % 4) % 4) == i
  {
  }

  lemma ShiftUndone(b: seq<bv8>)
    requires |b| == 16
    ensures UnshiftRows(ShiftRows(b)) == b
  {
    var m := ShiftRows(b);
    forall i | 0 <= i < 16 ensures UnshiftRows(m)[i] == b[i] {
      ShiftIndex(i);
    }
  }

  lemma MixUndone(b: seq<bv8>)
    requires |b| == 16
    ensures UnmixColumns(MixColumns(b)) == b
  {
    forall j: nat | ColumnStart(j) ensures ColumnAt(b, j) == UnmixColumn(ColumnAt(MixColumns(b), j)) {
      ColumnByColumn(MixColumn, b, j);
      ColumnUndone(ColumnAt(b, j));
    }
    ColumnsDecide(UnmixColumn, b, MixColumns(b));
  }

  // ---- the key schedule, eight words at a time ----

  /** Byte i of the next eight words: each byte takes up the one four places before it, the first four the last word
      rotated and substituted, the fifth word the fourth substituted. */
  function NextByte(s: Table, r: bv8, k: seq<bv8>, i: nat): bv8
    requires |k| == 32 && i < 32
  {
    if i == 0 then Xor(k[0], Xor(s(k[29]), r))
    else if i < 3 then Xor(k[i], s(k[29 + i]))
    else if i == 3 then Xor(k[3], s(k[28]))
    else if 16 <= i < 20 then Xor(k[i], s(NextByte(s, r, k, i - 4)))
    else Xor(k[i], NextByte(s, r, k, i - 4))
  }

  function NextKey(s: Table, r: bv8, k: seq<bv8>): (n: seq<bv8>)
    requires |k| == 32
    ensures |n| == 32
  {
    seq(32, i requires 0 <= i < 32 => NextByte(s, r, k, i))
  }

  /** Byte i of the previous eight words. */
  function PreviousByte(s: Table, r: bv8, n: seq<bv8>, i: nat): bv8
    requires |n| == 32 && i < 32
    decreases if i < 4 then 1 else 0
  {
    if i == 0 then Xor(n[0], Xor(s(PreviousByte(s, r, n, 29)), r))
    else if i < 3 then Xor(n[i], s(PreviousByte(s, r, n, 29 + i)))
    else if i == 3 then Xor(n[3], s(PreviousByte(s, r, n, 28)))
    else if 16 <= i < 20 then Xor(n[i], s(n[i - 4]))
    else Xor(n[i], n[i - 4])
  }

  function PreviousKey(s: Table, r: bv8, n: seq<bv8>): (k: seq<bv8>)
    requires |n| == 32
    ensures |k| == 32
  {
    seq(32, i requires 0 <= i < 32 => PreviousByte(s, r, n, i))
  }

  lemma ByteUndone(s: Table, r: bv8, k: seq<bv8>, i: nat)
    requires |k| == 32 && i < 32
    ensures PreviousByte(s, r, NextKey(s, r, k), i) == k[i]
    decreases if i < 4 then 1 else 0
  {
    var n := NextKey(s, r, k);
    if i < 4 {
      var j := if i == 3 then 28 else 29 + i;
      ByteUndone(s, r, k, j);
      Cancel(k[i], if i == 0 then Xor(s(k[29]), r) else s(k[j]));
    } else {
      Cancel(k[i], n[i - 4]);
      Cancel(k[i], s(n[i - 4]));
    }
  }

  /** Taking the schedule one step back restores the key. */
  lemma KeyUndone(s: Table, r: bv8, k: seq<bv8>)
    requires |k| == 32
    ensures PreviousKey(s, r, NextKey(s, r, k)) == k
  {
    var n := NextKey(s, r, k);
    forall i | 0 <= i < 32 ensures PreviousKey(s, r, n)[i] == k[i] {
      ByteUndone(s, r, k, i);
    }
  }

  /** The round constant of step m. */
  function Constant(m: nat): bv8 {
    if m == 0 then 1 else Twice(Constant(m - 1))
  }

  /** The key after m steps. */
  function KeyAt(s: Table, key: seq<bv8>, m: nat): (k: seq<bv8>)
    requires |key| == 32
    ensures |k| == 32
  {
    if m == 0 then key else NextKey(s, Constant(m - 1), KeyAt(s, key, m - 1))
  }

  // ---- the cipher ----

  /** One round: key, substitution, shift and, if wanted, mixing. */
  function Round(s: Table, b: seq<bv8>, k: seq<bv8>, off: nat, mix: bool): (r: seq<bv8>)
    requires |b| == 16 && off + 16 <= |k|
    ensures |r| == 16
  {
    var x := ShiftRows(Substitute(s, AddKey(b, k, off)));
    if mix then MixColumns(x) else x
  }

  /** One round back: key, unmixing if wanted, unshift, substitution. */
  function RoundBack(si: Table, b: seq<bv8>, k: seq<bv8>, off: nat, mix: bool): (r: seq<bv8>)
    requires |b| == 16 && off + 16 <= |k|
    ensures |r| == 16
  {
    var x := AddKey(b, k, off);
    Substitute(si, UnshiftRows(if mix then UnmixColumns(x) else x))
  }

  /** The state after i rounds. Even rounds use the first half of the key, odd ones the second; the last does not
        mix. */
  function Rounds(s: Table, key: seq<bv8>, b: seq<bv8>, i: nat): (r: seq<bv8>)
    requires |key| == 32 && |b| == 16
    ensures |r| == 16
  {
    if i == 0 then b else
    Round(s, Rounds(s, key, b, i - 1), KeyAt(s, key, (i - 1) / 2), (i - 1) % 2 * 16, i < 14)
  }

  function Encrypted(s: Table, key: seq<bv8>, b: seq<bv8>): (r: seq<bv8>)
    requires |key| == 32 && |b| == 16
    ensures |r| == 16
  {
    AddKey(Rounds(s, key, b, 14), KeyAt(s, key, 7), 0)
  }

  /** The state after i rounds back, with the keys in reverse order. */
  function RoundsBack(s: Table, si: Table, key: seq<bv8>, b: seq<bv8>, i: nat): (r: seq<bv8>)
    requires |key| == 32 && |b| == 16 && i <= 14
    ensures |r| == 16
  {
    if i == 0 then b else
    RoundBack(si, RoundsBack(s, si, key, b, i - 1), KeyAt(s, key, 7 - i / 2), (i - 1) % 2 * 16, i > 1)
  }

  function Decrypted(s: Table, si: Table, key: seq<bv8>, b: seq<bv8>): (r: seq<bv8>)
    requires |key| == 32 && |b| == 16
    ensures |r| == 16
  {
    AddKey(RoundsBack(s, si, key, b, 14), KeyAt(s, key, 0), 0)
  }

  /** A round back over a round ends behind the addition of that round's key. */
  lemma RoundUndone(s: Table, si: Table, b: seq<bv8>, k: seq<bv8>, off: nat, mix: bool, k1: seq<bv8>, off1: nat)
    requires |b| == 16 && off + 16 <= |k| && off1 + 16 <= |k1| && Undoes(si, s)
    ensures Same(RoundBack(si, AddKey(Round(s, b, k, off, mix), k1, off1), k1, off1, mix), AddKey(b, k, off))
  {
    AddKeyUndone(Round(s, b, k, off, mix), k1, off1);
    var a := AddKey(b, k, off);
    MixUndone(ShiftRows(Substitute(s, a)));
    ShiftUndone(Substitute(s, a));
    SubstituteUndone(s, si, a);
  }

  /** After i rounds back the state is what encryption had after adding the key of round 14 - i. */
  lemma {:induction false} MeetsHalfway(s: Table, si: Table, key: seq<bv8>, b: seq<bv8>, i: nat)
    requires |key| == 32 && |b| == 16 && i <= 14 && Undoes(si, s)
    ensures Same(RoundsBack(s, si, key, Encrypted(s, key, b), i),
                 AddKey(Rounds(s, key, b, 14 - i), KeyAt(s, key, (14 - i) / 2), (14 - i) % 2 * 16))
  {
    if i > 0 {
      MeetsHalfway(s, si, key, b, i - 1);
      var j := 14 - i;
      assert (15 - i) / 2 == 7 - i / 2 && (15 - i) % 2 == (i - 1) % 2;
      RoundUndone(s, si, Rounds(s, key, b, j), KeyAt(s, key, j / 2), j % 2 * 16, i > 1,
                  KeyAt(s, key, 7 - i / 2), (i - 1) % 2 * 16);
    }
  }

  /** Decryption undoes encryption for every key and every block. */
  lemma DecryptUndoesEncrypt(s: Table, si: Table, key: seq<bv8>, b: seq<bv8>)
    requires |key| == 32 && |b| == 16 && Undoes(si, s)
    ensures Decrypted(s, si, key, Encrypted(s, key, b)) == b
  {
    assert Same(Decrypted(s, si, key, Encrypted(s, key, b)), b) by {
      MeetsHalfway(s, si, key, b, 14);
      AddKeyUndone(b, key, 0);
    }
  }

  // ---- in place ----

  method AddRoundKey(x: array<bv8>, k: array<bv8>, off: nat)
    requires x.Length == 16 && k.Length == 32 && x != k && off + 16 <= 32
    modifies x
    ensures x[..] == AddKey(old(x[..]), k[..], off)
  {
    ghost var b := x[..];
    var j := 0;
    while j < 16
      invariant j <= 16
      invariant forall i | 0 <= i < j :: x[i] == Xor(b[i], k[off + i])
      invariant forall i | j <= i < 16 :: x[i] == b[i]
    {
      x[j] := Xor(x[j], k[off + j]);
      j := j + 1;
    }
  }

  method SubBytes(s: Table, x: array<bv8>)
    requires x.Length == 16
    modifies x
    ensures x[..] == Substitute(s, old(x[..]))
  {
    ghost var b := x[..];
    var j := 0;
    while j < 16
      invariant j <= 16
      invariant forall i | 0 <= i < j :: x[i] == s(b[i])
      invariant forall i | j <= i < 16 :: x[i] == b[i]
    {
      x[j] := s(x[j]);
      j := j + 1;
    }
  }

  method ShiftBytes(x: array<bv8>)
    requires x.Length == 16
    modifies x
    ensures x[..] == ShiftRows(old(x[..]))
  {
    ghost var b := x[..];
    var a := x[1];
    x[1] := x[5];
    x[5] := x[9];
    x[9] := x[13];
    x[13] := a;
    a := x[10];
    x[10] := x[2];
    x[2] := a;
    a := x[3];
    x[3] := x[15];
    x[15] := x[11];
    x[11] := x[7];
    x[7] := a;
    a := x[14];
    x[14] := x[6];
    x[6] := a;
    ShiftedIs(x[..], b);
  }

  lemma ShiftedIs(x: seq<bv8>, b: seq<bv8>)
    requires |x| == 16 && |b| == 16
    requires x[0] == b[0] && x[1] == b[5] && x[2] == b[10] && x[3] == b[15]
    requires x[4] == b[4] && x[5] == b[9] && x[6] == b[14] && x[7] == b[3]
    requires x[8] == b[8] && x[9] == b[13] && x[10] == b[2] && x[11] == b[7]
    requires x[12] == b[12] && x[13] == b[1] && x[14] == b[6] && x[15] == b[11]
    ensures x == ShiftRows(b)
  {
  }

  method UnshiftBytes(x: array<bv8>)
    requires x.Length == 16
    modifies x
    ensures x[..] == UnshiftRows(old(x[..]))
  {
    ghost var b := x[..];
    var a := x[1];
    x[1] := x[13];
    x[13] := x[9];
    x[9] := x[5];
    x[5] := a;
    a := x[2];
    x[2] := x[10];
    x[10] := a;
    a := x[3];
    x[3] := x[7];
    x[7] := x[11];
    x[11] := x[15];
    x[15] := a;
    a := x[6];
    x[6] := x[14];
    x[14] := a;
    UnshiftedIs(x[..], b);
  }

  lemma UnshiftedIs(x: seq<bv8>, b: seq<bv8>)
    requires |x| == 16 && |b| == 16
    requires x[0] == b[0] && x[1] == b[13] && x[2] == b[10] && x[3] == b[7]
    requires x[4] == b[4] && x[5] == b[1] && x[6] == b[14] && x[7] == b[11]
    requires x[8] == b[8] && x[9] == b[5] && x[10] == b[2] && x[11] == b[15]
    requires x[12] == b[12] && x[13] == b[9] && x[14] == b[6] && x[15] == b[3]
    ensures x == UnshiftRows(b)
  {
  }

  /** Mixes the column that starts at byte j. */
  method MixColumnInPlace(x: array<bv8>, j: nat)
    requires x.Length == 16 && j + 4 <= 16
    modifies x
    ensures ColumnAt(x[..], j) == MixColumn(old(ColumnAt(x[..], j)))
    ensures forall i | 0 <= i < 16 && !(j <= i < j + 4) :: x[i] == old(x[i])
  {
    var a, b, c, d := x[j], x[j + 1], x[j + 2], x[j + 3];
    var e := Sum(a, b, c, d);
    x[j] := Blend(e, a, b);
    x[j + 1] := Blend(e, b, c);
    x[j + 2] := Blend(e, c, d);
    x[j + 3] := Blend(e, d, a);
  }

  method UnmixColumnInPlace(x: array<bv8>, j: nat)
    requires x.Length == 16 && j + 4 <= 16
    modifies x
    ensures ColumnAt(x[..], j) == UnmixColumn(old(ColumnAt(x[..], j)))
    ensures forall i | 0 <= i < 16 && !(j <= i < j + 4) :: x[i] == old(x[i])
  {
    var a, b, c, d := x[j], x[j + 1], x[j + 2], x[j + 3];
    var e := Sum(a, b, c, d);
    var f, g := Remix(e, a, c), Remix(e, b, d);
    x[j] := Blend(f, a, b);
    x[j + 1] := Blend(g, b, c);
    x[j + 2] := Blend(f, c, d);
    x[j + 3] := Blend(g, d, a);
  }

  method MixBytes(x: array<bv8>)
    requires x.Length == 16
    modifies x
    ensures x[..] == MixColumns(old(x[..]))
  {
    ghost var b := x[..];
    var j := 0;
    while j < 16
      invariant j == 0 || j == 4 || j == 8 || j == 12 || j == 16
      invariant forall c: nat | ColumnStart(c) && c < j :: ColumnAt(x[..], c) == MixColumn(ColumnAt(b, c))
      invariant forall i | j <= i < 16 :: x[i] == b[i]
    {
      MixColumnInPlace(x, j);
      j := j + 4;
    }
    ColumnsDecide(MixColumn, x[..], b);
  }

  method UnmixBytes(x: array<bv8>)
    requires x.Length == 16
    modifies x
    ensures x[..] == UnmixColumns(old(x[..]))
  {
    ghost var b := x[..];
    var j := 0;
    while j < 16
      invariant j == 0 || j == 4 || j == 8 || j == 12 || j == 16
      invariant forall c: nat | ColumnStart(c) && c < j :: ColumnAt(x[..], c) == UnmixColumn(ColumnAt(b, c))
      invariant forall i | j <= i < 16 :: x[i] == b[i]
    {
      UnmixColumnInPlace(x, j);
      j := j + 4;
    }
    ColumnsDecide(UnmixColumn, x[..], b);
  }

  // ---- the key in place ----

  /** The first j bytes are those of n, the rest those of k. */
  ghost predicate Upto(x: seq<bv8>, n: seq<bv8>, k: seq<bv8>, j: nat) {
    |x| == |n| == |k| == 32 && forall i | 0 <= i < 32 :: x[i] == if i < j then n[i] else k[i]
  }

  lemma NextStart(s: Table, r: bv8, k: seq<bv8>)
    requires |k| == 32
    ensures var n := NextKey(s, r, k);
      && n[0] == Xor(k[0], Xor(s(k[29]), r)) && n[1] == Xor(k[1], s(k[30]))
      && n[2] == Xor(k[2], s(k[31])) && n[3] == Xor(k[3], s(k[28]))
  {
  }

  method ExpandStart(s: Table, k: array<bv8>, r: bv8, ghost n: seq<bv8>)
    requires k.Length == 32 && |n| == 32
    requires n[0] == Xor(k[0], Xor(s(k[29]), r)) && n[1] == Xor(k[1], s(k[30]))
    requires n[2] == Xor(k[2], s(k[31])) && n[3] == Xor(k[3], s(k[28]))
    modifies k
    ensures Upto(k[..], n, old(k[..]), 4)
  {
    ghost var was := k[..];
    SetByte(k, 0, Xor(k[0], Xor(s(k[29]), r)), n, was);
    SetByte(k, 1, Xor(k[1], s(k[30])), n, was);
    SetByte(k, 2, Xor(k[2], s(k[31])), n, was);
    SetByte(k, 3, Xor(k[3], s(k[28])), n, was);
  }

  /** The next byte of the new key. */
  method SetByte(k: array<bv8>, j: nat, v: bv8, ghost n: seq<bv8>, ghost was: seq<bv8>)
    requires k.Length == 32 && j < 32 && Upto(k[..], n, was, j) && v == n[j]
    modifies k
    ensures Upto(k[..], n, was, j + 1)
  {
    k[j] := v;
  }

  /** Each byte takes up the one four places before it. */
  method ExpandPlain(s: Table, k: array<bv8>, ghost r: bv8, ghost was: seq<bv8>, from: nat, to: nat)
    requires k.Length == 32 && 4 <= from <= to <= 32 && (to <= 16 || 20 <= from)
    requires |was| == 32 && Upto(k[..], NextKey(s, r, was), was, from)
    modifies k
    ensures Upto(k[..], NextKey(s, r, was), was, to)
  {
    var j := from;
    while j < to
      invariant from <= j <= to && Upto(k[..], NextKey(s, r, was), was, j)
    {
      assert NextKey(s, r, was)[j] == Xor(was[j], NextKey(s, r, was)[j - 4]);
      k[j] := Xor(k[j], k[j - 4]);
      j := j + 1;
    }
  }

  method ExpandSubstituted(s: Table, k: array<bv8>, ghost r: bv8, ghost was: seq<bv8>)
    requires k.Length == 32 && |was| == 32 && Upto(k[..], NextKey(s, r, was), was, 16)
    modifies k
    ensures Upto(k[..], NextKey(s, r, was), was, 20)
  {
    var j := 16;
    while j < 20
      invariant 16 <= j <= 20 && Upto(k[..], NextKey(s, r, was), was, j)
    {
      assert NextKey(s, r, was)[j] == Xor(was[j], s(NextKey(s, r, was)[j - 4]));
      k[j] := Xor(k[j], s(k[j - 4]));
      j := j + 1;
    }
  }

  /** Takes one step of the schedule; returns the next round constant. */
  method ExpandKey(s: Table, k: array<bv8>, r: bv8) returns (next: bv8)
    requires k.Length == 32
    modifies k
    ensures k[..] == NextKey(s, r, old(k[..])) && next == Twice(r)
  {
    ghost var was := k[..];
    NextStart(s, r, was);
    ExpandStart(s, k, r, NextKey(s, r, was));
    next := Twice(r);
    ExpandPlain(s, k, r, was, 4, 16);
    ExpandSubstituted(s, k, r, was);
    ExpandPlain(s, k, r, was, 20, 32);
  }

  /** Bytes j to 31 are restored, the first j are still those of n. */
  method UnexpandPlain(s: Table, k: array<bv8>, ghost r: bv8, ghost was: seq<bv8>, from: nat, to: nat)
    requires k.Length == 32 && 4 <= to <= from <= 32 && (from <= 16 || 20 <= to)
    requires |was| == 32 && Upto(k[..], was, PreviousKey(s, r, was), from)
    modifies k
    ensures Upto(k[..], was, PreviousKey(s, r, was), to)
  {
    var j := from - 4;
    while j > to - 4
      invariant to - 4 <= j <= from - 4 && Upto(k[..], was, PreviousKey(s, r, was), j + 4)
    {
      assert PreviousKey(s, r, was)[j + 3] == Xor(was[j + 3], was[j - 1]);
      k[j + 3] := Xor(k[j + 3], k[j - 1]);
      j := j - 1;
    }
  }

  method UnexpandSubstituted(s: Table, k: array<bv8>, ghost was: seq<bv8>, ghost p: seq<bv8>)
    requires k.Length == 32 && Upto(k[..], was, p, 20)
    requires forall i | 16 <= i < 20 :: p[i] == Xor(was[i], s(was[i - 4]))
    modifies k
    ensures Upto(k[..], was, p, 16)
  {
    RestoreByte(k, 16, Xor(k[16], s(k[12])), was, p);
    RestoreByte(k, 17, Xor(k[17], s(k[13])), was, p);
    RestoreByte(k, 18, Xor(k[18], s(k[14])), was, p);
    RestoreByte(k, 19, Xor(k[19], s(k[15])), was, p);
  }

  /** Upto byte 20, with the bytes from 16 to j restored. */
  ghost predicate Restored(x: seq<bv8>, was: seq<bv8>, p: seq<bv8>, j: nat) {
    && |x| == |was| == |p| == 32
    && forall i | 0 <= i < 32 :: x[i] == if i < 16 || j <= i < 20 then was[i] else p[i]
  }

  method RestoreByte(k: array<bv8>, j: nat, v: bv8, ghost was: seq<bv8>, ghost p: seq<bv8>)
    requires k.Length == 32 && 16 <= j < 20 && Restored(k[..], was, p, j) && v == p[j]
    modifies k
    ensures Restored(k[..], was, p, j + 1)
  {
    k[j] := v;
  }

  lemma PreviousStart(s: Table, r: bv8, n: seq<bv8>)
    requires |n| == 32
    ensures var p := PreviousKey(s, r, n);
      && p[0] == Xor(n[0], Xor(s(p[29]), r)) && p[1] == Xor(n[1], s(p[30]))
      && p[2] == Xor(n[2], s(p[31])) && p[3] == Xor(n[3], s(p[28]))
  {
  }

  method UnexpandStart(s: Table, k: array<bv8>, r: bv8, ghost was: seq<bv8>, ghost p: seq<bv8>)
    requires k.Length == 32 && Upto(k[..], was, p, 4)
    requires p[0] == Xor(was[0], Xor(s(p[29]), r)) && p[1] == Xor(was[1], s(p[30]))
    requires p[2] == Xor(was[2], s(p[31])) && p[3] == Xor(was[3], s(p[28]))
    modifies k
    ensures k[..] == p
  {
    k[0] := Xor(k[0], Xor(s(k[29]), r));
    k[1] := Xor(k[1], s(k[30]));
    k[2] := Xor(k[2], s(k[31]));
    k[3] := Xor(k[3], s(k[28]));
  }

  /** Takes the last step of the schedule back, from the end; returns the constant of that step. */
  method UnexpandKey(s: Table, k: array<bv8>, r: bv8) returns (last: bv8)
    requires k.Length == 32
    modifies k
    ensures last == Half(r) && k[..] == PreviousKey(s, last, old(k[..]))
  {
    ghost var was := k[..];
    UnexpandPlain(s, k, Half(r), was, 32, 20);
    UnexpandSubstituted(s, k, was, PreviousKey(s, Half(r), was));
    UnexpandPlain(s, k, Half(r), was, 16, 4);
    last := Half(r);
    PreviousStart(s, last, was);
    UnexpandStart(s, k, last, was, PreviousKey(s, last, was));
  }

  // ---- the cipher in place ----

  /** One round of encryption. */
  method EncryptRound(s: Table, x: array<bv8>, k: array<bv8>, off: nat, mix: bool)
    requires x.Length == 16 && k.Length == 32 && x != k && off + 16 <= 32
    modifies x
    ensures Same(x[..], Round(s, old(x[..]), k[..], off, mix))
  {
    AddRoundKey(x, k, off);
    SubBytes(s, x);
    ShiftBytes(x);
    if mix { MixBytes(x); }
  }

  method DecryptRound(si: Table, x: array<bv8>, k: array<bv8>, off: nat, mix: bool)
    requires x.Length == 16 && k.Length == 32 && x != k && off + 16 <= 32
    modifies x
    ensures Same(x[..], RoundBack(si, old(x[..]), k[..], off, mix))
  {
    AddRoundKey(x, k, off);
    if mix { UnmixBytes(x); }
    UnshiftBytes(x);
    SubBytes(si, x);
  }

  method Copy(a: array<bv8>) returns (c: array<bv8>)
    ensures fresh(c) && c.Length == a.Length && Same(c[..], a[..])
  {
    c := new bv8[a.Length](i requires 0 <= i < a.Length reads a => a[i]);
    assert c[..] == a[..];
  }

  /** The cipher stands before round i. */
  ghost predicate Encrypting(s: Table, key: seq<bv8>, b: seq<bv8>, x: seq<bv8>, k: seq<bv8>, r: bv8, i: nat) {
    && |key| == 32 && |b| == 16
    && Same(x, Rounds(s, key, b, i)) && Same(k, KeyAt(s, key, i / 2)) && r == Constant(i / 2)
  }

  method EncryptStep(s: Table, x: array<bv8>, k: array<bv8>, r: bv8, i: nat, ghost key: seq<bv8>, ghost b: seq<bv8>)
    returns (next: bv8)
    requires x.Length == 16 && k.Length == 32 && x != k && i < 14 && Encrypting(s, key, b, x[..], k[..], r, i)
    modifies x, k
    ensures Encrypting(s, key, b, x[..], k[..], next, i + 1)
  {
    EncryptRound(s, x, k, i % 2 * 16, i < 13);
    next := r;
    if i % 2 != 0 {
      next := ExpandKey(s, k, r);
    }
  }

  /** The last round key ends the encryption. */
  method EncryptLast(s: Table, x: array<bv8>, k: array<bv8>, r: bv8, ghost key: seq<bv8>, ghost b: seq<bv8>)
    requires x.Length == 16 && k.Length == 32 && x != k && Encrypting(s, key, b, x[..], k[..], r, 14)
    modifies x
    ensures Same(x[..], Encrypted(s, key, b))
  {
    AddRoundKey(x, k, 0);
  }


  /** Encrypts a block in place; the key is copied. */
  method EncryptBlock(s: Table, key: array<bv8>, buf: array<bv8>)
    requires key.Length == 32 && buf.Length == 16
    modifies buf
    ensures buf[..] == Encrypted(s, old(key[..]), old(buf[..]))
  {
    ghost var key0, b := key[..], buf[..];
    var k := Copy(key);
    var x := Copy(buf);
    var r: bv8 := 1;
    var i := 0;
    while i < 14
      invariant 0 <= i <= 14 && Encrypting(s, key0, b, x[..], k[..], r, i)
    {
      r := EncryptStep(s, x, k, r, i, key0, b);
      i := i + 1;
    }
    EncryptLast(s, x, k, r, key0, b);
    CopyOut(x, buf);
  }

  method CopyOut(x: array<bv8>, buf: array<bv8>)
    requires x.Length == buf.Length && x != buf
    modifies buf
    ensures buf[..] == x[..]
  {
    var i := 0;
    while i < x.Length
      invariant 0 <= i <= x.Length && buf[..i] == x[..i]
    {
      buf[i] := x[i];
      i := i + 1;
    }
  }

  /** Decrypts a block in place: the copy of the key is expanded to the end and taken back round by round. */
  method DecryptBlock(s: Table, si: Table, key: array<bv8>, buf: array<bv8>)
    requires key.Length == 32 && buf.Length == 16
    modifies buf
    ensures buf[..] == Decrypted(s, si, old(key[..]), old(buf[..]))
  {
    ghost var key0, b := key[..], buf[..];
    var k := Copy(key);
    var x := Copy(buf);
    var r: bv8 := 1;
    var i := 0;
    while i < 7
      invariant 0 <= i <= 7 && Same(k[..], KeyAt(s, key0, i)) && r == Constant(i)
      invariant Same(x[..], b)
    {
      r := ExpandKey(s, k, r);
      i := i + 1;
    }
    i := 0;
    while i < 14
      invariant 0 <= i <= 14
      invariant Same(x[..], RoundsBack(s, si, key0, b, i))
      invariant Same(k[..], KeyAt(s, key0, 7 - (i + 1) / 2)) && r == Constant(7 - (i + 1) / 2)
    {
      DecryptRound(si, x, k, i % 2 * 16, i > 0);
      if i % 2 == 0 {
        ghost var m := 6 - i / 2;
        KeyUndone(s, Constant(m), KeyAt(s, key0, m));
        HalfTwice(Constant(m));
        r := UnexpandKey(s, k, r);
      }
      i := i + 1;
    }
    AddRoundKey(x, k, 0);
    CopyOut(x, buf);
  }

  // ---- with the real tables ----

  /** Encrypting and then decrypting in place with the same key restores the buffer. */
  method RoundTrip(key: array<bv8>, buf: array<bv8>)
    requires key.Length == 32 && buf.Length == 16 && key != buf
    modifies buf
    ensures buf[..] == old(buf[..])
  {
    ghost var b := buf[..];
    EncryptBlock(Sbox, key, buf);
    DecryptBlock(Sbox, InverseSbox, key, buf);
    RealTables();
    DecryptUndoesEncrypt(Sbox, InverseSbox, key[..], b);
  }

  lemma RealTables()
    ensures Undoes(InverseSbox, Sbox)
  {
    forall x ensures InverseSbox(Sbox(x)) == x {
      TableUndone(x);
    }
  }
}
