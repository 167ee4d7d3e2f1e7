/** Merkle trees over transaction hashes and their BIP 37 partial encoding, as mathematics: the full tree row by row,
    the same tree node by node, and the depth-first encoding of a matched subset of its leaves. */
module MerkleTree {
  import opened Bits

  /** A 256-bit hash; zero stands for "no hash". */
  type Hash = nat

  /** The double SHA-256 of two concatenated hashes, as a parameter. */
  type Hasher = (Hash, Hash) -> Hash

  const ZERO: Hash := 0

  // ---- the full tree, row by row ----

  /** The next row up; the last hash of an odd row is paired with itself. */
  function PairUp(hh: Hasher, row: seq<Hash>): (up: seq<Hash>)
    ensures |up| == (|row| + 1) / 2
  {
    if |row| == 0 then []
    else if |row| == 1 then [hh(row[0], row[0])]
    else [hh(row[0], row[1])] + PairUp(hh, row[2..])
  }

  function RowRoot(hh: Hasher, row: seq<Hash>): Hash
    requires row != []
    decreases |row|
  {
    if |row| == 1 then row[0] else RowRoot(hh, PairUp(hh, row))
  }

  // ---- the same tree, node by node ----

  /** The node h levels above the leaves that covers exactly these leaves. */
  function Node(hh: Hasher, leaves: seq<Hash>, h: nat): Hash
    requires 0 < |leaves| <= Pow2(h)
  {
    if h == 0 then leaves[0] else
    var half := Pow2(h - 1);
    if |leaves| <= half then
      var l := Node(hh, leaves, h - 1);
      hh(l, l)
    else
      hh(Node(hh, leaves[..half], h - 1), Node(hh, leaves[half..], h - 1))
  }

  /** Height of a tree over n leaves: the least h with n <= 2^h. */
  ghost predicate IsHeight(n: nat, h: nat) {
    0 < n <= Pow2(h) && (h > 0 ==> Pow2(h - 1) < n)
  }

  lemma {:induction false} PairUpAppend(hh: Hasher, a: seq<Hash>, b: seq<Hash>)
    requires |a| % 2 == 0
    ensures PairUp(hh, a + b) == PairUp(hh, a) + PairUp(hh, b)
    decreases |a|
  {
    if a == [] {
      assert a + b == b;
    } else {
      assert (a + b)[2..] == a[2..] + b;
      PairUpAppend(hh, a[2..], b);
    }
  }

  /** Pairing up the leaves lowers every node by one level. */
  lemma {:induction false} NodeOfPairs(hh: Hasher, leaves: seq<Hash>, h: nat)
    requires 0 < |leaves| <= Pow2(h + 1)
    ensures |PairUp(hh, leaves)| <= Pow2(h)
    ensures Node(hh, leaves, h + 1) == Node(hh, PairUp(hh, leaves), h)
    decreases h
  {
    var up := PairUp(hh, leaves);
    if h == 0 {
      assert Pow2(1) == 2;
      if |leaves| == 2 {
        assert leaves[..1] == [leaves[0]] && leaves[1..] == [leaves[1]];
      }
    } else {
      var half := Pow2(h);
      if |leaves| <= half {
        NodeOfPairs(hh, leaves, h - 1);
      } else {
        var a, b := leaves[..half], leaves[half..];
        assert leaves == a + b && half == 2 * Pow2(h - 1);
        PairUpAppend(hh, a, b);
        NodeOfPairs(hh, a, h - 1);
        NodeOfPairs(hh, b, h - 1);
        assert up[..Pow2(h - 1)] == PairUp(hh, a) && up[Pow2(h - 1)..] == PairUp(hh, b);
      }
    }
  }

  /** The two definitions of the Merkle root agree. */
  lemma {:induction false} RootIsTopNode(hh: Hasher, leaves: seq<Hash>, h: nat)
    requires IsHeight(|leaves|, h)
    ensures Node(hh, leaves, h) == RowRoot(hh, leaves)
    decreases h
  {
    if h > 0 {
      assert Pow2(0) == 1 && |leaves| > 1 by { PowAtLeastOne(h - 1); }
      NodeOfPairs(hh, leaves, h - 1);
      RootIsTopNode(hh, PairUp(hh, leaves), h - 1);
    }
  }

  lemma PowAtLeastOne(k: nat)
    ensures Pow2(k) >= 1
  {
  }

  // ---- partial tree: BIP 37 ----

  predicate Any(m: seq<bool>) {
    exists i | 0 <= i < |m| :: m[i]
  }

  /** A tree cut off above everything that is not matched. Stop is a cut-off node or a leaf (flag: matched leaf);
      Single is an expanded node without a right child. */
  datatype Partial = Stop(hash: Hash, flag: bool) | Single(left: Partial) | Fork(left: Partial, right: Partial)

  function Build(hh: Hasher, leaves: seq<Hash>, m: seq<bool>, h: nat): Partial
    requires 0 < |leaves| <= Pow2(h) && |m| == |leaves|
  {
    if h == 0 || !Any(m) then Stop(Node(hh, leaves, h), Any(m)) else
    var half := Pow2(h - 1);
    if |leaves| <= half then Single(Build(hh, leaves, m, h - 1))
    else Fork(Build(hh, leaves[..half], m[..half], h - 1), Build(hh, leaves[half..], m[half..], h - 1))
  }

  /** Depth-first encoding: one bit per visited node (is a matched leaf below?) ... */
  function FlagBits(t: Partial): (bits: seq<bool>)
    ensures bits != []
  {
    match t
    case Stop(_, flag) => [flag]
    case Single(l) => [true] + FlagBits(l)
    case Fork(l, r) => [true] + FlagBits(l) + FlagBits(r)
  }

  /** ... and a hash where the traversal stops. */
  function Hashes(t: Partial): (hashes: seq<Hash>)
    ensures hashes != []
  {
    match t
    case Stop(hash, _) => [hash]
    case Single(l) => Hashes(l)
    case Fork(l, r) => Hashes(l) + Hashes(r)
  }

  function Value(hh: Hasher, t: Partial): Hash {
    match t
    case Stop(hash, _) => hash
    case Single(l) => hh(Value(hh, l), Value(hh, l))
    case Fork(l, r) => hh(Value(hh, l), Value(hh, r))
  }

  /** The flagged leaves, in order. */
  function Flagged(t: Partial): seq<Hash> {
    match t
    case Stop(hash, flag) => if flag then [hash] else []
    case Single(l) => Flagged(l)
    case Fork(l, r) => Flagged(l) + Flagged(r)
  }

  /** No expanded node lacks its right child. */
  predicate Complete(t: Partial) {
    t.Stop? || (t.Fork? && Complete(t.left) && Complete(t.right))
  }

  /** A cut of a tree of height h: flagged stops only at leaf level, missing children only at the right edge. */
  predicate Shaped(t: Partial, h: nat) {
    match t
    case Stop(_, flag) => flag ==> h == 0
    case Single(l) => h > 0 && Shaped(l, h - 1)
    case Fork(l, r) => h > 0 && Complete(l) && Shaped(l, h - 1) && Shaped(r, h - 1)
  }

  /** What the encoding needs in order to be decoded: below every expanded node the children are non-zero and differ.
      (Zero would read as "missing", and equal siblings are the duplication attack the decoder rejects.) */
  predicate Decodable(hh: Hasher, t: Partial) {
    match t
    case Stop(_, _) => true
    case Single(l) => Value(hh, l) != ZERO && Decodable(hh, l)
    case Fork(l, r) =>
      Value(hh, l) != ZERO && Value(hh, r) != ZERO && Value(hh, l) != Value(hh, r) && Decodable(hh, l) &&
          Decodable(hh, r)
  }

  /** Cutting a tree keeps its root and its matched leaves. */
  lemma {:induction false} BuildIsCut(hh: Hasher, leaves: seq<Hash>, m: seq<bool>, h: nat)
    requires 0 < |leaves| <= Pow2(h) && |m| == |leaves|
    ensures Shaped(Build(hh, leaves, m, h), h)
    ensures |leaves| == Pow2(h) ==> Complete(Build(hh, leaves, m, h))
    ensures Value(hh, Build(hh, leaves, m, h)) == Node(hh, leaves, h)
    ensures Flagged(Build(hh, leaves, m, h)) == Matched(leaves, m)
    decreases h
  {
    if h == 0 || !Any(m) {
      MatchedAtStop(leaves, m, h);
    } else {
      var half := Pow2(h - 1);
      if |leaves| <= half {
        BuildIsCut(hh, leaves, m, h - 1);
      } else {
        BuildIsCut(hh, leaves[..half], m[..half], h - 1);
        BuildIsCut(hh, leaves[half..], m[half..], h - 1);
        MatchedSplit(leaves, m, half);
      }
    }
  }

  lemma MatchedAtStop(leaves: seq<Hash>, m: seq<bool>, h: nat)
    requires 0 < |leaves| <= Pow2(h) && |m| == |leaves| && (h == 0 || !Any(m))
    ensures Matched(leaves, m) == if Any(m) then [leaves[0]] else []
  {
    if Any(m) {
      assert Matched(leaves[1..], m[1..]) == [];
    } else {
      NoneMatched(leaves, m);
    }
  }

  /** The matched leaves, in order. */
  function Matched(leaves: seq<Hash>, m: seq<bool>): seq<Hash>
    requires |m| == |leaves|
  {
    if leaves == [] then [] else (if m[0] then [leaves[0]] else []) + Matched(leaves[1..], m[1..])
  }

  lemma {:induction false} MatchedSplit(leaves: seq<Hash>, m: seq<bool>, k: nat)
    requires |m| == |leaves| && k <= |m|
    ensures Matched(leaves, m) == Matched(leaves[..k], m[..k]) + Matched(leaves[k..], m[k..])
  {
    if k > 0 {
      MatchedSplit(leaves[1..], m[1..], k - 1);
      assert leaves[1..][..k - 1] == leaves[..k][1..] && m[1..][..k - 1] == m[..k][1..];
      assert leaves[1..][k - 1..] == leaves[k..] && m[1..][k - 1..] == m[k..];
    } else {
      assert leaves[0..] == leaves && m[0..] == m;
    }
  }

  lemma {:induction false} NoneMatched(leaves: seq<Hash>, m: seq<bool>)
    requires |m| == |leaves| && !Any(m)
    ensures Matched(leaves, m) == []
  {
    if leaves != [] {
      assert !m[0];
      assert forall i | 0 <= i < |m[1..]| :: m[1..][i] == m[i + 1];
      NoneMatched(leaves[1..], m[1..]);
    }
  }

  // ---- bits packed into bytes ----

  /** Bits fill bytes from the least significant position up; the last byte is padded with zeros. */
  function ByteOf(bits: seq<bool>): (b: nat)
    requires |bits| <= 8
    ensures b < Pow2(|bits|)
  {
    if bits == [] then 0 else (if bits[0] then 1 else 0) + 2 * ByteOf(bits[1..])
  }

  function PackBits(bits: seq<bool>): (f: seq<nat>)
    ensures |f| == (|bits| + 7) / 8
  {
    if |bits| <= 8 then (if bits == [] then [] else [ByteOf(bits)])
    else [ByteOf(bits[..8])] + PackBits(bits[8..])
  }

  /** The flag test of the code: the byte masked with a single shifted bit. */
  function FlagAt(flags: seq<nat>, i: nat): bool
    requires i / 8 < |flags|
  {
    And(flags[i / 8], Pow2(i % 8)) != 0
  }

  lemma {:induction false} ByteBit(bits: seq<bool>, k: nat)
    requires k < |bits| <= 8
    ensures And(ByteOf(bits), Pow2(k)) != 0 <==> bits[k]
  {
    var b := ByteOf(bits);
    AndStep(b, Pow2(k));
    if k == 0 {
      AndZero(b / 2);
    } else {
      assert b / 2 == ByteOf(bits[1..]) && Pow2(k) / 2 == Pow2(k - 1);
      ByteBit(bits[1..], k - 1);
    }
  }

  lemma {:induction false} PackedFlag(bits: seq<bool>, i: nat)
    requires i < |bits|
    ensures i / 8 < |PackBits(bits)| && FlagAt(PackBits(bits), i) == bits[i]
  {
    if |bits| <= 8 {
      ByteBit(bits, i);
    } else if i < 8 {
      ByteBit(bits[..8], i);
    } else {
      PackedFlag(bits[8..], i - 8);
      assert i / 8 == (i - 8) / 8 + 1 && i % 8 == (i - 8) % 8;
    }
  }
}
