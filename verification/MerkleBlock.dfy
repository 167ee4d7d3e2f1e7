/** The partial-tree walkers of BRMerkleBlock.c: one rebuilds the Merkle root, the other lists the matched hashes.
    Both read the same two streams, hashes and flag bits, through cursors that they advance. */
module MerkleBlock {
  import opened Bits
  import opened MerkleTree

  datatype Block = Block(totalTx: nat, hashes: seq<Hash>, flags: seq<nat>)

  /** The two streams of a block as the walkers read them: hashes, and flag bits taken out of their bytes. */
  datatype Streams = Streams(hashes: seq<Hash>, flags: seq<bool>)

  function StreamsOf(b: Block): (s: Streams)
    ensures |s.flags| == 8 * |b.flags|
  {
    Streams(b.hashes, seq(8 * |b.flags|, i requires 0 <= i < 8 * |b.flags| => FlagAt(b.flags, i)))
  }

  /** s is what the walkers read from b, and top is the height of the tree. */
  ghost predicate Reads(b: Block, s: Streams, top: nat) {
    && s.hashes == b.hashes && |s.flags| == 8 * |b.flags| && top == HeightOf(b.totalTx)
    && forall i {:trigger FlagAt(b.flags, i)} | 0 <= i < |s.flags| :: s.flags[i] == FlagAt(b.flags, i)
  }

  method ReadFlag(b: Block, ghost s: Streams, ghost top: nat, i: nat) returns (flag: bool)
    requires Reads(b, s, top) && i < |s.flags|
    ensures flag == s.flags[i]
  {
    flag := FlagAt(b.flags, i);
  }

  const SIZE_MAX: nat := 0xffff_ffff_ffff_ffff

  // ---- tree height ----

  function HeightOf(n: nat): (h: nat)
    ensures n > 0 ==> IsHeight(n, h)
  {
    if n <= 1 then 0 else
    var up := HeightOf((n + 1) / 2);
    assert up > 0 ==> Pow2(up) == 2 * Pow2(up - 1);
    assert Pow2(up + 1) == 2 * Pow2(up);
    1 + up
  }

  /** Rounded-down binary logarithm. */
  function FloorLog2(x: nat): (r: nat)
    ensures x > 0 ==> Pow2(r) <= x < Pow2(r + 1)
  {
    if x <= 1 then (assert Pow2(1) == 2; 0) else
    var r := FloorLog2(x / 2);
    assert Pow2(r + 1) == 2 * Pow2(r) && Pow2(r + 2) == 2 * Pow2(r + 1);
    1 + r
  }

  /** x & (x - 1) is zero exactly for powers of two. */
  lemma {:induction false} PowerOfTwoTest(x: nat)
    requires x > 0
    ensures And(x, x - 1) == 0 <==> x == Pow2(FloorLog2(x))
  {
    AndStep(x, x - 1);
    if x == 1 {
      AndZero(0);
    } else if x % 2 == 0 {
      PowerOfTwoTest(x / 2);
      assert (x - 1) / 2 == x / 2 - 1;
      assert Pow2(FloorLog2(x)) == 2 * Pow2(FloorLog2(x / 2));
    } else {
      AndSelf(x / 2);
      assert Pow2(FloorLog2(x)) == 2 * Pow2(FloorLog2(x / 2));
    }
  }

  lemma {:induction false} AndSelf(x: nat)
    ensures And(x, x) == x
  {
    if x > 0 {
      AndSelf(x / 2);
    }
  }

  lemma {:induction false} HeightUnique(n: nat, g: nat, h: nat)
    requires IsHeight(n, g) && IsHeight(n, h)
    ensures g == h
  {
    if g < h {
      PowMonotone(g, h - 1);
    } else if h < g {
      PowMonotone(h, g - 1);
    }
  }

  lemma {:induction false} PowMonotone(a: nat, b: nat)
    requires a <= b
    ensures Pow2(a) <= Pow2(b)
    decreases b - a
  {
    if a < b {
      PowMonotone(a, b - 1);
    }
  }

  /** _ceil_log2 */
  method CeilLog2(n: nat) returns (r: nat)
    requires n < 0x8000_0000
    ensures r == HeightOf(n)
  {
    var x := n;
    r := if x > 0 && And(x, x - 1) != 0 then 1 else 0;
    ghost var extra := r;
    x := x / 2;
    while x != 0
      invariant n > 0 ==> FloorLog2(n) == r - extra + (if x == 0 then 0 else 1 + FloorLog2(x))
      invariant n == 0 ==> x == 0 && r == 0
    {
      r := r + 1;
      x := x / 2;
    }
    if n > 0 {
      PowerOfTwoTest(n);
      HeightFromLog(n, extra);
      HeightUnique(n, r, HeightOf(n));
    }
  }

  lemma HeightFromLog(n: nat, extra: nat)
    requires n > 0 && extra == if n == Pow2(FloorLog2(n)) then 0 else 1
    ensures IsHeight(n, FloorLog2(n) + extra)
  {
    var l := FloorLog2(n);
    assert Pow2(l + 1) == 2 * Pow2(l);
    assert l > 0 ==> Pow2(l) == 2 * Pow2(l - 1);
  }

  // ---- the root walker ----

  /** What the walker does from given cursor positions: the node value and both cursors afterwards. */
  function RootWalk(hh: Hasher, s: Streams, top: nat, hashIdx: nat, flagIdx: nat, depth: nat): (Hash, nat, nat)
    requires depth <= top
    decreases top - depth
  {
    if flagIdx < |s.flags| && hashIdx < |s.hashes| then
      if s.flags[flagIdx] && depth != top then
        var (l, h1, f1) := RootWalk(hh, s, top, hashIdx, flagIdx + 1, depth + 1);
        var (r, h2, f2) := RootWalk(hh, s, top, h1, f1, depth + 1);
        if l != ZERO && l != r then (hh(l, if r == ZERO then l else r), h2, f2) else (ZERO, SIZE_MAX, f2)
      else (s.hashes[hashIdx], hashIdx + 1, flagIdx + 1)
    else (ZERO, hashIdx, flagIdx)
  }

  /** _BRMerkleBlockRootR */
  method RootR(hh: Hasher, b: Block, hashIdx0: nat, flagIdx0: nat, depth: nat, ghost s: Streams, ghost top: nat)
    returns (md: Hash, hashIdx: nat, flagIdx: nat)
    requires b.totalTx < 0x8000_0000 && Reads(b, s, top) && depth <= top
    ensures (md, hashIdx, flagIdx) == RootWalk(hh, s, top, hashIdx0, flagIdx0, depth)
    decreases top - depth
  {
    md, hashIdx, flagIdx := ZERO, hashIdx0, flagIdx0;
    if flagIdx / 8 < |b.flags| && hashIdx < |b.hashes| {
      var flag := ReadFlag(b, s, top, flagIdx);
      flagIdx := flagIdx + 1;
      var height := CeilLog2(b.totalTx);
      if flag && depth != height {
        var left, right;
        left, hashIdx, flagIdx := RootR(hh, b, hashIdx, flagIdx, depth + 1, s, top);
        right, hashIdx, flagIdx := RootR(hh, b, hashIdx, flagIdx, depth + 1, s, top);
        if left != ZERO && left != right {
          if right == ZERO {
            right := left;
          }
          md := hh(left, right);
        } else {
          hashIdx := SIZE_MAX;
        }
      } else {
        md := b.hashes[hashIdx];
        hashIdx := hashIdx + 1;
      }
    }
  }

  /** The root walk over a whole block, as the validity check starts it. */
  method MerkleRoot(hh: Hasher, b: Block) returns (md: Hash)
    requires b.totalTx < 0x8000_0000
    ensures md == RootWalk(hh, StreamsOf(b), HeightOf(b.totalTx), 0, 0, 0).0
  {
    var h, f;
    md, h, f := RootR(hh, b, 0, 0, 0, StreamsOf(b), HeightOf(b.totalTx));
  }

  // ---- the walker for matched hashes ----

  function TxWalk(s: Streams, top: nat, hashIdx: nat, flagIdx: nat, depth: nat): (seq<Hash>, nat, nat)
    requires depth <= top
    decreases top - depth
  {
    if flagIdx < |s.flags| && hashIdx < |s.hashes| then
      var flag := s.flags[flagIdx];
      if !flag || depth == top then
        (if flag then [s.hashes[hashIdx]] else [], hashIdx + 1, flagIdx + 1)
      else
        var (l, h1, f1) := TxWalk(s, top, hashIdx, flagIdx + 1, depth + 1);
        var (r, h2, f2) := TxWalk(s, top, h1, f1, depth + 1);
        (l + r, h2, f2)
    else ([], hashIdx, flagIdx)
  }

  function Min(a: nat, b: nat): nat {
    if a < b then a else b
  }

  /** _BRMerkleBlockTxHashesR: found hashes go to the next free places of the caller's buffer, up to its capacity;
      without a buffer they are only counted. */
  method TxHashesR(b: Block, txHashes: array?<Hash>, capacity: nat, idx0: nat, hashIdx0: nat, flagIdx0: nat, depth: nat,
                   ghost s: Streams, ghost top: nat)
    returns (idx: nat, hashIdx: nat, flagIdx: nat, ghost found: seq<Hash>)
    requires b.totalTx < 0x8000_0000 && Reads(b, s, top) && depth <= top && idx0 <= capacity
    requires txHashes != null ==> capacity <= txHashes.Length
    modifies txHashes
    ensures (found, hashIdx, flagIdx) == TxWalk(s, top, hashIdx0, flagIdx0, depth)
    ensures idx == Min(idx0 + |found|, capacity)
    ensures txHashes != null ==> txHashes[..] == Filled(old(txHashes[..]), idx0, found, idx)
    decreases top - depth, 0
  {
    idx, hashIdx, flagIdx, found := idx0, hashIdx0, flagIdx0, [];
    if flagIdx / 8 < |b.flags| && hashIdx < |b.hashes| {
      var flag := ReadFlag(b, s, top, flagIdx);
      flagIdx := flagIdx + 1;
      var height := CeilLog2(b.totalTx);
      if !flag || depth == height {
        if flag {
          found := [b.hashes[hashIdx]];
        }
        if flag && idx < capacity {
          Store(txHashes, idx, b.hashes[hashIdx]);
          idx := idx + 1;
        }
        hashIdx := hashIdx + 1;
      } else {
        ghost var l := TxWalk(s, top, hashIdx, flagIdx, depth + 1);
        ghost var r := TxWalk(s, top, l.1, l.2, depth + 1);
        TxJoin(s, top, hashIdx, flagIdx - 1, depth, l.0, l.1, l.2, r.0, r.1, r.2);
        idx, hashIdx, flagIdx, found := TxBranches(b, txHashes, capacity, idx, hashIdx, flagIdx, depth + 1, s, top);
      }
    }
  }

  /** The two recursive calls: left branch, then right branch from where the left one stopped. */
  method TxBranches(b: Block, txHashes: array?<Hash>, capacity: nat, idx0: nat, hashIdx0: nat, flagIdx0: nat,
                    depth: nat,
                    ghost s: Streams, ghost top: nat)
    returns (idx: nat, hashIdx: nat, flagIdx: nat, ghost found: seq<Hash>)
    requires b.totalTx < 0x8000_0000 && Reads(b, s, top) && depth <= top && idx0 <= capacity
    requires txHashes != null ==> capacity <= txHashes.Length
    modifies txHashes
    ensures var l := TxWalk(s, top, hashIdx0, flagIdx0, depth);
            var r := TxWalk(s, top, l.1, l.2, depth);
            found == l.0 + r.0 && hashIdx == r.1 && flagIdx == r.2
    ensures idx == Min(idx0 + |found|, capacity)
    ensures txHashes != null ==> txHashes[..] == Filled(old(txHashes[..]), idx0, found, idx)
    decreases top - depth, 1
  {
    ghost var before := if txHashes == null then [] else txHashes[..];
    ghost var l, r;
    idx, hashIdx, flagIdx, l := TxHashesR(b, txHashes, capacity, idx0, hashIdx0, flagIdx0, depth, s, top);
    idx, hashIdx, flagIdx, r := TxHashesR(b, txHashes, capacity, idx, hashIdx, flagIdx, depth, s, top);
    found := l + r;
    if txHashes != null {
      FilledTwice(before, idx0, l, r, capacity);
    }
  }

  method Store(txHashes: array?<Hash>, idx: nat, hash: Hash)
    requires txHashes != null ==> idx < txHashes.Length
    modifies txHashes
    ensures txHashes != null ==> txHashes[..] == Filled(old(txHashes[..]), idx, [hash], idx + 1)
  {
    if txHashes != null {
      txHashes[idx] := hash;
    }
  }

  /** A buffer with the first hashes of found stored at idx0 .. idx - 1. */
  ghost function Filled(buf: seq<Hash>, idx0: nat, found: seq<Hash>, idx: nat): (out: seq<Hash>)
    requires idx0 <= idx <= |buf| && idx <= idx0 + |found|
    ensures |out| == |buf|
  {
    buf[..idx0] + found[..idx - idx0] + buf[idx..]
  }

  lemma FilledTwice(buf: seq<Hash>, idx0: nat, l: seq<Hash>, r: seq<Hash>, capacity: nat)
    requires idx0 <= capacity <= |buf|
    ensures var idx1 := Min(idx0 + |l|, capacity);
            var idx2 := Min(idx1 + |r|, capacity);
            idx2 == Min(idx0 + |l + r|, capacity) &&
            Filled(Filled(buf, idx0, l, idx1), idx1, r, idx2) == Filled(buf, idx0, l + r, idx2)
  {
  }

  /** BRMerkleBlockTxHashes */
  method TxHashes(b: Block, txHashes: array?<Hash>, hashesCount: nat) returns (n: nat)
    requires b.totalTx < 0x8000_0000 && (txHashes != null ==> hashesCount <= txHashes.Length)
    modifies txHashes
    ensures var found := TxWalk(StreamsOf(b), HeightOf(b.totalTx), 0, 0, 0).0;
            n == Min(|found|, if txHashes != null then hashesCount else SIZE_MAX) &&
            (txHashes != null ==> txHashes[..n] == found[..n])
  {
    var h, f;
    ghost var found;
    n, h, f, found := TxHashesR(b, txHashes, if txHashes != null then hashesCount else SIZE_MAX, 0, 0, 0, 0,
                                StreamsOf(b), HeightOf(b.totalTx));
  }

  // ---- decoding what BIP 37 encodes ----

  ghost predicate At<T>(all: seq<T>, at: nat, part: seq<T>) {
    at + |part| <= |all| && all[at..at + |part|] == part
  }

  lemma AtParts<T>(all: seq<T>, at: nat, l: seq<T>, r: seq<T>)
    requires At(all, at, l + r)
    ensures At(all, at, l) && At(all, at + |l|, r)
  {
    var part := all[at..at + |l| + |r|];
    assert part[..|l|] == l && part[|l|..] == r;
  }

  lemma AtFirst<T>(all: seq<T>, at: nat, x: T)
    requires At(all, at, [x])
    ensures at < |all| && all[at] == x
  {
    assert all[at..at + 1][0] == all[at];
  }

  /** From these cursors on, the streams start with the encoding of the tree. */
  ghost predicate Carries(s: Streams, hashIdx: nat, flagIdx: nat, t: Partial) {
    At(s.hashes, hashIdx, Hashes(t)) && At(s.flags, flagIdx, FlagBits(t))
  }

  lemma CarriesParts(s: Streams, hashIdx: nat, flagIdx: nat, t: Partial)
    requires Carries(s, hashIdx, flagIdx, t) && !t.Stop?
    ensures flagIdx < |s.flags| && s.flags[flagIdx] && hashIdx < |s.hashes|
    ensures Carries(s, hashIdx, flagIdx + 1, t.left)
    ensures t.Fork? ==> Carries(s, hashIdx + |Hashes(t.left)|, flagIdx + 1 + |FlagBits(t.left)|, t.right)
  {
    if t.Fork? {
      AtParts(s.flags, flagIdx, [true] + FlagBits(t.left), FlagBits(t.right));
      AtParts(s.hashes, hashIdx, Hashes(t.left), Hashes(t.right));
    }
    AtParts(s.flags, flagIdx, [true], FlagBits(t.left));
    AtFirst(s.flags, flagIdx, true);
  }

  lemma RootJoin(hh: Hasher, s: Streams, top: nat, hashIdx: nat, flagIdx: nat, depth: nat,
                 l: Hash, h1: nat, f1: nat, r: Hash, h2: nat, f2: nat)
    requires depth < top && hashIdx < |s.hashes| && flagIdx < |s.flags| && s.flags[flagIdx]
    requires RootWalk(hh, s, top, hashIdx, flagIdx + 1, depth + 1) == (l, h1, f1)
    requires RootWalk(hh, s, top, h1, f1, depth + 1) == (r, h2, f2)
    requires l != ZERO && l != r
    ensures RootWalk(hh, s, top, hashIdx, flagIdx, depth) == (hh(l, if r == ZERO then l else r), h2, f2)
  {
  }

  lemma TxJoin(s: Streams, top: nat, hashIdx: nat, flagIdx: nat, depth: nat,
               l: seq<Hash>, h1: nat, f1: nat, r: seq<Hash>, h2: nat, f2: nat)
    requires depth < top && hashIdx < |s.hashes| && flagIdx < |s.flags| && s.flags[flagIdx]
    requires TxWalk(s, top, hashIdx, flagIdx + 1, depth + 1) == (l, h1, f1)
    requires TxWalk(s, top, h1, f1, depth + 1) == (r, h2, f2)
    ensures TxWalk(s, top, hashIdx, flagIdx, depth) == (l + r, h2, f2)
  {
  }

  /** At the end of the hash stream both walkers report nothing and stay put. */
  lemma WalkMissing(hh: Hasher, s: Streams, top: nat, flagIdx: nat, depth: nat)
    requires depth <= top
    ensures RootWalk(hh, s, top, |s.hashes|, flagIdx, depth) == (ZERO, |s.hashes|, flagIdx)
    ensures TxWalk(s, top, |s.hashes|, flagIdx, depth) == ([], |s.hashes|, flagIdx)
  {
  }

  lemma WalkStop(hh: Hasher, s: Streams, top: nat, t: Partial, hashIdx: nat, flagIdx: nat, depth: nat)
    requires t.Stop? && depth <= top && (t.flag ==> depth == top) && Carries(s, hashIdx, flagIdx, t)
    ensures RootWalk(hh, s, top, hashIdx, flagIdx, depth) == (t.hash, hashIdx + 1, flagIdx + 1)
    ensures TxWalk(s, top, hashIdx, flagIdx, depth) == (Flagged(t), hashIdx + 1, flagIdx + 1)
  {
    AtFirst(s.flags, flagIdx, t.flag);
    AtFirst(s.hashes, hashIdx, t.hash);
  }

  /** Both walkers decode the tree from these cursors. */
  ghost predicate Decodes(hh: Hasher, s: Streams, t: Partial, h: nat, hashIdx: nat, flagIdx: nat, depth: nat) {
    var h2, f2 := hashIdx + |Hashes(t)|, flagIdx + |FlagBits(t)|;
    RootWalk(hh, s, depth + h, hashIdx, flagIdx, depth) == (Value(hh, t), h2, f2) &&
    TxWalk(s, depth + h, hashIdx, flagIdx, depth) == (Flagged(t), h2, f2)
  }

  /** Both walkers, from any cursors where the encoding of a subtree starts. A subtree with a missing node must be
      the last thing in the hash stream: that is how the walkers notice that a right branch is missing. */
  lemma {:induction false} WalkEncoded(hh: Hasher, s: Streams, t: Partial, h: nat, hashIdx: nat, flagIdx: nat,
                                       depth: nat)
    requires Shaped(t, h) && Decodable(hh, t) && Carries(s, hashIdx, flagIdx, t)
    requires Complete(t) || hashIdx + |Hashes(t)| == |s.hashes|
    ensures Decodes(hh, s, t, h, hashIdx, flagIdx, depth)
    decreases t, 1
  {
    if t.Stop? {
      WalkStop(hh, s, depth + h, t, hashIdx, flagIdx, depth);
    } else if t.Fork? {
      ForkEncoded(hh, s, t, h, hashIdx, flagIdx, depth);
    } else {
      CarriesParts(s, hashIdx, flagIdx, t);
      WalkEncoded(hh, s, t.left, h - 1, hashIdx, flagIdx + 1, depth + 1);
      DecodesSingle(hh, s, t, h, hashIdx, flagIdx, depth);
    }
  }

  lemma {:induction false} ForkEncoded(hh: Hasher, s: Streams, t: Partial, h: nat, hashIdx: nat, flagIdx: nat,
                                       depth: nat)
    requires t.Fork? && Shaped(t, h) && Decodable(hh, t) && Carries(s, hashIdx, flagIdx, t)
    requires Complete(t) || hashIdx + |Hashes(t)| == |s.hashes|
    ensures Decodes(hh, s, t, h, hashIdx, flagIdx, depth)
    decreases t, 0
  {
    var h1, f1 := hashIdx + |Hashes(t.left)|, flagIdx + 1 + |FlagBits(t.left)|;
    CarriesParts(s, hashIdx, flagIdx, t);
    WalkEncoded(hh, s, t.left, h - 1, hashIdx, flagIdx + 1, depth + 1);
    WalkEncoded(hh, s, t.right, h - 1, h1, f1, depth + 1);
    DecodesFork(hh, s, t, h, hashIdx, flagIdx, depth);
  }

  lemma DecodesFork(hh: Hasher, s: Streams, t: Partial, h: nat, hashIdx: nat, flagIdx: nat, depth: nat)
    requires t.Fork? && h > 0 && hashIdx < |s.hashes| && flagIdx < |s.flags| && s.flags[flagIdx]
    requires Value(hh, t.left) != ZERO && Value(hh, t.right) != ZERO && Value(hh, t.left) != Value(hh, t.right)
    requires Decodes(hh, s, t.left, h - 1, hashIdx, flagIdx + 1, depth + 1)
    requires Decodes(hh, s, t.right, h - 1, hashIdx + |Hashes(t.left)|, flagIdx + 1 + |FlagBits(t.left)|, depth + 1)
    ensures Decodes(hh, s, t, h, hashIdx, flagIdx, depth)
  {
    var h1, f1 := hashIdx + |Hashes(t.left)|, flagIdx + 1 + |FlagBits(t.left)|;
    var h2, f2 := h1 + |Hashes(t.right)|, f1 + |FlagBits(t.right)|;
    RootJoin(hh, s, depth + h, hashIdx, flagIdx, depth, Value(hh, t.left), h1, f1, Value(hh, t.right), h2, f2);
    TxJoin(s, depth + h, hashIdx, flagIdx, depth, Flagged(t.left), h1, f1, Flagged(t.right), h2, f2);
  }

  lemma DecodesSingle(hh: Hasher, s: Streams, t: Partial, h: nat, hashIdx: nat, flagIdx: nat, depth: nat)
    requires t.Single? && h > 0 && hashIdx < |s.hashes| && flagIdx < |s.flags| && s.flags[flagIdx]
    requires Value(hh, t.left) != ZERO && hashIdx + |Hashes(t.left)| == |s.hashes|
    requires Decodes(hh, s, t.left, h - 1, hashIdx, flagIdx + 1, depth + 1)
    ensures Decodes(hh, s, t, h, hashIdx, flagIdx, depth)
  {
    var h1, f1 := hashIdx + |Hashes(t.left)|, flagIdx + 1 + |FlagBits(t.left)|;
    WalkMissing(hh, s, depth + h, f1, depth + 1);
    RootJoin(hh, s, depth + h, hashIdx, flagIdx, depth, Value(hh, t.left), h1, f1, ZERO, h1, f1);
    TxJoin(s, depth + h, hashIdx, flagIdx, depth, Flagged(t.left), h1, f1, [], h1, f1);
    assert Flagged(t.left) + [] == Flagged(t);
  }

  /** The block a peer sends for these transactions and matches. */
  function EncodedBlock(hh: Hasher, leaves: seq<Hash>, m: seq<bool>): Block
    requires leaves != [] && |m| == |leaves|
  {
    var t := Build(hh, leaves, m, HeightOf(|leaves|));
    Block(|leaves|, Hashes(t), PackBits(FlagBits(t)))
  }

  /** Decoding undoes encoding: the root walker returns the root of the full tree, the other walker the matched hashes,
      and both stop at the same place with every hash consumed. */
  lemma DecodeEncoded(hh: Hasher, leaves: seq<Hash>, m: seq<bool>)
    requires leaves != [] && |m| == |leaves| && Decodable(hh, Build(hh, leaves, m, HeightOf(|leaves|)))
    ensures var b := EncodedBlock(hh, leaves, m);
            RootWalk(hh, StreamsOf(b), HeightOf(b.totalTx), 0, 0, 0).0 == RowRoot(hh, leaves) &&
            TxWalk(StreamsOf(b), HeightOf(b.totalTx), 0, 0, 0).0 == Matched(leaves, m) &&
            RootWalk(hh, StreamsOf(b), HeightOf(b.totalTx), 0, 0, 0).1 == |b.hashes| &&
            TxWalk(StreamsOf(b), HeightOf(b.totalTx), 0, 0, 0).1 == |b.hashes| &&
            RootWalk(hh, StreamsOf(b), HeightOf(b.totalTx), 0, 0, 0).2 ==
            TxWalk(StreamsOf(b), HeightOf(b.totalTx), 0, 0, 0).2
  {
    var h := HeightOf(|leaves|);
    var t := Build(hh, leaves, m, h);
    var b := EncodedBlock(hh, leaves, m);
    var s := StreamsOf(b);
    forall k | 0 <= k < |FlagBits(t)| ensures s.flags[k] == FlagBits(t)[k] {
      PackedFlag(FlagBits(t), k);
    }
    assert s.flags[0..|FlagBits(t)|] == FlagBits(t);
    BuildIsCut(hh, leaves, m, h);
    assert Decodes(hh, s, t, h, 0, 0, 0) by {
      WalkEncoded(hh, s, t, h, 0, 0, 0);
    }
    assert 0 + h == h && HeightOf(b.totalTx) == h;
    RootIsTopNode(hh, leaves, h);
  }

  /** On any streams at all, as long as the root walker rejects nothing, the two walkers move in lockstep. */
  lemma {:induction false} Lockstep(hh: Hasher, s: Streams, top: nat, hashIdx: nat, flagIdx: nat, depth: nat)
    requires depth <= top && |s.hashes| < SIZE_MAX && hashIdx <= |s.hashes|
    ensures RootWalk(hh, s, top, hashIdx, flagIdx, depth).1 != SIZE_MAX ==>
      TxWalk(s, top, hashIdx, flagIdx, depth).1 == RootWalk(hh, s, top, hashIdx, flagIdx, depth).1 <= |s.hashes| &&
      TxWalk(s, top, hashIdx, flagIdx, depth).2 == RootWalk(hh, s, top, hashIdx, flagIdx, depth).2
    decreases top - depth
  {
    if flagIdx < |s.flags| && hashIdx < |s.hashes| && s.flags[flagIdx] && depth != top {
      Lockstep(hh, s, top, hashIdx, flagIdx + 1, depth + 1);
      var (l, h1, f1) := RootWalk(hh, s, top, hashIdx, flagIdx + 1, depth + 1);
      if h1 != SIZE_MAX {
        Lockstep(hh, s, top, h1, f1, depth + 1);
      }
    }
  }

  // ---- conditional soundness ----

  ghost predicate NoZeros(hashes: seq<Hash>) {
    forall i | 0 <= i < |hashes| :: hashes[i] != ZERO
  }

  /** All pairs that the root walker hashes. */
  ghost function WalkPairs(hh: Hasher, s: Streams, top: nat, hashIdx: nat, flagIdx: nat, depth: nat): set<(Hash, Hash)>
    requires depth <= top
    decreases top - depth
  {
    if flagIdx < |s.flags| && hashIdx < |s.hashes| && s.flags[flagIdx] && depth != top then
      var (l, h1, f1) := RootWalk(hh, s, top, hashIdx, flagIdx + 1, depth + 1);
      var (r, h2, f2) := RootWalk(hh, s, top, h1, f1, depth + 1);
      WalkPairs(hh, s, top, hashIdx, flagIdx + 1, depth + 1) + WalkPairs(hh, s, top, h1, f1, depth + 1) +
        (if l != ZERO && l != r then {(l, if r == ZERO then l else r)} else {})
    else {}
  }

  /** All pairs that are hashed in the full tree over these leaves. */
  ghost function TreePairs(hh: Hasher, leaves: seq<Hash>, h: nat): set<(Hash, Hash)>
    requires 0 < |leaves| <= Pow2(h)
  {
    if h == 0 then {} else
    var half := Pow2(h - 1);
    if |leaves| <= half then
      TreePairs(hh, leaves, h - 1) + {(Node(hh, leaves, h - 1), Node(hh, leaves, h - 1))}
    else
      TreePairs(hh, leaves[..half], h - 1) + TreePairs(hh, leaves[half..], h - 1) +
        {(Node(hh, leaves[..half], h - 1), Node(hh, leaves[half..], h - 1))}
  }

  ghost predicate Collide(hh: Hasher, p: (Hash, Hash), q: (Hash, Hash)) {
    p != q && hh(p.0, p.1) == hh(q.0, q.1)
  }

  ghost predicate IsNothing(hh: Hasher, p: (Hash, Hash)) {
    hh(p.0, p.1) == ZERO
  }

  /** A pair of one set has the hash of a different pair of the other, or the hash that stands for "none". */
  ghost predicate Broken(hh: Hasher, walk: set<(Hash, Hash)>, tree: set<(Hash, Hash)>) {
    (exists p, q | p in walk && q in tree :: Collide(hh, p, q)) || exists p | p in walk :: IsNothing(hh, p)
  }

  lemma BrokenMore(hh: Hasher, walk: set<(Hash, Hash)>, tree: set<(Hash, Hash)>, more: set<(Hash, Hash)>,
                   other: set<(Hash, Hash)>)
    requires walk <= more && tree <= other && Broken(hh, walk, tree)
    ensures Broken(hh, more, other)
  {
  }

  /** A walk that yields nothing has found nothing, unless a pair hashes to nothing. */
  lemma WalkNothing(hh: Hasher, s: Streams, top: nat, hashIdx: nat, flagIdx: nat, depth: nat,
                    tree: set<(Hash, Hash)>)
    requires depth <= top && NoZeros(s.hashes) && !Broken(hh, WalkPairs(hh, s, top, hashIdx, flagIdx, depth), tree)
    ensures RootWalk(hh, s, top, hashIdx, flagIdx, depth).0 == ZERO &&
            RootWalk(hh, s, top, hashIdx, flagIdx, depth).1 != SIZE_MAX ==>
              TxWalk(s, top, hashIdx, flagIdx, depth).0 == []
  {
    if flagIdx < |s.flags| && hashIdx < |s.hashes| && s.flags[flagIdx] && depth != top {
      var (l, h1, f1) := RootWalk(hh, s, top, hashIdx, flagIdx + 1, depth + 1);
      var (r, h2, f2) := RootWalk(hh, s, top, h1, f1, depth + 1);
      assert l != ZERO && l != r ==> !IsNothing(hh, (l, if r == ZERO then l else r));
    }
  }

  /** After a rejection the walk stays rejected. */
  lemma {:induction false} RejectedStays(hh: Hasher, s: Streams, top: nat, flagIdx: nat, depth: nat)
    requires depth <= top && |s.hashes| <= SIZE_MAX
    ensures RootWalk(hh, s, top, SIZE_MAX, flagIdx, depth).1 == SIZE_MAX
  {
  }

  /** The children of a true node, as the walker yields them. */
  ghost predicate Children(hh: Hasher, leaves: seq<Hash>, h: nat, l: Hash, r: Hash)
    requires 0 < |leaves| <= Pow2(h + 1)
  {
    var half := Pow2(h);
    if |leaves| <= half then l == Node(hh, leaves, h) && r == ZERO
    else l == Node(hh, leaves[..half], h) && (r == ZERO || r == Node(hh, leaves[half..], h))
  }

  /** What two children say about a node they hash to. */
  lemma ChildrenAre(hh: Hasher, leaves: seq<Hash>, h: nat, l: Hash, r: Hash, walk: set<(Hash, Hash)>)
    requires 0 < |leaves| <= Pow2(h + 1) && l != r
    requires hh(l, if r == ZERO then l else r) == Node(hh, leaves, h + 1)
    requires (l, if r == ZERO then l else r) in walk && !Broken(hh, walk, TreePairs(hh, leaves, h + 1))
    ensures Children(hh, leaves, h, l, r)
  {
    var half := Pow2(h);
    var a := if |leaves| <= half then Node(hh, leaves, h) else Node(hh, leaves[..half], h);
    var b := if |leaves| <= half then a else Node(hh, leaves[half..], h);
    assert (a, b) in TreePairs(hh, leaves, h + 1);
    assert !Collide(hh, (l, if r == ZERO then l else r), (a, b));
  }

  ghost predicate ListsLeaves(s: Streams, top: nat, hashIdx: nat, flagIdx: nat, depth: nat, leaves: seq<Hash>)
    requires depth <= top
  {
    forall x | x in TxWalk(s, top, hashIdx, flagIdx, depth).0 :: x in leaves
  }

  /** The walk yields the true node over these leaves, without a rejection and without a collision. */
  ghost predicate Sourced(hh: Hasher, s: Streams, top: nat, hashIdx: nat, flagIdx: nat, depth: nat, leaves: seq<Hash>)
    requires depth <= top
  {
    && 0 < |leaves| <= Pow2(top - depth)
    && RootWalk(hh, s, top, hashIdx, flagIdx, depth).0 == Node(hh, leaves, top - depth)
    && RootWalk(hh, s, top, hashIdx, flagIdx, depth).1 != SIZE_MAX
    && !Broken(hh, WalkPairs(hh, s, top, hashIdx, flagIdx, depth), TreePairs(hh, leaves, top - depth))
  }

  /** What the walker for matched hashes lists are leaves, if the root walker rejects nothing and yields the true node,
      unless a pair met on the way has the hash of a different pair in the tree. */
  lemma {:induction false} WalkIsSound(hh: Hasher, s: Streams, top: nat, hashIdx: nat, flagIdx: nat, depth: nat,
                                       leaves: seq<Hash>)
    requires NoZeros(s.hashes) && |s.hashes| < SIZE_MAX && hashIdx <= |s.hashes|
    requires depth <= top && Sourced(hh, s, top, hashIdx, flagIdx, depth, leaves)
    ensures ListsLeaves(s, top, hashIdx, flagIdx, depth, leaves)
    decreases top - depth, 1
  {
    if flagIdx < |s.flags| && hashIdx < |s.hashes| && s.flags[flagIdx] && depth != top {
      ExpandedIsSound(hh, s, top, hashIdx, flagIdx, depth, leaves);
    }
  }

  lemma {:induction false} ExpandedIsSound(hh: Hasher, s: Streams, top: nat, hashIdx: nat, flagIdx: nat, depth: nat,
                                           leaves: seq<Hash>)
    requires NoZeros(s.hashes) && |s.hashes| < SIZE_MAX && hashIdx < |s.hashes| && depth < top
    requires flagIdx < |s.flags| && s.flags[flagIdx] && Sourced(hh, s, top, hashIdx, flagIdx, depth, leaves)
    ensures ListsLeaves(s, top, hashIdx, flagIdx, depth, leaves)
    decreases top - depth, 0, 2
  {
    var (l, h1, f1) := RootWalk(hh, s, top, hashIdx, flagIdx + 1, depth + 1);
    var (r, h2, f2) := RootWalk(hh, s, top, h1, f1, depth + 1);
    if h1 == SIZE_MAX {
      RejectedStays(hh, s, top, f1, depth + 1);
    }
    Lockstep(hh, s, top, hashIdx, flagIdx + 1, depth + 1);
    ChildrenAre(hh, leaves, top - depth - 1, l, r, WalkPairs(hh, s, top, hashIdx, flagIdx, depth));
    SoundParts(hh, s, top, hashIdx, flagIdx, depth, leaves, l, h1, f1, r, h2, f2);
  }

  /** The two halves of the leaves, of which the second may be empty. */
  lemma {:induction false} SoundParts(hh: Hasher, s: Streams, top: nat, hashIdx: nat, flagIdx: nat, depth: nat,
                                      leaves: seq<Hash>, l: Hash, h1: nat, f1: nat, r: Hash, h2: nat, f2: nat)
    requires NoZeros(s.hashes) && |s.hashes| < SIZE_MAX && hashIdx < |s.hashes| && h1 <= |s.hashes|
    requires depth < top && 0 < |leaves| <= Pow2(top - depth) && flagIdx < |s.flags| && s.flags[flagIdx]
    requires RootWalk(hh, s, top, hashIdx, flagIdx + 1, depth + 1) == (l, h1, f1)
    requires RootWalk(hh, s, top, h1, f1, depth + 1) == (r, h2, f2) && h2 != SIZE_MAX
    requires TxWalk(s, top, hashIdx, flagIdx + 1, depth + 1).1 == h1 &&
        TxWalk(s, top, hashIdx, flagIdx + 1, depth + 1).2 == f1
    requires Children(hh, leaves, top - depth - 1, l, r)
    requires !Broken(hh, WalkPairs(hh, s, top, hashIdx, flagIdx, depth), TreePairs(hh, leaves, top - depth))
    ensures ListsLeaves(s, top, hashIdx, flagIdx, depth, leaves)
    decreases top - depth, 0, 1
  {
    var half := Pow2(top - depth - 1);
    PartsUnbroken(hh, s, top, hashIdx, flagIdx, depth, leaves, h1, f1);
    if |leaves| <= half {
      SoundHalves(hh, s, top, hashIdx, flagIdx, depth, leaves, leaves, [], h1, f1, TreePairs(hh, leaves, top - depth));
    } else {
      SoundHalves(hh, s, top, hashIdx, flagIdx, depth, leaves, leaves[..half], leaves[half..], h1, f1,
                  TreePairs(hh, leaves, top - depth));
    }
  }

  /** Both subtrees list only leaves of their halves. */
  lemma {:induction false} SoundHalves(hh: Hasher, s: Streams, top: nat, hashIdx: nat, flagIdx: nat, depth: nat,
                                       leaves: seq<Hash>, left: seq<Hash>, right: seq<Hash>, h1: nat, f1: nat,
                                       tree: set<(Hash, Hash)>)
    requires NoZeros(s.hashes) && |s.hashes| < SIZE_MAX && hashIdx < |s.hashes| && h1 <= |s.hashes|
    requires depth < top && flagIdx < |s.flags| && s.flags[flagIdx]
    requires TxWalk(s, top, hashIdx, flagIdx + 1, depth + 1).1 == h1 &&
        TxWalk(s, top, hashIdx, flagIdx + 1, depth + 1).2 == f1
    requires forall x | x in left || x in right :: x in leaves
    requires Sourced(hh, s, top, hashIdx, flagIdx + 1, depth + 1, left)
    requires RootWalk(hh, s, top, h1, f1, depth + 1).1 != SIZE_MAX
    requires !Broken(hh, WalkPairs(hh, s, top, h1, f1, depth + 1), tree)
    requires RootWalk(hh, s, top, h1, f1, depth + 1).0 == ZERO || Sourced(hh, s, top, h1, f1, depth + 1, right)
    ensures ListsLeaves(s, top, hashIdx, flagIdx, depth, leaves)
    decreases top - depth, 0, 0
  {
    WalkIsSound(hh, s, top, hashIdx, flagIdx + 1, depth + 1, left);
    RightIsSound(hh, s, top, h1, f1, depth + 1, right, tree);
    SoundJoin(s, top, hashIdx, flagIdx, depth, leaves, left, right, h1, f1);
  }

  /** The right subtree may be missing. */
  lemma {:induction false} RightIsSound(hh: Hasher, s: Streams, top: nat, hashIdx: nat, flagIdx: nat, depth: nat,
                                        right: seq<Hash>, tree: set<(Hash, Hash)>)
    requires NoZeros(s.hashes) && |s.hashes| < SIZE_MAX && hashIdx <= |s.hashes| && depth <= top
    requires RootWalk(hh, s, top, hashIdx, flagIdx, depth).1 != SIZE_MAX
    requires !Broken(hh, WalkPairs(hh, s, top, hashIdx, flagIdx, depth), tree)
    requires RootWalk(hh, s, top, hashIdx, flagIdx, depth).0 == ZERO ||
        Sourced(hh, s, top, hashIdx, flagIdx, depth, right)
    ensures ListsLeaves(s, top, hashIdx, flagIdx, depth, right)
    decreases top - depth, 2
  {
    if RootWalk(hh, s, top, hashIdx, flagIdx, depth).0 == ZERO {
      WalkNothing(hh, s, top, hashIdx, flagIdx, depth, tree);
    } else {
      WalkIsSound(hh, s, top, hashIdx, flagIdx, depth, right);
    }
  }

  lemma PartsUnbroken(hh: Hasher, s: Streams, top: nat, hashIdx: nat, flagIdx: nat, depth: nat, leaves: seq<Hash>,
                      h1: nat, f1: nat)
    requires hashIdx < |s.hashes| && depth < top && 0 < |leaves| <= Pow2(top - depth)
    requires flagIdx < |s.flags| && s.flags[flagIdx]
    requires RootWalk(hh, s, top, hashIdx, flagIdx + 1, depth + 1).1 == h1
    requires RootWalk(hh, s, top, hashIdx, flagIdx + 1, depth + 1).2 == f1
    requires !Broken(hh, WalkPairs(hh, s, top, hashIdx, flagIdx, depth), TreePairs(hh, leaves, top - depth))
    ensures var half := Pow2(top - depth - 1);
      var first, second := WalkPairs(hh, s, top, hashIdx, flagIdx + 1, depth + 1),
                           WalkPairs(hh, s, top, h1, f1, depth + 1);
      && !Broken(hh, second, TreePairs(hh, leaves, top - depth))
      && if |leaves| <= half then !Broken(hh, first, TreePairs(hh, leaves, top - depth - 1))
         else !Broken(hh, first, TreePairs(hh, leaves[..half], top - depth - 1)) &&
              !Broken(hh, second, TreePairs(hh, leaves[half..], top - depth - 1))
  {
  }

  lemma SoundJoin(s: Streams, top: nat, hashIdx: nat, flagIdx: nat, depth: nat, leaves: seq<Hash>, left: seq<Hash>,
                  right: seq<Hash>, h1: nat, f1: nat)
    requires depth < top && hashIdx < |s.hashes| && flagIdx < |s.flags| && s.flags[flagIdx]
    requires TxWalk(s, top, hashIdx, flagIdx + 1, depth + 1).1 == h1 &&
        TxWalk(s, top, hashIdx, flagIdx + 1, depth + 1).2 == f1
    requires ListsLeaves(s, top, hashIdx, flagIdx + 1, depth + 1, left)
    requires ListsLeaves(s, top, h1, f1, depth + 1, right)
    requires forall x | x in left || x in right :: x in leaves
    ensures ListsLeaves(s, top, hashIdx, flagIdx, depth, leaves)
  {
    var (a, b) := (TxWalk(s, top, hashIdx, flagIdx + 1, depth + 1).0, TxWalk(s, top, h1, f1, depth + 1).0);
    assert TxWalk(s, top, hashIdx, flagIdx, depth).0 == a + b;
  }

  /** A block that yields the root of the true tree without a rejection lists only transactions of that tree, or
      a pair hashed on the walk has the hash of a different pair of the tree, or the hash that stands for "none". */
  lemma ListsOnlyLeaves(hh: Hasher, b: Block, leaves: seq<Hash>)
    requires NoZeros(b.hashes) && |b.hashes| < SIZE_MAX && leaves != [] && b.totalTx == |leaves|
    requires var walk := RootWalk(hh, StreamsOf(b), HeightOf(b.totalTx), 0, 0, 0);
      walk.0 == RowRoot(hh, leaves) && walk.1 != SIZE_MAX
    ensures var h := HeightOf(b.totalTx);
      || (forall x | x in TxWalk(StreamsOf(b), h, 0, 0, 0).0 :: x in leaves)
      || Broken(hh, WalkPairs(hh, StreamsOf(b), h, 0, 0, 0), TreePairs(hh, leaves, h))
  {
    var h := HeightOf(b.totalTx);
    RootIsTopNode(hh, leaves, h);
    if !Broken(hh, WalkPairs(hh, StreamsOf(b), h, 0, 0, 0), TreePairs(hh, leaves, h)) {
      WalkIsSound(hh, StreamsOf(b), h, 0, 0, 0, leaves);
    }
  }
}
