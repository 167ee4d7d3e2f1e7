/** Equal siblings in a partial Merkle tree (BRMerkleBlock.c, CVE-2012-2459): a list of transactions whose last one is
    repeated has the same root as the list without the repetition; the root walker rejects it where it is expanded. */
module MerkleTwins {
  import opened Bits
  import opened MerkleTree
  import opened MerkleBlock

  /** No node of the tree hashes to zero. */
  predicate NonZero(hh: Hasher, t: Partial) {
    Value(hh, t) != ZERO &&
    match t
    case Stop(_, _) => true
    case Single(l) => NonZero(hh, l)
    case Fork(l, r) => NonZero(hh, l) && NonZero(hh, r)
  }

  /** Some expanded node has two equal children. */
  predicate Twins(hh: Hasher, t: Partial) {
    match t
    case Stop(_, _) => false
    case Single(l) => Twins(hh, l)
    case Fork(l, r) => Twins(hh, l) || Twins(hh, r) || Value(hh, l) == Value(hh, r)
  }

  lemma {:induction false} DecodableIff(hh: Hasher, t: Partial)
    requires NonZero(hh, t)
    ensures Decodable(hh, t) <==> !Twins(hh, t)
  {
    if !t.Stop? {
      DecodableIff(hh, t.left);
      if t.Fork? {
        DecodableIff(hh, t.right);
      }
    }
  }

  // ---- the root walker on twins ----

  lemma LeftRejected(hh: Hasher, s: Streams, top: nat, hashIdx: nat, flagIdx: nat, depth: nat)
    requires depth < top && |s.hashes| < SIZE_MAX
    requires hashIdx < |s.hashes| && flagIdx < |s.flags| && s.flags[flagIdx]
    requires RootWalk(hh, s, top, hashIdx, flagIdx + 1, depth + 1).1 == SIZE_MAX
    ensures RootWalk(hh, s, top, hashIdx, flagIdx, depth).1 == SIZE_MAX
  {
    RejectedStays(hh, s, top, RootWalk(hh, s, top, hashIdx, flagIdx + 1, depth + 1).2, depth + 1);
  }

  lemma RightRejected(hh: Hasher, s: Streams, top: nat, hashIdx: nat, flagIdx: nat, depth: nat, l: Hash, h1: nat,
                      f1: nat, r: Hash, h2: nat, f2: nat)
    requires depth < top && hashIdx < |s.hashes| && flagIdx < |s.flags| && s.flags[flagIdx]
    requires RootWalk(hh, s, top, hashIdx, flagIdx + 1, depth + 1) == (l, h1, f1)
    requires RootWalk(hh, s, top, h1, f1, depth + 1) == (r, h2, f2)
    requires l == r || h2 == SIZE_MAX
    ensures RootWalk(hh, s, top, hashIdx, flagIdx, depth).1 == SIZE_MAX
  {
  }

  /** The encoding of a tree with twins ends with the cursor of a rejection. */
  lemma {:induction false} TwinsAreRejected(hh: Hasher, s: Streams, t: Partial, h: nat, hashIdx: nat, flagIdx: nat,
                                            depth: nat)
    requires Shaped(t, h) && NonZero(hh, t) && Twins(hh, t) && Carries(s, hashIdx, flagIdx, t)
    requires |s.hashes| < SIZE_MAX && (Complete(t) || hashIdx + |Hashes(t)| == |s.hashes|)
    ensures RootWalk(hh, s, depth + h, hashIdx, flagIdx, depth).1 == SIZE_MAX
    decreases t, 1
  {
    CarriesParts(s, hashIdx, flagIdx, t);
    if Twins(hh, t.left) {
      TwinsAreRejected(hh, s, t.left, h - 1, hashIdx, flagIdx + 1, depth + 1);
      LeftRejected(hh, s, depth + h, hashIdx, flagIdx, depth);
    } else {
      DecodableIff(hh, t.left);
      WalkEncoded(hh, s, t.left, h - 1, hashIdx, flagIdx + 1, depth + 1);
      RightTwins(hh, s, t, h, hashIdx, flagIdx, depth);
    }
  }

  lemma {:induction false} RightTwins(hh: Hasher, s: Streams, t: Partial, h: nat, hashIdx: nat, flagIdx: nat,
                                      depth: nat)
    requires t.Fork? && Shaped(t, h) && NonZero(hh, t) && Twins(hh, t) && Carries(s, hashIdx, flagIdx, t)
    requires |s.hashes| < SIZE_MAX && (Complete(t) || hashIdx + |Hashes(t)| == |s.hashes|)
    requires !Twins(hh, t.left) && Decodes(hh, s, t.left, h - 1, hashIdx, flagIdx + 1, depth + 1)
    ensures RootWalk(hh, s, depth + h, hashIdx, flagIdx, depth).1 == SIZE_MAX
    decreases t, 0
  {
    var h1, f1 := hashIdx + |Hashes(t.left)|, flagIdx + 1 + |FlagBits(t.left)|;
    CarriesParts(s, hashIdx, flagIdx, t);
    if Twins(hh, t.right) {
      TwinsAreRejected(hh, s, t.right, h - 1, h1, f1, depth + 1);
    } else {
      DecodableIff(hh, t.right);
      WalkEncoded(hh, s, t.right, h - 1, h1, f1, depth + 1);
    }
    var (r, h2, f2) := RootWalk(hh, s, depth + h, h1, f1, depth + 1);
    RightRejected(hh, s, depth + h, hashIdx, flagIdx, depth, Value(hh, t.left), h1, f1, r, h2, f2);
  }

  /** What the root walker returns for a whole block. */
  function Walked(hh: Hasher, b: Block): (Hash, nat, nat) {
    RootWalk(hh, StreamsOf(b), HeightOf(b.totalTx), 0, 0, 0)
  }

  lemma EncodedCarries(hh: Hasher, leaves: seq<Hash>, m: seq<bool>, t: Partial)
    requires leaves != [] && |m| == |leaves| && t == Build(hh, leaves, m, HeightOf(|leaves|))
    ensures Carries(StreamsOf(EncodedBlock(hh, leaves, m)), 0, 0, t)
  {
    var s := StreamsOf(EncodedBlock(hh, leaves, m));
    forall k | 0 <= k < |FlagBits(t)| ensures s.flags[k] == FlagBits(t)[k] {
      PackedFlag(FlagBits(t), k);
    }
    assert s.flags[0..|FlagBits(t)|] == FlagBits(t);
  }

  lemma TwinStreams(hh: Hasher, s: Streams, t: Partial, h: nat)
    requires Shaped(t, h) && NonZero(hh, t) && Twins(hh, t) && Carries(s, 0, 0, t)
    requires |Hashes(t)| == |s.hashes| < SIZE_MAX
    ensures RootWalk(hh, s, h, 0, 0, 0).1 == SIZE_MAX
  {
    TwinsAreRejected(hh, s, t, h, 0, 0, 0);
    assert 0 + h == h;
  }

  lemma EncodedIs(hh: Hasher, leaves: seq<Hash>, m: seq<bool>)
    requires leaves != [] && |m| == |leaves|
    ensures var b, t := EncodedBlock(hh, leaves, m), Build(hh, leaves, m, HeightOf(|leaves|));
      && b.totalTx == |leaves| && b.hashes == Hashes(t) && StreamsOf(b).hashes == Hashes(t)
      && Shaped(t, HeightOf(|leaves|)) && Carries(StreamsOf(b), 0, 0, t)
  {
    var t := Build(hh, leaves, m, HeightOf(|leaves|));
    BuildIsCut(hh, leaves, m, HeightOf(|leaves|));
    EncodedCarries(hh, leaves, m, t);
  }

  /** An encoded block is rejected if and only if an expanded node has equal children. */
  lemma RejectedIff(hh: Hasher, leaves: seq<Hash>, m: seq<bool>)
    requires leaves != [] && |m| == |leaves| && |EncodedBlock(hh, leaves, m).hashes| < SIZE_MAX
    requires NonZero(hh, Build(hh, leaves, m, HeightOf(|leaves|)))
    ensures Walked(hh, EncodedBlock(hh, leaves, m)).1 == SIZE_MAX <==>
            Twins(hh, Build(hh, leaves, m, HeightOf(|leaves|)))
  {
    var t := Build(hh, leaves, m, HeightOf(|leaves|));
    if Twins(hh, t) {
      EncodedIs(hh, leaves, m);
      TwinStreams(hh, StreamsOf(EncodedBlock(hh, leaves, m)), t, HeightOf(|leaves|));
    } else {
      DecodableIff(hh, t);
      DecodeEncoded(hh, leaves, m);
    }
  }

  // ---- a repeated transaction ----

  lemma {:induction false} OddPairs(hh: Hasher, row: seq<Hash>)
    requires |row| % 2 == 1
    ensures PairUp(hh, row + [row[|row| - 1]]) == PairUp(hh, row)
    decreases |row|
  {
    if |row| > 1 {
      var rest := row[2..];
      assert (row + [row[|row| - 1]])[2..] == rest + [rest[|rest| - 1]];
      OddPairs(hh, rest);
    }
  }

  /** The last two leaves are equal, and one of them is matched. */
  ghost predicate Repeats(leaves: seq<Hash>, m: seq<bool>) {
    && |m| == |leaves| && |leaves| >= 2 && |leaves| % 2 == 0
    && leaves[|leaves| - 1] == leaves[|leaves| - 2] && (m[|m| - 1] || m[|m| - 2])
  }

  lemma {:induction false} RepeatedAreTwins(hh: Hasher, leaves: seq<Hash>, m: seq<bool>, h: nat)
    requires Repeats(leaves, m) && |leaves| <= Pow2(h)
    ensures Twins(hh, Build(hh, leaves, m, h))
    decreases h
  {
    assert Any(m);
    assert Pow2(0) == 1;
    var half := Pow2(h - 1);
    if |leaves| <= half {
      RepeatedAreTwins(hh, leaves, m, h - 1);
    } else if h == 1 {
      assert leaves[..1] == [leaves[0]] && leaves[1..] == [leaves[1]];
    } else {
      assert half == 2 * Pow2(h - 2);
      RepeatedAreTwins(hh, leaves[half..], m[half..], h - 1);
    }
  }

  /** Repeating the last of an odd number of transactions does not change the root, but the block is rejected if it
      shows one of the two. */
  lemma RepetitionIsRejected(hh: Hasher, leaves: seq<Hash>, m: seq<bool>)
    requires |leaves| % 2 == 1 && |leaves| > 1 && |m| == |leaves| + 1 && (m[|leaves|] || m[|leaves| - 1])
    requires var longer := leaves + [leaves[|leaves| - 1]];
      && |EncodedBlock(hh, longer, m).hashes| < SIZE_MAX && NonZero(hh, Build(hh, longer, m, HeightOf(|longer|)))
    ensures var longer := leaves + [leaves[|leaves| - 1]];
      RowRoot(hh, longer) == RowRoot(hh, leaves) && Walked(hh, EncodedBlock(hh, longer, m)).1 == SIZE_MAX
  {
    var longer := leaves + [leaves[|leaves| - 1]];
    OddPairs(hh, leaves);
    RepeatedAreTwins(hh, longer, m, HeightOf(|longer|));
    RejectedIff(hh, longer, m);
  }

  // ---- an example ----

  lemma ExampleRoot(hh: Hasher, leaves: seq<Hash>)
    requires |leaves| == 3
    ensures RowRoot(hh, leaves) == hh(hh(leaves[0], leaves[1]), hh(leaves[2], leaves[2]))
  {
    var rest := leaves[2..];
    assert PairUp(hh, rest) == [hh(leaves[2], leaves[2])];
    var up := PairUp(hh, leaves);
    assert up == [hh(leaves[0], leaves[1]), hh(leaves[2], leaves[2])];
    assert PairUp(hh, up[2..]) == [];
    var top := PairUp(hh, up);
    assert top == [hh(up[0], up[1])];
    assert RowRoot(hh, up) == RowRoot(hh, top) == top[0];
  }

  lemma ExampleTree(hh: Hasher, leaves: seq<Hash>, m: seq<bool>)
    requires |leaves| == 3 && m == [false, false, true]
    ensures HeightOf(3) == 2 && Pow2(2) == 4
    ensures Build(hh, leaves, m, 2) == Fork(Stop(hh(leaves[0], leaves[1]), false), Single(Stop(leaves[2], true)))
  {
    assert HeightOf(1) == 0 && HeightOf(2) == 1;
    assert Pow2(0) == 1 && Pow2(1) == 2;
    var l, r := leaves[..2], leaves[2..];
    assert m[2] && m[2..][0];
    assert Node(hh, l[..1], 0) == leaves[0] && Node(hh, l[1..], 0) == leaves[1];
    assert Build(hh, l, m[..2], 1) == Stop(hh(leaves[0], leaves[1]), false);
    assert Build(hh, r, m[2..], 0) == Stop(leaves[2], true);
    assert Build(hh, r, m[2..], 1) == Single(Stop(leaves[2], true));
  }

  lemma ExampleFlags(x: Hash, y: Hash)
    ensures FlagBits(Fork(Stop(x, false), Single(Stop(y, true)))) == [true, false, true, true]
    ensures Hashes(Fork(Stop(x, false), Single(Stop(y, true)))) == [x, y]
    ensures PackBits([true, false, true, true]) == [0x0d]
  {
    assert FlagBits(Single(Stop(y, true))) == [true, true] && Hashes(Single(Stop(y, true))) == [y];
    assert [true, false, true, true][1..] == [false, true, true] && [false, true, true][1..] == [true, true];
    assert [true, true][1..] == [true] && [true][1..] == [];
    assert ByteOf([true, true]) == 3;
  }

  /** A block with three transactions of which the last is matched: the node above the other two, the last transaction,
      and the flags 1, 0, 1, 1. */
  lemma ExampleIs(hh: Hasher, leaves: seq<Hash>, m: seq<bool>)
    requires |leaves| == 3 && m == [false, false, true]
    ensures RowRoot(hh, leaves) == hh(hh(leaves[0], leaves[1]), hh(leaves[2], leaves[2]))
    ensures EncodedBlock(hh, leaves, m) == Block(3, [hh(leaves[0], leaves[1]), leaves[2]], [0x0d])
  {
    ExampleRoot(hh, leaves);
    ExampleTree(hh, leaves, m);
    ExampleFlags(hh(leaves[0], leaves[1]), leaves[2]);
  }
}
