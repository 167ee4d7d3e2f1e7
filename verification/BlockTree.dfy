/** Blocks linked by their hashes, and the walks over the stored ones (BRPeerManager.c). */
module BlockTree {
  import opened Options
  import opened Ledger

  const BLOCK_UNKNOWN_HEIGHT: nat := 0x7fffffff

  /** A received block; txHashes are the matched transactions it proves. */
  datatype Block = Block(hash: Hash, prevBlock: Hash, height: nat, timestamp: nat, txHashes: seq<Hash>)

  /** The tree all blocks form: a hash fixes its predecessor, and heights count from a root. */
  datatype Tree = Tree(prev: imap<Hash, Hash>, height: imap<Hash, nat>)

  ghost predicate Lawful(t: Tree) {
    forall h | h in t.prev :: t.prev[h] in t.height && h in t.height && t.height[h] == t.height[t.prev[h]] + 1
  }

  ghost predicate InTree(t: Tree, b: Block) {
    && b.hash in t.height
    && (if b.hash in t.prev then t.prev[b.hash] == b.prevBlock else b.prevBlock !in t.height)
  }

  ghost function Height(t: Tree, h: Hash): nat {
    if h in t.height then t.height[h] else 0
  }

  /** The block at height k on the chain that ends in h. */
  ghost function Ancestor(t: Tree, h: Hash, k: nat): Hash
    requires Lawful(t)
    decreases Height(t, h)
  {
    if h in t.prev && Height(t, h) > k then Ancestor(t, t.prev[h], k) else h
  }

  lemma {:induction false} AncestorHeight(t: Tree, h: Hash, k: nat)
    requires Lawful(t) && h in t.height
    ensures Ancestor(t, h, k) in t.height && Height(t, Ancestor(t, h, k)) <= Height(t, h)
    ensures Height(t, Ancestor(t, h, k)) > k ==> Ancestor(t, h, k) !in t.prev
    decreases Height(t, h)
  {
    if h in t.prev && Height(t, h) > k {
      AncestorHeight(t, t.prev[h], k);
    }
  }

  lemma {:induction false} AncestorReaches(t: Tree, h: Hash, k: nat)
    requires Lawful(t) && k <= Height(t, h)
    ensures Height(t, Ancestor(t, h, k)) >= k
    decreases Height(t, h)
  {
    if h in t.prev && Height(t, h) > k {
      AncestorReaches(t, t.prev[h], k);
    }
  }

  lemma {:induction false} AncestorTwice(t: Tree, h: Hash, j: nat, k: nat)
    requires Lawful(t) && h in t.height && k <= j
    ensures Ancestor(t, Ancestor(t, h, j), k) == Ancestor(t, h, k)
    decreases Height(t, h)
  {
    if h in t.prev && Height(t, h) > j {
      AncestorTwice(t, t.prev[h], j, k);
    }
  }

  /** Every stored block is filed under its hash, has its height in the tree, and has been delivered with all it
        lists. */
  ghost predicate Filed(t: Tree, blocks: map<Hash, Block>, delivered: set<(Hash, Hash)>) {
    forall h | h in blocks :: IsBlock(t, blocks[h], delivered) && blocks[h].hash == h
  }

  ghost predicate IsBlock(t: Tree, b: Block, delivered: set<(Hash, Hash)>) {
    && InTree(t, b) && b.height == Height(t, b.hash) && b.height < BLOCK_UNKNOWN_HEIGHT
    && forall i | 0 <= i < |b.txHashes| :: (b.hash, b.txHashes[i]) in delivered
  }

  function Get(blocks: map<Hash, Block>, h: Hash): Option<Block> {
    if h in blocks then Some(blocks[h]) else None
  }

  /** The stored predecessor of a block is its ancestor one lower. */
  lemma Predecessor(t: Tree, blocks: map<Hash, Block>, delivered: set<(Hash, Hash)>, top: Hash, b: Block)
    requires Lawful(t) && Filed(t, blocks, delivered) && IsBlock(t, b, delivered) && top in t.height
    requires b.height <= Height(t, top) && b.hash == Ancestor(t, top, b.height) && b.prevBlock in blocks
    ensures blocks[b.prevBlock].height + 1 == b.height
    ensures blocks[b.prevBlock].hash == Ancestor(t, top, blocks[b.prevBlock].height)
  {
    assert b.hash in t.prev;
    if b.height == Height(t, top) {
      AncestorTwice(t, top, b.height, b.height - 1);
    }
    AncestorTwice(t, top, b.height, b.height - 1);
    assert Ancestor(t, b.hash, b.height - 1) == Ancestor(t, t.prev[b.hash], b.height - 1);
  }

  // ---- forgetting blocks ----

  const BLOCK_DIFFICULTY_INTERVAL: nat := 2016

  /** The n-th stored predecessor. */
  function BackFrom(blocks: map<Hash, Block>, b: Block, n: nat): Option<Block> {
    if n == 0 then Some(b) else
    var x := BackFrom(blocks, b, n - 1);
    if x.Some? then Get(blocks, x.value.prevBlock) else None
  }

  /** What is left after walking down from x and forgetting all blocks that are not at a difficulty transition. */
  ghost function PrunedFrom(t: Tree, blocks: map<Hash, Block>, x: Block): map<Hash, Block>
    decreases Height(t, x.hash)
  {
    var y := Get(blocks, x.prevBlock);
    if y.Some? && Height(t, y.value.hash) < Height(t, x.hash) then
      PrunedFrom(t, if y.value.height % BLOCK_DIFFICULTY_INTERVAL != 0 then blocks - {y.value.hash} else blocks,
                 y.value)
    else blocks
  }

  /** What is left after testing b: at a difficulty transition the blocks before the previous one are pruned. */
  ghost function Kept(t: Tree, blocks: map<Hash, Block>, b: Block): map<Hash, Block> {
    var x := BackFrom(blocks, b, BLOCK_DIFFICULTY_INTERVAL);
    if b.height % BLOCK_DIFFICULTY_INTERVAL == 0 && x.Some? then PrunedFrom(t, blocks, x.value) else blocks
  }

  /** Whether b passes the test: at a difficulty transition the previous one has to be stored. */
  predicate Passes(blocks: map<Hash, Block>, b: Block, bad: set<Hash>) {
    b.hash !in bad && (b.height % BLOCK_DIFFICULTY_INTERVAL == 0 ==>
                       BackFrom(blocks, b, BLOCK_DIFFICULTY_INTERVAL).Some?)
  }

  ghost predicate Pruned(less: map<Hash, Block>, blocks: map<Hash, Block>) {
    forall h | h in less :: h in blocks && less[h] == blocks[h]
  }

  /** Pruning only forgets blocks below where it starts, and none at a difficulty transition. */
  lemma {:induction false} PrunedFromIs(t: Tree, blocks: map<Hash, Block>, delivered: set<(Hash, Hash)>, x: Block)
    requires Lawful(t) && Filed(t, blocks, delivered)
    ensures Pruned(PrunedFrom(t, blocks, x), blocks)
    ensures forall h | h in blocks && h !in PrunedFrom(t, blocks, x) ::
              Height(t, h) < Height(t, x.hash) && blocks[h].height % BLOCK_DIFFICULTY_INTERVAL != 0
    decreases Height(t, x.hash)
  {
    var y := Get(blocks, x.prevBlock);
    if y.Some? && Height(t, y.value.hash) < Height(t, x.hash) {
      assert IsBlock(t, y.value, delivered);
      var left := if y.value.height % BLOCK_DIFFICULTY_INTERVAL != 0 then blocks - {y.value.hash} else blocks;
      PrunedFromIs(t, left, delivered, y.value);
    }
  }

  /** A walk that has ended goes no further. */
  lemma {:induction false} BackFromEnds(blocks: map<Hash, Block>, b: Block, i: nat, n: nat)
    requires i <= n
    ensures BackFrom(blocks, b, i).None? ==> BackFrom(blocks, b, n).None?
  {
    if i < n {
      BackFromEnds(blocks, b, i, n - 1);
    }
  }

  /** The n-th predecessor stands n lower. */
  lemma {:induction false} BackFromIs(t: Tree, blocks: map<Hash, Block>, delivered: set<(Hash, Hash)>, b: Block, n: nat)
    requires Lawful(t) && Filed(t, blocks, delivered) && IsBlock(t, b, delivered)
    ensures BackFrom(blocks, b, n).Some? ==>
              var x := BackFrom(blocks, b, n).value; IsBlock(t, x, delivered) && x.height + n == b.height
  {
    if n > 0 {
      BackFromIs(t, blocks, delivered, b, n - 1);
      var x := BackFrom(blocks, b, n - 1);
      if x.Some? && x.value.prevBlock in blocks {
        assert IsBlock(t, blocks[x.value.prevBlock], delivered);
      }
    }
  }

  lemma KeptIs(t: Tree, blocks: map<Hash, Block>, delivered: set<(Hash, Hash)>, b: Block)
    requires Lawful(t) && Filed(t, blocks, delivered) && IsBlock(t, b, delivered)
    ensures Pruned(Kept(t, blocks, b), blocks)
    ensures forall h | h in blocks && h !in Kept(t, blocks, b) ::
              Height(t, h) + BLOCK_DIFFICULTY_INTERVAL < b.height && blocks[h].height % BLOCK_DIFFICULTY_INTERVAL != 0
  {
    BackFromIs(t, blocks, delivered, b, BLOCK_DIFFICULTY_INTERVAL);
    var x := BackFrom(blocks, b, BLOCK_DIFFICULTY_INTERVAL);
    if x.Some? {
      PrunedFromIs(t, blocks, delivered, x.value);
    }
  }

  // ---- how far down a chain is stored ----

  /** The chain that ends in top is stored down to height k, or does not reach above it. */
  ghost predicate ReachesDown(t: Tree, blocks: map<Hash, Block>, top: Block, k: nat)
    requires Lawful(t)
  {
    top.height <= k || (Height(t, Ancestor(t, top.hash, k)) == k && PathStored(t, blocks, top.hash, k))
  }

  /** The deeper it reaches, the more it covers. */
  lemma ReachesLess(t: Tree, blocks: map<Hash, Block>, delivered: set<(Hash, Hash)>, top: Block, k: nat, j: nat)
    requires Lawful(t) && IsBlock(t, top, delivered) && ReachesDown(t, blocks, top, k) && k <= j
    ensures ReachesDown(t, blocks, top, j)
  {
    if j < top.height {
      AncestorTwice(t, top.hash, j, k);
      AncestorHeight(t, top.hash, j);
      AncestorReaches(t, top.hash, j);
    }
  }

  /** Forgetting blocks more than an interval below b leaves what is stored down to k, if b is not higher than that. */
  lemma ReachesAfterPruning(t: Tree, blocks: map<Hash, Block>, delivered: set<(Hash, Hash)>, top: Block, b: Block,
                            k: nat)
    requires Lawful(t) && Filed(t, blocks, delivered) && IsBlock(t, b, delivered) && IsBlock(t, top, delivered)
    requires ReachesDown(t, blocks, top, k) && b.height <= k + BLOCK_DIFFICULTY_INTERVAL
    ensures ReachesDown(t, Kept(t, blocks, b), top, k)
  {
    KeptIs(t, blocks, delivered, b);
    forall j | k <= j < Height(t, top.hash) && k < top.height
      ensures Ancestor(t, top.hash, j) in Kept(t, blocks, b)
    {
      AncestorTwice(t, top.hash, j, k);
      AncestorHeight(t, top.hash, j);
      AncestorReaches(t, top.hash, j);
      assert Ancestor(t, top.hash, j) in blocks;
    }
  }

  /** A walker above height k that finds no predecessor shows that the chain is not stored down to k. */
  lemma CannotReach(t: Tree, blocks: map<Hash, Block>, delivered: set<(Hash, Hash)>, top: Block, x: Block, k: nat)
    requires Lawful(t) && IsBlock(t, top, delivered) && On(t, blocks, delivered, top.hash, x)
    requires x.height > k && x.prevBlock !in blocks
    ensures !ReachesDown(t, blocks, top, k)
  {
    if ReachesDown(t, blocks, top, k) {
      Below(t, top.hash, x, k);
    }
  }

  /** A block on top of the chain. */
  lemma ReachesOnTop(t: Tree, blocks: map<Hash, Block>, delivered: set<(Hash, Hash)>, last: Block, b: Block, k: nat)
    requires Lawful(t) && IsBlock(t, last, delivered) && IsBlock(t, b, delivered) && b.prevBlock == last.hash
    requires ReachesDown(t, blocks, last, k) && last.hash in blocks
    ensures ReachesDown(t, blocks[b.hash := b], b, k)
  {
    if k < b.height {
      assert b.hash in t.prev && Height(t, last.hash) + 1 == b.height;
      assert Ancestor(t, b.hash, k) == Ancestor(t, last.hash, k);
      forall j | k <= j < b.height ensures Ancestor(t, b.hash, j) in blocks {
        assert Ancestor(t, b.hash, j) == Ancestor(t, last.hash, j);
      }
    }
  }

  // ---- where two chains join ----

  /** The chain that ends in h is stored from just below its end down to height k. */
  ghost predicate PathStored(t: Tree, blocks: map<Hash, Block>, h: Hash, k: nat)
    requires Lawful(t)
  {
    forall j | k <= j < Height(t, h) :: Ancestor(t, h, j) in blocks
  }

  ghost predicate JoinAt(t: Tree, blocks: map<Hash, Block>, a: Hash, b: Hash, k: nat)
    requires Lawful(t)
  {
    && k <= Height(t, a) && k <= Height(t, b)
    && Ancestor(t, a, k) == Ancestor(t, b, k) && Height(t, Ancestor(t, a, k)) == k
    && PathStored(t, blocks, a, k) && PathStored(t, blocks, b, k)
  }

  /** The longer chain that joins is stored down to where the other one was. */
  lemma ReachesAfterFork(t: Tree, blocks: map<Hash, Block>, delivered: set<(Hash, Hash)>, last: Block, b: Block, j: nat,
                         k: nat)
    requires Lawful(t) && IsBlock(t, last, delivered) && IsBlock(t, b, delivered)
    requires JoinAt(t, blocks, b.hash, last.hash, j) && ReachesDown(t, blocks, last, k)
    ensures ReachesDown(t, blocks, b, k)
  {
    if j <= k {
      ReachesLess(t, blocks, delivered, b, j, k);
    } else {
      AncestorTwice(t, b.hash, j, k);
      AncestorTwice(t, last.hash, j, k);
      forall i | k <= i < b.height ensures Ancestor(t, b.hash, i) in blocks {
        if i < j {
          AncestorTwice(t, b.hash, j, i);
          AncestorTwice(t, last.hash, j, i);
          assert Ancestor(t, last.hash, i) in blocks;
        }
      }
    }
  }

  /** The highest block two chains share. */
  ghost predicate IsJoin(t: Tree, a: Hash, b: Hash, k: nat)
    requires Lawful(t)
  {
    && k <= Height(t, a) && k <= Height(t, b)
    && Ancestor(t, a, k) == Ancestor(t, b, k)
    && forall j | k < j <= Height(t, a) && j <= Height(t, b) :: Ancestor(t, a, j) != Ancestor(t, b, j)
  }

  /** The chain to b ends at height k among the stored blocks, before it meets the chain to a, which goes on. */
  ghost predicate EndsAt(t: Tree, blocks: map<Hash, Block>, a: Hash, b: Hash, k: nat)
    requires Lawful(t)
  {
    && 0 < k <= Height(t, a) && k <= Height(t, b) && Height(t, Ancestor(t, a, k - 1)) == k - 1
    && PathStored(t, blocks, a, k - 1) && PathStored(t, blocks, b, k) && Apart(t, a, b, k - 1)
    && !(k - 1 < Height(t, b) && Height(t, Ancestor(t, b, k - 1)) == k - 1 && Ancestor(t, b, k - 1) in blocks)
  }

  /** Walks down from the higher block a and from b until both meet. Both are found exactly if the chains meet in
      stored blocks, and then they meet in the highest common block. */
  method WalkBack(ghost t: Tree, blocks: map<Hash, Block>, ghost delivered: set<(Hash, Hash)>, a: Block, b: Block)
    returns (x: Option<Block>, y: Option<Block>)
    requires Lawful(t) && Filed(t, blocks, delivered) && IsBlock(t, a, delivered) && IsBlock(t, b, delivered)
    requires a.height >= b.height
    ensures x.Some? && y.Some? <==> exists k: nat :: JoinAt(t, blocks, a.hash, b.hash, k)
    ensures x.Some? && y.None? <==> exists k: nat :: EndsAt(t, blocks, a.hash, b.hash, k)
    ensures x.Some? && y.Some? ==>
      && x.value.hash == y.value.hash && x.value.height == y.value.height && IsJoin(t, a.hash, b.hash, x.value.height)
      && PathStored(t, blocks, a.hash, x.value.height)
      && x.value.hash == Ancestor(t, a.hash, x.value.height) && IsBlock(t, x.value, delivered)
  {
    x, y := Some(a), Some(b);
    while x.Some? && y.Some? && x.value.hash != y.value.hash
      invariant x.Some? ==> On(t, blocks, delivered, a.hash, x.value)
      invariant y.Some? ==> On(t, blocks, delivered, b.hash, y.value)
      invariant x.Some? && y.Some? ==> x.value.height >= y.value.height
      invariant y.Some? ==> Apart(t, a.hash, b.hash, y.value.height)
      invariant x.None? || y.None? ==> forall k: nat :: !JoinAt(t, blocks, a.hash, b.hash, k)
      invariant x.None? ==> forall k: nat :: !EndsAt(t, blocks, a.hash, b.hash, k)
      invariant x.Some? && y.None? ==> exists k: nat :: EndsAt(t, blocks, a.hash, b.hash, k)
      decreases if x.Some? then x.value.height + 1 else 0
    {
      var lower := Get(blocks, x.value.prevBlock);
      if lower.None? {
        NoJoinBelow(t, blocks, delivered, a.hash, b.hash, x.value, y.value);
        NoEndBelow(t, blocks, delivered, a.hash, b.hash, x.value, y.value);
      } else {
        StepDown(t, blocks, delivered, a.hash, x.value);
      }
      if lower.Some? && lower.value.height < y.value.height {
        ApartMore(t, blocks, delivered, a.hash, b.hash, x.value, y.value);
        var under := Get(blocks, y.value.prevBlock);
        if under.None? {
          NoJoinUnder(t, blocks, delivered, a.hash, b.hash, y.value);
          EndsUnder(t, blocks, delivered, a.hash, b.hash, x.value, y.value);
        } else {
          StepDown(t, blocks, delivered, b.hash, y.value);
        }
        y := under;
      }
      x := lower;
    }
    if x.Some? && y.Some? {
      assert JoinAt(t, blocks, a.hash, b.hash, x.value.height);
      NoEndAtJoin(t, blocks, delivered, a.hash, b.hash, x.value, y.value);
    }
  }

  /** x lies on the chain that ends in top, and the chain is stored from below top down to it. */
  ghost predicate On(t: Tree, blocks: map<Hash, Block>, delivered: set<(Hash, Hash)>, top: Hash, x: Block)
    requires Lawful(t)
  {
    && IsBlock(t, x, delivered) && x.height <= Height(t, top)
    && x.hash == Ancestor(t, top, x.height) && PathStored(t, blocks, top, x.height)
  }

  /** No common block above height k. */
  ghost predicate Apart(t: Tree, a: Hash, b: Hash, k: nat)
    requires Lawful(t)
  {
    forall j | k < j <= Height(t, a) && j <= Height(t, b) :: Ancestor(t, a, j) != Ancestor(t, b, j)
  }

  lemma StepDown(t: Tree, blocks: map<Hash, Block>, delivered: set<(Hash, Hash)>, top: Hash, x: Block)
    requires Lawful(t) && Filed(t, blocks, delivered) && top in t.height && On(t, blocks, delivered, top, x)
    requires x.prevBlock in blocks
    ensures On(t, blocks, delivered, top, blocks[x.prevBlock]) && blocks[x.prevBlock].height + 1 == x.height
  {
    Predecessor(t, blocks, delivered, top, x);
  }

  lemma ApartMore(t: Tree, blocks: map<Hash, Block>, delivered: set<(Hash, Hash)>, a: Hash, b: Hash, x: Block, y: Block)
    requires Lawful(t) && On(t, blocks, delivered, a, x) && On(t, blocks, delivered, b, y)
    requires Apart(t, a, b, y.height) && x.height == y.height && x.hash != y.hash && y.height > 0
    ensures Apart(t, a, b, y.height - 1)
  {
  }

  /** If the higher walker cannot go on, the chains do not meet in stored blocks. */
  lemma NoJoinBelow(t: Tree, blocks: map<Hash, Block>, delivered: set<(Hash, Hash)>, a: Hash, b: Hash, x: Block,
                    y: Block)
    requires Lawful(t) && a in t.height && On(t, blocks, delivered, a, x) && On(t, blocks, delivered, b, y)
    requires Apart(t, a, b, y.height) && x.height >= y.height && x.hash != y.hash && x.prevBlock !in blocks
    ensures forall k: nat :: !JoinAt(t, blocks, a, b, k)
  {
    forall k: nat | JoinAt(t, blocks, a, b, k) ensures false {
      assert k <= y.height;
      if k < x.height {
        assert Ancestor(t, a, x.height - 1) in blocks;
        Below(t, a, x, k);
      }
    }
  }

  lemma NoJoinUnder(t: Tree, blocks: map<Hash, Block>, delivered: set<(Hash, Hash)>, a: Hash, b: Hash, y: Block)
    requires Lawful(t) && b in t.height && On(t, blocks, delivered, b, y) && y.height > 0
    requires Apart(t, a, b, y.height - 1) && y.prevBlock !in blocks
    ensures forall k: nat :: !JoinAt(t, blocks, a, b, k)
  {
    forall k: nat | JoinAt(t, blocks, a, b, k) ensures false {
      assert k <= y.height - 1;
      assert Ancestor(t, b, y.height - 1) in blocks;
      Below(t, b, y, k);
    }
  }

  /** A walker on the chain to b has not passed the height at which that chain ends. */
  lemma NotPassed(t: Tree, blocks: map<Hash, Block>, delivered: set<(Hash, Hash)>, a: Hash, b: Hash, y: Block, k: nat)
    requires Lawful(t) && b in t.height && On(t, blocks, delivered, b, y) && EndsAt(t, blocks, a, b, k)
    ensures y.height >= k
  {
    if y.height < k {
      AncestorTwice(t, b, k - 1, y.height);
      AncestorHeight(t, b, k - 1);
      AncestorReaches(t, b, k - 1);
    }
  }

  /** If the higher walker cannot go on, the other chain has not ended before. */
  lemma NoEndBelow(t: Tree, blocks: map<Hash, Block>, delivered: set<(Hash, Hash)>, a: Hash, b: Hash, x: Block,
                   y: Block)
    requires Lawful(t) && a in t.height && b in t.height
    requires On(t, blocks, delivered, a, x) && On(t, blocks, delivered, b, y)
    requires x.height >= y.height && x.prevBlock !in blocks
    ensures forall k: nat :: !EndsAt(t, blocks, a, b, k)
  {
    forall k: nat | EndsAt(t, blocks, a, b, k) ensures false {
      NotPassed(t, blocks, delivered, a, b, y, k);
      assert Ancestor(t, a, x.height - 1) in blocks;
      Below(t, a, x, k - 1);
    }
  }

  lemma NoEndAtJoin(t: Tree, blocks: map<Hash, Block>, delivered: set<(Hash, Hash)>, a: Hash, b: Hash, x: Block,
                    y: Block)
    requires Lawful(t) && b in t.height && On(t, blocks, delivered, a, x) && On(t, blocks, delivered, b, y)
    requires x.hash == y.hash
    ensures forall k: nat :: !EndsAt(t, blocks, a, b, k)
  {
    forall k: nat | EndsAt(t, blocks, a, b, k) ensures false {
      NotPassed(t, blocks, delivered, a, b, y, k);
    }
  }

  /** The walker on the chain to b ends here. */
  lemma EndsUnder(t: Tree, blocks: map<Hash, Block>, delivered: set<(Hash, Hash)>, a: Hash, b: Hash, x: Block, y: Block)
    requires Lawful(t) && Filed(t, blocks, delivered) && a in t.height && b in t.height
    requires On(t, blocks, delivered, a, x) && On(t, blocks, delivered, b, y) && x.height == y.height > 0
    requires x.prevBlock in blocks && y.prevBlock !in blocks && Apart(t, a, b, y.height - 1)
    ensures EndsAt(t, blocks, a, b, y.height)
  {
    StepDown(t, blocks, delivered, a, x);
    if Height(t, Ancestor(t, b, y.height - 1)) == y.height - 1 && Ancestor(t, b, y.height - 1) in blocks {
      Below(t, b, y, y.height - 1);
    }
  }

  /** The ancestor one lower is the predecessor, unless the chain has no ancestor at height k at all. */
  lemma Below(t: Tree, top: Hash, x: Block, k: nat)
    requires Lawful(t) && top in t.height && InTree(t, x) && x.height == Height(t, x.hash) && k < x.height
    requires x.hash == Ancestor(t, top, x.height) && Height(t, Ancestor(t, top, k)) == k
    ensures Ancestor(t, top, x.height - 1) == x.prevBlock
  {
    AncestorTwice(t, top, x.height, x.height - 1);
    AncestorTwice(t, top, x.height, k);
    assert Ancestor(t, x.hash, x.height - 1) == if x.hash in t.prev then t.prev[x.hash] else x.hash;
  }
}
