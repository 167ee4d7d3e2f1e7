/** Runs of delivered blocks, and two of them that end where the next block cannot be handled (BRPeerManager.c). */
module ChainRuns {
  import opened Options
  import opened Ledger
  import opened BlockTree
  import opened ChainSteps

  // ---- runs ----

  /** A block of the tree that can be handled and calls no orphan. */
  ghost predicate Goes(t: Tree, checkpoint: nat, s: Step, v: Verdicts)
    requires Lawful(t)
  {
    && InTree(t, s.block) && Height(t, s.block.hash) < BLOCK_UNKNOWN_HEIGHT
    && Handled(t, checkpoint, s, v) && Follower(t, checkpoint, s, v).None?
  }

  /** The state after delivering one block after the other. */
  ghost function RunState(t: Tree, checkpoint: nat, v: Verdicts, s: State, bs: seq<Block>): State {
    if bs == [] then s
    else
      var n := |bs| - 1;
      Next(t, checkpoint, Step(bs[n], RunState(t, checkpoint, v, s, bs[..n])), v)
  }

  ghost predicate Run(t: Tree, checkpoint: nat, v: Verdicts, s: State, bs: seq<Block>)
    requires Lawful(t)
  {
    bs == [] ||
    var n := |bs| - 1;
    && Run(t, checkpoint, v, s, bs[..n])
    && Goes(t, checkpoint, Step(bs[n], RunState(t, checkpoint, v, s, bs[..n])), v)
  }

  /** Some run of delivered blocks leads from one state to the other. */
  ghost predicate Reached(t: Tree, checkpoint: nat, v: Verdicts, s: State, e: State)
    requires Lawful(t)
  {
    exists bs: seq<Block> :: Run(t, checkpoint, v, s, bs) && RunState(t, checkpoint, v, s, bs) == e
  }

  lemma StartReached(t: Tree, checkpoint: nat, v: Verdicts, s: State)
    requires Lawful(t)
    ensures Reached(t, checkpoint, v, s, s)
  {
    assert Run(t, checkpoint, v, s, []) && RunState(t, checkpoint, v, s, []) == s;
  }

  lemma NextReached(t: Tree, checkpoint: nat, v: Verdicts, s: State, e: State, b: Block)
    requires Lawful(t) && Reached(t, checkpoint, v, s, e) && Goes(t, checkpoint, Step(b, e), v)
    ensures Reached(t, checkpoint, v, s, Next(t, checkpoint, Step(b, e), v))
  {
    var bs: seq<Block> :| Run(t, checkpoint, v, s, bs) && RunState(t, checkpoint, v, s, bs) == e;
    var more := bs + [b];
    assert more[..|more| - 1] == bs;
    assert Run(t, checkpoint, v, s, more);
    assert RunState(t, checkpoint, v, s, more) == Next(t, checkpoint, Step(b, e), v);
  }

  // ---- two chains from one block ----

  /** Side 0 is the chain 0, 2, 4, ..., side 1 the chain 0, 3, 5, ...; block n of each has height n. */
  function Line(side: nat, n: nat): Hash
    requires side < 2
  {
    if n == 0 then 0 else 2 * n + side
  }

  ghost function TwoChains(): (t: Tree)
    ensures Lawful(t)
  {
    Tree(imap h: Hash | h >= 2 :: Before(h), imap h: Hash | h != 1 :: h / 2)
  }

  function Before(h: Hash): Hash {
    if h == 0 then 1 else if h == 3 then 0 else if h >= 2 then h - 2 else 0
  }

  function BlockOf(h: Hash): Block {
    Block(h, Before(h), h / 2, 0, [])
  }

  function Store(hashes: set<Hash>): map<Hash, Block> {
    map h | h in hashes :: BlockOf(h)
  }

  /** These blocks are stored, nothing is put aside, and the main chain ends in top. */
  function Holding(hashes: set<Hash>, top: Hash): State {
    State(Store(hashes), map[], BlockOf(top))
  }

  function Approving(): Verdicts {
    Verdicts({}, {}, {}, 0)
  }

  lemma {:induction false} LineAncestor(side: nat, n: nat, k: nat)
    requires side < 2 && k <= n
    ensures Ancestor(TwoChains(), Line(side, n), k) == Line(side, k)
    decreases n
  {
    if k < n {
      assert Before(Line(side, n)) == Line(side, n - 1);
      LineAncestor(side, n - 1, k);
    }
  }

  lemma LineBlock(side: nat, n: nat)
    requires side < 2 && n < BLOCK_UNKNOWN_HEIGHT
    ensures IsBlock(TwoChains(), BlockOf(Line(side, n)), {}) && BlockOf(Line(side, n)).height == n
    ensures n > 0 ==> Before(Line(side, n)) == Line(side, n - 1)
  {
  }

  /** Walking back along stored blocks. */
  lemma {:induction false} BackAlong(hashes: set<Hash>, side: nat, m: nat, n: nat)
    requires side < 2 && n <= m && forall j | m - n <= j < m :: Line(side, j) in hashes
    ensures BackFrom(Store(hashes), BlockOf(Line(side, m)), n) == Some(BlockOf(Line(side, m - n)))
  {
    if n > 0 {
      BackAlong(hashes, side, m, n - 1);
      assert Before(Line(side, m - n + 1)) == Line(side, m - n) && Line(side, m - n) in hashes;
    }
  }

  /** The blocks of one side strictly between the first one and height n. */
  function Between(side: nat, n: nat): set<Hash>
    requires side < 2
  {
    set h: Hash | 2 <= h < 2 * n + side && h % 2 == side
  }

  lemma StoreLess(hashes: set<Hash>, less: set<Hash>)
    ensures Store(hashes) - less == Store(hashes - less)
  {
  }

  lemma StoreMore(hashes: set<Hash>, h: Hash)
    ensures Store(hashes)[h := BlockOf(h)] == Store(hashes + {h})
  {
  }

  /** One block further down. */
  lemma PrunedStep(hashes: set<Hash>, h: Hash)
    requires 1 !in hashes && h >= 2 && Before(h) in hashes
    ensures PrunedFrom(TwoChains(), Store(hashes), BlockOf(h)) ==
            PrunedFrom(TwoChains(), Store(if Before(h) / 2 % BLOCK_DIFFICULTY_INTERVAL != 0 then hashes - {Before(h)}
                                          else hashes), BlockOf(Before(h)))
  {
    StoreLess(hashes, {Before(h)});
  }

  lemma BetweenGrows(hashes: set<Hash>, side: nat, n: nat)
    requires side < 2 && n > 0
    ensures hashes - Between(side, n) ==
            if n == 1 then hashes else hashes - {Line(side, n - 1)} - Between(side, n - 1)
  {
  }

  lemma LinesDiffer(side: nat, j: nat, n: nat)
    requires side < 2 && j < n
    ensures Line(side, j) != Line(side, n)
  {
  }

  ghost predicate StoredBelow(hashes: set<Hash>, side: nat, n: nat)
    requires side < 2
  {
    forall j | 0 <= j < n :: Line(side, j) in hashes
  }

  lemma StoredBelowLess(hashes: set<Hash>, side: nat, n: nat)
    requires side < 2 && n > 0 && StoredBelow(hashes, side, n)
    ensures StoredBelow(hashes - {Line(side, n - 1)}, side, n - 1)
  {
    forall j | 0 <= j < n - 1 ensures Line(side, j) in hashes - {Line(side, n - 1)} {
      LinesDiffer(side, j, n - 1);
    }
  }

  /** Pruning from the first transition or below removes everything down to the first block. */
  lemma {:induction false} PrunedAlong(hashes: set<Hash>, side: nat, n: nat)
    requires side < 2 && n <= BLOCK_DIFFICULTY_INTERVAL && 1 !in hashes && StoredBelow(hashes, side, n)
    ensures PrunedFrom(TwoChains(), Store(hashes), BlockOf(Line(side, n))) == Store(hashes - Between(side, n))
    decreases n
  {
    if n == 0 {
      PrunedAtFirst(hashes);
      assert hashes - Between(side, n) == hashes;
    } else {
      PrunedNext(hashes, side, n);
      BetweenGrows(hashes, side, n);
      if n == 1 {
        PrunedAtFirst(hashes);
      } else {
        StoredBelowLess(hashes, side, n);
        PrunedAlong(hashes - {Line(side, n - 1)}, side, n - 1);
      }
    }
  }

  lemma PrunedAtFirst(hashes: set<Hash>)
    requires 1 !in hashes
    ensures PrunedFrom(TwoChains(), Store(hashes), BlockOf(0)) == Store(hashes)
  {
  }

  lemma PrunedNext(hashes: set<Hash>, side: nat, n: nat)
    requires side < 2 && 0 < n <= BLOCK_DIFFICULTY_INTERVAL && 1 !in hashes && StoredBelow(hashes, side, n)
    ensures PrunedFrom(TwoChains(), Store(hashes), BlockOf(Line(side, n))) ==
            PrunedFrom(TwoChains(), Store(if n > 1 then hashes - {Line(side, n - 1)} else hashes),
                       BlockOf(Line(side, n - 1)))
  {
    LineBlock(side, n);
    LineBlock(side, n - 1);
    assert Line(side, n - 1) in hashes;
    PrunedStep(hashes, Line(side, n));
  }

  /** What is left of the stored blocks when block n of one side is tested. */
  function Left(hashes: set<Hash>, side: nat, n: nat): set<Hash>
    requires side < 2
  {
    if n == 2 * BLOCK_DIFFICULTY_INTERVAL then hashes - Between(side, BLOCK_DIFFICULTY_INTERVAL) else hashes
  }

  lemma TestedAlong(hashes: set<Hash>, side: nat, n: nat)
    requires side < 2 && 0 < n <= 2 * BLOCK_DIFFICULTY_INTERVAL + 1 && 1 !in hashes
    requires n % BLOCK_DIFFICULTY_INTERVAL == 0 ==> StoredBelow(hashes, side, n)
    ensures Kept(TwoChains(), Store(hashes), BlockOf(Line(side, n))) == Store(Left(hashes, side, n))
    ensures Passes(Store(hashes), BlockOf(Line(side, n)), {})
  {
    LineBlock(side, n);
    if n % BLOCK_DIFFICULTY_INTERVAL == 0 {
      BackAlong(hashes, side, n, BLOCK_DIFFICULTY_INTERVAL);
      PrunedAlong(hashes, side, n - BLOCK_DIFFICULTY_INTERVAL);
      assert n == BLOCK_DIFFICULTY_INTERVAL ==> hashes - Between(side, 0) == hashes;
    }
  }

  // ---- the main chain is delivered ----

  /** Block n + 1 of one side has its predecessor, and all before it if it is at a transition. */
  ghost predicate Prepared(hashes: set<Hash>, side: nat, n: nat)
    requires side < 2
  {
    && 1 !in hashes && Line(side, n) in hashes
    && ((n + 1) % BLOCK_DIFFICULTY_INTERVAL == 0 ==> StoredBelow(hashes, side, n + 1))
  }

  /** A block that follows the last one. */
  lemma Extends(hashes: set<Hash>, side: nat, n: nat)
    requires side < 2 && n <= 2 * BLOCK_DIFFICULTY_INTERVAL && Prepared(hashes, side, n)
    ensures var s := Step(BlockOf(Line(side, n + 1)), Holding(hashes, Line(side, n)));
      && Goes(TwoChains(), 0, s, Approving())
      && Next(TwoChains(), 0, s, Approving()) ==
         Holding(Left(hashes, side, n + 1) + {Line(side, n + 1)}, Line(side, n + 1))
  {
    LineBlock(side, n);
    LineBlock(side, n + 1);
    TestedAlong(hashes, side, n + 1);
    StoreMore(Left(hashes, side, n + 1), Line(side, n + 1));
  }

  /** A block that lies on a fork and is not higher than the last one. */
  lemma Forks(hashes: set<Hash>, n: nat)
    requires n < 2 * BLOCK_DIFFICULTY_INTERVAL && Prepared(hashes, 1, n) && Line(1, n + 1) !in hashes
    ensures var s := Step(BlockOf(Line(1, n + 1)), Holding(hashes, END));
      && Goes(TwoChains(), 0, s, Approving())
      && Next(TwoChains(), 0, s, Approving()) == Holding(Left(hashes, 1, n + 1) + {Line(1, n + 1)}, END)
  {
    LineBlock(1, n);
    LineBlock(1, n + 1);
    TestedAlong(hashes, 1, n + 1);
    StoreMore(Left(hashes, 1, n + 1), Line(1, n + 1));
  }

  /** The end of the main chain, at the second transition. */
  const END: Hash := 4 * BLOCK_DIFFICULTY_INTERVAL

  function Start(): State {
    Holding({0}, 0)
  }

  /** Some run from the first block alone leads to these blocks and this end. */
  ghost predicate Seen(hashes: set<Hash>, top: Hash) {
    Reached(TwoChains(), 0, Approving(), Start(), Holding(hashes, top))
  }

  lemma SeenNext(hashes: set<Hash>, top: Hash, b: Block, more: set<Hash>, newTop: Hash)
    requires Seen(hashes, top) && Goes(TwoChains(), 0, Step(b, Holding(hashes, top)), Approving())
    requires Next(TwoChains(), 0, Step(b, Holding(hashes, top)), Approving()) == Holding(more, newTop)
    ensures Seen(more, newTop)
  {
    NextReached(TwoChains(), 0, Approving(), Start(), Holding(hashes, top), b);
  }

  lemma SeenExtended(hashes: set<Hash>, n: nat, more: set<Hash>)
    requires n < 2 * BLOCK_DIFFICULTY_INTERVAL && Prepared(hashes, 0, n)
    requires Seen(hashes, Line(0, n)) && more == Left(hashes, 0, n + 1) + {Line(0, n + 1)}
    ensures Seen(more, Line(0, n + 1))
  {
    Extends(hashes, 0, n);
    SeenNext(hashes, Line(0, n), BlockOf(Line(0, n + 1)), more, Line(0, n + 1));
  }

  lemma SeenForked(hashes: set<Hash>, n: nat, more: set<Hash>)
    requires n < 2 * BLOCK_DIFFICULTY_INTERVAL && Prepared(hashes, 1, n) && Line(1, n + 1) !in hashes
    requires Seen(hashes, END) && more == Left(hashes, 1, n + 1) + {Line(1, n + 1)}
    ensures Seen(more, END)
  {
    Forks(hashes, n);
    SeenNext(hashes, END, BlockOf(Line(1, n + 1)), more, END);
  }

  /** The main chain up to height n. */
  function Main(n: nat): set<Hash> {
    set h: Hash | h <= 2 * n && h % 2 == 0
  }

  lemma MainGrows(n: nat)
    requires 0 < n < 2 * BLOCK_DIFFICULTY_INTERVAL
    ensures Main(n) == Left(Main(n - 1), 0, n) + {Line(0, n)} && Prepared(Main(n - 1), 0, n - 1)
  {
  }

  lemma StartSeen()
    ensures Seen(Main(0), 0)
  {
    assert Main(0) == {0};
    StartReached(TwoChains(), 0, Approving(), Start());
  }

  lemma MainSeenNext(n: nat)
    requires 0 < n < 2 * BLOCK_DIFFICULTY_INTERVAL && Seen(Main(n - 1), Line(0, n - 1))
    ensures Seen(Main(n), Line(0, n))
  {
    MainGrows(n);
    SeenExtended(Main(n - 1), n - 1, Main(n));
  }

  lemma {:induction false} MainSeen(n: nat)
    requires n < 2 * BLOCK_DIFFICULTY_INTERVAL
    ensures Seen(Main(n), Line(0, n))
  {
    if n == 0 {
      StartSeen();
    } else {
      MainSeen(n - 1);
      MainSeenNext(n);
    }
  }

  /** At the second transition the main chain is pruned down to the first one. */
  function Trunk(): set<Hash> {
    set h: Hash | h <= END && h % 2 == 0 && (h == 0 || h >= 2 * BLOCK_DIFFICULTY_INTERVAL)
  }

  lemma MainBecomesTrunk(n: nat)
    requires n + 1 == 2 * BLOCK_DIFFICULTY_INTERVAL
    ensures Trunk() == Left(Main(n), 0, n + 1) + {Line(0, n + 1)} && Prepared(Main(n), 0, n)
  {
  }

  lemma TrunkSeen()
    ensures Seen(Trunk(), Line(0, 2 * BLOCK_DIFFICULTY_INTERVAL))
  {
    var n := 2 * BLOCK_DIFFICULTY_INTERVAL - 1;
    MainSeen(n);
    MainBecomesTrunk(n);
    SeenExtended(Main(n), n, Trunk());
  }

  // ---- a block arrives again below what is stored of the main chain ----

  /** The blocks of side 1 at heights from lo to hi. */
  function Fork(lo: nat, hi: nat): set<Hash> {
    set h: Hash | 2 * lo + 1 <= h <= 2 * hi + 1 && h % 2 == 1
  }

  /** The first block is stored, and of side 1 nothing from there up to height n. */
  ghost predicate Vacant(hashes: set<Hash>, n: nat) {
    0 in hashes && forall h | h in hashes && h % 2 == 1 :: h > 2 * n + 1
  }

  lemma ForkGrows(hashes: set<Hash>, n: nat, less: set<Hash>, more: set<Hash>)
    requires 0 < n < 2 * BLOCK_DIFFICULTY_INTERVAL && Vacant(hashes, n)
    requires less == hashes + Fork(1, n - 1) && more == hashes + Fork(1, n)
    ensures more == Left(less, 1, n) + {Line(1, n)} && Prepared(less, 1, n - 1) && Line(1, n) !in less
  {
  }

  lemma VacantBelow(hashes: set<Hash>, n: nat)
    requires n > 0 && Vacant(hashes, n)
    ensures Vacant(hashes, n - 1)
  {
  }

  lemma ForkSeenNext(hashes: set<Hash>, n: nat, less: set<Hash>, more: set<Hash>)
    requires 0 < n < 2 * BLOCK_DIFFICULTY_INTERVAL && Vacant(hashes, n)
    requires less == hashes + Fork(1, n - 1) && more == hashes + Fork(1, n) && Seen(less, END)
    ensures Seen(more, END)
  {
    ForkGrows(hashes, n, less, more);
    SeenForked(less, n - 1, more);
  }

  lemma NoFork(hashes: set<Hash>)
    ensures hashes + Fork(1, 0) == hashes
  {
  }

  /** The fork grows from the first block as far as its blocks are not stored. */
  lemma {:induction false} ForkSeen(hashes: set<Hash>, n: nat)
    requires n < 2 * BLOCK_DIFFICULTY_INTERVAL && Seen(hashes, END) && Vacant(hashes, n)
    ensures Seen(hashes + Fork(1, n), END)
  {
    if n == 0 {
      NoFork(hashes);
    } else {
      VacantBelow(hashes, n);
      ForkSeen(hashes, n - 1);
      ForkSeenNext(hashes, n, hashes + Fork(1, n - 1), hashes + Fork(1, n));
    }
  }

  lemma HoldingIs(hashes: set<Hash>)
    requires END in hashes && 1 !in hashes && forall h | h in hashes :: h <= END + 1
    ensures Filed(TwoChains(), Holding(hashes, END).blocks, {}) && IsBlock(TwoChains(), Holding(hashes, END).last, {})
    ensures Topped(Holding(hashes, END))
  {
  }

  lemma HeldAtStuck()
    ensures var hashes := Trunk() + Fork(1, 2);
      && Vacant(Trunk(), 2) && END in hashes && 1 !in hashes && (forall h | h in hashes :: h <= END + 1)
      && Line(1, 1) in hashes && Line(1, 2) in hashes && Line(0, 2) !in hashes
  {
  }

  /** Two blocks of a fork from the first block are stored. If the upper one arrives again after the main chain was
      pruned, the walk down the main chain runs out of blocks. */
  lemma StuckState() returns (t: Tree, s: Step, v: Verdicts)
    ensures Lawful(t) && Filed(t, s.at.blocks, {}) && IsBlock(t, s.at.last, {}) && IsBlock(t, s.block, {})
    ensures Topped(s.at) && Reached(t, 0, v, Start(), s.at)
    ensures s.block.hash in s.at.blocks && !Handled(t, 0, s, v) && !Loses(t, 0, s, v)
  {
    var hashes := Trunk() + Fork(1, 2);
    HeldAtStuck();
    TrunkSeen();
    ForkSeen(Trunk(), 2);
    s := Step(BlockOf(Line(1, 2)), Holding(hashes, END));
    t, v := TwoChains(), Approving();
    Stuck(hashes, s);
  }

  lemma Stuck(hashes: set<Hash>, s: Step)
    requires s == Step(BlockOf(Line(1, 2)), Holding(hashes, END)) && Seen(hashes, END)
    requires END in hashes && 1 !in hashes && (forall h | h in hashes :: h <= END + 1)
    requires Line(1, 1) in hashes && Line(1, 2) in hashes && Line(0, 2) !in hashes
    ensures Filed(TwoChains(), s.at.blocks, {}) && IsBlock(TwoChains(), s.at.last, {})
    ensures IsBlock(TwoChains(), s.block, {}) && s.block.hash in s.at.blocks
    ensures Topped(s.at) && Reached(TwoChains(), 0, Approving(), Start(), s.at)
    ensures !Handled(TwoChains(), 0, s, Approving()) && !Loses(TwoChains(), 0, s, Approving())
  {
    HoldingIs(hashes);
    LineBlock(1, 2);
    NotStoredDown(hashes, 2);
  }

  /** A stored block of the fork arrives again below what is stored of the main chain. */
  lemma NotStoredDown(hashes: set<Hash>, n: nat)
    requires 0 < n < BLOCK_DIFFICULTY_INTERVAL && 1 !in hashes && Line(1, n - 1) in hashes && Line(1, n) in hashes
    requires Line(0, n) !in hashes
    ensures !Handled(TwoChains(), 0, Step(BlockOf(Line(1, n)), Holding(hashes, END)), Approving())
    ensures !Loses(TwoChains(), 0, Step(BlockOf(Line(1, n)), Holding(hashes, END)), Approving())
  {
    LineBlock(1, n);
    TestedAlong(hashes, 1, n);
    LineAncestor(0, 2 * BLOCK_DIFFICULTY_INTERVAL, n);
  }

  // ---- a fork outgrows the main chain ----

  /** The fork above the first transition. */
  function Tip(): set<Hash> {
    Trunk() + Fork(BLOCK_DIFFICULTY_INTERVAL, 2 * BLOCK_DIFFICULTY_INTERVAL)
  }

  lemma ForkBecomesTip(n: nat)
    requires n + 1 == 2 * BLOCK_DIFFICULTY_INTERVAL
    ensures Tip() == Left(Trunk() + Fork(1, n), 1, n + 1) + {Line(1, n + 1)}
    ensures Prepared(Trunk() + Fork(1, n), 1, n) && Line(1, n + 1) !in Trunk() + Fork(1, n) && Vacant(Trunk(), n)
  {
  }

  /** The fork up to the second transition; testing its last block prunes it. */
  lemma TipSeen()
    ensures Seen(Tip(), END)
  {
    var n := 2 * BLOCK_DIFFICULTY_INTERVAL - 1;
    ForkBecomesTip(n);
    TrunkSeen();
    ForkSeen(Trunk(), n);
    SeenForked(Trunk() + Fork(1, n), n, Tip());
  }

  lemma HeldAtLost(n: nat)
    requires n == BLOCK_DIFFICULTY_INTERVAL
    ensures var hashes := Tip() + Fork(1, n - 1);
      && Vacant(Trunk(), 2 * n - 1) && Vacant(Tip(), n - 1)
      && END in hashes && 1 !in hashes && (forall h | h in hashes :: h <= END + 1)
      && (forall j | n <= j < 2 * n :: Line(0, j) in hashes) && (forall j | 0 < j <= 2 * n :: Line(1, j) in hashes)
      && Line(0, n - 1) !in hashes && Line(1, 2 * n + 1) !in hashes
  {
  }

  /** A fork from the first block is stored in full, because its lower blocks were delivered again, and now it outgrows
      the main chain, which is stored down to the first transition only. */
  lemma LostState() returns (t: Tree, s: Step, v: Verdicts)
    ensures Lawful(t) && Filed(t, s.at.blocks, {}) && IsBlock(t, s.at.last, {}) && IsBlock(t, s.block, {})
    ensures Topped(s.at) && Reached(t, 0, v, Start(), s.at)
    ensures !Handled(t, 0, s, v) && Loses(t, 0, s, v)
  {
    var n := BLOCK_DIFFICULTY_INTERVAL;
    var hashes := Tip() + Fork(1, n - 1);
    HeldAtLost(n);
    TipSeen();
    ForkSeen(Tip(), n - 1);
    s := Step(BlockOf(Line(1, 2 * n + 1)), Holding(hashes, END));
    t, v := TwoChains(), Approving();
    Lost(hashes, s);
  }

  lemma Lost(hashes: set<Hash>, s: Step)
    requires s == Step(BlockOf(Line(1, 2 * BLOCK_DIFFICULTY_INTERVAL + 1)), Holding(hashes, END)) && Seen(hashes, END)
    requires END in hashes && 1 !in hashes && (forall h | h in hashes :: h <= END + 1)
    requires forall j | BLOCK_DIFFICULTY_INTERVAL <= j < 2 * BLOCK_DIFFICULTY_INTERVAL :: Line(0, j) in hashes
    requires forall j | 0 < j <= 2 * BLOCK_DIFFICULTY_INTERVAL :: Line(1, j) in hashes
    requires Line(0, BLOCK_DIFFICULTY_INTERVAL - 1) !in hashes && Line(1, 2 * BLOCK_DIFFICULTY_INTERVAL + 1) !in hashes
    ensures Filed(TwoChains(), s.at.blocks, {}) && IsBlock(TwoChains(), s.at.last, {})
    ensures IsBlock(TwoChains(), s.block, {})
    ensures Topped(s.at) && Reached(TwoChains(), 0, Approving(), Start(), s.at)
    ensures !Handled(TwoChains(), 0, s, Approving()) && Loses(TwoChains(), 0, s, Approving())
  {
    HoldingIs(hashes);
    LineBlock(1, 2 * BLOCK_DIFFICULTY_INTERVAL + 1);
    Outgrown(hashes);
  }

  lemma Outgrown(hashes: set<Hash>)
    requires 1 !in hashes
    requires forall j | BLOCK_DIFFICULTY_INTERVAL <= j < 2 * BLOCK_DIFFICULTY_INTERVAL :: Line(0, j) in hashes
    requires forall j | 0 < j <= 2 * BLOCK_DIFFICULTY_INTERVAL :: Line(1, j) in hashes
    requires Line(0, BLOCK_DIFFICULTY_INTERVAL - 1) !in hashes && Line(1, 2 * BLOCK_DIFFICULTY_INTERVAL + 1) !in hashes
    ensures var s := Step(BlockOf(Line(1, 2 * BLOCK_DIFFICULTY_INTERVAL + 1)), Holding(hashes, END));
      !Handled(TwoChains(), 0, s, Approving()) && Loses(TwoChains(), 0, s, Approving())
  {
    var n := 2 * BLOCK_DIFFICULTY_INTERVAL;
    LineBlock(1, n);
    LineBlock(1, n + 1);
    TestedAlong(hashes, 1, n + 1);
    StoreMore(hashes, Line(1, n + 1));
    EndsInTrunk(Store(hashes + {Line(1, n + 1)}), BLOCK_DIFFICULTY_INTERVAL);
  }

  /** The chain to block 2n of side 0 is not stored below height n, the fork is. */
  lemma EndsInTrunk(blocks: map<Hash, Block>, n: nat)
    requires 1 < n && Line(0, n - 1) !in blocks
    requires forall j | n <= j < 2 * n :: Line(0, j) in blocks
    requires forall j | 0 < j <= 2 * n :: Line(1, j) in blocks
    ensures EndsAt(TwoChains(), blocks, Line(1, 2 * n + 1), Line(0, 2 * n), n)
    ensures forall k: nat {:trigger JoinAt(TwoChains(), blocks, Line(1, 2 * n + 1), Line(0, 2 * n), k)} ::
              !JoinAt(TwoChains(), blocks, Line(1, 2 * n + 1), Line(0, 2 * n), k)
  {
    var t, a, b := TwoChains(), Line(1, 2 * n + 1), Line(0, 2 * n);
    forall j | 0 <= j <= 2 * n ensures Ancestor(t, b, j) == Line(0, j) && Ancestor(t, a, j) == Line(1, j) {
      LineAncestor(0, 2 * n, j);
      LineAncestor(1, 2 * n + 1, j);
    }
    assert PathStored(t, blocks, a, n - 1) by {
      forall j | n - 1 <= j < 2 * n + 1 ensures Ancestor(t, a, j) in blocks {
        LineAncestor(1, 2 * n + 1, j);
        assert Line(1, j) in blocks;
      }
    }
    forall k: nat ensures !JoinAt(t, blocks, a, b, k) {
      NoJoinInTrunk(blocks, n, k);
    }
  }

  lemma NoJoinInTrunk(blocks: map<Hash, Block>, n: nat, k: nat)
    requires 1 < n && Line(0, n - 1) !in blocks
    ensures !JoinAt(TwoChains(), blocks, Line(1, 2 * n + 1), Line(0, 2 * n), k)
  {
    LineAncestor(0, 2 * n, n - 1);
    assert k < n ==> !PathStored(TwoChains(), blocks, Line(0, 2 * n), k);
    if k <= 2 * n {
      LineAncestor(0, 2 * n, k);
      LineAncestor(1, 2 * n + 1, k);
    }
  }
}
