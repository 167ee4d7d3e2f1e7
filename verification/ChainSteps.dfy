/** One block from a peer as a step on values: when it can be handled, what is stored afterwards, and what it does to
    heights and times in the wallet (BRPeerManager.c). */
module ChainSteps {
  import opened Options
  import opened Ledger
  import opened BlockTree

  /** What a peer's surroundings decide about blocks: which are ignored while a filter is pending or as early headers,
      which are too old to keep as orphans, which fail the difficulty or checkpoint test, and how far the peer is. */
  datatype Verdicts = Verdicts(ignored: set<Hash>, stale: set<Hash>, bad: set<Hash>, peerLastBlock: nat)

  /** The stored blocks, the orphans filed under the block they wait for, and the end of the main chain. */
  datatype State = State(blocks: map<Hash, Block>, orphans: map<Hash, Block>, last: Block)

  /** A block with the state in which it is handled. */
  datatype Step = Step(block: Block, at: State)

  /** The block with the height that its stored predecessor gives it. */
  function Numbered(blocks: map<Hash, Block>, b: Block): Block {
    if b.prevBlock in blocks then b.(height := blocks[b.prevBlock].height + 1) else b
  }

  // ---- when a block can be handled ----

  /** The fork is not the longer chain, or it meets the main chain in stored blocks. */
  ghost predicate CanFork(t: Tree, blocks: map<Hash, Block>, last: Block, b: Block)
    requires Lawful(t)
  {
    b.height <= last.height || exists k: nat :: JoinAt(t, blocks, b.hash, last.hash, k)
  }

  /** The block runs ahead while the peer's chain is still being loaded. */
  predicate Ahead(v: Verdicts, last: Block, b: Block) {
    last.height < v.peerLastBlock && b.height > last.height + 1
  }

  /** There are blocks enough to place a block of known height. */
  ghost predicate CanJoin(t: Tree, checkpoint: nat, s: State, b: Block, v: Verdicts)
    requires Lawful(t)
  {
    || b.prevBlock == s.last.hash
    || (if b.hash in s.blocks then ReachesDown(t, s.blocks, s.last, b.height)
        else Ahead(v, s.last, b) || b.height <= checkpoint || CanFork(t, s.blocks[b.hash := b], s.last, b))
  }

  /** The state after the test of a block. */
  ghost function Tested(t: Tree, s: State, b: Block): State {
    s.(blocks := Kept(t, s.blocks, b))
  }

  /** The block is not ignored, its predecessor is stored, and it passes the test. */
  predicate IsPlaced(s: Step, v: Verdicts) {
    && s.block.hash !in v.ignored && s.block.prevBlock in s.at.blocks
    && Passes(s.at.blocks, Numbered(s.at.blocks, s.block), v.bad)
  }

  /** When a block is handled: it goes no further than the test, or there are blocks enough to place it. */
  ghost predicate Handled(t: Tree, checkpoint: nat, s: Step, v: Verdicts)
    requires Lawful(t)
  {
    var b := Numbered(s.at.blocks, s.block);
    IsPlaced(s, v) ==> CanJoin(t, checkpoint, Tested(t, s.at, b), b, v)
  }

  /** The fork is the longer chain, and the main chain ends among the stored blocks before it meets the fork. */
  ghost predicate LosesFork(t: Tree, blocks: map<Hash, Block>, last: Block, b: Block)
    requires Lawful(t)
  {
    b.height > last.height && exists k: nat :: EndsAt(t, blocks, b.hash, last.hash, k)
  }

  ghost predicate LosesJoin(t: Tree, checkpoint: nat, s: State, b: Block, v: Verdicts)
    requires Lawful(t)
  {
    && b.prevBlock != s.last.hash && b.hash !in s.blocks && !Ahead(v, s.last, b)
    && b.height > checkpoint && LosesFork(t, s.blocks[b.hash := b], s.last, b)
  }

  ghost predicate Loses(t: Tree, checkpoint: nat, s: Step, v: Verdicts)
    requires Lawful(t)
  {
    var b := Numbered(s.at.blocks, s.block);
    IsPlaced(s, v) && LosesJoin(t, checkpoint, Tested(t, s.at, b), b, v)
  }

  /** A stored block arrives again and is no lower than the main chain is stored: that always works. */
  lemma DeepEnough(t: Tree, delivered: set<(Hash, Hash)>, checkpoint: nat, s: Step, v: Verdicts, k: nat)
    requires Lawful(t) && Filed(t, s.at.blocks, delivered) && IsBlock(t, s.at.last, delivered)
    requires IsBlock(t, Numbered(s.at.blocks, s.block), delivered)
    requires ReachesDown(t, s.at.blocks, s.at.last, k)
    requires k <= Numbered(s.at.blocks, s.block).height <= k + BLOCK_DIFFICULTY_INTERVAL
    requires s.block.hash in Kept(t, s.at.blocks, Numbered(s.at.blocks, s.block))
    ensures Handled(t, checkpoint, s, v)
  {
    var b := Numbered(s.at.blocks, s.block);
    ReachesAfterPruning(t, s.at.blocks, delivered, s.at.last, b, k);
    ReachesLess(t, Kept(t, s.at.blocks, b), delivered, s.at.last, k, b.height);
  }

  // ---- what is stored afterwards ----

  function WithoutCopy(orphans: map<Hash, Block>, was: Block): map<Hash, Block> {
    if was.prevBlock in orphans && orphans[was.prevBlock] == was then orphans - {was.prevBlock} else orphans
  }

  /** After placing a block of known height that has passed the test. */
  function Joined(checkpoint: nat, s: State, b: Block, v: Verdicts): State {
    if b.prevBlock == s.last.hash then State(s.blocks[b.hash := b], s.orphans, b)
    else if b.hash in s.blocks then
      State(s.blocks[b.hash := b], WithoutCopy(s.orphans, s.blocks[b.hash]),
            if b.hash == s.last.hash then b else s.last)
    else if Ahead(v, s.last, b) then s.(orphans := s.orphans[b.prevBlock := b])
    else if b.height <= checkpoint then s
    else State(s.blocks[b.hash := b], s.orphans, if b.height > s.last.height then b else s.last)
  }

  /** The block itself, unless it is dropped below the last checkpoint. */
  function JoinedBlock(checkpoint: nat, s: State, b: Block, v: Verdicts): Option<Block> {
    if b.prevBlock != s.last.hash && b.hash !in s.blocks && !Ahead(v, s.last, b) && b.height <= checkpoint then None
    else Some(b)
  }

  /** After a block whose predecessor is stored. */
  ghost function AfterTest(t: Tree, checkpoint: nat, s: State, b: Block, v: Verdicts): State {
    if Passes(s.blocks, b, v.bad) then Joined(checkpoint, Tested(t, s, b), b, v) else Tested(t, s, b)
  }

  ghost function BlockAfterTest(t: Tree, checkpoint: nat, s: State, b: Block, v: Verdicts): Option<Block> {
    if Passes(s.blocks, b, v.bad) then JoinedBlock(checkpoint, Tested(t, s, b), b, v) else None
  }

  /** After any block. */
  ghost function After(t: Tree, checkpoint: nat, s: Step, v: Verdicts): State {
    var b := Numbered(s.at.blocks, s.block);
    if s.block.hash in v.ignored then s.at
    else if s.block.prevBlock in s.at.blocks then AfterTest(t, checkpoint, s.at, b, v)
    else if s.block.hash in v.stale then s.at
    else s.at.(orphans := s.at.orphans[b.prevBlock := b])
  }

  /** The block, if it is kept. */
  ghost function BlockAfter(t: Tree, checkpoint: nat, s: Step, v: Verdicts): Option<Block> {
    var b := Numbered(s.at.blocks, s.block);
    if s.block.hash in v.ignored then None
    else if s.block.prevBlock in s.at.blocks then BlockAfterTest(t, checkpoint, s.at, b, v)
    else if s.block.hash in v.stale then None
    else Some(b)
  }

  /** A block that is kept with its height calls the orphan that waits for it. */
  ghost predicate Calls(t: Tree, checkpoint: nat, s: Step, v: Verdicts) {
    var b := BlockAfter(t, checkpoint, s, v);
    b.Some? && b.value.height != BLOCK_UNKNOWN_HEIGHT
  }

  /** The orphan that is called. */
  ghost function Follower(t: Tree, checkpoint: nat, s: Step, v: Verdicts): Option<Block> {
    if Calls(t, checkpoint, s, v) then Get(After(t, checkpoint, s, v).orphans, s.block.hash) else None
  }

  /** The state once that orphan is taken. */
  ghost function Next(t: Tree, checkpoint: nat, s: Step, v: Verdicts): State {
    var a := After(t, checkpoint, s, v);
    if Calls(t, checkpoint, s, v) then a.(orphans := a.orphans - {s.block.hash}) else a
  }

  /** Only the block itself can become a new orphan. */
  lemma OrphansAfter(t: Tree, checkpoint: nat, s: Step, v: Verdicts, h: Hash)
    requires h in After(t, checkpoint, s, v).orphans
    ensures var o := After(t, checkpoint, s, v).orphans[h];
      o.hash == s.block.hash || (h in s.at.orphans && o == s.at.orphans[h])
  {
  }

  // ---- what happens to the heights and times in the wallet ----

  /** The height and the time of a transaction. */
  datatype Place = Place(height: nat, time: nat)

  /** Nothing, the block's transactions get its height and a time, or the wallet moves to the chain to top, which leaves
      the main chain above the join. */
  datatype Change = Same | Mined(block: Block, time: nat) | Switched(blocks: map<Hash, Block>, top: Block, join: nat)

  /** The time given to the transactions of a block: halfway between its own and that of the block before. */
  function TimeBetween(b: Block, before: Block): nat {
    b.timestamp / 2 + before.timestamp / 2
  }

  /** That is the mean of the two, or one less if both are odd. */
  lemma TimeBetweenIs(b: Block, before: Block)
    ensures b.timestamp + before.timestamp - 2 <= 2 * TimeBetween(b, before) <= b.timestamp + before.timestamp
    ensures b.timestamp <= before.timestamp ==> b.timestamp - 1 <= TimeBetween(b, before) <= before.timestamp
    ensures b.timestamp >= before.timestamp ==> before.timestamp - 1 <= TimeBetween(b, before) <= b.timestamp
  {
  }

  /** The block at height k on the chain to b, as far as it is stored. */
  ghost function BlockOn(t: Tree, blocks: map<Hash, Block>, b: Block, k: nat): Block
    requires Lawful(t)
  {
    if k < b.height && Ancestor(t, b.hash, k) in blocks then blocks[Ancestor(t, b.hash, k)] else b
  }

  /** The place of a transaction once the blocks above height k on the chain to b are settled from the end down. */
  ghost function PlaceOn(t: Tree, blocks: map<Hash, Block>, b: Block, k: nat, h: Hash, was: Place): Place
    requires Lawful(t)
    decreases b.height - k
  {
    if k >= b.height then was
    else if h in BlockOn(t, blocks, b, k + 1).txHashes then
      Place(k + 1, TimeBetween(BlockOn(t, blocks, b, k + 1), BlockOn(t, blocks, b, k)))
    else PlaceOn(t, blocks, b, k + 1, h, was)
  }

  /** That is at the lowest of these blocks that lists it, if there is one. */
  lemma {:induction false} PlaceOnIs(t: Tree, blocks: map<Hash, Block>, b: Block, k: nat, h: Hash, was: Place)
    requires Lawful(t)
    ensures var r := PlaceOn(t, blocks, b, k, h, was);
      || (r == was && forall j | k < j <= b.height :: h !in BlockOn(t, blocks, b, j).txHashes)
      || (k < r.height <= b.height && h in BlockOn(t, blocks, b, r.height).txHashes &&
          r.time == TimeBetween(BlockOn(t, blocks, b, r.height), BlockOn(t, blocks, b, r.height - 1)) &&
          forall j | k < j < r.height :: h !in BlockOn(t, blocks, b, j).txHashes)
    decreases b.height - k
  {
    if k < b.height && h !in BlockOn(t, blocks, b, k + 1).txHashes {
      PlaceOnIs(t, blocks, b, k + 1, h, was);
    }
  }

  ghost function PlaceAfter(t: Tree, c: Change, h: Hash, was: Place): Place
    requires Lawful(t)
  {
    match c
    case Same => was
    case Mined(b, time) => if h in b.txHashes then Place(b.height, time) else was
    case Switched(blocks, top, join) =>
      PlaceOn(t, blocks, top, join, h, if was.height > join then was.(height := TX_UNCONFIRMED) else was)
  }

  /** The highest height at which two chains share a block. */
  ghost function JoinHeight(t: Tree, a: Hash, b: Hash): nat
    requires Lawful(t)
  {
    if exists k: nat :: IsJoin(t, a, b, k) then
      var k: nat :| IsJoin(t, a, b, k);
      k
    else 0
  }

  lemma JoinHeightIs(t: Tree, a: Hash, b: Hash, k: nat)
    requires Lawful(t) && IsJoin(t, a, b, k)
    ensures JoinHeight(t, a, b) == k
  {
  }

  /** The time for the transactions of a block whose predecessor is stored. */
  function TimeOf(blocks: map<Hash, Block>, b: Block): nat {
    if b.prevBlock in blocks then TimeBetween(b, blocks[b.prevBlock]) else 0
  }

  /** What placing a block does. */
  ghost function JoinChange(t: Tree, checkpoint: nat, s: State, b: Block, time: nat, v: Verdicts): Change
    requires Lawful(t)
  {
    if b.prevBlock == s.last.hash then Mined(b, time)
    else if b.hash in s.blocks then
      if b.height <= s.last.height && b.hash == Ancestor(t, s.last.hash, b.height) then Mined(b, time) else Same
    else if Ahead(v, s.last, b) || b.height <= checkpoint || b.height <= s.last.height then Same
    else Switched(s.blocks[b.hash := b], b, JoinHeight(t, b.hash, s.last.hash))
  }

  ghost function ChangeOf(t: Tree, checkpoint: nat, s: Step, v: Verdicts): Change
    requires Lawful(t)
  {
    var b := Numbered(s.at.blocks, s.block);
    if IsPlaced(s, v) then JoinChange(t, checkpoint, Tested(t, s.at, b), b, TimeOf(s.at.blocks, b), v) else Same
  }

  // ---- a block and the orphans behind it ----

  /** After the first step comes the second: it handles the orphan that was called, in the state that was left. */
  ghost predicate Follows(t: Tree, checkpoint: nat, first: Step, second: Step, v: Verdicts)
    requires Lawful(t)
  {
    && Handled(t, checkpoint, first, v)
    && Follower(t, checkpoint, first, v) == Some(second.block) && second.at == Next(t, checkpoint, first, v)
  }

  /** The steps a block sets off: each follows the one before, and they end where no orphan is called or the step cannot
      be handled. */
  ghost predicate Cascade(t: Tree, checkpoint: nat, steps: seq<Step>, v: Verdicts)
    requires Lawful(t)
  {
    && steps != []
    && if |steps| == 1
       then Handled(t, checkpoint, steps[0], v) ==> Follower(t, checkpoint, steps[0], v).None?
       else Follows(t, checkpoint, steps[0], steps[1], v) && Cascade(t, checkpoint, steps[1..], v)
  }

  /** The first step decides all others. */
  lemma {:induction false} CascadeIsUnique(t: Tree, checkpoint: nat, steps: seq<Step>, other: seq<Step>, v: Verdicts)
    requires Lawful(t) && Cascade(t, checkpoint, steps, v) && Cascade(t, checkpoint, other, v)
    requires steps[0] == other[0]
    ensures steps == other
  {
    if |steps| > 1 && |other| > 1 {
      CascadeIsUnique(t, checkpoint, steps[1..], other[1..], v);
      assert steps == [steps[0]] + steps[1..] && other == [other[0]] + other[1..];
    }
  }

  /** It is the last step that decides whether all of them are handled. */
  lemma {:induction false} AllHandledIff(t: Tree, checkpoint: nat, steps: seq<Step>, v: Verdicts)
    requires Lawful(t) && Cascade(t, checkpoint, steps, v)
    ensures (forall i | 0 <= i < |steps| :: Handled(t, checkpoint, steps[i], v)) <==>
            Handled(t, checkpoint, steps[|steps| - 1], v)
  {
    if |steps| > 1 {
      AllHandledIff(t, checkpoint, steps[1..], v);
      assert forall i | 0 <= i < |steps| - 1 :: steps[1..][i] == steps[i + 1];
      forall i | 0 < i < |steps|
        ensures Handled(t, checkpoint, steps[|steps| - 1], v) ==> Handled(t, checkpoint, steps[i], v)
      {
        assert steps[i] == steps[1..][i - 1];
      }
    }
  }

  /** The place of a transaction after all steps. */
  ghost function PlaceAfterAll(t: Tree, checkpoint: nat, steps: seq<Step>, v: Verdicts, h: Hash, was: Place): Place
    requires Lawful(t)
    decreases |steps|
  {
    if steps == [] then was
    else PlaceAfterAll(t, checkpoint, steps[1..], v, h, PlaceAfter(t, ChangeOf(t, checkpoint, steps[0], v), h, was))
  }

  // ---- the end of the main chain ----

  /** The last block is stored, and no stored block is higher. */
  ghost predicate Topped(s: State) {
    s.last.hash in s.blocks && forall h | h in s.blocks :: s.blocks[h].height <= s.last.height
  }

  /** The last block never drops out of the stored blocks, is never outgrown, and never gets lower. */
  lemma ToppedStays(t: Tree, delivered: set<(Hash, Hash)>, checkpoint: nat, s: Step, v: Verdicts)
    requires Lawful(t) && Filed(t, s.at.blocks, delivered) && IsBlock(t, s.at.last, delivered) && Topped(s.at)
    requires s.block.prevBlock in s.at.blocks ==> IsBlock(t, Numbered(s.at.blocks, s.block), delivered)
    ensures Topped(Next(t, checkpoint, s, v)) && Next(t, checkpoint, s, v).last.height >= s.at.last.height
  {
    if s.block.prevBlock in s.at.blocks {
      var b := Numbered(s.at.blocks, s.block);
      KeptIs(t, s.at.blocks, delivered, b);
    }
  }

  // ---- how high the chain is thought to be ----

  /** A block that is kept with its height may raise the estimate. */
  function Raised(was: nat, kept: Option<Block>): nat {
    if kept.Some? && kept.value.height != BLOCK_UNKNOWN_HEIGHT && kept.value.height > was then kept.value.height
    else was
  }

  /** The estimate after all steps. */
  ghost function RaisedAll(t: Tree, checkpoint: nat, steps: seq<Step>, v: Verdicts, was: nat): nat
    decreases |steps|
  {
    if steps == [] then was
    else RaisedAll(t, checkpoint, steps[1..], v, Raised(was, BlockAfter(t, checkpoint, steps[0], v)))
  }

  /** The estimate is the least that is not below the one before nor below any block kept with its height. */
  lemma {:induction false} RaisedAllIs(t: Tree, checkpoint: nat, steps: seq<Step>, v: Verdicts, was: nat)
    ensures var e := RaisedAll(t, checkpoint, steps, v, was);
      && e >= was
      && (forall i | 0 <= i < |steps| && Calls(t, checkpoint, steps[i], v) ::
            BlockAfter(t, checkpoint, steps[i], v).value.height <= e)
      && (e == was || exists i | 0 <= i < |steps| :: Calls(t, checkpoint, steps[i], v) &&
                                                     BlockAfter(t, checkpoint, steps[i], v).value.height == e)
    decreases |steps|
  {
    if steps != [] {
      var rest, next := steps[1..], Raised(was, BlockAfter(t, checkpoint, steps[0], v));
      RaisedAllIs(t, checkpoint, rest, v, next);
      forall i | 0 <= i < |steps| && Calls(t, checkpoint, steps[i], v)
        ensures BlockAfter(t, checkpoint, steps[i], v).value.height <= RaisedAll(t, checkpoint, steps, v, was)
      {
        assert i > 0 ==> steps[i] == rest[i - 1];
      }
      var e := RaisedAll(t, checkpoint, rest, v, next);
      if e == next {
        assert next != was ==> Calls(t, checkpoint, steps[0], v);
      } else {
        var i :| 0 <= i < |rest| && Calls(t, checkpoint, rest[i], v) &&
          BlockAfter(t, checkpoint, rest[i], v).value.height == e;
        assert steps[i + 1] == rest[i];
      }
    }
  }
}
