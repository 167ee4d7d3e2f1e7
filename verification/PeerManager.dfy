/** How blocks arriving from peers move the chain and the heights of the wallet's transactions (BRPeerManager.c). */
module PeerManager {
  import opened Options
  import opened Ledger
  import opened TxOrder
  import opened Wallets
  import opened BlockTree
  import opened ChainSteps

  /** Stuck: a missing block is dereferenced. Lost: the main chain ends before the fork is reached. */
  datatype Outcome = Done | Stuck | Lost

  ghost function Proofs(b: Block): set<(Hash, Hash)> {
    set i | 0 <= i < |b.txHashes| :: (b.hash, b.txHashes[i])
  }

  // ---- confirmed transactions ----

  /** A transaction at height k was listed by a delivered copy of the block at that height on the chain to top. */
  ghost predicate IsConfirmed(t: Tree, delivered: set<(Hash, Hash)>, top: Hash, h: Hash, k: nat)
    requires Lawful(t)
  {
    k == TX_UNCONFIRMED || (k <= Height(t, top) && (Ancestor(t, top, k), h) in delivered)
  }

  ghost predicate Confirmed(t: Tree, delivered: set<(Hash, Hash)>, top: Hash, allTx: map<Hash, Tx>, list: seq<Hash>)
    requires Lawful(t) && Listing(allTx, list)
  {
    forall i | 0 <= i < |list| :: IsConfirmed(t, delivered, top, list[i], allTx[list[i]].blockHeight)
  }

  function PlaceOf(tx: Tx): Place {
    Place(tx.blockHeight, tx.timestamp)
  }

  /** The same transactions are listed, and their heights and times are those after the change. */
  ghost predicate Changed(t: Tree, c: Change, allTx: map<Hash, Tx>, list: seq<Hash>, more: map<Hash, Tx>,
                          other: seq<Hash>)
    requires Lawful(t)
  {
    && SameMembers(other, list)
    && forall h | h in list ::
         h in allTx && h in more && PlaceOf(more[h]) == PlaceAfter(t, c, h, PlaceOf(allTx[h]))
  }

  /** Below the join nothing changes, above it the new branch is settled from its end down to height k. */
  ghost predicate Entered(t: Tree, blocks: map<Hash, Block>, b: Block, k: nat, allTx: map<Hash, Tx>, list: seq<Hash>,
                          more: map<Hash, Tx>, other: seq<Hash>)
    requires Lawful(t)
  {
    && SameMembers(other, list)
    && forall h | h in list ::
         h in allTx && h in more && PlaceOf(more[h]) == PlaceOn(t, blocks, b, k, h, PlaceOf(allTx[h]))
  }

  lemma EnteredNext(t: Tree, blocks: map<Hash, Block>, b: Block, c: Block, x: Block, first: map<Hash, Tx>,
                    list0: seq<Hash>, allTx: map<Hash, Tx>, list: seq<Hash>, more: map<Hash, Tx>, other: seq<Hash>)
    requires Lawful(t) && x.height + 1 == c.height <= b.height
    requires c == BlockOn(t, blocks, b, c.height) && x == BlockOn(t, blocks, b, x.height)
    requires Entered(t, blocks, b, c.height, first, list0, allTx, list)
    requires Changed(t, Mined(c, TimeBetween(c, x)), allTx, list, more, other)
    ensures Entered(t, blocks, b, x.height, first, list0, more, other)
  {
    forall h | h in list0
      ensures h in first && h in more
      ensures PlaceOf(more[h]) == PlaceOn(t, blocks, b, x.height, h, PlaceOf(first[h]))
    {
      assert h in list;
    }
  }

  lemma RevisedChanges(t: Tree, addrs: set<Address>, allTx: map<Hash, Tx>, list: seq<Hash>, other: seq<Hash>, b: Block,
                       timestamp: nat)
    requires Lawful(t) && Listing(allTx, list) && SameMembers(other, list)
    requires Listing(RevisedAll(addrs, allTx, b.txHashes, |b.txHashes|, b.height, timestamp), other)
    ensures Changed(t, Mined(b, timestamp), allTx, list,
                    RevisedAll(addrs, allTx, b.txHashes, |b.txHashes|, b.height, timestamp), other)
  {
    var m := RevisedAll(addrs, allTx, b.txHashes, |b.txHashes|, b.height, timestamp);
    assert b.txHashes[..|b.txHashes|] == b.txHashes;
    forall h | h in list
      ensures h in m && h in allTx && PlaceOf(m[h]) == PlaceAfter(t, Mined(b, timestamp), h, PlaceOf(allTx[h]))
    {
      assert h in other;
      var i :| 0 <= i < |other| && other[i] == h;
      var j :| 0 <= j < |list| && list[j] == h;
      RevisedIs(addrs, allTx, b.txHashes, |b.txHashes|, b.height, timestamp, h);
    }
  }

  lemma NothingChanges(t: Tree, allTx: map<Hash, Tx>, list: seq<Hash>)
    requires Lawful(t) && Listing(allTx, list)
    ensures Changed(t, Same, allTx, list, allTx, list)
  {
  }

  /** Everything above height k has lost its height, but not its time. */
  ghost predicate Left(k: nat, allTx: map<Hash, Tx>, list: seq<Hash>, more: map<Hash, Tx>) {
    forall h | h in list ::
      && h in allTx && h in more
      && more[h].blockHeight == (if allTx[h].blockHeight > k then TX_UNCONFIRMED else allTx[h].blockHeight)
      && more[h].timestamp == allTx[h].timestamp
  }

  lemma UnconfirmedLeft(allTx: map<Hash, Tx>, list: seq<Hash>, k: nat)
    requires Listing(allTx, list) && Distinct(list) && Sorted(allTx, list)
    ensures var changed := list[Above(allTx, list, |list|, k)..];
      Left(k, allTx, list, Unconfirmed(allTx, changed, |changed|))
  {
    UnconfirmsExactly(allTx, list, k);
    forall h | h in list ensures h in allTx {
      var i :| 0 <= i < |list| && list[i] == h;
    }
  }

  lemma NothingEntered(t: Tree, blocks: map<Hash, Block>, b: Block, allTx: map<Hash, Tx>, list: seq<Hash>)
    requires Lawful(t) && Listing(allTx, list)
    ensures Entered(t, blocks, b, b.height, allTx, list, allTx, list)
  {
  }

  /** Leaving the main chain above the join and entering the other one is the whole change. */
  lemma BranchSwitched(t: Tree, blocks: map<Hash, Block>, b: Block, last: Block, k: nat, allTx: map<Hash, Tx>,
                       list: seq<Hash>, left: map<Hash, Tx>, more: map<Hash, Tx>, other: seq<Hash>)
    requires Lawful(t) && IsJoin(t, b.hash, last.hash, k)
    requires Left(k, allTx, list, left) && Entered(t, blocks, b, k, left, list, more, other)
    ensures Changed(t, Switched(blocks, b, JoinHeight(t, b.hash, last.hash)), allTx, list, more, other)
  {
    JoinHeightIs(t, b.hash, last.hash, k);
  }

  lemma ConfirmedMember(t: Tree, delivered: set<(Hash, Hash)>, top: Hash, allTx: map<Hash, Tx>, list: seq<Hash>,
                        h: Hash)
    requires Lawful(t) && Listing(allTx, list) && Confirmed(t, delivered, top, allTx, list) && h in list
    ensures h in allTx && IsConfirmed(t, delivered, top, h, allTx[h].blockHeight)
  {
    var i :| 0 <= i < |list| && list[i] == h;
  }

  lemma ConfirmedMore(t: Tree, delivered: set<(Hash, Hash)>, more: set<(Hash, Hash)>, top: Hash, allTx: map<Hash, Tx>,
                      list: seq<Hash>)
    requires Lawful(t) && Listing(allTx, list) && Confirmed(t, delivered, top, allTx, list) && delivered <= more
    ensures Confirmed(t, more, top, allTx, list)
  {
    forall i | 0 <= i < |list| ensures IsConfirmed(t, more, top, list[i], allTx[list[i]].blockHeight) {
      assert IsConfirmed(t, delivered, top, list[i], allTx[list[i]].blockHeight);
    }
  }

  /** Any other chain that agrees up to the highest confirmed transaction will do. */
  lemma ConfirmedMoves(t: Tree, delivered: set<(Hash, Hash)>, more: set<(Hash, Hash)>, top: Hash, other: Hash,
                       allTx: map<Hash, Tx>, list: seq<Hash>, k: nat)
    requires Lawful(t) && Listing(allTx, list) && Confirmed(t, delivered, top, allTx, list) && delivered <= more
    requires forall i | 0 <= i < |list| ::
               allTx[list[i]].blockHeight == TX_UNCONFIRMED || allTx[list[i]].blockHeight <= k
    requires top in t.height && other in t.height && k <= Height(t, other) &&
        Ancestor(t, top, k) == Ancestor(t, other, k)
    ensures Confirmed(t, more, other, allTx, list)
  {
    forall i | 0 <= i < |list| ensures IsConfirmed(t, more, other, list[i], allTx[list[i]].blockHeight) {
      var j := allTx[list[i]].blockHeight;
      assert IsConfirmed(t, delivered, top, list[i], j);
      if j != TX_UNCONFIRMED {
        AncestorTwice(t, top, k, j);
        AncestorTwice(t, other, k, j);
      }
    }
  }

  /** A block's transactions may take its height if it lies on the chain. */
  lemma ConfirmedRevised(t: Tree, delivered: set<(Hash, Hash)>, top: Hash, addrs: set<Address>, allTx: map<Hash, Tx>,
                         list: seq<Hash>, other: seq<Hash>, b: Block, timestamp: nat)
    requires Lawful(t) && Listing(allTx, list) && Confirmed(t, delivered, top, allTx, list)
    requires IsBlock(t, b, delivered) && b.height <= Height(t, top) && b.hash == Ancestor(t, top, b.height)
    requires Listing(RevisedAll(addrs, allTx, b.txHashes, |b.txHashes|, b.height, timestamp), other)
    requires SameMembers(other, list)
    ensures Confirmed(t, delivered, top, RevisedAll(addrs, allTx, b.txHashes, |b.txHashes|, b.height, timestamp), other)
  {
    var m := RevisedAll(addrs, allTx, b.txHashes, |b.txHashes|, b.height, timestamp);
    forall i | 0 <= i < |other| ensures IsConfirmed(t, delivered, top, other[i], m[other[i]].blockHeight) {
      var h := other[i];
      assert h in list;
      ConfirmedMember(t, delivered, top, allTx, list, h);
      RevisedIs(addrs, allTx, b.txHashes, |b.txHashes|, b.height, timestamp, h);
      if h in b.txHashes[..|b.txHashes|] {
        var j :| 0 <= j < |b.txHashes| && b.txHashes[j] == h;
        assert (b.hash, b.txHashes[j]) in delivered;
      }
    }
  }

  /** After unconfirming everything above k nothing above k is confirmed. */
  lemma ConfirmedBelow(t: Tree, delivered: set<(Hash, Hash)>, top: Hash, allTx: map<Hash, Tx>, list: seq<Hash>, k: nat)
    requires Lawful(t) && Listing(allTx, list) && Distinct(list) && Sorted(allTx, list)
    requires Confirmed(t, delivered, top, allTx, list)
    ensures var changed := list[Above(allTx, list, |list|, k)..];
      var m := Unconfirmed(allTx, changed, |changed|);
      && Listing(m, list) && Confirmed(t, delivered, top, m, list)
      && forall i | 0 <= i < |list| :: m[list[i]].blockHeight == TX_UNCONFIRMED || m[list[i]].blockHeight <= k
  {
    UnconfirmsExactly(allTx, list, k);
    var changed := list[Above(allTx, list, |list|, k)..];
    var m := Unconfirmed(allTx, changed, |changed|);
    forall i | 0 <= i < |list|
      ensures list[i] in m && IsConfirmed(t, delivered, top, list[i], m[list[i]].blockHeight)
      ensures m[list[i]].blockHeight == TX_UNCONFIRMED || m[list[i]].blockHeight <= k
    {
      assert list[i] in list;
      assert IsConfirmed(t, delivered, top, list[i], allTx[list[i]].blockHeight);
    }
  }

  lemma ConfirmedInserted(t: Tree, delivered: set<(Hash, Hash)>, top: Hash, allTx: map<Hash, Tx>, list: seq<Hash>,
                          tx: Tx, p: nat)
    requires Lawful(t) && Listing(allTx, list) && Confirmed(t, delivered, top, allTx, list) && p <= |list|
    requires tx.txHash !in allTx && tx.blockHeight == TX_UNCONFIRMED
    requires Listing(allTx[tx.txHash := tx], Inserted(list, p, tx.txHash))
    ensures Confirmed(t, delivered, top, allTx[tx.txHash := tx], Inserted(list, p, tx.txHash))
  {
    var more, other := allTx[tx.txHash := tx], Inserted(list, p, tx.txHash);
    forall i | 0 <= i < |other| ensures IsConfirmed(t, delivered, top, other[i], more[other[i]].blockHeight) {
      InsertMembers(list, p, tx.txHash, other[i]);
      if other[i] != tx.txHash {
        ConfirmedMember(t, delivered, top, allTx, list, other[i]);
      }
    }
  }

  lemma ConfirmedSublist(t: Tree, delivered: set<(Hash, Hash)>, top: Hash, allTx: map<Hash, Tx>, list: seq<Hash>,
                         more: map<Hash, Tx>, other: seq<Hash>)
    requires Lawful(t) && Listing(allTx, list) && Confirmed(t, delivered, top, allTx, list) && Listing(more, other)
    requires forall x | x in other :: x in list && x in allTx &&
                                      (more[x].blockHeight == allTx[x].blockHeight ||
                                       more[x].blockHeight == TX_UNCONFIRMED)
    ensures Confirmed(t, delivered, top, more, other)
  {
    forall i | 0 <= i < |other| ensures IsConfirmed(t, delivered, top, other[i], more[other[i]].blockHeight) {
      assert other[i] in other;
      ConfirmedMember(t, delivered, top, allTx, list, other[i]);
    }
  }

  ghost function Stored(allTx: map<Hash, Tx>, tx: Tx): map<Hash, Tx> {
    if tx.txHash in allTx then allTx else allTx[tx.txHash := tx]
  }

  /** A transaction that is neither confirmed nor timed yet gets a time if enough peers have relayed it. */
  ghost function TimedIf(allTx: map<Hash, Tx>, h: Hash, relayed: bool, now: nat): map<Hash, Tx>
    requires h in allTx
  {
    if relayed && allTx[h].blockHeight == TX_UNCONFIRMED && allTx[h].timestamp == 0
    then allTx[h := allTx[h].(timestamp := now)] else allTx
  }

  /** The other list has the members of this one, and h besides if it is new. */
  ghost predicate Gains(list: seq<Hash>, other: seq<Hash>, h: Hash, isNew: bool) {
    forall x :: x in other <==> x in list || (x == h && isNew)
  }

  lemma InsertedMembers(list: seq<Hash>, p: nat, h: Hash)
    requires p <= |list|
    ensures Gains(list, Inserted(list, p, h), h, true)
  {
    forall x ensures x in Inserted(list, p, h) <==> x in list || x == h {
      InsertMembers(list, p, h, x);
    }
  }

  /** On a branch that is stored down to height k, the block below block c. */
  lemma OneDown(t: Tree, blocks: map<Hash, Block>, delivered: set<(Hash, Hash)>, b: Block, c: Block, k: nat)
    requires Lawful(t) && Filed(t, blocks, delivered) && IsBlock(t, b, delivered)
    requires On(t, blocks, delivered, b.hash, c) && k < c.height
    requires Height(t, Ancestor(t, b.hash, k)) == k && PathStored(t, blocks, b.hash, k)
    ensures c.prevBlock in blocks
    ensures var x := blocks[c.prevBlock];
      On(t, blocks, delivered, b.hash, x) && x.height + 1 == c.height && x == BlockOn(t, blocks, b, x.height)
  {
    Below(t, b.hash, c, k);
    StepDown(t, blocks, delivered, b.hash, c);
  }

  class PeerManager {
    ghost const tree: Tree
    const wallet: Wallet
    const lastCheckpoint: nat
    var blocks: map<Hash, Block>
    var orphans: map<Hash, Block>
    var lastBlock: Block
    var estimatedHeight: nat
    /** All pairs of a block and a transaction that some delivered copy of the block listed. */
    ghost var delivered: set<(Hash, Hash)>

    ghost predicate ChainOk()
      reads `blocks, `lastBlock, `delivered
    {
      Lawful(tree) && Filed(tree, blocks, delivered) && IsBlock(tree, lastBlock, delivered)
    }

    /** An orphan is filed under the block it waits for. */
    ghost predicate OrphansOk()
      reads `orphans, `delivered
    {
      forall h | h in orphans :: orphans[h].prevBlock == h && Arrived(orphans[h])
    }

    /** A block as it may come from a peer: its hash fixes its place in the tree. */
    ghost predicate Arrived(b: Block)
      reads `delivered
    {
      InTree(tree, b) && Height(tree, b.hash) < BLOCK_UNKNOWN_HEIGHT && Proofs(b) <= delivered
    }

    /** Every listed transaction with a height was listed by a delivered copy of the block at that height on the chain
        that ends in lastBlock. */
    ghost predicate WalletOk()
      requires Lawful(tree)
      reads `lastBlock, `delivered, wallet
    {
      wallet.Valid() && Confirmed(tree, delivered, lastBlock.hash, wallet.allTx, wallet.transactions)
    }

    /** The state without the wallet. */
    ghost function Chain(): State
      reads `blocks, `orphans, `lastBlock
    {
      State(blocks, orphans, lastBlock)
    }

    ghost predicate Valid()
      reads this, wallet
    {
      ChainOk() && OrphansOk() && WalletOk()
    }

    constructor (ghost tree: Tree, wallet: Wallet, lastCheckpoint: nat, blocks: map<Hash, Block>, lastBlock: Block,
                 ghost delivered: set<(Hash, Hash)>)
      requires Lawful(tree) && Filed(tree, blocks, delivered) && IsBlock(tree, lastBlock, delivered)
      requires wallet.Valid() && Confirmed(tree, delivered, lastBlock.hash, wallet.allTx, wallet.transactions)
      ensures Valid() && Chain() == State(blocks, map[], lastBlock) && estimatedHeight == lastBlock.height
      ensures this.tree == tree && this.wallet == wallet && this.lastCheckpoint == lastCheckpoint
      ensures this.delivered == delivered
    {
      this.tree, this.wallet, this.lastCheckpoint := tree, wallet, lastCheckpoint;
      this.blocks, this.lastBlock, this.delivered := blocks, lastBlock, delivered;
      orphans, estimatedHeight := map[], lastBlock.height;
    }

    // ---- moving the wallet ----

    /** Gives the transactions of a block on the chain to top its height. */
    method Confirm(b: Block, timestamp: nat, ghost top: Hash, now: int)
      requires Lawful(tree) && wallet.Valid() && Confirmed(tree, delivered, top, wallet.allTx, wallet.transactions)
      requires IsBlock(tree, b, delivered) && b.height <= Height(tree, top) && b.hash == Ancestor(tree, top, b.height)
      modifies wallet
      ensures wallet.Valid() && Confirmed(tree, delivered, top, wallet.allTx, wallet.transactions)
      ensures Changed(tree, Mined(b, timestamp), old(wallet.allTx), old(wallet.transactions), wallet.allTx,
                      wallet.transactions)
    {
      if |b.txHashes| > 0 {
        ghost var allTx, list := wallet.allTx, wallet.transactions;
        var _ := wallet.UpdateTransactions(b.txHashes, b.height, timestamp, now);
        RevisedChanges(tree, wallet.allAddrs, allTx, list, wallet.transactions, b, timestamp);
        ConfirmedRevised(tree, delivered, top, wallet.allAddrs, allTx, list, wallet.transactions, b, timestamp);
      }
    }

    /** Unconfirms everything above the join and so frees the wallet for the other chain. */
    method LeaveBranch(ghost top: Hash, ghost other: Hash, k: nat, now: int)
      requires Lawful(tree) && wallet.Valid() && Confirmed(tree, delivered, top, wallet.allTx, wallet.transactions)
      requires top in tree.height && other in tree.height && k <= Height(tree, other)
      requires Ancestor(tree, top, k) == Ancestor(tree, other, k)
      modifies wallet
      ensures wallet.Valid() && Confirmed(tree, delivered, other, wallet.allTx, wallet.transactions)
      ensures wallet.transactions == old(wallet.transactions)
      ensures Left(k, old(wallet.allTx), old(wallet.transactions), wallet.allTx)
    {
      UnconfirmedLeft(wallet.allTx, wallet.transactions, k);
      ConfirmedBelow(tree, delivered, top, wallet.allTx, wallet.transactions, k);
      var _ := wallet.SetTxUnconfirmedAfter(k, now);
      ConfirmedMoves(tree, delivered, delivered, top, other, wallet.allTx, wallet.transactions, k);
    }

    // ---- transactions from peers ----

    /** Registers an unconfirmed transaction. Whoever it concerns, it is stored if it is new, and once enough peers
        relay it, it gets a time; it is listed only if it is new and the wallet's. */
    method RelayedTx(tx: Tx, relayed: bool, now: nat)
      requires Valid() && AboveParents(wallet.rank, tx) && tx.blockHeight == TX_UNCONFIRMED
      modifies wallet
      ensures Valid() && wallet.allTx == TimedIf(Stored(old(wallet.allTx), tx), tx.txHash, relayed, now)
      ensures Gains(old(wallet.transactions), wallet.transactions, tx.txHash,
                    tx.txHash !in old(wallet.allTx) && old(Belongs(wallet.allAddrs, wallet.allTx, tx)))
    {
      var known := Register(tx, now);
      if relayed && known.blockHeight == TX_UNCONFIRMED && known.timestamp == 0 {
        Unconfirm(tx.txHash, now, now);
      }
    }

    /** Registers it and returns the stored copy. */
    method Register(tx: Tx, now: int) returns (known: Tx)
      requires Valid() && AboveParents(wallet.rank, tx) && tx.blockHeight == TX_UNCONFIRMED
      modifies wallet
      ensures Valid() && wallet.allTx == Stored(old(wallet.allTx), tx) && known == wallet.allTx[tx.txHash]
      ensures Gains(old(wallet.transactions), wallet.transactions, tx.txHash,
                    tx.txHash !in old(wallet.allTx) && old(Belongs(wallet.allAddrs, wallet.allTx, tx)))
    {
      ghost var allTx, list := wallet.allTx, wallet.transactions;
      var mine := wallet.RegisterTransaction(tx, true, now);
      if mine && tx.txHash !in allTx {
        ghost var p :| 0 <= p <= |list| && wallet.transactions == Inserted(list, p, tx.txHash);
        ConfirmedInserted(tree, delivered, lastBlock.hash, allTx, list, tx, p);
        InsertedMembers(list, p, tx.txHash);
      } else {
        ConfirmedSublist(tree, delivered, lastBlock.hash, allTx, list, wallet.allTx, wallet.transactions);
      }
      known := if mine then wallet.allTx[tx.txHash] else tx;
    }

    /** Marks one transaction as unconfirmed, with a new time. */
    method Unconfirm(h: Hash, timestamp: nat, now: int)
      requires Valid()
      modifies wallet
      ensures Valid() && SameMembers(wallet.transactions, old(wallet.transactions))
      ensures wallet.allTx ==
        if h in old(wallet.allTx)
        then old(wallet.allTx)[h := Stamp(old(wallet.allTx)[h], TX_UNCONFIRMED, timestamp)] else old(wallet.allTx)
    {
      ghost var allTx, list := wallet.allTx, wallet.transactions;
      var _ := wallet.UpdateTransactions([h], TX_UNCONFIRMED, timestamp, now);
      RevisedOne(wallet.allAddrs, allTx, h, timestamp);
      forall x | x in wallet.transactions
        ensures x in list && x in allTx && x in wallet.allTx
        ensures wallet.allTx[x].blockHeight == allTx[x].blockHeight || wallet.allTx[x].blockHeight == TX_UNCONFIRMED
      {
        assert x in list;
        ConfirmedMember(tree, delivered, lastBlock.hash, allTx, list, x);
      }
      ConfirmedSublist(tree, delivered, lastBlock.hash, allTx, list, wallet.allTx, wallet.transactions);
    }

    /** Drops a transaction no peer knows any more, with what depends on it; the store stays. */
    method DropTx(h: Hash, now: int)
      requires Valid()
      modifies wallet
      ensures Valid() && wallet.allTx == old(wallet.allTx)
      ensures wallet.transactions ==
        if h in wallet.allTx
        then Drop(old(wallet.transactions), Reach(wallet.allTx, wallet.rank, old(wallet.transactions), h))
        else old(wallet.transactions)
    {
      ghost var list := wallet.transactions;
      wallet.RemoveTransaction(h, now);
      if h in wallet.allTx {
        SubList(list, Reach(wallet.allTx, wallet.rank, list, h));
      }
      forall x | x in wallet.transactions ensures x in list && x in wallet.allTx {
        assert x in list;
        ConfirmedMember(tree, delivered, lastBlock.hash, wallet.allTx, list, x);
      }
      ConfirmedSublist(tree, delivered, lastBlock.hash, wallet.allTx, list, wallet.allTx, wallet.transactions);
    }

    // ---- the branches for a block whose predecessor is stored ----

    /** The block follows the last one. */
    method Extend(b: Block, timestamp: nat, now: int)
      requires Valid() && IsBlock(tree, b, delivered) && b.prevBlock == lastBlock.hash
      modifies `blocks, `lastBlock, wallet
      ensures Valid() && Chain() == old(State(blocks[b.hash := b], orphans, b))
      ensures Changed(tree, Mined(b, timestamp), old(wallet.allTx), old(wallet.transactions), wallet.allTx,
                      wallet.transactions)
      ensures old(lastBlock).hash in old(blocks) ==> forall k: nat | old(Deep(k)) :: Deep(k)
    {
      forall k: nat | Deep(k) && lastBlock.hash in blocks ensures ReachesDown(tree, blocks[b.hash := b], b, k) {
        ReachesOnTop(tree, blocks, delivered, lastBlock, b, k);
      }
      ghost var top := lastBlock.hash;
      NextOnChain(b, top);
      ConfirmedMoves(tree, delivered, delivered, top, b.hash, wallet.allTx, wallet.transactions, Height(tree, top));
      blocks := blocks[b.hash := b];
      lastBlock := b;
      Confirm(b, timestamp, b.hash, now);
    }

    lemma NextOnChain(b: Block, top: Hash)
      requires ChainOk() && WalletOk() && top == lastBlock.hash && IsBlock(tree, b, delivered) && b.prevBlock == top
      ensures b.hash in tree.prev && Ancestor(tree, top, Height(tree, top)) == Ancestor(tree, b.hash, Height(tree, top))
      ensures Height(tree, b.hash) == Height(tree, top) + 1
      ensures forall i | 0 <= i < |wallet.transactions| ::
                var k := wallet.allTx[wallet.transactions[i]].blockHeight; k == TX_UNCONFIRMED || k <= Height(tree, top)
    {
      assert Ancestor(tree, b.hash, Height(tree, top)) == Ancestor(tree, tree.prev[b.hash], Height(tree, top));
      forall i | 0 <= i < |wallet.transactions|
        ensures var k := wallet.allTx[wallet.transactions[i]].blockHeight; k == TX_UNCONFIRMED || k <= Height(tree, top)
      {
        assert IsConfirmed(tree, delivered, top, wallet.transactions[i],
                           wallet.allTx[wallet.transactions[i]].blockHeight);
      }
    }

    /** Walks down the main chain to the height of a block. */
    method MainChainAt(height: nat) returns (x: Option<Block>)
      requires ChainOk()
      ensures x.Some? <==> ReachesDown(tree, blocks, lastBlock, height)
      ensures x.Some? ==>
        && IsBlock(tree, x.value, delivered) && x.value.hash == Ancestor(tree, lastBlock.hash, x.value.height)
        && x.value.height <= height && x.value.height <= lastBlock.height
        && (lastBlock.height >= height ==> x.value.height == height)
    {
      x := Some(lastBlock);
      while x.Some? && x.value.height > height
        invariant x.Some? ==> On(tree, blocks, delivered, lastBlock.hash, x.value)
        invariant x.Some? ==> x.value.height >= height || x.value == lastBlock
        invariant x.None? ==> !ReachesDown(tree, blocks, lastBlock, height)
        decreases if x.Some? then x.value.height + 1 else 0
      {
        if x.value.prevBlock in blocks {
          StepDown(tree, blocks, delivered, lastBlock.hash, x.value);
        } else {
          CannotReach(tree, blocks, delivered, lastBlock, x.value, height);
        }
        x := Get(blocks, x.value.prevBlock);
      }
    }

    /** A block on the main chain settles its transactions again, and replaces the last one if it is that. */
    method Reconfirm(b: Block, timestamp: nat, now: int)
      requires Valid() && IsBlock(tree, b, delivered) && b.height <= lastBlock.height
      requires b.hash == Ancestor(tree, lastBlock.hash, b.height)
      modifies `lastBlock, wallet
      ensures Valid() && lastBlock == if b.hash == old(lastBlock).hash then b else old(lastBlock)
      ensures Changed(tree, Mined(b, timestamp), old(wallet.allTx), old(wallet.transactions), wallet.allTx,
                      wallet.transactions)
    {
      Confirm(b, timestamp, lastBlock.hash, now);
      if b.height == lastBlock.height { lastBlock := b; }
    }

    ghost predicate OnMainChain(b: Block)
      requires Lawful(tree)
      reads `lastBlock
    {
      b.height <= lastBlock.height && b.hash == Ancestor(tree, lastBlock.hash, b.height)
    }

    /** A stored block arrives again. On the main chain it settles its transactions; it replaces the stored copy. */
    method Redeliver(b: Block, timestamp: nat, now: int) returns (outcome: Outcome)
      requires Valid() && IsBlock(tree, b, delivered) && b.hash in blocks
      modifies `blocks, `orphans, `lastBlock, wallet
      ensures outcome == if old(ReachesDown(tree, blocks, lastBlock, b.height)) then Done else Stuck
      ensures outcome == Done ==>
        Valid() && Chain() == old(State(blocks[b.hash := b], WithoutCopy(orphans, blocks[b.hash]),
                                        if b.hash == lastBlock.hash then b else lastBlock))
      ensures outcome == Done ==>
        Changed(tree, if old(OnMainChain(b)) then Mined(b, timestamp) else Same, old(wallet.allTx),
                old(wallet.transactions), wallet.allTx, wallet.transactions)
      ensures outcome == Done ==> forall k: nat | old(Deep(k)) :: Deep(k)
    {
      var x := MainChainAt(b.height);
      if x.None? { return Stuck; }
      NothingChanges(tree, wallet.allTx, wallet.transactions);
      if x.value.hash == b.hash { Reconfirm(b, timestamp, now); }
      var was := blocks[b.hash];
      blocks := blocks[b.hash := b];
      if was.prevBlock in orphans && orphans[was.prevBlock] == was { orphans := orphans - {was.prevBlock}; }
      return Done;
    }

    /** Block x lies on the stored branch that ends in b. */
    ghost predicate OnBranch(b: Block, x: Block)
      reads `blocks, `lastBlock, `delivered
    {
      ChainOk() && On(tree, blocks, delivered, b.hash, x) && x == BlockOn(tree, blocks, b, x.height)
    }

    /** The wallet has entered the branch that ends in b down to block x. */
    ghost predicate Entering(b: Block, x: Block, first: map<Hash, Tx>, list: seq<Hash>)
      reads `blocks, `lastBlock, `delivered, wallet
    {
      && OnBranch(b, x) && wallet.Valid() && Confirmed(tree, delivered, b.hash, wallet.allTx, wallet.transactions)
      && Entered(tree, blocks, b, x.height, first, list, wallet.allTx, wallet.transactions)
    }

    method EnterNext(b: Block, c: Block, ghost joinHeight: nat, ghost first: map<Hash, Tx>, ghost list: seq<Hash>,
                     now: int) returns (x: Block)
      requires IsBlock(tree, b, delivered) && joinHeight < c.height <= b.height && Entering(b, c, first, list)
      requires Height(tree, Ancestor(tree, b.hash, joinHeight)) == joinHeight
      requires PathStored(tree, blocks, b.hash, joinHeight)
      modifies wallet
      ensures Entering(b, x, first, list) && x.height + 1 == c.height
    {
      OneDown(tree, blocks, delivered, b, c, joinHeight);
      x := blocks[c.prevBlock];
      Settle(b, c, x, first, list, now);
    }

    /** Settles block c of the branch, behind block x. */
    method Settle(b: Block, c: Block, x: Block, ghost first: map<Hash, Tx>, ghost list: seq<Hash>, now: int)
      requires c.height <= b.height && OnBranch(b, x) && x.height + 1 == c.height
      requires Entering(b, c, first, list)
      modifies wallet
      ensures Entering(b, x, first, list)
    {
      ghost var allTx, others := wallet.allTx, wallet.transactions;
      Confirm(c, c.timestamp / 2 + x.timestamp / 2, b.hash, now);
      EnteredNext(tree, blocks, b, c, x, first, list, allTx, others, wallet.allTx, wallet.transactions);
    }

    /** Settles the transactions of the new branch, from its end down to the join. */
    method EnterBranch(b: Block, joinHeight: nat, now: int)
      requires ChainOk() && IsBlock(tree, b, delivered) && joinHeight <= b.height
      requires Height(tree, Ancestor(tree, b.hash, joinHeight)) == joinHeight
      requires PathStored(tree, blocks, b.hash, joinHeight)
      requires wallet.Valid() && Confirmed(tree, delivered, b.hash, wallet.allTx, wallet.transactions)
      modifies wallet
      ensures wallet.Valid() && Confirmed(tree, delivered, b.hash, wallet.allTx, wallet.transactions)
      ensures Entered(tree, blocks, b, joinHeight, old(wallet.allTx), old(wallet.transactions), wallet.allTx,
                      wallet.transactions)
    {
      ghost var first, list := wallet.allTx, wallet.transactions;
      NothingEntered(tree, blocks, b, first, list);
      var x := b;
      while x.height > joinHeight
        invariant joinHeight <= x.height <= b.height && Entering(b, x, first, list)
        decreases x.height
      {
        x := EnterNext(b, x, joinHeight, first, list, now);
      }
    }

    /** The block lies on a branch. If that is now the longest, the wallet moves over to it. */
    method Fork(b: Block, now: int) returns (outcome: Outcome)
      requires Valid() && IsBlock(tree, b, delivered)
      modifies `blocks, `lastBlock, wallet
      ensures outcome == Done <==> CanFork(tree, old(blocks)[b.hash := b], old(lastBlock), b)
      ensures outcome == Lost <==> LosesFork(tree, old(blocks)[b.hash := b], old(lastBlock), b)
      ensures outcome == Done ==>
        Valid() && Chain() == old(State(blocks[b.hash := b], orphans,
                                        if b.height > lastBlock.height then b else lastBlock))
      ensures outcome == Done ==>
        Changed(tree, ForkChange(old(blocks), old(lastBlock), b), old(wallet.allTx), old(wallet.transactions),
                wallet.allTx, wallet.transactions)
      ensures outcome == Done ==> forall k: nat | old(Deep(k)) :: Deep(k)
    {
      blocks := blocks[b.hash := b];
      ForkDeep(b, lastBlock);
      NothingChanges(tree, wallet.allTx, wallet.transactions);
      if b.height > lastBlock.height {
        var x, y := WalkBack(tree, blocks, delivered, b, lastBlock);
        if x.None? { return Stuck; }
        if y.None? {
          var _ := wallet.SetTxUnconfirmedAfter(x.value.height, now);
          lastBlock := b;
          return Lost;
        }
        SwitchTo(b, x.value.height, y.value.height, now);
      }
      return Done;
    }

    ghost function ForkChange(blocks: map<Hash, Block>, last: Block, b: Block): Change
      requires Lawful(tree)
    {
      if b.height <= last.height then Same else Switched(blocks[b.hash := b], b, JoinHeight(tree, b.hash, last.hash))
    }

    /** The wallet moves over to the branch that ends in b, and b becomes the last block. */
    method SwitchTo(b: Block, height: nat, joinHeight: nat, now: int)
      requires Valid() && IsBlock(tree, b, delivered) && height == joinHeight <= lastBlock.height < b.height
      requires IsJoin(tree, b.hash, lastBlock.hash, joinHeight) && PathStored(tree, blocks, b.hash, joinHeight)
      requires Height(tree, Ancestor(tree, b.hash, joinHeight)) == joinHeight
      modifies `lastBlock, wallet
      ensures Valid() && lastBlock == b
      ensures Changed(tree, Switched(blocks, b, JoinHeight(tree, b.hash, old(lastBlock).hash)), old(wallet.allTx),
                      old(wallet.transactions), wallet.allTx, wallet.transactions)
    {
      ghost var last, allTx, list := lastBlock, wallet.allTx, wallet.transactions;
      LeaveBranch(lastBlock.hash, b.hash, height, now);
      ghost var left := wallet.allTx;
      EnterBranch(b, joinHeight, now);
      BranchSwitched(tree, blocks, b, last, joinHeight, allTx, list, left, wallet.allTx, wallet.transactions);
      lastBlock := b;
    }

    /** A chain that joins is stored down to where the main chain was. */
    lemma ForkDeep(b: Block, last: Block)
      requires ChainOk() && IsBlock(tree, b, delivered) && IsBlock(tree, last, delivered)
      ensures (exists j: nat :: JoinAt(tree, blocks, b.hash, last.hash, j)) ==>
                forall k: nat | ReachesDown(tree, blocks, last, k) :: ReachesDown(tree, blocks, b, k)
    {
      if j: nat :| JoinAt(tree, blocks, b.hash, last.hash, j) {
        forall k: nat | ReachesDown(tree, blocks, last, k) ensures ReachesDown(tree, blocks, b, k) {
          ReachesAfterFork(tree, blocks, delivered, last, b, j, k);
        }
      }
    }

    // ---- a block arrives ----

    /** Tests a block that has its height. At a difficulty transition the previous one must be stored; what lies before
        it is pruned down to the transition blocks, whatever the verdict. */
    method VerifyBlock(b: Block, bad: set<Hash>) returns (ok: bool)
      requires ChainOk() && IsBlock(tree, b, delivered)
      modifies `blocks
      ensures ChainOk() && blocks == Kept(tree, old(blocks), b)
      ensures ok <==> Passes(old(blocks), b, bad)
    {
      if b.height % BLOCK_DIFFICULTY_INTERVAL == 0 {
        var x := Some(b);
        var i := 0;
        while x.Some? && i < BLOCK_DIFFICULTY_INTERVAL
          invariant i <= BLOCK_DIFFICULTY_INTERVAL
          invariant x == BackFrom(blocks, b, i)
        {
          x := Get(blocks, x.value.prevBlock);
          i := i + 1;
        }
        BackFromEnds(blocks, b, i, BLOCK_DIFFICULTY_INTERVAL);
        BackFromIs(tree, blocks, delivered, b, i);
        if x.None? { return false; }
        Prune(x.value);
      }
      return b.hash !in bad;
    }

    /** Forgets the blocks below that are not at a difficulty transition. */
    method Prune(b: Block)
      requires ChainOk() && IsBlock(tree, b, delivered)
      modifies `blocks
      ensures ChainOk() && blocks == PrunedFrom(tree, old(blocks), b)
    {
      var x := Some(b);
      while x.Some?
        invariant ChainOk()
        invariant x.Some? ==> IsBlock(tree, x.value, delivered)
        invariant PrunedFrom(tree, old(blocks), b) == if x.Some? then PrunedFrom(tree, blocks, x.value) else blocks
        decreases if x.Some? then x.value.height + 1 else 0
      {
        var c := x.value;
        x := Get(blocks, c.prevBlock);
        if x.Some? { assert IsBlock(tree, x.value, delivered); }
        if x.Some? && x.value.height % BLOCK_DIFFICULTY_INTERVAL != 0 {
          blocks := blocks - {x.value.hash};
        }
      }
    }

    /** The blocks among the orphans that lie above height k. */
    ghost function Waiting(k: nat): set<Hash>
      reads `orphans
    {
      WaitingIn(tree, orphans, k)
    }

    /** Handles a block from a peer, and after it the orphans that wait behind it. The steps are decided by the block
        and the state before: which orphan is called next, and in which state. It works out exactly if the last step
        does; then the state, and the heights and times of the listed transactions, are those after all steps. */
    method RelayedBlock(block: Block, v: Verdicts, now: int) returns (outcome: Outcome, ghost steps: seq<Step>)
      requires Valid() && InTree(tree, block) && Height(tree, block.hash) < BLOCK_UNKNOWN_HEIGHT
      modifies this, wallet
      ensures Cascade(tree, lastCheckpoint, steps, v) && steps[0] == Step(block, old(Chain()))
      ensures outcome == Done <==> Handled(tree, lastCheckpoint, steps[|steps| - 1], v)
      ensures outcome == Lost <==> Loses(tree, lastCheckpoint, steps[|steps| - 1], v)
      ensures outcome == Done ==> Valid() && Chain() == Next(tree, lastCheckpoint, steps[|steps| - 1], v)
      ensures outcome == Done ==>
        ChangedAll(tree, lastCheckpoint, steps, v, old(wallet.allTx), old(wallet.transactions), wallet.allTx,
                   wallet.transactions)
      ensures outcome == Done ==> lastBlock.height >= old(lastBlock).height
      ensures outcome == Done ==> estimatedHeight == RaisedAll(tree, lastCheckpoint, steps, v, old(estimatedHeight))
      ensures outcome == Done ==> delivered == old(delivered) + Proofs(block)
      ensures outcome == Done ==>
        forall k: nat | old(Deep(k)) && Height(tree, block.hash) + |steps| <= k + BLOCK_DIFFICULTY_INTERVAL + 1 ::
            Deep(k)
      decreases |Waiting(Height(tree, block.hash))|
    {
      ghost var first := Step(block, Chain());
      ghost var allTx, list, was := wallet.allTx, wallet.transactions, estimatedHeight;
      var next;
      outcome, next := HandleFirst(block, v, now);
      steps := [first];
      if next.Some? {
        ghost var left, others := wallet.allTx, wallet.transactions;
        ghost var rest;
        outcome, rest := RelayedBlock(next.value, v, now);
        CascadeGrows(tree, lastCheckpoint, first, rest, v);
        RaisedThen(tree, lastCheckpoint, first, rest, v, was);
        if outcome == Done {
          ChangedThen(tree, lastCheckpoint, first, rest, v, allTx, list, left, others, wallet.allTx,
                      wallet.transactions);
        }
        steps := [first] + rest;
      } else if outcome == Done {
        ChangedOnce(tree, lastCheckpoint, first, v, allTx, list, wallet.allTx, wallet.transactions);
        RaisedThen(tree, lastCheckpoint, first, [], v, was);
      }
    }

    /** Handles one block from a peer, and takes the orphan that was waiting for it. */
    method HandleFirst(block: Block, v: Verdicts, now: int) returns (outcome: Outcome, next: Option<Block>)
      requires Valid() && InTree(tree, block) && Height(tree, block.hash) < BLOCK_UNKNOWN_HEIGHT
      modifies this, wallet
      ensures outcome == Done <==> Handled(tree, lastCheckpoint, Step(block, old(Chain())), v)
      ensures outcome == Lost <==> Loses(tree, lastCheckpoint, Step(block, old(Chain())), v)
      ensures outcome == Done ==> Valid() && lastBlock.height >= old(lastBlock).height
      ensures outcome == Done ==>
        && Chain() == Next(tree, lastCheckpoint, Step(block, old(Chain())), v)
        && next == Follower(tree, lastCheckpoint, Step(block, old(Chain())), v)
        && estimatedHeight ==
             Raised(old(estimatedHeight), BlockAfter(tree, lastCheckpoint, Step(block, old(Chain())), v))
      ensures outcome == Done ==>
        Changed(tree, ChangeOf(tree, lastCheckpoint, Step(block, old(Chain())), v), old(wallet.allTx),
                old(wallet.transactions), wallet.allTx, wallet.transactions)
      ensures outcome == Done ==> delivered == old(delivered) + Proofs(block)
      ensures outcome == Done ==>
        forall k: nat | old(Deep(k)) && Height(tree, block.hash) <= k + BLOCK_DIFFICULTY_INTERVAL :: Deep(k)
      ensures next.Some? ==>
        && outcome == Done && Arrived(next.value) && next.value.prevBlock == block.hash
        && |Waiting(Height(tree, next.value.hash))| < |old(Waiting(Height(tree, block.hash)))|
    {
      ghost var before, first := orphans, Step(block, Chain());
      Deliver(block);
      var kept;
      outcome, kept := Handle(block, v, now);
      if outcome != Done { return outcome, None; }
      ghost var with := orphans;
      next := TakeOrphan(kept);
      if next.Some? { WaitingShrinks(tree, before, with, block, next.value, lastCheckpoint, first, v); }
    }

    /** Takes the orphan that waits for a block that is kept with its height. */
    method TakeOrphan(kept: Option<Block>) returns (next: Option<Block>)
      requires Valid()
      modifies `orphans, `estimatedHeight
      ensures Valid()
      ensures estimatedHeight == Raised(old(estimatedHeight), kept)
      ensures if kept.Some? && kept.value.height != BLOCK_UNKNOWN_HEIGHT
              then orphans == old(orphans) - {kept.value.hash} && next == Get(old(orphans), kept.value.hash)
              else orphans == old(orphans) && next == None
    {
      next := None;
      if kept.Some? && kept.value.height != BLOCK_UNKNOWN_HEIGHT {
        if kept.value.height > estimatedHeight { estimatedHeight := kept.value.height; }
        next := Get(orphans, kept.value.hash);
        orphans := orphans - {kept.value.hash};
      }
    }

    /** The main chain is stored down to height k. */
    ghost predicate Deep(k: nat)
      requires Lawful(tree)
      reads `blocks, `lastBlock
    {
      ReachesDown(tree, blocks, lastBlock, k)
    }

    ghost method Deliver(b: Block)
      requires Valid() && InTree(tree, b) && Height(tree, b.hash) < BLOCK_UNKNOWN_HEIGHT
      modifies `delivered
      ensures Valid() && Arrived(b) && delivered == old(delivered) + Proofs(b)
    {
      ConfirmedMore(tree, delivered, delivered + Proofs(b), lastBlock.hash, wallet.allTx, wallet.transactions);
      delivered := delivered + Proofs(b);
    }

    /** The branches for a block of known height that has passed the test; returns it if it is kept. */
    method Join(b: Block, txTime: nat, v: Verdicts, now: int) returns (outcome: Outcome, kept: Option<Block>)
      requires Valid() && IsBlock(tree, b, delivered) && Arrived(b) && b.prevBlock in blocks
      modifies `blocks, `orphans, `lastBlock, wallet
      ensures outcome == Done <==> CanJoin(tree, lastCheckpoint, old(Chain()), b, v)
      ensures outcome == Lost <==> LosesJoin(tree, lastCheckpoint, old(Chain()), b, v)
      ensures outcome == Done ==> Valid() && lastBlock.height >= old(lastBlock).height
      ensures outcome == Done ==>
        && Chain() == Joined(lastCheckpoint, old(Chain()), b, v)
        && kept == JoinedBlock(lastCheckpoint, old(Chain()), b, v)
      ensures outcome == Done ==>
        Changed(tree, JoinChange(tree, lastCheckpoint, old(Chain()), b, txTime, v), old(wallet.allTx),
                old(wallet.transactions), wallet.allTx, wallet.transactions)
      ensures outcome == Done ==> forall k: nat | old(Deep(k)) :: Deep(k)
    {
      NothingChanges(tree, wallet.allTx, wallet.transactions);
      if b.prevBlock == lastBlock.hash {
        Extend(b, txTime, now);
      } else if b.hash in blocks {
        outcome := Redeliver(b, txTime, now);
        return outcome, Some(b);
      } else if lastBlock.height < v.peerLastBlock && b.height > lastBlock.height + 1 {
        orphans := orphans[b.prevBlock := b];
      } else if b.height <= lastCheckpoint {
        return Done, None;
      } else {
        outcome := Fork(b, now);
        return outcome, Some(b);
      }
      return Done, Some(b);
    }

    /** Testing a block leaves the main chain as far as it is not more than an interval below. */
    lemma KeptDeep(b: Block)
      requires ChainOk() && IsBlock(tree, b, delivered)
      ensures Pruned(Kept(tree, blocks, b), blocks) && (b.prevBlock in blocks ==> b.prevBlock in Kept(tree, blocks, b))
      ensures forall k: nat | Deep(k) && b.height <= k + BLOCK_DIFFICULTY_INTERVAL ::
                ReachesDown(tree, Kept(tree, blocks, b), lastBlock, k)
    {
      KeptIs(tree, blocks, delivered, b);
      if b.prevBlock in blocks {
        assert IsBlock(tree, blocks[b.prevBlock], delivered);
      }
      forall k: nat | Deep(k) && b.height <= k + BLOCK_DIFFICULTY_INTERVAL
        ensures ReachesDown(tree, Kept(tree, blocks, b), lastBlock, k)
      {
        ReachesAfterPruning(tree, blocks, delivered, lastBlock, b, k);
      }
    }

    ghost function TestChange(s: State, b: Block, time: nat, v: Verdicts): Change
      requires Lawful(tree)
    {
      if Passes(s.blocks, b, v.bad) then JoinChange(tree, lastCheckpoint, Tested(tree, s, b), b, time, v) else Same
    }

    /** A block whose predecessor is stored. */
    method HandlePlaced(b: Block, txTime: nat, v: Verdicts, now: int) returns (outcome: Outcome, kept: Option<Block>)
      requires Valid() && IsBlock(tree, b, delivered) && Arrived(b) && b.prevBlock in blocks
      modifies `blocks, `orphans, `lastBlock, wallet
      ensures outcome == Done <==>
        (Passes(old(blocks), b, v.bad) ==> CanJoin(tree, lastCheckpoint, Tested(tree, old(Chain()), b), b, v))
      ensures outcome == Lost <==>
        Passes(old(blocks), b, v.bad) && LosesJoin(tree, lastCheckpoint, Tested(tree, old(Chain()), b), b, v)
      ensures outcome == Done ==> Valid() && lastBlock.height >= old(lastBlock).height
      ensures outcome == Done ==>
        && Chain() == AfterTest(tree, lastCheckpoint, old(Chain()), b, v)
        && kept == BlockAfterTest(tree, lastCheckpoint, old(Chain()), b, v)
      ensures outcome == Done ==>
        Changed(tree, TestChange(old(Chain()), b, txTime, v), old(wallet.allTx), old(wallet.transactions), wallet.allTx,
                wallet.transactions)
      ensures outcome == Done ==>
        forall k: nat | old(Deep(k)) && b.height <= k + BLOCK_DIFFICULTY_INTERVAL :: Deep(k)
    {
      NothingChanges(tree, wallet.allTx, wallet.transactions);
      KeptDeep(b);
      var ok := VerifyBlock(b, v.bad);
      if !ok { return Done, None; }
      outcome, kept := Join(b, txTime, v, now);
    }

    /** The branches themselves; returns the block if it is kept. */
    method Handle(block: Block, v: Verdicts, now: int) returns (outcome: Outcome, kept: Option<Block>)
      requires Valid() && Arrived(block)
      modifies `blocks, `orphans, `lastBlock, wallet
      ensures outcome == Done <==> Handled(tree, lastCheckpoint, Step(block, old(Chain())), v)
      ensures outcome == Lost <==> Loses(tree, lastCheckpoint, Step(block, old(Chain())), v)
      ensures outcome == Done ==> Valid() && lastBlock.height >= old(lastBlock).height
      ensures outcome == Done ==>
        && Chain() == After(tree, lastCheckpoint, Step(block, old(Chain())), v)
        && kept == BlockAfter(tree, lastCheckpoint, Step(block, old(Chain())), v)
      ensures outcome == Done ==>
        Changed(tree, ChangeOf(tree, lastCheckpoint, Step(block, old(Chain())), v), old(wallet.allTx),
                old(wallet.transactions), wallet.allTx, wallet.transactions)
      ensures outcome == Done ==>
        forall k: nat | old(Deep(k)) && Height(tree, block.hash) <= k + BLOCK_DIFFICULTY_INTERVAL :: Deep(k)
    {
      var prev := Get(blocks, block.prevBlock);
      var b, txTime := block, 0;
      if prev.Some? {
        txTime := block.timestamp / 2 + prev.value.timestamp / 2;
        b := block.(height := prev.value.height + 1);
      }
      NothingChanges(tree, wallet.allTx, wallet.transactions);
      if block.hash in v.ignored { return Done, None; }
      if prev.None? {
        if block.hash in v.stale { return Done, None; }
        orphans := orphans[b.prevBlock := b];
        return Done, Some(b);
      }
      Placed(block);
      outcome, kept := HandlePlaced(b, txTime, v, now);
    }

    /** Behind a stored predecessor a block gets its height in the tree. */
    lemma Placed(b: Block)
      requires ChainOk() && Arrived(b) && b.prevBlock in blocks
      ensures IsBlock(tree, b.(height := blocks[b.prevBlock].height + 1), delivered)
    {
      assert IsBlock(tree, blocks[b.prevBlock], delivered);
      assert forall i | 0 <= i < |b.txHashes| :: (b.hash, b.txHashes[i]) in Proofs(b);
    }
  }

  lemma CascadeGrows(t: Tree, checkpoint: nat, first: Step, rest: seq<Step>, v: Verdicts)
    requires Lawful(t) && Cascade(t, checkpoint, rest, v) && Follows(t, checkpoint, first, rest[0], v)
    ensures Cascade(t, checkpoint, [first] + rest, v)
  {
    assert ([first] + rest)[1..] == rest;
  }

  lemma RaisedThen(t: Tree, checkpoint: nat, first: Step, rest: seq<Step>, v: Verdicts, was: nat)
    ensures RaisedAll(t, checkpoint, [first] + rest, v, was) ==
            RaisedAll(t, checkpoint, rest, v, Raised(was, BlockAfter(t, checkpoint, first, v)))
  {
    assert ([first] + rest)[1..] == rest;
  }

  /** The same transactions are listed, and their heights and times are those after all steps. */
  ghost predicate ChangedAll(t: Tree, checkpoint: nat, steps: seq<Step>, v: Verdicts, allTx: map<Hash, Tx>,
                             list: seq<Hash>, more: map<Hash, Tx>, other: seq<Hash>)
    requires Lawful(t)
  {
    && SameMembers(other, list)
    && forall h | h in list ::
         && h in allTx && h in more
         && PlaceOf(more[h]) == PlaceAfterAll(t, checkpoint, steps, v, h, PlaceOf(allTx[h]))
  }

  lemma ChangedOnce(t: Tree, checkpoint: nat, first: Step, v: Verdicts, allTx: map<Hash, Tx>, list: seq<Hash>,
                    more: map<Hash, Tx>, other: seq<Hash>)
    requires Lawful(t) && Changed(t, ChangeOf(t, checkpoint, first, v), allTx, list, more, other)
    ensures ChangedAll(t, checkpoint, [first], v, allTx, list, more, other)
  {
    assert [first][1..] == [];
  }

  lemma ChangedThen(t: Tree, checkpoint: nat, first: Step, rest: seq<Step>, v: Verdicts, allTx: map<Hash, Tx>,
                    list: seq<Hash>, left: map<Hash, Tx>, others: seq<Hash>, more: map<Hash, Tx>, other: seq<Hash>)
    requires Lawful(t) && Changed(t, ChangeOf(t, checkpoint, first, v), allTx, list, left, others)
    requires ChangedAll(t, checkpoint, rest, v, left, others, more, other)
    ensures ChangedAll(t, checkpoint, [first] + rest, v, allTx, list, more, other)
  {
    assert ([first] + rest)[1..] == rest;
  }

  ghost function WaitingIn(t: Tree, orphans: map<Hash, Block>, k: nat): set<Hash> {
    set h | h in orphans && Height(t, orphans[h].hash) > k
  }

  /** An orphan lies above the block it waited for, so fewer are left above it. */
  lemma WaitingShrinks(t: Tree, before: map<Hash, Block>, with: map<Hash, Block>, b: Block, next: Block,
                       checkpoint: nat, s: Step, v: Verdicts)
    requires Lawful(t) && InTree(t, b) && InTree(t, next) && b.hash in with && with[b.hash] == next &&
        next.prevBlock == b.hash
    requires s.block == b && s.at.orphans == before && After(t, checkpoint, s, v).orphans == with
    ensures |WaitingIn(t, with - {b.hash}, Height(t, next.hash))| < |WaitingIn(t, before, Height(t, b.hash))|
  {
    forall h | h in with ensures with[h].hash == b.hash || (h in before && with[h] == before[h]) {
      OrphansAfter(t, checkpoint, s, v, h);
    }
    assert Height(t, next.hash) == Height(t, b.hash) + 1;
    SmallerSet(WaitingIn(t, with - {b.hash}, Height(t, next.hash)), WaitingIn(t, before, Height(t, b.hash)), b.hash);
  }
}
