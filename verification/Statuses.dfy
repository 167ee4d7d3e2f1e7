/** When a transaction is invalid, pending or settled, said of the list itself rather than of the sets the balance pass
    builds (BRWallet.c). */
module Statuses {
  import opened Ledger

  // ---- the sets ----

  /** Position k holds an invalid transaction with this hash. */
  ghost predicate InvalidAt(env: Env, txs: seq<Tx>, k: nat, h: Hash) {
    k < |txs| && StatusAt(env, txs, k) == Invalid && txs[k].txHash == h
  }

  ghost predicate PendingAt(env: Env, txs: seq<Tx>, k: nat, h: Hash) {
    k < |txs| && StatusAt(env, txs, k) == Pending && txs[k].txHash == h
  }

  /** Position k holds a settled transaction that pays the address. */
  ghost predicate PaysAt(env: Env, txs: seq<Tx>, k: nat, a: Address) {
    && k < |txs| && StatusAt(env, txs, k) == Settled
    && exists j | 0 <= j < |txs[k].outputs| :: txs[k].outputs[j].address == a
  }

  lemma {:induction false} InvalidMembers(env: Env, txs: seq<Tx>, n: nat, h: Hash)
    requires n <= |txs|
    ensures h in Fold(env, txs, n).invalid <==> exists k: nat | k < n :: InvalidAt(env, txs, k, h)
  {
    if n > 0 {
      InvalidMembers(env, txs, n - 1, h);
      assert (exists k: nat | k < n :: InvalidAt(env, txs, k, h)) <==>
             (InvalidAt(env, txs, n - 1, h) || exists k: nat | k < n - 1 :: InvalidAt(env, txs, k, h));
    }
  }

  lemma {:induction false} PendingMembers(env: Env, txs: seq<Tx>, n: nat, h: Hash)
    requires n <= |txs|
    ensures h in Fold(env, txs, n).pending <==> exists k: nat | k < n :: PendingAt(env, txs, k, h)
  {
    if n > 0 {
      PendingMembers(env, txs, n - 1, h);
      assert (exists k: nat | k < n :: PendingAt(env, txs, k, h)) <==>
             (PendingAt(env, txs, n - 1, h) || exists k: nat | k < n - 1 :: PendingAt(env, txs, k, h));
    }
  }

  lemma {:induction false} AddressesAre(outputs: seq<TxOutput>, n: nat, a: Address)
    requires n <= |outputs| && a != ""
    ensures a in Addresses(outputs, n) <==> exists j | 0 <= j < n :: outputs[j].address == a
  {
    if n > 0 {
      AddressesAre(outputs, n - 1, a);
    }
  }

  /** The used addresses are exactly those that settled transactions pay. */
  lemma {:induction false} UsedMembers(env: Env, txs: seq<Tx>, n: nat, a: Address)
    requires n <= |txs| && a != ""
    ensures a in Fold(env, txs, n).used <==> exists k: nat | k < n :: PaysAt(env, txs, k, a)
  {
    if n > 0 {
      UsedMembers(env, txs, n - 1, a);
      AddressesAre(txs[n - 1].outputs, |txs[n - 1].outputs|, a);
      assert (exists k: nat | k < n :: PaysAt(env, txs, k, a)) <==>
             (PaysAt(env, txs, n - 1, a) || exists k: nat | k < n - 1 :: PaysAt(env, txs, k, a));
    }
  }

  // ---- invalid ----

  /** Input i is spent by a transaction before n that is not invalid, or spends an invalid one. */
  ghost predicate Conflicts(env: Env, txs: seq<Tx>, n: nat, i: TxInput) {
    || (exists k: nat | k < n :: SpentBy(env, txs, k, i.prevout))
    || (exists k: nat | k < n :: InvalidAt(env, txs, k, i.prevout.hash))
  }

  lemma {:induction false} AnyTakenIff(env: Env, txs: seq<Tx>, n: nat, inputs: seq<TxInput>, m: nat)
    requires n <= |txs| && m <= |inputs|
    ensures AnyTaken(Fold(env, txs, n).spent, Fold(env, txs, n).invalid, inputs, m) <==>
            exists j | 0 <= j < m :: Conflicts(env, txs, n, inputs[j])
  {
    if m > 0 {
      AnyTakenIff(env, txs, n, inputs, m - 1);
      SpentIsInputs(env, txs, n, inputs[m - 1].prevout);
      InvalidMembers(env, txs, n, inputs[m - 1].prevout.hash);
    }
  }

  /** A transaction is invalid if and only if it is unconfirmed and an input conflicts with what comes before it. */
  lemma InvalidIff(env: Env, txs: seq<Tx>, n: nat)
    requires n < |txs|
    ensures StatusAt(env, txs, n) == Invalid <==>
      txs[n].blockHeight == TX_UNCONFIRMED &&
      exists j | 0 <= j < |txs[n].inputs| :: Conflicts(env, txs, n, txs[n].inputs[j])
  {
    AnyTakenIff(env, txs, n, txs[n].inputs, |txs[n].inputs|);
  }

  // ---- pending ----

  /** Lock times below the threshold count blocks, the others seconds. */
  predicate Locked(env: Env, lockTime: nat) {
    if lockTime < TX_MAX_LOCK_HEIGHT then lockTime > env.blockHeight + 1 else lockTime > env.now
  }

  /** By its sequence an input allows replacement, or at least lets the lock time count. */
  predicate Replaceable(i: TxInput) {
    i.sequence <= 0xffff_fffd
  }

  predicate Lockable(i: TxInput) {
    i.sequence <= 0xffff_fffe
  }

  /** What the code takes for a lock time in the future: it compares heights with seconds as well. */
  predicate Future(env: Env, lockTime: nat) {
    Locked(env, lockTime) || lockTime > env.now
  }

  /** That differs from the rule exactly for heights already reached that are larger than the time in seconds; so never
      at a time beyond the threshold. */
  lemma FutureIsLockedIff(env: Env, lockTime: nat)
    ensures (Future(env, lockTime) <==> Locked(env, lockTime)) <==>
            !(lockTime < TX_MAX_LOCK_HEIGHT && env.now < lockTime <= env.blockHeight + 1)
    ensures env.now >= TX_MAX_LOCK_HEIGHT ==> (Future(env, lockTime) <==> Locked(env, lockTime))
  {
  }

  lemma HeldBackIff(env: Env, pending: set<Hash>, tx: Tx, i: TxInput)
    ensures InputHeldBack(env, pending, tx, i) <==>
            Replaceable(i) || (Lockable(i) && Future(env, tx.lockTime)) || i.prevout.hash in pending
  {
  }

  /** Input i can be replaced, is locked, or spends a transaction before n that is pending. */
  ghost predicate Waits(env: Env, txs: seq<Tx>, n: nat, tx: Tx, i: TxInput) {
    || Replaceable(i) || (Lockable(i) && Future(env, tx.lockTime))
    || exists k: nat | k < n :: PendingAt(env, txs, k, i.prevout.hash)
  }

  lemma {:induction false} AnyHeldBackIff(env: Env, txs: seq<Tx>, n: nat, tx: Tx, m: nat)
    requires n <= |txs| && m <= |tx.inputs|
    ensures AnyHeldBack(env, Fold(env, txs, n).pending, tx, m) <==>
            exists j | 0 <= j < m :: Waits(env, txs, n, tx, tx.inputs[j])
  {
    if m > 0 {
      AnyHeldBackIff(env, txs, n, tx, m - 1);
      HeldBackIff(env, Fold(env, txs, n).pending, tx, tx.inputs[m - 1]);
      PendingMembers(env, txs, n, tx.inputs[m - 1].prevout.hash);
    }
  }

  lemma {:induction false} AnyDustIff(outputs: seq<TxOutput>, m: nat)
    requires m <= |outputs|
    ensures AnyDust(outputs, m) <==> exists j | 0 <= j < m :: outputs[j].amount < TX_MIN_OUTPUT_AMOUNT
  {
    if m > 0 {
      AnyDustIff(outputs, m - 1);
    }
  }

  /** A transaction is pending if and only if it is unconfirmed, not invalid, and too large, or has an output that is
      too small or an input that waits. */
  lemma PendingIff(env: Env, txs: seq<Tx>, n: nat)
    requires n < |txs|
    ensures StatusAt(env, txs, n) == Pending <==>
      && txs[n].blockHeight == TX_UNCONFIRMED && StatusAt(env, txs, n) != Invalid
      && (|| txs[n].size > TX_MAX_SIZE
          || (exists j | 0 <= j < |txs[n].outputs| :: txs[n].outputs[j].amount < TX_MIN_OUTPUT_AMOUNT)
          || (exists j | 0 <= j < |txs[n].inputs| :: Waits(env, txs, n, txs[n], txs[n].inputs[j])))
  {
    AnyDustIff(txs[n].outputs, |txs[n].outputs|);
    AnyHeldBackIff(env, txs, n, txs[n], |txs[n].inputs|);
  }
}
