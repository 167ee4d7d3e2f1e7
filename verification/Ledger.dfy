/** What the wallet's balance pass computes (BRWallet.c), as functions of an ordered list of transactions. */
module Ledger {

  type Hash = nat
  type Address = string

  const TX_UNCONFIRMED: nat := 0x7fffffff
  const TX_MAX_SIZE: nat := 100000
  const TX_MIN_OUTPUT_AMOUNT: nat := 546
  const TX_MAX_LOCK_HEIGHT: nat := 500000000
  const UINT32_MAX: nat := 0xffffffff

  /** A transaction output, named by the transaction and its position; inputs name the outputs they spend. */
  datatype OutPoint = OutPoint(hash: Hash, n: nat)

  datatype TxInput = TxInput(prevout: OutPoint, sequence: nat)

  /** The empty address stands for a script without one. */
  datatype TxOutput = TxOutput(address: Address, amount: nat)

  /** size is what BRTransactionSize returns. */
  datatype Tx = Tx(txHash: Hash, inputs: seq<TxInput>, outputs: seq<TxOutput>, lockTime: nat, size: nat,
                   blockHeight: nat, timestamp: nat)

  /** What a classification depends on besides the transactions. */
  datatype Env = Env(allAddrs: set<Address>, blockHeight: nat, now: int)

  /** The sets the pass builds. */
  datatype Books = Books(spent: set<OutPoint>, invalid: set<Hash>, pending: set<Hash>, used: set<Address>)

  datatype Status = Invalid | Pending | Settled

  // ---- classification ----

  predicate InputTaken(spent: set<OutPoint>, invalid: set<Hash>, i: TxInput) {
    i.prevout in spent || i.prevout.hash in invalid
  }

  predicate InputHeldBack(env: Env, pending: set<Hash>, tx: Tx, i: TxInput) {
    || i.sequence < UINT32_MAX - 1
    || (i.sequence < UINT32_MAX && tx.lockTime < TX_MAX_LOCK_HEIGHT && tx.lockTime > env.blockHeight + 1)
    || (i.sequence < UINT32_MAX && tx.lockTime > env.now)
    || i.prevout.hash in pending
  }

  /** One of the first n inputs is spent or invalid already. */
  predicate AnyTaken(spent: set<OutPoint>, invalid: set<Hash>, inputs: seq<TxInput>, n: nat)
    requires n <= |inputs|
  {
    n > 0 && (InputTaken(spent, invalid, inputs[n - 1]) || AnyTaken(spent, invalid, inputs, n - 1))
  }

  /** One of the first n outputs is below the minimum. */
  predicate AnyDust(outputs: seq<TxOutput>, n: nat)
    requires n <= |outputs|
  {
    n > 0 && (outputs[n - 1].amount < TX_MIN_OUTPUT_AMOUNT || AnyDust(outputs, n - 1))
  }

  /** One of the first n inputs can still be replaced, is locked, or is pending itself. */
  predicate AnyHeldBack(env: Env, pending: set<Hash>, tx: Tx, n: nat)
    requires n <= |tx.inputs|
  {
    n > 0 && (InputHeldBack(env, pending, tx, tx.inputs[n - 1]) || AnyHeldBack(env, pending, tx, n - 1))
  }

  /** Confirmed transactions are always settled. */
  function StatusOf(env: Env, b: Books, tx: Tx): Status {
    if tx.blockHeight != TX_UNCONFIRMED then Settled
    else if AnyTaken(b.spent, b.invalid, tx.inputs, |tx.inputs|) then Invalid
    else if tx.size > TX_MAX_SIZE || AnyDust(tx.outputs, |tx.outputs|) ||
            AnyHeldBack(env, b.pending, tx, |tx.inputs|) then Pending
    else Settled
  }

  ghost function Prevouts(inputs: seq<TxInput>, n: nat): set<OutPoint>
    requires n <= |inputs|
  {
    if n == 0 then {} else Prevouts(inputs, n - 1) + {inputs[n - 1].prevout}
  }

  ghost function Addresses(outputs: seq<TxOutput>, n: nat): set<Address>
    requires n <= |outputs|
  {
    if n == 0 then {} else
    Addresses(outputs, n - 1) + (if outputs[n - 1].address != "" then {outputs[n - 1].address} else {})
  }

  ghost function Record(env: Env, b: Books, tx: Tx): Books {
    match StatusOf(env, b, tx)
    case Invalid => b.(invalid := b.invalid + {tx.txHash})
    case Pending => b.(spent := b.spent + Prevouts(tx.inputs, |tx.inputs|), pending := b.pending + {tx.txHash})
    case Settled => b.(spent := b.spent + Prevouts(tx.inputs, |tx.inputs|),
                       used := b.used + Addresses(tx.outputs, |tx.outputs|))
  }

  /** The sets after the first n transactions. */
  ghost function Fold(env: Env, txs: seq<Tx>, n: nat): Books
    requires n <= |txs|
  {
    if n == 0 then Books({}, {}, {}, {}) else Record(env, Fold(env, txs, n - 1), txs[n - 1])
  }

  ghost function StatusAt(env: Env, txs: seq<Tx>, i: nat): Status
    requires i < |txs|
  {
    StatusOf(env, Fold(env, txs, i), txs[i])
  }

  // ---- unspent outputs ----

  /** The outputs before position n that pay the wallet. */
  ghost function Owned(addrs: set<Address>, tx: Tx, n: nat): seq<OutPoint>
    requires n <= |tx.outputs|
  {
    if n == 0 then [] else
    Owned(addrs, tx, n - 1) +
      (if tx.outputs[n - 1].address != "" && tx.outputs[n - 1].address in addrs then [OutPoint(tx.txHash, n - 1)]
       else [])
  }

  /** All outputs of settled transactions among the first n that pay the wallet, in list order. */
  ghost function Funded(env: Env, txs: seq<Tx>, n: nat): seq<OutPoint>
    requires n <= |txs|
  {
    if n == 0 then [] else
    Funded(env, txs, n - 1) +
      (if StatusAt(env, txs, n - 1) == Settled then Owned(env.allAddrs, txs[n - 1], |txs[n - 1].outputs|) else [])
  }

  /** How many of the first n transactions there are up to and including the last settled one. */
  ghost function LastSettled(env: Env, txs: seq<Tx>, n: nat): (k: nat)
    requires n <= |txs|
    ensures k <= n
  {
    if n == 0 then 0 else if StatusAt(env, txs, n - 1) == Settled then n else LastSettled(env, txs, n - 1)
  }

  function Cut(s: seq<OutPoint>, k: nat): seq<OutPoint>
    requires k < |s|
  {
    s[..k] + s[k + 1..]
  }

  ghost function Without(s: seq<OutPoint>, gone: set<OutPoint>): (r: seq<OutPoint>) {
    if s == [] then [] else
    Without(s[..|s| - 1], gone) + (if s[|s| - 1] in gone then [] else [s[|s| - 1]])
  }

  /** The exact unspent outputs after n transactions: what settled transactions paid the wallet, less what was spent, by
      any transaction that is not invalid, up to the last settled one. A spend counts even if it is listed before what
      it spends. */
  ghost function Unspent(env: Env, txs: seq<Tx>, n: nat): seq<OutPoint>
    requires n <= |txs|
  {
    Without(Funded(env, txs, n), Fold(env, txs, LastSettled(env, txs, n)).spent)
  }

  // ---- amounts ----

  predicate Known(allTx: map<Hash, Tx>, o: OutPoint) {
    o.hash in allTx && o.n < |allTx[o.hash].outputs|
  }

  function Amount(allTx: map<Hash, Tx>, o: OutPoint): nat
    requires Known(allTx, o)
  {
    allTx[o.hash].outputs[o.n].amount
  }

  /** The first n outputs are known and add up to the amount. */
  ghost predicate WorthUpTo(allTx: map<Hash, Tx>, s: seq<OutPoint>, n: nat, amount: int)
    requires n <= |s|
  {
    if n == 0 then amount == 0 else
    Known(allTx, s[n - 1]) && WorthUpTo(allTx, s, n - 1, amount - Amount(allTx, s[n - 1]))
  }

  /** The outputs are known and add up to the amount. */
  ghost predicate Worth(allTx: map<Hash, Tx>, s: seq<OutPoint>, amount: int) {
    WorthUpTo(allTx, s, |s|, amount)
  }

  // ---- lemmas ----

  lemma {:induction false} SpentGrows(env: Env, txs: seq<Tx>, i: nat, j: nat)
    requires i <= j <= |txs|
    ensures Fold(env, txs, i).spent <= Fold(env, txs, j).spent
    decreases j
  {
    if i < j {
      SpentGrows(env, txs, i, j - 1);
    }
  }

  lemma {:induction false} LastSettledIs(env: Env, txs: seq<Tx>, n: nat)
    requires n <= |txs|
    ensures LastSettled(env, txs, n) > 0 ==> StatusAt(env, txs, LastSettled(env, txs, n) - 1) == Settled
    ensures forall i | LastSettled(env, txs, n) <= i < n :: StatusAt(env, txs, i) != Settled
  {
    if n > 0 && StatusAt(env, txs, n - 1) != Settled {
      LastSettledIs(env, txs, n - 1);
    }
  }

  /** Position i holds a transaction that spends o and is not invalid. */
  ghost predicate SpentBy(env: Env, txs: seq<Tx>, i: nat, o: OutPoint) {
    i < |txs| && StatusAt(env, txs, i) != Invalid && o in Prevouts(txs[i].inputs, |txs[i].inputs|)
  }

  /** The spent set is exactly the inputs of the transactions that are not invalid. */
  lemma {:induction false} SpentIsInputs(env: Env, txs: seq<Tx>, n: nat, o: OutPoint)
    requires n <= |txs|
    ensures o in Fold(env, txs, n).spent <==> exists i: nat | i < n :: SpentBy(env, txs, i, o)
  {
    if n > 0 {
      SpentIsInputs(env, txs, n - 1, o);
      assert o in Fold(env, txs, n).spent <==> o in Fold(env, txs, n - 1).spent || SpentBy(env, txs, n - 1, o);
    }
  }

  lemma {:induction false} WithoutAppend(a: seq<OutPoint>, b: seq<OutPoint>, gone: set<OutPoint>)
    ensures Without(a + b, gone) == Without(a, gone) + Without(b, gone)
  {
    if b == [] {
      assert a + b == a;
    } else {
      assert (a + b)[..|a + b| - 1] == a + b[..|b| - 1];
      WithoutAppend(a, b[..|b| - 1], gone);
    }
  }

  lemma {:induction false} WithoutTwice(s: seq<OutPoint>, some: set<OutPoint>, more: set<OutPoint>)
    requires some <= more
    ensures Without(Without(s, some), more) == Without(s, more)
  {
    if s != [] {
      var t, x := s[..|s| - 1], s[|s| - 1];
      WithoutTwice(t, some, more);
      WithoutAppend(Without(t, some), if x in some then [] else [x], more);
      assert Without([x], more) == if x in more then [] else [x] by { assert [x][..0] == []; }
    }
  }

  lemma {:induction false} WithoutMembers(s: seq<OutPoint>, gone: set<OutPoint>, o: OutPoint)
    ensures o in Without(s, gone) <==> o in s && o !in gone
  {
    if s != [] {
      WithoutMembers(s[..|s| - 1], gone, o);
      assert o in s <==> o in s[..|s| - 1] || o == s[|s| - 1];
    }
  }

  /** Dropping some of the spent outputs early changes nothing once all of them are dropped. */
  lemma WithoutEarly(f: seq<OutPoint>, o: seq<OutPoint>, some: set<OutPoint>, more: set<OutPoint>)
    requires some <= more
    ensures Without(f + o, more) == Without(Without(f, some) + o, more)
  {
    WithoutTwice(f, some, more);
    WithoutAppend(f, o, more);
    WithoutAppend(Without(f, some), o, more);
  }

  /** A settled transaction: the outputs it pays are appended and everything spent by now is dropped. Any other one
      leaves the unspent outputs alone. */
  lemma UnspentStep(env: Env, txs: seq<Tx>, i: nat)
    requires i < |txs|
    ensures Unspent(env, txs, i + 1) ==
      if StatusAt(env, txs, i) == Settled
      then Without(Unspent(env, txs, i) + Owned(env.allAddrs, txs[i], |txs[i].outputs|), Fold(env, txs, i + 1).spent)
      else Unspent(env, txs, i)
  {
    var k := LastSettled(env, txs, i);
    if StatusAt(env, txs, i) == Settled {
      SpentGrows(env, txs, k, i + 1);
      WithoutEarly(Funded(env, txs, i), Owned(env.allAddrs, txs[i], |txs[i].outputs|),
                   Fold(env, txs, k).spent, Fold(env, txs, i + 1).spent);
    } else {
      assert Funded(env, txs, i) + [] == Funded(env, txs, i);
    }
  }

  /** An output is unspent exactly if a settled transaction paid it to the wallet and no transaction up to the last
      settled one spends it without being invalid. */
  lemma UnspentMembers(env: Env, txs: seq<Tx>, n: nat, o: OutPoint)
    requires n <= |txs|
    ensures o in Unspent(env, txs, n) <==>
      o in Funded(env, txs, n) && !exists i: nat | i < LastSettled(env, txs, n) :: SpentBy(env, txs, i, o)
  {
    var k := LastSettled(env, txs, n);
    WithoutMembers(Funded(env, txs, n), Fold(env, txs, k).spent, o);
    SpentIsInputs(env, txs, k, o);
  }

  /** A transaction up to the last settled one spends the output. */
  ghost predicate SpentEarly(env: Env, txs: seq<Tx>, n: nat, o: OutPoint)
    requires n <= |txs|
  {
    exists i: nat | i < LastSettled(env, txs, n) :: SpentBy(env, txs, i, o)
  }

  /** A pending transaction behind the last settled one spends the output. */
  ghost predicate SpentLate(env: Env, txs: seq<Tx>, n: nat, o: OutPoint)
    requires n <= |txs|
  {
    exists i: nat | LastSettled(env, txs, n) <= i < n :: StatusAt(env, txs, i) == Pending && SpentBy(env, txs, i, o)
  }

  lemma OverlapIs(env: Env, txs: seq<Tx>, n: nat, o: OutPoint)
    requires n <= |txs|
    ensures o in Unspent(env, txs, n) <==> o in Funded(env, txs, n) && !SpentEarly(env, txs, n, o)
    ensures o in Fold(env, txs, n).spent <==> SpentEarly(env, txs, n, o) || SpentLate(env, txs, n, o)
  {
    LastSettledIs(env, txs, n);
    SpentIsInputs(env, txs, n, o);
    UnspentMembers(env, txs, n, o);
  }

  /** The unspent outputs are disjoint from the final spent set exactly if a pending transaction behind the last settled
      one spends no output paid to the wallet unless a transaction before does. */
  lemma UnspentDisjointIff(env: Env, txs: seq<Tx>, n: nat)
    requires n <= |txs|
    ensures (forall o | o in Unspent(env, txs, n) :: o !in Fold(env, txs, n).spent) <==>
            forall o | o in Funded(env, txs, n) :: SpentLate(env, txs, n, o) ==> SpentEarly(env, txs, n, o)
  {
    forall o ensures o in Unspent(env, txs, n) && o in Fold(env, txs, n).spent <==>
                     o in Funded(env, txs, n) && SpentLate(env, txs, n, o) && !SpentEarly(env, txs, n, o)
    {
      OverlapIs(env, txs, n, o);
    }
  }

  /** A pending transaction at the end of the list spends an output that still counts as unspent. */
  lemma PendingSpendOverlaps() returns (env: Env, txs: seq<Tx>, o: OutPoint)
    ensures o in Unspent(env, txs, |txs|) && o in Fold(env, txs, |txs|).spent
  {
    env, o := Env({"a"}, 100, 0), OutPoint(1, 0);
    var funding := Tx(1, [], [TxOutput("a", 600)], 0, 100, 90, 0);
    var spend := Tx(2, [TxInput(o, 0)], [], 0, 100, TX_UNCONFIRMED, 0);
    txs := [funding, spend];
    assert Owned(env.allAddrs, funding, 0) == [] && Owned(env.allAddrs, funding, 1) == [o];
    assert Fold(env, txs, 0) == Books({}, {}, {}, {});
    assert StatusAt(env, txs, 0) == Settled && Fold(env, txs, 1).spent == {};
    assert Fold(env, txs, 1).invalid == {};
    assert !AnyTaken({}, {}, spend.inputs, 0) && !AnyTaken({}, {}, spend.inputs, 1);
    assert AnyHeldBack(env, Fold(env, txs, 1).pending, spend, 1);
    assert StatusAt(env, txs, 1) == Pending;
    assert Prevouts(spend.inputs, 1) == Prevouts(spend.inputs, 0) + {o};
    assert LastSettled(env, txs, 2) == 1;
    assert Funded(env, txs, 0) == [] && Funded(env, txs, 1) == [o];
    UnspentMembers(env, txs, 2, o);
    SpentIsInputs(env, txs, 1, o);
    FundedMembers(env, txs, 2, o);
  }

  lemma {:induction false} WorthAgree(allTx: map<Hash, Tx>, a: seq<OutPoint>, b: seq<OutPoint>, n: nat, amount: int)
    requires n <= |a| && n <= |b| && forall i | 0 <= i < n :: a[i] == b[i]
    ensures WorthUpTo(allTx, a, n, amount) == WorthUpTo(allTx, b, n, amount)
  {
    if n > 0 && Known(allTx, a[n - 1]) {
      WorthAgree(allTx, a, b, n - 1, amount - Amount(allTx, a[n - 1]));
    }
  }

  lemma WorthSnoc(allTx: map<Hash, Tx>, s: seq<OutPoint>, o: OutPoint, amount: int)
    requires Worth(allTx, s, amount) && Known(allTx, o)
    ensures Worth(allTx, s + [o], amount + Amount(allTx, o))
  {
    WorthAgree(allTx, s, s + [o], |s|, amount);
  }

  /** An amount is never negative, whichever output is taken away first. */
  lemma {:induction false} WorthWithout(allTx: map<Hash, Tx>, s: seq<OutPoint>, k: nat, n: nat, amount: int)
    requires k < n <= |s| && WorthUpTo(allTx, s, n, amount)
    ensures Known(allTx, s[k]) && amount >= Amount(allTx, s[k])
    ensures WorthUpTo(allTx, Cut(s, k), n - 1, amount - Amount(allTx, s[k]))
  {
    if k == n - 1 {
      WorthNat(allTx, s, n - 1, amount - Amount(allTx, s[k]));
      WorthAgree(allTx, s, Cut(s, k), n - 1, amount - Amount(allTx, s[k]));
    } else {
      WorthWithout(allTx, s, k, n - 1, amount - Amount(allTx, s[n - 1]));
      assert Cut(s, k)[n - 2] == s[n - 1];
    }
  }

  lemma WorthRemove(allTx: map<Hash, Tx>, s: seq<OutPoint>, k: nat, amount: int)
    requires Worth(allTx, s, amount) && k < |s|
    ensures Known(allTx, s[k]) && amount >= Amount(allTx, s[k])
    ensures Worth(allTx, Cut(s, k), amount - Amount(allTx, s[k]))
  {
    WorthWithout(allTx, s, k, |s|, amount);
  }

  lemma {:induction false} WorthNat(allTx: map<Hash, Tx>, s: seq<OutPoint>, n: nat, amount: int)
    requires n <= |s| && WorthUpTo(allTx, s, n, amount)
    ensures amount >= 0
  {
    if n > 0 {
      WorthNat(allTx, s, n - 1, amount - Amount(allTx, s[n - 1]));
    }
  }

  lemma {:induction false} WorthUnique(allTx: map<Hash, Tx>, s: seq<OutPoint>, n: nat, a: int, b: int)
    requires n <= |s| && WorthUpTo(allTx, s, n, a) && WorthUpTo(allTx, s, n, b)
    ensures a == b
  {
    if n > 0 {
      var x := Amount(allTx, s[n - 1]);
      WorthUnique(allTx, s, n - 1, a - x, b - x);
    }
  }

  lemma {:induction false} WorthKnown(allTx: map<Hash, Tx>, s: seq<OutPoint>, n: nat, amount: int, k: nat)
    requires k < n <= |s| && WorthUpTo(allTx, s, n, amount)
    ensures Known(allTx, s[k])
  {
    if k < n - 1 {
      WorthKnown(allTx, s, n - 1, amount - Amount(allTx, s[n - 1]), k);
    }
  }

  /** What outputs are worth depends only on the outputs of the transactions. */
  lemma {:induction false} WorthSame(allTx: map<Hash, Tx>, other: map<Hash, Tx>, s: seq<OutPoint>, n: nat, amount: int)
    requires n <= |s| && WorthUpTo(allTx, s, n, amount)
    requires forall i | 0 <= i < n && s[i].hash in allTx ::
      s[i].hash in other && other[s[i].hash].outputs == allTx[s[i].hash].outputs
    ensures WorthUpTo(other, s, n, amount)
  {
    if n > 0 {
      WorthSame(allTx, other, s, n - 1, amount - Amount(allTx, s[n - 1]));
    }
  }

  lemma {:induction false} OwnedMembers(addrs: set<Address>, tx: Tx, n: nat, o: OutPoint)
    requires n <= |tx.outputs|
    ensures o in Owned(addrs, tx, n) <==>
      o.hash == tx.txHash && o.n < n && tx.outputs[o.n].address != "" && tx.outputs[o.n].address in addrs
  {
    if n > 0 {
      OwnedMembers(addrs, tx, n - 1, o);
    }
  }

  /** The o-th output of transaction i pays the wallet. */
  ghost predicate PaidBy(env: Env, txs: seq<Tx>, i: nat, o: OutPoint) {
    i < |txs| && txs[i].txHash == o.hash && o.n < |txs[i].outputs| && txs[i].outputs[o.n].address != "" &&
    txs[i].outputs[o.n].address in env.allAddrs
  }

  /** The funded outputs are exactly those of settled transactions that pay the wallet. */
  lemma {:induction false} FundedMembers(env: Env, txs: seq<Tx>, n: nat, o: OutPoint)
    requires n <= |txs|
    ensures o in Funded(env, txs, n) <==>
      exists i: nat | i < n :: StatusAt(env, txs, i) == Settled && PaidBy(env, txs, i, o)
  {
    if n > 0 {
      FundedMembers(env, txs, n - 1, o);
      OwnedMembers(env.allAddrs, txs[n - 1], |txs[n - 1].outputs|, o);
      assert o in Funded(env, txs, n) <==>
        o in Funded(env, txs, n - 1) || (StatusAt(env, txs, n - 1) == Settled && PaidBy(env, txs, n - 1, o));
    }
  }

  lemma UnspentFrom(env: Env, txs: seq<Tx>, n: nat, o: OutPoint)
    requires n <= |txs| && o in Unspent(env, txs, n)
    ensures exists i: nat | i < n :: PaidBy(env, txs, i, o)
  {
    UnspentMembers(env, txs, n, o);
    FundedMembers(env, txs, n, o);
  }

  ghost predicate NoRepeats(s: seq<OutPoint>) {
    forall i, j | 0 <= i < j < |s| :: s[i] != s[j]
  }

  lemma {:induction false} OwnedDistinct(addrs: set<Address>, tx: Tx, n: nat)
    requires n <= |tx.outputs|
    ensures NoRepeats(Owned(addrs, tx, n))
  {
    if n > 0 {
      OwnedDistinct(addrs, tx, n - 1);
      OwnedMembers(addrs, tx, n - 1, OutPoint(tx.txHash, n - 1));
    }
  }

  /** No output is funded twice. */
  lemma {:induction false} FundedDistinct(env: Env, txs: seq<Tx>, n: nat)
    requires n <= |txs|
    requires forall i, j | 0 <= i < j < n :: txs[i].txHash != txs[j].txHash
    ensures NoRepeats(Funded(env, txs, n))
  {
    if n > 0 {
      FundedDistinct(env, txs, n - 1);
      var f, o := Funded(env, txs, n - 1), Owned(env.allAddrs, txs[n - 1], |txs[n - 1].outputs|);
      OwnedDistinct(env.allAddrs, txs[n - 1], |txs[n - 1].outputs|);
      forall x | x in o ensures x !in f {
        OwnedMembers(env.allAddrs, txs[n - 1], |txs[n - 1].outputs|, x);
        FundedMembers(env, txs, n - 1, x);
      }
      assert Funded(env, txs, n) == f + (if StatusAt(env, txs, n - 1) == Settled then o else []);
      forall i, j | 0 <= i < |f| && 0 <= j < |o| ensures f[i] != o[j] {
        assert o[j] in o;
      }
    }
  }

  lemma {:induction false} WithoutDistinct(s: seq<OutPoint>, gone: set<OutPoint>)
    requires NoRepeats(s)
    ensures NoRepeats(Without(s, gone))
  {
    if s != [] {
      var t := s[..|s| - 1];
      WithoutDistinct(t, gone);
      WithoutMembers(t, gone, s[|s| - 1]);
      assert s[|s| - 1] !in t;
      assert Without(t, gone) + [] == Without(t, gone);
    }
  }

  /** No output is counted twice in the balance. */
  lemma UnspentDistinct(env: Env, txs: seq<Tx>, n: nat)
    requires n <= |txs|
    requires forall i, j | 0 <= i < j < n :: txs[i].txHash != txs[j].txHash
    ensures NoRepeats(Unspent(env, txs, n))
  {
    FundedDistinct(env, txs, n);
    WithoutDistinct(Funded(env, txs, n), Fold(env, txs, LastSettled(env, txs, n)).spent);
  }
}
