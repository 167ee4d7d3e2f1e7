/** The wallet's ledger and its updates in place (BRWallet.c). Transactions are shared by hash: a listed hash stands for
    the stored transaction, as a pointer does in the original. */
module Wallets {
  import opened Ledger
  import opened TxOrder
  import opened Options

  // ---- values ----

  /** The listed transactions themselves. */
  ghost function Txs(allTx: map<Hash, Tx>, list: seq<Hash>): seq<Tx>
    requires Listing(allTx, list)
  {
    seq(|list|, i requires 0 <= i < |list| => allTx[list[i]])
  }

  /** Each listed hash stands for a stored transaction. */
  ghost predicate Resolves(allTx: map<Hash, Tx>, list: seq<Hash>, txs: seq<Tx>) {
    |txs| == |list| && forall i | 0 <= i < |list| ::
      list[i] in allTx && txs[i] == allTx[list[i]] && txs[i].txHash == list[i]
  }

  predicate OutputBelongs(addrs: set<Address>, allTx: map<Hash, Tx>, o: OutPoint) {
    o.hash in allTx && o.n < |allTx[o.hash].outputs| && allTx[o.hash].outputs[o.n].address in addrs
  }

  /** The transaction pays a wallet address or spends an output that did. */
  predicate Belongs(addrs: set<Address>, allTx: map<Hash, Tx>, tx: Tx) {
    || (exists j | 0 <= j < |tx.outputs| :: tx.outputs[j].address in addrs)
    || (exists j | 0 <= j < |tx.inputs| :: OutputBelongs(addrs, allTx, tx.inputs[j].prevout))
  }

  /** The transaction pays the wallet or spends an output that the listed transactions leave unspent. */
  ghost predicate Matters(env: Env, txs: seq<Tx>, tx: Tx) {
    || (exists j: nat :: j < |tx.outputs| && tx.outputs[j].address in env.allAddrs)
    || (exists j: nat :: j < |tx.inputs| && tx.inputs[j].prevout in Unspent(env, txs, |txs|))
  }

  /** Whatever matters to the balance belongs to the wallet. */
  lemma MattersBelongs(env: Env, allTx: map<Hash, Tx>, list: seq<Hash>, txs: seq<Tx>, tx: Tx)
    requires Resolves(allTx, list, txs) && Matters(env, txs, tx)
    ensures Belongs(env.allAddrs, allTx, tx)
  {
    if j: nat :| j < |tx.inputs| && tx.inputs[j].prevout in Unspent(env, txs, |txs|) {
      var o := tx.inputs[j].prevout;
      UnspentMembers(env, txs, |txs|, o);
      FundedMembers(env, txs, |txs|, o);
      assert OutputBelongs(env.allAddrs, allTx, o);
    }
  }

  /** The list is free of repeats, sorted by height, and holds only transactions that belong to the wallet. */
  ghost predicate InOrder(rank: Ranks, addrs: set<Address>, allTx: map<Hash, Tx>, list: seq<Hash>) {
    && Store(allTx, rank)
    && Listing(allTx, list)
    && Distinct(list)
    && Sorted(allTx, list)
    && Bounded(allTx)
    && AllBelong(addrs, allTx, list)
  }

  ghost predicate Bounded(allTx: map<Hash, Tx>) {
    forall h | h in allTx :: allTx[h].blockHeight <= TX_UNCONFIRMED
  }

  ghost predicate AllBelong(addrs: set<Address>, allTx: map<Hash, Tx>, list: seq<Hash>)
    requires Listing(allTx, list)
  {
    forall i | 0 <= i < |list| :: Belongs(addrs, allTx, allTx[list[i]])
  }

  ghost predicate FromListUpTo(s: seq<OutPoint>, n: nat, list: seq<Hash>)
    requires n <= |s|
  {
    n == 0 || (s[n - 1].hash in list && FromListUpTo(s, n - 1, list))
  }

  /** Every output is one of a listed transaction. */
  ghost predicate FromList(s: seq<OutPoint>, list: seq<Hash>) {
    FromListUpTo(s, |s|, list)
  }

  lemma {:induction false} FromListIff(s: seq<OutPoint>, n: nat, list: seq<Hash>)
    requires n <= |s|
    ensures FromListUpTo(s, n, list) <==> forall i | 0 <= i < n :: s[i].hash in list
  {
    if n > 0 {
      FromListIff(s, n - 1, list);
    }
  }

  /** The unspent outputs after each number of transactions. */
  ghost function Trace(env: Env, txs: seq<Tx>): seq<seq<OutPoint>> {
    seq(|txs| + 1, i requires 0 <= i <= |txs| => Unspent(env, txs, i))
  }

  /** The books after each number of transactions. */
  ghost function BookTrace(env: Env, txs: seq<Tx>): seq<Books> {
    seq(|txs| + 1, i requires 0 <= i <= |txs| => Fold(env, txs, i))
  }

  /** The first n entries are those of the two traces. */
  ghost predicate Traced(env: Env, txs: seq<Tx>, us: seq<seq<OutPoint>>, bs: seq<Books>, n: nat) {
    && n <= |us| == |bs| == |txs| + 1
    && (n > 0 ==> Traced(env, txs, us, bs, n - 1) && us[n - 1] == Unspent(env, txs, n - 1) &&
                  bs[n - 1] == Fold(env, txs, n - 1))
  }

  lemma {:induction false} TracesAre(env: Env, txs: seq<Tx>, n: nat)
    requires n <= |txs| + 1
    ensures Traced(env, txs, Trace(env, txs), BookTrace(env, txs), n)
  {
    if n > 0 {
      TracesAre(env, txs, n - 1);
    }
  }

  lemma {:induction false} TracedAt(env: Env, txs: seq<Tx>, us: seq<seq<OutPoint>>, bs: seq<Books>, n: nat, i: nat)
    requires Traced(env, txs, us, bs, n) && i < n
    ensures us[i] == Unspent(env, txs, i) && bs[i] == Fold(env, txs, i)
  {
    if i < n - 1 {
      TracedAt(env, txs, us, bs, n - 1, i);
    }
  }

  ghost predicate HistoryUpTo(allTx: map<Hash, Tx>, us: seq<seq<OutPoint>>, hist: seq<nat>, n: nat)
    requires n <= |hist| < |us|
  {
    n == 0 || (HistoryUpTo(allTx, us, hist, n - 1) && Worth(allTx, us[n], hist[n - 1]))
  }

  /** Each entry of the history is what was unspent after that transaction. */
  ghost predicate History(allTx: map<Hash, Tx>, us: seq<seq<OutPoint>>, hist: seq<nat>) {
    |hist| < |us| && HistoryUpTo(allTx, us, hist, |hist|)
  }

  lemma {:induction false} HistoryAt(allTx: map<Hash, Tx>, us: seq<seq<OutPoint>>, hist: seq<nat>, n: nat, i: nat)
    requires i < n <= |hist| < |us| && HistoryUpTo(allTx, us, hist, n)
    ensures Worth(allTx, us[i + 1], hist[i])
  {
    if i < n - 1 {
      HistoryAt(allTx, us, hist, n - 1, i);
    }
  }

  lemma {:induction false} HistoryAgree(allTx: map<Hash, Tx>, us: seq<seq<OutPoint>>, hist: seq<nat>, more: seq<nat>,
                                        n: nat)
    requires n <= |hist| <= |more| < |us| && hist <= more && HistoryUpTo(allTx, us, hist, n)
    ensures HistoryUpTo(allTx, us, more, n)
  {
    if n > 0 {
      HistoryAgree(allTx, us, hist, more, n - 1);
    }
  }

  lemma HistorySnoc(allTx: map<Hash, Tx>, us: seq<seq<OutPoint>>, hist: seq<nat>, amount: nat)
    requires History(allTx, us, hist) && |hist| + 1 < |us| && Worth(allTx, us[|hist| + 1], amount)
    ensures History(allTx, us, hist + [amount])
  {
    HistoryAgree(allTx, us, hist, hist + [amount], |hist|);
  }

  // ---- what the history adds up to ----

  /** The balance before entry i of a history that starts with nothing. */
  function BalanceBefore(hist: seq<nat>, i: nat): nat
    requires i <= |hist|
  {
    if i == 0 then 0 else hist[i - 1]
  }

  /** The sum of all steps upwards among the first n. */
  function Rises(hist: seq<nat>, n: nat): nat
    requires n <= |hist|
  {
    if n == 0 then 0
    else Rises(hist, n - 1) +
         if hist[n - 1] > BalanceBefore(hist, n - 1) then hist[n - 1] - BalanceBefore(hist, n - 1) else 0
  }

  /** The sum of all steps downwards among the first n. */
  function Falls(hist: seq<nat>, n: nat): nat
    requires n <= |hist|
  {
    if n == 0 then 0
    else Falls(hist, n - 1) +
         if hist[n - 1] < BalanceBefore(hist, n - 1) then BalanceBefore(hist, n - 1) - hist[n - 1] else 0
  }

  /** What was received less what was sent is the last balance. */
  lemma {:induction false} RisesLessFalls(hist: seq<nat>, n: nat)
    requires n <= |hist|
    ensures BalanceBefore(hist, n) + Falls(hist, n) == Rises(hist, n)
  {
    if n > 0 {
      RisesLessFalls(hist, n - 1);
    }
  }

  /** Nothing was sent if and only if the history never falls; then all that is there was received. */
  lemma {:induction false} NothingSentIff(hist: seq<nat>, n: nat)
    requires n <= |hist|
    ensures Falls(hist, n) == 0 <==> forall i | 0 <= i < n :: BalanceBefore(hist, i) <= hist[i]
    ensures Falls(hist, n) == 0 ==> Rises(hist, n) == BalanceBefore(hist, n)
  {
    RisesLessFalls(hist, n);
    if n > 0 {
      NothingSentIff(hist, n - 1);
    }
  }

  lemma {:induction false} StepsAgree(hist: seq<nat>, amount: nat, n: nat)
    requires n <= |hist|
    ensures Rises(hist + [amount], n) == Rises(hist, n) && Falls(hist + [amount], n) == Falls(hist, n)
  {
    if n > 0 {
      StepsAgree(hist, amount, n - 1);
    }
  }

  /** The totals and the balance are those of the history. */
  ghost predicate Totals(hist: seq<nat>, amount: nat, received: nat, sent: nat) {
    amount == BalanceBefore(hist, |hist|) && received == Rises(hist, |hist|) && sent == Falls(hist, |hist|)
  }

  lemma TotalsSnoc(hist: seq<nat>, amount: nat, received: nat, sent: nat, next: nat)
    requires Totals(hist, amount, received, sent)
    ensures Totals(hist + [next], next, if amount < next then received + (next - amount) else received,
                   if next < amount then sent + (amount - next) else sent)
    ensures amount + sent == received
  {
    StepsAgree(hist, next, |hist|);
    RisesLessFalls(hist, |hist|);
  }

  /** Takes the last occurrence of h out of a list; in a list without repeats there is no other. */
  method Unlisted(ghost allTx: map<Hash, Tx>, list: seq<Hash>, h: Hash) returns (r: seq<Hash>)
    requires Listing(allTx, list) && Distinct(list)
    ensures r == Drop(list, {h})
  {
    var i := |list|;
    while i > 0
      invariant 0 <= i <= |list| && forall k | i <= k < |list| :: list[k] != h
    {
      if list[i - 1] == h {
        TakeOut(allTx, list, i - 1);
        return RemovedAt(list, i - 1);
      }
      i := i - 1;
    }
    DropNone(list, {h});
    r := list;
  }

  // ---- chains of addresses ----

  function Members(chain: seq<Address>): set<Address> {
    set a | a in chain
  }

  /** No address is derived twice. */
  ghost predicate Derives(derive: nat -> Option<Address>) {
    forall m, n | m < n && derive(m).Some? :: derive(m) != derive(n)
  }

  ghost predicate Longer(was: seq<Address>, chain: seq<Address>) {
    |was| <= |chain| && chain[..|was|] == was
  }

  /** The second chain is the first one and the addresses derived for the places behind. */
  ghost predicate Extended(derive: nat -> Option<Address>, was: seq<Address>, chain: seq<Address>) {
    Longer(was, chain) && forall n | |was| <= n < |chain| :: derive(n) == Some(chain[n])
  }

  /** Where the unused addresses at the end of a chain start. */
  ghost function UnusedFrom(used: set<Address>, chain: seq<Address>): nat {
    if |chain| == 0 then 0
    else if chain[|chain| - 1] in used then |chain|
    else UnusedFrom(used, chain[..|chain| - 1])
  }

  /** Behind that place no address is used, and the one before it is. */
  lemma {:induction false} UnusedFromIs(used: set<Address>, chain: seq<Address>)
    ensures UnusedFrom(used, chain) <= |chain|
    ensures forall j | UnusedFrom(used, chain) <= j < |chain| :: chain[j] !in used
    ensures UnusedFrom(used, chain) > 0 ==> chain[UnusedFrom(used, chain) - 1] in used
  {
    if |chain| > 0 && chain[|chain| - 1] !in used {
      UnusedFromIs(used, chain[..|chain| - 1]);
    }
  }

  /** What is generated: the chain with no more than what is missing, and the first gapLimit unused addresses at its
      end, or none if no further one can be derived. */
  ghost predicate Generated(derive: nat -> Option<Address>, used: set<Address>, gapLimit: nat, was: seq<Address>,
                            chain: seq<Address>, addrs: seq<Address>)
  {
    var i := UnusedFrom(used, chain);
    && Extended(derive, was, chain)
    && |chain| <= (if |was| > i + gapLimit then |was| else i + gapLimit)
    && if i + gapLimit <= |chain| then addrs == chain[i..i + gapLimit] else addrs == [] && derive(|chain|).None?
  }

  /** What is returned is unused and belongs to the chain. */
  lemma GeneratedAreUnused(derive: nat -> Option<Address>, used: set<Address>, gapLimit: nat, was: seq<Address>,
                           chain: seq<Address>, addrs: seq<Address>)
    requires Generated(derive, used, gapLimit, was, chain, addrs)
    ensures forall a | a in addrs :: a !in used && a in chain
    ensures (forall n :: derive(n).Some?) ==> |addrs| == gapLimit
  {
    UnusedFromIs(used, chain);
    forall a | a in addrs ensures a !in used && a in chain {
      var j :| 0 <= j < |addrs| && addrs[j] == a;
      assert addrs[j] == chain[UnusedFrom(used, chain) + j];
    }
  }

  lemma ExtendedNext(derive: nat -> Option<Address>, was: seq<Address>, chain: seq<Address>, address: Address)
    requires Extended(derive, was, chain) && derive(|chain|) == Some(address)
    ensures Extended(derive, was, chain + [address])
  {
    assert (chain + [address])[..|was|] == chain[..|was|];
  }

  lemma UnusedNext(used: set<Address>, chain: seq<Address>, address: Address)
    ensures UnusedFrom(used, chain + [address]) ==
            if address in used then |chain| + 1 else UnusedFrom(used, chain)
  {
    assert (chain + [address])[..|chain|] == chain;
  }

  /** A new address is none of those derived before. */
  lemma IsNew(derive: nat -> Option<Address>, was: seq<Address>, chain: seq<Address>, address: Address)
    requires Derives(derive) && Extended(derive, was, chain) && derive(|chain|) == Some(address)
    ensures address !in chain[|was|..]
  {
    forall j | 0 <= j < |chain[|was|..]| ensures chain[|was|..][j] != address {
      assert derive(|was| + j) == Some(chain[|was| + j]);
    }
  }

  lemma FewerUsed(derive: nat -> Option<Address>, used: set<Address>, was: seq<Address>, chain: seq<Address>,
                  address: Address)
    requires Derives(derive) && Extended(derive, was, chain) && derive(|chain|) == Some(address)
    ensures var rest, less := used - Members(chain[|was|..]), used - Members((chain + [address])[|was|..]);
      if address in used then |less| < |rest| else less == rest
  {
    IsNew(derive, was, chain, address);
    assert (chain + [address])[|was|..] == chain[|was|..] + [address];
    MembersNext(used, chain[|was|..], address);
  }

  lemma MembersNext(used: set<Address>, chain: seq<Address>, address: Address)
    requires address !in chain
    ensures var rest, less := used - Members(chain), used - Members(chain + [address]);
      if address in used then |less| < |rest| else less == rest
  {
    assert used - Members(chain + [address]) == used - Members(chain) - {address};
  }

  lemma MembersMore(was: seq<Address>, chain: seq<Address>)
    requires Longer(was, chain)
    ensures Members(was) <= Members(chain)
  {
    forall a | a in was ensures a in chain {
      var j :| 0 <= j < |was| && was[j] == a;
      assert chain[j] == chain[..|was|][j];
    }
  }

  /** More addresses leave the list in order. */
  lemma MoreAddresses(rank: Ranks, addrs: set<Address>, more: set<Address>, allTx: map<Hash, Tx>, list: seq<Hash>)
    requires InOrder(rank, addrs, allTx, list) && addrs <= more
    ensures InOrder(rank, more, allTx, list)
  {
    forall i | 0 <= i < |list| ensures Belongs(more, allTx, allTx[list[i]]) {
      assert Belongs(addrs, allTx, allTx[list[i]]);
      BelongsMore(addrs, more, allTx, allTx[list[i]]);
    }
  }

  lemma BelongsMore(addrs: set<Address>, more: set<Address>, allTx: map<Hash, Tx>, tx: Tx)
    requires Belongs(addrs, allTx, tx) && addrs <= more
    ensures Belongs(more, allTx, tx)
  {
    if j :| 0 <= j < |tx.inputs| && OutputBelongs(addrs, allTx, tx.inputs[j].prevout) {
      assert OutputBelongs(more, allTx, tx.inputs[j].prevout);
    }
  }

  class Wallet {
    ghost const rank: Ranks
    var balance: nat
    var totalSent: nat
    var totalReceived: nat
    var feePerKb: nat
    var balanceHist: seq<nat>
    var blockHeight: nat
    var utxos: seq<OutPoint>
    var transactions: seq<Hash>
    var internalChain: seq<Address>
    var externalChain: seq<Address>
    var allTx: map<Hash, Tx>
    var invalidTx: set<Hash>
    var pendingTx: set<Hash>
    var spentOutputs: set<OutPoint>
    var usedAddrs: set<Address>
    var allAddrs: set<Address>

    ghost predicate Ordered()
      reads `allTx, `transactions, `allAddrs
    {
      InOrder(rank, allAddrs, allTx, transactions)
    }

    /** The books add up. */
    ghost predicate Balanced()
      reads `allTx, `transactions, `utxos, `balance, `totalSent, `totalReceived, `balanceHist
    {
      && Worth(allTx, utxos, balance)
      && FromList(utxos, transactions)
      && balance + totalSent == totalReceived
      && |balanceHist| == |transactions|
    }

    ghost predicate Valid()
      reads this
    {
      Ordered() && Balanced()
    }

    ghost function Books(): Books
      reads `spentOutputs, `invalidTx, `pendingTx, `usedAddrs
    {
      Ledger.Books(spentOutputs, invalidTx, pendingTx, usedAddrs)
    }

    ghost function EnvAt(now: int): Env
      reads `allAddrs, `blockHeight
    {
      Env(allAddrs, blockHeight, now)
    }

    ghost function Listed(): seq<Tx>
      reads `allTx, `transactions
      requires Listing(allTx, transactions)
    {
      Txs(allTx, transactions)
    }

    /** The books are exactly those of the current list. */
    ghost predicate UpToDate(now: int)
      reads this
      requires Listing(allTx, transactions)
    {
      && Books() == Fold(EnvAt(now), Listed(), |transactions|)
      && utxos == Unspent(EnvAt(now), Listed(), |transactions|)
      && |balanceHist| == |transactions|
      && History(allTx, Trace(EnvAt(now), Listed()), balanceHist)
      && Totals(balanceHist, balance, totalReceived, totalSent)
    }

    constructor (ghost rank: Ranks)
      ensures Valid() && ChainsOk() && this.rank == rank && transactions == [] && allTx == map[] && allAddrs == {}
    {
      this.rank := rank;
      balance, totalSent, totalReceived, feePerKb, blockHeight := 0, 0, 0, 10000, 0;
      balanceHist, utxos, transactions, internalChain, externalChain := [], [], [], [], [];
      allTx, invalidTx, pendingTx, spentOutputs, usedAddrs, allAddrs := map[], {}, {}, {}, {}, {};
    }

    // ---- addresses ----

    /** The addresses of the wallet are those of its two chains. */
    ghost predicate ChainsOk()
      reads `allAddrs, `internalChain, `externalChain
    {
      allAddrs == Members(internalChain) + Members(externalChain)
    }

    /** Extends a chain until it ends in gapLimit unused addresses, and returns these, unless no further address can be
        derived. Only as many are generated as are needed. */
    method UnusedAddrs(derive: nat -> Option<Address>, gapLimit: nat, internal: bool) returns (addrs: seq<Address>)
      requires Valid() && ChainsOk() && gapLimit > 0 && Derives(derive)
      modifies `internalChain, `externalChain, `allAddrs
      ensures Valid() && ChainsOk()
      ensures if internal then externalChain == old(externalChain) else internalChain == old(internalChain)
      ensures var was := old(if internal then internalChain else externalChain);
        var chain := if internal then internalChain else externalChain;
        Generated(derive, usedAddrs, gapLimit, was, chain, addrs) && allAddrs == old(allAddrs) + Members(chain)
    {
      var chain;
      chain, addrs := ExtendChain(derive, gapLimit, if internal then internalChain else externalChain);
      AddChain(chain, internal);
    }

    /** Replaces a chain by a longer one. */
    method AddChain(chain: seq<Address>, internal: bool)
      requires Valid() && ChainsOk() && Longer(if internal then internalChain else externalChain, chain)
      modifies `internalChain, `externalChain, `allAddrs
      ensures Valid() && ChainsOk() && allAddrs == old(allAddrs) + Members(chain)
      ensures internalChain == if internal then chain else old(internalChain)
      ensures externalChain == if internal then old(externalChain) else chain
    {
      MembersMore(if internal then internalChain else externalChain, chain);
      MoreAddresses(rank, allAddrs, allAddrs + Members(chain), allTx, transactions);
      if internal {
        internalChain := chain;
      } else {
        externalChain := chain;
      }
      allAddrs := allAddrs + Members(chain);
    }

    method FirstUnused(chain: seq<Address>) returns (i: nat)
      ensures i == UnusedFrom(usedAddrs, chain)
    {
      i := |chain|;
      assert chain[..|chain|] == chain;
      while i > 0 && chain[i - 1] !in usedAddrs
        invariant i <= |chain| && UnusedFrom(usedAddrs, chain) == UnusedFrom(usedAddrs, chain[..i])
      {
        assert chain[..i][..i - 1] == chain[..i - 1];
        i := i - 1;
      }
    }

    method ExtendChain(derive: nat -> Option<Address>, gapLimit: nat, was: seq<Address>)
      returns (chain: seq<Address>, addrs: seq<Address>)
      requires Derives(derive)
      ensures Generated(derive, usedAddrs, gapLimit, was, chain, addrs)
    {
      chain := was;
      var i := FirstUnused(chain);
      UnusedFromIs(usedAddrs, chain);
      while i + gapLimit > |chain|
        invariant Extended(derive, was, chain) && i == UnusedFrom(usedAddrs, chain) <= |chain|
        invariant |chain| <= if |was| > i + gapLimit then |was| else i + gapLimit
        decreases |usedAddrs - Members(chain[|was|..])|, i + gapLimit - |chain|
      {
        if derive(|chain|).None? { return chain, []; }
        var address := derive(|chain|).value;
        ExtendedNext(derive, was, chain, address);
        UnusedNext(usedAddrs, chain, address);
        FewerUsed(derive, usedAddrs, was, chain, address);
        chain := chain + [address];
        if address in usedAddrs { i := |chain|; }
      }
      addrs := chain[i..i + gapLimit];
    }

    // ---- the balance pass ----

    method TakenInput(tx: Tx) returns (isInvalid: bool)
      ensures isInvalid == AnyTaken(spentOutputs, invalidTx, tx.inputs, |tx.inputs|)
    {
      isInvalid := false;
      var j := 0;
      while !isInvalid && j < |tx.inputs|
        invariant j <= |tx.inputs| && isInvalid == AnyTaken(spentOutputs, invalidTx, tx.inputs, j)
      {
        if tx.inputs[j].prevout in spentOutputs || tx.inputs[j].prevout.hash in invalidTx { isInvalid := true; }
        j := j + 1;
      }
      if isInvalid {
        TakenStays(spentOutputs, invalidTx, tx.inputs, j, |tx.inputs|);
      }
    }

    method HeldBack(tx: Tx, now: int) returns (isPending: bool)
      ensures isPending == (tx.size > TX_MAX_SIZE || AnyDust(tx.outputs, |tx.outputs|) ||
                            AnyHeldBack(EnvAt(now), pendingTx, tx, |tx.inputs|))
    {
      isPending := tx.size > TX_MAX_SIZE;
      var j := 0;
      while !isPending && j < |tx.outputs|
        invariant j <= |tx.outputs| && isPending == (tx.size > TX_MAX_SIZE || AnyDust(tx.outputs, j))
      {
        if tx.outputs[j].amount < TX_MIN_OUTPUT_AMOUNT { isPending := true; }
        j := j + 1;
      }
      if isPending && tx.size <= TX_MAX_SIZE {
        DustStays(tx.outputs, j, |tx.outputs|);
      }
      ghost var early := isPending;
      j := 0;
      while !isPending && j < |tx.inputs|
        invariant j <= |tx.inputs| && isPending == (early || AnyHeldBack(EnvAt(now), pendingTx, tx, j))
      {
        var i := tx.inputs[j];
        if i.sequence < UINT32_MAX - 1 { isPending := true; }
        if i.sequence < UINT32_MAX && tx.lockTime < TX_MAX_LOCK_HEIGHT && tx.lockTime > blockHeight + 1 {
          isPending := true;
        }
        if i.sequence < UINT32_MAX && tx.lockTime > now { isPending := true; }
        if i.prevout.hash in pendingTx { isPending := true; }
        j := j + 1;
      }
      if isPending && !early {
        HeldBackStays(EnvAt(now), pendingTx, tx, j, |tx.inputs|);
      }
    }

    method SpendInputs(tx: Tx)
      modifies `spentOutputs
      ensures spentOutputs == old(spentOutputs) + Prevouts(tx.inputs, |tx.inputs|)
    {
      var j := 0;
      while j < |tx.inputs|
        invariant j <= |tx.inputs| && spentOutputs == old(spentOutputs) + Prevouts(tx.inputs, j)
      {
        spentOutputs := spentOutputs + {tx.inputs[j].prevout};
        j := j + 1;
      }
    }

    /** The first j outputs have been added to s and u. */
    ghost predicate Added(tx: Tx, j: nat, s: seq<OutPoint>, u: set<Address>, total: nat)
      reads `allAddrs, `allTx, `utxos, `usedAddrs
    {
      && j <= |tx.outputs|
      && utxos == WithOwned(s, allAddrs, tx, j)
      && usedAddrs == WithAddresses(u, tx.outputs, j)
      && Worth(allTx, utxos, total)
    }

    method AddOutput(tx: Tx, j: nat, ghost s: seq<OutPoint>, ghost u: set<Address>, amount: nat) returns (total: nat)
      requires tx.txHash in allTx && allTx[tx.txHash] == tx && j < |tx.outputs|
      requires Added(tx, j, s, u, amount)
      modifies `utxos, `usedAddrs
      ensures Added(tx, j + 1, s, u, total)
    {
      total := amount;
      if tx.outputs[j].address != "" {
        usedAddrs := usedAddrs + {tx.outputs[j].address};
        if tx.outputs[j].address in allAddrs {
          WorthSnoc(allTx, utxos, OutPoint(tx.txHash, j), total);
          utxos := utxos + [OutPoint(tx.txHash, j)];
          total := total + tx.outputs[j].amount;
        }
      }
    }

    /** Outputs to the wallet become unspent; every address paid is used. */
    method AddOutputs(tx: Tx, amount: nat) returns (total: nat)
      requires tx.txHash in allTx && allTx[tx.txHash] == tx && Worth(allTx, utxos, amount)
      modifies `utxos, `usedAddrs
      ensures utxos == old(utxos) + Owned(allAddrs, tx, |tx.outputs|)
      ensures usedAddrs == old(usedAddrs) + Addresses(tx.outputs, |tx.outputs|)
      ensures Worth(allTx, utxos, total)
    {
      total := amount;
      ghost var s, u := utxos, usedAddrs;
      var j := 0;
      while j < |tx.outputs|
        invariant j <= |tx.outputs| && Added(tx, j, s, u, total)
      {
        total := AddOutput(tx, j, s, u, total);
        j := j + 1;
      }
      WithOwnedIs(s, allAddrs, tx, j);
      WithAddressesIs(u, tx.outputs, j);
    }

    method DropOutput(k: nat, amount: nat) returns (total: nat)
      requires Worth(allTx, utxos, amount) && k < |utxos|
      modifies `utxos
      ensures utxos == Cut(old(utxos), k) && Worth(allTx, utxos, total)
    {
      WorthRemove(allTx, utxos, k, amount);
      total := amount - Amount(allTx, utxos[k]);
      utxos := Cut(utxos, k);
    }

    /** Everything spent is dropped from the unspent outputs, from the end; the amount never runs below zero. */
    method RemoveSpent(amount: nat) returns (total: nat)
      requires Worth(allTx, utxos, amount)
      modifies `utxos
      ensures utxos == Without(old(utxos), spentOutputs)
      ensures Worth(allTx, utxos, total)
    {
      total := amount;
      ghost var start := utxos;
      var j: nat := |utxos|;
      while j > 0
        invariant j <= |start| && utxos == Halfway(start, j, spentOutputs)
        invariant Worth(allTx, utxos, total)
      {
        RemoveStep(start, j, spentOutputs);
        if utxos[j - 1] in spentOutputs {
          total := DropOutput(j - 1, total);
        }
        j := j - 1;
      }
      HalfwayEnd(start, spentOutputs);
    }

    /** Outputs of a settled transaction become unspent, unless they are spent already. */
    method Settle(tx: Tx, amount: nat) returns (total: nat)
      requires tx.txHash in allTx && allTx[tx.txHash] == tx && Worth(allTx, utxos, amount)
      modifies `utxos, `usedAddrs
      ensures utxos == Without(old(utxos) + Owned(allAddrs, tx, |tx.outputs|), spentOutputs)
      ensures usedAddrs == old(usedAddrs) + Addresses(tx.outputs, |tx.outputs|)
      ensures Worth(allTx, utxos, total)
    {
      total := AddOutputs(tx, amount);
      total := RemoveSpent(total);
    }

    /** One transaction of the pass. */
    method Account(tx: Tx, now: int, amount: nat) returns (total: nat)
      requires tx.txHash in allTx && allTx[tx.txHash] == tx
      requires Worth(allTx, utxos, amount)
      modifies `spentOutputs, `invalidTx, `pendingTx, `usedAddrs, `utxos
      ensures Books() == Record(EnvAt(now), old(Books()), tx)
      ensures utxos ==
        if StatusOf(EnvAt(now), old(Books()), tx) == Settled
        then Without(old(utxos) + Owned(allAddrs, tx, |tx.outputs|), spentOutputs) else old(utxos)
      ensures Worth(allTx, utxos, total)
    {
      total := amount;
      if tx.blockHeight == TX_UNCONFIRMED {
        var isInvalid := TakenInput(tx);
        if isInvalid {
          invalidTx := invalidTx + {tx.txHash};
          return;
        }
      }
      SpendInputs(tx);
      if tx.blockHeight == TX_UNCONFIRMED {
        var isPending := HeldBack(tx, now);
        if isPending {
          pendingTx := pendingTx + {tx.txHash};
          return;
        }
      }
      total := Settle(tx, total);
    }

    /** The pass has dealt with the first i transactions. */
    ghost predicate Passed(us: seq<seq<OutPoint>>, bs: seq<Books>, i: nat, amount: nat)
      reads `allTx, `utxos, `spentOutputs, `invalidTx, `pendingTx, `usedAddrs
    {
      i < |us| == |bs| && Books() == bs[i] && utxos == us[i] && Worth(allTx, utxos, amount)
    }

    ghost predicate Tallied(us: seq<seq<OutPoint>>, i: nat, amount: nat)
      reads `allTx, `totalSent, `totalReceived, `balanceHist
    {
      && Totals(balanceHist, amount, totalReceived, totalSent)
      && |balanceHist| == i && History(allTx, us, balanceHist)
    }

    method Advance(ghost env: Env, ghost txs: seq<Tx>, ghost us: seq<seq<OutPoint>>, ghost bs: seq<Books>, i: nat,
                   now: int, amount: nat) returns (total: nat)
      requires Resolves(allTx, transactions, txs) && i < |transactions| && env == EnvAt(now)
      requires Traced(env, txs, us, bs, |txs| + 1) && Passed(us, bs, i, amount)
      modifies `spentOutputs, `invalidTx, `pendingTx, `usedAddrs, `utxos
      ensures Passed(us, bs, i + 1, total)
    {
      TracedAt(env, txs, us, bs, |txs| + 1, i);
      TracedAt(env, txs, us, bs, |txs| + 1, i + 1);
      UnspentStep(env, txs, i);
      total := Account(allTx[transactions[i]], now, amount);
    }

    method Tally(ghost us: seq<seq<OutPoint>>, ghost i: nat, prevAmount: nat, amount: nat)
      requires Tallied(us, i, prevAmount) && i + 1 < |us| && Worth(allTx, us[i + 1], amount)
      modifies `totalSent, `totalReceived, `balanceHist
      ensures Tallied(us, i + 1, amount)
    {
      HistorySnoc(allTx, us, balanceHist, amount);
      TotalsSnoc(balanceHist, prevAmount, totalReceived, totalSent, amount);
      if prevAmount < amount { totalReceived := totalReceived + (amount - prevAmount); }
      if amount < prevAmount { totalSent := totalSent + (prevAmount - amount); }
      balanceHist := balanceHist + [amount];
    }

    /** The transaction at place i. */
    method ReplayNext(ghost env: Env, ghost txs: seq<Tx>, ghost us: seq<seq<OutPoint>>, ghost bs: seq<Books>, i: nat,
                      now: int, amount: nat) returns (total: nat)
      requires Resolves(allTx, transactions, txs) && i < |transactions| && env == EnvAt(now)
      requires Traced(env, txs, us, bs, |txs| + 1) && Passed(us, bs, i, amount) && Tallied(us, i, amount)
      modifies `totalSent, `totalReceived, `balanceHist, `utxos, `spentOutputs, `invalidTx, `pendingTx, `usedAddrs
      ensures Passed(us, bs, i + 1, total) && Tallied(us, i + 1, total)
    {
      total := Advance(env, txs, us, bs, i, now, amount);
      Tally(us, i, amount, total);
    }

    method Replay(ghost env: Env, ghost txs: seq<Tx>, ghost us: seq<seq<OutPoint>>, ghost bs: seq<Books>, now: int)
      returns (amount: nat)
      requires Resolves(allTx, transactions, txs) && env == EnvAt(now) && Traced(env, txs, us, bs, |txs| + 1)
      requires Passed(us, bs, 0, 0) && Tallied(us, 0, 0)
      modifies `totalSent, `totalReceived, `balanceHist, `utxos, `spentOutputs, `invalidTx, `pendingTx, `usedAddrs
      ensures Passed(us, bs, |txs|, amount) && Tallied(us, |txs|, amount)
    {
      amount := 0;
      var i := 0;
      while i < |transactions|
        invariant i <= |transactions| && Passed(us, bs, i, amount) && Tallied(us, i, amount)
      {
        amount := ReplayNext(env, txs, us, bs, i, now, amount);
        i := i + 1;
      }
    }

    lemma Starts(env: Env, txs: seq<Tx>, us: seq<seq<OutPoint>>, bs: seq<Books>)
      requires Books() == Ledger.Books({}, {}, {}, {}) && utxos == []
      requires balanceHist == [] && totalSent == totalReceived == 0 && Traced(env, txs, us, bs, |txs| + 1)
      ensures Passed(us, bs, 0, 0) && Tallied(us, 0, 0)
    {
      TracedAt(env, txs, us, bs, |txs| + 1, 0);
    }

    lemma Finishes(now: int)
      requires Listing(allTx, transactions) && Resolves(allTx, transactions, Listed())
      requires Passed(Trace(EnvAt(now), Listed()), BookTrace(EnvAt(now), Listed()), |Listed()|, balance)
      requires Tallied(Trace(EnvAt(now), Listed()), |Listed()|, balance)
      ensures UpToDate(now) && Balanced()
    {
      var txs := Listed();
      forall k | 0 <= k < |utxos| ensures utxos[k].hash in transactions {
        UnspentFrom(EnvAt(now), txs, |txs|, utxos[k]);
      }
      FromListIff(utxos, |utxos|, transactions);
      RisesLessFalls(balanceHist, |balanceHist|);
    }

    method Reset(ghost env: Env, ghost txs: seq<Tx>, ghost us: seq<seq<OutPoint>>, ghost bs: seq<Books>)
      requires Traced(env, txs, us, bs, |txs| + 1)
      modifies `totalSent, `totalReceived, `balanceHist, `utxos, `spentOutputs, `invalidTx, `pendingTx, `usedAddrs
      ensures Passed(us, bs, 0, 0) && Tallied(us, 0, 0)
    {
      utxos, balanceHist := [], [];
      spentOutputs, invalidTx, pendingTx, usedAddrs := {}, {}, {}, {};
      totalSent, totalReceived := 0, 0;
      Starts(env, txs, us, bs);
    }

    method Recompute(ghost env: Env, ghost txs: seq<Tx>, ghost us: seq<seq<OutPoint>>, ghost bs: seq<Books>, now: int)
      requires Resolves(allTx, transactions, txs) && env == EnvAt(now) && Traced(env, txs, us, bs, |txs| + 1)
      modifies `balance, `totalSent, `totalReceived, `balanceHist, `utxos, `spentOutputs, `invalidTx, `pendingTx,
               `usedAddrs
      ensures Passed(us, bs, |txs|, balance) && Tallied(us, |txs|, balance)
    {
      Reset(env, txs, us, bs);
      balance := Replay(env, txs, us, bs, now);
    }

    /** Recomputes the books, the unspent outputs, the balance and its history from the list. */
    method UpdateBalance(now: int)
      requires Ordered()
      modifies `balance, `totalSent, `totalReceived, `balanceHist, `utxos, `spentOutputs, `invalidTx, `pendingTx,
               `usedAddrs
      ensures Valid() && UpToDate(now)
    {
      ListedResolves();
      ghost var env, txs := EnvAt(now), Listed();
      TracesAre(env, txs, |txs| + 1);
      Recompute(env, txs, Trace(env, txs), BookTrace(env, txs), now);
      Finishes(now);
    }

    lemma ListedResolves()
      requires Ordered()
      ensures Resolves(allTx, transactions, Listed())
    {
    }

    // ---- the list ----

    /** Puts a stored transaction into the list where the comparison wants it. */
    method InsertTx(h: Hash) returns (ghost p: nat)
      requires Store(allTx, rank) && Listing(allTx, transactions) && h in allTx
      modifies `transactions
      ensures p <= |old(transactions)| && transactions == Inserted(old(transactions), p, h)
      ensures IsPlace(allTx, rank, internalChain, externalChain, old(transactions), p, h)
    {
      transactions, p := Insert(allTx, rank, internalChain, externalChain, transactions, h);
    }

    /** The list stays sorted by height whatever the rest of the comparison says. */
    method InsertSorted(h: Hash) returns (ghost p: nat)
      requires Store(allTx, rank) && Listing(allTx, transactions) && Distinct(transactions)
      requires Sorted(allTx, transactions) && h in allTx && h !in transactions
      modifies `transactions
      ensures p <= |old(transactions)| && transactions == Inserted(old(transactions), p, h)
      ensures Listing(allTx, transactions) && Distinct(transactions) && Sorted(allTx, transactions)
      ensures forall x :: x in transactions <==> x in old(transactions) || x == h
    {
      ghost var list := transactions;
      p := InsertTx(h);
      InsertKeepsListing(allTx, list, p, h);
      PlaceKeepsSorted(allTx, rank, internalChain, externalChain, list, p, h);
      forall x ensures x in transactions <==> x in list || x == h {
        InsertMembers(list, p, h, x);
      }
    }

    method ContainsTx(tx: Tx) returns (r: bool)
      ensures r == Belongs(allAddrs, allTx, tx)
    {
      r := false;
      var i := 0;
      while !r && i < |tx.outputs|
        invariant i <= |tx.outputs|
        invariant r ==> Belongs(allAddrs, allTx, tx)
        invariant !r ==> forall j | 0 <= j < i :: tx.outputs[j].address !in allAddrs
      {
        if tx.outputs[i].address in allAddrs { r := true; }
        i := i + 1;
      }
      i := 0;
      while !r && i < |tx.inputs|
        invariant i <= |tx.inputs|
        invariant !r ==> forall j | 0 <= j < |tx.outputs| :: tx.outputs[j].address !in allAddrs
        invariant r ==> Belongs(allAddrs, allTx, tx)
        invariant !r ==> forall j | 0 <= j < i :: !OutputBelongs(allAddrs, allTx, tx.inputs[j].prevout)
      {
        var o := tx.inputs[i].prevout;
        if o.hash in allTx && o.n < |allTx[o.hash].outputs| && allTx[o.hash].outputs[o.n].address in allAddrs {
          assert OutputBelongs(allAddrs, allTx, tx.inputs[i].prevout);
          r := true;
        }
        i := i + 1;
      }
    }

    // ---- registering ----

    /** Stores and lists a transaction that belongs to the wallet. */
    method AddTx(tx: Tx)
      requires Ordered() && AboveParents(rank, tx) && tx.blockHeight <= TX_UNCONFIRMED && tx.txHash !in allTx
      requires Belongs(allAddrs, allTx, tx)
      modifies `allTx, `transactions
      ensures Ordered()
      ensures allTx == old(allTx)[tx.txHash := tx]
      ensures exists p | 0 <= p <= |old(transactions)| :: transactions == Inserted(old(transactions), p, tx.txHash)
    {
      StoreExtends(allTx, rank, transactions, tx);
      BelongsExtends(allAddrs, allTx, transactions, tx);
      allTx := allTx[tx.txHash := tx];
      ghost var list := transactions;
      ghost var p := InsertSorted(tx.txHash);
      SameMembersBelong(allAddrs, allTx, list + [tx.txHash], transactions);
    }

    /** Stores a transaction without listing it. */
    method StoreTx(tx: Tx)
      requires Valid() && AboveParents(rank, tx) && tx.blockHeight <= TX_UNCONFIRMED && tx.txHash !in allTx
      modifies `allTx
      ensures Valid()
      ensures allTx == old(allTx)[tx.txHash := tx]
    {
      StoreExtends(allTx, rank, transactions, tx);
      BelongsExtends(allAddrs, allTx, transactions, tx);
      WorthSame(allTx, allTx[tx.txHash := tx], utxos, |utxos|, balance);
      allTx := allTx[tx.txHash := tx];
    }

    /** Adds a signed transaction that concerns the wallet and is not known yet; other unconfirmed ones are only
          stored. */
    method RegisterTransaction(tx: Tx, signed: bool, now: int) returns (r: bool)
      requires Valid() && AboveParents(rank, tx) && tx.blockHeight <= TX_UNCONFIRMED
      modifies `allTx, `transactions, `balance, `totalSent, `totalReceived, `balanceHist, `utxos, `spentOutputs,
               `invalidTx, `pendingTx, `usedAddrs
      ensures Valid()
      ensures r == (signed && (tx.txHash in old(allTx) || Belongs(allAddrs, old(allTx), tx)))
      ensures allTx ==
        if signed && tx.txHash !in old(allTx) && (Belongs(allAddrs, old(allTx), tx) || tx.blockHeight == TX_UNCONFIRMED)
        then old(allTx)[tx.txHash := tx] else old(allTx)
      ensures r && tx.txHash !in old(allTx) ==>
        UpToDate(now) &&
        exists p | 0 <= p <= |old(transactions)| :: transactions == Inserted(old(transactions), p, tx.txHash)
      ensures !r || tx.txHash in old(allTx) ==> transactions == old(transactions) && SameBooks()
    {
      if !signed { return false; }
      r := true;
      if tx.txHash !in allTx {
        var mine := ContainsTx(tx);
        if mine {
          AddTx(tx);
          UpdateBalance(now);
        } else {
          if tx.blockHeight == TX_UNCONFIRMED { StoreTx(tx); }
          r := false;
        }
      }
    }

    twostate predicate SameBooks()
      reads `balance, `totalSent, `totalReceived, `balanceHist, `utxos, `spentOutputs, `invalidTx, `pendingTx,
          `usedAddrs
    {
      && balance == old(balance) && totalSent == old(totalSent) && totalReceived == old(totalReceived)
      && balanceHist == old(balanceHist) && utxos == old(utxos) && Books() == old(Books())
    }

    // ---- heights ----

    /** Recomputes the books if they need it. */
    method UpdateIf(needed: bool, now: int)
      requires Valid()
      modifies `balance, `totalSent, `totalReceived, `balanceHist, `utxos, `spentOutputs, `invalidTx, `pendingTx,
               `usedAddrs
      ensures Valid() && if needed then UpToDate(now) else SameBooks()
    {
      if needed { UpdateBalance(now); }
    }

    /** Takes a listed transaction out and puts it back where its height belongs. */
    method Reinsert(h: Hash)
      requires Store(allTx, rank) && Listing(allTx, transactions) && Distinct(transactions) && h in allTx
      requires Listing(allTx, Drop(transactions, {h})) && Sorted(allTx, Drop(transactions, {h}))
      modifies `transactions
      ensures Listing(allTx, transactions) && Distinct(transactions) && Sorted(allTx, transactions)
      ensures |transactions| == |old(transactions)|
      ensures forall x :: x in transactions <==> x in old(transactions)
    {
      var k := |transactions|;
      while k > 0
        invariant 0 <= k <= |transactions| && transactions == old(transactions)
        invariant forall i | k <= i < |transactions| :: transactions[i] != h
      {
        if transactions[k - 1] == h {
          TakeOut(allTx, transactions, k - 1);
          transactions := RemovedAt(transactions, k - 1);
          ghost var p := InsertSorted(h);
          return;
        }
        k := k - 1;
      }
      DropNone(transactions, {h});
    }

    /** Sets height and time of a stored transaction. A listed one moves; one that does not concern the wallet is
        forgotten once it is confirmed. */
    method SetHeight(h: Hash, height: nat, timestamp: nat) returns (mine: bool)
      requires Ordered() && h in allTx && height <= TX_UNCONFIRMED
      modifies `allTx, `transactions
      ensures Ordered()
      ensures mine == Belongs(allAddrs, old(allTx), old(allTx)[h])
      ensures |transactions| == |old(transactions)|
      ensures forall x :: x in transactions <==> x in old(transactions)
      ensures allTx == Revised(allAddrs, old(allTx), h, height, timestamp)
    {
      Stamped(rank, allAddrs, allTx, transactions, h, height, timestamp);
      if h in transactions {
        ListedBelongs(rank, allAddrs, allTx, transactions, h);
      }
      ghost var stored, list := allTx, transactions;
      allTx := allTx[h := Stamp(allTx[h], height, timestamp)];
      mine := ContainsTx(allTx[h]);
      if mine {
        Reinsert(h);
        SameMembersBelong(allAddrs, allTx, list, transactions);
      } else if height != TX_UNCONFIRMED {
        Forgotten(rank, allAddrs, allTx, transactions, h);
        allTx := allTx - {h};
        assert allTx == stored - {h};
      }
    }

    /** The first i hashes have been dealt with; stored and list are what there was before. */
    method ReviseNext(ghost stored: map<Hash, Tx>, ghost list: seq<Hash>, hashes: seq<Hash>, i: nat, height: nat,
                      timestamp: nat, updated: seq<Hash>, needsUpdate: bool)
      returns (more: seq<Hash>, needs: bool)
      requires Valid() && Revising(allAddrs, pendingTx + invalidTx, stored, list, hashes, i, height, timestamp, allTx,
                                   transactions, updated, needsUpdate)
      requires i < |hashes| && height <= TX_UNCONFIRMED
      modifies `allTx, `transactions
      ensures Valid() && Revising(allAddrs, pendingTx + invalidTx, stored, list, hashes, i + 1, height, timestamp,
                                  allTx, transactions, more, needs)
    {
      more, needs := updated, needsUpdate;
      var h := hashes[i];
      if h in allTx && !(allTx[h].blockHeight == height && allTx[h].timestamp == timestamp) {
        var mine := UpdateHeight(h, height, timestamp);
        if mine {
          more := updated + [h];
          if h in pendingTx || h in invalidTx { needs := true; }
        }
      }
    }

    /** Gives all named transactions the height and time of their block. */
    method UpdateTransactions(txHashes: seq<Hash>, height: nat, timestamp: nat, now: int) returns (updated: seq<Hash>)
      requires Valid() && height <= TX_UNCONFIRMED
      modifies `blockHeight, `allTx, `transactions, `balance, `totalSent, `totalReceived, `balanceHist, `utxos,
               `spentOutputs, `invalidTx, `pendingTx, `usedAddrs
      ensures Valid()
      ensures blockHeight == if height > old(blockHeight) then height else old(blockHeight)
      ensures allTx == RevisedAll(allAddrs, old(allTx), txHashes, |txHashes|, height, timestamp)
      ensures updated == Touched(allAddrs, old(allTx), txHashes, |txHashes|, height, timestamp)
      ensures SameMembers(transactions, old(transactions))
      ensures if Flagged(allAddrs, old(allTx), txHashes, |txHashes|, height, timestamp, old(pendingTx) + old(invalidTx))
              then UpToDate(now) else SameBooks()
    {
      if height > blockHeight { blockHeight := height; }
      updated := ReviseTransactions(txHashes, height, timestamp, now);
    }

    /** The part of that behind the wallet's own height. */
    method ReviseTransactions(txHashes: seq<Hash>, height: nat, timestamp: nat, now: int) returns (updated: seq<Hash>)
      requires Valid() && height <= TX_UNCONFIRMED
      modifies `allTx, `transactions, `balance, `totalSent, `totalReceived, `balanceHist, `utxos, `spentOutputs,
               `invalidTx, `pendingTx, `usedAddrs
      ensures Valid()
      ensures allTx == RevisedAll(allAddrs, old(allTx), txHashes, |txHashes|, height, timestamp)
      ensures updated == Touched(allAddrs, old(allTx), txHashes, |txHashes|, height, timestamp)
      ensures SameMembers(transactions, old(transactions))
      ensures if Flagged(allAddrs, old(allTx), txHashes, |txHashes|, height, timestamp, old(pendingTx) + old(invalidTx))
              then UpToDate(now) else SameBooks()
    {
      var needsUpdate;
      updated, needsUpdate := ReviseEach(txHashes, height, timestamp);
      UpdateIf(needsUpdate, now);
    }

    method ReviseEach(txHashes: seq<Hash>, height: nat, timestamp: nat) returns (updated: seq<Hash>, needsUpdate: bool)
      requires Valid() && height <= TX_UNCONFIRMED
      modifies `allTx, `transactions
      ensures Valid() && Revising(allAddrs, pendingTx + invalidTx, old(allTx), old(transactions), txHashes, |txHashes|,
                                  height, timestamp, allTx, transactions, updated, needsUpdate)
    {
      ghost var stored, list, flags := allTx, transactions, pendingTx + invalidTx;
      updated, needsUpdate := [], false;
      var i := 0;
      while i < |txHashes|
        invariant i <= |txHashes| && Valid()
        invariant Revising(allAddrs, flags, stored, list, txHashes, i, height, timestamp, allTx, transactions, updated,
                           needsUpdate)
      {
        updated, needsUpdate := ReviseNext(stored, list, txHashes, i, height, timestamp, updated, needsUpdate);
        i := i + 1;
      }
    }

    /** Setting a height leaves the books standing. */
    method UpdateHeight(h: Hash, height: nat, timestamp: nat) returns (mine: bool)
      requires Valid() && h in allTx && height <= TX_UNCONFIRMED
      modifies `allTx, `transactions
      ensures Valid()
      ensures mine == Belongs(allAddrs, old(allTx), old(allTx)[h])
      ensures SameMembers(transactions, old(transactions))
      ensures allTx == Revised(allAddrs, old(allTx), h, height, timestamp)
    {
      ghost var stored, list := allTx, transactions;
      FromListIff(utxos, |utxos|, list);
      if h in list {
        ListedBelongs(rank, allAddrs, allTx, list, h);
      }
      mine := SetHeight(h, height, timestamp);
      WorthSame(stored, allTx, utxos, |utxos|, balance);
      FromListIff(utxos, |utxos|, transactions);
    }

    /** Positions from the end whose height is above the bound. */
    method FirstAbove(bound: int) returns (i: nat)
      requires Ordered()
      ensures i <= |transactions| && i == Above(allTx, transactions, |transactions|, bound)
    {
      i := |transactions|;
      while i > 0 && allTx[transactions[i - 1]].blockHeight > bound
        invariant i <= |transactions|
        invariant Above(allTx, transactions, i, bound) == Above(allTx, transactions, |transactions|, bound)
      {
        i := i - 1;
      }
    }

    /** The listed transactions at the height or above, as many as fit. */
    method TxUnconfirmedBefore(room: nat, height: nat) returns (found: seq<Hash>, ghost all: seq<Hash>)
      requires Ordered()
      ensures found == if |all| < room then all else all[..room]
      ensures |all| <= |transactions| && all == transactions[|transactions| - |all|..]
      ensures forall i | 0 <= i < |transactions| ::
                transactions[i] in all <==> allTx[transactions[i]].blockHeight >= height
    {
      var n := FirstAbove(height - 1);
      AboveIs(allTx, transactions, height - 1);
      all := transactions[n..];
      var count := if |transactions| - n < room then |transactions| - n else room;
      found := [];
      var i := 0;
      while i < count
        invariant 0 <= i <= count && found == all[..i]
      {
        found := found + [transactions[n + i]];
        i := i + 1;
      }
      assert all[..|all|] == all;
    }

    /** Marks all transactions confirmed above the height as unconfirmed. */
    method SetTxUnconfirmedAfter(height: nat, now: int) returns (changed: seq<Hash>)
      requires Valid()
      modifies `blockHeight, `allTx, `balance, `totalSent, `totalReceived, `balanceHist, `utxos, `spentOutputs,
               `invalidTx, `pendingTx, `usedAddrs
      ensures Valid() && blockHeight == height
      ensures changed == transactions[Above(old(allTx), transactions, |transactions|, height)..]
      ensures allTx == Unconfirmed(old(allTx), changed, |changed|)
      ensures if changed != [] then UpToDate(now) else SameBooks()
    {
      blockHeight := height;
      changed := UnconfirmAbove(height);
      UpdateIf(|changed| > 0, now);
    }

    method UnconfirmAbove(height: nat) returns (changed: seq<Hash>)
      requires Valid()
      modifies `allTx
      ensures Valid()
      ensures changed == transactions[Above(old(allTx), transactions, |transactions|, height)..]
      ensures allTx == Unconfirmed(old(allTx), changed, |changed|)
    {
      var i := FirstAbove(height);
      ghost var stored := allTx;
      changed := UnconfirmFrom(i);
      UnconfirmedKeepsValid(stored, i);
    }

    method UnconfirmFrom(i: nat) returns (changed: seq<Hash>)
      requires Listing(allTx, transactions) && i <= |transactions|
      modifies `allTx
      ensures changed == transactions[i..]
      ensures allTx == Unconfirmed(old(allTx), changed, |changed|)
    {
      ghost var stored, rest := allTx, transactions[i..];
      changed := [];
      var j := 0;
      while j < |transactions| - i
        invariant 0 <= j <= |rest| && changed == rest[..j]
        invariant allTx == Unconfirmed(stored, rest, j)
      {
        UnconfirmedIs(stored, rest, j);
        changed := changed + [transactions[i + j]];
        allTx := allTx[transactions[i + j] := allTx[transactions[i + j]].(blockHeight := TX_UNCONFIRMED)];
        j := j + 1;
      }
      assert changed == rest;
    }

    // ---- removing ----

    /** Takes the transaction off the list, if it is listed. */
    method Unlist(h: Hash)
      requires Ordered()
      modifies `transactions
      ensures Ordered()
      ensures transactions == Drop(old(transactions), {h})
    {
      DropInOrder(rank, allAddrs, allTx, transactions, {h});
      transactions := Unlisted(allTx, transactions, h);
    }

    /** Removes a stored transaction from the list together with everything reached from it through listed children,
        children first. */
    method RemoveTransaction(h: Hash, now: int)
      requires Valid()
      modifies `transactions, `balance, `totalSent, `totalReceived, `balanceHist, `utxos, `spentOutputs, `invalidTx,
               `pendingTx, `usedAddrs
      ensures Valid()
      ensures h in allTx ==> UpToDate(now)
      ensures transactions ==
        if h in allTx then Drop(old(transactions), Reach(allTx, rank, old(transactions), h)) else old(transactions)
      decreases |Higher(rank, transactions, h)|, 2
    {
      if h in allTx {
        ghost var list := transactions;
        var hashes := FindDependents(allTx, transactions, h);
        if |hashes| > 0 {
          ghost var gone := RemoveAll(h, hashes, now);
          DropMore(allTx, rank, list, gone, h, h);
          assert gone + Reach(allTx, rank, list, h) == Reach(allTx, rank, list, h);
          assert hashes[0] in hashes;
          DropMembers(list, gone, hashes[0]);
          SubList(list, gone);
          HigherShrinks(allTx, rank, list, transactions, h, hashes[0]);
          RemoveTransaction(h, now);
        } else {
          DropTarget(allTx, rank, transactions, h);
          Unlist(h);
          UpdateBalance(now);
        }
      }
    }

    /** Part of what is reached from h has been removed from the list, children always with their parents. */
    ghost predicate Removing(list: seq<Hash>, gone: set<Hash>, h: Hash)
      reads this
    {
      && Valid() && h in allTx
      && transactions == Drop(list, gone)
      && Closed(allTx, list, gone) && gone <= Reach(allTx, rank, list, h)
    }

    method RemoveChild(ghost list: seq<Hash>, ghost gone: set<Hash>, ghost h: Hash, c: Hash, now: int)
      returns (ghost more: set<Hash>)
      requires Removing(list, gone, h) && Child(allTx, list, h, c)
      modifies `transactions, `balance, `totalSent, `totalReceived, `balanceHist, `utxos, `spentOutputs, `invalidTx,
               `pendingTx, `usedAddrs
      ensures Removing(list, more, h) && gone <= more && c in more
      decreases |Higher(rank, list, h)|, 0
    {
      DropMore(allTx, rank, list, gone, h, c);
      SubList(list, gone);
      HigherShrinks(allTx, rank, list, transactions, h, c);
      RemoveTransaction(c, now);
      more := gone + Reach(allTx, rank, list, c);
    }

    /** Removes the dependents, the last found first. */
    method RemoveAll(h: Hash, hashes: seq<Hash>, now: int) returns (ghost gone: set<Hash>)
      requires Valid() && h in allTx && forall c | c in hashes :: Child(allTx, transactions, h, c)
      modifies `transactions, `balance, `totalSent, `totalReceived, `balanceHist, `utxos, `spentOutputs, `invalidTx,
               `pendingTx, `usedAddrs
      ensures Removing(old(transactions), gone, h)
      ensures hashes != [] ==> hashes[0] in gone
      decreases |Higher(rank, transactions, h)|, 1
    {
      ghost var list := transactions;
      gone := {};
      DropNone(list, {});
      assert Removing(list, gone, h);
      var i := |hashes|;
      while i > 0
        invariant 0 <= i <= |hashes|
        invariant Removing(list, gone, h)
        invariant i < |hashes| ==> hashes[i] in gone
      {
        assert hashes[i - 1] in hashes;
        gone := RemoveChild(list, gone, h, hashes[i - 1], now);
        i := i - 1;
      }
    }

    lemma UnconfirmedKeepsValid(stored: map<Hash, Tx>, i: nat)
      requires InOrder(rank, allAddrs, stored, transactions) && i <= |transactions|
      requires allTx == Unconfirmed(stored, transactions[i..], |transactions| - i)
      requires Worth(stored, utxos, balance) && FromList(utxos, transactions) && balance + totalSent == totalReceived
      requires |balanceHist| == |transactions|
      ensures Valid()
    {
      UnconfirmedOrder(rank, allAddrs, stored, transactions, i);
      UnconfirmedWorth(stored, transactions[i..], |transactions| - i, utxos, balance);
    }
  }

  lemma SubList(list: seq<Hash>, gone: set<Hash>)
    ensures forall x | x in Drop(list, gone) :: x in list
  {
    forall x | x in Drop(list, gone) ensures x in list {
      DropMembers(list, gone, x);
    }
  }

  lemma DropInOrder(rank: Ranks, addrs: set<Address>, allTx: map<Hash, Tx>, list: seq<Hash>, gone: set<Hash>)
    requires InOrder(rank, addrs, allTx, list)
    ensures InOrder(rank, addrs, allTx, Drop(list, gone))
  {
    DropKeepsSorted(allTx, list, gone);
    DropDistinct(list, gone);
    SubList(list, gone);
    SameMembersBelong(addrs, allTx, list, Drop(list, gone));
  }

  // ---- heights ----

  ghost predicate SameMembers(a: seq<Hash>, b: seq<Hash>) {
    forall x :: x in a <==> x in b
  }

  /** The first i named transactions have been given their height. */
  ghost predicate Revising(addrs: set<Address>, flags: set<Hash>, stored: map<Hash, Tx>, list: seq<Hash>,
                           hashes: seq<Hash>, i: nat, height: nat, timestamp: nat, allTx: map<Hash, Tx>,
                           transactions: seq<Hash>, updated: seq<Hash>, needsUpdate: bool)
  {
    && i <= |hashes| && allTx == RevisedAll(addrs, stored, hashes, i, height, timestamp)
    && updated == Touched(addrs, stored, hashes, i, height, timestamp) && SameMembers(transactions, list)
    && needsUpdate == Flagged(addrs, stored, hashes, i, height, timestamp, flags)
  }

  predicate Unchanged(tx: Tx, height: nat, timestamp: nat) {
    tx.blockHeight == height && tx.timestamp == timestamp
  }

  /** The store after one transaction was given its height. */
  ghost function Revised(addrs: set<Address>, allTx: map<Hash, Tx>, h: Hash, height: nat, timestamp: nat): map<Hash, Tx>
    requires h in allTx
  {
    if !Belongs(addrs, allTx, allTx[h]) && height != TX_UNCONFIRMED then allTx - {h}
    else allTx[h := Stamp(allTx[h], height, timestamp)]
  }

  /** The store after the first n hashes. */
  ghost function RevisedAll(addrs: set<Address>, allTx: map<Hash, Tx>, hashes: seq<Hash>, n: nat, height: nat,
                            timestamp: nat): map<Hash, Tx>
    requires n <= |hashes|
  {
    if n == 0 then allTx else
    var m := RevisedAll(addrs, allTx, hashes, n - 1, height, timestamp);
    var h := hashes[n - 1];
    if h in m && !Unchanged(m[h], height, timestamp) then Revised(addrs, m, h, height, timestamp) else m
  }

  /** Whether a transaction concerns the wallet does not change on the way. */
  lemma {:induction false} RevisedBelongs(addrs: set<Address>, allTx: map<Hash, Tx>, hashes: seq<Hash>, n: nat,
                                          height: nat, timestamp: nat, tx: Tx)
    requires n <= |hashes|
    ensures Belongs(addrs, RevisedAll(addrs, allTx, hashes, n, height, timestamp), tx) == Belongs(addrs, allTx, tx)
  {
    if n > 0 {
      RevisedBelongs(addrs, allTx, hashes, n - 1, height, timestamp, tx);
      var m := RevisedAll(addrs, allTx, hashes, n - 1, height, timestamp);
      var h := hashes[n - 1];
      if h in m && !Unchanged(m[h], height, timestamp) {
        if !Belongs(addrs, m, m[h]) && height != TX_UNCONFIRMED {
          ForgetBelongs(addrs, m, h, tx);
        } else {
          StampBelongs(addrs, m, h, height, timestamp, tx);
        }
      }
    }
  }

  lemma ForgetBelongs(addrs: set<Address>, allTx: map<Hash, Tx>, h: Hash, tx: Tx)
    requires h in allTx && !Belongs(addrs, allTx, allTx[h])
    ensures Belongs(addrs, allTx - {h}, tx) == Belongs(addrs, allTx, tx)
  {
    if Belongs(addrs, allTx, tx) {
      BelongsGrows(addrs, allTx, allTx - {h}, tx);
    }
    if Belongs(addrs, allTx - {h}, tx) {
      BelongsGrows(addrs, allTx - {h}, allTx, tx);
    }
  }

  /** What happens to one stored transaction: a named one gets the height and time, unless it is foreign and now
      confirmed; then it is gone. */
  lemma {:induction false} RevisedIs(addrs: set<Address>, allTx: map<Hash, Tx>, hashes: seq<Hash>, n: nat, height: nat,
                                     timestamp: nat, h: Hash)
    requires n <= |hashes| && h in allTx
    ensures var m := RevisedAll(addrs, allTx, hashes, n, height, timestamp);
      && (h !in m <==> h in hashes[..n] && height != TX_UNCONFIRMED && !Unchanged(allTx[h], height, timestamp) &&
                       !Belongs(addrs, allTx, allTx[h]))
      && (h in m ==> m[h] == if h in hashes[..n] then Stamp(allTx[h], height, timestamp) else allTx[h])
  {
    if n > 0 {
      RevisedIs(addrs, allTx, hashes, n - 1, height, timestamp, h);
      RevisedBelongs(addrs, allTx, hashes, n - 1, height, timestamp, allTx[h]);
      assert h in hashes[..n] <==> h in hashes[..n - 1] || h == hashes[n - 1];
    }
  }

  /** A single transaction that is marked as unconfirmed stays stored, with its new time. */
  lemma RevisedOne(addrs: set<Address>, allTx: map<Hash, Tx>, h: Hash, timestamp: nat)
    ensures RevisedAll(addrs, allTx, [h], 1, TX_UNCONFIRMED, timestamp) ==
            if h in allTx then allTx[h := Stamp(allTx[h], TX_UNCONFIRMED, timestamp)] else allTx
  {
    var m := RevisedAll(addrs, allTx, [h], 0, TX_UNCONFIRMED, timestamp);
    assert m == allTx && [h][0] == h;
    if h in allTx && Unchanged(allTx[h], TX_UNCONFIRMED, timestamp) {
      assert Stamp(allTx[h], TX_UNCONFIRMED, timestamp) == allTx[h];
      assert allTx[h := allTx[h]] == allTx;
    }
  }

  /** Nothing is ever added. */
  lemma {:induction false} RevisedKeys(addrs: set<Address>, allTx: map<Hash, Tx>, hashes: seq<Hash>, n: nat,
                                       height: nat,
                                       timestamp: nat)
    requires n <= |hashes|
    ensures RevisedAll(addrs, allTx, hashes, n, height, timestamp).Keys <= allTx.Keys
  {
    if n > 0 {
      RevisedKeys(addrs, allTx, hashes, n - 1, height, timestamp);
    }
  }

  /** The wallet transactions among the first n hashes whose height or time really changes. */
  ghost function Touched(addrs: set<Address>, allTx: map<Hash, Tx>, hashes: seq<Hash>, n: nat, height: nat,
                         timestamp: nat): seq<Hash>
    requires n <= |hashes|
  {
    if n == 0 then [] else
    var m := RevisedAll(addrs, allTx, hashes, n - 1, height, timestamp);
    var h := hashes[n - 1];
    Touched(addrs, allTx, hashes, n - 1, height, timestamp) +
      (if h in m && !Unchanged(m[h], height, timestamp) && Belongs(addrs, m, m[h]) then [h] else [])
  }

  /** One of them was pending or invalid. */
  ghost predicate Flagged(addrs: set<Address>, allTx: map<Hash, Tx>, hashes: seq<Hash>, n: nat, height: nat,
                          timestamp: nat, flags: set<Hash>)
    requires n <= |hashes|
  {
    n > 0 &&
    (Flagged(addrs, allTx, hashes, n - 1, height, timestamp, flags) ||
     var m := RevisedAll(addrs, allTx, hashes, n - 1, height, timestamp);
     var h := hashes[n - 1];
     h in m && !Unchanged(m[h], height, timestamp) && Belongs(addrs, m, m[h]) && h in flags)
  }

  /** How much of the first n positions is left below the run, at their end, of heights above the bound. */
  function Above(allTx: map<Hash, Tx>, list: seq<Hash>, n: nat, bound: int): (k: nat)
    requires Listing(allTx, list) && n <= |list|
    ensures k <= n
  {
    if n == 0 || allTx[list[n - 1]].blockHeight <= bound then n else Above(allTx, list, n - 1, bound)
  }

  /** In a sorted list that run holds every height above the bound. */
  lemma {:induction false} AboveIs(allTx: map<Hash, Tx>, list: seq<Hash>, bound: int)
    requires Listing(allTx, list) && Distinct(list) && Sorted(allTx, list)
    ensures forall i | 0 <= i < |list| ::
              && (i >= Above(allTx, list, |list|, bound) <==> allTx[list[i]].blockHeight > bound)
              && (list[i] in list[Above(allTx, list, |list|, bound)..] <==> allTx[list[i]].blockHeight > bound)
  {
    var k := Above(allTx, list, |list|, bound);
    AboveStops(allTx, list, |list|, bound);
    SortedPairs(allTx, list, |list|);
    DistinctPairs(list, |list|);
    forall i | 0 <= i < |list|
      ensures i >= k <==> allTx[list[i]].blockHeight > bound
      ensures list[i] in list[k..] <==> i >= k
    {
      if i >= k {
        assert list[k..][i - k] == list[i];
      }
    }
  }

  lemma {:induction false} AboveStops(allTx: map<Hash, Tx>, list: seq<Hash>, n: nat, bound: int)
    requires Listing(allTx, list) && n <= |list|
    ensures var k := Above(allTx, list, n, bound);
      (k > 0 ==> allTx[list[k - 1]].blockHeight <= bound) && forall i | k <= i < n :: allTx[list[i]].blockHeight > bound
  {
    if n > 0 && allTx[list[n - 1]].blockHeight > bound {
      AboveStops(allTx, list, n - 1, bound);
    }
  }

  /** Exactly the transactions above the height are taken, and nothing but their height changes. */
  lemma UnconfirmsExactly(allTx: map<Hash, Tx>, list: seq<Hash>, height: nat)
    requires Listing(allTx, list) && Distinct(list) && Sorted(allTx, list)
    ensures var changed := list[Above(allTx, list, |list|, height)..];
      var m := Unconfirmed(allTx, changed, |changed|);
      m.Keys == allTx.Keys && forall h | h in allTx ::
        m[h] == if h in list && allTx[h].blockHeight > height then allTx[h].(blockHeight := TX_UNCONFIRMED)
                else allTx[h]
  {
    var changed := list[Above(allTx, list, |list|, height)..];
    AboveIs(allTx, list, height);
    UnconfirmedIs(allTx, changed, |changed|);
    assert changed[..|changed|] == changed;
    forall h | h in allTx ensures h in changed <==> h in list && allTx[h].blockHeight > height {
      if h in list {
        var i :| 0 <= i < |list| && list[i] == h;
      }
    }
  }

  /** The store after the first n hashes were unconfirmed. */
  ghost function Unconfirmed(allTx: map<Hash, Tx>, hashes: seq<Hash>, n: nat): map<Hash, Tx>
    requires n <= |hashes|
  {
    if n == 0 then allTx else
    var m := Unconfirmed(allTx, hashes, n - 1);
    if hashes[n - 1] in m then m[hashes[n - 1] := m[hashes[n - 1]].(blockHeight := TX_UNCONFIRMED)] else m
  }

  lemma {:induction false} UnconfirmedIs(allTx: map<Hash, Tx>, hashes: seq<Hash>, n: nat)
    requires n <= |hashes|
    ensures Unconfirmed(allTx, hashes, n).Keys == allTx.Keys
    ensures forall h | h in allTx ::
              Unconfirmed(allTx, hashes, n)[h] ==
                if h in hashes[..n] then allTx[h].(blockHeight := TX_UNCONFIRMED) else allTx[h]
  {
    if n > 0 {
      UnconfirmedIs(allTx, hashes, n - 1);
      assert forall h :: h in hashes[..n] <==> h in hashes[..n - 1] || h == hashes[n - 1];
    }
  }

  lemma UnconfirmedWorth(allTx: map<Hash, Tx>, hashes: seq<Hash>, n: nat, s: seq<OutPoint>, amount: int)
    requires n <= |hashes| && Worth(allTx, s, amount)
    ensures Worth(Unconfirmed(allTx, hashes, n), s, amount)
  {
    UnconfirmedIs(allTx, hashes, n);
    WorthSame(allTx, Unconfirmed(allTx, hashes, n), s, |s|, amount);
  }

  /** A store that keeps all transactions but for their heights keeps what belongs to the wallet. */
  lemma BelongingStays(addrs: set<Address>, allTx: map<Hash, Tx>, m: map<Hash, Tx>, list: seq<Hash>)
    requires Listing(allTx, list) && AllBelong(addrs, allTx, list) && m.Keys == allTx.Keys
    requires forall h | h in allTx :: m[h].inputs == allTx[h].inputs && m[h].outputs == allTx[h].outputs
    ensures AllBelong(addrs, m, list)
  {
    forall k | 0 <= k < |list| ensures list[k] in m && Belongs(addrs, m, m[list[k]]) {
      assert Belongs(addrs, allTx, allTx[list[k]]);
      BelongsGrows(addrs, allTx, m, allTx[list[k]]);
      assert Belongs(addrs, m, allTx[list[k]]);
    }
  }

  lemma InTail(list: seq<Hash>, rest: seq<Hash>, i: nat, k: nat)
    requires i <= |list| && rest == list[i..] && k < |list| && Distinct(list)
    ensures list[k] in rest[..|rest|] <==> k >= i
  {
    DistinctPairs(list, |list|);
    assert rest[..|rest|] == rest;
    if k >= i {
      assert rest[k - i] == list[k];
    }
  }

  /** Unconfirming the end of the list leaves it in order. */
  lemma UnconfirmedOrder(rank: Ranks, addrs: set<Address>, allTx: map<Hash, Tx>, list: seq<Hash>, i: nat)
    requires InOrder(rank, addrs, allTx, list) && i <= |list|
    ensures InOrder(rank, addrs, Unconfirmed(allTx, list[i..], |list| - i), list)
  {
    var rest := list[i..];
    var m := Unconfirmed(allTx, rest, |rest|);
    UnconfirmedIs(allTx, rest, |rest|);
    BelongingStays(addrs, allTx, m, list);
    forall k | 0 <= k < |list| ensures list[k] in rest[..|rest|] <==> k >= i {
      InTail(list, rest, i, k);
    }
    UnconfirmedSorted(allTx, m, list, i, |list|);
  }

  lemma {:induction false} UnconfirmedSorted(allTx: map<Hash, Tx>, m: map<Hash, Tx>, list: seq<Hash>, i: nat, n: nat)
    requires Listing(allTx, list) && Bounded(allTx) && Listing(m, list) && n <= |list| && SortedUpTo(allTx, list, n)
    requires forall k | 0 <= k < n :: m[list[k]].blockHeight == if k >= i then TX_UNCONFIRMED
      else allTx[list[k]].blockHeight
    ensures SortedUpTo(m, list, n)
  {
    if n > 1 {
      UnconfirmedSorted(allTx, m, list, i, n - 1);
    }
  }

  function Stamp(tx: Tx, height: nat, timestamp: nat): Tx {
    tx.(blockHeight := height, timestamp := timestamp)
  }

  lemma TakeOut(allTx: map<Hash, Tx>, list: seq<Hash>, k: nat)
    requires Listing(allTx, list) && Distinct(list) && k < |list|
    ensures RemovedAt(list, k) == Drop(list, {list[k]}) && Distinct(RemovedAt(list, k))
    ensures forall x :: x in RemovedAt(list, k) <==> x in list && x != list[k]
  {
    DistinctPairs(list, |list|);
    DropOne(list, k);
    DropDistinct(list, {list[k]});
    forall x ensures x in RemovedAt(list, k) <==> x in list && x != list[k] {
      DropMembers(list, {list[k]}, x);
    }
  }

  /** The rest of the list stays sorted when one height changes. */
  lemma StampKeepsOrder(allTx: map<Hash, Tx>, rank: Ranks, list: seq<Hash>, h: Hash, height: nat, timestamp: nat)
    requires Store(allTx, rank) && Listing(allTx, list) && Distinct(list) && Sorted(allTx, list) && h in allTx
    ensures var more := allTx[h := Stamp(allTx[h], height, timestamp)];
      && Store(more, rank) && Listing(more, list)
      && Listing(more, Drop(list, {h})) && Sorted(more, Drop(list, {h}))
  {
    var more := allTx[h := Stamp(allTx[h], height, timestamp)];
    DropKeepsSorted(allTx, list, {h});
    var r := Drop(list, {h});
    forall i | 0 <= i < |r| ensures r[i] != h {
      DropMembers(list, {h}, r[i]);
    }
    SortedSame(allTx, more, r);
  }

  lemma StampBelongs(addrs: set<Address>, allTx: map<Hash, Tx>, h: Hash, height: nat, timestamp: nat, tx: Tx)
    requires h in allTx
    ensures var more := allTx[h := Stamp(allTx[h], height, timestamp)];
      Belongs(addrs, more, tx) == Belongs(addrs, allTx, tx)
  {
    var more := allTx[h := Stamp(allTx[h], height, timestamp)];
    if Belongs(addrs, allTx, tx) {
      BelongsGrows(addrs, allTx, more, tx);
    }
    if Belongs(addrs, more, tx) {
      BelongsGrows(addrs, more, allTx, tx);
    }
  }

  lemma StampAllBelong(addrs: set<Address>, allTx: map<Hash, Tx>, list: seq<Hash>, h: Hash, height: nat, timestamp: nat)
    requires h in allTx && Listing(allTx, list) && AllBelong(addrs, allTx, list)
    ensures var more := allTx[h := Stamp(allTx[h], height, timestamp)];
      Listing(more, list) && AllBelong(addrs, more, list)
  {
    var more := allTx[h := Stamp(allTx[h], height, timestamp)];
    forall i | 0 <= i < |list| ensures Belongs(addrs, more, more[list[i]]) {
      StampBelongs(addrs, allTx, h, height, timestamp, allTx[list[i]]);
      assert Belongs(addrs, more, allTx[list[i]]);
    }
  }

  /** A change of height leaves everything else in order; only the transaction's own place is open. */
  lemma Stamped(rank: Ranks, addrs: set<Address>, allTx: map<Hash, Tx>, list: seq<Hash>, h: Hash, height: nat,
                timestamp: nat)
    requires InOrder(rank, addrs, allTx, list) && h in allTx && height <= TX_UNCONFIRMED
    ensures var more := allTx[h := Stamp(allTx[h], height, timestamp)];
      && Store(more, rank) && Bounded(more)
      && Listing(more, list) && AllBelong(addrs, more, list)
      && Listing(more, Drop(list, {h})) && Sorted(more, Drop(list, {h}))
      && Belongs(addrs, more, more[h]) == Belongs(addrs, allTx, allTx[h])
      && (h !in list ==> Sorted(more, list))
  {
    StampKeepsOrder(allTx, rank, list, h, height, timestamp);
    StampAllBelong(addrs, allTx, list, h, height, timestamp);
    StampBelongs(addrs, allTx, h, height, timestamp, allTx[h]);
    StampBelongs(addrs, allTx, h, height, timestamp, Stamp(allTx[h], height, timestamp));
    if h !in list {
      DropNone(list, {h});
    }
  }

  lemma ListedBelongs(rank: Ranks, addrs: set<Address>, allTx: map<Hash, Tx>, list: seq<Hash>, h: Hash)
    requires InOrder(rank, addrs, allTx, list) && h in list
    ensures h in allTx && Belongs(addrs, allTx, allTx[h])
  {
    var i :| 0 <= i < |list| && list[i] == h;
  }

  /** Forgetting a transaction that does not concern the wallet leaves everything in order. */
  lemma Forgotten(rank: Ranks, addrs: set<Address>, allTx: map<Hash, Tx>, list: seq<Hash>, h: Hash)
    requires InOrder(rank, addrs, allTx, list) && h in allTx && !Belongs(addrs, allTx, allTx[h])
    ensures InOrder(rank, addrs, allTx - {h}, list)
  {
    var less := allTx - {h};
    forall i | 0 <= i < |list| ensures list[i] in less && Belongs(addrs, less, less[list[i]]) {
      assert Belongs(addrs, allTx, allTx[list[i]]);
      BelongsGrows(addrs, allTx, less, allTx[list[i]]);
    }
    SortedSame(allTx, less, list);
  }

  lemma SameMembersBelong(addrs: set<Address>, allTx: map<Hash, Tx>, list: seq<Hash>, other: seq<Hash>)
    requires Listing(allTx, list) && AllBelong(addrs, allTx, list)
    requires forall x | x in other :: x in list
    ensures Listing(allTx, other) && AllBelong(addrs, allTx, other)
  {
    forall i | 0 <= i < |other| ensures other[i] in allTx && Belongs(addrs, allTx, allTx[other[i]]) {
      assert other[i] in list;
      var k :| 0 <= k < |list| && list[k] == other[i];
    }
  }

  /** A new transaction disturbs neither the store nor the order of the list. */
  lemma StoreExtends(allTx: map<Hash, Tx>, rank: Ranks, list: seq<Hash>, tx: Tx)
    requires Store(allTx, rank) && Listing(allTx, list) && Sorted(allTx, list) && Bounded(allTx)
    requires AboveParents(rank, tx) && tx.txHash !in allTx && tx.blockHeight <= TX_UNCONFIRMED
    ensures var more := allTx[tx.txHash := tx];
      Store(more, rank) && Listing(more, list) && Sorted(more, list) && Bounded(more) && tx.txHash !in list
  {
    SortedSame(allTx, allTx[tx.txHash := tx], list);
  }

  lemma BelongsGrows(addrs: set<Address>, allTx: map<Hash, Tx>, more: map<Hash, Tx>, tx: Tx)
    requires Belongs(addrs, allTx, tx)
    requires forall h | h in allTx &&
        (exists j | 0 <= j < |allTx[h].outputs| :: allTx[h].outputs[j].address in addrs) ::
      h in more && more[h].outputs == allTx[h].outputs
    ensures Belongs(addrs, more, tx)
  {
    if j :| 0 <= j < |tx.inputs| && OutputBelongs(addrs, allTx, tx.inputs[j].prevout) {
      assert OutputBelongs(addrs, more, tx.inputs[j].prevout);
    }
  }

  lemma BelongsExtends(addrs: set<Address>, allTx: map<Hash, Tx>, list: seq<Hash>, tx: Tx)
    requires Listing(allTx, list) && tx.txHash !in allTx && AllBelong(addrs, allTx, list)
    ensures var more := allTx[tx.txHash := tx]; Listing(more, list) && AllBelong(addrs, more, list)
    ensures Belongs(addrs, allTx, tx) ==> Belongs(addrs, allTx[tx.txHash := tx], tx)
  {
    var more := allTx[tx.txHash := tx];
    forall i | 0 <= i < |list| ensures Belongs(addrs, more, more[list[i]]) {
      BelongsGrows(addrs, allTx, more, allTx[list[i]]);
    }
    if Belongs(addrs, allTx, tx) {
      BelongsGrows(addrs, allTx, more, tx);
    }
  }

  lemma {:induction false} TakenStays(spent: set<OutPoint>, invalid: set<Hash>, inputs: seq<TxInput>, i: nat, n: nat)
    requires i <= n <= |inputs| && AnyTaken(spent, invalid, inputs, i)
    ensures AnyTaken(spent, invalid, inputs, n)
  {
    if i < n {
      TakenStays(spent, invalid, inputs, i, n - 1);
    }
  }

  lemma {:induction false} DustStays(outputs: seq<TxOutput>, i: nat, n: nat)
    requires i <= n <= |outputs| && AnyDust(outputs, i)
    ensures AnyDust(outputs, n)
  {
    if i < n {
      DustStays(outputs, i, n - 1);
    }
  }

  lemma {:induction false} HeldBackStays(env: Env, pending: set<Hash>, tx: Tx, i: nat, n: nat)
    requires i <= n <= |tx.inputs| && AnyHeldBack(env, pending, tx, i)
    ensures AnyHeldBack(env, pending, tx, n)
  {
    if i < n {
      HeldBackStays(env, pending, tx, i, n - 1);
    }
  }

  ghost function WithOwned(s: seq<OutPoint>, addrs: set<Address>, tx: Tx, n: nat): seq<OutPoint>
    requires n <= |tx.outputs|
  {
    if n == 0 then s else
    var r := WithOwned(s, addrs, tx, n - 1);
    if tx.outputs[n - 1].address != "" && tx.outputs[n - 1].address in addrs then r + [OutPoint(tx.txHash, n - 1)]
      else r
  }

  lemma {:induction false} WithOwnedIs(s: seq<OutPoint>, addrs: set<Address>, tx: Tx, n: nat)
    requires n <= |tx.outputs|
    ensures WithOwned(s, addrs, tx, n) == s + Owned(addrs, tx, n)
  {
    if n > 0 {
      WithOwnedIs(s, addrs, tx, n - 1);
    }
  }

  ghost function WithAddresses(u: set<Address>, outputs: seq<TxOutput>, n: nat): set<Address>
    requires n <= |outputs|
  {
    if n == 0 then u else
    var r := WithAddresses(u, outputs, n - 1);
    if outputs[n - 1].address != "" then r + {outputs[n - 1].address} else r
  }

  lemma {:induction false} WithAddressesIs(u: set<Address>, outputs: seq<TxOutput>, n: nat)
    requires n <= |outputs|
    ensures WithAddresses(u, outputs, n) == u + Addresses(outputs, n)
  {
    if n > 0 {
      WithAddressesIs(u, outputs, n - 1);
    }
  }

  lemma WithoutFront(s: seq<OutPoint>, k: nat, gone: set<OutPoint>)
    requires k < |s|
    ensures Without(s[k..], gone) == (if s[k] in gone then [] else [s[k]]) + Without(s[k + 1..], gone)
  {
    assert s[k..] == [s[k]] + s[k + 1..];
    WithoutAppend([s[k]], s[k + 1..], gone);
    assert [s[k]][..0] == [];
    assert Without([s[k]], gone) == if s[k] in gone then [] else [s[k]];
  }

  /** What the backward removal has left once it has reached position j. */
  ghost function Halfway(s: seq<OutPoint>, j: nat, gone: set<OutPoint>): seq<OutPoint>
    requires j <= |s|
    decreases |s| - j
  {
    if j == |s| then s else
    var u := Halfway(s, j + 1, gone);
    if s[j] in gone && j < |u| then Cut(u, j) else u
  }

  lemma {:induction false} HalfwayIs(s: seq<OutPoint>, j: nat, gone: set<OutPoint>)
    requires j <= |s|
    ensures Halfway(s, j, gone) == s[..j] + Without(s[j..], gone)
    decreases |s| - j
  {
    if j < |s| {
      HalfwayIs(s, j + 1, gone);
      WithoutFront(s, j, gone);
      CutBehind(s, j, Without(s[j + 1..], gone));
    }
  }

  lemma CutBehind(s: seq<OutPoint>, j: nat, rest: seq<OutPoint>)
    requires j < |s|
    ensures s[..j + 1] + rest == s[..j] + ([s[j]] + rest) && Cut(s[..j + 1] + rest, j) == s[..j] + rest
  {
  }

  lemma HalfwayEnd(s: seq<OutPoint>, gone: set<OutPoint>)
    ensures Halfway(s, 0, gone) == Without(s, gone)
  {
    HalfwayIs(s, 0, gone);
    assert s[0..] == s && s[..0] == [];
  }

  lemma RemoveStep(s: seq<OutPoint>, j: nat, gone: set<OutPoint>)
    requires 0 < j <= |s|
    ensures var u := Halfway(s, j, gone);
      |u| >= j && u[j - 1] == s[j - 1] &&
      Halfway(s, j - 1, gone) == if u[j - 1] in gone then Cut(u, j - 1) else u
  {
    HalfwayIs(s, j, gone);
  }

  /** A transaction of the wallet at a lower height than the one it spends stays when that one is removed. */
  lemma LowChildStays() returns (addrs: set<Address>, allTx: map<Hash, Tx>, rank: Ranks, list: seq<Hash>)
    ensures InOrder(rank, addrs, allTx, list) && 0 !in allTx
    ensures Descends(allTx, rank, list, 1, 2) && !Reached(allTx, rank, list, 1, 2)
  {
    var parent := Tx(1, [], [TxOutput("mine", 7)], 0, 100, 10, 0);
    var child := Tx(2, [TxInput(OutPoint(1, 0), 0)], [TxOutput("mine", 6)], 0, 100, 5, 0);
    addrs, allTx, rank, list := {"mine"}, map[1 := parent, 2 := child], imap[1 := 0, 2 := 1], [2, 1];
    assert SortedUpTo(allTx, list, 1) && DistinctUpTo(list, 0) && DistinctUpTo(list, 1) && Absent(list, 0, 1);
    assert Belongs(addrs, allTx, child) && Belongs(addrs, allTx, parent) by {
      assert child.outputs[0].address in addrs && parent.outputs[0].address in addrs;
    }
    assert Descends(allTx, rank, list, 1, allTx[2].inputs[0].prevout.hash);
    if Reached(allTx, rank, list, 1, 2) {
      ReachedNotLower(allTx, rank, list, 1, 2);
    }
  }
}
