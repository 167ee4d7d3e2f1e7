/** How the wallet picks coins and fees for a payment (BRWallet.c, with the size estimate of BRTransaction.c). */
module CoinSelection {
  import opened Ledger
  import opened Wallets
  import opened VarInts
  import Transactions

  const TX_OUTPUT_SIZE: nat := 34
  const TX_FEE_PER_KB: nat := 1000
  const MIN_FEE_PER_KB: nat := 1000

  /** The script of a wallet address; with it an output takes TX_OUTPUT_SIZE bytes. */
  const WALLET_SCRIPT_LEN: nat := 25

  datatype Payment = Payment(amount: nat, scriptLen: nat)

  /** An unsigned transaction. */
  datatype Draft = Draft(inputs: seq<OutPoint>, outputs: seq<Payment>)

  /** Split: the result is that of a call with these payments instead. Beyond: the last of no payments is asked for. */
  datatype Outcome = Nothing | Split(payments: seq<Payment>) | Beyond | Made(draft: Draft)

  /** The part of the wallet that pays for a transaction. */
  datatype Purse = Purse(allTx: map<Hash, Tx>, utxos: seq<OutPoint>, balance: nat, feePerKb: nat)

  // ---- sizes and fees ----

  /** The size of the first n outputs. */
  function OutputsSize(outputs: seq<Payment>, n: nat): nat
    requires n <= |outputs|
  {
    if n == 0 then 0 else
    OutputsSize(outputs, n - 1) + 8 + VarIntSize(outputs[n - 1].scriptLen) + outputs[n - 1].scriptLen
  }

  function OutputsAmount(outputs: seq<Payment>, n: nat): nat
    requires n <= |outputs|
  {
    if n == 0 then 0 else OutputsAmount(outputs, n - 1) + outputs[n - 1].amount
  }

  /** The size of a transaction with unsigned inputs. */
  function Size(inCount: nat, outputs: seq<Payment>): nat {
    8 + VarIntSize(inCount) + VarIntSize(|outputs|) + Transactions.TX_INPUT_SIZE * inCount
    + OutputsSize(outputs, |outputs|)
  }

  function TxFee(feePerKb: nat, size: nat): nat {
    var standardFee := size * TX_FEE_PER_KB / 1000;
    var fee := (size * feePerKb / 1000 + 99) / 100 * 100;
    if fee > standardFee then fee else standardFee
  }

  function MinOutputAmount(feePerKb: nat): nat {
    var amount := (TX_MIN_OUTPUT_AMOUNT * feePerKb + MIN_FEE_PER_KB - 1) / MIN_FEE_PER_KB;
    if amount > TX_MIN_OUTPUT_AMOUNT then amount else TX_MIN_OUTPUT_AMOUNT
  }

  lemma ScaleGrows(a: nat, b: nat, k: nat)
    requires a <= b
    ensures a * k <= b * k
  {
  }

  lemma TxFeeGrows(feePerKb: nat, a: nat, b: nat)
    requires a <= b
    ensures TxFee(feePerKb, a) <= TxFee(feePerKb, b)
  {
    ScaleGrows(a, b, feePerKb);
  }

  /** A fee pays for every byte the standard rate of one per byte, and at least the wallet's own rate rounded down to
      whole units; and it is the least that does so among the standard fee and the multiples of 100. */
  predicate Pays(fee: nat, feePerKb: nat, size: nat) {
    fee >= size && (fee + 1) * 1000 > size * feePerKb
  }

  lemma TxFeeIsLeast(feePerKb: nat, size: nat)
    ensures Pays(TxFee(feePerKb, size), feePerKb, size)
    ensures TxFee(feePerKb, size) == size || TxFee(feePerKb, size) % 100 == 0
    ensures forall fee: nat | fee % 100 == 0 && Pays(fee, feePerKb, size) :: TxFee(feePerKb, size) <= fee
  {
    var rate := size * feePerKb;
    FloorIs(rate, 1000);
    forall fee: nat | fee % 100 == 0 && Pays(fee, feePerKb, size) ensures TxFee(feePerKb, size) <= fee {
      assert fee >= rate / 1000;
      RoundedUp(rate / 1000, fee);
    }
  }

  lemma FloorIs(rate: nat, k: nat)
    requires k > 0
    ensures rate / k * k <= rate < (rate / k + 1) * k
  {
  }

  /** No multiple of 100 at or above a number is less than that number rounded up. */
  lemma RoundedUp(x: nat, m: nat)
    requires m % 100 == 0 && m >= x
    ensures (x + 99) / 100 * 100 <= m
  {
  }

  /** The least amount of an output: three times the standard fee for an output and the input that spends it, scaled up
      by the wallet's rate, but not down. */
  lemma MinOutputIsLeast(feePerKb: nat)
    ensures TX_MIN_OUTPUT_AMOUNT == 3 * TxFee(0, TX_OUTPUT_SIZE + Transactions.TX_INPUT_SIZE)
    ensures forall amount: nat :: amount >= MinOutputAmount(feePerKb) <==>
      amount >= TX_MIN_OUTPUT_AMOUNT && amount * MIN_FEE_PER_KB >= TX_MIN_OUTPUT_AMOUNT * feePerKb
  {
  }

  /** A wallet output takes 34 bytes. */
  lemma WalletOutputSize(p: Payment)
    requires p.scriptLen == WALLET_SCRIPT_LEN
    ensures OutputsSize([p], 1) == TX_OUTPUT_SIZE
  {
  }

  // ---- what has been picked after i outputs ----

  function Picked(p: Purse, i: nat): seq<OutPoint>
    requires i <= |p.utxos|
  {
    if i == 0 then [] else Picked(p, i - 1) + (if Known(p.allTx, p.utxos[i - 1]) then [p.utxos[i - 1]] else [])
  }

  function PickedCount(p: Purse, i: nat): nat
    requires i <= |p.utxos|
  {
    if i == 0 then 0 else PickedCount(p, i - 1) + (if Known(p.allTx, p.utxos[i - 1]) then 1 else 0)
  }

  function PickedAmount(p: Purse, i: nat): nat
    requires i <= |p.utxos|
  {
    if i == 0 then 0 else
    PickedAmount(p, i - 1) + (if Known(p.allTx, p.utxos[i - 1]) then Amount(p.allTx, p.utxos[i - 1]) else 0)
  }

  /** The fee for the picked inputs, the payments and one change output. */
  function BaseFee(p: Purse, outputs: seq<Payment>, i: nat): nat
    requires i <= |p.utxos|
  {
    TxFee(p.feePerKb, Size(PickedCount(p, i), outputs) + TX_OUTPUT_SIZE)
  }

  /** The fee raised so that the rest of the balance is a multiple of 100. */
  function Rounded(balance: nat, total: nat, fee: nat): nat {
    if balance > total + fee then fee + (balance - (total + fee)) % 100 else fee
  }

  function RoundedFee(p: Purse, outputs: seq<Payment>, i: nat): nat
    requires i <= |p.utxos|
  {
    Rounded(p.balance, OutputsAmount(outputs, |outputs|), BaseFee(p, outputs, i))
  }

  /** The fee in force after i outputs: that of the last picked one. */
  function FeeAt(p: Purse, outputs: seq<Payment>, i: nat): nat
    requires i <= |p.utxos|
  {
    if i == 0 then BaseFee(p, outputs, 0)
    else if Known(p.allTx, p.utxos[i - 1]) then RoundedFee(p, outputs, i)
    else FeeAt(p, outputs, i - 1)
  }

  predicate TooLarge(p: Purse, outputs: seq<Payment>, i: nat)
    requires i <= |p.utxos|
  {
    Size(PickedCount(p, i), outputs) + TX_OUTPUT_SIZE > TX_MAX_SIZE
  }

  predicate Enough(p: Purse, outputs: seq<Payment>, i: nat)
    requires i <= |p.utxos|
  {
    var due := OutputsAmount(outputs, |outputs|) + FeeAt(p, outputs, i);
    PickedAmount(p, i) == due || PickedAmount(p, i) >= due + MinOutputAmount(p.feePerKb)
  }

  predicate Halts(p: Purse, outputs: seq<Payment>, i: nat)
    requires i < |p.utxos|
  {
    Known(p.allTx, p.utxos[i]) && (TooLarge(p, outputs, i + 1) || Enough(p, outputs, i + 1))
  }

  /** How many outputs are considered, from the i-th on. */
  function Stop(p: Purse, outputs: seq<Payment>, i: nat): (k: nat)
    requires i <= |p.utxos|
    ensures i <= k <= |p.utxos|
    decreases |p.utxos| - i
  {
    if i == |p.utxos| then i else if Halts(p, outputs, i) then i + 1 else Stop(p, outputs, i + 1)
  }

  /** Whether the whole purse covers the payments at all. */
  predicate Covered(p: Purse, outputs: seq<Payment>) {
    p.balance >= OutputsAmount(outputs, |outputs|) +
                 TxFee(p.feePerKb, 10 + |p.utxos| * Transactions.TX_INPUT_SIZE + (|outputs| + 1) * TX_OUTPUT_SIZE)
  }

  lemma {:induction false} WalletOutputsSize(outputs: seq<Payment>, n: nat)
    requires n <= |outputs| && forall i | 0 <= i < n :: outputs[i].scriptLen == WALLET_SCRIPT_LEN
    ensures OutputsSize(outputs, n) == n * TX_OUTPUT_SIZE
  {
    if n > 0 {
      WalletOutputsSize(outputs, n - 1);
    }
  }

  /** That is, the fee for a transaction that spends every output and gives change, as long as all scripts are those of
      wallet addresses and both counts take one byte. */
  lemma CoveredIs(p: Purse, outputs: seq<Payment>)
    requires |p.utxos| < 253 && |outputs| < 253
    requires forall i | 0 <= i < |outputs| :: outputs[i].scriptLen == WALLET_SCRIPT_LEN
    ensures Covered(p, outputs) <==>
            p.balance >= OutputsAmount(outputs, |outputs|) +
                         TxFee(p.feePerKb, Size(|p.utxos|, outputs) + TX_OUTPUT_SIZE)
  {
    WalletOutputsSize(outputs, |outputs|);
    assert Size(|p.utxos|, outputs) + TX_OUTPUT_SIZE ==
           10 + |p.utxos| * Transactions.TX_INPUT_SIZE + (|outputs| + 1) * TX_OUTPUT_SIZE;
  }

  function Overflows(p: Purse, outputs: seq<Payment>, k: nat): bool
    requires k <= |p.utxos|
  {
    k > 0 && Known(p.allTx, p.utxos[k - 1]) && TooLarge(p, outputs, k)
  }

  /** What is asked for instead if the k-th output makes the transaction too large: the last payment is changed so that
      the outputs before cover everything with the fee, or left out if too little of it would be left. */
  function Smaller(p: Purse, outputs: seq<Payment>, k: nat): seq<Payment>
    requires 0 < k <= |p.utxos| && outputs != []
  {
    var due, balance := OutputsAmount(outputs, |outputs|) + FeeAt(p, outputs, k - 1), PickedAmount(p, k - 1);
    WithLast(outputs, due, balance, MinOutputAmount(p.feePerKb))
  }

  function WithLast(outputs: seq<Payment>, due: nat, balance: nat, minAmount: nat): seq<Payment>
    requires outputs != []
  {
    var last := outputs[|outputs| - 1];
    if last.amount > due + minAmount - balance
    then outputs[..|outputs| - 1] + [last.(amount := last.amount - (due - balance))]
    else outputs[..|outputs| - 1]
  }

  function SplitAt(p: Purse, outputs: seq<Payment>, k: nat): Outcome
    requires 0 < k <= |p.utxos|
  {
    if !Covered(p, outputs) then Nothing
    else if outputs == [] then Beyond
    else Split(Smaller(p, outputs, k))
  }

  /** What comes of a request. */
  function Plan(p: Purse, outputs: seq<Payment>): Outcome {
    var k := Stop(p, outputs, 0);
    var due := OutputsAmount(outputs, |outputs|) + FeeAt(p, outputs, k);
    if Overflows(p, outputs, k) then SplitAt(p, outputs, k)
    else if |outputs| < 1 || PickedAmount(p, k) < due then Nothing
    else if PickedAmount(p, k) - due > MinOutputAmount(p.feePerKb)
    then Made(Draft(Picked(p, k), outputs + [Payment(PickedAmount(p, k) - due, WALLET_SCRIPT_LEN)]))
    else Made(Draft(Picked(p, k), outputs))
  }

  // ---- the methods ----

  function PurseOf(w: Wallet): Purse
    reads w
  {
    Purse(w.allTx, w.utxos, w.balance, w.feePerKb)
  }

  method TotalAmount(outputs: seq<Payment>) returns (total: nat)
    ensures total == OutputsAmount(outputs, |outputs|)
  {
    total := 0;
    var j := 0;
    while j < |outputs|
      invariant j <= |outputs| && total == OutputsAmount(outputs, j)
    {
      total := total + outputs[j].amount;
      j := j + 1;
    }
  }

  /** The first i outputs have been considered, and none of them ended the search. */
  ghost predicate Gathering(p: Purse, outputs: seq<Payment>, i: nat, inputs: seq<OutPoint>, balance: nat,
                            feeAmount: nat)
  {
    && i <= |p.utxos| && inputs == Picked(p, i) && |inputs| == PickedCount(p, i) && balance == PickedAmount(p, i)
    && feeAmount == FeeAt(p, outputs, i) && Stop(p, outputs, 0) == Stop(p, outputs, i) && !Overflows(p, outputs, i)
  }

  lemma GatherSkips(p: Purse, outputs: seq<Payment>, i: nat, inputs: seq<OutPoint>, balance: nat, feeAmount: nat)
    requires i < |p.utxos| && !Known(p.allTx, p.utxos[i]) && Gathering(p, outputs, i, inputs, balance, feeAmount)
    ensures Gathering(p, outputs, i + 1, inputs, balance, feeAmount)
  {
    assert inputs + [] == inputs;
  }

  lemma GatherTakes(p: Purse, outputs: seq<Payment>, i: nat, inputs: seq<OutPoint>, balance: nat, feeAmount: nat)
    requires i < |p.utxos| && Known(p.allTx, p.utxos[i]) && Gathering(p, outputs, i, inputs, balance, feeAmount)
    ensures inputs + [p.utxos[i]] == Picked(p, i + 1) && |inputs| + 1 == PickedCount(p, i + 1)
    ensures balance + Amount(p.allTx, p.utxos[i]) == PickedAmount(p, i + 1)
    ensures FeeAt(p, outputs, i + 1) == RoundedFee(p, outputs, i + 1)
    ensures Stop(p, outputs, 0) == if Halts(p, outputs, i) then i + 1 else Stop(p, outputs, i + 1)
    ensures Overflows(p, outputs, i + 1) == TooLarge(p, outputs, i + 1)
  {
  }

  /** Adds unspent outputs until they cover the payments and the fee, or make the transaction too large. */
  method Gather(w: Wallet, outputs: seq<Payment>, total: nat)
    returns (inputs: seq<OutPoint>, balance: nat, feeAmount: nat, tooLarge: bool, ghost k: nat)
    requires total == OutputsAmount(outputs, |outputs|)
    ensures k == Stop(PurseOf(w), outputs, 0) && tooLarge == Overflows(PurseOf(w), outputs, k)
    ensures inputs == Picked(PurseOf(w), k)
    ensures !tooLarge ==> balance == PickedAmount(PurseOf(w), k) && feeAmount == FeeAt(PurseOf(w), outputs, k)
    ensures tooLarge ==>
      k > 0 && balance == PickedAmount(PurseOf(w), k - 1) && feeAmount == FeeAt(PurseOf(w), outputs, k - 1)
  {
    ghost var p := PurseOf(w);
    var minAmount := MinOutputAmount(w.feePerKb);
    feeAmount := TxFee(w.feePerKb, Size(0, outputs) + TX_OUTPUT_SIZE);
    inputs, balance, tooLarge, k := [], 0, false, 0;
    var i := 0;
    while i < |w.utxos|
      invariant Gathering(p, outputs, i, inputs, balance, feeAmount)
    {
      var o := w.utxos[i];
      if !(o.hash in w.allTx) || o.n >= |w.allTx[o.hash].outputs| {
        GatherSkips(p, outputs, i, inputs, balance, feeAmount);
        i := i + 1;
        continue;
      }
      GatherTakes(p, outputs, i, inputs, balance, feeAmount);
      i := i + 1;
      inputs := inputs + [o];
      if Size(|inputs|, outputs) + TX_OUTPUT_SIZE > TX_MAX_SIZE {
        tooLarge, k := true, i;
        return;
      }
      balance := balance + w.allTx[o.hash].outputs[o.n].amount;
      feeAmount := Rounded(w.balance, total, TxFee(w.feePerKb, Size(|inputs|, outputs) + TX_OUTPUT_SIZE));
      if balance == total + feeAmount || balance >= total + feeAmount + minAmount { break; }
    }
    k := i;
  }

  /** Builds a transaction for the payments; keeps small change as fee. */
  method CreateTxForOutputs(w: Wallet, outputs: seq<Payment>) returns (r: Outcome)
    ensures r == Plan(PurseOf(w), outputs)
  {
    var total := TotalAmount(outputs);
    var minAmount := MinOutputAmount(w.feePerKb);
    var inputs, balance, feeAmount, tooLarge, _ := Gather(w, outputs, total);
    if tooLarge {
      if w.balance < total + TxFee(w.feePerKb, 10 + |w.utxos| * Transactions.TX_INPUT_SIZE +
                                               (|outputs| + 1) * TX_OUTPUT_SIZE) {
        return Nothing;
      }
      if |outputs| == 0 { return Beyond; }
      return Split(WithLast(outputs, total + feeAmount, balance, minAmount));
    }
    if |outputs| < 1 || balance < total + feeAmount { return Nothing; }
    if balance - (total + feeAmount) > minAmount {
      return Made(Draft(inputs, outputs + [Payment(balance - (total + feeAmount), WALLET_SCRIPT_LEN)]));
    }
    return Made(Draft(inputs, outputs));
  }

  function MaxAmount(p: Purse): nat {
    var n, amount := PickedCount(p, |p.utxos|), PickedAmount(p, |p.utxos|);
    var fee := TxFee(p.feePerKb,
                     8 + VarIntSize(n) + Transactions.TX_INPUT_SIZE * n + VarIntSize(2) + TX_OUTPUT_SIZE * 2);
    if amount > fee then amount - fee else 0
  }

  /** All unspent outputs less the fee for a payment and a change output. */
  method MaxOutputAmount(w: Wallet) returns (r: nat)
    ensures r == MaxAmount(PurseOf(w))
  {
    ghost var p := PurseOf(w);
    var amount: nat, inCount: nat := 0, 0;
    var i := |w.utxos|;
    while i > 0
      invariant 0 <= i <= |w.utxos|
      invariant amount + PickedAmount(p, i) == PickedAmount(p, |w.utxos|)
      invariant inCount + PickedCount(p, i) == PickedCount(p, |w.utxos|)
    {
      var o := w.utxos[i - 1];
      i := i - 1;
      if !(o.hash in w.allTx) || o.n >= |w.allTx[o.hash].outputs| { continue; }
      inCount := inCount + 1;
      amount := amount + w.allTx[o.hash].outputs[o.n].amount;
    }
    var txSize := 8 + VarIntSize(inCount) + Transactions.TX_INPUT_SIZE * inCount + VarIntSize(2) + TX_OUTPUT_SIZE * 2;
    var fee := TxFee(w.feePerKb, txSize);
    return if amount > fee then amount - fee else 0;
  }

  // ---- what a plan is worth ----

  /** What the inputs bring in. */
  ghost function InputsAmount(p: Purse, inputs: seq<OutPoint>): nat {
    if inputs == [] then 0 else
    InputsAmount(p, inputs[..|inputs| - 1]) +
      (if Known(p.allTx, inputs[|inputs| - 1]) then Amount(p.allTx, inputs[|inputs| - 1]) else 0)
  }

  /** What the miner gets. */
  ghost function Paid(p: Purse, d: Draft): int {
    InputsAmount(p, d.inputs) - OutputsAmount(d.outputs, |d.outputs|)
  }

  lemma {:induction false} PickedIs(p: Purse, i: nat)
    requires i <= |p.utxos|
    ensures |Picked(p, i)| == PickedCount(p, i) && InputsAmount(p, Picked(p, i)) == PickedAmount(p, i)
  {
    if i > 0 {
      PickedIs(p, i - 1);
      var u := Picked(p, i - 1);
      assert (u + [p.utxos[i - 1]])[..|u|] == u;
      assert u + [] == u;
    }
  }

  lemma {:induction false} OutputsAgree(a: seq<Payment>, b: seq<Payment>, n: nat)
    requires n <= |a| && n <= |b| && forall i | 0 <= i < n :: a[i] == b[i]
    ensures OutputsAmount(a, n) == OutputsAmount(b, n) && OutputsSize(a, n) == OutputsSize(b, n)
  {
    if n > 0 {
      OutputsAgree(a, b, n - 1);
    }
  }

  /** A stop is halted by the last output considered, or all have been considered; nothing halted before. */
  lemma {:induction false} StopIs(p: Purse, outputs: seq<Payment>, i: nat)
    requires i <= |p.utxos|
    ensures var k := Stop(p, outputs, i);
      && (k < |p.utxos| ==> i < k)
      && (i < k && !Halts(p, outputs, k - 1) ==> k == |p.utxos|)
      && forall j | i <= j < k - 1 :: !Halts(p, outputs, j)
    decreases |p.utxos| - i
  {
    if i < |p.utxos| && !Halts(p, outputs, i) {
      StopIs(p, outputs, i + 1);
    }
  }

  lemma RoundedIs(balance: nat, total: nat, fee: nat)
    ensures fee <= Rounded(balance, total, fee) <= fee + 99
    ensures balance > total + fee ==> (balance - total - Rounded(balance, total, fee)) % 100 == 0 &&
                                      balance >= total + Rounded(balance, total, fee)
  {
  }

  lemma {:induction false} FeeIs(p: Purse, outputs: seq<Payment>, i: nat)
    requires i <= |p.utxos|
    ensures BaseFee(p, outputs, i) <= FeeAt(p, outputs, i) <= BaseFee(p, outputs, i) + 99
    ensures PickedCount(p, i) > 0 ==> FeeAt(p, outputs, i) == RoundedFee(p, outputs, i)
  {
    if i > 0 {
      FeeIs(p, outputs, i - 1);
      RoundedIs(p.balance, OutputsAmount(outputs, |outputs|), BaseFee(p, outputs, i));
    }
  }

  /** What is picked is never worth more than the wallet. */
  lemma {:induction false} PickedWithin(p: Purse, i: nat, amount: int)
    requires i <= |p.utxos| && WorthUpTo(p.allTx, p.utxos, i, amount)
    ensures PickedAmount(p, i) == amount && PickedCount(p, i) == i
  {
    if i > 0 {
      PickedWithin(p, i - 1, amount - Amount(p.allTx, p.utxos[i - 1]));
    }
  }

  lemma {:induction false} PickedGrows(p: Purse, i: nat, j: nat)
    requires i <= j <= |p.utxos|
    ensures PickedAmount(p, i) <= PickedAmount(p, j) && PickedCount(p, i) <= PickedCount(p, j)
  {
    if i < j {
      PickedGrows(p, i, j - 1);
    }
  }

  /** A made transaction keeps every payment in place, adds at most a change output, spends the picked outputs and pays
      what is left over. */
  lemma MadeKeepsPayments(p: Purse, outputs: seq<Payment>)
    requires Plan(p, outputs).Made?
    ensures var d := Plan(p, outputs).draft;
      && outputs <= d.outputs && |d.outputs| <= |outputs| + 1
      && d.inputs == Picked(p, Stop(p, outputs, 0))
      && (|d.outputs| > |outputs| ==> d.outputs[|outputs|].amount > MinOutputAmount(p.feePerKb) &&
                                      d.outputs[|outputs|].scriptLen == WALLET_SCRIPT_LEN)
      && Paid(p, d) == if |d.outputs| > |outputs| then FeeAt(p, outputs, Stop(p, outputs, 0))
                       else PickedAmount(p, Stop(p, outputs, 0)) - OutputsAmount(outputs, |outputs|)
  {
    var d := Plan(p, outputs).draft;
    PickedIs(p, Stop(p, outputs, 0));
    OutputsAgree(outputs, d.outputs, |outputs|);
  }

  /** The transaction's own size, with or without change. The estimate includes a change output; it falls short only if
      the change output makes the count of outputs longer. */
  lemma MadeSize(p: Purse, outputs: seq<Payment>)
    requires Plan(p, outputs).Made?
    ensures var d := Plan(p, outputs).draft;
      var estimate := Size(|d.inputs|, outputs) + TX_OUTPUT_SIZE;
      && BaseFee(p, outputs, Stop(p, outputs, 0)) == TxFee(p.feePerKb, estimate)
      && Size(|d.inputs|, d.outputs) <= estimate + (VarIntSize(|d.outputs|) - VarIntSize(|outputs|))
      && (|d.outputs| == |outputs| ==> Size(|d.inputs|, d.outputs) <= estimate)
  {
    var d := Plan(p, outputs).draft;
    PickedIs(p, Stop(p, outputs, 0));
    OutputsAgree(outputs, d.outputs, |outputs|);
  }

  /** A made transaction pays at least the fee for its own size, less the bytes by which a change output lengthens the
      count of outputs. */
  lemma MadePaysFee(p: Purse, outputs: seq<Payment>)
    requires Plan(p, outputs).Made?
    ensures var d := Plan(p, outputs).draft;
      var grown := VarIntSize(|d.outputs|) - VarIntSize(|outputs|);
      0 <= grown <= Size(|d.inputs|, d.outputs) && Paid(p, d) >= TxFee(p.feePerKb, Size(|d.inputs|, d.outputs) - grown)
  {
    var d := Plan(p, outputs).draft;
    MadeKeepsPayments(p, outputs);
    MadeSize(p, outputs);
    FeeIs(p, outputs, Stop(p, outputs, 0));
    var grown := VarIntSize(|d.outputs|) - VarIntSize(|outputs|);
    TxFeeGrows(p.feePerKb, Size(|d.inputs|, d.outputs) - grown, Size(|d.inputs|, outputs) + TX_OUTPUT_SIZE);
  }

  lemma {:induction false} UniformOutputs(outputs: seq<Payment>, n: nat, amount: nat)
    requires n <= |outputs| && forall i | 0 <= i < n :: outputs[i] == Payment(amount, WALLET_SCRIPT_LEN)
    ensures OutputsAmount(outputs, n) == n * amount && OutputsSize(outputs, n) == n * TX_OUTPUT_SIZE
  {
    if n > 0 {
      UniformOutputs(outputs, n - 1, amount);
    }
  }

  /** 252 payments and a change output: the count takes three bytes instead of one and the fee is too small. */
  lemma LongCountUnderpays(p: Purse, outputs: seq<Payment>)
    requires |outputs| == 252 && forall i | 0 <= i < 252 :: outputs[i] == Payment(1000, WALLET_SCRIPT_LEN)
    requires p.feePerKb == 10000 && p.balance == 439600 && |p.utxos| == 1 && Known(p.allTx, p.utxos[0])
    requires Amount(p.allTx, p.utxos[0]) == 439600
    ensures Plan(p, outputs).Made?
    ensures var d := Plan(p, outputs).draft; Paid(p, d) < TxFee(p.feePerKb, Size(|d.inputs|, d.outputs))
  {
    UniformOutputs(outputs, 252, 1000);
    assert Picked(p, 0) == [];
    assert PickedCount(p, 1) == 1 && PickedAmount(p, 1) == 439600;
    assert BaseFee(p, outputs, 1) == 87600;
    assert Halts(p, outputs, 0);
    assert Stop(p, outputs, 0) == 1;
    MadeKeepsPayments(p, outputs);
    var d := Plan(p, outputs).draft;
    OutputsAgree(outputs, d.outputs, 252);
    PickedIs(p, 1);
    assert Size(1, d.outputs) == 8762;
  }

  /** The size of a transaction with change: the estimate, and what the longer count of outputs adds. */
  lemma SizeWithChange(p: Purse, outputs: seq<Payment>)
    requires Plan(p, outputs).Made? && |Plan(p, outputs).draft.outputs| > |outputs|
    ensures var d := Plan(p, outputs).draft;
      Size(|d.inputs|, d.outputs) ==
      Size(|d.inputs|, outputs) + TX_OUTPUT_SIZE + VarIntSize(|outputs| + 1) - VarIntSize(|outputs|)
  {
    var d := Plan(p, outputs).draft;
    PickedIs(p, Stop(p, outputs, 0));
    OutputsAgree(outputs, d.outputs, |outputs|);
  }

  lemma {:induction false} OutputsSizeAtLeast(outputs: seq<Payment>, n: nat)
    requires n <= |outputs|
    ensures OutputsSize(outputs, n) >= 9 * n
  {
    if n > 0 {
      OutputsSizeAtLeast(outputs, n - 1);
    }
  }

  lemma {:induction false} NothingPicked(p: Purse, i: nat)
    requires i <= |p.utxos|
    ensures PickedCount(p, i) == 0 ==> PickedAmount(p, i) == 0
  {
    if i > 0 {
      NothingPicked(p, i - 1);
    }
  }

  /** None of the first i outputs that was picked made the transaction too large. */
  ghost predicate FitsSoFar(p: Purse, outputs: seq<Payment>, i: nat)
    requires i <= |p.utxos|
  {
    forall j {:trigger TooLarge(p, outputs, j)} | 0 < j <= i ::
      Known(p.allTx, p.utxos[j - 1]) ==> !TooLarge(p, outputs, j)
  }

  lemma {:induction false} FitsAfter(p: Purse, outputs: seq<Payment>, i: nat)
    requires i <= |p.utxos| && PickedCount(p, i) > 0 && FitsSoFar(p, outputs, i)
    ensures !TooLarge(p, outputs, i)
  {
    if Known(p.allTx, p.utxos[i - 1]) {
      assert !TooLarge(p, outputs, i);
    } else {
      FitsAfter(p, outputs, i - 1);
    }
  }

  lemma NoOverflowFits(p: Purse, outputs: seq<Payment>, k: nat)
    requires k == Stop(p, outputs, 0) && !Overflows(p, outputs, k)
    ensures FitsSoFar(p, outputs, k)
  {
    StopIs(p, outputs, 0);
    forall j | 0 < j <= k && Known(p.allTx, p.utxos[j - 1]) ensures !TooLarge(p, outputs, j) {
      assert j < k ==> !Halts(p, outputs, j - 1);
    }
  }

  lemma MadeIsDue(p: Purse, outputs: seq<Payment>, k: nat)
    requires k == Stop(p, outputs, 0) && Plan(p, outputs).Made?
    ensures !Overflows(p, outputs, k) && PickedAmount(p, k) >= OutputsAmount(outputs, |outputs|) + FeeAt(p, outputs, k)
  {
  }

  /** A made transaction has inputs, its fee is rounded, and it fits; so there are far fewer than 65535 payments. */
  lemma MadeFits(p: Purse, outputs: seq<Payment>, k: nat)
    requires k == Stop(p, outputs, 0) && Plan(p, outputs).Made?
    ensures FeeAt(p, outputs, k) == RoundedFee(p, outputs, k) && |outputs| < 65535
  {
    MadeIsDue(p, outputs, k);
    FeeIs(p, outputs, k);
    FeeIsPositive(p, outputs, k);
    NothingPicked(p, k);
    NoOverflowFits(p, outputs, k);
    FitsAfter(p, outputs, k);
    OutputsSizeAtLeast(outputs, |outputs|);
  }

  lemma FeeIsPositive(p: Purse, outputs: seq<Payment>, i: nat)
    requires i <= |p.utxos|
    ensures BaseFee(p, outputs, i) > 0
  {
  }

  /** After i outputs enough is gathered: exactly what is due, or so much more that change can be given. */
  ghost predicate EnoughAfter(p: Purse, outputs: seq<Payment>, i: nat)
    requires 0 < i <= |p.utxos|
  {
    Known(p.allTx, p.utxos[i - 1]) && Enough(p, outputs, i)
  }

  lemma {:induction false} StopsOnlyForEnough(p: Purse, outputs: seq<Payment>, i: nat)
    requires i <= |p.utxos| && FitsSoFar(p, outputs, |p.utxos|)
    ensures var k := Stop(p, outputs, i);
      && (k == |p.utxos| || (k > 0 && EnoughAfter(p, outputs, k)))
      && ((exists j | i < j <= |p.utxos| :: EnoughAfter(p, outputs, j)) ==> k > 0 && EnoughAfter(p, outputs, k))
    decreases |p.utxos| - i
  {
    if i < |p.utxos| {
      assert Known(p.allTx, p.utxos[i]) ==> !TooLarge(p, outputs, i + 1);
      assert Halts(p, outputs, i) <==> EnoughAfter(p, outputs, i + 1);
      if !Halts(p, outputs, i) {
        StopsOnlyForEnough(p, outputs, i + 1);
      }
    }
  }

  lemma PlanWithout(p: Purse, outputs: seq<Payment>, k: nat)
    requires k == Stop(p, outputs, 0) && !Overflows(p, outputs, k)
    ensures Plan(p, outputs).Made? <==>
            |outputs| > 0 && PickedAmount(p, k) >= OutputsAmount(outputs, |outputs|) + FeeAt(p, outputs, k)
  {
  }

  /** If all known outputs fit into one transaction, one is made if and only if there is a payment, and enough is
      gathered at some point, or everything together covers the payments and the fee. */
  lemma MadeIff(p: Purse, outputs: seq<Payment>)
    requires FitsSoFar(p, outputs, |p.utxos|)
    ensures Plan(p, outputs).Made? <==>
      && |outputs| > 0
      && ((exists i | 0 < i <= |p.utxos| :: EnoughAfter(p, outputs, i)) ||
          PickedAmount(p, |p.utxos|) >= OutputsAmount(outputs, |outputs|) + FeeAt(p, outputs, |p.utxos|))
  {
    var k := Stop(p, outputs, 0);
    StopsOnlyForEnough(p, outputs, 0);
    assert k > 0 && Known(p.allTx, p.utxos[k - 1]) ==> !TooLarge(p, outputs, k);
    PlanWithout(p, outputs, k);
  }

  /** Two more bytes cost nothing, or rounding the rest of the balance down to full hundreds yields their cost. */
  predicate RoundingCovers(p: Purse, total: nat, size: nat) {
    var fee, owed := TxFee(p.feePerKb, size), TxFee(p.feePerKb, size + 2);
    owed == fee || (p.balance > total + fee && (p.balance - (total + fee)) % 100 >= owed - fee)
  }

  lemma LongerCount(p: Purse, n: nat, size: nat, total: nat)
    requires n < 65535
    ensures var longer := size + VarIntSize(n + 1) - VarIntSize(n);
      Rounded(p.balance, total, TxFee(p.feePerKb, size)) >= TxFee(p.feePerKb, longer) <==>
      n != 252 || RoundingCovers(p, total, size)
  {
    TxFeeGrows(p.feePerKb, size, size + 2);
  }

  /** When a made transaction with change pays the fee for its own size. */
  lemma ChangePaysFeeIff(p: Purse, outputs: seq<Payment>, d: Draft, k: nat, size: nat)
    requires k == Stop(p, outputs, 0) && Plan(p, outputs) == Made(d) && |d.outputs| > |outputs|
    requires size == Size(|d.inputs|, outputs) + TX_OUTPUT_SIZE
    ensures Paid(p, d) >= TxFee(p.feePerKb, Size(|d.inputs|, d.outputs)) <==>
            |outputs| != 252 || RoundingCovers(p, OutputsAmount(outputs, |outputs|), size)
  {
    MadeKeepsPayments(p, outputs);
    MadeFits(p, outputs, k);
    PickedIs(p, k);
    SizeWithChange(p, outputs);
    LongerCount(p, |outputs|, size, OutputsAmount(outputs, |outputs|));
  }

  /** When a made transaction pays the fee for its own size: if it has no change, or if there are not 252 payments, or
      if the rounding covers the two bytes of the longer count. */
  lemma PaysFeeIff(p: Purse, outputs: seq<Payment>)
    requires Plan(p, outputs).Made?
    ensures var d := Plan(p, outputs).draft;
      Paid(p, d) >= TxFee(p.feePerKb, Size(|d.inputs|, d.outputs)) <==>
      || |d.outputs| == |outputs| || |outputs| != 252
      || RoundingCovers(p, OutputsAmount(outputs, |outputs|), Size(|d.inputs|, outputs) + TX_OUTPUT_SIZE)
  {
    var d := Plan(p, outputs).draft;
    MadeKeepsPayments(p, outputs);
    if |d.outputs| > |outputs| {
      ChangePaysFeeIff(p, outputs, d, Stop(p, outputs, 0), Size(|d.inputs|, outputs) + TX_OUTPUT_SIZE);
    } else {
      MadePaysFee(p, outputs);
    }
  }

  /** Fewer than 252 payments always pay the fee. */
  lemma FewPaymentsPayFee(p: Purse, outputs: seq<Payment>)
    requires Plan(p, outputs).Made? && |outputs| < 252
    ensures var d := Plan(p, outputs).draft; Paid(p, d) >= TxFee(p.feePerKb, Size(|d.inputs|, d.outputs))
  {
    PaysFeeIff(p, outputs);
  }

  /** Without change it overpays by no more than the rounding and the smallest change. */
  lemma MadeOverpaysLittle(p: Purse, outputs: seq<Payment>)
    requires Plan(p, outputs).Made? && |Plan(p, outputs).draft.outputs| == |outputs|
    ensures var d := Plan(p, outputs).draft;
      Paid(p, d) <= TxFee(p.feePerKb, Size(|d.inputs|, outputs) + TX_OUTPUT_SIZE) + 99 + MinOutputAmount(p.feePerKb)
  {
    MadeKeepsPayments(p, outputs);
    MadeSize(p, outputs);
    FeeIs(p, outputs, Stop(p, outputs, 0));
  }

  /** The fee in force when there is change is the rounded one. */
  lemma ChangeFee(p: Purse, outputs: seq<Payment>)
    requires Worth(p.allTx, p.utxos, p.balance)
    requires Plan(p, outputs).Made? && |Plan(p, outputs).draft.outputs| > |outputs|
    ensures var d, k := Plan(p, outputs).draft, Stop(p, outputs, 0);
      var total, fee := OutputsAmount(outputs, |outputs|), BaseFee(p, outputs, k);
      Paid(p, d) == Rounded(p.balance, total, fee) && p.balance > total + fee
  {
    var k := Stop(p, outputs, 0);
    MadeKeepsPayments(p, outputs);
    FeeIs(p, outputs, k);
    PickedWithin(p, |p.utxos|, p.balance);
    PickedGrows(p, k, |p.utxos|);
    PickedPositive(p, k);
  }

  /** With change the wallet is left with a multiple of 100. */
  lemma MadeLeavesHundreds(p: Purse, outputs: seq<Payment>)
    requires Worth(p.allTx, p.utxos, p.balance)
    requires Plan(p, outputs).Made? && |Plan(p, outputs).draft.outputs| > |outputs|
    ensures var d := Plan(p, outputs).draft;
      (p.balance - OutputsAmount(outputs, |outputs|) - Paid(p, d)) % 100 == 0
  {
    ChangeFee(p, outputs);
    RoundedIs(p.balance, OutputsAmount(outputs, |outputs|), BaseFee(p, outputs, Stop(p, outputs, 0)));
  }

  lemma {:induction false} PickedPositive(p: Purse, i: nat)
    requires i <= |p.utxos| && PickedAmount(p, i) > 0
    ensures PickedCount(p, i) > 0
  {
    if i > 0 && !Known(p.allTx, p.utxos[i - 1]) {
      PickedPositive(p, i - 1);
    }
  }

  lemma SizeGrows(a: nat, b: nat, outputs: seq<Payment>)
    requires a <= b
    ensures Size(a, outputs) <= Size(b, outputs)
  {
  }

  /** Sending the maximum to one wallet-style address always succeeds if all inputs together fit in a transaction. */
  lemma SweepSucceeds(p: Purse)
    requires Worth(p.allTx, p.utxos, p.balance) && MaxAmount(p) > 0
    requires !TooLarge(p, [Payment(MaxAmount(p), WALLET_SCRIPT_LEN)], |p.utxos|)
    ensures Plan(p, [Payment(MaxAmount(p), WALLET_SCRIPT_LEN)]).Made?
  {
    var outputs := [Payment(MaxAmount(p), WALLET_SCRIPT_LEN)];
    var k, n := Stop(p, outputs, 0), |p.utxos|;
    StopIs(p, outputs, 0);
    PickedGrows(p, k, n);
    SizeGrows(PickedCount(p, k), PickedCount(p, n), outputs);
    PickedWithin(p, n, p.balance);
    assert OutputsAmount(outputs, 1) == MaxAmount(p);
    assert OutputsSize(outputs, 1) == TX_OUTPUT_SIZE;
    FeeIs(p, outputs, n);
    assert p.balance == MaxAmount(p) + BaseFee(p, outputs, n);
    assert Enough(p, outputs, n);
  }
}
