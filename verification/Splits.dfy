/** What becomes of a payment that does not fit into one transaction (BRWallet.c): the wallet asks itself for less, with
    the last payment cut down to what the outputs that fit bring in. The fee is rounded with the payment, so the smaller
    request may not fit either, and the wallet may ask itself for ever. */
module Splits {
  import opened Options
  import opened Ledger
  import opened VarInts
  import opened CoinSelection
  import Transactions

  /** The payments asked for after n calls, if it comes to that. */
  function Request(p: Purse, outputs: seq<Payment>, n: nat): Option<seq<Payment>> {
    if n == 0 then Some(outputs) else
    match Request(p, outputs, n - 1)
    case None => None
    case Some(asked) => if Plan(p, asked).Split? then Some(Plan(p, asked).payments) else None
  }

  /** Some call returns without another one. */
  ghost predicate Ends(p: Purse, outputs: seq<Payment>) {
    exists n: nat :: Request(p, outputs, n).None?
  }

  // ---- requests that differ in the last amount only ----

  /** The same payments with another last amount. */
  function With(outputs: seq<Payment>, x: nat): (r: seq<Payment>)
    requires outputs != []
    ensures |r| == |outputs|
  {
    outputs[..|outputs| - 1] + [outputs[|outputs| - 1].(amount := x)]
  }

  /** What the payments before the last one come to. */
  function Others(outputs: seq<Payment>): nat
    requires outputs != []
  {
    OutputsAmount(outputs, |outputs| - 1)
  }

  lemma {:induction false} SizesAgree(a: seq<Payment>, b: seq<Payment>, n: nat)
    requires n <= |a| && n <= |b| && forall i | 0 <= i < n :: a[i].scriptLen == b[i].scriptLen
    ensures OutputsSize(a, n) == OutputsSize(b, n)
  {
    if n > 0 {
      SizesAgree(a, b, n - 1);
    }
  }

  lemma WithIs(outputs: seq<Payment>, x: nat)
    requires outputs != []
    ensures OutputsAmount(With(outputs, x), |outputs|) == Others(outputs) + x
    ensures forall n: nat :: Size(n, With(outputs, x)) == Size(n, outputs)
  {
    var o := With(outputs, x);
    OutputsAgree(o, outputs, |outputs| - 1);
    SizesAgree(o, outputs, |outputs|);
  }

  /** Sizes, and the fees before rounding, do not depend on the last amount. */
  lemma WithFees(p: Purse, outputs: seq<Payment>, x: nat, i: nat)
    requires outputs != [] && i <= |p.utxos|
    ensures BaseFee(p, With(outputs, x), i) == BaseFee(p, outputs, i)
    ensures TooLarge(p, With(outputs, x), i) == TooLarge(p, outputs, i)
    ensures RoundedFee(p, With(outputs, x), i) == Rounded(p.balance, Others(outputs) + x, BaseFee(p, outputs, i))
  {
    WithIs(outputs, x);
  }

  // ---- where the search stops ----

  lemma {:induction false} StopReached(p: Purse, outputs: seq<Payment>, i: nat, k: nat)
    requires i < k <= |p.utxos| && Halts(p, outputs, k - 1) && forall j | i <= j < k - 1 :: !Halts(p, outputs, j)
    ensures Stop(p, outputs, i) == k
    decreases k - i
  {
    if i + 1 < k {
      StopReached(p, outputs, i + 1, k);
    }
  }

  /** The k-th output is the first one that makes the transaction too large. */
  ghost predicate FirstTooLarge(p: Purse, outputs: seq<Payment>, k: nat) {
    && 0 < k <= |p.utxos| && Known(p.allTx, p.utxos[k - 1]) && TooLarge(p, outputs, k)
    && forall j {:trigger TooLarge(p, outputs, j)} | 0 < j < k ::
         Known(p.allTx, p.utxos[j - 1]) ==> !TooLarge(p, outputs, j)
  }

  /** Every output that fits, and all that follow it and fit, bring in more than they cost in fees. */
  ghost predicate Worthwhile(p: Purse, outputs: seq<Payment>, k: nat)
    requires 0 < k <= |p.utxos|
  {
    forall j {:trigger PickedAmount(p, j)} | 0 < j < k && PickedCount(p, j) < PickedCount(p, k - 1) ::
      PickedAmount(p, j) + BaseFee(p, outputs, k - 1) + 99 < PickedAmount(p, k - 1) + BaseFee(p, outputs, j)
  }

  /** The wallet covers the request that is left, and that leaves more than the least output to the last payment. */
  ghost predicate Ample(p: Purse, outputs: seq<Payment>, b: nat, base: nat)
    requires outputs != []
  {
    && b <= p.balance && b > Others(outputs) + base + MinOutputAmount(p.feePerKb) + 198
    && p.balance + base >= b + TxFee(p.feePerKb, 10 + |p.utxos| * Transactions.TX_INPUT_SIZE +
                                                 (|outputs| + 1) * TX_OUTPUT_SIZE)
  }

  /** The k-th output is too much, and the payments fit what the outputs before bring in, up to the last one. */
  ghost predicate Cut(p: Purse, outputs: seq<Payment>, k: nat) {
    && outputs != [] && FirstTooLarge(p, outputs, k) && Worthwhile(p, outputs, k)
    && Ample(p, outputs, PickedAmount(p, k - 1), BaseFee(p, outputs, k - 1))
  }

  // ---- the fee of a request that has been cut ----

  /** A total that leaves the outputs worth b just enough for a fee between base and base + 99. */
  predicate Near(b: nat, base: nat, total: nat) {
    total + base <= b <= total + base + 99
  }

  lemma NearFee(balance: nat, b: nat, base: nat, total: nat)
    requires b <= balance && Near(b, base, total)
    ensures Rounded(balance, total, base) == base + (balance - total - base) % 100
  {
  }

  lemma SumMod(x: int, y: int)
    requires 0 <= y < 100
    ensures (x + y) % 100 == y <==> x % 100 == 0
  {
  }

  /** If the payment and the fee are worth exactly b, the rest of the balance is a multiple of 100; if that is one, the
      payment that is left after a cut fits exactly. */
  lemma ExactIff(balance: nat, b: nat, base: nat, total: nat)
    requires b <= balance && Near(b, base, total) && base + 99 <= b
    ensures var fee := Rounded(balance, total, base);
      && fee <= b && Near(b, base, b - fee)
      && (total + fee == b ==> (balance - b) % 100 == 0)
      && ((balance - b) % 100 == 0 <==> b - fee + Rounded(balance, b - fee, base) == b)
  {
    NearFee(balance, b, base, total);
    var r := (balance - total - base) % 100;
    var fee := base + r;
    assert 0 <= r < 100;
    NearFee(balance, b, base, b - fee);
    SumMod(balance - b, r);
    assert balance - (b - fee) - base == balance - b + r;
    if total + fee == b {
      assert balance - b == balance - total - base - r;
      SumMod(balance - b, r);
    }
  }

  // ---- picking ----

  /** The last picked output among the first i. */
  lemma {:induction false} LastPick(p: Purse, i: nat) returns (j: nat)
    requires i <= |p.utxos| && PickedCount(p, i) > 0
    ensures j < i && Known(p.allTx, p.utxos[j])
    ensures PickedCount(p, j + 1) == PickedCount(p, i) && PickedAmount(p, j + 1) == PickedAmount(p, i)
  {
    if Known(p.allTx, p.utxos[i - 1]) {
      j := i - 1;
    } else {
      j := LastPick(p, i - 1);
    }
  }

  lemma {:induction false} SameCount(p: Purse, i: nat, j: nat)
    requires i <= j <= |p.utxos| && PickedCount(p, i) == PickedCount(p, j)
    ensures PickedAmount(p, i) == PickedAmount(p, j)
  {
    if i < j {
      PickedGrows(p, i, j - 1);
      SameCount(p, i, j - 1);
    }
  }

  lemma CutPicks(p: Purse, outputs: seq<Payment>, k: nat)
    requires Cut(p, outputs, k)
    ensures PickedCount(p, k - 1) > 0
  {
    NothingPicked(p, k - 1);
  }

  // ---- what comes of a request that has been cut ----

  /** The request asks for x last, and its total is near what the outputs that fit bring in. */
  ghost predicate Asks(p: Purse, outputs: seq<Payment>, k: nat, x: nat)
    requires Cut(p, outputs, k)
  {
    Near(PickedAmount(p, k - 1), BaseFee(p, outputs, k - 1), Others(outputs) + x)
  }

  /** The fee of such a request. */
  ghost function FeeOf(p: Purse, outputs: seq<Payment>, k: nat, x: nat): nat
    requires Cut(p, outputs, k)
  {
    Rounded(p.balance, Others(outputs) + x, BaseFee(p, outputs, k - 1))
  }

  /** It is met exactly by the outputs that fit. */
  ghost predicate Exact(p: Purse, outputs: seq<Payment>, k: nat, x: nat)
    requires Cut(p, outputs, k)
  {
    Others(outputs) + x + FeeOf(p, outputs, k, x) == PickedAmount(p, k - 1)
  }

  lemma FeeAtPrefix(p: Purse, outputs: seq<Payment>, k: nat, x: nat, i: nat)
    requires Cut(p, outputs, k) && i <= |p.utxos| && PickedCount(p, i) == PickedCount(p, k - 1)
    ensures FeeAt(p, With(outputs, x), i) == FeeOf(p, outputs, k, x)
  {
    CutPicks(p, outputs, k);
    FeeIs(p, With(outputs, x), i);
    WithFees(p, outputs, x, i);
    assert BaseFee(p, outputs, i) == BaseFee(p, outputs, k - 1);
  }

  /** With fewer outputs there is never enough; with all that fit only if they meet the request exactly. */
  lemma EnoughIff(p: Purse, outputs: seq<Payment>, k: nat, x: nat, i: nat)
    requires Cut(p, outputs, k) && Asks(p, outputs, k, x) && 0 < i < k
    ensures Enough(p, With(outputs, x), i) <==>
            PickedCount(p, i) == PickedCount(p, k - 1) && Exact(p, outputs, k, x)
  {
    var o := With(outputs, x);
    WithIs(outputs, x);
    WithFees(p, outputs, x, i);
    PickedGrows(p, i, k - 1);
    FeeIs(p, o, i);
    if PickedCount(p, i) == PickedCount(p, k - 1) {
      SameCount(p, i, k - 1);
      FeeAtPrefix(p, outputs, k, x, i);
      RoundedIs(p.balance, Others(outputs) + x, BaseFee(p, outputs, k - 1));
    }
  }

  lemma HaltsIff(p: Purse, outputs: seq<Payment>, k: nat, x: nat, j: nat)
    requires Cut(p, outputs, k) && Asks(p, outputs, k, x) && j + 1 < k
    ensures Halts(p, With(outputs, x), j) <==>
            Known(p.allTx, p.utxos[j]) && PickedCount(p, j + 1) == PickedCount(p, k - 1) && Exact(p, outputs, k, x)
  {
    EnoughIff(p, outputs, k, x, j + 1);
    WithFees(p, outputs, x, j + 1);
    assert Known(p.allTx, p.utxos[j]) ==> !TooLarge(p, outputs, j + 1);
  }

  /** A request that is met exactly does not lead to another one. */
  lemma ExactEnds(p: Purse, outputs: seq<Payment>, k: nat, x: nat)
    requires Cut(p, outputs, k) && Asks(p, outputs, k, x) && Exact(p, outputs, k, x)
    ensures !Plan(p, With(outputs, x)).Split?
  {
    var o := With(outputs, x);
    CutPicks(p, outputs, k);
    var j := LastPick(p, k - 1);
    HaltsIff(p, outputs, k, x, j);
    StopIs(p, o, 0);
    var s := Stop(p, o, 0);
    if s > 0 && Known(p.allTx, p.utxos[s - 1]) {
      WithFees(p, outputs, x, s);
    }
  }

  lemma StopsAtCut(p: Purse, outputs: seq<Payment>, k: nat, x: nat)
    requires Cut(p, outputs, k) && Asks(p, outputs, k, x) && !Exact(p, outputs, k, x)
    ensures Stop(p, With(outputs, x), 0) == k && Overflows(p, With(outputs, x), k)
  {
    var o := With(outputs, x);
    WithFees(p, outputs, x, k);
    forall j: nat | j < k - 1 ensures !Halts(p, o, j) {
      HaltsIff(p, outputs, k, x, j);
    }
    StopReached(p, o, 0, k);
  }

  /** The last payment of the next request. */
  ghost function NextLast(p: Purse, outputs: seq<Payment>, k: nat, x: nat): int
    requires Cut(p, outputs, k)
  {
    PickedAmount(p, k - 1) - FeeOf(p, outputs, k, x) - Others(outputs)
  }

  lemma WithTwice(outputs: seq<Payment>, x: nat, y: nat)
    requires outputs != []
    ensures With(With(outputs, x), y) == With(outputs, y)
  {
  }

  /** Any other asks for what the outputs bring in less its own fee; that is near again. */
  lemma CutAgain(p: Purse, outputs: seq<Payment>, k: nat, x: nat)
    requires Cut(p, outputs, k) && Asks(p, outputs, k, x) && !Exact(p, outputs, k, x)
    ensures var y := NextLast(p, outputs, k, x);
      y >= 0 && Asks(p, outputs, k, y) && Plan(p, With(outputs, x)) == Split(With(outputs, y))
  {
    var o := With(outputs, x);
    var y := NextLast(p, outputs, k, x);
    var b, base := PickedAmount(p, k - 1), BaseFee(p, outputs, k - 1);
    StopsAtCut(p, outputs, k, x);
    WithIs(outputs, x);
    FeeAtPrefix(p, outputs, k, x, k - 1);
    RoundedIs(p.balance, Others(outputs) + x, base);
    ExactIff(p.balance, b, base, Others(outputs) + x);
    WithTwice(outputs, x, y);
    assert WithLast(o, Others(outputs) + x + FeeOf(p, outputs, k, x), b, MinOutputAmount(p.feePerKb)) == With(o, y);
  }

  // ---- whether it ends ----

  /** What stays in the wallet when the outputs that fit are spent. */
  ghost function Left(p: Purse, k: nat): int
    requires 0 < k <= |p.utxos|
  {
    p.balance - PickedAmount(p, k - 1)
  }

  lemma ExactLeaves(p: Purse, outputs: seq<Payment>, k: nat, x: nat)
    requires Cut(p, outputs, k) && Asks(p, outputs, k, x) && Exact(p, outputs, k, x)
    ensures Left(p, k) % 100 == 0
  {
    ExactIff(p.balance, PickedAmount(p, k - 1), BaseFee(p, outputs, k - 1), Others(outputs) + x);
  }

  lemma NextIsExactIff(p: Purse, outputs: seq<Payment>, k: nat, x: nat, y: nat)
    requires Cut(p, outputs, k) && Asks(p, outputs, k, x) && y == NextLast(p, outputs, k, x)
    ensures Exact(p, outputs, k, y) <==> Left(p, k) % 100 == 0
  {
    ExactIff(p.balance, PickedAmount(p, k - 1), BaseFee(p, outputs, k - 1), Others(outputs) + x);
  }

  /** If what stays is not a multiple of 100, every call leads to another one. */
  lemma {:induction false} AsksOn(p: Purse, outputs: seq<Payment>, k: nat, x: nat, n: nat) returns (y: nat)
    requires Cut(p, outputs, k) && Asks(p, outputs, k, x) && Left(p, k) % 100 != 0
    ensures Asks(p, outputs, k, y) && Request(p, With(outputs, x), n) == Some(With(outputs, y))
  {
    if n == 0 {
      y := x;
    } else {
      var z := AsksOn(p, outputs, k, x, n - 1);
      if Exact(p, outputs, k, z) {
        ExactLeaves(p, outputs, k, z);
      }
      CutAgain(p, outputs, k, z);
      y := NextLast(p, outputs, k, z);
    }
  }

  /** A request that has been cut is met if and only if what stays in the wallet is a multiple of 100. */
  lemma NearEndsIff(p: Purse, outputs: seq<Payment>, k: nat, x: nat)
    requires Cut(p, outputs, k) && Asks(p, outputs, k, x)
    ensures Ends(p, With(outputs, x)) <==> Left(p, k) % 100 == 0
  {
    var o := With(outputs, x);
    if Left(p, k) % 100 == 0 {
      assert Request(p, o, 0) == Some(o);
      if Exact(p, outputs, k, x) {
        ExactEnds(p, outputs, k, x);
        assert Request(p, o, 1).None?;
      } else {
        CutAgain(p, outputs, k, x);
        var y := NextLast(p, outputs, k, x);
        NextIsExactIff(p, outputs, k, x, y);
        ExactEnds(p, outputs, k, y);
        assert Request(p, o, 1) == Some(With(outputs, y));
        assert Request(p, o, 2).None?;
      }
    } else {
      forall n: nat ensures Request(p, o, n).Some? {
        var y := AsksOn(p, outputs, k, x, n);
      }
    }
  }

  lemma {:induction false} OneLater(p: Purse, outputs: seq<Payment>, next: seq<Payment>, n: nat)
    requires Plan(p, outputs) == Split(next)
    ensures Request(p, outputs, n + 1) == Request(p, next, n)
  {
    if n > 0 {
      OneLater(p, outputs, next, n - 1);
    }
  }

  lemma EndsLater(p: Purse, outputs: seq<Payment>, next: seq<Payment>)
    requires Plan(p, outputs) == Split(next)
    ensures Ends(p, outputs) <==> Ends(p, next)
  {
    if n: nat :| Request(p, outputs, n).None? {
      OneLater(p, outputs, next, n - 1);
    }
    if n: nat :| Request(p, next, n).None? {
      OneLater(p, outputs, next, n);
    }
  }

  /** A request is split at the first output that is too much. If the last payment is kept, the request that is left
      comes to what the outputs before bring in, less the fee; the last payment is raised if they bring in more than is
      due. */
  lemma CutIs(p: Purse, outputs: seq<Payment>, next: seq<Payment>, k: nat)
    requires Plan(p, outputs) == Split(next) && |next| == |outputs| && k == Stop(p, outputs, 0)
    ensures FirstTooLarge(p, outputs, k)
    ensures var due := OutputsAmount(outputs, |outputs|) + FeeAt(p, outputs, k - 1);
      var last := outputs[|outputs| - 1].amount;
      && last >= due - PickedAmount(p, k - 1) && next == With(outputs, last - (due - PickedAmount(p, k - 1)))
      && OutputsAmount(next, |next|) == PickedAmount(p, k - 1) - FeeAt(p, outputs, k - 1)
      && (next[|next| - 1].amount > last <==> PickedAmount(p, k - 1) > due)
  {
    var due := OutputsAmount(outputs, |outputs|) + FeeAt(p, outputs, k - 1);
    WithIs(outputs, outputs[|outputs| - 1].amount - (due - PickedAmount(p, k - 1)));
    StopIs(p, outputs, 0);
    forall j | 0 < j < k && Known(p.allTx, p.utxos[j - 1]) ensures !TooLarge(p, outputs, j) {
      assert !Halts(p, outputs, j - 1);
    }
  }

  /** So it is a cut request, near what the outputs bring in. */
  lemma NextAsks(p: Purse, outputs: seq<Payment>, next: seq<Payment>, k: nat) returns (x: nat)
    requires Plan(p, outputs) == Split(next) && |next| == |outputs| && k == Stop(p, outputs, 0)
    requires k > 0 && Worthwhile(p, outputs, k)
    requires Ample(p, outputs, PickedAmount(p, k - 1), BaseFee(p, outputs, k - 1))
    ensures Cut(p, outputs, k) && Asks(p, outputs, k, x) && next == With(outputs, x)
  {
    CutIs(p, outputs, next, k);
    var due := OutputsAmount(outputs, |outputs|) + FeeAt(p, outputs, k - 1);
    x := outputs[|outputs| - 1].amount - (due - PickedAmount(p, k - 1));
    WithIs(outputs, x);
    FeeIs(p, outputs, k - 1);
  }

  /** When an output is too much, the others never bring in the least output more than is due: the difference that the
      last payment is compared with is not negative. */
  lemma CutDoesNotWrap(p: Purse, outputs: seq<Payment>, k: nat)
    requires k == Stop(p, outputs, 0) && Overflows(p, outputs, k)
    ensures PickedAmount(p, k - 1) <
            OutputsAmount(outputs, |outputs|) + FeeAt(p, outputs, k - 1) + MinOutputAmount(p.feePerKb)
  {
    StopIs(p, outputs, 0);
    NothingPicked(p, k - 1);
    if PickedCount(p, k - 1) > 0 {
      var j := LastPick(p, k - 1);
      assert !Halts(p, outputs, j);
      FeeIs(p, outputs, k - 1);
      FeeIs(p, outputs, j + 1);
    }
  }

  /** If the payments fit what the outputs that fit bring in, up to the last one, and these are worth their fees, the
      wallet stops asking itself for less if and only if what stays in it is a multiple of 100. */
  lemma EndsIff(p: Purse, outputs: seq<Payment>, next: seq<Payment>, k: nat)
    requires Plan(p, outputs) == Split(next) && |next| == |outputs| && k == Stop(p, outputs, 0)
    requires k > 0 && Worthwhile(p, outputs, k)
    requires Ample(p, outputs, PickedAmount(p, k - 1), BaseFee(p, outputs, k - 1))
    ensures Ends(p, outputs) <==> Left(p, k) % 100 == 0
  {
    var x := NextAsks(p, outputs, next, k);
    NearEndsIff(p, outputs, k, x);
    EndsLater(p, outputs, next);
  }

  // ---- a wallet that never stops asking ----

  /** 700 outputs of 100001 each; the fee is five for a byte. */
  ghost predicate IsUniform(p: Purse) {
    && |p.utxos| == 700 && p.feePerKb == 5000 && p.balance == 70000700
    && forall i | 0 <= i < 700 :: Known(p.allTx, p.utxos[i]) && Amount(p.allTx, p.utxos[i]) == 100001
  }

  lemma {:induction false} UniformPicks(p: Purse, i: nat)
    requires IsUniform(p) && i <= 700
    ensures PickedCount(p, i) == i && PickedAmount(p, i) == 100001 * i
  {
    if i > 0 {
      UniformPicks(p, i - 1);
    }
  }

  function Wanted(): (r: seq<Payment>)
    ensures |r| == 1
  {
    [Payment(68000000, WALLET_SCRIPT_LEN)]
  }

  lemma WantedSize(outputs: seq<Payment>, n: nat)
    requires outputs == Wanted()
    ensures Size(n, outputs) == 43 + VarIntSize(n) + 148 * n && OutputsAmount(outputs, 1) == 68000000
    ensures Others(outputs) == 0
  {
    assert OutputsSize(outputs, 0) == 0 && OutputsAmount(outputs, 0) == 0;
  }

  lemma FeeAtLeast(size: nat)
    ensures TxFee(5000, size) >= 5 * size
  {
  }

  lemma UniformPrefix(p: Purse, outputs: seq<Payment>, i: nat)
    requires IsUniform(p) && outputs == Wanted() && i <= 700
    ensures TooLarge(p, outputs, i) <==> i >= 676
    ensures i < 676 ==> !Enough(p, outputs, i) && BaseFee(p, outputs, i) >= 740 * i + 390
  {
    UniformPicks(p, i);
    WantedSize(outputs, i);
    FeeAtLeast(Size(i, outputs) + TX_OUTPUT_SIZE);
  }

  lemma UniformStops(p: Purse, outputs: seq<Payment>)
    requires IsUniform(p) && outputs == Wanted()
    ensures Stop(p, outputs, 0) == 676 && Overflows(p, outputs, 676)
  {
    forall j | 0 <= j < 675 ensures !Halts(p, outputs, j) {
      UniformPrefix(p, outputs, j + 1);
    }
    UniformPrefix(p, outputs, 676);
    StopReached(p, outputs, 0, 676);
  }

  lemma UniformBase(p: Purse, outputs: seq<Payment>)
    requires IsUniform(p) && outputs == Wanted()
    ensures PickedAmount(p, 675) == 67500675 && BaseFee(p, outputs, 675) == 499900
    ensures MinOutputAmount(p.feePerKb) == 2730 && Others(outputs) == 0
    ensures TxFee(p.feePerKb, 10 + |p.utxos| * Transactions.TX_INPUT_SIZE + (|outputs| + 1) * TX_OUTPUT_SIZE) == 518400
  {
    UniformPicks(p, 675);
    WantedSize(outputs, 675);
  }

  lemma UniformSplits(p: Purse, outputs: seq<Payment>)
    requires IsUniform(p) && outputs == Wanted()
    ensures Plan(p, outputs).Split? && |Plan(p, outputs).payments| == |outputs|
  {
    UniformStops(p, outputs);
    UniformBase(p, outputs);
    WantedSize(outputs, 675);
    FeeIs(p, outputs, 675);
  }

  lemma UniformIsWorthwhile(p: Purse, outputs: seq<Payment>)
    requires IsUniform(p) && outputs == Wanted()
    ensures Worthwhile(p, outputs, 676)
  {
    UniformBase(p, outputs);
    forall j | 0 < j < 676 && PickedCount(p, j) < PickedCount(p, 675)
      ensures PickedAmount(p, j) + BaseFee(p, outputs, 675) + 99 < PickedAmount(p, 675) + BaseFee(p, outputs, j)
    {
      UniformPicks(p, j);
      UniformPicks(p, 675);
      UniformPrefix(p, outputs, j);
    }
  }

  /** A payment of 0.68 from 0.700007 in 700 equal outputs is never made, and never refused. */
  lemma NeverEnds(p: Purse, outputs: seq<Payment>)
    requires IsUniform(p) && outputs == Wanted()
    ensures !Ends(p, outputs)
  {
    UniformStops(p, outputs);
    UniformBase(p, outputs);
    UniformSplits(p, outputs);
    UniformIsWorthwhile(p, outputs);
    EndsIff(p, outputs, Plan(p, outputs).payments, 676);
  }
}
