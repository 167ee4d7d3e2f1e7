/** How long transactions are, and that parsing restores no others than those that can be told (BRTransaction.c). */
module TransactionSize {

  import opened Bytes
  import opened Options
  import opened VarInts
  import opened Scripts
  import opened Transactions
  import opened TransactionParse
  import opened TransactionRoundTrip

  function Sum(sizes: seq<nat>, n: nat): nat
    requires n <= |sizes|
  {
    if n == 0 then 0 else Sum(sizes, n - 1) + sizes[n - 1]
  }

  lemma {:induction false} JoinedLength(pieces: seq<seq<Byte>>, sizes: seq<nat>, n: nat)
    requires n <= |pieces| == |sizes| && forall k | 0 <= k < n :: |pieces[k]| == sizes[k]
    ensures |Joined(pieces, n)| == Sum(sizes, n)
  {
    if n > 0 {
      JoinedLength(pieces, sizes, n - 1);
    }
  }

  // ---- BRTransactionSize ----

  /** A signed input counts with its signature, an unsigned one with an estimate. */
  function InputSize(i: Input): nat {
    if i.signature.Some? then 32 + 4 + VarIntSize(|i.signature.value|) + |i.signature.value| + 4 else TX_INPUT_SIZE
  }

  function OutputSize(o: Output): nat {
    8 + VarIntSize(|o.script|) + |o.script|
  }

  function InputSizes(inputs: seq<Input>): (r: seq<nat>)
    ensures |r| == |inputs| && forall k | 0 <= k < |inputs| :: r[k] == InputSize(inputs[k])
  {
    seq(|inputs|, k requires 0 <= k < |inputs| => InputSize(inputs[k]))
  }

  function OutputSizes(outputs: seq<Output>): (r: seq<nat>)
    ensures |r| == |outputs| && forall k | 0 <= k < |outputs| :: r[k] == OutputSize(outputs[k])
  {
    seq(|outputs|, k requires 0 <= k < |outputs| => OutputSize(outputs[k]))
  }

  /** The size in bytes if all inputs are signed, otherwise an estimate. */
  function Size(tx: Tx): nat {
    8 + VarIntSize(|tx.inputs|) + VarIntSize(|tx.outputs|) + Sum(InputSizes(tx.inputs), |tx.inputs|)
    + Sum(OutputSizes(tx.outputs), |tx.outputs|)
  }

  method TransactionSize(tx: Tx) returns (size: nat)
    ensures size == Size(tx)
  {
    size := 8 + VarIntSize(|tx.inputs|) + VarIntSize(|tx.outputs|);
    ghost var start, ins, outs := size, InputSizes(tx.inputs), OutputSizes(tx.outputs);
    for i := 0 to |tx.inputs|
      invariant size == start + Sum(ins, i)
    {
      if tx.inputs[i].signature.Some? {
        var len := |tx.inputs[i].signature.value|;
        size := size + 32 + 4 + VarIntSize(len) + len + 4;
      } else {
        size := size + TX_INPUT_SIZE;
      }
    }
    start := size;
    for i := 0 to |tx.outputs|
      invariant size == start + Sum(outs, i)
    {
      size := size + 8 + VarIntSize(|tx.outputs[i].script|) + |tx.outputs[i].script|;
    }
  }

  lemma OutputLength(o: Output)
    requires Counted(o.script)
    ensures |OutputBytes(o)| == OutputSize(o)
  {
  }

  lemma InputLength(i: Input)
    requires InputOk(i)
    ensures |InputBytes(i)| == 40 + VarIntSize(|ScriptOf(i)|) + |ScriptOf(i)| + |AmountBytes(i)|
    ensures i.signature.Some? ==> |InputBytes(i)| == InputSize(i)
  {
  }

  lemma OutputsLength(outputs: seq<Output>)
    requires OutputsOk(outputs)
    ensures |OutputsBytes(outputs)| == Sum(OutputSizes(outputs), |outputs|)
  {
    var pieces := OutputPieces(outputs);
    forall k | 0 <= k < |outputs| ensures |pieces[k]| == OutputSize(outputs[k]) {
      OutputLength(outputs[k]);
    }
    JoinedLength(pieces, OutputSizes(outputs), |outputs|);
  }

  lemma TxLength(tx: Tx)
    requires TxOk(tx)
    ensures |TxBytes(tx)| ==
            8 + VarIntSize(|tx.inputs|) + VarIntSize(|tx.outputs|) + |InputsBytes(tx.inputs)|
            + |OutputsBytes(tx.outputs)|
  {
  }

  lemma InputsLength(inputs: seq<Input>)
    requires InputsOk(inputs) && AllSigned(inputs)
    ensures |InputsBytes(inputs)| == Sum(InputSizes(inputs), |inputs|)
  {
    var pieces := InputPieces(inputs);
    forall k | 0 <= k < |inputs| ensures |pieces[k]| == InputSize(inputs[k]) {
      InputLength(inputs[k]);
    }
    JoinedLength(pieces, InputSizes(inputs), |inputs|);
  }

  /** The size of a signed transaction is the number of bytes it is written in. */
  lemma SizeIsLength(tx: Tx)
    requires TxOk(tx) && AllSigned(tx.inputs)
    ensures Size(tx) == |TxBytes(tx)|
  {
    TxLength(tx);
    InputsLength(tx.inputs);
    OutputsLength(tx.outputs);
  }

  /** One signature is as long as another, or takes the place of none and has the usual 107 bytes. */
  predicate SignsAs(i: Input, signed: Input) {
    signed.signature.Some? && |signed.signature.value| == if i.signature.Some? then |i.signature.value| else 107
  }

  ghost predicate AllSignAs(inputs: seq<Input>, signed: seq<Input>) {
    |signed| == |inputs| && forall k | 0 <= k < |inputs| :: SignsAs(inputs[k], signed[k])
  }

  lemma SizesAgree(inputs: seq<Input>, signed: seq<Input>)
    requires AllSignAs(inputs, signed)
    ensures AllSigned(signed) && InputSizes(inputs) == InputSizes(signed)
  {
    forall k | 0 <= k < |inputs| ensures InputSize(inputs[k]) == InputSize(signed[k]) {
      assert SignsAs(inputs[k], signed[k]);
    }
  }

  /** The estimate is the number of bytes that are written once every input has a signature of 107 bytes. */
  lemma EstimateIsExact(tx: Tx, signed: Tx)
    requires TxOk(signed) && signed.outputs == tx.outputs && AllSignAs(tx.inputs, signed.inputs)
    ensures Size(tx) == |TxBytes(signed)|
  {
    SizesAgree(tx.inputs, signed.inputs);
    SizeIsLength(signed);
  }

  // ---- the parser reads no more than there is ----

  /** What the parser reads for an input: an unsigned one always has an amount. */
  function ReadSize(i: Input): nat {
    40 + VarIntSize(|ScriptOf(i)|) + |ScriptOf(i)| + if i.signature.None? then 8 else 0
  }

  function ReadSizes(inputs: seq<Input>): (r: seq<nat>)
    ensures |r| == |inputs| && forall k | 0 <= k < |inputs| :: r[k] == ReadSize(inputs[k])
  {
    seq(|inputs|, k requires 0 <= k < |inputs| => ReadSize(inputs[k]))
  }

  lemma InputTakes(buf: seq<Byte>, o: nat)
    ensures InputAt(buf, o).1 <= |buf| ==> InputAt(buf, o).1 >= o + ReadSize(InputAt(buf, o).0)
  {
    VarIntFits(buf, o + 36);
    InputWithTakes(buf, HashAt(buf, o), UInt32At(buf, o + 32), BehindVarInt(buf, o + 36), VarIntAt(buf, o + 36));
  }

  lemma InputWithTakes(buf: seq<Byte>, hash: seq<Byte>, index: UInt32, o: nat, n: nat)
    ensures var (i, e) := InputWith(buf, hash, index, o, n);
      e <= |buf| ==> e >= o + n + 4 + (if i.signature.None? then 8 else 0) && |ScriptOf(i)| == n
  {
  }

  lemma OutputTakes(buf: seq<Byte>, o: nat)
    ensures OutputAt(buf, o).1 <= |buf| ==> OutputAt(buf, o).1 >= o + OutputSize(OutputAt(buf, o).0)
  {
    VarIntFits(buf, o + 8);
  }

  /** Each item read takes its size, if it ends within the buffer. */
  ghost predicate Takes<T(!new)>(read: (seq<Byte>, nat) -> (T, nat), buf: seq<Byte>, items: seq<T>, sizes: seq<nat>) {
    && |sizes| == |items|
    && forall k, o | 0 <= k < |items| && read(buf, o).0 == items[k] && read(buf, o).1 <= |buf| ::
         read(buf, o).1 >= o + sizes[k]
  }

  /** Reading items that end within the buffer takes at least their sizes. */
  lemma {:induction false} RepeatTakes<T(!new)>(read: (seq<Byte>, nat) -> (T, nat), buf: seq<Byte>, off: nat, n: nat,
                                                items: seq<T>, sizes: seq<nat>)
    requires n <= |items| && Takes(read, buf, items, sizes)
    requires Repeat(read, buf, off, n).1 <= |buf|
    requires |Repeat(read, buf, off, n).0| == n && forall k | 0 <= k < n :: Repeat(read, buf, off, n).0[k] == items[k]
    ensures Repeat(read, buf, off, n).1 >= off + Sum(sizes, n)
  {
    if n > 0 {
      var (before, o) := Repeat(read, buf, off, n - 1);
      RepeatLength(read, buf, off, n - 1);
      forall k | 0 <= k < n - 1 ensures before[k] == items[k] {
        assert Repeat(read, buf, off, n).0[k] == before[k];
      }
      RepeatTakes(read, buf, off, n - 1, items, sizes);
      assert Repeat(read, buf, off, n).0[n - 1] == read(buf, o).0 == items[n - 1];
    }
  }

  lemma {:induction false} RepeatLength<T>(read: (seq<Byte>, nat) -> (T, nat), buf: seq<Byte>, off: nat, n: nat)
    ensures |Repeat(read, buf, off, n).0| <= n
    ensures Repeat(read, buf, off, n).1 <= |buf| ==> |Repeat(read, buf, off, n).0| == n
  {
    if n > 0 {
      RepeatLength(read, buf, off, n - 1);
    }
  }

  /** What is read as item k does not depend on how many are read. */
  lemma {:induction false} RepeatPrefix<T>(read: (seq<Byte>, nat) -> (T, nat), buf: seq<Byte>, off: nat, n: nat, k: nat)
    requires k < |Repeat(read, buf, off, n).0|
    ensures Repeat(read, buf, off, n).0[k] == read(buf, Repeat(read, buf, off, k).1).0
    ensures k < n && Repeat(read, buf, off, k).1 <= |buf|
  {
    RepeatLength(read, buf, off, n);
    var (before, o) := Repeat(read, buf, off, n - 1);
    RepeatLength(read, buf, off, n - 1);
    if k < |before| {
      RepeatPrefix(read, buf, off, n - 1, k);
    } else {
      assert o <= |buf| && k == n - 1;
    }
  }

  lemma InputsTake(buf: seq<Byte>, inputs: seq<Input>)
    ensures Takes(InputAt, buf, inputs, ReadSizes(inputs))
  {
    forall k, o: nat | 0 <= k < |inputs| && InputAt(buf, o).0 == inputs[k] && InputAt(buf, o).1 <= |buf|
      ensures InputAt(buf, o).1 >= o + ReadSizes(inputs)[k]
    {
      InputTakes(buf, o);
    }
  }

  lemma OutputsTake(buf: seq<Byte>, outputs: seq<Output>)
    ensures Takes(OutputAt, buf, outputs, OutputSizes(outputs))
  {
    forall k, o: nat | 0 <= k < |outputs| && OutputAt(buf, o).0 == outputs[k] && OutputAt(buf, o).1 <= |buf|
      ensures OutputAt(buf, o).1 >= o + OutputSizes(outputs)[k]
    {
      OutputTakes(buf, o);
    }
  }

  lemma AllTake<T(!new)>(read: (seq<Byte>, nat) -> (T, nat), buf: seq<Byte>, off: nat, n: nat, items: seq<T>,
                         sizes: seq<nat>, e: nat)
    requires Repeat(read, buf, off, n) == (items, e) && e <= |buf| && Takes(read, buf, items, sizes)
    ensures |items| == n && e >= off + Sum(sizes, n)
  {
    RepeatLength(read, buf, off, n);
    RepeatTakes(read, buf, off, n, items, sizes);
  }

  lemma InputsReach(buf: seq<Byte>, inputs: seq<Input>, e: nat)
    requires InputsAt(buf, BehindVarInt(buf, 4), VarIntAt(buf, 4)) == (inputs, e) && e <= |buf|
    ensures e >= 4 + VarIntSize(|inputs|) + Sum(ReadSizes(inputs), |inputs|) && |inputs| == VarIntAt(buf, 4)
  {
    InputsTake(buf, inputs);
    AllTake(InputAt, buf, BehindVarInt(buf, 4), VarIntAt(buf, 4), inputs, ReadSizes(inputs), e);
    VarIntFits(buf, 4);
  }

  lemma OutputsReach(buf: seq<Byte>, o: nat, outputs: seq<Output>, e: nat)
    requires OutputsAt(buf, BehindVarInt(buf, o), VarIntAt(buf, o)) == (outputs, e) && e <= |buf|
    ensures e >= o + VarIntSize(|outputs|) + Sum(OutputSizes(outputs), |outputs|)
  {
    OutputsTake(buf, outputs);
    AllTake(OutputAt, buf, BehindVarInt(buf, o), VarIntAt(buf, o), outputs, OutputSizes(outputs), e);
    VarIntFits(buf, o);
  }

  /** How many bytes the parser reads for a transaction. */
  function ReadLength(tx: Tx): nat {
    8 + VarIntSize(|tx.inputs|) + VarIntSize(|tx.outputs|) + Sum(ReadSizes(tx.inputs), |tx.inputs|)
    + Sum(OutputSizes(tx.outputs), |tx.outputs|)
  }

  /** A parsed transaction takes no more bytes than there are. */
  lemma ParsedFits(buf: seq<Byte>)
    requires Parsed(buf).Some?
    ensures ReadLength(Parsed(buf).value.tx) <= |buf|
  {
    var (inputs, o) := InputsAt(buf, BehindVarInt(buf, 4), VarIntAt(buf, 4));
    var (outputs, e) := OutputsAt(buf, BehindVarInt(buf, o), VarIntAt(buf, o));
    EndsBehind(buf, BehindVarInt(buf, o), VarIntAt(buf, o));
    InputsReach(buf, inputs, o);
    OutputsReach(buf, o, outputs, e);
  }

  // ---- only what can be told is restored ----

  lemma {:induction false} SumMore(small: seq<nat>, large: seq<nat>, n: nat, k: nat, d: nat)
    requires n <= |small| == |large| && forall j | 0 <= j < n :: small[j] <= large[j]
    requires k < n ==> small[k] + d <= large[k]
    ensures Sum(small, n) + (if k < n then d else 0) <= Sum(large, n)
  {
    if n > 0 {
      SumMore(small, large, n - 1, k, d);
    }
  }

  function Lengths(pieces: seq<seq<Byte>>): (r: seq<nat>)
    ensures |r| == |pieces| && forall k | 0 <= k < |pieces| :: r[k] == |pieces[k]|
  {
    seq(|pieces|, k requires 0 <= k < |pieces| => |pieces[k]|)
  }

  lemma StrippedReads(i: Input)
    requires InputOk(i)
    ensures |InputBytes(i)| <= ReadSize(Stripped(i))
    ensures i.signature.None? && i.amount == 0 ==> |InputBytes(i)| + 8 == ReadSize(Stripped(i))
  {
    InputLength(i);
  }

  /** An unsigned input without an amount makes the parser read eight bytes more than are written. */
  lemma ReadsMore(tx: Tx, k: nat)
    requires TxOk(tx) && k < |tx.inputs| && tx.inputs[k].signature.None? && tx.inputs[k].amount == 0
    ensures ReadLength(StrippedTx(tx)) >= |TxBytes(tx)| + 8
  {
    var pieces := InputPieces(tx.inputs);
    var large := ReadSizes(AllStripped(tx.inputs));
    forall j | 0 <= j < |tx.inputs| ensures Lengths(pieces)[j] <= large[j] {
      StrippedReads(tx.inputs[j]);
    }
    StrippedReads(tx.inputs[k]);
    SumMore(Lengths(pieces), large, |tx.inputs|, k, 8);
    JoinedLength(pieces, Lengths(pieces), |tx.inputs|);
    OutputsLength(tx.outputs);
    TxLength(tx);
  }

  /** The first input that cannot be told. */
  lemma FirstUntellable(inputs: seq<Input>, n: nat) returns (k: nat)
    requires n <= |inputs| && !AllTellable(inputs, n)
    ensures k < n && AllTellable(inputs, k) && !Tellable(inputs[k])
  {
    k := 0;
    while k < n && Tellable(inputs[k])
      invariant k <= n && AllTellable(inputs, k)
    {
      k := k + 1;
    }
  }

  lemma ReadsAt(buf: seq<Byte>, off: nat, n: nat, k: nat, o: nat)
    requires InputsAt(buf, off, k).1 == o && k < |InputsAt(buf, off, n).0|
    ensures InputsAt(buf, off, n).0[k] == InputAt(buf, o).0
  {
    RepeatPrefix(InputAt, buf, off, n, k);
  }

  /** The parser takes what stands here for unsigned if and only if the script of this input has an address. */
  ghost predicate Told(buf: seq<Byte>, o: nat, i: Input) {
    InputAt(buf, o).0.signature.None? <==> Known(ScriptOf(i))
  }

  lemma PieceTold(buf: seq<Byte>, o: nat, piece: seq<Byte>, i: Input)
    requires IsPiece(piece, i) && Holds(buf, o, piece)
    ensures Told(buf, o, i)
  {
    InputTold(buf, o, i);
  }

  lemma PieceHeldAt(buf: seq<Byte>, off: nat, o: nat, pieces: seq<seq<Byte>>, k: nat, piece: seq<Byte>)
    requires Holds(buf, off, Joined(pieces, |pieces|)) && k < |pieces| && piece == pieces[k]
    requires o == off + |Joined(pieces, k)|
    ensures Holds(buf, o, piece)
  {
    PieceHeld(buf, off, pieces, |pieces|, k);
  }

  lemma ToldAt(buf: seq<Byte>, off: nat, o: nat, inputs: seq<Input>, pieces: seq<seq<Byte>>, k: nat)
    requires ArePieces(pieces, inputs) && Holds(buf, off, Joined(pieces, |pieces|))
    requires k < |inputs| && o == off + |Joined(pieces, k)|
    ensures Told(buf, o, inputs[k])
  {
    assert IsPiece(pieces[k], inputs[k]);
    PieceHeldAt(buf, off, o, pieces, k, pieces[k]);
    PieceTold(buf, o, pieces[k], inputs[k]);
  }

  /** The parser sees the first input that cannot be told where it stands. */
  lemma SeesUntellable(buf: seq<Byte>, off: nat, inputs: seq<Input>, pieces: seq<seq<Byte>>, k: nat)
    requires ArePieces(pieces, inputs) && Holds(buf, off, Joined(pieces, |pieces|))
    requires k < |inputs| && AllTellable(inputs, k) && k < |InputsAt(buf, off, |inputs|).0|
    ensures InputsAt(buf, off, |inputs|).0[k].signature.None? <==> Known(ScriptOf(inputs[k]))
  {
    var o := off + |Joined(pieces, k)|;
    InputsBack(buf, off, inputs, pieces, k, AllStripped(inputs));
    ReadsAt(buf, off, |inputs|, k, o);
    ToldAt(buf, off, o, inputs, pieces, k);
  }

  /** What is restored has inputs, and the parser takes each of them for what it is. */
  lemma RestoredIsSeen(tx: Tx, buf: seq<Byte>, ins: seq<seq<Byte>>, k: nat)
    requires TxOk(tx) && buf == TxBytes(tx) && ins == InputPieces(tx.inputs) && ArePieces(ins, tx.inputs)
    requires Parsed(buf).Some? && Parsed(buf).value.tx == StrippedTx(tx)
    requires k < |tx.inputs| && AllTellable(tx.inputs, k)
    ensures tx.inputs[k].signature.None? <==> Known(ScriptOf(tx.inputs[k]))
  {
    var outs := OutputPieces(tx.outputs);
    var o, e, f, l := LayOut(tx, buf, ins, outs);
    NumbersRead(tx, buf, ins, outs, o, e, f, l);
    assert InputsAt(buf, o, |tx.inputs|).0 == AllStripped(tx.inputs);
    SeesUntellable(buf, o, tx.inputs, ins, k);
  }

  lemma NoInputs(tx: Tx)
    requires TxOk(tx) && tx.inputs == []
    ensures Parsed(TxBytes(tx)).None?
  {
    var buf, ins, outs := TxBytes(tx), InputPieces(tx.inputs), OutputPieces(tx.outputs);
    var o, e, f, l := LayOut(tx, buf, ins, outs);
    NumbersRead(tx, buf, ins, outs, o, e, f, l);
  }

  lemma OnlyTellable(tx: Tx)
    requires TxOk(tx) && Parsed(TxBytes(tx)).Some? && Parsed(TxBytes(tx)).value.tx == StrippedTx(tx)
    ensures AllTellable(tx.inputs, |tx.inputs|)
  {
    if !AllTellable(tx.inputs, |tx.inputs|) {
      var k := FirstUntellable(tx.inputs, |tx.inputs|);
      PiecesAre(tx.inputs, InputPieces(tx.inputs));
      RestoredIsSeen(tx, TxBytes(tx), InputPieces(tx.inputs), k);
      ParsedFits(TxBytes(tx));
      ReadsMore(tx, k);
    }
  }

  /**
   * Parsing restores what was written if and only if there are inputs and each can be told: its signature is not a
   * script with an address, or it has none, its script has one and its amount is not zero.
   */
  lemma ParseRestores(tx: Tx)
    requires TxOk(tx)
    ensures Parsed(TxBytes(tx)) == Some(ResultOf(StrippedTx(tx), |TxBytes(tx)|)) <==>
            tx.inputs != [] && forall k | 0 <= k < |tx.inputs| :: Tellable(tx.inputs[k])
  {
    if tx.inputs == [] {
      NoInputs(tx);
    } else if AllTellable(tx.inputs, |tx.inputs|) {
      ParseBack(tx);
    } else if Parsed(TxBytes(tx)) == Some(ResultOf(StrippedTx(tx), |TxBytes(tx)|)) {
      OnlyTellable(tx);
    }
  }

  /** An unsigned input that spends an output of amount zero to a known script. */
  lemma UnsignedZero() returns (i: Input)
    ensures InputOk(i) && i.signature.None? && i.amount == 0 && Known(i.script) && i.txHash[0] != 0
  {
    i := Input(seq(32, _ => 1), 0, 0, [OP_0, 20] + seq(20, _ => 0), None, 0);
  }

  /** Such an input is not restored. */
  lemma ZeroAmountIsLost() returns (tx: Tx)
    ensures TxOk(tx) && tx.inputs != [] && tx.inputs[0].txHash[0] != 0
    ensures Parsed(TxBytes(tx)) != Some(ResultOf(StrippedTx(tx), |TxBytes(tx)|))
  {
    var i := UnsignedZero();
    tx := Tx(1, [i], [], 0);
    assert tx.inputs[0] == i;
    ParseRestores(tx);
  }
}
