/** Parsing undoes serializing if all inputs can be told (BRTransaction.c). */
module TransactionRoundTrip {

  import opened Bytes
  import opened Options
  import opened VarInts
  import opened Scripts
  import opened Transactions
  import opened TransactionParse

  // ---- one input ----

  /** What of an input is written: with a signature neither script nor amount. */
  function Stripped(i: Input): Input {
    if i.signature.Some? then i.(amount := 0, script := []) else i
  }

  /**
   * An input that the parser can tell: its signature is not a script with an address, or its script is one and its
   * amount is not zero.
   */
  predicate Tellable(i: Input) {
    if i.signature.Some? then !Known(i.signature.value) else Known(i.script) && i.amount != 0
  }

  /** Where the script of an input starts. */
  function ScriptStart(i: Input, off: nat): nat {
    off + 36 + VarIntSize(|ScriptOf(i)|)
  }

  /** Six pieces one behind the other. */
  lemma SixParts(buf: seq<Byte>, off: nat, a: seq<Byte>, b: seq<Byte>, c: seq<Byte>, d: seq<Byte>, e: seq<Byte>,
                 f: seq<Byte>)
    requires Holds(buf, off, a + b + c + d + e + f)
    ensures Holds(buf, off, a) && Holds(buf, off + |a|, b) && Holds(buf, off + |a| + |b|, c)
    ensures Holds(buf, off + |a| + |b| + |c|, d) && Holds(buf, off + |a| + |b| + |c| + |d|, e)
    ensures Holds(buf, off + |a| + |b| + |c| + |d| + |e|, f)
  {
    HoldsParts(buf, off, a + b + c + d + e, f);
    HoldsParts(buf, off, a + b + c + d, e);
    HoldsParts(buf, off, a + b + c, d);
    HoldsParts(buf, off, a + b, c);
    HoldsParts(buf, off, a, b);
  }

  lemma InputParts(buf: seq<Byte>, off: nat, i: Input)
    requires InputOk(i) && Holds(buf, off, InputBytes(i))
    ensures Holds(buf, off, i.txHash) && Holds(buf, off + 32, ToBytes(i.index, 4))
    ensures Holds(buf, off + 36, VarIntBytes(|ScriptOf(i)|)) && Holds(buf, ScriptStart(i, off), ScriptOf(i))
    ensures var e := ScriptStart(i, off) + |ScriptOf(i)|;
      Holds(buf, e, AmountBytes(i)) && Holds(buf, e + |AmountBytes(i)|, ToBytes(i.sequence, 4))
  {
    SixParts(buf, off, i.txHash, ToBytes(i.index, 4), VarIntBytes(|ScriptOf(i)|), ScriptOf(i), AmountBytes(i),
             ToBytes(i.sequence, 4));
  }

  lemma NumbersBack(buf: seq<Byte>, off: nat, n: UInt32)
    requires Holds(buf, off, ToBytes(n, 4))
    ensures UInt32At(buf, off) == n
  {
    Widths();
    NumberBack(buf, off, n, 4);
  }

  lemma AmountBack(buf: seq<Byte>, off: nat, n: UInt64)
    requires Holds(buf, off, ToBytes(n, 8))
    ensures UInt64At(buf, off) == n
  {
    Widths();
    NumberBack(buf, off, n, 8);
  }

  /** What the parser sees of an input, up to its script. */
  lemma InputSeen(buf: seq<Byte>, off: nat, i: Input)
    requires InputOk(i) && Holds(buf, off, InputBytes(i))
    ensures InputAt(buf, off) == InputWith(buf, i.txHash, i.index, ScriptStart(i, off), |ScriptOf(i)|)
    ensures ScriptStart(i, off) + |ScriptOf(i)| <= |buf|
    ensures buf[ScriptStart(i, off)..ScriptStart(i, off) + |ScriptOf(i)|] == ScriptOf(i)
  {
    InputParts(buf, off, i);
    HoldsSlice(buf, off, i.txHash);
    HoldsSlice(buf, ScriptStart(i, off), ScriptOf(i));
    NumbersBack(buf, off + 32, i.index);
    VarIntBack(buf, off + 36, |ScriptOf(i)|);
  }

  /** The parser takes an input for unsigned if and only if its script has an address. */
  lemma InputTold(buf: seq<Byte>, off: nat, i: Input)
    requires InputOk(i) && Holds(buf, off, InputBytes(i))
    ensures InputAt(buf, off).0.signature.None? <==> Known(ScriptOf(i))
  {
    InputSeen(buf, off, i);
  }

  /** The numbers around the script. */
  lemma InputNumbers(buf: seq<Byte>, off: nat, i: Input)
    requires InputOk(i) && Holds(buf, off, InputBytes(i))
    ensures var e := ScriptStart(i, off) + |ScriptOf(i)|;
      && UInt32At(buf, e + |AmountBytes(i)|) == i.sequence
      && (i.signature.None? && i.amount != 0 ==> UInt64At(buf, e) == i.amount)
      && e + |AmountBytes(i)| + 4 == off + |InputBytes(i)|
  {
    InputParts(buf, off, i);
    var e := ScriptStart(i, off) + |ScriptOf(i)|;
    NumbersBack(buf, e + |AmountBytes(i)|, i.sequence);
    if i.signature.None? && i.amount != 0 {
      AmountBack(buf, e, i.amount);
    }
  }

  lemma InputBack(buf: seq<Byte>, off: nat, i: Input)
    requires InputOk(i) && Holds(buf, off, InputBytes(i)) && Tellable(i)
    ensures InputAt(buf, off) == (Stripped(i), off + |InputBytes(i)|)
  {
    InputSeen(buf, off, i);
    InputNumbers(buf, off, i);
  }

  // ---- all inputs, all outputs ----

  function AllStripped(inputs: seq<Input>): (r: seq<Input>)
    ensures |r| == |inputs| && forall k | 0 <= k < |inputs| :: r[k] == Stripped(inputs[k])
  {
    seq(|inputs|, k requires 0 <= k < |inputs| => Stripped(inputs[k]))
  }

  ghost predicate IsStripped(item: Input, i: Input) {
    item == Stripped(i)
  }

  ghost predicate AreStripped(items: seq<Input>, inputs: seq<Input>) {
    && |items| == |inputs|
    && forall k {:trigger IsStripped(items[k], inputs[k])} | 0 <= k < |inputs| :: IsStripped(items[k], inputs[k])
  }

  ghost predicate AllTellable(inputs: seq<Input>, n: nat)
    requires n <= |inputs|
  {
    forall k {:trigger Tellable(inputs[k])} | 0 <= k < n :: Tellable(inputs[k])
  }

  ghost predicate IsPiece(piece: seq<Byte>, i: Input) {
    InputOk(i) && piece == InputBytes(i)
  }

  ghost predicate ArePieces(pieces: seq<seq<Byte>>, inputs: seq<Input>) {
    && |pieces| == |inputs|
    && forall k {:trigger IsPiece(pieces[k], inputs[k])} | 0 <= k < |inputs| :: IsPiece(pieces[k], inputs[k])
  }

  /** Where each of several pieces stands. */
  lemma {:induction false} PieceHeld(buf: seq<Byte>, off: nat, pieces: seq<seq<Byte>>, n: nat, k: nat)
    requires k < n <= |pieces| && Holds(buf, off, Joined(pieces, n))
    ensures Holds(buf, off + |Joined(pieces, k)|, pieces[k]) && off + |Joined(pieces, k)| <= |buf|
    ensures |Joined(pieces, k + 1)| == |Joined(pieces, k)| + |pieces[k]|
  {
    HoldsParts(buf, off, Joined(pieces, n - 1), pieces[n - 1]);
    if k < n - 1 {
      PieceHeld(buf, off, pieces, n - 1, k);
    }
  }

  /** The offsets at which pieces start. */
  ghost predicate Starts(pieces: seq<seq<Byte>>, off: nat, starts: seq<nat>) {
    && |starts| == |pieces| + 1
    && forall k {:trigger starts[k]} | 0 <= k <= |pieces| :: starts[k] == off + |Joined(pieces, k)|
  }

  lemma MakeStarts(pieces: seq<seq<Byte>>, off: nat) returns (starts: seq<nat>)
    ensures Starts(pieces, off, starts)
  {
    starts := seq(|pieces| + 1, k requires 0 <= k <= |pieces| => off + |Joined(pieces, k)|);
  }

  lemma PieceStarts(buf: seq<Byte>, off: nat, pieces: seq<seq<Byte>>, starts: seq<nat>, k: nat)
    requires Starts(pieces, off, starts) && k < |pieces| && Holds(buf, off, Joined(pieces, |pieces|))
    ensures Holds(buf, starts[k], pieces[k]) && starts[k] <= |buf| && starts[k + 1] == starts[k] + |pieces[k]|
  {
    PieceHeld(buf, off, pieces, |pieces|, k);
  }

  lemma InputBackAt(buf: seq<Byte>, o: nat, e: nat, piece: seq<Byte>, i: Input)
    requires IsPiece(piece, i) && Tellable(i) && Holds(buf, o, piece) && e == o + |piece|
    ensures InputAt(buf, o) == (Stripped(i), e)
  {
    PieceIs(piece, i);
    InputBack(buf, o, i);
  }

  lemma PieceIs(piece: seq<Byte>, i: Input)
    requires IsPiece(piece, i)
    ensures InputOk(i) && InputBytes(i) == piece
  {
  }

  /** Reading where input k starts yields it, and ends where the next one starts. */
  ghost predicate Reads<T>(read: (seq<Byte>, nat) -> (T, nat), buf: seq<Byte>, items: seq<T>, starts: seq<nat>, k: nat)
    requires k < |items| && |starts| == |items| + 1
  {
    starts[k] <= |buf| && read(buf, starts[k]) == (items[k], starts[k + 1])
  }

  /** Reading n items yields these and ends at e. */
  ghost predicate Gives<T>(read: (seq<Byte>, nat) -> (T, nat), buf: seq<Byte>, off: nat, n: nat, items: seq<T>,
                           e: nat) {
    Repeat(read, buf, off, n) == (items, e)
  }

  /** a is the first n items of b. */
  ghost predicate Agrees<T>(a: seq<T>, b: seq<T>, n: nat) {
    |a| == n <= |b| && forall k | 0 <= k < n :: a[k] == b[k]
  }

  /** Reading one after the other reads all. */
  lemma {:induction false} ReadsAll<T>(read: (seq<Byte>, nat) -> (T, nat), buf: seq<Byte>, off: nat, items: seq<T>,
                                       starts: seq<nat>, n: nat)
    requires n <= |items| && |starts| == |items| + 1 && starts[0] == off
    requires forall k {:trigger Reads(read, buf, items, starts, k)} | 0 <= k < n :: Reads(read, buf, items, starts, k)
    ensures Repeat(read, buf, off, n).1 == starts[n] && Agrees(Repeat(read, buf, off, n).0, items, n)
  {
    if n > 0 {
      ReadsAll(read, buf, off, items, starts, n - 1);
      assert Reads(read, buf, items, starts, n - 1);
      RepeatNext(read, buf, off, n - 1, Repeat(read, buf, off, n - 1).0, starts[n - 1], items[n - 1], starts[n]);
    }
  }

  lemma EachInputBack(buf: seq<Byte>, off: nat, inputs: seq<Input>, n: nat, pieces: seq<seq<Byte>>, starts: seq<nat>,
                      items: seq<Input>, k: nat)
    requires ArePieces(pieces, inputs) && Holds(buf, off, Joined(pieces, |pieces|))
    requires Starts(pieces, off, starts) && k < n <= |inputs| == |items| && AllTellable(inputs, n)
    requires IsStripped(items[k], inputs[k])
    ensures Reads(InputAt, buf, items, starts, k)
  {
    assert IsPiece(pieces[k], inputs[k]) && Tellable(inputs[k]);
    PieceStarts(buf, off, pieces, starts, k);
    InputBackAt(buf, starts[k], starts[k + 1], pieces[k], inputs[k]);
  }

  lemma InputsRead(buf: seq<Byte>, off: nat, inputs: seq<Input>, n: nat, pieces: seq<seq<Byte>>, starts: seq<nat>,
                   items: seq<Input>)
    requires ArePieces(pieces, inputs)
    requires Holds(buf, off, Joined(pieces, |pieces|)) && Starts(pieces, off, starts)
    requires n <= |inputs| && AllTellable(inputs, n)
    requires AreStripped(items, inputs)
    ensures forall k {:trigger Reads(InputAt, buf, items, starts, k)} | 0 <= k < n ::
              Reads(InputAt, buf, items, starts, k)
  {
    forall k | 0 <= k < n ensures Reads(InputAt, buf, items, starts, k) {
      assert IsStripped(items[k], inputs[k]);
      EachInputBack(buf, off, inputs, n, pieces, starts, items, k);
    }
  }

  lemma PiecesAre(inputs: seq<Input>, pieces: seq<seq<Byte>>)
    requires InputsOk(inputs) && pieces == InputPieces(inputs)
    ensures ArePieces(pieces, inputs)
  {
  }

  /** Behind the first n inputs, if those can be told. */
  lemma InputsBack(buf: seq<Byte>, off: nat, inputs: seq<Input>, pieces: seq<seq<Byte>>, n: nat, items: seq<Input>)
    requires ArePieces(pieces, inputs) && Holds(buf, off, Joined(pieces, |pieces|))
    requires n <= |inputs| && AllTellable(inputs, n)
    requires AreStripped(items, inputs)
    ensures InputsAt(buf, off, n).1 == off + |Joined(pieces, n)| && Agrees(InputsAt(buf, off, n).0, items, n)
  {
    var starts := MakeStarts(pieces, off);
    InputsRead(buf, off, inputs, n, pieces, starts, items);
    ReadsAll(InputAt, buf, off, items, starts, n);
  }

  lemma GivesAll<T>(read: (seq<Byte>, nat) -> (T, nat), buf: seq<Byte>, off: nat, n: nat, items: seq<T>, e: nat)
    requires Agrees(Repeat(read, buf, off, n).0, items, n) && Repeat(read, buf, off, n).1 == e && |items| == n
    ensures Gives(read, buf, off, n, items, e)
  {
    assert Repeat(read, buf, off, n).0 == items;
  }

  lemma AllInputsBack(buf: seq<Byte>, off: nat, e: nat, inputs: seq<Input>, pieces: seq<seq<Byte>>, items: seq<Input>)
    requires ArePieces(pieces, inputs) && Holds(buf, off, Joined(pieces, |pieces|))
    requires e == off + |Joined(pieces, |pieces|)| && AllTellable(inputs, |inputs|) && AreStripped(items, inputs)
    ensures Gives(InputAt, buf, off, |inputs|, items, e)
  {
    InputsBack(buf, off, inputs, pieces, |inputs|, items);
    GivesAll(InputAt, buf, off, |inputs|, items, e);
  }

  lemma OutputBack(buf: seq<Byte>, off: nat, o: Output)
    requires Counted(o.script) && Holds(buf, off, OutputBytes(o))
    ensures OutputAt(buf, off) == (o, off + |OutputBytes(o)|)
  {
    var a, b, c := ToBytes(o.amount, 8), VarIntBytes(|o.script|), o.script;
    HoldsParts(buf, off, a + b, c);
    HoldsParts(buf, off, a, b);
    HoldsSlice(buf, off + |a + b|, c);
    AmountBack(buf, off, o.amount);
    VarIntBack(buf, off + 8, |o.script|);
  }

  ghost predicate IsOutputPiece(piece: seq<Byte>, o: Output) {
    Counted(o.script) && piece == OutputBytes(o)
  }

  ghost predicate AreOutputPieces(pieces: seq<seq<Byte>>, outputs: seq<Output>) {
    && |pieces| == |outputs|
    && forall k {:trigger IsOutputPiece(pieces[k], outputs[k])} | 0 <= k < |outputs| ::
         IsOutputPiece(pieces[k], outputs[k])
  }

  lemma OutputBackAt(buf: seq<Byte>, o: nat, e: nat, piece: seq<Byte>, i: Output)
    requires IsOutputPiece(piece, i) && Holds(buf, o, piece) && e == o + |piece|
    ensures OutputAt(buf, o) == (i, e)
  {
    OutputBack(buf, o, i);
  }

  lemma EachOutputBack(buf: seq<Byte>, off: nat, outputs: seq<Output>, pieces: seq<seq<Byte>>, starts: seq<nat>, k: nat)
    requires AreOutputPieces(pieces, outputs) && Holds(buf, off, Joined(pieces, |pieces|))
    requires Starts(pieces, off, starts) && k < |outputs|
    ensures Reads(OutputAt, buf, outputs, starts, k)
  {
    assert IsOutputPiece(pieces[k], outputs[k]);
    PieceStarts(buf, off, pieces, starts, k);
    OutputBackAt(buf, starts[k], starts[k + 1], pieces[k], outputs[k]);
  }

  lemma OutputsRead(buf: seq<Byte>, off: nat, outputs: seq<Output>, pieces: seq<seq<Byte>>, starts: seq<nat>)
    requires AreOutputPieces(pieces, outputs)
    requires Holds(buf, off, Joined(pieces, |pieces|)) && Starts(pieces, off, starts)
    ensures forall k {:trigger Reads(OutputAt, buf, outputs, starts, k)} | 0 <= k < |outputs| ::
              Reads(OutputAt, buf, outputs, starts, k)
  {
    forall k | 0 <= k < |outputs| ensures Reads(OutputAt, buf, outputs, starts, k) {
      EachOutputBack(buf, off, outputs, pieces, starts, k);
    }
  }

  lemma OutputPiecesAre(outputs: seq<Output>, pieces: seq<seq<Byte>>)
    requires OutputsOk(outputs) && pieces == OutputPieces(outputs)
    ensures AreOutputPieces(pieces, outputs)
  {
  }

  lemma OutputsBack(buf: seq<Byte>, off: nat, e: nat, outputs: seq<Output>, pieces: seq<seq<Byte>>)
    requires AreOutputPieces(pieces, outputs) && Holds(buf, off, Joined(pieces, |pieces|))
    requires e == off + |Joined(pieces, |pieces|)|
    ensures Gives(OutputAt, buf, off, |outputs|, outputs, e)
  {
    var starts := MakeStarts(pieces, off);
    OutputsRead(buf, off, outputs, pieces, starts);
    ReadsAll(OutputAt, buf, off, outputs, starts, |outputs|);
    GivesAll(OutputAt, buf, off, |outputs|, outputs, e);
  }

  // ---- the whole transaction ----

  function StrippedTx(tx: Tx): Tx {
    tx.(inputs := AllStripped(tx.inputs))
  }

  /** Where the parts of a transaction stand in its bytes: inputs at o, outputs at f, the lock time at l. */
  ghost predicate LaidOut(tx: Tx, buf: seq<Byte>, ins: seq<seq<Byte>>, outs: seq<seq<Byte>>, o: nat, e: nat, f: nat,
                          l: nat)
    requires Counted(tx.inputs) && Counted(tx.outputs)
  {
    && o == 4 + VarIntSize(|tx.inputs|) && e == o + |Joined(ins, |ins|)| && f == e + VarIntSize(|tx.outputs|)
    && l == f + |Joined(outs, |outs|)| && |buf| == l + 4
    && Holds(buf, 0, ToBytes(tx.version, 4)) && Holds(buf, 4, VarIntBytes(|tx.inputs|))
    && Holds(buf, o, Joined(ins, |ins|)) && Holds(buf, e, VarIntBytes(|tx.outputs|))
    && Holds(buf, f, Joined(outs, |outs|)) && Holds(buf, l, ToBytes(tx.lockTime, 4))
  }

  lemma Itself(buf: seq<Byte>)
    ensures Holds(buf, 0, buf)
  {
  }

  lemma LayOut(tx: Tx, buf: seq<Byte>, ins: seq<seq<Byte>>, outs: seq<seq<Byte>>)
    returns (o: nat, e: nat, f: nat, l: nat)
    requires TxOk(tx) && buf == TxBytes(tx) && ins == InputPieces(tx.inputs) && outs == OutputPieces(tx.outputs)
    ensures LaidOut(tx, buf, ins, outs, o, e, f, l)
  {
    var a, b, c := ToBytes(tx.version, 4), VarIntBytes(|tx.inputs|), Joined(ins, |ins|);
    var d, j, t := VarIntBytes(|tx.outputs|), Joined(outs, |outs|), ToBytes(tx.lockTime, 4);
    o, e := 4 + |b|, 4 + |b| + |c|;
    f, l := e + |d|, e + |d| + |j|;
    Itself(buf);
    SixParts(buf, 0, a, b, c, d, j, t);
  }

  /** The numbers of a transaction read back. */
  lemma NumbersRead(tx: Tx, buf: seq<Byte>, ins: seq<seq<Byte>>, outs: seq<seq<Byte>>, o: nat, e: nat, f: nat, l: nat)
    requires Counted(tx.inputs) && Counted(tx.outputs) && LaidOut(tx, buf, ins, outs, o, e, f, l)
    ensures UInt32At(buf, 0) == tx.version && UInt32At(buf, l) == tx.lockTime
    ensures VarIntAt(buf, 4) == |tx.inputs| && BehindVarInt(buf, 4) == o
    ensures VarIntAt(buf, e) == |tx.outputs| && BehindVarInt(buf, e) == f
  {
    NumbersBack(buf, 0, tx.version);
    NumbersBack(buf, l, tx.lockTime);
    VarIntBack(buf, 4, |tx.inputs|);
    VarIntBack(buf, e, |tx.outputs|);
  }

  /** What the parts read make of a buffer. */
  lemma ReadTogether(buf: seq<Byte>, version: UInt32, inputs: seq<Input>, outputs: seq<Output>, lockTime: UInt32,
                     e: nat, l: nat)
    requires VarIntAt(buf, 4) != 0 && Gives(InputAt, buf, BehindVarInt(buf, 4), VarIntAt(buf, 4), inputs, e)
    requires Gives(OutputAt, buf, BehindVarInt(buf, e), VarIntAt(buf, e), outputs, l)
    requires UInt32At(buf, 0) == version && UInt32At(buf, l) == lockTime && l + 4 == |buf|
    ensures Parsed(buf) == Some(ResultOf(Tx(version, inputs, outputs, lockTime), |buf|))
  {
  }

  /** The parts read back, one behind the other. */
  lemma PartsRead(tx: Tx, buf: seq<Byte>, ins: seq<seq<Byte>>, outs: seq<seq<Byte>>, o: nat, e: nat, f: nat, l: nat,
                  items: seq<Input>)
    requires Counted(tx.inputs) && Counted(tx.outputs) && LaidOut(tx, buf, ins, outs, o, e, f, l)
    requires ArePieces(ins, tx.inputs) && AreOutputPieces(outs, tx.outputs) && AllTellable(tx.inputs, |tx.inputs|)
    requires AreStripped(items, tx.inputs)
    ensures Gives(InputAt, buf, o, |tx.inputs|, items, e) && Gives(OutputAt, buf, f, |tx.outputs|, tx.outputs, l)
  {
    AllInputsBack(buf, o, e, tx.inputs, ins, items);
    OutputsBack(buf, f, l, tx.outputs, outs);
  }

  lemma ParseBackFrom(tx: Tx, buf: seq<Byte>, ins: seq<seq<Byte>>, outs: seq<seq<Byte>>, o: nat, e: nat, f: nat, l: nat,
                      items: seq<Input>)
    requires Counted(tx.inputs) && Counted(tx.outputs) && LaidOut(tx, buf, ins, outs, o, e, f, l)
    requires ArePieces(ins, tx.inputs) && AreOutputPieces(outs, tx.outputs)
    requires tx.inputs != [] && AllTellable(tx.inputs, |tx.inputs|)
    requires AreStripped(items, tx.inputs)
    ensures Parsed(buf) == Some(ResultOf(tx.(inputs := items), |buf|))
  {
    NumbersRead(tx, buf, ins, outs, o, e, f, l);
    PartsRead(tx, buf, ins, outs, o, e, f, l, items);
    ReadTogether(buf, tx.version, items, tx.outputs, tx.lockTime, e, l);
  }

  /** If all inputs can be told, parsing restores what was written, and takes the hash over all of it. */
  lemma ParseBack(tx: Tx)
    requires TxOk(tx) && tx.inputs != [] && AllTellable(tx.inputs, |tx.inputs|)
    ensures Parsed(TxBytes(tx)) == Some(ResultOf(StrippedTx(tx), |TxBytes(tx)|))
  {
    var ins, outs := InputPieces(tx.inputs), OutputPieces(tx.outputs);
    PiecesAre(tx.inputs, ins);
    OutputPiecesAre(tx.outputs, outs);
    var o, e, f, l := LayOut(tx, TxBytes(tx), ins, outs);
    ParseBackFrom(tx, TxBytes(tx), ins, outs, o, e, f, l, AllStripped(tx.inputs));
  }

  // ---- an example ----

  function ExampleInput(hash: seq<Byte>): Input {
    Input(hash, 2, 0, [], Some([0x51]), 0xfffffffe)
  }

  function ExampleTx(hash: seq<Byte>): Tx {
    Tx(1, [ExampleInput(hash)], [Output(5000, [0x6a])], 7)
  }

  lemma ExampleNumbers()
    ensures ToBytes(1, 4) == [1, 0, 0, 0] && ToBytes(2, 4) == [2, 0, 0, 0] && ToBytes(7, 4) == [7, 0, 0, 0]
    ensures ToBytes(0xfffffffe, 4) == [0xfe, 0xff, 0xff, 0xff]
  {
    FourBytes(1);
    FourBytes(2);
    FourBytes(7);
    FourBytes(0xfffffffe);
  }

  lemma ExampleAmount(n: nat)
    requires n == 5000
    ensures ToBytes(n, 8) == [0x88, 0x13, 0, 0, 0, 0, 0, 0]
  {
    var x := n / 256;
    var y := x / 256;
    FourBytes(0);
    assert ToBytes(0, 5) == [0] + ToBytes(0, 4) && ToBytes(y, 6) == [0] + ToBytes(0, 5);
    assert ToBytes(x, 7) == [0x13] + ToBytes(y, 6);
  }

  lemma ExampleParts(hash: seq<Byte>)
    requires |hash| == 32
    ensures InputOk(ExampleInput(hash)) && TxOk(ExampleTx(hash))
    ensures InputsBytes([ExampleInput(hash)]) == hash + [2, 0, 0, 0] + [1, 0x51] + [0xfe, 0xff, 0xff, 0xff]
    ensures OutputsBytes([Output(5000, [0x6a])]) == [0x88, 0x13, 0, 0, 0, 0, 0, 0] + [1, 0x6a]
  {
    ExampleNumbers();
    ExampleAmount(5000);
    var i, o := ExampleInput(hash), Output(5000, [0x6a]);
    assert VarIntBytes(1) == [1];
    assert InputBytes(i) == hash + [2, 0, 0, 0] + [1, 0x51] + [0xfe, 0xff, 0xff, 0xff];
    assert Joined(InputPieces([i]), 0) == [] && Joined(OutputPieces([o]), 0) == [];
  }

  /** Version, inputs, outputs and lock time in this order, each number with its low byte first. */
  lemma ExampleIs(hash: seq<Byte>)
    requires |hash| == 32
    ensures TxOk(ExampleTx(hash))
    ensures TxBytes(ExampleTx(hash)) ==
            [1, 0, 0, 0] + [1] + (hash + [2, 0, 0, 0] + [1, 0x51] + [0xfe, 0xff, 0xff, 0xff])
            + [1] + ([0x88, 0x13, 0, 0, 0, 0, 0, 0] + [1, 0x6a]) + [7, 0, 0, 0]
  {
    ExampleNumbers();
    ExampleParts(hash);
    assert VarIntBytes(1) == [1];
  }
}
