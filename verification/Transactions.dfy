/** Transactions and the bytes they are written as (BRTransaction.c). */
module Transactions {

  import opened Bytes
  import opened Options
  import opened VarInts

  const TX_INPUT_SIZE := 148

  /** A signature, the signature script, may be missing; then the script of the output spent stands for it. */
  datatype Input = Input(txHash: seq<Byte>, index: UInt32, amount: UInt64, script: seq<Byte>,
                         signature: Option<seq<Byte>>, sequence: UInt32)

  datatype Output = Output(amount: UInt64, script: seq<Byte>)

  datatype Tx = Tx(version: UInt32, inputs: seq<Input>, outputs: seq<Output>, lockTime: UInt32)

  // ---- what the machine can hold ----

  ghost predicate Counted<T>(s: seq<T>) {
    |s| < 0x1_0000_0000_0000_0000
  }

  ghost predicate InputOk(i: Input) {
    |i.txHash| == 32 && Counted(i.script) && (i.signature.Some? ==> Counted(i.signature.value))
  }

  ghost predicate InputsOk(inputs: seq<Input>) {
    forall k | 0 <= k < |inputs| :: InputOk(inputs[k])
  }

  ghost predicate OutputsOk(outputs: seq<Output>) {
    forall k | 0 <= k < |outputs| :: Counted(outputs[k].script)
  }

  ghost predicate TxOk(tx: Tx) {
    Counted(tx.inputs) && Counted(tx.outputs) && InputsOk(tx.inputs) && OutputsOk(tx.outputs)
  }

  // ---- the bytes ----

  /** The script written for an input. */
  function ScriptOf(i: Input): seq<Byte> {
    if i.signature.Some? then i.signature.value else i.script
  }

  /** The amount written for an input: only with a missing signature, and only if it is not zero. */
  function AmountBytes(i: Input): seq<Byte> {
    if i.signature.None? && i.amount != 0 then ToBytes(i.amount, 8) else []
  }

  function InputBytes(i: Input): seq<Byte>
    requires InputOk(i)
  {
    i.txHash + ToBytes(i.index, 4) + VarIntBytes(|ScriptOf(i)|) + ScriptOf(i) + AmountBytes(i) + ToBytes(i.sequence, 4)
  }

  function OutputBytes(o: Output): seq<Byte>
    requires Counted(o.script)
  {
    ToBytes(o.amount, 8) + VarIntBytes(|o.script|) + o.script
  }

  /** The first n of several pieces. */
  function Joined(pieces: seq<seq<Byte>>, n: nat): seq<Byte>
    requires n <= |pieces|
  {
    if n == 0 then [] else Joined(pieces, n - 1) + pieces[n - 1]
  }

  function InputPieces(inputs: seq<Input>): (r: seq<seq<Byte>>)
    requires InputsOk(inputs)
    ensures |r| == |inputs| && forall k | 0 <= k < |inputs| :: r[k] == InputBytes(inputs[k])
  {
    seq(|inputs|, k requires 0 <= k < |inputs| && InputOk(inputs[k]) => InputBytes(inputs[k]))
  }

  function OutputPieces(outputs: seq<Output>): (r: seq<seq<Byte>>)
    requires OutputsOk(outputs)
    ensures |r| == |outputs| && forall k | 0 <= k < |outputs| :: r[k] == OutputBytes(outputs[k])
  {
    seq(|outputs|, k requires 0 <= k < |outputs| && Counted(outputs[k].script) => OutputBytes(outputs[k]))
  }

  function InputsBytes(inputs: seq<Input>): seq<Byte>
    requires InputsOk(inputs)
  {
    Joined(InputPieces(inputs), |inputs|)
  }

  function OutputsBytes(outputs: seq<Output>): seq<Byte>
    requires OutputsOk(outputs)
  {
    Joined(OutputPieces(outputs), |outputs|)
  }

  function TxBytes(tx: Tx): seq<Byte>
    requires TxOk(tx)
  {
    ToBytes(tx.version, 4) + VarIntBytes(|tx.inputs|) + InputsBytes(tx.inputs)
    + VarIntBytes(|tx.outputs|) + OutputsBytes(tx.outputs) + ToBytes(tx.lockTime, 4)
  }

  // ---- writing ----

  lemma Assoc(a: seq<Byte>, b: seq<Byte>, c: seq<Byte>)
    ensures a + (b + c) == a + b + c
  {
  }

  lemma JoinThree(done: seq<Byte>, a: seq<Byte>, b: seq<Byte>, c: seq<Byte>)
    ensures done + (a + b + c) == done + a + b + c
  {
    Assoc(done, a + b, c);
    Assoc(done, a, b);
  }

  lemma JoinSix(done: seq<Byte>, a: seq<Byte>, b: seq<Byte>, c: seq<Byte>, d: seq<Byte>, e: seq<Byte>, f: seq<Byte>)
    ensures done + (a + b + c + d + e + f) == done + a + b + c + d + e + f
  {
    Assoc(done, a + b + c + d + e, f);
    Assoc(done, a + b + c + d, e);
    Assoc(done, a + b + c, d);
    JoinThree(done, a, b, c);
  }

  /** What a call returns for what it wrote from base on: the length, or 0 if the buffer is too small for it. */
  function Length(data: array?<Byte>, base: nat, off: nat): nat
    requires base <= off
  {
    if data == null || off <= data.Length then off - base else 0
  }

  lemma LengthIs(data: array?<Byte>, done: seq<Byte>, base: nat, off: nat)
    requires Written(data, done, off) && base <= off
    ensures Written(data, done, base + Length(data, base, off))
  {
  }

  /** One input: its outpoint, script, amount and sequence. */
  method InputData(i: Input, data: array?<Byte>, base: nat, ghost done: seq<Byte>) returns (r: nat)
    requires InputOk(i) && Written(data, done, base)
    modifies Frame(data)
    ensures Written(data, done + InputBytes(i), base + r)
  {
    var off := Put(data, base, i.txHash, done);
    ghost var d := done + i.txHash;
    off := Put(data, off, ToBytes(i.index, 4), d);
    d := d + ToBytes(i.index, 4);
    var n := VarIntSet(data, off, |ScriptOf(i)|, d);
    off := off + n;
    d := d + VarIntBytes(|ScriptOf(i)|);
    off := Put(data, off, ScriptOf(i), d);
    d := d + ScriptOf(i);
    var amount := if i.signature.Some? then 0 else i.amount;
    if amount != 0 {
      off := Put(data, off, ToBytes(amount, 8), d);
    }
    d := d + AmountBytes(i);
    off := Put(data, off, ToBytes(i.sequence, 4), d);
    JoinSix(done, i.txHash, ToBytes(i.index, 4), VarIntBytes(|ScriptOf(i)|), ScriptOf(i), AmountBytes(i),
            ToBytes(i.sequence, 4));
    r := Length(data, base, off);
    LengthIs(data, done + InputBytes(i), base, off);
  }

  /** All inputs. */
  method InputsData(inputs: seq<Input>, data: array?<Byte>, base: nat, ghost done: seq<Byte>) returns (off: nat)
    requires InputsOk(inputs) && Written(data, done, base)
    modifies Frame(data)
    ensures Written(data, done + InputsBytes(inputs), off) && off >= base
  {
    off := base;
    Nothing(done);
    ghost var pieces := InputPieces(inputs);
    for i := 0 to |inputs|
      invariant Written(data, done + Joined(pieces, i), off) && off >= base
    {
      var n := InputData(inputs[i], data, off, done + Joined(pieces, i));
      off := off + n;
      Assoc(done, Joined(pieces, i), pieces[i]);
    }
  }

  lemma Nothing(done: seq<Byte>)
    ensures done + [] == done
  {
  }

  method OutputData(o: Output, data: array?<Byte>, base: nat, ghost done: seq<Byte>) returns (off: nat)
    requires Counted(o.script) && Written(data, done, base)
    modifies Frame(data)
    ensures Written(data, done + OutputBytes(o), off) && off >= base
  {
    off := Put(data, base, ToBytes(o.amount, 8), done);
    ghost var d := done + ToBytes(o.amount, 8);
    var n := VarIntSet(data, off, |o.script|, d);
    off := Put(data, off + n, o.script, d + VarIntBytes(|o.script|));
    JoinThree(done, ToBytes(o.amount, 8), VarIntBytes(|o.script|), o.script);
  }

  /** All outputs. */
  method OutputsData(outputs: seq<Output>, data: array?<Byte>, base: nat, ghost done: seq<Byte>) returns (r: nat)
    requires OutputsOk(outputs) && Written(data, done, base)
    modifies Frame(data)
    ensures Written(data, done + OutputsBytes(outputs), base + r)
  {
    var off: nat := base;
    Nothing(done);
    ghost var pieces := OutputPieces(outputs);
    for i := 0 to |outputs|
      invariant Written(data, done + Joined(pieces, i), off) && off >= base
    {
      off := OutputData(outputs[i], data, off, done + Joined(pieces, i));
      Assoc(done, Joined(pieces, i), pieces[i]);
    }
    r := Length(data, base, off);
    LengthIs(data, done + OutputsBytes(outputs), base, off);
  }

  /**
   * The whole transaction. Without a buffer the length needed; with one that is large enough the bytes, and their
   * number, which is the same.
   */
  method Serialize(tx: Tx, data: array?<Byte>) returns (r: nat)
    requires TxOk(tx)
    modifies Frame(data)
    ensures data == null ==> r == |TxBytes(tx)|
    ensures data != null && |TxBytes(tx)| <= data.Length ==>
              r == |TxBytes(tx)| && data[..r] == TxBytes(tx)
  {
    var off := Put(data, 0, ToBytes(tx.version, 4), []);
    ghost var d := [] + ToBytes(tx.version, 4);
    var n := VarIntSet(data, off, |tx.inputs|, d);
    d := d + VarIntBytes(|tx.inputs|);
    off := InputsData(tx.inputs, data, off + n, d);
    d := d + InputsBytes(tx.inputs);
    n := VarIntSet(data, off, |tx.outputs|, d);
    off := off + n;
    d := d + VarIntBytes(|tx.outputs|);
    n := OutputsData(tx.outputs, data, off, d);
    off := off + n;
    d := d + OutputsBytes(tx.outputs);
    off := Put(data, off, ToBytes(tx.lockTime, 4), d);
    JoinSix([], ToBytes(tx.version, 4), VarIntBytes(|tx.inputs|), InputsBytes(tx.inputs),
            VarIntBytes(|tx.outputs|), OutputsBytes(tx.outputs), ToBytes(tx.lockTime, 4));
    assert [] + TxBytes(tx) == TxBytes(tx);
    r := Length(data, 0, off);
  }
}
