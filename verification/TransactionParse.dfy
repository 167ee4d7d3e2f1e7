/** Parsing transactions (BRTransaction.c). Offsets are unbounded: the wrap-around of an offset plus a script length
    near 2^64 is not part of this model. */
module TransactionParse {

  import opened Bytes
  import opened Options
  import opened VarInts
  import opened Scripts
  import opened Transactions

  // ---- what the parser reads ----

  function UInt32At(buf: seq<Byte>, off: nat): UInt32 {
    NumberBound(buf, off, 4);
    Widths();
    NumberAt(buf, off, 4)
  }

  function UInt64At(buf: seq<Byte>, off: nat): UInt64 {
    NumberBound(buf, off, 8);
    Widths();
    NumberAt(buf, off, 8)
  }

  /** A hash; zero if the buffer ends before it does. */
  function HashAt(buf: seq<Byte>, off: nat): (r: seq<Byte>)
    ensures |r| == 32
  {
    if off + 32 <= |buf| then buf[off..off + 32] else Bytes.Zeros(32)
  }

  /** Where the bytes behind a count start. */
  function BehindVarInt(buf: seq<Byte>, off: nat): nat {
    off + VarIntLength(HeaderAt(buf, off))
  }

  /** An input whose script of n bytes starts at o, and where it ends. */
  function InputWith(buf: seq<Byte>, hash: seq<Byte>, index: UInt32, o: nat, n: nat): (Input, nat) {
    if o + n <= |buf| && Known(buf[o..o + n]) then
      (Input(hash, index, UInt64At(buf, o + n), buf[o..o + n], None, UInt32At(buf, o + 8 + n)), o + 8 + n + 4)
    else if o + n <= |buf| then
      (Input(hash, index, 0, [], Some(buf[o..o + n]), UInt32At(buf, o + n)), o + n + 4)
    else
      (Input(hash, index, 0, [], None, UInt32At(buf, o + n)), o + n + 4)
  }

  function InputAt(buf: seq<Byte>, off: nat): (Input, nat) {
    InputWith(buf, HashAt(buf, off), UInt32At(buf, off + 32), BehindVarInt(buf, off + 36), VarIntAt(buf, off + 36))
  }

  /** Reading n items one after the other, as far as the buffer goes, and where they end. */
  function Repeat<T>(read: (seq<Byte>, nat) -> (T, nat), buf: seq<Byte>, off: nat, n: nat): (seq<T>, nat) {
    if n == 0 then ([], off)
    else
      var (items, o) := Repeat(read, buf, off, n - 1);
      if o <= |buf| then (items + [read(buf, o).0], read(buf, o).1) else (items, o)
  }

  function InputsAt(buf: seq<Byte>, off: nat, n: nat): (seq<Input>, nat) {
    Repeat(InputAt, buf, off, n)
  }

  function OutputWith(buf: seq<Byte>, amount: UInt64, o: nat, n: nat): (Output, nat) {
    (Output(amount, if o + n <= |buf| then buf[o..o + n] else []), o + n)
  }

  function OutputAt(buf: seq<Byte>, off: nat): (Output, nat) {
    OutputWith(buf, UInt64At(buf, off), BehindVarInt(buf, off + 8), VarIntAt(buf, off + 8))
  }

  function OutputsAt(buf: seq<Byte>, off: nat, n: nat): (seq<Output>, nat) {
    Repeat(OutputAt, buf, off, n)
  }

  predicate AllSigned(inputs: seq<Input>) {
    forall k | 0 <= k < |inputs| :: inputs[k].signature.Some?
  }

  /** A transaction, and how many bytes its hash is taken over if all inputs are signed. */
  datatype Result = Result(tx: Tx, hashed: Option<nat>)

  function ResultOf(tx: Tx, end: nat): Result {
    Result(tx, if AllSigned(tx.inputs) then Some(end) else None)
  }

  /** The lock time ends the transaction. */
  function Finished(buf: seq<Byte>, inputs: seq<Input>, outputs: seq<Output>, e: nat): Option<Result> {
    if e + 4 > |buf| then None
    else Some(ResultOf(Tx(UInt32At(buf, 0), inputs, outputs, UInt32At(buf, e)), e + 4))
  }

  /** The part of a transaction behind the inputs, which end at o. */
  function ParsedBehind(buf: seq<Byte>, inputs: seq<Input>, o: nat): Option<Result> {
    var (outputs, e) := OutputsAt(buf, BehindVarInt(buf, o), VarIntAt(buf, o));
    Finished(buf, inputs, outputs, e)
  }

  /** The transaction at the beginning of a buffer, if it has inputs and the buffer is long enough. */
  function Parsed(buf: seq<Byte>): Option<Result> {
    var (inputs, o) := InputsAt(buf, BehindVarInt(buf, 4), VarIntAt(buf, 4));
    if VarIntAt(buf, 4) == 0 then None else ParsedBehind(buf, inputs, o)
  }

  // ---- the parser ----

  lemma {:induction false} RepeatStops<T>(read: (seq<Byte>, nat) -> (T, nat), buf: seq<Byte>, off: nat, n: nat, m: nat)
    requires n <= m && Repeat(read, buf, off, n).1 > |buf|
    ensures Repeat(read, buf, off, m) == Repeat(read, buf, off, n)
  {
    if n < m {
      RepeatStops(read, buf, off, n, m - 1);
    }
  }

  lemma RepeatNext<T>(read: (seq<Byte>, nat) -> (T, nat), buf: seq<Byte>, off: nat, n: nat, items: seq<T>, o: nat, i: T,
                      e: nat)
    requires Repeat(read, buf, off, n) == (items, o) && o <= |buf| && read(buf, o) == (i, e)
    ensures Repeat(read, buf, off, n + 1) == (items + [i], e)
  {
  }

  /** The script of an input, and the amount behind it if the script has an address. */
  method ReadScript(buf: seq<Byte>, hash: seq<Byte>, index: UInt32, start: nat, sLen: nat)
    returns (input: Input, off: nat, isSigned: bool)
    ensures (input, off) == InputWith(buf, hash, index, start, sLen)
    ensures off <= |buf| ==> (isSigned <==> input.signature.Some?)
  {
    off := start;
    var amount, script, signature := 0, [], None;
    isSigned := true;
    if off + sLen <= |buf| {
      var known := Recognized(buf[off..off + sLen]);
      if known {
        script := buf[off..off + sLen];
        amount := UInt64At(buf, off + sLen);
        off := off + 8;
        isSigned := false;
      } else {
        signature := Some(buf[off..off + sLen]);
      }
    }
    off := off + sLen;
    var sequence := UInt32At(buf, off);
    off := off + 4;
    input := Input(hash, index, amount, script, signature, sequence);
  }

  method ReadInput(buf: seq<Byte>, start: nat) returns (input: Input, off: nat, isSigned: bool)
    ensures (input, off) == InputAt(buf, start)
    ensures off <= |buf| ==> (isSigned <==> input.signature.Some?)
  {
    off := start;
    var hash := HashAt(buf, off);
    off := off + 32;
    var index := UInt32At(buf, off);
    off := off + 4;
    var sLen, len := VarInt(buf, off);
    off := off + len;
    input, off, isSigned := ReadScript(buf, hash, index, off, sLen);
  }

  ghost predicate Scanned(buf: seq<Byte>, start: nat, i: nat, inputs: seq<Input>, off: nat, isSigned: bool) {
    (inputs, off) == InputsAt(buf, start, i) && (off <= |buf| ==> (isSigned <==> AllSigned(inputs)))
  }

  lemma SignedNext(inputs: seq<Input>, input: Input)
    ensures AllSigned(inputs + [input]) <==> AllSigned(inputs) && input.signature.Some?
  {
    if AllSigned(inputs + [input]) {
      forall k | 0 <= k < |inputs| ensures inputs[k].signature.Some? {
        assert (inputs + [input])[k] == inputs[k];
      }
      assert (inputs + [input])[|inputs|] == input;
    }
  }

  lemma ScannedNext(buf: seq<Byte>, start: nat, i: nat, inputs: seq<Input>, off: nat, isSigned: bool, input: Input,
                    o: nat, signed: bool)
    requires Scanned(buf, start, i, inputs, off, isSigned) && off <= |buf| && (input, o) == InputAt(buf, off)
    requires o <= |buf| ==> (signed <==> input.signature.Some?)
    ensures Scanned(buf, start, i + 1, inputs + [input], o, isSigned && signed)
  {
    SignedNext(inputs, input);
    RepeatNext(InputAt, buf, start, i, inputs, off, input, o);
  }

  method ReadInputs(buf: seq<Byte>, start: nat, inCount: nat) returns (inputs: seq<Input>, off: nat, isSigned: bool)
    ensures Scanned(buf, start, inCount, inputs, off, isSigned)
  {
    inputs, off, isSigned := [], start, true;
    var i := 0;
    while off <= |buf| && i < inCount
      invariant i <= inCount && Scanned(buf, start, i, inputs, off, isSigned)
    {
      var input, o, signed := ReadInput(buf, off);
      ScannedNext(buf, start, i, inputs, off, isSigned, input, o, signed);
      inputs, off, i, isSigned := inputs + [input], o, i + 1, isSigned && signed;
    }
    if i < inCount {
      RepeatStops(InputAt, buf, start, i, inCount);
    }
  }

  method ReadOutput(buf: seq<Byte>, start: nat) returns (output: Output, off: nat)
    ensures (output, off) == OutputAt(buf, start)
  {
    off := start;
    var amount := UInt64At(buf, off);
    off := off + 8;
    var sLen, len := VarInt(buf, off);
    off := off + len;
    output := Output(amount, if off + sLen <= |buf| then buf[off..off + sLen] else []);
    off := off + sLen;
  }

  method ReadOutputs(buf: seq<Byte>, start: nat, outCount: nat) returns (outputs: seq<Output>, off: nat)
    ensures (outputs, off) == OutputsAt(buf, start, outCount)
  {
    outputs, off := [], start;
    var i := 0;
    while off <= |buf| && i < outCount
      invariant i <= outCount && (outputs, off) == OutputsAt(buf, start, i)
    {
      var output, o := ReadOutput(buf, off);
      RepeatNext(OutputAt, buf, start, i, outputs, off, output, o);
      outputs, off, i := outputs + [output], o, i + 1;
    }
    if i < outCount {
      RepeatStops(OutputAt, buf, start, i, outCount);
    }
  }

  method Finish(buf: seq<Byte>, version: UInt32, inputs: seq<Input>, outputs: seq<Output>, e: nat, isSigned: bool)
    returns (r: Option<Result>)
    requires version == UInt32At(buf, 0) && (e <= |buf| ==> (isSigned <==> AllSigned(inputs)))
    ensures r == Finished(buf, inputs, outputs, e)
  {
    var lockTime := UInt32At(buf, e);
    var off := e + 4;
    if off > |buf| {
      return None;
    }
    r := Some(Result(Tx(version, inputs, outputs, lockTime), if isSigned then Some(off) else None));
  }

  /** Behind the inputs. */
  method ParseBehind(buf: seq<Byte>, version: UInt32, inputs: seq<Input>, start: nat, isSigned: bool)
    returns (r: Option<Result>)
    requires version == UInt32At(buf, 0) && (start <= |buf| ==> (isSigned <==> AllSigned(inputs)))
    ensures r == ParsedBehind(buf, inputs, start)
  {
    var outCount, len := VarInt(buf, start);
    var outputs, off := ReadOutputs(buf, start + len, outCount);
    EndsBehind(buf, start + len, outCount);
    r := Finish(buf, version, inputs, outputs, off, isSigned);
  }

  lemma {:induction false} EndsBehind(buf: seq<Byte>, off: nat, n: nat)
    ensures OutputsAt(buf, off, n).1 >= off
  {
    if n > 0 {
      EndsBehind(buf, off, n - 1);
    }
  }

  method Parse(buf: seq<Byte>) returns (r: Option<Result>)
    ensures r == Parsed(buf)
  {
    var version := UInt32At(buf, 0);
    var inCount, len := VarInt(buf, 4);
    var inputs, off, isSigned := ReadInputs(buf, 4 + len, inCount);
    r := ParseBehind(buf, version, inputs, off, isSigned);
    if inCount == 0 {
      r := None;
    }
  }
}
