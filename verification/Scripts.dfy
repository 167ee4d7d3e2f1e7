/** Script elements, and which scripts have an address (BRAddress.c). */
module Scripts {

  import opened Bytes
  import opened Options
  import opened VarInts

  const OP_0: Byte := 0x00
  const OP_PUSHDATA1: Byte := 0x4c
  const OP_PUSHDATA2: Byte := 0x4d
  const OP_PUSHDATA4: Byte := 0x4e
  const OP_1: Byte := 0x51
  const OP_16: Byte := 0x60
  const OP_DUP: Byte := 0x76
  const OP_EQUAL: Byte := 0x87
  const OP_EQUALVERIFY: Byte := 0x88
  const OP_HASH160: Byte := 0xa9
  const OP_CHECKSIG: Byte := 0xac
  const MAX_SCRIPT_LENGTH := 0x100

  /** Where the element at off ends; one that runs over the end of the script ends somewhere behind it. */
  function ElementEnd(script: seq<Byte>, off: nat): (r: nat)
    requires off < |script|
    ensures r > off
  {
    var op := script[off];
    if op == OP_PUSHDATA1 then
      if off + 2 <= |script| then off + 2 + script[off + 1] else |script| + 1
    else if op == OP_PUSHDATA2 then
      if off + 3 <= |script| then off + 3 + NumberAt(script, off + 1, 2) else |script| + 1
    else if op == OP_PUSHDATA4 then
      if off + 5 <= |script| then off + 5 + NumberAt(script, off + 1, 4) else |script| + 1
    else if op > OP_PUSHDATA4 then off + 1 else off + 1 + op
  }

  /** Where the elements from off on start, if they end with the script. */
  function ElementsFrom(script: seq<Byte>, off: nat): Option<seq<nat>>
    decreases |script| - off
  {
    if off == |script| then Some([])
    else if off > |script| then None
    else Behind([off], ElementsFrom(script, ElementEnd(script, off)))
  }

  function Behind(elems: seq<nat>, rest: Option<seq<nat>>): Option<seq<nat>> {
    if rest.None? then None else Some(elems + rest.value)
  }

  lemma BehindNone(rest: Option<seq<nat>>)
    ensures Behind([], rest) == rest
  {
    if rest.Some? {
      assert [] + rest.value == rest.value;
    }
  }

  lemma BehindOne(elems: seq<nat>, off: nat, rest: Option<seq<nat>>)
    ensures Behind(elems + [off], rest) == Behind(elems, Behind([off], rest))
  {
    if rest.Some? {
      assert elems + [off] + rest.value == elems + ([off] + rest.value);
    }
  }

  /** The starts of all elements, if the last one ends with the script. */
  method Elements(script: seq<Byte>) returns (r: Option<seq<nat>>)
    ensures r == ElementsFrom(script, 0)
  {
    var off, len, elems: seq<nat> := 0, 0, [];
    BehindNone(ElementsFrom(script, 0));
    while off < |script|
      invariant ElementsFrom(script, 0) == Behind(elems, ElementsFrom(script, off))
      decreases |script| - off
    {
      ghost var start := off;
      elems := elems + [off];
      if script[off] == OP_PUSHDATA1 {
        off := off + 1;
        if off + 1 <= |script| {
          len := script[off];
        }
        off := off + 1;
      } else if script[off] == OP_PUSHDATA2 {
        off := off + 1;
        if off + 2 <= |script| {
          len := NumberAt(script, off, 2);
        }
        off := off + 2;
      } else if script[off] == OP_PUSHDATA4 {
        off := off + 1;
        if off + 4 <= |script| {
          len := NumberAt(script, off, 4);
        }
        off := off + 4;
      } else {
        len := if script[off] > OP_PUSHDATA4 then 0 else script[off];
        off := off + 1;
      }
      off := off + len;
      BehindOne(elems[..|elems| - 1], start, ElementsFrom(script, off));
      assert off == ElementEnd(script, start) || (off > |script| && ElementEnd(script, start) > |script|);
    }
    assert elems + [] == elems;
    r := if off == |script| then Some(elems) else None;
  }

  /** Whether elements that start with these opcodes are those of a script with an address. */
  predicate HasAddress(script: seq<Byte>, e: seq<nat>)
    requires forall k | 0 <= k < |e| :: e[k] < |script|
  {
    || (|e| == 5 && script[e[0]] == OP_DUP && script[e[1]] == OP_HASH160 && script[e[2]] == 20
        && script[e[3]] == OP_EQUALVERIFY && script[e[4]] == OP_CHECKSIG)
    || (|e| == 3 && script[e[0]] == OP_HASH160 && script[e[1]] == 20 && script[e[2]] == OP_EQUAL)
    || (|e| == 2 && (script[e[0]] == 65 || script[e[0]] == 33) && script[e[1]] == OP_CHECKSIG)
    || (|e| == 2 && ((script[e[0]] == OP_0 && (script[e[1]] == 20 || script[e[1]] == 32))
                     || (OP_1 <= script[e[0]] <= OP_16 && 2 <= script[e[1]] <= 40)))
  }

  lemma {:induction false} ElementsWithin(script: seq<Byte>, off: nat)
    ensures ElementsFrom(script, off).Some? ==>
              forall k | 0 <= k < |ElementsFrom(script, off).value| ::
                  off <= ElementsFrom(script, off).value[k] < |script|
    decreases |script| - off
  {
    if off < |script| {
      ElementsWithin(script, ElementEnd(script, off));
    }
  }

  /** Whether a script is one that an address stands for. */
  method Recognized(script: seq<Byte>) returns (r: bool)
    ensures r <==> Known(script)
  {
    if |script| == 0 || |script| > MAX_SCRIPT_LENGTH {
      KnownLength(script);
      return false;
    }
    var e := Elements(script);
    ElementsWithin(script, 0);
    KnownIs(script);
    r := e.Some? && HasAddress(script, e.value);
  }

  // ---- which scripts these are ----

  predicate PaysKeyHash(s: seq<Byte>) {
    && |s| == 25 && s[0] == OP_DUP && s[1] == OP_HASH160 && s[2] == 20 && s[23] == OP_EQUALVERIFY
    && s[24] == OP_CHECKSIG
  }

  predicate PaysScriptHash(s: seq<Byte>) {
    |s| == 23 && s[0] == OP_HASH160 && s[1] == 20 && s[22] == OP_EQUAL
  }

  predicate PaysKey(s: seq<Byte>) {
    && |s| >= 2 && (s[0] == 65 || s[0] == 33) && |s| - 2 == s[0] && s[|s| - 1] == OP_CHECKSIG
  }

  predicate PaysWitness(s: seq<Byte>) {
    && |s| >= 2 && |s| - 2 == s[1]
    && ((s[0] == OP_0 && (s[1] == 20 || s[1] == 32)) || (OP_1 <= s[0] <= OP_16 && 2 <= s[1] <= 40))
  }

  /** The scripts that have an address, byte by byte. */
  predicate Known(s: seq<Byte>) {
    PaysKeyHash(s) || PaysScriptHash(s) || PaysKey(s) || PaysWitness(s)
  }

  /** The five forms around a key hash, a script hash, a key or a witness program. */
  lemma FormsAre(hash: seq<Byte>, key: seq<Byte>, version: Byte, program: seq<Byte>)
    requires |hash| == 20 && (|key| == 33 || |key| == 65) && 1 <= version <= 16 && 2 <= |program| <= 40
    ensures Known([0x76, 0xa9, 20] + hash + [0x88, 0xac]) && Known([0xa9, 20] + hash + [0x87])
    ensures Known([|key|] + key + [0xac]) && Known([0, 20] + hash) && Known([0x50 + version, |program|] + program)
  {
  }

  lemma KnownLength(s: seq<Byte>)
    ensures Known(s) ==> 2 <= |s| <= MAX_SCRIPT_LENGTH
  {
  }

  lemma FirstElement(s: seq<Byte>, off: nat)
    requires ElementsFrom(s, off).Some? && ElementsFrom(s, off).value != []
    ensures off < |s| && ElementsFrom(s, off).value[0] == off
    ensures ElementsFrom(s, ElementEnd(s, off)) == Some(ElementsFrom(s, off).value[1..])
  {
  }

  lemma NoElement(s: seq<Byte>, off: nat)
    requires ElementsFrom(s, off) == Some([])
    ensures off == |s|
  {
  }

  /** Elements end with the script when one after the other does. */
  lemma OneElement(s: seq<Byte>, off: nat, end: nat, rest: seq<nat>, all: seq<nat>)
    requires off < |s| && ElementEnd(s, off) == end && ElementsFrom(s, end) == Some(rest) && all == [off] + rest
    ensures ElementsFrom(s, off) == Some(all)
  {
  }

  lemma KeyHashElements(s: seq<Byte>)
    requires PaysKeyHash(s)
    ensures ElementsFrom(s, 0) == Some([0, 1, 2, 23, 24])
  {
    OneElement(s, 24, 25, [], [24]);
    OneElement(s, 23, 24, [24], [23, 24]);
    OneElement(s, 2, 23, [23, 24], [2, 23, 24]);
    OneElement(s, 1, 2, [2, 23, 24], [1, 2, 23, 24]);
    OneElement(s, 0, 1, [1, 2, 23, 24], [0, 1, 2, 23, 24]);
  }

  lemma ScriptHashElements(s: seq<Byte>)
    requires PaysScriptHash(s)
    ensures ElementsFrom(s, 0) == Some([0, 1, 22])
  {
    OneElement(s, 22, 23, [], [22]);
    OneElement(s, 1, 22, [22], [1, 22]);
    OneElement(s, 0, 1, [1, 22], [0, 1, 22]);
  }

  lemma KeyElements(s: seq<Byte>)
    requires PaysKey(s)
    ensures ElementsFrom(s, 0) == Some([0, |s| - 1])
  {
    OneElement(s, |s| - 1, |s|, [], [|s| - 1]);
    OneElement(s, 0, |s| - 1, [|s| - 1], [0, |s| - 1]);
  }

  lemma WitnessElements(s: seq<Byte>)
    requires PaysWitness(s)
    ensures ElementsFrom(s, 0) == Some([0, 1])
  {
    OneElement(s, 1, |s|, [], [1]);
    OneElement(s, 0, 1, [1], [0, 1]);
  }

  /** Where two elements stand. */
  lemma TwoElements(s: seq<Byte>, e: seq<nat>)
    requires |s| > 0 && ElementsFrom(s, 0) == Some(e) && |e| == 2
    ensures e[0] == 0 && e[1] == ElementEnd(s, 0) < |s| && ElementEnd(s, e[1]) == |s|
  {
    FirstElement(s, 0);
    FirstElement(s, e[1]);
    NoElement(s, ElementEnd(s, e[1]));
  }

  lemma ThreeElements(s: seq<Byte>, e: seq<nat>)
    requires |s| > 0 && ElementsFrom(s, 0) == Some(e) && |e| == 3
    ensures e[0] == 0 && e[1] == ElementEnd(s, 0) < |s| && e[2] == ElementEnd(s, e[1]) < |s|
    ensures ElementEnd(s, e[2]) == |s|
  {
    FirstElement(s, 0);
    FirstElement(s, e[1]);
    FirstElement(s, e[2]);
    NoElement(s, ElementEnd(s, e[2]));
  }

  lemma FiveElements(s: seq<Byte>, e: seq<nat>)
    requires |s| > 0 && ElementsFrom(s, 0) == Some(e) && |e| == 5
    ensures e[0] == 0 && e[1] == ElementEnd(s, 0) < |s| && e[2] == ElementEnd(s, e[1]) < |s|
    ensures e[3] == ElementEnd(s, e[2]) < |s| && e[4] == ElementEnd(s, e[3]) < |s| && ElementEnd(s, e[4]) == |s|
  {
    FirstElement(s, 0);
    FirstElement(s, e[1]);
    FirstElement(s, e[2]);
    FirstElement(s, e[3]);
    FirstElement(s, e[4]);
    NoElement(s, ElementEnd(s, e[4]));
  }

  /** The elements of a script tell exactly whether it is one of the five forms. */
  lemma KnownIs(s: seq<Byte>)
    requires 0 < |s| <= MAX_SCRIPT_LENGTH
    requires var r := ElementsFrom(s, 0); r.Some? ==> forall k | 0 <= k < |r.value| :: r.value[k] < |s|
    ensures Known(s) <==> ElementsFrom(s, 0).Some? && HasAddress(s, ElementsFrom(s, 0).value)
  {
    if PaysKeyHash(s) {
      KeyHashElements(s);
    } else if PaysScriptHash(s) {
      ScriptHashElements(s);
    } else if PaysKey(s) {
      KeyElements(s);
    } else if PaysWitness(s) {
      WitnessElements(s);
    }
    if ElementsFrom(s, 0).Some? && HasAddress(s, ElementsFrom(s, 0).value) {
      KnownIf(s, ElementsFrom(s, 0).value);
    }
  }

  lemma KnownIf(s: seq<Byte>, e: seq<nat>)
    requires |s| > 0 && ElementsFrom(s, 0) == Some(e) && (forall k | 0 <= k < |e| :: e[k] < |s|) && HasAddress(s, e)
    ensures Known(s)
  {
    if |e| == 2 {
      TwoElements(s, e);
    } else if |e| == 3 {
      ThreeElements(s, e);
    } else {
      FiveElements(s, e);
    }
  }
}
