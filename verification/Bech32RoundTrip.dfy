/** Decoding undoes encoding (BRBech32.c). */
module Bech32RoundTrip {

  import opened Options
  import opened Bech32
  import C = Bech32Checksum
  import G = Bech32Groups

  // ---- the text ----

  lemma TextMarked(hrp: seq<Char>, digits: seq<bv8>)
    requires PrefixOk(hrp) && AllDigits(digits)
    ensures IsSeparator(Text(hrp, digits), |hrp|)
    ensures AllPrintable(Text(hrp, digits)) && !HasUpper(Text(hrp, digits))
  {
    var s := Text(hrp, digits);
    forall k | 0 <= k < |s|
      ensures Printable(s[k]) && !IsUpper(s[k]) && (k > |hrp| ==> s[k] != SEPARATOR)
    {
      if k > |hrp| {
        CharsAndDigits(digits[k - |hrp| - 1]);
      }
    }
  }

  lemma TextRead(hrp: seq<Char>, digits: seq<bv8>)
    requires PrefixOk(hrp) && AllDigits(digits) && digits != []
    ensures Prefix(Text(hrp, digits), |hrp|) == hrp && DataPart(Text(hrp, digits), |hrp|) == digits
  {
    var s := Text(hrp, digits);
    forall k | 0 <= k < |digits| ensures DigitOf(Lower(s[|hrp| + 1 + k])) == digits[k] {
      CharsAndDigits(digits[k]);
    }
  }

  lemma DigitSmall(data: seq<bv8>, j: nat)
    ensures G.Digit(data, j) < 32
  {
    var k := j / 8 * 5;
    GroupDigitSmall(j % 8, G.ByteAt(data, k), G.ByteAt(data, k + 1), G.ByteAt(data, k + 2), G.ByteAt(data, k + 3),
                    G.ByteAt(data, k + 4));
  }

  lemma GroupDigitSmall(r: nat, b0: bv8, b1: bv8, b2: bv8, b3: bv8, b4: bv8)
    ensures G.GroupDigit(r, b0, b1, b2, b3, b4) < 32
  {
  }

  lemma CheckDigitSmall(c: C.Word, j: nat)
    ensures CheckDigit(c, j) < 32 && CheckDigit(c, j) as C.Word == C.DigitOf(c, j)
  {
  }

  lemma AllSmall(data: seq<bv8>, c: C.Word)
    requires IsScript(data) && VersionOf(data[0]) <= 16
    ensures AllDigits(Coded(data) + CheckDigits(c))
  {
    var ds := Coded(data);
    forall k | 0 <= k < |ds| + 6 ensures (ds + CheckDigits(c))[k] < 32 {
      if 0 < k < |ds| {
        DigitSmall(Witness(data), k - 1);
      } else if k >= |ds| {
        CheckDigitSmall(c, k - |ds|);
      }
    }
  }

  // ---- the checksum ----

  lemma ValuesBehind(hrp: seq<Char>, digits: seq<bv8>, c: C.Word)
    ensures C.EndsWithDigits(Values(hrp, digits + CheckDigits(c)), 2 * |hrp| + 1 + |digits|, c)
  {
    var n, all := 2 * |hrp| + 1 + |digits|, digits + CheckDigits(c);
    forall j | 0 <= j < 6 ensures Values(hrp, all)[n + j] == C.DigitOf(c, j) {
      assert Values(hrp, all)[n + j] == ValueAt(hrp, all, n + j) == all[|digits| + j] as C.Word;
      CheckDigitSmall(c, j);
    }
  }

  lemma ValuesBefore(hrp: seq<Char>, digits: seq<bv8>, c: C.Word, k: nat)
    requires k < 2 * |hrp| + 1 + |digits|
    ensures Fed(hrp, digits)[k] == Values(hrp, digits + CheckDigits(c))[k]
  {
  }

  lemma ZerosBehind(hrp: seq<Char>, digits: seq<bv8>, i: nat)
    requires 2 * |hrp| + 1 + |digits| <= i < 2 * |hrp| + 1 + |digits| + 6
    ensures Fed(hrp, digits)[i] == 0
  {
  }

  lemma Leaves(values: seq<C.Word>, fed: seq<C.Word>, n: nat, c: C.Word)
    requires |values| == |fed| == n + 6 && (forall k | 0 <= k < n :: fed[k] == values[k])
    requires (forall i | n <= i < n + 6 :: fed[i] == 0) && C.EndsWithDigits(values, n, c)
    requires c == C.Xor(C.Residue(fed), 1)
    ensures C.Residue(values) == 1
  {
    C.ResidueOfZeros(values, fed, n);
    C.ResidueBy(values, n, C.Residue(fed), c);
  }

  /** The checksum digits make the whole text leave 1. */
  lemma LeavesOne(hrp: seq<Char>, digits: seq<bv8>, c: C.Word, part: seq<bv8>)
    requires c == Check(hrp, digits) && part == digits + CheckDigits(c)
    ensures C.Residue(Values(hrp, part)) == 1
  {
    var n, values, fed := 2 * |hrp| + 1 + |digits|, Values(hrp, part), Fed(hrp, digits);
    forall k | 0 <= k < n ensures fed[k] == values[k] {
      ValuesBefore(hrp, digits, c, k);
    }
    forall i | n <= i < n + 6 ensures fed[i] == 0 {
      ZerosBehind(hrp, digits, i);
    }
    ValuesBehind(hrp, digits, c);
    Leaves(values, fed, n, c);
  }

  lemma LeftBy(values: seq<C.Word>, fed: seq<C.Word>, n: nat, c: C.Word, check: C.Word)
    requires |values| == |fed| == n + 6 && (forall k | 0 <= k < n :: fed[k] == values[k])
    requires (forall i | n <= i < n + 6 :: fed[i] == 0) && C.EndsWithDigits(values, n, c)
    requires c < 0x40000000 && C.Residue(values) == 1 && check == C.Xor(C.Residue(fed), 1)
    ensures c == check
  {
    C.ResidueOfZeros(values, fed, n);
    C.ResidueOnlyThen(1, values, n, c);
  }

  /** No other checksum does. */
  lemma OnlyCheck(hrp: seq<Char>, digits: seq<bv8>, c: C.Word, part: seq<bv8>, check: C.Word)
    requires c < 0x40000000 && part == digits + CheckDigits(c) && C.Residue(Values(hrp, part)) == 1
    requires check == Check(hrp, digits)
    ensures c == check
  {
    var n, values, fed := 2 * |hrp| + 1 + |digits|, Values(hrp, part), Fed(hrp, digits);
    forall k | 0 <= k < n ensures fed[k] == values[k] {
      ValuesBefore(hrp, digits, c, k);
    }
    forall i | n <= i < n + 6 ensures fed[i] == 0 {
      ZerosBehind(hrp, digits, i);
    }
    ValuesBehind(hrp, digits, c);
    LeftBy(values, fed, n, c, check);
  }

  // ---- the program ----

  lemma ByteBack(data: seq<bv8>, ds: seq<bv8>, i: nat)
    requires ds == G.Digits(data) && i < |data|
    ensures G.Byte(ds, |ds|, i) == data[i]
  {
    G.BytesRestored(data, i / 5, i % 5);
  }

  lemma ProgramBack(data: seq<bv8>, ds: seq<bv8>)
    requires ds == G.Digits(data)
    ensures Program(ds) == data
  {
    G.CountRestored(|data|);
    forall i | 0 <= i < |data| ensures Program(ds)[i] == data[i] {
      ByteBack(data, ds, i);
    }
  }

  lemma PayloadBack(data: seq<bv8>, c: C.Word)
    requires IsScript(data)
    ensures Payload(Coded(data) + CheckDigits(c)) == G.Digits(Witness(data))
  {
  }

  lemma ScriptBack(data: seq<bv8>, c: C.Word, part: seq<bv8>)
    requires IsScript(data) && !(0 < data[0] < OP_1) && VersionOf(data[0]) <= 16 && data[1] as nat <= 40
    requires part == Coded(data) + CheckDigits(c)
    ensures (|part| - 7) * 5 / 8 == data[1] as nat && part[0] <= 16
    ensures ScriptOf(part) == data[..2 + data[1] as nat]
  {
    G.CountRestored(data[1] as nat);
    PayloadBack(data, c);
    ProgramBack(Witness(data), Payload(part));
    OpcodeBack(data[0]);
    Joined(data, part, Program(Payload(part)));
  }

  lemma Joined(data: seq<bv8>, part: seq<bv8>, program: seq<bv8>)
    requires IsScript(data) && program == Witness(data) && |part| >= 7 && OpcodeOf(part[0]) == data[0]
    requires (|part| - 7) * 5 / 8 == data[1] as nat
    ensures [OpcodeOf(part[0]), ((|part| - 7) * 5 / 8) as bv8] + program == data[..2 + data[1] as nat]
  {
  }

  // ---- the law ----

  /** Whether an encoded address is one: it has a prefix and at most 90 characters. */
  ghost predicate Fits(hrp: seq<Char>, len: nat) {
    1 <= |hrp| && |hrp| + 8 + G.DigitCount(len) <= 90
  }

  lemma MeaningIs(s: seq<Char>, hrp: seq<Char>, part: seq<bv8>, script: seq<bv8>, len: nat)
    requires IsSeparator(s, |hrp|) && AllPrintable(s) && !HasUpper(s) && |s| == |hrp| + 1 + |part|
    requires |part| == 7 + G.DigitCount(len) && 2 <= len <= 40 && len == (|part| - 7) * 5 / 8
    requires Prefix(s, |hrp|) == hrp && DataPart(s, |hrp|) == part && AllDigits(part)
    requires part[0] <= 16 && ScriptOf(part) == script
    ensures WellFormed(s, |hrp|) <==> Fits(hrp, len)
    ensures Fits(hrp, len) ==> MeaningBy(s, |hrp|, 1) == Some(Address(hrp, script))
  {
  }

  /** Everything about an encoded address but its checksum. */
  lemma MeaningOfEncoded(hrp: seq<Char>, data: seq<bv8>, c: C.Word, part: seq<bv8>, s: seq<Char>)
    requires IsScript(data) && Encodable(hrp, data) && part == Coded(data) + CheckDigits(c) && s == Text(hrp, part)
    ensures IsSeparator(s, |hrp|) && Prefix(s, |hrp|) == hrp && DataPart(s, |hrp|) == part
    ensures WellFormed(s, |hrp|) <==> Fits(hrp, data[1] as nat)
    ensures WellFormed(s, |hrp|) ==> MeaningBy(s, |hrp|, 1) == Some(Address(hrp, data[..2 + data[1] as nat]))
  {
    AllSmall(data, c);
    TextMarked(hrp, part);
    TextRead(hrp, part);
    ScriptBack(data, c, part);
    MeaningIs(s, hrp, part, data[..2 + data[1] as nat], data[1] as nat);
  }

  lemma DecodesTo(s: seq<Char>, hrp: seq<Char>, part: seq<bv8>, chk: C.Word)
    requires |s| == |hrp| + 1 + |part| && Prefix(s, |hrp|) == hrp && DataPart(s, |hrp|) == part
    requires chk == C.Residue(Values(hrp, part))
    ensures DecodedAt(s, |hrp|) == if WellFormed(s, |hrp|) then MeaningBy(s, |hrp|, chk) else None
  {
  }

  lemma DecodesIfSummed(hrp: seq<Char>, data: seq<bv8>, c: C.Word, part: seq<bv8>, s: seq<Char>, chk: C.Word)
    requires IsScript(data) && Encodable(hrp, data) && part == Coded(data) + CheckDigits(c) && s == Text(hrp, part)
    requires chk == 1 && chk == C.Residue(Values(hrp, part))
    ensures IsSeparator(s, |hrp|)
    ensures DecodedAt(s, |hrp|) ==
            if Fits(hrp, data[1] as nat) then Some(Address(hrp, data[..2 + data[1] as nat])) else None
  {
    MeaningOfEncoded(hrp, data, c, part, s);
    DecodesTo(s, hrp, part, chk);
  }

  /**
   * Decoding an encoded script returns prefix and script exactly if the address fits. The encoder's own check
   * counts bytes of the program instead of digits, and lets an empty prefix pass.
   */
  lemma DecodeEncoded(hrp: seq<Char>, data: seq<bv8>)
    requires IsScript(data) && Encodable(hrp, data)
    ensures IsSeparator(Encoded(hrp, data), |hrp|)
    ensures DecodedAt(Encoded(hrp, data), |hrp|) ==
            if Fits(hrp, data[1] as nat) then Some(Address(hrp, data[..2 + data[1] as nat])) else None
  {
    var c := Check(hrp, Coded(data));
    var part := Coded(data) + CheckDigits(c);
    LeavesOne(hrp, Coded(data), c, part);
    DecodesIfSummed(hrp, data, c, part, Text(hrp, part), 1);
  }

  /** Text and terminating zero stay within the encoder's buffer of 91 characters just when they fit in this sense. */
  lemma EncodedLength(hrp: seq<Char>, data: seq<bv8>)
    requires IsScript(data) && Encodable(hrp, data)
    ensures |Encoded(hrp, data)| + 1 <= 91 <==> |hrp| + 8 + G.DigitCount(data[1] as nat) <= 90
  {
  }

  /** Any prefix of at most 18 characters fits, and so do the ones the wallet uses. */
  lemma ShortPrefixIsRestored(hrp: seq<Char>, data: seq<bv8>)
    requires IsScript(data) && Encodable(hrp, data) && 1 <= |hrp| <= 18
    ensures DecodedAt(Encoded(hrp, data), |hrp|) == Some(Address(hrp, data[..2 + data[1] as nat]))
  {
    DecodeEncoded(hrp, data);
  }

  /** A prefix of 80 characters passes the encoder, but its address has 92 characters: more than the decoder accepts,
      and more than the buffer of the C code holds. */
  lemma LongPrefixIsLost() returns (hrp: seq<Char>, data: seq<bv8>)
    ensures IsScript(data) && Encodable(hrp, data) && DecodedAt(Encoded(hrp, data), |hrp|) == None
  {
    hrp, data := seq(80, _ => 97), [0, 2, 7, 7];
    DecodeEncoded(hrp, data);
  }
}
